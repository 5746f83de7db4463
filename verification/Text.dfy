/** Program text as bytes, and the machine that fetches, decodes and runs it. */
module Text {
  import opened Words
  import opened Results
  import opened Riscv
  import opened Encoding

  // ---- little-endian dump ------------------------------------------------------------------

  function WordBytes(w: Word): (bs: seq<Byte>)
    ensures |bs| == 4
  {
    [w % 0x100, (w / 0x100) % 0x100, (w / 0x1_0000) % 0x100, w / 0x100_0000]
  }

  function Dump(words: seq<Word>): (bs: seq<Byte>)
    ensures |bs| == 4 * |words|
  {
    if words == [] then [] else Dump(words[..|words| - 1]) + WordBytes(words[|words| - 1])
  }

  function Fetch(text: seq<Byte>, offset: nat): Word
    requires offset + 4 <= |text|
  {
    var b0: int, b1: int, b2: int, b3: int := text[offset], text[offset + 1], text[offset + 2], text[offset + 3];
    b0 + 0x100 * b1 + 0x1_0000 * b2 + 0x100_0000 * b3
  }

  /** The words are in the text at the given offset. */
  predicate Contains(text: seq<Byte>, offset: nat, words: seq<Word>) {
    offset + 4 * |words| <= |text| && text[offset..offset + 4 * |words|] == Dump(words)
  }

  lemma DumpAppend(a: seq<Word>, w: Word)
    ensures Dump(a + [w]) == Dump(a) + WordBytes(w)
  {
    assert (a + [w])[..|a|] == a;
  }

  lemma {:induction false} DumpConcat(a: seq<Word>, b: seq<Word>)
    ensures Dump(a + b) == Dump(a) + Dump(b)
  {
    if b == [] {
      assert a + b == a;
    } else {
      var b', w := b[..|b| - 1], b[|b| - 1];
      assert a + b == (a + b') + [w] && b == b' + [w];
      DumpAppend(a + b', w);
      DumpAppend(b', w);
      DumpConcat(a, b');
    }
  }

  lemma FetchWordBytes(w: Word)
    ensures Fetch(WordBytes(w), 0) == w
  {
    JoinBytes(w);
  }

  /** A text that contains words contains each part of them. */
  lemma ContainsPart(text: seq<Byte>, offset: nat, a: seq<Word>, b: seq<Word>, c: seq<Word>)
    requires Contains(text, offset, a + b + c)
    ensures Contains(text, offset + 4 * |a|, b)
  {
    DumpConcat(a + b, c);
    DumpConcat(a, b);
    hide Dump;
    SlicePart(text, offset, Dump(a), Dump(b), Dump(c));
  }

  lemma SlicePart(text: seq<Byte>, offset: nat, a: seq<Byte>, b: seq<Byte>, c: seq<Byte>)
    requires offset + |a| + |b| + |c| <= |text| && text[offset..offset + |a| + |b| + |c|] == a + b + c
    ensures text[offset + |a|..offset + |a| + |b|] == b
  {
    var all := text[offset..offset + |a| + |b| + |c|];
    forall k | 0 <= k < |b|
      ensures text[offset + |a| + k] == b[k]
    {
      assert all[|a| + k] == (a + b + c)[|a| + k];
    }
  }

  lemma FetchContained(text: seq<Byte>, offset: nat, words: seq<Word>, k: nat)
    requires Contains(text, offset, words) && k < |words|
    ensures offset + 4 * k + 4 <= |text| && Fetch(text, offset + 4 * k) == words[k]
  {
    assert words == words[..k] + [words[k]] + words[k + 1..];
    ContainsPart(text, offset, words[..k], [words[k]], words[k + 1..]);
    var at := offset + 4 * k;
    assert Dump([words[k]]) == WordBytes(words[k]) by {
      DumpAppend([], words[k]);
      assert [] + [words[k]] == [words[k]];
    }
    var four := text[at..at + 4];
    assert four[0] == text[at] && four[1] == text[at + 1] && four[2] == text[at + 2] && four[3] == text[at + 3];
    FetchWordBytes(words[k]);
  }

  // ---- running -----------------------------------------------------------------------------

  /** One step: fetch at the program counter, decode, execute. None when the program counter is outside
      the text or misaligned, when the word is no instruction, and at an environment call. */
  function Step(text: seq<Byte>, base: Word, m: Machine): Option<Machine> {
    if m.pc < base || m.pc - base + 4 > |text| || m.pc % 4 != 0 then None
    else
      var i := Decode(Fetch(text, m.pc - base));
      if i.None? then None else StepInstr(i.value, m)
  }

  function RunSteps(text: seq<Byte>, base: Word, m: Machine, steps: nat): Option<Machine>
    decreases steps
  {
    if steps == 0 then Some(m)
    else
      var next := Step(text, base, m);
      if next.None? then None else RunSteps(text, base, next.value, steps - 1)
  }

  function EncodeAll(code: seq<Instr>): (words: seq<Word>)
    ensures |words| == |code|
    ensures forall k :: 0 <= k < |code| ==> words[k] == Encode(code[k])
  {
    seq(|code|, k requires 0 <= k < |code| => Encode(code[k]))
  }

  lemma EncodeAllConcat(a: seq<Instr>, b: seq<Instr>)
    ensures EncodeAll(a + b) == EncodeAll(a) + EncodeAll(b)
  {
  }

  lemma {:induction false} RunAdd(text: seq<Byte>, base: Word, m: Machine, a: nat, b: nat)
    requires RunSteps(text, base, m, a).Some?
    ensures RunSteps(text, base, m, a + b) == RunSteps(text, base, RunSteps(text, base, m, a).value, b)
    decreases a
  {
    hide Step;
    if a == 0 {
    } else {
      RunAdd(text, base, Step(text, base, m).value, a - 1, b);
    }
  }

  /** Where the text lies in the address space. */
  predicate Placed(text: seq<Byte>, base: Word) {
    base % 4 == 0 && base + |text| < 0x1_0000_0000
  }

  /** The machine executes an encoded instruction as that instruction. */
  lemma StepEncoded(text: seq<Byte>, base: Word, offset: nat, code: seq<Instr>, k: nat, m: Machine)
    requires Placed(text, base) && Contains(text, offset, EncodeAll(code)) && offset % 4 == 0
    requires k < |code| && m.pc == base + offset + 4 * k
    ensures Step(text, base, m) == StepInstr(code[k], m)
  {
    hide Encode, Decode, StepInstr, Fetch;
    FetchContained(text, offset, EncodeAll(code), k);
    DecodeEncode(code[k]);
    NormalSame(code[k], m);
    assert m.pc % 4 == 0;
  }

  /** Straight-line code in the text runs through, with the effect of executing it. */
  lemma {:induction false} RunStraight(text: seq<Byte>, base: Word, offset: nat, code: seq<Instr>, m: Machine)
    requires Placed(text, base) && Contains(text, offset, EncodeAll(code)) && offset % 4 == 0
    requires AllStraight(code) && m.pc == base + offset
    ensures base + offset + 4 * |code| < 0x1_0000_0000
    ensures RunSteps(text, base, m, |code|) == Some(Machine(ExecuteAll(code, m.cpu), base + offset + 4 * |code|))
    decreases |code|
  {
    hide Step, StepInstr, Execute, Dump, Encode;
    if code == [] {
    } else {
      var n := |code| - 1;
      var prefix, last := code[..n], code[n];
      assert code == prefix + [last];
      assert EncodeAll(code) == [] + EncodeAll(prefix) + [Encode(last)];
      ContainsPart(text, offset, [], EncodeAll(prefix), [Encode(last)]);
      RunStraight(text, base, offset, prefix, m);
      hide Contains, RunSteps;
      var mid := Machine(ExecuteAll(prefix, m.cpu), base + offset + 4 * n);
      RunAdd(text, base, m, n, 1);
      StepEncoded(text, base, offset, code, n, mid);
      ExecuteAppend(prefix, last, m.cpu);
      OneStep(text, base, mid);
      StepStraight(last, mid);
    }
  }

  lemma OneStep(text: seq<Byte>, base: Word, m: Machine)
    ensures RunSteps(text, base, m, 1) == Step(text, base, m)
  {
  }

  lemma StepStraight(i: Instr, m: Machine)
    requires i.Straight()
    ensures StepInstr(i, m) == Some(Machine(Execute(i, m.cpu), ToWord(m.pc + 4)))
  {
  }
}
