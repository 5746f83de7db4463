/** The code in front of a program that calls main. */
module Runtime {
  import opened Words
  import opened Results
  import opened Riscv
  import opened Encoding
  import opened Text
  import opened Instructions
  import opened LoweredValues
  import opened FunctionCorrectness

  // ---- the runtime stub --------------------------------------------------------------------

  /** The distance from the stub to main: main is shifted by the four instructions of the stub. */
  function ShiftedMainOffset(mainOffset: nat): Word {
    ToWord(ToWord(mainOffset) + 16)
  }

  function RuntimeCode(mainOffset: nat): seq<Instr> {
    var shifted := ShiftedMainOffset(mainOffset);
    [Auipc(RA, shifted), Jalr(RA, RA, shifted), AluImm(ADDI, A7, ZERO, 93), Ecall]
  }

  /** Where the two instructions of the call lead: to main, or 4096 bytes before it if bit 11 of the shifted
      offset is set, because the upper part is not compensated for the sign of the lower part. */
  function CallLands(base: Word, mainOffset: nat): Word
    requires base + 16 + mainOffset < 0x1_0000_0000
  {
    if (mainOffset + 16) % 4096 < 2048 then base + 16 + mainOffset else ToWord(base + 16 + mainOffset - 4096)
  }

  lemma CallTarget(base: Word, mainOffset: nat)
    requires base % 4 == 0 && mainOffset % 4 == 0 && base + 16 + mainOffset < 0x1_0000_0000
    ensures var s := mainOffset + 16;
            var t := ToWord(ToWord(base + Upper(s)) + SignExtend12(s));
            t % 2 == 0 && t == CallLands(base, mainOffset)
  {
    hide Upper, SignExtend12, ToWord;
    var s := mainOffset + 16;
    var low := s % 4096;
    SplitImmediateParts(s);
    WordIsWord(base + s - low);
    SumEven(base, s);
    if low < 2048 {
      WordIsWord(base + s);
    } else {
      WrapBelow(base + s);
    }
  }

  lemma LandsIff(base: Word, mainOffset: nat)
    requires base + 16 + mainOffset < 0x1_0000_0000
    ensures CallLands(base, mainOffset) == base + 16 + mainOffset <==> (mainOffset + 16) % 4096 < 2048
  {
    hide ToWord;
    WrapMoves(base + 16 + mainOffset);
  }

  lemma WrapMoves(x: Word)
    ensures ToWord(x - 4096) != x
  {
  }

  lemma SumEven(a: nat, b: nat)
    requires a % 4 == 0 && b % 4 == 0
    ensures (a + b) % 2 == 0
  {
  }

  lemma WrapBelow(x: Word)
    requires x % 2 == 0
    ensures ToWord(x - 4096) != x && ToWord(x - 4096) % 2 == 0
  {
    if x >= 4096 {
      WordIsWord(x - 4096);
    } else {
      assert ToWord(x - 4096) == x - 4096 + 0x1_0000_0000;
    }
  }

  lemma RuntimeCodeIs(mainOffset: nat)
    requires mainOffset + 16 < 0x1_0000_0000
    ensures var code, s := RuntimeCode(mainOffset), mainOffset + 16;
            && |code| == 4 && code[0] == Auipc(RA, s) && code[1] == Jalr(RA, RA, s)
            && code[2] == AluImm(ADDI, A7, ZERO, 93) && code[3] == Ecall
  {
  }

  /** The stub, word by word: auipc x1, jalr x1 by way of x1, addi x17 from x0 with 93, ecall. */
  lemma StubWords(mainOffset: nat)
    requires mainOffset + 16 < 0x1_0000_0000
    ensures var s := mainOffset + 16;
            EncodeAll(RuntimeCode(mainOffset)) ==
            [0x0000_0097 + (s - s % 4096), 0x0000_80E7 + 0x10_0000 * (s % 4096), 0x05D0_0893, 0x0000_0073]
  {
    hide Encode;
    RuntimeCodeIs(mainOffset);
    StubEncodes(mainOffset + 16);
  }

  lemma StubEncodes(s: Word)
    ensures Encode(Auipc(RA, s)) == 0x0000_0097 + (s - s % 4096)
    ensures Encode(Jalr(RA, RA, s)) == 0x0000_80E7 + 0x10_0000 * (s % 4096)
    ensures Encode(AluImm(ADDI, A7, ZERO, 93)) == 0x05D0_0893
    ensures Encode(Ecall) == 0x0000_0073
  {
    hide EncodeIType, EncodeUType;
    UTypeValue(0x17, RA, s);
    ITypeValue(0x67, RA, 0, RA, s);
    ITypeValue(0x13, A7, 0, ZERO, 93);
    ITypeValue(0x73, ZERO, 0, ZERO, 0);
  }

  /** The machine behind the first instruction of the stub. */
  function AfterAuipc(base: Word, mainOffset: nat, c: Cpu): Machine
    requires base + 4 < 0x1_0000_0000
  {
    Machine(c.Set(RA, ToWord(base + Upper(mainOffset + 16))), base + 4)
  }

  lemma PlacedBelow(text: seq<Byte>, base: Word, n: nat)
    requires Placed(text, base) && n < |text|
    ensures base + n < 0x1_0000_0000 && base % 4 == 0
  {
  }

  lemma FirstStep(text: seq<Byte>, base: Word, mainOffset: nat, m: Machine)
    requires Placed(text, base) && Contains(text, 0, EncodeAll(RuntimeCode(mainOffset)))
    requires m.pc == base && mainOffset + 16 < |text|
    ensures RunSteps(text, base, m, 1) == Some(AfterAuipc(base, mainOffset, m.cpu))
  {
    hide Encode, Contains, EncodeAll, Step, StepInstr, RuntimeCode, Upper, SignExtend12, ToWord, Cpu.Set,
         RunSteps, Placed;
    PlacedBelow(text, base, mainOffset + 16);
    RuntimeCodeIs(mainOffset);
    assert m == Machine(m.cpu, base);
    CallSteps(base, mainOffset + 16, m.cpu);
    assert StepInstr(RuntimeCode(mainOffset)[0], m) == Some(AfterAuipc(base, mainOffset, m.cpu));
    StepEncoded(text, base, 0, RuntimeCode(mainOffset), 0, m);
    assert Step(text, base, m).Some?;
    OneStep(text, base, m);
  }

  lemma SecondStep(text: seq<Byte>, base: Word, mainOffset: nat, c: Cpu)
    requires Placed(text, base) && Contains(text, 0, EncodeAll(RuntimeCode(mainOffset)))
    requires mainOffset % 4 == 0 && mainOffset + 16 < |text|
    ensures RunSteps(text, base, AfterAuipc(base, mainOffset, c), 1)
         == Some(Machine(c.Set(RA, base + 8), CallLands(base, mainOffset)))
  {
    hide Encode, Contains, EncodeAll, Step, StepInstr, RuntimeCode, Upper, SignExtend12, ToWord, Cpu.Set,
         RunSteps, CallLands, Placed;
    PlacedBelow(text, base, mainOffset + 16);
    RuntimeCodeIs(mainOffset);
    CallSteps(base, mainOffset + 16, c);
    CallTarget(base, mainOffset);
    var m1 := AfterAuipc(base, mainOffset, c);
    assert StepInstr(RuntimeCode(mainOffset)[1], m1) == Some(Machine(c.Set(RA, base + 8), CallLands(base, mainOffset)));
    StepEncoded(text, base, 0, RuntimeCode(mainOffset), 1, m1);
    assert Step(text, base, m1).Some?;
    OneStep(text, base, m1);
  }

  /** Control reaches the first instruction of main exactly when bit 11 of the shifted offset is clear. */
  lemma StubCalls(text: seq<Byte>, base: Word, mainOffset: nat, m: Machine)
    requires Placed(text, base) && Contains(text, 0, EncodeAll(RuntimeCode(mainOffset)))
    requires m.pc == base && mainOffset % 4 == 0 && mainOffset + 16 < |text|
    ensures RunSteps(text, base, m, 2).Some?
    ensures var m' := RunSteps(text, base, m, 2).value;
            && m'.pc == CallLands(base, mainOffset)
            && (m'.pc == base + 16 + mainOffset <==> (mainOffset + 16) % 4096 < 2048)
            && m'.cpu == m.cpu.Set(1, base + 8)
  {
    hide Encode, Contains, EncodeAll, RuntimeCode, RunSteps, Cpu.Set, CallLands, AfterAuipc;
    FirstStep(text, base, mainOffset, m);
    SecondStep(text, base, mainOffset, m.cpu);
    LandsIff(base, mainOffset);
    RunAdd(text, base, m, 1, 1);
  }

  /** After the two instructions of the call, the machine is at the first instruction of main. */
  predicate EntersMain(text: seq<Byte>, base: Word, m: Machine, mainOffset: nat) {
    var m' := RunSteps(text, base, m, 2);
    m'.Some? && m'.value.pc == base + 16 + mainOffset
  }

  lemma CallSteps(base: Word, s: Word, c: Cpu)
    requires base + 8 < 0x1_0000_0000
    ensures StepInstr(Auipc(RA, s), Machine(c, base)) == Some(Machine(c.Set(RA, ToWord(base + Upper(s))), base + 4))
    ensures var t := ToWord(ToWord(base + Upper(s)) + SignExtend12(s));
            StepInstr(Jalr(RA, RA, s), Machine(c.Set(RA, ToWord(base + Upper(s))), base + 4)) ==
            Some(Machine(c.Set(RA, base + 8), t - t % 2))
  {
    hide Upper, SignExtend12;
    WordIsWord(base + 4);
    WordIsWord(base + 8);
    SetSet(c, RA, ToWord(base + Upper(s)), base + 8);
  }

  /** After main has returned, one instruction loads the number of the exit call; a0 is still the result. */
  lemma StubExits(text: seq<Byte>, base: Word, mainOffset: nat, m: Machine)
    requires Placed(text, base) && Contains(text, 0, EncodeAll(RuntimeCode(mainOffset)))
    requires m.pc == base + 8 && base + 16 < 0x1_0000_0000
    ensures 16 <= |text| && Decode(Fetch(text, 12)) == Some(Ecall)
    ensures RunSteps(text, base, m, 1) == Some(Machine(m.cpu.Set(17, 93), base + 12))
  {
    hide Contains, EncodeAll, Step, StepInstr, Encode, Decode, Fetch;
    var code := RuntimeCode(mainOffset);
    StepEncoded(text, base, 0, code, 2, m);
    LoadExitNumber(m);
    OneStep(text, base, m);
    EncodeLast(mainOffset);
    FetchContained(text, 0, EncodeAll(code), 3);
    DecodeEcall();
  }

  lemma EncodeLast(mainOffset: nat)
    ensures EncodeAll(RuntimeCode(mainOffset))[3] == Encode(Ecall)
  {
    hide Encode;
  }

  lemma LoadExitNumber(m: Machine)
    requires m.pc + 4 < 0x1_0000_0000
    ensures StepInstr(AluImm(ADDI, A7, ZERO, 93), m) == Some(Machine(m.cpu.Set(A7, 93), m.pc + 4))
  {
    WordIsWord(m.pc + 4);
    SmallImmediate(93);
  }

  /** A program that has been stopped at its exit call, with this result. */
  ghost predicate ExitsWith(text: seq<Byte>, base: Word, m: Machine, result: Word) {
    exists steps: nat, m' :: RunSteps(text, base, m, steps) == Some(m') && AtExit(text, base, m', result)
  }

  predicate AtExit(text: seq<Byte>, base: Word, m: Machine, result: Word) {
    && m.pc == base + 12 && 16 <= |text| && Decode(Fetch(text, 12)) == Some(Ecall)
    && m.cpu.Get(17) == 93 && m.cpu.Get(10) == result
  }

  /** If main returns from a run, so does the stub around it. */
  lemma StubRuns(text: seq<Byte>, base: Word, mainOffset: nat, m: Machine, size: nat, result: Word)
    requires Placed(text, base) && Contains(text, 0, EncodeAll(RuntimeCode(mainOffset)))
    requires m.pc == base && mainOffset % 4 == 0 && mainOffset + 16 < |text| && (mainOffset + 16) % 4096 < 2048
    requires var m1 := Machine(m.cpu.Set(RA, base + 8), base + 16 + mainOffset);
             exists steps: nat, m2 :: RunSteps(text, base, m1, steps) == Some(m2) && Returned(m1, m2, size, result)
    ensures ExitsWith(text, base, m, result)
  {
    hide Encode, Contains, EncodeAll, Step, Decode, Fetch, RunSteps, Returned, RuntimeCode, Cpu.Set, Cpu.Get, AtExit;
    StubCalls(text, base, mainOffset, m);
    var m1 := Machine(m.cpu.Set(RA, base + 8), base + 16 + mainOffset);
    var steps: nat, m2 :| RunSteps(text, base, m1, steps) == Some(m2) && Returned(m1, m2, size, result);
    RunAdd(text, base, m, 2, steps);
    SumEven(base, 8);
    SetSet(m.cpu, RA, base + 8, 0);
    ReturnedParts(m1, m2, size, result);
    ExitReached(text, base, mainOffset, m2, result);
    RunAdd(text, base, m, 2 + steps, 1);
    assert RunSteps(text, base, m, 2 + steps + 1) == Some(Machine(m2.cpu.Set(17, 93), base + 12));
  }

  lemma ExitReached(text: seq<Byte>, base: Word, mainOffset: nat, m: Machine, result: Word)
    requires Placed(text, base) && Contains(text, 0, EncodeAll(RuntimeCode(mainOffset)))
    requires m.pc == base + 8 && base + 16 < 0x1_0000_0000 && m.cpu.Get(10) == result
    ensures RunSteps(text, base, m, 1) == Some(Machine(m.cpu.Set(17, 93), base + 12))
    ensures AtExit(text, base, Machine(m.cpu.Set(17, 93), base + 12), result)
  {
    hide Encode, Contains, EncodeAll, Step, Decode, Fetch, RunSteps, RuntimeCode, Cpu.Set, Cpu.Get;
    StubExits(text, base, mainOffset, m);
    SetSet(m.cpu, 17, 93, 0);
  }

  lemma ReturnedParts(m: Machine, m': Machine, size: nat, value: Word)
    requires Returned(m, m', size, value)
    ensures m.cpu.Get(1) % 2 == 0 ==> m'.pc == m.cpu.Get(1)
    ensures m'.cpu.Get(10) == value
  {
  }

  /** What a missed main leads to, when the stub jumps to an address before the text: the program never gets to
      its exit call. */
  lemma MissedMainNeverExits(text: seq<Byte>, base: Word, mainOffset: nat, m: Machine, result: Word)
    requires Placed(text, base) && Contains(text, 0, EncodeAll(RuntimeCode(mainOffset)))
    requires m.pc == base && mainOffset % 4 == 0 && mainOffset + 16 < |text|
    requires 2048 <= mainOffset + 16 < 4096 <= base
    ensures !ExitsWith(text, base, m, result)
  {
    hide Encode, Contains, EncodeAll, Step, Decode, Fetch, RunSteps, RuntimeCode, Cpu.Set, Cpu.Get;
    StubCalls(text, base, mainOffset, m);
    var m2 := RunSteps(text, base, m, 2).value;
    WordIsWord(base + 16 + mainOffset - 4096);
    OutsideStops(text, base, m2);
    forall steps: nat, m' | RunSteps(text, base, m, steps) == Some(m')
      ensures m'.pc != base + 12
    {
      if steps == 0 {
        NoSteps(text, base, m);
      } else if steps == 1 {
        FirstStep(text, base, mainOffset, m);
      } else {
        RunAdd(text, base, m, 2, steps - 2);
        if steps == 2 {
          NoSteps(text, base, m2);
        } else {
          StuckStops(text, base, m2, steps - 2);
        }
      }
    }
  }

  lemma NoSteps(text: seq<Byte>, base: Word, m: Machine)
    ensures RunSteps(text, base, m, 0) == Some(m)
  {
  }

  lemma OutsideStops(text: seq<Byte>, base: Word, m: Machine)
    requires m.pc < base
    ensures Step(text, base, m) == None
  {
  }

  lemma StuckStops(text: seq<Byte>, base: Word, m: Machine, steps: nat)
    requires Step(text, base, m) == None && steps > 0
    ensures RunSteps(text, base, m, steps) == None
  {
    hide Step;
  }
}
