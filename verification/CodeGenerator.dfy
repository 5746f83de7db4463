/** The code generator as it works: slots in an array, a spill map, and buffers of encoded instructions that
    are appended to and patched in place. Every method is specified by the functions of Allocator,
    Lowering, Frame and Program. */
module CodeGeneration {
  import opened Words
  import opened Results
  import opened IrTypes
  import opened Riscv
  import opened Encoding
  import opened Text
  import opened Ir
  import opened IrSemantics
  import opened Allocator
  import opened Lowering
  import opened Frame
  import opened Backpatching
  import opened Runtime
  import opened Program

  datatype MachineInstruction = MachineInstruction(encoded: Word, fmt: InstructionFormat)

  function Assemble(i: Instr): MachineInstruction { MachineInstruction(Encode(i), FormatOf(i)) }

  predicate Assembled(buf: seq<MachineInstruction>, code: seq<Instr>) {
    |buf| == |code| && forall k :: 0 <= k < |buf| ==> buf[k] == Assemble(code[k])
  }

  class CodeBuffer {
    var buf: seq<MachineInstruction>
    /** The instructions of which the buffer holds the encoding. */
    ghost var code: seq<Instr>

    ghost predicate Valid() reads this { Assembled(buf, code) }

    constructor ()
      ensures Valid() && code == []
    {
      buf := [];
      code := [];
    }

    /** All the write_ functions: they push the encoding of an instruction and return its position. */
    method Write(i: Instr) returns (position: nat)
      requires Valid()
      modifies this
      ensures Valid() && code == old(code) + [i] && position == |old(code)|
    {
      buf := buf + [MachineInstruction(Encode(i), FormatOf(i))];
      code := code + [i];
      position := |buf| - 1;
    }

    method DumpToBytes(bytes: seq<Byte>) returns (r: seq<Byte>)
      requires Valid()
      ensures r == bytes + Dump(EncodeAll(code))
    {
      hide Encode, WordBytes, Dump;
      r := bytes;
      DumpNothing();
      for k := 0 to |buf|
        invariant r == bytes + Dump(EncodeAll(code[..k]))
      {
        DumpNext(code, k);
        r := r + WordBytes(buf[k].encoded);
      }
      assert code[..|buf|] == code;
    }

    /** Writes an offset into the immediate of an instruction. A patched jump is the encoding of the jump
        with that offset. */
    method Patch(position: nat, offset: nat) returns (r: Result<()>)
      requires position < |buf| && (Valid() ==> code[position].Jal?)
      modifies this
      ensures var i := old(buf)[position];
              var word := PatchWord(i.fmt, i.encoded, ToWord(offset));
              if word.Err? then r == Err(word.error) && unchanged(this)
              else r == Ok(()) && buf == old(buf)[position := i.(encoded := word.value)]
      ensures old(Valid()) ==> r.Ok? && Valid() && code == old(code)[position := Jal(old(code)[position].rd, offset)]
    {
      hide Encode, PatchWord;
      var i := buf[position];
      if Valid() { PatchedJump(code[position].rd, code[position].imm, offset); }
      var word := PatchWord(i.fmt, i.encoded, ToWord(offset));
      if word.Err? { return Err(word.error); }
      if Valid() { code := code[position := Jal(code[position].rd, offset)]; }
      buf := buf[position := i.(encoded := word.value)];
      r := Ok(());
    }
  }

  lemma DumpNothing()
    ensures Dump(EncodeAll([])) == []
  {
  }

  lemma DumpNext(code: seq<Instr>, k: nat)
    requires k < |code|
    ensures Dump(EncodeAll(code[..k + 1])) == Dump(EncodeAll(code[..k])) + WordBytes(Encode(code[k]))
  {
    hide Encode, WordBytes, Dump;
    assert EncodeAll(code[..k + 1]) == EncodeAll(code[..k]) + [Encode(code[k])];
    DumpAppend(EncodeAll(code[..k]), Encode(code[k]));
  }

  class CodeGenerator {
    const registers: array<Slot>
    var spilledOffsets: map<VRegId, int>
    var nextToSpill: nat
    /** The types of the registers of the function being lowered. */
    var types: seq<IrType>
    var stackSize: int

    ghost predicate Valid()
      reads this
    {
      registers.Length == SLOT_COUNT && nextToSpill < SLOT_COUNT
    }

    /** The state of the allocator together with the code written so far. */
    ghost function Abs(body: CodeBuffer): Alloc
      reads this, registers, body
    {
      Alloc(registers[..], spilledOffsets, nextToSpill, body.code)
    }

    constructor ()
      ensures Valid() && fresh(registers)
      ensures forall i :: 0 <= i < SLOT_COUNT ==> registers[i] == Slot(0, false, false)
    {
      registers := new Slot[SLOT_COUNT](_ => Slot(0, false, false));
      spilledOffsets := map[];
      nextToSpill := 0;
      types := [];
      stackSize := 0;
    }

    method SpillSlot(body: CodeBuffer, i: nat)
      requires Valid() && body.Valid() && i < SLOT_COUNT
      modifies this`spilledOffsets, registers, body
      ensures Valid() && body.Valid()
      ensures Abs(body) == Allocator.SpillSlot(types, old(Abs(body)), i)
    {
      var v := registers[i].resident;
      var offset: int;
      if v in spilledOffsets {
        offset := spilledOffsets[v];
        assert spilledOffsets[v := offset] == spilledOffsets;
      } else {
        offset := -4 * (|spilledOffsets| + 4);
        spilledOffsets := spilledOffsets[v := offset];
      }
      var _ := body.Write(StoreMem(WidthOf(TypeAt(types, v)), FP, Physical(i), offset));
      registers[i] := registers[i].(dirty := false);
    }

    method GetEmptySlot(body: CodeBuffer) returns (i: nat)
      requires Valid() && body.Valid()
      modifies this`spilledOffsets, this`nextToSpill, registers, body
      ensures Valid() && body.Valid() && i < SLOT_COUNT
      ensures (Abs(body), i) == Allocator.GetEmptySlot(types, old(Abs(body)))
    {
      hide Allocator.SpillSlot;
      i := 0;
      while i < registers.Length
        invariant i <= SLOT_COUNT && First(Free, registers[..], 0) == First(Free, registers[..], i)
      {
        if !registers[i].occupied { return; }
        i := i + 1;
      }
      i := 0;
      while i < registers.Length
        invariant i <= SLOT_COUNT && First(Clean, registers[..], 0) == First(Clean, registers[..], i)
      {
        if !registers[i].dirty {
          registers[i] := registers[i].(occupied := false);
          return;
        }
        i := i + 1;
      }
      i := nextToSpill;
      nextToSpill := (nextToSpill + 1) % registers.Length;
      SpillSlot(body, i);
      registers[i] := registers[i].(occupied := false);
    }

    method LoadSource(body: CodeBuffer, v: VRegId) returns (i: nat)
      requires Valid() && body.Valid()
      modifies this`spilledOffsets, this`nextToSpill, registers, body
      ensures Valid() && body.Valid() && i < SLOT_COUNT
      ensures (Abs(body), i) == Allocator.LoadSource(types, old(Abs(body)), v)
    {
      hide Allocator.GetEmptySlot;
      i := 0;
      while i < registers.Length
        invariant i <= SLOT_COUNT && First(Holds(v), registers[..], 0) == First(Holds(v), registers[..], i)
      {
        if registers[i].occupied && registers[i].resident == v { return; }
        i := i + 1;
      }
      i := GetEmptySlot(body);
      // reading an absent entry of the map inserts 0
      var offset := if v in spilledOffsets then spilledOffsets[v] else 0;
      spilledOffsets := spilledOffsets[v := offset];
      var t := TypeAt(types, v);
      var _ := body.Write(LoadMem(WidthOf(t), t.IsSigned(), Physical(i), FP, offset));
      registers[i] := registers[i].(resident := v, occupied := true);
    }

    method LoadDest(body: CodeBuffer, v: VRegId) returns (i: nat)
      requires Valid() && body.Valid()
      modifies this`spilledOffsets, this`nextToSpill, registers, body
      ensures Valid() && body.Valid() && i < SLOT_COUNT
      ensures (Abs(body), i) == Allocator.LoadDest(types, old(Abs(body)), v)
    {
      hide Allocator.GetEmptySlot;
      i := GetEmptySlot(body);
      ghost var slots := registers[..];
      registers[i] := registers[i].(resident := v);
      registers[i] := registers[i].(occupied := true);
      registers[i] := registers[i].(dirty := true);
      assert registers[..] == slots[i := Slot(v, true, true)];
    }

    method TruncateReg(body: CodeBuffer, i: nat)
      requires Valid() && body.Valid() && i < SLOT_COUNT
      modifies body
      ensures body.Valid()
      ensures body.code == old(body.code) + TruncateCode(TypeAt(types, registers[i].resident), Physical(i))
    {
      var t := TypeAt(types, registers[i].resident);
      var shift := (32 - 8) * t.Size();
      if shift == 0 { return; }
      var _ := body.Write(Shift(SLLI, Physical(i), Physical(i), shift));
      if t.IsSigned() {
        var _ := body.Write(Shift(SRAI, Physical(i), Physical(i), shift));
      } else {
        var _ := body.Write(Shift(SRLI, Physical(i), Physical(i), shift));
      }
    }

    // ---- instructions ----------------------------------------------------------------------

    /** The instructions of a binary operation on registers. */
    method WriteOperation(body: CodeBuffer, op: Op, signed: bool, rd: Reg, r1: Reg, r2: Reg)
      requires body.Valid() && op.IsBinary()
      modifies body
      ensures body.Valid() && body.code == old(body.code) + OperationCode(op, signed, rd, r1, r2)
    {
      match op
      case Add => var _ := body.Write(Alu(ADD, rd, r1, r2));
      case Sub => var _ := body.Write(Alu(SUB, rd, r1, r2));
      case Mul => var _ := body.Write(Alu(MUL, rd, r1, r2));
      case Div =>
        if signed { var _ := body.Write(Alu(DIV, rd, r1, r2)); } else { var _ := body.Write(Alu(DIVU, rd, r1, r2)); }
      case Rem =>
        if signed { var _ := body.Write(Alu(REM, rd, r1, r2)); } else { var _ := body.Write(Alu(REMU, rd, r1, r2)); }
      case BitAnd => var _ := body.Write(Alu(AND, rd, r1, r2));
      case BitOr => var _ := body.Write(Alu(OR, rd, r1, r2));
      case BitXor => var _ := body.Write(Alu(XOR, rd, r1, r2));
      case BitShl => var _ := body.Write(Alu(SLL, rd, r1, r2));
      case BitShr =>
        if signed { var _ := body.Write(Alu(SRA, rd, r1, r2)); } else { var _ := body.Write(Alu(SRL, rd, r1, r2)); }
      case CmpEq =>
        var _ := body.Write(Alu(XOR, rd, r1, r2));
        var _ := body.Write(AluImm(SLTIU, rd, rd, 1));
      case CmpNe =>
        var _ := body.Write(Alu(XOR, rd, r1, r2));
        var _ := body.Write(Alu(SLTU, rd, ZERO, rd));
      case CmpGt => WriteSetLess(body, signed, rd, r2, r1);
      case CmpGte =>
        WriteSetLess(body, signed, rd, r1, r2);
        var _ := body.Write(AluImm(XORI, rd, rd, 1));
      case CmpLt => WriteSetLess(body, signed, rd, r1, r2);
      case CmpLte =>
        WriteSetLess(body, signed, rd, r2, r1);
        var _ := body.Write(AluImm(XORI, rd, rd, 1));
    }

    method WriteSetLess(body: CodeBuffer, signed: bool, rd: Reg, r1: Reg, r2: Reg)
      requires body.Valid()
      modifies body
      ensures body.Valid() && body.code == old(body.code) + [Alu(if signed then SLT else SLTU, rd, r1, r2)]
    {
      if signed {
        var _ := body.Write(Alu(SLT, rd, r1, r2));
      } else {
        var _ := body.Write(Alu(SLTU, rd, r1, r2));
      }
    }

    method LowerBinary(body: CodeBuffer, i: Instruction)
      requires Valid() && body.Valid() && i.opcode.IsBinary()
      modifies this`spilledOffsets, this`nextToSpill, registers, body
      ensures Valid() && body.Valid() && Abs(body) == Lowering.LowerBinary(types, old(Abs(body)), i)
    {
      hide Allocator.LoadDest, Allocator.LoadSource, OperationCode, TruncateCode, Assembled;
      var signed := TypeAt(types, i.op1).IsSigned();
      var dest := LoadDest(body, i.dest);
      var op1 := LoadSource(body, i.op1);
      var op2 := LoadSource(body, i.op2);
      if TruncatesFirst(i.opcode) { TruncateReg(body, op1); }
      if TruncatesSecond(i.opcode) { TruncateReg(body, op2); }
      WriteOperation(body, i.opcode, signed, Physical(dest), Physical(op1), Physical(op2));
    }

    method LowerNeg(body: CodeBuffer, i: Instruction)
      requires Valid() && body.Valid()
      modifies this`spilledOffsets, this`nextToSpill, registers, body
      ensures Valid() && body.Valid() && Abs(body) == Lowering.LowerNeg(types, old(Abs(body)), i)
    {
      hide Allocator.LoadDest, Allocator.LoadSource, Assembled;
      var dest := LoadDest(body, i.dest);
      var op1 := LoadSource(body, i.op1);
      var _ := body.Write(Alu(SUB, Physical(dest), ZERO, Physical(op1)));
    }

    method LowerBitNot(body: CodeBuffer, i: Instruction)
      requires Valid() && body.Valid()
      modifies this`spilledOffsets, this`nextToSpill, registers, body
      ensures Valid() && body.Valid() && Abs(body) == Lowering.LowerBitNot(types, old(Abs(body)), i)
    {
      hide Allocator.LoadDest, Allocator.LoadSource, Allocator.GetEmptySlot, Assembled, AndWord, LowerBitmask;
      var dest := LoadDest(body, i.dest);
      var op1 := LoadSource(body, i.op1);
      var size := TypeAt(types, registers[op1].resident).Size();
      var mask := LowerBitmask(8 * size);
      if AndWord(mask, 0x800) != 0 { mask := ToWord(mask + 0x1000); }
      if mask > I_TYPE_IMMEDIATE_MAX_SIZE {
        var scratch := GetEmptySlot(body);
        var _ := body.Write(Lui(Physical(scratch), mask));
        var _ := body.Write(AluImm(ADDI, Physical(scratch), Physical(scratch), mask));
        var _ := body.Write(Alu(XOR, Physical(dest), Physical(scratch), Physical(op1)));
      } else {
        var _ := body.Write(AluImm(XORI, Physical(dest), Physical(op1), mask));
      }
    }

    method LowerLoadImm(body: CodeBuffer, i: Instruction)
      requires Valid() && body.Valid()
      modifies this`spilledOffsets, this`nextToSpill, registers, body
      ensures Valid() && body.Valid() && Abs(body) == Lowering.LowerLoadImm(types, old(Abs(body)), i)
    {
      hide Allocator.LoadDest, Assembled, AndWord;
      var dest := LoadDest(body, i.dest);
      var immediate := ToWord(i.data);
      if AndWord(immediate, 0x800) != 0 { immediate := ToWord(immediate + 0x1000); }
      if immediate > I_TYPE_IMMEDIATE_MAX_SIZE {
        var _ := body.Write(Lui(Physical(dest), immediate));
        var _ := body.Write(AluImm(ADDI, Physical(dest), Physical(dest), immediate));
      } else {
        var _ := body.Write(AluImm(ADDI, Physical(dest), ZERO, immediate));
      }
    }

    method LowerInstruction(body: CodeBuffer, i: Instruction) returns (r: Result<()>)
      requires Valid() && body.Valid()
      modifies this`spilledOffsets, this`nextToSpill, registers, body
      ensures Valid() && body.Valid()
      ensures if Handled(i.opcode) then r == Ok(()) && Abs(body) == Lowering.LowerInstruction(types, old(Abs(body)), i)
              else r == Err(Unimplemented)
    {
      hide Lowering.LowerLoadImm, Lowering.LowerNeg, Lowering.LowerBitNot, Lowering.LowerBinary, Assembled;
      match i.opcode
      case LoadImm => LowerLoadImm(body, i); r := Ok(());
      case Neg => LowerNeg(body, i); r := Ok(());
      case BitNot => LowerBitNot(body, i); r := Ok(());
      case Load | Store | Move | LoadArg => r := Err(Unimplemented);
      case _ => LowerBinary(body, i); r := Ok(());
    }

    method LowerBlock(body: CodeBuffer, instrs: seq<Instruction>) returns (r: Result<()>)
      requires Valid() && body.Valid()
      modifies this`spilledOffsets, this`nextToSpill, registers, body
      ensures Valid() && body.Valid()
      ensures match Lowering.LowerBlock(types, old(Abs(body)), instrs)
              case Ok(a) => r == Ok(()) && Abs(body) == a
              case Err(e) => r == Err(e)
    {
      hide Lowering.LowerInstruction, Assembled;
      for k := 0 to |instrs|
        invariant Valid() && body.Valid()
        invariant Lowering.LowerBlock(types, old(Abs(body)), instrs[..k]) == Ok(Abs(body))
      {
        assert instrs[..k + 1][..k] == instrs[..k];
        r := LowerInstruction(body, instrs[k]);
        if r.Err? {
          LowerBlockStops(types, old(Abs(body)), instrs, k + 1, r.error);
          return;
        }
      }
      assert instrs[..|instrs|] == instrs;
      r := Ok(());
    }

    // ---- functions -------------------------------------------------------------------------

    method ClearSlots()
      requires Valid()
      modifies registers
      ensures registers[..] == Cleared(old(registers[..]))
    {
      for i := 0 to registers.Length
        invariant forall j :: 0 <= j < i ==> registers[j] == Slot(old(registers[j]).resident, false, false)
        invariant forall j :: i <= j < registers.Length ==> registers[j] == old(registers[j])
      {
        registers[i] := registers[i].(occupied := false);
        registers[i] := registers[i].(dirty := false);
      }
    }

    method SpillDirty(body: CodeBuffer)
      requires Valid() && body.Valid()
      modifies this`spilledOffsets, registers, body
      ensures Valid() && body.Valid() && Abs(body) == Frame.SpillDirty(types, old(Abs(body)), 0)
    {
      hide Allocator.SpillSlot, Assembled, Frame.SpillDirty;
      for i := 0 to registers.Length
        invariant Valid() && body.Valid()
        invariant Frame.SpillDirty(types, old(Abs(body)), 0) == Frame.SpillDirty(types, Abs(body), i)
      {
        SpillDirtyStep(types, Abs(body), i);
        if registers[i].dirty { SpillSlot(body, i); }
      }
      SpillDirtyEnd(types, Abs(body));
    }

    /** A block and its terminator; the result is the position of the jump to the epilogue. */
    method LowerToReturn(body: CodeBuffer, block: BasicBlock) returns (r: Result<nat>)
      requires Valid() && body.Valid()
      modifies this`spilledOffsets, this`nextToSpill, registers, body
      ensures Valid() && body.Valid()
      ensures match Frame.LowerToReturn(types, old(Abs(body)), block)
              case Ok(a) => r == Ok(|a.code|) && Abs(body) == a.Write([Jal(ZERO, 0)])
              case Err(e) => r == Err(e)
    {
      hide Lowering.LowerBlock, Allocator.LoadSource, TruncateCode, Assembled;
      var lowered := LowerBlock(body, block.instructions);
      if lowered.Err? { return Err(lowered.error); }
      match block.terminator
      case Return(value) =>
        if value.Some? {
          var slot := LoadSource(body, value.value);
          TruncateReg(body, slot);
          var _ := body.Write(AluImm(ADDI, A0, Physical(slot), 0));
        }
        var position := body.Write(Jal(ZERO, 0));
        r := Ok(position);
      case _ => r := Err(Unimplemented);
    }

    /** All blocks that are reached from the entry: since only returns are lowered, the entry. The result is
        the list of jumps to patch. */
    method LowerBlocks(body: CodeBuffer, entry: BasicBlock) returns (r: Result<seq<nat>>)
      requires Valid() && body.Valid()
      modifies this`spilledOffsets, this`nextToSpill, registers, body
      ensures Valid() && body.Valid()
      ensures var a := old(Abs(body));
              match Frame.LowerToReturn(types, a.(slots := Cleared(a.slots)), entry)
              case Ok(a2) => r == Ok([|a2.code|]) && Abs(body) == Frame.SpillDirty(types, a2.Write([Jal(ZERO, 0)]), 0)
              case Err(e) => r == Err(e)
    {
      hide Frame.LowerToReturn, Frame.SpillDirty, Assembled;
      ghost var start := Abs(body).(slots := Cleared(registers[..]));
      var seen: set<nat> := {};
      var toVisit := [entry];
      var toPatch: seq<nat> := [];
      while toVisit != []
        invariant Valid() && body.Valid()
        invariant if toVisit == [] then
                    var a2 := Frame.LowerToReturn(types, start, entry);
                    && a2.Ok? && toPatch == [|a2.value.code|]
                    && Abs(body) == Frame.SpillDirty(types, a2.value.Write([Jal(ZERO, 0)]), 0)
                  else toVisit == [entry] && seen == {} && toPatch == [] && Abs(body) == old(Abs(body))
        decreases |toVisit|
      {
        var block := toVisit[|toVisit| - 1];
        toVisit := toVisit[..|toVisit| - 1];
        if block.id in seen { continue; }
        seen := seen + {block.id};
        ClearSlots();
        assert Abs(body) == start;
        var jump := LowerToReturn(body, block);
        if jump.Err? { return Err(jump.error); }
        toPatch := toPatch + [jump.value];
        SpillDirty(body);
      }
      r := Ok(toPatch);
    }

    method WritePrologue(size: nat) returns (prologue: CodeBuffer)
      ensures fresh(prologue) && prologue.Valid() && prologue.code == Prologue(size)
    {
      prologue := new CodeBuffer();
      var _ := prologue.Write(AluImm(ADDI, SP, SP, -(size as int)));
      var _ := prologue.Write(StoreMem(Full, SP, RA, size - 4));
      var _ := prologue.Write(StoreMem(Full, SP, FP, size - 8));
      var _ := prologue.Write(AluImm(ADDI, FP, SP, size));
    }

    method WriteEpilogue() returns (epilogue: CodeBuffer)
      ensures fresh(epilogue) && epilogue.Valid() && epilogue.code == RESTORE + [RETURN]
    {
      epilogue := new CodeBuffer();
      var _ := epilogue.Write(AluImm(ADDI, SP, FP, 0));
      var _ := epilogue.Write(LoadMem(Full, true, FP, SP, -8));
      var _ := epilogue.Write(LoadMem(Full, true, RA, SP, -4));
      var _ := epilogue.Write(Jalr(ZERO, RA, 0));
    }

    /** Six instructions without effect, then the jumps are aimed at the end of the body. */
    method PadAndPatch(body: CodeBuffer, toPatch: seq<nat>) returns (r: Result<()>)
      requires body.Valid() && |toPatch| == 1 && toPatch[0] < |body.code| && body.code[toPatch[0]] == Jal(ZERO, 0)
      modifies body
      ensures r == Ok(()) && body.Valid()
      ensures var padded, at := old(body.code) + PADDING, toPatch[0];
              body.code == padded[at := Jal(ZERO, JumpDistance(padded, at))]
    {
      hide Assembled, Encode, PatchWord;
      for k := 0 to 6
        invariant body.Valid() && body.code == old(body.code) + PADDING[..k]
      {
        var _ := body.Write(NOP);
      }
      assert PADDING[..6] == PADDING;
      BufferLength(body.buf, body.code);
      var epilogueOffset := |body.buf|;
      ghost var padded := body.code;
      for k := 0 to |toPatch|
        invariant body.Valid() && epilogueOffset == |body.code|
        invariant body.code == if k == 0 then padded
                               else padded[toPatch[0] := Jal(ZERO, JumpDistance(padded, toPatch[0]))]
      {
        BufferLength(body.buf, body.code);
        var patched := body.Patch(toPatch[k], 4 * (epilogueOffset - toPatch[k]));
        if patched.Err? { return patched; }
      }
      r := Ok(());
    }

    /** Lowers a function and appends its code to the object. */
    method LowerFunction(fn: Function, obj: Object) returns (r: Result<()>)
      requires Valid() && fn.blocks != []
      modifies this, registers, obj
      ensures Valid()
      ensures match Frame.LowerFunction(fn.vregs, old(registers[..]), fn.blocks[0])
              case Ok(code) =>
                && r == Ok(())
                && obj.code == old(obj.code) + Dump(EncodeAll(code))
                && obj.functions == old(obj.functions) + [(fn.name, |old(obj.code)|)]
                && registers[..] == SlotsAfter(fn.vregs, old(registers[..]), fn.blocks[0])
              case Err(e) => r == Err(e) && unchanged(obj)
    {
      hide Frame.LowerToReturn, Frame.SpillDirty, Assembled, Dump, EncodeAll, Prologue, Cleared;
      hide Frame.LowerFunction, SlotsAfter;
      types := fn.vregs;
      stackSize := 8;
      nextToSpill := 0;
      spilledOffsets := map[];
      var body := new CodeBuffer();
      assert Abs(body).(slots := Cleared(registers[..])) == Initial(old(registers[..]));
      var toPatch := LowerBlocks(body, fn.blocks[0]);
      if toPatch.Err? {
        FunctionError(types, old(registers[..]), fn.blocks[0]);
        return Err(toPatch.error);
      }
      ghost var a2 := Frame.LowerToReturn(types, Initial(old(registers[..])), fn.blocks[0]).value;
      JumpIsThere(types, a2);
      r := PadAndPatch(body, toPatch.value);
      stackSize := stackSize + 4 * |spilledOffsets|;
      var padded := (stackSize + 15) / 16 * 16;
      var prologue := WritePrologue(padded);
      var epilogue := WriteEpilogue();
      obj.functions := obj.functions + [(fn.name, |obj.code|)];
      FunctionCode(types, old(registers[..]), fn.blocks[0], body.code);
      DumpParts(obj.code, prologue.code, body.code, epilogue.code);
      var code := prologue.DumpToBytes(obj.code);
      code := body.DumpToBytes(code);
      obj.code := epilogue.DumpToBytes(code);
    }

    /** Lowers all functions of a program, in the order in which the table of functions yields them. */
    method LowerIr(fns: seq<Function>) returns (obj: Object, r: Result<()>)
      requires Valid() && HasEntries(fns)
      modifies this, registers
      ensures Valid() && fresh(obj)
      ensures match Program.LowerIr(old(registers[..]), fns)
              case Ok((o, slots)) => r == Ok(()) && obj.Contents() == o && registers[..] == slots
              case Err(e) => r == Err(e)
    {
      hide Frame.LowerFunction, SlotsAfter, Dump, EncodeAll;
      obj := new Object();
      for k := 0 to |fns|
        invariant Valid() && fresh(obj)
        invariant Program.LowerIr(old(registers[..]), fns[..k]) == Ok((obj.Contents(), registers[..]))
      {
        assert fns[..k + 1][..k] == fns[..k];
        r := LowerFunction(fns[k], obj);
        if r.Err? {
          LowerIrStops(old(registers[..]), fns, k + 1, r.error);
          return;
        }
      }
      assert fns[..|fns|] == fns;
      r := Ok(());
    }

    /** The code that calls main and exits. */
    method BuildRuntimeCode(mainOffset: nat) returns (bytes: seq<Byte>)
      ensures bytes == Dump(EncodeAll(RuntimeCode(mainOffset)))
    {
      hide Dump, EncodeAll, Encode, Assembled;
      var shifted := ToWord(ToWord(mainOffset) + 16);
      var code := new CodeBuffer();
      var _ := code.Write(Auipc(RA, shifted));
      var _ := code.Write(Jalr(RA, RA, shifted));
      var _ := code.Write(AluImm(ADDI, A7, ZERO, 93));
      var _ := code.Write(Ecall);
      assert code.code == RuntimeCode(mainOffset);
      bytes := code.DumpToBytes([]);
    }
  }

  class Object {
    var code: seq<Byte>
    var functions: seq<(string, nat)>

    constructor ()
      ensures Contents() == ObjectFile([], [])
    {
      code := [];
      functions := [];
    }

    ghost function Contents(): ObjectFile reads this { ObjectFile(code, functions) }
  }

  /** From functions to an executable: lower, find main, put the runtime code in front. */
  method BuildExecutable(generator: CodeGenerator, fns: seq<Function>) returns (r: Result<seq<Byte>>)
    requires generator.Valid() && HasEntries(fns)
    modifies generator, generator.registers
    ensures r == Link(old(generator.registers[..]), fns)
  {
    hide Program.LowerIr, Dump, EncodeAll, RuntimeCode;
    var obj, lowered := generator.LowerIr(fns);
    if lowered.Err? { return Err(lowered.error); }
    var k := 0;
    while k < |obj.functions| && obj.functions[k].0 != "main"
      invariant k <= |obj.functions| && FindMain(obj.functions, 0) == FindMain(obj.functions, k)
    {
      k := k + 1;
    }
    if k == |obj.functions| { return Err(SemanticError); }
    var runtime := generator.BuildRuntimeCode(obj.functions[k].1);
    r := Ok(runtime + obj.code);
  }

  lemma SpillDirtyStep(types: seq<IrType>, a: Alloc, i: nat)
    requires a.Valid() && i < SLOT_COUNT
    ensures SpillDirty(types, a, i) ==
            SpillDirty(types, if a.slots[i].dirty then Allocator.SpillSlot(types, a, i) else a, i + 1)
  {
    hide Allocator.SpillSlot;
  }

  lemma SpillDirtyEnd(types: seq<IrType>, a: Alloc)
    requires a.Valid()
    ensures SpillDirty(types, a, SLOT_COUNT) == a
  {
  }

  lemma BufferLength(buf: seq<MachineInstruction>, code: seq<Instr>)
    requires Assembled(buf, code)
    ensures |buf| == |code|
  {
  }

  lemma JumpIsThere(types: seq<IrType>, a: Alloc)
    requires a.Valid()
    ensures var a' := Frame.SpillDirty(types, a.Write([Jal(ZERO, 0)]), 0);
            |a.code| < |a'.code| && a'.code[|a.code|] == Jal(ZERO, 0)
  {
    hide Frame.SpillDirty;
    assert (a.code + [Jal(ZERO, 0)])[|a.code|] == Jal(ZERO, 0);
  }

  /** The code of a function, from its patched body. */
  lemma FunctionCode(types: seq<IrType>, slots: seq<Slot>, entry: BasicBlock, body: seq<Instr>)
    requires |slots| == SLOT_COUNT && Frame.LowerToReturn(types, Initial(slots), entry).Ok?
    requires var a2 := Frame.LowerToReturn(types, Initial(slots), entry).value;
             var padded, at := Frame.SpillDirty(types, a2.Write([Jal(ZERO, 0)]), 0).code + PADDING, |a2.code|;
             at < |padded| && body == padded[at := Jal(ZERO, JumpDistance(padded, at))]
    ensures var a2 := Frame.LowerToReturn(types, Initial(slots), entry).value;
            var a := Frame.SpillDirty(types, a2.Write([Jal(ZERO, 0)]), 0);
            && Frame.LowerFunction(types, slots, entry) ==
               Ok(Prologue(PaddedStackSize(|a.spills|)) + body + (RESTORE + [RETURN]))
            && SlotsAfter(types, slots, entry) == a.slots
  {
    hide Frame.LowerToReturn, Frame.SpillDirty, Prologue, PaddedStackSize;
    var a := Frame.SpillDirty(types, Frame.LowerToReturn(types, Initial(slots), entry).value.Write([Jal(ZERO, 0)]), 0);
    var pro := Prologue(PaddedStackSize(|a.spills|));
    assert pro + body + RESTORE + [RETURN] == pro + body + (RESTORE + [RETURN]);
  }

  /** An error in the entry block is the error of the function. */
  lemma FunctionError(types: seq<IrType>, slots: seq<Slot>, entry: BasicBlock)
    requires |slots| == SLOT_COUNT && Frame.LowerToReturn(types, Initial(slots), entry).Err?
    ensures Frame.LowerFunction(types, slots, entry) == Err(Frame.LowerToReturn(types, Initial(slots), entry).error)
  {
    hide Frame.LowerToReturn;
  }

  lemma DumpParts(before: seq<Byte>, a: seq<Instr>, b: seq<Instr>, c: seq<Instr>)
    ensures before + Dump(EncodeAll(a)) + Dump(EncodeAll(b)) + Dump(EncodeAll(c)) == before + Dump(EncodeAll(a + b + c))
  {
    hide Dump, EncodeAll;
    EncodeAllConcat(a, b);
    EncodeAllConcat(a + b, c);
    DumpConcat(EncodeAll(a), EncodeAll(b));
    DumpConcat(EncodeAll(a + b), EncodeAll(c));
  }

  lemma {:induction false} LowerIrStops(slots: seq<Slot>, fns: seq<Function>, k: nat, e: Error)
    requires |slots| == SLOT_COUNT && HasEntries(fns) && k <= |fns| && Program.LowerIr(slots, fns[..k]) == Err(e)
    ensures Program.LowerIr(slots, fns) == Err(e)
    decreases |fns|
  {
    hide Frame.LowerFunction, SlotsAfter, Dump, EncodeAll;
    if k == |fns| {
      assert fns[..k] == fns;
    } else {
      assert fns[..|fns| - 1][..k] == fns[..k];
      LowerIrStops(slots, fns[..|fns| - 1], k, e);
    }
  }

  /** An error in a block is the error of the block. */
  lemma {:induction false} LowerBlockStops(types: seq<IrType>, a: Alloc, instrs: seq<Instruction>, k: nat, e: Error)
    requires a.Valid() && k <= |instrs| && Lowering.LowerBlock(types, a, instrs[..k]) == Err(e)
    ensures Lowering.LowerBlock(types, a, instrs) == Err(e)
    decreases |instrs|
  {
    hide Lowering.LowerInstruction;
    if k == |instrs| {
      assert instrs[..k] == instrs;
    } else {
      assert instrs[..|instrs| - 1][..k] == instrs[..k];
      LowerBlockStops(types, a, instrs[..|instrs| - 1], k, e);
    }
  }
}
