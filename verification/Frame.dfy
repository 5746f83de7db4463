/** Whole functions: the frame around a lowered body, and the jump from the return to the epilogue. */
module Frame {
  import opened Results
  import opened IrTypes
  import opened Riscv
  import opened Ir
  import opened Allocator
  import opened Lowering

  /** The stack slots of the frame in bytes: saved ra and fp, and one word per register, padded to 16. */
  function PaddedStackSize(spilled: nat): nat {
    (8 + 4 * spilled + 15) / 16 * 16
  }

  function Prologue(size: nat): seq<Instr> {
    [AluImm(ADDI, SP, SP, -(size as int)), StoreMem(Full, SP, RA, size - 4), StoreMem(Full, SP, FP, size - 8),
     AluImm(ADDI, FP, SP, size)]
  }

  /** The epilogue before the final jump. */
  const RESTORE: seq<Instr> :=
    [AluImm(ADDI, SP, FP, 0), LoadMem(Full, true, FP, SP, -8), LoadMem(Full, true, RA, SP, -4)]

  const RETURN: Instr := Jalr(ZERO, RA, 0)

  const NOP: Instr := AluImm(ADDI, ZERO, ZERO, 0)

  const PADDING: seq<Instr> := [NOP, NOP, NOP, NOP, NOP, NOP]

  /** The slots at the start of a block. */
  function Cleared(slots: seq<Slot>): (r: seq<Slot>)
    requires |slots| == SLOT_COUNT
    ensures |r| == SLOT_COUNT
    ensures forall i :: 0 <= i < SLOT_COUNT ==> r[i] == Slot(slots[i].resident, false, false)
  {
    seq(SLOT_COUNT, i requires 0 <= i < SLOT_COUNT => Slot(slots[i].resident, false, false))
  }

  /** The allocator at the start of a function; the slots may still name residents of an earlier one. */
  function Initial(slots: seq<Slot>): (a: Alloc)
    requires |slots| == SLOT_COUNT
    ensures a.Valid()
  {
    Alloc(Cleared(slots), map[], 0, [])
  }

  /** Spills the dirty slots from slot i on. */
  function SpillDirty(types: seq<IrType>, a: Alloc, i: nat): (r: Alloc)
    requires a.Valid() && i <= SLOT_COUNT
    ensures r.Valid() && a.code <= r.code && |r.code| <= |a.code| + SLOT_COUNT - i
    decreases SLOT_COUNT - i
  {
    if i == SLOT_COUNT then a
    else SpillDirty(types, if a.slots[i].dirty then SpillSlot(types, a, i) else a, i + 1)
  }

  /** A block up to its jump: the instructions, then the returned value. */
  function LowerToReturn(types: seq<IrType>, a: Alloc, block: BasicBlock): (r: Result<Alloc>)
    requires a.Valid()
    ensures r.Ok? ==> r.value.Valid() && block.terminator.Return?
  {
    var a1 :- LowerBlock(types, a, block.instructions);
    match block.terminator
    case Return(Some(v)) => Ok(LowerReturnValue(types, a1, v))
    case Return(None) => Ok(a1)
    case _ => Err(Unimplemented)
  }

  /** What follows the straight part of the body: a jump, then code that is never reached. */
  function AfterReturn(types: seq<IrType>, a: Alloc): (r: Alloc)
    requires a.Valid()
    ensures r.Valid() && |a.code| < |r.code| <= |a.code| + 22 && a.code <= r.code && r.code[|a.code|] == Jal(ZERO, 0)
  {
    SpillDirty(types, a.Write([Jal(ZERO, 0)]), 0).Write(PADDING)
  }

  /** The distance from the jump to the end of the body, in bytes. */
  function JumpDistance(body: seq<Instr>, jumpAt: nat): nat
    requires jumpAt < |body|
  {
    4 * (|body| - jumpAt)
  }

  /** The code of a function with one block that is reached, the jump already aimed at the epilogue. */
  function LowerFunction(types: seq<IrType>, slots: seq<Slot>, entry: BasicBlock): Result<seq<Instr>>
    requires |slots| == SLOT_COUNT
  {
    var a2 :- LowerToReturn(types, Initial(slots), entry);
    var a4 := AfterReturn(types, a2);
    var jumpAt := |a2.code|;
    var body := a4.code[jumpAt := Jal(ZERO, JumpDistance(a4.code, jumpAt))];
    Ok(Prologue(PaddedStackSize(|a4.spills|)) + body + RESTORE + [RETURN])
  }

  /** The slots that are left behind. */
  function SlotsAfter(types: seq<IrType>, slots: seq<Slot>, entry: BasicBlock): (r: seq<Slot>)
    requires |slots| == SLOT_COUNT
    ensures |r| == SLOT_COUNT
  {
    var a2 := LowerToReturn(types, Initial(slots), entry);
    if a2.Ok? then AfterReturn(types, a2.value).slots else slots
  }
}
