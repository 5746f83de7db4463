/** The local register allocator: fifteen slots, each a physical register, as a write-back cache over
    stack slots. The functions say what each step does; CodeGenerator does it in place. */
module Allocator {
  import opened IrTypes
  import opened Riscv
  import opened Ir
  import opened IrSemantics

  datatype Slot = Slot(resident: VRegId, occupied: bool, dirty: bool)

  const SLOT_COUNT: nat := 15

  /** The physical register of a slot: t0 to t2, t3 to t6, a0 to a7. */
  function Physical(i: nat): Reg
    requires i < SLOT_COUNT
  {
    if i < 3 then 5 + i else if i < 7 then 25 + i else 3 + i
  }

  /** The slots, the stack offsets of the registers that have been spilled, the next slot to be spilled,
      and the code written so far. */
  datatype Alloc = Alloc(slots: seq<Slot>, spills: map<VRegId, int>, next: nat, code: seq<Instr>) {
    predicate Valid() { |slots| == SLOT_COUNT && next < SLOT_COUNT }

    function Write(more: seq<Instr>): Alloc { this.(code := code + more) }
  }

  // ---- scanning the slots ------------------------------------------------------------------

  datatype Query = Free | Clean | Holds(v: VRegId)

  predicate Matches(q: Query, s: Slot) {
    match q
    case Free => !s.occupied
    case Clean => !s.dirty
    case Holds(v) => s.occupied && s.resident == v
  }

  /** The first slot from i on that matches, or the number of slots. */
  function First(q: Query, slots: seq<Slot>, i: nat): (r: nat)
    requires i <= |slots|
    ensures i <= r <= |slots| && (r < |slots| ==> Matches(q, slots[r]))
    ensures forall j :: i <= j < r ==> !Matches(q, slots[j])
    decreases |slots| - i
  {
    if i == |slots| || Matches(q, slots[i]) then i else First(q, slots, i + 1)
  }

  lemma FirstIs(q: Query, slots: seq<Slot>, k: nat)
    requires k < |slots| && Matches(q, slots[k]) && forall j :: 0 <= j < k ==> !Matches(q, slots[j])
    ensures First(q, slots, 0) == k
  {
    assert !(First(q, slots, 0) < k);
  }

  // ---- the steps ---------------------------------------------------------------------------

  function WidthOf(t: IrType): Width {
    match t.Size()
    case 1 => Byte1
    case 2 => Half
    case _ => Full
  }

  /** Writes a slot back to the stack; a register that was never spilled gets the next stack slot. */
  function SpillSlot(types: seq<IrType>, a: Alloc, i: nat): Alloc
    requires a.Valid() && i < SLOT_COUNT
  {
    var v := a.slots[i].resident;
    var offset := if v in a.spills then a.spills[v] else -4 * (|a.spills| + 4);
    Alloc(a.slots[i := a.slots[i].(dirty := false)], a.spills[v := offset], a.next,
          a.code + [StoreMem(WidthOf(TypeAt(types, v)), FP, Physical(i), offset)])
  }

  /** A free slot, else a clean one, else the next victim of the round robin. */
  function GetEmptySlot(types: seq<IrType>, a: Alloc): (r: (Alloc, nat))
    requires a.Valid()
    ensures r.0.Valid() && r.1 < SLOT_COUNT
  {
    var free := First(Free, a.slots, 0);
    if free < SLOT_COUNT then (a, free)
    else
      var clean := First(Clean, a.slots, 0);
      if clean < SLOT_COUNT then
        (a.(slots := a.slots[clean := a.slots[clean].(occupied := false)]), clean)
      else
        var victim := a.next;
        var a1 := SpillSlot(types, a.(next := (a.next + 1) % SLOT_COUNT), victim);
        (a1.(slots := a1.slots[victim := a1.slots[victim].(occupied := false)]), victim)
  }

  /** A slot holding v, loaded from the stack if there is none yet. */
  function LoadSource(types: seq<IrType>, a: Alloc, v: VRegId): (r: (Alloc, nat))
    requires a.Valid()
    ensures r.0.Valid() && r.1 < SLOT_COUNT
  {
    var found := First(Holds(v), a.slots, 0);
    if found < SLOT_COUNT then (a, found)
    else
      var (a1, i) := GetEmptySlot(types, a);
      var offset := if v in a1.spills then a1.spills[v] else 0;
      var t := TypeAt(types, v);
      (Alloc(a1.slots[i := a1.slots[i].(resident := v, occupied := true)], a1.spills[v := offset], a1.next,
             a1.code + [LoadMem(WidthOf(t), t.IsSigned(), Physical(i), FP, offset)]), i)
  }

  /** A slot for a result. */
  function LoadDest(types: seq<IrType>, a: Alloc, v: VRegId): (r: (Alloc, nat))
    requires a.Valid()
    ensures r.0.Valid() && r.1 < SLOT_COUNT
  {
    var (a1, i) := GetEmptySlot(types, a);
    (a1.(slots := a1.slots[i := Slot(v, true, true)]), i)
  }

  /** A register that was never defined has no value: it is read from the frame pointer itself, and keeps that
      place on the stack. */
  lemma LoadSourceUnknown(types: seq<IrType>, a: Alloc, v: VRegId)
    requires a.Valid() && v !in a.spills && forall i :: 0 <= i < SLOT_COUNT ==> a.slots[i].resident != v
    ensures var (a', i) := LoadSource(types, a, v);
            && v in a'.spills && a'.spills[v] == 0 && a'.code != []
            && a'.code[|a'.code| - 1] ==
               LoadMem(WidthOf(TypeAt(types, v)), TypeAt(types, v).IsSigned(), Physical(i), FP, 0)
  {
    hide Physical;
  }

  // ---- the order of the slots --------------------------------------------------------------

  /** The position of slot i in the order in which slots are spilled. */
  function Position(i: nat, next: nat): nat
    requires i < SLOT_COUNT && next < SLOT_COUNT
  {
    if i >= next then i - next else i + SLOT_COUNT - next
  }

  /** The slot at a position. */
  function At(next: nat, p: nat): (i: nat)
    requires next < SLOT_COUNT && p < SLOT_COUNT
    ensures i < SLOT_COUNT && Position(i, next) == p
  {
    if next + p < SLOT_COUNT then next + p else next + p - SLOT_COUNT
  }

  /** Slot i in a state where the last d definitions are dirty. */
  ghost predicate SlotOk(s: Slot, p: nat, defs: seq<VRegId>, d: nat)
    requires d <= |defs|
  {
    if p < d then s == Slot(defs[|defs| - d + p], true, true)
    else !s.dirty && (s.occupied ==> d == 14 && s.resident in defs[..|defs| - d])
  }

  ghost predicate SpillsOk(spills: map<VRegId, int>, defs: seq<VRegId>, k: nat)
    requires k <= |defs|
  {
    && |spills| == k
    && (forall j :: 0 <= j < k ==> defs[j] in spills && spills[defs[j]] == -4 * (j + 4))
    && (forall v :: v in spills ==> v in defs[..k])
  }

  /** The invariant that makes the round robin a queue. defs are the registers defined so far, oldest
      first. The last d of them are dirty and sit, in order, in the slots from `next` on; the others have
      stack slots, in order of definition. Until fourteen registers are dirty nothing has been spilled; after that
      at most one slot is not dirty, the one before `next`, and it may hold a clean copy. */
  ghost predicate Window(a: Alloc, defs: seq<VRegId>, d: nat) {
    && a.Valid() && d <= SLOT_COUNT && d <= |defs| && Distinct(defs)
    && (d < 14 ==> a.next == 0 && |defs| == d)
    && (forall i :: 0 <= i < SLOT_COUNT ==> SlotOk(a.slots[i], Position(i, a.next), defs, d))
    && SpillsOk(a.spills, defs, |defs| - d)
  }

  /** Where the last d definitions are. */
  lemma DirtySlot(a: Alloc, defs: seq<VRegId>, d: nat, k: nat)
    requires Window(a, defs, d) && |defs| - d <= k < |defs|
    ensures a.slots[At(a.next, k - (|defs| - d))] == Slot(defs[k], true, true)
  {
    var i := At(a.next, k - (|defs| - d));
    assert SlotOk(a.slots[i], Position(i, a.next), defs, d);
  }

  /** No register is resident twice. */
  lemma ResidentOnce(a: Alloc, defs: seq<VRegId>, d: nat, i: nat, j: nat)
    requires Window(a, defs, d) && i < SLOT_COUNT && j < SLOT_COUNT && i != j
    requires a.slots[i].occupied && a.slots[j].occupied
    ensures a.slots[i].resident != a.slots[j].resident
  {
    var n := |defs|;
    var p, q := Position(i, a.next), Position(j, a.next);
    assert p != q;
    assert SlotOk(a.slots[i], p, defs, d) && SlotOk(a.slots[j], q, defs, d);
    if p >= d {
      var k :| 0 <= k < n - d && defs[k] == a.slots[i].resident;
      assert defs[k] != defs[n - d + q];
    } else if q >= d {
      var k :| 0 <= k < n - d && defs[k] == a.slots[j].resident;
      assert defs[k] != defs[n - d + p];
    } else {
      assert defs[n - d + p] != defs[n - d + q];
    }
  }

  /** Getting an empty slot: unless all are dirty, it is the one after the last definition; if all are
      dirty the oldest one is spilled. */
  lemma EmptySlotFree(types: seq<IrType>, a: Alloc, defs: seq<VRegId>, d: nat)
    requires Window(a, defs, d) && d < SLOT_COUNT
    ensures var (a', i) := GetEmptySlot(types, a);
            && i == At(a.next, d)
            && a' == a.(slots := a.slots[i := a.slots[i].(occupied := false)])
            && !a'.slots[i].dirty && Window(a', defs, d)
  {
    var h := At(a.next, d);
    forall i | 0 <= i < SLOT_COUNT
      ensures SlotOk(a.slots[i], Position(i, a.next), defs, d)
      ensures Position(i, a.next) < d ==> a.slots[i].occupied && a.slots[i].dirty
    {
    }
    assert SlotOk(a.slots[h], d, defs, d);
    if !a.slots[h].occupied {
      FirstIs(Free, a.slots, h);
      assert a.slots == a.slots[h := a.slots[h].(occupied := false)];
    } else {
      assert First(Free, a.slots, 0) == SLOT_COUNT;
      FirstIs(Clean, a.slots, h);
    }
  }

  lemma EmptySlotSpill(types: seq<IrType>, a: Alloc, defs: seq<VRegId>)
    requires Window(a, defs, SLOT_COUNT)
    ensures var (a', i) := GetEmptySlot(types, a);
            var k := |defs| - SLOT_COUNT;
            && i == a.next && a.slots[i] == Slot(defs[k], true, true) && defs[k] !in a.spills
            && a'.slots == a.slots[i := Slot(defs[k], false, false)]
            && a'.spills == a.spills[defs[k] := -4 * (k + 4)]
            && a'.next == At(a.next, 1)
            && a'.code == a.code + [StoreMem(WidthOf(TypeAt(types, defs[k])), FP, Physical(i), -4 * (k + 4))]
  {
    var k := |defs| - SLOT_COUNT;
    DirtySlot(a, defs, SLOT_COUNT, k);
    forall i | 0 <= i < SLOT_COUNT
      ensures a.slots[i].occupied && a.slots[i].dirty
    {
      assert SlotOk(a.slots[i], Position(i, a.next), defs, SLOT_COUNT);
    }
    assert First(Free, a.slots, 0) == SLOT_COUNT && First(Clean, a.slots, 0) == SLOT_COUNT;
    assert defs[k] !in defs[..k];
    assert a.slots[a.next := a.slots[a.next].(dirty := false)][a.next := Slot(defs[k], false, false)]
        == a.slots[a.next := Slot(defs[k], false, false)];
  }

  lemma EmptySlotSpillWindow(types: seq<IrType>, a: Alloc, defs: seq<VRegId>)
    requires Window(a, defs, SLOT_COUNT)
    ensures Window(GetEmptySlot(types, a).0, defs, 14)
    ensures GetEmptySlot(types, a).1 == At(GetEmptySlot(types, a).0.next, 14)
  {
    var (a', h) := GetEmptySlot(types, a);
    EmptySlotSpill(types, a, defs);
    var k := |defs| - SLOT_COUNT;
    hide GetEmptySlot, SlotOk, Position, SpillsOk, Distinct;
    forall i | 0 <= i < SLOT_COUNT
      ensures SlotOk(a'.slots[i], Position(i, a'.next), defs, 14)
    {
      assert SlotOk(a.slots[i], Position(i, a.next), defs, SLOT_COUNT);
      if i != a.next { SlotMovesUp(a.slots[i], i, a.next, defs); }
    }
    VictimLast(defs[k], a.next, defs);
    SpillsGrow(a.spills, defs, k);
  }

  /** After a spill every other dirty slot is one position nearer to being the next victim. */
  lemma SlotMovesUp(s: Slot, i: nat, next: nat, defs: seq<VRegId>)
    requires i < SLOT_COUNT && next < SLOT_COUNT && i != next && |defs| >= SLOT_COUNT
    requires SlotOk(s, Position(i, next), defs, SLOT_COUNT)
    ensures SlotOk(s, Position(i, At(next, 1)), defs, 14)
  {
  }

  lemma VictimLast(v: VRegId, next: nat, defs: seq<VRegId>)
    requires next < SLOT_COUNT && |defs| >= SLOT_COUNT
    ensures SlotOk(Slot(v, false, false), Position(next, At(next, 1)), defs, 14)
    ensures next == At(At(next, 1), 14)
  {
  }

  lemma SpillsGrow(spills: map<VRegId, int>, defs: seq<VRegId>, k: nat)
    requires k < |defs| && SpillsOk(spills, defs, k) && defs[k] !in spills
    ensures SpillsOk(spills[defs[k] := -4 * (k + 4)], defs, k + 1)
  {
    var s := spills[defs[k] := -4 * (k + 4)];
    assert defs[..k + 1] == defs[..k] + [defs[k]];
  }

  function Min(a: nat, b: nat): nat { if a <= b then a else b }

  lemma EmptySlotWindow(types: seq<IrType>, a: Alloc, defs: seq<VRegId>, d: nat)
    requires Window(a, defs, d)
    ensures var (a', i) := GetEmptySlot(types, a);
            Window(a', defs, Min(d, 14)) && i == At(a'.next, Min(d, 14)) && !a'.slots[i].dirty && !a'.slots[i].occupied
  {
    if d < SLOT_COUNT {
      EmptySlotFree(types, a, defs, d);
    } else {
      EmptySlotSpill(types, a, defs);
      EmptySlotSpillWindow(types, a, defs);
    }
  }

  /** A result becomes the newest dirty register. */
  lemma LoadDestWindow(types: seq<IrType>, a: Alloc, defs: seq<VRegId>, d: nat, v: VRegId)
    requires Window(a, defs, d) && v !in defs
    ensures var (a', i) := LoadDest(types, a, v);
            Window(a', defs + [v], Min(d, 14) + 1) && a'.slots[i] == Slot(v, true, true)
  {
    EmptySlotWindow(types, a, defs, d);
    hide GetEmptySlot, Window;
    var (a1, i) := GetEmptySlot(types, a);
    DestWindow(a1, defs, Min(d, 14), v, i);
  }

  lemma DestWindow(a: Alloc, defs: seq<VRegId>, d: nat, v: VRegId, i: nat)
    requires Window(a, defs, d) && v !in defs && d < SLOT_COUNT && i == At(a.next, d)
    ensures Window(a.(slots := a.slots[i := Slot(v, true, true)]), defs + [v], d + 1)
  {
    var all, n := defs + [v], |defs|;
    assert all[..n - d] == defs[..n - d];
    assert Distinct(all);
    forall j | 0 <= j < SLOT_COUNT
      ensures SlotOk(a.slots[i := Slot(v, true, true)][j], Position(j, a.next), all, d + 1)
    {
      var p := Position(j, a.next);
      assert SlotOk(a.slots[j], p, defs, d);
      if p < d { assert all[n - d + p] == defs[n - d + p]; }
    }
    SpillsExtend(a.spills, defs, n - d, v);
  }

  lemma SpillsExtend(spills: map<VRegId, int>, defs: seq<VRegId>, k: nat, v: VRegId)
    requires k <= |defs| && SpillsOk(spills, defs, k)
    ensures SpillsOk(spills, defs + [v], k)
  {
    assert (defs + [v])[..k] == defs[..k];
  }

  /** A register with a slot is found there; the state does not change. */
  lemma LoadSourceFound(types: seq<IrType>, a: Alloc, defs: seq<VRegId>, d: nat, v: VRegId, i: nat)
    requires Window(a, defs, d) && i < SLOT_COUNT && a.slots[i].occupied && a.slots[i].resident == v
    ensures LoadSource(types, a, v) == (a, i)
  {
    forall j | 0 <= j < i
      ensures !Matches(Holds(v), a.slots[j])
    {
      if a.slots[j].occupied { ResidentOnce(a, defs, d, i, j); }
    }
    FirstIs(Holds(v), a.slots, i);
  }

  /** The slot holds v. */
  predicate Held(a: Alloc, i: nat, v: VRegId)
    requires a.Valid() && i < SLOT_COUNT
  {
    a.slots[i].occupied && a.slots[i].resident == v
  }

  predicate Resident(a: Alloc, v: VRegId)
    requires a.Valid()
  {
    exists i :: 0 <= i < SLOT_COUNT && Held(a, i, v)
  }

  lemma MissingIsSpilled(a: Alloc, defs: seq<VRegId>, d: nat, v: VRegId)
    requires Window(a, defs, d) && v in defs && !Resident(a, v)
    ensures v in a.spills && |defs| > d >= 14
  {
    var n := |defs|;
    var k :| 0 <= k < n && defs[k] == v;
    if k >= n - d {
      DirtySlot(a, defs, d, k);
      assert Held(a, At(a.next, k - (n - d)), v);
    }
  }

  /** The cache discipline of the slots: a dirty slot is occupied, a clean occupied one has a copy on the
      stack, nothing is resident twice, and every defined register is in a slot or on the stack. */
  lemma CacheDiscipline(a: Alloc, defs: seq<VRegId>, d: nat)
    requires Window(a, defs, d)
    ensures forall i :: 0 <= i < SLOT_COUNT && a.slots[i].dirty ==> a.slots[i].occupied
    ensures forall i :: 0 <= i < SLOT_COUNT && a.slots[i].occupied && !a.slots[i].dirty ==>
              a.slots[i].resident in a.spills
    ensures forall i, j :: 0 <= i < j < SLOT_COUNT && a.slots[i].occupied && a.slots[j].occupied ==>
              a.slots[i].resident != a.slots[j].resident
    ensures forall v :: v in defs ==> Resident(a, v) || v in a.spills
  {
    forall i | 0 <= i < SLOT_COUNT
      ensures a.slots[i].dirty ==> a.slots[i].occupied
      ensures a.slots[i].occupied && !a.slots[i].dirty ==> a.slots[i].resident in a.spills
    {
      SlotDiscipline(a, defs, d, i);
    }
    hide Window;
    forall i, j | 0 <= i < j < SLOT_COUNT && a.slots[i].occupied && a.slots[j].occupied
      ensures a.slots[i].resident != a.slots[j].resident
    {
      ResidentOnce(a, defs, d, i, j);
    }
    forall v | v in defs
      ensures Resident(a, v) || v in a.spills
    {
      if !Resident(a, v) { MissingIsSpilled(a, defs, d, v); }
    }
  }

  lemma SlotDiscipline(a: Alloc, defs: seq<VRegId>, d: nat, i: nat)
    requires Window(a, defs, d) && i < SLOT_COUNT
    ensures a.slots[i].dirty ==> a.slots[i].occupied
    ensures a.slots[i].occupied && !a.slots[i].dirty ==> a.slots[i].resident in a.spills
  {
    assert SlotOk(a.slots[i], Position(i, a.next), defs, d);
  }

  /** Making room does not move what is on the stack. */
  lemma EmptySlotKeepsSpills(types: seq<IrType>, a: Alloc, defs: seq<VRegId>, d: nat, v: VRegId)
    requires Window(a, defs, d) && v in a.spills
    ensures var a' := GetEmptySlot(types, a).0; v in a'.spills && a'.spills[v] == a.spills[v]
  {
    if d == SLOT_COUNT {
      EmptySlotSpill(types, a, defs);
    } else {
      EmptySlotFree(types, a, defs, d);
    }
  }

  lemma NotFound(a: Alloc, v: VRegId)
    requires a.Valid() && !Resident(a, v)
    ensures First(Holds(v), a.slots, 0) == SLOT_COUNT
  {
    var i := First(Holds(v), a.slots, 0);
    if i < SLOT_COUNT { assert Held(a, i, v); }
  }

  /** A register without a slot is loaded into an empty one, from its place on the stack. */
  lemma LoadSourceMissing(types: seq<IrType>, a: Alloc, defs: seq<VRegId>, d: nat, v: VRegId)
    requires Window(a, defs, d) && v in defs && !Resident(a, v)
    ensures v in a.spills
    ensures var (a1, i1) := GetEmptySlot(types, a);
            var (a', i) := LoadSource(types, a, v);
            var t := TypeAt(types, v);
            && i == i1
            && a' == Alloc(a1.slots[i := Slot(v, true, false)], a1.spills, a1.next,
                           a1.code + [LoadMem(WidthOf(t), t.IsSigned(), Physical(i), FP, a.spills[v])])
            && Window(a', defs, 14)
  {
    MissingIsSpilled(a, defs, d, v);
    EmptySlotKeepsSpills(types, a, defs, d, v);
    EmptySlotWindow(types, a, defs, d);
    hide GetEmptySlot, Window;
    NotFound(a, v);
    hide Resident, First;
    var (a1, i) := GetEmptySlot(types, a);
    assert a1.spills[v := a1.spills[v]] == a1.spills;
    LoadedWindow(a1, defs, v, i, LoadSource(types, a, v).0);
  }

  lemma LoadedWindow(a1: Alloc, defs: seq<VRegId>, v: VRegId, i: nat, a': Alloc)
    requires Window(a1, defs, 14) && i == At(a1.next, 14) && v in a1.spills
    requires a'.slots == a1.slots[i := Slot(v, true, false)] && a'.spills == a1.spills && a'.next == a1.next
    ensures Window(a', defs, 14)
  {
    forall j | 0 <= j < SLOT_COUNT
      ensures SlotOk(a'.slots[j], Position(j, a'.next), defs, 14)
    {
      assert SlotOk(a1.slots[j], Position(j, a1.next), defs, 14);
    }
  }

  // ---- operands that do not get into each other's way --------------------------------------

  /** The slots of the result and of the two operands of a binary instruction. */
  function LoadOperands(types: seq<IrType>, a: Alloc, dest: VRegId, op1: VRegId, op2: VRegId)
    : (r: (Alloc, nat, nat, nat))
    requires a.Valid()
    ensures r.0.Valid() && r.1 < SLOT_COUNT && r.2 < SLOT_COUNT && r.3 < SLOT_COUNT
  {
    var (a1, i0) := LoadDest(types, a, dest);
    var (a2, i1) := LoadSource(types, a1, op1);
    var (a3, i2) := LoadSource(types, a2, op2);
    (a3, i0, i1, i2)
  }

  /** With a result just placed, the resident registers are the result and the last fourteen before it. */
  lemma ResidentIff(a: Alloc, defs: seq<VRegId>, dest: VRegId, v: VRegId)
    requires Window(a, defs + [dest], Min(|defs| + 1, SLOT_COUNT)) && v in defs
    ensures Resident(a, v) <==> Recent(defs, v, 14)
  {
    if Recent(defs, v, 14) {
      RecentResident(a, defs, dest, v);
    }
    if Resident(a, v) {
      ResidentRecent(a, defs, dest, v);
    }
  }

  lemma RecentResident(a: Alloc, defs: seq<VRegId>, dest: VRegId, v: VRegId)
    requires Window(a, defs + [dest], Min(|defs| + 1, SLOT_COUNT)) && Recent(defs, v, 14)
    ensures Resident(a, v)
  {
    var all, d, n := defs + [dest], Min(|defs| + 1, SLOT_COUNT), |defs|;
    var k :| 0 <= k < n && k >= n - 14 && defs[k] == v;
    assert all[k] == v;
    DirtySlot(a, all, d, k);
    assert Held(a, At(a.next, k - (n + 1 - d)), v);
  }

  lemma ResidentRecent(a: Alloc, defs: seq<VRegId>, dest: VRegId, v: VRegId)
    requires Window(a, defs + [dest], Min(|defs| + 1, SLOT_COUNT)) && v in defs && Resident(a, v)
    ensures Recent(defs, v, 14)
  {
    var all, d, n := defs + [dest], Min(|defs| + 1, SLOT_COUNT), |defs|;
    assert v != dest by {
      var j :| 0 <= j < n && defs[j] == v;
      assert all[j] != all[n];
    }
    var i :| 0 <= i < SLOT_COUNT && Held(a, i, v);
    var p := Position(i, a.next);
    assert SlotOk(a.slots[i], p, all, d);
    assert p < d;
    var k := n + 1 - d + p;
    assert k != n;
    assert defs[k] == v;
    if n > 14 { assert defs[n - 14..][k - (n - 14)] == v; }
  }

  /** The register that is the next victim after a result has been placed. */
  lemma VictimIff(defs: seq<VRegId>, v: VRegId)
    requires Distinct(defs) && |defs| >= 14 && Recent(defs, v, 14)
    ensures v == defs[|defs| - 14] <==> !Recent(defs, v, 13)
  {
    var n := |defs|;
    var k :| n - 14 <= k < n && defs[k] == v;
    if k > n - 14 { assert defs[n - 13..][k - (n - 13)] == v; }
  }

  /** Exactly when register allocation gives an instruction its operands: the two operands are the same
      register, or both are among the last fourteen definitions, or one is among the last thirteen. For
      any other pair the second load reuses the slot of the first operand. */
  lemma OperandsHeldIff(types: seq<IrType>, a: Alloc, defs: seq<VRegId>, d: nat, dest: VRegId, op1: VRegId,
                        op2: VRegId)
    requires Window(a, defs, d) && dest !in defs && op1 in defs && op2 in defs
    ensures var (a3, i0, i1, i2) := LoadOperands(types, a, dest, op1, op2);
            SafeOperands(defs, op1, op2) <==> Held(a3, i0, dest) && Held(a3, i1, op1) && Held(a3, i2, op2)
  {
    var all, d1 := defs + [dest], Min(d, 14) + 1;
    var (a1, i0) := LoadDest(types, a, dest);
    LoadDestWindow(types, a, defs, d, dest);
    assert Distinct(defs) && d1 == Min(|defs| + 1, SLOT_COUNT);
    hide LoadDest, Window, Distinct;
    ResidentIff(a1, defs, dest, op1);
    ResidentIff(a1, defs, dest, op2);
    if Resident(a1, op1) {
      FirstOperandResident(types, a1, defs, dest, i0, op1, op2);
    } else {
      FirstOperandLoaded(types, a1, defs, dest, i0, op1, op2);
    }
  }

  lemma FirstOperandResident(types: seq<IrType>, a1: Alloc, defs: seq<VRegId>, dest: VRegId, i0: nat,
                             op1: VRegId, op2: VRegId)
    requires a1.Valid() && Window(a1, defs + [dest], Min(|defs| + 1, SLOT_COUNT))
    requires Distinct(defs) && dest !in defs && op1 in defs && op2 in defs
    requires i0 < SLOT_COUNT && a1.slots[i0] == Slot(dest, true, true) && Resident(a1, op1)
    ensures var (a2, i1) := LoadSource(types, a1, op1);
            var (a3, i2) := LoadSource(types, a2, op2);
            SafeOperands(defs, op1, op2) <==> Held(a3, i0, dest) && Held(a3, i1, op1) && Held(a3, i2, op2)
  {
    hide Window, LoadSource, Recent, Distinct;
    var all, d1, n := defs + [dest], Min(|defs| + 1, SLOT_COUNT), |defs|;
    ResidentIff(a1, defs, dest, op1);
    ResidentIff(a1, defs, dest, op2);
    var i :| 0 <= i < SLOT_COUNT && Held(a1, i, op1);
    LoadSourceFound(types, a1, all, d1, op1, i);
    if Resident(a1, op2) {
      var j :| 0 <= j < SLOT_COUNT && Held(a1, j, op2);
      LoadSourceFound(types, a1, all, d1, op2, j);
    } else {
      LoadOverVictim(types, a1, defs, dest, op2);
      ResidentSame(a1, all, d1, i, a1.next);
      ResidentSame(a1, all, d1, i0, a1.next);
      RecentShrinks(defs, op2);
      VictimIff(defs, op1);
    }
  }

  lemma RecentShrinks(defs: seq<VRegId>, v: VRegId)
    ensures Recent(defs, v, 13) ==> Recent(defs, v, 14)
  {
    if Recent(defs, v, 13) && |defs| > 14 {
      var k :| |defs| - 13 <= k < |defs| && defs[k] == v;
      assert defs[|defs| - 14..][k - (|defs| - 14)] == v;
    }
  }

  lemma ResidentSame(a: Alloc, defs: seq<VRegId>, d: nat, i: nat, j: nat)
    requires Window(a, defs, d) && i < SLOT_COUNT && j < SLOT_COUNT
    requires a.slots[i].occupied && a.slots[j].occupied
    ensures i == j <==> a.slots[i].resident == a.slots[j].resident
  {
    if i != j { ResidentOnce(a, defs, d, i, j); }
  }

  /** Loading a register while all slots are dirty takes the slot of the oldest one. */
  lemma LoadOverVictim(types: seq<IrType>, a1: Alloc, defs: seq<VRegId>, dest: VRegId, v: VRegId)
    requires a1.Valid() && Window(a1, defs + [dest], Min(|defs| + 1, SLOT_COUNT)) && v in defs && !Resident(a1, v)
    ensures |defs| >= 14 && Held(a1, a1.next, defs[|defs| - 14])
    ensures var (a2, i) := LoadSource(types, a1, v);
            i == a1.next && a2.slots == a1.slots[i := Slot(v, true, false)] && Window(a2, defs + [dest], 14)
  {
    hide LoadSource, GetEmptySlot, Window, Resident;
    var all, d1, n := defs + [dest], Min(|defs| + 1, SLOT_COUNT), |defs|;
    MissingIsSpilled(a1, all, d1, v);
    LoadSourceMissing(types, a1, all, d1, v);
    EmptySlotVictim(types, a1, defs, dest);
    var empty := GetEmptySlot(types, a1).0;
    assert empty.slots[a1.next := Slot(v, true, false)] == a1.slots[a1.next := Slot(v, true, false)];
  }

  lemma EmptySlotVictim(types: seq<IrType>, a1: Alloc, defs: seq<VRegId>, dest: VRegId)
    requires a1.Valid() && |defs| >= 14 && Window(a1, defs + [dest], SLOT_COUNT)
    ensures Held(a1, a1.next, defs[|defs| - 14])
    ensures var (a', i) := GetEmptySlot(types, a1);
            i == a1.next && a'.slots == a1.slots[i := Slot(defs[|defs| - 14], false, false)]
  {
    EmptySlotSpill(types, a1, defs + [dest]);
    assert (defs + [dest])[|defs| - 14] == defs[|defs| - 14];
    hide GetEmptySlot, Window;
  }

  lemma FirstOperandLoaded(types: seq<IrType>, a1: Alloc, defs: seq<VRegId>, dest: VRegId, i0: nat,
                           op1: VRegId, op2: VRegId)
    requires a1.Valid() && Window(a1, defs + [dest], Min(|defs| + 1, SLOT_COUNT))
    requires Distinct(defs) && dest !in defs && op1 in defs && op2 in defs
    requires i0 < SLOT_COUNT && a1.slots[i0] == Slot(dest, true, true) && !Resident(a1, op1)
    ensures var (a2, i1) := LoadSource(types, a1, op1);
            var (a3, i2) := LoadSource(types, a2, op2);
            SafeOperands(defs, op1, op2) <==> Held(a3, i0, dest) && Held(a3, i1, op1) && Held(a3, i2, op2)
  {
    hide Window, LoadSource, Recent, Distinct;
    var all, d1, n := defs + [dest], Min(|defs| + 1, SLOT_COUNT), |defs|;
    ResidentIff(a1, defs, dest, op1);
    ResidentIff(a1, defs, dest, op2);
    RecentShrinks(defs, op1);
    RecentShrinks(defs, op2);
    LoadOverVictim(types, a1, defs, dest, op1);
    var (a2, i1) := LoadSource(types, a1, op1);
    ResidentSame(a1, all, d1, i0, i1);
    assert op1 != dest && op2 != dest;
    if Recent(defs, op2, 14) { VictimIff(defs, op2); }
    if op1 == op2 {
      LoadSourceFound(types, a2, all, 14, op2, i1);
    } else if Recent(defs, op2, 13) {
      var j :| 0 <= j < SLOT_COUNT && Held(a1, j, op2);
      ResidentSame(a1, all, d1, i1, j);
      LoadSourceFound(types, a2, all, 14, op2, j);
    } else {
      NotLoaded(a1, a2, all, defs, d1, i1, op1, op2);
      LoadOverClean(types, a2, all, i1, op2);
    }
  }

  lemma NotLoaded(a1: Alloc, a2: Alloc, all: seq<VRegId>, defs: seq<VRegId>, d1: nat, i1: nat, op1: VRegId,
                  op2: VRegId)
    requires a1.Valid() && a2.Valid() && i1 < SLOT_COUNT && Window(a1, all, d1) && a1.slots[i1].occupied && op1 != op2
    requires a2.slots == a1.slots[i1 := Slot(op1, true, false)]
    requires !Resident(a1, op2) || op2 == a1.slots[i1].resident
    ensures !Resident(a2, op2)
  {
    forall j | 0 <= j < SLOT_COUNT
      ensures !Held(a2, j, op2)
    {
      if j != i1 {
        assert Held(a2, j, op2) == Held(a1, j, op2);
        if a1.slots[j].occupied { ResidentSame(a1, all, d1, i1, j); }
      }
    }
  }

  /** Loading a register while one slot is clean takes that slot, whatever it holds. */
  lemma LoadOverClean(types: seq<IrType>, a: Alloc, defs: seq<VRegId>, i: nat, v: VRegId)
    requires Window(a, defs, 14) && v in defs && !Resident(a, v) && i < SLOT_COUNT && !a.slots[i].dirty
    ensures var (a', j) := LoadSource(types, a, v);
            j == i && a'.slots == a.slots[i := Slot(v, true, false)]
  {
    LoadSourceMissing(types, a, defs, 14, v);
    EmptySlotFree(types, a, defs, 14);
    assert SlotOk(a.slots[i], Position(i, a.next), defs, 14);
  }

  // ---- the scratch register of a complement ------------------------------------------------

  /** The slots of the result, the operand and the scratch register of a 16-bit complement. */
  function LoadWithScratch(types: seq<IrType>, a: Alloc, dest: VRegId, op1: VRegId): (r: (Alloc, nat, nat, nat))
    requires a.Valid()
    ensures r.0.Valid() && r.1 < SLOT_COUNT && r.2 < SLOT_COUNT && r.3 < SLOT_COUNT
  {
    var (a1, i0) := LoadDest(types, a, dest);
    var (a2, i1) := LoadSource(types, a1, op1);
    var (a3, scratch) := GetEmptySlot(types, a2);
    (a3, i0, i1, scratch)
  }

  /** Exactly when the scratch register does not take the slot of the operand: the operand is among the
      last thirteen definitions. */
  lemma ScratchHeldIff(types: seq<IrType>, a: Alloc, defs: seq<VRegId>, d: nat, dest: VRegId, op1: VRegId)
    requires Window(a, defs, d) && dest !in defs && op1 in defs
    ensures var (a3, i0, i1, scratch) := LoadWithScratch(types, a, dest, op1);
            Recent(defs, op1, 13) <==> Held(a3, i0, dest) && Held(a3, i1, op1)
    ensures var (a3, i0, i1, scratch) := LoadWithScratch(types, a, dest, op1);
            !a3.slots[scratch].occupied
  {
    var all, d1 := defs + [dest], Min(d, 14) + 1;
    var (a1, i0) := LoadDest(types, a, dest);
    LoadDestWindow(types, a, defs, d, dest);
    assert Distinct(defs) && d1 == Min(|defs| + 1, SLOT_COUNT) && a1.Valid();
    hide LoadDest, Window, Distinct, LoadSource, GetEmptySlot;
    ResidentIff(a1, defs, dest, op1);
    RecentShrinks(defs, op1);
    if Resident(a1, op1) {
      var i :| 0 <= i < SLOT_COUNT && Held(a1, i, op1);
      LoadSourceFound(types, a1, all, d1, op1, i);
      ScratchBesideResident(types, a1, defs, dest, i0, i, op1);
    } else {
      LoadOverVictim(types, a1, defs, dest, op1);
      var (a2, i1) := LoadSource(types, a1, op1);
      EmptySlotOverClean(types, a2, all, i1);
    }
  }

  lemma ScratchBesideResident(types: seq<IrType>, a1: Alloc, defs: seq<VRegId>, dest: VRegId, i0: nat, i: nat,
                              op1: VRegId)
    requires a1.Valid() && Window(a1, defs + [dest], Min(|defs| + 1, SLOT_COUNT)) && Distinct(defs) && op1 in defs
    requires i0 < SLOT_COUNT && i < SLOT_COUNT && Held(a1, i0, dest) && Held(a1, i, op1) && dest !in defs
    requires Recent(defs, op1, 14)
    ensures var (a3, scratch) := GetEmptySlot(types, a1);
            !a3.slots[scratch].occupied && (Recent(defs, op1, 13) <==> Held(a3, i0, dest) && Held(a3, i, op1))
  {
    var all, d1, n := defs + [dest], Min(|defs| + 1, SLOT_COUNT), |defs|;
    if d1 < SLOT_COUNT {
      EmptySlotFree(types, a1, all, d1);
      assert SlotOk(a1.slots[i], Position(i, a1.next), all, d1) && SlotOk(a1.slots[i0], Position(i0, a1.next), all, d1);
      hide GetEmptySlot, Window;
      assert n <= 13 && Recent(defs, op1, 13);
    } else {
      hide Window, GetEmptySlot, Recent, Distinct;
      EmptySlotVictim(types, a1, defs, dest);
      ResidentSame(a1, all, d1, i, a1.next);
      ResidentSame(a1, all, d1, i0, a1.next);
      VictimIff(defs, op1);
    }
  }

  /** While one slot is clean, making room takes it. */
  lemma EmptySlotOverClean(types: seq<IrType>, a: Alloc, defs: seq<VRegId>, i: nat)
    requires Window(a, defs, 14) && i < SLOT_COUNT && !a.slots[i].dirty
    ensures var (a', j) := GetEmptySlot(types, a); j == i && !a'.slots[i].occupied
  {
    EmptySlotFree(types, a, defs, 14);
    assert SlotOk(a.slots[i], Position(i, a.next), defs, 14);
  }

  /** Two different registers that both have to be loaded get the same slot; the second one keeps it. */
  lemma OldPairCollides(types: seq<IrType>, a: Alloc, defs: seq<VRegId>, d: nat, dest: VRegId, op1: VRegId,
                        op2: VRegId)
    requires Window(a, defs, d) && dest !in defs && op1 in defs && op2 in defs && op1 != op2
    requires !Recent(defs, op1, 14) && !Recent(defs, op2, 14)
    ensures var (a3, i0, i1, i2) := LoadOperands(types, a, dest, op1, op2);
            i1 == i2 && Held(a3, i0, dest) && Held(a3, i2, op2)
  {
    hide LoadDest, Window, LoadSource, Recent, Distinct;
    var all, d1 := defs + [dest], Min(|defs| + 1, SLOT_COUNT);
    WindowValid(a, defs, d);
    var (a1, i0) := LoadDest(types, a, dest);
    ResultPlaced(types, a, defs, d, dest);
    ResidentIff(a1, defs, dest, op1);
    ResidentIff(a1, defs, dest, op2);
    LoadOverVictim(types, a1, defs, dest, op1);
    var (a2, i1) := LoadSource(types, a1, op1);
    NotLoaded(a1, a2, all, defs, d1, i1, op1, op2);
    LoadOverClean(types, a2, all, i1, op2);
    ResidentSame(a1, all, d1, i0, i1);
    SecondTakesOver(a1, a2, LoadSource(types, a2, op2).0, i0, i1, dest, op1, op2);
  }

  lemma WindowValid(a: Alloc, defs: seq<VRegId>, d: nat)
    requires Window(a, defs, d)
    ensures a.Valid()
  {
  }

  /** The queue once a result has been placed. */
  lemma ResultPlaced(types: seq<IrType>, a: Alloc, defs: seq<VRegId>, d: nat, dest: VRegId)
    requires Window(a, defs, d) && dest !in defs
    ensures var (a1, i0) := LoadDest(types, a, dest);
            a1.Valid() && a1.slots[i0] == Slot(dest, true, true) &&
            Window(a1, defs + [dest], Min(|defs| + 1, SLOT_COUNT))
  {
    LoadDestWindow(types, a, defs, d, dest);
  }

  lemma SecondTakesOver(a1: Alloc, a2: Alloc, a3: Alloc, i0: nat, i1: nat, dest: VRegId, op1: VRegId, op2: VRegId)
    requires a1.Valid() && a2.Valid() && a3.Valid() && i0 < SLOT_COUNT && i1 < SLOT_COUNT && i0 != i1
    requires a1.slots[i0] == Slot(dest, true, true) && a2.slots == a1.slots[i1 := Slot(op1, true, false)]
    requires a3.slots == a2.slots[i1 := Slot(op2, true, false)]
    ensures Held(a3, i0, dest) && Held(a3, i1, op2)
  {
  }
}
