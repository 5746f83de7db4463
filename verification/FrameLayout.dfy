/** The spill map and the frame. */
module FrameLayout {
  import opened IrTypes
  import opened Ir
  import opened IrSemantics
  import opened Allocator
  import opened Frame

  /** Every register in the map has its own stack slot, and the slots are the |spills| highest ones. */
  ghost predicate SlotsDistinct(spills: map<VRegId, int>) {
    && (forall v :: v in spills ==> spills[v] % 4 == 0 && -4 * |spills| - 12 <= spills[v] <= -16)
    && (forall v, w :: v in spills && w in spills && v != w ==> spills[v] != spills[w])
  }

  lemma GrowDistinct(spills: map<VRegId, int>, v: VRegId)
    requires SlotsDistinct(spills) && v !in spills
    ensures SlotsDistinct(spills[v := -4 * (|spills| + 4)]) && |spills[v := -4 * (|spills| + 4)]| == |spills| + 1
  {
  }

  /** v is in a dirty slot from slot i on. */
  predicate DirtyFrom(slots: seq<Slot>, i: nat, v: VRegId) {
    exists j :: i <= j < |slots| && slots[j].dirty && slots[j].resident == v
  }

  lemma SpillSlotDistinct(types: seq<IrType>, a: Alloc, i: nat)
    requires a.Valid() && i < SLOT_COUNT && SlotsDistinct(a.spills)
    ensures SpillSlot(types, a, i).Valid() && SlotsDistinct(SpillSlot(types, a, i).spills)
    ensures forall v :: v in SpillSlot(types, a, i).spills <==> v in a.spills || v == a.slots[i].resident
  {
    var v := a.slots[i].resident;
    if v in a.spills {
      assert a.spills[v := a.spills[v]] == a.spills;
    } else {
      GrowDistinct(a.spills, v);
    }
  }

  /** Spilling what is dirty, from slot i on. */
  lemma {:induction false} SpillDirtyDistinct(types: seq<IrType>, a: Alloc, i: nat, v: VRegId)
    requires a.Valid() && i <= SLOT_COUNT && SlotsDistinct(a.spills)
    ensures SlotsDistinct(SpillDirty(types, a, i).spills)
    ensures v in SpillDirty(types, a, i).spills <==> v in a.spills || DirtyFrom(a.slots, i, v)
    decreases SLOT_COUNT - i
  {
    hide SlotsDistinct, SpillSlot, DirtyFrom;
    if i < SLOT_COUNT {
      var a1 := if a.slots[i].dirty then SpillSlot(types, a, i) else a;
      SpillSlotDistinct(types, a, i);
      SpillDirtyDistinct(types, a1, i + 1, v);
      DirtyStep(types, a, i, v);
    } else {
      DirtyEnd(a.slots, v);
    }
  }

  lemma DirtyEnd(slots: seq<Slot>, v: VRegId)
    ensures !DirtyFrom(slots, |slots|, v)
  {
  }

  lemma DirtyStep(types: seq<IrType>, a: Alloc, i: nat, v: VRegId)
    requires a.Valid() && i < SLOT_COUNT
    ensures DirtyFrom(a.slots, i, v) <==> (a.slots[i].dirty && a.slots[i].resident == v) || DirtyFrom(a.slots, i + 1, v)
    ensures DirtyFrom(SpillSlot(types, a, i).slots, i + 1, v) <==> DirtyFrom(a.slots, i + 1, v)
  {
    var slots' := SpillSlot(types, a, i).slots;
    assert forall j :: i + 1 <= j < SLOT_COUNT ==> slots'[j] == a.slots[j];
  }

  /** The registers with a dirty slot or a place on the stack are the defined ones. */
  lemma DirtyOrSpilled(a: Alloc, defs: seq<VRegId>, d: nat, v: VRegId)
    requires Window(a, defs, d)
    ensures v in defs <==> v in a.spills || DirtyFrom(a.slots, 0, v)
  {
    var n := |defs|;
    if v in defs {
      var k :| 0 <= k < n && defs[k] == v;
      if k >= n - d { DirtySlot(a, defs, d, k); }
    }
    if DirtyFrom(a.slots, 0, v) {
      var j :| 0 <= j < SLOT_COUNT && a.slots[j].dirty && a.slots[j].resident == v;
      assert SlotOk(a.slots[j], Position(j, a.next), defs, d);
    }
  }

  lemma WindowDistinctSlots(a: Alloc, defs: seq<VRegId>, d: nat)
    requires Window(a, defs, d)
    ensures SlotsDistinct(a.spills)
  {
  }

  /** Spill accounting: at the end of a block exactly the defined registers have stack slots; the slots are
      word-aligned and distinct, from -16 down to -4n - 12. */
  lemma SpillAccounting(types: seq<IrType>, a: Alloc, defs: seq<VRegId>, d: nat)
    requires Window(a, defs, d)
    ensures var a' := SpillDirty(types, a, 0);
            && (forall v :: v in a'.spills <==> v in defs)
            && |a'.spills| == |defs|
            && SlotsDistinct(a'.spills)
  {
    hide Window, SpillDirty;
    assert a.Valid() by { WindowValid(a, defs, d); }
    WindowDistinctSlots(a, defs, d);
    SpillDirtyDistinct(types, a, 0, 0);
    forall v
      ensures v in SpillDirty(types, a, 0).spills <==> v in defs
    {
      SpillDirtyDistinct(types, a, 0, v);
      DirtyOrSpilled(a, defs, d, v);
    }
    WindowValid(a, defs, d);
    CountKeys(SpillDirty(types, a, 0).spills, defs);
  }

  lemma WindowValid(a: Alloc, defs: seq<VRegId>, d: nat)
    requires Window(a, defs, d)
    ensures a.Valid() && Distinct(defs)
  {
  }

  lemma {:induction false} CountKeys(m: map<VRegId, int>, defs: seq<VRegId>)
    requires Distinct(defs) && forall v :: v in m <==> v in defs
    ensures |m| == |defs|
    decreases |defs|
  {
    assert |m| == |m.Keys|;
    if defs == [] {
      assert m == map[];
    } else {
      var last := defs[|defs| - 1];
      var rest := defs[..|defs| - 1];
      assert defs == rest + [last];
      var m' := m - {last};
      assert m.Keys == m'.Keys + {last};
      CountKeys(m', rest);
    }
  }

  /** The padded frame reaches down to the lowest stack slot exactly when the number of registers is not
      2 modulo 4; otherwise it is one word short. */
  lemma FrameReachesLowestSlot(n: nat)
    requires n > 0
    ensures PaddedStackSize(n) >= 4 * n + 12 <==> n % 4 != 2
    ensures n % 4 == 2 ==> PaddedStackSize(n) == 4 * n + 12 - 4
  {
    var q, r := n / 4, n % 4;
    assert (8 + 4 * n + 15) / 16 == q + (if r <= 2 then 1 else 2);
  }

  /** All immediates of the frame fit exactly up to 506 registers. */
  lemma FrameFits(n: nat)
    ensures PaddedStackSize(n) <= 2047 <==> n <= 506
    ensures 8 + 4 * n <= PaddedStackSize(n) < 8 + 4 * n + 16 && PaddedStackSize(n) % 16 == 0
  {
  }

  /** Code that is reached only ever stores at or above the stack pointer: a register is spilled while
      fifteen are dirty, so the lowest slots are never used before the return. */
  lemma ReachedSlotsFit(a: Alloc, defs: seq<VRegId>, d: nat)
    requires Window(a, defs, d)
    ensures 4 * (|a.spills| + 3) <= PaddedStackSize(|defs|)
  {
    FrameFits(|defs|);
  }
}
