/** The walk over the blocks of a function that the IR printer does: a worklist over an arbitrary graph. */
module ControlFlow {
  import opened Results
  import opened Ir

  /** Blocks by id. Ids are unique, so the pointers of the successors are ids here. */
  type Graph = map<nat, BasicBlock>

  predicate WellFormed(g: Graph) {
    forall id :: id in g ==> g[id].id == id && forall s :: s in Successors(g[id]) ==> s in g
  }

  function Successors(b: BasicBlock): seq<nat> {
    match b.terminator
    case Jump(target) => [target]
    case Branch(first, second) => [first, second]
    case _ => []
  }

  /** The blocks that n jumps lead to from some block. */
  predicate ReachesIn(g: Graph, from: nat, to: nat, n: nat)
    requires WellFormed(g)
    decreases n
  {
    from in g &&
    if n == 0 then from == to
    else exists s :: s in Successors(g[from]) && ReachesIn(g, s, to, n - 1)
  }

  ghost predicate Reaches(g: Graph, from: nat, to: nat)
    requires WellFormed(g)
  {
    exists n: nat :: ReachesIn(g, from, to, n)
  }

  /** What has been pushed but not yet visited, or is already in the result. */
  predicate Known(seen: set<nat>, toVisit: seq<nat>, id: nat) { id in seen || id in toVisit }

  /** Every successor of a block in the result is known. */
  ghost predicate Closed(g: Graph, seen: set<nat>, toVisit: seq<nat>) {
    forall id, s :: id in seen && id in g && s in Successors(g[id]) ==> Known(seen, toVisit, s)
  }

  lemma {:induction false} ReachesStep(g: Graph, from: nat, mid: nat, s: nat, n: nat)
    requires WellFormed(g) && mid in g && s in Successors(g[mid]) && ReachesIn(g, from, mid, n)
    ensures ReachesIn(g, from, s, n + 1)
    decreases n
  {
    if n == 0 {
      assert ReachesIn(g, s, s, 0);
    } else {
      var t :| t in Successors(g[from]) && ReachesIn(g, t, mid, n - 1);
      ReachesStep(g, t, mid, s, n - 1);
    }
  }

  /** A closed set without pending blocks contains everything it reaches. */
  lemma {:induction false} ClosedReaches(g: Graph, seen: set<nat>, from: nat, to: nat, n: nat)
    requires WellFormed(g) && Closed(g, seen, []) && from in seen && ReachesIn(g, from, to, n)
    ensures to in seen
    decreases n
  {
    if n == 0 {
    } else {
      var s :| s in Successors(g[from]) && ReachesIn(g, s, to, n - 1);
      assert Known(seen, [], s);
      ClosedReaches(g, seen, s, to, n - 1);
    }
  }

  /** The blocks reachable from the entry, each once, the entry first; depth first, first successor first. */
  method ReachableBlocks(g: Graph, entry: Option<nat>) returns (ordered: seq<BasicBlock>)
    requires WellFormed(g) && (entry.Some? ==> entry.value in g)
    ensures entry.None? ==> ordered == []
    ensures entry.Some? ==> ordered != [] && ordered[0] == g[entry.value]
    ensures forall i :: 0 <= i < |ordered| ==> ordered[i].id in g && ordered[i] == g[ordered[i].id]
    ensures forall i, j :: 0 <= i < j < |ordered| ==> ordered[i].id != ordered[j].id
    ensures entry.Some? ==> forall id :: id in g ==> (g[id] in ordered <==> Reaches(g, entry.value, id))
  {
    hide WellFormed, Reaches, ReachesIn, Visited, Closed, Successors;
    ordered := [];
    if entry.None? { return; }
    var seen: set<nat> := {};
    var toVisit := [entry.value];
    NothingSeen(g, entry.value);
    while toVisit != []
      invariant forall id :: id in toVisit ==> id in g && Reaches(g, entry.value, id)
      invariant forall id :: id in seen ==> id in g && Reaches(g, entry.value, id)
      invariant Visited(g, ordered, seen) && Closed(g, seen, toVisit) && Known(seen, toVisit, entry.value)
      invariant if ordered == [] then toVisit == [entry.value] && seen == {} else ordered[0] == g[entry.value]
      decreases g.Keys - seen, |toVisit|
    {
      var id := toVisit[|toVisit| - 1];
      assert toVisit == toVisit[..|toVisit| - 1] + [id];
      toVisit := toVisit[..|toVisit| - 1];
      if id in seen {
        ClosedSkip(g, seen, toVisit, id);
        continue;
      }
      VisitOne(g, ordered, seen, id);
      SuccessorsReached(g, entry.value, id);
      ghost var seenBefore, before := seen, toVisit;
      seen := seen + {id};
      ordered := ordered + [g[id]];
      var successors := Successors(g[id]);
      var i := |successors|;
      while i > 0
        invariant 0 <= i <= |successors|
        invariant forall x :: x in toVisit <==> x in before || x in successors[i..]
      {
        toVisit := toVisit + [successors[i - 1]];
        i := i - 1;
      }
      assert successors[0..] == successors;
      ClosedStep(g, seenBefore, before, id, toVisit);
    }
    AllFound(g, ordered, seen, entry.value);
    VisitedParts(g, ordered, seen);
  }

  lemma NothingSeen(g: Graph, entry: nat)
    requires WellFormed(g) && entry in g
    ensures Visited(g, [], {}) && Closed(g, {}, [entry]) && Reaches(g, entry, entry)
  {
    assert ReachesIn(g, entry, entry, 0);
  }

  lemma VisitedParts(g: Graph, ordered: seq<BasicBlock>, seen: set<nat>)
    requires Visited(g, ordered, seen)
    ensures forall i :: 0 <= i < |ordered| ==> ordered[i].id in g && ordered[i] == g[ordered[i].id]
    ensures forall i, j :: 0 <= i < j < |ordered| ==> ordered[i].id != ordered[j].id
  {
  }

  lemma ClosedSkip(g: Graph, seen: set<nat>, toVisit: seq<nat>, id: nat)
    requires id in seen && Closed(g, seen, toVisit + [id])
    ensures Closed(g, seen, toVisit)
  {
    forall x, s | x in seen && x in g && s in Successors(g[x])
      ensures Known(seen, toVisit, s)
    {
      assert Known(seen, toVisit + [id], s);
    }
  }

  /** ordered lists the blocks of seen, each once. */
  ghost predicate Visited(g: Graph, ordered: seq<BasicBlock>, seen: set<nat>) {
    && (forall i :: 0 <= i < |ordered| ==>
          ordered[i].id in seen && ordered[i].id in g && ordered[i] == g[ordered[i].id])
    && (forall i, j :: 0 <= i < j < |ordered| ==> ordered[i].id != ordered[j].id)
    && (forall id :: id in seen ==> id in g && g[id] in ordered)
  }

  lemma VisitOne(g: Graph, ordered: seq<BasicBlock>, seen: set<nat>, id: nat)
    requires WellFormed(g) && Visited(g, ordered, seen) && id in g && id !in seen
    ensures Visited(g, ordered + [g[id]], seen + {id})
  {
    var more := ordered + [g[id]];
    assert more[|ordered|] == g[id];
    forall x | x in seen
      ensures g[x] in more
    {
      assert g[x] in ordered;
    }
  }

  lemma ClosedStep(g: Graph, seen: set<nat>, before: seq<nat>, id: nat, after: seq<nat>)
    requires id in g && Closed(g, seen, before + [id])
    requires forall x :: x in after <==> x in before || x in Successors(g[id])
    ensures Closed(g, seen + {id}, after)
  {
    forall x, s | x in seen + {id} && x in g && s in Successors(g[x])
      ensures Known(seen + {id}, after, s)
    {
      if x != id { assert Known(seen, before + [id], s); }
    }
  }

  lemma SuccessorsReached(g: Graph, entry: nat, id: nat)
    requires WellFormed(g) && id in g && Reaches(g, entry, id)
    ensures forall s :: s in Successors(g[id]) ==> s in g && Reaches(g, entry, s)
  {
    var n: nat :| ReachesIn(g, entry, id, n);
    forall s | s in Successors(g[id])
      ensures Reaches(g, entry, s)
    {
      ReachesStep(g, entry, id, s, n);
    }
  }

  lemma AllFound(g: Graph, ordered: seq<BasicBlock>, seen: set<nat>, entry: nat)
    requires WellFormed(g) && Visited(g, ordered, seen) && Closed(g, seen, []) && entry in seen
    requires forall id :: id in seen ==> Reaches(g, entry, id)
    ensures forall id :: id in g ==> (g[id] in ordered <==> Reaches(g, entry, id))
  {
    forall id | id in g
      ensures g[id] in ordered <==> Reaches(g, entry, id)
    {
      if Reaches(g, entry, id) {
        var n: nat :| ReachesIn(g, entry, id, n);
        ClosedReaches(g, seen, entry, id, n);
      }
    }
  }
}
