/** The delta table of an sfile, seen as a graph.

    A serial numbers a delta; serials run from 1 (the source's TREE) to |t| - 1
    (its TABLE), and slot 0 of the table is unused, so that 0 can mean "no delta".
    Every edge leads to a smaller serial, which is what makes one downward pass
    over the table enough for every walk in the source. */
module DeltaGraph {

  /** The graph part of a delta: its parent, its merge parent, and whether it is a tag. */
  datatype Node = Node(parent: nat, merge: nat, tag: bool)

  type Table = seq<Node>

  ghost predicate WellFormed(t: Table) {
    && |t| >= 1
    && forall d :: 1 <= d < |t| ==> EdgesOk(t, d)
  }

  ghost predicate EdgesOk(t: Table, d: nat)
    requires 1 <= d < |t|
  {
    && t[d].parent < d
    && t[d].merge < d
    && (t[d].parent == 0 ==> t[d].merge == 0)
    && (!t[d].tag && t[d].parent != 0 ==> !t[t[d].parent].tag)
    && (!t[d].tag && t[d].merge != 0 ==> !t[t[d].merge].tag)
  }

  /** A real delta: a serial in the table that is not a tag. */
  predicate IsDelta(t: Table, d: nat) {
    1 <= d < |t| && !t[d].tag
  }

  /** The closure of d: d and everything reachable from it over parent and merge edges. */
  ghost function Anc(t: Table, d: nat): set<nat>
    requires WellFormed(t) && d < |t|
    decreases d
  {
    if d == 0 then {} else
      assert EdgesOk(t, d);
      {d} + Anc(t, t[d].parent) + Anc(t, t[d].merge)
  }

  ghost predicate Closed(t: Table, s: set<nat>)
    requires WellFormed(t)
  {
    forall x :: x in s ==> 1 <= x < |t| && Anc(t, x) <= s
  }

  /** Closures only look down the table. */
  lemma {:induction false} AncBelow(t: Table, d: nat, x: nat)
    requires WellFormed(t) && d < |t| && x in Anc(t, d)
    ensures 1 <= x <= d
    decreases d
  {
    assert EdgesOk(t, d);
    if x in Anc(t, t[d].parent) {
      AncBelow(t, t[d].parent, x);
    } else if x in Anc(t, t[d].merge) {
      AncBelow(t, t[d].merge, x);
    }
  }

  lemma {:induction false} AncNoZero(t: Table, d: nat)
    requires WellFormed(t) && d < |t|
    ensures 0 !in Anc(t, d)
    decreases d
  {
    if d > 0 {
      assert EdgesOk(t, d);
      AncNoZero(t, t[d].parent);
      AncNoZero(t, t[d].merge);
    }
  }

  lemma {:induction false} AncTransitive(t: Table, d: nat, x: nat, y: nat)
    requires WellFormed(t) && d < |t| && x in Anc(t, d) && x < |t| && y in Anc(t, x)
    ensures y in Anc(t, d)
    decreases d
  {
    assert EdgesOk(t, d);
    if x in Anc(t, t[d].parent) {
      AncTransitive(t, t[d].parent, x, y);
    } else if x in Anc(t, t[d].merge) {
      AncTransitive(t, t[d].merge, x, y);
    }
  }

  /** A closure is closed: it holds the closure of each of its members. */
  lemma {:induction false} AncClosed(t: Table, d: nat)
    requires WellFormed(t) && d < |t|
    ensures Closed(t, Anc(t, d))
  {
    forall x | x in Anc(t, d)
      ensures 1 <= x < |t| && Anc(t, x) <= Anc(t, d)
    {
      AncBelow(t, d, x);
      forall y | y in Anc(t, x) ensures y in Anc(t, d) {
        AncTransitive(t, d, x, y);
      }
    }
  }

  /** The closure of a real delta holds no tags. */
  lemma {:induction false} AncIsDelta(t: Table, d: nat, x: nat)
    requires WellFormed(t) && IsDelta(t, d) && x in Anc(t, d)
    ensures IsDelta(t, x)
    decreases d
  {
    assert EdgesOk(t, d);
    if x in Anc(t, t[d].parent) {
      AncIsDelta(t, t[d].parent, x);
    } else if x in Anc(t, t[d].merge) {
      AncIsDelta(t, t[d].merge, x);
    }
  }

  /** A way down the graph: every delta is the parent or the merge parent of the one before. */
  ghost predicate Path(t: Table, p: seq<nat>) {
    && p != [] && (forall i :: 0 <= i < |p| ==> 1 <= p[i] < |t|)
    && forall i :: 0 <= i < |p| - 1 ==> p[i + 1] == t[p[i]].parent || p[i + 1] == t[p[i]].merge
  }

  /** The closure of d is what some way down from d leads to. */
  lemma {:induction false} AncMeans(t: Table, d: nat, x: nat)
    requires WellFormed(t) && 1 <= d < |t|
    ensures x in Anc(t, d) <==> exists p :: Path(t, p) && p[0] == d && p[|p| - 1] == x
  {
    if x in Anc(t, d) { var p := WayDown(t, d, x); }
    if p :| Path(t, p) && p[0] == d && p[|p| - 1] == x { EndIsAnc(t, p); }
  }

  lemma {:induction false} WayDown(t: Table, d: nat, x: nat) returns (p: seq<nat>)
    requires WellFormed(t) && 1 <= d < |t| && x in Anc(t, d)
    ensures Path(t, p) && p[0] == d && p[|p| - 1] == x
    decreases d
  {
    assert EdgesOk(t, d);
    if x == d {
      p := [d];
    } else {
      var e := if x in Anc(t, t[d].parent) then t[d].parent else t[d].merge;
      var q := WayDown(t, e, x);
      p := [d] + q;
    }
  }

  lemma {:induction false} EndIsAnc(t: Table, p: seq<nat>)
    requires WellFormed(t) && Path(t, p)
    ensures p[|p| - 1] in Anc(t, p[0])
  {
    assert EdgesOk(t, p[0]);
    if |p| > 1 {
      var q := p[1..];
      assert p[1] == t[p[0]].parent || p[1] == t[p[0]].merge;
      forall i | 0 <= i < |q| - 1 ensures q[i + 1] == t[q[i]].parent || q[i + 1] == t[q[i]].merge {
        assert p[i + 2] == t[p[i + 1]].parent || p[i + 2] == t[p[i + 1]].merge;
      }
      EndIsAnc(t, q);
    }
  }

  /** Closures do not change when deltas are added. */
  lemma {:induction false} AncGrown(t: Table, more: Table, d: nat)
    requires WellFormed(t) && WellFormed(t + more) && d < |t|
    ensures Anc(t + more, d) == Anc(t, d)
    decreases d
  {
    if d > 0 {
      assert EdgesOk(t, d);
      AncGrown(t, more, t[d].parent);
      AncGrown(t, more, t[d].merge);
    }
  }

  /** The closure of a new delta: those of its parents, and itself. */
  lemma {:induction false} AncNew(t: Table, p: nat, q: nat)
    requires WellFormed(t) && IsDelta(t, p) && (q == 0 || IsDelta(t, q))
    ensures var t' := t + [Node(p, q, false)];
            WellFormed(t') && IsDelta(t', |t|) && Anc(t', |t|) == Anc(t, p) + Anc(t, q) + {|t|}
  {
    var t' := t + [Node(p, q, false)];
    forall d: nat | 1 <= d < |t'| ensures EdgesOk(t', d) {
      if d < |t| { assert EdgesOk(t, d); }
    }
    AncGrown(t, [Node(p, q, false)], p);
    AncGrown(t, [Node(p, q, false)], q);
  }
}
