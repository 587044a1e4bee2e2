/** src/bkd_r2c.c: from a set of selected deltas of a file to the changeset-marked
    deltas whose changesets contain them. */
module ChangesetBoundary {
  import opened DeltaGraph
  import opened WalkRevs

  /** The D_CSET and D_SET bits of each delta. */
  datatype Marks = Marks(cset: seq<bool>, selected: seq<bool>)

  ghost predicate MarksOk(t: Table, m: Marks) {
    |m.cset| == |t| && |m.selected| == |t|
  }

  /** A marked delta, other than c itself, in the closure of c. */
  ghost predicate OtherMark(t: Table, m: Marks, c: nat, x: nat)
    requires WellFormed(t) && MarksOk(t, m) && c < |t|
  {
    x < |t| && x in Anc(t, c) && x != c && m.cset[x]
  }

  /** Delta n belongs to the changeset that ends at c: it is in the closure of c but
      in the closure of no other marked delta there. */
  ghost predicate InChangeset(t: Table, m: Marks, c: nat, n: nat)
    requires WellFormed(t) && MarksOk(t, m) && c < |t|
  {
    n in Anc(t, c) && forall x :: OtherMark(t, m, c, x) ==> n !in Anc(t, x)
  }

  ghost predicate HasSelected(t: Table, m: Marks, c: nat)
    requires WellFormed(t) && MarksOk(t, m) && c < |t|
  {
    exists n: nat :: n < |t| && InChangeset(t, m, c, n) && m.selected[n]
  }

  /** The deltas hidden from the walk once the marked deltas ps have been pruned. */
  ghost predicate Hidden(t: Table, ps: set<nat>, x: nat)
    requires WellFormed(t)
  {
    exists p :: p in ps && 1 <= p < |t| && BelowParents(t, p, x)
  }

  /** The walk's colours show the closure of c minus what is hidden. */
  ghost predicate Shows(t: Table, c: nat, ps: set<nat>, R: set<nat>, B: set<nat>)
    requires WellFormed(t) && c < |t|
  {
    forall x: nat :: (x in R <==> x in Anc(t, c)) && (x in B <==> Hidden(t, ps, x))
  }

  /** What the walk from c has established once every wanted serial from d up was seen:
      ps are the marks it pruned, every other mark is hidden, and nothing it passed
      was a selected member of the changeset. */
  ghost predicate Scanned(t: Table, m: Marks, c: nat, ps: set<nat>, d: nat)
    requires WellFormed(t) && MarksOk(t, m) && c < |t|
  {
    && (forall p :: p in ps ==> OtherMark(t, m, c, p))
    && (forall x :: d <= x && OtherMark(t, m, c, x) ==> x in ps || Hidden(t, ps, x))
    && (forall x :: d <= x < |t| && x in Anc(t, c) && !Hidden(t, ps, x) && (x == c || !m.cset[x]) ==> !m.selected[x])
  }

  lemma BelowSelf(t: Table, p: nat, x: nat)
    requires WellFormed(t) && 1 <= p < |t| && x in Anc(t, p) && x != p
    ensures BelowParents(t, p, x)
  {
    assert EdgesOk(t, p);
  }

  lemma {:induction false} BelowDown(t: Table, p: nat, x: nat, y: nat)
    requires WellFormed(t) && 1 <= p < |t| && BelowParents(t, p, x) && x < |t| && y in Anc(t, x)
    ensures BelowParents(t, p, y)
  {
    assert EdgesOk(t, p);
    if x in Anc(t, t[p].parent) {
      AncTransitive(t, t[p].parent, x, y);
    } else {
      AncTransitive(t, t[p].merge, x, y);
    }
  }

  lemma BelowIsAncestor(t: Table, p: nat, x: nat)
    requires WellFormed(t) && 1 <= p < |t| && BelowParents(t, p, x)
    ensures x in Anc(t, p) && x != p
  {
    assert EdgesOk(t, p);
    if x in Anc(t, t[p].parent) {
      AncBelow(t, t[p].parent, x);
    } else {
      AncBelow(t, t[p].merge, x);
    }
  }

  /** A mark the walk has passed hides everything below it. */
  lemma {:induction false} PassedMarkHides(t: Table, m: Marks, c: nat, ps: set<nat>, d: nat, x: nat, r: nat)
    requires WellFormed(t) && MarksOk(t, m) && c < |t| && Scanned(t, m, c, ps, d)
    requires OtherMark(t, m, c, x) && d <= x && r in Anc(t, x) && r != x
    ensures Hidden(t, ps, r)
  {
    AncBelow(t, c, x);
    if x in ps {
      BelowSelf(t, x, r);
    } else {
      var p :| p in ps && 1 <= p < |t| && BelowParents(t, p, x);
      BelowDown(t, p, x, r);
    }
  }

  /** A visible selected delta that is not another mark shows that c has one. */
  lemma {:induction false} VisibleBelongs(t: Table, m: Marks, c: nat, ps: set<nat>, d: nat, r: nat, R: set<nat>,
                                          B: set<nat>)
    requires WellFormed(t) && MarksOk(t, m) && c < |t| && Scanned(t, m, c, ps, d) && Shows(t, c, ps, R, B)
    requires r < |t| && Wants(false, R, B, r) && NoneBetween(false, R, B, r, d)
    requires (r == c || !m.cset[r]) && m.selected[r]
    ensures HasSelected(t, m, c)
  {
    forall x: nat | OtherMark(t, m, c, x)
      ensures r !in Anc(t, x)
    {
      AncBelow(t, c, x);
      if r in Anc(t, x) {
        AncBelow(t, x, r);
        if x < d {
          assert !Wants(false, R, B, x);
          var p :| p in ps && 1 <= p < |t| && BelowParents(t, p, x);
          BelowDown(t, p, x, r);
        } else {
          PassedMarkHides(t, m, c, ps, d, x, r);
        }
      }
    }
    assert InChangeset(t, m, c, r);
  }

  /** After a full scan that returned nothing, the changeset of c holds nothing selected. */
  lemma {:induction false} NothingLeft(t: Table, m: Marks, c: nat, ps: set<nat>, d: nat, R: set<nat>, B: set<nat>)
    requires WellFormed(t) && MarksOk(t, m) && c < |t| && Scanned(t, m, c, ps, d) && Shows(t, c, ps, R, B)
    requires NoneBetween(false, R, B, 0, d)
    ensures !HasSelected(t, m, c)
  {
    forall n: nat | n < |t| && InChangeset(t, m, c, n)
      ensures !m.selected[n]
    {
      AncBelow(t, c, n);
      assert EdgesOk(t, n);
      assert n in Anc(t, n);
      assert n == c || !m.cset[n] by { assert !OtherMark(t, m, c, n); }
      if Hidden(t, ps, n) {
        var p :| p in ps && 1 <= p < |t| && BelowParents(t, p, n);
        BelowIsAncestor(t, p, n);
      } else {
        assert Wants(false, R, B, n);
      }
    }
  }

  lemma StartScanned(t: Table, m: Marks, c: nat, R: set<nat>, B: set<nat>, d: nat)
    requires WellFormed(t) && MarksOk(t, m) && IsDelta(t, c)
    requires R == AncOf(t, [c]) && B == AncOf(t, [])
    requires forall x :: x in R ==> 1 <= x < d
    ensures Scanned(t, m, c, {}, d) && Shows(t, c, {}, R, B)
  {
    assert [c][0] == c;
    assert R == Anc(t, c);
  }

  lemma {:induction false} PassScanned(t: Table, m: Marks, c: nat, ps: set<nat>, d: nat, r: nat, R: set<nat>,
                                       B: set<nat>)
    requires WellFormed(t) && MarksOk(t, m) && c < |t| && Scanned(t, m, c, ps, d) && Shows(t, c, ps, R, B)
    requires r < |t| && NoneBetween(false, R, B, r, d)
    requires (r == c || !m.cset[r]) && !m.selected[r]
    ensures Scanned(t, m, c, ps, r)
  {
    forall x: nat | r < x < d && x in Anc(t, c) ensures Hidden(t, ps, x) {
      assert !Wants(false, R, B, x);
    }
  }

  lemma {:induction false} PruneScanned(t: Table, m: Marks, c: nat, ps: set<nat>, d: nat, r: nat,
                                        R: set<nat>, B: set<nat>, R': set<nat>, B': set<nat>)
    requires WellFormed(t) && MarksOk(t, m) && c < |t| && Scanned(t, m, c, ps, d) && Shows(t, c, ps, R, B)
    requires OtherMark(t, m, c, r) && 1 <= r < d && NoneBetween(false, R, B, r, d)
    requires forall x :: x in R' <==> x in R || BelowParents(t, r, x)
    requires forall x :: x in B' <==> x in B || BelowParents(t, r, x)
    ensures Scanned(t, m, c, ps + {r}, r) && Shows(t, c, ps + {r}, R', B')
  {
    forall x: nat
      ensures Hidden(t, ps + {r}, x) <==> Hidden(t, ps, x) || BelowParents(t, r, x)
    {
      HiddenMore(t, ps, r, x);
    }
    forall x: nat | BelowParents(t, r, x) ensures x in Anc(t, c) {
      BelowIsAncestor(t, r, x);
      AncTransitive(t, c, r, x);
    }
    forall x: nat | r < x < d && x in Anc(t, c) ensures Hidden(t, ps, x) {
      assert !Wants(false, R, B, x);
    }
  }

  lemma HiddenMore(t: Table, ps: set<nat>, r: nat, x: nat)
    requires WellFormed(t) && 1 <= r < |t|
    ensures Hidden(t, ps + {r}, x) <==> Hidden(t, ps, x) || BelowParents(t, r, x)
  {
    if Hidden(t, ps, x) {
      var p :| p in ps && 1 <= p < |t| && BelowParents(t, p, x);
      assert p in ps + {r};
    }
    if BelowParents(t, r, x) { assert r in ps + {r}; }
  }

  /** The pruned walk with callback inCset: does the changeset of c hold a selected delta? */
  method RegionHasSelected(t: Table, paint: DeltaFlags, m: Marks, c: nat) returns (found: bool)
    requires WellFormed(t) && MarksOk(t, m) && IsDelta(t, c) && paint.Clear(|t|)
    modifies paint
    ensures (found <==> HasSelected(t, m, c)) && paint.Clear(|t|)
  {
    var w := new Walker(t, paint, [], [c], DIFFERENCE);
    ghost var ps: set<nat>, R, B := {}, w.sets.red, w.sets.blue;
    StartScanned(t, m, c, R, B, w.d);
    hide w.Valid, w.Bounded, Hidden, Scanned, HasSelected, BelowParents, NoneBetween;
    while true
      invariant w.Valid() && w.t == t && w.paint == paint && w.mode == DIFFERENCE && fresh(w)
      invariant w.sets.red == R && w.sets.blue == B
      invariant Scanned(t, m, c, ps, w.d) && Shows(t, c, ps, R, B)
      decreases w.d
    {
      ghost var d := w.d;
      var r := w.Next();
      if r == 0 {
        NothingLeft(t, m, c, ps, d, R, B);
        found := false;
        break;
      }
      if r != c && m.cset[r] {
        w.Prune(r);
        PruneScanned(t, m, c, ps, d, r, R, B, w.sets.red, w.sets.blue);
        ps, R, B := ps + {r}, w.sets.red, w.sets.blue;
      } else if m.selected[r] {
        VisibleBelongs(t, m, c, ps, d, r, R, B);
        found := true;
        break;
      } else {
        PassScanned(t, m, c, ps, d, r, R, B);
      }
    }
    w.Done();
  }

  /** The colour the forward pass gives delta d: it is unmarked, and selected or above a
      coloured parent. */
  predicate Reddens(t: Table, m: Marks, red: seq<bool>, d: nat)
    requires d < |t| == |m.cset| == |m.selected| == |red| && t[d].parent < |t| && t[d].merge < |t|
  {
    m.selected[d] || (t[d].parent != 0 && red[t[d].parent]) || (t[d].merge != 0 && red[t[d].merge])
  }

  /** The colours of the forward pass over serials from..to. */
  ghost predicate Coloured(t: Table, m: Marks, red: seq<bool>, from: nat, to: nat)
    requires WellFormed(t) && MarksOk(t, m) && |red| == |t| && to <= |t|
  {
    forall d :: 1 <= d < to ==>
      (red[d] <==> from <= d && !t[d].tag && !m.cset[d] && AboveRed(t, m, red, d))
  }

  ghost predicate AboveRed(t: Table, m: Marks, red: seq<bool>, d: nat)
    requires WellFormed(t) && MarksOk(t, m) && |red| == |t| && 1 <= d < |t|
  {
    assert EdgesOk(t, d);
    Reddens(t, m, red, d)
  }

  /** Colour climbs from a selected delta to every unmarked delta above it on the way to c. */
  lemma {:induction false} ColourClimbs(t: Table, m: Marks, red: seq<bool>, from: nat, c: nat, n: nat, x: nat)
    requires WellFormed(t) && MarksOk(t, m) && |red| == |t| && IsDelta(t, c)
    requires Coloured(t, m, red, from, |t|) && InChangeset(t, m, c, n) && from <= n < |t| && m.selected[n]
    requires x in Anc(t, c) && x != c && x < |t| && n in Anc(t, x)
    ensures red[x]
    decreases x
  {
    AncBelow(t, c, x);
    AncBelow(t, x, n);
    AncIsDelta(t, c, x);
    assert !OtherMark(t, m, c, x);
    if n != x {
      var p := TowardsParent(t, x, n);
      AncTransitive(t, c, x, p);
      AncBelow(t, c, x);
      ColourClimbs(t, m, red, from, c, n, p);
    }
  }

  /** A parent of x on the way down to its proper ancestor n. */
  lemma TowardsParent(t: Table, x: nat, n: nat) returns (p: nat)
    requires WellFormed(t) && 1 <= x < |t| && n in Anc(t, x) && n != x
    ensures 1 <= p < x && (p == t[x].parent || p == t[x].merge)
    ensures n in Anc(t, p) && p in Anc(t, x)
  {
    assert EdgesOk(t, x);
    p := if n in Anc(t, t[x].parent) then t[x].parent else t[x].merge;
    assert EdgesOk(t, p);
    assert p in Anc(t, p);
  }

  /** The forward pass misses no boundary: where the changeset of c holds a selected delta,
      c is selected itself or has a coloured parent. */
  lemma {:induction false} BoundaryIsReached(t: Table, m: Marks, red: seq<bool>, from: nat, c: nat)
    requires WellFormed(t) && MarksOk(t, m) && |red| == |t| && IsDelta(t, c)
    requires Coloured(t, m, red, from, |t|) && HasSelected(t, m, c)
    requires forall n: nat :: n < |t| && m.selected[n] ==> from <= n
    ensures from <= c && AboveRed(t, m, red, c)
  {
    var n: nat :| n < |t| && InChangeset(t, m, c, n) && m.selected[n];
    AncBelow(t, c, n);
    if n != c {
      var p := TowardsParent(t, c, n);
      ColourClimbs(t, m, red, from, c, n, p);
    }
  }

  /** A boundary: a marked delta whose changeset holds something selected. */
  ghost predicate IsBoundary(t: Table, m: Marks, c: nat)
    requires WellFormed(t) && MarksOk(t, m)
  {
    IsDelta(t, c) && m.cset[c] && HasSelected(t, m, c)
  }

  ghost predicate Ascending(list: seq<nat>) {
    forall i, j :: 0 <= i < j < |list| ==> list[i] < list[j]
  }

  /** The forward pass: every boundary, and perhaps some false entries. */
  method ColourForward(t: Table, m: Marks, rstart: nat) returns (serlist: seq<nat>)
    requires WellFormed(t) && MarksOk(t, m) && rstart >= 1
    requires forall n: nat :: n < |t| && m.selected[n] ==> rstart <= n
    ensures Ascending(serlist)
    ensures forall c :: c in serlist ==> IsDelta(t, c) && m.cset[c]
    ensures forall c: nat :: IsBoundary(t, m, c) ==> c in serlist
  {
    serlist := [];
    var red := seq(|t|, _ => false);
    var d := rstart;
    while d < |t|
      invariant rstart <= d && |red| == |t| && forall x :: d <= x < |t| ==> !red[x]
      invariant Coloured(t, m, red, rstart, if d < |t| then d else |t|)
      invariant Ascending(serlist) && forall i :: 0 <= i < |serlist| ==> serlist[i] < d
      invariant forall c :: c in serlist ==> IsDelta(t, c) && m.cset[c]
      invariant forall c: nat :: rstart <= c < d && IsDelta(t, c) && m.cset[c] && AboveRed(t, m, red, c) ==>
        c in serlist
    {
      assert EdgesOk(t, d);
      ghost var before := red;
      if !t[d].tag && Reddens(t, m, red, d) {
        if !m.cset[d] {
          red := red[d := true];
        } else {
          serlist := serlist + [d];
        }
      }
      ColouredStep(t, m, before, red, rstart, d);
      d := d + 1;
    }
    forall c: nat | IsBoundary(t, m, c) ensures c in serlist {
      BoundaryIsReached(t, m, red, rstart, c);
    }
  }

  lemma {:induction false} ColouredStep(t: Table, m: Marks, red: seq<bool>, red': seq<bool>, from: nat, d: nat)
    requires WellFormed(t) && MarksOk(t, m) && |red| == |t| && from <= d < |t| && 1 <= d && |red'| == |t|
    requires Coloured(t, m, red, from, d)
    requires forall x :: 0 <= x < |t| && x != d ==> red'[x] == red[x]
    requires red'[d] <==> !t[d].tag && !m.cset[d] && AboveRed(t, m, red, d)
    ensures Coloured(t, m, red', from, d + 1)
    ensures forall c: nat :: 1 <= c <= d ==> (AboveRed(t, m, red, c) <==> AboveRed(t, m, red', c))
  {
    forall x: nat | 1 <= x <= d ensures AboveRed(t, m, red, x) <==> AboveRed(t, m, red', x) {
      assert EdgesOk(t, x);
    }
  }

  /** The list of boundaries, oldest first: no false entries and none missing. */
  method BoundarySet(t: Table, m: Marks, rstart: nat) returns (serlist: seq<nat>)
    requires WellFormed(t) && MarksOk(t, m) && rstart >= 1
    requires forall n: nat :: n < |t| && m.selected[n] ==> rstart <= n
    ensures Ascending(serlist)
    ensures forall c: nat :: c in serlist <==> IsBoundary(t, m, c)
  {
    serlist := ColourForward(t, m, rstart);
    var i := |serlist|;
    var paint := new DeltaFlags(|t|);
    hide HasSelected;
    while i > 0
      invariant paint.Clear(|t|) && fresh(paint)
      invariant 0 <= i <= |serlist|
      invariant Ascending(serlist)
      invariant forall c :: c in serlist ==> IsDelta(t, c) && m.cset[c]
      invariant forall c: nat :: IsBoundary(t, m, c) ==> c in serlist
      invariant forall k :: i <= k < |serlist| ==> serlist[k] < |t| && HasSelected(t, m, serlist[k])
    {
      i := i - 1;
      var found := RegionHasSelected(t, paint, m, serlist[i]);
      if !found {
        ghost var before := serlist;
        serlist := serlist[..i] + serlist[i + 1..];
        RemoveAt(before, i);
      }
    }
  }

  lemma RemoveAt(list: seq<nat>, i: nat)
    requires i < |list| && Ascending(list)
    ensures Ascending(list[..i] + list[i + 1..])
    ensures forall x :: x in list[..i] + list[i + 1..] <==> x in list && x != list[i]
  {
    var rest := list[..i] + list[i + 1..];
    forall x | x in list && x != list[i] ensures x in rest {
      var k :| 0 <= k < |list| && list[k] == x;
      assert rest[if k < i then k else k - 1] == x;
    }
  }
}
