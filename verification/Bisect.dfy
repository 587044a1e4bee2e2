/** src/bisect.c: binary search for the first failing delta over a graph. */
module Bisect {
  import opened DeltaGraph
  import opened WalkRevs

  /** How many of the serials below n are in s. */
  ghost function Count(s: set<nat>, n: nat): nat {
    if n == 0 then 0 else Count(s, n - 1) + Bit(n - 1 in s)
  }

  /** It is the number of its members, when all are serials of the table. */
  lemma {:induction false} CountIs(s: set<nat>, n: nat)
    requires forall x :: x in s ==> x < n
    ensures Count(s, n) == |s|
  {
    if n == 0 {
      assert s == {};
    } else {
      var r := s - {n - 1};
      CountIs(r, n - 1);
      CountSame(s, r, n - 1);
    }
  }

  lemma {:induction false} CountSplit(s: set<nat>, a: set<nat>, b: set<nat>, n: nat)
    requires forall x :: 0 <= x < n ==> (x in s <==> x in a || x in b) && !(x in a && x in b)
    ensures Count(s, n) == Count(a, n) + Count(b, n)
  {
    if n > 0 { CountSplit(s, a, b, n - 1); }
  }

  lemma {:induction false} CountSame(s: set<nat>, a: set<nat>, n: nat)
    requires forall x :: 0 <= x < n ==> (x in s <==> x in a)
    ensures Count(s, n) == Count(a, n)
  {
    if n > 0 { CountSame(s, a, n - 1); }
  }

  lemma {:induction false} CountAdd(s: set<nat>, x: nat, n: nat)
    requires x !in s
    ensures Count(s + {x}, n) == Count(s, n) + Bit(x < n)
  {
    if n > 0 { CountAdd(s, x, n - 1); }
  }

  lemma {:induction false} CountLess(s: set<nat>, a: set<nat>, n: nat)
    requires forall x :: 0 <= x < n && x in s ==> x in a
    ensures Count(s, n) <= Count(a, n)
    ensures (exists x :: 0 <= x < n && x in a && x !in s) ==> Count(s, n) < Count(a, n)
  {
    if n > 0 { CountLess(s, a, n - 1); }
  }

  lemma {:induction false} CountZero(s: set<nat>, n: nat)
    requires forall x :: 0 <= x < n ==> x !in s
    ensures Count(s, n) == 0
  {
    if n > 0 { CountZero(s, n - 1); }
  }

  /** The deltas that can still be the culprit: under right, under no left revision. */
  ghost function Candidates(t: Table, left: seq<nat>, right: nat): set<nat>
    requires WellFormed(t) && AllDeltas(t, left) && IsDelta(t, right)
  {
    Anc(t, right) - AncOf(t, left)
  }

  /** There are no candidates exactly when right is under some left revision. */
  lemma {:induction false} NoCandidates(t: Table, left: seq<nat>, right: nat)
    requires WellFormed(t) && AllDeltas(t, left) && IsDelta(t, right)
    ensures Candidates(t, left, right) == {} <==> right in AncOf(t, left)
  {
    assert EdgesOk(t, right);
    assert right in Anc(t, right);
    if right in AncOf(t, left) {
      var i :| 0 <= i < |left| && right in Anc(t, left[i]);
      AncClosed(t, left[i]);
      forall x | x in Anc(t, right) ensures x in AncOf(t, left) { assert x in Anc(t, left[i]); }
    } else {
      assert right in Candidates(t, left, right);
    }
  }

  /** The members of c that are ancestors of d, or d itself. */
  ghost function Under(t: Table, c: set<nat>, d: nat): set<nat>
    requires WellFormed(t) && d < |t|
  {
    c * Anc(t, d)
  }

  ghost function Score(t: Table, c: set<nat>, d: nat): nat
    requires WellFormed(t) && d < |t|
  {
    Count(Under(t, c, d), |t|)
  }

  ghost predicate AllZero(score: seq<int>) {
    forall i :: 0 <= i < |score| ==> score[i] == 0
  }

  /** The parent's score plus the flagged part of the ancestor difference is the score of d. */
  method ScoreOf(t: Table, paint: DeltaFlags, flagged: set<nat>, base: int, d: nat) returns (n: int)
    requires WellFormed(t) && IsDelta(t, d) && EdgesOk(t, d)
    requires base == Score(t, flagged, t[d].parent) && paint.Clear(|t|)
    modifies paint
    ensures n == Score(t, flagged, d) && paint.Clear(|t|)
  {
    var e := t[d].parent;
    var w := new Walker(t, paint, if e == 0 then [] else [e], [d], DIFFERENCE);
    ghost var R, B := w.sets.red, w.sets.blue;
    TipClosure(t, d);
    if e != 0 { TipClosure(t, e); }
    assert R == Anc(t, d) && B == Anc(t, e);
    ghost var seen: set<nat> := {};
    n := base;
    CountZero(seen, |t|);
    hide w.Valid, w.Bounded, Score, AncOf, Wants, NoneBetween, Tallied;
    while true
      invariant w.Valid() && w.t == t && w.paint == paint && w.mode == DIFFERENCE && fresh(w)
      invariant w.sets.red == R && w.sets.blue == B
      invariant n == base + Count(seen, |t|) && Tallied(seen, flagged, R, B, w.d)
      decreases w.d
    {
      ghost var before := w.d;
      var d1 := w.Next();
      if d1 == 0 {
        TallyEnd(seen, flagged, R, B, before);
        break;
      }
      TallyStep(seen, flagged, R, B, before, d1);
      if d1 in flagged {
        n := n + 1;
        CountAdd(seen, d1, |t|);
        seen := seen + {d1};
      }
    }
    w.Done();
    ScoreSplit(t, flagged, d, seen);
  }

  /** The flagged deltas reported so far, from serial lo up. */
  ghost predicate Tallied(seen: set<nat>, flagged: set<nat>, R: set<nat>, B: set<nat>, lo: nat) {
    forall x: nat :: x in seen <==> x in flagged && x >= lo && Wants(false, R, B, x)
  }

  lemma TallyStep(seen: set<nat>, flagged: set<nat>, R: set<nat>, B: set<nat>, lo: nat, r: nat)
    requires Tallied(seen, flagged, R, B, lo) && NoneBetween(false, R, B, r, lo) && r < lo && Wants(false, R, B, r)
    ensures r !in seen
    ensures Tallied(if r in flagged then seen + {r} else seen, flagged, R, B, r)
  {
  }

  lemma TallyEnd(seen: set<nat>, flagged: set<nat>, R: set<nat>, B: set<nat>, lo: nat)
    requires Tallied(seen, flagged, R, B, lo) && NoneBetween(false, R, B, 0, lo) && 0 !in R
    ensures forall x: nat :: x in seen <==> x in flagged && x in R && x !in B
  {
    forall x: nat | x in flagged && x in R && x !in B ensures x in seen {
      assert Wants(false, R, B, x);
    }
  }

  lemma TipClosure(t: Table, d: nat)
    requires WellFormed(t) && IsDelta(t, d)
    ensures AncOf(t, [d]) == Anc(t, d)
  {
    assert [d][0] == d;
  }

  lemma {:induction false} ScoreSplit(t: Table, c: set<nat>, d: nat, rest: set<nat>)
    requires WellFormed(t) && IsDelta(t, d) && EdgesOk(t, d)
    requires forall x: nat :: x in rest <==> x in c && x in Anc(t, d) && x !in Anc(t, t[d].parent)
    ensures Score(t, c, d) == Score(t, c, t[d].parent) + Count(rest, |t|)
  {
    CountSplit(Under(t, c, d), Under(t, c, t[d].parent), rest, |t|);
  }

  ghost function Elems(list: seq<nat>): set<nat> {
    set x | x in list
  }

  /** A parent outside the set has no member of the set below it. */
  ghost predicate Convex(t: Table, c: set<nat>)
    requires WellFormed(t)
  {
    forall d :: d in c ==> IsDelta(t, d) && EdgesOk(t, d) && (t[d].parent in c || Score(t, c, t[d].parent) == 0)
  }

  /** Below d, the members of c flagged so far are all the members of c. */
  lemma {:induction false} FlaggedEnough(t: Table, c: set<nat>, flagged: set<nat>, d: nat, e: nat)
    requires WellFormed(t) && e <= d < |t|
    requires forall x: nat :: x in flagged <==> x in c && x <= d
    ensures Score(t, flagged, e) == Score(t, c, e)
  {
    forall x: nat | x in Anc(t, e) ensures x <= d { AncBelow(t, e, x); }
    CountSame(Under(t, flagged, e), Under(t, c, e), |t|);
  }

  /** Scores every candidate, oldest to newest, building on the score of its parent. */
  method ComputeScores(t: Table, paint: DeltaFlags, cand: seq<nat>, score: array<int>)
    requires WellFormed(t) && Descending(cand) && Convex(t, Elems(cand))
    requires score.Length == |t| && AllZero(score[..]) && paint.Clear(|t|)
    modifies score, paint
    ensures paint.Clear(|t|)
    ensures forall x: nat :: x < |t| ==> score[x] == if x in cand then Score(t, Elems(cand), x) else 0
  {
    ghost var c := Elems(cand);
    var flagged: set<nat> := {};
    var i := |cand|;
    hide Score;
    while i > 0
      invariant 0 <= i <= |cand|
      invariant forall x: nat :: x in flagged <==> x in cand[i..]
      invariant paint.Clear(|t|)
      invariant forall x: nat :: x < |t| ==> score[x] == if x in flagged then Score(t, c, x) else 0
    {
      i := i - 1;
      var d := cand[i];
      assert d in c;
      assert cand[i..] == [d] + cand[i + 1..];
      flagged := flagged + {d};
      UpToHere(cand, i);
      FlaggedEnough(t, c, flagged, d, d);
      FlaggedEnough(t, c, flagged, d, t[d].parent);
      score[d] := ScoreOf(t, paint, flagged, score[t[d].parent], d);
    }
    assert cand[0..] == cand;
  }

  lemma UpToHere(cand: seq<nat>, i: nat)
    requires i < |cand| && Descending(cand)
    ensures forall x: nat :: x in cand[i..] <==> x in cand && x <= cand[i]
  {
    forall x: nat | x in cand && x <= cand[i] ensures x in cand[i..] {
      var k :| 0 <= k < |cand| && cand[k] == x;
      assert cand[i..][k - i] == x;
    }
  }

  /** How evenly testing d would split n candidates. */
  ghost function Balance(t: Table, c: set<nat>, n: nat, d: nat): int
    requires WellFormed(t) && d < |t|
  {
    var k := Score(t, c, d);
    if k < n - k + 1 then k else n - k + 1
  }

  /** d splits c most evenly, and is the newest delta that does. */
  ghost predicate Middle(t: Table, c: set<nat>, d: nat)
    requires WellFormed(t)
  {
    && d in c && d < |t|
    && forall x: nat :: x in c && x < |t| ==>
      var n := Count(c, |t|);
      var bx, bd := Balance(t, c, n, x), Balance(t, c, n, d);
      bx <= bd && (x > d ==> bx < bd)
  }

  lemma {:induction false} CountElems(list: seq<nat>, n: nat)
    requires Descending(list) && forall i :: 0 <= i < |list| ==> list[i] < n
    ensures Count(Elems(list), n) == |list|
  {
    if list == [] {
      CountZero(Elems(list), n);
    } else {
      var front, z := list[..|list| - 1], list[|list| - 1];
      CountElems(front, n);
      assert list == front + [z];
      assert Elems(list) == Elems(front) + {z};
      assert z !in front && z < n;
      CountAdd(Elems(front), z, n);
    }
  }

  lemma {:induction false} BalancePositive(t: Table, cand: seq<nat>, d: nat)
    requires WellFormed(t) && Descending(cand) && d in cand && AllDeltas(t, cand)
    ensures Balance(t, Elems(cand), |cand|, d) > 0
  {
    var c := Elems(cand);
    CountElems(cand, |t|);
    CountLess(Under(t, c, d), c, |t|);
    CountLess({}, Under(t, c, d), |t|);
    assert EdgesOk(t, d);
    assert d in Under(t, c, d);
  }

  /** Replaces scores by balances, newest first, and remembers the best. */
  method PickMiddle(t: Table, cand: seq<nat>, score: array<int>) returns (best: nat)
    requires WellFormed(t) && Descending(cand) && cand != [] && AllDeltas(t, cand)
    requires score.Length == |t|
    requires forall x: nat :: x < |t| ==> score[x] == if x in cand then Score(t, Elems(cand), x) else 0
    modifies score
    ensures Middle(t, Elems(cand), best)
    ensures forall x: nat :: x < |t| ==> score[x] == if x in cand then Balance(t, Elems(cand), |cand|, x) else 0
  {
    hide Score, Balance, WellFormed, Elems;
    ghost var c, b := Elems(cand), 0;
    CountElems(cand, |t|);
    best := 0;
    for i := 0 to |cand|
      invariant forall k :: 0 <= k < |cand| ==>
                  score[cand[k]] == if k < i then Balance(t, c, |cand|, cand[k]) else Score(t, c, cand[k])
      invariant forall x: nat :: x < |t| && x !in cand ==> score[x] == 0
      invariant if i == 0 then best == 0 else b < i && best == cand[b]
      invariant forall k :: 0 <= k < i ==> score[cand[k]] <= score[best] && (k < b ==> score[cand[k]] < score[best])
    {
      var d := cand[i];
      BalancePositive(t, cand, d);
      BalanceIs(t, c, |cand|, d);
      score[d] := if score[d] < |cand| - score[d] + 1 then score[d] else |cand| - score[d] + 1;
      if score[best] < score[d] { best, b := d, i; }
    }
    MiddleFrom(t, cand, score[..], best, b);
  }

  lemma {:induction false} MiddleFrom(t: Table, cand: seq<nat>, score: seq<int>, best: nat, b: nat)
    requires WellFormed(t) && Descending(cand) && cand != [] && AllDeltas(t, cand) && |score| == |t|
    requires Count(Elems(cand), |t|) == |cand|
    requires forall k :: 0 <= k < |cand| ==> score[cand[k]] == Balance(t, Elems(cand), |cand|, cand[k])
    requires b < |cand| && best == cand[b]
    requires forall k :: 0 <= k < |cand| ==> score[cand[k]] <= score[best] && (k < b ==> score[cand[k]] < score[best])
    ensures Middle(t, Elems(cand), best)
    ensures forall x: nat :: x in cand ==> score[x] == Balance(t, Elems(cand), |cand|, x)
  {
    hide Score, Balance, WellFormed;
    forall x: nat | x in cand
      ensures score[x] == Balance(t, Elems(cand), |cand|, x) && score[x] <= score[best]
      ensures (x > best ==> score[x] < score[best])
    {
      var k :| 0 <= k < |cand| && cand[k] == x;
    }
  }

  lemma BalanceIs(t: Table, c: set<nat>, n: nat, d: nat)
    requires WellFormed(t) && d < |t|
    ensures Balance(t, c, n, d) == if Score(t, c, d) < n - Score(t, c, d) + 1 then Score(t, c, d)
      else n - Score(t, c, d) + 1
  {
  }

  /** What one call says; Refused is the failing assertion that there are candidates. */
  datatype Result = NoMore | TryNext | NoAnswer | Refused

  /** The candidates without the failing tip make a convex set. */
  lemma {:induction false} CandidatesConvex(t: Table, left: seq<nat>, right: nat, c: set<nat>)
    requires WellFormed(t) && AllDeltas(t, left) && IsDelta(t, right)
    requires c == Candidates(t, left, right) - {right}
    ensures Convex(t, c)
  {
    forall d | d in c
      ensures IsDelta(t, d) && EdgesOk(t, d) && (t[d].parent in c || Score(t, c, t[d].parent) == 0)
    {
      AncIsDelta(t, right, d);
      assert EdgesOk(t, d);
      var p := t[d].parent;
      if p !in c {
        AncBelow(t, right, d);
        forall x: nat | x in Under(t, c, p) ensures false {
          OutsideParent(t, left, right, d, p, x);
        }
        CountZero(Under(t, c, p), |t|);
      }
    }
  }

  /** A parent of a candidate is a candidate, or lies under a left revision with all its ancestors. */
  lemma {:induction false} OutsideParent(t: Table, left: seq<nat>, right: nat, d: nat, p: nat, x: nat)
    requires WellFormed(t) && AllDeltas(t, left) && IsDelta(t, right)
    requires d in Anc(t, right) && d < |t| && 1 <= d && EdgesOk(t, d) && p == t[d].parent && d <= right
    requires p !in Candidates(t, left, right) - {right} && x in Anc(t, p)
    ensures x in AncOf(t, left)
  {
    assert p != 0;
    assert EdgesOk(t, p);
    assert p in Anc(t, p) && p in Anc(t, d);
    AncTransitive(t, right, d, p);
    var i :| 0 <= i < |left| && p in Anc(t, left[i]);
    AncTransitive(t, left[i], p, x);
  }

  /** Zeroes the score of every skipped delta. */
  method DropSkipped(skip: seq<nat>, score: array<int>)
    requires forall i :: 0 <= i < |skip| ==> skip[i] < score.Length
    modifies score
    ensures forall x: nat :: x < score.Length ==> score[x] == if x in skip then 0 else old(score[x])
  {
    for i := 0 to |skip|
      invariant forall x: nat :: x < score.Length ==> score[x] == if x in skip[..i] then 0 else old(score[x])
    {
      if score[skip[i]] != 0 { score[skip[i]] := 0; }
      assert skip[..i + 1] == skip[..i] + [skip[i]];
    }
    assert skip[..|skip|] == skip;
  }

  /** Collects the candidates that still have a score. */
  method Remaining(cand: seq<nat>, score: array<int>) returns (slist: seq<nat>)
    requires forall i :: 0 <= i < |cand| ==> cand[i] < score.Length
    ensures forall x: nat :: x in slist <==> x in cand && score[x] != 0
  {
    slist := [];
    for i := 0 to |cand|
      invariant forall x: nat :: x in slist <==> x in cand[..i] && score[x] != 0
    {
      if score[cand[i]] != 0 { slist := slist + [cand[i]]; }
      assert cand[..i + 1] == cand[..i] + [cand[i]];
    }
    assert cand[..|cand|] == cand;
  }

  /** Clears the scores of the candidates. */
  method ClearScores(cand: seq<nat>, score: array<int>)
    requires forall i :: 0 <= i < |cand| ==> cand[i] < score.Length
    requires forall x: nat :: x < score.Length && x !in cand ==> score[x] == 0
    modifies score
    ensures AllZero(score[..])
  {
    for i := 0 to |cand|
      invariant forall x: nat :: x < score.Length && x !in cand[i..] ==> score[x] == 0
    {
      score[cand[i]] := 0;
      assert cand[i..] == [cand[i]] + cand[i + 1..];
    }
  }

  /** Chooses among the candidates other than the tip. */
  method Choose(t: Table, paint: DeltaFlags, cand: seq<nat>, skip: seq<nat>, score: array<int>)
    returns (ret: Result, next: nat)
    requires WellFormed(t) && Descending(cand) && cand != [] && AllDeltas(t, cand) && Convex(t, Elems(cand))
    requires AllDeltas(t, skip)
    requires score.Length == |t| && AllZero(score[..]) && paint.Clear(|t|)
    modifies score, paint
    ensures AllZero(score[..]) && paint.Clear(|t|)
    ensures ret == TryNext || ret == NoAnswer
    ensures ret == TryNext ==> next in cand && next !in skip
    ensures ret == TryNext ==>
      Middle(t, Elems(cand), next) || exists best: nat :: Middle(t, Elems(cand), best) && best in skip
    ensures ret == NoAnswer <==> forall x :: x in cand ==> x in skip
  {
    ComputeScores(t, paint, cand, score);
    var best := PickMiddle(t, cand, score);
    hide Middle, Balance, Convex;
    BalancesPositive(t, cand);
    DropSkipped(skip, score);
    next, ret := best, TryNext;
    if score[best] == 0 {
      var slist := Remaining(cand, score);
      if slist == [] {
        ret := NoAnswer;
      } else {
        var k :| 0 <= k < |slist|;
        next := slist[k];
        assert next in slist;
      }
    }
    ClearScores(cand, score);
  }

  lemma {:induction false} BalancesPositive(t: Table, cand: seq<nat>)
    requires WellFormed(t) && Descending(cand) && AllDeltas(t, cand)
    ensures forall x: nat :: x in cand ==> Balance(t, Elems(cand), |cand|, x) > 0
  {
    forall x: nat | x in cand ensures Balance(t, Elems(cand), |cand|, x) > 0 {
      BalancePositive(t, cand, x);
    }
  }

  /** What the walk collects. */
  ghost predicate Listed(t: Table, left: seq<nat>, right: nat, candlist: seq<nat>)
    requires WellFormed(t) && AllDeltas(t, left) && IsDelta(t, right)
  {
    forall x: nat :: x in candlist <==> x in Answer(DIFFERENCE, UpperBound(t, [right]), AncOf(t, left))
  }

  lemma {:induction false} RightIsFirst(t: Table, left: seq<nat>, right: nat, candlist: seq<nat>)
    requires WellFormed(t) && AllDeltas(t, left) && IsDelta(t, right) && right !in AncOf(t, left)
    requires Descending(candlist)
    requires Listed(t, left, right, candlist)
    ensures candlist != [] && candlist[0] == right && AllDeltas(t, candlist)
    ensures Elems(candlist) == Candidates(t, left, right)
    ensures Elems(candlist[1..]) == Candidates(t, left, right) - {right}
  {
    TipClosure(t, right);
    assert EdgesOk(t, right);
    assert right in candlist;
    forall i | 0 <= i < |candlist| ensures IsDelta(t, candlist[i]) && candlist[i] <= right {
      assert candlist[i] in candlist;
      AncIsDelta(t, right, candlist[i]);
      AncBelow(t, right, candlist[i]);
    }
    assert candlist == [candlist[0]] + candlist[1..];
  }

  lemma {:induction false} ListEmpty(t: Table, left: seq<nat>, right: nat, candlist: seq<nat>)
    requires WellFormed(t) && AllDeltas(t, left) && IsDelta(t, right)
    requires Listed(t, left, right, candlist)
    ensures candlist == [] <==> right in AncOf(t, left)
    ensures candlist == [] <==> Candidates(t, left, right) == {}
  {
    NoCandidates(t, left, right);
    TipClosure(t, right);
    hide AncOf, Anc;
    if candlist != [] { assert candlist[0] in candlist; }
    forall x: nat | x in Candidates(t, left, right) ensures x in candlist { }
  }

  /** One call of bisect: the next delta to test, or the end of the search. */
  method Step(t: Table, paint: DeltaFlags, left: seq<nat>, right: nat, skip: seq<nat>, score: array<int>)
    returns (ret: Result, next: nat)
    requires WellFormed(t) && AllDeltas(t, left) && IsDelta(t, right) && AllDeltas(t, skip)
    requires score.Length == |t| && AllZero(score[..]) && paint.Clear(|t|)
    modifies score, paint
    ensures AllZero(score[..]) && paint.Clear(|t|)
    ensures ret == Refused <==> right in AncOf(t, left)
    ensures ret == NoMore <==> Candidates(t, left, right) == {right}
    ensures ret == NoMore ==> next == right
    ensures ret == TryNext ==> next in Candidates(t, left, right) - {right} && next !in skip && IsDelta(t, next)
    ensures ret == TryNext ==>
      var c := Candidates(t, left, right) - {right};
      Middle(t, c, next) || exists best: nat :: Middle(t, c, best) && best in skip
    ensures ret == NoAnswer ==> forall x: nat :: x in Candidates(t, left, right) - {right} ==> x in skip
  {
    hide Candidates, Middle, Convex, AncOf, Anc, UpperBound, Answer, IsTip;
    var candlist := Collect(t, paint, left, [right], DIFFERENCE);
    ListEmpty(t, left, right, candlist);
    if candlist == [] { return Refused, 0; }
    RightIsFirst(t, left, right, candlist);
    hide Listed;
    if |candlist| == 1 {
      assert Elems(candlist) == {right};
      return NoMore, candlist[0];
    }
    assert candlist[1] in candlist[1..];
    ghost var c := Candidates(t, left, right);
    assert forall x: nat :: x in c - {right} <==> x in candlist[1..];
    CandidatesConvex(t, left, right, c - {right});
    ret, next := Choose(t, paint, candlist[1..], skip, score);
  }

  /** What a run of the user's script can say about a delta. */
  datatype Verdict = Pass | Fail | Untestable | Abort

  datatype Outcome = Found | NotFound | Aborted | NothingToSearch

  /** What the search knows: left passes, right fails, and right is under no left. */
  ghost predicate Bracketed(t: Table, start: nat, stop: nat, verdict: nat -> Verdict,
                            left: seq<nat>, right: nat, skip: seq<nat>)
    requires WellFormed(t)
  {
    && AllDeltas(t, left) && IsDelta(t, right) && AllDeltas(t, skip)
    && right !in AncOf(t, left)
    && start in left
    && (forall i :: 0 <= i < |left| ==> left[i] == start || verdict(left[i]) == Pass)
    && (right == stop || verdict(right) == Fail)
    && (forall i :: 0 <= i < |skip| ==> verdict(skip[i]) == Untestable)
  }

  ghost function Left(t: Table, left: seq<nat>, right: nat): nat
    requires WellFormed(t) && AllDeltas(t, left) && IsDelta(t, right)
  {
    Count(Candidates(t, left, right), |t|)
  }

  ghost function Untried(t: Table, left: seq<nat>, right: nat, skip: seq<nat>): nat
    requires WellFormed(t) && AllDeltas(t, left) && IsDelta(t, right)
  {
    Count(Candidates(t, left, right) - Elems(skip), |t|)
  }

  /** A passing answer drops next and everything under it. */
  lemma {:induction false} PassShrinks(t: Table, left: seq<nat>, right: nat, next: nat)
    requires WellFormed(t) && AllDeltas(t, left) && IsDelta(t, right) && IsDelta(t, next)
    requires next in Candidates(t, left, right) - {right} && right !in AncOf(t, left)
    ensures Left(t, left + [next], right) < Left(t, left, right)
    ensures right !in AncOf(t, left + [next])
  {
    var c, c' := Candidates(t, left, right), Candidates(t, left + [next], right);
    assert EdgesOk(t, next);
    forall x: nat ensures x in AncOf(t, left + [next]) <==> x in AncOf(t, left) || x in Anc(t, next) {
      AncOfMore(t, left, next, x);
    }
    assert next in c && next !in c';
    CountLess(c', c, |t|);
    AncBelow(t, right, next);
    if right in Anc(t, next) { AncBelow(t, next, right); }
  }

  lemma {:induction false} AncOfMore(t: Table, left: seq<nat>, next: nat, x: nat)
    requires WellFormed(t) && AllDeltas(t, left) && IsDelta(t, next)
    ensures x in AncOf(t, left + [next]) <==> x in AncOf(t, left) || x in Anc(t, next)
  {
    var more := left + [next];
    if x in AncOf(t, left) {
      var i :| 0 <= i < |left| && x in Anc(t, left[i]);
      assert more[i] == left[i];
    }
    if x in Anc(t, next) {
      assert more[|left|] == next;
    }
  }

  /** A failing answer drops everything that is not under next, the old tip among it. */
  lemma {:induction false} FailShrinks(t: Table, left: seq<nat>, right: nat, next: nat)
    requires WellFormed(t) && AllDeltas(t, left) && IsDelta(t, right) && IsDelta(t, next)
    requires next in Candidates(t, left, right) - {right} && right !in AncOf(t, left)
    ensures Left(t, left, next) < Left(t, left, right)
    ensures next !in AncOf(t, left)
  {
    var c, c' := Candidates(t, left, right), Candidates(t, left, next);
    AncBelow(t, right, next);
    AncClosed(t, right);
    assert EdgesOk(t, right);
    if right in Anc(t, next) { AncBelow(t, next, right); }
    assert right in c && right !in c';
    CountLess(c', c, |t|);
  }

  /** An untestable answer leaves one fewer delta to try. */
  lemma {:induction false} SkipConsumes(t: Table, left: seq<nat>, right: nat, skip: seq<nat>, next: nat)
    requires WellFormed(t) && AllDeltas(t, left) && IsDelta(t, right) && IsDelta(t, next)
    requires next in Candidates(t, left, right) && next !in skip
    ensures Untried(t, left, right, skip + [next]) < Untried(t, left, right, skip)
  {
    var c := Candidates(t, left, right);
    AncBelow(t, right, next);
    var a, b := c - Elems(skip + [next]), c - Elems(skip);
    assert next in skip + [next];
    assert next in b && next !in a;
    CountLess(a, b, |t|);
  }

  /** The driving loop. Whatever the script answers, the search ends; when it finds a delta,
      every proper ancestor of that delta lies under a revision that passed. */
  method Search(t: Table, start: nat, stop: nat, verdict: nat -> Verdict)
    returns (outcome: Outcome, next: nat, left: seq<nat>, right: nat, skip: seq<nat>)
    requires WellFormed(t) && IsDelta(t, start) && IsDelta(t, stop)
    ensures outcome == NothingToSearch <==> stop in Anc(t, start)
    ensures outcome != NothingToSearch ==> Bracketed(t, start, stop, verdict, left, right, skip)
    ensures outcome == Found ==> next == right && Candidates(t, left, right) == {next}
    ensures outcome == NotFound ==> forall x: nat :: x in Candidates(t, left, right) - {right} ==> x in skip
    ensures outcome == Aborted ==> verdict(next) == Abort && next in Candidates(t, left, right)
  {
    left, right, skip := [start], stop, [];
    TipClosure(t, start);
    var score := new int[|t|](_ => 0);
    var paint := new DeltaFlags(|t|);
    while true
      invariant paint.Clear(|t|) && fresh(paint)
      invariant AllDeltas(t, left) && IsDelta(t, right) && AllDeltas(t, skip)
      invariant if stop in Anc(t, start) then left == [start] && right == stop
                else Bracketed(t, start, stop, verdict, left, right, skip)
      invariant score.Length == |t| && AllZero(score[..])
      decreases Left(t, left, right), Untried(t, left, right, skip)
    {
      var ret;
      ret, next := Step(t, paint, left, right, skip, score);
      hide Candidates, Left, Untried, Middle;
      match ret {
        case Refused => return NothingToSearch, next, left, right, skip;
        case NoMore => return Found, next, left, right, skip;
        case NoAnswer => return NotFound, next, left, right, skip;
        case TryNext =>
          match verdict(next) {
            case Pass =>
              PassShrinks(t, left, right, next);
              left := left + [next];
            case Abort =>
              return Aborted, next, left, right, skip;
            case Untestable =>
              SkipConsumes(t, left, right, skip, next);
              skip := skip + [next];
            case Fail =>
              FailShrinks(t, left, right, next);
              right := next;
          }
      }
    }
  }

  /** If passing is inherited by ancestors, what the search finds is the first to fail. */
  lemma {:induction false} FoundIsFirst(t: Table, start: nat, stop: nat, verdict: nat -> Verdict,
                                        left: seq<nat>, right: nat, skip: seq<nat>)
    requires WellFormed(t) && Bracketed(t, start, stop, verdict, left, right, skip)
    requires Candidates(t, left, right) == {right}
    requires verdict(start) == Pass && verdict(stop) == Fail
    requires forall d: nat, x: nat :: d < |t| && verdict(d) == Pass && x in Anc(t, d) ==> verdict(x) == Pass
    ensures verdict(right) == Fail
    ensures forall x: nat :: x in Anc(t, right) && x != right ==> verdict(x) == Pass
  {
    forall x: nat | x in Anc(t, right) && x != right ensures verdict(x) == Pass {
      assert x !in Candidates(t, left, right);
      var i :| 0 <= i < |left| && x in Anc(t, left[i]);
    }
  }
}
