/** src/slib.c: the common ancestor of two deltas, by a quick pass or from the list of all the
    greatest ones. */
module Gca {
  import opened DeltaGraph
  import opened WalkRevs

  ghost predicate DeltaOrNone(t: Table, d: nat) {
    d == 0 || IsDelta(t, d)
  }

  ghost function Common(t: Table, left: nat, right: nat): set<nat>
    requires WellFormed(t) && left < |t| && right < |t|
  {
    Anc(t, left) * Anc(t, right)
  }

  /** d is the newest common ancestor, or 0 if there is none. */
  ghost predicate NewestCommon(t: Table, left: nat, right: nat, d: nat)
    requires WellFormed(t) && left < |t| && right < |t|
  {
    if d == 0 then Common(t, left, right) == {}
    else d in Common(t, left, right) && forall x :: x in Common(t, left, right) ==> x <= d
  }

  /** The colours stand for the two closures, below position e. */
  ghost predicate Shown(t: Table, left: nat, right: nat, cut: seq<Colour>, e: nat)
    requires WellFormed(t) && left < |t| && right < |t|
  {
    && |cut| == |t| && Within(t, cut, 1, e)
    && forall x: nat, h: Hue :: h != Green && x < e ==> ShownAt(t, left, right, cut, x, h)
  }

  ghost predicate ShownAt(t: Table, left: nat, right: nat, cut: seq<Colour>, x: nat, h: Hue)
    requires WellFormed(t) && left < |t| && right < |t| && |cut| == |t|
  {
    Reached(t, cut, h, x) <==> x in Anc(t, if h == Red then left else right)
  }

  lemma {:induction false} StartShown(t: Table, left: nat, right: nat, e: nat)
    requires WellFormed(t) && IsDelta(t, left) && IsDelta(t, right) && left < e && right < e
    ensures Shown(t, left, right, StartMarks(t, left, right), e)
  {
    var cut := StartMarks(t, left, right);
    forall x: nat, h: Hue | h != Green && x < e ensures ShownAt(t, left, right, cut, x, h) {
      var tip := if h == Red then left else right;
      TipsReach(t, cut, h, [tip], x);
      assert [tip][0] == tip;
    }
  }

  function StartMarks(t: Table, left: nat, right: nat): seq<Colour>
    requires IsDelta(t, left) && IsDelta(t, right)
  {
    var clear := seq(|t|, _ => CLEAR);
    var one := clear[left := Join(clear[left], Colour(true, false))];
    one[right := Join(one[right], Colour(false, true))]
  }

  /** The mark of the topmost delta says which closures it is in. */
  lemma {:induction false} ShownTop(t: Table, left: nat, right: nat, cut: seq<Colour>, e: nat)
    requires WellFormed(t) && left < |t| && right < |t| && 1 <= e < |t| && Shown(t, left, right, cut, e + 1)
    ensures cut[e].red <==> e in Anc(t, left)
    ensures cut[e].blue <==> e in Anc(t, right)
  {
    hide Reached;
    TopReach(t, cut, e, 1, Red);
    TopReach(t, cut, e, 1, Blue);
    assert ShownAt(t, left, right, cut, e, Red) && ShownAt(t, left, right, cut, e, Blue);
  }

  lemma {:induction false} ShownStep(t: Table, left: nat, right: nat, cut: seq<Colour>, e: nat)
    requires WellFormed(t) && left < |t| && right < |t| && IsDelta(t, e) && Shown(t, left, right, cut, e + 1)
    ensures Shown(t, left, right, PaintParents(t, cut[e := CLEAR], e, cut[e]), e)
  {
    hide Reached;
    assert EdgesOk(t, e);
    var next := PaintParents(t, cut[e := CLEAR], e, cut[e]);
    forall x: nat, h: Hue | h != Green && x < e ensures ShownAt(t, left, right, next, x, h) {
      assert ShownAt(t, left, right, cut, x, h);
      StepReach(t, cut, e, h, x);
    }
  }

  lemma ShownSkip(t: Table, left: nat, right: nat, cut: seq<Colour>, e: nat)
    requires WellFormed(t) && left < |t| && right < |t| && 1 <= e < |t| && Shown(t, left, right, cut, e + 1)
    requires cut[e] == CLEAR
    ensures Shown(t, left, right, cut, e)
  {
    hide ShownAt;
  }

  /** gca2: pushes the marks of both sides down until a delta has both. */
  method Gca2(t: Table, left: nat, right: nat) returns (d: nat)
    requires WellFormed(t) && DeltaOrNone(t, left) && DeltaOrNone(t, right)
    ensures NewestCommon(t, left, right, d)
  {
    hide Shown;
    if left == 0 || right == 0 { return 0; }
    var slist := StartMarks(t, left, right);
    d := if left > right then left else right;
    ghost var cut := slist;
    StartShown(t, left, right, d + 1);
    Above(t, left, right, d);
    while d > 0
      invariant d < |t| == |slist| == |cut| && Shown(t, left, right, cut, d + 1)
      invariant forall x :: 0 <= x <= d ==> slist[x] == cut[x]
      invariant forall x :: x in Common(t, left, right) ==> 1 <= x <= d
    {
      ShownTop(t, left, right, cut, d);
      if t[d].tag {
        Tagged(t, left, right, cut, d);
        ShownSkip(t, left, right, cut, d);
        d := d - 1;
        continue;
      }
      var value := slist[d];
      if value == CLEAR {
        ShownSkip(t, left, right, cut, d);
        d := d - 1;
        continue;
      }
      if value.red && value.blue { return; }
      ShownStep(t, left, right, cut, d);
      assert EdgesOk(t, d);
      slist := PaintParents(t, slist, d, value);
      cut := PaintParents(t, cut[d := CLEAR], d, value);
      d := d - 1;
    }
  }

  lemma Tagged(t: Table, left: nat, right: nat, cut: seq<Colour>, e: nat)
    requires WellFormed(t) && left < |t| && right < |t| && 1 <= e < |t| && Shown(t, left, right, cut, e + 1)
    requires t[e].tag
    ensures cut[e] == CLEAR
  {
    hide ShownAt;
  }

  lemma Above(t: Table, left: nat, right: nat, d: nat)
    requires WellFormed(t) && left < |t| && right < |t| && (d == left || d == right)
    ensures forall x :: x in Common(t, left, right) ==> 1 <= x <= d
  {
    forall x | x in Common(t, left, right) ensures 1 <= x <= d {
      AncBelow(t, left, x);
      AncBelow(t, right, x);
    }
  }

  /** gca3: the list of the greatest common ancestors; its first is the answer. */
  method Gca3(t: Table, left: nat, right: nat) returns (d: nat, glist: seq<nat>)
    requires WellFormed(t) && DeltaOrNone(t, left) && DeltaOrNone(t, right)
    ensures Descending(glist) && forall x: nat :: x in glist <==> IsTip(t, Common(t, left, right), x)
    ensures NewestCommon(t, left, right, d)
    ensures forall x :: x in Common(t, left, right) ==> exists y :: y in glist && y < |t| && x in Anc(t, y)
  {
    if left == 0 || right == 0 { return 0, []; }
    var paint := new DeltaFlags(|t|);
    glist := Collect(t, paint, [left], [right], GCA);
    TipIs(t, left);
    TipIs(t, right);
    assert Answer(GCA, UpperBound(t, [right]), AncOf(t, [left])) == Common(t, left, right);
    hide IsTip, Common;
    FirstIsNewest(t, left, right, glist);
    // the source asserts that there is one
    d := if glist == [] then 0 else glist[0];
  }

  lemma TipIs(t: Table, d: nat)
    requires WellFormed(t) && IsDelta(t, d)
    ensures AncOf(t, [d]) == UpperBound(t, [d]) == Anc(t, d)
  {
    assert [d][0] == d;
  }

  lemma {:induction false} FirstIsNewest(t: Table, left: nat, right: nat, glist: seq<nat>)
    requires WellFormed(t) && left < |t| && right < |t| && Descending(glist)
    requires forall x: nat :: x in glist <==> IsTip(t, Common(t, left, right), x)
    ensures NewestCommon(t, left, right, if glist == [] then 0 else glist[0])
    ensures forall x :: x in Common(t, left, right) ==> exists y :: y in glist && y < |t| && x in Anc(t, y)
  {
    hide IsTip;
    var c := Common(t, left, right);
    forall x | x in c ensures exists y :: y in glist && y < |t| && x in Anc(t, y) && x <= glist[0] {
      AncBelow(t, left, x);
      var y := UnderTip(t, c, x);
      var i :| 0 <= i < |glist| && glist[i] == y;
      AncBelow(t, y, x);
    }
    if glist != [] {
      assert glist[0] in glist;
      TipIn(t, c, glist[0]);
      AncNoZero(t, left);
    }
  }

  lemma TipIn(t: Table, s: set<nat>, x: nat)
    requires WellFormed(t) && IsTip(t, s, x)
    ensures x in s
  {
  }

  /** Both ways give the same delta, and the order of the two does not matter. */
  lemma {:induction false} SameGca(t: Table, left: nat, right: nat, d: nat, e: nat)
    requires WellFormed(t) && left < |t| && right < |t|
    requires NewestCommon(t, left, right, d) && (NewestCommon(t, left, right, e) || NewestCommon(t, right, left, e))
    ensures d == e
  {
    assert Common(t, left, right) == Common(t, right, left);
  }
}
