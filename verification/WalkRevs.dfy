/** The graph walk of src/librange.c: colours go from each delta to its parents, and one
    downward pass enumerates the difference, the symmetric difference, the intersection or
    the union of two closures, or the tips of these. */
module WalkRevs {
  import opened DeltaGraph

  /** The D_RED, D_BLUE and D_GREEN bits of one delta. */
  datatype Colour = Colour(red: bool, blue: bool, green: bool := false) {
    predicate Has(h: Hue) {
      match h
      case Red => red
      case Blue => blue
      case Green => green
    }
  }

  datatype Hue = Red | Blue | Green

  const CLEAR := Colour(false, false)

  /** What a walk is for: WR_EITHER, WR_BOTH and WR_TIP. */
  datatype Mode = Mode(either: bool, both: bool, tip: bool) {
    /** The mask: a delta with all of these colours is of no interest. */
    function Full(): Colour {
      Colour(true, true, both)
    }
  }

  const DIFFERENCE := Mode(false, false, false)
  const EITHER := Mode(true, false, false)
  const GCA := Mode(false, true, true)

  /** Some colours, but not all. */
  predicate Partial(c: Colour, mode: Mode) {
    c != CLEAR && c != mode.Full()
  }

  function Bit(c: bool): nat {
    if c then 1 else 0
  }

  /** How many of the first n deltas carry some colours but not all. */
  function Partials(flags: seq<Colour>, mode: Mode, n: nat): nat
    requires n <= |flags|
  {
    if n == 0 then 0 else Partials(flags, mode, n - 1) + Bit(Partial(flags[n - 1], mode))
  }

  lemma {:induction false} PartialsUpdate(flags: seq<Colour>, mode: Mode, n: nat, x: nat, c: Colour)
    requires x < |flags| && n <= |flags|
    ensures Partials(flags[x := c], mode, n) == Partials(flags, mode, n) +
            if x < n then Bit(Partial(c, mode)) - Bit(Partial(flags[x], mode)) else 0
  {
    if n > 0 { PartialsUpdate(flags, mode, n - 1, x, c); }
  }

  lemma {:induction false} PartialsZero(flags: seq<Colour>, mode: Mode, n: nat)
    requires n <= |flags| && Partials(flags, mode, n) == 0
    ensures forall x :: 0 <= x < n ==> !Partial(flags[x], mode)
  {
    if n > 0 { PartialsZero(flags, mode, n - 1); }
  }

  lemma {:induction false} PartialsOfClear(flags: seq<Colour>, mode: Mode, n: nat)
    requires n <= |flags| && forall x :: 0 <= x < n ==> flags[x] == CLEAR
    ensures Partials(flags, mode, n) == 0
  {
    if n > 0 { PartialsOfClear(flags, mode, n - 1); }
  }

  function Join(a: Colour, b: Colour): Colour {
    Colour(a.red || b.red, a.blue || b.blue, a.green || b.green)
  }

  /** x is an ancestor of some delta that carries the colour. */
  ghost predicate Reached(t: Table, flags: seq<Colour>, h: Hue, x: nat)
    requires WellFormed(t) && |flags| == |t|
  {
    exists j :: 0 <= j < |t| && flags[j].Has(h) && x in Anc(t, j)
  }

  /** Every coloured delta is a real delta in [lo, hi). */
  ghost predicate Within(t: Table, flags: seq<Colour>, lo: nat, hi: nat)
    requires |flags| == |t|
  {
    forall x :: 0 <= x < |t| && flags[x] != CLEAR ==> lo <= x < hi && IsDelta(t, x)
  }

  ghost predicate AllDeltas(t: Table, tips: seq<nat>) {
    forall i :: 0 <= i < |tips| ==> IsDelta(t, tips[i])
  }

  /** The closure of a list of deltas. */
  ghost function AncOf(t: Table, tips: seq<nat>): set<nat>
    requires WellFormed(t) && AllDeltas(t, tips)
  {
    set i, x | 0 <= i < |tips| && x in Anc(t, tips[i]) :: x
  }

  /** The upper bound of a walk: a list of tips, or without one every delta. */
  ghost function UpperBound(t: Table, tips: seq<nat>): set<nat>
    requires WellFormed(t) && AllDeltas(t, tips)
  {
    if tips == [] then set x: nat | x < |t| && IsDelta(t, x) else AncOf(t, tips)
  }

  function Paint(flags: seq<Colour>, x: nat, c: Colour): seq<Colour>
    requires x < |flags|
  {
    if x == 0 then flags else flags[x := Join(flags[x], c)]
  }

  /** The flags after delta e has handed colour c to its parents. */
  function PaintParents(t: Table, flags: seq<Colour>, e: nat, c: Colour): (f: seq<Colour>)
    requires WellFormed(t) && 1 <= e < |t| && |flags| == |t|
    ensures |f| == |flags|
  {
    assert EdgesOk(t, e);
    Paint(Paint(flags, t[e].parent, c), t[e].merge, c)
  }

  /** x lies in the closure of a parent of e. */
  ghost predicate BelowParents(t: Table, e: nat, x: nat)
    requires WellFormed(t) && 1 <= e < |t|
  {
    assert EdgesOk(t, e);
    x in Anc(t, t[e].parent) || x in Anc(t, t[e].merge)
  }

  /** Colouring e colours its closure. */
  lemma {:induction false} PaintReach(t: Table, flags: seq<Colour>, e: nat, c: Colour, h: Hue, x: nat)
    requires WellFormed(t) && e < |t| && |flags| == |t|
    ensures Reached(t, Paint(flags, e, c), h, x) <==> Reached(t, flags, h, x) || (c.Has(h) && x in Anc(t, e))
  {
    var f := Paint(flags, e, c);
    if Reached(t, flags, h, x) {
      var j :| 0 <= j < |t| && flags[j].Has(h) && x in Anc(t, j);
      assert f[j].Has(h);
    }
    if Reached(t, f, h, x) {
      var j :| 0 <= j < |t| && f[j].Has(h) && x in Anc(t, j);
      assert j != e ==> flags[j].Has(h);
    }
    if c.Has(h) && x in Anc(t, e) { assert f[e].Has(h); }
  }

  /** Handing a colour to the parents of e colours exactly the closure of those parents. */
  lemma {:induction false} ParentsReach(t: Table, flags: seq<Colour>, e: nat, c: Colour, h: Hue, x: nat)
    requires WellFormed(t) && 1 <= e < |t| && |flags| == |t|
    ensures Reached(t, PaintParents(t, flags, e, c), h, x) <==>
            Reached(t, flags, h, x) || (c.Has(h) && BelowParents(t, e, x))
  {
    hide Reached, Paint;
    assert EdgesOk(t, e);
    PaintReach(t, flags, t[e].parent, c, h, x);
    PaintSize(flags, t[e].parent, c);
    PaintReach(t, Paint(flags, t[e].parent, c), t[e].merge, c, h, x);
  }

  lemma PaintSize(flags: seq<Colour>, x: nat, c: Colour)
    requires x < |flags|
    ensures |Paint(flags, x, c)| == |flags|
  {
  }

  /** Dropping the colour of e only loses what e reaches. */
  lemma {:induction false} ClearReach(t: Table, flags: seq<Colour>, e: nat, h: Hue, x: nat)
    requires WellFormed(t) && 1 <= e < |t| && |flags| == |t|
    ensures Reached(t, flags, h, x) <==> Reached(t, flags[e := CLEAR], h, x) || (flags[e].Has(h) && x in Anc(t, e))
  {
    var f := flags[e := CLEAR];
    if Reached(t, flags, h, x) {
      var j :| 0 <= j < |t| && flags[j].Has(h) && x in Anc(t, j);
      assert j != e ==> f[j].Has(h);
    }
    if Reached(t, f, h, x) {
      var j :| 0 <= j < |t| && f[j].Has(h) && x in Anc(t, j);
      assert flags[j].Has(h);
    }
  }

  /** One step of the walk keeps what every smaller delta is reached by. */
  lemma {:induction false} StepReach(t: Table, flags: seq<Colour>, e: nat, h: Hue, x: nat)
    requires WellFormed(t) && 1 <= e < |t| && |flags| == |t| && x != e
    ensures Reached(t, PaintParents(t, flags[e := CLEAR], e, flags[e]), h, x) <==> Reached(t, flags, h, x)
  {
    ClearReach(t, flags, e, h, x);
    ParentsReach(t, flags[e := CLEAR], e, flags[e], h, x);
    assert EdgesOk(t, e);
    assert x in Anc(t, e) <==> BelowParents(t, e, x);
  }

  /** The topmost coloured delta is reached only by its own colour. */
  lemma {:induction false} TopReach(t: Table, flags: seq<Colour>, e: nat, lo: nat, h: Hue)
    requires WellFormed(t) && 1 <= e < |t| && |flags| == |t| && Within(t, flags, lo, e + 1)
    ensures Reached(t, flags, h, e) <==> flags[e].Has(h)
  {
    assert EdgesOk(t, e);
    assert e in Anc(t, e);
    if Reached(t, flags, h, e) {
      var j :| 0 <= j < |t| && flags[j].Has(h) && e in Anc(t, j);
      AncBelow(t, j, e);
    }
  }

  /** Where no delta carries just some colours, the colours reach the same deltas. */
  lemma {:induction false} EvenReach(t: Table, flags: seq<Colour>, mode: Mode, h: Hue, h': Hue, x: nat)
    requires WellFormed(t) && |flags| == |t| && Partials(flags, mode, |t|) == 0 && mode.Full().Has(h')
    ensures Reached(t, flags, h, x) ==> Reached(t, flags, h', x)
  {
    PartialsZero(flags, mode, |t|);
    if Reached(t, flags, h, x) {
      var j :| 0 <= j < |t| && flags[j].Has(h) && x in Anc(t, j);
      assert flags[j].Has(h');
    }
  }

  /** Flags set on just the tips stand for the closures of the tips. */
  lemma {:induction false} TipsReach(t: Table, flags: seq<Colour>, h: Hue, tips: seq<nat>, x: nat)
    requires WellFormed(t) && |flags| == |t| && AllDeltas(t, tips)
    requires forall j :: 0 <= j < |t| ==> (flags[j].Has(h) <==> j in tips)
    ensures x in AncOf(t, tips) <==> Reached(t, flags, h, x)
  {
    if x in AncOf(t, tips) {
      var i :| 0 <= i < |tips| && x in Anc(t, tips[i]);
      assert flags[tips[i]].Has(h);
    }
  }

  lemma ReachedBelow(t: Table, flags: seq<Colour>, lo: nat, hi: nat, h: Hue, x: nat)
    requires WellFormed(t) && |flags| == |t| && Within(t, flags, lo, hi) && Reached(t, flags, h, x)
    ensures 1 <= x < hi
  {
    var j :| 0 <= j < |t| && flags[j].Has(h) && x in Anc(t, j);
    AncBelow(t, j, x);
  }

  /** What a walk of difference or symmetric difference reports, where red stands for R and
      blue for B. */
  ghost predicate Wants(either: bool, R: set<nat>, B: set<nat>, x: nat) {
    if either then (x in R) != (x in B) else x in R && x !in B
  }

  /** No serial strictly between lo and hi is wanted. */
  ghost predicate NoneBetween(either: bool, R: set<nat>, B: set<nat>, lo: nat, hi: nat) {
    forall x :: lo < x < hi ==> !Wants(either, R, B, x)
  }

  /** What the colours stand for. */
  datatype Sets = Sets(red: set<nat>, blue: set<nat>, green: set<nat>) {
    ghost function Of(h: Hue): set<nat> {
      match h
      case Red => red
      case Blue => blue
      case Green => green
    }

    ghost function At(x: nat): Colour {
      Colour(x in red, x in blue, x in green)
    }

    /** Whether a walk reports x: by some colour, not by all, and by those it is for. */
    ghost predicate Wanted(mode: Mode, x: nat) {
      Partial(At(x), mode) && (mode.either || (x in red && (mode.both ==> x in blue)))
    }

    ghost predicate NoneWanted(mode: Mode, lo: nat, hi: nat) {
      forall x :: lo < x < hi ==> !Wanted(mode, x)
    }

    /** After everything in s was given all colours. */
    ghost function Pruned(mode: Mode, s: set<nat>): Sets {
      Sets(red + s, blue + s, if mode.both then green + s else green)
    }
  }

  ghost function Below(t: Table, r: nat): set<nat>
    requires WellFormed(t) && 1 <= r < |t|
  {
    assert EdgesOk(t, r);
    Anc(t, t[r].parent) + Anc(t, t[r].merge)
  }

  /** The colour bits of the deltas, by serial, which all walks over a table use. */
  class DeltaFlags {
    var bits: seq<Colour>

    ghost predicate Clear(n: nat)
      reads this
    {
      |bits| == n && forall x :: 0 <= x < n ==> bits[x] == CLEAR
    }

    constructor (n: nat)
      ensures Clear(n)
    {
      bits := seq(n, _ => CLEAR);
    }
  }

  /** The cursor of a walk (the source's wrdata), which keeps
      colour bits on the deltas it has yet to visit. */
  class Walker {
    const t: Table
    const mode: Mode
    const all: bool          // no upper bound: every delta counts as a tip
    const paint: DeltaFlags
    var marked: int          // how many deltas carry some colours but not all
    var d: nat               // the last serial returned
    var last: nat            // the smallest serial ever coloured
    var color: Colour        // colours of the last serial returned
    ghost var sets: Sets     // what the colours stand for

    ghost predicate Counted()
      reads paint`bits, this`marked
    {
      && WellFormed(t) && |paint.bits| == |t| && marked == Partials(paint.bits, mode, |t|) + Bit(all)
      && forall x :: 0 <= x < |t| && paint.bits[x].green ==> mode.both
    }

    /** Below position e the colours stand for the sets. */
    ghost predicate Stands(e: nat)
      reads paint`bits, this`marked, this`last, this`sets
    {
      && Counted()
      && Within(t, paint.bits, last, e)
      && (!mode.both ==> sets.green == {})
      && forall x: nat, h: Hue :: 1 <= x < e ==> StandsAt(x, h)
    }

    ghost predicate StandsAt(x: nat, h: Hue)
      requires WellFormed(t) && |paint.bits| == |t|
      reads paint`bits, this`sets
    {
      x in sets.Of(h) <==> (all && h == Red && IsDelta(t, x)) || Reached(t, paint.bits, h, x)
    }

    ghost predicate Valid()
      reads this, paint
    {
      d <= |t| && Stands(d)
    }

    /** Every colour bit still set lies where Done will look for it. */
    ghost predicate Bounded()
      reads this, paint
    {
      d <= |t| == |paint.bits| && Within(t, paint.bits, last, d)
    }

    /** An empty list of red tips means all tips. */
    constructor (t: Table, paint: DeltaFlags, blueTips: seq<nat>, redTips: seq<nat>, mode: Mode)
      requires WellFormed(t) && AllDeltas(t, redTips) && AllDeltas(t, blueTips) && paint.Clear(|t|)
      modifies paint
      ensures Valid() && this.t == t && this.paint == paint && this.mode == mode
      ensures sets == Sets(UpperBound(t, redTips), AncOf(t, blueTips), {})
      ensures forall x :: x in sets.red || x in sets.blue ==> 1 <= x < d
    {
      this.t, this.paint, this.mode, all := t, paint, mode, redTips == [];
      color := CLEAR;
      marked, d, last := Bit(redTips == []), if redTips == [] then |t| - 1 else 0, |t| - 1;
      new;
      PartialsOfClear(paint.bits, mode, |t|);
      MarkTips(redTips, Colour(true, false));
      MarkTips(blueTips, Colour(false, true));
      d := d + 1;
      sets := Sets(UpperBound(t, redTips), AncOf(t, blueTips), {});
      forall x: nat, h: Hue ensures StandsAt(x, h) {
        TipsReach(t, paint.bits, h, match h case Red => redTips case Blue => blueTips case Green => [], x);
      }
      forall x | x in sets.red || x in sets.blue ensures 1 <= x < d {
        if !(all && IsDelta(t, x)) {
          var h := if x in sets.red then Red else Blue;
          assert StandsAt(x, h);
          ReachedBelow(t, paint.bits, last, d, h, x);
        }
      }
    }

    /** Colours every delta of a list and raises d to the largest of them. */
    method MarkTips(tips: seq<nat>, change: Colour)
      requires Counted() && d < |t| && Within(t, paint.bits, last, d + 1)
      requires AllDeltas(t, tips) && !change.green
      modifies paint`bits, this`marked, this`last, this`d
      ensures Counted() && old(d) <= d < |t| && Within(t, paint.bits, last, d + 1)
      ensures forall x :: 0 <= x < |t| ==>
        paint.bits[x] == if x in tips then Join(old(paint.bits)[x], change) else old(paint.bits)[x]
    {
      for i := 0 to |tips|
        invariant Counted() && old(d) <= d < |t| && Within(t, paint.bits, last, d + 1)
        invariant forall x :: 0 <= x < |t| ==>
          paint.bits[x] == if x in tips[..i] then Join(old(paint.bits)[x], change) else old(paint.bits)[x]
      {
        if d < tips[i] { d := tips[i]; }
        MarkDelta(tips[i], change);
        assert tips[..i + 1] == tips[..i] + [tips[i]];
      }
      assert tips[..|tips|] == tips;
    }

    /** Adds colours to x, keeping the count. */
    method MarkDelta(x: nat, change: Colour)
      requires Counted() && IsDelta(t, x) && (change.green ==> mode.both)
      requires paint.bits[x] != CLEAR ==> last <= x
      modifies paint`bits, this`marked, this`last
      ensures Counted()
      ensures paint.bits == old(paint.bits)[x := Join(old(paint.bits)[x], change)]
      ensures last == (if change != CLEAR && x < old(last) then x else old(last))
    {
      var before := paint.bits[x];
      var after := Join(before, change);
      if after != before {
        if x < last { last := x; }
        paint.bits := paint.bits[x := after];
        if before != CLEAR { marked := marked - 1; }
        if after != mode.Full() { marked := marked + 1; }
        PartialsUpdate(old(paint.bits), mode, |t|, x, after);
      }
    }

    /** Hands a colour to the parents of e. */
    method MarkParents(e: nat, c: Colour)
      requires Counted() && IsDelta(t, e) && Within(t, paint.bits, last, e) && (c.green ==> mode.both)
      modifies paint`bits, this`marked, this`last
      ensures Counted() && Within(t, paint.bits, last, e)
      ensures paint.bits == PaintParents(t, old(paint.bits), e, c)
    {
      assert EdgesOk(t, e);
      if t[e].parent != 0 {
        MarkDelta(t[e].parent, c);
        if t[e].merge != 0 { MarkDelta(t[e].merge, c); }
      }
    }

    /** Takes the colour off the topmost coloured delta and hands it to the parents. */
    method Visit(e: nat)
      requires Stands(e + 1) && IsDelta(t, e) && paint.bits[e] != CLEAR
      modifies paint`bits, this`marked, this`last, this`color
      ensures Stands(e) && color == old(paint.bits[e])
    {
      ghost var before := paint.bits;
      PartialsUpdate(paint.bits, mode, |t|, e, CLEAR);
      color := paint.bits[e];
      paint.bits := paint.bits[e := CLEAR];
      if color != mode.Full() { marked := marked - 1; }
      MarkParents(e, color);
      forall x: nat, h: Hue | 1 <= x < e ensures StandsAt(x, h) {
        assert old(StandsAt(x, h));
        StepReach(t, before, e, h, x);
      }
    }

    /** Without an upper bound, colours e red. */
    method MarkIfAll(e: nat)
      requires Stands(e + 1) && IsDelta(t, e)
      modifies paint`bits, this`marked, this`last
      ensures Stands(e + 1) && (all ==> paint.bits[e].red)
    {
      if all {
        ghost var before := paint.bits;
        MarkDelta(e, Colour(true, false));
        assert paint.bits == Paint(before, e, Colour(true, false));
        forall x: nat, h: Hue | 1 <= x < e + 1 ensures StandsAt(x, h) {
          assert old(StandsAt(x, h));
          PaintReach(t, before, e, Colour(true, false), h, x);
          if x in Anc(t, e) { AncIsDelta(t, e, x); }
        }
      }
    }

    /** The colours of the topmost delta are what it is in. */
    lemma AtTop(e: nat)
      requires Stands(e + 1) && 1 <= e < |t| && (all && IsDelta(t, e) ==> paint.bits[e].red)
      ensures paint.bits[e] == sets.At(e)
    {
      hide Reached;
      forall h: Hue ensures paint.bits[e].Has(h) <==> e in sets.Of(h) {
        TopReach(t, paint.bits, e, last, h);
        assert StandsAt(e, h);
        if all && h == Red && !IsDelta(t, e) { assert paint.bits[e] == CLEAR; }
      }
      assert paint.bits[e].Has(Red) <==> e in sets.Of(Red);
      assert paint.bits[e].Has(Blue) <==> e in sets.Of(Blue);
      assert paint.bits[e].Has(Green) <==> e in sets.Of(Green);
    }

    /** With nothing marked, nothing is left. */
    lemma Exhausted(e: nat)
      requires Stands(e + 1) && marked <= 0 && e < |t|
      ensures forall x: nat :: 1 <= x <= e ==> !sets.Wanted(mode, x)
    {
      hide Reached;
      forall x: nat | 1 <= x <= e ensures !sets.Wanted(mode, x) {
        forall h: Hue, h': Hue | x in sets.Of(h) && mode.Full().Has(h') ensures x in sets.Of(h') {
          assert StandsAt(x, h) && StandsAt(x, h');
          EvenReach(t, paint.bits, mode, h, h', x);
        }
        assert x in sets.Of(Red) <==> x in sets.Of(Blue);
        assert x in sets.Of(Green) ==> x in sets.Of(Red);
        assert mode.both && x in sets.Of(Red) ==> x in sets.Of(Green);
      }
    }

    /** Returns the next wanted serial, or 0 when there is none left. A walk for tips prunes
        at what it returns. */
    method Next() returns (r: nat)
      requires Valid()
      modifies paint`bits, this`marked, this`last, this`d, this`color, this`sets
      ensures old(sets).NoneWanted(mode, r, old(d))
      ensures r == 0 ==> d == old(d)
      ensures Bounded()
      ensures r != 0 ==> Valid() && d == r && 1 <= r < old(d) && IsDelta(t, r) && old(sets).Wanted(mode, r)
      ensures r != 0 ==> color == old(sets).At(r)
      ensures sets == if r != 0 && mode.tip then old(sets).Pruned(mode, Below(t, r)) else old(sets)
      ensures !mode.both ==> NoneBetween(mode.either, old(sets).red, old(sets).blue, r, old(d))
      ensures !mode.both && r != 0 ==> Wants(mode.either, old(sets).red, old(sets).blue, r)
      ensures !mode.both && r != 0 ==> color == Colour(r in old(sets).red, r in old(sets).blue)
    {
      hide Reached, Partials, Within;
      ghost var s0 := sets;
      var e: int := d - 1;
      while e >= 1 && marked > 0
        invariant 0 <= e + 1 <= d == old(d) && Stands(e + 1) && sets == old(sets)
        invariant forall x: nat :: e < x < d ==> !sets.Wanted(mode, x)
        decreases e
      {
        if t[e].tag {
          AtTag(e);
          e := e - 1;
          continue;
        }
        MarkIfAll(e);
        AtTop(e);
        var c := paint.bits[e];
        if c == CLEAR {
          SkipClear(e);
          e := e - 1;
          continue;
        }
        Visit(e);
        if c != mode.Full() && ((c.red && (mode.both ==> c.blue)) || mode.either) {
          d := e;
          PlainWalk(mode, s0, e, old(d));
          WithinBounds();
          if mode.tip { Prune(e); }
          return e;
        }
        e := e - 1;
      }
      if e >= 1 { Exhausted(e); }
      StandsWithin(e + 1);
      PlainWalk(mode, s0, 0, d);
      return 0;
    }

    /** Without WR_BOTH the walk is about two colours. */
    static lemma PlainWalk(mode: Mode, s: Sets, r: nat, hi: nat)
      requires s.NoneWanted(mode, r, hi) && (!mode.both ==> s.green == {})
      ensures !mode.both ==> NoneBetween(mode.either, s.red, s.blue, r, hi)
      ensures !mode.both && s.Wanted(mode, r) ==> Wants(mode.either, s.red, s.blue, r)
    {
      forall x: nat | !mode.both && Wants(mode.either, s.red, s.blue, x) ensures s.Wanted(mode, x) { }
    }

    lemma WithinBounds()
      requires Valid()
      ensures Bounded()
    {
    }

    lemma StandsWithin(e: nat)
      requires Stands(e) && e <= d <= |t|
      ensures Bounded()
    {
    }

    lemma SkipClear(e: nat)
      requires Stands(e + 1) && e < |t| && paint.bits[e] == CLEAR
      ensures Stands(e)
    {
    }

    /** A tag below the cursor is never coloured and never reached. */
    lemma AtTag(e: nat)
      requires Stands(e + 1) && 1 <= e < |t| && t[e].tag
      ensures Stands(e) && !sets.Wanted(mode, e)
    {
      assert paint.bits[e] == CLEAR;
      AtTop(e);
    }

    /** Called right after r was returned: its ancestors leave the walk. */
    method Prune(r: nat)
      requires Valid() && r == d && IsDelta(t, r)
      modifies paint`bits, this`marked, this`last, this`sets
      ensures Valid() && Bounded() && sets == old(sets).Pruned(mode, Below(t, r))
    {
      ghost var before := paint.bits;
      MarkParents(r, mode.Full());
      assert EdgesOk(t, r);
      sets := sets.Pruned(mode, Below(t, r));
      forall x: nat, h: Hue | 1 <= x < d ensures StandsAt(x, h) {
        assert old(StandsAt(x, h));
        ParentsReach(t, before, r, mode.Full(), h, x);
      }
    }

    /** Clears every colour the walk left behind. */
    method Done()
      requires Bounded()
      modifies paint`bits
      ensures paint.Clear(|t|)
    {
      var e: int := d - 1;
      while e >= 1 && e >= last
        invariant |paint.bits| == |t| && -1 <= e < |t|
        invariant forall x :: 0 <= x < |t| && paint.bits[x] != CLEAR ==> 1 <= x <= e && last <= x
      {
        paint.bits := paint.bits[e := CLEAR];
        e := e - 1;
      }
    }
  }

  ghost predicate Descending(list: seq<nat>) {
    forall i, j :: 0 <= i < j < |list| ==> list[i] > list[j]
  }

  /** What the flags of a walk ask for. */
  ghost function Answer(mode: Mode, R: set<nat>, B: set<nat>): set<nat> {
    if mode.both then (if mode.either then R + B else R * B)
    else if mode.either then (R - B) + (B - R)
    else R - B
  }

  /** x is in s and under no other member of s. */
  ghost predicate IsTip(t: Table, s: set<nat>, x: nat)
    requires WellFormed(t)
  {
    x in s && forall y: nat :: y in s && y < |t| && y != x ==> x !in Anc(t, y)
  }

  /** Every member is a tip or under one. */
  lemma {:induction false} UnderTip(t: Table, s: set<nat>, x: nat) returns (y: nat)
    requires WellFormed(t) && x in s && 1 <= x < |t|
    ensures IsTip(t, s, y) && y < |t| && x in Anc(t, y)
    decreases |t| - x
  {
    if IsTip(t, s, x) {
      y := x;
    } else {
      var z: nat :| z in s && z < |t| && z != x && x in Anc(t, z);
      AncBelow(t, z, x);
      y := UnderTip(t, s, z);
      AncTransitive(t, y, z, x);
    }
  }

  /** The sets after pruning at everything in the list. */
  ghost predicate PrunedAt(t: Table, mode: Mode, s0: Sets, list: seq<nat>, s: Sets)
    requires WellFormed(t) && AllDeltas(t, list)
  {
    forall x: nat :: s.At(x) == if UnderAny(t, list, x) then Join(s0.At(x), mode.Full()) else s0.At(x)
  }

  /** x is a proper ancestor of something in the list. */
  ghost predicate UnderAny(t: Table, list: seq<nat>, x: nat)
    requires WellFormed(t) && AllDeltas(t, list)
  {
    exists i :: 0 <= i < |list| && x in Below(t, list[i])
  }

  lemma {:induction false} UnderMore(t: Table, list: seq<nat>, r: nat, x: nat)
    requires WellFormed(t) && AllDeltas(t, list) && IsDelta(t, r)
    ensures UnderAny(t, list + [r], x) <==> UnderAny(t, list, x) || x in Below(t, r)
  {
    hide Below;
    var more := list + [r];
    if UnderAny(t, list, x) {
      var i :| 0 <= i < |list| && x in Below(t, list[i]);
      assert more[i] == list[i];
    }
    if x in Below(t, r) { assert more[|list|] == r; }
    if UnderAny(t, more, x) {
      var i :| 0 <= i < |more| && x in Below(t, more[i]);
      if i < |list| { assert more[i] == list[i]; }
    }
  }

  lemma {:induction false} PrunedMore(t: Table, mode: Mode, s0: Sets, list: seq<nat>, s: Sets, r: nat)
    requires WellFormed(t) && AllDeltas(t, list) && IsDelta(t, r) && PrunedAt(t, mode, s0, list, s)
    requires !mode.both ==> s0.green == {}
    ensures PrunedAt(t, mode, s0, list + [r], s.Pruned(mode, Below(t, r)))
  {
    hide Below, UnderAny;
    var s' := s.Pruned(mode, Below(t, r));
    forall x: nat
      ensures s'.At(x) == if UnderAny(t, list + [r], x) then Join(s0.At(x), mode.Full()) else s0.At(x)
    {
      UnderMore(t, list, r, x);
      assert s.At(x) == if UnderAny(t, list, x) then Join(s0.At(x), mode.Full()) else s0.At(x);
    }
  }

  /** Pruning takes from what is wanted exactly what lies under the list. */
  lemma PrunedWants(t: Table, mode: Mode, s0: Sets, list: seq<nat>, s: Sets, x: nat)
    requires WellFormed(t) && AllDeltas(t, list) && PrunedAt(t, mode, s0, list, s) && s0.green == {}
    ensures s.Wanted(mode, x) <==> s0.Wanted(mode, x) && !UnderAny(t, list, x)
  {
    hide UnderAny;
    assert s.At(x) == if UnderAny(t, list, x) then Join(s0.At(x), mode.Full()) else s0.At(x);
    assert x in s.red <==> s.At(x).red;
    assert x in s.blue <==> s.At(x).blue;
  }

  lemma AnswerMeans(mode: Mode, R: set<nat>, B: set<nat>, x: nat)
    ensures x in Answer(mode, R, B) <==> Sets(R, B, {}).Wanted(mode, x)
  {
  }

  lemma BelowIs(t: Table, y: nat, x: nat)
    requires WellFormed(t) && 1 <= y < |t|
    ensures x in Below(t, y) <==> x in Anc(t, y) && x != y
  {
    assert EdgesOk(t, y);
    if x in Anc(t, t[y].parent) { AncBelow(t, t[y].parent, x); }
    if x in Anc(t, t[y].merge) { AncBelow(t, t[y].merge, x); }
  }

  /** A list of what is wanted and under nothing in the list is the list of tips. */
  lemma {:induction false} ListIsTips(t: Table, s: set<nat>, list: seq<nat>, x: nat)
    requires WellFormed(t) && AllDeltas(t, list) && (forall y: nat :: y in s ==> 1 <= y < |t|)
    requires forall y: nat :: y in list <==> y in s && !UnderAny(t, list, y)
    ensures x in list <==> IsTip(t, s, x)
  {
    hide Below;
    if IsTip(t, s, x) && UnderAny(t, list, x) {
      var i :| 0 <= i < |list| && x in Below(t, list[i]);
      assert list[i] in list;
      BelowIs(t, list[i], x);
    }
    if x in list {
      forall y: nat | y in s && y < |t| && y != x ensures x !in Anc(t, y) {
        if x in Anc(t, y) { UnderList(t, s, list, x, y); }
      }
    }
  }

  lemma {:induction false} UnderList(t: Table, s: set<nat>, list: seq<nat>, x: nat, y: nat)
    requires WellFormed(t) && AllDeltas(t, list) && 1 <= y < |t| && y != x && x in Anc(t, y) && y in s
    requires forall z: nat :: z in list <==> z in s && !UnderAny(t, list, z)
    ensures UnderAny(t, list, x)
  {
    hide Below;
    BelowIs(t, y, x);
    if y in list {
      var i :| 0 <= i < |list| && list[i] == y;
    } else {
      var i :| 0 <= i < |list| && y in Below(t, list[i]);
      assert IsDelta(t, list[i]);
      BelowIs(t, list[i], y);
      BelowIs(t, list[i], x);
      AncTransitive(t, list[i], y, x);
      AncBelow(t, y, x);
      AncBelow(t, list[i], y);
    }
  }

  /** The list has what is wanted down to lo, without what lies under it in a walk for tips. */
  ghost predicate ReportedTo(t: Table, mode: Mode, s0: Sets, list: seq<nat>, lo: nat)
    requires WellFormed(t) && AllDeltas(t, list)
  {
    forall x: nat :: x in list <==> x >= lo && s0.Wanted(mode, x) && (mode.tip ==> !UnderAny(t, list, x))
  }

  /** What the sets are after reporting the list. */
  ghost predicate Remaining(t: Table, mode: Mode, s0: Sets, list: seq<nat>, s: Sets)
    requires WellFormed(t) && AllDeltas(t, list)
  {
    if mode.tip then PrunedAt(t, mode, s0, list, s) else s == s0
  }

  lemma StartReport(t: Table, mode: Mode, s0: Sets, lo: nat)
    requires WellFormed(t) && s0.green == {} && forall x :: x in s0.red || x in s0.blue ==> x < lo
    ensures ReportedTo(t, mode, s0, [], lo) && Remaining(t, mode, s0, [], s0)
  {
  }

  lemma StillWanted(t: Table, mode: Mode, s0: Sets, list: seq<nat>, s: Sets, x: nat)
    requires WellFormed(t) && AllDeltas(t, list) && Remaining(t, mode, s0, list, s) && s0.green == {}
    ensures s.Wanted(mode, x) <==> s0.Wanted(mode, x) && (mode.tip ==> !UnderAny(t, list, x))
  {
    if mode.tip { PrunedWants(t, mode, s0, list, s, x); }
  }

  lemma {:induction false} ReportNext(t: Table, mode: Mode, s0: Sets, s: Sets, list: seq<nat>, lo: nat, r: nat)
    requires WellFormed(t) && AllDeltas(t, list) && s0.green == {}
    requires ReportedTo(t, mode, s0, list, lo) && Remaining(t, mode, s0, list, s)
    requires s.NoneWanted(mode, r, lo) && r < lo && s.Wanted(mode, r) && IsDelta(t, r)
    ensures ReportedTo(t, mode, s0, list + [r], r)
    ensures Remaining(t, mode, s0, list + [r], if mode.tip then s.Pruned(mode, Below(t, r)) else s)
  {
    hide UnderAny, Remaining, PrunedAt, s.Wanted, Below;
    forall x: nat
      ensures x in list + [r] <==> x >= r && s0.Wanted(mode, x) && (mode.tip ==> !UnderAny(t, list + [r], x))
    {
      StillWanted(t, mode, s0, list, s, x);
      UnderMore(t, list, r, x);
      BelowIs(t, r, x);
      if x in Anc(t, r) { AncBelow(t, r, x); }
    }
    LeftNext(t, mode, s0, s, list, r);
  }

  lemma LeftNext(t: Table, mode: Mode, s0: Sets, s: Sets, list: seq<nat>, r: nat)
    requires WellFormed(t) && AllDeltas(t, list) && s0.green == {} && Remaining(t, mode, s0, list, s) && IsDelta(t, r)
    ensures Remaining(t, mode, s0, list + [r], if mode.tip then s.Pruned(mode, Below(t, r)) else s)
  {
    hide PrunedAt, Below;
    if mode.tip { PrunedMore(t, mode, s0, list, s, r); }
  }

  lemma {:induction false} ReportEnd(t: Table, mode: Mode, s0: Sets, s: Sets, list: seq<nat>, lo: nat, x: nat)
    requires WellFormed(t) && AllDeltas(t, list) && s0.green == {}
    requires ReportedTo(t, mode, s0, list, lo) && Remaining(t, mode, s0, list, s)
    requires s.NoneWanted(mode, 0, lo) && 0 !in s0.red && 0 !in s0.blue
    ensures x in list <==> s0.Wanted(mode, x) && (mode.tip ==> !UnderAny(t, list, x))
  {
    hide UnderAny, Remaining;
    StillWanted(t, mode, s0, list, s, x);
  }

  /** walkrevs_collect: the answer, or its tips, newest first. */
  method Collect(t: Table, paint: DeltaFlags, blueTips: seq<nat>, redTips: seq<nat>, mode: Mode)
    returns (list: seq<nat>)
    requires WellFormed(t) && AllDeltas(t, redTips) && AllDeltas(t, blueTips) && paint.Clear(|t|)
    modifies paint
    ensures Descending(list) && paint.Clear(|t|)
    ensures var s := Answer(mode, UpperBound(t, redTips), AncOf(t, blueTips));
            forall x: nat :: x in list <==> if mode.tip then IsTip(t, s, x) else x in s
  {
    var w := new Walker(t, paint, blueTips, redTips, mode);
    hide w.Valid, w.Bounded, ReportedTo, Remaining, IsTip, UnderAny, Below, UpperBound, AncOf;
    ghost var s0 := w.sets;
    assert forall x: nat :: x in s0.red || x in s0.blue ==> 1 <= x < w.d;
    StartReport(t, mode, s0, w.d);
    list := [];
    ghost var lo;
    while true
      invariant w.Valid() && w.t == t && w.paint == paint && w.mode == mode && fresh(w) && AllDeltas(t, list)
      invariant Remaining(t, mode, s0, list, w.sets) && ReportedTo(t, mode, s0, list, w.d)
      invariant Descending(list) && forall i :: 0 <= i < |list| ==> list[i] >= w.d
      decreases w.d
    {
      ghost var s1 := w.sets;
      lo := w.d;
      var r := w.Next();
      if r == 0 { break; }
      ReportNext(t, mode, s0, s1, list, lo, r);
      list := list + [r];
    }
    w.Done();
    ListMeans(t, mode, s0, w.sets, list, lo);
  }

  lemma {:induction false} ListMeans(t: Table, mode: Mode, s0: Sets, s: Sets, list: seq<nat>, lo: nat)
    requires WellFormed(t) && AllDeltas(t, list) && s0.green == {}
    requires forall x: nat :: x in s0.red || x in s0.blue ==> 1 <= x < |t|
    requires ReportedTo(t, mode, s0, list, lo) && Remaining(t, mode, s0, list, s) && s.NoneWanted(mode, 0, lo)
    ensures var a := Answer(mode, s0.red, s0.blue);
            forall x: nat :: x in list <==> if mode.tip then IsTip(t, a, x) else x in a
  {
    hide UnderAny, ReportedTo, Remaining, s.NoneWanted, IsTip;
    var a := Answer(mode, s0.red, s0.blue);
    forall x: nat ensures x in list <==> x in a && (mode.tip ==> !UnderAny(t, list, x)) {
      ReportEnd(t, mode, s0, s, list, lo, x);
      AnswerMeans(mode, s0.red, s0.blue, x);
    }
    if mode.tip {
      forall x: nat ensures x in list <==> IsTip(t, a, x) { ListIsTips(t, a, list, x); }
    }
  }
}
