/** src/dataheap.c: rewriting the weave of a ChangeSet file when its heap is repacked.

    The deltakeys of the newest entry of each rootkey go to one array, the others to another,
    and the weave is built before the places of these arrays and of the rootkeys are known;
    its offsets are put right afterwards. */
module WeaveRepack {
  import opened Weave
  import opened Heap

  // ---------- the weave in the heap ----------

  /** An entry: where the rootkey is and where the deltakey is, or 0 for an end marker. */
  datatype Ref = Ref(rk: nat, dk: nat)

  /** The entries from an offset up to the terminating zero. */
  function Entries(h: Buffer, off: nat): seq<Ref>
    decreases |h| - off
  {
    if off + 8 <= |h| && Word(h, off) != 0
    then [Ref(Word(h, off), Word(h, off + 4))] + Entries(h, off + 8)
    else []
  }

  /** The entries without the end markers. */
  function Lines(es: seq<Ref>): (ls: seq<Ref>)
    ensures forall e :: e in ls <==> e in es && e.dk != 0
  {
    if es == [] then [] else
      var n := |es| - 1;
      assert es == es[..n] + [es[n]];
      if es[n].dk != 0 then Lines(es[..n]) + [es[n]] else Lines(es[..n])
  }

  /** The entries of delta d in the old heap. */
  function Block(was: Buffer, widx: seq<nat>, d: nat): seq<Ref>
    requires d < |widx|
  {
    if widx[d] == 0 then [] else Lines(Entries(was, widx[d]))
  }

  /** The entries of the deltas 1 to d, oldest first. */
  function Oldest(was: Buffer, widx: seq<nat>, d: nat): seq<Ref>
    requires d < |widx|
  {
    if d == 0 then [] else Oldest(was, widx, d - 1) + Block(was, widx, d)
  }

  ghost predicate HasRk(ls: seq<Ref>, rk: nat) {
    exists i :: 0 <= i < |ls| && ls[i].rk == rk
  }

  /** Entry i is the first of its rootkey. */
  ghost predicate IsFirst(ls: seq<Ref>, i: nat)
    requires i < |ls|
  {
    forall j :: 0 <= j < i ==> ls[j].rk != ls[i].rk
  }

  /** The old heap is one that the other operations leave: the keys are strings, a rootkey is
      in one place, and the entries of a rootkey have deltakeys of their own. */
  ghost predicate WeaveOk(was: Buffer, ls: seq<Ref>) {
    && (forall e :: e in ls ==> e.dk != 0 && e.rk != 0 && Ends(was, e.rk) && Ends(was, e.dk))
    && (forall e, f :: e in ls && f in ls && StrAt(was, e.rk) == StrAt(was, f.rk) ==> e.rk == f.rk)
    && (forall i, j :: 0 <= i < j < |ls| && ls[i].rk == ls[j].rk ==> ls[i].dk != ls[j].dk)
  }

  // ---------- the oldest entry of each rootkey ----------

  /** oldest has the deltakey of the first entry of every rootkey. */
  ghost predicate OldestOf(ls: seq<Ref>, oldest: map<nat, nat>) {
    && (forall rk :: rk in oldest <==> HasRk(ls, rk))
    && forall i: nat :: i < |ls| && IsFirst(ls, i) ==> ls[i].rk in oldest && oldest[ls[i].rk] == ls[i].dk
  }

  /** How the kind of a rootkey shows in its text; a component can look like a BAM file. */
  datatype Kinds = Kinds(isComp: Text -> bool, isBam: Text -> bool) {
    predicate Comp(s: Text) {
      isComp(s)
    }

    predicate Bam(s: Text) {
      isBam(s) && !isComp(s)
    }
  }

  /** The component rootkeys and the BAM rootkeys. */
  ghost predicate Sorted(was: Buffer, ls: seq<Ref>, kinds: Kinds, comprk: seq<nat>, bamrk: seq<nat>) {
    Kind(was, ls, s => kinds.Comp(s), comprk) && Kind(was, ls, s => kinds.Bam(s), bamrk)
  }

  /** The rootkeys of one kind. */
  ghost predicate Kind(was: Buffer, ls: seq<Ref>, kind: Text -> bool, rks: seq<nat>) {
    forall rk :: rk in rks <==> HasRk(ls, rk) && kind(StrAt(was, rk))
  }

  lemma HasMore(ls: seq<Ref>, e: Ref, rk: nat)
    ensures HasRk(ls + [e], rk) <==> HasRk(ls, rk) || e.rk == rk
  {
    if HasRk(ls, rk) {
      var i :| 0 <= i < |ls| && ls[i].rk == rk;
      assert (ls + [e])[i] == ls[i];
    }
    assert (ls + [e])[|ls|] == e;
  }

  lemma {:induction false} OldestMore(ls: seq<Ref>, e: Ref, oldest: map<nat, nat>)
    requires OldestOf(ls, oldest)
    ensures OldestOf(ls + [e], if e.rk in oldest then oldest else oldest[e.rk := e.dk])
  {
    hide HasRk;
    var all := ls + [e];
    forall rk ensures HasRk(all, rk) <==> HasRk(ls, rk) || e.rk == rk { HasMore(ls, e, rk); }
    forall i: nat | i < |all| && IsFirst(all, i)
      ensures var o := if e.rk in oldest then oldest else oldest[e.rk := e.dk];
              && all[i].rk in o
              && o[all[i].rk] == all[i].dk
    {
      if i < |ls| {
        assert forall j :: 0 <= j < i ==> all[j] == ls[j];
        assert IsFirst(ls, i);
        HasAt(ls, i);
      } else {
        NotFirst(ls, e);
      }
    }
  }

  lemma HasAt(ls: seq<Ref>, i: nat)
    requires i < |ls|
    ensures HasRk(ls, ls[i].rk)
  {
  }

  lemma NotFirst(ls: seq<Ref>, e: Ref)
    ensures IsFirst(ls + [e], |ls|) <==> !HasRk(ls, e.rk)
  {
    var all := ls + [e];
    assert forall j :: 0 <= j < |ls| ==> all[j] == ls[j];
  }

  /** Walks the weave from the oldest delta. */
  method OldestKeys(was: Buffer, widx: seq<nat>, kinds: Kinds)
    returns (oldest: map<nat, nat>, comprk: seq<nat>, bamrk: seq<nat>)
    requires |widx| >= 1
    ensures var ls := Oldest(was, widx, |widx| - 1); OldestOf(ls, oldest) && Sorted(was, ls, kinds, comprk, bamrk)
  {
    hide OldestOf, Kind, Lines, Entries;
    oldest, comprk, bamrk := map[], [], [];
    ghost var ls: seq<Ref> := [];
    NothingYet(was, kinds);
    for d := 1 to |widx|
      invariant ls == Oldest(was, widx, d - 1)
      invariant OldestOf(ls, oldest) && Sorted(was, ls, kinds, comprk, bamrk)
    {
      var block := Block(was, widx, d);
      ghost var before := ls;
      assert before + block[..0] == before;
      for k := 0 to |block|
        invariant ls == before + block[..k]
        invariant OldestOf(ls, oldest) && Sorted(was, ls, kinds, comprk, bamrk)
      {
        var e := block[k];
        assert before + block[..k + 1] == (before + block[..k]) + [e];
        OldestMore(ls, e, oldest);
        var rkey := StrAt(was, e.rk);
        KindMore(was, ls, e, oldest, s => kinds.Comp(s), comprk);
        KindMore(was, ls, e, oldest, s => kinds.Bam(s), bamrk);
        if e.rk !in oldest {
          oldest := oldest[e.rk := e.dk];
          if kinds.isComp(rkey) {
            comprk := comprk + [e.rk];
          } else if kinds.isBam(rkey) {
            bamrk := bamrk + [e.rk];
          }
        }
        ls := ls + [e];
      }
      assert block[..|block|] == block;
    }
  }

  lemma NothingYet(was: Buffer, kinds: Kinds)
    ensures OldestOf([], map[]) && Sorted(was, [], kinds, [], [])
  {
  }

  lemma {:induction false} KindMore(was: Buffer, ls: seq<Ref>, e: Ref, oldest: map<nat, nat>, kind: Text -> bool,
                                    rks: seq<nat>)
    requires Kind(was, ls, kind, rks) && OldestOf(ls, oldest)
    ensures Kind(was, ls + [e], kind, if e.rk !in oldest && kind(StrAt(was, e.rk)) then rks + [e.rk] else rks)
  {
    hide HasRk, StrAt;
    forall rk ensures HasRk(ls + [e], rk) <==> HasRk(ls, rk) || e.rk == rk { HasMore(ls, e, rk); }
  }

  // ---------- building the weave ----------

  /** What is put in the new weave: an entry, whose deltakey was placed at pos of the tip
      array or of the heap, an end marker, or the end of a delta. */
  datatype Tok = Entry(rk: nat, dk: nat, tip: bool, pos: nat) | Mark(rk: nat) | Stop

  function Strip(t: Tok): Tok {
    if t.Entry? then Entry(t.rk, t.dk, false, 0) else t
  }

  /** What is to be put for the entries of a delta. */
  function Shape(ls: seq<Ref>, oldest: map<nat, nat>): seq<Tok> {
    if ls == [] then [] else
      var n := |ls| - 1;
      Shape(ls[..n], oldest) + LineShape(ls[n], oldest)
  }

  function LineShape(e: Ref, oldest: map<nat, nat>): seq<Tok> {
    [Entry(e.rk, e.dk, false, 0)] + if e.rk in oldest && oldest[e.rk] == e.dk then [Mark(e.rk)] else []
  }

  /** What is to be put for the deltas from the newest down to d. */
  function Shapes(was: Buffer, widx: seq<nat>, oldest: map<nat, nat>, d: nat): seq<Tok>
    requires 1 <= d <= |widx|
    decreases |widx| - d
  {
    if d == |widx| then [] else
      Shapes(was, widx, oldest, d + 1) + if widx[d] == 0 then [] else Shape(Block(was, widx, d), oldest) + [Stop]
  }

  /** The tokens as laid out, before they are stripped. */
  ghost predicate Stripped(plan: seq<Tok>, shape: seq<Tok>) {
    |plan| == |shape| && forall i :: 0 <= i < |plan| ==> Strip(plan[i]) == shape[i]
  }

  /** The numbers of a token: rootkeys by their place in the list of rootkeys, counted from
      1, and places by one more than they are. */
  function Flat1(newrk: map<nat, nat>, t: Tok): seq<nat> {
    match t
    case Entry(rk, _, _, pos) => [if rk in newrk then newrk[rk] else 0, pos + 1]
    case Mark(rk) => [if rk in newrk then newrk[rk] else 0, 0]
    case Stop => [0]
  }

  function Flat(newrk: map<nat, nat>, plan: seq<Tok>): seq<nat> {
    if plan == [] then [] else Flat(newrk, plan[..|plan| - 1]) + Flat1(newrk, plan[|plan| - 1])
  }

  lemma FlatMore(newrk: map<nat, nat>, plan: seq<Tok>, t: Tok)
    ensures Flat(newrk, plan + [t]) == Flat(newrk, plan) + Flat1(newrk, t)
  {
    assert (plan + [t])[..|plan|] == plan;
  }

  /** The rootkeys so far, numbered in the order in which they came. */
  ghost predicate Numbered(newrk: map<nat, nat>, rkeys: seq<nat>) {
    && (forall rk :: rk in newrk ==> 1 <= newrk[rk] <= |rkeys| && rkeys[newrk[rk] - 1] == rk)
    && (forall i :: 0 <= i < |rkeys| ==> rkeys[i] in newrk && newrk[rkeys[i]] == i + 1)
  }

  ghost predicate Uses(plan: seq<Tok>, rk: nat) {
    exists i :: 0 <= i < |plan| && plan[i].Entry? && plan[i].rk == rk
  }

  /** An entry goes to the tip array exactly when it is the first, so the newest, of its rootkey. */
  ghost predicate TipsFirst(plan: seq<Tok>) {
    forall i :: 0 <= i < |plan| && plan[i].Entry? ==> (plan[i].tip <==> !Uses(plan[..i], plan[i].rk))
  }

  ghost predicate Known(newrk: map<nat, nat>, plan: seq<Tok>) {
    && (forall rk :: rk in newrk <==> Uses(plan, rk))
    && (forall i :: 0 <= i < |plan| && plan[i].Mark? ==> plan[i].rk in newrk)
  }

  /** Each deltakey is where its token says. */
  ghost predicate Placed(was: Buffer, h: Buffer, tip: Buffer, t: Tok) {
    t.Entry? ==> At(if t.tip then tip else h, t.pos, StrAt(was, t.dk)) && (!t.tip ==> t.pos > 0)
  }

  ghost predicate AllPlaced(was: Buffer, h: Buffer, tip: Buffer, plan: seq<Tok>) {
    forall i :: 0 <= i < |plan| ==> Placed(was, h, tip, plan[i])
  }

  /** The weave under construction. */
  ghost predicate Built(was: Buffer, newrk: map<nat, nat>, rkeys: seq<nat>, plan: seq<Tok>, words: seq<nat>,
                        tip: Buffer, h: Buffer) {
    && Numbered(newrk, rkeys) && words == Flat(newrk, plan) && TipsFirst(plan) && Known(newrk, plan) &&
      AllPlaced(was, h, tip, plan)
  }

  lemma PlacedGrown(was: Buffer, h: Buffer, tip: Buffer, h': Buffer, tip': Buffer, t: Tok)
    requires Placed(was, h, tip, t) && Grown(h, h') && Grown(tip, tip')
    ensures Placed(was, h', tip', t)
  {
    if t.Entry? {
      if t.tip { AtGrown(tip, tip', t.pos, StrAt(was, t.dk)); } else { AtGrown(h, h', t.pos, StrAt(was, t.dk)); }
    }
  }

  lemma {:induction false} AllPlacedMore(was: Buffer, h: Buffer, tip: Buffer, h': Buffer, tip': Buffer, plan: seq<Tok>,
                                         t: Tok)
    requires AllPlaced(was, h, tip, plan) && Grown(h, h') && Grown(tip, tip') && Placed(was, h', tip', t)
    ensures AllPlaced(was, h', tip', plan + [t])
  {
    hide Placed, Grown;
    forall i | 0 <= i < |plan| ensures Placed(was, h', tip', plan[i]) { PlacedGrown(was, h, tip, h', tip', plan[i]); }
  }

  lemma UsesMore(plan: seq<Tok>, t: Tok, rk: nat)
    ensures Uses(plan + [t], rk) <==> Uses(plan, rk) || (t.Entry? && t.rk == rk)
  {
    if Uses(plan, rk) {
      var i :| 0 <= i < |plan| && plan[i].Entry? && plan[i].rk == rk;
      assert (plan + [t])[i] == plan[i];
    }
    assert (plan + [t])[|plan|] == t;
  }

  lemma {:induction false} TipsMore(plan: seq<Tok>, t: Tok)
    requires TipsFirst(plan) && (t.Entry? ==> (t.tip <==> !Uses(plan, t.rk)))
    ensures TipsFirst(plan + [t])
  {
    hide Uses;
    var all := plan + [t];
    forall i | 0 <= i < |all| && all[i].Entry? ensures all[i].tip <==> !Uses(all[..i], all[i].rk) {
      if i < |plan| {
        assert all[..i] == plan[..i];
      } else {
        assert all[..i] == plan;
      }
    }
  }

  lemma {:induction false} KnownMore(newrk: map<nat, nat>, newrk': map<nat, nat>, plan: seq<Tok>, t: Tok)
    requires Known(newrk, plan) && (t.Stop? ==> newrk' == newrk)
    requires t.Mark? ==> newrk' == newrk && t.rk in newrk
    requires t.Entry? ==> newrk'.Keys == newrk.Keys + {t.rk}
    ensures Known(newrk', plan + [t])
  {
    hide Uses;
    forall rk ensures Uses(plan + [t], rk) <==> Uses(plan, rk) || (t.Entry? && t.rk == rk) { UsesMore(plan, t, rk); }
  }

  lemma {:induction false} FlatSame(newrk: map<nat, nat>, newrk': map<nat, nat>, plan: seq<Tok>)
    requires forall i :: 0 <= i < |plan| && !plan[i].Stop? ==>
      plan[i].rk in newrk && plan[i].rk in newrk' && newrk'[plan[i].rk] == newrk[plan[i].rk]
    ensures Flat(newrk', plan) == Flat(newrk, plan)
  {
    if plan != [] { FlatSame(newrk, newrk', plan[..|plan| - 1]); }
  }

  lemma KnownAll(newrk: map<nat, nat>, plan: seq<Tok>)
    requires Known(newrk, plan)
    ensures forall i :: 0 <= i < |plan| && !plan[i].Stop? ==> plan[i].rk in newrk
  {
    forall i | 0 <= i < |plan| && plan[i].Entry? ensures Uses(plan, plan[i].rk) { }
  }

  /** The newest entry of a rootkey. */
  lemma {:induction false} BuiltTip(was: Buffer, newrk: map<nat, nat>, rkeys: seq<nat>, plan: seq<Tok>, words: seq<nat>,
                                    tip: Buffer, h: Buffer, e: Ref)
    requires Built(was, newrk, rkeys, plan, words, tip, h) && e.rk !in newrk && Ends(was, e.dk)
    ensures var newrk' := newrk[e.rk := |rkeys| + 1];
            Built(was, newrk', rkeys + [e.rk], plan + [Entry(e.rk, e.dk, true, |tip|)],
              words + [|rkeys| + 1, |tip| + 1], tip + StrAt(was, e.dk) + [0], h)
  {
    hide Placed, StrAt, Uses, Ends, TipsFirst, Known, AllPlaced, Flat;
    var newrk' := newrk[e.rk := |rkeys| + 1];
    var t := Entry(e.rk, e.dk, true, |tip|);
    var tip' := tip + StrAt(was, e.dk) + [0];
    NewPlace(was, tip, e.dk);
    TipPlaced(was, h, tip', t);
    StaysSame(h);
    AllPlacedMore(was, h, tip, h, tip', plan, t);
    KnownUses(newrk, plan, e.rk);
    TipsMore(plan, t);
    KnownMore(newrk, newrk', plan, t);
    KnownAll(newrk, plan);
    FlatSame(newrk, newrk', plan);
    FlatMore(newrk', plan, t);
  }

  /** An older entry of a rootkey. */
  lemma {:induction false} BuiltRest(was: Buffer, newrk: map<nat, nat>, rkeys: seq<nat>, plan: seq<Tok>,
                                     words: seq<nat>, tip: Buffer, h: Buffer, e: Ref)
    requires Built(was, newrk, rkeys, plan, words, tip, h) && e.rk in newrk && Ends(was, e.dk) && |h| > 0
    ensures Built(was, newrk, rkeys, plan + [Entry(e.rk, e.dk, false, |h|)], words + [newrk[e.rk], |h| + 1], tip,
      h + StrAt(was, e.dk) + [0])
  {
    hide Placed, StrAt, Uses, Ends, TipsFirst, Known, AllPlaced, Flat;
    var t := Entry(e.rk, e.dk, false, |h|);
    var h' := h + StrAt(was, e.dk) + [0];
    NewPlace(was, h, e.dk);
    RestPlaced(was, h', tip, t);
    StaysSame(tip);
    AllPlacedMore(was, h, tip, h', tip, plan, t);
    KnownUses(newrk, plan, e.rk);
    TipsMore(plan, t);
    assert newrk.Keys + {e.rk} == newrk.Keys;
    KnownMore(newrk, newrk, plan, t);
    FlatMore(newrk, plan, t);
  }

  lemma {:induction false} BuiltPlain(was: Buffer, newrk: map<nat, nat>, rkeys: seq<nat>, plan: seq<Tok>,
                                      words: seq<nat>, tip: Buffer, h: Buffer, t: Tok)
    requires Built(was, newrk, rkeys, plan, words, tip, h) && !t.Entry? && (t.Mark? ==> t.rk in newrk)
    ensures Built(was, newrk, rkeys, plan + [t], words + Flat1(newrk, t), tip, h)
  {
    hide Uses, TipsFirst, Known, AllPlaced, Flat;
    PlainPlaced(was, h, tip, t);
    StaysSame(h);
    StaysSame(tip);
    AllPlacedMore(was, h, tip, h, tip, plan, t);
    TipsMore(plan, t);
    KnownMore(newrk, newrk, plan, t);
    FlatMore(newrk, plan, t);
  }

  lemma NewPlace(was: Buffer, h: Buffer, off: nat)
    requires Ends(was, off)
    ensures At(h + StrAt(was, off) + [0], |h|, StrAt(was, off)) && Grown(h, h + StrAt(was, off) + [0])
  {
    hide StrAt;
    AtAppended(h, StrAt(was, off), []);
    assert h + StrAt(was, off) + [0] + [] == h + StrAt(was, off) + [0];
  }

  lemma TipPlaced(was: Buffer, h: Buffer, tip: Buffer, t: Tok)
    requires t.Entry? && t.tip && At(tip, t.pos, StrAt(was, t.dk))
    ensures Placed(was, h, tip, t)
  {
  }

  lemma RestPlaced(was: Buffer, h: Buffer, tip: Buffer, t: Tok)
    requires t.Entry? && !t.tip && t.pos > 0 && At(h, t.pos, StrAt(was, t.dk))
    ensures Placed(was, h, tip, t)
  {
  }

  lemma PlainPlaced(was: Buffer, h: Buffer, tip: Buffer, t: Tok)
    requires !t.Entry?
    ensures Placed(was, h, tip, t)
  {
  }

  lemma StaysSame(h: Buffer)
    ensures Grown(h, h)
  {
  }

  lemma KnownUses(newrk: map<nat, nat>, plan: seq<Tok>, rk: nat)
    requires Known(newrk, plan)
    ensures rk in newrk <==> Uses(plan, rk)
  {
  }

  /** Puts one entry in the new weave, and its end marker if it is the oldest. */
  method PutEntry(heap: DataHeap, was: Buffer, e: Ref, oldest: map<nat, nat>, newrk: map<nat, nat>, rkeys: seq<nat>,
                  words: seq<nat>, tip: Buffer,
                  ghost plan: seq<Tok>, ghost shape: seq<Tok>)
    returns (newrk': map<nat, nat>, rkeys': seq<nat>, words': seq<nat>, tip': Buffer, ghost plan': seq<Tok>)
    requires heap.Valid() && Built(was, newrk, rkeys, plan, words, tip, heap.buf) && Ends(was, e.dk)
    requires Stripped(plan, shape)
    modifies heap
    ensures heap.Valid() && Grown(old(heap.buf), heap.buf) && heap.uniq == old(heap.uniq)
    ensures Built(was, newrk', rkeys', plan', words', tip', heap.buf) && Stripped(plan', shape + LineShape(e, oldest))
  {
    hide Built, Unique, StrAt, Ends, Grown;
    newrk', rkeys', tip' := newrk, rkeys, tip;
    NumberOf(was, newrk, rkeys, plan, words, tip, heap.buf, e.rk);
    var at;
    if e.rk !in newrk {
      BuiltTip(was, newrk, rkeys, plan, words, tip, heap.buf, e);
      StaysSame(heap.buf);
      rkeys' := rkeys + [e.rk];
      newrk' := newrk[e.rk := |rkeys'|];
      at := |tip| + 1;
      plan' := plan + [Entry(e.rk, e.dk, true, |tip|)];
      tip' := tip + StrAt(was, e.dk) + [0];
    } else {
      BuiltRest(was, newrk, rkeys, plan, words, tip, heap.buf, e);
      at := |heap.buf| + 1;
      plan' := plan + [Entry(e.rk, e.dk, false, |heap.buf|)];
      var off := heap.AddStr(StrAt(was, e.dk));
    }
    words' := words + [newrk'[e.rk], at];
    if e.rk in oldest && e.dk == oldest[e.rk] {
      BuiltPlain(was, newrk', rkeys', plan', words', tip', heap.buf, Mark(e.rk));
      plan' := plan' + [Mark(e.rk)];
      words' := words' + [newrk'[e.rk], 0];
    }
  }

  lemma NumberOf(was: Buffer, newrk: map<nat, nat>, rkeys: seq<nat>, plan: seq<Tok>, words: seq<nat>, tip: Buffer,
                 h: Buffer, rk: nat)
    requires Built(was, newrk, rkeys, plan, words, tip, h)
    ensures rk in newrk ==> newrk[rk] >= 1
  {
  }

  function Size(t: Tok): nat {
    if t.Stop? then 1 else 2
  }

  function FlatLen(plan: seq<Tok>): nat {
    if plan == [] then 0 else FlatLen(plan[..|plan| - 1]) + Size(plan[|plan| - 1])
  }

  lemma {:induction false} FlatLenIs(newrk: map<nat, nat>, plan: seq<Tok>, shape: seq<Tok>)
    requires Stripped(plan, shape)
    ensures |Flat(newrk, plan)| == FlatLen(plan) == FlatLen(shape)
  {
    if plan != [] {
      var n := |plan| - 1;
      assert Stripped(plan[..n], shape[..n]);
      FlatLenIs(newrk, plan[..n], shape[..n]);
      assert Strip(plan[n]) == shape[n];
    }
  }

  lemma {:induction false} BlockIn(was: Buffer, widx: seq<nat>, d: nat, n: nat, e: Ref)
    requires 1 <= d <= n < |widx| && e in Block(was, widx, d)
    ensures e in Oldest(was, widx, n)
    decreases n
  {
    hide Block;
    if d < n { BlockIn(was, widx, d, n - 1, e); }
  }

  /** Puts the entries of one delta, and its terminating zero. */
  method PutBlock(heap: DataHeap, was: Buffer, block: seq<Ref>, oldest: map<nat, nat>, newrk: map<nat, nat>,
                  rkeys: seq<nat>, words: seq<nat>, tip: Buffer,
                  ghost plan: seq<Tok>, ghost shape: seq<Tok>)
    returns (newrk': map<nat, nat>, rkeys': seq<nat>, words': seq<nat>, tip': Buffer, ghost plan': seq<Tok>)
    requires heap.Valid() && Built(was, newrk, rkeys, plan, words, tip, heap.buf) && Stripped(plan, shape)
    requires forall e :: e in block ==> Ends(was, e.dk)
    modifies heap
    ensures heap.Valid() && Grown(old(heap.buf), heap.buf) && heap.uniq == old(heap.uniq)
    ensures Built(was, newrk', rkeys', plan', words', tip', heap.buf)
    ensures Stripped(plan', shape + (Shape(block, oldest) + [Stop]))
  {
    hide Built, Unique, Ends, Grown, Stripped, LineShape;
    newrk', rkeys', words', tip', plan' := newrk, rkeys, words, tip, plan;
    StaysSame(heap.buf);
    assert shape + Shape(block[..0], oldest) == shape;
    for k := 0 to |block|
      invariant heap.Valid() && Grown(old(heap.buf), heap.buf) && heap.uniq == old(heap.uniq)
      invariant Built(was, newrk', rkeys', plan', words', tip', heap.buf)
      invariant Stripped(plan', shape + Shape(block[..k], oldest))
    {
      ghost var before := heap.buf;
      ghost var now := shape + Shape(block[..k], oldest);
      assert block[k] in block;
      newrk', rkeys', words', tip',
        plan' := PutEntry(heap, was, block[k], oldest, newrk', rkeys', words', tip', plan', now);
      GrownTwice(old(heap.buf), before, heap.buf);
      assert block[..k + 1][..k] == block[..k];
      assert now + LineShape(block[k], oldest) == shape + Shape(block[..k + 1], oldest);
    }
    assert block[..|block|] == block;
    BuiltPlain(was, newrk', rkeys', plan', words', tip', heap.buf, Stop);
    StopStripped(plan', shape + Shape(block, oldest));
    assert (shape + Shape(block, oldest)) + [Stop] == shape + (Shape(block, oldest) + [Stop]);
    plan' := plan' + [Stop];
    words' := words' + [0];
  }

  lemma StopStripped(plan: seq<Tok>, shape: seq<Tok>)
    requires Stripped(plan, shape)
    ensures Stripped(plan + [Stop], shape + [Stop])
  {
  }

  /** Where the entries of delta d start in the array of numbers, counted in bytes from 1. */
  ghost predicate Starts(was: Buffer, widx: seq<nat>, oldest: map<nat, nat>, starts: seq<nat>, d: nat) {
    && |starts| == |widx| && 1 <= d <= |widx|
    && (forall e :: d <= e < |widx| ==>
      starts[e] == if widx[e] == 0 then 0 else 4 * FlatLen(Shapes(was, widx, oldest, e + 1)) + 1)
    && (forall e :: 0 <= e < d ==> starts[e] == widx[e])
  }

  /** Walks the weave from the newest delta. */
  method BuildWeave(heap: DataHeap, was: Buffer, widx: seq<nat>, oldest: map<nat, nat>)
    returns (starts: seq<nat>, newrk: map<nat, nat>, rkeys: seq<nat>, words: seq<nat>, tip: Buffer,
      ghost plan: seq<Tok>)
    requires heap.Valid() && |widx| >= 1 && WeaveOk(was, Oldest(was, widx, |widx| - 1))
    modifies heap
    ensures heap.Valid() && Grown(old(heap.buf), heap.buf) && heap.uniq == old(heap.uniq)
    ensures Built(was, newrk, rkeys, plan, words, tip, heap.buf) && Stripped(plan, Shapes(was, widx, oldest, 1))
    ensures Starts(was, widx, oldest, starts, 1)
  {
    hide Built, Unique, Ends, Grown, Stripped, Shape, Shapes, Block, Oldest, FlatLen, WeaveOk, Starts;
    starts, newrk, rkeys, words, tip, plan := widx, map[], [], [], [], [];
    NothingBuilt(was, heap.buf);
    StaysSame(heap.buf);
    NoShapes(was, widx, oldest);
    var d := |widx| - 1;
    while d >= 1
      invariant 0 <= d < |widx| && heap.Valid() && Grown(old(heap.buf), heap.buf) && heap.uniq == old(heap.uniq)
      invariant Built(was, newrk, rkeys, plan, words, tip, heap.buf) && Stripped(plan, Shapes(was, widx, oldest, d + 1))
      invariant Starts(was, widx, oldest, starts, d + 1)
    {
      NextShapes(was, widx, oldest, d);
      NextStart(was, widx, oldest, starts, d);
      if widx[d] != 0 {
        ghost var before := heap.buf;
        ghost var shape := Shapes(was, widx, oldest, d + 1);
        WordsLen(was, newrk, rkeys, plan, words, tip, heap.buf, shape);
        starts := starts[d := 4 * |words| + 1];
        var block := Block(was, widx, d);
        BlockEnds(was, widx, d);
        newrk, rkeys, words, tip, plan := PutBlock(heap, was, block, oldest, newrk, rkeys, words, tip, plan, shape);
        GrownTwice(old(heap.buf), before, heap.buf);
      }
      d := d - 1;
    }
  }

  lemma NoShapes(was: Buffer, widx: seq<nat>, oldest: map<nat, nat>)
    requires |widx| >= 1
    ensures Shapes(was, widx, oldest, |widx|) == [] && Starts(was, widx, oldest, widx, |widx|)
  {
  }

  lemma NextShapes(was: Buffer, widx: seq<nat>, oldest: map<nat, nat>, d: nat)
    requires 1 <= d < |widx|
    ensures Shapes(was, widx, oldest, d) == Shapes(was, widx, oldest, d + 1) +
      if widx[d] == 0 then [] else Shape(Block(was, widx, d), oldest) + [Stop]
    ensures widx[d] == 0 ==> Shapes(was, widx, oldest, d) == Shapes(was, widx, oldest, d + 1)
  {
    hide Shape, Block;
  }

  lemma NextStart(was: Buffer, widx: seq<nat>, oldest: map<nat, nat>, starts: seq<nat>, d: nat)
    requires 1 <= d < |widx| && Starts(was, widx, oldest, starts, d + 1)
    ensures |starts| == |widx| && (widx[d] == 0 ==> Starts(was, widx, oldest, starts, d))
    ensures widx[d] != 0 ==>
      Starts(was, widx, oldest, starts[d := 4 * FlatLen(Shapes(was, widx, oldest, d + 1)) + 1], d)
  {
    hide Shapes, FlatLen;
  }

  lemma NothingBuilt(was: Buffer, h: Buffer)
    ensures Built(was, map[], [], [], [], [], h) && Stripped([], [])
  {
  }

  lemma WordsLen(was: Buffer, newrk: map<nat, nat>, rkeys: seq<nat>, plan: seq<Tok>, words: seq<nat>, tip: Buffer,
                 h: Buffer, shape: seq<Tok>)
    requires Built(was, newrk, rkeys, plan, words, tip, h) && Stripped(plan, shape)
    ensures |words| == FlatLen(shape)
  {
    FlatLenIs(newrk, plan, shape);
  }

  lemma BlockEnds(was: Buffer, widx: seq<nat>, d: nat)
    requires 1 <= d < |widx| && WeaveOk(was, Oldest(was, widx, |widx| - 1))
    ensures forall e :: e in Block(was, widx, d) ==> Ends(was, e.dk)
  {
    hide Block, Oldest, Ends;
    forall e | e in Block(was, widx, d) ensures Ends(was, e.dk) { BlockIn(was, widx, d, |widx| - 1, e); }
  }

  // ---------- the rootkeys ----------

  /** The heap at some point: its bytes and its hash of unique strings. */
  datatype Stage = Stage(buf: Buffer, uniq: map<Text, nat>)

  /** The rootkeys rks were added to what was there. */
  ghost predicate Added(was: Buffer, rks: seq<nat>, a: Stage, b: Stage) {
    && Grown(a.buf, b.buf)
    && (forall s :: s in a.uniq ==> s in b.uniq && b.uniq[s] == a.uniq[s])
    && (forall s :: s in b.uniq && s !in a.uniq ==>
          |a.buf| <= b.uniq[s] < |b.buf| && exists i :: 0 <= i < |rks| && s == StrAt(was, rks[i]))
    && (forall i :: 0 <= i < |rks| ==> StrAt(was, rks[i]) in b.uniq)
  }

  method AddRootkeys(heap: DataHeap, was: Buffer, rks: seq<nat>) returns (offs: seq<nat>)
    requires heap.Valid()
    modifies heap
    ensures heap.Valid()
    ensures Added(was, rks, Stage(old(heap.buf), old(heap.uniq)), Stage(heap.buf, heap.uniq))
    ensures |offs| == |rks| && forall i :: 0 <= i < |rks| ==> offs[i] == heap.uniq[StrAt(was, rks[i])]
  {
    hide StrAt, Unique, Grown, At, Word;
    offs := [];
    StaysSame(heap.buf);
    ghost var s0 := Stage(heap.buf, heap.uniq);
    for k := 0 to |rks|
      invariant heap.Valid() && Added(was, rks[..k], s0, Stage(heap.buf, heap.uniq))
      invariant |offs| == k
      invariant forall i :: 0 <= i < k ==> StrAt(was, rks[i]) in heap.uniq && offs[i] == heap.uniq[StrAt(was, rks[i])]
    {
      ghost var s1 := Stage(heap.buf, heap.uniq);
      var off := heap.AddUniqRootkey(StrAt(was, rks[k]));
      offs := offs + [off];
      GrownTwice(s0.buf, s1.buf, heap.buf);
      AddedMore(was, rks, k, s0, s1, Stage(heap.buf, heap.uniq), off);
    }
    assert rks[..|rks|] == rks;
  }

  lemma {:induction false} AddedMore(was: Buffer, rks: seq<nat>, k: nat, s0: Stage, s1: Stage, s2: Stage, off: nat)
    requires k < |rks| && Added(was, rks[..k], s0, s1) && Grown(s0.buf, s2.buf) && Grown(s1.buf, s2.buf)
    requires s2.uniq == s1.uniq[StrAt(was, rks[k]) := off]
    requires var s := StrAt(was, rks[k]); if s in s1.uniq then off == s1.uniq[s] else |s1.buf| <= off < |s2.buf|
    ensures Added(was, rks[..k + 1], s0, s2)
  {
    hide StrAt;
    var now, next := rks[..k], rks[..k + 1];
    assert next == now + [rks[k]];
    forall s | s in s2.uniq && s !in s0.uniq
      ensures |s0.buf| <= s2.uniq[s] < |s2.buf| && exists i :: 0 <= i < |next| && s == StrAt(was, next[i])
    {
      if s in s1.uniq {
        var i :| 0 <= i < |now| && s == StrAt(was, now[i]);
        assert next[i] == now[i];
      } else {
        assert next[k] == rks[k];
      }
    }
    forall i | 0 <= i < |next| ensures StrAt(was, next[i]) in s2.uniq {
      if i < k { assert next[i] == now[i]; }
    }
  }

  // ---------- telling the kind of a rootkey ----------

  /** By its offset if it was there when the heap was last repacked, else by its text. */
  predicate IsComponent(off: nat, comp: nat, packed: nat, kinds: Kinds, rkey: Text) {
    if comp != 0 && off < packed then off < comp else kinds.Comp(rkey)
  }

  predicate IsBamFile(off: nat, comp: nat, bam: nat, packed: nat, kinds: Kinds, rkey: Text) {
    if bam != 0 && off < packed then comp <= off < bam else kinds.Bam(rkey)
  }

  /** The range tests say what the text of the rootkey at off says. */
  ghost predicate TestsAgree(off: nat, comp: nat, bam: nat, packed: nat, kinds: Kinds, rkey: Text) {
    && (IsComponent(off, comp, packed, kinds, rkey) <==> kinds.Comp(rkey))
    && (IsBamFile(off, comp, bam, packed, kinds, rkey) <==> kinds.Bam(rkey))
  }

  /** A rootkey added after the last repack, or before there was one, goes by its text. */
  lemma AddedLater(off: nat, comp: nat, bam: nat, packed: nat, kinds: Kinds, rkey: Text)
    requires off >= packed || (comp == 0 && bam == 0)
    ensures TestsAgree(off, comp, bam, packed, kinds, rkey)
  {
  }

  /** In the repacked part the two bounds cut the rootkeys into components, BAM files and
      others, whatever their text. */
  lemma PackedKinds(off: nat, comp: nat, bam: nat, packed: nat, kinds: Kinds, rkey: Text)
    requires 0 < comp <= bam && off < packed
    ensures IsComponent(off, comp, packed, kinds, rkey) || IsBamFile(off, comp, bam, packed, kinds, rkey) <==> off < bam
    ensures !(IsComponent(off, comp, packed, kinds, rkey) && IsBamFile(off, comp, bam, packed, kinds, rkey))
    ensures IsComponent(off, comp, packed, kinds, rkey) <==> off < comp
  {
  }

  /** The four points of writing the rootkeys: before, after the components, after the BAM
      files, and after all. */
  ghost predicate RootkeysAdded(was: Buffer, comprk: seq<nat>, bamrk: seq<nat>, rkeys: seq<nat>, s0: Stage, s1: Stage,
                                s2: Stage, s3: Stage) {
    Added(was, comprk, s0, s1) && Added(was, bamrk, s1, s2) && Added(was, rkeys, s2, s3)
  }

  /** The tests agree with the text for a rootkey of a repacked heap exactly when it does not
      double as a unique string that was there before, or is a component. */
  lemma {:induction false} RangeTests(was: Buffer, ls: seq<Ref>, kinds: Kinds, comprk: seq<nat>, bamrk: seq<nat>,
                                      rkeys: seq<nat>, rk: nat,
                                      s0: Stage, s1: Stage, s2: Stage, s3: Stage, packed: nat)
    requires Sorted(was, ls, kinds, comprk, bamrk) && HasRk(ls, rk) && rk in rkeys
    requires RootkeysAdded(was, comprk, bamrk, rkeys, s0, s1, s2, s3) && |s0.buf| > 0 && Unique(s0.buf, s0.uniq)
    requires |s3.buf| <= packed
    ensures var s := StrAt(was, rk);
            && s in s3.uniq
            && (TestsAgree(s3.uniq[s], |s1.buf|, |s2.buf|, packed, kinds, s) <==> s !in s0.uniq || kinds.Comp(s))
  {
    hide StrAt, HasRk, Unique, At;
    var s := StrAt(was, rk);
    var i :| 0 <= i < |rkeys| && rkeys[i] == rk;
    if s in s0.uniq {
      UniqueAt(s0.buf, s0.uniq, s);
      AtWithin(s0.buf, s0.uniq[s], s);
    } else if kinds.Comp(s) {
      assert rk in comprk;
      var j :| 0 <= j < |comprk| && comprk[j] == rk;
      assert s in s1.uniq;
    } else {
      NotAdded(was, ls, t => kinds.Comp(t), comprk, s0, s1, s);
      if kinds.Bam(s) {
        assert rk in bamrk;
        var j :| 0 <= j < |bamrk| && bamrk[j] == rk;
        assert s in s2.uniq;
      } else {
        NotAdded(was, ls, t => kinds.Bam(t), bamrk, s1, s2, s);
      }
    }
  }

  lemma NotAdded(was: Buffer, ls: seq<Ref>, kind: Text -> bool, rks: seq<nat>, a: Stage, b: Stage, s: Text)
    requires Kind(was, ls, kind, rks) && Added(was, rks, a, b) && s !in a.uniq && !kind(s)
    ensures s !in b.uniq
  {
    hide StrAt, HasRk;
    forall i | 0 <= i < |rks| ensures StrAt(was, rks[i]) != s { assert rks[i] in rks; }
  }

  // ---------- putting the offsets right ----------

  /** The numbers of a token once everything has its place. */
  function Fix1(rkmap: map<nat, nat>, tipstart: nat, t: Tok): seq<nat> {
    match t
    case Entry(rk, _, tip, pos) => [if rk in rkmap then rkmap[rk] else 0, if tip then tipstart + pos else pos]
    case Mark(rk) => [if rk in rkmap then rkmap[rk] else 0, 0]
    case Stop => [0]
  }

  function Fix(rkmap: map<nat, nat>, tipstart: nat, plan: seq<Tok>): seq<nat> {
    if plan == [] then [] else Fix(rkmap, tipstart, plan[..|plan| - 1]) + Fix1(rkmap, tipstart, plan[|plan| - 1])
  }

  lemma FixMore(rkmap: map<nat, nat>, tipstart: nat, plan: seq<Tok>, k: nat)
    requires k < |plan|
    ensures Fix(rkmap, tipstart, plan[..k + 1]) == Fix(rkmap, tipstart, plan[..k]) + Fix1(rkmap, tipstart, plan[k])
  {
    assert plan[..k + 1][..k] == plan[..k];
  }

  lemma {:induction false} FlatHead(newrk: map<nat, nat>, plan: seq<Tok>)
    requires plan != []
    ensures Flat(newrk, plan) == Flat1(newrk, plan[0]) + Flat(newrk, plan[1..])
  {
    hide Flat1;
    var n := |plan| - 1;
    if n > 0 {
      FlatHead(newrk, plan[..n]);
      assert plan[..n][1..] == plan[1..][..n - 1];
      assert plan[1..][n - 1] == plan[n];
    } else {
      assert plan[..0] == [] && plan[1..] == [];
    }
  }

  /** The offsets of the rootkeys by their old places. */
  ghost predicate RkMap(newrk: map<nat, nat>, offs: seq<nat>, rkmap: map<nat, nat>) {
    && rkmap.Keys == newrk.Keys
    && forall rk :: rk in newrk ==> 1 <= newrk[rk] <= |offs| && rkmap[rk] == offs[newrk[rk] - 1]
  }

  /** The numbers of the rootkeys whose tip was met. */
  ghost predicate Met(newrk: map<nat, nat>, plan: seq<Tok>, tips: set<nat>) {
    forall rk :: rk in newrk ==> (newrk[rk] in tips <==> Uses(plan, rk))
  }

  lemma {:induction false} FixStep(newrk: map<nat, nat>, offs: seq<nat>, rkmap: map<nat, nat>, tipstart: nat,
                                   plan: seq<Tok>, k: nat, words: seq<nat>, i: nat)
    requires k < |plan| && RkMap(newrk, offs, rkmap) && Known(newrk, plan)
    requires words == Fix(rkmap, tipstart, plan[..k]) + Flat(newrk, plan[k..]) && i == |Fix(rkmap, tipstart, plan[..k])|
    ensures i + Size(plan[k]) <= |words| && (words[i] == 0 <==> plan[k].Stop?)
    ensures |Fix(rkmap, tipstart, plan[..k + 1])| == i + Size(plan[k])
    ensures plan[k].Stop? ==> words == Fix(rkmap, tipstart, plan[..k + 1]) + Flat(newrk, plan[k + 1..])
    ensures !plan[k].Stop? ==>
      plan[k].rk in newrk && words[i] == newrk[plan[k].rk] && 1 <= words[i] <= |offs| &&
      offs[words[i] - 1] == rkmap[plan[k].rk]
    ensures !plan[k].Stop? ==>
      (words[i + 1] == 0 <==> plan[k].Mark?) && (plan[k].Entry? ==> words[i + 1] == plan[k].pos + 1)
    ensures !plan[k].Stop? ==>
      words[i := rkmap[plan[k].rk]][i + 1 := Fix1(rkmap, tipstart, plan[k])[1]] == Fix(rkmap, tipstart,
        plan[..k + 1]) + Flat(newrk, plan[k + 1..])
  {
    hide Fix, Flat, Uses;
    var t := plan[k];
    KnownAll(newrk, plan);
    FixMore(rkmap, tipstart, plan, k);
    FlatHead(newrk, plan[k..]);
    assert plan[k..][1..] == plan[k + 1..];
    var a, b := Fix(rkmap, tipstart, plan[..k]), Flat(newrk, plan[k + 1..]);
    assert words == a + Flat1(newrk, t) + b;
    if !t.Stop? {
      var w := words[i := rkmap[t.rk]][i + 1 := Fix1(rkmap, tipstart, t)[1]];
      assert w == a + Fix1(rkmap, tipstart, t) + b;
    } else {
      assert words == a + Fix1(rkmap, tipstart, t) + b;
    }
  }

  lemma {:induction false} MetMore(newrk: map<nat, nat>, rkeys: seq<nat>, plan: seq<Tok>, k: nat, tips: set<nat>)
    requires Numbered(newrk, rkeys) && k < |plan| && Met(newrk, plan[..k], tips) && TipsFirst(plan)
    ensures !plan[k].Entry? ==> Met(newrk, plan[..k + 1], tips)
    ensures plan[k].Entry? && plan[k].rk in newrk ==>
      (plan[k].tip <==> newrk[plan[k].rk] !in tips) && Met(newrk, plan[..k + 1], tips + {newrk[plan[k].rk]})
  {
    hide Uses;
    assert plan[..k + 1] == plan[..k] + [plan[k]];
    forall rk ensures Uses(plan[..k + 1], rk) <==> Uses(plan[..k], rk) || (plan[k].Entry? && plan[k].rk == rk) {
      UsesMore(plan[..k], plan[k], rk);
    }
  }

  /** Replaces the numbers of rootkeys and deltakeys by their offsets. The first entry of each
      rootkey is the one whose deltakey is in the tip array. */
  method FixUp(words0: seq<nat>, offs: seq<nat>, tipstart: nat, ghost newrk: map<nat, nat>, ghost rkeys: seq<nat>,
               ghost rkmap: map<nat, nat>, ghost plan: seq<Tok>)
    returns (words: seq<nat>)
    requires words0 == Flat(newrk, plan) && Known(newrk, plan) && TipsFirst(plan) && Numbered(newrk, rkeys)
    requires RkMap(newrk, offs, rkmap)
    ensures words == Fix(rkmap, tipstart, plan)
  {
    hide Fix, Flat, Known, TipsFirst, Numbered, RkMap, Met;
    words := words0;
    var tips: set<nat> := {};
    ghost var k := 0;
    StartFix(newrk, rkmap, tipstart, plan);
    var i := 0;
    while i < |words|
      invariant 0 <= k <= |plan| && i == |Fix(rkmap, tipstart, plan[..k])|
      invariant words == Fix(rkmap, tipstart, plan[..k]) + Flat(newrk, plan[k..]) && Met(newrk, plan[..k], tips)
      decreases |plan| - k
    {
      if k == |plan| { NoWords(newrk, plan); }
      ghost var t := plan[k];
      FixStep(newrk, offs, rkmap, tipstart, plan, k, words, i);
      MetMore(newrk, rkeys, plan, k, tips);
      k := k + 1;
      var rkoff := words[i];
      if rkoff == 0 {
        i := i + 1;
        continue;
      }
      words := words[i := offs[rkoff - 1]];
      i := i + 1;
      var dkoff := words[i];
      if dkoff == 0 {
        assert words == words[i := 0];
        i := i + 1;
        continue;
      }
      dkoff := dkoff - 1;
      if rkoff !in tips {
        // a tip key
        tips := tips + {rkoff};
        dkoff := dkoff + tipstart;
      } else {
        assert tips == tips + {rkoff};
      }
      words := words[i := dkoff];
      i := i + 1;
    }
    if k < |plan| { FixStep(newrk, offs, rkmap, tipstart, plan, k, words, i); }
    assert plan[..|plan|] == plan;
    NoWords(newrk, plan);
    assert words == Fix(rkmap, tipstart, plan) + [];
  }

  lemma StartFix(newrk: map<nat, nat>, rkmap: map<nat, nat>, tipstart: nat, plan: seq<Tok>)
    ensures Fix(rkmap, tipstart, plan[..0]) == [] && Met(newrk, plan[..0], {}) && plan[0..] == plan
  {
  }

  lemma NoWords(newrk: map<nat, nat>, plan: seq<Tok>)
    ensures Flat(newrk, plan[|plan|..]) == []
  {
  }

  // ---------- reading the new weave ----------

  function RefOf(rkmap: map<nat, nat>, tipstart: nat, t: Tok): Ref
    requires !t.Stop?
  {
    var w := Fix1(rkmap, tipstart, t);
    Ref(w[0], w[1])
  }

  lemma {:induction false} FixPrefix(rkmap: map<nat, nat>, tipstart: nat, plan: seq<Tok>, k: nat)
    requires k <= |plan|
    ensures |Fix(rkmap, tipstart, plan[..k])| == FlatLen(plan[..k]) <= |Fix(rkmap, tipstart, plan)|
    ensures Fix(rkmap, tipstart, plan)[..FlatLen(plan[..k])] == Fix(rkmap, tipstart, plan[..k])
    decreases |plan|
  {
    FixLen(rkmap, tipstart, plan[..k]);
    var n := |plan| - 1;
    if k == |plan| {
      assert plan[..k] == plan;
    } else {
      FixPrefix(rkmap, tipstart, plan[..n], k);
      assert plan[..n][..k] == plan[..k];
      assert Fix(rkmap, tipstart, plan) == Fix(rkmap, tipstart, plan[..n]) + Fix1(rkmap, tipstart, plan[n]);
    }
  }

  lemma {:induction false} FixLen(rkmap: map<nat, nat>, tipstart: nat, plan: seq<Tok>)
    ensures |Fix(rkmap, tipstart, plan)| == FlatLen(plan)
  {
    if plan != [] { FixLen(rkmap, tipstart, plan[..|plan| - 1]); }
  }

  lemma {:induction false} FixAt(rkmap: map<nat, nat>, tipstart: nat, plan: seq<Tok>, k: nat)
    requires k < |plan|
    ensures var i, w := FlatLen(plan[..k]), Fix(rkmap, tipstart, plan);
            FlatLen(plan[..k + 1]) == i + Size(plan[k]) <= |w| && w[i] == Fix1(rkmap, tipstart, plan[k])[0]
            && (!plan[k].Stop? ==> w[i + 1] == Fix1(rkmap, tipstart, plan[k])[1])
  {
    hide Fix;
    FixPrefix(rkmap, tipstart, plan, k);
    FixPrefix(rkmap, tipstart, plan, k + 1);
    FixMore(rkmap, tipstart, plan, k);
    assert plan[..k + 1][..k] == plan[..k];
    var w, i := Fix(rkmap, tipstart, plan), FlatLen(plan[..k]);
    var p := w[..FlatLen(plan[..k + 1])];
    assert w[i] == p[i];
    if !plan[k].Stop? { assert w[i + 1] == p[i + 1]; }
  }

  /** The words are in the heap from base on. */
  ghost predicate Written(h: Buffer, base: nat, words: seq<nat>) {
    && base + 4 * |words| <= |h|
    && forall i :: 0 <= i < |words| ==> Word(h, base + 4 * i) == words[i]
  }

  lemma {:induction false} WrittenAt(h: Buffer, words: seq<nat>)
    requires forall i :: 0 <= i < |words| ==> words[i] < LIMIT
    ensures Written(h + EncAll(words), |h|, words)
  {
    hide Word, EncAll;
    var g := h + EncAll(words);
    forall i | 0 <= i < |words| ensures Word(g, |h| + 4 * i) == words[i] {
      WordOfAll(words, i);
      WordWithin(h, EncAll(words), [], 4 * i);
      assert h + EncAll(words) + [] == g;
    }
  }

  /** Reading from where the tokens of a delta start gives back the tokens. */
  lemma {:induction false} ReadBack(h: Buffer, base: nat, rkmap: map<nat, nat>, tipstart: nat, plan: seq<Tok>, a: nat,
                                    b: nat)
    requires a <= b < |plan| && plan[b].Stop? && Written(h, base, Fix(rkmap, tipstart, plan))
    requires forall k :: a <= k < b ==> !plan[k].Stop? && plan[k].rk in rkmap && rkmap[plan[k].rk] > 0
    ensures var es := Entries(h, base + 4 * FlatLen(plan[..a]));
            |es| == b - a && forall k :: a <= k < b ==> es[k - a] == RefOf(rkmap, tipstart, plan[k])
    decreases b - a
  {
    hide Fix, FlatLen, Word;
    var i, words := FlatLen(plan[..a]), Fix(rkmap, tipstart, plan);
    var off := base + 4 * i;
    FixAt(rkmap, tipstart, plan, a);
    assert Word(h, base + 4 * i) == words[i];
    if a < b {
      assert Word(h, base + 4 * (i + 1)) == words[i + 1];
      ReadBack(h, base, rkmap, tipstart, plan, a + 1, b);
      var es, rest := Entries(h, off), Entries(h, off + 8);
      assert off + 8 == base + 4 * FlatLen(plan[..a + 1]);
      assert es == [RefOf(rkmap, tipstart, plan[a])] + rest;
    }
  }

  // ---------- the whole of it ----------

  /** The entries es of a delta in the new heap are what was to be put there. */
  ghost predicate Matches(was: Buffer, h: Buffer, rkmap: map<nat, nat>, shape: seq<Tok>, es: seq<Ref>) {
    && |es| == |shape|
    && forall i :: 0 <= i < |shape| ==> MatchesAt(was, h, rkmap, shape[i], es[i])
  }

  ghost predicate MatchesAt(was: Buffer, h: Buffer, rkmap: map<nat, nat>, t: Tok, e: Ref) {
    && !t.Stop? && t.rk in rkmap && e.rk == rkmap[t.rk]
    && (if t.Mark? then e.dk == 0 else e.dk != 0 && At(h, e.dk, StrAt(was, t.dk)))
  }

  /** Rootkeys have new places, each its own, with the same text. */
  ghost predicate Relocated(was: Buffer, h: Buffer, ls: seq<Ref>, rkmap: map<nat, nat>) {
    && (forall rk :: rk in rkmap <==> HasRk(ls, rk))
    && (forall rk :: rk in rkmap ==> rkmap[rk] > 0 && At(h, rkmap[rk], StrAt(was, rk)))
    && (forall rk, rk' :: rk in rkmap && rk' in rkmap && rk != rk' ==> rkmap[rk] != rkmap[rk'])
  }

  /** Where a run of tokens lies in a plan. */
  lemma {:induction false} PartOfPlan(plan: seq<Tok>, all: seq<Tok>, s1: seq<Tok>, shape: seq<Tok>)
    requires Stripped(plan, all) && s1 + (shape + [Stop]) <= all
    ensures var a := |s1|;
            && a + |shape| < |plan| && plan[a + |shape|].Stop? && Stripped(plan[..a], s1)
            && forall k :: 0 <= k < |shape| ==> Strip(plan[a + k]) == shape[k]
  {
    var a, sd := |s1|, s1 + (shape + [Stop]);
    forall k | 0 <= k < |sd| ensures Strip(plan[k]) == sd[k] { assert all[k] == sd[k]; }
    assert sd[a + |shape|] == Stop;
    forall k | 0 <= k < |shape| ensures Strip(plan[a + k]) == shape[k] { assert sd[a + k] == shape[k]; }
    forall k | 0 <= k < a ensures Strip(plan[..a][k]) == s1[k] { assert sd[k] == s1[k]; }
  }

  lemma {:induction false} PlanPart(was: Buffer, widx: seq<nat>, oldest: map<nat, nat>, plan: seq<Tok>, d: nat)
    requires 1 <= d < |widx| && widx[d] != 0 && Stripped(plan, Shapes(was, widx, oldest, 1))
    ensures var a, shape := |Shapes(was, widx, oldest, d + 1)|, Shape(Block(was, widx, d), oldest);
            && a + |shape| < |plan| && plan[a + |shape|].Stop?
            && FlatLen(plan[..a]) == FlatLen(Shapes(was, widx, oldest, d + 1))
            && forall k :: 0 <= k < |shape| ==> Strip(plan[a + k]) == shape[k]
  {
    hide Shape, Block, FlatLen, Shapes, Stripped, Strip;
    var s1, all := Shapes(was, widx, oldest, d + 1), Shapes(was, widx, oldest, 1);
    ShapesPrefix(was, widx, oldest, 1, d);
    NextShapes(was, widx, oldest, d);
    PartOfPlan(plan, all, s1, Shape(Block(was, widx, d), oldest));
    FlatLenIs(map[], plan[..|s1|], s1);
  }

  lemma {:induction false} ShapesPrefix(was: Buffer, widx: seq<nat>, oldest: map<nat, nat>, c: nat, d: nat)
    requires 1 <= c <= d <= |widx|
    ensures var x, y := Shapes(was, widx, oldest, c), Shapes(was, widx, oldest, d); |y| <= |x| && x[..|y|] == y
    decreases d - c
  {
    hide Shape, Block;
    var y := Shapes(was, widx, oldest, d);
    if c < d {
      ShapesPrefix(was, widx, oldest, c + 1, d);
      var x, z := Shapes(was, widx, oldest, c), Shapes(was, widx, oldest, c + 1);
      assert x[..|z|] == z;
      assert x[..|y|] == x[..|z|][..|y|];
    } else {
      assert y[..|y|] == y;
    }
  }

  ghost predicate InBlocks(was: Buffer, widx: seq<nat>, rk: nat, lo: nat, hi: nat) {
    exists d: nat :: lo <= d < hi && d < |widx| && HasRk(Block(was, widx, d), rk)
  }

  lemma {:induction false} InOldest(was: Buffer, widx: seq<nat>, rk: nat, d: nat)
    requires d < |widx|
    ensures HasRk(Oldest(was, widx, d), rk) <==> InBlocks(was, widx, rk, 1, d + 1)
  {
    hide Block, HasRk;
    if d > 0 {
      InOldest(was, widx, rk, d - 1);
      InEither(Oldest(was, widx, d - 1), Block(was, widx, d), rk);
      assert InBlocks(was, widx, rk, 1, d + 1) <==> InBlocks(was, widx, rk, 1, d) || HasRk(Block(was, widx, d), rk);
    } else {
      InNone(rk);
    }
  }

  lemma InNone(rk: nat)
    ensures !HasRk([], rk)
  {
  }

  lemma InEither(a: seq<Ref>, b: seq<Ref>, rk: nat)
    ensures HasRk(a + b, rk) <==> HasRk(a, rk) || HasRk(b, rk)
  {
    if HasRk(a, rk) {
      var i :| 0 <= i < |a| && a[i].rk == rk;
      assert (a + b)[i] == a[i];
    }
    if HasRk(b, rk) {
      var i :| 0 <= i < |b| && b[i].rk == rk;
      assert (a + b)[|a| + i] == b[i];
    }
  }

  lemma UsesEither(a: seq<Tok>, b: seq<Tok>, rk: nat)
    ensures Uses(a + b, rk) <==> Uses(a, rk) || Uses(b, rk)
  {
    if Uses(a, rk) {
      var i :| 0 <= i < |a| && a[i].Entry? && a[i].rk == rk;
      assert (a + b)[i] == a[i];
    }
    if Uses(b, rk) {
      var i :| 0 <= i < |b| && b[i].Entry? && b[i].rk == rk;
      assert (a + b)[|a| + i] == b[i];
    }
  }

  lemma {:induction false} ShapeUses(ls: seq<Ref>, oldest: map<nat, nat>, rk: nat)
    ensures Uses(Shape(ls, oldest), rk) <==> HasRk(ls, rk)
  {
    hide Uses, HasRk;
    if ls == [] {
      NoUses(rk);
      InNone(rk);
    } else {
      var n := |ls| - 1;
      ShapeUses(ls[..n], oldest, rk);
      UsesEither(Shape(ls[..n], oldest), LineShape(ls[n], oldest), rk);
      LineUses(ls[n], oldest, rk);
      HasMore(ls[..n], ls[n], rk);
      assert ls == ls[..n] + [ls[n]];
    }
  }

  lemma NoUses(rk: nat)
    ensures !Uses([], rk)
  {
  }

  lemma LineUses(e: Ref, oldest: map<nat, nat>, rk: nat)
    ensures Uses(LineShape(e, oldest), rk) <==> e.rk == rk
  {
    assert LineShape(e, oldest)[0].rk == e.rk;
  }

  lemma {:induction false} ShapesUse(was: Buffer, widx: seq<nat>, oldest: map<nat, nat>, rk: nat, d: nat)
    requires 1 <= d <= |widx|
    ensures Uses(Shapes(was, widx, oldest, d), rk) <==> InBlocks(was, widx, rk, d, |widx|)
    decreases |widx| - d
  {
    hide Uses, HasRk, Shape;
    if d == |widx| {
      NoUses(rk);
    } else {
      var block := Block(was, widx, d);
      ShapesUse(was, widx, oldest, rk, d + 1);
      assert InBlocks(was, widx, rk, d, |widx|) <==> InBlocks(was, widx, rk, d + 1, |widx|) || HasRk(block, rk);
      if widx[d] != 0 {
        ShapeUses(block, oldest, rk);
        UsesEither(Shapes(was, widx, oldest, d + 1), Shape(block, oldest) + [Stop], rk);
        UsesMore(Shape(block, oldest), Stop, rk);
      } else {
        NextShapes(was, widx, oldest, d);
        InNone(rk);
      }
    }
  }

  lemma StripUses(plan: seq<Tok>, shape: seq<Tok>, rk: nat)
    requires Stripped(plan, shape)
    ensures Uses(plan, rk) <==> Uses(shape, rk)
  {
    if Uses(plan, rk) {
      var i :| 0 <= i < |plan| && plan[i].Entry? && plan[i].rk == rk;
      assert Strip(plan[i]) == shape[i];
    }
    if Uses(shape, rk) {
      var i :| 0 <= i < |shape| && shape[i].Entry? && shape[i].rk == rk;
      assert Strip(plan[i]) == shape[i];
    }
  }

  /** Every rootkey of the old weave was numbered, and no other. */
  lemma {:induction false} AllNumbered(was: Buffer, widx: seq<nat>, oldest: map<nat, nat>, newrk: map<nat, nat>,
                                       plan: seq<Tok>, rk: nat)
    requires |widx| >= 1 && Stripped(plan, Shapes(was, widx, oldest, 1)) && Known(newrk, plan)
    ensures rk in newrk <==> HasRk(Oldest(was, widx, |widx| - 1), rk)
  {
    hide Shapes, Oldest, Uses, HasRk;
    StripUses(plan, Shapes(was, widx, oldest, 1), rk);
    ShapesUse(was, widx, oldest, rk, 1);
    InOldest(was, widx, rk, |widx| - 1);
    KnownUses(newrk, plan, rk);
  }

  // ---------- repacking ----------

  /** The deltakey of a token is where the fixed-up weave says. */
  lemma {:induction false} FinalPlace(was: Buffer, h1: Buffer, tip: Buffer, h: Buffer, rkmap: map<nat, nat>, t: Tok)
    requires Placed(was, h1, tip, t) && |h1| > 0 && Grown(h1 + tip, h) && t.Entry?
    ensures var off := Fix1(rkmap, |h1|, t)[1]; off > 0 && At(h, off, StrAt(was, t.dk))
  {
    var s := StrAt(was, t.dk);
    if t.tip {
      AtShifted(h1, tip, t.pos, s);
      AtGrown(h1 + tip, h, |h1| + t.pos, s);
    } else {
      assert Grown(h1, h1 + tip);
      AtGrown(h1, h1 + tip, t.pos, s);
      AtGrown(h1 + tip, h, t.pos, s);
    }
  }

  lemma AtShifted(a: Buffer, b: Buffer, off: nat, s: Text)
    requires At(b, off, s)
    ensures At(a + b, |a| + off, s)
  {
    var g := a + b;
    assert g[|a| + off..|a| + off + |s|] == b[off..off + |s|];
  }

  /** All offsets of the fixed-up weave are within the heap. */
  lemma {:induction false} FixBounded(was: Buffer, h1: Buffer, tip: Buffer, h: Buffer, newrk: map<nat, nat>,
                                      rkmap: map<nat, nat>, plan: seq<Tok>)
    requires AllPlaced(was, h1, tip, plan) && |h1| > 0 && Grown(h1 + tip, h)
    requires (forall rk :: rk in rkmap ==> rkmap[rk] < |h|)
    ensures forall i :: 0 <= i < |Fix(rkmap, |h1|, plan)| ==> Fix(rkmap, |h1|, plan)[i] < |h|
  {
    hide Placed;
    if plan != [] {
      var n := |plan| - 1;
      FixBounded(was, h1, tip, h, newrk, rkmap, plan[..n]);
      if plan[n].Entry? { FinalPlace(was, h1, tip, h, rkmap, plan[n]); }
    }
  }

  /** What has become of the entries of delta d. */
  ghost predicate NewBlock(was: Buffer, h: Buffer, widx: seq<nat>, widx': seq<nat>, oldest: map<nat, nat>,
                           rkmap: map<nat, nat>, d: nat)
    requires d < |widx| == |widx'|
  {
    if widx[d] == 0 then widx'[d] == 0
    else Matches(was, h, rkmap, Shape(Block(was, widx, d), oldest), Entries(h, widx'[d]))
  }

  lemma {:induction false} BlockRead(was: Buffer, widx: seq<nat>, oldest: map<nat, nat>, plan: seq<Tok>,
                                     newrk: map<nat, nat>, rkmap: map<nat, nat>,
                                     h1: Buffer, tip: Buffer, h2: Buffer, h: Buffer, starts: seq<nat>, widx': seq<nat>,
                                     d: nat)
    requires 1 <= d < |widx| && Stripped(plan, Shapes(was, widx, oldest, 1)) && AllPlaced(was, h1, tip, plan)
    requires |h1| > 0
    requires Grown(h1 + tip, h) && Written(h, |h2|, Fix(rkmap, |h1|, plan)) && Known(newrk, plan)
    requires rkmap.Keys == newrk.Keys
    requires forall rk :: rk in rkmap ==> rkmap[rk] > 0
    requires Starts(was, widx, oldest, starts, 1) && |widx'| == |widx|
    requires widx'[d] == if starts[d] != 0 then starts[d] + |h2| - 1 else 0
    ensures NewBlock(was, h, widx, widx', oldest, rkmap, d)
  {
    hide Shape, Shapes, Block, FlatLen, Placed, Grown, Written, Known, Fix, Fix1, At, StrAt, Entries;
    if widx[d] != 0 {
      var a, shape := |Shapes(was, widx, oldest, d + 1)|, Shape(Block(was, widx, d), oldest);
      PlanPart(was, widx, oldest, plan, d);
      KnownAll(newrk, plan);
      ShapeHasNoStop(Block(was, widx, d), oldest);
      forall k | a <= k < a + |shape| ensures !plan[k].Stop? && plan[k].rk in rkmap && rkmap[plan[k].rk] > 0 {
        assert Strip(plan[a + (k - a)]) == shape[k - a];
      }
      ReadBack(h, |h2|, rkmap, |h1|, plan, a, a + |shape|);
      var es := Entries(h, widx'[d]);
      assert widx'[d] == |h2| + 4 * FlatLen(plan[..a]);
      forall k | 0 <= k < |shape| ensures MatchesAt(was, h, rkmap, shape[k], es[k]) {
        assert Strip(plan[a + k]) == shape[k];
        assert es[(a + k) - a] == RefOf(rkmap, |h1|, plan[a + k]);
        TokenRead(was, h1, tip, h, rkmap, plan[a + k]);
      }
    }
  }

  lemma TokenRead(was: Buffer, h1: Buffer, tip: Buffer, h: Buffer, rkmap: map<nat, nat>, t: Tok)
    requires Placed(was, h1, tip, t) && |h1| > 0 && Grown(h1 + tip, h) && !t.Stop? && t.rk in rkmap
    ensures MatchesAt(was, h, rkmap, Strip(t), RefOf(rkmap, |h1|, t))
  {
    hide Placed, At, StrAt, Grown;
    if t.Entry? { FinalPlace(was, h1, tip, h, rkmap, t); }
  }

  lemma {:induction false} ShapeHasNoStop(ls: seq<Ref>, oldest: map<nat, nat>)
    ensures forall i :: 0 <= i < |Shape(ls, oldest)| ==> !Shape(ls, oldest)[i].Stop?
  {
    if ls != [] { ShapeHasNoStop(ls[..|ls| - 1], oldest); }
  }

  /** Moves the temporary starts to where the weave is. */
  method Rebase(starts: seq<nat>, base: nat) returns (widx: seq<nat>)
    requires base > 0 && |starts| >= 1
    ensures |widx| == |starts|
    ensures forall d :: 1 <= d < |starts| ==> widx[d] == if starts[d] != 0 then starts[d] + base - 1 else 0
  {
    widx := starts;
    for d := 1 to |starts|
      invariant |widx| == |starts|
      invariant forall e :: 1 <= e < d && e < |starts| ==> widx[e] == if starts[e] != 0 then starts[e] + base - 1 else 0
      invariant forall e :: d <= e < |starts| ==> widx[e] == starts[e]
    {
      if widx[d] != 0 { widx := widx[d := widx[d] + base - 1]; }
    }
  }

  lemma BuiltParts(was: Buffer, newrk: map<nat, nat>, rkeys: seq<nat>, plan: seq<Tok>, words: seq<nat>, tip: Buffer,
                   h: Buffer)
    requires Built(was, newrk, rkeys, plan, words, tip, h)
    ensures Numbered(newrk, rkeys) && words == Flat(newrk, plan) && TipsFirst(plan) && Known(newrk, plan)
    ensures AllPlaced(was, h, tip, plan)
  {
  }

  ghost function MapOf(newrk: map<nat, nat>, rkeys: seq<nat>, offs: seq<nat>): (rkmap: map<nat, nat>)
    requires Numbered(newrk, rkeys) && |offs| == |rkeys|
    ensures RkMap(newrk, offs, rkmap)
  {
    map rk | rk in newrk :: offs[newrk[rk] - 1]
  }

  lemma Growth(was: Buffer, comprk: seq<nat>, bamrk: seq<nat>, rkeys: seq<nat>, h0: Buffer, h1: Buffer, tip: Buffer,
               s0: Stage, s1: Stage, s2: Stage, s3: Stage, h: Buffer)
    requires Grown(h0, h1) && s0.buf == h1 + tip && RootkeysAdded(was, comprk, bamrk, rkeys, s0, s1, s2, s3)
    requires Grown(s3.buf, h)
    ensures Grown(h0, h) && Grown(h1 + tip, h)
  {
    hide StrAt;
    GrownTwice(s0.buf, s1.buf, s2.buf);
    GrownTwice(s0.buf, s2.buf, s3.buf);
    GrownTwice(s0.buf, s3.buf, h);
    assert Grown(h1, h1 + tip);
    GrownTwice(h0, h1, h1 + tip);
    GrownTwice(h0, h1 + tip, h);
  }

  /** A rootkey's new place is where the hash of unique strings has it. */
  lemma {:induction false} PlaceOf(was: Buffer, newrk: map<nat, nat>, rkeys: seq<nat>, offs: seq<nat>,
                                   rkmap: map<nat, nat>, uniq: map<Text, nat>, rk: nat)
    requires Numbered(newrk, rkeys) && RkMap(newrk, offs, rkmap) && |offs| == |rkeys| && rk in rkmap
    requires forall i :: 0 <= i < |rkeys| ==> StrAt(was, rkeys[i]) in uniq && offs[i] == uniq[StrAt(was, rkeys[i])]
    ensures rk in newrk && rk in rkeys && StrAt(was, rk) in uniq && rkmap[rk] == uniq[StrAt(was, rk)]
  {
    hide StrAt;
    var i := newrk[rk] - 1;
    assert rkeys[i] == rk;
  }

  lemma {:induction false} Relocation(was: Buffer, widx: seq<nat>, oldest: map<nat, nat>, newrk: map<nat, nat>,
                                      plan: seq<Tok>, rkeys: seq<nat>, offs: seq<nat>,
                                      rkmap: map<nat, nat>, ls: seq<Ref>, h5: Buffer, u5: map<Text, nat>, h6: Buffer)
    requires |widx| >= 1 && ls == Oldest(was, widx, |widx| - 1) && WeaveOk(was, ls)
    requires Stripped(plan, Shapes(was, widx, oldest, 1)) && Known(newrk, plan)
    requires Numbered(newrk, rkeys) && RkMap(newrk, offs, rkmap) && |offs| == |rkeys| && Unique(h5, u5) && Grown(h5, h6)
    requires forall i :: 0 <= i < |rkeys| ==> StrAt(was, rkeys[i]) in u5 && offs[i] == u5[StrAt(was, rkeys[i])]
    ensures Relocated(was, h6, ls, rkmap) && forall rk :: rk in rkmap ==> rkmap[rk] < |h5|
  {
    hide StrAt, At, Grown, Known, Numbered, Shapes, Stripped, Oldest, HasRk, WeaveOk;
    forall rk ensures rk in newrk <==> HasRk(ls, rk) { AllNumbered(was, widx, oldest, newrk, plan, rk); }
    forall rk | rk in rkmap ensures StrAt(was, rk) in u5 && rkmap[rk] == u5[StrAt(was, rk)] && 0 < rkmap[rk] < |h5| &&
      At(h6, rkmap[rk], StrAt(was, rk)) {
      PlaceOf(was, newrk, rkeys, offs, rkmap, u5, rk);
      UniqueAt(h5, u5, StrAt(was, rk));
      AtWithin(h5, rkmap[rk], StrAt(was, rk));
      AtGrown(h5, h6, rkmap[rk], StrAt(was, rk));
    }
    forall rk, rk' | rk in rkmap && rk' in rkmap && rk != rk' ensures rkmap[rk] != rkmap[rk'] {
      if rkmap[rk] == rkmap[rk'] {
        AtIsStr(h6, rkmap[rk], StrAt(was, rk));
        AtIsStr(h6, rkmap[rk'], StrAt(was, rk'));
        OnePlace(was, ls, rk, rk');
      }
    }
  }

  lemma AtWithin(h: Buffer, off: nat, s: Text)
    requires At(h, off, s)
    ensures off < |h|
  {
  }

  lemma OnePlace(was: Buffer, ls: seq<Ref>, rk: nat, rk': nat)
    requires WeaveOk(was, ls) && HasRk(ls, rk) && HasRk(ls, rk') && StrAt(was, rk) == StrAt(was, rk')
    ensures rk == rk'
  {
    hide StrAt, Ends;
    var i :| 0 <= i < |ls| && ls[i].rk == rk;
    var j :| 0 <= j < |ls| && ls[j].rk == rk';
    assert ls[i] in ls && ls[j] in ls;
  }

  lemma {:induction false} AllRead(was: Buffer, widx: seq<nat>, oldest: map<nat, nat>, plan: seq<Tok>,
                                   newrk: map<nat, nat>, rkmap: map<nat, nat>,
                                   h1: Buffer, tip: Buffer, h5: Buffer, h6: Buffer, starts: seq<nat>, widx': seq<nat>,
                                   words: seq<nat>, ls: seq<Ref>)
    requires |widx| >= 1 && Stripped(plan, Shapes(was, widx, oldest, 1)) && AllPlaced(was, h1, tip, plan) && |h1| > 0
    requires words == Fix(rkmap, |h1|, plan) && h6 == h5 + EncAll(words) && Grown(h1 + tip, h6) && |h6| <= LIMIT
    requires Known(newrk, plan) && rkmap.Keys == newrk.Keys && Relocated(was, h6, ls, rkmap)
    requires (forall rk :: rk in rkmap ==> rkmap[rk] < |h5|)
    requires Starts(was, widx, oldest, starts, 1) && |widx'| == |widx|
    requires forall d :: 1 <= d < |starts| ==> widx'[d] == if starts[d] != 0 then starts[d] + |h5| - 1 else 0
    ensures forall d :: 1 <= d < |widx| ==> NewBlock(was, h6, widx, widx', oldest, rkmap, d)
  {
    hide Stripped, Shapes, AllPlaced, Fix, EncAll, Grown, Known, NewBlock, StrAt, At, HasRk;
    FixBounded(was, h1, tip, h6, newrk, rkmap, plan);
    WrittenAt(h5, words);
    forall d | 1 <= d < |widx| ensures NewBlock(was, h6, widx, widx', oldest, rkmap, d) {
      BlockRead(was, widx, oldest, plan, newrk, rkmap, h1, tip, h5, h6, starts, widx', d);
    }
  }

  lemma SameRks(newrk: map<nat, nat>, offs: seq<nat>, rkmap: map<nat, nat>)
    requires RkMap(newrk, offs, rkmap)
    ensures rkmap.Keys == newrk.Keys
  {
  }

  lemma StartsSize(was: Buffer, widx: seq<nat>, oldest: map<nat, nat>, starts: seq<nat>)
    requires Starts(was, widx, oldest, starts, 1)
    ensures |starts| == |widx|
  {
  }

  // ---------- what it means ----------

  /** An entry as it is read, with its end marker if one follows. */
  datatype Marked = Marked(rk: nat, dk: nat, mark: bool)

  function ReadMarked(es: seq<Ref>): seq<Marked> {
    if es == [] then [] else
      var n := |es| - 1;
      if n > 0 && es[n].dk == 0 && es[n - 1].dk != 0 && es[n - 1].rk == es[n].rk
      then ReadMarked(es[..n - 1]) + [Marked(es[n - 1].rk, es[n - 1].dk, true)]
      else ReadMarked(es[..n]) + [Marked(es[n].rk, es[n].dk, false)]
  }

  function Unmarked(ms: seq<Marked>): seq<Ref> {
    seq(|ms|, k requires 0 <= k < |ms| => Ref(ms[k].rk, ms[k].dk))
  }

  /** Where every marker follows an entry of its rootkey, the entries read are the lines. */
  lemma {:induction false} ReadLines(es: seq<Ref>)
    requires forall k :: 0 <= k < |ReadMarked(es)| ==> ReadMarked(es)[k].dk != 0
    ensures Lines(es) == Unmarked(ReadMarked(es))
  {
    hide Unmarked;
    if es == [] {
      UnmarkedEmpty();
    } else {
      var n, out := |es| - 1, ReadMarked(es);
      var m := if n > 0 && es[n].dk == 0 && es[n - 1].dk != 0 && es[n - 1].rk == es[n].rk then n - 1 else n;
      var front := ReadMarked(es[..m]);
      assert out == front + [Marked(es[m].rk, es[m].dk, m < n)];
      forall k | 0 <= k < |front| ensures front[k].dk != 0 { assert front[k] == out[k]; }
      ReadLines(es[..m]);
      assert out[|front|].dk != 0;
      UnmarkedMore(front, out[|front|]);
      if m < n { assert es[..n][..n - 1] == es[..m]; }
    }
  }

  lemma UnmarkedEmpty()
    ensures Unmarked([]) == []
  {
  }

  lemma UnmarkedMore(front: seq<Marked>, e: Marked)
    ensures Unmarked(front + [e]) == Unmarked(front) + [Ref(e.rk, e.dk)]
  {
  }

  /** The entry out of the new heap is e, with a marker or not. */
  ghost predicate IsEntry(was: Buffer, h: Buffer, rkmap: map<nat, nat>, e: Ref, mark: bool, out: Marked) {
    e.rk in rkmap && out.rk == rkmap[e.rk] && out.dk != 0 && At(h, out.dk, StrAt(was, e.dk)) && (out.mark <==> mark)
  }

  ghost predicate IsOldest(oldest: map<nat, nat>, e: Ref) {
    e.rk in oldest && oldest[e.rk] == e.dk
  }

  /** The last entry, with or without an end marker, and what comes before it. */
  lemma {:induction false} LastEntry(was: Buffer, h: Buffer, rkmap: map<nat, nat>, ls: seq<Ref>, oldest: map<nat, nat>,
                                     es: seq<Ref>)
    requires ls != [] && Matches(was, h, rkmap, Shape(ls, oldest), es)
    ensures var n, m := |ls| - 1, |Shape(ls[..|ls| - 1], oldest)|;
            && m < |es| && Matches(was, h, rkmap, Shape(ls[..n], oldest), es[..m])
            && ReadMarked(es) == ReadMarked(es[..m]) + [Marked(es[m].rk, es[m].dk, IsOldest(oldest, ls[n]))]
            && MatchesAt(was, h, rkmap, Entry(ls[n].rk, ls[n].dk, false, 0), es[m])
  {
    hide MatchesAt;
    var n := |ls| - 1;
    var shape, all := Shape(ls[..n], oldest), Shape(ls, oldest);
    assert all == shape + LineShape(ls[n], oldest);
    var m := |shape|;
    forall i | 0 <= i < m ensures MatchesAt(was, h, rkmap, shape[i], es[..m][i]) { assert all[i] == shape[i]; }
    assert all[m] == Entry(ls[n].rk, ls[n].dk, false, 0);
    assert MatchesAt(was, h, rkmap, all[m], es[m]);
    EntryOrMark(was, h, rkmap, all[m], es[m]);
    if IsOldest(oldest, ls[n]) {
      assert MatchesAt(was, h, rkmap, all[m + 1], es[m + 1]);
      EntryOrMark(was, h, rkmap, all[m + 1], es[m + 1]);
      assert es[..m + 1][..m] == es[..m];
    }
  }

  lemma EntryOrMark(was: Buffer, h: Buffer, rkmap: map<nat, nat>, t: Tok, e: Ref)
    requires MatchesAt(was, h, rkmap, t, e)
    ensures (e.dk == 0 <==> t.Mark?) && t.rk in rkmap && e.rk == rkmap[t.rk]
  {
    hide At, StrAt;
  }

  /** The entries read are those of ls, in order, each marked if it is the oldest. */
  ghost predicate ReadsAs(was: Buffer, h: Buffer, rkmap: map<nat, nat>, ls: seq<Ref>, oldest: map<nat, nat>,
                          out: seq<Marked>) {
    && |out| == |ls|
    && forall k :: 0 <= k < |ls| ==> IsEntry(was, h, rkmap, ls[k], IsOldest(oldest, ls[k]), out[k])
  }

  lemma {:induction false} SameEntries(was: Buffer, h: Buffer, rkmap: map<nat, nat>, ls: seq<Ref>,
                                       oldest: map<nat, nat>, es: seq<Ref>)
    requires Matches(was, h, rkmap, Shape(ls, oldest), es)
    ensures ReadsAs(was, h, rkmap, ls, oldest, ReadMarked(es))
  {
    hide At, StrAt, ReadMarked;
    if ls == [] {
      ReadNothing();
    } else {
      hide Matches, Shape, IsOldest;
      LastEntry(was, h, rkmap, ls, oldest, es);
      var n := |ls| - 1;
      SameEntries(was, h, rkmap, ls[..n], oldest, es[..|Shape(ls[..n], oldest)|]);
    }
  }

  lemma ReadNothing()
    ensures ReadMarked([]) == []
  {
  }

  /** An entry is noted as the oldest exactly when it is the first of its rootkey. */
  lemma {:induction false} OldestIsFirst(was: Buffer, ls: seq<Ref>, oldest: map<nat, nat>, i: nat)
    requires WeaveOk(was, ls) && OldestOf(ls, oldest) && i < |ls|
    ensures IsOldest(oldest, ls[i]) <==> IsFirst(ls, i)
  {
    hide WeaveOk, IsFirst;
    var j := FirstAt(ls, i);
    if j < i { OwnDeltakey(was, ls, j, i); }
  }

  lemma OwnDeltakey(was: Buffer, ls: seq<Ref>, j: nat, i: nat)
    requires WeaveOk(was, ls) && j < i < |ls| && ls[j].rk == ls[i].rk
    ensures ls[j].dk != ls[i].dk && !IsFirst(ls, i)
  {
  }

  lemma {:induction false} FirstAt(ls: seq<Ref>, i: nat) returns (j: nat)
    requires i < |ls|
    ensures j <= i && ls[j].rk == ls[i].rk && IsFirst(ls, j)
    decreases i
  {
    if IsFirst(ls, i) {
      j := i;
    } else {
      var k: nat :| k < i && ls[k].rk == ls[i].rk;
      j := FirstAt(ls, k);
    }
  }

  /** Entry k of delta d has an older entry of its rootkey: in an older delta, or before it. */
  ghost predicate HasOlder(was: Buffer, widx: seq<nat>, d: nat, k: nat)
    requires 1 <= d < |widx| && k < |Block(was, widx, d)|
  {
    var ls := Block(was, widx, d);
    HasRk(Oldest(was, widx, d - 1), ls[k].rk) || HasRk(ls[..k], ls[k].rk)
  }

  lemma {:induction false} OldestPrefix(was: Buffer, widx: seq<nat>, d: nat, n: nat)
    requires d <= n < |widx|
    ensures var a, b := Oldest(was, widx, d), Oldest(was, widx, n); |a| <= |b| && b[..|a|] == a
    decreases n
  {
    hide Block;
    var a, b := Oldest(was, widx, d), Oldest(was, widx, n);
    if d < n {
      OldestPrefix(was, widx, d, n - 1);
      var c := Oldest(was, widx, n - 1);
      assert b[..|c|] == c;
      assert b[..|a|] == b[..|c|][..|a|];
    } else {
      assert b[..|a|] == a;
    }
  }

  lemma {:induction false} NotedIsOldest(was: Buffer, widx: seq<nat>, oldest: map<nat, nat>, d: nat, k: nat)
    requires 1 <= d < |widx| && k < |Block(was, widx, d)|
    requires var all := Oldest(was, widx, |widx| - 1); WeaveOk(was, all) && OldestOf(all, oldest)
    ensures IsOldest(oldest, Block(was, widx, d)[k]) <==> !HasOlder(was, widx, d, k)
  {
    hide Block, Oldest, WeaveOk, OldestOf, HasRk, IsFirst, IsOldest;
    var all, a, ls := Oldest(was, widx, |widx| - 1), Oldest(was, widx, d - 1), Block(was, widx, d);
    OldestPrefix(was, widx, d, |widx| - 1);
    OldestTop(was, widx, d);
    var i := |a| + k;
    assert all[i] == all[..|a + ls|][i] == (a + ls)[i] == ls[k];
    OldestIsFirst(was, all, oldest, i);
    assert all[..i] == all[..|a + ls|][..i] == (a + ls)[..i] == a + ls[..k];
    FirstMeans(all, i);
    InEither(a, ls[..k], ls[k].rk);
  }

  lemma OldestTop(was: Buffer, widx: seq<nat>, d: nat)
    requires 1 <= d < |widx|
    ensures Oldest(was, widx, d) == Oldest(was, widx, d - 1) + Block(was, widx, d)
  {
    hide Block;
  }

  lemma FirstMeans(ls: seq<Ref>, i: nat)
    requires i < |ls|
    ensures IsFirst(ls, i) <==> !HasRk(ls[..i], ls[i].rk)
  {
    forall j | 0 <= j < i ensures ls[..i][j] == ls[j] { }
  }

  /** Delta d reads in the new heap the keys it read in the old one, in the same order, and an
      entry is followed by a marker exactly when it is the oldest of its rootkey. */
  ghost predicate DeltaKept(was: Buffer, h: Buffer, widx: seq<nat>, widx': seq<nat>, rkmap: map<nat, nat>, d: nat)
    requires 1 <= d < |widx| == |widx'|
  {
    var ls, es := Block(was, widx, d), Entries(h, widx'[d]);
    var out := ReadMarked(es);
    if widx[d] == 0 then widx'[d] == 0 else
      && Lines(es) == Unmarked(out) && |out| == |ls|
      && forall k: nat :: k < |ls| ==> IsEntry(was, h, rkmap, ls[k], !HasOlder(was, widx, d, k), out[k])
  }

  lemma {:induction false} KeepsDelta(was: Buffer, h: Buffer, widx: seq<nat>, widx': seq<nat>, oldest: map<nat, nat>,
                                      rkmap: map<nat, nat>, d: nat)
    requires 1 <= d < |widx| == |widx'| && NewBlock(was, h, widx, widx', oldest, rkmap, d)
    requires var all := Oldest(was, widx, |widx| - 1); WeaveOk(was, all) && OldestOf(all, oldest)
    ensures DeltaKept(was, h, widx, widx', rkmap, d)
  {
    hide Block, Oldest, WeaveOk, OldestOf, HasOlder, Entries, ReadMarked, Matches, Shape, At, StrAt;
    if widx[d] != 0 {
      var ls := Block(was, widx, d);
      SameEntries(was, h, rkmap, ls, oldest, Entries(h, widx'[d]));
      forall k: nat | k < |ls| ensures IsOldest(oldest, ls[k]) <==> !HasOlder(was, widx, d, k) {
        NotedIsOldest(was, widx, oldest, d, k);
      }
      ReadLines(Entries(h, widx'[d]));
    }
  }

  /** Rewrites the weave from the old heap into the new one. */
  method RepackWeave(heap: DataHeap, was: Buffer, widx: seq<nat>, kinds: Kinds)
    returns (widx': seq<nat>, comp: nat, bam: nat, ghost rkmap: map<nat, nat>)
    requires heap.Valid() && |widx| >= 1 && WeaveOk(was, Oldest(was, widx, |widx| - 1))
    modifies heap
    ensures heap.Valid() && Grown(old(heap.buf), heap.buf)
    ensures Relocated(was, heap.buf, Oldest(was, widx, |widx| - 1), rkmap) && |widx'| == |widx|
    ensures |heap.buf| <= LIMIT ==> forall d :: 1 <= d < |widx| ==> DeltaKept(was, heap.buf, widx, widx', rkmap, d)
    ensures forall rk, packed: nat :: rk in rkmap && |heap.buf| <= packed ==>
      (TestsAgree(rkmap[rk], comp, bam, packed, kinds, StrAt(was, rk)) <==>
        StrAt(was, rk) !in old(heap.uniq) || kinds.Comp(StrAt(was, rk)))
  {
    hide WeaveOk, Oldest, OldestOf, Sorted, Starts, Built, Stripped, Unique, Grown, Added, Relocated, NewBlock,
         DeltaKept, StrAt, At,
         TestsAgree, EncAll, Fix, Flat, Known, TipsFirst, Numbered, RkMap, AllPlaced, HasRk, RootkeysAdded;
    ghost var ls, h0, u0 := Oldest(was, widx, |widx| - 1), heap.buf, heap.uniq;
    var oldest, comprk, bamrk := OldestKeys(was, widx, kinds);
    var starts, newrk, rkeys, words, tip;
    ghost var plan;
    starts, newrk, rkeys, words, tip, plan := BuildWeave(heap, was, widx, oldest);
    BuiltParts(was, newrk, rkeys, plan, words, tip, heap.buf);
    // the deltakeys of the tips
    var tipstart := |heap.buf|;
    ghost var h1 := heap.buf;
    heap.Append(tip);
    ghost var s0 := Stage(heap.buf, heap.uniq);
    // the rootkeys: components, BAM files, and the others
    var offs := AddRootkeys(heap, was, comprk);
    comp := |heap.buf|;
    ghost var s1 := Stage(heap.buf, heap.uniq);
    offs := AddRootkeys(heap, was, bamrk);
    bam := |heap.buf|;
    ghost var s2 := Stage(heap.buf, heap.uniq);
    offs := AddRootkeys(heap, was, rkeys);
    ghost var s3 := Stage(heap.buf, heap.uniq);
    AllAdded(was, comprk, bamrk, rkeys, s0, s1, s2, s3);
    rkmap := MapOf(newrk, rkeys, offs);
    SameRks(newrk, offs, rkmap);
    StartsSize(was, widx, oldest, starts);
    widx' := Rebase(starts, |heap.buf|);
    words := FixUp(words, offs, tipstart, newrk, rkeys, rkmap, plan);
    heap.Append(EncAll(words));
    Growth(was, comprk, bamrk, rkeys, h0, h1, tip, s0, s1, s2, s3, heap.buf);
    Relocation(was, widx, oldest, newrk, plan, rkeys, offs, rkmap, ls, s3.buf, s3.uniq, heap.buf);
    if |heap.buf| <= LIMIT {
      AllRead(was, widx, oldest, plan, newrk, rkmap, h1, tip, s3.buf, heap.buf, starts, widx', words, ls);
      forall d | 1 <= d < |widx| ensures DeltaKept(was, heap.buf, widx, widx', rkmap, d) {
        KeepsDelta(was, heap.buf, widx, widx', oldest, rkmap, d);
      }
    }
    GrownSize(s3.buf, heap.buf);
    forall rk, packed: nat | rk in rkmap && |heap.buf| <= packed
      ensures TestsAgree(rkmap[rk], comp, bam, packed, kinds, StrAt(was, rk)) <==>
        StrAt(was, rk) !in u0 || kinds.Comp(StrAt(was, rk))
    {
      PlaceOf(was, newrk, rkeys, offs, rkmap, s3.uniq, rk);
      AllNumbered(was, widx, oldest, newrk, plan, rk);
      RangeTests(was, ls, kinds, comprk, bamrk, rkeys, rk, s0, s1, s2, s3, packed);
    }
  }

  lemma AllAdded(was: Buffer, comprk: seq<nat>, bamrk: seq<nat>, rkeys: seq<nat>, s0: Stage, s1: Stage, s2: Stage,
                 s3: Stage)
    requires Added(was, comprk, s0, s1) && Added(was, bamrk, s1, s2) && Added(was, rkeys, s2, s3)
    ensures RootkeysAdded(was, comprk, bamrk, rkeys, s0, s1, s2, s3)
    ensures forall i :: 0 <= i < |rkeys| ==> StrAt(was, rkeys[i]) in s3.uniq
  {
    hide StrAt;
  }

  lemma GrownSize(h: Buffer, h': Buffer)
    requires Grown(h, h')
    ensures |h| <= |h'|
  {
  }
}
