/** src/dataheap.c: rewriting the heap so that what is used together is together.

    The strings of the delta table and of the symbols are copied from the old heap to a new
    one, the newest deltas first and the rest field by field, and every offset is replaced. */
module HeapRepack {
  import opened Weave
  import opened Heap

  // ---------- the fields of a delta ----------

  const CLUDES := 0
  const BAMHASH := 1
  const RANDOM := 2
  const USERHOST := 3
  const PATHNAME := 4
  const SORTPATH := 5
  const ZONE := 6
  const SYMLINK := 7
  const CSETFILE := 8
  const COMMENTS := 9
  const FIELDS := 10

  /** The offsets of the strings of the deltas, by serial and field; slot 0 is unused. */
  type Table = seq<seq<nat>>

  predicate Shared(f: nat) {
    f == USERHOST || f == PATHNAME || f == SORTPATH || f == ZONE || f == SYMLINK || f == CSETFILE
  }

  /** A ChangeSet file has no BAM hashes. */
  function Together(cset: bool): seq<nat> {
    [CLUDES] + (if cset then []
      else [BAMHASH]) + [RANDOM, USERHOST, PATHNAME, SORTPATH, ZONE, SYMLINK, CSETFILE, COMMENTS]
  }

  /** Field by field, what synchronising keys needs first; comments come after the symbols. */
  function ByField(cset: bool): seq<nat> {
    [RANDOM, PATHNAME, SORTPATH, ZONE, SYMLINK, CSETFILE, USERHOST, CLUDES] + (if cset then [] else [BAMHASH])
  }

  ghost predicate Distinct(fs: seq<nat>) {
    forall i, j :: 0 <= i < j < |fs| ==> fs[i] != fs[j]
  }

  /** The strings that are not shared. */
  lemma NotShared(f: nat)
    requires f < FIELDS
    ensures !Shared(f) <==> f == CLUDES || f == BAMHASH || f == RANDOM || f == COMMENTS
  {
  }

  /** Both orders have every field once; a ChangeSet file has no BAM hashes. */
  lemma SameFields(cset: bool)
    ensures forall f: nat :: f < FIELDS ==> (f in Together(cset) <==> !(cset && f == BAMHASH))
    ensures Distinct(Together(cset)) && Distinct(ByField(cset)) && COMMENTS !in ByField(cset)
    ensures forall f :: f in Together(cset) <==> f in ByField(cset) || f == COMMENTS
    ensures forall f :: f in Together(cset) ==> f < FIELDS
  {
  }

  ghost predicate Shaped(t: Table) {
    forall d :: 0 <= d < |t| ==> |t[d]| == FIELDS
  }

  ghost predicate Strings(was: Buffer, t: Table) {
    forall d, f :: 0 <= d < |t| && 0 <= f < |t[d]| && t[d][f] != 0 ==> Ends(was, t[d][f])
  }

  function Put(t: Table, d: nat, f: nat, n: nat): Table
    requires d < |t| && f < |t[d]|
  {
    var row: seq<nat> := t[d][f := n];
    t[d := row]
  }

  /** The offset n in the new heap stands for the string that o stood for in the old one. */
  ghost predicate Moved(was: Buffer, o: nat, h: Buffer, n: nat) {
    if o == 0 then n == 0 else n != 0 && At(h, n, StrAt(was, o))
  }

  /** The fields in done were moved, the others not. */
  ghost predicate Repacked(was: Buffer, t0: Table, t: Table, h: Buffer, done: set<(nat, nat)>) {
    && |t| == |t0| && Shaped(t0) && Shaped(t)
    && forall d: nat, f: nat :: d < |t0| && f < FIELDS ==>
      if (d, f) in done then Moved(was, t0[d][f], h, t[d][f]) else t[d][f] == t0[d][f]
  }

  lemma MovedGrown(was: Buffer, o: nat, h: Buffer, h': Buffer, n: nat)
    requires Moved(was, o, h, n) && Grown(h, h')
    ensures Moved(was, o, h', n)
  {
    if o != 0 { AtGrown(h, h', n, StrAt(was, o)); }
  }

  lemma {:induction false} RepackedGrown(was: Buffer, t0: Table, t: Table, h: Buffer, h': Buffer, done: set<(nat, nat)>)
    requires Repacked(was, t0, t, h, done) && Grown(h, h')
    ensures Repacked(was, t0, t, h', done)
  {
    hide Moved, Grown;
    forall d: nat, f: nat | d < |t0| && f < FIELDS && (d, f) in done ensures Moved(was, t0[d][f], h', t[d][f]) {
      MovedGrown(was, t0[d][f], h, h', t[d][f]);
    }
  }

  lemma {:induction false} RepackedMore(was: Buffer, t0: Table, t: Table, h: Buffer, done: set<(nat, nat)>, d: nat,
                                        f: nat, n: nat)
    requires Repacked(was, t0, t, h, done) && d < |t| && f < FIELDS && Moved(was, t0[d][f], h, n)
    ensures Repacked(was, t0, Put(t, d, f, n), h, done + {(d, f)})
  {
    hide Moved;
  }

  /** A shared field among done has the text s. */
  ghost predicate SharedText(was: Buffer, t: Table, done: set<(nat, nat)>, s: Text) {
    exists d: nat, f: nat ::
      (d, f) in done && d < |t| && f < |t[d]| && Shared(f) && t[d][f] != 0 && StrAt(was, t[d][f]) == s
  }

  /** From u to u' the unique strings gained the shared texts of what was moved meanwhile. */
  ghost predicate Gains(was: Buffer, t: Table, u: map<Text, nat>, done: set<(nat, nat)>, u': map<Text, nat>,
                        done': set<(nat, nat)>) {
    done <= done' && forall s :: s in u' <==> s in u || SharedText(was, t, done' - done, s)
  }

  lemma GainsNothing(was: Buffer, t: Table, u: map<Text, nat>, done: set<(nat, nat)>)
    ensures Gains(was, t, u, done, u, done)
  {
  }

  lemma {:induction false} GainsTwice(was: Buffer, t: Table, u: map<Text, nat>, done: set<(nat, nat)>,
                                      u1: map<Text, nat>, done1: set<(nat, nat)>,
                                      u2: map<Text, nat>, done2: set<(nat, nat)>)
    requires Gains(was, t, u, done, u1, done1) && Gains(was, t, u1, done1, u2, done2)
    ensures Gains(was, t, u, done, u2, done2)
  {
    hide SharedText;
    forall s ensures SharedText(was, t, done2 - done, s) <==>
      SharedText(was, t, done1 - done, s) || SharedText(was, t, done2 - done1, s) {
      SharedEither(was, t, done1 - done, done2 - done1, done2 - done, s);
    }
  }

  lemma SharedEither(was: Buffer, t: Table, a: set<(nat, nat)>, b: set<(nat, nat)>, c: set<(nat, nat)>, s: Text)
    requires c == a + b
    ensures SharedText(was, t, c, s) <==> SharedText(was, t, a, s) || SharedText(was, t, b, s)
  {
    hide StrAt;
  }

  lemma GainsField(was: Buffer, t: Table, u: map<Text, nat>, done: set<(nat, nat)>, u': map<Text, nat>, d: nat, f: nat)
    requires d < |t| && f < |t[d]| && (d, f) !in done
    requires u'.Keys == u.Keys + if Shared(f) && t[d][f] != 0 then {StrAt(was, t[d][f])} else {}
    ensures Gains(was, t, u, done, u', done + {(d, f)})
  {
    hide StrAt;
    assert done + {(d, f)} - done == {(d, f)};
    assert (d, f) in {(d, f)};
  }

  // ---------- copying ----------

  /** Copies one string to the new heap. */
  method Copy(heap: DataHeap, was: Buffer, o: nat, share: bool) returns (n: nat)
    requires heap.Valid() && (o != 0 ==> Ends(was, o))
    modifies heap
    ensures heap.Valid() && Grown(old(heap.buf), heap.buf) && Moved(was, o, heap.buf, n)
    ensures heap.uniq.Keys == old(heap.uniq.Keys) + if share && o != 0 then {StrAt(was, o)} else {}
  {
    hide At, Unique, StrAt;
    if o == 0 { return 0; }
    if share {
      n := heap.AddUniqStr(StrAt(was, o));
    } else {
      n := heap.AddStr(StrAt(was, o));
    }
  }

  /** Moves field f of delta d. */
  method MoveField(heap: DataHeap, was: Buffer, t: Table, d: nat, f: nat, ghost t0: Table, ghost done: set<(nat, nat)>)
    returns (t': Table)
    requires heap.Valid() && Strings(was, t0) && Repacked(was, t0, t, heap.buf, done) && d < |t| && f < FIELDS
    requires (d, f) !in done
    modifies heap
    ensures heap.Valid() && Grown(old(heap.buf), heap.buf) && Repacked(was, t0, t', heap.buf, done + {(d, f)})
    ensures Gains(was, t0, old(heap.uniq), done, heap.uniq, done + {(d, f)})
  {
    hide Moved, Ends, Grown, Unique, Gains, StrAt;
    ghost var before := heap.buf;
    FieldOf(was, t0, t, heap.buf, done, d, f);
    var n := Copy(heap, was, t[d][f], Shared(f));
    RepackedGrown(was, t0, t, before, heap.buf, done);
    RepackedMore(was, t0, t, heap.buf, done, d, f, n);
    GainsField(was, t0, old(heap.uniq), done, heap.uniq, d, f);
    t' := Put(t, d, f, n);
  }

  lemma FieldOf(was: Buffer, t0: Table, t: Table, h: Buffer, done: set<(nat, nat)>, d: nat, f: nat)
    requires Repacked(was, t0, t, h, done) && Strings(was, t0) && d < |t| && f < FIELDS && (d, f) !in done
    ensures |t[d]| == FIELDS && d < |t0| && |t0[d]| == FIELDS && t[d][f] == t0[d][f]
    ensures (t[d][f] != 0 ==> Ends(was, t[d][f]))
  {
  }

  /** Moves several fields of a delta. */
  method MoveDelta(heap: DataHeap, was: Buffer, t: Table, d: nat, fs: seq<nat>, ghost t0: Table,
                   ghost done: set<(nat, nat)>)
    returns (t': Table, ghost done': set<(nat, nat)>)
    requires heap.Valid() && Strings(was, t0) && Repacked(was, t0, t, heap.buf, done) && d < |t|
    requires Distinct(fs) && forall f :: f in fs ==> f < FIELDS && (d, f) !in done
    modifies heap
    ensures heap.Valid() && Grown(old(heap.buf), heap.buf) && Repacked(was, t0, t', heap.buf, done')
    ensures Gains(was, t0, old(heap.uniq), done, heap.uniq, done')
    ensures forall e: nat, f: nat :: (e, f) in done' <==> (e, f) in done || (e == d && f in fs)
  {
    hide Repacked, Strings, Grown, Unique, Gains;
    t', done' := t, done;
    GainsNothing(was, t0, heap.uniq, done);
    SizeOf(was, t0, t, heap.buf, done);
    StaysGrown(heap.buf);
    for i := 0 to |fs|
      invariant heap.Valid() && Grown(old(heap.buf), heap.buf) && Repacked(was, t0, t', heap.buf, done') && |t'| == |t|
      invariant Gains(was, t0, old(heap.uniq), done, heap.uniq, done')
      invariant forall e: nat, f: nat :: (e, f) in done' <==> (e, f) in done || (e == d && f in fs[..i])
    {
      assert fs[i] in fs && fs[i] !in fs[..i];
      ghost var before, u1, d1 := heap.buf, heap.uniq, done';
      t' := MoveField(heap, was, t', d, fs[i], t0, done');
      done' := done' + {(d, fs[i])};
      GainsTwice(was, t0, old(heap.uniq), done, u1, d1, heap.uniq, done');
      GrownTwice(old(heap.buf), before, heap.buf);
      SizeOf(was, t0, t', heap.buf, done');
      assert fs[..i + 1] == fs[..i] + [fs[i]];
    }
    assert fs[..|fs|] == fs;
  }

  lemma SizeOf(was: Buffer, t0: Table, t: Table, h: Buffer, done: set<(nat, nat)>)
    requires Repacked(was, t0, t, h, done)
    ensures |t| == |t0|
  {
  }

  lemma StaysGrown(h: Buffer)
    ensures Grown(h, h)
  {
  }

  /** Moves one field of the deltas up to ds, newest first. */
  method MoveColumn(heap: DataHeap, was: Buffer, t: Table, ds: nat, f: nat, ghost t0: Table,
                    ghost done: set<(nat, nat)>)
    returns (t': Table, ghost done': set<(nat, nat)>)
    requires heap.Valid() && Strings(was, t0) && Repacked(was, t0, t, heap.buf, done) && ds < |t|
    requires f < FIELDS && forall d: nat :: 1 <= d <= ds ==> (d, f) !in done
    modifies heap
    ensures heap.Valid() && Grown(old(heap.buf), heap.buf) && Repacked(was, t0, t', heap.buf, done')
    ensures Gains(was, t0, old(heap.uniq), done, heap.uniq, done')
    ensures forall e: nat, g: nat :: (e, g) in done' <==> (e, g) in done || (g == f && 1 <= e <= ds)
  {
    hide Repacked, Strings, Grown, Unique, Gains;
    t', done' := t, done;
    GainsNothing(was, t0, heap.uniq, done);
    SizeOf(was, t0, t, heap.buf, done);
    StaysGrown(heap.buf);
    var d := ds;
    while d >= 1
      invariant 0 <= d <= ds && heap.Valid() && Grown(old(heap.buf), heap.buf) && Repacked(was, t0, t', heap.buf, done')
      invariant |t'| == |t|
      invariant Gains(was, t0, old(heap.uniq), done, heap.uniq, done')
      invariant forall e: nat, g: nat :: (e, g) in done' <==> (e, g) in done || (g == f && d < e <= ds)
    {
      ghost var before, u1, d1 := heap.buf, heap.uniq, done';
      t' := MoveField(heap, was, t', d, f, t0, done');
      done' := done' + {(d, f)};
      GainsTwice(was, t0, old(heap.uniq), done, u1, d1, heap.uniq, done');
      GrownTwice(old(heap.buf), before, heap.buf);
      SizeOf(was, t0, t', heap.buf, done');
      d := d - 1;
    }
  }

  /** The symbols name what they named. */
  ghost predicate SymbolsMoved(was: Buffer, syms: seq<nat>, h: Buffer, syms': seq<nat>, n: nat) {
    && |syms'| == |syms| && n <= |syms|
    && (forall i :: 0 <= i < n ==> At(h, syms'[i], StrAt(was, syms[i])))
    && (forall i :: n <= i < |syms| ==> syms'[i] == syms[i])
  }

  lemma SymbolsGrown(was: Buffer, syms: seq<nat>, h: Buffer, h': Buffer, syms': seq<nat>, n: nat)
    requires SymbolsMoved(was, syms, h, syms', n) && Grown(h, h')
    ensures SymbolsMoved(was, syms, h', syms', n)
  {
    hide At, Grown;
    forall i | 0 <= i < n ensures At(h', syms'[i], StrAt(was, syms[i])) {
      AtGrown(h, h', syms'[i], StrAt(was, syms[i]));
    }
  }

  ghost predicate SymbolText(was: Buffer, syms: seq<nat>, s: Text) {
    exists i :: 0 <= i < |syms| && StrAt(was, syms[i]) == s
  }

  lemma SymbolTexts(was: Buffer, syms: seq<nat>, i: nat)
    requires i < |syms|
    ensures forall s :: SymbolText(was, syms[..i + 1], s) <==> SymbolText(was, syms[..i], s) || s == StrAt(was, syms[i])
  {
    hide StrAt;
    var a, b := syms[..i], syms[..i + 1];
    assert b == a + [syms[i]];
    assert b[i] == syms[i];
    forall s | SymbolText(was, a, s) ensures SymbolText(was, b, s) {
      var k :| 0 <= k < |a| && StrAt(was, a[k]) == s;
      assert b[k] == a[k];
    }
  }

  method MoveSymbols(heap: DataHeap, was: Buffer, syms: seq<nat>) returns (syms': seq<nat>)
    requires heap.Valid() && forall i :: 0 <= i < |syms| ==> Ends(was, syms[i])
    modifies heap
    ensures heap.Valid() && Grown(old(heap.buf), heap.buf) && SymbolsMoved(was, syms, heap.buf, syms', |syms|)
    ensures forall s :: s in heap.uniq <==> s in old(heap.uniq) || SymbolText(was, syms, s)
  {
    hide Unique, Grown, At, StrAt;
    syms' := syms;
    StaysGrown(heap.buf);
    for i := 0 to |syms|
      invariant heap.Valid() && Grown(old(heap.buf), heap.buf) && SymbolsMoved(was, syms, heap.buf, syms', i)
      invariant forall s :: s in heap.uniq <==> s in old(heap.uniq) || SymbolText(was, syms[..i], s)
    {
      SymbolTexts(was, syms, i);
      ghost var before := heap.buf;
      var n := heap.AddUniqStr(StrAt(was, syms[i]));
      SymbolsGrown(was, syms, before, heap.buf, syms', i);
      GrownTwice(old(heap.buf), before, heap.buf);
      syms' := syms'[i := n];
    }
    assert syms[..|syms|] == syms;
  }

  /** The deltas that fit into one swap block, newest first: all of a delta together. */
  method MoveBlock(heap: DataHeap, was: Buffer, t: Table, cset: bool, swapsz: nat)
    returns (t': Table, ds: nat, ghost done: set<(nat, nat)>)
    requires heap.Valid() && |t| >= 1 && Shaped(t) && Strings(was, t)
    modifies heap
    ensures heap.Valid() && Grown(old(heap.buf), heap.buf) && Repacked(was, t, t', heap.buf, done) && ds < |t|
    ensures Gains(was, t, old(heap.uniq), {}, heap.uniq, done)
    ensures forall e: nat, f: nat :: (e, f) in done <==> ds < e < |t| && f in Together(cset)
    ensures ds > 0 ==> |heap.buf| > swapsz
  {
    hide Repacked, Strings, Grown, Unique, Together, Distinct, Gains;
    t', done := t, {};
    GainsNothing(was, t, heap.uniq, {});
    NothingMoved(was, t, heap.buf);
    StaysGrown(heap.buf);
    SameFields(cset);
    var d := |t| - 1;
    while d >= 1 && |heap.buf| <= swapsz
      invariant 0 <= d < |t| && heap.Valid() && Grown(old(heap.buf), heap.buf) && Repacked(was, t, t', heap.buf, done)
      invariant |t'| == |t|
      invariant Gains(was, t, old(heap.uniq), {}, heap.uniq, done)
      invariant forall e: nat, f: nat :: (e, f) in done <==> d < e < |t| && f in Together(cset)
    {
      ghost var before, u1, d1 := heap.buf, heap.uniq, done;
      t', done := MoveDelta(heap, was, t', d, Together(cset), t, done);
      GainsTwice(was, t, old(heap.uniq), {}, u1, d1, heap.uniq, done);
      GrownTwice(old(heap.buf), before, heap.buf);
      SizeOf(was, t, t', heap.buf, done);
      d := d - 1;
    }
    ds := d;
  }

  lemma NothingMoved(was: Buffer, t: Table, h: Buffer)
    requires Shaped(t)
    ensures Repacked(was, t, t, h, {})
  {
  }

  /** The rest, field by field. */
  method MoveRest(heap: DataHeap, was: Buffer, t: Table, ds: nat, fs: seq<nat>, ghost t0: Table,
                  ghost done: set<(nat, nat)>)
    returns (t': Table, ghost done': set<(nat, nat)>)
    requires heap.Valid() && Strings(was, t0) && Repacked(was, t0, t, heap.buf, done) && ds < |t| && Distinct(fs)
    requires forall f :: f in fs ==> f < FIELDS
    requires forall d: nat, f: nat :: 1 <= d <= ds && f in fs ==> (d, f) !in done
    modifies heap
    ensures heap.Valid() && Grown(old(heap.buf), heap.buf) && Repacked(was, t0, t', heap.buf, done')
    ensures Gains(was, t0, old(heap.uniq), done, heap.uniq, done')
    ensures forall e: nat, f: nat :: (e, f) in done' <==> (e, f) in done || (f in fs && 1 <= e <= ds)
  {
    hide Repacked, Strings, Grown, Unique, Gains;
    t', done' := t, done;
    GainsNothing(was, t0, heap.uniq, done);
    SizeOf(was, t0, t, heap.buf, done);
    StaysGrown(heap.buf);
    for i := 0 to |fs|
      invariant heap.Valid() && Grown(old(heap.buf), heap.buf) && Repacked(was, t0, t', heap.buf, done') && |t'| == |t|
      invariant Gains(was, t0, old(heap.uniq), done, heap.uniq, done')
      invariant forall e: nat, f: nat :: (e, f) in done' <==> (e, f) in done || (f in fs[..i] && 1 <= e <= ds)
    {
      assert fs[i] in fs && fs[i] !in fs[..i];
      ghost var before, u1, d1 := heap.buf, heap.uniq, done';
      t', done' := MoveColumn(heap, was, t', ds, fs[i], t0, done');
      GainsTwice(was, t0, old(heap.uniq), done, u1, d1, heap.uniq, done');
      GrownTwice(old(heap.buf), before, heap.buf);
      SizeOf(was, t0, t', heap.buf, done');
      assert fs[..i + 1] == fs[..i] + [fs[i]];
    }
    assert fs[..|fs|] == fs;
  }

  ghost predicate FieldText(was: Buffer, t: Table, cset: bool, s: Text) {
    exists d: nat, f: nat ::
      1 <= d < |t| && f in Together(cset) && f < |t[d]| && Shared(f) && t[d][f] != 0 && StrAt(was, t[d][f]) == s
  }

  /** s is the text of a shared field of a delta or the name of a symbol. */
  ghost predicate SharedWith(was: Buffer, t: Table, syms: seq<nat>, cset: bool, s: Text) {
    SymbolText(was, syms, s) || FieldText(was, t, cset, s)
  }

  /** Every string of the table and every symbol reads the same in the new heap. */
  method RepackTable(heap: DataHeap, was: Buffer, t: Table, syms: seq<nat>, cset: bool, swapsz: nat)
    returns (t': Table, syms': seq<nat>)
    requires heap.Valid() && |t| >= 1 && Shaped(t) && Strings(was, t)
    requires forall i :: 0 <= i < |syms| ==> Ends(was, syms[i])
    modifies heap
    ensures heap.Valid() && Grown(old(heap.buf), heap.buf) && |t'| == |t| && Shaped(t')
    ensures forall d: nat, f: nat :: 1 <= d < |t| && f < FIELDS ==>
      if f in Together(cset) then Moved(was, t[d][f], heap.buf, t'[d][f]) else t'[d][f] == t[d][f]
    ensures SymbolsMoved(was, syms, heap.buf, syms', |syms|)
    ensures forall s :: s in heap.uniq <==> s in old(heap.uniq) || SharedWith(was, t, syms, cset, s)
  {
    hide Repacked, Strings, Grown, Unique, Together, ByField, Distinct, SymbolsMoved, Ends, Gains, SharedWith,
         SharedText, SymbolText;
    SameFields(cset);
    var ds;
    ghost var done;
    t', ds, done := MoveBlock(heap, was, t, cset, swapsz);
    SizeOf(was, t, t', heap.buf, done);
    ghost var b1, u1, d1 := heap.buf, heap.uniq, done;
    t', done := MoveRest(heap, was, t', ds, ByField(cset), t, done);
    ghost var b2, u2, d2 := heap.buf, heap.uniq, done;
    GainsTwice(was, t, old(heap.uniq), {}, u1, d1, u2, d2);
    GrownTwice(old(heap.buf), b1, b2);
    syms' := MoveSymbols(heap, was, syms);
    ghost var b3, u3 := heap.buf, heap.uniq;
    GrownTwice(old(heap.buf), b2, b3);
    RepackedGrown(was, t, t', b2, b3, done);
    SizeOf(was, t, t', heap.buf, done);
    t', done := MoveColumn(heap, was, t', ds, COMMENTS, t, done);
    SymbolsGrown(was, syms, b3, heap.buf, syms', |syms|);
    GrownTwice(old(heap.buf), b3, heap.buf);
    AllMoved(was, t, t', heap.buf, done);
    AllShared(was, t, syms, cset, old(heap.uniq), u2, d2, u3, heap.uniq, done);
  }

  /** The unique strings are the shared texts of the table and the names of the symbols. */
  lemma {:induction false} AllShared(was: Buffer, t: Table, syms: seq<nat>, cset: bool, u: map<Text, nat>,
                                     u2: map<Text, nat>, d2: set<(nat, nat)>,
                                     u3: map<Text, nat>, u4: map<Text, nat>, d4: set<(nat, nat)>)
    requires Gains(was, t, u, {}, u2, d2) && Gains(was, t, u3, d2, u4, d4)
    requires forall s :: s in u3 <==> s in u2 || SymbolText(was, syms, s)
    requires forall e: nat, f: nat :: (e, f) in d4 <==> 1 <= e < |t| && f in Together(cset)
    ensures forall s :: s in u4 <==> s in u || SharedWith(was, t, syms, cset, s)
  {
    hide SharedText, SymbolText, Together;
    forall s ensures SharedWith(was, t, syms, cset, s) <==>
        SymbolText(was, syms, s) || SharedText(was, t, d2 - {}, s) || SharedText(was, t, d4 - d2, s) {
      SharedEither(was, t, d2 - {}, d4 - d2, d4, s);
      AllDone(was, t, cset, d4, s);
    }
  }

  lemma AllDone(was: Buffer, t: Table, cset: bool, done: set<(nat, nat)>, s: Text)
    requires forall e: nat, f: nat :: (e, f) in done <==> 1 <= e < |t| && f in Together(cset)
    ensures SharedText(was, t, done, s) <==> FieldText(was, t, cset, s)
  {
    hide StrAt, Together;
  }

  lemma AllMoved(was: Buffer, t0: Table, t: Table, h: Buffer, done: set<(nat, nat)>)
    requires Repacked(was, t0, t, h, done)
    ensures |t| == |t0| && Shaped(t0) && Shaped(t) && forall d: nat, f: nat :: d < |t0| && f < FIELDS ==>
      if (d, f) in done then Moved(was, t0[d][f], h, t[d][f]) else t[d][f] == t0[d][f]
  {
  }
}
