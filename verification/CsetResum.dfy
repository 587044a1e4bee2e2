/** src/checksum.c, cset_resum: the checksums of many changesets in one pass, moving from
    one changeset to the next by the symmetric difference of what they contain. */
module CsetResum {
  import opened DeltaGraph
  import opened WalkRevs
  import opened Weave
  import opened WeaveIndex

  /** Bit 1 of a serial: in the serialmap (the graph with includes and excludes applied).
      Bit 2: in the graph closure. */
  datatype Bits = Bits(ser: bool, graph: bool)

  const NONE := Bits(false, false)
  const BOTH := Bits(true, true)

  function Xor(a: Bits, b: Bits): Bits {
    Bits(a.ser != b.ser, a.graph != b.graph)
  }

  /** The version M by serialmap and G by graph, as bits. */
  ghost predicate Shows(slist: seq<Bits>, symdiff: seq<Bits>, M: set<nat>, G: set<nat>) {
    && |slist| == |symdiff|
    && forall x :: 0 <= x < |slist| ==> Xor(slist[x], symdiff[x]) == Bits(x in M, x in G)
  }

  ghost predicate UpTo(M: set<nat>, d: nat) {
    forall x :: x in M ==> x <= d
  }

  ghost predicate FileOk(sse: seq<Sse>, n: nat) {
    && (forall k :: 0 <= k < |sse| ==> sse[k].ser < n)
    && (forall k, l :: 0 <= k < l < |sse| ==> sse[k].ser >= sse[l].ser)
  }

  /** Whether the two views of the version disagree on a file. */
  ghost predicate Differs(sse: seq<Sse>, M: set<nat>, G: set<nat>) {
    Newest(sse, M) != Newest(sse, G)
  }

  /** Backs up to the first entry that is not newer than d. */
  method BackUp(sse: seq<Sse>, d: nat, last: nat) returns (j: nat)
    requires last <= |sse| && forall k, l :: 0 <= k < l < |sse| ==> sse[k].ser >= sse[l].ser
    ensures j <= last
    ensures forall k :: 0 <= k < j ==> sse[k].ser > d
  {
    j := last;
    while j > 0 && sse[j - 1].ser <= d
      invariant j <= last
    {
      j := j - 1;
    }
  }

  /** Walks forward to the first entry that is active in either view. */
  method FindEither(sse: seq<Sse>, d: nat, from: nat, slist: seq<Bits>, symdiff: seq<Bits>, ghost M: set<nat>,
                    ghost G: set<nat>)
    returns (j: nat)
    requires FileOk(sse, |slist|) && Shows(slist, symdiff, M, G) && UpTo(M, d) && UpTo(G, d)
    requires from <= |sse| && forall k :: 0 <= k < from ==> sse[k].ser > d
    ensures j <= |sse|
    ensures forall k :: 0 <= k < j ==> sse[k].ser !in M && sse[k].ser !in G
    ensures j < |sse| ==> Xor(slist[sse[j].ser], symdiff[sse[j].ser]) != NONE
  {
    j := from;
    while j < |sse| && !(sse[j].ser <= d && Xor(slist[sse[j].ser], symdiff[sse[j].ser]) != NONE)
      invariant j <= |sse|
      invariant forall k :: 0 <= k < j ==> sse[k].ser !in M && sse[k].ser !in G
    {
      j := j + 1;
    }
  }

  /** Walks forward to the first entry of the serialmap. */
  method FindMap(sse: seq<Sse>, from: nat, slist: seq<Bits>, symdiff: seq<Bits>, ghost M: set<nat>, ghost G: set<nat>)
    returns (j: nat)
    requires FileOk(sse, |slist|) && Shows(slist, symdiff, M, G)
    requires from <= |sse| && forall k :: 0 <= k < from ==> sse[k].ser !in M
    ensures j == Newest(sse, M)
  {
    j := from;
    while j < |sse| && !Xor(slist[sse[j].ser], symdiff[sse[j].ser]).ser
      invariant j <= |sse| && forall k :: 0 <= k < j ==> sse[k].ser !in M
    {
      j := j + 1;
    }
    NewestIs(sse, M, j);
  }

  /** Re-reads one file for the version (M, G): where its newest serialmap entry is, the
      running sum moved from the old entry to the new one, and whether the views differ. */
  method Rescan(sse: seq<Sse>, d: nat, last: nat, sum: nat, slist: seq<Bits>, symdiff: seq<Bits>, verify: bool,
                ghost M: set<nat>, ghost G: set<nat>)
    returns (j: nat, sum': nat, mismatch: bool)
    requires FileOk(sse, |slist|) && Shows(slist, symdiff, M, G) && UpTo(M, d) && UpTo(G, d)
    requires last <= |sse| && (!verify ==> G == {}) && U16(sum) == sum
    ensures j == Newest(sse, M)
    ensures sum' == U16(sum - At(sse, last) + At(sse, j))
    ensures mismatch <==> verify && Differs(sse, M, G)
  {
    hide Newest, U16;
    sum', mismatch := sum, false;
    if last < |sse| { sum' := U16(sum' - sse[last].sum); }
    j := BackUp(sse, d, last);
    j := FindEither(sse, d, j, slist, symdiff, M, G);
    var seen := if j < |sse| then Xor(slist[sse[j].ser], symdiff[sse[j].ser]) else NONE;
    FirstDecides(sse, j, M, G);
    U16Moves(sum, At(sse, last), At(sse, j));
    if j < |sse| { sum' := U16(sum' + sse[j].sum); }
    if !verify || j == |sse| || seen == BOTH { return; }
    mismatch := true;
    if seen.ser { return; }
    U16Moves(sum - At(sse, last) + At(sse, j), At(sse, j), 0);
    sum' := U16(sum' - sse[j].sum);
    j := FindMap(sse, j, slist, symdiff, M, G);
    U16Moves(sum - At(sse, last), 0, At(sse, j));
    if j < |sse| { sum' := U16(sum' + sse[j].sum); }
  }

  lemma U16Moves(sum: int, a: int, b: int)
    ensures U16(U16(sum - a) + b) == U16(sum - a + b)
    ensures U16(sum + b) == U16(sum - 0 + b)
    ensures U16(U16(sum) - a) == U16(sum - a)
    ensures U16(U16(sum)) == U16(sum)
  {
    hide U16;
    Wraps(sum - a, b);
    Wraps(sum, -a);
    Wraps(sum, 0);
  }

  lemma Wraps(x: int, y: int)
    ensures U16(U16(x) + y) == U16(x + y)
  {
    var z := U16(x) + y;
    assert x + y == 0x1_0000 * (x / 0x1_0000 + z / 0x1_0000) + U16(z);
    WrapOnce(x + y, x / 0x1_0000 + z / 0x1_0000, U16(z));
  }

  lemma WrapOnce(x: int, q: int, r: int)
    requires x == 0x1_0000 * q + r && 0 <= r < 0x1_0000
    ensures U16(x) == r
  {
  }

  /** The first entry in either view decides where both views stand. */
  lemma {:induction false} FirstDecides(sse: seq<Sse>, j: nat, M: set<nat>, G: set<nat>)
    requires j <= |sse|
    requires forall k :: 0 <= k < j ==> sse[k].ser !in M && sse[k].ser !in G
    requires j < |sse| ==> sse[j].ser in M || sse[j].ser in G
    ensures j == |sse| ==> Newest(sse, M) == j && Newest(sse, G) == j
    ensures j < |sse| ==> (Newest(sse, M) == j <==> sse[j].ser in M) && (Newest(sse, G) == j <==> sse[j].ser in G)
    ensures j < |sse| ==> (Differs(sse, M, G) <==> !(sse[j].ser in M && sse[j].ser in G))
  {
    hide Newest;
    if j == |sse| || sse[j].ser in M { NewestIs(sse, M, j); }
    if j == |sse| || sse[j].ser in G { NewestIs(sse, G, j); }
  }

  /** The contents of every changeset, by serial: serialmaps and closures. Slot 0 is empty. */
  ghost predicate Versions(M: seq<set<nat>>, G: seq<set<nat>>, n: nat, verify: bool) {
    && |M| == |G| == n && n >= 1 && M[0] == {} && G[0] == {}
    && (forall d :: 0 <= d < n ==> UpTo(M[d], d) && UpTo(G[d], d))
    && (!verify ==> forall d :: 0 <= d < n ==> G[d] == {})
  }

  /** Serial x is in the same views of changesets a and b. */
  ghost predicate Unchanged(M: seq<set<nat>>, G: seq<set<nat>>, a: nat, b: nat, x: nat)
    requires |M| == |G| && a < |M| && b < |M|
  {
    (x in M[a] <==> x in M[b]) && (x in G[a] <==> x in G[b])
  }

  /** A file reads the same in changesets a and b. */
  ghost predicate Same(sse: seq<Sse>, M: seq<set<nat>>, G: seq<set<nat>>, a: nat, b: nat)
    requires |M| == |G| && a < |M| && b < |M|
  {
    forall k :: 0 <= k < |sse| ==> Unchanged(M, G, a, b, sse[k].ser)
  }

  /** What is remembered about a file is right for changeset d. */
  ghost predicate FileAt(sse: seq<Sse>, last: nat, differs: bool, M: seq<set<nat>>, G: seq<set<nat>>, verify: bool,
                         d: nat)
    requires |M| == |G| && d < |M|
  {
    last == Newest(sse, M[d]) && (differs <==> verify && Differs(sse, M[d], G[d]))
  }

  lemma FileIsAt(sse: seq<Sse>, last: nat, differs: bool, M: seq<set<nat>>, G: seq<set<nat>>, verify: bool, d: nat)
    requires |M| == |G| && d < |M| && last == Newest(sse, M[d]) && (differs <==> verify && Differs(sse, M[d], G[d]))
    ensures FileAt(sse, last, differs, M, G, verify, d)
  {
  }

  lemma {:induction false} SameNewest(sse: seq<Sse>, A: set<nat>, B: set<nat>)
    requires forall k :: 0 <= k < |sse| ==> (sse[k].ser in A <==> sse[k].ser in B)
    ensures Newest(sse, A) == Newest(sse, B)
  {
    hide Newest;
    NewestIs(sse, A, Newest(sse, B));
  }

  lemma {:induction false} SameFileAt(sse: seq<Sse>, last: nat, differs: bool, M: seq<set<nat>>, G: seq<set<nat>>,
                                      verify: bool, a: nat, b: nat)
    requires |M| == |G| && a < |M| && b < |M| && Same(sse, M, G, a, b)
    requires FileAt(sse, last, differs, M, G, verify, a)
    ensures FileAt(sse, last, differs, M, G, verify, b)
  {
    assert forall k :: 0 <= k < |sse| ==> Unchanged(M, G, a, b, sse[k].ser);
    SameNewest(sse, M[a], M[b]);
    SameNewest(sse, G[a], G[b]);
  }

  /** What the pass remembers: per file the position of its newest entry (last), the
      changeset it was last re-read for (lastseen) and whether the views differ. */
  datatype Memory = Memory(last: seq<nat>, lastseen: seq<nat>, differs: seq<bool>)

  ghost predicate SizesOk(files: seq<File>, mem: Memory, n: nat) {
    && |mem.last| == |mem.lastseen| == |mem.differs| == |files|
    && forall f :: 0 <= f < |files| ==> mem.lastseen[f] < n && FileOk(files[f].sse, n)
  }

  /** Between changesets: every file is right for d, and reads the same as when last re-read. */
  ghost predicate Settled(files: seq<File>, mem: Memory, M: seq<set<nat>>, G: seq<set<nat>>, verify: bool, d: nat)
    requires |M| == |G| && d < |M| && SizesOk(files, mem, |M|)
  {
    forall f :: 0 <= f < |files| ==>
      && FileAt(files[f].sse, mem.last[f], mem.differs[f], M, G, verify, d)
      && Same(files[f].sse, M, G, mem.lastseen[f], d)
  }

  /** On the way from prev to d with every serial above i done: a file is either re-read
      for d, or still right for prev and untouched by the serials done. */
  ghost predicate Midway(sse: seq<Sse>, last: nat, lastseen: nat, differs: bool,
                         M: seq<set<nat>>, G: seq<set<nat>>, verify: bool, prev: nat, d: nat, i: int)
    requires |M| == |G| && d < |M| && prev < |M| && lastseen < |M|
  {
    if lastseen == d then FileAt(sse, last, differs, M, G, verify, d) else
      && FileAt(sse, last, differs, M, G, verify, prev)
      && Same(sse, M, G, lastseen, prev)
      && forall k :: 0 <= k < |sse| && sse[k].ser > i ==> Unchanged(M, G, prev, d, sse[k].ser)
  }

  ghost predicate Moving(files: seq<File>, mem: Memory, M: seq<set<nat>>, G: seq<set<nat>>, verify: bool, prev: nat,
                         d: nat, i: int)
    requires |M| == |G| && d < |M| && prev < |M| && SizesOk(files, mem, |M|)
  {
    forall f :: 0 <= f < |files| ==>
      Midway(files[f].sse, mem.last[f], mem.lastseen[f], mem.differs[f], M, G, verify, prev, d, i)
  }

  lemma {:induction false} StartMoving(files: seq<File>, mem: Memory, M: seq<set<nat>>, G: seq<set<nat>>, verify: bool,
                                       prev: nat, d: nat, i: int)
    requires |M| == |G| && d < |M| && prev < |M| && SizesOk(files, mem, |M|)
    requires Settled(files, mem, M, G, verify, prev) && forall x: nat :: i < x < |M| ==> Unchanged(M, G, prev, d, x)
    ensures Moving(files, mem, M, G, verify, prev, d, i)
  {
    forall f | 0 <= f < |files|
      ensures Midway(files[f].sse, mem.last[f], mem.lastseen[f], mem.differs[f], M, G, verify, prev, d, i)
    {
      if mem.lastseen[f] == d {
        assert Same(files[f].sse, M, G, prev, d) by {
          assert Same(files[f].sse, M, G, d, prev);
          forall k | 0 <= k < |files[f].sse| ensures Unchanged(M, G, prev, d, files[f].sse[k].ser) {
            assert Unchanged(M, G, d, prev, files[f].sse[k].ser);
          }
        }
        SameFileAt(files[f].sse, mem.last[f], mem.differs[f], M, G, verify, prev, d);
      } else {
        assert FileOk(files[f].sse, |M|);
      }
    }
  }

  lemma {:induction false} EndMoving(files: seq<File>, mem: Memory, M: seq<set<nat>>, G: seq<set<nat>>, verify: bool,
                                     prev: nat, d: nat, i: int)
    requires |M| == |G| && d < |M| && prev < |M| && SizesOk(files, mem, |M|)
    requires Moving(files, mem, M, G, verify, prev, d, i)
    requires forall x :: 0 <= x <= i && x < |M| ==> Unchanged(M, G, prev, d, x)
    ensures Settled(files, mem, M, G, verify, d)
  {
    forall f | 0 <= f < |files|
      ensures FileAt(files[f].sse, mem.last[f], mem.differs[f], M, G, verify, d)
      ensures Same(files[f].sse, M, G, mem.lastseen[f], d)
    {
      assert Midway(files[f].sse, mem.last[f], mem.lastseen[f], mem.differs[f], M, G, verify, prev, d, i);
      assert FileOk(files[f].sse, |M|);
      if mem.lastseen[f] != d {
        forall k | 0 <= k < |files[f].sse|
          ensures Unchanged(M, G, prev, d, files[f].sse[k].ser)
          ensures Unchanged(M, G, mem.lastseen[f], d, files[f].sse[k].ser)
        {
          var x := files[f].sse[k].ser;
          assert Unchanged(M, G, mem.lastseen[f], prev, x);
          assert x <= i ==> Unchanged(M, G, prev, d, x);
        }
        SameFileAt(files[f].sse, mem.last[f], mem.differs[f], M, G, verify, prev, d);
      }
    }
  }

  /** The sum over the remembered entry of every file. */
  ghost function SumLast(files: seq<File>, last: seq<nat>): nat
    requires |files| == |last|
  {
    if files == [] then 0 else
      var n := |files| - 1;
      SumLast(files[..n], last[..n]) + At(files[n].sse, last[n])
  }

  lemma {:induction false} SumLastUpdate(files: seq<File>, last: seq<nat>, f: nat, j: nat)
    requires |files| == |last| && f < |files|
    ensures SumLast(files, last[f := j]) == SumLast(files, last) - At(files[f].sse, last[f]) + At(files[f].sse, j)
  {
    var n := |files| - 1;
    if f == n {
      assert last[f := j][..n] == last[..n];
    } else {
      assert last[f := j][..n] == last[..n][f := j];
      SumLastUpdate(files[..n], last[..n], f, j);
    }
  }

  /** How many of the first n flags are set. */
  ghost function CountTrue(b: seq<bool>): nat {
    if b == [] then 0 else CountTrue(b[..|b| - 1]) + Bit(b[|b| - 1])
  }

  lemma {:induction false} CountTrueUpdate(b: seq<bool>, f: nat, v: bool)
    requires f < |b|
    ensures CountTrue(b[f := v]) == CountTrue(b) - Bit(b[f]) + Bit(v)
  {
    var n := |b| - 1;
    if f == n {
      assert b[f := v][..n] == b[..n];
    } else {
      assert b[f := v][..n] == b[..n][f := v];
      CountTrueUpdate(b[..n], f, v);
    }
  }

  /** The running totals match what is remembered. */
  ghost predicate Totals(files: seq<File>, mem: Memory, sum: nat, diffcount: int)
    requires |files| == |mem.last|
  {
    sum == U16(SumLast(files, mem.last)) && diffcount == CountTrue(mem.differs)
  }

  ghost predicate Visited(before: seq<nat>, after: seq<nat>, f: nat, d: nat) {
    f < |before| && after == before[f := d]
  }

  ghost predicate AllVisited(lastseen: seq<nat>, fids: seq<nat>, n: nat, d: nat) {
    n <= |fids| && forall k :: 0 <= k < n ==> fids[k] < |lastseen| && lastseen[fids[k]] == d
  }

  lemma VisitedMore(before: seq<nat>, after: seq<nat>, fids: seq<nat>, n: nat, d: nat)
    requires n < |fids| && AllVisited(before, fids, n, d) && Visited(before, after, fids[n], d)
    ensures AllVisited(after, fids, n + 1, d)
  {
  }

  /** The whole state on the way from prev to d. */
  ghost predicate Going(files: seq<File>, mem: Memory, sum: nat, diffcount: int,
                        M: seq<set<nat>>, G: seq<set<nat>>, verify: bool, prev: nat, d: nat, i: int)
  {
    && |M| == |G| && d < |M| && prev < |M| && SizesOk(files, mem, |M|)
    && Moving(files, mem, M, G, verify, prev, d, i) && Totals(files, mem, sum, diffcount)
  }

  /** Re-reads file f for changeset d, unless that was done already. */
  method RereadFile(files: seq<File>, f: nat, d: nat, mem: Memory, sum: nat, diffcount: int,
                    slist: seq<Bits>, symdiff: seq<Bits>, verify: bool,
                    ghost M: seq<set<nat>>, ghost G: seq<set<nat>>, ghost prev: nat, ghost i: int)
    returns (mem': Memory, sum': nat, diffcount': int)
    requires Versions(M, G, |slist|, verify) && f < |files| && d < |M|
    requires Going(files, mem, sum, diffcount, M, G, verify, prev, d, i)
    requires Shows(slist, symdiff, M[d], G[d])
    ensures Going(files, mem', sum', diffcount', M, G, verify, prev, d, i)
    ensures Visited(mem.lastseen, mem'.lastseen, f, d)
  {
    hide FileAt, Same, Shows, CountTrue, SumLast, U16, Newest, Differs;
    mem', sum', diffcount' := mem, sum, diffcount;
    if mem.lastseen[f] == d { return; }
    var j, mismatch;
    FileIsOk(files, mem, |M|, f);
    LastInRange(files[f].sse, mem.last[f], mem.differs[f], M, G, verify, prev, d, i, mem.lastseen[f]);
    U16Twice(SumLast(files, mem.last));
    j, sum', mismatch := Rescan(files[f].sse, d, mem.last[f], sum, slist, symdiff, verify, M[d], G[d]);
    SumLastUpdate(files, mem.last, f, j);
    U16Shift(SumLast(files, mem.last), At(files[f].sse, mem.last[f]), At(files[f].sse, j));
    var differs := mem.differs;
    if diffcount' != 0 && differs[f] {
      CountTrueUpdate(differs, f, false);
      differs := differs[f := false];
      diffcount' := diffcount' - 1;
    } else {
      CountTrueZero(differs, f);
    }
    assert !differs[f] && diffcount' == CountTrue(differs);
    if mismatch {
      CountTrueUpdate(differs, f, true);
      differs := differs[f := true];
      diffcount' := diffcount' + 1;
    }
    mem' := Memory(mem.last[f := j], mem.lastseen[f := d], differs);
    FileIsAt(files[f].sse, j, mismatch, M, G, verify, d);
  }

  lemma FileIsOk(files: seq<File>, mem: Memory, n: nat, f: nat)
    requires SizesOk(files, mem, n) && f < |files|
    ensures FileOk(files[f].sse, n)
  {
  }

  lemma LastInRange(sse: seq<Sse>, last: nat, differs: bool, M: seq<set<nat>>, G: seq<set<nat>>, verify: bool,
                    prev: nat, d: nat, i: int, lastseen: nat)
    requires |M| == |G| && d < |M| && prev < |M| && lastseen < |M|
    requires Midway(sse, last, lastseen, differs, M, G, verify, prev, d, i)
    ensures last <= |sse|
  {
  }

  lemma U16Twice(a: int)
    ensures U16(U16(a)) == U16(a)
  {
  }

  lemma U16Shift(sum: int, a: int, b: int)
    ensures U16(U16(sum) - a + b) == U16(sum - a + b)
  {
  }

  lemma {:induction false} CountTrueZero(b: seq<bool>, f: nat)
    requires f < |b|
    ensures CountTrue(b) == 0 ==> !b[f]
  {
    if f < |b| - 1 { CountTrueZero(b[..|b| - 1], f); }
  }

  /** How many of the first n serials have a bit set. */
  ghost function NonZero(symdiff: seq<Bits>, n: nat): nat
    requires n <= |symdiff|
  {
    if n == 0 then 0 else NonZero(symdiff, n - 1) + Bit(symdiff[n - 1] != NONE)
  }

  lemma {:induction false} NonZeroUpdate(symdiff: seq<Bits>, n: nat, x: nat, b: Bits)
    requires x < |symdiff| && n <= |symdiff|
    ensures NonZero(symdiff[x := b], n) ==
            if x < n then NonZero(symdiff, n) - Bit(symdiff[x] != NONE) + Bit(b != NONE) else NonZero(symdiff, n)
  {
    if n > 0 { NonZeroUpdate(symdiff, n - 1, x, b); }
  }

  lemma {:induction false} NonZeroNone(symdiff: seq<Bits>, n: nat)
    requires n <= |symdiff|
    ensures NonZero(symdiff, n) == 0 <==> forall x :: 0 <= x < n ==> symdiff[x] == NONE
  {
    if n > 0 { NonZeroNone(symdiff, n - 1); }
  }

  /** slist still shows the view (M, G) on serials up to i. */
  ghost predicate ShowsUpTo(slist: seq<Bits>, M: set<nat>, G: set<nat>, i: int) {
    forall x :: 0 <= x <= i && x < |slist| ==> slist[x] == Bits(x in M, x in G)
  }

  ghost predicate ClearAbove(symdiff: seq<Bits>, i: int) {
    forall x :: 0 <= x < |symdiff| && x > i ==> symdiff[x] == NONE
  }

  /** The state of the bit arrays on the way from prev to d, with every serial above i done. */
  ghost predicate Flipping(slist: seq<Bits>, symdiff: seq<Bits>, bits: nat, M: seq<set<nat>>, G: seq<set<nat>>,
                           prev: nat, d: nat, i: int) {
    && |M| == |G| == |slist| == |symdiff| && prev < |M| && d < |M|
    && Shows(slist, symdiff, M[d], G[d]) && ShowsUpTo(slist, M[prev], G[prev], i) && ClearAbove(symdiff, i)
    && bits == NonZero(symdiff, |symdiff|)
  }

  lemma {:induction false} FlipOne(slist: seq<Bits>, symdiff: seq<Bits>, bits: nat, M: seq<set<nat>>, G: seq<set<nat>>,
                                   prev: nat, d: nat, i: nat)
    requires Flipping(slist, symdiff, bits, M, G, prev, d, i) && i < |slist| && symdiff[i] != NONE
    ensures bits > 0
    ensures Flipping(slist[i := Xor(slist[i], symdiff[i])], symdiff[i := NONE], bits - 1, M, G, prev, d, i - 1)
  {
    NonZeroUpdate(symdiff, |symdiff|, i, NONE);
    NonZeroNone(symdiff, |symdiff|);
  }

  lemma {:induction false} PassOne(slist: seq<Bits>, symdiff: seq<Bits>, bits: nat, M: seq<set<nat>>, G: seq<set<nat>>,
                                   prev: nat, d: nat, i: nat)
    requires Flipping(slist, symdiff, bits, M, G, prev, d, i) && i < |slist| && symdiff[i] == NONE
    ensures Flipping(slist, symdiff, bits, M, G, prev, d, i - 1) && Unchanged(M, G, prev, d, i)
  {
    assert Xor(slist[i], symdiff[i]) == Bits(i in M[d], i in G[d]);
  }

  lemma {:induction false} MoreToFlip(slist: seq<Bits>, symdiff: seq<Bits>, bits: nat, M: seq<set<nat>>,
                                      G: seq<set<nat>>, prev: nat, d: nat, i: int)
    requires Flipping(slist, symdiff, bits, M, G, prev, d, i) && bits > 0
    ensures i >= 0
  {
    NonZeroNone(symdiff, |symdiff|);
  }

  lemma {:induction false} DoneFlipping(slist: seq<Bits>, symdiff: seq<Bits>, M: seq<set<nat>>, G: seq<set<nat>>,
                                        prev: nat, d: nat, i: int)
    requires Flipping(slist, symdiff, 0, M, G, prev, d, i)
    ensures ShowsUpTo(slist, M[d], G[d], |slist|) && ClearAbove(symdiff, -1)
    ensures forall x: nat :: x <= i && x < |M| ==> Unchanged(M, G, prev, d, x)
  {
    NonZeroNone(symdiff, |symdiff|);
    forall x: nat | x < |M| ensures slist[x] == Bits(x in M[d], x in G[d]) {
      assert Xor(slist[x], symdiff[x]) == Bits(x in M[d], x in G[d]);
    }
  }

  /** A serial that did not change leaves every file as it was. */
  lemma {:induction false} MovePast(files: seq<File>, mem: Memory, M: seq<set<nat>>, G: seq<set<nat>>, verify: bool,
                                    prev: nat, d: nat, i: nat)
    requires |M| == |G| && d < |M| && prev < |M| && SizesOk(files, mem, |M|) && i < |M|
    requires Moving(files, mem, M, G, verify, prev, d, i)
    requires Unchanged(M, G, prev, d, i) || forall f :: 0 <= f < |files| && Touches(files[f], i) ==>
      mem.lastseen[f] == d
    ensures Moving(files, mem, M, G, verify, prev, d, i - 1)
  {
    forall f | 0 <= f < |files|
      ensures Midway(files[f].sse, mem.last[f], mem.lastseen[f], mem.differs[f], M, G, verify, prev, d, i - 1)
    {
      assert Midway(files[f].sse, mem.last[f], mem.lastseen[f], mem.differs[f], M, G, verify, prev, d, i);
      if mem.lastseen[f] != d {
        forall k | 0 <= k < |files[f].sse| && files[f].sse[k].ser > i - 1
          ensures Unchanged(M, G, prev, d, files[f].sse[k].ser)
        {
          if files[f].sse[k].ser == i { assert Touches(files[f], i); }
        }
      }
    }
  }

  /** Re-reads every file that serial i changed. */
  method RereadAll(files: seq<File>, fids: seq<nat>, d: nat, mem: Memory, sum: nat, diffcount: int,
                   slist: seq<Bits>, symdiff: seq<Bits>, verify: bool,
                   ghost M: seq<set<nat>>, ghost G: seq<set<nat>>, ghost prev: nat, ghost i: int)
    returns (mem': Memory, sum': nat, diffcount': int)
    requires Versions(M, G, |slist|, verify) && d < |M|
    requires forall k :: 0 <= k < |fids| ==> fids[k] < |files|
    requires Going(files, mem, sum, diffcount, M, G, verify, prev, d, i)
    requires Shows(slist, symdiff, M[d], G[d])
    ensures Going(files, mem', sum', diffcount', M, G, verify, prev, d, i)
    ensures AllVisited(mem'.lastseen, fids, |fids|, d)
  {
    assert |M| == |G|;
    hide Going, Shows, Versions, Visited, AllVisited;
    AllVisitedNone(mem.lastseen, fids, d);
    mem', sum', diffcount' := mem, sum, diffcount;
    for index := 0 to |fids|
      invariant Going(files, mem', sum', diffcount', M, G, verify, prev, d, i)
      invariant AllVisited(mem'.lastseen, fids, index, d)
    {
      ghost var before := mem'.lastseen;
      mem', sum', diffcount' := RereadFile(files, fids[index], d, mem', sum', diffcount', slist, symdiff, verify, M, G,
        prev, i);
      VisitedMore(before, mem'.lastseen, fids, index, d);
    }
  }

  lemma AllVisitedNone(lastseen: seq<nat>, fids: seq<nat>, d: nat)
    ensures AllVisited(lastseen, fids, 0, d)
  {
  }

  /** Moves slist, the memory and the totals from changeset prev to changeset d. */
  method MoveTo(files: seq<File>, csetlist: seq<seq<nat>>, start: nat, bits: nat, d: nat, mem: Memory, sum: nat,
                diffcount: int,
                slist: seq<Bits>, symdiff: seq<Bits>, verify: bool, ghost M: seq<set<nat>>, ghost G: seq<set<nat>>,
                ghost prev: nat)
    returns (mem': Memory, sum': nat, diffcount': int, slist': seq<Bits>, symdiff': seq<Bits>)
    requires Versions(M, G, |slist|, verify) && |csetlist| == |M| && Lists(csetlist, files)
    requires d < |M| && prev < |M| && SizesOk(files, mem, |M|) && start < |M|
    requires Settled(files, mem, M, G, verify, prev) && Totals(files, mem, sum, diffcount)
    requires Flipping(slist, symdiff, bits, M, G, prev, d, start)
    requires forall x: nat :: start < x < |M| ==> Unchanged(M, G, prev, d, x)
    ensures SizesOk(files, mem', |M|)
    ensures Settled(files, mem', M, G, verify, d) && Totals(files, mem', sum', diffcount')
    ensures |slist'| == |symdiff'| == |M| && ShowsUpTo(slist', M[d], G[d], |slist'|) && ClearAbove(symdiff', -1)
  {
    hide Settled, Moving, Totals, Shows, Versions, Unchanged, Touches;
    mem', sum', diffcount', slist', symdiff' := mem, sum, diffcount, slist, symdiff;
    StartMoving(files, mem, M, G, verify, prev, d, start);
    var i: int, left := start, bits;
    while left > 0
      invariant i <= start && Flipping(slist', symdiff', left, M, G, prev, d, i)
      invariant Going(files, mem', sum', diffcount', M, G, verify, prev, d, i)
      decreases i
    {
      MoreToFlip(slist', symdiff', left, M, G, prev, d, i);
      if symdiff'[i] == NONE {
        PassOne(slist', symdiff', left, M, G, prev, d, i);
      } else {
        FlipOne(slist', symdiff', left, M, G, prev, d, i);
        slist' := slist'[i := Xor(slist'[i], symdiff'[i])];
        symdiff' := symdiff'[i := NONE];
        left := left - 1;
        mem', sum', diffcount' := RereadAll(files, csetlist[i], d, mem', sum', diffcount', slist', symdiff', verify, M,
          G, prev, i);
        AllReread(files, csetlist, mem', i, d);
      }
      MovePast(files, mem', M, G, verify, prev, d, i);
      i := i - 1;
    }
    DoneFlipping(slist', symdiff', M, G, prev, d, i);
    EndMoving(files, mem', M, G, verify, prev, d, i);
  }

  lemma AllReread(files: seq<File>, csetlist: seq<seq<nat>>, mem: Memory, i: nat, d: nat)
    requires Lists(csetlist, files) && i < |csetlist| && |mem.lastseen| == |files|
    requires AllVisited(mem.lastseen, csetlist[i], |csetlist[i]|, d)
    ensures forall f :: 0 <= f < |files| && Touches(files[f], i) ==> mem.lastseen[f] == d
  {
    forall f | 0 <= f < |files| && Touches(files[f], i) ensures mem.lastseen[f] == d {
      assert f in csetlist[i];
      var k :| 0 <= k < |csetlist[i]| && csetlist[i][k] == f;
    }
  }

  /** The contract of symdiff_expand: the symmetric difference of two serialmaps, and its size. */
  method SerialmapDiff(a: set<nat>, b: set<nat>, n: nat) returns (symdiff: seq<Bits>, bits: nat)
    ensures |symdiff| == n && bits == NonZero(symdiff, n)
    ensures forall x :: 0 <= x < n ==> symdiff[x] == Bits((x in a) != (x in b), false)
  {
    symdiff, bits := seq(n, _ => NONE), 0;
    NonZeroNone(symdiff, n);
    for x := 0 to n
      invariant |symdiff| == n && bits == NonZero(symdiff, n)
      invariant forall y :: 0 <= y < n ==> symdiff[y] == Bits(y < x && (y in a) != (y in b), false)
    {
      if (x in a) != (x in b) {
        NonZeroUpdate(symdiff, n, x, Bits(true, false));
        symdiff := symdiff[x := Bits(true, false)];
        bits := bits + 1;
      }
    }
  }

  /** Adds the symmetric difference of two closures, walking the graph. */
  method GraphDiff(t: Table, paint: DeltaFlags, prev: nat, d: nat, diff: seq<Bits>, count: nat)
    returns (symdiff: seq<Bits>, bits: nat)
    requires WellFormed(t) && IsDelta(t, d) && (prev == 0 || IsDelta(t, prev))
    requires |diff| == |t| && count == NonZero(diff, |t|) && forall x :: 0 <= x < |t| ==> !diff[x].graph
    requires paint.Clear(|t|)
    modifies paint
    ensures |symdiff| == |t| && bits == NonZero(symdiff, |t|) && paint.Clear(|t|)
    ensures forall x :: 0 <= x < |t| ==> symdiff[x] == Bits(diff[x].ser, (x in Anc(t, prev)) != (x in Anc(t, d)))
  {
    symdiff, bits := diff, count;
    var w := new Walker(t, paint, if prev == 0 then [] else [prev], [d], EITHER);
    ghost var R, B := w.sets.red, w.sets.blue;
    TipClosures(t, prev, d);
    assert GraphMarked(diff, symdiff, R, B, w.d);
    hide w.Valid, w.Bounded, AncOf, Anc, NonZero, GraphMarked, NoneBetween, Wants;
    while true
      invariant w.Valid() && w.t == t && w.paint == paint && w.mode == EITHER && fresh(w)
      invariant w.sets.red == R && w.sets.blue == B
      invariant |symdiff| == |t| && bits == NonZero(symdiff, |t|)
      invariant GraphMarked(diff, symdiff, R, B, w.d)
      decreases w.d
    {
      ghost var before := w.d;
      var tmpd := w.Next();
      if tmpd == 0 {
        MarkNone(diff, symdiff, R, B, before);
        break;
      }
      MarkOne(diff, symdiff, R, B, before, tmpd);
      NonZeroUpdate(symdiff, |t|, tmpd, Bits(symdiff[tmpd].ser, true));
      if symdiff[tmpd] == NONE { bits := bits + 1; }
      symdiff := symdiff[tmpd := Bits(symdiff[tmpd].ser, true)];
    }
    w.Done();
  }

  ghost predicate GraphMarked(diff: seq<Bits>, symdiff: seq<Bits>, R: set<nat>, B: set<nat>, lo: nat) {
    && |symdiff| == |diff|
    && forall x: nat :: x < |diff| ==> symdiff[x] == Bits(diff[x].ser, x >= lo && Wants(true, R, B, x))
  }

  lemma MarkOne(diff: seq<Bits>, symdiff: seq<Bits>, R: set<nat>, B: set<nat>, hi: nat, r: nat)
    requires GraphMarked(diff, symdiff, R, B, hi) && NoneBetween(true, R, B, r, hi) && r < hi
    requires r < |diff| && Wants(true, R, B, r)
    ensures GraphMarked(diff, symdiff[r := Bits(symdiff[r].ser, true)], R, B, r)
  {
  }

  lemma MarkNone(diff: seq<Bits>, symdiff: seq<Bits>, R: set<nat>, B: set<nat>, hi: nat)
    requires GraphMarked(diff, symdiff, R, B, hi) && NoneBetween(true, R, B, 0, hi) && 0 !in R && 0 !in B
    ensures |symdiff| == |diff|
    ensures forall x :: 0 <= x < |diff| ==> symdiff[x] == Bits(diff[x].ser, (x in B) != (x in R))
  {
    forall x | 0 <= x < |diff| ensures symdiff[x] == Bits(diff[x].ser, (x in B) != (x in R)) {
      assert 0 < x < hi ==> !Wants(true, R, B, x);
    }
  }

  lemma TipClosures(t: Table, prev: nat, d: nat)
    requires WellFormed(t) && IsDelta(t, d) && (prev == 0 || IsDelta(t, prev))
    ensures AncOf(t, [d]) == Anc(t, d) && AncOf(t, if prev == 0 then [] else [prev]) == Anc(t, prev)
    ensures 0 !in Anc(t, d) && 0 !in Anc(t, prev)
  {
    assert [d][0] == d;
    if prev != 0 { assert [prev][0] == prev; }
    AncNoZero(t, d);
    AncNoZero(t, prev);
  }

  lemma {:induction false} SumLastIsTotal(files: seq<File>, last: seq<nat>, s: Stream, m: set<nat>)
    requires |files| == |last|
    requires forall f :: 0 <= f < |files| ==>
      files[f].sse == Entries(s, files[f].rk) && last[f] == Newest(files[f].sse, m)
    ensures SumLast(files, last) == Total(Rootkeys(files), s, m)
  {
    if files != [] {
      var n := |files| - 1;
      SumLastIsTotal(files[..n], last[..n], s, m);
      assert Rootkeys(files)[..n] == Rootkeys(files[..n]);
    }
  }

  /** The rootkeys whose newest entry in the serialmap is not the newest one in the graph. */
  ghost function Disagree(s: Stream, M: set<nat>, G: set<nat>): set<Key> {
    set it | it in s && it.Line? && Differs(Entries(s, it.rk), M, G) :: it.rk
  }

  /** rk is one of the rootkeys whose flag is set. */
  ghost predicate Flagged(rks: seq<Key>, b: seq<bool>, rk: Key) {
    exists f :: 0 <= f < |rks| && f < |b| && b[f] && rks[f] == rk
  }

  lemma FlaggedFront(rks: seq<Key>, b: seq<bool>, n: nat, rk: Key)
    requires |rks| == |b| == n + 1
    ensures Flagged(rks, b, rk) <==> Flagged(rks[..n], b[..n], rk) || (b[n] && rks[n] == rk)
  {
    if Flagged(rks[..n], b[..n], rk) {
      var f :| 0 <= f < n && b[..n][f] && rks[..n][f] == rk;
      assert b[f] && rks[f] == rk;
    }
    if Flagged(rks, b, rk) {
      var f :| 0 <= f < |rks| && b[f] && rks[f] == rk;
      if f < n { assert b[..n][f] && rks[..n][f] == rk; }
    }
  }

  lemma OneFlag(rks: seq<Key>, b: seq<bool>, n: nat)
    requires |rks| == |b| == n + 1 && Distinct(rks)
    ensures !Flagged(rks[..n], b[..n], rks[n]) && Distinct(rks[..n])
  {
  }

  lemma {:induction false} CountKeys(rks: seq<Key>, b: seq<bool>, keys: set<Key>)
    requires |rks| == |b| && Distinct(rks)
    requires forall rk :: rk in keys <==> Flagged(rks, b, rk)
    ensures CountTrue(b) == |keys|
  {
    if rks == [] {
      assert keys == {};
    } else {
      hide Flagged, Distinct;
      var n := |rks| - 1;
      var front := if b[n] then keys - {rks[n]} else keys;
      OneFlag(rks, b, n);
      forall rk ensures Flagged(rks, b, rk) <==> Flagged(rks[..n], b[..n], rk) || (b[n] && rks[n] == rk) {
        FlaggedFront(rks, b, n, rk);
      }
      CountKeys(rks[..n], b[..n], front);
      if b[n] { assert keys == front + {rks[n]}; }
    }
  }

  lemma {:induction false} NoDisagreement(files: seq<File>, s: Stream, M: set<nat>, G: set<nat>, rk: Key)
    requires Indexes(files, s)
    ensures rk in Disagree(s, M, G) <==>
      exists f :: 0 <= f < |files| && Differs(files[f].sse, M, G) && files[f].rk == rk
  {
    hide Newest;
    if rk in Disagree(s, M, G) {
      var it :| it in s && it.Line? && Differs(Entries(s, it.rk), M, G) && it.rk == rk;
      assert rk in Rootkeys(files);
      var f :| 0 <= f < |files| && Rootkeys(files)[f] == rk;
      assert files[f].rk == rk;
    }
    if exists f :: 0 <= f < |files| && Differs(files[f].sse, M, G) && files[f].rk == rk {
      var f :| 0 <= f < |files| && Differs(files[f].sse, M, G) && files[f].rk == rk;
      EntriesFrom(s, rk);
    }
  }

  lemma {:induction false} EntriesFrom(s: Stream, rk: Key)
    ensures Entries(s, rk) != [] ==> exists i :: 0 <= i < |s| && s[i].Line? && s[i].rk == rk
  {
    if s != [] {
      EntriesFrom(s[..|s| - 1], rk);
      if Entries(s[..|s| - 1], rk) != [] {
        var i :| 0 <= i < |s| - 1 && s[..|s| - 1][i].Line? && s[..|s| - 1][i].rk == rk;
        assert s[i].Line? && s[i].rk == rk;
      }
    }
  }

  /** Once settled at d, the running sum is the checksum of d by definition, and the
      difference count is the number of rootkeys the two views disagree on. */
  lemma {:induction false} SettledMeans(files: seq<File>, s: Stream, mem: Memory, sum: nat, diffcount: int,
                                        M: seq<set<nat>>, G: seq<set<nat>>, verify: bool, d: nat)
    requires |M| == |G| && d < |M| && SizesOk(files, mem, |M|) && Indexes(files, s)
    requires Settled(files, mem, M, G, verify, d) && Totals(files, mem, sum, diffcount)
    ensures sum == U16(PlainSum(s, M[d], {}))
    ensures diffcount == if verify then |Disagree(s, M[d], G[d])| else 0
  {
    hide Same, Newest, U16;
    assert forall f :: 0 <= f < |files| ==> FileAt(files[f].sse, mem.last[f], mem.differs[f], M, G, verify, d);
    SumLastIsTotal(files, mem.last, s, M[d]);
    TotalIsPlainSum(Rootkeys(files), s, M[d]);
    var keys := if verify then Disagree(s, M[d], G[d]) else {};
    var rks := Rootkeys(files);
    forall rk ensures rk in keys <==> exists f :: 0 <= f < |rks| && mem.differs[f] && rks[f] == rk {
      NoDisagreement(files, s, M[d], G[d], rk);
      if rk in keys {
        var f :| 0 <= f < |files| && Differs(files[f].sse, M[d], G[d]) && files[f].rk == rk;
        assert mem.differs[f] && rks[f] == rk;
      }
    }
    CountKeys(rks, mem.differs, keys);
  }

  lemma {:induction false} EntriesOk(s: Stream, rk: Key, n: nat)
    requires NewestFirst(s) && forall k :: 0 <= k < |s| ==> s[k].ser < n
    ensures FileOk(Entries(s, rk), n)
    ensures s != [] ==> forall k :: 0 <= k < |Entries(s, rk)| ==> Entries(s, rk)[k].ser >= s[|s| - 1].ser
  {
    if s != [] {
      var front := s[..|s| - 1];
      EntriesOk(front, rk, n);
      if front != [] { assert front[|front| - 1] == s[|s| - 2]; }
    }
  }

  /** The serialmaps of a table: each holds no serial newer than its own. */
  ghost predicate SerialmapsOk(smap: seq<set<nat>>) {
    smap != [] && smap[0] == {} && forall d :: 0 <= d < |smap| ==> UpTo(smap[d], d)
  }

  ghost function Closures(t: Table, verify: bool): (G: seq<set<nat>>)
    requires WellFormed(t)
    ensures |G| == |t| && forall d :: 0 <= d < |t| ==> G[d] == if verify then Anc(t, d) else {}
  {
    seq(|t|, d requires 0 <= d < |t| => if verify then Anc(t, d) else {})
  }

  lemma {:induction false} VersionsOk(t: Table, smap: seq<set<nat>>, verify: bool)
    requires WellFormed(t) && |smap| == |t| && SerialmapsOk(smap)
    ensures Versions(smap, Closures(t, verify), |t|, verify)
  {
    forall d | 0 <= d < |t| ensures UpTo(Closures(t, verify)[d], d) {
      forall x | x in Closures(t, verify)[d] ensures x <= d { AncBelow(t, d, x); }
    }
  }

  lemma {:induction false} StartFlipping(slist: seq<Bits>, symdiff: seq<Bits>, bits: nat, M: seq<set<nat>>,
                                         G: seq<set<nat>>, prev: nat, d: nat, verify: bool)
    requires Versions(M, G, |slist|, verify) && |slist| == |symdiff| && prev < |M| && d < |M|
    requires ShowsUpTo(slist, M[prev], G[prev], |slist|) && bits == NonZero(symdiff, |symdiff|)
    requires forall x :: 0 <= x < |symdiff| ==>
      symdiff[x] == Bits((x in M[prev]) != (x in M[d]), (x in G[prev]) != (x in G[d]))
    ensures var start := if d > prev then d else prev;
            && Flipping(slist, symdiff, bits, M, G, prev, d, start)
            && forall x: nat :: start < x < |M| ==> Unchanged(M, G, prev, d, x)
  {
    assert UpTo(M[prev], prev) && UpTo(M[d], d) && UpTo(G[prev], prev) && UpTo(G[d], d);
  }

  /** What the pass holds after changeset d. */
  ghost predicate Arrived(files: seq<File>, mem: Memory, sum: nat, diffcount: int, slist: seq<Bits>,
                          M: seq<set<nat>>, G: seq<set<nat>>, verify: bool, d: nat)
  {
    && |M| == |G| == |slist| && d < |M| && SizesOk(files, mem, |M|)
    && Settled(files, mem, M, G, verify, d) && Totals(files, mem, sum, diffcount)
    && ShowsUpTo(slist, M[d], G[d], |slist|)
  }

  /** Goes on to changeset d. */
  method Advance(t: Table, paint: DeltaFlags, smap: seq<set<nat>>, files: seq<File>, csetlist: seq<seq<nat>>,
                 prev: nat, d: nat, mem: Memory, sum: nat, diffcount: int, slist: seq<Bits>, verify: bool)
    returns (mem': Memory, sum': nat, diffcount': int, slist': seq<Bits>)
    requires WellFormed(t) && |smap| == |t| == |csetlist| && SerialmapsOk(smap) && Lists(csetlist, files)
    requires IsDelta(t, d) && (prev == 0 || IsDelta(t, prev)) && paint.Clear(|t|)
    requires Arrived(files, mem, sum, diffcount, slist, smap, Closures(t, verify), verify, prev)
    modifies paint
    ensures Arrived(files, mem', sum', diffcount', slist', smap, Closures(t, verify), verify, d) && paint.Clear(|t|)
  {
    ghost var G := Closures(t, verify);
    VersionsOk(t, smap, verify);
    hide Settled, Totals, SizesOk, Lists, SerialmapsOk;
    var symdiff, bits := SerialmapDiff(smap[prev], smap[d], |t|);
    if verify {
      symdiff, bits := GraphDiff(t, paint, prev, d, symdiff, bits);
    }
    StartFlipping(slist, symdiff, bits, smap, G, prev, d, verify);
    var start := if d > prev then d else prev;
    mem', sum', diffcount', slist', symdiff :=
      MoveTo(files, csetlist, start, bits, d, mem, sum, diffcount, slist, symdiff, verify, smap, G, prev);
  }

  /** Nothing is active before the first changeset. */
  lemma {:induction false} StartArrived(t: Table, smap: seq<set<nat>>, files: seq<File>, s: Stream, mem: Memory,
                                        slist: seq<Bits>, verify: bool)
    requires WellFormed(t) && |smap| == |t| && SerialmapsOk(smap) && Indexes(files, s)
    requires NewestFirst(s) && forall k :: 0 <= k < |s| ==> s[k].ser < |t|
    requires slist == seq(|t|, _ => NONE)
    requires |mem.last| == |mem.lastseen| == |mem.differs| == |files|
    requires forall f :: 0 <= f < |files| ==> mem.last[f] == |files[f].sse| && mem.lastseen[f] == 0 && !mem.differs[f]
    ensures Arrived(files, mem, 0, 0, slist, smap, Closures(t, verify), verify, 0)
  {
    VersionsOk(t, smap, verify);
    forall f | 0 <= f < |files| ensures FileOk(files[f].sse, |t|) { EntriesOk(s, files[f].rk, |t|); }
    forall f | 0 <= f < |files| ensures Newest(files[f].sse, {}) == mem.last[f] {
      NewestIs(files[f].sse, {}, mem.last[f]);
    }
    SumLastNothing(files, mem.last);
    CountNothing(mem.differs);
  }

  lemma {:induction false} SumLastNothing(files: seq<File>, last: seq<nat>)
    requires |files| == |last| && forall f :: 0 <= f < |files| ==> last[f] == |files[f].sse|
    ensures SumLast(files, last) == 0
  {
    if files != [] { SumLastNothing(files[..|files| - 1], last[..|files| - 1]); }
  }

  lemma {:induction false} CountNothing(b: seq<bool>)
    requires forall f :: 0 <= f < |b| ==> !b[f]
    ensures CountTrue(b) == 0
  {
    if b != [] { CountNothing(b[..|b| - 1]); }
  }

  /** The checksum of changeset d by definition. */
  ghost function Checksum(s: Stream, smap: seq<set<nat>>, d: nat): nat
    requires d < |smap|
  {
    U16(PlainSum(s, smap[d], {}))
  }

  /** Checks, and with fix repairs, the stored checksums of the changesets in any order. */
  method Resum(t: Table, smap: seq<set<nat>>, s: Stream, order: seq<nat>, sums: seq<nat>, verify: bool, fix: bool)
    returns (sums': seq<nat>, bad: seq<nat>, diffs: seq<int>)
    requires WellFormed(t) && |smap| == |t| == |sums| && SerialmapsOk(smap)
    requires NewestFirst(s) && forall k :: 0 <= k < |s| ==> s[k].ser < |t|
    requires AllDeltas(t, order)
    ensures |sums'| == |sums| && |diffs| == |order|
    ensures forall k :: 0 <= k < |order| ==> (order[k] in bad <==> sums[order[k]] != Checksum(s, smap, order[k]))
    ensures (forall d :: d in bad ==> d in order) && (Once(order) ==> bad == Misfits(sums, s, smap, order))
    ensures forall k :: 0 <= k < |order| ==>
      diffs[k] == if verify then |Disagree(s, smap[order[k]], Anc(t, order[k]))| else 0
    ensures fix ==> forall k :: 0 <= k < |order| ==> sums'[order[k]] == Checksum(s, smap, order[k])
    ensures forall d :: 0 <= d < |sums| && (!fix || d !in order) ==> sums'[d] == sums[d]
  {
    var files, csetlist := BuildIndex(s, |t|);
    var mem := Memory(seq(|files|, f requires 0 <= f < |files| => |files[f].sse|), seq(|files|, _ => 0),
      seq(|files|, _ => false));
    var slist, prev, sum, diffcount := seq(|t|, _ => NONE), 0, 0, 0;
    StartArrived(t, smap, files, s, mem, slist, verify);
    sums', bad, diffs := sums, [], [];
    var paint := new DeltaFlags(|t|);
    hide Arrived, Indexes, Lists, SerialmapsOk, Disagree, Checksum, DiffsRight, Reported, WellFormed, NewestFirst;
    ReportNone(sums, s, smap, order, fix);
    DiffsNone(t, s, smap, order, verify);
    for k := 0 to |order|
      invariant |sums'| == |sums|
      invariant (prev == 0 || IsDelta(t, prev)) && paint.Clear(|t|) && fresh(paint)
      invariant Arrived(files, mem, sum, diffcount, slist, smap, Closures(t, verify), verify, prev)
      invariant Reported(sums, sums', bad, s, smap, order, k, fix)
      invariant DiffsRight(t, s, smap, order, diffs, k, verify)
    {
      var d := order[k];
      mem, sum, diffcount, slist :=
        Advance(t, paint, smap, files, csetlist, prev, d, mem, sum, diffcount, slist, verify);
      ArrivedMeans(t, files, s, mem, sum, diffcount, slist, smap, verify, d);
      ReportOne(sums, sums', bad, s, smap, order, k, fix);
      DiffsMore(t, s, smap, order, diffs, k, verify, diffcount);
      prev := d;
      diffs := diffs + [diffcount];
      if sums'[d] != sum {
        if fix { sums' := sums'[d := sum]; }
        bad := bad + [d];
      }
    }
    ReportAll(sums, sums', bad, s, smap, order, fix);
    DiffsAll(t, s, smap, order, diffs, verify);
  }

  /** The difference counts of the first n changesets of the order. */
  ghost predicate DiffsRight(t: Table, s: Stream, smap: seq<set<nat>>, order: seq<nat>, diffs: seq<int>, n: nat,
                             verify: bool)
    requires WellFormed(t) && |smap| == |t| && AllDeltas(t, order)
  {
    && |diffs| == n <= |order|
    && forall l :: 0 <= l < n ==> diffs[l] == if verify then |Disagree(s, smap[order[l]], Anc(t, order[l]))| else 0
  }

  lemma DiffsMore(t: Table, s: Stream, smap: seq<set<nat>>, order: seq<nat>, diffs: seq<int>, n: nat, verify: bool,
                  count: int)
    requires WellFormed(t) && |smap| == |t| && AllDeltas(t, order) && n < |order|
    requires DiffsRight(t, s, smap, order, diffs, n, verify)
    requires count == if verify then |Disagree(s, smap[order[n]], Anc(t, order[n]))| else 0
    ensures DiffsRight(t, s, smap, order, diffs + [count], n + 1, verify)
  {
    hide Disagree, Anc;
  }

  lemma DiffsNone(t: Table, s: Stream, smap: seq<set<nat>>, order: seq<nat>, verify: bool)
    requires WellFormed(t) && |smap| == |t| && AllDeltas(t, order)
    ensures DiffsRight(t, s, smap, order, [], 0, verify)
  {
  }

  lemma DiffsAll(t: Table, s: Stream, smap: seq<set<nat>>, order: seq<nat>, diffs: seq<int>, verify: bool)
    requires WellFormed(t) && |smap| == |t| && AllDeltas(t, order)
    requires DiffsRight(t, s, smap, order, diffs, |order|, verify)
    ensures |diffs| == |order|
    ensures forall k :: 0 <= k < |order| ==>
      diffs[k] == if verify then |Disagree(s, smap[order[k]], Anc(t, order[k]))| else 0
  {
  }

  lemma ReportNone(sums: seq<nat>, s: Stream, smap: seq<set<nat>>, order: seq<nat>, fix: bool)
    requires |sums| == |smap|
    ensures Reported(sums, sums, [], s, smap, order, 0, fix)
  {
  }

  lemma ArrivedMeans(t: Table, files: seq<File>, s: Stream, mem: Memory, sum: nat, diffcount: int, slist: seq<Bits>,
                     smap: seq<set<nat>>, verify: bool, d: nat)
    requires WellFormed(t) && |smap| == |t| && d < |t| && Indexes(files, s)
    requires Arrived(files, mem, sum, diffcount, slist, smap, Closures(t, verify), verify, d)
    ensures sum == Checksum(s, smap, d)
    ensures diffcount == if verify then |Disagree(s, smap[d], Anc(t, d))| else 0
  {
    hide Settled, Totals, Indexes;
    SettledMeans(files, s, mem, sum, diffcount, smap, Closures(t, verify), verify, d);
  }

  /** The visited changesets whose stored sum is wrong, in the order of the visits. */
  ghost function Misfits(sums: seq<nat>, s: Stream, smap: seq<set<nat>>, order: seq<nat>): seq<nat> {
    if order == [] then [] else
      var n := |order| - 1;
      var d := order[n];
      Misfits(sums, s, smap, order[..n]) +
      if d < |sums| && d < |smap| && sums[d] != Checksum(s, smap, d) then [d] else []
  }

  ghost predicate Once(order: seq<nat>) {
    forall i, j :: 0 <= i < j < |order| ==> order[i] != order[j]
  }

  /** The report after the first n changesets of the order. */
  ghost predicate Reported(sums: seq<nat>, sums': seq<nat>, bad: seq<nat>, s: Stream, smap: seq<set<nat>>,
                           order: seq<nat>, n: nat, fix: bool)
  {
    && |sums| == |sums'| == |smap| && n <= |order|
    && (forall d :: 0 <= d < |sums| && (!fix || d !in order[..n]) ==> sums'[d] == sums[d])
    && (forall d :: 0 <= d < |sums| && d in order[..n] ==>
         && (fix ==> sums'[d] == Checksum(s, smap, d))
         && (d in bad <==> sums[d] != Checksum(s, smap, d)))
    && (forall d :: d in bad ==> d in order[..n])
    && Listed(sums, bad, s, smap, order[..n])
  }

  ghost predicate Listed(sums: seq<nat>, bad: seq<nat>, s: Stream, smap: seq<set<nat>>, order: seq<nat>) {
    Once(order) ==> bad == Misfits(sums, s, smap, order)
  }

  lemma {:induction false} ListedMore(sums: seq<nat>, bad: seq<nat>, s: Stream, smap: seq<set<nat>>, order: seq<nat>,
                                      d: nat)
    requires Listed(sums, bad, s, smap, order) && d < |sums| == |smap|
    ensures Once(order + [d]) ==> d !in order
    ensures Listed(sums, if sums[d] != Checksum(s, smap, d) then bad + [d] else bad, s, smap, order + [d])
  {
    hide Checksum;
    var now := order + [d];
    assert now[..|order|] == order;
    if Once(now) {
      forall i, j | 0 <= i < j < |order| ensures order[i] != order[j] {
        assert now[i] == order[i] && now[j] == order[j];
      }
      forall i | 0 <= i < |order| ensures order[i] != d { assert now[i] == order[i] && now[|order|] == d; }
    }
  }

  lemma {:induction false} ReportOne(sums: seq<nat>, sums': seq<nat>, bad: seq<nat>, s: Stream, smap: seq<set<nat>>,
                                     order: seq<nat>, n: nat, fix: bool)
    requires n < |order| && Reported(sums, sums', bad, s, smap, order, n, fix) && order[n] < |sums|
    ensures var d := order[n]; var sum := Checksum(s, smap, d);
            Reported(sums, if sums'[d] != sum && fix then sums'[d := sum] else sums',
                     if sums'[d] != sum then bad + [d] else bad, s, smap, order, n + 1, fix)
  {
    hide Checksum, Misfits, Once;
    assert order[..n + 1] == order[..n] + [order[n]];
    ListedMore(sums, bad, s, smap, order[..n], order[n]);
  }

  lemma ReportAll(sums: seq<nat>, sums': seq<nat>, bad: seq<nat>, s: Stream, smap: seq<set<nat>>, order: seq<nat>,
                  fix: bool)
    requires Reported(sums, sums', bad, s, smap, order, |order|, fix)
    requires forall k :: 0 <= k < |order| ==> order[k] < |smap|
    ensures forall k :: 0 <= k < |order| ==> (order[k] in bad <==> sums[order[k]] != Checksum(s, smap, order[k]))
    ensures fix ==> forall k :: 0 <= k < |order| ==> sums'[order[k]] == Checksum(s, smap, order[k])
    ensures forall d :: 0 <= d < |sums| && (!fix || d !in order) ==> sums'[d] == sums[d]
    ensures (forall d :: d in bad ==> d in order) && (Once(order) ==> bad == Misfits(sums, s, smap, order))
  {
    hide Checksum;
    assert order[..|order|] == order;
    assert forall k :: 0 <= k < |order| ==> order[k] in order;
  }
}
