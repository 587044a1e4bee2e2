/** src/commit.c, updateCsetChecksum: the checksum of a new changeset from the checksum of
    its parent, reading as little of the weave as possible. */
module CommitSum {
  import opened DeltaGraph
  import opened WalkRevs
  import opened Weave

  datatype KeyPair = KeyPair(rk: Key, dk: Key)

  ghost predicate DistinctKeys(keys: seq<KeyPair>) {
    forall i, j :: 0 <= i < j < |keys| ==> keys[i].rk != keys[j].rk
  }

  ghost function RkSet(keys: seq<KeyPair>): set<Key> {
    if keys == [] then {} else {keys[0].rk} + RkSet(keys[1..])
  }

  /** The items the new changeset d adds to the top of the weave. */
  function NewItems(keys: seq<KeyPair>, marks: seq<bool>, d: nat): Stream
    requires |keys| == |marks|
  {
    if keys == [] then [] else
      [Line(d, keys[0].rk, keys[0].dk)] + (if marks[0] then [Marker(d, keys[0].rk)] else []) +
      NewItems(keys[1..], marks[1..], d)
  }

  function KeySum(keys: seq<KeyPair>): nat {
    if keys == [] then 0 else LineSum(keys[0].rk, keys[0].dk) + KeySum(keys[1..])
  }

  /** The new keys are active in the new changeset and hide the older entries of their files. */
  lemma {:induction false} NewItemsSum(keys: seq<KeyPair>, marks: seq<bool>, d: nat, s: Stream, m: set<nat>,
                                       seen: set<Key>)
    requires |keys| == |marks| && DistinctKeys(keys) && d in m
    requires forall k :: 0 <= k < |keys| ==> keys[k].rk !in seen
    ensures PlainSum(NewItems(keys, marks, d) + s, m, seen) == KeySum(keys) + PlainSum(s, m, seen + RkSet(keys))
  {
    if keys == [] {
      assert NewItems(keys, marks, d) + s == s;
      assert seen + RkSet(keys) == seen;
    } else {
      var rk, rest := keys[0].rk, NewItems(keys[1..], marks[1..], d) + s;
      var marker := if marks[0] then [Marker(d, rk)] else [];
      assert NewItems(keys, marks, d) + s == [Line(d, rk, keys[0].dk)] + (marker + rest);
      MarkerIgnored(marker, rest, m, seen + {rk});
      NewItemsSum(keys[1..], marks[1..], d, s, m, seen + {rk});
      assert seen + {rk} + RkSet(keys[1..]) == seen + RkSet(keys);
    }
  }

  lemma MarkerIgnored(marker: Stream, rest: Stream, m: set<nat>, seen: set<Key>)
    requires |marker| <= 1 && (marker != [] ==> marker[0].Marker?)
    ensures PlainSum(marker + rest, m, seen) == PlainSum(rest, m, seen)
  {
    if marker == [] {
      assert marker + rest == rest;
    } else {
      assert (marker + rest)[1..] == rest;
    }
  }

  /** The root parts of a set of rootkeys. */
  ghost function SumSet(ks: set<Key>): nat
    decreases |ks|
  {
    if ks == {} then 0 else
      var rk :| rk in ks;
      RootPart(rk) + SumSet(ks - {rk})
  }

  lemma {:induction false} SumSetPick(ks: set<Key>, rk: Key)
    requires rk in ks
    ensures SumSet(ks) == RootPart(rk) + SumSet(ks - {rk})
    decreases |ks|
  {
    var x :| x in ks && SumSet(ks) == RootPart(x) + SumSet(ks - {x});
    if x != rk {
      SumSetPick(ks - {x}, rk);
      SumSetPick(ks - {rk}, x);
      assert ks - {x} - {rk} == ks - {rk} - {x};
    }
  }

  /** The accounts of the scan. The new changeset (A) and its parent (B) each have a part
      that is settled and the rootkeys it has seen; pending rootkeys are in A but not yet
      found in B, and still owe their root part; closed ones will not be met again. */
  datatype Books = Books(accA: int, accB: int, seenA: set<Key>, seenB: set<Key>, pending: set<Key>, closed: set<Key>)

  ghost predicate BooksOk(b: Books, rest: Stream) {
    && b.seenB <= b.seenA && b.pending <= b.seenA
    && (forall rk :: rk in b.seenA ==> (rk in b.pending <==> rk !in b.seenB && rk !in b.closed))
    && (forall k :: 0 <= k < |rest| ==> rest[k].rk !in b.closed)
  }

  /** What is settled and what is still to be read make up the two checksums. */
  ghost predicate Balanced(b: Books, rest: Stream, m: set<nat>, P: set<nat>, TA: int, TB: int) {
    && b.accA + PlainSum(rest, m, b.seenA) == TA
    && b.accB + PlainSum(rest, P, b.seenB) == TB
  }

  ghost function Owing(b: Books): int {
    b.accA - b.accB - SumSet(b.pending)
  }

  /** The books after one more item. */
  ghost function Enter(b: Books, it: Item, inP: bool): Books {
    if it.Marker? then
      if inP || it.rk !in b.pending then b
      else b.(pending := b.pending - {it.rk}, closed := b.closed + {it.rk})
    else
      var line := LineSum(it.rk, it.dk);
      if it.rk !in b.seenA then
        if inP then b.(accA := b.accA + line, accB := b.accB + line, seenA := b.seenA + {it.rk},
          seenB := b.seenB + {it.rk})
        else b.(accA := b.accA + line, seenA := b.seenA + {it.rk}, pending := b.pending + {it.rk})
      else if inP && it.rk !in b.seenB then
        b.(accB := b.accB + line, seenB := b.seenB + {it.rk}, pending := b.pending - {it.rk})
      else b
  }

  /** How one more item moves the running sum. */
  function Change(it: Item, inP: bool, known: bool, pending: bool): int {
    if it.Marker? then (if pending && !inP then RootPart(it.rk) else 0)
    else if !known then (if inP then 0 else Bytes(it.dk))
    else if inP && pending then 0 - Bytes(it.dk) as int
    else 0
  }

  lemma {:induction false} EnterOk(b: Books, rest: Stream, m: set<nat>, P: set<nat>, TA: int, TB: int)
    requires rest != [] && BooksOk(b, rest) && MarkersSound(rest) && rest[0].ser in m && P <= m
    requires Balanced(b, rest, m, P, TA, TB)
    ensures var inP := rest[0].ser in P;
            BooksOk(Enter(b, rest[0], inP), rest[1..]) && Balanced(Enter(b, rest[0], inP), rest[1..], m, P, TA, TB)
  {
    var it := rest[0];
    if it.Marker? {
      forall k | 0 <= k < |rest[1..]| ensures rest[1..][k].rk != it.rk && rest[1..][k].rk !in b.closed {
        assert rest[1..][k] == rest[k + 1];
      }
    } else {
      assert it.rk !in b.closed;
      assert b.seenA + {it.rk} == b.seenA || it.rk !in b.seenA;
    }
  }

  lemma {:induction false} EnterChange(b: Books, rest: Stream, inP: bool)
    requires rest != [] && BooksOk(b, rest)
    ensures var it := rest[0];
            Owing(Enter(b, it, inP)) == Owing(b) + Change(it, inP, it.rk in b.seenA, it.rk in b.pending)
  {
    var it := rest[0];
    var b' := Enter(b, it, inP);
    assert it.rk !in b.closed;
    if it.rk in b.pending {
      SumSetPick(b.pending, it.rk);
    } else if it.rk in b'.pending {
      SumSetPick(b'.pending, it.rk);
      assert b'.pending - {it.rk} == b.pending;
    }
  }

  /** With nothing pending and only common entries left, the rest moves both checksums alike. */
  lemma {:induction false} TailAlike(rest: Stream, m: set<nat>, P: set<nat>, seenA: set<Key>, seenB: set<Key>)
    requires P <= m
    requires forall k :: 0 <= k < |rest| ==> rest[k].ser in P && (rest[k].rk in seenA <==> rest[k].rk in seenB)
    ensures PlainSum(rest, m, seenA) == PlainSum(rest, P, seenB)
  {
    if rest != [] {
      var it := rest[0];
      assert forall k :: 0 <= k < |rest[1..]| ==> rest[1..][k] == rest[k + 1];
      if it.Line? && it.rk !in seenA {
        TailAlike(rest[1..], m, P, seenA + {it.rk}, seenB + {it.rk});
      } else {
        TailAlike(rest[1..], m, P, seenA, seenB);
      }
    }
  }

  lemma EarlyExit(b: Books, rest: Stream, m: set<nat>, P: set<nat>, TA: int, TB: int)
    requires BooksOk(b, rest) && Balanced(b, rest, m, P, TA, TB) && P <= m && b.pending == {}
    requires forall k :: 0 <= k < |rest| ==> rest[k].ser in P
    ensures Owing(b) == TA - TB
  {
    TailAlike(rest, m, P, b.seenA, b.seenB);
  }

  /** Which side of the merge a delta is on. */
  datatype Region = Remote | Local | Common

  /** What the scan remembers of a rootkey (the source's rinfo). */
  datatype Rinfo = Rinfo(n: nat, remote: bool, local: bool, done: bool, inremote: bool)

  /** The hash and the counter agree with the books. While the merge region is open the
      hash knows every rootkey seen, and the counter is one more than what is pending. */
  ghost predicate HashOk(h: map<Key, Rinfo>, todo: int, merge: bool, b: Books) {
    && HashKeys(h.Keys, merge, b)
    && HashMarks(h, b.pending)
    && todo == |b.pending| + Bit(merge)
  }

  ghost predicate HashKeys(ks: set<Key>, merge: bool, b: Books) {
    if merge then ks == b.seenA else ks <= b.seenA && b.seenA - ks <= b.seenB
  }

  ghost predicate HashMarks(h: map<Key, Rinfo>, pending: set<Key>) {
    && pending <= h.Keys
    && forall rk :: rk in h ==> (h[rk].done <==> rk !in pending)
  }

  /** A rootkey met for the first time: it joins the hash while the merge region is open. */
  lemma HashMeet(h: map<Key, Rinfo>, todo: int, merge: bool, b: Books, it: Item, inP: bool, info: Rinfo,
                 h': map<Key, Rinfo>, todo': int)
    requires HashOk(h, todo, merge, b) && it.Line? && it.rk !in b.seenA && (!merge ==> inP)
    requires info.done == inP && h' == (if merge then h[it.rk := info] else h)
    requires todo' == (if inP then todo else todo + 1)
    ensures HashOk(h', todo', merge, Enter(b, it, inP)) && (inP ==> it.rk !in Enter(b, it, inP).pending)
  {
    var b' := Enter(b, it, inP);
    if !inP { assert b'.pending == b.pending + {it.rk}; }
    if !merge {
      assert b'.seenA - h.Keys <= b'.seenB;
    } else {
      assert h'.Keys == b'.seenA;
    }
  }

  /** A rootkey that is done stays as it is. */
  lemma HashDone(h: map<Key, Rinfo>, todo: int, merge: bool, b: Books, it: Item, inP: bool)
    requires HashOk(h, todo, merge, b) && it.rk in b.seenA && it.rk !in b.pending
    requires it.rk in b.seenB || it.rk in b.closed
    requires it.rk !in b.closed
    ensures Enter(b, it, inP) == b
  {
  }

  /** A pending rootkey is found in the parent, or its file turns out to be new there. */
  lemma HashSettle(h: map<Key, Rinfo>, todo: int, merge: bool, b: Books, it: Item, inP: bool, info: Rinfo)
    requires HashOk(h, todo, merge, b) && it.rk in b.pending && it.rk in b.seenA && it.rk !in b.seenB
    requires it.Marker? == !inP && info.done
    ensures HashOk(h[it.rk := info], todo - 1, merge, Enter(b, it, inP)) && it.rk !in Enter(b, it, inP).pending
  {
    var b' := Enter(b, it, inP);
    assert b.pending == b'.pending + {it.rk};
    assert h[it.rk := info].Keys == h.Keys;
  }

  /** A pending rootkey is met again on the merge side only. */
  lemma HashAgain(h: map<Key, Rinfo>, todo: int, merge: bool, b: Books, it: Item, info: Rinfo)
    requires HashOk(h, todo, merge, b) && it.rk in b.pending && it.rk in b.seenA && it.Line? && !info.done
    ensures HashOk(h[it.rk := info], todo, merge, Enter(b, it, false))
  {
    assert h[it.rk := info].Keys == h.Keys;
  }

  /** What one item changes in the hash: only the entry of its rootkey. The side it was
      first seen on is kept; if it stays pending, it is noted as seen in the remote. */
  ghost predicate Noted(h: map<Key, Rinfo>, h': map<Key, Rinfo>, it: Item, region: Region, merge: bool, b': Books) {
    && (forall rk :: rk in h ==> rk in h' && (rk != it.rk ==> h'[rk] == h[rk]))
    && (forall rk :: rk in h' ==> rk in h || rk == it.rk)
    && (it.rk in b'.pending ==> it.rk in h' && h'[it.rk].inremote)
    && (it.rk in h ==> it.rk in h' && h'[it.rk].remote == h[it.rk].remote && h'[it.rk].local == h[it.rk].local)
    && (it.rk !in h && merge ==>
      it.rk in h' && h'[it.rk].remote == (region == Remote) && h'[it.rk].local == (region == Local))
  }

  /** An item whose rootkey the hash does not know. */
  method ScanUnknown(it: Item, region: Region, merge: bool, h: map<Key, Rinfo>, todo: int, sum: nat, ghost b: Books)
    returns (h': map<Key, Rinfo>, todo': int, sum': nat)
    requires HashOk(h, todo, merge, b) && it.rk !in h && it.rk !in b.closed && U32(sum) == sum
    requires it.Marker? ==> it.rk in b.seenA
    requires !merge ==> region == Common
    ensures sum' == U32(sum + Change(it, region != Remote, it.rk in b.seenA, it.rk in b.pending))
    ensures HashOk(h', todo', merge, Enter(b, it, region != Remote))
    ensures Noted(h, h', it, region, merge, Enter(b, it, region != Remote))
  {
    hide U32, Bytes, RootPart, Enter, HashOk;
    h', todo', sum' := h, todo, sum;
    HashAt(h, todo, merge, b, it.rk);
    if !merge {
      // not a key we care about
      if it.rk in b.seenA {
        HashDone(h, todo, merge, b, it, true);
      } else {
        HashMeet(h, todo, merge, b, it, true, Rinfo(0, false, false, true, false), h, todo);
      }
    } else if region == Remote {
      // a new delta on the merge side only
      var info := Rinfo(it.ser, true, false, false, true);
      h', todo', sum' := h[it.rk := info], todo + 1, U32(sum + Bytes(it.dk));
      HashMeet(h, todo, merge, b, it, false, info, h', todo');
    } else {
      var info := Rinfo(0, false, region == Local, true, false);
      h' := h[it.rk := info];
      HashMeet(h, todo, merge, b, it, true, info, h', todo');
    }
  }

  /** An item whose rootkey is still being looked for. */
  method ScanWanted(it: Item, region: Region, merge: bool, h: map<Key, Rinfo>, todo: int, sum: nat, ghost b: Books)
    returns (h': map<Key, Rinfo>, todo': int, sum': nat)
    requires HashOk(h, todo, merge, b) && it.rk in h && it.rk in b.pending && it.rk in b.seenA && it.rk !in b.seenB
    requires U32(sum) == sum
    requires it.Marker? ==> region == Remote
    ensures sum' == U32(sum + Change(it, region != Remote, true, true))
    ensures HashOk(h', todo', merge, Enter(b, it, region != Remote))
    ensures Noted(h, h', it, region, merge, Enter(b, it, region != Remote))
  {
    hide U32, Bytes, RootPart, Enter, HashOk;
    var info := h[it.rk];
    assert !info.done by { HashWanted(h, todo, merge, b, it.rk); }
    if region == Remote && it.Line? {
      // maybe a new file
      info := info.(inremote := true, n := it.ser);
      HashAgain(h, todo, merge, b, it, info);
      todo', sum' := todo, sum;
    } else {
      // a new file, or the previous deltakey of one of the files
      info := info.(done := true);
      HashSettle(h, todo, merge, b, it, region != Remote, info);
      todo', sum' := todo - 1, if region == Remote then U32(sum + RootPart(it.rk)) else U32(sum - Bytes(it.dk));
    }
    h' := h[it.rk := info];
  }

  lemma HashWanted(h: map<Key, Rinfo>, todo: int, merge: bool, b: Books, rk: Key)
    requires HashOk(h, todo, merge, b) && rk in h && rk in b.pending
    ensures !h[rk].done
  {
  }

  /** One item of the scan. */
  method ScanItem(it: Item, region: Region, merge: bool, h: map<Key, Rinfo>, todo: int, sum: nat, ghost b: Books,
                  ghost rest: Stream)
    returns (h': map<Key, Rinfo>, todo': int, sum': nat)
    requires rest != [] && rest[0] == it && BooksOk(b, rest) && HashOk(h, todo, merge, b)
    requires it.Marker? ==> it.rk in b.seenA && (region != Remote ==> it.rk in b.seenB)
    requires !merge ==> region == Common
    requires U32(sum) == sum
    ensures sum' == U32(sum + Change(it, region != Remote, it.rk in b.seenA, it.rk in b.pending))
    ensures HashOk(h', todo', merge, Enter(b, it, region != Remote))
    ensures Noted(h, h', it, region, merge, Enter(b, it, region != Remote))
  {
    hide U32, Bytes, RootPart, Enter, HashOk, BooksOk;
    BooksAt(b, rest);
    HashAt(h, todo, merge, b, it.rk);
    if it.rk !in h {
      h', todo', sum' := ScanUnknown(it, region, merge, h, todo, sum, b);
    } else if h[it.rk].done {
      HashDone(h, todo, merge, b, it, region != Remote);
      h', todo', sum' := h, todo, sum;
    } else {
      h', todo', sum' := ScanWanted(it, region, merge, h, todo, sum, b);
    }
  }

  lemma BooksAt(b: Books, rest: Stream)
    requires rest != [] && BooksOk(b, rest)
    ensures rest[0].rk !in b.closed
    ensures rest[0].rk in b.seenA ==> (rest[0].rk in b.pending <==> rest[0].rk !in b.seenB)
    ensures rest[0].rk in b.seenB ==> rest[0].rk in b.seenA
  {
  }

  lemma HashAt(h: map<Key, Rinfo>, todo: int, merge: bool, b: Books, rk: Key)
    requires HashOk(h, todo, merge, b)
    ensures rk in h ==> rk in b.seenA && (h[rk].done <==> rk !in b.pending)
    ensures rk in b.pending ==> rk in h
    ensures rk in b.seenA && rk !in h ==> rk in b.seenB && !merge
  {
    if rk in b.seenA && rk !in h { assert rk in b.seenA - h.Keys; }
  }

  // ---------- seeding the hash with the keys of the commit ----------

  lemma {:induction false} KeySumAppend(keys: seq<KeyPair>, k: KeyPair)
    ensures KeySum(keys + [k]) == KeySum(keys) + LineSum(k.rk, k.dk)
  {
    if keys == [] {
      assert keys + [k] == [k];
      assert [k][1..] == [];
    } else {
      assert (keys + [k])[1..] == keys[1..] + [k];
      KeySumAppend(keys[1..], k);
    }
  }

  lemma {:induction false} RkSetAppend(keys: seq<KeyPair>, k: KeyPair)
    ensures RkSet(keys + [k]) == RkSet(keys) + {k.rk}
  {
    if keys == [] {
      assert keys + [k] == [k];
      assert [k][1..] == [];
    } else {
      assert (keys + [k])[1..] == keys[1..] + [k];
      RkSetAppend(keys[1..], k);
    }
  }

  lemma {:induction false} RkSetHas(keys: seq<KeyPair>, rk: Key)
    ensures rk in RkSet(keys) <==> exists k :: 0 <= k < |keys| && keys[k].rk == rk
  {
    if keys != [] {
      RkSetHas(keys[1..], rk);
      if exists k :: 0 <= k < |keys| && keys[k].rk == rk {
        var k :| 0 <= k < |keys| && keys[k].rk == rk;
        if k > 0 { assert keys[1..][k - 1].rk == rk; }
      }
    }
  }

  /** The books before the scan: every key of the commit is active in the new changeset. */
  ghost function StartBooks(keys: seq<KeyPair>, heap: set<Key>): Books {
    Books(KeySum(keys), 0, RkSet(keys), {}, RkSet(keys) * heap, RkSet(keys) - heap)
  }

  ghost predicate MarksNew(keys: seq<KeyPair>, marks: seq<bool>, heap: set<Key>) {
    |marks| == |keys| && forall k :: 0 <= k < |keys| ==> (marks[k] <==> keys[k].rk !in heap)
  }

  /** The hash holds exactly the keys of the commit, each with its index. */
  ghost predicate Seeded(h: map<Key, Rinfo>, keys: seq<KeyPair>) {
    && h.Keys == RkSet(keys)
    && forall rk :: rk in h ==>
      h[rk].n < |keys| && keys[h[rk].n].rk == rk && !h[rk].inremote && !h[rk].remote && !h[rk].local
  }

  ghost predicate SeedOk(h: map<Key, Rinfo>, todo: int, sum: nat, merge: bool, keys: seq<KeyPair>, marks: seq<bool>,
                         heap: set<Key>) {
    && HashOk(h, todo, merge, StartBooks(keys, heap)) && Seeded(h, keys)
    && sum == U32(Owing(StartBooks(keys, heap))) && MarksNew(keys, marks, heap)
  }

  /** One more key of the commit in the starting books. */
  lemma {:induction false} StartBooksMore(keys: seq<KeyPair>, heap: set<Key>, k: KeyPair)
    requires k.rk !in RkSet(keys)
    ensures var b, b' := StartBooks(keys, heap), StartBooks(keys + [k], heap);
            && b'.accA == b.accA + LineSum(k.rk, k.dk) && b'.accB == b.accB && b'.seenB == b.seenB == {}
            && b'.seenA == b.seenA + {k.rk} && b.seenA == RkSet(keys) && k.rk !in b.pending
            && b'.pending == (if k.rk in heap then b.pending + {k.rk} else b.pending)
  {
    hide LineSum, KeySum;
    KeySumAppend(keys, k);
    RkSetAppend(keys, k);
    var rks := RkSet(keys);
    assert (rks + {k.rk}) * heap == if k.rk in heap then rks * heap + {k.rk} else rks * heap;
  }

  lemma {:induction false} StartOwing(keys: seq<KeyPair>, heap: set<Key>, k: KeyPair)
    requires k.rk !in RkSet(keys)
    ensures Owing(StartBooks(keys + [k], heap)) ==
            Owing(StartBooks(keys, heap)) + Bytes(k.dk) + if k.rk in heap then 0 else RootPart(k.rk)
  {
    hide StartBooks, SumSet, RootPart;
    StartBooksMore(keys, heap, k);
    var b, b' := StartBooks(keys, heap), StartBooks(keys + [k], heap);
    if k.rk in heap {
      SumSetPick(b'.pending, k.rk);
      assert b'.pending - {k.rk} == b.pending;
    }
  }

  lemma HashGrow(h: map<Key, Rinfo>, todo: int, merge: bool, b: Books, rk: Key, known: bool, info: Rinfo, b': Books)
    requires HashOk(h, todo, merge, b) && rk !in h && h.Keys == b.seenA && info.done == !known && rk !in b.pending
    requires b'.seenA == b.seenA + {rk} && b'.seenB == b.seenB
    requires b'.pending == if known then b.pending + {rk} else b.pending
    ensures HashOk(h[rk := info], if known then todo + 1 else todo, merge, b')
  {
    hide HashMarks, HashKeys;
    var h' := h[rk := info];
    assert h'.Keys == b'.seenA;
    KeysAll(b', merge);
    MarksGrow(h, b.pending, rk, known, info);
  }

  lemma KeysAll(b: Books, merge: bool)
    ensures HashKeys(b.seenA, merge, b)
  {
  }

  lemma MarksGrow(h: map<Key, Rinfo>, pending: set<Key>, rk: Key, known: bool, info: Rinfo)
    requires HashMarks(h, pending) && rk !in h && info.done == !known
    ensures HashMarks(h[rk := info], if known then pending + {rk} else pending)
  {
  }

  lemma {:induction false} StartHash(h: map<Key, Rinfo>, todo: int, merge: bool, keys: seq<KeyPair>, heap: set<Key>,
                                     k: KeyPair, info: Rinfo)
    requires HashOk(h, todo, merge, StartBooks(keys, heap)) && h.Keys == RkSet(keys) && k.rk !in RkSet(keys)
    requires info.done == (k.rk !in heap)
    ensures HashOk(h[k.rk := info], if k.rk in heap then todo + 1 else todo, merge, StartBooks(keys + [k], heap))
  {
    hide StartBooks, RkSet;
    StartBooksMore(keys, heap, k);
    HashGrow(h, todo, merge, StartBooks(keys, heap), k.rk, k.rk in heap, info, StartBooks(keys + [k], heap));
  }

  lemma {:induction false} SeedMore(h: map<Key, Rinfo>, todo: int, sum: nat, merge: bool, keys: seq<KeyPair>,
                                    marks: seq<bool>, heap: set<Key>, k: KeyPair)
    requires SeedOk(h, todo, sum, merge, keys, marks, heap) && k.rk !in h
    ensures var known := k.rk in heap;
            SeedOk(h[k.rk := Rinfo(|keys|, false, false, !known, false)], if known then todo + 1 else todo,
                   U32(sum + Bytes(k.dk) + if known then 0 else RootPart(k.rk)), merge, keys + [k], marks + [!known],
                     heap)
  {
    hide U32, StartBooks, Owing, HashOk, RootPart, Bytes, RkSet;
    var info := Rinfo(|keys|, false, false, k.rk !in heap, false);
    assert k.rk !in RkSet(keys);
    StartHash(h, todo, merge, keys, heap, k, info);
    StartOwing(keys, heap, k);
    U32Add(Owing(StartBooks(keys, heap)), Bytes(k.dk) + if k.rk in heap then 0 else RootPart(k.rk));
    SeededMore(h, keys, k, info);
  }

  lemma SeededMore(h: map<Key, Rinfo>, keys: seq<KeyPair>, k: KeyPair, info: Rinfo)
    requires Seeded(h, keys) && info.n == |keys| && !info.inremote && !info.remote && !info.local
    ensures Seeded(h[k.rk := info], keys + [k])
  {
    RkSetAppend(keys, k);
    hide RkSet;
    assert h[k.rk := info].Keys == h.Keys + {k.rk};
  }

  lemma U32Add(a: int, b: int)
    ensures U32(U32(a) + b) == U32(a + b)
  {
  }

  /** Enters the keys of the commit; reports a rootkey that appears twice. */
  method Seed(keys: seq<KeyPair>, heap: set<Key>, merge: bool)
    returns (dup: bool, h: map<Key, Rinfo>, todo: int, sum: nat, marks: seq<bool>)
    ensures dup <==> !DistinctKeys(keys)
    ensures !dup ==> SeedOk(h, todo, sum, merge, keys, marks, heap)
  {
    hide SeedOk, U32, Bytes, RootPart;
    dup, h, todo, sum, marks := false, map[], Bit(merge), 0, [];
    SeedNone(heap, merge);
    for i := 0 to |keys|
      invariant SeedOk(h, todo, sum, merge, keys[..i], marks, heap)
      invariant DistinctKeys(keys[..i]) && |marks| == i
    {
      var k := keys[i];
      SeedKnows(h, todo, sum, merge, keys[..i], marks, heap);
      assert keys[..i + 1] == keys[..i] + [k];
      if k.rk in h {
        // same rootkey appears twice
        dup := true;
        return;
      }
      SeedMore(h, todo, sum, merge, keys[..i], marks, heap, k);
      var known := k.rk in heap;
      h := h[k.rk := Rinfo(i, false, false, !known, false)];
      todo := if known then todo + 1 else todo;
      sum := U32(sum + Bytes(k.dk) + if known then 0 else RootPart(k.rk));
      marks := marks + [!known];
    }
    assert keys[..|keys|] == keys;
  }

  lemma SeedNone(heap: set<Key>, merge: bool)
    ensures SeedOk(map[], Bit(merge), 0, merge, [], [], heap)
  {
    assert RkSet([]) * heap == {} && RkSet([]) - heap == {};
    assert StartBooks([], heap) == Books(0, 0, {}, {}, {}, {});
    assert SumSet({}) == 0;
  }

  lemma SeedKnows(h: map<Key, Rinfo>, todo: int, sum: nat, merge: bool, keys: seq<KeyPair>, marks: seq<bool>,
                  heap: set<Key>)
    requires SeedOk(h, todo, sum, merge, keys, marks, heap)
    ensures forall rk :: rk in h <==> exists k :: 0 <= k < |keys| && keys[k].rk == rk
  {
    hide StartBooks, Owing, HashOk, U32;
    forall rk ensures rk in h <==> exists k :: 0 <= k < |keys| && keys[k].rk == rk {
      RkSetHas(keys, rk);
    }
  }

  // ---------- the two sides of a merge ----------

  /** Which side of the merge of P and Q serial x is on; without a merge there are no sides. */
  ghost function Side(P: set<nat>, Q: set<nat>, x: nat): Region {
    if x in Q && x !in P then Remote else if x in P && x !in Q && Q != {} then Local else Common
  }

  function RegionOf(c: Colour): Region {
    if c == Colour(true, false) then Remote else if c == Colour(false, true) then Local else Common
  }

  /** Red deltas are only under the merge parent, blue ones only under the parent. */
  ghost predicate Coloured(flags: seq<Colour>, P: set<nat>, Q: set<nat>, hi: nat) {
    && hi <= |flags|
    && forall x :: 0 <= x < hi ==> flags[x] == Colour(x in Q && x !in P, x in P && x !in Q)
  }

  ghost predicate Painted(flags: seq<Colour>, R: set<nat>, B: set<nat>, lo: nat) {
    forall x: nat :: x < |flags| ==>
      flags[x] == if x >= lo && Wants(true, R, B, x) then Colour(x in R, x in B) else CLEAR
  }

  /** rstart is the smallest coloured serial, or 0 when nothing is coloured. */
  ghost predicate Lowest(flags: seq<Colour>, rstart: nat) {
    && (rstart == 0 ==> forall x :: 0 <= x < |flags| ==> flags[x] == CLEAR)
    && (rstart > 0 ==> rstart < |flags| && flags[rstart] != CLEAR && forall x :: 0 <= x < rstart ==> flags[x] == CLEAR)
  }

  lemma PaintOne(flags: seq<Colour>, R: set<nat>, B: set<nat>, hi: nat, r: nat)
    requires Painted(flags, R, B, hi) && NoneBetween(true, R, B, r, hi) && 0 < r < hi && r < |flags|
    requires Wants(true, R, B, r)
    ensures Painted(flags[r := Colour(r in R, r in B)], R, B, r) && Lowest(flags[r := Colour(r in R, r in B)], r)
  {
  }

  lemma PaintDone(flags: seq<Colour>, R: set<nat>, B: set<nat>, hi: nat)
    requires Painted(flags, R, B, hi) && NoneBetween(true, R, B, 0, hi) && 0 !in R && 0 !in B
    ensures Coloured(flags, B, R, |flags|)
  {
    forall x | 0 <= x < |flags| ensures flags[x] == Colour(x in R && x !in B, x in B && x !in R) {
      assert 0 < x < hi ==> !Wants(true, R, B, x);
    }
  }

  /** Colours the two sides of the merge of p and q. */
  method ColourMerge(t: Table, paint: DeltaFlags, p: nat, q: nat) returns (flags: seq<Colour>, rstart: nat)
    requires WellFormed(t) && IsDelta(t, p) && IsDelta(t, q) && paint.Clear(|t|)
    modifies paint
    ensures |flags| == |t| && Coloured(flags, Anc(t, p), Anc(t, q), |t|) && Lowest(flags, rstart) && paint.Clear(|t|)
  {
    hide Painted, NoneBetween, Wants, Lowest, Anc, AncOf, Coloured;
    flags, rstart := seq(|t|, _ => CLEAR), 0;
    var w := new Walker(t, paint, [p], [q], EITHER);
    hide w.Valid, w.Bounded;
    ghost var R, B := w.sets.red, w.sets.blue;
    StartPaint(t, p, q, flags, w.d);
    while true
      invariant w.Valid() && w.t == t && w.paint == paint && w.mode == EITHER && fresh(w)
      invariant w.sets.red == R && w.sets.blue == B
      invariant |flags| == |t| && Painted(flags, R, B, w.d) && Lowest(flags, rstart)
      decreases w.d
    {
      ghost var before := w.d;
      var r := w.Next();
      if r == 0 {
        PaintDone(flags, R, B, before);
        break;
      }
      PaintOne(flags, R, B, before, r);
      flags := flags[r := w.color];
      rstart := r;
    }
    w.Done();
  }

  lemma StartPaint(t: Table, p: nat, q: nat, flags: seq<Colour>, d: nat)
    requires WellFormed(t) && IsDelta(t, p) && IsDelta(t, q) && flags == seq(|t|, _ => CLEAR)
    requires forall x :: x in AncOf(t, [q]) || x in AncOf(t, [p]) ==> 1 <= x < d
    ensures AncOf(t, [q]) == Anc(t, q) && AncOf(t, [p]) == Anc(t, p)
    ensures Painted(flags, Anc(t, q), Anc(t, p), d) && Lowest(flags, 0)
    ensures 0 !in Anc(t, p) && 0 !in Anc(t, q)
  {
    assert [p][0] == p && [q][0] == q;
    assert AncOf(t, [q]) == Anc(t, q) && AncOf(t, [p]) == Anc(t, p);
    AncNoZero(t, p);
    AncNoZero(t, q);
  }

  // ---------- the scan ----------

  /** The weave below the new changeset, as the scan may rely on it: newest first, entries
      only of deltas under one of the parents, every rootkey known to the heap, and each
      marker right after the entry it marks, which is the last of its rootkey. */
  ghost predicate WeaveOk(s: Stream, n: nat, P: set<nat>, Q: set<nat>, heap: set<Key>) {
    && NewestFirst(s) && MarkersSound(s)
    && (forall k :: 0 <= k < |s| ==> 1 <= s[k].ser < n && (s[k].ser in P || s[k].ser in Q) && s[k].rk in heap)
    && (forall k :: 0 <= k < |s| && s[k].Marker? ==>
      k > 0 && s[k - 1].Line? && s[k - 1].rk == s[k].rk && s[k - 1].ser == s[k].ser)
  }

  /** The side of the newest entry of every rootkey among the first n items. */
  ghost function FirstSides(s: Stream, n: nat, P: set<nat>, Q: set<nat>): map<Key, Region>
    requires n <= |s|
  {
    if n == 0 then map[] else
      var f, it := FirstSides(s, n - 1, P, Q), s[n - 1];
      if it.rk in f then f else f[it.rk := Side(P, Q, it.ser)]
  }

  /** Item j lies across the merge from the newest entry of its rootkey, and the commit
      does not merge that rootkey. */
  ghost predicate Unmerged(s: Stream, j: nat, P: set<nat>, Q: set<nat>, rks: set<Key>, gone: set<Key>)
    requires j < |s|
  {
    var f, rk, side := FirstSides(s, j, P, Q), s[j].rk, Side(P, Q, s[j].ser);
    && rk !in rks && rk !in gone && rk in f
    && ((f[rk] == Remote && side == Local) || (f[rk] == Local && side == Remote))
  }

  ghost predicate AnyUnmerged(s: Stream, n: nat, P: set<nat>, Q: set<nat>, rks: set<Key>, gone: set<Key>)
    requires n <= |s|
  {
    exists j :: 0 <= j < n && Unmerged(s, j, P, Q, rks, gone)
  }

  /** No serial below rstart is on one side only. */
  ghost predicate CommonBelow(P: set<nat>, Q: set<nat>, rstart: nat) {
    forall x: nat :: x < rstart ==> Side(P, Q, x) == Common
  }

  /** From item i on everything is common to both sides. */
  ghost predicate CommonFrom(s: Stream, i: nat, P: set<nat>, Q: set<nat>) {
    forall k :: i <= k < |s| ==> s[k].ser in P && Side(P, Q, s[k].ser) == Common
  }

  /** The position of the scan in the merge, before item i: which side the current delta is
      on, and the colours of the deltas still to come. */
  ghost predicate Before(s: Stream, i: nat, flags: seq<Colour>, P: set<nat>, Q: set<nat>, rstart: nat, merge: bool,
                         cur: nat, region: Region)
    requires i <= |s|
  {
    if merge then
      && Q != {} && cur <= |flags| && Coloured(flags, P, Q, cur) && CommonBelow(P, Q, rstart)
      && (if i == 0 then cur == |flags| else cur == s[i - 1].ser && region == Side(P, Q, cur))
    else
      region == Common && CommonFrom(s, i, P, Q)
  }

  /** The position at item i. */
  ghost predicate AtItem(s: Stream, i: nat, flags: seq<Colour>, P: set<nat>, Q: set<nat>, rstart: nat, merge: bool,
                         cur: nat, region: Region)
    requires i < |s|
  {
    && region == Side(P, Q, s[i].ser) && (region != Remote <==> s[i].ser in P)
    && (!merge ==> region == Common)
    && (i + 1 <= |s| ==> Before(s, i + 1, flags, P, Q, rstart, merge, cur, region))
  }

  lemma {:induction false} SameDelta(s: Stream, i: nat, flags: seq<Colour>, n: nat, P: set<nat>, Q: set<nat>,
                                     heap: set<Key>, rstart: nat, merge: bool, cur: nat, region: Region)
    requires i < |s| && WeaveOk(s, n, P, Q, heap) && |flags| == n
    requires Before(s, i, flags, P, Q, rstart, merge, cur, region)
    requires merge ==> cur == s[i].ser
    ensures AtItem(s, i, flags, P, Q, rstart, merge, cur, region)
  {
    assert s[i].ser in P || s[i].ser in Q;
  }

  lemma {:induction false} NextDelta(s: Stream, i: nat, flags: seq<Colour>, n: nat, P: set<nat>, Q: set<nat>,
                                     heap: set<Key>, rstart: nat, cur: nat, region: Region, flags': seq<Colour>)
    requires i < |s| && WeaveOk(s, n, P, Q, heap) && |flags| == n == |flags'|
    requires Before(s, i, flags, P, Q, rstart, true, cur, region)
    requires cur != s[i].ser && forall x :: 0 <= x < s[i].ser ==> flags'[x] == flags[x]
    ensures s[i].ser < cur && RegionOf(flags[s[i].ser]) == Side(P, Q, s[i].ser)
    ensures AtItem(s, i, flags', P, Q, rstart, s[i].ser >= rstart, s[i].ser, RegionOf(flags[s[i].ser]))
  {
    var e := s[i].ser;
    assert e in P || e in Q;
    assert e < cur;
    assert flags[e] == Colour(e in Q && e !in P, e in P && e !in Q);
    if e < rstart {
      forall k | i <= k < |s| ensures s[k].ser in P && Side(P, Q, s[k].ser) == Common {
        assert s[k].ser in P || s[k].ser in Q;
        assert Side(P, Q, s[k].ser) == Common;
      }
    }
  }

  /** What the hash remembers about rootkeys and sides. */
  ghost predicate Remembers(h: map<Key, Rinfo>, merge: bool, b: Books, first: map<Key, Region>, keys: seq<KeyPair>,
                            rks: set<Key>) {
    && (forall rk :: rk in b.pending && rk in h ==>
         && (h[rk].inremote <==> rk in first)
         && (!h[rk].inremote ==> h[rk].n < |keys| && keys[h[rk].n].rk == rk))
    && (merge ==> forall rk :: rk in h ==>
         && (h[rk].remote <==> rk !in rks && rk in first && first[rk] == Remote)
         && (h[rk].local <==> rk !in rks && rk in first && first[rk] == Local))
  }

  /** The books know the keys of the commit and what was met; what is settled was met,
      unless it was new from the start. */
  ghost predicate Met(b: Books, first: map<Key, Region>, rks: set<Key>, heap: set<Key>) {
    && (forall rk :: rk in b.seenA <==> rk in rks || rk in first)
    && (forall rk :: rk in b.seenA && rk !in b.pending && !(rk in rks && rk !in heap) ==> rk in first)
  }

  lemma MetMore(b: Books, first: map<Key, Region>, rks: set<Key>, heap: set<Key>, it: Item, inP: bool, side: Region)
    requires Met(b, first, rks, heap) && (it.Marker? ==> it.rk in b.seenA)
    ensures Met(Enter(b, it, inP), if it.rk in first then first else first[it.rk := side], rks, heap)
  {
  }

  /** The last item read is in the books. */
  ghost predicate Recent(s: Stream, i: nat, b: Books, P: set<nat>)
    requires i <= |s|
  {
    i > 0 && s[i - 1].Line? ==> s[i - 1].rk in b.seenA && (s[i - 1].ser in P ==> s[i - 1].rk in b.seenB)
  }

  /** The accounts after i items. */
  ghost predicate Accounts(s: Stream, i: nat, b: Books, h: map<Key, Rinfo>, todo: int, sum: nat, merge: bool,
                           m: set<nat>, P: set<nat>, TA: int, TB: int)
    requires i <= |s|
  {
    && BooksOk(b, s[i..]) && Balanced(b, s[i..], m, P, TA, TB) && HashOk(h, todo, merge, b)
    && sum == U32(Owing(b)) && Recent(s, i, b, P)
  }

  lemma {:induction false} RecentMore(s: Stream, i: nat, b: Books, P: set<nat>, inP: bool)
    requires i < |s| && inP == (s[i].ser in P) && BooksOk(b, s[i..])
    ensures Recent(s, i + 1, Enter(b, s[i], inP), P)
  {
    assert s[i..][0] == s[i];
  }

  lemma {:induction false} AccountsMore(s: Stream, i: nat, b: Books, h: map<Key, Rinfo>, todo: int, sum: nat,
                                        merge: bool,
                                        m: set<nat>, P: set<nat>, TA: int, TB: int, inP: bool,
                                        h': map<Key, Rinfo>, todo': int, sum': nat)
    requires i < |s| && Accounts(s, i, b, h, todo, sum, merge, m, P, TA, TB) && inP == (s[i].ser in P)
    requires MarkersSound(s) && s[i].ser in m && P <= m
    requires sum' == U32(sum + Change(s[i], inP, s[i].rk in b.seenA, s[i].rk in b.pending))
    requires HashOk(h', todo', merge, Enter(b, s[i], inP))
    ensures Accounts(s, i + 1, Enter(b, s[i], inP), h', todo', sum', merge, m, P, TA, TB)
  {
    hide BooksOk, Balanced, HashOk, U32, Owing, Enter, Change;
    var rest := s[i..];
    assert rest[0] == s[i] && rest[1..] == s[i + 1..];
    assert MarkersSound(rest);
    EnterOk(b, rest, m, P, TA, TB);
    EnterChange(b, rest, inP);
    U32Add(Owing(b), Change(s[i], inP, s[i].rk in b.seenA, s[i].rk in b.pending));
    RecentMore(s, i, b, P, inP);
  }

  /** A marker is never the first thing seen of its rootkey. */
  lemma {:induction false} MarkerKnown(s: Stream, i: nat, b: Books, n: nat, P: set<nat>, Q: set<nat>, heap: set<Key>)
    requires i < |s| && WeaveOk(s, n, P, Q, heap) && Recent(s, i, b, P) && s[i].Marker?
    ensures s[i].rk in b.seenA && (s[i].ser in P ==> s[i].rk in b.seenB)
  {
  }

  lemma {:induction false} RemembersMore(h: map<Key, Rinfo>, merge: bool, b: Books, first: map<Key, Region>,
                                         keys: seq<KeyPair>, rks: set<Key>,
                                         it: Item, region: Region, h': map<Key, Rinfo>, inP: bool, side: Region,
                                         first': map<Key, Region>)
    requires Remembers(h, merge, b, first, keys, rks) && Noted(h, h', it, region, merge, Enter(b, it, inP))
    requires b.pending <= h.Keys
    requires merge && it.rk !in h ==> it.rk !in rks && it.rk !in first
    requires merge && it.rk in h && it.rk !in rks ==> it.rk in first
    requires first' == if it.rk in first then first else first[it.rk := side]
    requires merge ==> side == region
    ensures Remembers(h', merge, Enter(b, it, inP), first', keys, rks)
  {
    var b' := Enter(b, it, inP);
    assert forall rk :: rk in b'.pending && rk != it.rk ==> rk in b.pending;
    forall rk | rk in b'.pending && rk in h'
      ensures (h'[rk].inremote <==> rk in first') && (!h'[rk].inremote ==> h'[rk].n < |keys| && keys[h'[rk].n].rk == rk)
    {
      if rk != it.rk { assert rk in h && h'[rk] == h[rk]; }
    }
  }

  /** The whole state of the scan after i items. */
  ghost predicate ScanOk(s: Stream, i: nat, b: Books, h: map<Key, Rinfo>, todo: int, sum: nat, merge: bool, ret: bool,
                         m: set<nat>, P: set<nat>, Q: set<nat>, TA: int, TB: int,
                         keys: seq<KeyPair>, heap: set<Key>, gone: set<Key>)
    requires i <= |s|
  {
    && Accounts(s, i, b, h, todo, sum, merge, m, P, TA, TB)
    && Remembers(h, merge, b, FirstSides(s, i, P, Q), keys, RkSet(keys))
    && Met(b, FirstSides(s, i, P, Q), RkSet(keys), heap)
    && (ret <==> AnyUnmerged(s, i, P, Q, RkSet(keys), gone))
  }

  /** Whether the hash entry shows a rootkey on both sides of the merge. */
  predicate BothSides(h: map<Key, Rinfo>, rk: Key, merge: bool, region: Region) {
    merge && rk in h && ((h[rk].remote && region == Local) || (h[rk].local && region == Remote))
  }

  lemma {:induction false} UnmergedHere(s: Stream, i: nat, h: map<Key, Rinfo>, merge: bool, ret: bool, b: Books,
                                        keys: seq<KeyPair>,
                                        P: set<nat>, Q: set<nat>, heap: set<Key>, gone: set<Key>, region: Region)
    requires i < |s| && Remembers(h, merge, b, FirstSides(s, i, P, Q), keys, RkSet(keys))
    requires Met(b, FirstSides(s, i, P, Q), RkSet(keys), heap) && (merge ==> h.Keys == b.seenA)
    requires region == Side(P, Q, s[i].ser) && (!merge ==> region == Common)
    requires ret <==> AnyUnmerged(s, i, P, Q, RkSet(keys), gone)
    ensures (ret || (BothSides(h, s[i].rk, merge, region) && s[i].rk !in gone)) <==>
      AnyUnmerged(s, i + 1, P, Q, RkSet(keys), gone)
  {
    hide FirstSides, RkSet, Side;
    var here := Unmerged(s, i, P, Q, RkSet(keys), gone);
    assert here <==> BothSides(h, s[i].rk, merge, region) && s[i].rk !in gone;
    if ret {
      var j :| 0 <= j < i && Unmerged(s, j, P, Q, RkSet(keys), gone);
      assert j < i + 1;
    }
  }

  /** One item keeps the state of the scan. */
  method ScanStep(s: Stream, i: nat, n: nat, region: Region, h: map<Key, Rinfo>, todo: int, sum: nat, merge: bool,
                  ret: bool, keys: seq<KeyPair>, gone: set<Key>,
                  ghost b: Books, ghost m: set<nat>, ghost P: set<nat>, ghost Q: set<nat>, ghost TA: int, ghost TB: int,
                  ghost heap: set<Key>)
    returns (h': map<Key, Rinfo>, todo': int, sum': nat, ret': bool)
    requires i < |s| && WeaveOk(s, n, P, Q, heap) && P <= m && Q <= m
    requires ScanOk(s, i, b, h, todo, sum, merge, ret, m, P, Q, TA, TB, keys, heap, gone)
    requires region == Side(P, Q, s[i].ser) && (region != Remote <==> s[i].ser in P) && (!merge ==> region == Common)
    ensures ScanOk(s, i + 1, Enter(b, s[i], region != Remote), h', todo', sum', merge, ret', m, P, Q, TA, TB, keys,
      heap, gone)
  {
    hide BooksOk, Balanced, HashOk, U32, Owing, Enter, Change, Remembers, Met, Recent, Side, RkSet, AnyUnmerged,
         WeaveOk, Noted;
    var it := s[i];
    ghost var rest, first := s[i..], FirstSides(s, i, P, Q);
    WeaveAt(s, i, n, P, Q, heap, m);
    if it.Marker? { MarkerKnown(s, i, b, n, P, Q, heap); }
    U32Twice(Owing(b));
    HashFacts(h, todo, merge, b);
    MetFacts(b, first, RkSet(keys), heap, it.rk);
    UnmergedHere(s, i, h, merge, ret, b, keys, P, Q, heap, gone, region);
    ret' := ret;
    if !ret && BothSides(h, it.rk, merge, region) {
      ret' := it.rk !in gone;
    }
    h', todo', sum' := ScanItem(it, region, merge, h, todo, sum, b, rest);
    AccountsMore(s, i, b, h, todo, sum, merge, m, P, TA, TB, region != Remote, h', todo', sum');
    RemembersMore(h, merge, b, first, keys, RkSet(keys), it, region, h', region != Remote, region,
      FirstSides(s, i + 1, P, Q));
    MetMore(b, first, RkSet(keys), heap, it, region != Remote, region);
  }

  lemma U32Twice(a: int)
    ensures U32(U32(a)) == U32(a)
  {
  }

  lemma WeaveAt(s: Stream, i: nat, n: nat, P: set<nat>, Q: set<nat>, heap: set<Key>, m: set<nat>)
    requires i < |s| && WeaveOk(s, n, P, Q, heap) && P <= m && Q <= m
    ensures 1 <= s[i].ser < n && s[i].ser in m && MarkersSound(s)
  {
    assert s[i].ser in P || s[i].ser in Q;
  }

  lemma HashFacts(h: map<Key, Rinfo>, todo: int, merge: bool, b: Books)
    requires HashOk(h, todo, merge, b)
    ensures b.pending <= h.Keys && (merge ==> h.Keys == b.seenA)
  {
  }

  lemma MetFacts(b: Books, first: map<Key, Region>, rks: set<Key>, heap: set<Key>, rk: Key)
    requires Met(b, first, rks, heap)
    ensures rk in b.seenA <==> rk in rks || rk in first
  {
  }

  /** Clears the colours of the serials in [e, cur). */
  method ClearColours(flags: seq<Colour>, cur: nat, e: nat) returns (flags': seq<Colour>)
    requires e <= cur <= |flags|
    ensures |flags'| == |flags|
    ensures forall x :: 0 <= x < |flags| ==> flags'[x] == if e <= x < cur then CLEAR else flags[x]
  {
    flags' := flags;
    var x := cur;
    while x > e
      invariant e <= x <= cur && |flags'| == |flags|
      invariant forall y :: 0 <= y < |flags| ==> flags'[y] == if x <= y < cur then CLEAR else flags[y]
    {
      x := x - 1;
      flags' := flags'[x := CLEAR];
    }
  }

  /** Leaving the merge region takes its one off the counter. */
  lemma CloseMerge(s: Stream, i: nat, b: Books, h: map<Key, Rinfo>, todo: int, sum: nat, ret: bool,
                   m: set<nat>, P: set<nat>, Q: set<nat>, TA: int, TB: int, keys: seq<KeyPair>, heap: set<Key>,
                   gone: set<Key>)
    requires i <= |s| && ScanOk(s, i, b, h, todo, sum, true, ret, m, P, Q, TA, TB, keys, heap, gone)
    ensures ScanOk(s, i, b, h, todo - 1, sum, false, ret, m, P, Q, TA, TB, keys, heap, gone)
  {
    hide BooksOk, Balanced, U32, Owing, Met, Recent, AnyUnmerged, FirstSides, RkSet;
    assert h.Keys <= b.seenA && b.seenA - h.Keys == {};
  }

  /** The scan: stops as soon as nothing is left to look for. */
  method ScanWeave(s: Stream, n: nat, colours: seq<Colour>, rstart: nat, inMerge: bool, seeded: map<Key, Rinfo>,
                   count: int, start: nat,
                   keys: seq<KeyPair>, gone: set<Key>,
                   ghost b0: Books, ghost m: set<nat>, ghost P: set<nat>, ghost Q: set<nat>, ghost TA: int,
                   ghost TB: int, ghost heap: set<Key>)
    returns (h: map<Key, Rinfo>, todo: int, sum: nat, merge: bool, ret: bool, ghost b: Books, ghost i: nat)
    requires WeaveOk(s, n, P, Q, heap) && P <= m && Q <= m && |colours| == n
    requires ScanOk(s, 0, b0, seeded, count, start, inMerge, false, m, P, Q, TA, TB, keys, heap, gone)
    requires Before(s, 0, colours, P, Q, rstart, inMerge, n, Common)
    ensures i <= |s| && ScanOk(s, i, b, h, todo, sum, merge, ret, m, P, Q, TA, TB, keys, heap, gone)
    ensures i < |s| ==> todo == 0 && !merge && CommonFrom(s, i, P, Q)
  {
    hide ScanOk, WeaveOk, Before, AtItem, RegionOf, Side, CommonFrom, Enter;
    h, todo, sum, merge, ret, b, i := seeded, count, start, inMerge, false, b0, 0;
    var flags, cur: nat, region, k: nat := colours, n, Common, 0;
    while todo > 0 && k < |s|
      invariant k == i <= |s| && |flags| == n
      invariant ScanOk(s, i, b, h, todo, sum, merge, ret, m, P, Q, TA, TB, keys, heap, gone)
      invariant Before(s, i, flags, P, Q, rstart, merge, cur, region)
      decreases |s| - k
    {
      var e := s[k].ser;
      WeaveAt(s, k, n, P, Q, heap, m);
      if merge && cur != e {
        CurBound(s, k, flags, n, P, Q, heap, rstart, cur, region);
        var cleared := ClearColours(flags, cur, e);
        NextDelta(s, k, flags, n, P, Q, heap, rstart, cur, region, cleared);
        region := RegionOf(flags[e]);
        flags := cleared;
        cur := e;
        if e < rstart {
          CloseMerge(s, k, b, h, todo, sum, ret, m, P, Q, TA, TB, keys, heap, gone);
          merge, todo := false, todo - 1;
        }
      } else {
        SameDelta(s, k, flags, n, P, Q, heap, rstart, merge, cur, region);
      }
      ItemFacts(s, k, flags, P, Q, rstart, merge, cur, region);
      h, todo, sum, ret := ScanStep(s, k, n, region, h, todo, sum, merge, ret, keys, gone, b, m, P, Q, TA, TB, heap);
      b := Enter(b, s[k], region != Remote);
      k := k + 1;
      i := k;
    }
    if i < |s| {
      NothingToDo(s, i, b, h, todo, sum, merge, ret, m, P, Q, TA, TB, keys, heap, gone, flags, rstart, cur, region);
    }
  }

  lemma CurBound(s: Stream, i: nat, flags: seq<Colour>, n: nat, P: set<nat>, Q: set<nat>, heap: set<Key>, rstart: nat,
                 cur: nat, region: Region)
    requires i < |s| && WeaveOk(s, n, P, Q, heap) && |flags| == n
    requires Before(s, i, flags, P, Q, rstart, true, cur, region) && cur != s[i].ser
    ensures s[i].ser < cur <= |flags|
  {
    NextDelta(s, i, flags, n, P, Q, heap, rstart, cur, region, flags);
  }

  lemma ItemFacts(s: Stream, i: nat, flags: seq<Colour>, P: set<nat>, Q: set<nat>, rstart: nat, merge: bool, cur: nat,
                  region: Region)
    requires i < |s| && AtItem(s, i, flags, P, Q, rstart, merge, cur, region)
    ensures region == Side(P, Q, s[i].ser) && (region != Remote <==> s[i].ser in P) && (!merge ==> region == Common)
    ensures Before(s, i + 1, flags, P, Q, rstart, merge, cur, region)
  {
  }

  lemma NothingToDo(s: Stream, i: nat, b: Books, h: map<Key, Rinfo>, todo: int, sum: nat, merge: bool, ret: bool,
                    m: set<nat>, P: set<nat>, Q: set<nat>, TA: int, TB: int, keys: seq<KeyPair>, heap: set<Key>,
                    gone: set<Key>,
                    flags: seq<Colour>, rstart: nat, cur: nat, region: Region)
    requires i <= |s| && ScanOk(s, i, b, h, todo, sum, merge, ret, m, P, Q, TA, TB, keys, heap, gone) && todo <= 0
    requires Before(s, i, flags, P, Q, rstart, merge, cur, region)
    ensures todo == 0 && !merge && CommonFrom(s, i, P, Q)
  {
    hide BooksOk, Balanced, U32, Owing, Met, Recent, AnyUnmerged, FirstSides, RkSet, Remembers, HashKeys, HashMarks;
  }

  // ---------- the keys that are left ----------

  /** The keys marked so far: those marked before the loop, and the pending ones already
      handled that the weave does not have. */
  ghost predicate MarkedSoFar(keys: seq<KeyPair>, marks: seq<bool>, marks': seq<bool>, h: map<Key, Rinfo>,
                              pending: set<Key>, rem: set<Key>) {
    && |marks| == |marks'| == |keys|
    && forall k :: 0 <= k < |keys| ==> (marks'[k] <==>
         marks[k] || (keys[k].rk in pending && keys[k].rk !in rem && keys[k].rk in h && !h[keys[k].rk].inremote))
  }

  lemma MarkOneKey(keys: seq<KeyPair>, marks: seq<bool>, marks': seq<bool>, h: map<Key, Rinfo>, pending: set<Key>,
                   rem: set<Key>, rk: Key)
    requires DistinctKeys(keys) && MarkedSoFar(keys, marks, marks', h, pending, rem) && rk in h && rk in rem
    requires rk in pending
    requires !h[rk].inremote ==> h[rk].n < |keys| && keys[h[rk].n].rk == rk
    ensures MarkedSoFar(keys, marks, if h[rk].inremote then marks' else marks'[h[rk].n := true], h, pending, rem - {rk})
  {
  }

  /** Whatever is still pending is new in the changeset: add the root parts, and mark the
      keys the weave has no entry for. */
  method Leftover(h: map<Key, Rinfo>, count: int, start: nat, merge: bool, keys: seq<KeyPair>, marks: seq<bool>,
                  ghost b: Books)
    returns (sum: nat, marks': seq<bool>)
    requires DistinctKeys(keys) && HashOk(h, count, merge, b) && start == U32(Owing(b)) && |marks| == |keys|
    requires forall rk :: rk in b.pending && rk in h && !h[rk].inremote ==> h[rk].n < |keys| && keys[h[rk].n].rk == rk
    ensures sum == U32(b.accA - b.accB) && MarkedSoFar(keys, marks, marks', h, b.pending, {})
  {
    hide U32, SumSet, RootPart, MarkedSoFar, DistinctKeys, HashKeys;
    sum, marks' := start, marks;
    var ks, todo := h.Keys, count;
    ghost var rem := b.pending;
    assert MarkedSoFar(keys, marks, marks', h, b.pending, rem) by { NoneMarked(keys, marks, h, b.pending); }
    while todo > 0 && ks != {}
      invariant ks <= h.Keys && rem <= ks && rem <= b.pending
      invariant forall rk :: rk in ks && rk in b.pending ==> rk in rem
      invariant todo == |rem| + Bit(merge)
      invariant sum == U32(b.accA - b.accB - SumSet(rem))
      invariant MarkedSoFar(keys, marks, marks', h, b.pending, rem)
      decreases ks
    {
      var rk :| rk in ks;
      ks := ks - {rk};
      if !h[rk].done {
        SumSetPick(rem, rk);
        U32Add(b.accA - b.accB - SumSet(rem), RootPart(rk));
        MarkOneKey(keys, marks, marks', h, b.pending, rem, rk);
        MarksSize(keys, marks, marks', h, b.pending, rem);
        sum := U32(sum + RootPart(rk));
        if !h[rk].inremote { marks' := marks'[h[rk].n := true]; }
        rem := rem - {rk};
        todo := todo - 1;
      }
    }
    assert rem == {};
    EmptySum();
  }

  lemma EmptySum()
    ensures SumSet({}) == 0
  {
  }

  lemma NoneMarked(keys: seq<KeyPair>, marks: seq<bool>, h: map<Key, Rinfo>, pending: set<Key>)
    requires |marks| == |keys|
    ensures MarkedSoFar(keys, marks, marks, h, pending, pending)
  {
  }

  lemma MarksSize(keys: seq<KeyPair>, marks: seq<bool>, marks': seq<bool>, h: map<Key, Rinfo>, pending: set<Key>,
                  rem: set<Key>)
    requires MarkedSoFar(keys, marks, marks', h, pending, rem)
    ensures |marks'| == |keys|
  {
  }

  // ---------- the whole computation ----------

  ghost predicate InWeave(s: Stream, rk: Key) {
    exists j :: 0 <= j < |s| && s[j].rk == rk
  }

  lemma {:induction false} FirstSidesHas(s: Stream, n: nat, P: set<nat>, Q: set<nat>, rk: Key)
    requires n <= |s|
    ensures rk in FirstSides(s, n, P, Q) <==> exists j :: 0 <= j < n && s[j].rk == rk
  {
    if n > 0 { FirstSidesHas(s, n - 1, P, Q, rk); }
  }

  /** The marks are exact: a key is marked when its rootkey has no entry in the weave. */
  lemma {:induction false} MarksExact(s: Stream, i: nat, b: Books, h: map<Key, Rinfo>, todo: int, sum: nat, merge: bool,
                                      ret: bool,
                                      m: set<nat>, P: set<nat>, Q: set<nat>, TA: int, TB: int, keys: seq<KeyPair>,
                                      heap: set<Key>, gone: set<Key>,
                                      n: nat, marks: seq<bool>, marks': seq<bool>, k: nat)
    requires i <= |s| && ScanOk(s, i, b, h, todo, sum, merge, ret, m, P, Q, TA, TB, keys, heap, gone)
    requires WeaveOk(s, n, P, Q, heap)
    requires (i < |s| ==> b.pending == {}) && MarksNew(keys, marks, heap)
    requires MarkedSoFar(keys, marks, marks', h, b.pending, {}) && k < |keys|
    ensures marks'[k] <==> !InWeave(s, keys[k].rk)
  {
    hide BooksOk, Balanced, U32, Owing, Recent, AnyUnmerged, FirstSides, RkSet, HashKeys;
    var rk := keys[k].rk;
    RkSetHas(keys, rk);
    FirstSidesHas(s, i, P, Q, rk);
    assert rk in b.seenA;
    if rk in b.pending { assert rk in h; }
  }

  lemma {:induction false} UnmergedAll(s: Stream, i: nat, P: set<nat>, Q: set<nat>, rks: set<Key>, gone: set<Key>)
    requires i <= |s| && CommonFrom(s, i, P, Q)
    ensures AnyUnmerged(s, i, P, Q, rks, gone) <==> AnyUnmerged(s, |s|, P, Q, rks, gone)
  {
    if AnyUnmerged(s, |s|, P, Q, rks, gone) {
      var j :| 0 <= j < |s| && Unmerged(s, j, P, Q, rks, gone);
      assert j < i;
    }
  }

  lemma {:induction false} StartScan(s: Stream, n: nat, h: map<Key, Rinfo>, todo: int, sum: nat, merge: bool,
                                     keys: seq<KeyPair>, marks: seq<bool>,
                                     heap: set<Key>, gone: set<Key>, m: set<nat>, P: set<nat>, Q: set<nat>,
                                     marks': seq<bool>)
    requires SeedOk(h, todo, sum, merge, keys, marks, heap) && DistinctKeys(keys) && WeaveOk(s, n, P, Q, heap) && n in m
    requires |marks'| == |keys|
    ensures ScanOk(s, 0, StartBooks(keys, heap), h, todo, sum, merge, false, m, P, Q,
                   PlainSum(NewItems(keys, marks', n) + s, m, {}), PlainSum(s, P, {}), keys, heap, gone)
  {
    hide HashOk, U32, Owing, NewItems, PlainSum, KeySum, RkSet;
    NewItemsSum(keys, marks', n, s, m, {});
    assert {} + RkSet(keys) == RkSet(keys);
    assert s[0..] == s;
    assert FirstSides(s, 0, P, Q) == map[];
  }

  /** Where the merge region starts, the scan is before the first item. */
  lemma {:induction false} StartBefore(s: Stream, flags: seq<Colour>, n: nat, P: set<nat>, Q: set<nat>, heap: set<Key>,
                                       rstart: nat)
    requires WeaveOk(s, n, P, Q, heap) && |flags| == n
    requires Q == {} ==> rstart == 0
    requires Q != {} ==> Coloured(flags, P, Q, n) && Lowest(flags, rstart)
    ensures Before(s, 0, flags, P, Q, rstart, rstart != 0, n, Common)
  {
    if rstart == 0 {
      forall k | 0 <= k < |s| ensures s[k].ser in P && Side(P, Q, s[k].ser) == Common {
        var x := s[k].ser;
        assert x in P || x in Q;
        if Q != {} { assert flags[x] == CLEAR; }
      }
    } else {
      forall x: nat | x < rstart ensures Side(P, Q, x) == Common {
        assert flags[x] == CLEAR;
      }
    }
  }

  lemma Truncate(x: int, TA: int, TB: int)
    ensures U16(x + U32(TA - TB)) == U16(x + TA - TB)
    ensures x == U16(TB) ==> U16(x + TA - TB) == U16(TA)
  {
  }

  /** At the end of the scan the difference of the two checksums is known. */
  lemma {:induction false} ScanMeans(s: Stream, i: nat, b: Books, h: map<Key, Rinfo>, todo: int, sum: nat, merge: bool,
                                     ret: bool,
                                     m: set<nat>, P: set<nat>, Q: set<nat>, TA: int, TB: int, keys: seq<KeyPair>,
                                     heap: set<Key>, gone: set<Key>)
    requires i <= |s| && ScanOk(s, i, b, h, todo, sum, merge, ret, m, P, Q, TA, TB, keys, heap, gone) && P <= m
    requires i < |s| ==> todo == 0 && !merge && CommonFrom(s, i, P, Q)
    ensures b.accA - b.accB == TA - TB && HashOk(h, todo, merge, b) && sum == U32(Owing(b))
    ensures i < |s| ==> b.pending == {}
    ensures forall rk :: rk in b.pending && rk in h && !h[rk].inremote ==> h[rk].n < |keys| && keys[h[rk].n].rk == rk
    ensures ret <==> AnyUnmerged(s, |s|, P, Q, RkSet(keys), gone)
  {
    hide U32, Met, FirstSides, RkSet, AnyUnmerged, HashKeys;
    if i < |s| {
      UnmergedAll(s, i, P, Q, RkSet(keys), gone);
      assert b.pending == {};
      EarlyExit(b, s[i..], m, P, TA, TB);
      EmptySum();
    } else {
      assert s[i..] == [];
    }
  }

  /** The checksum of the commit that becomes changeset |t| with parent p and, if q is not
      0, merge parent q; heap holds every rootkey the data heap knows, and unique is the
      random sum given to empty commits. */
  method UpdateChecksum(t: Table, p: nat, q: nat, s: Stream, keys: seq<KeyPair>, heap: set<Key>, gone: set<Key>,
                        parentSum: nat, unique: nat)
    returns (dup: bool, sum: nat, marks: seq<bool>, ret: bool)
    requires WellFormed(t) && IsDelta(t, p) && (q == 0 || IsDelta(t, q))
    requires WeaveOk(s, |t|, Anc(t, p), Anc(t, q), heap)
    ensures dup <==> !DistinctKeys(keys)
    ensures !dup ==> |marks| == |keys| && forall k :: 0 <= k < |keys| ==> (marks[k] <==> !InWeave(s, keys[k].rk))
    ensures !dup && keys == [] && q == 0 ==> sum == unique
    ensures !dup && (keys != [] || q != 0) ==> var now := NewItems(keys, marks, |t|) + s;
      var before, after := PlainSum(s, Anc(t, p), {}), PlainSum(now, Anc(t, p) + Anc(t, q) + {|t|}, {});
      && sum == U16(parentSum + after - before)
      && (parentSum == U16(before) ==> sum == U16(after))
    ensures !dup ==> (ret <==> AnyUnmerged(s, |s|, Anc(t, p), Anc(t, q), RkSet(keys), gone))
  {
    hide SeedOk, ScanOk, WeaveOk, Before, PlainSum, NewItems, U16, U32, StartBooks, HashOk, Owing, CommonFrom, Coloured,
         Lowest,
         AnyUnmerged, RkSet, MarkedSoFar, MarksNew, Anc, DistinctKeys, InWeave;
    ghost var n, P, Q := |t|, Anc(t, p), Anc(t, q);
    ghost var m := P + Q + {n};
    var flags, rstart := seq(|t|, _ => CLEAR), 0;
    MergeIsReal(t, q);
    if q != 0 {
      var paint := new DeltaFlags(|t|);
      flags, rstart := ColourMerge(t, paint, p, q);
    }
    StartBefore(s, flags, n, P, Q, heap, rstart);
    var h, todo, merge;
    dup, h, todo, sum, marks := Seed(keys, heap, rstart != 0);
    ret := false;
    if dup { return; }
    SeedSizes(h, todo, sum, rstart != 0, keys, marks, heap);
    ghost var TA, TB := PlainSum(NewItems(keys, marks, n) + s, m, {}), PlainSum(s, P, {});
    StartScan(s, n, h, todo, sum, rstart != 0, keys, marks, heap, gone, m, P, Q, marks);
    ghost var b, i;
    h, todo, sum, merge, ret, b, i :=
      ScanWeave(s, |t|, flags, rstart, rstart != 0, h, todo, sum, keys, gone, StartBooks(keys, heap), m, P, Q, TA, TB,
        heap);
    ScanMeans(s, i, b, h, todo, sum, merge, ret, m, P, Q, TA, TB, keys, heap, gone);
    ghost var seeded, before := marks, sum;
    sum, marks := Leftover(h, todo, sum, merge, keys, marks, b);
    MarksSize(keys, seeded, marks, h, b.pending, {});
    forall k | 0 <= k < |keys| ensures marks[k] <==> !InWeave(s, keys[k].rk) {
      MarksExact(s, i, b, h, todo, before, merge, ret, m, P, Q, TA, TB, keys, heap, gone, n, seeded, marks, k);
    }
    MarksDoNotCount(keys, seeded, marks, n, s, m);
    Truncate(parentSum, TA, TB);
    if keys == [] && q == 0 {
      sum := unique;
    } else {
      sum := U16(parentSum + sum);
    }
  }

  lemma SeedSizes(h: map<Key, Rinfo>, todo: int, sum: nat, merge: bool, keys: seq<KeyPair>, marks: seq<bool>,
                  heap: set<Key>)
    requires SeedOk(h, todo, sum, merge, keys, marks, heap)
    ensures |marks| == |keys| && MarksNew(keys, marks, heap)
  {
  }

  lemma MergeIsReal(t: Table, q: nat)
    requires WellFormed(t) && q < |t|
    ensures Anc(t, q) == {} <==> q == 0
  {
    if q != 0 {
      assert EdgesOk(t, q);
      assert q in Anc(t, q);
    }
  }

  lemma {:induction false} MarksDoNotCount(keys: seq<KeyPair>, a: seq<bool>, b: seq<bool>, d: nat, s: Stream,
                                           m: set<nat>)
    requires DistinctKeys(keys) && |a| == |b| == |keys| && d in m
    ensures PlainSum(NewItems(keys, a, d) + s, m, {}) == PlainSum(NewItems(keys, b, d) + s, m, {})
  {
    NewItemsSum(keys, a, d, s, m, {});
    NewItemsSum(keys, b, d, s, m, {});
  }
}
