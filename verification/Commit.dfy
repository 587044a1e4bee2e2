/** Committing and checking: the checksum that a commit stores (commit.c) is the one that a
    later check computes (checksum.c). */
module Commit {
  import opened DeltaGraph
  import opened WalkRevs
  import opened Weave
  import opened WeaveIndex
  import opened CommitSum
  import C = CsetResum

  /** The stored checksum of d is the one over its closure. */
  ghost predicate Right(t: Table, s: Stream, sums: seq<nat>, d: nat)
    requires WellFormed(t) && |sums| == |t| && d < |t|
  {
    sums[d] == U16(PlainSum(s, Anc(t, d), {}))
  }

  ghost predicate AllRight(t: Table, s: Stream, sums: seq<nat>)
    requires WellFormed(t)
  {
    |sums| == |t| && forall d: nat :: IsDelta(t, d) ==> Right(t, s, sums, d)
  }

  lemma SkipHead(it: Item, more: Stream, m: set<nat>)
    requires it.ser !in m
    ensures PlainSum([it] + more, m, {}) == PlainSum(more, m, {})
  {
    assert ([it] + more)[1..] == more;
  }

  /** The items of a changeset outside m do not count. */
  lemma {:induction false} NotInVersion(keys: seq<KeyPair>, marks: seq<bool>, n: nat, s: Stream, m: set<nat>)
    requires |keys| == |marks| && n !in m
    ensures PlainSum(NewItems(keys, marks, n) + s, m, {}) == PlainSum(s, m, {})
  {
    hide PlainSum;
    if keys == [] {
      assert NewItems(keys, marks, n) + s == s;
    } else {
      NotInVersion(keys[1..], marks[1..], n, s, m);
      var line, mark, more := Line(n, keys[0].rk, keys[0].dk), Marker(n, keys[0].rk),
        NewItems(keys[1..], marks[1..], n) + s;
      SkipHead(mark, more, m);
      SkipHead(line, [mark] + more, m);
      SkipHead(line, more, m);
      if marks[0] {
        assert NewItems(keys, marks, n) + s == [line] + ([mark] + more);
      } else {
        assert NewItems(keys, marks, n) + s == [line] + more;
      }
    }
  }

  /** Nor does a changeset without items. */
  lemma {:induction false} NoItems(s: Stream, m: set<nat>, n: nat, seen: set<Key>)
    requires forall k :: 0 <= k < |s| ==> s[k].ser != n
    ensures PlainSum(s, m + {n}, seen) == PlainSum(s, m, seen)
  {
    if s != [] {
      NoItems(s[1..], m, n, seen);
      NoItems(s[1..], m, n, seen + {s[0].rk});
    }
  }

  /** The rootkeys a commit adds to the heap are those of its keys. */
  lemma {:induction false} ItemsAre(keys: seq<KeyPair>, marks: seq<bool>, n: nat, k: nat)
    requires |keys| == |marks| && k < |NewItems(keys, marks, n)|
    ensures var it := NewItems(keys, marks, n);
            && it[k].ser == n && it[k].rk in RkSet(keys)
            && (it[k].Marker? ==> k > 0 && it[k - 1].Line? && it[k - 1].rk == it[k].rk)
  {
    var it, head := NewItems(keys, marks, n), if marks[0] then 2 else 1;
    assert it[head..] == NewItems(keys[1..], marks[1..], n);
    if k >= head { ItemsAre(keys[1..], marks[1..], n, k - head); }
  }

  /** A marker among the new items is of a rootkey that no later item and no old one has. */
  lemma {:induction false} MarkersLast(keys: seq<KeyPair>, marks: seq<bool>, n: nat, s: Stream, i: nat, j: nat)
    requires |keys| == |marks| && DistinctKeys(keys) && MarkersSound(s)
    requires forall k :: 0 <= k < |keys| ==> (marks[k] <==> !InWeave(s, keys[k].rk))
    requires i < j < |NewItems(keys, marks, n) + s| && (NewItems(keys, marks, n) + s)[i].Marker?
    ensures (NewItems(keys, marks, n) + s)[j].rk != (NewItems(keys, marks, n) + s)[i].rk
  {
    var all := NewItems(keys, marks, n) + s;
    if keys == [] {
      assert all == s;
    } else {
      var head, more := if marks[0] then 2 else 1, NewItems(keys[1..], marks[1..], n) + s;
      assert all[head..] == more;
      if i >= head {
        MarkersLast(keys[1..], marks[1..], n, s, i - head, j - head);
      } else if j - head < |NewItems(keys[1..], marks[1..], n)| {
        ItemsAre(keys[1..], marks[1..], n, j - head);
        RkSetHas(keys[1..], keys[0].rk);
      } else {
        assert all[j] == s[j - |NewItems(keys, marks, n)|];
      }
    }
  }

  /** Item k of the new weave: of the new changeset or of an old one. */
  lemma {:induction false} ItemOk(s: Stream, n: nat, P: set<nat>, Q: set<nat>, heap: set<Key>, keys: seq<KeyPair>,
                                  marks: seq<bool>, k: nat)
    requires WeaveOk(s, n, P, Q, heap) && |keys| == |marks| && n >= 1 && k < |NewItems(keys, marks, n) + s|
    ensures var all := NewItems(keys, marks, n) + s;
            && 1 <= all[k].ser < n + 1 && all[k].ser in P + Q + {n} && all[k].rk in heap + RkSet(keys)
            && (k < |NewItems(keys, marks, n)| ==> all[k].ser == n)
            && (all[k].Marker? ==>
              k > 0 && all[k - 1].Line? && all[k - 1].rk == all[k].rk && all[k - 1].ser == all[k].ser)
  {
    hide RkSet, NewItems;
    var it := NewItems(keys, marks, n);
    var all := it + s;
    if k < |it| {
      ItemsAre(keys, marks, n, k);
      if it[k].Marker? { ItemsAre(keys, marks, n, k - 1); }
    } else {
      var l := k - |it|;
      assert all[k] == s[l];
      if s[l].Marker? { assert all[k - 1] == s[l - 1]; }
    }
  }

  /** The weave of a commit is one that the next commit can start from. */
  lemma {:induction false} WeaveStaysOk(s: Stream, n: nat, P: set<nat>, Q: set<nat>, heap: set<Key>, keys: seq<KeyPair>,
                                        marks: seq<bool>)
    requires WeaveOk(s, n, P, Q, heap) && DistinctKeys(keys) && |keys| == |marks| && n >= 1
    requires forall k :: 0 <= k < |keys| ==> (marks[k] <==> !InWeave(s, keys[k].rk))
    ensures WeaveOk(NewItems(keys, marks, n) + s, n + 1, P + Q + {n}, {}, heap + RkSet(keys))
  {
    hide InWeave, DistinctKeys, RkSet, NewItems;
    var it := NewItems(keys, marks, n);
    var all := it + s;
    assert MarkersSound(all) by {
      forall i, j | 0 <= i < j < |all| && all[i].Marker? ensures all[j].rk != all[i].rk {
        MarkersLast(keys, marks, n, s, i, j);
      }
    }
    assert NewestFirst(all) by {
      forall i, j | 0 <= i < j < |all| ensures all[i].ser >= all[j].ser {
        ItemOk(s, n, P, Q, heap, keys, marks, i);
        ItemOk(s, n, P, Q, heap, keys, marks, j);
        if i >= |it| { assert all[i] == s[i - |it|] && all[j] == s[j - |it|]; }
      }
    }
    hide WeaveOk;
    ItemsOk(s, n, P, Q, heap, keys, marks);
  }

  lemma {:induction false} ItemsOk(s: Stream, n: nat, P: set<nat>, Q: set<nat>, heap: set<Key>, keys: seq<KeyPair>,
                                   marks: seq<bool>)
    requires WeaveOk(s, n, P, Q, heap) && |keys| == |marks| && n >= 1
    requires NewestFirst(NewItems(keys, marks, n) + s) && MarkersSound(NewItems(keys, marks, n) + s)
    ensures WeaveOk(NewItems(keys, marks, n) + s, n + 1, P + Q + {n}, {}, heap + RkSet(keys))
  {
    hide RkSet, NewItems, NewestFirst, MarkersSound;
    var all := NewItems(keys, marks, n) + s;
    forall k | 0 <= k < |all|
      ensures 1 <= all[k].ser < n + 1 && all[k].ser in P + Q + {n} && all[k].rk in heap + RkSet(keys)
    {
      ItemOk(s, n, P, Q, heap, keys, marks, k);
    }
    forall k | 0 <= k < |all| && all[k].Marker?
      ensures k > 0 && all[k - 1].Line? && all[k - 1].rk == all[k].rk && all[k - 1].ser == all[k].ser
    {
      ItemOk(s, n, P, Q, heap, keys, marks, k);
    }
  }

  /** What a commit leaves of a file whose checksums were right: they all still are, and the
      new one is too, but for a commit of nothing, which gets a sum of its own. */
  method CommitKeys(t: Table, p: nat, q: nat, s: Stream, keys: seq<KeyPair>, heap: set<Key>, gone: set<Key>,
                    sums: seq<nat>, unique: nat)
    returns (dup: bool, ret: bool, s': Stream, sums': seq<nat>)
    requires WellFormed(t) && IsDelta(t, p) && (q == 0 || IsDelta(t, q))
    requires WeaveOk(s, |t|, Anc(t, p), Anc(t, q), heap) && AllRight(t, s, sums)
    ensures dup <==> !DistinctKeys(keys)
    ensures dup ==> s' == s && sums' == sums
    ensures !dup ==> (ret <==> AnyUnmerged(s, |s|, Anc(t, p), Anc(t, q), RkSet(keys), gone))
    ensures !dup ==> |sums'| == |t| + 1 && var t' := t + [Node(p, q, false)];
      && WellFormed(t') && IsDelta(t', |t|) && WeaveOk(s', |t'|, Anc(t', |t|), Anc(t', 0), heap + RkSet(keys))
      && (forall d: nat :: IsDelta(t, d) ==> Right(t', s', sums', d))
      && (Right(t', s', sums', |t|) <==> keys != [] || q != 0 || unique == sums[p])
  {
    hide WeaveOk, DistinctKeys, PlainSum, NewItems, U16, InWeave, RkSet, Anc, WellFormed, Right, AnyUnmerged;
    RightMeans(t, s, sums, p);
    var sum, marks;
    dup, sum, marks, ret := UpdateChecksum(t, p, q, s, keys, heap, gone, sums[p], unique);
    if dup { return dup, ret, s, sums; }
    s', sums' := NewItems(keys, marks, |t|) + s, sums + [sum];
    ghost var t' := t + [Node(p, q, false)];
    AncNew(t, p, q);
    NoParents(t');
    WeaveStaysOk(s, |t|, Anc(t, p), Anc(t, q), heap, keys, marks);
    forall d: nat | IsDelta(t, d) ensures Right(t', s', sums', d) { StaysRight(t, p, q, s, keys, marks, sums, sum, d); }
    NewIsRight(t, p, q, s, keys, heap, marks, sums, sum, unique);
  }

  lemma RightMeans(t: Table, s: Stream, sums: seq<nat>, d: nat)
    requires WellFormed(t) && AllRight(t, s, sums) && IsDelta(t, d)
    ensures |sums| == |t| && sums[d] == U16(PlainSum(s, Anc(t, d), {}))
  {
    assert Right(t, s, sums, d);
  }

  lemma NoParents(t: Table)
    requires WellFormed(t)
    ensures |t| >= 1 && Anc(t, 0) == {}
  {
  }

  lemma {:induction false} StaysRight(t: Table, p: nat, q: nat, s: Stream, keys: seq<KeyPair>, marks: seq<bool>,
                                      sums: seq<nat>, sum: nat, d: nat)
    requires WellFormed(t) && WellFormed(t + [Node(p, q, false)]) && AllRight(t, s, sums) && IsDelta(t, d)
    requires |keys| == |marks|
    ensures Right(t + [Node(p, q, false)], NewItems(keys, marks, |t|) + s, sums + [sum], d)
  {
    hide PlainSum, NewItems, U16, Anc, WellFormed;
    RightMeans(t, s, sums, d);
    AncGrown(t, [Node(p, q, false)], d);
    if |t| in Anc(t, d) { AncBelow(t, d, |t|); }
    NotInVersion(keys, marks, |t|, s, Anc(t, d));
  }

  lemma {:induction false} NewIsRight(t: Table, p: nat, q: nat, s: Stream, keys: seq<KeyPair>, heap: set<Key>,
                                      marks: seq<bool>, sums: seq<nat>, sum: nat, unique: nat)
    requires WellFormed(t) && IsDelta(t, p) && (q == 0 || IsDelta(t, q)) && WellFormed(t + [Node(p, q, false)])
    requires WeaveOk(s, |t|, Anc(t, p), Anc(t, q), heap) && AllRight(t, s, sums) && |keys| == |marks|
    requires if keys == [] && q == 0 then sum == unique
             else sum == U16(PlainSum(NewItems(keys, marks, |t|) + s, Anc(t, p) + Anc(t, q) + {|t|}, {}))
    ensures Right(t + [Node(p, q, false)], NewItems(keys, marks, |t|) + s, sums + [sum], |t|) <==>
            keys != [] || q != 0 || unique == sums[p]
  {
    hide PlainSum, U16, Anc, WellFormed;
    AncNew(t, p, q);
    if keys == [] && q == 0 {
      NoParents(t);
      RightMeans(t, s, sums, p);
      assert NewItems(keys, marks, |t|) + s == s;
      assert Anc(t, p) + Anc(t, q) + {|t|} == Anc(t, p) + {|t|};
      NoItems(s, Anc(t, p), |t|, {});
    }
  }

  /** A check of a file whose checksums are right up to the last one, in any order: only that
      one can be reported, and serialmaps that are the closures agree with the graph. */
  method Check(t: Table, smap: seq<set<nat>>, s: Stream, order: seq<nat>, sums: seq<nat>)
    returns (bad: seq<nat>, diffs: seq<int>)
    requires WellFormed(t) && |smap| == |t| == |sums| && (forall d: nat :: d < |t| ==> smap[d] == Anc(t, d))
    requires NewestFirst(s) && (forall k :: 0 <= k < |s| ==> s[k].ser < |t|) && AllDeltas(t, order)
    ensures forall k :: 0 <= k < |order| ==> (order[k] in bad <==> !Right(t, s, sums, order[k]))
    ensures (forall d :: d in bad ==> d in order) && (C.Once(order) ==> bad == C.Misfits(sums, s, smap, order))
    ensures |diffs| == |order| && forall k :: 0 <= k < |order| ==> diffs[k] == 0
  {
    hide Anc, PlainSum, U16, C.Disagree, NewestFirst;
    forall d: nat | d < |t| ensures C.UpTo(smap[d], d) { Lower(t, d); }
    NoParents(t);
    var sums';
    sums', bad, diffs := C.Resum(t, smap, s, order, sums, true, false);
    forall k | 0 <= k < |order| ensures diffs[k] == 0 { NoDisagreement(s, smap[order[k]]); }
  }

  lemma Lower(t: Table, d: nat)
    requires WellFormed(t) && d < |t|
    ensures C.UpTo(Anc(t, d), d)
  {
    forall x | x in Anc(t, d) ensures x <= d { AncBelow(t, d, x); }
  }

  lemma NoDisagreement(s: Stream, M: set<nat>)
    ensures C.Disagree(s, M, M) == {}
  {
  }
}
