/** The per-rootkey index of the weave that the checksum pass of src/checksum.c builds. */
module WeaveIndex {
  import opened Weave

  /** One changeset that changed a file: its serial and the 16-bit sum of its line. */
  datatype Sse = Sse(ser: nat, sum: nat)

  datatype File = File(rk: Key, sse: seq<Sse>)

  /** The index of the first entry that is in the version m, or |sse|. */
  function Newest(sse: seq<Sse>, m: set<nat>): (n: nat)
    ensures n <= |sse|
    ensures forall k :: 0 <= k < n ==> sse[k].ser !in m
    ensures n < |sse| ==> sse[n].ser in m
  {
    if sse == [] then 0 else if sse[0].ser in m then 0 else 1 + Newest(sse[1..], m)
  }

  /** What position j of a file adds to the checksum. */
  function At(sse: seq<Sse>, j: nat): nat {
    if j < |sse| then sse[j].sum else 0
  }

  function Entry(it: Item): Sse
    requires it.Line?
  {
    Sse(it.ser, U16(LineSum(it.rk, it.dk)))
  }

  /** The entries of one rootkey, in stream order. */
  function Entries(s: Stream, rk: Key): seq<Sse> {
    if s == [] then [] else
      var front, it := s[..|s| - 1], s[|s| - 1];
      Entries(front, rk) + if it.Line? && it.rk == rk then [Entry(it)] else []
  }

  ghost predicate Distinct(rks: seq<Key>) {
    forall f, g :: 0 <= f < g < |rks| ==> rks[f] != rks[g]
  }

  ghost predicate Covers(rks: seq<Key>, s: Stream) {
    forall i :: 0 <= i < |s| && s[i].Line? ==> s[i].rk in rks
  }

  ghost function Total(rks: seq<Key>, s: Stream, m: set<nat>): nat {
    if rks == [] then 0 else
      var front, rk := rks[..|rks| - 1], rks[|rks| - 1];
      Total(front, s, m) + At(Entries(s, rk), Newest(Entries(s, rk), m))
  }

  lemma {:induction false} EntriesPresent(s: Stream, rk: Key, m: set<nat>)
    ensures Newest(Entries(s, rk), m) < |Entries(s, rk)| <==> Present(s, m, rk)
  {
    hide Newest;
    if s != [] {
      var front, it := s[..|s| - 1], s[|s| - 1];
      assert s == front + [it];
      EntriesPresent(front, rk, m);
      var mine := it.Line? && it.rk == rk;
      NewestAppend(Entries(front, rk), m, if mine then [Entry(it)] else []);
      PresentAppend(front, it, m, rk);
    }
  }

  lemma {:induction false} PresentAppend(s: Stream, it: Item, m: set<nat>, rk: Key)
    ensures Present(s + [it], m, rk) <==> Present(s, m, rk) || (it.Line? && it.ser in m && it.rk == rk)
  {
    var all := s + [it];
    if Present(s, m, rk) {
      var i :| 0 <= i < |s| && s[i].Line? && s[i].ser in m && s[i].rk == rk;
      assert all[i] == s[i];
    }
    if it.Line? && it.ser in m && it.rk == rk { assert all[|s|] == it; }
  }

  lemma {:induction false} NewestIs(sse: seq<Sse>, m: set<nat>, n: nat)
    requires n <= |sse|
    requires forall k :: 0 <= k < n ==> sse[k].ser !in m
    requires n < |sse| ==> sse[n].ser in m
    ensures Newest(sse, m) == n
  {
    hide Newest;
    var n' := Newest(sse, m);
  }

  /** Older entries do not matter while a newer one is in the version. */
  lemma {:induction false} NewestAppend(sse: seq<Sse>, m: set<nat>, more: seq<Sse>)
    requires |more| <= 1
    ensures Newest(sse, m) < |sse| ==> Newest(sse + more, m) == Newest(sse, m)
    ensures Newest(sse, m) == |sse| ==>
            Newest(sse + more, m) == |sse| + (if more != [] && more[0].ser !in m then 1 else 0)
  {
    hide Newest;
    var n := Newest(sse, m);
    NewestIs(sse + more, m, if n == |sse| && more != [] && more[0].ser !in m then n + 1 else n);
  }

  /** One more item at the old end of the stream moves the total as it moves the plain sum. */
  lemma {:induction false} TotalAppend(rks: seq<Key>, s: Stream, it: Item, m: set<nat>)
    requires Distinct(rks)
    ensures Total(rks, s + [it], m) == Total(rks, s, m) +
            (if it.rk in rks && Active(it, m, {}) && !Present(s, m, it.rk) then U16(LineSum(it.rk, it.dk)) else 0)
  {
    if rks != [] {
      var front, rk := rks[..|rks| - 1], rks[|rks| - 1];
      assert rks == front + [rk];
      TotalAppend(front, s, it, m);
      var more := if it.Line? && it.rk == rk then [Entry(it)] else [];
      assert (s + [it])[..|s|] == s;
      assert Entries(s + [it], rk) == Entries(s, rk) + more;
      NewestAppend(Entries(s, rk), m, more);
      EntriesPresent(s, rk, m);
    }
  }

  /** The sum over the newest entry of every rootkey is the checksum by definition. */
  lemma {:induction false} TotalIsPlainSum(rks: seq<Key>, s: Stream, m: set<nat>)
    requires Distinct(rks) && Covers(rks, s)
    ensures U16(Total(rks, s, m)) == U16(PlainSum(s, m, {}))
  {
    if s == [] {
      TotalOfNothing(rks, m);
    } else {
      var front, it := s[..|s| - 1], s[|s| - 1];
      assert s == front + [it];
      assert Covers(rks, front) by {
        forall i | 0 <= i < |front| && front[i].Line? ensures front[i].rk in rks { assert s[i] == front[i]; }
      }
      TotalIsPlainSum(rks, front, m);
      TotalStep(rks, front, it, m);
    }
  }

  lemma TotalStep(rks: seq<Key>, s: Stream, it: Item, m: set<nat>)
    requires Distinct(rks) && (it.Line? ==> it.rk in rks)
    requires U16(Total(rks, s, m)) == U16(PlainSum(s, m, {}))
    ensures U16(Total(rks, s + [it], m)) == U16(PlainSum(s + [it], m, {}))
  {
    hide U16, LineSum, Total, PlainSum, Present;
    TotalAppend(rks, s, it, m);
    PlainSumAppend(s, it, m, {});
    if Active(it, m, {}) { U16Add(Total(rks, s, m), PlainSum(s, m, {}), LineSum(it.rk, it.dk)); }
  }

  lemma U16Add(a: int, b: int, x: int)
    requires U16(a) == U16(b)
    ensures U16(a + U16(x)) == U16(b + x)
  {
  }

  lemma {:induction false} TotalOfNothing(rks: seq<Key>, m: set<nat>)
    ensures Total(rks, [], m) == 0
  {
    if rks != [] { TotalOfNothing(rks[..|rks| - 1], m); }
  }

  function Rootkeys(files: seq<File>): (rks: seq<Key>)
    ensures |rks| == |files| && forall f :: 0 <= f < |files| ==> rks[f] == files[f].rk
  {
    seq(|files|, f requires 0 <= f < |files| => files[f].rk)
  }

  /** The files of an index hold exactly the weave, one file per rootkey. */
  ghost predicate Indexes(files: seq<File>, s: Stream) {
    && Distinct(Rootkeys(files)) && Covers(Rootkeys(files), s)
    && forall f :: 0 <= f < |files| ==> files[f].sse == Entries(s, files[f].rk)
  }

  ghost predicate Touches(file: File, i: nat) {
    exists k :: 0 <= k < |file.sse| && file.sse[k].ser == i
  }

  /** csetlist[i] lists the files that serial i changed. */
  ghost predicate Lists(csetlist: seq<seq<nat>>, files: seq<File>) {
    && (forall i, k :: 0 <= i < |csetlist| && 0 <= k < |csetlist[i]| ==> csetlist[i][k] < |files|)
    && (forall i, f :: 0 <= i < |csetlist| && 0 <= f < |files| && Touches(files[f], i) ==> f in csetlist[i])
  }

  /** root2id finds the file of every rootkey. */
  ghost predicate Finds(root2id: map<Key, nat>, files: seq<File>) {
    && (forall rk :: rk in root2id ==> root2id[rk] < |files| && files[root2id[rk]].rk == rk)
    && (forall f :: 0 <= f < |files| ==> files[f].rk in root2id && root2id[files[f].rk] == f)
  }

  lemma FindsMore(root2id: map<Key, nat>, files: seq<File>, rk: Key)
    requires Finds(root2id, files) && rk !in root2id
    ensures Finds(root2id[rk := |files|], files + [File(rk, [])]) && rk !in Rootkeys(files)
  {
  }

  lemma FindsLine(root2id: map<Key, nat>, files: seq<File>, it: Item)
    requires Finds(root2id, files) && it.rk in root2id && it.Line?
    ensures var id := root2id[it.rk];
            id < |files| && files[id].rk == it.rk && Finds(root2id, AddLine(files, id, it))
  {
  }

  lemma {:induction false} AddFile(files: seq<File>, s: Stream, csetlist: seq<seq<nat>>, rk: Key)
    requires Indexes(files, s) && Lists(csetlist, files) && rk !in Rootkeys(files)
    ensures Indexes(files + [File(rk, [])], s) && Lists(csetlist, files + [File(rk, [])])
  {
    NoEntries(s, rk, Rootkeys(files));
    var more := files + [File(rk, [])];
    assert Rootkeys(more) == Rootkeys(files) + [rk];
    forall i, f | 0 <= i < |csetlist| && 0 <= f < |more| && Touches(more[f], i) ensures f in csetlist[i] {
      assert f < |files|;
    }
  }

  lemma {:induction false} NoEntries(s: Stream, rk: Key, rks: seq<Key>)
    requires Covers(rks, s) && rk !in rks
    ensures Entries(s, rk) == []
  {
    if s != [] {
      assert Covers(rks, s[..|s| - 1]);
      NoEntries(s[..|s| - 1], rk, rks);
    }
  }

  /** The files after one more line of the file with this id. */
  function AddLine(files: seq<File>, id: nat, it: Item): seq<File>
    requires id < |files| && it.Line?
  {
    files[id := File(files[id].rk, files[id].sse + [Entry(it)])]
  }

  lemma {:induction false} AddLineIndexes(files: seq<File>, s: Stream, id: nat, it: Item)
    requires Indexes(files, s) && id < |files| && it.Line? && it.rk == files[id].rk
    ensures Indexes(AddLine(files, id, it), s + [it])
  {
    var more := AddLine(files, id, it);
    assert Rootkeys(more) == Rootkeys(files);
    assert Rootkeys(files)[id] == it.rk;
    assert (s + [it])[..|s|] == s;
    forall f | 0 <= f < |more| ensures more[f].sse == Entries(s + [it], more[f].rk) {
      if f != id { assert Rootkeys(files)[f] != Rootkeys(files)[id]; }
    }
  }

  lemma {:induction false} AddLineLists(files: seq<File>, csetlist: seq<seq<nat>>, id: nat, it: Item)
    requires Lists(csetlist, files) && id < |files| && it.Line? && it.ser < |csetlist|
    ensures Lists(csetlist[it.ser := csetlist[it.ser] + [id]], AddLine(files, id, it))
  {
    var more, list := AddLine(files, id, it), csetlist[it.ser := csetlist[it.ser] + [id]];
    forall i, f | 0 <= i < |list| && 0 <= f < |more| && Touches(more[f], i) ensures f in list[i] {
      if f == id {
        var k :| 0 <= k < |more[f].sse| && more[f].sse[k].ser == i;
        if k < |files[f].sse| { assert files[f].sse[k].ser == i; }
      } else {
        assert Touches(files[f], i);
      }
    }
  }

  lemma SkipMarker(files: seq<File>, s: Stream, it: Item)
    requires Indexes(files, s) && it.Marker?
    ensures Indexes(files, s + [it])
  {
    assert (s + [it])[..|s|] == s;
  }

  /** Reads the weave once and indexes it by rootkey. */
  method BuildIndex(s: Stream, n: nat) returns (files: seq<File>, csetlist: seq<seq<nat>>)
    requires forall k :: 0 <= k < |s| ==> s[k].ser < n
    ensures Indexes(files, s) && |csetlist| == n && Lists(csetlist, files)
  {
    files, csetlist := [], seq(n, _ => []);
    var root2id: map<Key, nat> := map[];
    assert Indexes(files, s[..0]) && Lists(csetlist, files);
    hide Indexes, Lists, Finds, AddLine, Rootkeys;
    for k := 0 to |s|
      invariant |csetlist| == n && Indexes(files, s[..k]) && Lists(csetlist, files) && Finds(root2id, files)
    {
      var it := s[k];
      assert s[..k + 1] == s[..k] + [it];
      if it.Marker? {
        SkipMarker(files, s[..k], it);
        continue;
      }
      if it.rk !in root2id {
        FindsMore(root2id, files, it.rk);
        AddFile(files, s[..k], csetlist, it.rk);
        root2id := root2id[it.rk := |files|];
        files := files + [File(it.rk, [])];
      }
      var id := root2id[it.rk];
      FindsLine(root2id, files, it);
      AddLineIndexes(files, s[..k], id, it);
      AddLineLists(files, csetlist, id, it);
      files := AddLine(files, id, it);
      csetlist := csetlist[it.ser := csetlist[it.ser] + [id]];
    }
    assert s[..|s|] == s;
  }
}
