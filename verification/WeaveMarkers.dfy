/** src/cweave.c, src/dataheap.c: end markers after weave entries come with a patch.

    Every rootkey has one end marker, after its oldest entry. The entries of a patch can be
    the first of their rootkey, or older than the entry that has the marker so far. */
module WeaveMarkers {
  import opened Weave
  import opened CommitSum

  datatype Entry = Entry(rk: Key, dk: Key, mark: bool)

  /** The weave by serial; slot 0 is unused. */
  type Blocks = seq<seq<Entry>>

  ghost predicate Has(b: seq<Entry>, rk: Key) {
    exists k :: 0 <= k < |b| && b[k].rk == rk
  }

  /** A delta before d has an entry of rk. */
  ghost predicate Older(w: Blocks, d: nat, rk: Key) {
    exists e: nat :: 1 <= e < d && e < |w| && Has(w[e], rk)
  }

  ghost predicate Distinct(b: seq<Entry>) {
    forall k, l :: 0 <= k < l < |b| ==> b[k].rk != b[l].rk
  }

  ghost predicate Unmarked(b: seq<Entry>) {
    forall k :: 0 <= k < |b| ==> !b[k].mark
  }

  /** An entry is marked exactly when it is the oldest of its rootkey. */
  ghost predicate Exact(w: Blocks) {
    && |w| >= 1 && w[0] == []
    && (forall d :: 1 <= d < |w| ==> Distinct(w[d]))
    && (forall d: nat, k: nat :: 1 <= d < |w| && k < |w[d]| ==> (w[d][k].mark <==> !Older(w, d, w[d][k].rk)))
  }

  /** The same entries, whatever the marks. */
  ghost predicate SameKeys(a: seq<Entry>, b: seq<Entry>) {
    && |a| == |b|
    && forall k :: 0 <= k < |a| ==> a[k].rk == b[k].rk && a[k].dk == b[k].dk
  }

  lemma HasSame(a: seq<Entry>, b: seq<Entry>, rk: Key)
    requires SameKeys(a, b)
    ensures Has(a, rk) <==> Has(b, rk)
  {
  }

  /** Of the entries of a rootkey, one is marked. */
  lemma {:induction false} SomeMarked(w: Blocks, d: nat, k: nat) returns (e: nat, l: nat)
    requires Exact(w) && 1 <= d < |w| && k < |w[d]|
    ensures 1 <= e <= d && l < |w[e]| && w[e][l].rk == w[d][k].rk && w[e][l].mark
    decreases d
  {
    if w[d][k].mark {
      e, l := d, k;
    } else {
      var e': nat :| 1 <= e' < d && Has(w[e'], w[d][k].rk);
      var l': nat :| l' < |w[e']| && w[e'][l'].rk == w[d][k].rk;
      e, l := SomeMarked(w, e', l');
    }
  }

  // ---------- the patch ----------

  /** The entries of one new delta. */
  datatype Block = Block(d: nat, keys: seq<Entry>)

  /** The entries that came with a patch: newest delta first, unmarked. */
  ghost predicate PatchOk(blocks: seq<Block>) {
    && (forall i, j :: 0 <= i < j < |blocks| ==> blocks[i].d > blocks[j].d)
    && (forall j :: 0 <= j < |blocks| ==> blocks[j].d >= 1 && Distinct(blocks[j].keys) && Unmarked(blocks[j].keys))
  }

  /** The oldest delta of a patch with an entry of rk, or 0. */
  ghost function FirstSer(blocks: seq<Block>, rk: Key): nat {
    if blocks == [] then 0 else
      var r := FirstSer(blocks[1..], rk);
      if r != 0 then r else if Has(blocks[0].keys, rk) then blocks[0].d else 0
  }

  lemma {:induction false} FirstMeans(blocks: seq<Block>, i: nat, rk: Key)
    requires PatchOk(blocks) && i <= |blocks|
    ensures forall j :: i <= j < |blocks| && Has(blocks[j].keys, rk) ==> 1 <= FirstSer(blocks[i..], rk) <= blocks[j].d
    ensures FirstSer(blocks[i..], rk) != 0 ==>
      exists j :: i <= j < |blocks| && blocks[j].d == FirstSer(blocks[i..], rk) && Has(blocks[j].keys, rk)
    decreases |blocks| - i
  {
    hide Has;
    if i < |blocks| {
      FirstMeans(blocks, i + 1, rk);
      assert blocks[i..][1..] == blocks[i + 1..];
    }
  }

  // ---------- registering the rootkeys ----------

  /** h gives every rootkey of the patch its oldest new delta if the heap knew the rootkey,
      else 0; cnt counts the former. */
  ghost predicate Registered(blocks: seq<Block>, heap0: set<Key>, heap: set<Key>, h: map<Key, nat>, cnt: nat,
                             tracked: set<Key>) {
    && (forall rk :: rk in heap <==> rk in heap0 || FirstSer(blocks, rk) != 0)
    && (forall rk :: rk in h <==> FirstSer(blocks, rk) != 0)
    && (forall rk :: rk in h ==> h[rk] == if rk in heap0 then FirstSer(blocks, rk) else 0)
    && (forall rk :: rk in tracked <==> rk in h && h[rk] != 0)
    && cnt == |tracked|
  }

  /** Of a block, the entries of rootkeys unknown so far are marked. */
  ghost predicate NewMarked(keys: seq<Entry>, keys': seq<Entry>, heap0: set<Key>, rest: seq<Block>, n: nat) {
    && SameKeys(keys, keys') && n <= |keys|
    && (forall k :: 0 <= k < n ==> (keys'[k].mark <==> keys[k].rk !in heap0 && FirstSer(rest, keys[k].rk) == 0))
    && forall k :: n <= k < |keys| ==> keys'[k] == keys[k]
  }

  lemma FirstStep(d: nat, keys: seq<Entry>, k: nat, rest: seq<Block>, rk: Key)
    requires k < |keys|
    ensures FirstSer([Block(d, keys[..k + 1])] + rest, rk) ==
      var r := FirstSer([Block(d, keys[..k])] + rest, rk);
      if r != 0 then r else if rk == keys[k].rk then d else 0
  {
    assert ([Block(d, keys[..k + 1])] + rest)[1..] == rest && ([Block(d, keys[..k])] + rest)[1..] == rest;
    if Has(keys[..k], rk) {
      var l :| 0 <= l < k && keys[..k][l].rk == rk;
      assert keys[..k + 1][l].rk == rk;
    }
    assert keys[..k + 1][k].rk == keys[k].rk;
  }

  lemma FirstEmpty(d: nat, rest: seq<Block>, rk: Key)
    ensures FirstSer([Block(d, [])] + rest, rk) == FirstSer(rest, rk)
  {
    assert ([Block(d, [])] + rest)[1..] == rest;
  }

  lemma FirstInHead(d: nat, keys: seq<Entry>, k: nat, rest: seq<Block>)
    requires k < |keys| && Distinct(keys)
    ensures FirstSer([Block(d, keys[..k])] + rest, keys[k].rk) == FirstSer(rest, keys[k].rk)
  {
    assert ([Block(d, keys[..k])] + rest)[1..] == rest;
  }

  method RegisterBlock(d: nat, keys: seq<Entry>, heap0: set<Key>, heap: set<Key>, h: map<Key, nat>, cnt: nat,
                       ghost rest: seq<Block>, ghost tracked: set<Key>)
    returns (keys': seq<Entry>, heap': set<Key>, h': map<Key, nat>, cnt': nat, ghost tracked': set<Key>)
    requires d >= 1 && Distinct(keys) && Unmarked(keys) && Registered(rest, heap0, heap, h, cnt, tracked)
    ensures Registered([Block(d, keys)] + rest, heap0, heap', h', cnt', tracked')
    ensures NewMarked(keys, keys', heap0, rest, |keys|)
  {
    hide Registered, NewMarked, Distinct, Unmarked;
    keys', heap', h', cnt', tracked' := keys, heap, h, cnt, tracked;
    RegisterStart(d, keys, heap0, heap, h, cnt, rest, tracked);
    for k := 0 to |keys|
      invariant Registered([Block(d, keys[..k])] + rest, heap0, heap', h', cnt', tracked')
      invariant NewMarked(keys, keys', heap0, rest, k)
    {
      MarkStep(keys, keys', heap0, rest, k);
      var rk := keys'[k].rk;
      RegisterKnown(d, keys, k, heap0, heap', h', cnt', rest, tracked');
      if rk in heap' {
        // the heap may know a rootkey that the weave does not have
        if rk !in h' {
          RegisterFirst(d, keys, k, heap0, heap', h', cnt', rest, tracked');
          h' := h'[rk := d];
          cnt' := cnt' + 1;
          tracked' := tracked' + {rk};
        }
      } else {
        RegisterNew(d, keys, k, heap0, heap', h', cnt', rest, tracked');
        heap' := heap' + {rk};
        h' := h'[rk := 0];
        keys' := keys'[k := keys'[k].(mark := true)];
      }
    }
    assert keys[..|keys|] == keys;
  }

  lemma RegisterStart(d: nat, keys: seq<Entry>, heap0: set<Key>, heap: set<Key>, h: map<Key, nat>, cnt: nat,
                      rest: seq<Block>, tracked: set<Key>)
    requires Registered(rest, heap0, heap, h, cnt, tracked) && Unmarked(keys)
    ensures Registered([Block(d, keys[..0])] + rest, heap0, heap, h, cnt, tracked)
    ensures NewMarked(keys, keys, heap0, rest, 0)
  {
    hide FirstSer;
    forall rk ensures FirstSer([Block(d, keys[..0])] + rest, rk) == FirstSer(rest, rk) { FirstEmpty(d, rest, rk); }
  }

  lemma MarkStep(keys: seq<Entry>, keys': seq<Entry>, heap0: set<Key>, rest: seq<Block>, k: nat)
    requires NewMarked(keys, keys', heap0, rest, k) && k < |keys| && Unmarked(keys)
    ensures k < |keys'| && keys'[k].rk == keys[k].rk
    ensures NewMarked(keys, if keys[k].rk !in heap0 && FirstSer(rest, keys[k].rk) == 0
      then keys'[k := keys'[k].(mark := true)] else keys', heap0, rest, k + 1)
  {
    hide FirstSer;
  }

  lemma {:induction false} RegisterKnown(d: nat, keys: seq<Entry>, k: nat, heap0: set<Key>, heap: set<Key>,
                                         h: map<Key, nat>, cnt: nat,
                                         rest: seq<Block>, tracked: set<Key>)
    requires k < |keys| && Registered([Block(d, keys[..k])] + rest, heap0, heap, h, cnt, tracked) && Distinct(keys)
    ensures keys[k].rk in heap <==> keys[k].rk in heap0 || FirstSer(rest, keys[k].rk) != 0
    ensures keys[k].rk in h ==>
      keys[k].rk in heap && Registered([Block(d, keys[..k + 1])] + rest, heap0, heap, h, cnt, tracked)
  {
    hide FirstSer;
    FirstInHead(d, keys, k, rest);
    var now, next := [Block(d, keys[..k])] + rest, [Block(d, keys[..k + 1])] + rest;
    forall x ensures FirstSer(next, x) == if FirstSer(now, x) != 0 then FirstSer(now, x) else if x == keys[k].rk then d
      else 0 {
      FirstStep(d, keys, k, rest, x);
    }
  }

  lemma {:induction false} RegisterFirst(d: nat, keys: seq<Entry>, k: nat, heap0: set<Key>, heap: set<Key>,
                                         h: map<Key, nat>, cnt: nat,
                                         rest: seq<Block>, tracked: set<Key>)
    requires k < |keys| && Registered([Block(d, keys[..k])] + rest, heap0, heap, h, cnt, tracked) && Distinct(keys)
    requires d >= 1
    requires keys[k].rk in heap && keys[k].rk !in h
    ensures Registered([Block(d, keys[..k + 1])] + rest, heap0, heap, h[keys[k].rk := d], cnt + 1,
      tracked + {keys[k].rk})
  {
    hide FirstSer;
    FirstInHead(d, keys, k, rest);
    var now, next := [Block(d, keys[..k])] + rest, [Block(d, keys[..k + 1])] + rest;
    forall x ensures FirstSer(next, x) == if FirstSer(now, x) != 0 then FirstSer(now, x) else if x == keys[k].rk then d
      else 0 {
      FirstStep(d, keys, k, rest, x);
    }
  }

  lemma {:induction false} RegisterNew(d: nat, keys: seq<Entry>, k: nat, heap0: set<Key>, heap: set<Key>,
                                       h: map<Key, nat>, cnt: nat,
                                       rest: seq<Block>, tracked: set<Key>)
    requires k < |keys| && Registered([Block(d, keys[..k])] + rest, heap0, heap, h, cnt, tracked) && Distinct(keys)
    requires d >= 1
    requires keys[k].rk !in heap
    ensures Registered([Block(d, keys[..k + 1])] + rest, heap0, heap + {keys[k].rk}, h[keys[k].rk := 0], cnt, tracked)
  {
    hide FirstSer;
    FirstInHead(d, keys, k, rest);
    var now, next := [Block(d, keys[..k])] + rest, [Block(d, keys[..k + 1])] + rest;
    forall x ensures FirstSer(next, x) == if FirstSer(now, x) != 0 then FirstSer(now, x) else if x == keys[k].rk then d
      else 0 {
      FirstStep(d, keys, k, rest, x);
    }
  }

  method Register(blocks: seq<Block>, heap: set<Key>)
    returns (blocks': seq<Block>, heap': set<Key>, h: map<Key, nat>, cnt: nat, ghost tracked: set<Key>)
    requires PatchOk(blocks)
    ensures Registered(blocks, heap, heap', h, cnt, tracked)
    ensures |blocks'| == |blocks| && forall j :: 0 <= j < |blocks| ==>
      blocks'[j].d == blocks[j].d && NewMarked(blocks[j].keys, blocks'[j].keys, heap, blocks[j + 1..], |blocks[j].keys|)
  {
    hide Registered, NewMarked, Distinct, Unmarked;
    blocks', heap', h, cnt, tracked := blocks, heap, map[], 0, {};
    NoneRegistered(heap);
    var i := |blocks|;
    assert blocks[i..] == [];
    while i > 0
      invariant 0 <= i <= |blocks| == |blocks'|
      invariant Registered(blocks[i..], heap, heap', h, cnt, tracked)
      invariant forall j :: 0 <= j < i ==> blocks'[j] == blocks[j]
      invariant forall j :: i <= j < |blocks| ==>
        blocks'[j].d == blocks[j].d &&
          NewMarked(blocks[j].keys, blocks'[j].keys, heap, blocks[j + 1..], |blocks[j].keys|)
    {
      i := i - 1;
      assert blocks[i..] == [Block(blocks[i].d, blocks[i].keys)] + blocks[i + 1..];
      var keys;
      keys, heap', h, cnt,
        tracked := RegisterBlock(blocks'[i].d, blocks'[i].keys, heap, heap', h, cnt, blocks[i + 1..], tracked);
      blocks' := blocks'[i := blocks'[i].(keys := keys)];
    }
    assert blocks[0..] == blocks;
  }

  lemma NoneRegistered(heap: set<Key>)
    ensures Registered([], heap, heap, map[], 0, {})
  {
  }

  // ---------- clearing the markers that are no longer oldest ----------

  /** The weave without the markers of the rootkeys in c. */
  function Clear(w: Blocks, c: set<Key>): (r: Blocks)
    ensures |r| == |w| && forall d :: 0 <= d < |w| ==> |r[d]| == |w[d]| && SameKeys(w[d], r[d])
    ensures forall d, k :: 0 <= d < |w| && 0 <= k < |w[d]| ==>
      r[d][k] == w[d][k].(mark := w[d][k].mark && w[d][k].rk !in c)
  {
    seq(|w|, d requires 0 <= d < |w| => ClearBlock(w[d], c))
  }

  function ClearBlock(b: seq<Entry>, c: set<Key>): (r: seq<Entry>)
    ensures |r| == |b| && forall k :: 0 <= k < |b| ==> r[k] == b[k].(mark := b[k].mark && b[k].rk !in c)
  {
    seq(|b|, k requires 0 <= k < |b| => b[k].(mark := b[k].mark && b[k].rk !in c))
  }

  ghost predicate Rewritten(w: Blocks, r: Blocks, d: nat, rk: Key, mark: bool) {
    && |r| == |w| && d < |w| && (forall e :: 0 <= e < |w| && e != d ==> r[e] == w[e]) && |r[d]| == |w[d]|
    && forall k :: 0 <= k < |w[d]| ==> r[d][k] == if w[d][k].rk == rk then w[d][k].(mark := mark) else w[d][k]
  }

  /** Rewrites a block with the marker of rk added or removed. */
  method UpdateMarker(w: Blocks, d: nat, rk: Key, add: bool) returns (r: Blocks)
    requires 1 <= d < |w| && Distinct(w[d]) && exists k :: 0 <= k < |w[d]| && w[d][k].rk == rk && w[d][k].mark == !add
    ensures Rewritten(w, r, d, rk, add)
  {
    var block := [];
    for k := 0 to |w[d]|
      invariant |block| == k
      invariant forall l :: 0 <= l < k ==> block[l] == if w[d][l].rk == rk then w[d][l].(mark := add) else w[d][l]
    {
      block := block + [if w[d][k].rk == rk then w[d][k].(mark := add) else w[d][k]];
    }
    r := w[d := block];
  }

  /** Read so far: every block after d, and the first k entries of block d. */
  predicate IsRead(d: nat, k: nat, e: nat, l: nat) {
    e > d || (e == d && l < k)
  }

  /** A rootkey still waited for: only entries newer than its first new delta were read, and
      not its marker. */
  ghost predicate Waiting(w: Blocks, f: nat, rk: Key, d: nat, k: nat) {
    forall e: nat, l: nat :: e < |w| && l < |w[e]| && IsRead(d, k, e, l) && w[e][l].rk == rk ==> e > f && !w[e][l].mark
  }

  /** A rootkey whose marker was read after only newer entries. */
  ghost predicate Newer(w: Blocks, f: nat, rk: Key, d: nat, k: nat) {
    forall e: nat, l: nat :: 1 <= e < |w| && l < |w[e]| && w[e][l].rk == rk ==> e > f && IsRead(d, k, e, l)
  }

  /** The scan at entry k of block d: u is waited for, c was cleared. */
  ghost predicate Scanning(w0: Blocks, w: Blocks, h0: map<Key, nat>, h: map<Key, nat>, cnt: nat, tracked: set<Key>,
                           u: set<Key>, c: set<Key>, d: nat, k: nat) {
    && w == Clear(w0, c) && cnt == |u| && u !! c && u + c <= tracked
    && h.Keys == h0.Keys && (forall rk :: rk in tracked <==> rk in h0 && h0[rk] != 0)
    && (forall rk :: rk in h0 && rk !in tracked ==> h[rk] == 0)
    && (forall rk :: rk in u ==> h[rk] == h0[rk] && Waiting(w0, h0[rk], rk, d, k))
    && (forall rk :: rk in c ==> h[rk] == h0[rk] && Newer(w0, h0[rk], rk, d, k))
    && (forall rk :: rk in tracked - u - c ==> h[rk] == 0 && Older(w0, h0[rk], rk))
  }

  /** No new delta has a block yet. */
  ghost predicate Vacant(w: Blocks, h: map<Key, nat>) {
    forall rk :: rk in h && h[rk] < |w| ==> w[h[rk]] == []
  }

  /** One (rootkey, deltakey) item or one marker read from the weave. */
  method ReadItem(w: Blocks, h: map<Key, nat>, cnt: nat, d: nat, rk: Key, line: bool)
    returns (w': Blocks, h': map<Key, nat>, cnt': nat)
    requires rk in h && h[rk] != 0 && (d <= h[rk] || !line) ==> cnt > 0
    requires rk in h && 0 < h[rk] < d && !line ==>
      1 <= d < |w| && Distinct(w[d]) && exists k :: 0 <= k < |w[d]| && w[d][k].rk == rk && w[d][k].mark
    ensures rk !in h || h[rk] == 0 || (d > h[rk] && line) ==> w' == w && h' == h && cnt' == cnt
    ensures rk in h && h[rk] != 0 && d <= h[rk] ==> w' == w && h' == h[rk := 0] && cnt' == cnt - 1
    ensures rk in h && 0 < h[rk] < d && !line ==> h' == h && cnt' == cnt - 1 && Rewritten(w, w', d, rk, false)
  {
    w', h', cnt' := w, h, cnt;
    var first := if rk in h then h[rk] else 0;
    if first == 0 { return; }
    if d > first {
      if line { return; }
      w' := UpdateMarker(w, d, rk, false);
    } else {
      h' := h[rk := 0];
    }
    cnt' := cnt - 1;
  }

  lemma ClearMore(w0: Blocks, w: Blocks, c: set<Key>, d: nat, k: nat, r: Blocks)
    requires Exact(w0) && w == Clear(w0, c) && 1 <= d < |w0| && k < |w0[d]| && w0[d][k].mark
    requires Rewritten(w, r, d, w0[d][k].rk, false)
    ensures r == Clear(w0, c + {w0[d][k].rk})
  {
    var rk, c' := w0[d][k].rk, c + {w0[d][k].rk};
    forall e | 0 <= e < |w0| ensures r[e] == Clear(w0, c')[e] {
      if e != d {
        forall l | 0 <= l < |w0[e]| && w0[e][l].rk == rk && e > 0 ensures !w0[e][l].mark {
          OneMark(w0, d, k, e, l);
        }
      }
    }
  }

  lemma OneMark(w: Blocks, d: nat, k: nat, e: nat, l: nat)
    requires Exact(w) && 1 <= d < |w| && k < |w[d]| && w[d][k].mark && 1 <= e < |w| && l < |w[e]|
    requires w[e][l].rk == w[d][k].rk
    ensures e >= d && (w[e][l].mark ==> e == d && l == k)
  {
    assert Has(w[e], w[d][k].rk) && Has(w[d], w[d][k].rk);
    if e == d { assert l == k; }
  }

  lemma WaitMore(w: Blocks, f: nat, rk: Key, d: nat, k: nat)
    requires d < |w| && k < |w[d]| && Waiting(w, f, rk, d, k) && (w[d][k].rk == rk ==> d > f && !w[d][k].mark)
    ensures Waiting(w, f, rk, d, k + 1)
  {
  }

  lemma NewerMore(w: Blocks, f: nat, rk: Key, d: nat, k: nat)
    requires 1 <= d < |w| && k < |w[d]| && Newer(w, f, rk, d, k)
    ensures w[d][k].rk != rk && Newer(w, f, rk, d, k + 1)
  {
  }

  /** An entry whose rootkey is not waited for, or newer without a marker, changes nothing. */
  lemma {:induction false} ScanSkip(w0: Blocks, w: Blocks, h0: map<Key, nat>, h: map<Key, nat>, cnt: nat,
                                    tracked: set<Key>,
                                    u: set<Key>, c: set<Key>, d: nat, k: nat)
    requires Scanning(w0, w, h0, h, cnt, tracked, u, c, d, k) && 1 <= d < |w0| && k < |w0[d]|
    requires var e := w0[d][k]; e.rk !in h || h[e.rk] == 0 || (d > h[e.rk] && !e.mark)
    ensures Scanning(w0, w, h0, h, cnt, tracked, u, c, d, k + 1)
  {
    hide Waiting, Newer, Older, Clear;
    forall rk | rk in u ensures Waiting(w0, h0[rk], rk, d, k + 1) { WaitMore(w0, h0[rk], rk, d, k); }
    forall rk | rk in c ensures Newer(w0, h0[rk], rk, d, k + 1) { NewerMore(w0, h0[rk], rk, d, k); }
  }

  lemma OlderAt(w: Blocks, d: nat, k: nat, f: nat)
    requires 1 <= d < |w| && k < |w[d]| && d < f
    ensures Older(w, f, w[d][k].rk)
  {
    assert Has(w[d], w[d][k].rk);
  }

  lemma OldestStays(w: Blocks, d: nat, k: nat, f: nat)
    requires Exact(w) && 1 <= d < |w| && k < |w[d]| && w[d][k].mark && Older(w, f, w[d][k].rk)
    ensures d < f
  {
    var o: nat :| 1 <= o < f && o < |w| && Has(w[o], w[d][k].rk);
    assert !Older(w, d, w[d][k].rk);
  }

  /** An older entry: its rootkey keeps the marker it has. */
  lemma {:induction false} ScanOlder(w0: Blocks, w: Blocks, h0: map<Key, nat>, h: map<Key, nat>, cnt: nat,
                                     tracked: set<Key>,
                                     u: set<Key>, c: set<Key>, d: nat, k: nat)
    requires Scanning(w0, w, h0, h, cnt, tracked, u, c, d, k) && 1 <= d < |w0| && k < |w0[d]| && Vacant(w0, h0)
    requires var rk := w0[d][k].rk; rk in h && h[rk] != 0 && d <= h[rk]
    ensures cnt > 0
    ensures var rk := w0[d][k].rk; Scanning(w0, w, h0, h[rk := 0], cnt - 1, tracked, u - {rk}, c, d, k + 1)
  {
    hide Waiting, Newer, Clear, Older;
    var rk := w0[d][k].rk;
    forall x | x in c ensures w0[d][k].rk != x && Newer(w0, h0[x], x, d, k + 1) { NewerMore(w0, h0[x], x, d, k); }
    forall x | x in u && x != rk ensures Waiting(w0, h0[x], x, d, k + 1) { WaitMore(w0, h0[x], x, d, k); }
    assert rk in u;
    OlderAt(w0, d, k, h0[rk]);
  }

  /** A marker on a newer entry: the marker goes. */
  lemma {:induction false} ScanClear(w0: Blocks, w: Blocks, h0: map<Key, nat>, h: map<Key, nat>, cnt: nat,
                                     tracked: set<Key>,
                                     u: set<Key>, c: set<Key>, d: nat, k: nat, r: Blocks)
    requires Exact(w0) && Scanning(w0, w, h0, h, cnt, tracked, u, c, d, k) && 1 <= d < |w0| && k < |w0[d]|
    requires w0[d][k].mark
    requires var rk := w0[d][k].rk; rk in h && 0 < h[rk] < d && Rewritten(w, r, d, rk, false)
    ensures cnt > 0
    ensures var rk := w0[d][k].rk; Scanning(w0, r, h0, h, cnt - 1, tracked, u - {rk}, c + {rk}, d, k + 1)
  {
    hide Waiting, Newer, Clear, Exact, Older;
    var rk := w0[d][k].rk;
    ClearMore(w0, w, c, d, k, r);
    forall x | x in c ensures w0[d][k].rk != x && Newer(w0, h0[x], x, d, k + 1) { NewerMore(w0, h0[x], x, d, k); }
    forall x | x in u && x != rk ensures Waiting(w0, h0[x], x, d, k + 1) { WaitMore(w0, h0[x], x, d, k); }
    assert rk in u;
    MarkedNewer(w0, h0[rk], d, k);
  }

  lemma MarkedNewer(w: Blocks, f: nat, d: nat, k: nat)
    requires Exact(w) && f < d < |w| && k < |w[d]| && w[d][k].mark
    ensures Newer(w, f, w[d][k].rk, d, k + 1)
  {
    forall e: nat, l: nat | 1 <= e < |w| && l < |w[e]| && w[e][l].rk == w[d][k].rk ensures e > f &&
      IsRead(d, k + 1, e, l) {
      OneMark(w, d, k, e, l);
      if e == d { assert Distinct(w[d]); }
    }
  }

  lemma MarkerStands(w0: Blocks, w: Blocks, h0: map<Key, nat>, h: map<Key, nat>, cnt: nat, tracked: set<Key>,
                     u: set<Key>, c: set<Key>, d: nat, k: nat)
    requires Exact(w0) && Scanning(w0, w, h0, h, cnt, tracked, u, c, d, k) && 1 <= d < |w0| && k < |w0[d]|
    ensures |w| == |w0| && |w[d]| == |w0[d]| && Distinct(w[d]) && w[d][k] == w0[d][k]
  {
    hide Waiting, Newer, Older;
    var rk := w0[d][k].rk;
    if rk in c { NewerMore(w0, h0[rk], rk, d, k); }
  }

  method ReadEntry(w: Blocks, h: map<Key, nat>, cnt: nat, d: nat, e: Entry,
                   ghost w0: Blocks, ghost h0: map<Key, nat>, ghost tracked: set<Key>, ghost u: set<Key>,
                   ghost c: set<Key>, ghost k: nat)
    returns (w': Blocks, h': map<Key, nat>, cnt': nat, ghost u': set<Key>, ghost c': set<Key>)
    requires Exact(w0) && Vacant(w0, h0) && 1 <= d < |w0| && k < |w0[d]| && e == w0[d][k] && cnt > 0
    requires Scanning(w0, w, h0, h, cnt, tracked, u, c, d, k)
    ensures Scanning(w0, w', h0, h', cnt', tracked, u', c', d, k + 1)
  {
    hide Exact, Scanning, Vacant, Distinct, Rewritten;
    u', c' := u, c;
    MarkerStands(w0, w, h0, h, cnt, tracked, u, c, d, k);
    if e.rk !in h || h[e.rk] == 0 || (d > h[e.rk] && !e.mark) {
      ScanSkip(w0, w, h0, h, cnt, tracked, u, c, d, k);
    } else if d <= h[e.rk] {
      ScanOlder(w0, w, h0, h, cnt, tracked, u, c, d, k);
      u' := u - {e.rk};
    }
    w', h', cnt' := ReadItem(w, h, cnt, d, e.rk, true);
    if cnt' == 0 { return; }
    if e.mark {
      ghost var before := w';
      w', h', cnt' := ReadItem(w', h', cnt', d, e.rk, false);
      if e.rk in h && 0 < h[e.rk] < d {
        ScanClear(w0, w, h0, h, cnt, tracked, u, c, d, k, w');
        u', c' := u - {e.rk}, c + {e.rk};
      }
    }
  }

  lemma BlockStands(w0: Blocks, w: Blocks, h0: map<Key, nat>, h: map<Key, nat>, cnt: nat, tracked: set<Key>,
                    u: set<Key>, c: set<Key>, d: nat)
    requires Scanning(w0, w, h0, h, cnt, tracked, u, c, d, 0) && 1 <= d < |w0|
    ensures |w| == |w0| && w[d] == w0[d]
  {
    hide Waiting, Newer, Older;
    forall k: nat | k < |w0[d]| ensures w[d][k] == w0[d][k] {
      var rk := w0[d][k].rk;
      if rk in c { Unread(w0, h0[rk], rk, d, k); }
    }
  }

  lemma Unread(w: Blocks, f: nat, rk: Key, d: nat, k: nat)
    requires Newer(w, f, rk, d, 0) && 1 <= d < |w| && k < |w[d]|
    ensures w[d][k].rk != rk
  {
  }

  lemma NextBlock(w0: Blocks, w: Blocks, h0: map<Key, nat>, h: map<Key, nat>, cnt: nat, tracked: set<Key>,
                  u: set<Key>, c: set<Key>, d: nat)
    requires 1 <= d < |w0| && Scanning(w0, w, h0, h, cnt, tracked, u, c, d, |w0[d]|)
    ensures Scanning(w0, w, h0, h, cnt, tracked, u, c, d - 1, 0)
  {
    hide Older, Clear;
  }

  lemma StartScan(w0: Blocks, h0: map<Key, nat>, tracked: set<Key>)
    requires Exact(w0) && forall rk :: rk in tracked <==> rk in h0 && h0[rk] != 0
    ensures Scanning(w0, w0, h0, h0, |tracked|, tracked, tracked, {}, |w0| - 1, 0)
  {
    var w := Clear(w0, {});
    forall d | 0 <= d < |w0| ensures w[d] == w0[d] {
      forall k | 0 <= k < |w0[d]| ensures w[d][k] == w0[d][k] {}
    }
    assert w == w0;
  }

  /** The scan is over: a rootkey keeps its first new delta exactly when no entry is older,
      and the markers newer than that delta are gone. */
  ghost predicate Settled(w0: Blocks, w: Blocks, h0: map<Key, nat>, h: map<Key, nat>) {
    && h.Keys == h0.Keys && |w| == |w0|
    && (forall rk :: rk in h0 ==> h[rk] == if h0[rk] != 0 && !Older(w0, h0[rk], rk) then h0[rk] else 0)
    && (forall d :: 0 <= d < |w0| ==> SameKeys(w0[d], w[d]))
    && (forall d: nat, k: nat :: d < |w0| && k < |w0[d]| ==>
      (w[d][k].mark <==> w0[d][k].mark && !(w0[d][k].rk in h0 && 0 < h0[w0[d][k].rk] < d)))
  }

  lemma {:induction false} NeverSeen(w: Blocks, f: nat, rk: Key, d: nat, k: nat)
    requires Exact(w) && Waiting(w, f, rk, 0, 0) && 1 <= d < |w| && k < |w[d]|
    ensures w[d][k].rk != rk
  {
    hide Exact;
    if w[d][k].rk == rk {
      var e, l := SomeMarked(w, d, k);
    }
  }

  lemma {:induction false} Settle(w0: Blocks, w: Blocks, h0: map<Key, nat>, h: map<Key, nat>, cnt: nat,
                                  tracked: set<Key>,
                                  u: set<Key>, c: set<Key>, d: nat, k: nat)
    requires Exact(w0) && Scanning(w0, w, h0, h, cnt, tracked, u, c, d, k) && (cnt == 0 || (d == 0 && k == 0))
    ensures Settled(w0, w, h0, h)
  {
    hide Clear, Exact;
    forall rk | rk in h0 ensures h[rk] == if h0[rk] != 0 && !Older(w0, h0[rk], rk) then h0[rk] else 0 {
      if rk in u {
        forall e: nat, l: nat | 1 <= e < |w0| && l < |w0[e]| ensures w0[e][l].rk != rk {
          NeverSeen(w0, h0[rk], rk, e, l);
        }
      }
    }
    forall e: nat, l: nat | e < |w0| && l < |w0[e]|
      ensures w[e][l].mark <==> w0[e][l].mark && !(w0[e][l].rk in h0 && 0 < h0[w0[e][l].rk] < e)
    {
      SettleAt(w0, w, h0, h, cnt, tracked, u, c, d, k, e, l);
    }
  }

  lemma {:induction false} SettleAt(w0: Blocks, w: Blocks, h0: map<Key, nat>, h: map<Key, nat>, cnt: nat,
                                    tracked: set<Key>,
                                    u: set<Key>, c: set<Key>, d: nat, k: nat, e: nat, l: nat)
    requires Exact(w0) && Scanning(w0, w, h0, h, cnt, tracked, u, c, d, k) && (cnt == 0 || (d == 0 && k == 0))
    requires e < |w0| && l < |w0[e]|
    ensures w[e][l].mark <==> w0[e][l].mark && !(w0[e][l].rk in h0 && 0 < h0[w0[e][l].rk] < e)
  {
    hide Waiting, Older, Has;
    var rk := w0[e][l].rk;
    if rk in u {
      NeverSeen(w0, h0[rk], rk, e, l);
    } else if rk in tracked && rk !in c && w0[e][l].mark {
      OldestStays(w0, e, l, h0[rk]);
    }
  }

  /** Walks the weave from the newest delta, as long as a rootkey is waited for. */
  method ClearMarkers(w0: Blocks, h0: map<Key, nat>, cnt0: nat, ghost tracked: set<Key>)
    returns (w: Blocks, h: map<Key, nat>)
    requires Exact(w0) && Vacant(w0, h0) && cnt0 == |tracked| && forall rk :: rk in tracked <==> rk in h0 && h0[rk] != 0
    ensures Settled(w0, w, h0, h)
  {
    hide Scanning, Exact, Vacant, Settled;
    w, h := w0, h0;
    var cnt := cnt0;
    ghost var u, c: set<Key> := tracked, {};
    StartScan(w0, h0, tracked);
    OneSlot(w0);
    var d, k := |w0| - 1, 0;
    while cnt > 0 && d >= 1
      invariant 0 <= d < |w0| && k >= 0 && Scanning(w0, w, h0, h, cnt, tracked, u, c, d, k) && (cnt == 0 || k == 0)
      decreases d, cnt
    {
      BlockStands(w0, w, h0, h, cnt, tracked, u, c, d);
      var block := w[d];
      while cnt > 0 && k < |block|
        invariant 0 <= k <= |block| && Scanning(w0, w, h0, h, cnt, tracked, u, c, d, k)
        decreases |block| - k
      {
        w, h, cnt, u, c := ReadEntry(w, h, cnt, d, block[k], w0, h0, tracked, u, c, k);
        k := k + 1;
      }
      if cnt == 0 { break; }
      NextBlock(w0, w, h0, h, cnt, tracked, u, c, d);
      d, k := d - 1, 0;
    }
    Settle(w0, w, h0, h, cnt, tracked, u, c, d, k);
  }

  lemma OneSlot(w: Blocks)
    requires Exact(w)
    ensures |w| >= 1
  {
  }

  // ---------- installing the entries ----------

  method PlaceBlock(keys: seq<Entry>, h: map<Key, nat>) returns (keys': seq<Entry>, h': map<Key, nat>)
    requires Distinct(keys)
    ensures SameKeys(keys, keys') && h'.Keys == h.Keys
    ensures forall k :: 0 <= k < |keys| ==> (keys'[k].mark <==> keys[k].mark || (keys[k].rk in h && h[keys[k].rk] != 0))
    ensures forall rk :: rk in h ==> h'[rk] == if Has(keys, rk) then 0 else h[rk]
  {
    hide Has;
    keys', h' := keys, h;
    HasNone();
    assert keys[..0] == [];
    for k := 0 to |keys|
      invariant SameKeys(keys, keys') && h'.Keys == h.Keys
      invariant forall l :: 0 <= l < k ==> (keys'[l].mark <==> keys[l].mark || (keys[l].rk in h && h[keys[l].rk] != 0))
      invariant forall l :: k <= l < |keys| ==> keys'[l] == keys[l]
      invariant forall rk :: rk in h ==> h'[rk] == if Has(keys[..k], rk) then 0 else h[rk]
    {
      var rk := keys'[k].rk;
      HasPrefix(keys, k);
      if rk in h' && h'[rk] != 0 {
        keys' := keys'[k := keys'[k].(mark := true)];
        h' := h'[rk := 0];
      }
    }
    assert keys[..|keys|] == keys;
  }

  lemma HasNone()
    ensures forall rk :: !Has([], rk)
  {
  }

  lemma HasPrefix(keys: seq<Entry>, k: nat)
    requires k < |keys| && Distinct(keys)
    ensures forall rk :: Has(keys[..k + 1], rk) <==> Has(keys[..k], rk) || rk == keys[k].rk
    ensures !Has(keys[..k], keys[k].rk)
  {
    var a, b := keys[..k], keys[..k + 1];
    assert b == a + [keys[k]];
    assert b[k] == keys[k];
    forall rk | Has(a, rk) ensures Has(b, rk) {
      var l :| 0 <= l < |a| && a[l].rk == rk;
      assert b[l].rk == rk;
    }
  }

  /** The new deltas have their blocks; the others are as they were. */
  ghost predicate Placed(w: Blocks, w': Blocks, blocks: seq<Block>, marked: seq<Block>, h: map<Key, nat>, i: nat) {
    && |w'| == |w| && |marked| == |blocks| && i <= |blocks|
    && (forall d :: 0 <= d < |w| && (forall j :: i <= j < |blocks| ==> blocks[j].d != d) ==> w'[d] == w[d])
    && (forall j :: i <= j < |blocks| ==> PlacedAt(w', blocks, marked, h, j))
  }

  ghost predicate PlacedAt(w: Blocks, blocks: seq<Block>, marked: seq<Block>, h: map<Key, nat>, j: nat)
    requires j < |blocks| == |marked|
  {
    var b := blocks[j];
    && b.d < |w| && |b.keys| == |marked[j].keys| && SameKeys(b.keys, w[b.d])
    && forall k :: 0 <= k < |b.keys| ==>
      (w[b.d][k].mark <==>
        marked[j].keys[k].mark ||
        (b.keys[k].rk in h && h[b.keys[k].rk] != 0 && FirstSer(blocks[j + 1..], b.keys[k].rk) == 0))
  }

  /** What is left of h once the blocks from i on are placed. */
  ghost predicate Remaining(h0: map<Key, nat>, h: map<Key, nat>, rest: seq<Block>) {
    && h.Keys == h0.Keys
    && forall rk :: rk in h0 ==> h[rk] == if FirstSer(rest, rk) != 0 then 0 else h0[rk]
  }

  lemma RemainingMore(h0: map<Key, nat>, h: map<Key, nat>, h': map<Key, nat>, blocks: seq<Block>, i: nat)
    requires i < |blocks| && blocks[i].d >= 1 && Remaining(h0, h, blocks[i + 1..]) && h'.Keys == h.Keys
    requires forall rk :: rk in h ==> h'[rk] == if Has(blocks[i].keys, rk) then 0 else h[rk]
    ensures Remaining(h0, h', blocks[i..])
  {
    assert blocks[i..][1..] == blocks[i + 1..];
  }

  lemma PlacedMore(w: Blocks, w': Blocks, blocks: seq<Block>, marked: seq<Block>, h0: map<Key, nat>, h: map<Key, nat>,
                   i: nat, keys: seq<Entry>)
    requires PatchOk(blocks) && 0 < i && Placed(w, w', blocks, marked, h0, i) && Remaining(h0, h, blocks[i..])
    requires var b := blocks[i - 1];
             && b.d < |w|
             && SameKeys(b.keys, marked[i - 1].keys)
             && SameKeys(marked[i - 1].keys, keys)
    requires forall k :: 0 <= k < |keys| ==>
      (keys[k].mark <==> marked[i - 1].keys[k].mark || (keys[k].rk in h && h[keys[k].rk] != 0))
    ensures Placed(w, w'[blocks[i - 1].d := keys], blocks, marked, h0, i - 1)
  {
    hide FirstSer, Distinct, Unmarked;
    var r := w'[blocks[i - 1].d := keys];
    forall j | i - 1 <= j < |blocks| ensures PlacedAt(r, blocks, marked, h0, j) {
      if j >= i { assert PlacedAt(w', blocks, marked, h0, j); }
    }
  }

  method Place(w: Blocks, blocks: seq<Block>, h: map<Key, nat>, ghost orig: seq<Block>) returns (w': Blocks)
    requires PatchOk(orig) && |blocks| == |orig|
    requires forall j :: 0 <= j < |orig| ==>
      blocks[j].d == orig[j].d && orig[j].d < |w| && w[orig[j].d] == [] && SameKeys(orig[j].keys, blocks[j].keys)
    ensures Placed(w, w', orig, blocks, h, 0)
  {
    hide FirstSer, Unmarked, PlacedAt, Has;
    w' := w;
    var h' := h;
    var i := |blocks|;
    assert orig[i..] == [];
    NoneLeft(h);
    while i > 0
      invariant 0 <= i <= |blocks| && Placed(w, w', orig, blocks, h, i) && Remaining(h, h', orig[i..])
    {
      i := i - 1;
      var d := blocks[i].d;
      assert w'[d] == [];
      DistinctSame(orig[i].keys, blocks[i].keys);
      var keys, h'' := PlaceBlock(blocks[i].keys, h');
      PlacedMore(w, w', orig, blocks, h, h', i + 1, keys);
      RemainingMore(h, h', h'', orig, i);
      w' := w'[d := keys];
      h' := h'';
    }
  }

  lemma NoneLeft(h: map<Key, nat>)
    ensures Remaining(h, h, [])
  {
  }

  lemma DistinctSame(a: seq<Entry>, b: seq<Entry>)
    requires Distinct(a) && SameKeys(a, b)
    ensures Distinct(b) && forall rk :: Has(a, rk) <==> Has(b, rk)
  {
    forall rk ensures Has(a, rk) <==> Has(b, rk) { HasSame(a, b, rk); }
  }

  // ---------- the whole of it ----------

  ghost predicate Known(w: Blocks, heap: set<Key>) {
    forall d, k :: 0 <= d < |w| && 0 <= k < |w[d]| ==> w[d][k].rk in heap
  }

  /** The table has room for the new deltas and they have no entries yet. */
  ghost predicate Room(w: Blocks, blocks: seq<Block>) {
    forall j :: 0 <= j < |blocks| ==> blocks[j].d < |w| && w[blocks[j].d] == []
  }

  /** The new entries are in the weave, with the old ones. */
  ghost predicate Joined(w0: Blocks, blocks: seq<Block>, w: Blocks) {
    && |w| == |w0|
    && (forall d :: 0 <= d < |w0| && (forall j :: 0 <= j < |blocks| ==> blocks[j].d != d) ==> SameKeys(w0[d], w[d]))
    && (forall j :: 0 <= j < |blocks| ==> blocks[j].d < |w| && SameKeys(blocks[j].keys, w[blocks[j].d]))
  }

  lemma {:induction false} JoinedOlder(w0: Blocks, blocks: seq<Block>, w: Blocks, d: nat, rk: Key)
    requires PatchOk(blocks) && Room(w0, blocks) && Joined(w0, blocks, w)
    ensures Older(w, d, rk) <==> Older(w0, d, rk) || 0 < FirstSer(blocks, rk) < d
  {
    hide SameKeys, Unmarked, Distinct, FirstSer;
    FirstMeans(blocks, 0, rk);
    assert blocks[0..] == blocks;
    if Older(w, d, rk) {
      var e: nat :| 1 <= e < d && e < |w| && Has(w[e], rk);
      if j :| 0 <= j < |blocks| && blocks[j].d == e {
        HasSame(blocks[j].keys, w[e], rk);
      } else {
        HasSame(w0[e], w[e], rk);
      }
    }
    if Older(w0, d, rk) {
      var e: nat :| 1 <= e < d && e < |w0| && Has(w0[e], rk);
      HasSame(w0[e], w[e], rk);
    }
    if 0 < FirstSer(blocks, rk) < d {
      var j :| 0 <= j < |blocks| && blocks[j].d == FirstSer(blocks, rk) && Has(blocks[j].keys, rk);
      HasSame(blocks[j].keys, w[blocks[j].d], rk);
    }
  }

  /** First among the deltas from j on, or older ones after it. */
  lemma {:induction false} FirstHere(blocks: seq<Block>, j: nat, k: nat)
    requires PatchOk(blocks) && j < |blocks| && k < |blocks[j].keys|
    ensures var rk, f := blocks[j].keys[k].rk, FirstSer(blocks, blocks[j].keys[k].rk);
            && 1 <= f <= blocks[j].d && (FirstSer(blocks[j + 1..], rk) == 0 <==> f == blocks[j].d)
  {
    hide Unmarked, Distinct, FirstSer, Has;
    var rk := blocks[j].keys[k].rk;
    HasAt(blocks[j].keys, k);
    FirstMeans(blocks, 0, rk);
    FirstMeans(blocks, j + 1, rk);
    assert blocks[0..] == blocks;
    var i :| 0 <= i < |blocks| && blocks[i].d == FirstSer(blocks, rk) && Has(blocks[i].keys, rk);
    if FirstSer(blocks[j + 1..], rk) != 0 {
      var l :| j + 1 <= l < |blocks| && Has(blocks[l].keys, rk);
    } else {
      assert i <= j;
    }
  }

  lemma HasAt(b: seq<Entry>, k: nat)
    requires k < |b|
    ensures Has(b, b[k].rk)
  {
  }

  /** What the three passes leave. */
  ghost predicate Passes(w0: Blocks, blocks: seq<Block>, heap: set<Key>, marked: seq<Block>, h1: map<Key, nat>,
                         h2: map<Key, nat>, w2: Blocks, w: Blocks) {
    && (forall rk :: rk in h1 <==> FirstSer(blocks, rk) != 0)
    && (forall rk :: rk in h1 ==> h1[rk] == if rk in heap then FirstSer(blocks, rk) else 0)
    && |marked| == |blocks|
    && (forall j :: 0 <= j < |blocks| ==>
      NewMarked(blocks[j].keys, marked[j].keys, heap, blocks[j + 1..], |blocks[j].keys|))
    && Settled(w0, w2, h1, h2) && Placed(w2, w, blocks, marked, h2, 0)
  }

  lemma PassesJoin(w0: Blocks, blocks: seq<Block>, heap: set<Key>, marked: seq<Block>, h1: map<Key, nat>,
                   h2: map<Key, nat>, w2: Blocks, w: Blocks)
    requires Passes(w0, blocks, heap, marked, h1, h2, w2, w)
    ensures Joined(w0, blocks, w)
  {
    hide FirstSer, NewMarked, SameKeys;
    forall j | 0 <= j < |blocks| ensures blocks[j].d < |w| && SameKeys(blocks[j].keys, w[blocks[j].d]) {
      assert PlacedAt(w, blocks, marked, h2, j);
    }
    forall d | 0 <= d < |w0| && (forall j :: 0 <= j < |blocks| ==> blocks[j].d != d) ensures SameKeys(w0[d], w[d]) {
      assert w[d] == w2[d];
    }
  }

  lemma {:induction false} OldExact(w0: Blocks, blocks: seq<Block>, heap: set<Key>, marked: seq<Block>,
                                    h1: map<Key, nat>, h2: map<Key, nat>,
                                    w2: Blocks, w: Blocks, d: nat, k: nat)
    requires PatchOk(blocks) && Exact(w0) && Known(w0, heap) && Room(w0, blocks)
    requires Passes(w0, blocks, heap, marked, h1, h2, w2, w)
    requires 1 <= d < |w0| && k < |w0[d]| && forall j :: 0 <= j < |blocks| ==> blocks[j].d != d
    ensures |w| == |w0| && k < |w[d]| && (w[d][k].mark <==> !Older(w, d, w[d][k].rk))
  {
    hide FirstSer, NewMarked, PlacedAt, Older, PatchOk, Room;
    PassesJoin(w0, blocks, heap, marked, h1, h2, w2, w);
    JoinedOlder(w0, blocks, w, d, w0[d][k].rk);
  }

  lemma {:induction false} NewExact(w0: Blocks, blocks: seq<Block>, heap: set<Key>, marked: seq<Block>,
                                    h1: map<Key, nat>, h2: map<Key, nat>,
                                    w2: Blocks, w: Blocks, j: nat, k: nat)
    requires PatchOk(blocks) && Exact(w0) && Known(w0, heap) && Room(w0, blocks)
    requires Passes(w0, blocks, heap, marked, h1, h2, w2, w)
    requires j < |blocks| && k < |blocks[j].keys|
    ensures blocks[j].d < |w| && k < |w[blocks[j].d]|
    ensures (w[blocks[j].d][k].mark <==> !Older(w, blocks[j].d, w[blocks[j].d][k].rk))
  {
    hide FirstSer, PatchOk, Room, Exact;
    var rk := blocks[j].keys[k].rk;
    PassesJoin(w0, blocks, heap, marked, h1, h2, w2, w);
    JoinedOlder(w0, blocks, w, blocks[j].d, rk);
    FirstHere(blocks, j, k);
    assert PlacedAt(w, blocks, marked, h2, j);
  }

  /** Installs the entries of a patch: the weave gains exactly them, and its markers stay exact. */
  method InstallWeave(w0: Blocks, blocks: seq<Block>, heap: set<Key>) returns (w: Blocks, heap': set<Key>)
    requires Exact(w0) && Known(w0, heap) && PatchOk(blocks) && Room(w0, blocks)
    ensures Joined(w0, blocks, w)
    ensures Exact(w) && Known(w, heap')
  {
    hide Registered, NewMarked, Exact, PatchOk, Settled, Placed, Distinct, Joined, Vacant, Passes;
    var marked, h, cnt;
    ghost var tracked;
    marked, heap', h, cnt, tracked := Register(blocks, heap);
    RegisteredFacts(blocks, heap, heap', h, cnt, tracked);
    FreshSerials(w0, blocks, heap, heap', h, cnt, tracked);
    w := w0;
    ghost var h1 := h;
    if cnt > 0 {
      w, h := ClearMarkers(w0, h, cnt, tracked);
    } else {
      NothingTracked(w0, h, tracked);
    }
    ghost var w2 := w;
    ReadyToPlace(w0, w2, blocks, marked, heap, h1, h);
    w := Place(w, marked, h, blocks);
    AllPasses(w0, blocks, heap, heap', marked, h1, cnt, tracked, h, w2, w);
    PassesJoin(w0, blocks, heap, marked, h1, h, w2, w);
    AllExact(w0, blocks, heap, marked, h1, h, w2, w);
    JoinedKnown(w0, blocks, w, heap, heap', h1, cnt, tracked);
  }

  lemma RegisteredFacts(blocks: seq<Block>, heap0: set<Key>, heap: set<Key>, h: map<Key, nat>, cnt: nat,
                        tracked: set<Key>)
    requires Registered(blocks, heap0, heap, h, cnt, tracked)
    ensures cnt == |tracked| && forall rk :: rk in tracked <==> rk in h && h[rk] != 0
  {
  }

  lemma FreshSerials(w: Blocks, blocks: seq<Block>, heap0: set<Key>, heap: set<Key>, h: map<Key, nat>, cnt: nat,
                     tracked: set<Key>)
    requires Exact(w) && PatchOk(blocks) && Room(w, blocks) && Registered(blocks, heap0, heap, h, cnt, tracked)
    ensures Vacant(w, h)
  {
    hide PatchOk, FirstSer, Distinct, Has;
    forall rk | rk in h && h[rk] != 0 ensures h[rk] < |w| && w[h[rk]] == [] {
      FirstMeans(blocks, 0, rk);
      assert blocks[0..] == blocks;
      var j :| 0 <= j < |blocks| && blocks[j].d == FirstSer(blocks, rk) && Has(blocks[j].keys, rk);
    }
  }

  lemma NothingTracked(w: Blocks, h: map<Key, nat>, tracked: set<Key>)
    requires Exact(w) && |tracked| == 0 && forall rk :: rk in tracked <==> rk in h && h[rk] != 0
    ensures Settled(w, w, h, h)
  {
    hide Older;
  }

  lemma ReadyToPlace(w0: Blocks, w: Blocks, blocks: seq<Block>, marked: seq<Block>, heap: set<Key>, h1: map<Key, nat>,
                     h: map<Key, nat>)
    requires PatchOk(blocks) && Room(w0, blocks) && Settled(w0, w, h1, h) && |marked| == |blocks|
    requires forall j :: 0 <= j < |blocks| ==>
      marked[j].d == blocks[j].d && NewMarked(blocks[j].keys, marked[j].keys, heap, blocks[j + 1..], |blocks[j].keys|)
    ensures |marked| == |blocks| && forall j :: 0 <= j < |blocks| ==>
      marked[j].d == blocks[j].d && blocks[j].d < |w| && w[blocks[j].d] == [] &&
        SameKeys(blocks[j].keys, marked[j].keys)
  {
    hide Older, PatchOk, FirstSer;
    forall j | 0 <= j < |blocks| ensures blocks[j].d < |w| && w[blocks[j].d] == [] {
      assert SameKeys(w0[blocks[j].d], w[blocks[j].d]);
    }
  }

  lemma AllPasses(w0: Blocks, blocks: seq<Block>, heap: set<Key>, heap': set<Key>, marked: seq<Block>,
                  h1: map<Key, nat>, cnt: nat, tracked: set<Key>,
                  h2: map<Key, nat>, w2: Blocks, w: Blocks)
    requires Registered(blocks, heap, heap', h1, cnt, tracked) && Settled(w0, w2, h1, h2) && |marked| == |blocks|
    requires forall j :: 0 <= j < |blocks| ==>
      marked[j].d == blocks[j].d && NewMarked(blocks[j].keys, marked[j].keys, heap, blocks[j + 1..], |blocks[j].keys|)
    requires Placed(w2, w, blocks, marked, h2, 0)
    ensures Passes(w0, blocks, heap, marked, h1, h2, w2, w)
  {
    hide Settled, Placed, NewMarked, FirstSer;
  }

  lemma {:induction false} AllExact(w0: Blocks, blocks: seq<Block>, heap: set<Key>, marked: seq<Block>,
                                    h1: map<Key, nat>, h2: map<Key, nat>,
                                    w2: Blocks, w: Blocks)
    requires PatchOk(blocks) && Exact(w0) && Known(w0, heap) && Room(w0, blocks)
    requires Passes(w0, blocks, heap, marked, h1, h2, w2, w)
    ensures Exact(w)
  {
    PassesJoin(w0, blocks, heap, marked, h1, h2, w2, w);
    hide Passes, Known, Room, Older, FirstSer, Unmarked;
    forall d: nat | 1 <= d < |w| ensures Distinct(w[d]) {
      if j :| 0 <= j < |blocks| && blocks[j].d == d {
        DistinctSame(blocks[j].keys, w[d]);
      } else {
        DistinctSame(w0[d], w[d]);
      }
    }
    forall d: nat, k: nat | 1 <= d < |w| && k < |w[d]| ensures w[d][k].mark <==> !Older(w, d, w[d][k].rk) {
      if j :| 0 <= j < |blocks| && blocks[j].d == d {
        NewExact(w0, blocks, heap, marked, h1, h2, w2, w, j, k);
      } else {
        OldExact(w0, blocks, heap, marked, h1, h2, w2, w, d, k);
      }
    }
  }

  lemma {:induction false} JoinedKnown(w0: Blocks, blocks: seq<Block>, w: Blocks, heap: set<Key>, heap': set<Key>,
                                       h: map<Key, nat>, cnt: nat, tracked: set<Key>)
    requires PatchOk(blocks) && Known(w0, heap) && Joined(w0, blocks, w)
    requires Registered(blocks, heap, heap', h, cnt, tracked)
    ensures Known(w, heap')
  {
    hide FirstSer, PatchOk, Distinct;
    forall d, k | 0 <= d < |w| && 0 <= k < |w[d]| ensures w[d][k].rk in heap' {
      if j :| 0 <= j < |blocks| && blocks[j].d == d {
        FirstHere(blocks, j, k);
      } else {
        assert w[d][k].rk == w0[d][k].rk;
      }
    }
  }

  // ---------- the weave as its readers see it ----------

  function Items(b: seq<Entry>, d: nat): Stream {
    if b == [] then [] else
      [Line(d, b[0].rk, b[0].dk)] + (if b[0].mark then [Marker(d, b[0].rk)] else []) + Items(b[1..], d)
  }

  /** The weave from delta d down. */
  function ReadFrom(w: Blocks, d: nat): Stream
    requires d < |w|
  {
    if d == 0 then [] else Items(w[d], d) + ReadFrom(w, d - 1)
  }

  /** Each marker right after the entry it marks. */
  ghost predicate Follows(s: Stream) {
    forall k :: 0 <= k < |s| && s[k].Marker? ==>
      k > 0 && s[k - 1].Line? && s[k - 1].rk == s[k].rk && s[k - 1].ser == s[k].ser
  }

  /** An item that entry k of a block gives. */
  ghost predicate Gives(b: seq<Entry>, k: nat, d: nat, it: Item) {
    k < |b| && it.ser == d && it.rk == b[k].rk && (it.Marker? ==> b[k].mark)
  }

  lemma {:induction false} GivenBy(b: seq<Entry>, d: nat, i: nat) returns (k: nat)
    requires i < |Items(b, d)|
    ensures Gives(b, k, d, Items(b, d)[i])
  {
    var n := if b[0].mark then 2 else 1;
    if i < n {
      k := 0;
    } else {
      k := GivenBy(b[1..], d, i - n);
      k := k + 1;
    }
  }

  lemma {:induction false} EntriesGiven(b: seq<Entry>, d: nat, k: nat)
    requires k < |b|
    ensures InWeave(Items(b, d), b[k].rk)
  {
    var s := Items(b, d);
    if k == 0 {
      assert s[0].rk == b[0].rk;
    } else {
      EntriesGiven(b[1..], d, k - 1);
      var rest := Items(b[1..], d);
      var head := s[..|s| - |rest|];
      assert s == head + rest;
      InEither(head, rest, b[k].rk);
    }
  }

  lemma {:induction false} ItemsSound(b: seq<Entry>, d: nat)
    requires Distinct(b)
    ensures MarkersSound(Items(b, d)) && Follows(Items(b, d))
  {
    if b != [] {
      var s, rest := Items(b, d), Items(b[1..], d);
      var n := |s| - |rest|;
      ItemsSound(b[1..], d);
      var head := s[..n];
      assert s == head + rest;
      forall j | 0 <= j < |rest| ensures rest[j].rk != b[0].rk && rest[j].ser == d {
        var k := GivenBy(b[1..], d, j);
        assert b[1..][k] == b[k + 1];
      }
      FollowsConcat(head, rest);
      SoundConcat(head, rest);
    }
  }

  lemma SoundConcat(a: Stream, b: Stream)
    requires MarkersSound(a) && MarkersSound(b)
    requires forall i, j :: 0 <= i < |a| && 0 <= j < |b| && a[i].Marker? ==> a[i].rk != b[j].rk
    ensures MarkersSound(a + b)
  {
    var s := a + b;
    forall i, j | 0 <= i < j < |s| && s[i].Marker? ensures s[j].rk != s[i].rk {
      if i >= |a| { assert s[i] == b[i - |a|] && s[j] == b[j - |a|]; } else if j >= |a| { assert s[j] == b[j - |a|]; }
    }
  }

  lemma FollowsConcat(a: Stream, b: Stream)
    requires Follows(a) && Follows(b)
    ensures Follows(a + b)
  {
    var s := a + b;
    forall k | 0 <= k < |s| && s[k].Marker? ensures k > 0 && s[k - 1].Line? && s[k - 1].rk == s[k].rk &&
      s[k - 1].ser == s[k].ser {
      if k < |a| { assert a[k] == s[k]; } else { assert b[k - |a|] == s[k]; }
    }
  }

  /** Readers of an exact weave may rely on its order and its markers. */
  lemma {:induction false} ReadSound(w: Blocks, d: nat)
    requires Exact(w) && d < |w|
    ensures var s := ReadFrom(w, d);
            && NewestFirst(s)
            && MarkersSound(s)
            && Follows(s)
            && forall i :: 0 <= i < |s| ==> 1 <= s[i].ser <= d
    ensures forall rk :: InWeave(ReadFrom(w, d), rk) <==> Older(w, d + 1, rk)
  {
    hide Items, Distinct;
    if d > 0 {
      var a, b := Items(w[d], d), ReadFrom(w, d - 1);
      ReadSound(w, d - 1);
      ItemsSound(w[d], d);
      forall rk ensures InWeave(a + b, rk) <==> Older(w, d + 1, rk) { InWeaveAt(w, d, rk); }
      FollowsConcat(a, b);
      forall i: nat | i < |a| ensures a[i].ser == d { var k := GivenBy(w[d], d, i); }
      forall i, j | 0 <= i < |a| && 0 <= j < |b| && a[i].Marker? ensures a[i].rk != b[j].rk {
        var k := GivenBy(w[d], d, i);
        assert !Older(w, d, a[i].rk);
        assert InWeave(b, b[j].rk);
      }
      SoundConcat(a, b);
    }
  }

  lemma {:induction false} InWeaveAt(w: Blocks, d: nat, rk: Key)
    requires 1 <= d < |w| && (InWeave(ReadFrom(w, d - 1), rk) <==> Older(w, d, rk))
    ensures InWeave(ReadFrom(w, d), rk) <==> Older(w, d + 1, rk)
  {
    hide Items;
    var a, b := Items(w[d], d), ReadFrom(w, d - 1);
    InEither(a, b, rk);
    if InWeave(a, rk) {
      var i: nat :| i < |a| && a[i].rk == rk;
      var k := GivenBy(w[d], d, i);
      assert Has(w[d], rk);
    }
    if Has(w[d], rk) {
      var k: nat :| k < |w[d]| && w[d][k].rk == rk;
      EntriesGiven(w[d], d, k);
    }
    assert Older(w, d + 1, rk) <==> Older(w, d, rk) || Has(w[d], rk);
  }

  lemma InEither(a: Stream, b: Stream, rk: Key)
    ensures InWeave(a + b, rk) <==> InWeave(a, rk) || InWeave(b, rk)
  {
    if InWeave(b, rk) {
      var i :| 0 <= i < |b| && b[i].rk == rk;
      assert (a + b)[|a| + i].rk == rk;
    }
    if InWeave(a, rk) {
      var i :| 0 <= i < |a| && a[i].rk == rk;
      assert (a + b)[i].rk == rk;
    }
  }

  lemma {:induction false} ReadSerial(w: Blocks, d: nat, i: nat)
    requires d < |w| && i < |ReadFrom(w, d)|
    ensures var s := ReadFrom(w, d)[i]; 1 <= s.ser <= d && Has(w[s.ser], s.rk)
  {
    hide Items;
    var a, b := Items(w[d], d), ReadFrom(w, d - 1);
    if i < |a| {
      var k := GivenBy(w[d], d, i);
    } else {
      assert ReadFrom(w, d)[i] == b[i - |a|];
      ReadSerial(w, d - 1, i - |a|);
    }
  }

  /** The checksum scan of a commit may rely on all it needs of an exact weave. */
  lemma {:induction false} ReadyForCommit(w: Blocks, P: set<nat>, Q: set<nat>, heap: set<Key>)
    requires Exact(w) && Known(w, heap) && forall d :: 1 <= d < |w| && w[d] != [] ==> d in P || d in Q
    ensures WeaveOk(ReadFrom(w, |w| - 1), |w|, P, Q, heap)
  {
    hide InWeave, MarkersSound, NewestFirst, Exact, Older;
    OneSlot(w);
    ReadSound(w, |w| - 1);
    var s := ReadFrom(w, |w| - 1);
    forall k: nat | k < |s| ensures 1 <= s[k].ser < |w| && (s[k].ser in P || s[k].ser in Q) && s[k].rk in heap {
      ReadSerial(w, |w| - 1, k);
    }
  }

  // ---------- the other operations keep the markers exact ----------

  function Zip(keys: seq<KeyPair>, marks: seq<bool>): (b: seq<Entry>)
    requires |keys| == |marks|
    ensures |b| == |keys| && forall k :: 0 <= k < |keys| ==> b[k] == Entry(keys[k].rk, keys[k].dk, marks[k])
  {
    seq(|keys|, k requires 0 <= k < |keys| => Entry(keys[k].rk, keys[k].dk, marks[k]))
  }

  /** A commit that marks a key exactly when the weave does not have its rootkey. */
  lemma {:induction false} CommitKeeps(w: Blocks, keys: seq<KeyPair>, marks: seq<bool>)
    requires Exact(w) && DistinctKeys(keys) && |marks| == |keys|
    requires forall k :: 0 <= k < |keys| ==> (marks[k] <==> !InWeave(ReadFrom(w, |w| - 1), keys[k].rk))
    ensures Exact(w + [Zip(keys, marks)])
    ensures ReadFrom(w + [Zip(keys, marks)], |w|) == NewItems(keys, marks, |w|) + ReadFrom(w, |w| - 1)
  {
    hide InWeave, MarkersSound, NewestFirst, Follows, Older, ReadFrom, Items;
    var n, b := |w|, Zip(keys, marks);
    ReadSound(w, n - 1);
    AppendKeeps(w, b);
    CommitReads(w, keys, marks);
  }

  lemma CommitReads(w: Blocks, keys: seq<KeyPair>, marks: seq<bool>)
    requires |w| >= 1 && |marks| == |keys|
    ensures ReadFrom(w + [Zip(keys, marks)], |w|) == NewItems(keys, marks, |w|) + ReadFrom(w, |w| - 1)
  {
    hide *;
    AppendReads(w, Zip(keys, marks));
    ItemsZip(keys, marks, |w|);
  }

  lemma AppendReads(w: Blocks, b: seq<Entry>)
    requires |w| >= 1
    ensures ReadFrom(w + [b], |w|) == Items(b, |w|) + ReadFrom(w, |w| - 1)
  {
    hide *;
    var w' := w + [b];
    assert w'[..|w|] == w && w'[|w|] == b;
    ReadPrefix(w, w', |w| - 1);
    ReadTop(w', |w|);
  }

  lemma ReadTop(w: Blocks, d: nat)
    requires 1 <= d < |w|
    ensures ReadFrom(w, d) == Items(w[d], d) + ReadFrom(w, d - 1)
  {
    hide Items;
  }

  lemma AppendKeeps(w: Blocks, b: seq<Entry>)
    requires Exact(w) && Distinct(b) && forall k :: 0 <= k < |b| ==> (b[k].mark <==> !Older(w, |w|, b[k].rk))
    ensures Exact(w + [b])
  {
    hide Older;
    var w' := w + [b];
    forall d: nat, rk | d <= |w| ensures Older(w', d, rk) <==> Older(w, d, rk) { OlderPrefix(w, w', d, rk); }
  }

  lemma OlderPrefix(w: Blocks, w': Blocks, d: nat, rk: Key)
    requires |w| < |w'| && w'[..|w|] == w && d <= |w|
    ensures Older(w', d, rk) <==> Older(w, d, rk)
  {
    assert forall e :: 0 <= e < |w| ==> w'[e] == w[e];
  }

  lemma {:induction false} ReadPrefix(w: Blocks, w': Blocks, d: nat)
    requires |w| < |w'| && w'[..|w|] == w && d < |w|
    ensures ReadFrom(w', d) == ReadFrom(w, d)
  {
    if d > 0 {
      ReadPrefix(w, w', d - 1);
      assert w'[d] == w[d];
    }
  }

  lemma {:induction false} ItemsZip(keys: seq<KeyPair>, marks: seq<bool>, d: nat)
    requires |keys| == |marks|
    ensures Items(Zip(keys, marks), d) == NewItems(keys, marks, d)
  {
    if keys != [] {
      ItemsZip(keys[1..], marks[1..], d);
      assert Zip(keys, marks)[1..] == Zip(keys[1..], marks[1..]);
    }
  }

  /** Making room for a delta of a patch moves the later blocks up by one. */
  lemma {:induction false} InsertKeeps(w: Blocks, i: nat)
    requires Exact(w) && 1 <= i <= |w|
    ensures Exact(w[..i] + [[]] + w[i..])
  {
    var w' := w[..i] + [[]] + w[i..];
    assert Gap(w, w', i);
    forall d: nat, k: nat | 1 <= d < |w'| && k < |w'[d]| ensures w'[d][k].mark <==> !Older(w', d, w'[d][k].rk) {
      GapOlder(w, w', i, d, w'[d][k].rk);
    }
  }

  ghost predicate Gap(w: Blocks, w': Blocks, i: nat) {
    && 1 <= i <= |w| && |w'| == |w| + 1 && w'[i] == []
    && (forall e :: 0 <= e < i ==> w'[e] == w[e])
    && (forall e :: i < e < |w'| ==> w'[e] == w[e - 1])
  }

  lemma GapOlder(w: Blocks, w': Blocks, i: nat, d: nat, rk: Key)
    requires Gap(w, w', i) && d < |w'| && d != i
    ensures Older(w', d, rk) <==> Older(w, if d < i then d else d - 1, rk)
  {
    var d0 := if d < i then d else d - 1;
    if Older(w, d0, rk) {
      var e: nat :| 1 <= e < d0 && e < |w| && Has(w[e], rk);
      var e' := if e < i then e else e + 1;
      assert w'[e'] == w[e];
    }
    if Older(w', d, rk) {
      var e: nat :| 1 <= e < d && e < |w'| && Has(w'[e], rk);
      assert e != i;
      assert e < i ==> w'[e] == w[e];
      assert e > i ==> w'[e] == w[e - 1];
    }
  }
}
