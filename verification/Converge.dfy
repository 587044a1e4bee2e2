/** Sending and receiving whole patches, and why repositories that exchange them converge. */
module Converge {
  import opened KeyOrder
  import opened ReceivePatch
  import opened Options

  // ---------- receiving ----------

  ghost predicate RefOk(orig: Table, patch: seq<PatchDelta>, k: nat, key: SortKey)
    requires k < |patch|
  {
    Earlier(key, patch[k].key) && (HasKey(orig, key) || exists j :: 0 <= j < k && patch[j].key == key)
  }

  /** Patch delta k refers only to older deltas that the receiver has or gets before it. */
  ghost predicate ClosedAt(orig: Table, patch: seq<PatchDelta>, k: nat)
    requires k < |patch|
  {
    var d := patch[k];
    && (d.parent.Some? ==> RefOk(orig, patch, k, d.parent.value))
    && (d.merge.Some? ==> RefOk(orig, patch, k, d.merge.value))
    && (d.ptag.Some? ==> RefOk(orig, patch, k, d.ptag.value))
    && (d.mtag.Some? ==> RefOk(orig, patch, k, d.mtag.value))
    && forall c :: 0 <= c < |d.cludes| ==> RefOk(orig, patch, k, d.cludes[c].key)
  }

  /** A parent-closed patch, oldest first. */
  ghost predicate PatchOk(orig: Table, patch: seq<PatchDelta>) {
    Ascending(patch) && forall k :: 0 <= k < |patch| ==> ClosedAt(orig, patch, k)
  }

  /** The receiver has no other delta in the place of d: where it has the delta, it has it
      with the same parents. */
  ghost predicate Compatible(orig: Table, d: PatchDelta)
    requires Valid(orig)
  {
    forall x :: 1 <= x < |orig| && Tied(orig[x].key, d.key) ==> SameDelta(orig, x, d)
  }

  ghost predicate SameDelta(orig: Table, x: nat, d: PatchDelta)
    requires Valid(orig) && 1 <= x < |orig|
  {
    assert RefsBelow(orig[x], x);
    orig[x].key == d.key && Name(orig, orig[x].parent) == d.parent && Name(orig, orig[x].merge) == d.merge
  }

  lemma {:induction false} KnownHere(orig: Table, t: Table, sh: seq<nat>, patch: seq<PatchDelta>, n: nat,
                                     locs: seq<nat>, key: SortKey)
    requires Moved(orig, t, sh) && n < |patch| && Received(t, patch[..n], locs) && RefOk(orig, patch, n, key)
    ensures Knows(t, key, patch[n].key)
  {
    hide Earlier, Named, RefsBelow;
    if HasKey(orig, key) {
      var x :| 1 <= x < |orig| && orig[x].key == key;
      assert MovedTo(orig, t, sh, x);
      assert sh[0] < sh[x];
      assert t[sh[x]].key == key;
    } else {
      var j :| 0 <= j < n && patch[j].key == key;
      assert patch[..n][j] == patch[j];
      assert Holds(t, locs[j], patch[..n][j]);
    }
  }

  lemma {:induction false} RefsAreKnown(orig: Table, t: Table, sh: seq<nat>, patch: seq<PatchDelta>, n: nat,
                                        locs: seq<nat>)
    requires Moved(orig, t, sh) && n < |patch| && Received(t, patch[..n], locs) && ClosedAt(orig, patch, n)
    ensures RefsKnown(t, patch[n])
  {
    hide Moved, Received, RefOk, Knows;
    var d := patch[n];
    if d.parent.Some? { KnownHere(orig, t, sh, patch, n, locs, d.parent.value); }
    if d.merge.Some? { KnownHere(orig, t, sh, patch, n, locs, d.merge.value); }
    if d.ptag.Some? { KnownHere(orig, t, sh, patch, n, locs, d.ptag.value); }
    if d.mtag.Some? { KnownHere(orig, t, sh, patch, n, locs, d.mtag.value); }
    forall c | 0 <= c < |d.cludes| ensures Knows(t, d.cludes[c].key, d.key) {
      KnownHere(orig, t, sh, patch, n, locs, d.cludes[c].key);
    }
  }

  /** A known reference and a serial agree exactly when they name the same delta. */
  lemma {:induction false} ResolveNames(t: Table, key: Option<SortKey>, p: nat, user: SortKey)
    requires |t| >= 1 && Sorted(t) && p < |t| && (key.Some? ==> Knows(t, key.value, user))
    ensures Resolve(t, key) == p <==> Name(t, p) == key
  {
    hide Earlier, FindKey;
    if key.Some? {
      var r := FindKey(t, |t| - 1, key.value);
      if p > 0 && t[p].key == key.value { SortedOnce(t, r, p); }
    }
  }

  /** The local delta with the key of d: its parents are named as they were. */
  lemma {:induction false} LocalParents(orig: Table, t: Table, sh: seq<nat>, o: nat)
    requires Moved(orig, t, sh) && 1 <= o < |orig|
    ensures RefsBelow(orig[o], o) && 1 <= sh[o] < |t| && t[sh[o]].key == orig[o].key
    ensures t[sh[o]].parent < |t| && t[sh[o]].merge < |t|
    ensures Name(t, t[sh[o]].parent) == Name(orig, orig[o].parent)
    ensures Name(t, t[sh[o]].merge) == Name(orig, orig[o].merge)
  {
    hide Local;
    assert MovedTo(orig, t, sh, o);
    assert sh[0] < sh[o];
    NameMoved(orig, t, sh, orig[o].parent);
    NameMoved(orig, t, sh, orig[o].merge);
  }

  lemma NameMoved(orig: Table, t: Table, sh: seq<nat>, p: nat)
    requires Moved(orig, t, sh) && p < |orig|
    ensures sh[p] < |t| && Name(t, sh[p]) == Name(orig, p)
  {
    if p > 0 {
      assert MovedTo(orig, t, sh, p);
      assert sh[0] < sh[p];
    }
  }

  /** A table that already has a delta of the patch is compatible exactly when the lineage lines up. */
  lemma {:induction false} LineageMeans(orig: Table, t: Table, sh: seq<nat>, d: PatchDelta, e: nat)
    requires Moved(orig, t, sh) && Sorted(t) && RefsKnown(t, d) && 1 <= e < |t| && t[e].key == d.key && !t[e].remote
    ensures t[e].parent == Resolve(t, d.parent) && t[e].merge == Resolve(t, d.merge) <==> Compatible(orig, d)
  {
    hide Earlier, Knows, FindKey, MovedTo, Sorted;
    assert e in sh;
    var o :| 0 <= o < |sh| && sh[o] == e;
    LocalParents(orig, t, sh, o);
    ResolveNames(t, d.parent, t[e].parent, d.key);
    ResolveNames(t, d.merge, t[e].merge, d.key);
    hide Moved;
    forall x | 1 <= x < |orig| && Tied(orig[x].key, d.key) ensures x == o { TiedOnce(orig, x, o); }
    assert Tied(orig[o].key, d.key);
  }

  lemma TiedOnce(t: Table, x: nat, o: nat)
    requires Valid(t) && 1 <= x < |t| && 1 <= o < |t| && Tied(t[x].key, t[o].key)
    ensures x == o
  {
    EarlierTotal(t[x].key, t[o].key);
  }

  lemma {:induction false} KnownCompatible(orig: Table, os: seq<Symbol>, t: Table, syms: seq<Symbol>, sh: seq<nat>,
                                           inserted: seq<nat>,
                                           patch: seq<PatchDelta>, locs: seq<nat>, d: PatchDelta)
    requires |t| >= 1 && State(orig, os, t, syms, sh, inserted, patch, locs) && RefsKnown(t, d)
    requires Ascending(patch + [d])
    ensures SameLineage(t, d) ==> Compatible(orig, d)
    ensures OtherLineage(t, d) ==> !Compatible(orig, d)
  {
    hide Moved, Sorted, Received, Ascending, SymsMoved, RefsKnown, Compatible, Resolve, Compose;
    if SameLineage(t, d) {
      var x :| 1 <= x < |t| && t[x].key == d.key && t[x].parent == Resolve(t, d.parent) &&
        t[x].merge == Resolve(t, d.merge);
      StateKnown(orig, os, t, syms, sh, inserted, patch, locs, x, d);
      LineageMeans(orig, t, sh, d, x);
    }
    if OtherLineage(t, d) {
      var x :| 1 <= x < |t| && t[x].key == d.key &&
        (t[x].parent != Resolve(t, d.parent) || t[x].merge != Resolve(t, d.merge));
      StateKnown(orig, os, t, syms, sh, inserted, patch, locs, x, d);
      LineageMeans(orig, t, sh, d, x);
    }
  }

  /** Without a tie in the table there was none before. */
  lemma {:induction false} NoTieCompatible(orig: Table, t: Table, sh: seq<nat>, d: PatchDelta)
    requires Moved(orig, t, sh) && forall x :: 1 <= x < |t| ==> !Tied(t[x].key, d.key)
    ensures Compatible(orig, d)
  {
    hide Tied;
    forall x | 1 <= x < |orig| ensures !Tied(orig[x].key, d.key) { LocalParents(orig, t, sh, x); }
  }

  /** A tie with a key the table does not have is a tie with a local delta. */
  lemma {:induction false} ClashIncompatible(orig: Table, t: Table, sh: seq<nat>, patch: seq<PatchDelta>,
                                             locs: seq<nat>, d: PatchDelta, x: nat)
    requires Moved(orig, t, sh) && Received(t, patch, locs) && Ascending(patch + [d])
    requires 1 <= x < |t| && Tied(t[x].key, d.key) && t[x].key != d.key
    ensures !Compatible(orig, d)
  {
    hide Earlier, Named, RefsBelow;
    EarlierTotal(t[x].key, d.key);
    forall k | 0 <= k < |patch| ensures patch[k].key != t[x].key {
      assert (patch + [d])[k] == patch[k] && (patch + [d])[|patch|] == d;
      assert Earlier(patch[k].key, d.key);
    }
    RemoteIsPatch(t, patch, locs, x);
    assert x in sh;
    var o :| 0 <= o < |sh| && sh[o] == x;
    LocalParents(orig, t, sh, o);
    assert Tied(orig[o].key, d.key) && !SameDelta(orig, o, d);
  }

  lemma RemoteIsPatch(t: Table, patch: seq<PatchDelta>, locs: seq<nat>, x: nat)
    requires Received(t, patch, locs) && 1 <= x < |t|
    ensures t[x].remote ==> exists k :: 0 <= k < |patch| && patch[k].key == t[x].key
  {
    if t[x].remote {
      var k :| 0 <= k < |locs| && locs[k] == x;
      assert Holds(t, locs[k], patch[k]);
    }
  }

  function PairsOf(patch: seq<PatchDelta>): (r: seq<seq<Pair>>)
    ensures |r| == |patch| && forall k :: 0 <= k < |patch| ==> r[k] == patch[k].pairs
  {
    seq(|patch|, k requires 0 <= k < |patch| => patch[k].pairs)
  }

  /** What the finishing steps do to the table: u is the table after the single pass, t the
      one with the weave entries in. */
  lemma {:induction false} FinishState(orig: Table, os: seq<Symbol>, before: Table, syms: seq<Symbol>, sh: seq<nat>,
                                       inserted: seq<nat>,
                                       patch: seq<PatchDelta>, locs: seq<nat>, u: Table, t: Table)
    requires State(orig, os, before, syms, sh, inserted, patch, locs) && |before| == |u| == |t| >= 1 && |sh| == |orig|
    requires forall x :: 1 <= x < |orig| ==> Fixed(orig, u, sh, x)
    requires SameShape(before, u)
    requires forall y :: 0 <= y < |t| && (y !in locs || !u[y].remote) ==> t[y] == u[y]
    requires forall k :: 0 <= k < |locs| && locs[k] < |u| && u[locs[k]].remote ==>
      t[locs[k]] == u[locs[k]].(pairs := patch[k].pairs)
    ensures Finished(orig, t, sh, patch, locs)
  {
    hide Named, RefsBelow, Fixed, MovedTo, HasAt, Ascending, SymsMoved, Earlier, Local;
    LocsInRange(before, patch, locs);
    forall y | 0 <= y < |t| ensures t[y].key == before[y].key && t[y].remote == before[y].remote {
      if y in locs && u[y].remote {
        var k :| 0 <= k < |locs| && locs[k] == y;
      }
    }
    forall x | 1 <= x < |orig| ensures Fixed(orig, t, sh, x) { StillFixed(orig, before, u, t, sh, x); }
    forall k | 0 <= k < |locs| ensures t[locs[k]].key == patch[k].key &&
      (t[locs[k]].remote ==> HasAt(t, locs[k], patch[k])) {
      assert Holds(before, locs[k], patch[k]);
      if t[locs[k]].remote { Installed(before, t, locs[k], patch[k]); }
    }
  }

  lemma StillFixed(orig: Table, before: Table, u: Table, t: Table, sh: seq<nat>, x: nat)
    requires Moved(orig, before, sh) && |before| == |u| == |t| && 1 <= x < |orig| && Fixed(orig, u, sh, x)
    requires SameShape(before, u)
    requires forall y :: 0 <= y < |t| && !u[y].remote ==> t[y] == u[y]
    ensures Fixed(orig, t, sh, x)
  {
    NotRemote(orig, before, sh, x);
  }

  lemma {:induction false} Installed(before: Table, t: Table, y: nat, d: PatchDelta)
    requires Holds(before, y, d) && |t| == |before| && before[y].remote && t[y] == before[y].(pairs := d.pairs)
    requires forall x :: 0 <= x < |t| ==> t[x].key == before[x].key
    ensures HasAt(t, y, d)
  {
    NamedBelow(before, t, before[y], y);
    assert NameCludes(t, t[y].cludes) == NameCludes(t, before[y].cludes);
  }

  /** Every symbol names the delta it named before. */
  ghost predicate SameSymbols(orig: Table, syms: seq<Symbol>, t: Table, syms': seq<Symbol>) {
    && |syms'| == |syms|
    && forall k :: 0 <= k < |syms| ==>
      && syms[k].ser < |orig| && syms[k].metaSer < |orig| && syms'[k].ser < |t| && syms'[k].metaSer < |t|
      && syms'[k].name == syms[k].name
      && Name(t, syms'[k].ser) == Name(orig, syms[k].ser) && Name(t, syms'[k].metaSer) == Name(orig, syms[k].metaSer)
  }

  lemma {:induction false} SymbolsMean(orig: Table, syms: seq<Symbol>, t: Table, syms': seq<Symbol>, sh: seq<nat>,
                                       patch: seq<PatchDelta>, locs: seq<nat>)
    requires Finished(orig, t, sh, patch, locs) && SymsMoved(syms, syms', sh)
    ensures SameSymbols(orig, syms, t, syms')
  {
    hide Finished;
    forall p: nat | p < |sh| ensures p < |orig| && sh[p] < |t| && Name(t, sh[p]) == Name(orig, p) {
      NameFinished(orig, t, sh, patch, locs, p);
    }
  }

  lemma NameFinished(orig: Table, t: Table, sh: seq<nat>, patch: seq<PatchDelta>, locs: seq<nat>, p: nat)
    requires Finished(orig, t, sh, patch, locs) && p < |sh|
    ensures p < |orig| && sh[p] < |t| && Name(t, sh[p]) == Name(orig, p)
  {
    hide HasAt, Sorted;
    if p > 0 {
      assert Fixed(orig, t, sh, p);
      KeyMoved(orig, t, sh, p);
      assert sh[0] < sh[p];
    }
  }

  ghost predicate SymbolsIn(syms: seq<Symbol>, t: Table) {
    forall k :: 0 <= k < |syms| ==> syms[k].ser < |t| && syms[k].metaSer < |t|
  }

  /** Receives a whole patch. It succeeds exactly when every delta of it is compatible, and
      then the table is the old one merged with the patch. */
  method Receive(orig: Table, syms: seq<Symbol>, patch: seq<PatchDelta>)
    returns (ok: bool, t: Table, syms': seq<Symbol>)
    requires Local(orig) && SymbolsIn(syms, orig) && PatchOk(orig, patch)
    ensures ok <==> forall k :: 0 <= k < |patch| ==> Compatible(orig, patch[k])
    ensures ok ==> Merged(orig, patch, t) && SameSymbols(orig, syms, t, syms')
  {
    hide State, Merged, Compatible, SameSymbols, Finished, ClosedAt, RefsKnown, Ascending, Fixed, SameShape, Tied, Read,
         InsertAt, SameLineage, OtherLineage, Belongs;
    var f := new ChangeSetFile(orig, syms);
    ok, t, syms' := true, orig, syms;
    for k := 0 to |patch|
      invariant f.Receiving() && f.orig == orig && f.origSyms == syms && f.patch == patch[..k] && fresh(f)
      invariant forall j :: 0 <= j < k ==> Compatible(orig, patch[j])
    {
      var d := patch[k];
      assert patch[..k + 1] == patch[..k] + [d];
      AscendingPrefix(patch, k + 1);
      ghost var t0, syms0, sh0, ins0, locs0 := f.table, f.syms, f.sh, f.inserted, f.locs;
      StateParts(orig, syms, t0, syms0, sh0, ins0, patch[..k], locs0);
      RefsAreKnown(orig, t0, sh0, patch, k, locs0);
      KnownCompatible(orig, syms, t0, syms0, sh0, ins0, patch[..k], locs0, d);
      var r := f.Insert(d);
      if r.BadLineage? {
        ok := false;
        return;
      } else if r.Clash? {
        ghost var x :| 1 <= x < |t0| && Tied(t0[x].key, d.key);
        ClashIncompatible(orig, t0, sh0, patch[..k], locs0, d, x);
        ok := false;
        return;
      } else if r.Inserted? {
        NoTieCompatible(orig, t0, sh0, d);
      }
    }
    assert patch[..|patch|] == patch;
    ghost var before := f.table;
    StateParts(orig, syms, before, f.syms, f.sh, f.inserted, patch, f.locs);
    f.Fix();
    ghost var u := f.table;
    ShapeFrom(before, u);
    LocsFacts(before, patch, f.locs);
    t := Install(f.table, f.locs, PairsOf(patch));
    FinishState(orig, syms, before, f.syms, f.sh, f.inserted, patch, f.locs, u, t);
    FinishedMeans(orig, t, f.sh, patch, f.locs);
    SymbolsMean(orig, syms, t, f.syms, f.sh, patch, f.locs);
    syms' := f.syms;
  }

  lemma ShapeFrom(t: Table, u: Table)
    requires |u| == |t|
    requires forall y :: 0 <= y < |u| ==> u[y].key == t[y].key && u[y].remote == t[y].remote
    requires forall y :: 0 <= y < |u| && (y == 0 || u[y].remote) ==> u[y] == t[y]
    ensures SameShape(t, u)
  {
  }

  lemma LocsFacts(t: Table, patch: seq<PatchDelta>, locs: seq<nat>)
    requires Sorted(t) && Ascending(patch) && Received(t, patch, locs)
    ensures |locs| == |patch| && (forall k :: 0 <= k < |locs| ==> 1 <= locs[k] < |t|)
    ensures forall i, j :: 0 <= i < j < |locs| ==> locs[i] < locs[j]
  {
    LocsInRange(t, patch, locs);
    forall i, j | 0 <= i < j < |locs| ensures locs[i] < locs[j] { LocsClimb(t, patch, locs, i, j); }
  }

  lemma AscendingPrefix(patch: seq<PatchDelta>, n: nat)
    requires Ascending(patch) && n <= |patch|
    ensures Ascending(patch[..n])
  {
  }

  lemma StateParts(orig: Table, os: seq<Symbol>, t: Table, syms: seq<Symbol>, sh: seq<nat>, inserted: seq<nat>,
                   patch: seq<PatchDelta>, locs: seq<nat>)
    requires State(orig, os, t, syms, sh, inserted, patch, locs)
    ensures Moved(orig, t, sh) && Sorted(t) && Received(t, patch, locs) && Ascending(patch) && SymsMoved(os, syms, sh)
  {
  }

  // ---------- one table per history ----------

  /** Two tables with the same deltas, whatever repository they came from. */
  ghost predicate SameTables(t: Table, u: Table) {
    |t| == |u| && forall y :: 1 <= y < |t| ==> t[y].(remote := false) == u[y].(remote := false)
  }

  ghost predicate SameHistory(t: Table, u: Table) {
    forall pd :: Has(t, pd) <==> Has(u, pd)
  }

  lemma {:induction false} KeyOver(t: Table, u: Table, y: nat) returns (z: nat)
    requires Valid(t) && SameHistory(t, u) && 1 <= y < |t|
    ensures RefsBelow(t[y], y) && HasAt(u, z, Named(t, t[y])) && 1 <= z < |u| && u[z].key == t[y].key
  {
    hide Named;
    assert RefsBelow(t[y], y);
    RefsBelowMore(t[y], y, |t|);
    assert HasAt(t, y, Named(t, t[y]));
    assert Has(u, Named(t, t[y]));
    var w :| HasAt(u, w, Named(t, t[y]));
    z := w;
    HasAtIs(u, z, Named(t, t[y]));
    HasAtIs(t, y, Named(t, t[y]));
  }

  /** Position by position the keys are the same. */
  lemma {:induction false} KeysAlign(t: Table, u: Table, y: nat)
    requires Valid(t) && Valid(u) && SameHistory(t, u) && 1 <= y < |t| && y < |u|
    ensures forall x :: 1 <= x <= y ==> t[x].key == u[x].key
  {
    hide Earlier, Named, RefsBelow, SameHistory;
    if y > 1 { KeysAlign(t, u, y - 1); }
    var z := KeyOver(t, u, y);
    SameFlip(t, u);
    var w := KeyOver(u, t, y);
    NotBelow(t, u, y, z);
    NotBelow(u, t, y, w);
    EarlierTotal(t[y].key, u[y].key);
  }

  lemma SameFlip(t: Table, u: Table)
    requires SameHistory(t, u)
    ensures SameHistory(u, t)
  {
  }

  lemma NotBelow(t: Table, u: Table, y: nat, z: nat)
    requires Valid(t) && 1 <= y < |t| && y < |u| && 1 <= z < |u| && u[z].key == t[y].key
    requires forall x :: 1 <= x < y ==> t[x].key == u[x].key
    ensures z >= y
  {
    if z < y { SortedOnce(t, z, y); }
  }

  lemma {:induction false} LengthsAlign(t: Table, u: Table)
    requires Valid(t) && Valid(u) && SameHistory(t, u)
    ensures |t| >= |u|
  {
    hide Named, RefsBelow, SameHistory;
    if |t| < |u| {
      SameFlip(t, u);
      var w := KeyOver(u, t, |t|);
      KeysAlign(t, u, |t| - 1);
      SortedOnce(u, w, |t|);
    }
  }

  /** The table is a function of the history. */
  lemma {:induction false} Unique(t: Table, u: Table)
    requires Valid(t) && Valid(u) && SameHistory(t, u)
    ensures SameTables(t, u)
  {
    hide Named, RefsBelow, SameHistory, Earlier;
    SameFlip(t, u);
    LengthsAlign(t, u);
    LengthsAlign(u, t);
    forall y | 1 <= y < |t| ensures t[y].(remote := false) == u[y].(remote := false) {
      KeysAlign(t, u, |t| - 1);
      var z := KeyOver(t, u, y);
      SortedOnce(u, y, z);
      SameRefs(t, u, y);
    }
  }

  /** With the same keys in the same places, the same names are the same serials. */
  lemma {:induction false} SameRefs(t: Table, u: Table, y: nat)
    requires Valid(t) && Valid(u) && |t| == |u| && (forall x :: 1 <= x < |t| ==> t[x].key == u[x].key) && 1 <= y < |t|
    requires RefsBelow(t[y], y) && HasAt(u, y, Named(t, t[y]))
    ensures t[y].(remote := false) == u[y].(remote := false)
  {
    hide Earlier, Named;
    HasAtIs(u, y, Named(t, t[y]));
    NamedParts(t, t[y]);
    NamedParts(u, u[y]);
    hide Valid;
    SameSerial(t, u, t[y].parent, u[y].parent);
    SameSerial(t, u, t[y].merge, u[y].merge);
    SameSerial(t, u, t[y].ptag, u[y].ptag);
    SameSerial(t, u, t[y].mtag, u[y].mtag);
    forall k | 0 <= k < |t[y].cludes| ensures t[y].cludes[k] == u[y].cludes[k] {
      SameSerial(t, u, t[y].cludes[k].ser, u[y].cludes[k].ser);
    }
    assert t[y].cludes == u[y].cludes;
  }

  lemma NamedParts(t: Table, d: Delta)
    requires RefsBelow(d, |t|)
    ensures var n := Named(t, d);
            && n.key == d.key && n.parent == Name(t, d.parent) && n.merge == Name(t, d.merge)
            && n.ptag == Name(t, d.ptag) && n.mtag == Name(t, d.mtag) && n.pairs == d.pairs && |n.cludes| == |d.cludes|
            && forall k :: 0 <= k < |d.cludes| ==> n.cludes[k] == KeyClude(t[d.cludes[k].ser].key, d.cludes[k].plus)
  {
  }

  lemma SameSerial(t: Table, u: Table, p: nat, q: nat)
    requires Valid(t) && |t| == |u| && (forall x :: 1 <= x < |t| ==> t[x].key == u[x].key) && p < |t| && q < |t|
    requires Name(t, p) == Name(u, q)
    ensures p == q
  {
    if p > 0 && q > 0 { SortedOnce(t, p, q); }
  }

  // ---------- sending ----------

  /** The selected serials below n, newest first. */
  method NewestFirst(n: nat, selected: set<nat>) returns (list: seq<nat>)
    requires n >= 1
    ensures forall i, j :: 0 <= i < j < |list| ==> list[i] > list[j]
    ensures forall y: nat :: y in list <==> 1 <= y < n && y in selected
  {
    list := [];
    var d := n - 1;
    while d >= 1
      invariant 0 <= d < n
      invariant forall i :: 0 <= i < |list| ==> d < list[i] < n
      invariant forall i, j :: 0 <= i < j < |list| ==> list[i] > list[j]
      invariant forall y: nat :: y in list <==> d < y < n && y in selected
    {
      if d in selected { list := list + [d]; }
      d := d - 1;
    }
  }

  lemma SlotZero(t: Table)
    requires Valid(t)
    ensures |t| >= 1
  {
  }

  /** patch holds the deltas sent, and patchmap their numbers. */
  ghost predicate Sends(t: Table, sent: seq<nat>, patch: seq<PatchDelta>, patchmap: seq<nat>) {
    && |patch| == |sent| && |patchmap| == |t|
    && (forall y: nat :: y < |t| && y !in sent ==> patchmap[y] == 0)
    && forall k :: 0 <= k < |sent| ==>
      sent[k] < |t| && RefsBelow(t[sent[k]], |t|) && patch[k] == Named(t, t[sent[k]]) && patchmap[sent[k]] == k + 1
  }

  lemma SendOne(t: Table, sent: seq<nat>, patch: seq<PatchDelta>, patchmap: seq<nat>, d: nat)
    requires Valid(t) && Sends(t, sent, patch, patchmap) && 1 <= d < |t| && d !in sent
    ensures RefsBelow(t[d], |t|)
    ensures Sends(t, sent + [d], patch + [Named(t, t[d])], patchmap[d := |sent| + 1])
  {
    NamedRefs(t, d);
    hide Named, RefsBelow;
    forall k | 0 <= k < |sent| ensures sent[k] != d { assert sent[k] in sent; }
  }

  /** What a patch is: exactly the selected deltas, oldest first, numbered from 1 by patchmap. */
  ghost predicate PatchOf(t: Table, selected: set<nat>, patch: seq<PatchDelta>, patchmap: seq<nat>) {
    && Ascending(patch) && |patchmap| == |t|
    && (forall y: nat :: y < |t| ==>
          if 1 <= y && y in selected
          then 1 <= patchmap[y] <= |patch| && RefsBelow(t[y], |t|) && patch[patchmap[y] - 1] == Named(t, t[y])
          else patchmap[y] == 0)
    && forall k: nat :: k < |patch| ==> Numbered(patchmap, k)
  }

  ghost predicate Numbered(patchmap: seq<nat>, k: nat) {
    exists y :: 0 <= y < |patchmap| && patchmap[y] == k + 1
  }

  /** The deltas to send, with their references named by key; patchmap is for the weave entries
      that follow. */
  method MakePatch(t: Table, selected: set<nat>) returns (patch: seq<PatchDelta>, patchmap: seq<nat>)
    requires Valid(t)
    ensures PatchOf(t, selected, patch, patchmap)
  {
    hide Named, Earlier, RefsBelow, Has, Valid, Sends, PatchOf;
    SlotZero(t);
    var list := NewestFirst(|t|, selected);
    var d;
    patch, patchmap := [], seq(|t|, _ => 0);
    ghost var sent: seq<nat> := [];
    var n := |list|;
    var i := n;
    NothingSent(t);
    while i > 0
      invariant 0 <= i <= n == |list| && |sent| == n - i && |patchmap| == |t|
      invariant forall k :: 0 <= k < |sent| ==> sent[k] in list && (i > 0 ==> sent[k] < list[i - 1])
      invariant forall k, l :: 0 <= k < l < |sent| ==> sent[k] < sent[l]
      invariant forall k :: i <= k < n ==> list[k] in sent
      invariant Sends(t, sent, patch, patchmap)
    {
      i := i - 1;
      d := list[i];
      assert d in list;
      SendOne(t, sent, patch, patchmap, d);
      patchmap := patchmap[d := n - i];
      patch := patch + [Named(t, t[d])];
      sent := sent + [d];
    }
    SentAscending(t, sent, patch, patchmap);
    forall y: nat ensures y in sent <==> 1 <= y < |t| && y in selected {
      if y in list { var k :| 0 <= k < n && list[k] == y; }
    }
    AllSent(t, selected, sent, patch, patchmap);
  }

  lemma NothingSent(t: Table)
    ensures Sends(t, [], [], seq(|t|, _ => 0))
  {
  }

  lemma {:induction false} AllSent(t: Table, selected: set<nat>, sent: seq<nat>, patch: seq<PatchDelta>,
                                   patchmap: seq<nat>)
    requires Sends(t, sent, patch, patchmap) && Ascending(patch)
    requires forall y: nat :: y in sent <==> 1 <= y < |t| && y in selected
    ensures PatchOf(t, selected, patch, patchmap)
  {
    hide Named, RefsBelow, Ascending;
    forall y: nat | 1 <= y < |t| && y in selected
      ensures 1 <= patchmap[y] <= |patch| && RefsBelow(t[y], |t|) && patch[patchmap[y] - 1] == Named(t, t[y])
    {
      var k :| 0 <= k < |sent| && sent[k] == y;
    }
    forall k: nat | k < |patch| ensures Numbered(patchmap, k) {
      assert sent[k] in sent;
      assert patchmap[sent[k]] == k + 1;
    }
  }

  lemma SentAscending(t: Table, sent: seq<nat>, patch: seq<PatchDelta>, patchmap: seq<nat>)
    requires Valid(t) && Sends(t, sent, patch, patchmap)
    requires (forall k :: 0 <= k < |sent| ==> 1 <= sent[k]) && forall k, l :: 0 <= k < l < |sent| ==> sent[k] < sent[l]
    ensures Ascending(patch)
  {
    hide Earlier;
    forall k, l | 0 <= k < l < |patch| ensures Earlier(patch[k].key, patch[l].key) {
      assert Earlier(t[sent[k]].key, t[sent[l]].key);
    }
  }

  lemma NamedRefs(t: Table, y: nat)
    requires Valid(t) && 1 <= y < |t|
    ensures RefsBelow(t[y], y) && RefsBelow(t[y], |t|) && Named(t, t[y]).key == t[y].key
  {
    assert RefsBelow(t[y], y);
    RefsBelowMore(t[y], y, |t|);
  }

  lemma HasNamed(t: Table, y: nat)
    requires Valid(t) && 1 <= y < |t|
    ensures RefsBelow(t[y], |t|) && Has(t, Named(t, t[y]))
  {
    NamedRefs(t, y);
    assert HasAt(t, y, Named(t, t[y]));
  }

  // ---------- convergence ----------

  /** A patch that brings a repository everything it lacks of another. */
  ghost predicate PatchFor(from: Table, to: Table, patch: seq<PatchDelta>) {
    && Ascending(patch)
    && (forall pd :: pd in patch ==> Has(from, pd))
    && forall pd :: Has(from, pd) && !HasKey(to, pd.key) ==> pd in patch
  }

  /** Wherever two repositories have the same delta, they have the same delta. */
  ghost predicate Agree(a: Table, b: Table) {
    forall p, q :: Has(a, p) && Has(b, q) && Tied(p.key, q.key) ==> p == q
  }

  lemma {:induction false} RefTravels(from: Table, to: Table, patch: seq<PatchDelta>, k: nat, y: nat, e: nat)
    requires Valid(from) && PatchFor(from, to, patch) && k < |patch| && 1 <= y < |from| && patch[k].key == from[y].key
    requires 1 <= e < y
    ensures RefOk(to, patch, k, from[e].key)
  {
    hide Named, RefsBelow, Has;
    assert Earlier(from[e].key, from[y].key);
    if !HasKey(to, from[e].key) {
      HasNamed(from, e);
      NamedRefs(from, e);
      var j :| 0 <= j < |patch| && patch[j] == Named(from, from[e]);
      EarlierTotal(patch[j].key, patch[k].key);
    }
  }

  lemma {:induction false} PatchIsOk(from: Table, to: Table, patch: seq<PatchDelta>)
    requires Valid(from) && PatchFor(from, to, patch)
    ensures PatchOk(to, patch)
  {
    forall k | 0 <= k < |patch| ensures ClosedAt(to, patch, k) {
      assert patch[k] in patch;
      var y :| HasAt(from, y, patch[k]);
      DeltaTravels(from, to, patch, k, y);
    }
  }

  lemma {:induction false} DeltaTravels(from: Table, to: Table, patch: seq<PatchDelta>, k: nat, y: nat)
    requires Valid(from) && PatchFor(from, to, patch) && k < |patch| && HasAt(from, y, patch[k])
    ensures ClosedAt(to, patch, k)
  {
    hide PatchFor, Valid, RefOk, Earlier;
    var d := from[y];
    HasAtIs(from, y, patch[k]);
    RefsBelowMore(d, y, |from|);
    NamedParts(from, d);
    if d.parent > 0 { RefTravels(from, to, patch, k, y, d.parent); }
    if d.merge > 0 { RefTravels(from, to, patch, k, y, d.merge); }
    if d.ptag > 0 { RefTravels(from, to, patch, k, y, d.ptag); }
    if d.mtag > 0 { RefTravels(from, to, patch, k, y, d.mtag); }
    forall c | 0 <= c < |patch[k].cludes| ensures RefOk(to, patch, k, patch[k].cludes[c].key) {
      RefTravels(from, to, patch, k, y, d.cludes[c].ser);
    }
  }

  lemma {:induction false} AgreeCompatible(from: Table, to: Table, patch: seq<PatchDelta>, k: nat)
    requires Valid(to) && Agree(to, from) && PatchFor(from, to, patch) && k < |patch|
    ensures Compatible(to, patch[k])
  {
    hide Tied, Earlier;
    assert patch[k] in patch;
    forall x | 1 <= x < |to| && Tied(to[x].key, patch[k].key) ensures SameDelta(to, x, patch[k]) {
      HasNamed(to, x);
      NamedRefs(to, x);
      assert Named(to, to[x]) == patch[k];
      NamedParts(to, to[x]);
    }
  }

  /** Merging the patches of each other, two agreeing repositories have one history. */
  lemma {:induction false} OneHistory(a: Table, b: Table, forA: seq<PatchDelta>, forB: seq<PatchDelta>, a': Table,
                                      b': Table)
    requires Valid(a) && Valid(b) && Agree(a, b) && PatchFor(b, a, forA) && PatchFor(a, b, forB)
    requires Merged(a, forA, a') && Merged(b, forB, b')
    ensures SameHistory(a', b')
  {
    forall pd ensures Has(a', pd) <==> Has(b', pd) {
      MergedIsUnion(a, b, forA, a', pd);
      AgreeFlip(a, b);
      MergedIsUnion(b, a, forB, b', pd);
    }
  }

  lemma AgreeFlip(a: Table, b: Table)
    requires Agree(a, b)
    ensures Agree(b, a)
  {
  }

  lemma {:induction false} MergedIsUnion(to: Table, from: Table, patch: seq<PatchDelta>, t: Table, pd: PatchDelta)
    requires Valid(to) && Agree(to, from) && PatchFor(from, to, patch) && Merged(to, patch, t)
    ensures Has(t, pd) <==> Has(to, pd) || Has(from, pd)
  {
    hide Valid, Ascending, HasAt;
    if Has(from, pd) && HasKey(to, pd.key) {
      SharedKey(to, from, pd);
    }
  }

  lemma {:induction false} SharedKey(to: Table, from: Table, pd: PatchDelta)
    requires Valid(to) && Agree(to, from) && Has(from, pd) && HasKey(to, pd.key)
    ensures Has(to, pd)
  {
    var x :| 1 <= x < |to| && to[x].key == pd.key;
    assert HasAt(to, x, Named(to, to[x]));
    assert Tied(pd.key, pd.key);
  }

  /** What one repository must send the other: at least every delta the other lacks. */
  ghost predicate Covers(from: Table, to: Table, selected: set<nat>) {
    forall y: nat :: 1 <= y < |from| && !HasKey(to, from[y].key) ==> y in selected
  }

  lemma {:induction false} CoversPatch(from: Table, to: Table, selected: set<nat>, patch: seq<PatchDelta>,
                                       patchmap: seq<nat>)
    requires Valid(from) && Covers(from, to, selected) && PatchOf(from, selected, patch, patchmap)
    ensures PatchFor(from, to, patch)
  {
    hide Earlier, Named;
    forall pd | pd in patch ensures Has(from, pd) {
      var k: nat :| k < |patch| && patch[k] == pd;
      assert Numbered(patchmap, k);
      var y :| 0 <= y < |patchmap| && patchmap[y] == k + 1;
      HasNamed(from, y);
    }
    forall pd | Has(from, pd) && !HasKey(to, pd.key) ensures pd in patch {
      var y :| HasAt(from, y, pd);
      HasAtIs(from, y, pd);
      NamedParts(from, from[y]);
      assert y in selected;
    }
  }

  // ---------- when they converge ----------

  /** Equal tables have the same deltas: a reference by key does not depend on where a delta
      came from. */
  lemma {:induction false} SameTablesHave(t: Table, u: Table, pd: PatchDelta)
    requires SameTables(t, u) && Has(t, pd)
    ensures Has(u, pd)
  {
    var y: nat :| HasAt(t, y, pd);
    assert t[y].(remote := false) == u[y].(remote := false);
    NamedParts(t, t[y]);
    SameName(t, u, t[y].parent);
    SameName(t, u, t[y].merge);
    SameName(t, u, t[y].ptag);
    SameName(t, u, t[y].mtag);
    forall k | 0 <= k < |t[y].cludes| ensures t[t[y].cludes[k].ser].key == u[t[y].cludes[k].ser].key {
      SameName(t, u, t[y].cludes[k].ser);
    }
    assert Named(t, t[y]).cludes == Named(u, u[y]).cludes;
    assert HasAt(u, y, pd);
  }

  lemma SameName(t: Table, u: Table, x: nat)
    requires SameTables(t, u) && x < |t|
    ensures Name(t, x) == Name(u, x)
    ensures x > 0 ==> t[x].key == u[x].key
  {
    if x > 0 { assert t[x].(remote := false) == u[x].(remote := false); }
  }

  /** One table has one delta for tied keys. */
  lemma {:induction false} OnlyOne(t: Table, p: PatchDelta, q: PatchDelta)
    requires Valid(t) && Has(t, p) && Has(t, q) && Tied(p.key, q.key)
    ensures p == q
  {
    hide Named, Earlier;
    var y: nat :| HasAt(t, y, p);
    var z: nat :| HasAt(t, z, q);
    HasAtIs(t, y, p);
    HasAtIs(t, z, q);
    EarlierTotal(t[y].key, t[z].key);
    EarlierTotal(t[z].key, t[y].key);
  }

  /** Repositories that end with the same table agreed before. */
  lemma {:induction false} SameNeedsAgree(a: Table, b: Table, forA: seq<PatchDelta>, forB: seq<PatchDelta>, a': Table,
                                          b': Table)
    requires Merged(a, forA, a') && Merged(b, forB, b') && SameTables(a', b')
    ensures Agree(a, b)
  {
    hide Has, Tied, SameTables, Valid;
    forall p, q | Has(a, p) && Has(b, q) && Tied(p.key, q.key) ensures p == q {
      SameTablesHave(a', b', p);
      OnlyOne(b', p, q);
    }
  }

  /** Two repositories send each other what the other lacks, more if they like. They both
      succeed and end with the same table exactly when they agree on what they share, and
      then the table has the deltas of both. */
  method Exchange(a: Table, syms: seq<Symbol>, b: Table, syms': seq<Symbol>, fromA: set<nat>, fromB: set<nat>)
      returns (okA: bool, a': Table, okB: bool, b': Table)
    requires Local(a) && Local(b) && SymbolsIn(syms, a) && SymbolsIn(syms', b)
    requires Covers(a, b, fromA) && Covers(b, a, fromB)
    ensures okA && okB && SameTables(a', b') <==> Agree(a, b)
    ensures Agree(a, b) ==> forall pd :: Has(a', pd) <==> Has(a, pd) || Has(b, pd)
  {
    hide Merged, PatchFor, PatchOk, PatchOf, Compatible, Agree, Ascending, SameTables, SameHistory, SameSymbols, Has,
         Covers;
    var forB, mapB := MakePatch(a, fromA);
    CoversPatch(a, b, fromA, forB, mapB);
    PatchIsOk(a, b, forB);
    var forA, mapA := MakePatch(b, fromB);
    CoversPatch(b, a, fromB, forA, mapA);
    PatchIsOk(b, a, forA);
    var s, s';
    okA, a', s := Receive(a, syms, forA);
    okB, b', s' := Receive(b, syms', forB);
    if Agree(a, b) {
      AllCompatible(a, b, forA, forB);
      OneHistory(a, b, forA, forB, a', b');
      MergedValid(a, forA, a');
      MergedValid(b, forB, b');
      Unique(a', b');
      forall pd ensures Has(a', pd) <==> Has(a, pd) || Has(b, pd) { MergedIsUnion(a, b, forA, a', pd); }
    } else if okA && okB && SameTables(a', b') {
      SameNeedsAgree(a, b, forA, forB, a', b');
    }
  }

  lemma AllCompatible(a: Table, b: Table, forA: seq<PatchDelta>, forB: seq<PatchDelta>)
    requires Valid(a) && Valid(b) && Agree(a, b) && PatchFor(b, a, forA) && PatchFor(a, b, forB)
    ensures forall k :: 0 <= k < |forA| ==> Compatible(a, forA[k])
    ensures forall k :: 0 <= k < |forB| ==> Compatible(b, forB[k])
  {
    hide Compatible, PatchFor, Agree;
    AgreeFlip(a, b);
    forall k | 0 <= k < |forA| ensures Compatible(a, forA[k]) { AgreeCompatible(b, a, forA, k); }
    forall k | 0 <= k < |forB| ensures Compatible(b, forB[k]) { AgreeCompatible(a, b, forB, k); }
  }

  lemma MergedValid(orig: Table, patch: seq<PatchDelta>, t: Table)
    requires Merged(orig, patch, t)
    ensures Valid(t)
  {
  }

  /** A table with one changeset, of these pairs. */
  function Single(pairs: seq<Pair>): Table {
    var d := Delta(SortKey(1, [], [], []), 0, 0, 0, 0, [], false, pairs);
    [d, d]
  }

  /** The same changeset with other pairs: each repository takes the other's for its own, so
      no error shows, and they stay different. */
  lemma {:induction false} OtherPairs(p: seq<Pair>, q: seq<Pair>)
    requires p != q
    ensures var a, b := Single(p), Single(q);
            && Local(a) && Local(b) && Covers(a, b, {}) && Covers(b, a, {})
            && (forall d :: Has(b, d) ==> Compatible(a, d)) && (forall d :: Has(a, d) ==> Compatible(b, d)) &&
              !Agree(a, b)
  {
    hide Earlier;
    var a, b := Single(p), Single(q);
    assert HasAt(a, 1, Named(a, a[1])) && HasAt(b, 1, Named(b, b[1]));
    assert a[1].key == b[1].key;
    assert Tied(a[1].key, b[1].key);
  }
}
