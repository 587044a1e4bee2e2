/** src/cweave.c: inserting the deltas of a patch into a ChangeSet file.

    Serials are positions in a time-ordered table, so every insertion renumbers. Parents and
    symbols are renumbered at each insertion; include/exclude lists and tag parents wait for
    one pass at the end. */
module ReceivePatch {
  import opened KeyOrder
  import opened Options

  /** An entry of an include/exclude list. */
  datatype Clude = Clude(ser: nat, plus: bool)

  /** A (rootkey, deltakey) pair of the weave. */
  datatype Pair = Pair(rk: Str, dk: Str)

  datatype Delta = Delta(key: SortKey, parent: nat, merge: nat, ptag: nat, mtag: nat,
                         cludes: seq<Clude>, remote: bool, pairs: seq<Pair>)

  /** Slot 0 of a table is unused. */
  type Table = seq<Delta>

  ghost predicate Sorted(t: Table) {
    forall i, j :: 1 <= i < j < |t| ==> Earlier(t[i].key, t[j].key)
  }

  ghost predicate RefsBelow(d: Delta, n: nat) {
    && d.parent < n && d.merge < n && d.ptag < n && d.mtag < n
    && forall k :: 0 <= k < |d.cludes| ==> 1 <= d.cludes[k].ser < n
  }

  /** A table in time order whose references all lead back in time. */
  ghost predicate Valid(t: Table) {
    && |t| >= 1 && Sorted(t)
    && forall x :: 1 <= x < |t| ==> RefsBelow(t[x], x)
  }

  /** A delta of a patch: everything it refers to, it names by key. */
  datatype PatchDelta = PatchDelta(key: SortKey, parent: Option<SortKey>, merge: Option<SortKey>,
                                   ptag: Option<SortKey>, mtag: Option<SortKey>, cludes: seq<KeyClude>,
                                   pairs: seq<Pair>)
  datatype KeyClude = KeyClude(key: SortKey, plus: bool)

  // ---------- naming ----------

  function Name(t: Table, x: nat): Option<SortKey>
    requires x < |t|
  {
    if x == 0 then None else Some(t[x].key)
  }

  function NameCludes(t: Table, cludes: seq<Clude>): (r: seq<KeyClude>)
    requires forall k :: 0 <= k < |cludes| ==> cludes[k].ser < |t|
    ensures |r| == |cludes|
    ensures forall k :: 0 <= k < |cludes| ==> r[k] == KeyClude(t[cludes[k].ser].key, cludes[k].plus)
  {
    seq(|cludes|, k requires 0 <= k < |cludes| => KeyClude(t[cludes[k].ser].key, cludes[k].plus))
  }

  /** A delta of a table with its references named by key: what it means in any repository. */
  function Named(t: Table, d: Delta): PatchDelta
    requires RefsBelow(d, |t|)
  {
    PatchDelta(d.key, Name(t, d.parent), Name(t, d.merge), Name(t, d.ptag), Name(t, d.mtag), NameCludes(t, d.cludes),
      d.pairs)
  }

  /** sccs_findKey: the serial of a key, or 0. */
  function FindKey(t: Table, n: nat, key: SortKey): (r: nat)
    requires n < |t|
    ensures r <= n
    ensures r != 0 ==> t[r].key == key
    ensures r == 0 ==> forall x :: 1 <= x <= n ==> t[x].key != key
  {
    if n == 0 then 0 else if t[n].key == key then n else FindKey(t, n - 1, key)
  }

  function Resolve(t: Table, key: Option<SortKey>): (r: nat)
    requires |t| >= 1
    ensures r < |t|
  {
    if key.None? then 0 else FindKey(t, |t| - 1, key.value)
  }

  function ResolveCludes(t: Table, cludes: seq<KeyClude>): (r: seq<Clude>)
    requires |t| >= 1
    ensures |r| == |cludes|
    ensures forall k :: 0 <= k < |cludes| ==> r[k] == Clude(FindKey(t, |t| - 1, cludes[k].key), cludes[k].plus)
  {
    seq(|cludes|, k requires 0 <= k < |cludes| => Clude(FindKey(t, |t| - 1, cludes[k].key), cludes[k].plus))
  }

  /** Some delta of t has this key and is earlier than the key of a delta that names it. */
  ghost predicate Knows(t: Table, key: SortKey, user: SortKey) {
    Earlier(key, user) && exists x :: 1 <= x < |t| && t[x].key == key
  }

  /** Everything a patch delta refers to is older than it and already in the table. */
  ghost predicate RefsKnown(t: Table, d: PatchDelta) {
    && (d.parent.Some? ==> Knows(t, d.parent.value, d.key))
    && (d.merge.Some? ==> Knows(t, d.merge.value, d.key))
    && (d.ptag.Some? ==> Knows(t, d.ptag.value, d.key))
    && (d.mtag.Some? ==> Knows(t, d.mtag.value, d.key))
    && forall k :: 0 <= k < |d.cludes| ==> Knows(t, d.cludes[k].key, d.key)
  }

  /** The delta a patch delta becomes, before its weave entries are installed. */
  function Read(t: Table, d: PatchDelta): Delta
    requires |t| >= 1
  {
    Delta(d.key, Resolve(t, d.parent), Resolve(t, d.merge), Resolve(t, d.ptag), Resolve(t, d.mtag),
          ResolveCludes(t, d.cludes), true, [])
  }

  // ---------- one insertion ----------

  function Shift(pos: nat, x: nat): nat {
    if x >= pos then x + 1 else x
  }

  /** The eager part of renumbering a delta. A merge parent exists only with a parent. */
  function ShiftParents(pos: nat, d: Delta): Delta {
    if d.parent == 0 then d
    else if d.merge == 0 then d.(parent := Shift(pos, d.parent))
    else d.(parent := Shift(pos, d.parent), merge := Shift(pos, d.merge))
  }

  /** The table after inserting d as serial pos. */
  function InsertAt(t: Table, pos: nat, d: Delta): (r: Table)
    requires 1 <= pos <= |t|
    ensures |r| == |t| + 1
    ensures forall x :: 0 <= x < |r| ==>
      r[x] == if x < pos then t[x] else if x == pos then d else ShiftParents(pos, t[x - 1])
  {
    t[..pos] + [d] + seq(|t| - pos, k requires 0 <= k < |t| - pos => ShiftParents(pos, t[pos + k]))
  }

  /** pos is where key belongs. */
  ghost predicate Belongs(t: Table, pos: nat, key: SortKey) {
    && 1 <= pos <= |t|
    && (forall x :: 1 <= x < pos ==> Earlier(t[x].key, key))
    && (forall x :: pos <= x < |t| ==> Earlier(key, t[x].key))
  }

  lemma {:induction false} InsertSorted(t: Table, pos: nat, d: Delta)
    requires |t| >= 1 && Sorted(t) && Belongs(t, pos, d.key)
    ensures Sorted(InsertAt(t, pos, d))
  {
    hide Earlier;
    var r := InsertAt(t, pos, d);
    forall i, j | 1 <= i < j < |r| ensures Earlier(r[i].key, r[j].key) {
      assert r[i].key == if i < pos then t[i].key else if i == pos then d.key else t[i - 1].key;
      assert r[j].key == if j < pos then t[j].key else if j == pos then d.key else t[j - 1].key;
    }
  }

  datatype Place = At(pos: nat) | Unordered

  /** Finds the insertion point from the top of the table down; gives up on a tie. */
  method FindPlace(t: Table, key: SortKey) returns (r: Place)
    requires |t| >= 1 && Sorted(t)
    ensures r.At? ==> Belongs(t, r.pos, key)
    ensures r.Unordered? <==> exists x :: 1 <= x < |t| && Tied(t[x].key, key)
  {
    hide Earlier, Tied;
    var p := |t|;
    while true
      invariant 1 <= p <= |t|
      invariant forall x :: p <= x < |t| ==> Earlier(key, t[x].key) && !Tied(t[x].key, key)
      decreases p
    {
      var e := p - 1;
      if e == 0 { return At(p); }
      EarlierTotal(t[e].key, key);
      if Tied(t[e].key, key) { return Unordered; }
      if Earlier(t[e].key, key) {
        forall x | 1 <= x < p ensures Earlier(t[x].key, key) && !Tied(t[x].key, key) {
          if x < e { EarlierTransitive(t[x].key, t[e].key, key); }
          EarlierTotal(t[x].key, key);
        }
        return At(p);
      }
      p := e;
    }
  }

  // ---------- what the insertions keep ----------

  datatype Symbol = Symbol(name: Str, ser: nat, metaSer: nat)

  /** A table as it is before a patch arrives. */
  ghost predicate Local(t: Table) {
    && Valid(t)
    && forall x :: 1 <= x < |t| ==>
      !t[x].remote && (t[x].parent == 0 ==> t[x].merge == 0) && (t[x].ptag == 0 ==> t[x].mtag == 0)
  }

  ghost predicate Climbs(sh: seq<nat>) {
    && (forall x, y :: 0 <= x < y < |sh| ==> sh[x] < sh[y])
    && (|sh| > 0 ==> sh[0] == 0)
  }

  /** The eager part of renumbering by sh. */
  ghost function MoveParents(sh: seq<nat>, d: Delta): Delta
    requires d.parent < |sh| && d.merge < |sh|
  {
    d.(parent := sh[d.parent], merge := sh[d.merge])
  }

  /** Serial x of the original table is now serial sh[x], with its parents renumbered. */
  ghost predicate MovedTo(orig: Table, t: Table, sh: seq<nat>, x: nat)
    requires |sh| == |orig| && x < |orig|
  {
    && sh[x] < |t| && RefsBelow(orig[x], x)
    && t[sh[x]] == MoveParents(sh, orig[x])
  }

  /** Every original delta has moved by sh, and every other delta of t came with the patch. */
  ghost predicate Moved(orig: Table, t: Table, sh: seq<nat>) {
    && |sh| == |orig| >= 1 && Climbs(sh) && Local(orig) && |t| >= 1
    && (forall x :: 1 <= x < |orig| ==> MovedTo(orig, t, sh, x))
    && (forall y :: 1 <= y < |t| && !t[y].remote ==> y in sh)
  }

  function ShiftAll(pos: nat, sh: seq<nat>): (r: seq<nat>)
    ensures |r| == |sh| && forall x :: 0 <= x < |sh| ==> r[x] == Shift(pos, sh[x])
  {
    seq(|sh|, x requires 0 <= x < |sh| => Shift(pos, sh[x]))
  }

  lemma InsertOne(t: Table, pos: nat, d: Delta, y: nat)
    requires 1 <= pos <= |t| && 1 <= y < |t|
    requires t[y].parent < y && t[y].merge < y && (t[y].parent == 0 ==> t[y].merge == 0)
    ensures InsertAt(t, pos, d)[Shift(pos, y)] == t[y].(parent := Shift(pos, t[y].parent),
      merge := Shift(pos, t[y].merge))
  {
  }

  lemma {:induction false} MovedOne(orig: Table, t: Table, sh: seq<nat>, pos: nat, d: Delta, x: nat)
    requires |sh| == |orig| && Climbs(sh) && 1 <= x < |orig| && MovedTo(orig, t, sh, x)
    requires (orig[x].parent == 0 ==> orig[x].merge == 0)
    requires 1 <= pos <= |t|
    ensures MovedTo(orig, InsertAt(t, pos, d), ShiftAll(pos, sh), x)
  {
    hide InsertAt, ShiftAll;
    var o := orig[x];
    assert sh[0] < sh[x];
    assert sh[o.parent] < sh[x] && sh[o.merge] < sh[x];
    InsertOne(t, pos, d, sh[x]);
  }

  lemma {:induction false} MovedInsert(orig: Table, t: Table, sh: seq<nat>, pos: nat, d: Delta)
    requires Moved(orig, t, sh) && 1 <= pos <= |t| && d.remote
    ensures Moved(orig, InsertAt(t, pos, d), ShiftAll(pos, sh))
  {
    hide MovedTo, RefsBelow, Sorted;
    var r, sh' := InsertAt(t, pos, d), ShiftAll(pos, sh);
    forall x | 1 <= x < |orig| ensures MovedTo(orig, r, sh', x) {
      MovedOne(orig, t, sh, pos, d, x);
    }
    forall y | 1 <= y < |r| && !r[y].remote ensures y in sh' {
      LocalInsert(t, pos, d, sh, y);
    }
  }

  lemma LocalInsert(t: Table, pos: nat, d: Delta, sh: seq<nat>, y: nat)
    requires 1 <= pos <= |t| && d.remote && 1 <= y < |t| + 1 && !InsertAt(t, pos, d)[y].remote
    requires forall z :: 1 <= z < |t| && !t[z].remote ==> z in sh
    ensures y in ShiftAll(pos, sh)
  {
    var z := if y < pos then y else y - 1;
    assert z in sh;
    var x :| 0 <= x < |sh| && sh[x] == z;
    assert ShiftAll(pos, sh)[x] == y;
  }

  ghost predicate Ascending(patch: seq<PatchDelta>) {
    forall i, j :: 0 <= i < j < |patch| ==> Earlier(patch[i].key, patch[j].key)
  }

  /** The delta at serial x is what patch delta d says, its weave entries aside. */
  ghost predicate Holds(t: Table, x: nat, d: PatchDelta) {
    && 1 <= x < |t| && t[x].key == d.key
    && (t[x].remote ==> RefsBelow(t[x], x) && Named(t, t[x]) == d.(pairs := []))
  }

  /** locs[k] is the serial of patch delta k. */
  ghost predicate Received(t: Table, patch: seq<PatchDelta>, locs: seq<nat>) {
    && |locs| == |patch|
    && (forall k :: 0 <= k < |patch| ==> Holds(t, locs[k], patch[k]))
    && (forall y :: 1 <= y < |t| && t[y].remote ==> y in locs)
  }

  /** Naming does not see what is inserted above. */
  lemma {:induction false} NamedBelow(t: Table, u: Table, d: Delta, n: nat)
    requires RefsBelow(d, n) && n <= |t| && n <= |u| && forall x :: 0 <= x < n ==> t[x].key == u[x].key
    ensures RefsBelow(d, |t|) && RefsBelow(d, |u|) && Named(t, d) == Named(u, d)
  {
    assert NameCludes(t, d.cludes) == NameCludes(u, d.cludes);
  }

  lemma {:induction false} HoldsInsert(t: Table, pos: nat, d: Delta, x: nat, pd: PatchDelta)
    requires Holds(t, x, pd) && Belongs(t, pos, d.key) && Earlier(pd.key, d.key)
    ensures x < pos && Holds(InsertAt(t, pos, d), x, pd)
  {
    EarlierTotal(pd.key, d.key);
    var r := InsertAt(t, pos, d);
    if t[x].remote { NamedBelow(t, r, t[x], x); }
  }

  /** A reference that a table knows resolves to the delta with that key, below pos. */
  lemma {:induction false} ResolveBelow(t: Table, key: SortKey, pos: nat, user: SortKey)
    requires |t| >= 1 && Knows(t, key, user) && Belongs(t, pos, user)
    ensures 1 <= FindKey(t, |t| - 1, key) < pos && t[FindKey(t, |t| - 1, key)].key == key
  {
    EarlierTotal(key, user);
  }

  lemma {:induction false} ReadMeans(t: Table, d: PatchDelta, pos: nat)
    requires |t| >= 1 && RefsKnown(t, d) && Belongs(t, pos, d.key)
    ensures RefsBelow(Read(t, d), pos) && Named(t, Read(t, d)) == d.(pairs := [])
  {
    hide Earlier, FindKey, Belongs, Knows;
    if d.parent.Some? { ResolveBelow(t, d.parent.value, pos, d.key); }
    if d.merge.Some? { ResolveBelow(t, d.merge.value, pos, d.key); }
    if d.ptag.Some? { ResolveBelow(t, d.ptag.value, pos, d.key); }
    if d.mtag.Some? { ResolveBelow(t, d.mtag.value, pos, d.key); }
    forall k | 0 <= k < |d.cludes|
      ensures 1 <= ResolveCludes(t, d.cludes)[k].ser < pos
      ensures t[ResolveCludes(t, d.cludes)[k].ser].key == d.cludes[k].key
    {
      ResolveBelow(t, d.cludes[k].key, pos, d.key);
    }
    BelongsRange(t, pos, d.key);
    assert NameCludes(t, ResolveCludes(t, d.cludes)) == d.cludes;
  }

  lemma BelongsRange(t: Table, pos: nat, key: SortKey)
    requires Belongs(t, pos, key)
    ensures 1 <= pos <= |t|
  {
  }

  lemma {:induction false} ReceivedInsert(t: Table, patch: seq<PatchDelta>, locs: seq<nat>, pos: nat, d: PatchDelta)
    requires |t| >= 1 && Received(t, patch, locs) && Belongs(t, pos, d.key) && RefsKnown(t, d) && Ascending(patch + [d])
    ensures Received(InsertAt(t, pos, Read(t, d)), patch + [d], locs + [pos])
  {
    hide Earlier, Named, RefsBelow, Read, RefsKnown;
    ReadKey(t, d);
    var r, locs' := InsertAt(t, pos, Read(t, d)), locs + [pos];
    forall k | 0 <= k < |patch| ensures locs[k] < pos && Holds(r, locs[k], patch[k]) {
      assert (patch + [d])[k] == patch[k] && (patch + [d])[|patch|] == d;
      HoldsInsert(t, pos, Read(t, d), locs[k], patch[k]);
    }
    ReadMeans(t, d, pos);
    NamedBelow(t, r, Read(t, d), pos);
    assert Holds(r, pos, d);
    forall y | 1 <= y < |r| && r[y].remote ensures y in locs' {
      RemoteBelow(t, patch, locs, pos, Read(t, d), y);
      if y != pos {
        var k :| 0 <= k < |locs| && locs[k] == y;
        assert locs'[k] == y;
      } else {
        assert locs'[|locs|] == y;
      }
    }
  }

  lemma ReadKey(t: Table, d: PatchDelta)
    requires |t| >= 1
    ensures Read(t, d).key == d.key && Read(t, d).remote
  {
  }

  /** Remote deltas are all below the insertion point. */
  lemma {:induction false} RemoteBelow(t: Table, patch: seq<PatchDelta>, locs: seq<nat>, pos: nat, d: Delta, y: nat)
    requires Received(t, patch, locs) && 1 <= pos <= |t| && forall k :: 0 <= k < |locs| ==> locs[k] < pos
    requires 1 <= y < |t| + 1 && InsertAt(t, pos, d)[y].remote
    ensures y == pos || y in locs
  {
    hide Holds;
    if y != pos {
      var z := if y < pos then y else y - 1;
      assert t[z].remote;
    }
  }

  ghost predicate SymsMoved(orig: seq<Symbol>, syms: seq<Symbol>, sh: seq<nat>) {
    && |orig| == |syms|
    && forall k :: 0 <= k < |orig| ==>
      && orig[k].ser < |sh| && orig[k].metaSer < |sh|
      && syms[k] == Symbol(orig[k].name, sh[orig[k].ser], sh[orig[k].metaSer])
  }

  /** Renumbers the symbols for an insertion at serial. */
  method ShiftSymbols(syms: seq<Symbol>, serial: nat) returns (r: seq<Symbol>)
    ensures |r| == |syms|
    ensures forall k :: 0 <= k < |syms| ==>
      r[k] == Symbol(syms[k].name, Shift(serial, syms[k].ser), Shift(serial, syms[k].metaSer))
  {
    r := syms;
    var k := |syms|;
    while k > 0
      invariant 0 <= k <= |syms| == |r|
      invariant forall j :: 0 <= j < |syms| ==>
        r[j] == if j < k then syms[j]
          else Symbol(syms[j].name, Shift(serial, syms[j].ser), Shift(serial, syms[j].metaSer))
    {
      k := k - 1;
      var sym := r[k];
      if sym.ser >= serial { sym := sym.(ser := sym.ser + 1); }
      if sym.metaSer >= serial { sym := sym.(metaSer := sym.metaSer + 1); }
      r := r[k := sym];
    }
  }

  // ---------- the whole state between insertions ----------

  /** The one-step shifts of a list of insertions, one after the other. */
  ghost function Compose(inserted: seq<nat>, x: nat): nat {
    if inserted == [] then x else
      var n := |inserted| - 1;
      Shift(inserted[n], Compose(inserted[..n], x))
  }

  /** What the insertions so far have done: sh composes their shifts. */
  ghost predicate State(orig: Table, origSyms: seq<Symbol>, t: Table, syms: seq<Symbol>, sh: seq<nat>,
                        inserted: seq<nat>,
                        patch: seq<PatchDelta>, locs: seq<nat>)
  {
    && Sorted(t) && Moved(orig, t, sh) && SymsMoved(origSyms, syms, sh)
    && Ascending(patch) && Received(t, patch, locs)
    && forall x :: 0 <= x < |sh| ==> sh[x] == Compose(inserted, x)
  }

  lemma {:induction false} StateInsert(orig: Table, origSyms: seq<Symbol>, t: Table, syms: seq<Symbol>, sh: seq<nat>,
                                       inserted: seq<nat>,
                                       patch: seq<PatchDelta>, locs: seq<nat>, pos: nat, d: PatchDelta,
                                       syms': seq<Symbol>)
    requires State(orig, origSyms, t, syms, sh, inserted, patch, locs) && |t| >= 1
    requires Belongs(t, pos, d.key) && RefsKnown(t, d) && Ascending(patch + [d])
    requires |syms'| == |syms|
    requires forall k :: 0 <= k < |syms| ==>
      syms'[k] == Symbol(syms[k].name, Shift(pos, syms[k].ser), Shift(pos, syms[k].metaSer))
    ensures State(orig, origSyms, InsertAt(t, pos, Read(t, d)), syms', ShiftAll(pos, sh), inserted + [pos], patch + [d],
      locs + [pos])
  {
    hide Sorted, Moved, Received, Ascending, Read, InsertAt, Belongs, RefsKnown;
    BelongsRange(t, pos, d.key);
    ReadKey(t, d);
    InsertSorted(t, pos, Read(t, d));
    MovedInsert(orig, t, sh, pos, Read(t, d));
    ReceivedInsert(t, patch, locs, pos, d);
    forall x | 0 <= x < |sh| ensures ShiftAll(pos, sh)[x] == Compose(inserted + [pos], x) {
      assert (inserted + [pos])[..|inserted|] == inserted;
    }
  }

  lemma {:induction false} StateKnown(orig: Table, origSyms: seq<Symbol>, t: Table, syms: seq<Symbol>, sh: seq<nat>,
                                      inserted: seq<nat>,
                                      patch: seq<PatchDelta>, locs: seq<nat>, e: nat, d: PatchDelta)
    requires State(orig, origSyms, t, syms, sh, inserted, patch, locs)
    requires 1 <= e < |t| && t[e].key == d.key && Ascending(patch + [d])
    ensures State(orig, origSyms, t, syms, sh, inserted, patch + [d], locs + [e]) && !t[e].remote
  {
    hide Sorted, Moved, SymsMoved, Earlier, Compose, Named, RefsBelow;
    if t[e].remote {
      var k :| 0 <= k < |locs| && locs[k] == e;
      assert Holds(t, locs[k], patch[k]);
      assert (patch + [d])[k] == patch[k] && (patch + [d])[|patch|] == d;
      EarlierTotal(d.key, d.key);
    }
    assert Holds(t, e, d);
    forall k | 0 <= k < |locs + [e]| ensures Holds(t, (locs + [e])[k], (patch + [d])[k]) {
      if k < |locs| { assert Holds(t, locs[k], patch[k]); }
    }
  }

  /** The table has the delta already, with other parents. */
  ghost predicate OtherLineage(t: Table, d: PatchDelta)
    requires |t| >= 1
  {
    exists x :: 1 <= x < |t| && t[x].key == d.key &&
      (t[x].parent != Resolve(t, d.parent) || t[x].merge != Resolve(t, d.merge))
  }

  ghost predicate SameLineage(t: Table, d: PatchDelta)
    requires |t| >= 1
  {
    exists x :: 1 <= x < |t| && t[x].key == d.key && t[x].parent == Resolve(t, d.parent) &&
      t[x].merge == Resolve(t, d.merge)
  }

  datatype InsertResult = Inserted | Known | BadLineage | Clash

  /** A ChangeSet file that is receiving a patch. */
  class ChangeSetFile {
    var table: Table
    var syms: seq<Symbol>
    var locs: seq<nat>               // the serial of each patch delta seen
    ghost var orig: Table            // the table and symbols before the patch
    ghost var origSyms: seq<Symbol>
    ghost var sh: seq<nat>           // where each original serial is now
    ghost var inserted: seq<nat>     // the serials inserted at
    ghost var patch: seq<PatchDelta> // the patch deltas seen

    ghost predicate Receiving()
      reads this
    {
      |table| >= 1 && State(orig, origSyms, table, syms, sh, inserted, patch, locs)
    }

    constructor (table: Table, syms: seq<Symbol>)
      requires Local(table) && forall k :: 0 <= k < |syms| ==> syms[k].ser < |table| && syms[k].metaSer < |table|
      ensures Receiving() && this.table == orig == table && this.syms == origSyms == syms && patch == [] && locs == []
    {
      this.table, this.orig := table, table;
      this.syms, this.origSyms := syms, syms;
      locs, inserted, patch := [], [], [];
      sh := seq(|table|, x => x);
      new;
      StartState(table, syms, sh);
    }

    /** Renumbers the parents of every delta above serial d. */
    method RemapParents(d: nat)
      requires 1 <= d < |table|
      modifies this`table
      ensures |table| == |old(table)|
      ensures forall x :: 0 <= x < |table| ==>
        table[x] == if x > d then ShiftParents(d, old(table)[x]) else old(table)[x]
    {
      var e := d + 1;
      while e < |table|
        invariant d < e <= |table| == |old(table)|
        invariant forall x :: 0 <= x < |table| ==>
          table[x] == if d < x < e then ShiftParents(d, old(table)[x]) else old(table)[x]
      {
        table := table[e := ShiftParents(d, table[e])];
        e := e + 1;
      }
    }

    /** Takes one delta of the patch. */
    method Insert(d: PatchDelta) returns (r: InsertResult)
      requires Receiving() && RefsKnown(table, d) && Ascending(patch + [d])
      modifies this
      ensures orig == old(orig) && origSyms == old(origSyms)
      ensures r.Inserted? || r.Known? ==> Receiving() && patch == old(patch) + [d]
      ensures r.Inserted? ==> exists pos :: Belongs(old(table), pos, d.key) && inserted == old(inserted) + [pos]
                                            && table == InsertAt(old(table), pos, Read(old(table), d)) &&
                                              locs == old(locs) + [pos]
      ensures !r.Inserted? ==> table == old(table) && syms == old(syms) && sh == old(sh) && inserted == old(inserted)
      ensures r.BadLineage? || r.Clash? ==> patch == old(patch) && locs == old(locs)
      ensures r.Inserted? || r.Clash? <==> forall x :: 1 <= x < |old(table)| ==> old(table)[x].key != d.key
      ensures r.Clash? ==> exists x :: 1 <= x < |old(table)| && Tied(old(table)[x].key, d.key)
      ensures r.Inserted? ==> forall x :: 1 <= x < |old(table)| ==> !Tied(old(table)[x].key, d.key)
      ensures r.Known? ==> SameLineage(old(table), d)
      ensures r.BadLineage? ==> OtherLineage(old(table), d)
    {
      hide State, RefsKnown, Ascending, Belongs, Read, Earlier, Tied;
      var e := FindKey(table, |table| - 1, d.key);
      var rpar, rmerge := Resolve(table, d.parent), Resolve(table, d.merge);
      if e != 0 {
        if table[e].parent != rpar || table[e].merge != rmerge {
          return BadLineage;
        }
        StateKnown(orig, origSyms, table, syms, sh, inserted, patch, locs, e, d);
        locs, patch := locs + [e], patch + [d];
        return Known;
      }
      StateSorted(orig, origSyms, table, syms, sh, inserted, patch, locs);
      var place := FindPlace(table, d.key);
      if place.Unordered? { return Clash; }
      var serial := place.pos;
      BelongsRange(table, serial, d.key);
      ghost var before := table;
      var delta := Read(table, d);
      table := table[..serial] + [delta] + table[serial..];
      RemapParents(serial);
      assert table == InsertAt(before, serial, delta);
      var shifted := ShiftSymbols(syms, serial);
      StateInsert(orig, origSyms, before, syms, sh, inserted, patch, locs, serial, d, shifted);
      syms := shifted;
      sh, inserted, patch := ShiftAll(serial, sh), inserted + [serial], patch + [d];
      locs := locs + [serial];
      return Inserted;
    }

    /** Renumbers the include/exclude lists and tag parents of the local deltas in one pass. */
    method Fix()
      requires Receiving()
      modifies this`table
      ensures |table| == |old(table)| && |sh| == |orig| && forall x :: 1 <= x < |orig| ==> Fixed(orig, table, sh, x)
      ensures forall y :: 0 <= y < |table| ==>
        table[y].key == old(table)[y].key && table[y].remote == old(table)[y].remote
      ensures forall y :: 0 <= y < |table| && (y == 0 || table[y].remote) ==> table[y] == old(table)[y]
    {
      hide Sorted, Ascending, Earlier, Moved, Received, SymsMoved, Compose, MoveAll, FixDelta, Fixed, FixedUpTo, Remaps,
           Passed, SameShape;
      LocsInRange(table, patch, locs);
      MovedBasics(orig, table, sh);
      var i := 0;
      while i < |locs| && !table[locs[i]].remote
        invariant 0 <= i <= |locs|
        invariant forall k :: 0 <= k < i ==> !table[locs[k]].remote
      {
        i := i + 1;
      }
      if i == |locs| {
        AllLocal(orig, table, sh, locs, patch);
        return;
      }
      var d := locs[i];
      var base := d - 1;
      BaseUnmoved(orig, table, sh, patch, locs, i);
      ghost var before := table;
      ShapeSame(before);
      var remap: seq<nat> := [];
      d := d + 1;
      while d < |table|
        invariant base + 1 < d <= |table| == |before|
        invariant Remaps(remap, sh, base) && FixedUpTo(orig, table, sh, base + |remap|)
        invariant Passed(sh, base + |remap|, d)
        invariant SameShape(before, table)
      {
        ShapeAt(before, table, d);
        if table[d].remote {
          PassRemote(orig, table, sh, base + |remap|, d, before);
        } else {
          ghost var x := NextLocal(orig, before, sh, base + |remap|, d);
          remap := remap + [d];
          FixNext(orig, table, sh, base, remap, x);
          ShapeKept(before, table, d, FixDelta(base, remap, table[d]));
          table := table[d := FixDelta(base, remap, table[d])];
        }
        d := d + 1;
      }
      AllFixed(orig, table, sh, base + |remap|);
      ShapeMeans(before, table);
    }
  }

  /** Only local deltas may differ, and not in key or origin. */
  ghost predicate SameShape(t: Table, u: Table) {
    && |t| == |u|
    && (forall y :: 0 <= y < |t| ==> u[y].key == t[y].key && u[y].remote == t[y].remote)
    && forall y :: 0 <= y < |t| && (y == 0 || t[y].remote) ==> u[y] == t[y]
  }

  lemma ShapeSame(t: Table)
    ensures SameShape(t, t)
  {
  }

  lemma ShapeAt(t: Table, u: Table, d: nat)
    requires SameShape(t, u) && d < |t|
    ensures u[d].remote == t[d].remote && |u| == |t|
  {
  }

  lemma ShapeKept(t: Table, u: Table, d: nat, v: Delta)
    requires SameShape(t, u) && 1 <= d < |u| && !u[d].remote && !v.remote && v.key == u[d].key
    ensures SameShape(t, u[d := v])
  {
  }

  lemma ShapeMeans(t: Table, u: Table)
    requires SameShape(t, u)
    ensures forall y :: 0 <= y < |t| ==> u[y].key == t[y].key && u[y].remote == t[y].remote
    ensures forall y :: 0 <= y < |t| && (y == 0 || u[y].remote) ==> u[y] == t[y]
  {
  }

  lemma MovedBasics(orig: Table, t: Table, sh: seq<nat>)
    requires Moved(orig, t, sh)
    ensures Local(orig) && Climbs(sh) && |sh| == |orig|
  {
  }

  // ---------- the lazy renumbering ----------

  /** Later patch deltas have larger serials. */
  lemma {:induction false} LocsClimb(t: Table, patch: seq<PatchDelta>, locs: seq<nat>, i: nat, j: nat)
    requires Sorted(t) && Ascending(patch) && Received(t, patch, locs) && i < j < |locs|
    ensures locs[i] < locs[j]
  {
    hide Earlier, Named, RefsBelow;
    assert Holds(t, locs[i], patch[i]) && Holds(t, locs[j], patch[j]);
    assert Earlier(patch[i].key, patch[j].key);
    EarlierTotal(patch[i].key, patch[j].key);
    EarlierTotal(patch[i].key, patch[i].key);
  }

  /** Below the first remote delta nothing has moved. */
  lemma {:induction false} Unmoved(sh: seq<nat>, base: nat, x: nat)
    requires Climbs(sh) && (forall y :: 0 <= y <= base ==> y in sh) && x <= base
    ensures x < |sh| && sh[x] == x
  {
    if x == 0 {
      assert 0 in sh;
    } else {
      Unmoved(sh, base, x - 1);
      assert x in sh;
      var i :| 0 <= i < |sh| && sh[i] == x;
    }
  }

  /** The renumbering of the single pass. */
  function Remap(base: nat, remap: seq<nat>, e: nat): nat
    requires e > base ==> e - base - 1 < |remap|
  {
    if e > base then remap[e - base - 1] else e
  }

  /** remap holds the new serials of the first local deltas above base. */
  ghost predicate Remaps(remap: seq<nat>, sh: seq<nat>, base: nat) {
    && base + |remap| < |sh|
    && (forall x :: 0 <= x <= base ==> sh[x] == x)
    && (forall k :: 0 <= k < |remap| ==> remap[k] == sh[base + 1 + k])
  }

  /** For every reference it can meet, the single pass agrees with the composed shifts. */
  lemma RemapIsShift(base: nat, remap: seq<nat>, sh: seq<nat>, e: nat)
    requires Remaps(remap, sh, base) && e <= base + |remap|
    ensures Remap(base, remap, e) == sh[e]
  {
  }

  function RemapCludes(base: nat, remap: seq<nat>, cludes: seq<Clude>): (r: seq<Clude>)
    requires forall k :: 0 <= k < |cludes| ==> cludes[k].ser <= base + |remap|
    ensures |r| == |cludes|
    ensures forall k :: 0 <= k < |cludes| ==> r[k] == Clude(Remap(base, remap, cludes[k].ser), cludes[k].plus)
  {
    seq(|cludes|, k requires 0 <= k < |cludes| => Clude(Remap(base, remap, cludes[k].ser), cludes[k].plus))
  }

  /** All references of a delta renumbered by sh. */
  ghost function MoveAll(sh: seq<nat>, d: Delta): Delta
    requires RefsBelow(d, |sh|)
  {
    d.(parent := sh[d.parent], merge := sh[d.merge], ptag := sh[d.ptag], mtag := sh[d.mtag],
       cludes := seq(|d.cludes|, k requires 0 <= k < |d.cludes| => Clude(sh[d.cludes[k].ser], d.cludes[k].plus)))
  }

  /** The lazy fields renumbered by the single pass; a second tag parent exists only with a first. */
  function FixDelta(base: nat, remap: seq<nat>, d: Delta): Delta
    requires d.ptag <= base + |remap| && d.mtag <= base + |remap|
    requires forall k :: 0 <= k < |d.cludes| ==> d.cludes[k].ser <= base + |remap|
  {
    var d' := d.(cludes := RemapCludes(base, remap, d.cludes));
    if d.ptag == 0 then d'
    else if d.mtag == 0 then d'.(ptag := Remap(base, remap, d.ptag))
    else d'.(ptag := Remap(base, remap, d.ptag), mtag := Remap(base, remap, d.mtag))
  }

  lemma {:induction false} FixMoves(base: nat, remap: seq<nat>, sh: seq<nat>, o: Delta, x: nat)
    requires Remaps(remap, sh, base) && RefsBelow(o, x) && x <= base + |remap| && (o.ptag == 0 ==> o.mtag == 0)
    ensures RefsBelow(o, |sh|) && FixDelta(base, remap, MoveParents(sh, o)) == MoveAll(sh, o)
  {
    RemapIsShift(base, remap, sh, o.ptag);
    RemapIsShift(base, remap, sh, o.mtag);
    forall k | 0 <= k < |o.cludes| ensures Remap(base, remap, o.cludes[k].ser) == sh[o.cludes[k].ser] {
      RemapIsShift(base, remap, sh, o.cludes[k].ser);
    }
    assert RemapCludes(base, remap, o.cludes) == MoveAll(sh, o).cludes;
  }

  /** Original delta x has all its references renumbered. */
  ghost predicate Fixed(orig: Table, t: Table, sh: seq<nat>, x: nat)
    requires |sh| == |orig| && x < |orig|
  {
    sh[x] < |t| && RefsBelow(orig[x], x) && t[sh[x]] == MoveAll(sh, orig[x])
  }

  ghost predicate FixedUpTo(orig: Table, t: Table, sh: seq<nat>, c: nat) {
    && |sh| == |orig|
    && forall x :: 1 <= x < |orig| ==> if x <= c then Fixed(orig, t, sh, x) else MovedTo(orig, t, sh, x)
  }

  /** The first c original deltas are below serial d, the others are not. */
  ghost predicate Passed(sh: seq<nat>, c: nat, d: nat) {
    && c < |sh|
    && (forall x :: 0 <= x <= c ==> sh[x] < d)
    && (forall x :: c < x < |sh| ==> sh[x] >= d)
  }

  lemma LocsInRange(t: Table, patch: seq<PatchDelta>, locs: seq<nat>)
    requires Received(t, patch, locs)
    ensures forall k :: 0 <= k < |locs| ==> 1 <= locs[k] < |t|
  {
    forall k | 0 <= k < |locs| ensures 1 <= locs[k] < |t| { assert Holds(t, locs[k], patch[k]); }
  }

  /** A delta that has not moved needs no renumbering. */
  lemma {:induction false} FixedInPlace(orig: Table, t: Table, sh: seq<nat>, x: nat)
    requires |sh| == |orig| && 1 <= x < |orig| && MovedTo(orig, t, sh, x) && forall y :: 0 <= y <= x ==> sh[y] == y
    ensures Fixed(orig, t, sh, x)
  {
    assert MoveAll(sh, orig[x]).cludes == orig[x].cludes;
  }

  lemma {:induction false} AllLocal(orig: Table, t: Table, sh: seq<nat>, locs: seq<nat>, patch: seq<PatchDelta>)
    requires Moved(orig, t, sh) && Received(t, patch, locs)
    requires forall k :: 0 <= k < |locs| ==> locs[k] < |t| && !t[locs[k]].remote
    ensures forall x :: 1 <= x < |orig| ==> Fixed(orig, t, sh, x)
  {
    hide MovedTo, Fixed, Holds, Local;
    forall y | 0 <= y <= |t| - 1 ensures y in sh {
      if y == 0 { assert sh[0] == 0; }
    }
    forall x | 1 <= x < |orig| ensures Fixed(orig, t, sh, x) {
      MovedRange(orig, t, sh, x);
      forall y | 0 <= y <= x ensures sh[y] == y { Unmoved(sh, |t| - 1, y); }
      FixedInPlace(orig, t, sh, x);
    }
  }

  /** An original serial only grows, and stays in the table. */
  lemma {:induction false} MovedRange(orig: Table, t: Table, sh: seq<nat>, x: nat)
    requires Moved(orig, t, sh) && x < |orig|
    ensures x <= sh[x] < |t|
  {
    if x > 0 {
      MovedRange(orig, t, sh, x - 1);
      assert sh[x - 1] < sh[x];
      assert MovedTo(orig, t, sh, x);
    }
  }

  lemma {:induction false} BaseUnmoved(orig: Table, t: Table, sh: seq<nat>, patch: seq<PatchDelta>, locs: seq<nat>,
                                       i: nat)
    requires Sorted(t) && Ascending(patch) && Received(t, patch, locs) && Moved(orig, t, sh)
    requires i < |locs| && 1 <= locs[i] < |t| && t[locs[i]].remote
    requires forall k :: 0 <= k < i ==> locs[k] < |t| && !t[locs[k]].remote
    ensures Remaps([], sh, locs[i] - 1) && FixedUpTo(orig, t, sh, locs[i] - 1) && Passed(sh, locs[i] - 1, locs[i] + 1)
  {
    hide MovedTo, Fixed, Holds, Local, Earlier;
    var base := locs[i] - 1;
    forall y | 0 <= y <= base ensures y in sh {
      if y == 0 {
        assert sh[0] == 0;
      } else if t[y].remote {
        var k :| 0 <= k < |locs| && locs[k] == y;
        if k > i { LocsClimb(t, patch, locs, i, k); }
      }
    }
    Unmoved(sh, base, base);
    forall x | 0 <= x <= base ensures sh[x] == x { Unmoved(sh, base, x); }
    forall x | 1 <= x <= base ensures Fixed(orig, t, sh, x) {
      assert MovedTo(orig, t, sh, x);
      FixedInPlace(orig, t, sh, x);
    }
    forall x | base < x < |sh| ensures sh[x] >= locs[i] + 1 {
      assert sh[base] < sh[x];
      NotRemote(orig, t, sh, x);
    }
  }

  lemma NotRemote(orig: Table, t: Table, sh: seq<nat>, x: nat)
    requires Moved(orig, t, sh) && 1 <= x < |orig|
    ensures sh[x] < |t| && !t[sh[x]].remote
  {
    assert MovedTo(orig, t, sh, x);
    assert !orig[x].remote;
  }

  lemma PassRemote(orig: Table, t: Table, sh: seq<nat>, c: nat, d: nat, before: Table)
    requires Moved(orig, before, sh) && SameShape(before, t) && Passed(sh, c, d) && d < |t| && t[d].remote && d >= 1
    ensures Passed(sh, c, d + 1)
  {
    hide MovedTo, Local;
    forall x | c < x < |sh| ensures sh[x] >= d + 1 { NotRemote(orig, before, sh, x); }
  }

  lemma NextLocal(orig: Table, before: Table, sh: seq<nat>, c: nat, d: nat) returns (x: nat)
    requires Moved(orig, before, sh) && Passed(sh, c, d) && 1 <= d < |before| && !before[d].remote
    ensures x == c + 1 < |sh| && sh[x] == d && Passed(sh, c + 1, d + 1)
  {
    hide MovedTo, Local;
    assert d in sh;
    x :| 0 <= x < |sh| && sh[x] == d;
    ClimbsLe(sh, c + 1, x);
    forall y | x < y < |sh| ensures sh[y] >= d + 1 { assert sh[x] < sh[y]; }
  }

  lemma {:induction false} FixNext(orig: Table, t: Table, sh: seq<nat>, base: nat, remap: seq<nat>, x: nat)
    requires Local(orig) && 1 <= x < |orig| && FixedUpTo(orig, t, sh, x - 1) && x == base + |remap| && sh[x] < |t|
    requires Climbs(sh)
    requires remap != [] && remap[|remap| - 1] == sh[x] && Remaps(remap[..|remap| - 1], sh, base)
    ensures Remaps(remap, sh, base)
    ensures t[sh[x]].ptag <= base + |remap| && t[sh[x]].mtag <= base + |remap|
    ensures forall k :: 0 <= k < |t[sh[x]].cludes| ==> t[sh[x]].cludes[k].ser <= base + |remap|
    ensures FixedUpTo(orig, t[sh[x] := FixDelta(base, remap, t[sh[x]])], sh, x)
    ensures !t[sh[x]].remote && FixDelta(base, remap, t[sh[x]]).key == t[sh[x]].key
    ensures !FixDelta(base, remap, t[sh[x]]).remote
  {
    assert MovedTo(orig, t, sh, x);
    assert forall k :: 0 <= k < |remap| - 1 ==> remap[..|remap| - 1][k] == remap[k];
    FixMoves(base, remap, sh, orig[x], x);
    var t' := t[sh[x] := FixDelta(base, remap, t[sh[x]])];
    forall y | 1 <= y < |orig| ensures if y <= x then Fixed(orig, t', sh, y) else MovedTo(orig, t', sh, y) {
      if y < x { assert sh[y] < sh[x]; assert Fixed(orig, t, sh, y); }
      if y > x { assert sh[x] < sh[y]; assert MovedTo(orig, t, sh, y); }
    }
  }

  lemma AllFixed(orig: Table, t: Table, sh: seq<nat>, c: nat)
    requires FixedUpTo(orig, t, sh, c) && Passed(sh, c, |t|)
    ensures forall x :: 1 <= x < |orig| ==> Fixed(orig, t, sh, x)
  {
    hide Fixed, MovedTo;
    forall x | 1 <= x < |orig| ensures Fixed(orig, t, sh, x) {
      assert if x <= c then Fixed(orig, t, sh, x) else MovedTo(orig, t, sh, x);
      InTable(orig, t, sh, c, x);
    }
  }

  lemma InTable(orig: Table, t: Table, sh: seq<nat>, c: nat, x: nat)
    requires FixedUpTo(orig, t, sh, c) && 1 <= x < |orig|
    ensures sh[x] < |t|
  {
    assert if x <= c then Fixed(orig, t, sh, x) else MovedTo(orig, t, sh, x);
  }

  lemma ClimbsLe(sh: seq<nat>, i: nat, j: nat)
    requires Climbs(sh) && i <= j < |sh|
    ensures sh[i] <= sh[j] && (sh[i] == sh[j] ==> i == j)
  {
  }

  lemma StateSorted(orig: Table, origSyms: seq<Symbol>, t: Table, syms: seq<Symbol>, sh: seq<nat>, inserted: seq<nat>,
                    patch: seq<PatchDelta>, locs: seq<nat>)
    requires State(orig, origSyms, t, syms, sh, inserted, patch, locs)
    ensures Sorted(t)
  {
  }

  lemma {:induction false} StartState(t: Table, syms: seq<Symbol>, sh: seq<nat>)
    requires Local(t) && forall k :: 0 <= k < |syms| ==> syms[k].ser < |t| && syms[k].metaSer < |t|
    requires sh == seq(|t|, x => x)
    ensures State(t, syms, t, syms, sh, [], [], [])
  {
    forall y | 1 <= y < |t| ensures y in sh { assert sh[y] == y; }
    forall x | 1 <= x < |t| ensures MovedTo(t, t, sh, x) { assert RefsBelow(t[x], x); }
    forall y | 1 <= y < |t| ensures !t[y].remote { }
  }

  // ---------- what a received patch means ----------

  /** Installs the weave entries that came with the patch: the pairs sent for patch index k
      go to the serial recorded for it, unless the delta was here already. */
  method Install(t: Table, locs: seq<nat>, diffs: seq<seq<Pair>>) returns (r: Table)
    requires |diffs| == |locs| && forall k :: 0 <= k < |locs| ==> 1 <= locs[k] < |t|
    requires forall i, j :: 0 <= i < j < |locs| ==> locs[i] < locs[j]
    ensures |r| == |t|
    ensures forall y :: 0 <= y < |t| && (y !in locs || !t[y].remote) ==> r[y] == t[y]
    ensures forall k :: 0 <= k < |locs| && t[locs[k]].remote ==> r[locs[k]] == t[locs[k]].(pairs := diffs[k])
  {
    r := t;
    for k := 0 to |locs|
      invariant |r| == |t|
      invariant forall y :: 0 <= y < |t| && (y !in locs[..k] || !t[y].remote) ==> r[y] == t[y]
      invariant forall j :: 0 <= j < k && t[locs[j]].remote ==> r[locs[j]] == t[locs[j]].(pairs := diffs[j])
    {
      var d := locs[k];
      assert d !in locs[..k];
      if r[d].remote { r := r[d := r[d].(pairs := diffs[k])]; }
      assert locs[..k + 1] == locs[..k] + [d];
    }
    assert locs[..|locs|] == locs;
  }

  /** Some delta of t is what pd says. */
  ghost predicate Has(t: Table, pd: PatchDelta) {
    exists y :: HasAt(t, y, pd)
  }

  ghost predicate HasAt(t: Table, y: int, pd: PatchDelta) {
    1 <= y < |t| && RefsBelow(t[y], y) && Named(t, t[y]) == pd
  }

  ghost predicate HasKey(t: Table, key: SortKey) {
    exists y :: 1 <= y < |t| && t[y].key == key
  }

  /** t is orig with the new deltas of the patch: nothing lost, nothing changed, nothing else. */
  ghost predicate Merged(orig: Table, patch: seq<PatchDelta>, t: Table) {
    && Valid(t)
    && forall pd :: Has(t, pd) <==> Has(orig, pd) || (pd in patch && !HasKey(orig, pd.key))
  }

  /** The finished table, before meaning is read off it. */
  ghost predicate Finished(orig: Table, t: Table, sh: seq<nat>, patch: seq<PatchDelta>, locs: seq<nat>) {
    && |sh| == |orig| >= 1 && Climbs(sh) && Local(orig) && Sorted(t) && |locs| == |patch| && |t| >= 1
    && (forall x :: 1 <= x < |orig| ==> Fixed(orig, t, sh, x))
    && (forall k :: 0 <= k < |locs| ==> 1 <= locs[k] < |t| && t[locs[k]].key == patch[k].key)
    && (forall k :: 0 <= k < |locs| && t[locs[k]].remote ==> HasAt(t, locs[k], patch[k]))
    && (forall y :: 1 <= y < |t| ==> if t[y].remote then y in locs else y in sh)
  }

  lemma {:induction false} KeyMoved(orig: Table, t: Table, sh: seq<nat>, x: nat)
    requires |sh| == |orig| && 1 <= x < |orig| && Fixed(orig, t, sh, x)
    ensures sh[x] < |t| && t[sh[x]].key == orig[x].key && t[sh[x]].remote == orig[x].remote
  {
  }

  /** An original delta means what it meant, under its new serial. */
  lemma {:induction false} MovedMeans(orig: Table, t: Table, sh: seq<nat>, patch: seq<PatchDelta>, locs: seq<nat>,
                                      x: nat)
    requires Finished(orig, t, sh, patch, locs) && 1 <= x < |orig|
    ensures RefsBelow(orig[x], x) && HasAt(t, sh[x], Named(orig, orig[x])) && !t[sh[x]].remote
  {
    hide Sorted, HasAt;
    assert Fixed(orig, t, sh, x);
    var o := orig[x];
    assert RefsBelow(o, x);
    forall e | 0 <= e < x ensures sh[e] < sh[x] && (e > 0 ==> t[sh[e]].key == orig[e].key && sh[e] > 0) {
      if e > 0 { assert Fixed(orig, t, sh, e); KeyMoved(orig, t, sh, e); assert sh[0] < sh[e]; }
    }
    MovedNames(orig, t, sh, o, x);
  }

  lemma {:induction false} MovedNames(orig: Table, t: Table, sh: seq<nat>, o: Delta, x: nat)
    requires |sh| == |orig| && 1 <= x < |orig| && RefsBelow(o, x) && 1 <= sh[x] < |t| && t[sh[x]] == MoveAll(sh, o)
    requires sh[0] == 0
    requires forall e :: 0 <= e < x ==> sh[e] < sh[x] && (e > 0 ==> t[sh[e]].key == orig[e].key && sh[e] > 0)
    ensures HasAt(t, sh[x], Named(orig, o))
  {
    var d := t[sh[x]];
    assert RefsBelow(d, sh[x]);
    assert NameCludes(t, d.cludes) == NameCludes(orig, o.cludes);
  }

  lemma {:induction false} FinishedValid(orig: Table, t: Table, sh: seq<nat>, patch: seq<PatchDelta>, locs: seq<nat>,
                                         y: nat)
    requires Finished(orig, t, sh, patch, locs) && 1 <= y < |t|
    ensures RefsBelow(t[y], y)
  {
    hide Sorted, Named;
    if t[y].remote {
      var k :| 0 <= k < |locs| && locs[k] == y;
      assert HasAt(t, locs[k], patch[k]);
    } else {
      var x :| 0 <= x < |sh| && sh[x] == y;
      MovedMeans(orig, t, sh, patch, locs, x);
    }
  }

  /** Whatever the finished table has, it had before or got from the patch. */
  lemma {:induction false} FinishedFrom(orig: Table, t: Table, sh: seq<nat>, patch: seq<PatchDelta>, locs: seq<nat>,
                                        y: nat)
    requires Finished(orig, t, sh, patch, locs) && 1 <= y < |t|
    ensures RefsBelow(t[y], y)
    ensures var pd := Named(t, t[y]); Has(orig, pd) || (pd in patch && !HasKey(orig, pd.key))
  {
    hide Named, RefsBelow;
    FinishedValid(orig, t, sh, patch, locs, y);
    if t[y].remote {
      var k :| 0 <= k < |locs| && locs[k] == y;
      assert HasAt(t, locs[k], patch[k]);
      HasAtIs(t, y, patch[k]);
      if HasKey(orig, t[y].key) {
        var x :| 1 <= x < |orig| && orig[x].key == t[y].key;
        MovedMeans(orig, t, sh, patch, locs, x);
        KeyMoved(orig, t, sh, x);
        SortedOnce(t, y, sh[x]);
      }
    } else {
      var x :| 0 <= x < |sh| && sh[x] == y;
      MovedMeans(orig, t, sh, patch, locs, x);
      RefsBelowMore(orig[x], x, |orig|);
      HasAtIs(t, y, Named(orig, orig[x]));
      assert HasAt(orig, x, Named(orig, orig[x]));
    }
  }

  lemma RefsBelowMore(d: Delta, n: nat, m: nat)
    requires RefsBelow(d, n) && n <= m
    ensures RefsBelow(d, m)
  {
  }

  lemma HasAtIs(t: Table, y: nat, pd: PatchDelta)
    requires HasAt(t, y, pd)
    ensures RefsBelow(t[y], y) && Named(t, t[y]) == pd && pd.key == t[y].key
  {
  }

  lemma SortedOnce(t: Table, y: nat, z: nat)
    requires Sorted(t) && 1 <= y < |t| && 1 <= z < |t| && t[y].key == t[z].key
    ensures y == z
  {
    EarlierTotal(t[y].key, t[y].key);
  }

  /** A finished table is the old one merged with the patch. */
  lemma {:induction false} FinishedMeans(orig: Table, t: Table, sh: seq<nat>, patch: seq<PatchDelta>, locs: seq<nat>)
    requires Finished(orig, t, sh, patch, locs)
    ensures Merged(orig, patch, t)
  {
    forall y | 1 <= y < |t| ensures RefsBelow(t[y], y) { FinishedValid(orig, t, sh, patch, locs, y); }
    assert Valid(t);
    hide Named, RefsBelow, Finished, Valid;
    forall pd ensures Has(t, pd) <==> Has(orig, pd) || (pd in patch && !HasKey(orig, pd.key)) {
      FinishedHas(orig, t, sh, patch, locs, pd);
    }
  }

  lemma {:induction false} LocalHasKey(orig: Table, t: Table, sh: seq<nat>, patch: seq<PatchDelta>, locs: seq<nat>,
                                       y: nat)
    requires Finished(orig, t, sh, patch, locs) && 1 <= y < |t|
    ensures t[y].remote || HasKey(orig, t[y].key)
  {
    hide Sorted, Fixed;
    if !t[y].remote {
      var x :| 0 <= x < |sh| && sh[x] == y;
      KeyMoved(orig, t, sh, x);
    }
  }

  lemma {:induction false} FinishedHas(orig: Table, t: Table, sh: seq<nat>, patch: seq<PatchDelta>, locs: seq<nat>,
                                       pd: PatchDelta)
    requires Finished(orig, t, sh, patch, locs)
    ensures Has(t, pd) <==> Has(orig, pd) || (pd in patch && !HasKey(orig, pd.key))
  {
    hide Named, RefsBelow, Sorted;
    if Has(t, pd) {
      var y :| HasAt(t, y, pd);
      FinishedFrom(orig, t, sh, patch, locs, y);
    }
    if Has(orig, pd) {
      var x :| HasAt(orig, x, pd);
      MovedMeans(orig, t, sh, patch, locs, x);
      assert HasAt(t, sh[x], pd);
    }
    if pd in patch && !HasKey(orig, pd.key) {
      var k :| 0 <= k < |patch| && patch[k] == pd;
      LocalHasKey(orig, t, sh, patch, locs, locs[k]);
      assert HasAt(t, locs[k], pd);
    }
  }
}
