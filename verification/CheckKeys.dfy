/** src/check.c: matching the committed keys of a file against the ChangeSet weave.

    The weave is read once, in whatever order it has, and each file keeps a cursor into its
    own keys, because the two orders nearly agree. */
module CheckKeys {
  import opened KeyOrder

  // ---------- finding a key ----------

  /** The first 14 bytes of what follows the second bar of "user@host|path|date|sum". */
  function Stamp(key: Str): Str {
    if BAR !in key then [] else
      var path := key[FindBar(key) + 1..];
      if BAR !in path then [] else
        var date := path[FindBar(path) + 1..];
        if |date| > 14 then date[..14] else date
  }

  /** Of a key it is the date: what follows the path, as far as the seconds. */
  lemma {:induction false} StampIs(k: SortKey)
    requires ValidKey(k)
    ensures var s := Stamp(Text(k)); s <= k.rest && (|s| == 14 || (|s| < 14 && s == k.rest))
  {
    hide FindBar, Text;
    TextParts(k);
    var path := Text(k)[|k.user| + 1..];
    assert path[|k.path| + 1..] == path[|k.path|..][1..] == k.rest;
  }

  /** The keys of a file: slot 0 is unused, the newest is first. */
  ghost predicate NewestFirst(keys: seq<Str>) {
    && |keys| >= 1
    && forall i, j :: 1 <= i < j < |keys| ==> Strcmp(Stamp(keys[i]), Stamp(keys[j])) >= 0
  }

  lemma {:induction false} NewerDiffers(keys: seq<Str>, p: nat, q: nat, key: Str)
    requires NewestFirst(keys) && 1 <= q <= p < |keys| && Strcmp(Stamp(keys[p]), Stamp(key)) > 0
    ensures keys[q] != key
  {
    hide Stamp, Strcmp;
    StrcmpFlip(Stamp(keys[p]), Stamp(key));
    StrcmpFlip(Stamp(keys[q]), Stamp(keys[p]));
    StrcmpZero(Stamp(key), Stamp(key));
    if q < p { StrcmpTransitive(Stamp(key), Stamp(keys[p]), Stamp(keys[q])); }
  }

  lemma {:induction false} OlderDiffers(keys: seq<Str>, p: nat, q: nat, key: Str)
    requires NewestFirst(keys) && 1 <= p <= q < |keys| && Strcmp(Stamp(keys[p]), Stamp(key)) < 0
    ensures keys[q] != key
  {
    hide Stamp, Strcmp;
    StrcmpFlip(Stamp(keys[p]), Stamp(keys[q]));
    StrcmpZero(Stamp(key), Stamp(key));
    if p < q { StrcmpTransitive(Stamp(keys[q]), Stamp(keys[p]), Stamp(key)); }
  }

  /** The place of a key near the cursor: back to a newer key, then forward to an older one.
      Where the cursor is does not matter. */
  method KeyFind(keys: seq<Str>, curr: nat, key: Str) returns (idx: nat)
    requires NewestFirst(keys) && curr <= |keys|
    ensures idx == 0 <==> !InFile(keys, key)
    ensures idx != 0 ==> idx < |keys| && keys[idx] == key
  {
    hide NewestFirst, Stamp, Strcmp;
    var p := if curr == 0 then 1 else curr;
    p := p - 1;
    while p != 0 && Strcmp(Stamp(keys[p]), Stamp(key)) <= 0
      invariant 0 <= p <= curr
    {
      p := p - 1;
    }
    forall q | 1 <= q <= p ensures keys[q] != key { NewerDiffers(keys, p, q, key); }
    p := p + 1;
    while p < |keys|
      invariant 1 <= p <= |keys| + 1 && forall q :: 1 <= q < p && q < |keys| ==> keys[q] != key
    {
      var cmp := Strcmp(Stamp(keys[p]), Stamp(key));
      if cmp == 0 && keys[p] == key { return p; }
      if cmp < 0 {
        forall q | p <= q < |keys| ensures keys[q] != key { OlderDiffers(keys, p, q, key); }
        return 0;
      }
      StrcmpZero(Stamp(keys[p]), Stamp(key));
      p := p + 1;
    }
    return 0;
  }

  // ---------- what the weave says ----------

  /** An entry of the weave for one rootkey: its serial, its deltakey and the side it is on. */
  datatype Seen = Seen(ser: nat, dk: Str, mask: bv8)

  const RK_PARENT: bv8 := 0x01
  const RK_MERGE: bv8 := 0x02
  const RK_INTIP: bv8 := 0x04
  const RK_GCA: bv8 := 0x10

  /** The side of a delta from its colours. */
  function Flags2Mask(red: bool, blue: bool): (mask: bv8)
    ensures mask != 0
    ensures mask == RK_PARENT <==> red && !blue
    ensures mask == RK_MERGE <==> blue && !red
    ensures mask == RK_INTIP <==> red && blue
    ensures mask == RK_GCA <==> !red && !blue
  {
    if red && blue then RK_INTIP else if red then RK_PARENT else if blue then RK_MERGE else RK_GCA
  }

  function Join(a: bv8, b: bv8): bv8 {
    a | b
  }

  lemma JoinSided(a: bv8, b: bv8)
    requires b != 0
    ensures Join(a, b) != 0
  {
  }

  /** The sides on which a key was seen; 0 if nowhere. */
  function MaskOf(w: seq<Seen>, key: Str): bv8 {
    if w == [] then 0 else
      var n := |w| - 1;
      if w[n].dk == key then Join(MaskOf(w[..n], key), w[n].mask) else MaskOf(w[..n], key)
  }

  /** The entries whose key the file does not have. */
  ghost function Lacking(w: seq<Seen>, keys: seq<Str>): seq<Seen> {
    if w == [] then [] else
      var n := |w| - 1;
      Lacking(w[..n], keys) + if InFile(keys, w[n].dk) then [] else [w[n]]
  }

  ghost predicate Occurs(w: seq<Seen>, key: Str) {
    exists i :: 0 <= i < |w| && w[i].dk == key
  }

  /** How many of the keys from 1 to n the weave does not have. */
  ghost function Absent(keys: seq<Str>, n: nat, w: seq<Seen>): nat
    requires n < |keys|
  {
    if n == 0 then 0 else Absent(keys, n - 1, w) + if Occurs(w, keys[n]) then 0 else 1
  }

  /** Every entry is on some side. */
  ghost predicate Sided(w: seq<Seen>) {
    forall i :: 0 <= i < |w| ==> w[i].mask != 0
  }

  lemma {:induction false} MaskMeans(w: seq<Seen>, key: Str)
    requires Sided(w)
    ensures MaskOf(w, key) != 0 <==> Occurs(w, key)
  {
    if w != [] {
      var n := |w| - 1;
      MaskMeans(w[..n], key);
      JoinSided(MaskOf(w[..n], key), w[n].mask);
      OccursMore(w[..n], w[n], key);
      assert w == w[..n] + [w[n]];
    }
  }

  ghost predicate Shares(a: bv8, b: bv8) {
    a & b != 0
  }

  /** The mask of a key has a bit exactly when some entry of the key has it. */
  lemma {:induction false} MaskBits(w: seq<Seen>, key: Str, b: bv8)
    ensures Shares(MaskOf(w, key), b) <==> exists i :: 0 <= i < |w| && w[i].dk == key && Shares(w[i].mask, b)
  {
    if w == [] {
      assert MaskOf(w, key) == 0;
    } else {
      hide Shares, Join;
      var n := |w| - 1;
      MaskBits(w[..n], key, b);
      JoinBits(MaskOf(w[..n], key), w[n].mask, b);
      forall i | 0 <= i < n ensures w[..n][i] == w[i] { }
    }
  }

  lemma JoinBits(a: bv8, c: bv8, b: bv8)
    ensures Shares(Join(a, c), b) <==> Shares(a, b) || Shares(c, b)
  {
  }

  /** The four sides have a bit each. */
  lemma SideBits(red: bool, blue: bool, red': bool, blue': bool)
    ensures Shares(Flags2Mask(red, blue), Flags2Mask(red', blue')) <==> red == red' && blue == blue'
  {
  }

  lemma OccursMore(w: seq<Seen>, s: Seen, key: Str)
    ensures Occurs(w + [s], key) <==> Occurs(w, key) || s.dk == key
  {
    if Occurs(w, key) {
      var i :| 0 <= i < |w| && w[i].dk == key;
      assert (w + [s])[i] == w[i];
    }
    assert (w + [s])[|w|] == s;
  }

  ghost predicate Among(keys: seq<Str>, n: nat, key: Str)
    requires n < |keys|
  {
    exists p :: 1 <= p <= n && keys[p] == key
  }

  ghost predicate DistinctKeys(keys: seq<Str>) {
    forall i, j :: 1 <= i < j < |keys| ==> keys[i] != keys[j]
  }

  /** One more entry: if it is the first of a key of the file, one key fewer is absent. */
  lemma {:induction false} AbsentMore(keys: seq<Str>, n: nat, w: seq<Seen>, s: Seen)
    requires n < |keys| && DistinctKeys(keys)
    ensures Among(keys, n, s.dk) && !Occurs(w, s.dk) ==> Absent(keys, n, w + [s]) == Absent(keys, n, w) - 1
    ensures !Among(keys, n, s.dk) || Occurs(w, s.dk) ==> Absent(keys, n, w + [s]) == Absent(keys, n, w)
  {
    hide Occurs;
    if n > 0 {
      AbsentMore(keys, n - 1, w, s);
      OccursMore(w, s, keys[n]);
      if keys[n] == s.dk {
        assert forall p :: 1 <= p <= n - 1 ==> keys[p] != s.dk;
      }
    }
  }

  ghost predicate InFile(keys: seq<Str>, key: Str) {
    |keys| >= 1 && Among(keys, |keys| - 1, key)
  }

  lemma IsInFile(keys: seq<Str>, p: nat)
    requires 1 <= p < |keys|
    ensures InFile(keys, keys[p]) && Among(keys, |keys| - 1, keys[p])
  {
  }

  lemma NotInFile(keys: seq<Str>, key: Str)
    requires !InFile(keys, key) && |keys| >= 1
    ensures !Among(keys, |keys| - 1, key) && forall p :: 1 <= p < |keys| ==> keys[p] != key
  {
  }

  /** The books of a file after the entries w. */
  ghost predicate Tally(keys: seq<Str>, dmasks: seq<bv8>, unmarked: int, missing: seq<Seen>, w: seq<Seen>) {
    && |keys| >= 1 && |dmasks| == |keys| && Sided(w)
    && (forall p :: 1 <= p < |keys| ==> dmasks[p] == MaskOf(w, keys[p]))
    && unmarked == Absent(keys, |keys| - 1, w)
    && missing == Lacking(w, keys)
  }

  lemma {:induction false} TallyMissing(keys: seq<Str>, dmasks: seq<bv8>, unmarked: int, missing: seq<Seen>,
                                        w: seq<Seen>, s: Seen)
    requires Tally(keys, dmasks, unmarked, missing, w) && DistinctKeys(keys) && s.mask != 0 && !InFile(keys, s.dk)
    ensures Tally(keys, dmasks, unmarked, missing + [s], w + [s])
  {
    hide MaskOf, Lacking, Absent, Occurs, DistinctKeys, Join, InFile;
    AbsentMore(keys, |keys| - 1, w, s);
    LackingMore(w, s, keys);
    NotInFile(keys, s.dk);
    forall p | 1 <= p < |keys| ensures MaskOf(w + [s], keys[p]) == MaskOf(w, keys[p]) { MaskMore(w, s, keys[p]); }
  }

  lemma {:induction false} TallyFound(keys: seq<Str>, dmasks: seq<bv8>, unmarked: int, missing: seq<Seen>, w: seq<Seen>,
                                      s: Seen, idx: nat)
    requires Tally(keys, dmasks, unmarked, missing, w) && DistinctKeys(keys) && s.mask != 0 && 1 <= idx < |keys|
    requires keys[idx] == s.dk
    ensures dmasks[idx] != 0 <==> Occurs(w, s.dk)
    ensures Tally(keys, dmasks[idx := Join(dmasks[idx], s.mask)], if dmasks[idx] != 0 then unmarked
      else unmarked - 1, missing, w + [s])
  {
    hide MaskOf, Lacking, Absent, Occurs, DistinctKeys, Join, InFile;
    MaskMeans(w, s.dk);
    AbsentMore(keys, |keys| - 1, w, s);
    LackingMore(w, s, keys);
    OnlyAt(keys, idx);
    IsInFile(keys, idx);
    assert InFile(keys, s.dk);
    forall p | 1 <= p < |keys| ensures MaskOf(w + [s], keys[p]) == if p == idx then Join(MaskOf(w, keys[p]), s.mask)
      else MaskOf(w, keys[p]) {
      MaskMore(w, s, keys[p]);
    }
  }

  lemma TallyNothing(keys: seq<Str>)
    requires |keys| >= 1
    ensures Tally(keys, seq(|keys|, _ => 0), |keys| - 1, [], [])
  {
    AllAbsent(keys, |keys| - 1);
  }

  // ---------- the scan ----------

  /** What check keeps of one file while it reads the weave. */
  class FileKeys {
    const keys: seq<Str>
    var dmasks: seq<bv8>
    var curr: nat
    var unmarked: int
    var missing: seq<Seen>
    var dups: nat
    ghost var read: seq<Seen>

    ghost predicate Valid()
      reads this
    {
      NewestFirst(keys) && DistinctKeys(keys) && curr <= |keys| && Tally(keys, dmasks, unmarked, missing, read)
    }

    constructor (keys: seq<Str>)
      requires NewestFirst(keys) && DistinctKeys(keys)
      ensures Valid() && this.keys == keys && read == [] && dups == 0
    {
      this.keys := keys;
      dmasks := seq(|keys|, _ => 0);
      curr := 1;
      unmarked := |keys| - 1;
      missing, dups, read := [], 0, [];
      TallyNothing(keys);
    }

    /** One entry of the weave for this file. */
    method Visit(s: Seen)
      requires Valid() && s.mask != 0
      modifies this
      ensures Valid() && read == old(read) + [s]
      ensures dups == old(dups) + if Occurs(old(read), s.dk) && InFile(keys, s.dk) then 1 else 0
    {
      hide NewestFirst, Tally, Occurs, DistinctKeys, Join;
      ghost var w := read;
      TallySizes(keys, dmasks, unmarked, missing, w);
      read := w + [s];
      // past the last key the cursor finds nothing
      if !(curr != 0 && curr < |keys| && keys[curr] == s.dk) {
        var idx := KeyFind(keys, curr, s.dk);
        if idx == 0 {
          TallyMissing(keys, dmasks, unmarked, missing, w, s);
          missing := missing + [s];
          return;
        }
        curr := idx;
      }
      TallyFound(keys, dmasks, unmarked, missing, w, s, curr);
      if dmasks[curr] != 0 {
        dups := dups + 1;
      } else {
        unmarked := unmarked - 1;
      }
      dmasks := dmasks[curr := Join(dmasks[curr], s.mask)];
      curr := if curr < |keys| - 1 then curr + 1 else 0;
    }
  }

  lemma TallySizes(keys: seq<Str>, dmasks: seq<bv8>, unmarked: int, missing: seq<Seen>, w: seq<Seen>)
    requires Tally(keys, dmasks, unmarked, missing, w)
    ensures |keys| >= 1 && |dmasks| == |keys|
  {
  }

  lemma OnlyAt(keys: seq<Str>, p: nat)
    requires DistinctKeys(keys) && 1 <= p < |keys|
    ensures forall q :: 1 <= q < |keys| && q != p ==> keys[q] != keys[p]
  {
  }

  lemma MaskMore(w: seq<Seen>, s: Seen, key: Str)
    ensures MaskOf(w + [s], key) == if key == s.dk then Join(MaskOf(w, key), s.mask) else MaskOf(w, key)
  {
    assert (w + [s])[..|w|] == w;
  }

  lemma LackingMore(w: seq<Seen>, s: Seen, keys: seq<Str>)
    ensures Lacking(w + [s], keys) == Lacking(w, keys) + if InFile(keys, s.dk) then [] else [s]
  {
    assert (w + [s])[..|w|] == w;
  }

  lemma {:induction false} AllAbsent(keys: seq<Str>, n: nat)
    requires n < |keys|
    ensures Absent(keys, n, []) == n
  {
    if n > 0 { AllAbsent(keys, n - 1); }
  }

  /** The whole scan: what is unmarked at the end is what the weave does not have, and what
      is missing is what the file does not have. */
  method Scan(keys: seq<Str>, w: seq<Seen>) returns (unmarked: int, missing: seq<Seen>, marked: seq<bv8>)
    requires NewestFirst(keys) && DistinctKeys(keys) && Sided(w)
    ensures unmarked == Absent(keys, |keys| - 1, w) && missing == Lacking(w, keys)
    ensures |marked| == |keys| && forall p :: 1 <= p < |keys| ==> marked[p] == MaskOf(w, keys[p])
  {
    var f := new FileKeys(keys);
    for i := 0 to |w|
      invariant f.Valid() && f.keys == keys && f.read == w[..i] && fresh(f)
    {
      f.Visit(w[i]);
      assert w[..i + 1] == w[..i] + [w[i]];
    }
    assert w[..|w|] == w;
    unmarked, missing, marked := f.unmarked, f.missing, f.dmasks;
  }

  // ---------- the order of the weave ----------

  /** The order in which the weave presents the entries does not matter: not to the count of
      unmarked keys, not to which entries are missing, and not to the sides of a key. */
  lemma {:induction false} AnyOrder(keys: seq<Str>, n: nat, w: seq<Seen>, w': seq<Seen>)
    requires n < |keys| && multiset(w) == multiset(w')
    ensures Absent(keys, n, w) == Absent(keys, n, w')
    ensures multiset(Lacking(w, keys)) == multiset(Lacking(w', keys))
    ensures forall key :: MaskOf(w, key) == MaskOf(w', key)
  {
    AnyOrderAbsent(keys, n, w, w');
    forall e: Seen ensures multiset(Lacking(w, keys))[e] == multiset(Lacking(w', keys))[e] {
      LackingCount(w, keys, e);
      LackingCount(w', keys, e);
    }
    forall key ensures MaskOf(w, key) == MaskOf(w', key) {
      MaskWithin(w, w', key);
      MaskWithin(w', w, key);
      JoinBoth(MaskOf(w, key), MaskOf(w', key));
    }
  }

  lemma {:induction false} AnyOrderAbsent(keys: seq<Str>, n: nat, w: seq<Seen>, w': seq<Seen>)
    requires n < |keys| && multiset(w) == multiset(w')
    ensures Absent(keys, n, w) == Absent(keys, n, w')
  {
    if n > 0 {
      AnyOrderAbsent(keys, n - 1, w, w');
      SameOccurs(w, w', keys[n]);
      SameOccurs(w', w, keys[n]);
    }
  }

  /** An entry the file lacks is missing as often as the weave has it. */
  lemma {:induction false} LackingCount(w: seq<Seen>, keys: seq<Str>, e: Seen)
    ensures multiset(Lacking(w, keys))[e] == if InFile(keys, e.dk) then 0 else multiset(w)[e]
  {
    hide InFile;
    if w != [] {
      var n := |w| - 1;
      LackingCount(w[..n], keys, e);
      assert w == w[..n] + [w[n]];
    }
  }

  lemma JoinBoth(a: bv8, b: bv8)
    ensures Join(a, b) == b && Join(b, a) == a ==> a == b
    ensures Join(b, Join(a, b)) == Join(a, b)
  {
  }

  lemma JoinMore(a: bv8, b: bv8, m: bv8)
    requires Join(a, m) == m && Join(b, m) == m
    ensures Join(Join(a, b), m) == m
  {
  }

  lemma JoinStays(a: bv8, b: bv8, x: bv8)
    requires Join(x, a) == a
    ensures Join(x, Join(a, b)) == Join(a, b)
  {
  }

  /** The mask of a key covers every entry of it. */
  lemma {:induction false} MaskCovers(w: seq<Seen>, key: Str, i: nat)
    requires i < |w| && w[i].dk == key
    ensures Join(w[i].mask, MaskOf(w, key)) == MaskOf(w, key)
  {
    hide Join;
    var n := |w| - 1;
    if i < n {
      MaskCovers(w[..n], key, i);
      JoinStays(MaskOf(w[..n], key), w[n].mask, w[i].mask);
    } else {
      JoinBoth(MaskOf(w[..n], key), w[n].mask);
    }
  }

  /** And nothing that the entries do not have. */
  lemma {:induction false} MaskLeast(w: seq<Seen>, key: Str, m: bv8)
    requires forall i :: 0 <= i < |w| && w[i].dk == key ==> Join(w[i].mask, m) == m
    ensures Join(MaskOf(w, key), m) == m
  {
    if w != [] {
      hide Join;
      var n := |w| - 1;
      MaskLeast(w[..n], key, m);
      if w[n].dk == key { JoinMore(MaskOf(w[..n], key), w[n].mask, m); }
    }
  }

  lemma {:induction false} MaskWithin(w: seq<Seen>, w': seq<Seen>, key: Str)
    requires multiset(w) == multiset(w')
    ensures Join(MaskOf(w, key), MaskOf(w', key)) == MaskOf(w', key)
  {
    hide Join, MaskOf;
    forall i | 0 <= i < |w| && w[i].dk == key ensures Join(w[i].mask, MaskOf(w', key)) == MaskOf(w', key) {
      assert w[i] in multiset(w');
      var j :| 0 <= j < |w'| && w'[j] == w[i];
      MaskCovers(w', key, j);
    }
    MaskLeast(w, key, MaskOf(w', key));
  }

  lemma SameOccurs(w: seq<Seen>, w': seq<Seen>, key: Str)
    requires multiset(w) == multiset(w')
    ensures Occurs(w, key) ==> Occurs(w', key)
  {
    if Occurs(w, key) {
      var i :| 0 <= i < |w| && w[i].dk == key;
      assert w[i] in multiset(w');
      assert w[i] in w';
    }
  }
}
