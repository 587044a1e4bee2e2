/** src/bam.c: when cleaning leaves the numbering of a hash without gaps.

    The data files are listed sorted by path, so number 10 comes before number 2, and a file
    moves down only within files that follow one another in that list. */
module BamGaps {
  import opened KeyOrder
  import opened BamLog
  import opened BamStore
  import opened BamClean

  // ---------- the order of the list ----------

  /** As sorted by path, bytewise. */
  ghost predicate Sorted(fnames: seq<Name>) {
    forall p, q :: 0 <= p < q < |fnames| ==> Strcmp(Path(fnames[p]), Path(fnames[q])) < 0
  }

  /** Between a path that ends in one digit and the next there are only longer ones. */
  lemma {:induction false} Between(stem: Str, d: nat, s: Str)
    requires Strcmp(stem + [d], s) < 0 && Strcmp(s, stem + [d + 1]) < 0
    ensures |s| > |stem| + 1 && s[..|stem|] == stem
  {
    if stem != [] {
      var a, b := stem + [d], stem + [d + 1];
      assert a[1..] == stem[1..] + [d] && b[1..] == stem[1..] + [d + 1];
      Between(stem[1..], d, s[1..]);
      assert s == [s[0]] + s[1..] && stem == [stem[0]] + stem[1..];
    } else {
      assert stem + [d] == [d] && stem + [d + 1] == [d + 1];
      assert s[0] == d;
    }
  }

  /** A path tells its hash: names whose paths have the same stem have the same hash. */
  lemma {:induction false} StemTells(h: Str, x: Name)
    requires DOT !in h && DOT !in x.hash && |h| >= 2 && |x.hash| >= 2
    requires |Path(x)| >= |Stem(h)| && Path(x)[..|Stem(h)|] == Stem(h)
    ensures x.hash == h
  {
    var p := Path(x);
    var more := p[|Stem(h)|..];
    assert p == Stem(h) + more;
    assert p[3..] == h + [DOT] + ([100] + more);
    assert p[3..] == x.hash + [DOT] + ([100] + Decimal(x.num));
    HashIs(h, [100] + more);
    HashIs(x.hash, [100] + Decimal(x.num));
  }

  lemma {:induction false} HashIs(h: Str, more: Str)
    requires DOT !in h
    ensures HashOf(h + [DOT] + more) == h
  {
    if h != [] {
      assert (h + [DOT] + more)[1..] == h[1..] + [DOT] + more;
      HashIs(h[1..], more);
    }
  }

  /** With at most nine files of a hash, they follow one another in the sorted list. */
  lemma {:induction false} NineInTurn(fnames: seq<Name>, hash: Str)
    requires Sorted(fnames) && (forall n :: n in fnames ==> DOT !in n.hash && |n.hash| >= 2) && DOT !in hash
    requires |hash| >= 2
    requires forall n: nat :: Name(hash, n) in fnames ==> 1 <= n <= 9 && (n > 1 ==> Name(hash, n - 1) in fnames)
    ensures InTurn(fnames, hash)
  {
    hide Strcmp, Path, Stem;
    forall n: nat | n > 1 && Name(hash, n) in fnames
      ensures exists p :: 0 < p < |fnames| && fnames[p] == Name(hash, n) && fnames[p - 1] == Name(hash, n - 1)
    {
      var p: nat :| p < |fnames| && fnames[p] == Name(hash, n);
      var q: nat :| q < |fnames| && fnames[q] == Name(hash, n - 1);
      Follows(fnames, hash, n - 1, q, p);
    }
  }

  lemma {:induction false} Follows(fnames: seq<Name>, hash: Str, n: nat, q: nat, p: nat)
    requires Sorted(fnames) && (forall x :: x in fnames ==> DOT !in x.hash && |x.hash| >= 2) && DOT !in hash
    requires |hash| >= 2
    requires forall k: nat :: Name(hash, k) in fnames ==> k <= 9
    requires n < 9 && q < |fnames| && p < |fnames| && fnames[q] == Name(hash, n) && fnames[p] == Name(hash, n + 1)
    ensures p == q + 1
  {
    hide Strcmp, Stem;
    OneDigit(hash, n);
    OneDigit(hash, n + 1);
    StrcmpFlip(Path(fnames[p]), Path(fnames[q]));
    NextDigit(Stem(hash), 48 + n);
    assert q < p;
    if q + 1 < p {
      var x := fnames[q + 1];
      Between(Stem(hash), 48 + n, Path(x));
      assert x in fnames;
      StemTells(hash, x);
      assert x == Name(hash, x.num);
      OneDigit(hash, x.num);
    }
  }

  lemma OneDigit(hash: Str, n: nat)
    requires n <= 9
    ensures Path(Name(hash, n)) == Stem(hash) + [48 + n]
  {
  }

  lemma {:induction false} NextDigit(stem: Str, d: nat)
    ensures Strcmp(stem + [d], stem + [d + 1]) < 0
  {
    if stem != [] {
      assert (stem + [d])[1..] == stem[1..] + [d] && (stem + [d + 1])[1..] == stem[1..] + [d + 1];
      NextDigit(stem[1..], d);
    } else {
      assert stem + [d] == [d] && stem + [d + 1] == [d + 1];
    }
  }

  // ---------- ten files ----------

  /** The files of a hash in the list are numbered without gaps. */
  ghost predicate ListGapFree(fnames: seq<Name>, hash: Str) {
    forall n: nat :: Name(hash, n) in fnames ==> n >= 1 && (n > 1 ==> Name(hash, n - 1) in fnames)
  }

  ghost predicate HashesOk(fnames: seq<Name>) {
    forall n :: n in fnames ==> DOT !in n.hash && |n.hash| >= 2
  }

  lemma {:induction false} AllBelow(fnames: seq<Name>, hash: Str, m: nat, n: nat)
    requires ListGapFree(fnames, hash) && Name(hash, m) in fnames && 1 <= n <= m
    ensures Name(hash, n) in fnames
    decreases m
  {
    if n < m { AllBelow(fnames, hash, m - 1, n); }
  }

  /** A common beginning does not matter. */
  lemma {:induction false} SameStem(stem: Str, x: Str, y: Str)
    ensures Strcmp(stem + x, stem + y) == Strcmp(x, y)
  {
    if stem == [] {
      assert stem + x == x && stem + y == y;
    } else {
      assert (stem + x)[1..] == stem[1..] + x && (stem + y)[1..] == stem[1..] + y;
      SameStem(stem[1..], x, y);
    }
  }

  /** Number 10 sorts between number 1 and number 2. */
  lemma {:induction false} TenComesEarly(hash: Str)
    ensures Strcmp(Path(Name(hash, 1)), Path(Name(hash, 10))) < 0
    ensures Strcmp(Path(Name(hash, 10)), Path(Name(hash, 2))) < 0
  {
    OneDigit(hash, 1);
    OneDigit(hash, 2);
    assert Decimal(10) == Decimal(1) + [48] == [49, 48];
    SameStem(Stem(hash), [49], [49, 48]);
    SameStem(Stem(hash), [49, 48], [50]);
  }

  /** So with a number 10 in the list, number 2 does not follow number 1. */
  lemma {:induction false} TwoIsAway(fnames: seq<Name>, hash: Str, p: nat)
    requires Sorted(fnames) && Name(hash, 10) in fnames && p + 1 < |fnames| && fnames[p] == Name(hash, 1)
    ensures fnames[p + 1] != Name(hash, 2)
  {
    hide Strcmp, Path;
    var t: nat :| t < |fnames| && fnames[t] == Name(hash, 10);
    TenComesEarly(hash);
    StrcmpFlip(Path(Name(hash, 1)), Path(Name(hash, 10)));
    StrcmpFlip(Path(Name(hash, 10)), Path(Name(hash, 2)));
  }

  /** The files of a gap-free hash are listed in turn exactly when there are at most nine. */
  lemma {:induction false} InTurnMeans(fnames: seq<Name>, hash: Str)
    requires Sorted(fnames) && HashesOk(fnames) && DOT !in hash && |hash| >= 2 && ListGapFree(fnames, hash)
    ensures InTurn(fnames, hash) <==> forall n: nat :: Name(hash, n) in fnames ==> n <= 9
  {
    hide Sorted;
    if forall n: nat :: Name(hash, n) in fnames ==> n <= 9 {
      NineInTurn(fnames, hash);
    }
    if n: nat :| Name(hash, n) in fnames && n > 9 {
      AllBelow(fnames, hash, n, 10);
      AllBelow(fnames, hash, n, 2);
      NotInTurn(fnames, hash);
    }
  }

  lemma {:induction false} NotInTurn(fnames: seq<Name>, hash: Str)
    requires Sorted(fnames) && Name(hash, 10) in fnames && Name(hash, 2) in fnames
    ensures !InTurn(fnames, hash)
  {
    hide Sorted;
    if InTurn(fnames, hash) {
      var p: nat :| 0 < p < |fnames| && fnames[p] == Name(hash, 2) && fnames[p - 1] == Name(hash, 1);
      TwoIsAway(fnames, hash, p - 1);
    }
  }

  // ---------- where files end up ----------

  /** With a number 10 in the list, no other file takes the place of number 1. */
  lemma {:induction false} NoneMovesToOne(fnames: seq<Name>, kept: set<Name>, removed: set<Name>,
                                          renames: map<Name, Name>, hash: Str)
    requires Sorted(fnames) && Plan(fnames, kept, removed, renames, |fnames|, |fnames|) && Name(hash, 10) in fnames
    ensures !Target(renames, Name(hash, 1))
  {
    hide Sorted, Plan;
    if m :| m in renames && renames[m] == Name(hash, 1) {
      var p, q := MovedAlong(fnames, kept, removed, renames, m);
      assert fnames[p + 1] == Name(fnames[p].hash, fnames[p].num + 1);
      TwoIsAway(fnames, hash, p);
    }
  }

  /** A file moves down within its run. */
  lemma MovedAlong(fnames: seq<Name>, kept: set<Name>, removed: set<Name>, renames: map<Name, Name>, n: Name)
    returns (p: nat, q: nat)
    requires Plan(fnames, kept, removed, renames, |fnames|, |fnames|) && n in renames
    ensures p < q < |fnames| && fnames[p] == renames[n] && fnames[q] == n && Run(fnames, p, q) && n in kept
    ensures renames[n] in fnames && n == Name(renames[n].hash, renames[n].num + (q - p))
  {
    assert Fits(fnames, removed, renames, n, |fnames|, |fnames|);
    p, q :| 0 <= p < q < |fnames| && fnames[p] == renames[n] && fnames[q] == n && Run(fnames, p, q);
    assert fnames[p] in fnames;
  }

  /** Of ten or more files, one that is not the first alone is kept: a gap stays below it. */
  lemma {:induction false} LoneFileLeavesGap(data0: map<Name, Content>, fnames: seq<Name>, data: map<Name, Content>,
                                             n: Name)
    requires Sorted(fnames) && (forall x :: x in fnames <==> x in data0) && GapFree(data0, n.hash)
    requires Name(n.hash, 10) in data0 && n in data0 && n.num >= 2 && CleanedTo(data0, fnames, {n}, data)
    ensures !GapFree(data, n.hash)
  {
    hide Sorted, Plan, Carried;
    var removed, renames :|
      Plan(fnames, {n}, removed, renames, |fnames|, |fnames|) && Carried(data0, data, fnames, {n}, renames, |fnames|);
    forall x ensures x in data <==> Occupied({n}, renames, x) {
      AtTheEnd(data0, fnames, {n}, removed, renames, data, x);
    }
    NoneMovesToOne(fnames, {n}, removed, renames, n.hash);
    var x := if n in renames then renames[n] else n;
    if n in renames {
      var p, q := MovedAlong(fnames, {n}, removed, renames, n);
      IsTarget(renames, n);
      assert Name(x.hash, x.num) in data0;
    }
    assert x in data && x.hash == n.hash && x.num >= 2;
    OnlyOne(fnames, removed, renames, n, Name(n.hash, x.num - 1));
  }

  lemma OnlyOne(fnames: seq<Name>, removed: set<Name>, renames: map<Name, Name>, n: Name, y: Name)
    requires Plan(fnames, {n}, removed, renames, |fnames|, |fnames|)
    ensures Occupied({n}, renames, y) ==> y == if n in renames then renames[n] else n
  {
  }

  // ---------- a clean that keeps one file ----------

  lemma {:induction false} RunStart(fnames: seq<Name>, q: nat) returns (s: nat)
    requires q < |fnames|
    ensures s <= q && Run(fnames, s, q) && (s == 0 || fnames[s] != Next(fnames[s - 1]))
    decreases q
  {
    if q > 0 && fnames[q] == Next(fnames[q - 1]) {
      s := RunStart(fnames, q - 1);
      assert fnames[q - 1] == Name(fnames[s].hash, fnames[s].num + (q - 1 - s));
    } else {
      s := q;
    }
  }

  /** Keeping one file is a clean like any other. */
  lemma {:induction false} LoneFileIsCleaned(data0: map<Name, Content>, fnames: seq<Name>, q: nat)
    returns (data: map<Name, Content>)
    requires Distinct(fnames) && (forall x :: x in fnames <==> x in data0) && q < |fnames|
    ensures CleanedTo(data0, fnames, {fnames[q]}, data)
  {
    hide Carried;
    var n := fnames[q];
    var s := RunStart(fnames, q);
    var removed := set x | x in fnames && x != n;
    var renames := if s == q then map[] else map[n := fnames[s]];
    LonePlan(fnames, q, s, removed, renames);
    assert n in fnames;
    data := map[fnames[s] := data0[n]];
    Finally(fnames, renames, n);
    LoneCarried(data0, data, fnames, n, renames, fnames[s]);
  }

  lemma LoneCarried(data0: map<Name, Content>, data: map<Name, Content>, fnames: seq<Name>, n: Name,
                    renames: map<Name, Name>, x: Name)
    requires n in data0 && data == map[x := data0[n]] && Whereabouts(fnames, renames, |fnames|, n) == x
    ensures Carried(data0, data, fnames, {n}, renames, |fnames|)
  {
    hide Whereabouts;
    assert n in {n};
  }

  lemma {:induction false} LonePlan(fnames: seq<Name>, q: nat, s: nat, removed: set<Name>, renames: map<Name, Name>)
    requires Distinct(fnames) && s <= q < |fnames| && Run(fnames, s, q) && (s == 0 || fnames[s] != Next(fnames[s - 1]))
    requires forall x :: x in removed <==> x in fnames && x != fnames[q]
    requires renames == if s == q then map[] else map[fnames[q] := fnames[s]]
    ensures Plan(fnames, {fnames[q]}, removed, renames, |fnames|, |fnames|)
  {
    var n := fnames[q];
    if s < q {
      assert fnames[s] in removed;
      assert Fits(fnames, removed, renames, n, |fnames|, |fnames|);
    }
    forall p | 0 < p < |fnames| && fnames[p] == Next(fnames[p - 1]) ensures !Occupied({n}, renames, fnames[p]) {
      LoneOccupied(fnames, q, s, renames, p);
    }
  }

  lemma LoneOccupied(fnames: seq<Name>, q: nat, s: nat, renames: map<Name, Name>, p: nat)
    requires Distinct(fnames) && s <= q < |fnames| && p < |fnames|
    requires renames == if s == q then map[] else map[fnames[q] := fnames[s]]
    ensures Occupied({fnames[q]}, renames, fnames[p]) ==> p == s
  {
  }

  // ---------- the exact condition ----------

  /** Whatever keys are needed, a clean leaves the numbering of the hash without gaps. */
  ghost predicate NeverGaps(index: map<Str, Name>, data0: map<Name, Content>, fnames: seq<Name>, hash: Str) {
    forall needed, data :: Outcome(index, data0, needed, fnames, data) ==> GapFree(data, hash)
  }

  ghost predicate AtMostNine(data: map<Name, Content>, hash: Str) {
    forall n: nat :: Name(hash, n) in data ==> n <= 9
  }

  /** No key has a file of the hash but the first. */
  ghost predicate OnlyFirstUsed(index: map<Str, Name>, data: map<Name, Content>, hash: Str) {
    forall k :: k in index && index[k] in data && index[k].hash == hash ==> index[k].num == 1
  }

  lemma {:induction false} NineNeverGaps(index: map<Str, Name>, data0: map<Name, Content>, fnames: seq<Name>, hash: Str)
    requires Sorted(fnames) && HashesOk(fnames) && (forall x :: x in fnames <==> x in data0)
    requires DOT !in hash && |hash| >= 2 && GapFree(data0, hash) && AtMostNine(data0, hash)
    ensures NeverGaps(index, data0, fnames, hash)
  {
    hide Sorted, Plan, Carried, KeptFiles, InTurn;
    NineInTurn(fnames, hash);
    forall needed, data | Outcome(index, data0, needed, fnames, data) ensures GapFree(data, hash) {
      var kept :| KeptFiles(index, data0, needed, kept) && CleanedTo(data0, fnames, kept, data);
      var removed, renames :|
        Plan(fnames, kept, removed, renames, |fnames|, |fnames|) &&
          Carried(data0, data, fnames, kept, renames, |fnames|);
      NoGaps(data0, fnames, kept, removed, renames, data, hash);
    }
  }

  lemma {:induction false} FirstNeverGaps(index: map<Str, Name>, data0: map<Name, Content>, fnames: seq<Name>,
                                          hash: Str)
    requires (forall x :: x in fnames <==> x in data0) && GapFree(data0, hash) && OnlyFirstUsed(index, data0, hash)
    ensures NeverGaps(index, data0, fnames, hash)
  {
    hide Plan, Carried;
    forall needed, data | Outcome(index, data0, needed, fnames, data) ensures GapFree(data, hash) {
      var kept :| KeptFiles(index, data0, needed, kept) && CleanedTo(data0, fnames, kept, data);
      var removed, renames :|
        Plan(fnames, kept, removed, renames, |fnames|, |fnames|) &&
          Carried(data0, data, fnames, kept, renames, |fnames|);
      forall n: nat | Name(hash, n) in data ensures n == 1 {
        AtTheEnd(data0, fnames, kept, removed, renames, data, Name(hash, n));
        StaysFirst(data0, fnames, kept, removed, renames, Name(hash, n));
      }
    }
  }

  lemma {:induction false} StaysFirst(data0: map<Name, Content>, fnames: seq<Name>, kept: set<Name>, removed: set<Name>,
                                      renames: map<Name, Name>,
                                      x: Name)
    requires Plan(fnames, kept, removed, renames, |fnames|, |fnames|) && Occupied(kept, renames, x)
    requires (forall y :: y in fnames <==> y in data0) && GapFree(data0, x.hash)
    requires forall y :: y in kept && y.hash == x.hash ==> y.num == 1
    ensures x.num == 1
  {
    hide Plan;
    if m :| m in renames && renames[m] == x {
      var p, q := MovedAlong(fnames, kept, removed, renames, m);
      assert x == Name(x.hash, x.num);
    }
  }

  /** For a gap-free hash, no choice of needed keys makes a clean leave a gap exactly when the
      hash has at most nine files, or no key has another than its first. */
  lemma {:induction false} NeverGapsMeans(index: map<Str, Name>, data0: map<Name, Content>, fnames: seq<Name>,
                                          hash: Str)
    requires Sorted(fnames) && HashesOk(fnames) && Distinct(fnames) && (forall x :: x in fnames <==> x in data0)
    requires DOT !in hash && |hash| >= 2 && GapFree(data0, hash)
    ensures NeverGaps(index, data0, fnames, hash) <==> AtMostNine(data0, hash) || OnlyFirstUsed(index, data0, hash)
  {
    hide Sorted, NeverGaps, CleanedTo;
    if AtMostNine(data0, hash) {
      NineNeverGaps(index, data0, fnames, hash);
    } else if OnlyFirstUsed(index, data0, hash) {
      FirstNeverGaps(index, data0, fnames, hash);
    } else {
      var k :| k in index && index[k] in data0 && index[k].hash == hash && index[k].num != 1;
      var m: nat :| Name(hash, m) in data0 && m > 9;
      assert ListGapFree(fnames, hash);
      AllBelow(fnames, hash, m, 10);
      assert Name(index[k].hash, index[k].num) in data0;
      GapWitness(index, data0, fnames, k);
    }
  }

  lemma {:induction false} GapWitness(index: map<Str, Name>, data0: map<Name, Content>, fnames: seq<Name>, k: Str)
    requires Sorted(fnames) && Distinct(fnames) && (forall x :: x in fnames <==> x in data0)
    requires k in index && index[k] in data0 && index[k].num >= 2 && GapFree(data0, index[k].hash)
    requires Name(index[k].hash, 10) in data0
    ensures !NeverGaps(index, data0, fnames, index[k].hash)
  {
    hide Sorted, CleanedTo, GapFree;
    var n := index[k];
    var q: nat :| q < |fnames| && fnames[q] == n;
    var data := LoneFileIsCleaned(data0, fnames, q);
    assert Stays(index, data0, {k}, k);
    assert KeptFiles(index, data0, {k}, {n});
    LoneFileLeavesGap(data0, fnames, data, n);
    assert Outcome(index, data0, {k}, fnames, data);
  }

  // ---------- ten files of which the first goes ----------

  /** Ten files of a hash, as the list has them. */
  function TenFiles(hash: Str): seq<Name> {
    [Name(hash, 1), Name(hash, 10), Name(hash, 2), Name(hash, 3), Name(hash, 4), Name(hash, 5), Name(hash, 6),
      Name(hash, 7),
     Name(hash, 8), Name(hash, 9)]
  }

  lemma {:induction false} TenFilesSorted(hash: Str)
    ensures Sorted(TenFiles(hash)) && Distinct(TenFiles(hash)) && ListGapFree(TenFiles(hash), hash)
  {
    hide Path, Stem, Strcmp;
    var f := TenFiles(hash);
    forall p, q | 0 <= p < q < |f| ensures Strcmp(Path(f[p]), Path(f[q])) < 0 {
      DigitsOf(hash, f[p].num);
      DigitsOf(hash, f[q].num);
      SameStem(Stem(hash), Digits(f[p].num), Digits(f[q].num));
      DigitsSorted(f[p].num, f[q].num);
    }
  }

  lemma DigitsSorted(m: nat, n: nat)
    requires 1 <= m <= 10 && 1 <= n <= 10 && (if m == 10 then 2 <= n < 10 else (n == 10 && m == 1) || (n < 10 && m < n))
    ensures Strcmp(Digits(m), Digits(n)) < 0
  {
  }

  function Digits(n: nat): Str
    requires n <= 10
  {
    if n == 10 then [49, 48] else [48 + n]
  }

  lemma DigitsOf(hash: Str, n: nat)
    requires n <= 10
    ensures Path(Name(hash, n)) == Stem(hash) + Digits(n)
  {
    assert Decimal(10) == Decimal(1) + [48];
  }

  /** Everything is kept but number 1: numbers 2 to 10 stay where they are. */
  lemma {:induction false} TenFilesGap(hash: Str, data0: map<Name, Content>, data: map<Name, Content>, kept: set<Name>)
    requires (forall x :: x in TenFiles(hash) <==> x in data0)
    requires (forall x :: x in kept <==> x in data0 && x != Name(hash, 1))
    requires CleanedTo(data0, TenFiles(hash), kept, data)
    ensures GapFree(data0, hash) && Name(hash, 2) in data && Name(hash, 1) !in data && !GapFree(data, hash)
  {
    hide Plan, Carried, Sorted;
    var f := TenFiles(hash);
    TenFilesSorted(hash);
    var removed, renames :| Plan(f, kept, removed, renames, |f|, |f|) && Carried(data0, data, f, kept, renames, |f|);
    assert f[1] == Name(hash, 10) && f[2] == Name(hash, 2) && f[0] == Name(hash, 1);
    assert f[1] in f && f[2] in f;
    NoneMovesToOne(f, kept, removed, renames, hash);
    AtTheEnd(data0, f, kept, removed, renames, data, Name(hash, 1));
    AtTheEnd(data0, f, kept, removed, renames, data, Name(hash, 2));
    if Name(hash, 2) in renames {
      var p, q := MovedAlong(f, kept, removed, renames, Name(hash, 2));
    }
  }
}
