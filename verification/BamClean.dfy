/** src/bam.c: removing the data files no key needs, and renumbering the rest. */
module BamClean {
  import opened KeyOrder
  import opened BamLog
  import opened BamStore
  import opened Options

  // ---------- the plan ----------

  ghost predicate Distinct(fnames: seq<Name>) {
    forall p, q :: 0 <= p < q < |fnames| ==> fnames[p] != fnames[q]
  }

  /** The file after n, by number. */
  function Next(n: Name): Name {
    Name(n.hash, n.num + 1)
  }

  ghost predicate Touched(removed: set<Name>, renames: map<Name, Name>, n: Name) {
    n in removed || n in renames
  }

  ghost predicate Target(renames: map<Name, Name>, n: Name) {
    exists m :: m in renames && renames[m] == n
  }

  /** A file of this name is there at the end. */
  ghost predicate Occupied(kept: set<Name>, renames: map<Name, Name>, n: Name) {
    (n in kept && n !in renames) || Target(renames, n)
  }

  /** The files from p to q follow one another by number. */
  ghost predicate Run(fnames: seq<Name>, p: nat, q: nat)
    requires p <= q < |fnames|
  {
    forall r :: p <= r <= q ==> fnames[r] == Name(fnames[p].hash, fnames[p].num + (r - p))
  }

  /** A file takes the place of an earlier one of its run that is gone by then. */
  ghost predicate Fits(fnames: seq<Name>, removed: set<Name>, renames: map<Name, Name>, n: Name, i: nat, bound: nat)
    requires n in renames && i <= |fnames| && bound <= |fnames|
  {
    && renames[n].hash == n.hash && Touched(removed, renames, renames[n])
    && exists p, q :: 0 <= p < q < i && p < bound && fnames[p] == renames[n] && fnames[q] == n && Run(fnames, p, q)
  }

  /** What is planned for the first i files; the places taken are before bound. */
  ghost predicate Plan(fnames: seq<Name>, kept: set<Name>, removed: set<Name>, renames: map<Name, Name>, i: nat,
                       bound: nat) {
    && bound <= i <= |fnames| && Distinct(fnames)
    && (forall p :: 0 <= p < i ==> (fnames[p] in removed <==> fnames[p] !in kept))
    && (forall p :: i <= p < |fnames| ==> !Touched(removed, renames, fnames[p]))
    && (forall n :: n in removed ==> n in fnames)
    && (forall n :: n in renames ==> n in kept && Fits(fnames, removed, renames, n, i, bound))
    && (forall n, m :: n in renames && m in renames && n != m ==> renames[n] != renames[m])
    && (forall p :: 0 < p < i && fnames[p] == Next(fnames[p - 1]) && Occupied(kept, renames, fnames[p]) ==>
      Occupied(kept, renames, fnames[p - 1]))
  }

  lemma TargetBefore(fnames: seq<Name>, kept: set<Name>, removed: set<Name>, renames: map<Name, Name>, i: nat,
                     bound: nat, p: nat)
    requires Plan(fnames, kept, removed, renames, i, bound) && bound <= p < |fnames|
    ensures !Target(renames, fnames[p])
  {
  }

  lemma FitsMore(fnames: seq<Name>, removed: set<Name>, renames: map<Name, Name>, removed': set<Name>,
                 renames': map<Name, Name>, n: Name,
                 i: nat, bound: nat, i': nat, bound': nat)
    requires n in renames && n in renames' && renames'[n] == renames[n] && i <= i' <= |fnames|
    requires bound <= bound' <= |fnames|
    requires Fits(fnames, removed, renames, n, i, bound) && removed <= removed' && renames.Keys <= renames'.Keys
    ensures Fits(fnames, removed', renames', n, i', bound')
  {
  }

  /** A file that stays where it is. */
  lemma {:induction false} PlanKeep(fnames: seq<Name>, kept: set<Name>, removed: set<Name>, renames: map<Name, Name>,
                                    i: nat, bound: nat)
    requires Plan(fnames, kept, removed, renames, i, bound) && i < |fnames| && fnames[i] in kept
    requires i > 0 && fnames[i] == Next(fnames[i - 1]) ==> !Touched(removed, renames, fnames[i - 1])
    ensures Plan(fnames, kept, removed, renames, i + 1, bound)
  {
    hide Fits, Target;
    forall n | n in renames ensures Fits(fnames, removed, renames, n, i + 1, bound) {
      FitsMore(fnames, removed, renames, removed, renames, n, i, bound, i + 1, bound);
    }
  }

  /** A file that goes. */
  lemma {:induction false} PlanRemove(fnames: seq<Name>, kept: set<Name>, removed: set<Name>, renames: map<Name, Name>,
                                      i: nat, bound: nat)
    requires Plan(fnames, kept, removed, renames, i, bound) && i < |fnames| && fnames[i] !in kept
    ensures Plan(fnames, kept, removed + {fnames[i]}, renames, i + 1, bound)
  {
    hide Fits, Target;
    var removed' := removed + {fnames[i]};
    TargetBefore(fnames, kept, removed, renames, i, bound, i);
    forall n | n in renames ensures Fits(fnames, removed', renames, n, i + 1, bound) {
      FitsMore(fnames, removed, renames, removed', renames, n, i, bound, i + 1, bound);
    }
  }

  /** A file that takes the place at bound. */
  lemma {:induction false} PlanMove(fnames: seq<Name>, kept: set<Name>, removed: set<Name>, renames: map<Name, Name>,
                                    i: nat, bound: nat)
    requires Plan(fnames, kept, removed, renames, i, bound) && bound < i < |fnames| && fnames[i] in kept
    requires Run(fnames, bound, i) && Touched(removed, renames, fnames[bound])
    requires bound > 0 && fnames[bound] == Next(fnames[bound - 1]) ==> Occupied(kept, renames, fnames[bound - 1])
    ensures Plan(fnames, kept, removed, renames[fnames[i] := fnames[bound]], i + 1, bound + 1)
  {
    hide Fits, Target;
    var n, t := fnames[i], fnames[bound];
    var renames' := renames[n := t];
    TargetBefore(fnames, kept, removed, renames, i, bound, i);
    TargetBefore(fnames, kept, removed, renames, i, bound, bound);
    forall x ensures Target(renames', x) <==> Target(renames, x) || x == t { NewTarget(renames, n, t, x); }
    forall m | m in renames' ensures Fits(fnames, removed, renames', m, i + 1, bound + 1) {
      if m == n {
        FitsHere(fnames, removed, renames', i, bound);
      } else {
        FitsMore(fnames, removed, renames, removed, renames', m, i, bound, i + 1, bound + 1);
      }
    }
    forall m | m in renames ensures renames[m] != t { IsTarget(renames, m); }
  }

  lemma NewTarget(renames: map<Name, Name>, n: Name, t: Name, x: Name)
    requires n !in renames
    ensures Target(renames[n := t], x) <==> Target(renames, x) || x == t
  {
    var r := renames[n := t];
    if Target(renames, x) {
      var m :| m in renames && renames[m] == x;
      assert r[m] == x;
    }
    assert n in r && r[n] == t;
  }

  lemma IsTarget(renames: map<Name, Name>, m: Name)
    requires m in renames
    ensures Target(renames, renames[m])
  {
  }

  lemma FitsHere(fnames: seq<Name>, removed: set<Name>, renames: map<Name, Name>, i: nat, bound: nat)
    requires bound < i < |fnames| && fnames[i] in renames && renames[fnames[i]] == fnames[bound]
    requires Run(fnames, bound, i) && Touched(removed, renames, fnames[bound])
    ensures Fits(fnames, removed, renames, fnames[i], i + 1, bound + 1)
  {
  }

  /** Files in a row, from one that goes: each is gone, or moves down to the row so far. */
  ghost predicate Row(fnames: seq<Name>, kept: set<Name>, removed: set<Name>, renames: map<Name, Name>, s: nat, j: nat,
                      bound: nat) {
    && s <= bound < s + j <= |fnames|
    && (forall p :: s <= p < s + j ==> fnames[p] == Name(fnames[s].hash, fnames[s].num + (p - s)))
    && (forall p :: s <= p < s + j ==> Touched(removed, renames, fnames[p]))
    && (if bound > s then Target(renames, fnames[bound - 1])
        else s > 0 && fnames[s] == Next(fnames[s - 1]) ==> fnames[s - 1] in kept && fnames[s - 1] !in renames)
  }

  lemma {:induction false} RowRemove(fnames: seq<Name>, kept: set<Name>, removed: set<Name>, renames: map<Name, Name>,
                                     s: nat, j: nat, bound: nat)
    requires Row(fnames, kept, removed, renames, s, j, bound) && s + j < |fnames|
    requires fnames[s + j] == Name(fnames[s].hash, fnames[s].num + j)
    ensures Row(fnames, kept, removed + {fnames[s + j]}, renames, s, j + 1, bound)
  {
    hide Target;
  }

  lemma {:induction false} RowMove(fnames: seq<Name>, kept: set<Name>, removed: set<Name>, renames: map<Name, Name>,
                                   s: nat, j: nat, bound: nat)
    requires Plan(fnames, kept, removed, renames, s + j, bound) && Row(fnames, kept, removed, renames, s, j, bound)
    requires s + j < |fnames| && fnames[s + j] == Name(fnames[s].hash, fnames[s].num + j) && fnames[s + j] in kept
    ensures fnames[bound] == Name(fnames[s].hash, fnames[s].num + (bound - s))
    ensures var renames' := renames[fnames[s + j] := fnames[bound]];
            && Plan(fnames, kept, removed, renames', s + j + 1, bound + 1)
            && Row(fnames, kept, removed, renames', s, j + 1, bound + 1)
  {
    hide *;
    RowPlace(fnames, kept, removed, renames, s, j, bound);
    NotYet(fnames, kept, removed, renames, s + j, bound);
    PlanMove(fnames, kept, removed, renames, s + j, bound);
    RowLonger(fnames, kept, removed, renames, s, j, bound);
  }

  /** The place at bound is free and the next one to take. */
  lemma {:induction false} RowPlace(fnames: seq<Name>, kept: set<Name>, removed: set<Name>, renames: map<Name, Name>,
                                    s: nat, j: nat, bound: nat)
    requires Row(fnames, kept, removed, renames, s, j, bound)
    requires s + j < |fnames| && fnames[s + j] == Name(fnames[s].hash, fnames[s].num + j)
    ensures bound < s + j && Run(fnames, bound, s + j) && Touched(removed, renames, fnames[bound])
    ensures fnames[bound] == Name(fnames[s].hash, fnames[s].num + (bound - s))
    ensures bound > 0 && fnames[bound] == Next(fnames[bound - 1]) ==> Occupied(kept, renames, fnames[bound - 1])
  {
    hide Target;
  }

  lemma {:induction false} RowLonger(fnames: seq<Name>, kept: set<Name>, removed: set<Name>, renames: map<Name, Name>,
                                     s: nat, j: nat, bound: nat)
    requires Row(fnames, kept, removed, renames, s, j, bound)
    requires s + j < |fnames| && fnames[s + j] == Name(fnames[s].hash, fnames[s].num + j)
    requires !Touched(removed, renames, fnames[s + j])
    ensures Row(fnames, kept, removed, renames[fnames[s + j] := fnames[bound]], s, j + 1, bound + 1)
  {
    hide Target;
    NewTarget(renames, fnames[s + j], fnames[bound], fnames[bound]);
  }

  /** The walk over the data files, in the order in which they were listed. */
  method Walk(fnames: seq<Name>, kept: set<Name>) returns (removed: set<Name>, renames: map<Name, Name>)
    requires Distinct(fnames)
    ensures Plan(fnames, kept, removed, renames, |fnames|, |fnames|)
  {
    hide Plan, Row, Distinct;
    removed, renames := {}, map[];
    NothingPlanned(fnames, kept);
    var i := 0;
    ghost var bound := 0;
    while i < |fnames|
      invariant 0 <= bound <= i <= |fnames| && Plan(fnames, kept, removed, renames, i, bound)
      invariant 0 < i < |fnames| && fnames[i] == Next(fnames[i - 1]) ==> !Touched(removed, renames, fnames[i - 1])
    {
      if fnames[i] in kept {
        PlanKeep(fnames, kept, removed, renames, i, bound);
        NotYet(fnames, kept, removed, renames, i, bound);
        i := i + 1;
        continue;
      }
      ghost var s := i;
      StartRow(fnames, kept, removed, renames, i, bound);
      bound := i;
      removed := removed + {fnames[i]};
      var dels := 1;
      var j := 1;
      var hash, c := fnames[i].hash, fnames[i].num;
      // the files that follow by number
      while i + 1 < |fnames| && fnames[i + 1] == Name(hash, c + j)
        invariant s <= bound && 1 <= dels <= j && i == s + j - 1 < |fnames| && hash == fnames[s].hash
        invariant c == fnames[s].num
        invariant bound == s + j - dels && Plan(fnames, kept, removed, renames, s + j, bound)
        invariant Row(fnames, kept, removed, renames, s, j, bound)
        decreases |fnames| - i
      {
        if fnames[i + 1] !in kept {
          PlanRemove(fnames, kept, removed, renames, s + j, bound);
          RowRemove(fnames, kept, removed, renames, s, j, bound);
          removed := removed + {fnames[i + 1]};
          dels := dels + 1;
        } else {
          RowMove(fnames, kept, removed, renames, s, j, bound);
          renames := renames[fnames[i + 1] := Name(hash, c + j - dels)];
          bound := bound + 1;
        }
        i := i + 1;
        j := j + 1;
      }
      EndRow(fnames, kept, removed, renames, s, j, bound);
      i := i + 1;
    }
    PlanWiden(fnames, kept, removed, renames, bound);
  }

  lemma NothingPlanned(fnames: seq<Name>, kept: set<Name>)
    requires Distinct(fnames)
    ensures Plan(fnames, kept, {}, map[], 0, 0)
  {
  }

  lemma NotYet(fnames: seq<Name>, kept: set<Name>, removed: set<Name>, renames: map<Name, Name>, i: nat, bound: nat)
    requires Plan(fnames, kept, removed, renames, i, bound) && i < |fnames|
    ensures !Touched(removed, renames, fnames[i])
  {
  }

  lemma {:induction false} StartRow(fnames: seq<Name>, kept: set<Name>, removed: set<Name>, renames: map<Name, Name>,
                                    i: nat, bound: nat)
    requires Plan(fnames, kept, removed, renames, i, bound) && i < |fnames| && fnames[i] !in kept
    requires i > 0 && fnames[i] == Next(fnames[i - 1]) ==> !Touched(removed, renames, fnames[i - 1])
    ensures Plan(fnames, kept, removed + {fnames[i]}, renames, i + 1, i)
    ensures Row(fnames, kept, removed + {fnames[i]}, renames, i, 1, i)
  {
    hide Target, Fits;
    PlanRemove(fnames, kept, removed, renames, i, bound);
    forall n | n in renames ensures Fits(fnames, removed + {fnames[i]}, renames, n, i + 1, i) {
      FitsMore(fnames, removed, renames, removed + {fnames[i]}, renames, n, i, bound, i + 1, i);
    }
  }

  lemma EndRow(fnames: seq<Name>, kept: set<Name>, removed: set<Name>, renames: map<Name, Name>, s: nat, j: nat,
               bound: nat)
    requires Row(fnames, kept, removed, renames, s, j, bound)
    requires s + j < |fnames| ==> fnames[s + j] != Name(fnames[s].hash, fnames[s].num + j)
    ensures s + j < |fnames| ==> fnames[s + j] != Next(fnames[s + j - 1])
  {
    assert fnames[s + j - 1] == Name(fnames[s].hash, fnames[s].num + (j - 1));
  }

  lemma PlanWiden(fnames: seq<Name>, kept: set<Name>, removed: set<Name>, renames: map<Name, Name>, bound: nat)
    requires Plan(fnames, kept, removed, renames, |fnames|, bound)
    ensures Plan(fnames, kept, removed, renames, |fnames|, |fnames|)
  {
    hide Target, Fits;
    forall n | n in renames ensures Fits(fnames, removed, renames, n, |fnames|, |fnames|) {
      FitsMore(fnames, removed, renames, removed, renames, n, |fnames|, bound, |fnames|, |fnames|);
    }
  }

  // ---------- carrying it out ----------

  /** Where file n is when the renames of the first i files are done. */
  function Whereabouts(fnames: seq<Name>, renames: map<Name, Name>, i: nat, n: Name): Name
    requires i <= |fnames|
  {
    if n in renames && n in fnames[..i] then renames[n] else n
  }

  ghost predicate Carried(orig: map<Name, Content>, data: map<Name, Content>, fnames: seq<Name>, kept: set<Name>,
                          renames: map<Name, Name>, i: nat)
    requires i <= |fnames|
  {
    && (forall n :: n in kept ==>
      n in orig && Whereabouts(fnames, renames, i, n) in data && data[Whereabouts(fnames, renames, i, n)] == orig[n])
    && (forall x :: x in data ==> exists n :: n in kept && Whereabouts(fnames, renames, i, n) == x)
  }

  lemma {:induction false} NoClash(fnames: seq<Name>, kept: set<Name>, removed: set<Name>, renames: map<Name, Name>,
                                   i: nat, m: Name)
    requires Plan(fnames, kept, removed, renames, |fnames|, |fnames|) && i < |fnames| && fnames[i] in renames
    requires m in kept && m != fnames[i] && m in fnames
    ensures Whereabouts(fnames, renames, i, m) != fnames[i] && Whereabouts(fnames, renames, i, m) != renames[fnames[i]]
    ensures Whereabouts(fnames, renames, i + 1, m) == Whereabouts(fnames, renames, i, m)
  {
    hide Plan, Touched;
    var n := fnames[i];
    assert fnames[..i + 1] == fnames[..i] + [n];
    var a := PlaceOf(fnames, kept, removed, renames, i);
    if m in renames && m in fnames[..i] {
      var q: nat :| q < i && fnames[q] == m;
      var c := PlaceOf(fnames, kept, removed, renames, q);
      OnePlace(fnames, kept, removed, renames, c, i);
      Injective(fnames, kept, removed, renames, m, n);
    } else {
      assert fnames[..i][a] == renames[n];
    }
  }

  lemma PlaceOf(fnames: seq<Name>, kept: set<Name>, removed: set<Name>, renames: map<Name, Name>, i: nat)
    returns (a: nat)
    requires Plan(fnames, kept, removed, renames, |fnames|, |fnames|) && i < |fnames| && fnames[i] in renames
    ensures a < i && fnames[a] == renames[fnames[i]] && (renames[fnames[i]] in renames || renames[fnames[i]] !in kept)
  {
    var n := fnames[i];
    assert Fits(fnames, removed, renames, n, |fnames|, |fnames|);
    var p, q :| 0 <= p < q < |fnames| && fnames[p] == renames[n] && fnames[q] == n;
    assert q == i;
    a := p;
  }

  lemma OnePlace(fnames: seq<Name>, kept: set<Name>, removed: set<Name>, renames: map<Name, Name>, p: nat, q: nat)
    requires Plan(fnames, kept, removed, renames, |fnames|, |fnames|) && p < q < |fnames|
    ensures fnames[p] != fnames[q]
  {
  }

  lemma Injective(fnames: seq<Name>, kept: set<Name>, removed: set<Name>, renames: map<Name, Name>, n: Name, m: Name)
    requires Plan(fnames, kept, removed, renames, |fnames|, |fnames|) && n in renames && m in renames && n != m
    ensures renames[n] != renames[m]
  {
  }

  lemma {:induction false} RenameStep(orig: map<Name, Content>, data: map<Name, Content>, fnames: seq<Name>,
                                      kept: set<Name>, removed: set<Name>,
                                      renames: map<Name, Name>, i: nat)
    requires Plan(fnames, kept, removed, renames, |fnames|, |fnames|) && i < |fnames|
    requires Carried(orig, data, fnames, kept, renames, i)
    requires fnames[i] in renames && forall n :: n in kept ==> n in fnames
    ensures fnames[i] in kept && fnames[i] in data
    ensures Carried(orig, (data - {fnames[i]})[renames[fnames[i]] := data[fnames[i]]], fnames, kept, renames, i + 1)
  {
    hide Plan, Whereabouts;
    var n := fnames[i];
    InKept(fnames, kept, removed, renames, n);
    NotBefore(fnames, kept, removed, renames, i);
    var data' := (data - {n})[renames[n] := data[n]];
    forall m | m in kept && m != n
      ensures Whereabouts(fnames, renames, i, m) != n && Whereabouts(fnames, renames, i, m) != renames[n]
      ensures Whereabouts(fnames, renames, i + 1, m) == Whereabouts(fnames, renames, i, m)
    {
      NoClash(fnames, kept, removed, renames, i, m);
    }
    forall x | x in data' ensures exists m :: m in kept && Whereabouts(fnames, renames, i + 1, m) == x {
      if x == renames[n] {
        assert Whereabouts(fnames, renames, i + 1, n) == x;
      } else {
        var m :| m in kept && Whereabouts(fnames, renames, i, m) == x;
      }
    }
  }

  lemma InKept(fnames: seq<Name>, kept: set<Name>, removed: set<Name>, renames: map<Name, Name>, n: Name)
    requires Plan(fnames, kept, removed, renames, |fnames|, |fnames|) && n in renames
    ensures n in kept
  {
  }

  lemma NotBefore(fnames: seq<Name>, kept: set<Name>, removed: set<Name>, renames: map<Name, Name>, i: nat)
    requires Plan(fnames, kept, removed, renames, |fnames|, |fnames|) && i < |fnames|
    ensures Whereabouts(fnames, renames, i, fnames[i]) == fnames[i]
    ensures fnames[i] in renames ==> Whereabouts(fnames, renames, i + 1, fnames[i]) == renames[fnames[i]]
  {
    assert fnames[..i + 1] == fnames[..i] + [fnames[i]];
  }

  /** The renames, in the order of the list. */
  method RunRenames(data0: map<Name, Content>, fnames: seq<Name>, renames: map<Name, Name>,
                    ghost orig: map<Name, Content>, ghost kept: set<Name>,
                    ghost removed: set<Name>) returns (data: map<Name, Content>)
    requires Plan(fnames, kept, removed, renames, |fnames|, |fnames|) && Carried(orig, data0, fnames, kept, renames, 0)
    requires forall n :: n in kept ==> n in fnames
    ensures Carried(orig, data, fnames, kept, renames, |fnames|)
  {
    hide Plan, Carried;
    data := data0;
    for i := 0 to |fnames|
      invariant Carried(orig, data, fnames, kept, renames, i)
    {
      var n := fnames[i];
      if n in renames {
        RenameStep(orig, data, fnames, kept, removed, renames, i);
        data := (data - {n})[renames[n] := data[n]];
      } else {
        NoStep(orig, data, fnames, kept, renames, i);
      }
    }
  }

  lemma NoStep(orig: map<Name, Content>, data: map<Name, Content>, fnames: seq<Name>, kept: set<Name>,
               renames: map<Name, Name>, i: nat)
    requires i < |fnames| && Carried(orig, data, fnames, kept, renames, i) && fnames[i] !in renames
    ensures Carried(orig, data, fnames, kept, renames, i + 1)
  {
    assert fnames[..i + 1] == fnames[..i] + [fnames[i]];
    assert forall n :: Whereabouts(fnames, renames, i + 1, n) == Whereabouts(fnames, renames, i, n);
  }

  // ---------- the index ----------

  /** A key that stays: the repository needs it and its data is there. */
  predicate Stays(index: map<Str, Name>, data: map<Name, Content>, needed: set<Str>, k: Str) {
    k in index && k in needed && index[k] in data
  }

  /** Which files are needed, and which keys go. */
  method Sort(index: map<Str, Name>, data: map<Name, Content>, needed: set<Str>)
    returns (kept: set<Name>, doomed: set<Str>)
    ensures forall k :: k in doomed <==> k in index && !Stays(index, data, needed, k)
    ensures KeptFiles(index, data, needed, kept)
  {
    kept, doomed := {}, {};
    var rest := index.Keys;
    while rest != {}
      invariant rest <= index.Keys
      invariant forall k :: k in doomed <==> k in index && k !in rest && !Stays(index, data, needed, k)
      invariant forall k :: k in index && k !in rest && Stays(index, data, needed, k) ==> index[k] in kept
      invariant forall n :: n in kept ==> exists k :: Stays(index, data, needed, k) && index[k] == n
      decreases rest
    {
      var k :| k in rest;
      if k in needed && index[k] in data {
        assert Stays(index, data, needed, k);
        kept := kept + {index[k]};
      } else {
        doomed := doomed + {k};
      }
      rest := rest - {k};
    }
  }

  method DropKeys(index0: map<Str, Name>, log0: seq<Str>, crc: Str -> Str, doomed: set<Str>)
    returns (index: map<Str, Name>, log: seq<Str>)
    requires (forall b :: SPACE !in crc(b)) && Logged(index0, Replay(log0, crc))
    ensures Logged(index, Replay(log, crc)) && index == index0 - doomed
  {
    hide Logged, Replay, LogLine;
    index, log := index0, log0;
    var rest := doomed;
    while rest != {}
      invariant rest <= doomed && Logged(index, Replay(log, crc)) && index == index0 - (doomed - rest)
      decreases rest
    {
      var k :| k in rest;
      LogDelete(index, log, crc, k);
      index := index - {k};
      log := log + [LogLine(k, None, crc)];
      rest := rest - {k};
      assert index == index0 - (doomed - rest);
    }
    assert doomed - rest == doomed;
  }

  method RenameKeys(index0: map<Str, Name>, log0: seq<Str>, crc: Str -> Str, renames: map<Name, Name>)
    returns (index: map<Str, Name>, log: seq<Str>)
    requires (forall b :: SPACE !in crc(b)) && Logged(index0, Replay(log0, crc))
    requires forall n :: n in renames ==> renames[n].hash == n.hash
    ensures Logged(index, Replay(log, crc)) && index.Keys == index0.Keys
    ensures forall k :: k in index0 ==> index[k] == if index0[k] in renames then renames[index0[k]] else index0[k]
  {
    hide Logged, Replay, LogLine, Path;
    index, log := index0, log0;
    var rest := index0.Keys;
    while rest != {}
      invariant rest <= index0.Keys == index.Keys && Logged(index, Replay(log, crc))
      invariant forall k :: k in index0 ==>
        index[k] == if k !in rest && index0[k] in renames then renames[index0[k]] else index0[k]
      decreases rest
    {
      var k :| k in rest;
      if index[k] in renames {
        var n := renames[index[k]];
        SafeHash(index0, Replay(log0, crc), k);
        LogPut(index, log, crc, k, n);
        index := index[k := n];
        log := log + [LogLine(k, Some(Path(n)), crc)];
      }
      rest := rest - {k};
    }
  }

  // ---------- cleaning ----------

  /** In the list, every file but the first of a hash comes right after the one before it. */
  ghost predicate InTurn(fnames: seq<Name>, hash: Str) {
    forall n: nat :: n > 1 && Name(hash, n) in fnames ==>
      exists p :: 0 < p < |fnames| && fnames[p] == Name(hash, n) && fnames[p - 1] == Name(hash, n - 1)
  }

  /** What is left after a clean. */
  ghost predicate Cleaned(index0: map<Str, Name>, data0: map<Name, Content>, needed: set<Str>, index: map<Str, Name>,
                          data: map<Name, Content>) {
    && (forall k :: k in index <==> Stays(index0, data0, needed, k))
    && (forall k :: k in index ==> index[k] in data && data[index[k]] == data0[index0[k]])
    && (forall n :: n in data ==> exists k :: k in index && index[k] == n)
  }

  /** The files that keys keep. */
  ghost predicate KeptFiles(index: map<Str, Name>, data: map<Name, Content>, needed: set<Str>, kept: set<Name>) {
    forall n :: n in kept <==> exists k :: Stays(index, data, needed, k) && index[k] == n
  }

  /** data is what a clean makes of data0 when it keeps just the files in kept. */
  ghost predicate CleanedTo(data0: map<Name, Content>, fnames: seq<Name>, kept: set<Name>, data: map<Name, Content>) {
    exists removed, renames ::
      Plan(fnames, kept, removed, renames, |fnames|, |fnames|) && Carried(data0, data, fnames, kept, renames, |fnames|)
  }

  /** data is what a clean can make of data0. */
  ghost predicate Outcome(index: map<Str, Name>, data0: map<Name, Content>, needed: set<Str>, fnames: seq<Name>,
                          data: map<Name, Content>) {
    exists kept :: KeptFiles(index, data0, needed, kept) && CleanedTo(data0, fnames, kept, data)
  }

  /** Removes the keys the repository does not need and the files no key is left for, and
      closes the gaps in the numbering. */
  method Clean(st: Store, needed: set<Str>, fnames: seq<Name>, dryrun: bool)
    requires st.Valid() && Distinct(fnames) && forall n :: n in fnames <==> n in st.data
    modifies st
    ensures st.Valid()
    ensures dryrun ==>
      st.data == old(st.data) && st.index == old(st.index) && st.log == old(st.log) && st.bytes == old(st.bytes)
    ensures !dryrun ==> Cleaned(old(st.index), old(st.data), needed, st.index, st.data)
    ensures !dryrun ==> forall k :: k in st.bytes <==> k in old(st.bytes) && k in needed
    ensures !dryrun ==> forall k :: k in st.bytes ==> st.bytes[k] == old(st.bytes)[k]
    ensures !dryrun ==> Outcome(old(st.index), old(st.data), needed, fnames, st.data)
    ensures !dryrun ==> forall h :: old(GapFree(st.data, h)) && InTurn(fnames, h) ==> GapFree(st.data, h)
  {
    hide Logged, Replay, Plan, Carried, GapFree, InTurn, Cleaned, Outcome, KeptFiles, Keeps;
    var kept, doomed := Sort(st.index, st.data, needed);
    if dryrun { return; }
    KeptThere(st.index, st.data, needed, kept);
    ghost var index0, data0, bytes0 := st.index, st.data, st.bytes;
    st.index, st.log := DropKeys(st.index, st.log, st.crc, doomed);
    ghost var index1 := st.index;
    var removed, renames := Walk(fnames, kept);
    SameHash(fnames, kept, removed, renames);
    StartCarry(data0, fnames, kept, removed, renames, st.data - removed);
    st.index, st.log := RenameKeys(st.index, st.log, st.crc, renames);
    st.data := RunRenames(st.data - removed, fnames, renames, data0, kept, removed);
    EndClean(index0, data0, needed, index1, fnames, kept, renames, st.index, st.data);
    IsOutcome(index0, data0, needed, fnames, kept, removed, renames, st.data);
    st.bytes := map k | k in st.bytes && k in needed :: st.bytes[k];
    StillKeeps(index0, data0, needed, st.index, st.data, bytes0, st.bytes);
    forall h | GapFree(data0, h) && InTurn(fnames, h) ensures GapFree(st.data, h) {
      NoGaps(data0, fnames, kept, removed, renames, st.data, h);
    }
  }

  lemma IsOutcome(index: map<Str, Name>, data0: map<Name, Content>, needed: set<Str>, fnames: seq<Name>,
                  kept: set<Name>,
                  removed: set<Name>, renames: map<Name, Name>, data: map<Name, Content>)
    requires KeptFiles(index, data0, needed, kept)
    requires Plan(fnames, kept, removed, renames, |fnames|, |fnames|)
    requires Carried(data0, data, fnames, kept, renames, |fnames|)
    ensures Outcome(index, data0, needed, fnames, data)
  {
    hide KeptFiles, Plan, Carried;
    assert CleanedTo(data0, fnames, kept, data);
  }

  lemma KeptThere(index: map<Str, Name>, data: map<Name, Content>, needed: set<Str>, kept: set<Name>)
    requires KeptFiles(index, data, needed, kept)
    ensures forall n :: n in kept ==> n in data
  {
  }

  lemma SameHash(fnames: seq<Name>, kept: set<Name>, removed: set<Name>, renames: map<Name, Name>)
    requires Plan(fnames, kept, removed, renames, |fnames|, |fnames|)
    ensures forall n :: n in renames ==> renames[n].hash == n.hash
  {
  }

  lemma StartCarry(data0: map<Name, Content>, fnames: seq<Name>, kept: set<Name>, removed: set<Name>,
                   renames: map<Name, Name>, data: map<Name, Content>)
    requires Plan(fnames, kept, removed, renames, |fnames|, |fnames|) && data == data0 - removed
    requires (forall n :: n in kept ==> n in data0) && forall n :: n in fnames <==> n in data0
    ensures Carried(data0, data, fnames, kept, renames, 0)
  {
    forall n | n in kept ensures n !in removed {
      var p :| 0 <= p < |fnames| && fnames[p] == n;
    }
    forall x | x in data ensures x in kept && Whereabouts(fnames, renames, 0, x) == x {
      var p :| 0 <= p < |fnames| && fnames[p] == x;
    }
  }

  lemma {:induction false} EndClean(index0: map<Str, Name>, data0: map<Name, Content>, needed: set<Str>,
                                    index1: map<Str, Name>, fnames: seq<Name>,
                                    kept: set<Name>, renames: map<Name, Name>, index: map<Str, Name>,
                                    data: map<Name, Content>)
    requires Carried(data0, data, fnames, kept, renames, |fnames|) && forall n :: n in fnames <==> n in data0
    requires KeptFiles(index0, data0, needed, kept)
    requires (forall k :: k in index1 <==> Stays(index0, data0, needed, k))
    requires (forall k :: k in index1 ==> index1[k] == index0[k])
    requires index.Keys == index1.Keys
    requires forall k :: k in index1 ==> index[k] == if index1[k] in renames then renames[index1[k]] else index1[k]
    ensures Cleaned(index0, data0, needed, index, data)
  {
    hide Whereabouts;
    forall k | k in index ensures index0[k] in kept && index[k] == Whereabouts(fnames, renames, |fnames|, index0[k]) {
      assert Stays(index0, data0, needed, k);
      Finally(fnames, renames, index0[k]);
    }
    forall x | x in data ensures exists k :: k in index && index[k] == x {
      var n :| n in kept && Whereabouts(fnames, renames, |fnames|, n) == x;
      var k :| Stays(index0, data0, needed, k) && index0[k] == n;
      assert k in index;
    }
  }

  lemma StillKeeps(index0: map<Str, Name>, data0: map<Name, Content>, needed: set<Str>, index: map<Str, Name>,
                   data: map<Name, Content>,
                   bytes0: map<Str, Content>, bytes: map<Str, Content>)
    requires Cleaned(index0, data0, needed, index, data) && Keeps(index0, data0, bytes0)
    requires (forall k :: k in bytes <==> k in bytes0 && k in needed)
    requires forall k :: k in bytes ==> bytes[k] == bytes0[k]
    ensures Keeps(index, data, bytes)
  {
    forall k | k in bytes ensures k in index && index[k] in data && data[index[k]] == bytes[k] {
      assert Stays(index0, data0, needed, k);
    }
  }

  /** Gap-free numbering stays gap-free. */
  lemma {:induction false} NoGaps(data0: map<Name, Content>, fnames: seq<Name>, kept: set<Name>, removed: set<Name>,
                                  renames: map<Name, Name>,
                                  data: map<Name, Content>, hash: Str)
    requires Plan(fnames, kept, removed, renames, |fnames|, |fnames|)
    requires Carried(data0, data, fnames, kept, renames, |fnames|)
    requires (forall n :: n in fnames <==> n in data0) && GapFree(data0, hash) && InTurn(fnames, hash)
    ensures GapFree(data, hash)
  {
    hide Plan;
    forall x ensures x in data <==> Occupied(kept, renames, x) {
      AtTheEnd(data0, fnames, kept, removed, renames, data, x);
    }
    forall n: nat | Name(hash, n) in data ensures n >= 1 && (n > 1 ==> Name(hash, n - 1) in data) {
      WasThere(data0, fnames, kept, removed, renames, Name(hash, n));
      if n > 1 {
        var p :| 0 < p < |fnames| && fnames[p] == Name(hash, n) && fnames[p - 1] == Name(hash, n - 1);
        Downward(fnames, kept, removed, renames, p);
      }
    }
  }

  lemma Downward(fnames: seq<Name>, kept: set<Name>, removed: set<Name>, renames: map<Name, Name>, p: nat)
    requires Plan(fnames, kept, removed, renames, |fnames|, |fnames|) && 0 < p < |fnames|
    requires fnames[p] == Next(fnames[p - 1]) && Occupied(kept, renames, fnames[p])
    ensures Occupied(kept, renames, fnames[p - 1])
  {
  }

  lemma {:induction false} AtTheEnd(data0: map<Name, Content>, fnames: seq<Name>, kept: set<Name>, removed: set<Name>,
                                    renames: map<Name, Name>,
                                    data: map<Name, Content>, x: Name)
    requires Plan(fnames, kept, removed, renames, |fnames|, |fnames|)
    requires Carried(data0, data, fnames, kept, renames, |fnames|)
    requires forall n :: n in fnames <==> n in data0
    ensures x in data <==> Occupied(kept, renames, x)
  {
    hide Plan, Whereabouts;
    if x in data {
      var n :| n in kept && Whereabouts(fnames, renames, |fnames|, n) == x;
      Finally(fnames, renames, n);
    }
    if m :| m in renames && renames[m] == x {
      InKept(fnames, kept, removed, renames, m);
      Finally(fnames, renames, m);
    }
    if x in kept && x !in renames { Finally(fnames, renames, x); }
  }

  lemma Finally(fnames: seq<Name>, renames: map<Name, Name>, n: Name)
    requires n in fnames
    ensures Whereabouts(fnames, renames, |fnames|, n) == if n in renames then renames[n] else n
  {
    assert fnames[..|fnames|] == fnames;
  }

  lemma WasThere(data0: map<Name, Content>, fnames: seq<Name>, kept: set<Name>, removed: set<Name>,
                 renames: map<Name, Name>, x: Name)
    requires Plan(fnames, kept, removed, renames, |fnames|, |fnames|) && Occupied(kept, renames, x)
    requires forall n :: n in fnames <==> n in data0
    requires forall n :: n in kept ==> n in data0
    ensures x in data0 && x in fnames
  {
    if m :| m in renames && renames[m] == x {
      assert Fits(fnames, removed, renames, m, |fnames|, |fnames|);
    }
  }
}
