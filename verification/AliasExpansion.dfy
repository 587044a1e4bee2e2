/** src/alias.c: what the aliases of a nested product stand for.

    The alias database gives an alias a list of names: other aliases, rootkeys, or the
    reserved ALL and PRODUCT. */
module AliasExpansion {
  import opened Options

  /** The product: its own rootkey, the rootkeys of its components in order, the aliases
      populated here, and the alias database. */
  datatype Nested = Nested(product: string, comps: seq<string>, here: seq<string>, db: map<string, seq<string>>)

  function LowerChar(c: char): char {
    if 'A' <= c <= 'Z' then c - 'A' + 'a' else c
  }

  /** The same up to case. */
  predicate Strieq(a: string, b: string) {
    |a| == |b| && forall i :: 0 <= i < |a| ==> LowerChar(a[i]) == LowerChar(b[i])
  }

  /** The k-th letter in either case. */
  ghost predicate Letter(c: char, k: nat) {
    k < 26 && (c as int == 65 + k || c as int == 97 + k)
  }

  /** Two characters match when they are the same or the same letter. */
  lemma LowerMeans(c: char, d: char)
    ensures LowerChar(c) == LowerChar(d) <==> c == d || exists k: nat :: Letter(c, k) && Letter(d, k)
  {
    if LowerChar(c) == LowerChar(d) && c != d {
      var k := LowerChar(c) as int - 97;
      assert Letter(c, k) && Letter(d, k);
    }
  }

  /** Two strings match when they do character by character. */
  lemma StrieqMeans(a: string, b: string)
    ensures Strieq(a, b) <==> |a| == |b| && forall i :: 0 <= i < |a| ==>
      a[i] == b[i] || exists k: nat :: Letter(a[i], k) && Letter(b[i], k)
  {
    hide Letter, LowerChar;
    forall i | 0 <= i < |a| && |a| == |b|
      ensures LowerChar(a[i]) == LowerChar(b[i]) <==>
        a[i] == b[i] || exists k: nat :: Letter(a[i], k) && Letter(b[i], k)
    {
      LowerMeans(a[i], b[i]);
    }
  }

  // ---------- the meaning ----------

  /** Which words are reserved, in any case: four, two of which no definition may use. */
  lemma ReservedWords(name: string)
    ensures Reserved(name) <==> exists w :: w in ["HERE", "THERE", "PRODUCT", "ALL"] && Strieq(w, name)
    ensures Forbidden(name) <==> exists w :: w in ["HERE", "THERE"] && Strieq(w, name)
  {
    hide Strieq;
    var words := ["HERE", "THERE", "PRODUCT", "ALL"];
    assert words[0] == "HERE" && words[1] == "THERE" && words[2] == "PRODUCT" && words[3] == "ALL";
    assert ["HERE", "THERE"][0] == "HERE" && ["HERE", "THERE"][1] == "THERE";
  }

  predicate Forbidden(name: string) {
    Strieq("HERE", name) || Strieq("THERE", name)
  }

  predicate IsProduct(name: string) {
    Strieq("PRODUCT", name)
  }

  predicate IsAll(name: string) {
    Strieq("ALL", name)
  }

  predicate Reserved(name: string) {
    Forbidden(name) || IsProduct(name) || IsAll(name)
  }

  /** A name that the database defines and that is not reserved. */
  predicate IsAlias(n: Nested, name: string) {
    !Reserved(name) && name in n.db
  }

  /** A name that can be nothing. */
  predicate Illegal(n: Nested, isKey: string -> bool, name: string) {
    Forbidden(name) || (!Reserved(name) && name !in n.db && !isKey(name))
  }

  /** Names from a to the last, each in the definition of the one before. */
  ghost predicate Path(n: Nested, a: string, p: seq<string>) {
    && |p| > 0 && p[0] == a
    && forall i :: 0 <= i < |p| - 1 ==> IsAlias(n, p[i]) && p[i + 1] in n.db[p[i]]
  }

  /** What a name that is not an alias stands for. */
  function LeafKeys(n: Nested, isKey: string -> bool, name: string): set<string> {
    if IsProduct(name) then {n.product}
    else if IsAll(name) then set c | c in n.comps
    else if !Forbidden(name) && name !in n.db && isKey(name) then {name}
    else {}
  }

  /** A rootkey some path from the alias leads to. */
  ghost predicate Denotes(n: Nested, isKey: string -> bool, a: string, key: string) {
    exists p :: Path(n, a, p) && key in LeafKeys(n, isKey, p[|p| - 1])
  }

  /** A path that expansion must not follow to its end: to an illegal name, to an alias being
      expanded, or back to itself. */
  ghost predicate Trouble(n: Nested, isKey: string -> bool, seen: set<string>, p: seq<string>)
    requires |p| > 0
  {
    var last := p[|p| - 1];
    Illegal(n, isKey, last) || (IsAlias(n, last) && (last in seen || last in p[..|p| - 1]))
  }

  ghost predicate Clean(n: Nested, isKey: string -> bool, seen: set<string>, a: string) {
    forall p :: Path(n, a, p) && |p| > 0 ==> !Trouble(n, isKey, seen, p)
  }

  ghost predicate ReachesIllegal(n: Nested, isKey: string -> bool, a: string) {
    exists p :: Path(n, a, p) && |p| > 0 && Illegal(n, isKey, p[|p| - 1])
  }

  /** Some alias on the way leads back to itself. */
  ghost predicate ReachesCycle(n: Nested, a: string) {
    exists p, q :: Path(n, a, p) && |p| > 0 && Path(n, p[|p| - 1], q) && |q| > 1 && q[|q| - 1] == q[0]
  }

  /** At the top, expansion succeeds exactly when no cycle and no illegal name is reached. */
  lemma {:induction false} CleanMeans(n: Nested, isKey: string -> bool, a: string)
    ensures Clean(n, isKey, {}, a) <==> !ReachesIllegal(n, isKey, a) && !ReachesCycle(n, a)
  {
    hide Path, Illegal, IsAlias;
    if ReachesCycle(n, a) {
      var p, q :| Path(n, a, p) && |p| > 0 && Path(n, p[|p| - 1], q) && |q| > 1 && q[|q| - 1] == q[0];
      CycleTroubles(n, isKey, a, p, q);
    }
    if p :| Path(n, a, p) && |p| > 0 && Trouble(n, isKey, {}, p) && !Illegal(n, isKey, p[|p| - 1]) {
      var m := |p| - 1;
      var i: nat :| i < m && p[..m][i] == p[m];
      PathSplit(n, a, p, i);
      assert p[i..][m - i] == p[m] && p[..i + 1][i] == p[i];
    }
  }

  lemma CycleTroubles(n: Nested, isKey: string -> bool, a: string, p: seq<string>, q: seq<string>)
    requires Path(n, a, p) && Path(n, p[|p| - 1], q) && |q| > 1 && q[|q| - 1] == q[0]
    ensures Path(n, a, p + q[1..]) && Trouble(n, isKey, {}, p + q[1..])
  {
    hide IsAlias, Illegal;
    Joined(n, a, p, q);
    var r := p + q[1..];
    assert r[..|r| - 1][|p| - 1] == q[0];
    assert IsAlias(n, q[0]);
  }

  lemma PathSplit(n: Nested, a: string, p: seq<string>, i: nat)
    requires Path(n, a, p) && i < |p|
    ensures Path(n, a, p[..i + 1]) && Path(n, p[i], p[i..])
  {
    hide Reserved;
    var q := p[i..];
    forall j | 0 <= j < |q| - 1 ensures IsAlias(n, q[j]) && q[j + 1] in n.db[q[j]] {
      assert q[j] == p[i + j] && q[j + 1] == p[i + j + 1];
    }
  }

  lemma Joined(n: Nested, a: string, p: seq<string>, q: seq<string>)
    requires Path(n, a, p) && Path(n, p[|p| - 1], q)
    ensures Path(n, a, p + q[1..])
  {
    var r := p + q[1..];
    forall i | 0 <= i < |r| - 1 ensures IsAlias(n, r[i]) && r[i + 1] in n.db[r[i]] {
      if i >= |p| - 1 {
        assert r[i] == q[i - (|p| - 1)] && r[i + 1] == q[i - (|p| - 1) + 1];
      }
    }
  }

  // ---------- one step of the meaning ----------

  /** Every longer path from an alias goes through a name of its definition. */
  lemma {:induction false} PathStep(n: Nested, a: string, p: seq<string>)
    requires Path(n, a, p) && |p| > 1
    ensures IsAlias(n, a) && p[1] in n.db[a] && Path(n, p[1], p[1..])
  {
    PathSplit(n, a, p, 1);
  }

  lemma {:induction false} PathExtend(n: Nested, a: string, c: string, p: seq<string>)
    requires IsAlias(n, a) && c in n.db[a] && Path(n, c, p)
    ensures Path(n, a, [a] + p)
  {
    Joined(n, a, [a, c], p);
    assert [a, c] + p[1..] == [a] + p;
  }

  lemma {:induction false} CleanStep(n: Nested, isKey: string -> bool, seen: set<string>, a: string)
    requires IsAlias(n, a) && a !in seen
    ensures Clean(n, isKey, seen, a) <==> forall c :: c in n.db[a] ==> Clean(n, isKey, seen + {a}, c)
  {
    if Clean(n, isKey, seen, a) {
      forall c, p | c in n.db[a] && Path(n, c, p) ensures !Trouble(n, isKey, seen + {a}, p) {
        PathExtend(n, a, c, p);
        TroubleStep(n, isKey, seen, a, p);
      }
    }
    if forall c :: c in n.db[a] ==> Clean(n, isKey, seen + {a}, c) {
      forall p | Path(n, a, p) ensures !Trouble(n, isKey, seen, p) {
        if |p| > 1 {
          PathStep(n, a, p);
          assert p == [a] + p[1..];
          assert Clean(n, isKey, seen + {a}, p[1]);
          TroubleStep(n, isKey, seen, a, p[1..]);
        }
      }
    }
  }

  lemma TroubleStep(n: Nested, isKey: string -> bool, seen: set<string>, a: string, p: seq<string>)
    requires |p| > 0
    ensures Trouble(n, isKey, seen, [a] + p) <==> Trouble(n, isKey, seen + {a}, p)
  {
    var r := [a] + p;
    assert r[..|r| - 1] == [a] + p[..|p| - 1];
  }

  lemma {:induction false} DenotesStep(n: Nested, isKey: string -> bool, a: string, key: string)
    requires IsAlias(n, a)
    ensures Denotes(n, isKey, a, key) <==> exists c :: c in n.db[a] && Denotes(n, isKey, c, key)
  {
    if Denotes(n, isKey, a, key) {
      var p :| Path(n, a, p) && key in LeafKeys(n, isKey, p[|p| - 1]);
      assert |p| > 1;
      PathStep(n, a, p);
      assert p[1..][|p| - 2] == p[|p| - 1];
      assert Denotes(n, isKey, p[1], key);
    }
    if c :| c in n.db[a] && Denotes(n, isKey, c, key) {
      var p :| Path(n, c, p) && key in LeafKeys(n, isKey, p[|p| - 1]);
      PathExtend(n, a, c, p);
      assert ([a] + p)[|p|] == p[|p| - 1];
    }
  }

  lemma {:induction false} LeafMeaning(n: Nested, isKey: string -> bool, seen: set<string>, a: string)
    requires !IsAlias(n, a)
    ensures Clean(n, isKey, seen, a) <==> !Illegal(n, isKey, a)
    ensures forall key :: Denotes(n, isKey, a, key) <==> key in LeafKeys(n, isKey, a)
  {
    assert Path(n, a, [a]);
    assert Illegal(n, isKey, a) ==> Trouble(n, isKey, seen, [a]);
    forall p | Path(n, a, p) ensures p == [a] { }
    forall key | key in LeafKeys(n, isKey, a) ensures Denotes(n, isKey, a, key) {
      assert [a][|[a]| - 1] == a;
    }
  }

  // ---------- the expansion ----------

  /** One expansion: the rootkeys found so far and the aliases being expanded. */
  class Expansion {
    const n: Nested
    const isKey: string -> bool
    var keys: set<string>
    var seen: set<string>

    constructor (n: Nested, isKey: string -> bool)
      ensures this.n == n && this.isKey == isKey && keys == {} && seen == {}
    {
      this.n, this.isKey := n, isKey;
      keys, seen := {}, {};
    }

    /** Adds what alias stands for, or fails. Whichever it is, seen is as before. */
    method Expand(alias: string) returns (ok: bool)
      requires forall a :: a in seen ==> IsAlias(n, a)
      modifies this
      ensures seen == old(seen)
      ensures ok <==> Clean(n, isKey, seen, alias)
      ensures ok ==> forall key :: key in keys <==> key in old(keys) || Denotes(n, isKey, alias, key)
      ensures forall key :: key in keys ==> key in old(keys) || Denotes(n, isKey, alias, key)
      decreases n.db.Keys - seen, 1, 0
    {
      hide Clean, Denotes, Strieq;
      if Forbidden(alias) {
        LeafMeaning(n, isKey, seen, alias);
        return false;
      }
      if IsProduct(alias) {
        LeafMeaning(n, isKey, seen, alias);
        keys := keys + {n.product};
        return true;
      }
      if IsAll(alias) {
        LeafMeaning(n, isKey, seen, alias);
        for i := 0 to |n.comps|
          invariant seen == old(seen)
          invariant forall key :: key in keys <==> key in old(keys) || key in n.comps[..i]
        {
          keys := keys + {n.comps[i]};
        }
        return true;
      }
      if alias !in n.db {
        LeafMeaning(n, isKey, seen, alias);
        ok := isKey(alias);
        if ok { keys := keys + {alias}; }
        return;
      }
      if alias in seen {
        AlreadySeen(n, isKey, seen, alias);
        return false;
      }
      CleanStep(n, isKey, seen, alias);
      seen := seen + {alias};
      ok := ExpandAll(n.db[alias]);
      seen := seen - {alias};
      assert seen == old(seen);
      forall key ensures Denotes(n, isKey, alias, key) <==> exists c :: c in n.db[alias] && Denotes(n, isKey, c, key) {
        DenotesStep(n, isKey, alias, key);
      }
    }

    /** The names of a definition one by one, up to the first that fails. */
    method ExpandAll(names: seq<string>) returns (ok: bool)
      requires forall a :: a in seen ==> IsAlias(n, a)
      modifies this
      ensures seen == old(seen)
      ensures ok <==> forall c :: c in names ==> Clean(n, isKey, seen, c)
      ensures ok ==> forall key :: key in keys <==>
        key in old(keys) || exists c :: c in names && Denotes(n, isKey, c, key)
      ensures forall key :: key in keys ==> key in old(keys) || exists c :: c in names && Denotes(n, isKey, c, key)
      decreases n.db.Keys - seen, 2, 0
    {
      hide Clean, Denotes, IsAlias;
      ok := true;
      for i := 0 to |names|
        invariant seen == old(seen)
        invariant forall c :: c in names[..i] ==> Clean(n, isKey, seen, c)
        invariant forall key :: key in keys <==>
          key in old(keys) || exists c :: c in names[..i] && Denotes(n, isKey, c, key)
      {
        ok := Expand(names[i]);
        if !ok { return; }
        assert names[..i + 1] == names[..i] + [names[i]];
      }
      assert names[..|names|] == names;
    }
  }

  lemma AlreadySeen(n: Nested, isKey: string -> bool, seen: set<string>, a: string)
    requires IsAlias(n, a) && a in seen
    ensures !Clean(n, isKey, seen, a)
  {
    assert Path(n, a, [a]) && Trouble(n, isKey, seen, [a]);
  }

  // ---------- one alias, and a list of them ----------

  /** Reserved words are given their own spelling. */
  function CaseFix(alias: string): string {
    Respell(["ALL", "PRODUCT", "COMPONENTS", "HERE", "THERE", "new", "add", "rm", "set", "list"], alias)
  }

  function Respell(words: seq<string>, alias: string): string {
    if words == [] then alias else if Strieq(words[0], alias) then words[0] else Respell(words[1..], alias)
  }

  /** Word k is the first that alias spells. */
  ghost predicate Spells(words: seq<string>, alias: string, k: nat) {
    k < |words| && Strieq(words[k], alias) && forall j :: 0 <= j < k ==> !Strieq(words[j], alias)
  }

  /** An alias that spells a word becomes that word, and any other stays. */
  lemma {:induction false} RespellMeans(words: seq<string>, alias: string)
    ensures forall k: nat :: Spells(words, alias, k) ==> Respell(words, alias) == words[k]
    ensures (forall w :: w in words ==> !Strieq(w, alias)) ==> Respell(words, alias) == alias
  {
    hide Strieq;
    if words != [] {
      RespellMeans(words[1..], alias);
      forall k: nat | Spells(words, alias, k) ensures Respell(words, alias) == words[k] {
        if k > 0 {
          forall j | 0 <= j < k - 1 ensures !Strieq(words[1..][j], alias) { assert words[1..][j] == words[j + 1]; }
          assert Spells(words[1..], alias, k - 1);
        }
      }
    }
  }

  ghost predicate Expands(n: Nested, isKey: string -> bool, alias: string) {
    Clean(n, isKey, {}, CaseFix(alias))
  }

  ghost predicate StandsFor(n: Nested, isKey: string -> bool, alias: string, i: nat)
    requires i < |n.comps|
  {
    Denotes(n, isKey, CaseFix(alias), n.comps[i])
  }

  /** The components an alias stands for, in the order of the product. */
  method ExpandOne(n: Nested, isKey: string -> bool, alias: string) returns (r: Option<seq<nat>>)
    ensures r.Some? <==> Expands(n, isKey, alias)
    ensures r.Some? ==> forall i: nat :: i in r.value <==> i < |n.comps| && StandsFor(n, isKey, alias, i)
    ensures r.Some? ==> forall i, j :: 0 <= i < j < |r.value| ==> r.value[i] < r.value[j]
  {
    hide Clean, Denotes, CaseFix;
    var e := new Expansion(n, isKey);
    var ok := e.Expand(CaseFix(alias));
    if !ok { return None; }
    var comps: seq<nat> := [];
    for i := 0 to |n.comps|
      invariant forall k: nat :: k in comps <==> k < i && StandsFor(n, isKey, alias, k)
      invariant forall k, l :: 0 <= k < l < |comps| ==> comps[k] < comps[l]
      invariant forall k :: 0 <= k < |comps| ==> comps[k] < i
    {
      if n.comps[i] in e.keys {
        comps := comps + [i];
      }
    }
    return Some(comps);
  }

  ghost predicate AnyStandsFor(n: Nested, isKey: string -> bool, aliases: seq<string>, i: nat)
    requires i < |n.comps|
  {
    exists a :: a in aliases && StandsFor(n, isKey, a, i)
  }

  /** Sets, or clears, the flag of every component that one of the aliases stands for. */
  method Flag(n: Nested, isKey: string -> bool, aliases: seq<string>, flags: seq<bool>, on: bool)
    returns (ok: bool, r: seq<bool>)
    requires |flags| == |n.comps|
    ensures ok <==> forall a :: a in aliases ==> Expands(n, isKey, a)
    ensures ok ==> |r| == |flags| && forall i :: 0 <= i < |flags| ==>
      r[i] == if AnyStandsFor(n, isKey, aliases, i) then on else flags[i]
  {
    hide Expands, StandsFor;
    r := flags;
    for j := 0 to |aliases|
      invariant |r| == |flags|
      invariant forall a :: a in aliases[..j] ==> Expands(n, isKey, a)
      invariant forall i :: 0 <= i < |flags| ==>
        r[i] == if AnyStandsFor(n, isKey, aliases[..j], i) then on else flags[i]
    {
      var comps := ExpandOne(n, isKey, aliases[j]);
      if comps.None? { return false, r; }
      ghost var before := r;
      for k := 0 to |comps.value|
        invariant |r| == |flags|
        invariant forall i :: 0 <= i < |flags| ==> r[i] == if i in comps.value[..k] then on else before[i]
      {
        assert comps.value[k] in comps.value;
        r := r[comps.value[k] := on];
      }
      assert comps.value[..|comps.value|] == comps.value;
      assert aliases[..j + 1] == aliases[..j] + [aliases[j]];
      forall i | 0 <= i < |flags|
        ensures AnyStandsFor(n, isKey, aliases[..j + 1], i) <==>
          AnyStandsFor(n, isKey, aliases[..j], i) || StandsFor(n, isKey, aliases[j], i)
      {
        OneMore(n, isKey, aliases[..j], aliases[j], i);
      }
    }
    assert aliases[..|aliases|] == aliases;
    ok := true;
  }

  lemma OneMore(n: Nested, isKey: string -> bool, aliases: seq<string>, a: string, i: nat)
    requires i < |n.comps|
    ensures AnyStandsFor(n, isKey, aliases + [a], i) <==>
      AnyStandsFor(n, isKey, aliases, i) || StandsFor(n, isKey, a, i)
  {
    hide StandsFor;
    if AnyStandsFor(n, isKey, aliases, i) {
      var b :| b in aliases && StandsFor(n, isKey, b, i);
      assert b in aliases + [a];
    }
    assert a in aliases + [a];
  }

  predicate Subtracts(a: string) {
    |a| > 0 && a[0] == '^'
  }

  /** The aliases added: those of the list without a caret, else those populated here. */
  ghost predicate Added(n: Nested, aliases: seq<string>, a: string) {
    (!Subtracts(a) && a in aliases) || ((forall b :: b in aliases ==> Subtracts(b)) && a in n.here)
  }

  ghost predicate Subtracted(aliases: seq<string>, a: string) {
    ['^'] + a in aliases
  }

  /** Flags the components in the aliases added and not in those subtracted, wherever in the
      list they are. */
  method Tag(n: Nested, isKey: string -> bool, aliases: seq<string>) returns (ok: bool, flags: seq<bool>)
    ensures ok <==> forall a :: Added(n, aliases, a) || Subtracted(aliases, a) ==> Expands(n, isKey, a)
    ensures ok ==> |flags| == |n.comps| && forall i :: 0 <= i < |n.comps| ==>
      (flags[i] <==>
        && (exists a :: Added(n, aliases, a) && StandsFor(n, isKey, a, i))
        && !exists a :: Subtracted(aliases, a) && StandsFor(n, isKey, a, i))
  {
    hide Expands, StandsFor;
    var add, sub := [], [];
    for j := 0 to |aliases|
      invariant forall a :: a in add <==> a in aliases[..j] && !Subtracts(a)
      invariant forall a :: a in sub <==> Subtracted(aliases[..j], a)
    {
      assert aliases[..j + 1] == aliases[..j] + [aliases[j]];
      if Subtracts(aliases[j]) {
        var rest := aliases[j][1..];
        assert aliases[j] == ['^'] + rest;
        forall a ensures ['^'] + a == aliases[j] <==> a == rest { assert (['^'] + a)[1..] == a; }
        sub := sub + [rest];
      } else {
        add := add + [aliases[j]];
      }
    }
    assert aliases[..|aliases|] == aliases;
    if |add| == 0 {
      add := n.here;
    } else {
      assert add[0] in add;
    }
    assert forall a :: a in add <==> Added(n, aliases, a);
    flags := seq(|n.comps|, _ => false);
    ok, flags := Flag(n, isKey, add, flags, true);
    if !ok { return; }
    ok, flags := Flag(n, isKey, sub, flags, false);
  }
}
