/** src/alias.c: choosing aliases that bring in the missing components.

    A greedy set cover: needed components are to be covered, and components that are neither
    needed nor here are to be avoided. */
module AliasCover {
  import opened AliasExpansion
  import opened Options

  /** What is picked: a component by its rootkey, or the alias with a given number. */
  datatype Pick = Rootkey(comp: nat) | Alias(id: nat)

  /** What the aliases stand for; None if an alias does not expand. */
  type Expansions = seq<Option<seq<nat>>>

  function Exp(exps: Expansions, j: nat): seq<nat>
    requires j < |exps|
  {
    if exps[j].Some? then exps[j].value else []
  }

  /** The components the picked aliases bring in. */
  ghost predicate Brought(exps: Expansions, ret: seq<Pick>, c: nat) {
    exists t :: 0 <= t < |ret| && Brings(exps, ret[t], c)
  }

  ghost predicate Brings(exps: Expansions, p: Pick, c: nat) {
    p.Alias? && p.id < |exps| && c in Exp(exps, p.id)
  }

  function CountIn(s: seq<nat>, m: set<nat>): nat {
    if s == [] then 0 else CountIn(s[..|s| - 1], m) + if s[|s| - 1] in m then 1 else 0
  }

  lemma {:induction false} CountBound(s: seq<nat>, a: set<nat>, b: set<nat>)
    requires a !! b
    ensures CountIn(s, a) + CountIn(s, b) <= |s|
  {
    if s != [] { CountBound(s[..|s| - 1], a, b); }
  }

  lemma {:induction false} CountPositive(s: seq<nat>, m: set<nat>)
    ensures CountIn(s, m) > 0 <==> exists c: nat :: c in s && c in m
  {
    if s != [] {
      var n := |s| - 1;
      CountPositive(s[..n], m);
      assert s == s[..n] + [s[n]];
    }
  }

  // ---------- the price ----------

  const MAX_EXTRA := 2000
  const INT_MAX := 0x7fff_ffff

  /** Fewest extra clones first, then most needed components, then the smallest alias. */
  function Price(extra: nat, covered: nat, cnt: nat): int {
    1_000_000 * (if extra > MAX_EXTRA then MAX_EXTRA else extra) - 1000 * covered + cnt
  }

  /** An extra clone costs a million up to the cap, a needed component is worth a thousand, and
      every component costs one. */
  lemma PriceSteps(extra: nat, covered: nat, cnt: nat)
    ensures Price(0, 0, 0) == 0
    ensures Price(extra + 1, covered, cnt) - Price(extra, covered, cnt) == if extra < 2000 then 1_000_000 else 0
    ensures Price(extra, covered + 1, cnt) == Price(extra, covered, cnt) - 1000
    ensures Price(extra, covered, cnt + 1) == Price(extra, covered, cnt) + 1
  {
  }

  predicate NotWorse(extra: nat, covered: nat, cnt: nat, extra': nat, covered': nat, cnt': nat) {
    || extra < extra'
    || (extra == extra' && covered > covered')
    || (extra == extra' && covered == covered' && cnt <= cnt')
  }

  /** With fewer than 1000 components, prices compare as the three counts do. */
  lemma PriceOrders(extra: nat, covered: nat, cnt: nat, extra': nat, covered': nat, cnt': nat)
    requires extra + covered <= cnt < 1000 && extra' + covered' <= cnt' < 1000
    ensures Price(extra, covered, cnt) <= Price(extra', covered', cnt') <==>
      NotWorse(extra, covered, cnt, extra', covered', cnt')
  {
    if extra < extra' {
      assert 1_000_000 * extra' >= 1_000_000 * extra + 1_000_000;
    } else if extra == extra' && covered != covered' {
      if covered > covered' {
        assert 1000 * covered >= 1000 * covered' + 1000; } else { assert 1000 * covered' >= 1000 * covered + 1000;
      }
    }
  }

  /** Alias j is at least as good a pick as alias i. */
  ghost predicate AsGood(exps: Expansions, need: set<nat>, avoid: set<nat>, j: nat, i: nat)
    requires j < |exps| && i < |exps|
  {
    NotWorse(CountIn(Exp(exps, j), avoid), CountIn(Exp(exps, j), need), |Exp(exps, j)|,
             CountIn(Exp(exps, i), avoid), CountIn(Exp(exps, i), need), |Exp(exps, i)|)
  }

  /** Alias j is at least as good a pick as every alias that still covers something, and
      better than those before it. */
  ghost predicate Best(exps: Expansions, need: set<nat>, avoid: set<nat>, j: nat)
    requires j < |exps|
  {
    forall i: nat :: i < |exps| && CountIn(Exp(exps, i), need) > 0 ==>
      AsGood(exps, need, avoid, j, i) && (i < j ==> !AsGood(exps, need, avoid, i, j))
  }

  // ---------- the working sets ----------

  /** One of the first n aliases stands for c. */
  ghost predicate InSome(exps: Expansions, n: nat, c: nat) {
    exists i: nat :: i < n && i < |exps| && c in Exp(exps, i)
  }

  lemma InNone(exps: Expansions, c: nat)
    ensures !InSome(exps, 0, c)
  {
  }

  lemma InOneMore(exps: Expansions, n: nat, c: nat)
    requires n < |exps|
    ensures InSome(exps, n + 1, c) <==> InSome(exps, n, c) || c in Exp(exps, n)
  {
  }

  /** The components still needed once ret was picked. */
  ghost predicate Needs(exps: Expansions, missing: seq<nat>, ret: seq<Pick>, need: set<nat>) {
    forall c: nat :: c in need <==> c in missing && !Brought(exps, ret, c) && Rootkey(c) !in ret
  }

  /** The components that would be extra clones once ret was picked. */
  ghost predicate Avoids(exps: Expansions, missing: seq<nat>, here: set<nat>, ret: seq<Pick>, avoid: set<nat>) {
    forall c: nat :: c in avoid <==> c !in missing && c !in here && InSome(exps, |exps|, c) && !Brought(exps, ret, c)
  }

  /** The aliases among the first n that cover c. */
  ghost predicate Coverers(exps: Expansions, list: seq<nat>, n: nat, c: nat) {
    forall i: nat :: i in list <==> i < n && i < |exps| && c in Exp(exps, i)
  }

  /** Each needed component with the aliases that cover it, an alias twice only if it names
      the component twice. */
  ghost predicate Covering(exps: Expansions, need: map<nat, seq<nat>>, n: nat) {
    && (forall c: nat :: c in need ==> Coverers(exps, need[c], n, c))
    && forall c: nat, a: nat, b: nat :: c in need && a < b < |need[c]| && need[c][a] == need[c][b] ==>
      need[c][a] < |exps| && Twice(Exp(exps, need[c][a]), c)
  }

  ghost predicate Twice(s: seq<nat>, c: nat) {
    multiset(s)[c] > 1
  }

  method AddNeeds(missing: seq<nat>) returns (need: map<nat, seq<nat>>)
    ensures forall c: nat :: c in need <==> c in missing
    ensures forall c: nat :: c in need ==> need[c] == []
  {
    need := map[];
    for i := 0 to |missing|
      invariant forall c: nat :: c in need <==> c in missing[..i]
      invariant forall c: nat :: c in need ==> need[c] == []
    {
      need := need[missing[i] := []];
    }
  }

  /** i as often as exp names c. */
  function Notes(exp: seq<nat>, i: nat, c: nat): seq<nat> {
    seq(multiset(exp)[c], _ => i)
  }

  lemma NotesMore(exp: seq<nat>, i: nat, c: nat, x: nat)
    ensures Notes(exp + [x], i, c) == Notes(exp, i, c) + if x == c then [i] else []
  {
  }

  /** Notes alias i as covering its needed components, and the others it would bring. */
  method Consider(exp: seq<nat>, i: nat, need: map<nat, seq<nat>>, avoid: set<nat>, here: set<nat>)
    returns (need': map<nat, seq<nat>>, avoid': set<nat>, cnt: nat)
    ensures need'.Keys == need.Keys
    ensures forall c: nat :: c in need ==> need'[c] == need[c] + Notes(exp, i, c)
    ensures forall c: nat :: c in avoid' <==> c in avoid || (c in exp && c !in need && c !in here)
    ensures cnt > 0 <==> exists c: nat :: c in exp && c in need
  {
    hide Notes;
    need', avoid', cnt := need, avoid, 0;
    forall c: nat | c in need ensures need[c] == need[c] + Notes([], i, c) { NoNotes(i, c); }
    assert exp[..0] == [];
    for j := 0 to |exp|
      invariant need'.Keys == need.Keys
      invariant forall c: nat :: c in need ==> need'[c] == need[c] + Notes(exp[..j], i, c)
      invariant forall c: nat :: c in avoid' <==> c in avoid || (c in exp[..j] && c !in need && c !in here)
      invariant cnt > 0 <==> exists c: nat :: c in exp[..j] && c in need
    {
      var c := exp[j];
      assert exp[..j + 1] == exp[..j] + [c];
      forall x: nat | x in need
        ensures Notes(exp[..j + 1], i, x) == Notes(exp[..j], i, x) + if c == x then [i] else []
      {
        NotesMore(exp[..j], i, x, c);
      }
      if c !in need' {
        if c !in here { avoid' := avoid' + {c}; }
      } else {
        cnt := cnt + 1;
        need' := need'[c := need'[c] + [i]];
      }
    }
    assert exp[..|exp|] == exp;
  }

  lemma NoNotes(i: nat, c: nat)
    ensures Notes([], i, c) == []
  {
  }

  ghost predicate Rising(s: seq<nat>) {
    forall a, b :: 0 <= a < b < |s| ==> s[a] < s[b]
  }

  lemma {:induction false} CoveringMore(exps: Expansions, need: map<nat, seq<nat>>, need': map<nat, seq<nat>>, i: nat)
    requires i < |exps| && Covering(exps, need, i) && need'.Keys == need.Keys
    requires forall c: nat :: c in need ==> need'[c] == need[c] + Notes(Exp(exps, i), i, c)
    ensures Covering(exps, need', i + 1)
  {
    hide Exp;
    forall c: nat | c in need ensures Coverers(exps, need'[c], i + 1, c) {
      assert Coverers(exps, need[c], i, c);
      NotesMean(Exp(exps, i), i, c);
    }
    forall c: nat, a: nat, b: nat | c in need' && a < b < |need'[c]| && need'[c][a] == need'[c][b]
      ensures need'[c][a] < |exps| && Twice(Exp(exps, need'[c][a]), c)
    {
      var was := need[c];
      assert Coverers(exps, was, i, c);
      forall k: nat | k < |was| ensures was[k] < i { assert was[k] in was; }
    }
  }

  lemma NotesMean(exp: seq<nat>, i: nat, c: nat)
    ensures forall k: nat :: k in Notes(exp, i, c) <==> k == i && c in exp
  {
    var notes := Notes(exp, i, c);
    if c in exp {
      assert c in multiset(exp);
      assert notes[0] == i;
    }
  }

  lemma RisingMore(s: seq<nat>, i: nat)
    requires Rising(s) && forall k :: k in s ==> k < i
    ensures Rising(s + [i])
  {
    forall a | 0 <= a < |s| ensures s[a] < i { assert s[a] in s; }
  }

  method Build(missing: seq<nat>, exps: Expansions, here: set<nat>)
    returns (need: map<nat, seq<nat>>, avoid: set<nat>, candidates: seq<nat>)
    ensures Covering(exps, need, |exps|) && Needs(exps, missing, [], need.Keys)
    ensures Avoids(exps, missing, here, [], avoid)
    ensures forall i: nat :: i in candidates <==> i < |exps| && exists c: nat :: c in Exp(exps, i) && c in need
    ensures Rising(candidates)
  {
    hide InSome;
    need := AddNeeds(missing);
    forall c: nat ensures !InSome(exps, 0, c) { InNone(exps, c); }
    avoid, candidates := {}, [];
    for i := 0 to |exps|
      invariant Covering(exps, need, i) && forall c: nat :: c in need <==> c in missing
      invariant forall c: nat :: c in avoid <==> c !in missing && c !in here && InSome(exps, i, c)
      invariant forall k: nat :: k in candidates <==> k < i && exists c: nat :: c in Exp(exps, k) && c in need
      invariant Rising(candidates)
    {
      forall c: nat ensures InSome(exps, i + 1, c) <==> InSome(exps, i, c) || c in Exp(exps, i) {
        InOneMore(exps, i, c);
      }
      // an alias that does not expand cannot be used
      if exps[i].None? { continue; }
      var cnt;
      ghost var need0 := need;
      need, avoid, cnt := Consider(exps[i].value, i, need, avoid, here);
      CoveringMore(exps, need0, need, i);
      if cnt > 0 {
        RisingMore(candidates, i);
        candidates := candidates + [i];
      }
    }
  }

  /** The components of a picked alias are neither needed nor to be avoided any more. */
  method Settle(need: map<nat, seq<nat>>, avoid: set<nat>, exp: seq<nat>)
    returns (need': map<nat, seq<nat>>, avoid': set<nat>)
    ensures forall c: nat :: c in need' <==> c in need && c !in exp
    ensures forall c: nat :: c in need' ==> need'[c] == need[c]
    ensures forall c: nat :: c in avoid' <==> c in avoid && c !in exp
  {
    need', avoid' := need, avoid;
    for j := 0 to |exp|
      invariant forall c: nat :: c in need' <==> c in need && c !in exp[..j]
      invariant forall c: nat :: c in need' ==> need'[c] == need[c]
      invariant forall c: nat :: c in avoid' <==> c in avoid && c !in exp[..j]
    {
      assert exp[..j + 1] == exp[..j] + [exp[j]];
      need' := need' - {exp[j]};
      avoid' := avoid' - {exp[j]};
    }
    assert exp[..|exp|] == exp;
  }

  // ---------- the aliases that have to be picked ----------

  /** Every alias that covers a needed component is a candidate with its expansion. */
  ghost predicate Live(exps: Expansions, exp: seq<seq<nat>>, need: set<nat>, candidates: seq<nat>) {
    && |exp| == |exps| && (forall i :: 0 <= i < |exps| ==> exp[i] == Exp(exps, i) || exp[i] == [])
    && (forall i: nat :: i in candidates ==> i < |exps|)
    && forall i: nat, c: nat :: i < |exps| && c in Exp(exps, i) && c in need ==>
      i in candidates && exp[i] == Exp(exps, i)
  }

  ghost predicate StillNeeded(exps: Expansions, missing: seq<nat>, ret: seq<Pick>, c: nat) {
    c in missing && !Brought(exps, ret, c) && Rootkey(c) !in ret
  }

  /** c is covered by alias j and no other. */
  ghost predicate OnlyCoverer(exps: Expansions, j: nat, c: nat) {
    j < |exps| && c in Exp(exps, j) && forall i: nat :: i < |exps| && c in Exp(exps, i) ==> i == j
  }

  /** Pick t left no choice: a component that was still needed then and that no alias covers,
      or the only alias that covers one. */
  ghost predicate ForcedPick(exps: Expansions, missing: seq<nat>, ret: seq<Pick>, t: nat)
    requires t < |ret|
  {
    match ret[t]
    case Rootkey(c) => StillNeeded(exps, missing, ret[..t], c) && !InSome(exps, |exps|, c)
    case Alias(j) => exists c: nat :: StillNeeded(exps, missing, ret[..t], c) && OnlyCoverer(exps, j, c)
  }

  /** Whatever is still needed leaves a choice: two aliases cover it, or one names it twice. */
  ghost predicate ChoiceLeft(exps: Expansions, missing: seq<nat>, ret: seq<Pick>) {
    forall c: nat :: StillNeeded(exps, missing, ret, c) ==> HasChoice(exps, c)
  }

  ghost predicate HasChoice(exps: Expansions, c: nat) {
    exists i: nat, j: nat :: i < |exps| && j < |exps| && c in Exp(exps, i) && c in Exp(exps, j) &&
      (i != j || Twice(Exp(exps, i), c))
  }

  lemma ForcedStays(exps: Expansions, missing: seq<nat>, ret: seq<Pick>, p: Pick, t: nat)
    requires t < |ret| && ForcedPick(exps, missing, ret, t)
    ensures ForcedPick(exps, missing, ret + [p], t)
  {
    hide StillNeeded, OnlyCoverer, InSome;
    assert (ret + [p])[..t] == ret[..t];
  }

  lemma ForcedNow(exps: Expansions, missing: seq<nat>, here: set<nat>, ret: seq<Pick>, need: set<nat>, avoid: set<nat>,
                  p: Pick, c: nat)
    requires Progress(exps, missing, here, ret, need, avoid) && c in need
    requires match p case Rootkey(x) => x == c && !InSome(exps, |exps|, c) case Alias(j) => OnlyCoverer(exps, j, c)
    ensures ForcedPick(exps, missing, ret + [p], |ret|)
  {
    hide Brought, InSome, OnlyCoverer;
    assert (ret + [p])[..|ret|] == ret;
    assert StillNeeded(exps, missing, ret, c);
  }

  lemma {:induction false} ChoiceIs(exps: Expansions, need: map<nat, seq<nat>>, c: nat)
    requires Covering(exps, need, |exps|) && c in need
    ensures |need[c]| == 1 ==> OnlyCoverer(exps, need[c][0], c)
    ensures |need[c]| >= 2 ==> HasChoice(exps, c)
  {
    hide Exp, Twice;
    assert Coverers(exps, need[c], |exps|, c);
    if |need[c]| >= 1 { assert need[c][0] in need[c]; }
    if |need[c]| >= 2 { assert need[c][1] in need[c]; }
  }

  /** Every missing component is needed still, or covered, and rootkeys are picked only for
      components no alias covers. */
  ghost predicate Progress(exps: Expansions, missing: seq<nat>, here: set<nat>, ret: seq<Pick>, need: set<nat>,
                           avoid: set<nat>) {
    && Needs(exps, missing, ret, need) && Avoids(exps, missing, here, ret, avoid)
    && forall c: nat :: Rootkey(c) in ret ==> c in missing && !InSome(exps, |exps|, c)
  }

  lemma BroughtMore(exps: Expansions, ret: seq<Pick>, p: Pick, c: nat)
    ensures Brought(exps, ret + [p], c) <==> Brought(exps, ret, c) || Brings(exps, p, c)
  {
    if Brought(exps, ret, c) {
      var t :| 0 <= t < |ret| && Brings(exps, ret[t], c);
      assert (ret + [p])[t] == ret[t];
    }
    if Brings(exps, p, c) { assert (ret + [p])[|ret|] == p; }
  }

  lemma {:induction false} PickAlias(exps: Expansions, missing: seq<nat>, here: set<nat>, ret: seq<Pick>,
                                     need: set<nat>, avoid: set<nat>, j: nat,
                                     need': set<nat>, avoid': set<nat>)
    requires Progress(exps, missing, here, ret, need, avoid) && j < |exps|
    requires (forall c: nat :: c in need' <==> c in need && c !in Exp(exps, j))
    requires forall c: nat :: c in avoid' <==> c in avoid && c !in Exp(exps, j)
    ensures Progress(exps, missing, here, ret + [Alias(j)], need', avoid')
  {
    hide Brought, Exp, InSome;
    forall c: nat ensures Brought(exps, ret + [Alias(j)], c) <==> Brought(exps, ret, c) || c in Exp(exps, j) {
      BroughtMore(exps, ret, Alias(j), c);
    }
  }

  lemma {:induction false} PickRootkey(exps: Expansions, missing: seq<nat>, here: set<nat>, ret: seq<Pick>,
                                       need: set<nat>, avoid: set<nat>, c: nat)
    requires Progress(exps, missing, here, ret, need, avoid) && c in need && !InSome(exps, |exps|, c)
    ensures Progress(exps, missing, here, ret + [Rootkey(c)], need - {c}, avoid)
  {
    hide Brought, InSome;
    forall x: nat ensures Brought(exps, ret + [Rootkey(c)], x) <==> Brought(exps, ret, x) {
      BroughtMore(exps, ret, Rootkey(c), x);
    }
  }

  /** Components that no alias, or one alias, covers leave no choice. */
  method Prune(missing: seq<nat>, exps: Expansions, here: set<nat>, need0: map<nat, seq<nat>>, avoid0: set<nat>,
               candidates: seq<nat>, exp0: seq<seq<nat>>)
    returns (ret: seq<Pick>, need: map<nat, seq<nat>>, avoid: set<nat>, exp: seq<seq<nat>>)
    requires Covering(exps, need0, |exps|) && Progress(exps, missing, here, [], need0.Keys, avoid0)
    requires Live(exps, exp0, need0.Keys, candidates)
    ensures Progress(exps, missing, here, ret, need.Keys, avoid) && Live(exps, exp, need.Keys, candidates)
    ensures forall c: nat :: c in need ==> c in missing && InSome(exps, |exps|, c)
    ensures (forall t: nat :: t < |ret| ==> ForcedPick(exps, missing, ret, t)) && ChoiceLeft(exps, missing, ret)
  {
    hide Progress, InSome, Exp, ForcedPick, HasChoice, OnlyCoverer;
    ret, need, avoid, exp := [], need0, avoid0, exp0;
    for i := 0 to |missing|
      invariant Covering(exps, need, |exps|) && Progress(exps, missing, here, ret, need.Keys, avoid)
      invariant Live(exps, exp, need.Keys, candidates)
      invariant forall c: nat :: c in missing[..i] && c in need ==> InSome(exps, |exps|, c) && HasChoice(exps, c)
      invariant forall t: nat :: t < |ret| ==> ForcedPick(exps, missing, ret, t)
    {
      var c := missing[i];
      if c !in need { continue; }
      CoveredBy(exps, need, c);
      ChoiceIs(exps, need, c);
      if |need[c]| == 0 {
        AddForced(exps, missing, here, ret, need.Keys, avoid, Rootkey(c), c);
        PickRootkey(exps, missing, here, ret, need.Keys, avoid, c);
        ret := ret + [Rootkey(c)];
        need := need - {c};
      } else if |need[c]| == 1 {
        var j := need[c][0];
        assert j in need[c];
        AddForced(exps, missing, here, ret, need.Keys, avoid, Alias(j), c);
        ret := ret + [Alias(j)];
        ghost var need1, avoid1 := need.Keys, avoid;
        need, avoid := Settle(need, avoid, exp[j]);
        PickAlias(exps, missing, here, ret[..|ret| - 1], need1, avoid1, j, need.Keys, avoid);
        exp := exp[j := []];
      }
    }
    NeedsMissing(exps, missing, here, ret, need.Keys, avoid);
    AllChoice(exps, missing, here, ret, need.Keys, avoid);
  }

  lemma AddForced(exps: Expansions, missing: seq<nat>, here: set<nat>, ret: seq<Pick>, need: set<nat>, avoid: set<nat>,
                  p: Pick, c: nat)
    requires Progress(exps, missing, here, ret, need, avoid) && c in need
    requires match p case Rootkey(x) => x == c && !InSome(exps, |exps|, c) case Alias(j) => OnlyCoverer(exps, j, c)
    requires forall t: nat :: t < |ret| ==> ForcedPick(exps, missing, ret, t)
    ensures forall t: nat :: t < |ret + [p]| ==> ForcedPick(exps, missing, ret + [p], t)
  {
    hide ForcedPick, Progress, InSome, OnlyCoverer;
    forall t: nat | t < |ret| ensures ForcedPick(exps, missing, ret + [p], t) { ForcedStays(exps, missing, ret, p, t); }
    ForcedNow(exps, missing, here, ret, need, avoid, p, c);
  }

  lemma AllChoice(exps: Expansions, missing: seq<nat>, here: set<nat>, ret: seq<Pick>, need: set<nat>, avoid: set<nat>)
    requires Progress(exps, missing, here, ret, need, avoid) && forall c: nat :: c in need ==> HasChoice(exps, c)
    ensures ChoiceLeft(exps, missing, ret)
  {
    hide Brought, HasChoice;
  }

  lemma CoveredBy(exps: Expansions, need: map<nat, seq<nat>>, c: nat)
    requires Covering(exps, need, |exps|) && c in need
    ensures InSome(exps, |exps|, c) <==> need[c] != []
    ensures forall i: nat :: i in need[c] ==> i < |exps| && c in Exp(exps, i)
  {
    assert Coverers(exps, need[c], |exps|, c);
    if need[c] != [] { assert need[c][0] in need[c]; }
  }

  lemma NeedsMissing(exps: Expansions, missing: seq<nat>, here: set<nat>, ret: seq<Pick>, need: set<nat>,
                     avoid: set<nat>)
    requires Progress(exps, missing, here, ret, need, avoid)
    ensures forall c: nat :: c in need ==> c in missing
  {
  }

  // ---------- the greedy picks ----------

  method Count(exp: seq<nat>, need: map<nat, seq<nat>>, avoid: set<nat>) returns (cnt: nat, covered: nat, extra: nat)
    requires need.Keys !! avoid
    ensures cnt == |exp| && covered == CountIn(exp, need.Keys) && extra == CountIn(exp, avoid)
  {
    cnt, covered, extra := 0, 0, 0;
    for j := 0 to |exp|
      invariant cnt == j && covered == CountIn(exp[..j], need.Keys) && extra == CountIn(exp[..j], avoid)
    {
      assert exp[..j + 1][..j] == exp[..j];
      cnt := cnt + 1;
      if exp[j] in need { covered := covered + 1; }
      else if exp[j] in avoid { extra := extra + 1; }
    }
    assert exp[..|exp|] == exp;
  }

  /** The price of an alias, as an int holds it. */
  function PriceOf(exp: seq<nat>, need: set<nat>, avoid: set<nat>): int {
    Price(CountIn(exp, avoid), CountIn(exp, need), |exp|)
  }

  lemma PriceFits(exp: seq<nat>, need: set<nat>, avoid: set<nat>)
    requires need !! avoid && |exp| <= 2_000_000 && CountIn(exp, need) > 0
    ensures -INT_MAX <= PriceOf(exp, need, avoid) < INT_MAX
  {
    CountBound(exp, need, avoid);
  }

  /** The first i candidates all cover something, and chosen is the first of the cheapest. */
  ghost predicate CheapestOf(exp: seq<seq<nat>>, need: set<nat>, avoid: set<nat>, cs: seq<nat>, i: nat, chosen: int,
                             minprice: int)
    requires i <= |cs| && forall k :: 0 <= k < |cs| ==> cs[k] < |exp|
  {
    && (forall k :: 0 <= k < i ==> CountIn(exp[cs[k]], need) > 0 && minprice <= PriceOf(exp[cs[k]], need, avoid))
    && (forall k :: 0 <= k < i && k < chosen ==> minprice < PriceOf(exp[cs[k]], need, avoid))
    && if i == 0 then chosen == -1 && minprice == INT_MAX
       else 0 <= chosen < i && minprice == PriceOf(exp[cs[chosen]], need, avoid)
  }

  /** The cheapest candidate, the first if there are several; candidates that cover nothing
      needed are dropped on the way. */
  method PickBest(exp: seq<seq<nat>>, need: map<nat, seq<nat>>, avoid: set<nat>, candidates0: seq<nat>)
    returns (candidates: seq<nat>, chosen: int)
    requires need.Keys !! avoid && forall i: nat :: i in candidates0 ==> i < |exp| && |exp[i]| <= 2_000_000
    requires Rising(candidates0)
    ensures Rising(candidates)
    ensures forall i: nat :: i in candidates <==> i in candidates0 && i < |exp| && CountIn(exp[i], need.Keys) > 0
    ensures candidates != [] ==> 0 <= chosen < |candidates| && candidates[chosen] < |exp|
    ensures candidates != [] ==> forall i: nat :: i in candidates ==>
      PriceOf(exp[candidates[chosen]], need.Keys, avoid) <= PriceOf(exp[i], need.Keys, avoid)
    ensures candidates != [] ==> forall i: nat :: i in candidates && i < candidates[chosen] ==>
      PriceOf(exp[candidates[chosen]], need.Keys, avoid) < PriceOf(exp[i], need.Keys, avoid)
  {
    hide CountIn, PriceOf, CheapestOf, Rising;
    var minprice := INT_MAX;
    candidates, chosen := candidates0, -1;
    assert forall k :: 0 <= k < |candidates| ==> candidates[k] in candidates0;
    var i := 0;
    StartCheapest(exp, need.Keys, avoid, candidates);
    while i < |candidates|
      invariant 0 <= i <= |candidates| && Rising(candidates)
      invariant forall k :: 0 <= k < |candidates| ==> candidates[k] in candidates0
      invariant forall k: nat :: k in candidates0 && k !in candidates ==> CountIn(exp[k], need.Keys) == 0
      invariant CheapestOf(exp, need.Keys, avoid, candidates, i, chosen, minprice)
      decreases |candidates| - i
    {
      var id := candidates[i];
      var cnt, covered, extra := Count(exp[id], need, avoid);
      if covered == 0 {
        ghost var before := candidates;
        Dropped(candidates, i);
        candidates := candidates[..i] + candidates[i + 1..];
        forall k | 0 <= k < |candidates| ensures candidates[k] in candidates0 { assert candidates[k] in candidates; }
        SameFront(exp, need.Keys, avoid, before, candidates, i, chosen, minprice);
        continue;
      }
      PriceFits(exp[id], need.Keys, avoid);
      var price := Price(extra, covered, cnt);
      PriceIs(exp[id], need.Keys, avoid);
      NextCheapest(exp, need.Keys, avoid, candidates, i, chosen, minprice);
      if price < minprice {
        minprice, chosen := price, i;
      }
      i := i + 1;
    }
    CheapestMeans(exp, need.Keys, avoid, candidates, chosen, minprice);
    forall i: nat ensures i in candidates <==> i in candidates0 && i < |exp| && CountIn(exp[i], need.Keys) > 0 {
      if i in candidates { var k :| 0 <= k < |candidates| && candidates[k] == i; }
    }
  }

  lemma StartCheapest(exp: seq<seq<nat>>, need: set<nat>, avoid: set<nat>, cs: seq<nat>)
    requires forall k :: 0 <= k < |cs| ==> cs[k] < |exp|
    ensures CheapestOf(exp, need, avoid, cs, 0, -1, INT_MAX)
  {
  }

  lemma SameFront(exp: seq<seq<nat>>, need: set<nat>, avoid: set<nat>, cs: seq<nat>, cs': seq<nat>, i: nat,
                  chosen: int, minprice: int)
    requires i <= |cs| && i <= |cs'| && cs'[..i] == cs[..i]
    requires (forall k :: 0 <= k < |cs| ==> cs[k] < |exp|) && (forall k :: 0 <= k < |cs'| ==> cs'[k] < |exp|)
    requires CheapestOf(exp, need, avoid, cs, i, chosen, minprice)
    ensures CheapestOf(exp, need, avoid, cs', i, chosen, minprice)
  {
    hide CountIn, PriceOf;
    forall k | 0 <= k < i ensures cs'[k] == cs[k] { assert cs'[..i][k] == cs[..i][k]; }
  }

  lemma NextCheapest(exp: seq<seq<nat>>, need: set<nat>, avoid: set<nat>, cs: seq<nat>, i: nat, chosen: int,
                     minprice: int)
    requires i < |cs| && (forall k :: 0 <= k < |cs| ==> cs[k] < |exp|)
    requires CheapestOf(exp, need, avoid, cs, i, chosen, minprice) && CountIn(exp[cs[i]], need) > 0
    requires PriceOf(exp[cs[i]], need, avoid) < INT_MAX
    ensures var price := PriceOf(exp[cs[i]], need, avoid);
            if price < minprice then CheapestOf(exp, need, avoid, cs, i + 1, i, price)
            else CheapestOf(exp, need, avoid, cs, i + 1, chosen, minprice)
  {
    hide CountIn, PriceOf;
  }

  lemma {:induction false} CheapestMeans(exp: seq<seq<nat>>, need: set<nat>, avoid: set<nat>, cs: seq<nat>, chosen: int,
                                         minprice: int)
    requires (forall k :: 0 <= k < |cs| ==> cs[k] < |exp|) && Rising(cs)
    requires CheapestOf(exp, need, avoid, cs, |cs|, chosen, minprice)
    ensures forall k :: 0 <= k < |cs| ==> CountIn(exp[cs[k]], need) > 0
    ensures cs != [] ==> 0 <= chosen < |cs| && forall i: nat :: i in cs ==>
      PriceOf(exp[cs[chosen]], need, avoid) <= PriceOf(exp[i], need, avoid)
    ensures cs != [] ==> forall i: nat :: i in cs && i < cs[chosen] ==>
      PriceOf(exp[cs[chosen]], need, avoid) < PriceOf(exp[i], need, avoid)
  {
    hide CountIn, PriceOf;
    if cs != [] {
      forall i: nat | i in cs
        ensures minprice <= PriceOf(exp[i], need, avoid)
        ensures i < cs[chosen] ==> minprice < PriceOf(exp[i], need, avoid)
      {
        var k :| 0 <= k < |cs| && cs[k] == i;
      }
    }
  }

  lemma Dropped(s: seq<nat>, i: nat)
    requires i < |s|
    ensures forall k: nat :: k in s[..i] + s[i + 1..] ==> k in s
    ensures forall k: nat :: k in s ==> k == s[i] || k in s[..i] + s[i + 1..]
    ensures (s[..i] + s[i + 1..])[..i] == s[..i]
    ensures Rising(s) ==> Rising(s[..i] + s[i + 1..])
  {
    assert s == s[..i] + [s[i]] + s[i + 1..];
  }

  lemma PriceIs(exp: seq<nat>, need: set<nat>, avoid: set<nat>)
    ensures PriceOf(exp, need, avoid) == Price(CountIn(exp, avoid), CountIn(exp, need), |exp|)
  {
  }

  ghost predicate Small(exps: Expansions) {
    forall i: nat :: i < |exps| ==> |Exp(exps, i)| < 1000
  }

  /** Alias j is the first of the cheapest that still cover something. */
  ghost predicate Cheapest(exps: Expansions, need: set<nat>, avoid: set<nat>, j: nat)
    requires j < |exps|
  {
    forall i: nat :: i < |exps| && CountIn(Exp(exps, i), need) > 0 ==>
      && PriceOf(Exp(exps, j), need, avoid) <= PriceOf(Exp(exps, i), need, avoid)
      && (i < j ==> PriceOf(Exp(exps, j), need, avoid) < PriceOf(Exp(exps, i), need, avoid))
  }

  /** Pick t was the first of the cheapest aliases that covered something needed then, and with
      fewer than 1000 components no alias was better. */
  ghost predicate GoodPick(exps: Expansions, missing: seq<nat>, here: set<nat>, ret: seq<Pick>, t: nat)
    requires t < |ret|
  {
    && ret[t].Alias? && ret[t].id < |exps|
    && forall need: set<nat>, avoid: set<nat> ::
      Needs(exps, missing, ret[..t], need) && Avoids(exps, missing, here, ret[..t], avoid) ==>
      && CountIn(Exp(exps, ret[t].id), need) > 0 && Cheapest(exps, need, avoid, ret[t].id)
      && (Small(exps) ==> Best(exps, need, avoid, ret[t].id))
  }

  lemma {:induction false} IsCheapest(exps: Expansions, exp: seq<seq<nat>>, need: set<nat>, avoid: set<nat>,
                                      candidates: seq<nat>, j: nat, candidates0: seq<nat>)
    requires Live(exps, exp, need, candidates0) && j < |exps| && exp[j] == Exp(exps, j)
    requires forall i: nat :: i in candidates <==> i in candidates0 && i < |exp| && CountIn(exp[i], need) > 0
    requires forall i: nat :: i in candidates ==>
      i < |exp| && PriceOf(exp[j], need, avoid) <= PriceOf(exp[i], need, avoid)
    requires forall i: nat :: i in candidates && i < j ==> PriceOf(exp[j], need, avoid) < PriceOf(exp[i], need, avoid)
    ensures Cheapest(exps, need, avoid, j)
  {
    hide CountIn, PriceOf;
    forall i: nat | i < |exps| && CountIn(Exp(exps, i), need) > 0 ensures i in candidates && exp[i] == Exp(exps, i) {
      CountPositive(Exp(exps, i), need);
    }
  }

  lemma {:induction false} CheapestIsBest(exps: Expansions, need: set<nat>, avoid: set<nat>, j: nat)
    requires need !! avoid && Small(exps) && j < |exps| && Cheapest(exps, need, avoid, j)
    ensures Best(exps, need, avoid, j)
  {
    hide CountIn, NotWorse, Price;
    forall i: nat | i < |exps| && CountIn(Exp(exps, i), need) > 0
      ensures AsGood(exps, need, avoid, j, i) && (i < j ==> !AsGood(exps, need, avoid, i, j))
    {
      CountBound(Exp(exps, j), need, avoid);
      CountBound(Exp(exps, i), need, avoid);
      PriceOrders(CountIn(Exp(exps, j), avoid), CountIn(Exp(exps, j), need), |Exp(exps, j)|,
                  CountIn(Exp(exps, i), avoid), CountIn(Exp(exps, i), need), |Exp(exps, i)|);
      PriceOrders(CountIn(Exp(exps, i), avoid), CountIn(Exp(exps, i), need), |Exp(exps, i)|,
                  CountIn(Exp(exps, j), avoid), CountIn(Exp(exps, j), need), |Exp(exps, j)|);
    }
  }

  lemma {:induction false} PickedWell(exps: Expansions, missing: seq<nat>, here: set<nat>, ret: seq<Pick>,
                                      need: set<nat>, avoid: set<nat>, j: nat)
    requires Progress(exps, missing, here, ret, need, avoid) && j < |exps| && CountIn(Exp(exps, j), need) > 0
    requires Cheapest(exps, need, avoid, j)
    ensures GoodPick(exps, missing, here, ret + [Alias(j)], |ret|)
  {
    hide Brought, InSome, Best, CountIn, Cheapest, Small;
    Separate(exps, missing, here, ret, need, avoid);
    if Small(exps) { CheapestIsBest(exps, need, avoid, j); }
    assert (ret + [Alias(j)])[..|ret|] == ret;
    forall need': set<nat>, avoid': set<nat> | Needs(exps, missing, ret, need') &&
      Avoids(exps, missing, here, ret, avoid')
      ensures need' == need && avoid' == avoid
    {
    }
  }

  lemma GoodStays(exps: Expansions, missing: seq<nat>, here: set<nat>, ret: seq<Pick>, p: Pick, t: nat)
    requires t < |ret| && GoodPick(exps, missing, here, ret, t)
    ensures GoodPick(exps, missing, here, ret + [p], t)
  {
    assert (ret + [p])[..t] == ret[..t];
  }

  lemma Separate(exps: Expansions, missing: seq<nat>, here: set<nat>, ret: seq<Pick>, need: set<nat>, avoid: set<nat>)
    requires Progress(exps, missing, here, ret, need, avoid)
    ensures need !! avoid
  {
  }

  /** While something is needed there is a candidate that covers it. */
  lemma {:induction false} SomeCandidate(exps: Expansions, exp: seq<seq<nat>>, need: map<nat, seq<nat>>,
                                         candidates0: seq<nat>, candidates: seq<nat>)
    requires Live(exps, exp, need.Keys, candidates0) && |need| > 0
    requires forall c: nat :: c in need ==> InSome(exps, |exps|, c)
    requires forall i: nat :: i in candidates <==> i in candidates0 && i < |exp| && CountIn(exp[i], need.Keys) > 0
    ensures candidates != []
  {
    assert |need.Keys| == |need|;
    var c: nat :| c in need.Keys;
    var i: nat :| i < |exps| && c in Exp(exps, i);
    CountPositive(exp[i], need.Keys);
    assert i in candidates;
  }

  lemma PickedExp(exps: Expansions, exp: seq<seq<nat>>, need: set<nat>, candidates: seq<nat>, j: nat)
    requires Live(exps, exp, need, candidates) && j < |exp| && CountIn(exp[j], need) > 0
    ensures j < |exps| && exp[j] == Exp(exps, j)
  {
    CountPositive(exp[j], need);
  }

  lemma Fewer(exps: Expansions, j: nat, need0: set<nat>, need: set<nat>)
    requires j < |exps| && CountIn(Exp(exps, j), need0) > 0
    requires forall c: nat :: c in need <==> c in need0 && c !in Exp(exps, j)
    ensures need < need0
  {
    CountPositive(Exp(exps, j), need0);
  }

  lemma {:induction false} StillLive(exps: Expansions, exp: seq<seq<nat>>, need0: set<nat>, need: set<nat>,
                                     candidates0: seq<nat>, candidates: seq<nat>, chosen: nat)
    requires Live(exps, exp, need0, candidates0) && chosen < |candidates| && candidates[chosen] < |exps|
    requires Rising(candidates)
    requires forall i: nat :: i in candidates <==> i in candidates0 && i < |exp| && CountIn(exp[i], need0) > 0
    requires forall c: nat :: c in need <==> c in need0 && c !in Exp(exps, candidates[chosen])
    ensures Live(exps, exp, need, candidates[..chosen] + candidates[chosen + 1..])
    ensures Rising(candidates[..chosen] + candidates[chosen + 1..])
  {
    var left := candidates[..chosen] + candidates[chosen + 1..];
    Dropped(candidates, chosen);
    forall i: nat, c: nat | i < |exps| && c in Exp(exps, i) && c in need ensures i in left && exp[i] == Exp(exps, i) {
      assert c in need0;
      assert exp[i] == Exp(exps, i) && i in candidates0;
      CountPositive(exp[i], need0);
      assert i != candidates[chosen];
    }
    forall i: nat | i in left ensures i < |exps| { assert i in candidates0; }
  }

  lemma AllCovered(exps: Expansions, missing: seq<nat>, here: set<nat>, ret: seq<Pick>, need: set<nat>, avoid: set<nat>)
    requires Progress(exps, missing, here, ret, need, avoid) && need == {}
    ensures forall c: nat :: c in missing ==> Brought(exps, ret, c) || Rootkey(c) in ret
    ensures forall c: nat :: Rootkey(c) in ret ==> c in missing && !InSome(exps, |exps|, c)
  {
  }

  /** The picks before p left no choice, after them everything still needed leaves one, and
      each later pick was the best there was. */
  ghost predicate PickedAs(exps: Expansions, missing: seq<nat>, here: set<nat>, ret: seq<Pick>, p: nat) {
    && p <= |ret| && ChoiceLeft(exps, missing, ret[..p])
    && (forall t: nat :: t < p ==> ForcedPick(exps, missing, ret, t))
    && (forall t: nat :: p <= t < |ret| ==> GoodPick(exps, missing, here, ret, t))
  }

  lemma {:induction false} PickedMore(exps: Expansions, missing: seq<nat>, here: set<nat>, ret: seq<Pick>, p: nat,
                                      x: Pick)
    requires PickedAs(exps, missing, here, ret, p) && GoodPick(exps, missing, here, ret + [x], |ret|)
    ensures PickedAs(exps, missing, here, ret + [x], p)
  {
    hide ForcedPick, GoodPick, ChoiceLeft;
    assert (ret + [x])[..p] == ret[..p];
    forall t: nat | t < p ensures ForcedPick(exps, missing, ret + [x], t) { ForcedStays(exps, missing, ret, x, t); }
    forall t: nat | p <= t < |ret| ensures GoodPick(exps, missing, here, ret + [x], t) {
      GoodStays(exps, missing, here, ret, x, t);
    }
  }

  /** Picks aliases and rootkeys that cover every missing component: first those that leave no
      choice, then the cheapest each time. */
  method CoverMissing(missing: seq<nat>, exps: Expansions, here: set<nat>) returns (ret: seq<Pick>)
    requires forall i: nat :: i < |exps| ==> |Exp(exps, i)| <= 2_000_000
    ensures forall c: nat :: c in missing ==> Brought(exps, ret, c) || Rootkey(c) in ret
    ensures forall c: nat :: Rootkey(c) in ret ==> c in missing && !InSome(exps, |exps|, c)
    ensures exists p: nat :: PickedAs(exps, missing, here, ret, p)
  {
    hide Brought, InSome, Needs, Avoids, Exp, CountIn, GoodPick, ForcedPick, ChoiceLeft, PickedAs, Cheapest, Rising;
    if missing == [] {
      NothingPicked(exps, here);
      return [];
    }
    var need, avoid, candidates := Build(missing, exps, here);
    var exp := seq(|exps|, i requires 0 <= i < |exps| => Exp(exps, i));
    ret, need, avoid, exp := Prune(missing, exps, here, need, avoid, candidates, exp);
    ghost var p := |ret|;
    AllForced(exps, missing, here, ret);
    while |need| > 0
      invariant Progress(exps, missing, here, ret, need.Keys, avoid) && Live(exps, exp, need.Keys, candidates)
      invariant forall c: nat :: c in need ==> InSome(exps, |exps|, c)
      invariant PickedAs(exps, missing, here, ret, p) && Rising(candidates)
      decreases need.Keys
    {
      Separate(exps, missing, here, ret, need.Keys, avoid);
      ghost var before := candidates;
      var chosen;
      candidates, chosen := PickBest(exp, need, avoid, candidates);
      SomeCandidate(exps, exp, need, before, candidates);
      var j := candidates[chosen];
      assert j in candidates;
      PickedExp(exps, exp, need.Keys, before, j);
      IsCheapest(exps, exp, need.Keys, avoid, candidates, j, before);
      PickedWell(exps, missing, here, ret, need.Keys, avoid, j);
      PickedMore(exps, missing, here, ret, p, Alias(j));
      ghost var need0, avoid0 := need.Keys, avoid;
      need, avoid := Settle(need, avoid, exp[j]);
      PickAlias(exps, missing, here, ret, need0, avoid0, j, need.Keys, avoid);
      Fewer(exps, j, need0, need.Keys);
      ret := ret + [Alias(j)];
      StillLive(exps, exp, need0, need.Keys, before, candidates, chosen);
      candidates := candidates[..chosen] + candidates[chosen + 1..];
    }
    AllCovered(exps, missing, here, ret, need.Keys, avoid);
  }

  lemma NothingPicked(exps: Expansions, here: set<nat>)
    ensures PickedAs(exps, [], here, [], 0)
  {
  }

  lemma AllForced(exps: Expansions, missing: seq<nat>, here: set<nat>, ret: seq<Pick>)
    requires (forall t: nat :: t < |ret| ==> ForcedPick(exps, missing, ret, t)) && ChoiceLeft(exps, missing, ret)
    ensures PickedAs(exps, missing, here, ret, |ret|)
  {
    hide ForcedPick, ChoiceLeft;
    assert ret[..|ret|] == ret;
  }
}
