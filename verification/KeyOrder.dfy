/** The order of deltas: src/cweave.c earlier() and src/check.c keycmp_nopath(). */
module KeyOrder {

  /** A C string without its terminating zero, as unsigned bytes. */
  type Str = seq<nat>

  const BAR: nat := 124

  /** strcmp, reduced to its sign. */
  function Strcmp(a: Str, b: Str): int {
    if a == [] then (if b == [] then 0 else -1)
    else if b == [] then 1
    else if a[0] < b[0] then -1
    else if a[0] > b[0] then 1
    else Strcmp(a[1..], b[1..])
  }

  lemma {:induction false} StrcmpZero(a: Str, b: Str)
    ensures Strcmp(a, b) == 0 <==> a == b
  {
    if a != [] && b != [] {
      StrcmpZero(a[1..], b[1..]);
      assert a == [a[0]] + a[1..] && b == [b[0]] + b[1..];
    }
  }

  lemma {:induction false} StrcmpFlip(a: Str, b: Str)
    ensures Strcmp(a, b) == -Strcmp(b, a)
  {
    if a != [] && b != [] { StrcmpFlip(a[1..], b[1..]); }
  }

  lemma {:induction false} StrcmpTransitive(a: Str, b: Str, c: Str)
    requires Strcmp(a, b) <= 0 && Strcmp(b, c) <= 0
    ensures Strcmp(a, c) <= 0
    ensures Strcmp(a, b) < 0 || Strcmp(b, c) < 0 ==> Strcmp(a, c) < 0
  {
    if a != [] && b != [] && c != [] && a[0] == b[0] == c[0] {
      StrcmpTransitive(a[1..], b[1..], c[1..]);
    }
  }

  /** a comes before b in a dictionary: it ends where b goes on, or is smaller where they
      first differ. */
  ghost predicate Before(a: Str, b: Str) {
    (|a| < |b| && b[..|a|] == a) || exists i: nat :: SmallerAt(a, b, i)
  }

  /** The first difference is at i, where a is smaller. */
  ghost predicate SmallerAt(a: Str, b: Str, i: nat) {
    i < |a| && i < |b| && a[..i] == b[..i] && a[i] < b[i]
  }

  lemma {:induction false} StrcmpMeans(a: Str, b: Str)
    ensures Strcmp(a, b) < 0 <==> Before(a, b)
    ensures Strcmp(a, b) > 0 <==> Before(b, a)
  {
    BeforeTail(a, b);
    BeforeTail(b, a);
    if a != [] && b != [] && a[0] == b[0] { StrcmpMeans(a[1..], b[1..]); }
  }

  lemma {:induction false} BeforeTail(a: Str, b: Str)
    ensures Before(a, b) <==> b != [] && (a == [] || a[0] < b[0] || (a[0] == b[0] && Before(a[1..], b[1..])))
  {
    if a != [] && b != [] {
      var x, y := a[1..], b[1..];
      if a[0] < b[0] { assert SmallerAt(a, b, 0); }
      if a[0] == b[0] {
        assert a == [a[0]] + x && b == [a[0]] + y;
        if |a| < |b| { assert b[..|a|] == [a[0]] + y[..|x|]; }
        if i: nat :| SmallerAt(x, y, i) {
          assert a[..i + 1] == [a[0]] + x[..i] && b[..i + 1] == [a[0]] + y[..i];
          assert SmallerAt(a, b, i + 1);
        }
        if i: nat :| SmallerAt(a, b, i) {
          assert x[..i - 1] == a[..i][1..] && y[..i - 1] == b[..i][1..];
          assert SmallerAt(x, y, i - 1);
        }
      }
    }
  }

  /** Once two strings differ, what follows does not matter. */
  lemma {:induction false} StrcmpTruncate(a: Str, b: Str, i: nat, n: nat)
    requires i < n <= |a| && n <= |b| && a[i] != b[i]
    ensures Strcmp(a[..n], b[..n]) == Strcmp(a, b) != 0
  {
    if a[0] == b[0] {
      assert a[..n][1..] == a[1..][..n - 1] && b[..n][1..] == b[1..][..n - 1];
      StrcmpTruncate(a[1..], b[1..], i - 1, n - 1);
    }
  }

  /** The sort key of a delta, "user@host|path|date|sum": what comes before the path, the
      path, and what comes after it; date is the numeric time stamp the source looks at first. */
  datatype SortKey = SortKey(date: nat, user: Str, path: Str, rest: Str)

  ghost predicate NoBar(s: Str) {
    forall i :: 0 <= i < |s| ==> s[i] != BAR
  }

  ghost predicate ValidKey(k: SortKey) {
    NoBar(k.user) && NoBar(k.path)
  }

  /** The key as one string. */
  function Text(k: SortKey): Str {
    k.user + [BAR] + (k.path + [BAR] + k.rest)
  }

  /** The bytes of a string of the source. */
  function Ascii(s: string): (r: Str)
    ensures |r| == |s| && forall i :: 0 <= i < |s| ==> r[i] == s[i] as int
  {
    seq(|s|, i requires 0 <= i < |s| => s[i] as int)
  }

  /** "user@host|path|date|sum" */
  lemma TextIs(k: SortKey)
    ensures Text(k) == k.user + Ascii("|") + k.path + Ascii("|") + k.rest
  {
    assert Ascii("|") == [BAR];
  }

  /** strchr(s, '|'): the index of the first bar. */
  function FindBar(s: Str): (i: nat)
    requires BAR in s
    ensures i < |s| && s[i] == BAR && forall j :: 0 <= j < i ==> s[j] != BAR
  {
    if s[0] == BAR then 0 else 1 + FindBar(s[1..])
  }

  /** The comparison on key texts, ignoring the path field. */
  function KeycmpNopath(a: Str, b: Str): int
    requires BAR in a && BAR in b
    requires BAR in a[FindBar(a) + 1..] && BAR in b[FindBar(b) + 1..]
  {
    var ta, tb := FindBar(a) + 1, FindBar(b) + 1;
    var userlen := if ta <= tb then ta else tb;
    var ret := Strcmp(a[..userlen], b[..userlen]);
    if ret != 0 then ret else
      var pa, pb := a[ta..], b[tb..];
      Strcmp(pa[FindBar(pa)..], pb[FindBar(pb)..])
  }

  lemma FindBarIs(user: Str, more: Str)
    requires NoBar(user)
    ensures BAR in user + [BAR] + more && FindBar(user + [BAR] + more) == |user|
  {
    var s := user + [BAR] + more;
    assert s[|user|] == BAR;
    assert forall i :: 0 <= i < |user| ==> s[i] == user[i];
  }

  lemma TextParts(k: SortKey)
    requires ValidKey(k)
    ensures var s := Text(k);
            && BAR in s && FindBar(s) == |k.user| && s[..|k.user| + 1] == k.user + [BAR]
            && var p := s[|k.user| + 1..]; BAR in p && FindBar(p) == |k.path| && p[|k.path|..] == [BAR] + k.rest
  {
    hide FindBar;
    var tail := k.path + [BAR] + k.rest;
    FindBarIs(k.user, tail);
    FindBarIs(k.path, k.rest);
    assert Text(k)[|k.user| + 1..] == tail;
    assert tail[|k.path|..] == [BAR] + k.rest;
  }

  /** What the comparison decides: the user first, then date and sum; never the path. */
  function CompareKeys(a: SortKey, b: SortKey): int {
    var c := Strcmp(a.user + [BAR], b.user + [BAR]);
    if c != 0 then c else Strcmp([BAR] + a.rest, [BAR] + b.rest)
  }

  /** Comparing only as far as the shorter user field reaches is enough. */
  lemma {:induction false} UserPrefix(a: Str, b: Str, n: nat)
    requires NoBar(a) && NoBar(b) && n == if |a| <= |b| then |a| + 1 else |b| + 1
    ensures n <= |a + [BAR]| && n <= |b + [BAR]|
    ensures Strcmp((a + [BAR])[..n], (b + [BAR])[..n]) == Strcmp(a + [BAR], b + [BAR])
  {
    var x, y := a + [BAR], b + [BAR];
    if |a| == |b| {
      assert x[..n] == x && y[..n] == y;
    } else {
      assert x[n - 1] != y[n - 1];
      StrcmpTruncate(x, y, n - 1, n);
    }
  }

  lemma {:induction false} KeycmpMeans(a: SortKey, b: SortKey)
    requires ValidKey(a) && ValidKey(b)
    ensures var x, y := Text(a), Text(b);
            && BAR in x && BAR in y && BAR in x[FindBar(x) + 1..] && BAR in y[FindBar(y) + 1..]
            && KeycmpNopath(x, y) == CompareKeys(a, b)
  {
    hide Strcmp, FindBar, Text, NoBar;
    TextParts(a);
    TextParts(b);
    var x, y := Text(a), Text(b);
    var n := if |a.user| <= |b.user| then |a.user| + 1 else |b.user| + 1;
    UserPrefix(a.user, b.user, n);
    assert x[..n] == x[..|a.user| + 1][..n] && y[..n] == y[..|b.user| + 1][..n];
  }

  /** The source's earlier(): by date, then by key text. */
  predicate Earlier(a: SortKey, b: SortKey) {
    a.date < b.date || (a.date == b.date && CompareKeys(a, b) < 0)
  }

  /** The keys the order cannot tell apart, on which the source gives up. */
  predicate Tied(a: SortKey, b: SortKey) {
    a.date == b.date && a.user == b.user && a.rest == b.rest
  }

  /** An earlier key has the smaller date; with one date the user that comes first with its
      bar; with one user the rest that comes first. The path does not count. */
  lemma {:induction false} EarlierMeans(a: SortKey, b: SortKey)
    ensures Earlier(a, b) <==>
      || a.date < b.date
      || (a.date == b.date && Before(a.user + [BAR], b.user + [BAR]))
      || (a.date == b.date && a.user == b.user && Before(a.rest, b.rest))
  {
    hide Strcmp, Before;
    StrcmpMeans(a.user + [BAR], b.user + [BAR]);
    StrcmpMeans([BAR] + a.rest, [BAR] + b.rest);
    StrcmpZero(a.user + [BAR], b.user + [BAR]);
    BeforeTail([BAR] + a.rest, [BAR] + b.rest);
    assert ([BAR] + a.rest)[1..] == a.rest && ([BAR] + b.rest)[1..] == b.rest;
    if a.user + [BAR] == b.user + [BAR] {
      assert a.user == (a.user + [BAR])[..|a.user|];
      assert b.user == (b.user + [BAR])[..|b.user|];
    }
  }

  /** With one date, the user field that is smaller where they first differ is earlier; where
      one user field ends, its bar decides. */
  lemma {:induction false} EarlierUser(a: SortKey, b: SortKey, i: nat)
    requires a.date == b.date && SmallerAt(a.user + [BAR], b.user + [BAR], i)
    ensures Earlier(a, b) && !Earlier(b, a)
  {
    EarlierMeans(a, b);
    EarlierTotal(a, b);
  }

  lemma {:induction false} CompareZero(a: SortKey, b: SortKey)
    ensures CompareKeys(a, b) == 0 <==> a.user == b.user && a.rest == b.rest
    ensures CompareKeys(a, b) == -CompareKeys(b, a)
  {
    hide Strcmp;
    StrcmpZero(a.user + [BAR], b.user + [BAR]);
    StrcmpZero([BAR] + a.rest, [BAR] + b.rest);
    StrcmpFlip(a.user + [BAR], b.user + [BAR]);
    StrcmpFlip([BAR] + a.rest, [BAR] + b.rest);
    if a.user + [BAR] == b.user + [BAR] {
      assert a.user == (a.user + [BAR])[..|a.user|];
      assert b.user == (b.user + [BAR])[..|b.user|];
    }
    if [BAR] + a.rest == [BAR] + b.rest {
      assert a.rest == ([BAR] + a.rest)[1..];
      assert b.rest == ([BAR] + b.rest)[1..];
    }
  }

  /** Of any two keys exactly one is earlier, unless they are tied. */
  lemma {:induction false} EarlierTotal(a: SortKey, b: SortKey)
    ensures !(Earlier(a, b) && Earlier(b, a))
    ensures Earlier(a, b) || Earlier(b, a) <==> !Tied(a, b)
  {
    hide CompareKeys;
    CompareZero(a, b);
  }

  lemma {:induction false} EarlierTransitive(a: SortKey, b: SortKey, c: SortKey)
    requires Earlier(a, b) && Earlier(b, c)
    ensures Earlier(a, c)
  {
    if a.date == b.date == c.date {
      hide Strcmp;
      var ua, ub, uc := a.user + [BAR], b.user + [BAR], c.user + [BAR];
      var ra, rb, rc := [BAR] + a.rest, [BAR] + b.rest, [BAR] + c.rest;
      StrcmpTransitive(ua, ub, uc);
      StrcmpZero(ua, ub);
      StrcmpZero(ub, uc);
      StrcmpZero(ua, uc);
      if ua == ub == uc { StrcmpTransitive(ra, rb, rc); }
    }
  }
}
