/** src/bam.c: the store of binary file contents.

    A data file is named by the hash of its contents and a number that tells contents with
    the same hash apart. The index takes a key to its data file. */
module BamStore {
  import opened KeyOrder
  import opened BamLog
  import opened Options

  const DOT: nat := 46
  const SLASH: nat := 47

  datatype Name = Name(hash: Str, num: nat)

  type Content = Str

  // ---------- names ----------

  function Decimal(n: nat): (s: Str)
    ensures |s| > 0 && forall i :: 0 <= i < |s| ==> 48 <= s[i] <= 57
  {
    if n < 10 then [48 + n] else Decimal(n / 10) + [48 + n % 10]
  }

  /** "ab/abcdef.d1" */
  function Path(n: Name): Str {
    Stem(n.hash) + Decimal(n.num)
  }

  function Stem(hash: Str): Str {
    (if |hash| >= 2 then hash[..2] else hash) + [SLASH] + hash + [DOT, 100]
  }

  /** The part of a key before the first dot. */
  function HashOf(key: Str): (h: Str)
    ensures DOT !in h && (h == key || h + [DOT] <= key)
  {
    if key == [] || key[0] == DOT then [] else
      assert key[0] != DOT;
      [key[0]] + HashOf(key[1..])
  }

  /** "ab/abcdef.d1": the first two characters of the hash, the hash, and the number. */
  lemma PathFormat(n: Name)
    ensures var two := if |n.hash| >= 2 then n.hash[..2] else n.hash;
            Path(n) == two + Ascii("/") + n.hash + Ascii(".d") + Decimal(n.num)
  {
    assert Ascii("/") == [SLASH] && Ascii(".d") == [DOT, 100];
  }

  /** The number that digits stand for. */
  function ReadDecimal(s: Str): int {
    if s == [] then 0 else 10 * ReadDecimal(s[..|s| - 1]) + s[|s| - 1] - 48
  }

  /** The digits are those of the number, without a leading zero. */
  lemma {:induction false} DecimalReads(n: nat)
    ensures ReadDecimal(Decimal(n)) == n
    ensures n > 0 ==> Decimal(n)[0] != 48
  {
    var s := Decimal(n);
    if n >= 10 {
      DecimalReads(n / 10);
      assert s[..|s| - 1] == Decimal(n / 10);
      assert s[0] == Decimal(n / 10)[0];
    } else {
      assert s[..0] == [];
    }
  }

  /** What precedes the first c, and what follows it. */
  lemma {:induction false} OneSplit(a: Str, b: Str, a': Str, b': Str, c: nat)
    requires c !in a && c !in a' && a + [c] + b == a' + [c] + b'
    ensures a == a' && b == b'
  {
    var s, s' := a + [c] + b, a' + [c] + b';
    assert s[|a|] == c && s'[|a'|] == c;
    forall i | 0 <= i < |a| ensures s[i] != c { assert s[i] == a[i]; }
    forall i | 0 <= i < |a'| ensures s'[i] != c { assert s'[i] == a'[i]; }
    assert a == s[..|a|] && a' == s'[..|a'|];
    assert b == s[|a| + 1..] && b' == s'[|a'| + 1..];
  }

  /** Two data files never have one path. */
  lemma {:induction false} PathsApart(n: Name, m: Name)
    requires DOT !in n.hash && DOT !in m.hash && SLASH !in n.hash && SLASH !in m.hash && Path(n) == Path(m)
    ensures n == m
  {
    hide Decimal, ReadDecimal;
    var a, b := if |n.hash| >= 2 then n.hash[..2] else n.hash, if |m.hash| >= 2 then m.hash[..2] else m.hash;
    var x, y := [100] + Decimal(n.num), [100] + Decimal(m.num);
    assert Path(n) == a + [SLASH] + (n.hash + [DOT] + x);
    assert Path(m) == b + [SLASH] + (m.hash + [DOT] + y);
    hide Path;
    OneSplit(a, n.hash + [DOT] + x, b, m.hash + [DOT] + y, SLASH);
    OneSplit(n.hash, x, m.hash, y, DOT);
    assert Decimal(n.num) == x[1..] && Decimal(m.num) == y[1..];
    DecimalReads(n.num);
    DecimalReads(m.num);
  }

  lemma PathIsValue(n: Name)
    requires SPACE !in n.hash
    ensures SPACE !in Path(n) && Path(n) != DELETE
  {
    var two := if |n.hash| >= 2 then n.hash[..2] else n.hash;
    assert Path(n)[|two|] == SLASH;
  }

  // ---------- the store ----------

  /** The index says what replaying the log says. */
  ghost predicate Logged(index: map<Str, Name>, m: map<Str, Str>) {
    && index.Keys == m.Keys
    && forall k :: k in index ==> m[k] == Path(index[k]) && SPACE !in index[k].hash
  }

  /** Every key still stands for the bytes inserted under it. */
  ghost predicate Keeps(index: map<Str, Name>, data: map<Name, Content>, bytes: map<Str, Content>) {
    forall k :: k in bytes ==> k in index && index[k] in data && data[index[k]] == bytes[k]
  }

  /** The files of a hash are numbered without gaps. */
  ghost predicate GapFree(data: map<Name, Content>, hash: Str) {
    forall n: nat :: Name(hash, n) in data ==> n >= 1 && (n > 1 ==> Name(hash, n - 1) in data)
  }

  lemma LogPut(index: map<Str, Name>, log: seq<Str>, crc: Str -> Str, key: Str, n: Name)
    requires (forall b :: SPACE !in crc(b)) && Logged(index, Replay(log, crc)) && SPACE !in n.hash
    ensures Logged(index[key := n], Replay(log + [LogLine(key, Some(Path(n)), crc)], crc))
  {
    hide Path, ApplyLine, LogLine;
    PathIsValue(n);
    ReplayMore(log, LogLine(key, Some(Path(n)), crc), crc);
    LineRoundTrip(Replay(log, crc), key, Some(Path(n)), crc);
  }

  lemma LogDelete(index: map<Str, Name>, log: seq<Str>, crc: Str -> Str, key: Str)
    requires (forall b :: SPACE !in crc(b)) && Logged(index, Replay(log, crc))
    ensures Logged(index - {key}, Replay(log + [LogLine(key, None, crc)], crc))
  {
    hide Path, ApplyLine, LogLine;
    ReplayMore(log, LogLine(key, None, crc), crc);
    LineRoundTrip(Replay(log, crc), key, None, crc);
  }

  /** The first file of the hash with these contents, or the first number not taken. */
  method FindSlot(data: map<Name, Content>, hash: Str, content: Content) returns (j: nat)
    ensures j >= 1 && forall n :: 1 <= n < j ==> Name(hash, n) in data && data[Name(hash, n)] != content
    ensures Name(hash, j) in data ==> data[Name(hash, j)] == content
  {
    j := 1;
    while Name(hash, j) in data && data[Name(hash, j)] != content
      invariant j >= 1 && forall n :: 1 <= n < j ==> Name(hash, n) in data && data[Name(hash, n)] != content
      decreases data.Keys - Numbered(hash, j)
    {
      MoreNumbered(hash, j);
      j := j + 1;
    }
  }

  class Store {
    const crc: Str -> Str
    var data: map<Name, Content>
    var index: map<Str, Name>
    var log: seq<Str>
    ghost var bytes: map<Str, Content>

    ghost predicate Valid()
      reads this
    {
      (forall b :: SPACE !in crc(b)) && Logged(index, Replay(log, crc)) && Keeps(index, data, bytes)
    }

    constructor (crc: Str -> Str)
      requires forall b :: SPACE !in crc(b)
      ensures Valid() && data == map[] && index == map[] && log == [] && bytes == map[]
    {
      this.crc := crc;
      data, index, log, bytes := map[], map[], [], map[];
    }

    /** Stores contents under a key, in the file that already has them or in a new one. */
    method Insert(key: Str, content: Content)
      requires Valid() && SPACE !in HashOf(key)
      modifies this
      ensures Valid() && bytes == old(bytes)[key := content]
      ensures index.Keys == old(index.Keys) + {key}
      ensures forall k :: k in old(index) && k != key ==> index[k] == old(index)[k]
      ensures data == old(data) || (index[key] !in old(data) && data == old(data)[index[key] := content])
      ensures forall h :: old(GapFree(data, h)) ==> GapFree(data, h)
      ensures index[key].hash == HashOf(key) && index[key].num >= 1
      ensures forall n: nat :: 1 <= n < index[key].num ==>
        Name(HashOf(key), n) in old(data) && old(data)[Name(HashOf(key), n)] != content
      ensures index[key] in old(data) ==> old(data)[index[key]] == content
    {
      hide Logged, Replay, Path, LogLine, HashOf;
      var h := HashOf(key);
      var j := FindSlot(data, h, content);
      var n := Name(h, j);
      if n !in data { data := data[n := content]; }
      LogPut(index, log, crc, key, n);
      index := index[key := n];
      log := log + [LogLine(key, Some(Path(n)), crc)];
      bytes := bytes[key := content];
    }

    /** Gives the data of a key to another key. */
    method Rename(from: Str, to: Str)
      requires Valid()
      modifies this
      ensures Valid() && data == old(data)
      ensures from == to || from !in old(index) ==> index == old(index) && bytes == old(bytes)
      ensures from != to && from in old(index) ==> index == old(index)[to := old(index)[from]] - {from}
      ensures from != to && from in old(bytes) ==> bytes == old(bytes)[to := old(bytes)[from]] - {from}
      ensures from != to && from in old(index) && from !in old(bytes) ==> bytes == old(bytes) - {to}
    {
      hide Logged, Replay, Path, LogLine;
      if from == to { return; }
      if from in index {
        var p := index[from];
        SafeHash(index, Replay(log, crc), from);
        LogPut(index, log, crc, to, p);
        index := index[to := p];
        log := log + [LogLine(to, Some(Path(p)), crc)];
        LogDelete(index, log, crc, from);
        index := index - {from};
        log := log + [LogLine(from, None, crc)];
        bytes := if from in bytes then bytes[to := bytes[from]] - {from} else bytes - {to};
      }
    }
  }

  lemma SafeHash(index: map<Str, Name>, m: map<Str, Str>, k: Str)
    requires Logged(index, m) && k in index
    ensures SPACE !in index[k].hash
  {
  }

  /** The names of a hash with numbers below n. */
  ghost function Numbered(hash: Str, n: nat): set<Name> {
    if n == 0 then {} else Numbered(hash, n - 1) + {Name(hash, n - 1)}
  }

  lemma {:induction false} NumberedMeans(hash: Str, n: nat, x: Name)
    ensures x in Numbered(hash, n) <==> x.hash == hash && x.num < n
  {
    if n > 0 { NumberedMeans(hash, n - 1, x); }
  }

  lemma MoreNumbered(hash: Str, n: nat)
    ensures Name(hash, n) !in Numbered(hash, n) && Numbered(hash, n + 1) == Numbered(hash, n) + {Name(hash, n)}
  {
    NumberedMeans(hash, n, Name(hash, n));
  }
}
