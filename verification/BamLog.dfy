/** src/bam.c: the log from which the index of the BAM store can be rebuilt.

    A line is "<key> <path> <crc>", or "<key> ----delete---- <crc>"; keys have spaces in them,
    the other two fields do not. */
module BamLog {
  import opened KeyOrder
  import opened Options

  const SPACE: nat := 32

  /** "----delete----" */
  const DELETE: Str := [45, 45, 45, 45, 100, 101, 108, 101, 116, 101, 45, 45, 45, 45]

  /** strrchr(s, ' '): the index of the last space. */
  function LastSpace(s: Str): (i: nat)
    requires SPACE in s
    ensures i < |s| && s[i] == SPACE && forall j :: i < j < |s| ==> s[j] != SPACE
  {
    if s[|s| - 1] == SPACE then |s| - 1 else LastSpace(s[..|s| - 1])
  }

  /** A line that records val, or a deletion, for a key; crc is the checksum in hexadecimal. */
  function LogLine(key: Str, val: Option<Str>, crc: Str -> Str): Str {
    var body := key + [SPACE] + if val.Some? then val.value else DELETE;
    body + [SPACE] + crc(body)
  }

  /** "<key> <value> <crc>" and "<key> ----delete---- <crc>" */
  lemma {:induction false} LineFormat(key: Str, val: Option<Str>, crc: Str -> Str)
    ensures var body := key + Ascii(" ") + if val.Some? then val.value else Ascii("----delete----");
            LogLine(key, val, crc) == body + Ascii(" ") + crc(body)
  {
    assert Ascii(" ") == [SPACE];
    assert Ascii("----delete----") == DELETE;
  }

  /** What one line does to the index; a line with a wrong checksum is skipped. */
  function ApplyLine(m: map<Str, Str>, line: Str, crc: Str -> Str): map<Str, Str> {
    if SPACE !in line then m else
      var i := LastSpace(line);
      var body := line[..i];
      if crc(body) != line[i + 1..] || SPACE !in body then m else
        var j := LastSpace(body);
        if body[j + 1..] == DELETE then m - {body[..j]} else m[body[..j] := body[j + 1..]]
  }

  function Replay(log: seq<Str>, crc: Str -> Str): map<Str, Str> {
    if log == [] then map[] else ApplyLine(Replay(log[..|log| - 1], crc), log[|log| - 1], crc)
  }

  method LoadLogfile(log: seq<Str>, crc: Str -> Str) returns (m: map<Str, Str>)
    ensures m == Replay(log, crc)
  {
    m := map[];
    for k := 0 to |log|
      invariant m == Replay(log[..k], crc)
    {
      ReplayMore(log[..k], log[k], crc);
      assert log[..k + 1] == log[..k] + [log[k]];
      var line := log[k];
      // every line has its separators
      if SPACE !in line { continue; }
      var i := LastSpace(line);
      var body := line[..i];
      if crc(body) != line[i + 1..] { continue; }
      if SPACE !in body { continue; }
      var j := LastSpace(body);
      if body[j + 1..] == DELETE {
        m := m - {body[..j]};
      } else {
        m := m[body[..j] := body[j + 1..]];
      }
    }
    assert log[..|log|] == log;
  }

  lemma ReplayMore(log: seq<Str>, line: Str, crc: Str -> Str)
    ensures Replay(log + [line], crc) == ApplyLine(Replay(log, crc), line, crc)
  {
    assert (log + [line])[..|log|] == log;
  }

  lemma SpaceAt(a: Str, b: Str)
    requires SPACE !in b
    ensures SPACE in a + [SPACE] + b && LastSpace(a + [SPACE] + b) == |a|
    ensures (a + [SPACE] + b)[..|a|] == a && (a + [SPACE] + b)[|a| + 1..] == b
  {
    var s := a + [SPACE] + b;
    assert s[|a|] == SPACE;
    assert forall j :: |a| < j < |s| ==> s[j] == b[j - |a| - 1];
  }

  /** A line read back does what it was written for, whatever spaces the key has. */
  lemma {:induction false} LineRoundTrip(m: map<Str, Str>, key: Str, val: Option<Str>, crc: Str -> Str)
    requires (forall b :: SPACE !in crc(b)) && (val.Some? ==> SPACE !in val.value && val.value != DELETE)
    ensures ApplyLine(m, LogLine(key, val, crc), crc) == if val.Some? then m[key := val.value] else m - {key}
  {
    hide LastSpace;
    var v := if val.Some? then val.value else DELETE;
    var body := key + [SPACE] + v;
    assert SPACE !in v;
    SpaceAt(body, crc(body));
    SpaceAt(key, v);
  }

  /** A line whose last field is not the checksum of what precedes it does nothing. */
  lemma DamagedLine(m: map<Str, Str>, body: Str, sum: Str, crc: Str -> Str)
    requires SPACE !in sum && sum != crc(body)
    ensures ApplyLine(m, body + [SPACE] + sum, crc) == m
  {
    hide LastSpace;
    SpaceAt(body, sum);
  }

  /** Compares the index with the log: they agree, or the check fails. */
  method IndexCheck(index: map<Str, Str>, log: seq<Str>, crc: Str -> Str) returns (bad: bool)
    ensures bad <==> index != Replay(log, crc)
  {
    var logDB := LoadLogfile(log, crc);
    var inLog, missing, mismatch := 0, 0, 0;
    var rest := logDB.Keys;
    while rest != {}
      invariant rest <= logDB.Keys && inLog == |logDB.Keys| - |rest| && missing >= 0 && mismatch >= 0
      invariant missing == 0 <==> forall k :: k in logDB && k !in rest ==> k in index
      invariant mismatch == 0 <==> forall k :: k in logDB && k !in rest && k in index ==> index[k] == logDB[k]
      decreases rest
    {
      var k :| k in rest;
      inLog := inLog + 1;
      if k !in index {
        missing := missing + 1;
      } else if index[k] != logDB[k] {
        mismatch := mismatch + 1;
      }
      rest := rest - {k};
    }
    bad := missing != 0 || mismatch != 0 || inLog != |index|;
    assert |index.Keys| == |index|;
    if !bad {
      SameSize(logDB.Keys, index.Keys);
      assert index == logDB;
    }
  }

  lemma SameSize(a: set<Str>, b: set<Str>)
    requires a <= b && |a| == |b|
    ensures a == b
  {
    assert |b - a| == |b| - |a|;
  }
}
