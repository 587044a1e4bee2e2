/** src/dataheap.c: the data heap, one byte buffer that only grows.

    Strings in it end with a zero byte; 32-bit numbers in it are little-endian and can start
    anywhere. Everything refers to its strings by offset. */
module Heap {
  import opened Weave

  type Buffer = seq<byte>
  type Text = seq<byte>

  ghost predicate NoZero(s: Text) {
    forall i :: 0 <= i < |s| ==> s[i] != 0
  }

  // ---------- strings ----------

  /** The string s, with its zero byte, is at off. */
  ghost predicate At(h: Buffer, off: nat, s: Text) {
    NoZero(s) && off + |s| < |h| && h[off..off + |s|] == s && h[off + |s|] == 0
  }

  /** h' is h with more at its end. */
  ghost predicate Grown(h: Buffer, h': Buffer) {
    |h| <= |h'| && h'[..|h|] == h
  }

  lemma AtGrown(h: Buffer, h': Buffer, off: nat, s: Text)
    requires At(h, off, s) && Grown(h, h')
    ensures At(h', off, s)
  {
    assert h'[off..off + |s|] == h'[..|h|][off..off + |s|];
    assert h'[off + |s|] == h'[..|h|][off + |s|];
  }

  lemma GrownTwice(a: Buffer, b: Buffer, c: Buffer)
    requires Grown(a, b) && Grown(b, c)
    ensures Grown(a, c)
  {
    assert c[..|a|] == c[..|b|][..|a|];
  }

  lemma AtAppended(h: Buffer, s: Text, more: Buffer)
    requires NoZero(s)
    ensures At(h + s + [0] + more, |h|, s)
  {
    var g := h + s + [0] + more;
    assert g[|h|..|h| + |s|] == s;
  }

  /** strlen and the bytes: the string at off, where there is one. */
  function StrAt(h: Buffer, off: nat): (s: Text)
    ensures NoZero(s)
    decreases |h| - off
  {
    if off >= |h| || h[off] == 0 then [] else [h[off]] + StrAt(h, off + 1)
  }

  /** There is a string at off. */
  ghost predicate Ends(h: Buffer, off: nat) {
    exists z :: off <= z < |h| && h[z] == 0
  }

  lemma {:induction false} StrIsAt(h: Buffer, off: nat)
    requires Ends(h, off)
    ensures At(h, off, StrAt(h, off))
    decreases |h| - off
  {
    var z :| off <= z < |h| && h[z] == 0;
    if h[off] != 0 {
      assert Ends(h, off + 1);
      StrIsAt(h, off + 1);
      var t := StrAt(h, off + 1);
      assert h[off..off + 1 + |t|] == [h[off]] + h[off + 1..off + 1 + |t|];
    }
  }

  /** One string at a place. */
  lemma {:induction false} AtIsStr(h: Buffer, off: nat, s: Text)
    requires At(h, off, s)
    ensures StrAt(h, off) == s
    decreases s
  {
    if s != [] {
      assert h[off + 1..off + |s|] == h[off..off + |s|][1..] == s[1..];
      AtIsStr(h, off + 1, s[1..]);
      assert h[off] == h[off..off + |s|][0] == s[0];
    }
  }

  // ---------- numbers ----------

  const LIMIT := 0x1_0000_0000

  /** The four bytes of a number; what does not fit is lost. */
  function Enc(x: nat): (b: seq<byte>)
    ensures |b| == 4
  {
    var y := x / 256;
    var z := y / 256;
    [x % 256, y % 256, z % 256, z / 256 % 256]
  }

  function Word(h: Buffer, off: nat): (x: nat)
    requires off + 4 <= |h|
    ensures x < LIMIT
  {
    var a: int, b: int, c: int, d: int := h[off], h[off + 1], h[off + 2], h[off + 3];
    a + 256 * b + 65536 * c + 16777216 * d
  }

  /** The low byte is first, and the others are those of the rest of the number. */
  lemma LowByteFirst(x: nat, low: byte)
    ensures Enc(256 * x + low) == [low] + Enc(x)[..3]
    ensures Enc(0) == [0, 0, 0, 0]
  {
    assert (256 * x + low) / 256 == x;
  }

  lemma WordRoundTrip(x: nat)
    ensures Word(Enc(x), 0) == x % LIMIT
  {
    var y := x / 256;
    var z := y / 256;
    var w := z / 256;
    var q, r := w / 256, x % 256 + 256 * (y % 256) + 65536 * (z % 256) + 16777216 * (w % 256);
    assert x == LIMIT * q + r;
    Remainder(x, q, r);
  }

  lemma Remainder(x: nat, q: nat, r: nat)
    requires x == LIMIT * q + r && r < LIMIT
    ensures x % LIMIT == r
  {
  }

  lemma WordGrown(h: Buffer, h': Buffer, off: nat)
    requires Grown(h, h') && off + 4 <= |h|
    ensures Word(h', off) == Word(h, off)
  {
    assert forall i :: 0 <= i < |h| ==> h'[i] == h'[..|h|][i];
  }

  lemma WordWithin(a: Buffer, b: Buffer, c: Buffer, off: nat)
    requires off + 4 <= |b|
    ensures Word(a + b + c, |a| + off) == Word(b, off)
  {
  }

  /** An array of numbers as it is written out. */
  function EncAll(ws: seq<nat>): (b: Buffer)
    ensures |b| == 4 * |ws|
  {
    if ws == [] then [] else Enc(ws[0]) + EncAll(ws[1..])
  }

  lemma {:induction false} WordOfAll(ws: seq<nat>, i: nat)
    requires i < |ws|
    ensures Word(EncAll(ws), 4 * i) == ws[i] % LIMIT
  {
    hide Enc, Word;
    var head, tail := Enc(ws[0]), EncAll(ws[1..]);
    if i == 0 {
      WordRoundTrip(ws[0]);
      WordWithin([], head, tail, 0);
      assert [] + head + tail == head + tail;
    } else {
      WordOfAll(ws[1..], i - 1);
      WordWithin(head, tail, [], 4 * (i - 1));
      assert head + tail + [] == head + tail;
    }
  }

  // ---------- growing ----------

  /** Every string of the hash of unique strings is where the hash says. */
  ghost predicate Unique(h: Buffer, uniq: map<Text, nat>) {
    forall s :: s in uniq ==> 0 < uniq[s] && At(h, uniq[s], s)
  }

  lemma UniqueGrown(h: Buffer, h': Buffer, uniq: map<Text, nat>)
    requires Unique(h, uniq) && Grown(h, h')
    ensures Unique(h', uniq)
  {
    hide At;
    forall s | s in uniq ensures At(h', uniq[s], s) { AtGrown(h, h', uniq[s], s); }
  }

  class DataHeap {
    var buf: Buffer
    var uniq: map<Text, nat>
    var rkeyHead: nat

    ghost predicate Valid()
      reads this
    {
      |buf| >= 1 && Unique(buf, uniq)
    }

    /** An empty heap: its first byte is the null string. */
    constructor ()
      ensures Valid() && buf == [0] && uniq == map[] && rkeyHead == 0
    {
      buf, uniq, rkeyHead := [0], map[], 0;
    }

    method Append(more: Buffer)
      requires Valid()
      modifies this`buf
      ensures Valid() && buf == old(buf) + more && Grown(old(buf), buf)
    {
      UniqueGrown(buf, buf + more, uniq);
      buf := buf + more;
    }

    method AddStr(s: Text) returns (off: nat)
      requires Valid() && NoZero(s)
      modifies this`buf
      ensures Valid() && Grown(old(buf), buf) && buf == old(buf) + s + [0]
      ensures off == old(|buf|) && At(buf, off, s)
    {
      hide Unique, At;
      off := |buf|;
      AtAppended(buf, s, []);
      assert buf + s + [0] + [] == buf + (s + [0]) == buf + s + [0];
      Append(s + [0]);
    }

    /** A string that may be shared. */
    method AddUniqStr(s: Text) returns (off: nat)
      requires Valid() && NoZero(s)
      modifies this`buf, this`uniq
      ensures Valid() && Grown(old(buf), buf) && off > 0 && At(buf, off, s) && uniq == old(uniq)[s := off]
      ensures if s in old(uniq)
              then buf == old(buf) && off == old(uniq)[s]
              else off == old(|buf|) && buf == old(buf) + s + [0]
    {
      hide At;
      if s in uniq { return uniq[s]; }
      off := AddStr(s);
      uniq := uniq[s := off];
    }

    /** A rootkey: shared, and the four bytes before it link to the rootkey added before. */
    method AddUniqRootkey(s: Text) returns (off: nat)
      requires Valid() && NoZero(s)
      modifies this
      ensures Valid() && Grown(old(buf), buf) && off > 0 && At(buf, off, s) && uniq == old(uniq)[s := off]
      ensures s in old(uniq) ==> buf == old(buf) && rkeyHead == old(rkeyHead) && off == old(uniq)[s]
      ensures s !in old(uniq) ==> off == old(|buf|) + 4 && rkeyHead == old(|buf|) && |buf| == off + |s| + 1
      ensures s !in old(uniq) ==> Word(buf, rkeyHead) == old(rkeyHead) % LIMIT
    {
      hide At, Unique, Word;
      if s in uniq {
        UniqueAt(buf, uniq, s);
        assert uniq == uniq[s := uniq[s]];
        return uniq[s];
      }
      off := |buf|;
      ghost var buf0, link := buf, Enc(rkeyHead);
      WordRoundTrip(rkeyHead);
      WordWithin(buf, link, [], 0);
      assert buf + link + [] == buf + link;
      Append(Enc(rkeyHead));
      rkeyHead := off;
      ghost var buf1 := buf;
      off := AddStr(s);
      WordGrown(buf1, buf, rkeyHead);
      GrownTwice(buf0, buf1, buf);
      UniqueMore(buf, uniq, s, off);
      uniq := uniq[s := off];
    }
  }

  lemma UniqueAt(h: Buffer, uniq: map<Text, nat>, s: Text)
    requires Unique(h, uniq) && s in uniq
    ensures 0 < uniq[s] && At(h, uniq[s], s)
  {
  }

  lemma UniqueMore(h: Buffer, uniq: map<Text, nat>, s: Text, off: nat)
    requires Unique(h, uniq) && 0 < off && At(h, off, s)
    ensures Unique(h, uniq[s := off])
  {
  }
}
