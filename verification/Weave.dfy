/** The ChangeSet weave: per delta, the (rootkey, deltakey) pairs it added.

    Readers see it as a stream of items, newest delta first, in which an item without a
    deltakey is the end marker that follows the oldest entry of its rootkey. */
module Weave {

  type byte = x: int | 0 <= x < 256

  /** A rootkey or a deltakey. */
  datatype Key = Key(bytes: seq<byte>)

  datatype Item =
    | Line(ser: nat, rk: Key, dk: Key)
    | Marker(ser: nat, rk: Key)

  type Stream = seq<Item>

  /** Newest delta first. */
  ghost predicate NewestFirst(s: Stream) {
    forall i, j :: 0 <= i < j < |s| ==> s[i].ser >= s[j].ser
  }

  /** No rootkey appears again after its end marker. */
  ghost predicate MarkersSound(s: Stream) {
    forall i, j :: 0 <= i < j < |s| && s[i].Marker? ==> s[j].rk != s[i].rk
  }

  function SumBytes(bytes: seq<byte>): nat {
    if bytes == [] then 0 else bytes[0] + SumBytes(bytes[1..])
  }

  function Bytes(k: Key): nat {
    SumBytes(k.bytes)
  }

  /** What the rootkey, the space and the newline add to the checksum of "rk dk\n". */
  function RootPart(rk: Key): nat {
    Bytes(rk) + 32 + 10
  }

  function LineSum(rk: Key, dk: Key): nat {
    RootPart(rk) + Bytes(dk)
  }

  lemma {:induction false} SumAppend(a: seq<byte>, b: seq<byte>)
    ensures SumBytes(a + b) == SumBytes(a) + SumBytes(b)
  {
    if a == [] {
      assert a + b == b;
    } else {
      SumAppend(a[1..], b);
      assert (a + b)[1..] == a[1..] + b;
    }
  }

  lemma SumOne(x: byte)
    ensures SumBytes([x]) == x
  {
    assert [x][1..] == [];
  }

  /** What a line adds is the sum of its bytes: the rootkey, a space, the deltakey and a
      newline. */
  lemma {:induction false} LineBytes(rk: Key, dk: Key)
    ensures LineSum(rk, dk) == SumBytes(rk.bytes + [32] + dk.bytes + [10])
  {
    hide SumBytes;
    SumAppend(rk.bytes + [32] + dk.bytes, [10]);
    SumAppend(rk.bytes + [32], dk.bytes);
    SumAppend(rk.bytes, [32]);
    SumOne(32);
    SumOne(10);
  }

  function U16(x: int): nat {
    x % 0x1_0000
  }

  function U32(x: int): nat {
    x % 0x1_0000_0000
  }

  /** A sum_t has 16 bits and a u32 has 32: what fits is kept, and going round changes nothing. */
  lemma Widths(x: int)
    ensures U16(x) < 65536 && U16(x + 65536) == U16(x) && (0 <= x < 65536 ==> U16(x) == x)
    ensures U32(x) < 4294967296 && U32(x + 4294967296) == U32(x) && (0 <= x < 4294967296 ==> U32(x) == x)
  {
  }

  /** Whether the item at the head of a stream is the active entry of its rootkey in the
      version that holds the deltas m, given the rootkeys seen before it. */
  predicate Active(it: Item, m: set<nat>, seen: set<Key>) {
    it.Line? && it.ser in m && it.rk !in seen
  }

  /** The changeset checksum by definition: the sum of the bytes of "rk dk\n" over the
      active entry of every rootkey. */
  function PlainSum(s: Stream, m: set<nat>, seen: set<Key>): nat {
    if s == [] then 0
    else if Active(s[0], m, seen) then
      LineSum(s[0].rk, s[0].dk) + PlainSum(s[1..], m, seen + {s[0].rk})
    else
      PlainSum(s[1..], m, seen)
  }

  /** The rootkeys that have an entry in the version m. */
  ghost predicate Present(s: Stream, m: set<nat>, rk: Key) {
    exists i :: 0 <= i < |s| && s[i].Line? && s[i].ser in m && s[i].rk == rk
  }

  lemma {:induction false} PlainSumAppend(s: Stream, it: Item, m: set<nat>, seen: set<Key>)
    ensures PlainSum(s + [it], m, seen) == PlainSum(s, m, seen) +
            (if Active(it, m, seen) && !Present(s, m, it.rk) then LineSum(it.rk, it.dk) else 0)
  {
    if s == [] {
      assert s + [it] == [it];
      assert [it][1..] == [];
    } else {
      assert (s + [it])[1..] == s[1..] + [it];
      assert Present(s, m, it.rk) <==>
        (s[0].Line? && s[0].ser in m && s[0].rk == it.rk) || Present(s[1..], m, it.rk) by {
        PresentSplit(s, m, it.rk);
      }
      PlainSumAppend(s[1..], it, m, if Active(s[0], m, seen) then seen + {s[0].rk} else seen);
    }
  }

  lemma PresentSplit(s: Stream, m: set<nat>, rk: Key)
    requires s != []
    ensures Present(s, m, rk) <==> (s[0].Line? && s[0].ser in m && s[0].rk == rk) || Present(s[1..], m, rk)
  {
    if Present(s[1..], m, rk) {
      var i :| 0 <= i < |s[1..]| && s[1..][i].Line? && s[1..][i].ser in m && s[1..][i].rk == rk;
      assert s[i + 1] == s[1..][i];
    }
    if Present(s, m, rk) {
      var i :| 0 <= i < |s| && s[i].Line? && s[i].ser in m && s[i].rk == rk;
      assert i > 0 ==> s[1..][i - 1] == s[i];
    }
  }
}
