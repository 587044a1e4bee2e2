/** src/dataheap.c: file data loaded into memory on demand.

    A large range is cut into regions whose pages are protected. A fault loads the regions
    that touch the faulting page. Regions need not end on page boundaries, so two of them can
    share a page. */
module Paging {
  import opened Weave

  // ---------- pages ----------

  type PageSize = x: int | x > 0 witness 4096

  function Page(a: nat, size: nat): nat
    requires size > 0
  {
    a / size
  }

  lemma Multiples(p: nat, q: nat, size: nat)
    requires p < q
    ensures p * size + size <= q * size
  {
    assert q * size == p * size + size + (q - p - 1) * size;
  }

  lemma PageMonotone(a: nat, b: nat, size: nat)
    requires size > 0 && a <= b
    ensures Page(a, size) <= Page(b, size)
  {
    var p, q := a / size, b / size;
    assert a == p * size + a % size && b == q * size + b % size;
    if p > q { Multiples(q, p, size); }
  }

  lemma PageStep(a: nat, size: nat)
    requires size > 0
    ensures Page(a + 1, size) <= Page(a, size) + 1
  {
    var p, q := a / size, (a + 1) / size;
    assert a == p * size + a % size && a + 1 == q * size + (a + 1) % size;
    if q > p + 1 {
      Multiples(p, p + 1, size);
      Multiples(p + 1, q, size);
    }
  }

  /** A range of file bytes and where it belongs in memory. */
  datatype Region = Region(file: seq<byte>, start: nat, len: nat, off: nat, swap: bool) {
    /** The page of the first byte. */
    function StartPage(size: nat): nat
      requires size > 0
    {
      Page(start, size)
    }

    /** The page of the last byte. */
    function EndPage(size: nat): nat
      requires size > 0
    {
      Page(if len > 0 then start + len - 1 else start, size)
    }

    predicate Covers(a: nat) {
      start <= a < start + len
    }
  }

  /** Byte k of a range of a file, after 32-bit words were put in host order if need be. */
  function ByteAt(file: seq<byte>, off: nat, k: nat, len: nat, swap: bool): byte
    requires off + len <= |file| && k < len && (swap ==> len % 4 == 0)
  {
    if swap then file[off + (k - k % 4) + (3 - k % 4)] else file[off + k]
  }

  /** Swapping turns each word around and moves no byte to another word. */
  lemma SwapReverses(file: seq<byte>, off: nat, w: nat, i: nat, len: nat)
    requires off + len <= |file| && len % 4 == 0 && 4 * w + i < len && i < 4
    ensures ByteAt(file, off, 4 * w + i, len, true) == file[off + 4 * w + (3 - i)]
    ensures ByteAt(file, off, 4 * w + i, len, false) == file[off + 4 * w + i]
  {
  }

  /** The byte of the file that belongs at address a. */
  function Filed(r: Region, a: nat): byte
    requires r.Covers(a) && r.off + r.len <= |r.file| && (r.swap ==> r.len % 4 == 0)
  {
    ByteAt(r.file, r.off, a - r.start, r.len, r.swap)
  }

  ghost predicate RegionOk(r: Region, size: nat) {
    r.len > 0 && r.start + r.len <= size && r.off + r.len <= |r.file| && (r.swap ==> r.len % 4 == 0)
  }

  /** Regions in memory order, apart from each other. */
  ghost predicate Layout(maps: seq<Region>, size: nat) {
    && (forall i :: 0 <= i < |maps| ==> RegionOk(maps[i], size))
    && InOrder(maps)
  }

  ghost predicate InOrder(maps: seq<Region>) {
    forall i, j :: 0 <= i < j < |maps| ==> maps[i].start + maps[i].len <= maps[j].start
  }

  predicate Touches(r: Region, p: nat, pagesz: nat)
    requires pagesz > 0
  {
    r.StartPage(pagesz) <= p <= r.EndPage(pagesz)
  }

  /** Some region still to load touches page p. */
  ghost predicate Awaited(maps: seq<Region>, p: nat, pagesz: nat)
    requires pagesz > 0
  {
    exists i :: 0 <= i < |maps| && Touches(maps[i], p, pagesz)
  }

  /** What the program is to see: the file's bytes where a region is still to be loaded, the
      memory's elsewhere. */
  ghost predicate Seen(mem: seq<byte>, maps: seq<Region>, view: seq<byte>) {
    && |view| == |mem| && Layout(maps, |mem|)
    && (forall i, a: nat :: 0 <= i < |maps| && maps[i].Covers(a) ==> view[a] == Filed(maps[i], a))
    && (forall a :: 0 <= a < |mem| && (forall i :: 0 <= i < |maps| ==> !maps[i].Covers(a)) ==> mem[a] == view[a])
  }

  /** A page is protected exactly when a region still to load touches it. */
  ghost predicate Guarded(prot: seq<bool>, maps: seq<Region>, pagesz: nat, size: nat) {
    && pagesz > 0 && Layout(maps, size) && (forall a: nat :: a < size ==> Page(a, pagesz) < |prot|)
    && forall p :: 0 <= p < |prot| ==> (prot[p] <==> Awaited(maps, p, pagesz))
  }

  /** Protects or frees the pages lo..hi. */
  function Protect(prot: seq<bool>, lo: nat, hi: nat, on: bool): (r: seq<bool>)
    requires lo <= hi < |prot|
    ensures |r| == |prot| && forall p :: 0 <= p < |prot| ==> r[p] == if lo <= p <= hi then on else prot[p]
  {
    seq(|prot|, p requires 0 <= p < |prot| => if lo <= p <= hi then on else prot[p])
  }

  // ---------- one region loaded ----------

  /** The protection while the regions that touch page addr are being loaded: those before i
      end earlier. */
  ghost predicate Halfway(prot: seq<bool>, maps: seq<Region>, pagesz: nat, size: nat, addr: nat, i: nat) {
    && pagesz > 0 && Layout(maps, size) && (forall a: nat :: a < size ==> Page(a, pagesz) < |prot|)
    && addr < |prot| && i <= |maps|
    && (forall p :: 0 <= p < |prot| && p != addr ==> (prot[p] <==> Awaited(maps, p, pagesz)))
    && forall j :: 0 <= j < i ==> maps[j].EndPage(pagesz) < addr
  }

  function Without(maps: seq<Region>, i: nat): seq<Region>
    requires i < |maps|
  {
    maps[..i] + maps[i + 1..]
  }

  lemma WithoutLayout(maps: seq<Region>, i: nat, size: nat)
    requires i < |maps| && Layout(maps, size)
    ensures Layout(Without(maps, i), size)
    ensures forall r :: r in Without(maps, i) ==> r in maps
    ensures forall j :: 0 <= j < |maps| && j != i ==> maps[j] in Without(maps, i)
  {
    var r := Without(maps, i);
    assert forall j :: 0 <= j < |r| ==> r[j] == if j < i then maps[j] else maps[j + 1];
    forall j | 0 <= j < |maps| && j != i ensures maps[j] in r {
      assert r[if j < i then j else j - 1] == maps[j];
    }
  }

  /** Regions before i end by its first page, those after start from its last. */
  lemma PageOrder(maps: seq<Region>, i: nat, j: nat, pagesz: nat, size: nat)
    requires pagesz > 0 && Layout(maps, size) && i < j < |maps|
    ensures maps[i].EndPage(pagesz) <= maps[j].StartPage(pagesz)
    ensures maps[i].StartPage(pagesz) <= maps[i].EndPage(pagesz) && maps[j].StartPage(pagesz) <= maps[j].EndPage(pagesz)
  {
    hide Page;
    PageMonotone(maps[i].start + maps[i].len - 1, maps[j].start, pagesz);
    PageMonotone(maps[i].start, maps[i].start + maps[i].len - 1, pagesz);
    PageMonotone(maps[j].start, maps[j].start + maps[j].len - 1, pagesz);
  }

  /** Frees the pages of region i, then protects again the end pages that others still need. */
  function Reprotect(prot: seq<bool>, maps: seq<Region>, i: nat, addr: nat, pagesz: nat): seq<bool>
    requires pagesz > 0 && i < |maps|
    requires maps[i].StartPage(pagesz) <= maps[i].EndPage(pagesz) < |prot|
  {
    var lo, hi := maps[i].StartPage(pagesz), maps[i].EndPage(pagesz);
    var freed := Protect(prot, lo, hi, false);
    var left := if i > 0 && maps[i - 1].EndPage(pagesz) == lo then Protect(freed, lo, lo, true) else freed;
    if i + 1 < |maps| && maps[i + 1].StartPage(pagesz) == hi && addr != hi then Protect(left, hi, hi, true) else left
  }

  lemma {:induction false} NeedsPage(maps: seq<Region>, i: nat, p: nat, pagesz: nat, size: nat)
    requires pagesz > 0 && Layout(maps, size) && i < |maps|
    requires Awaited(Without(maps, i), p, pagesz)
    ensures Awaited(maps, p, pagesz)
    ensures p == maps[i].StartPage(pagesz) < maps[i].EndPage(pagesz) ==> i > 0 && maps[i - 1].EndPage(pagesz) == p
    ensures p == maps[i].EndPage(pagesz) > maps[i].StartPage(pagesz) ==>
      i + 1 < |maps| && maps[i + 1].StartPage(pagesz) == p
    ensures !(maps[i].StartPage(pagesz) < p < maps[i].EndPage(pagesz))
  {
    hide Page, Layout;
    var r := Without(maps, i);
    var k :| 0 <= k < |r| && Touches(r[k], p, pagesz);
    var j := if k < i then k else k + 1;
    assert r[k] == maps[j];
    if j < i {
      PageOrder(maps, j, i, pagesz, size);
      if j < i - 1 { PageOrder(maps, j, i - 1, pagesz, size); }
      PageOrder(maps, i - 1, i, pagesz, size);
    } else {
      PageOrder(maps, i, j, pagesz, size);
      if i + 1 < j { PageOrder(maps, i + 1, j, pagesz, size); }
      PageOrder(maps, i, i + 1, pagesz, size);
    }
  }

  lemma {:induction false} StillNeeds(maps: seq<Region>, i: nat, j: nat, p: nat, pagesz: nat, size: nat)
    requires pagesz > 0 && Layout(maps, size) && i < |maps| && j < |maps| && j != i && Touches(maps[j], p, pagesz)
    ensures Awaited(Without(maps, i), p, pagesz)
  {
    WithoutLayout(maps, i, size);
    var r := Without(maps, i);
    assert r[if j < i then j else j - 1] == maps[j];
  }

  /** Loading a region that touches page addr: every other page stays guarded, and addr is free. */
  lemma {:induction false} LoadGuards(prot: seq<bool>, maps: seq<Region>, pagesz: nat, size: nat, addr: nat, i: nat)
    requires Halfway(prot, maps, pagesz, size, addr, i) && i < |maps| && Touches(maps[i], addr, pagesz)
    ensures maps[i].EndPage(pagesz) < |prot|
    ensures var prot' := Reprotect(prot, maps, i, addr, pagesz);
            |prot'| == |prot| && Halfway(prot', Without(maps, i), pagesz, size, addr, i) && !prot'[addr]
  {
    hide Page, Layout, Awaited;
    LastPage(prot, maps, pagesz, size, addr, i);
    var prot', maps' := Reprotect(prot, maps, i, addr, pagesz), Without(maps, i);
    WithoutLayout(maps, i, size);
    forall p | 0 <= p < |prot| && p != addr ensures prot'[p] <==> Awaited(maps', p, pagesz) {
      if Awaited(maps', p, pagesz) {
        NeedsPage(maps, i, p, pagesz, size);
      }
      if prot'[p] { GuardedLeft(prot, maps, pagesz, size, addr, i, p); }
    }
  }

  lemma {:induction false} GuardedLeft(prot: seq<bool>, maps: seq<Region>, pagesz: nat, size: nat, addr: nat, i: nat,
                                       p: nat)
    requires Halfway(prot, maps, pagesz, size, addr, i) && i < |maps| && Touches(maps[i], addr, pagesz)
    requires maps[i].EndPage(pagesz) < |prot|
    requires p < |prot| && p != addr && Reprotect(prot, maps, i, addr, pagesz)[p]
    ensures Awaited(Without(maps, i), p, pagesz)
  {
    hide Page, Layout, Without;
    var lo, hi := maps[i].StartPage(pagesz), maps[i].EndPage(pagesz);
    if i > 0 && maps[i - 1].EndPage(pagesz) == lo && p == lo {
      PageOrder(maps, i - 1, i, pagesz, size);
      StillNeeds(maps, i, i - 1, p, pagesz, size);
    } else if i + 1 < |maps| && maps[i + 1].StartPage(pagesz) == hi && p == hi {
      PageOrder(maps, i, i + 1, pagesz, size);
      StillNeeds(maps, i, i + 1, p, pagesz, size);
    } else {
      var j :| 0 <= j < |maps| && Touches(maps[j], p, pagesz);
      StillNeeds(maps, i, j, p, pagesz, size);
    }
  }

  lemma RegionAt(maps: seq<Region>, j: nat, size: nat)
    requires Layout(maps, size) && j < |maps|
    ensures RegionOk(maps[j], size)
  {
  }

  /** Loading a region changes no byte the program sees. */
  lemma {:induction false} LoadSeen(mem: seq<byte>, mem': seq<byte>, maps: seq<Region>, view: seq<byte>, i: nat)
    requires Seen(mem, maps, view) && i < |maps| && |mem'| == |mem|
    requires forall a :: 0 <= a < |mem| ==>
      mem'[a] == if maps[i].Covers(a) then Filed(maps[i], a) else mem[a]
    ensures Seen(mem', Without(maps, i), view)
  {
    hide Filed, Layout;
    var r := Without(maps, i);
    WithoutLayout(maps, i, |mem|);
    forall j, a: nat | 0 <= j < |r| && r[j].Covers(a) ensures RegionOk(r[j], |mem|) && view[a] == Filed(r[j], a) {
      RegionAt(r, j, |mem|);
      assert r[j] == maps[if j < i then j else j + 1];
    }
    forall a: nat | a < |mem| && (forall j :: 0 <= j < |r| ==> !r[j].Covers(a)) ensures mem'[a] == view[a] {
      if !maps[i].Covers(a) {
        forall j | 0 <= j < |maps| ensures !maps[j].Covers(a) {
          if j != i { assert r[if j < i then j else j - 1] == maps[j]; }
        }
      }
    }
  }

  lemma StartHalfway(prot: seq<bool>, maps: seq<Region>, pagesz: nat, size: nat, addr: nat)
    requires Guarded(prot, maps, pagesz, size) && addr < |prot|
    ensures Halfway(prot, maps, pagesz, size, addr, 0)
  {
  }

  lemma Culprit(prot: seq<bool>, maps: seq<Region>, pagesz: nat, size: nat, addr: nat) returns (j: nat)
    requires Guarded(prot, maps, pagesz, size) && addr < |prot| && prot[addr]
    ensures j < |maps| && Touches(maps[j], addr, pagesz)
  {
    j :| j < |maps| && Touches(maps[j], addr, pagesz);
  }

  lemma SkipRegion(prot: seq<bool>, maps: seq<Region>, pagesz: nat, size: nat, addr: nat, i: nat)
    requires Halfway(prot, maps, pagesz, size, addr, i) && i < |maps| && addr > maps[i].EndPage(pagesz)
    ensures Halfway(prot, maps, pagesz, size, addr, i + 1)
  {
  }

  /** When the walk stops, no region to load touches the page. */
  lemma {:induction false} EndHalfway(prot: seq<bool>, maps: seq<Region>, pagesz: nat, size: nat, addr: nat, i: nat)
    requires Halfway(prot, maps, pagesz, size, addr, i) && (i < |maps| ==> addr < maps[i].StartPage(pagesz))
    ensures forall j :: 0 <= j < |maps| ==> !Touches(maps[j], addr, pagesz)
    ensures !prot[addr] ==> Guarded(prot, maps, pagesz, size)
  {
    hide Layout, Page;
    forall j | 0 <= j < |maps| ensures !Touches(maps[j], addr, pagesz) {
      if i < j { PageOrder(maps, i, j, pagesz, size); }
    }
  }

  /** A byte on a free page is the byte the program is to see. */
  lemma {:induction false} FreeByte(mem: seq<byte>, prot: seq<bool>, maps: seq<Region>, view: seq<byte>, pagesz: nat,
                                    a: nat)
    requires Seen(mem, maps, view) && Guarded(prot, maps, pagesz, |mem|) && a < |mem| && !prot[Page(a, pagesz)]
    ensures |view| == |mem| && mem[a] == view[a] && forall i :: 0 <= i < |maps| ==> !maps[i].Covers(a)
  {
    hide Page, Filed;
    forall i | 0 <= i < |maps| ensures !maps[i].Covers(a) {
      if maps[i].Covers(a) {
        PageMonotone(maps[i].start, a, pagesz);
        PageMonotone(a, maps[i].start + maps[i].len - 1, pagesz);
      }
    }
  }

  lemma WriteSeen(mem: seq<byte>, maps: seq<Region>, view: seq<byte>, a: nat, v: byte)
    requires Seen(mem, maps, view) && a < |mem| && forall i :: 0 <= i < |maps| ==> !maps[i].Covers(a)
    ensures Seen(mem[a := v], maps, view[a := v])
  {
    hide Filed;
  }

  lemma GuardedFacts(prot: seq<bool>, maps: seq<Region>, pagesz: nat, size: nat, a: nat)
    requires Guarded(prot, maps, pagesz, size) && a < size
    ensures Page(a, pagesz) < |prot|
  {
  }

  lemma SeenLayout(mem: seq<byte>, maps: seq<Region>, view: seq<byte>, i: nat)
    requires Seen(mem, maps, view) && i < |maps|
    ensures Layout(maps, |mem|) && RegionOk(maps[i], |mem|)
  {
  }

  lemma LastPage(prot: seq<bool>, maps: seq<Region>, pagesz: nat, size: nat, addr: nat, i: nat)
    requires Halfway(prot, maps, pagesz, size, addr, i) && i < |maps|
    ensures maps[i].StartPage(pagesz) <= maps[i].EndPage(pagesz) < |prot|
    ensures i > 0 ==> maps[i - 1].EndPage(pagesz) < addr
  {
    hide Page;
    PageMonotone(maps[i].start, maps[i].start + maps[i].len - 1, pagesz);
  }

  /** Memory whose pages can be protected, and the regions still to load. */
  class Pager {
    const pagesz: PageSize
    const mem: array<byte>
    var prot: seq<bool>
    var maps: seq<Region>
    ghost var view: seq<byte>

    ghost predicate Valid()
      reads this, mem
    {
      Seen(mem[..], maps, view) && Guarded(prot, maps, pagesz, mem.Length)
    }

    /** Memory with nothing to load. */
    constructor (pagesz: PageSize, mem: array<byte>)
      ensures Valid() && maps == [] && this.pagesz == pagesz && this.mem == mem && view == mem[..]
    {
      this.pagesz, this.mem := pagesz, mem;
      prot, maps, view := seq(Page(mem.Length, pagesz) + 1, _ => false), [], mem[..];
      new;
      forall a: nat | a < mem.Length ensures Page(a, pagesz) < |prot| { PageMonotone(a, mem.Length, pagesz); }
    }

    /** Frees the pages of a region and reads its bytes from the file. */
    method MapBlock(r: Region)
      requires pagesz > 0 && RegionOk(r, mem.Length) && r.StartPage(pagesz) <= r.EndPage(pagesz) < |prot|
      modifies mem, `prot
      ensures prot == Protect(old(prot), r.StartPage(pagesz), r.EndPage(pagesz), false)
      ensures forall a :: 0 <= a < mem.Length ==> mem[a] == if r.Covers(a) then Filed(r, a) else old(mem[a])
    {
      prot := Protect(prot, r.StartPage(pagesz), r.EndPage(pagesz), false);
      forall a | r.start <= a < r.start + r.len { mem[a] := Filed(r, a); }
    }

    /** Loads region i, which touches page addr, and leaves the pages it shares with other
        regions protected. */
    method LoadRegion(i: nat, addr: nat)
      requires Seen(mem[..], maps, view) && Halfway(prot, maps, pagesz, mem.Length, addr, i) && i < |maps|
      requires Touches(maps[i], addr, pagesz)
      modifies `prot, `maps, mem
      ensures Seen(mem[..], maps, view) && maps == Without(old(maps), i)
      ensures |prot| == old(|prot|) && Halfway(prot, maps, pagesz, mem.Length, addr, i) && !prot[addr]
    {
      hide Seen, Halfway, Page, Layout, Without, Filed;
      var r := maps[i];
      ghost var mem0, prot0 := mem[..], prot;
      SeenLayout(mem[..], maps, view, i);
      LastPage(prot, maps, pagesz, mem.Length, addr, i);
      LoadGuards(prot, maps, pagesz, mem.Length, addr, i);
      MapBlock(r);
      LoadSeen(mem0, mem[..], maps, view, i);
      if i > 0 && maps[i - 1].EndPage(pagesz) == r.StartPage(pagesz) {
        // the shared page was not hit, or the region before would be loaded
        assert addr != r.StartPage(pagesz);
        prot := Protect(prot, r.StartPage(pagesz), r.StartPage(pagesz), true);
      }
      if i + 1 < |maps| && maps[i + 1].StartPage(pagesz) == r.EndPage(pagesz) && addr != r.EndPage(pagesz) {
        prot := Protect(prot, r.EndPage(pagesz), r.EndPage(pagesz), true);
      }
      maps := Without(maps, i);
    }

    /** The program touched address a, whose page is protected. */
    method Fault(a: nat)
      requires Valid() && a < mem.Length && prot[Page(a, pagesz)]
      modifies this`prot, this`maps, mem
      ensures Valid() && |prot| == old(|prot|) && !prot[Page(a, pagesz)]
      ensures forall r :: r in maps <==> r in old(maps) && !Touches(r, Page(a, pagesz), pagesz)
      ensures |maps| < old(|maps|)
    {
      hide Seen, Guarded, Halfway, Page, Layout, Filed;
      var addr := Page(a, pagesz);
      GuardedFacts(prot, maps, pagesz, mem.Length, a);
      StartHalfway(prot, maps, pagesz, mem.Length, addr);
      ghost var culprit := Culprit(prot, maps, pagesz, mem.Length, addr);
      var found := false;
      var i := 0;
      while i < |maps|
        invariant 0 <= i <= |maps| <= old(|maps|) && |prot| == old(|prot|)
        invariant Seen(mem[..], maps, view) && Halfway(prot, maps, pagesz, mem.Length, addr, i)
        invariant if found then |maps| < old(|maps|) && !prot[addr] else maps == old(maps)
        invariant forall r :: r in maps ==> r in old(maps)
        invariant forall r :: r in old(maps) && !Touches(r, addr, pagesz) ==> r in maps
        decreases |maps| - i
      {
        var r := maps[i];
        SeenLayout(mem[..], maps, view, i);
        LastPage(prot, maps, pagesz, mem.Length, addr, i);
        if addr < r.StartPage(pagesz) { break; }
        if addr > r.EndPage(pagesz) {
          SkipRegion(prot, maps, pagesz, mem.Length, addr, i);
          i := i + 1;
          continue;
        }
        found := true;
        WithoutLayout(maps, i, mem.Length);
        LoadRegion(i, addr);
      }
      EndHalfway(prot, maps, pagesz, mem.Length, addr, i);
      // otherwise the program is aborted
      assert found;
    }

    /** The program reads a byte, loading it first if need be. */
    method Read(a: nat) returns (v: byte)
      requires Valid() && a < mem.Length
      modifies this`prot, this`maps, mem
      ensures Valid() && v == view[a]
    {
      hide Seen, Guarded, Page;
      GuardedFacts(prot, maps, pagesz, mem.Length, a);
      if prot[Page(a, pagesz)] { Fault(a); }
      FreeByte(mem[..], prot, maps, view, pagesz, a);
      v := mem[a];
    }

    /** The program writes a byte, loading what was there first if need be. */
    method Write(a: nat, v: byte)
      requires Valid() && a < mem.Length
      modifies this`prot, this`maps, this`view, mem
      ensures Valid() && view == old(view)[a := v]
    {
      hide Seen, Guarded, Page;
      GuardedFacts(prot, maps, pagesz, mem.Length, a);
      if prot[Page(a, pagesz)] { Fault(a); }
      FreeByte(mem[..], prot, maps, view, pagesz, a);
      WriteSeen(mem[..], maps, view, a, v);
      ghost var mem0 := mem[..];
      mem[a] := v;
      view := view[a := v];
      assert mem[..] == mem0[a := v];
    }

    /** Puts a range of a file in memory: at once, or cut into regions to load on demand. */
    method DataMap(file: seq<byte>, start: nat, len: nat, off: nat, swap: bool, lens: seq<nat>, paging: bool)
      requires Valid() && start + len <= mem.Length && off + len <= |file| && (swap ==> len % 4 == 0)
      requires len > 0 ==> Clear(maps, start, len, pagesz)
      requires paging ==> CutOk(lens, len, swap)
      modifies this`prot, this`maps, this`view, mem
      ensures Valid() && view == Overlay(old(view), file, start, off, len, swap)
      ensures !paging ==> maps == old(maps)
      ensures paging ==> mem[..] == old(mem[..])
      ensures paging ==> forall r :: r in maps <==> r in old(maps) || r in Regions(file, start, off, swap, lens)
    {
      hide Seen, Guarded, Layout, Page, ByteAt, Clear, Sum, Regions;
      ghost var mem0, view0, maps0, prot0 := mem[..], view, maps, prot;
      ValidFacts(mem[..], prot, maps, view, pagesz);
      Elsewhere(maps, start, len, pagesz, mem.Length);
      if !paging {
        forall a | start <= a < start + len { mem[a] := ByteAt(file, off, a - start, len, swap); }
        view := Overlay(view, file, start, off, len, swap);
        DirectSeen(mem0, mem[..], maps, view0, file, start, off, len, swap);
        return;
      }
      MapLayout(maps0, file, start, off, swap, lens, len, pagesz, mem.Length);
      MapGuards(prot0, maps0, file, start, off, swap, lens, len, pagesz, mem.Length,
        SortMaps(maps0 + Regions(file, start, off, swap, lens)));
      prot := Protect(prot, Page(start, pagesz), Page(start + len - 1, pagesz), true);
      var rstart, roff := start, off;
      NoRegions(file, start, off, swap);
      for i := 0 to |lens|
        invariant mem[..] == mem0 && view == view0
        invariant prot == Protect(prot0, Page(start, pagesz), Page(start + len - 1, pagesz), true)
        invariant maps == maps0 + Regions(file, start, off, swap, lens[..i])
        invariant rstart == start + Sum(lens[..i]) && roff == off + Sum(lens[..i])
      {
        OneMoreRegion(file, start, off, swap, lens, i);
        maps := maps + [Region(file, rstart, lens[i], roff, swap)];
        rstart, roff := rstart + lens[i], roff + lens[i];
      }
      assert lens[..|lens|] == lens;
      SortKeeps(maps);
      maps := SortMaps(maps);
      MapSeen(mem[..], maps0, view0, file, start, off, swap, lens, len, maps);
      view := Overlay(view, file, start, off, len, swap);
    }
  }

  lemma ValidFacts(mem: seq<byte>, prot: seq<bool>, maps: seq<Region>, view: seq<byte>, pagesz: nat)
    requires Seen(mem, maps, view) && Guarded(prot, maps, pagesz, |mem|)
    ensures |view| == |mem| && Layout(maps, |mem|)
  {
  }

  lemma NoRegions(file: seq<byte>, start: nat, off: nat, swap: bool)
    ensures Regions(file, start, off, swap, []) == [] && Sum([]) == 0
  {
  }

  lemma OneMoreRegion(file: seq<byte>, start: nat, off: nat, swap: bool, lens: seq<nat>, i: nat)
    requires i < |lens|
    ensures Sum(lens[..i + 1]) == Sum(lens[..i]) + lens[i]
    ensures Regions(file, start, off, swap, lens[..i + 1]) ==
      Regions(file, start, off, swap,
        lens[..i]) + [Region(file, start + Sum(lens[..i]), lens[i], off + Sum(lens[..i]), swap)]
  {
    assert lens[..i + 1][..i] == lens[..i];
  }

  /** Regions on other pages are elsewhere. */
  lemma {:induction false} Elsewhere(maps: seq<Region>, start: nat, len: nat, pagesz: nat, size: nat)
    requires pagesz > 0 && Layout(maps, size) && (len > 0 ==> Clear(maps, start, len, pagesz))
    ensures forall i :: 0 <= i < |maps| && len > 0 ==>
      maps[i].start + maps[i].len <= start || start + len <= maps[i].start
  {
    hide Page;
    forall i | 0 <= i < |maps| && len > 0 ensures maps[i].start + maps[i].len <= start || start + len <= maps[i].start {
      var r := maps[i];
      if r.start + r.len - 1 >= start { PageMonotone(start, r.start + r.len - 1, pagesz); }
      if start + len - 1 >= r.start { PageMonotone(r.start, start + len - 1, pagesz); }
    }
  }

  lemma {:induction false} DirectSeen(mem: seq<byte>, mem': seq<byte>, maps: seq<Region>, view: seq<byte>,
                                      file: seq<byte>, start: nat, off: nat, len: nat, swap: bool)
    requires Seen(mem, maps, view) && start + len <= |mem| == |mem'| && off + len <= |file| && (swap ==> len % 4 == 0)
    requires forall i :: 0 <= i < |maps| && len > 0 ==>
      maps[i].start + maps[i].len <= start || start + len <= maps[i].start
    requires forall a :: 0 <= a < |mem| ==>
      mem'[a] == if start <= a < start + len then ByteAt(file, off, a - start, len, swap) else mem[a]
    ensures Seen(mem', maps, Overlay(view, file, start, off, len, swap))
  {
    hide ByteAt, Filed;
  }

  // ---------- cutting a range ----------

  /** Cuts a range into pieces of at most swapsz bytes. */
  method Pieces(len: nat, swapsz: nat) returns (lens: seq<nat>)
    requires len > 0 && swapsz > 0
    ensures Cut(lens, len)
    ensures swapsz % 4 == 0 && len % 4 == 0 ==> forall i :: 0 <= i < |lens| ==> lens[i] % 4 == 0
  {
    var rlen := len;
    lens := [];
    while rlen > swapsz
      invariant 0 < rlen <= len && Sum(lens) == len - rlen
      invariant forall i :: 0 <= i < |lens| ==> lens[i] == swapsz
      invariant swapsz % 4 == 0 && len % 4 == 0 ==> rlen % 4 == 0
    {
      SumMore(lens, swapsz);
      lens := lens + [swapsz];
      rlen := rlen - swapsz;
    }
    SumMore(lens, rlen);
    lens := lens + [rlen];
  }

  function Sum(lens: seq<nat>): nat {
    if lens == [] then 0 else Sum(lens[..|lens| - 1]) + lens[|lens| - 1]
  }

  lemma SumMore(lens: seq<nat>, n: nat)
    ensures Sum(lens + [n]) == Sum(lens) + n
  {
    assert (lens + [n])[..|lens|] == lens;
  }

  /** Positive lengths that make up a range. */
  ghost predicate Cut(lens: seq<nat>, len: nat) {
    Sum(lens) == len && forall i :: 0 <= i < |lens| ==> lens[i] > 0
  }

  /** The regions of a range: one after the other, in memory as in the file. */
  function Regions(file: seq<byte>, start: nat, off: nat, swap: bool, lens: seq<nat>): (rs: seq<Region>)
    ensures |rs| == |lens|
  {
    if lens == [] then [] else
      var n := |lens| - 1;
      var before := Sum(lens[..n]);
      Regions(file, start, off, swap, lens[..n]) + [Region(file, start + before, lens[n], off + before, swap)]
  }

  /** Region r is the part of a range that it should be. */
  ghost predicate PartOf(r: Region, file: seq<byte>, start: nat, off: nat, swap: bool, len: nat) {
    && r.file == file && r.swap == swap && start <= r.start && r.start + r.len <= start + len && r.len > 0
    && r.off - off == r.start - start && (swap ==> (r.start - start) % 4 == 0 && r.len % 4 == 0)
  }

  lemma {:induction false} RegionsParts(file: seq<byte>, start: nat, off: nat, swap: bool, lens: seq<nat>)
    requires forall i :: 0 <= i < |lens| ==> lens[i] > 0 && (swap ==> lens[i] % 4 == 0)
    ensures forall r :: r in Regions(file, start, off, swap, lens) ==> PartOf(r, file, start, off, swap, Sum(lens))
    ensures InOrder(Regions(file, start, off, swap, lens))
    ensures swap ==> Sum(lens) % 4 == 0
  {
    if lens != [] {
      var n := |lens| - 1;
      var rs, before := Regions(file, start, off, swap, lens[..n]), Sum(lens[..n]);
      RegionsParts(file, start, off, swap, lens[..n]);
      var last := Region(file, start + before, lens[n], off + before, swap);
      assert Regions(file, start, off, swap, lens) == rs + [last];
      forall r | r in rs + [last] ensures PartOf(r, file, start, off, swap, Sum(lens)) {
        if r in rs { assert PartOf(r, file, start, off, swap, before); }
      }
      var all := Regions(file, start, off, swap, lens);
      forall i, j | 0 <= i < j < |all| ensures all[i].start + all[i].len <= all[j].start {
        assert all[i] == rs[i] && rs[i] in rs;
        assert PartOf(rs[i], file, start, off, swap, before);
        if j < n {
          assert all[j] == rs[j];
        } else {
          assert all[j] == last;
        }
      }
    }
  }

  lemma {:induction false} RegionsCover(file: seq<byte>, start: nat, off: nat, swap: bool, lens: seq<nat>, a: nat)
    returns (j: nat)
    requires start <= a < start + Sum(lens)
    ensures j < |lens| && Regions(file, start, off, swap, lens)[j].Covers(a)
  {
    var n := |lens| - 1;
    if a < start + Sum(lens[..n]) {
      j := RegionsCover(file, start, off, swap, lens[..n], a);
    } else {
      j := n;
    }
  }

  /** Some region of the range touches each of its pages, and no other page. */
  lemma {:induction false} RegionsPages(file: seq<byte>, start: nat, off: nat, swap: bool, lens: seq<nat>, pagesz: nat,
                                        p: nat)
    requires pagesz > 0 && lens != [] && forall i :: 0 <= i < |lens| ==> lens[i] > 0
    ensures Sum(lens) > 0
    ensures Awaited(Regions(file, start, off, swap, lens), p, pagesz) <==>
      Page(start, pagesz) <= p <= Page(start + Sum(lens) - 1, pagesz)
  {
    hide Page;
    var n := |lens| - 1;
    var rs, before := Regions(file, start, off, swap, lens[..n]), Sum(lens[..n]);
    var last := Region(file, start + before, lens[n], off + before, swap);
    var all := rs + [last];
    assert all[n] == last;
    assert Regions(file, start, off, swap, lens) == all;
    assert Awaited(all, p, pagesz) <==> Awaited(rs, p, pagesz) || Touches(last, p, pagesz) by {
      if Awaited(rs, p, pagesz) {
        var i :| 0 <= i < |rs| && Touches(rs[i], p, pagesz);
        assert all[i] == rs[i];
      }
    }
    PageMonotone(start + before, start + Sum(lens) - 1, pagesz);
    if n > 0 {
      RegionsPages(file, start, off, swap, lens[..n], pagesz, p);
      PageMonotone(start, start + before - 1, pagesz);
      PageMonotone(start + before - 1, start + before, pagesz);
      PageStep(start + before - 1, pagesz);
    }
  }

  // ---------- sorting ----------

  function InsertMap(r: Region, maps: seq<Region>): seq<Region> {
    if maps == [] then [r]
    else if r.start <= maps[0].start then [r] + maps
    else [maps[0]] + InsertMap(r, maps[1..])
  }

  function SortMaps(maps: seq<Region>): seq<Region> {
    if maps == [] then [] else InsertMap(maps[|maps| - 1], SortMaps(maps[..|maps| - 1]))
  }

  predicate Apart(r: Region, q: Region) {
    r.start + r.len <= q.start || q.start + q.len <= r.start
  }

  lemma {:induction false} InsertKeeps(r: Region, maps: seq<Region>)
    ensures forall q :: q in InsertMap(r, maps) <==> q == r || q in maps
  {
    if maps != [] && r.start > maps[0].start {
      InsertKeeps(r, maps[1..]);
      assert maps == [maps[0]] + maps[1..];
    }
  }

  lemma FirstOfOrder(r: Region, maps: seq<Region>, size: nat)
    requires RegionOk(r, size) && Layout(maps, size) && forall q :: q in maps ==> r.start + r.len <= q.start
    ensures Layout([r] + maps, size)
  {
  }

  lemma {:induction false} InsertSorts(r: Region, maps: seq<Region>, size: nat)
    requires Layout(maps, size) && RegionOk(r, size) && forall q :: q in maps ==> Apart(r, q)
    ensures Layout(InsertMap(r, maps), size)
  {
    if maps != [] {
      var head, tail := maps[0], maps[1..];
      assert maps == [head] + tail && head in maps;
      LayoutHead(maps, size);
      if r.start <= head.start {
        forall q | q in maps ensures r.start + r.len <= q.start {
          assert Apart(r, q) && Apart(r, head);
        }
        FirstOfOrder(r, maps, size);
      } else {
        hide Layout;
        InsertSorts(r, tail, size);
        InsertKeeps(r, tail);
        FirstOfOrder(head, InsertMap(r, tail), size);
      }
    }
  }

  lemma LayoutHead(maps: seq<Region>, size: nat)
    requires Layout(maps, size) && maps != []
    ensures RegionOk(maps[0], size) && Layout(maps[1..], size)
    ensures forall q :: q in maps[1..] ==> RegionOk(q, size) && maps[0].start + maps[0].len <= q.start
  {
    forall q | q in maps[1..] ensures RegionOk(q, size) && maps[0].start + maps[0].len <= q.start {
      var j :| 0 <= j < |maps| - 1 && maps[1..][j] == q;
      assert maps[j + 1] == q;
    }
  }

  lemma {:induction false} SortKeeps(maps: seq<Region>)
    ensures forall q :: q in SortMaps(maps) <==> q in maps
  {
    hide InsertMap;
    if maps != [] {
      var n := |maps| - 1;
      SortKeeps(maps[..n]);
      InsertKeeps(maps[n], SortMaps(maps[..n]));
      assert maps == maps[..n] + [maps[n]];
    }
  }

  ghost predicate AllApart(maps: seq<Region>) {
    forall i, j :: 0 <= i < j < |maps| ==> Apart(maps[i], maps[j])
  }

  lemma LastApart(maps: seq<Region>, n: nat)
    requires AllApart(maps) && n == |maps| - 1
    ensures AllApart(maps[..n]) && forall q :: q in maps[..n] ==> Apart(maps[n], q)
  {
    hide Apart;
    forall q | q in maps[..n] ensures Apart(maps[n], q) {
      var j :| 0 <= j < n && maps[..n][j] == q;
      ApartFlip(maps[j], maps[n]);
    }
  }

  lemma {:induction false} SortSorts(maps: seq<Region>, size: nat)
    requires (forall q :: q in maps ==> RegionOk(q, size)) && AllApart(maps)
    ensures Layout(SortMaps(maps), size)
    ensures forall q :: q in SortMaps(maps) <==> q in maps
  {
    hide Apart, AllApart, RegionOk, InsertMap;
    SortKeeps(maps);
    if maps != [] {
      var n := |maps| - 1;
      LastApart(maps, n);
      SortSorts(maps[..n], size);
      InsertSorts(maps[n], SortMaps(maps[..n]), size);
    }
  }

  lemma ApartFlip(r: Region, q: Region)
    requires Apart(r, q)
    ensures Apart(q, r)
  {
  }

  // ---------- mapping a range ----------

  ghost function OverlaidByte(was: byte, file: seq<byte>, start: nat, off: nat, len: nat, swap: bool, a: nat): byte
    requires off + len <= |file| && (swap ==> len % 4 == 0)
  {
    if start <= a < start + len then ByteAt(file, off, a - start, len, swap) else was
  }

  /** The bytes memory is to have once a range of it has been read from a file. */
  ghost function Overlay(view: seq<byte>, file: seq<byte>, start: nat, off: nat, len: nat, swap: bool): (r: seq<byte>)
    requires start + len <= |view| && off + len <= |file| && (swap ==> len % 4 == 0)
    ensures |r| == |view|
    ensures forall a :: 0 <= a < |view| ==> r[a] == OverlaidByte(view[a], file, start, off, len, swap, a)
  {
    seq(|view|, a requires 0 <= a < |view| => OverlaidByte(view[a], file, start, off, len, swap, a))
  }

  /** No region still to load touches the pages of the range. */
  ghost predicate Clear(maps: seq<Region>, start: nat, len: nat, pagesz: nat)
    requires pagesz > 0 && len > 0
  {
    forall i :: 0 <= i < |maps| ==>
      maps[i].EndPage(pagesz) < Page(start, pagesz) || Page(start + len - 1, pagesz) < maps[i].StartPage(pagesz)
  }

  /** What mapping needs of the cut: words are not split if they are to be swapped. */
  ghost predicate CutOk(lens: seq<nat>, len: nat, swap: bool) {
    Cut(lens, len) && len > 0 && (swap ==> forall i :: 0 <= i < |lens| ==> lens[i] % 4 == 0)
  }

  lemma {:induction false} MapLayout(maps: seq<Region>, file: seq<byte>, start: nat, off: nat, swap: bool,
                                     lens: seq<nat>, len: nat, pagesz: nat, size: nat)
    requires pagesz > 0 && Layout(maps, size) && CutOk(lens, len, swap) && start + len <= size && off + len <= |file|
    requires Clear(maps, start, len, pagesz)
    ensures var all := maps + Regions(file, start, off, swap, lens);
            Layout(SortMaps(all), size) && forall q :: q in SortMaps(all) <==> q in all
  {
    hide Page;
    var rs := Regions(file, start, off, swap, lens);
    var all := maps + rs;
    RegionsParts(file, start, off, swap, lens);
    Elsewhere(maps, start, len, pagesz, size);
    forall i | 0 <= i < |rs| ensures PartOf(rs[i], file, start, off, swap, len) && RegionOk(rs[i], size) {
      assert rs[i] in rs;
    }
    forall i, j | 0 <= i < |maps| && 0 <= j < |rs| ensures Apart(maps[i], rs[j]) {
      assert PartOf(rs[j], file, start, off, swap, len);
    }
    forall i, j | 0 <= i < j < |all| ensures Apart(all[i], all[j]) {
      if i >= |maps| {
        assert all[i] == rs[i - |maps|] && all[j] == rs[j - |maps|];
      } else if j >= |maps| {
        assert all[i] == maps[i] && all[j] == rs[j - |maps|];
      } else {
        assert all[i] == maps[i] && all[j] == maps[j];
      }
    }
    forall q | q in all ensures RegionOk(q, size) {
      if q in maps {
        var i :| 0 <= i < |maps| && maps[i] == q;
      } else {
        var i :| 0 <= i < |rs| && rs[i] == q;
      }
    }
    SortSorts(all, size);
  }

  lemma {:induction false} MapGuards(prot: seq<bool>, maps: seq<Region>, file: seq<byte>, start: nat, off: nat,
                                     swap: bool, lens: seq<nat>, len: nat,
                                     pagesz: nat, size: nat, maps': seq<Region>)
    requires Guarded(prot, maps, pagesz, size) && CutOk(lens, len, swap) && start + len <= size && Layout(maps', size)
    requires forall q :: q in maps' <==> q in maps + Regions(file, start, off, swap, lens)
    ensures Page(start, pagesz) <= Page(start + len - 1, pagesz) < |prot|
    ensures Guarded(Protect(prot, Page(start, pagesz), Page(start + len - 1, pagesz), true), maps', pagesz, size)
  {
    hide Page, Layout;
    var lo, hi, rs := Page(start, pagesz), Page(start + len - 1, pagesz), Regions(file, start, off, swap, lens);
    PageMonotone(start, start + len - 1, pagesz);
    forall p: nat | p < |prot| ensures Awaited(maps', p, pagesz) <==> lo <= p <= hi || Awaited(maps, p, pagesz) {
      RegionsPages(file, start, off, swap, lens, pagesz, p);
      AwaitedSame(maps', maps + rs, p, pagesz);
      AwaitedEither(maps, rs, p, pagesz);
    }
  }

  lemma AwaitedSame(a: seq<Region>, b: seq<Region>, p: nat, pagesz: nat)
    requires pagesz > 0 && forall q :: q in a <==> q in b
    ensures Awaited(a, p, pagesz) <==> Awaited(b, p, pagesz)
  {
    if Awaited(a, p, pagesz) {
      var i :| 0 <= i < |a| && Touches(a[i], p, pagesz);
      assert a[i] in b;
    }
    if Awaited(b, p, pagesz) {
      var i :| 0 <= i < |b| && Touches(b[i], p, pagesz);
      assert b[i] in a;
    }
  }

  lemma AwaitedEither(a: seq<Region>, b: seq<Region>, p: nat, pagesz: nat)
    requires pagesz > 0
    ensures Awaited(a + b, p, pagesz) <==> Awaited(a, p, pagesz) || Awaited(b, p, pagesz)
  {
    if Awaited(a, p, pagesz) {
      var i :| 0 <= i < |a| && Touches(a[i], p, pagesz);
      assert (a + b)[i] == a[i];
    }
    if Awaited(b, p, pagesz) {
      var i :| 0 <= i < |b| && Touches(b[i], p, pagesz);
      assert (a + b)[|a| + i] == b[i];
    }
  }

  /** The part of the range in a region has the bytes of the whole range. */
  lemma PartBytes(r: Region, file: seq<byte>, start: nat, off: nat, swap: bool, len: nat, a: nat)
    requires PartOf(r, file, start, off, swap, len) && off + len <= |file| && r.Covers(a) && (swap ==> len % 4 == 0)
    ensures Filed(r, a) == ByteAt(file, off, a - start, len, swap)
  {
    if swap { SameRest(r.start - start, a - r.start); }
  }

  lemma SameRest(base: nat, k: nat)
    requires base % 4 == 0
    ensures (base + k) % 4 == k % 4
  {
  }

  lemma {:induction false} MapSeen(mem: seq<byte>, maps: seq<Region>, view: seq<byte>, file: seq<byte>, start: nat,
                                   off: nat, swap: bool, lens: seq<nat>,
                                   len: nat, maps': seq<Region>)
    requires Seen(mem, maps, view) && CutOk(lens, len, swap) && start + len <= |mem| && off + len <= |file|
    requires Layout(maps', |mem|)
    requires forall q :: q in maps' <==> q in maps + Regions(file, start, off, swap, lens)
    requires forall i :: 0 <= i < |maps| ==> maps[i].start + maps[i].len <= start || start + len <= maps[i].start
    ensures (swap ==> len % 4 == 0) && Seen(mem, maps', Overlay(view, file, start, off, len, swap))
  {
    hide Filed, ByteAt, Regions;
    var rs := Regions(file, start, off, swap, lens);
    RegionsParts(file, start, off, swap, lens);
    var view' := Overlay(view, file, start, off, len, swap);
    forall i, a: nat | 0 <= i < |maps'| && maps'[i].Covers(a) ensures RegionOk(maps'[i], |mem|) &&
      view'[a] == Filed(maps'[i], a) {
      var r := maps'[i];
      assert r in maps';
      if r in rs {
        PartBytes(r, file, start, off, swap, len, a);
      } else {
        var j :| 0 <= j < |maps| && maps[j] == r;
      }
    }
    forall j | 0 <= j < |rs| ensures rs[j] in maps' { assert (maps + rs)[|maps| + j] == rs[j]; }
    forall a: nat | a < |mem| && (forall i :: 0 <= i < |maps'| ==> !maps'[i].Covers(a)) ensures mem[a] == view'[a] {
      if start <= a < start + len {
        var j := RegionsCover(file, start, off, swap, lens, a);
      } else {
        forall i | 0 <= i < |maps| ensures !maps[i].Covers(a) { assert maps[i] in maps'; }
      }
    }
  }
}
