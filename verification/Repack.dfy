/** Repacking the heap of a file: the strings of its delta table, the names of its symbols and,
    in the ChangeSet file, its weave are written to a new heap (dataheap.c). */
module Repack {
  import opened Heap
  import H = HeapRepack
  import W = WeaveRepack

  /** What points into the heap: the delta table, the symbols, and the weave of each delta. */
  datatype File = File(table: H.Table, syms: seq<nat>, widx: seq<nat>) {
    ghost predicate Valid(was: Buffer, cset: bool) {
      && |table| >= 1 && H.Shaped(table) && H.Strings(was, table)
      && (forall i :: 0 <= i < |syms| ==> Ends(was, syms[i]))
      && (cset ==> |widx| == |table| && W.WeaveOk(was, W.Oldest(was, widx, |widx| - 1)))
    }

    ghost predicate SameShape(f: File) {
      |f.table| == |table| && H.Shaped(table) && H.Shaped(f.table) && |f.syms| == |syms| && |f.widx| == |widx|
    }
  }

  /** Field k of delta d reads the same in the new heap; the bamhash of a ChangeSet file, which
      is not copied, is left as it is. */
  ghost predicate FieldKept(was: Buffer, f: File, h: Buffer, f': File, cset: bool, d: nat, k: nat)
    requires f.SameShape(f') && d < |f.table| && k < H.FIELDS
  {
    if k in H.Together(cset) then H.Moved(was, f.table[d][k], h, f'.table[d][k]) else f'.table[d][k] == f.table[d][k]
  }

  /** Every string and symbol of the file reads the same in the new heap. */
  ghost predicate StringsKept(was: Buffer, f: File, h: Buffer, f': File, cset: bool) {
    && f.SameShape(f')
    && (forall d: nat, k: nat :: 1 <= d < |f.table| && k < H.FIELDS ==> FieldKept(was, f, h, f', cset, d, k))
    && (forall i :: 0 <= i < |f.syms| ==> At(h, f'.syms[i], StrAt(was, f.syms[i])))
  }

  /** Every delta of the weave reads the same entries, and rootkeys moved by rkmap. */
  ghost predicate WeaveKept(was: Buffer, f: File, h: Buffer, f': File, rkmap: map<nat, nat>)
    requires |f.widx| >= 1
  {
    && |f'.widx| == |f.widx| && W.Relocated(was, h, W.Oldest(was, f.widx, |f.widx| - 1), rkmap)
    && (|h| <= LIMIT ==> forall d :: 1 <= d < |f.widx| ==> W.DeltaKept(was, h, f.widx, f'.widx, rkmap, d))
  }

  /** The kind of a rootkey shows in its offset, exactly when its text is not also that of a
      shared field or a symbol, or it is a component. */
  ghost predicate KindShows(was: Buffer, f: File, rkmap: map<nat, nat>, comp: nat, bam: nat, len: nat, kinds: W.Kinds) {
    forall rk, packed: nat :: rk in rkmap && len <= packed ==>
      (W.TestsAgree(rkmap[rk], comp, bam, packed, kinds, StrAt(was, rk)) <==>
       !H.SharedWith(was, f.table, f.syms, true, StrAt(was, rk)) || kinds.Comp(StrAt(was, rk)))
  }

  method HeapRepack(was: Buffer, header: Text, f: File, cset: bool, kinds: W.Kinds, swapsz: nat)
    returns (heap: DataHeap, f': File, comp: nat, bam: nat, ghost rkmap: map<nat, nat>)
    requires NoZero(header) && f.Valid(was, cset)
    ensures fresh(heap) && heap.Valid() && At(heap.buf, 1, header)
    ensures StringsKept(was, f, heap.buf, f', cset)
    ensures if cset
      then WeaveKept(was, f, heap.buf, f', rkmap) && KindShows(was, f, rkmap, comp, bam, |heap.buf|, kinds)
            else f'.widx == f.widx && comp == 0 && bam == 0
  {
    hide H.Strings, H.SharedWith, H.Moved, H.Together, W.WeaveOk, W.Oldest, W.Relocated, W.DeltaKept, W.TestsAgree,
         Unique, At, StrAt, Ends, Grown, StringsKept;
    heap := new DataHeap();
    var off := heap.AddStr(header);
    ghost var h1 := heap.buf;
    var table, syms := H.RepackTable(heap, was, f.table, f.syms, cset, swapsz);
    f', comp, bam, rkmap := File(table, syms, f.widx), 0, 0, map[];
    ghost var h2, u2 := heap.buf, heap.uniq;
    AtGrown(h1, h2, 1, header);
    TableKept(was, f, h2, f', cset);
    if cset {
      var widx;
      widx, comp, bam, rkmap := W.RepackWeave(heap, was, f.widx, kinds);
      f' := f'.(widx := widx);
      AtGrown(h2, heap.buf, 1, header);
      StillKept(was, f, h2, File(table, syms, f.widx), cset, heap.buf, f');
    }
  }

  lemma TableKept(was: Buffer, f: File, h: Buffer, f': File, cset: bool)
    requires f.SameShape(f') && H.SymbolsMoved(was, f.syms, h, f'.syms, |f.syms|)
    requires forall d: nat, k: nat :: 1 <= d < |f.table| && k < H.FIELDS ==> FieldKept(was, f, h, f', cset, d, k)
    ensures StringsKept(was, f, h, f', cset)
  {
    hide FieldKept, At, StrAt;
  }

  /** What was written stays as the heap grows. */
  lemma {:induction false} StillKept(was: Buffer, f: File, h: Buffer, f1: File, cset: bool, h': Buffer, f': File)
    requires StringsKept(was, f, h, f1, cset) && Grown(h, h')
    requires f'.table == f1.table && f'.syms == f1.syms && |f'.widx| == |f1.widx|
    ensures StringsKept(was, f, h', f', cset)
  {
    hide At, StrAt, Grown, H.Moved, H.Together;
    forall d: nat, k: nat | 1 <= d < |f.table| && k < H.FIELDS ensures FieldKept(was, f, h', f', cset, d, k) {
      assert FieldKept(was, f, h, f1, cset, d, k);
      if k in H.Together(cset) { H.MovedGrown(was, f.table[d][k], h, h', f'.table[d][k]); }
    }
    forall i | 0 <= i < |f.syms| ensures At(h', f'.syms[i], StrAt(was, f.syms[i])) {
      AtGrown(h, h', f'.syms[i], StrAt(was, f.syms[i]));
    }
  }

  // ---------- a rootkey that is also a name ----------

  /** The string "a" at offset 1, and one weave entry with it as rootkey and deltakey. */
  function SharedHeap(): Buffer {
    [0, 97, 0] + (Enc(1) + (Enc(1) + Enc(0)))
  }

  function SharedFile(): File {
    var row := seq(H.FIELDS, i => 0);
    File([row, row], [1], [0, 3])
  }

  lemma SharedWords()
    ensures var was := SharedHeap();
            && |was| == 15 && was[1] == 97 && was[2] == 0
            && Word(was, 3) == 1 && Word(was, 7) == 1 && Word(was, 11) == 0
  {
    hide Word, Enc;
    WordRoundTrip(1);
    WordRoundTrip(0);
    var str, one, zero := [0, 97, 0], Enc(1), Enc(0);
    var was := SharedHeap();
    assert was == str + one + (one + zero);
    assert was == (str + one) + one + zero;
    assert was == (str + one + one) + zero + [];
    WordWithin(str, one, one + zero, 0);
    WordWithin(str + one, one, zero, 0);
    WordWithin(str + one + one, zero, [], 0);
  }

  lemma OneEntry(was: Buffer)
    requires |was| == 15 && Word(was, 3) == 1 && Word(was, 7) == 1 && Word(was, 11) == 0
    ensures W.Entries(was, 3) == [W.Ref(1, 1)]
  {
    hide Word;
    assert W.Entries(was, 11) == [];
  }

  lemma OneLetter(was: Buffer)
    requires |was| == 15 && was[1] == 97 && was[2] == 0
    ensures StrAt(was, 1) == [97]
  {
    assert StrAt(was, 2) == [];
  }

  lemma {:induction false} SharedEntry()
    ensures W.Oldest(SharedHeap(), SharedFile().widx, 1) == [W.Ref(1, 1)]
    ensures StrAt(SharedHeap(), 1) == [97]
  {
    hide Word, StrAt, W.Entries, SharedHeap;
    var was, widx := SharedHeap(), SharedFile().widx;
    SharedWords();
    OneEntry(was);
    OneLetter(was);
    hide SharedFile;
    assert W.Lines([W.Ref(1, 1)]) == [W.Ref(1, 1)];
    assert W.Block(was, widx, 1) == [W.Ref(1, 1)];
    assert W.Oldest(was, widx, 0) == [];
  }

  /** A file whose one symbol has the text of a rootkey: unless that is a component, the new
      offset of the rootkey does not show its kind. */
  lemma {:induction false} SharedName(kinds: W.Kinds, h: Buffer, f': File, rkmap: map<nat, nat>, comp: nat, bam: nat)
    requires WeaveKept(SharedHeap(), SharedFile(), h, f', rkmap)
    requires KindShows(SharedHeap(), SharedFile(), rkmap, comp, bam, |h|, kinds)
    requires !kinds.Comp([97])
    ensures SharedFile().Valid(SharedHeap(), true)
    ensures 1 in rkmap && !W.TestsAgree(rkmap[1], comp, bam, |h|, kinds, [97])
  {
    hide W.TestsAgree, W.Entries, W.DeltaKept, W.Oldest, StrAt, W.Block;
    var was, f := SharedHeap(), SharedFile();
    SharedEntry();
    var ls := [W.Ref(1, 1)];
    assert ls[0].rk == 1;
    assert W.HasRk(ls, 1);
    assert was[2] == 0;
    assert Ends(was, 1);
    assert H.SymbolText(was, f.syms, [97]) by { assert StrAt(was, f.syms[0]) == [97]; }
  }
}
