/** Inverted lists held in arrays, the index over them, and the exchange of a range of lists
    (faiss/invlists/InvertedLists.cpp, faiss/IVFlib.cpp). */
module InvertedLists {
  import opened Basics

  /** The identifiers of each list and, in the same order, their codes of `codeSize` bytes. */
  datatype Lists = Lists(ids: seq<seq<int>>, codes: seq<seq<byte>>)
  {
    ghost predicate Fits(nlist: nat, codeSize: nat) {
      && |ids| == nlist && |codes| == nlist
      && forall i :: 0 <= i < nlist ==> |codes[i]| == |ids[i]| * codeSize
    }
  }

  /** The number of vectors in all lists. */
  ghost function TotalSize(ids: seq<seq<int>>): nat {
    if ids == [] then 0 else TotalSize(ids[..|ids| - 1]) + |ids[|ids| - 1]|
  }

  lemma {:induction false} TotalSizeUpdate(ids: seq<seq<int>>, i: nat, l: seq<int>)
    requires i < |ids|
    ensures TotalSize(ids[i := l]) == TotalSize(ids) - |ids[i]| + |l|
  {
    var last := |ids| - 1;
    if i == last {
      assert ids[i := l][..last] == ids[..last];
    } else {
      TotalSizeUpdate(ids[..last], i, l);
      assert ids[i := l][..last] == ids[..last][i := l];
    }
  }

  lemma {:induction false} TotalSizeOfEmpty(ids: seq<seq<int>>)
    requires forall i :: 0 <= i < |ids| ==> ids[i] == []
    ensures TotalSize(ids) == 0
  {
    if ids != [] { TotalSizeOfEmpty(ids[..|ids| - 1]); }
  }

  class ArrayInvertedLists {
    const nlist: nat
    const codeSize: nat
    var ids: seq<seq<int>>
    var codes: seq<seq<byte>>

    ghost function View(): Lists
      reads this
    {
      Lists(ids, codes)
    }

    ghost predicate Valid()
      reads this
    {
      View().Fits(nlist, codeSize)
    }

    constructor (nlist: nat, codeSize: nat)
      ensures this.nlist == nlist && this.codeSize == codeSize && Valid()
      ensures forall i :: 0 <= i < nlist ==> ids[i] == [] && codes[i] == []
    {
      this.nlist, this.codeSize := nlist, codeSize;
      ids, codes := seq(nlist, _ => []), seq(nlist, _ => []);
    }

    method AddEntries(listNo: nat, newIds: seq<int>, newCodes: seq<byte>)
      requires Valid() && listNo < nlist && |newCodes| == |newIds| * codeSize
      modifies this
      ensures Valid()
      ensures ids == old(ids)[listNo := old(ids)[listNo] + newIds]
      ensures codes == old(codes)[listNo := old(codes)[listNo] + newCodes]
    {
      if |newIds| == 0 {
        assert |newCodes| == 0 * codeSize == 0;
        assert ids[listNo] + newIds == ids[listNo] && codes[listNo] + newCodes == codes[listNo];
        return;
      }
      var a, b := |ids[listNo]|, |newIds|;
      assert (a + b) * codeSize == a * codeSize + b * codeSize;
      ids, codes := ids[listNo := ids[listNo] + newIds], codes[listNo := codes[listNo] + newCodes];
    }
  }

  class IndexIVF {
    const invlists: ArrayInvertedLists
    var ntotal: int

    ghost predicate Valid()
      reads this, invlists
    {
      invlists.Valid() && ntotal == TotalSize(invlists.ids)
    }

    constructor (nlist: nat, codeSize: nat)
      ensures fresh(invlists) && invlists.nlist == nlist && invlists.codeSize == codeSize
      ensures Valid() && ntotal == 0 && forall i :: 0 <= i < nlist ==> invlists.ids[i] == []
    {
      invlists := new ArrayInvertedLists(nlist, codeSize);
      ntotal := 0;
      new;
      TotalSizeOfEmpty(invlists.ids);
    }
  }

  /** A copy of the lists [i0, i1). */
  method GetInvlistRange(index: IndexIVF, i0: int, i1: int) returns (r: Result<ArrayInvertedLists>)
    requires index.Valid()
    ensures r.Ok? <==> 0 <= i0 <= i1 <= index.invlists.nlist
    ensures r.Ok? ==> fresh(r.value) && r.value.Valid()
                      && r.value.nlist == i1 - i0 && r.value.codeSize == index.invlists.codeSize
                      && r.value.ids == index.invlists.ids[i0..i1]
                      && r.value.codes == index.invlists.codes[i0..i1]
  {
    var src := index.invlists;
    if !(0 <= i0 <= i1 <= src.nlist) { return Error("bad range"); }
    var il := new ArrayInvertedLists(i1 - i0, src.codeSize);
    var i := i0;
    while i < i1
      invariant i0 <= i <= i1 && fresh(il) && il.Valid() && src.Valid()
      invariant il.nlist == i1 - i0 && il.codeSize == src.codeSize
      invariant forall h :: 0 <= h < i - i0 ==> il.ids[h] == src.ids[i0 + h] && il.codes[h] == src.codes[i0 + h]
      invariant forall h :: i - i0 <= h < i1 - i0 ==> il.ids[h] == [] && il.codes[h] == []
    {
      il.AddEntries(i - i0, src.ids[i], src.codes[i]);
      i := i + 1;
    }
    r := Ok(il);
  }

  /** The first `j` elements of `b` exchanged with those of `a` from `i0` on. */
  ghost predicate Exchanged<T>(a: seq<T>, b: seq<T>, i0: nat, j: nat, a': seq<T>, b': seq<T>) {
    && j <= |b| == |b'| && i0 + |b| <= |a| == |a'|
    && (forall h {:trigger a'[h]} :: 0 <= h < |a| ==> a'[h] == if i0 <= h < i0 + j then b[h - i0] else a[h])
    && (forall h {:trigger b'[h]} :: 0 <= h < |b| ==> b'[h] == if h < j then a[i0 + h] else b[h])
  }

  lemma ExchangeStep<T>(a: seq<T>, b: seq<T>, i0: nat, j: nat, a': seq<T>, b': seq<T>)
    requires j < |b| && Exchanged(a, b, i0, j, a', b')
    ensures |a'| == |a| && |b'| == |b|
    ensures Exchanged(a, b, i0, j + 1, a'[i0 + j := b'[j]], b'[j := a'[i0 + j]])
  {
  }

  /** A second exchange restores both sides. */
  lemma ExchangedTwice<T>(a: seq<T>, b: seq<T>, i0: nat, a': seq<T>, b': seq<T>, a'': seq<T>, b'': seq<T>)
    requires Exchanged(a, b, i0, |b|, a', b') && Exchanged(a', b', i0, |b|, a'', b'')
    ensures a'' == a && b'' == b && a'[i0..i0 + |b|] == b
  {
  }

  method SwapLists(dst: ArrayInvertedLists, i: nat, src: ArrayInvertedLists, j: nat)
    requires dst.Valid() && src.Valid() && dst != src && dst.codeSize == src.codeSize
    requires i < dst.nlist && j < src.nlist
    modifies dst, src
    ensures dst.Valid() && src.Valid()
    ensures dst.ids == old(dst.ids)[i := old(src.ids[j])] && dst.codes == old(dst.codes)[i := old(src.codes[j])]
    ensures src.ids == old(src.ids)[j := old(dst.ids[i])] && src.codes == old(src.codes)[j := old(dst.codes[i])]
  {
    var ids, codes := dst.ids[i], dst.codes[i];
    dst.ids, dst.codes := dst.ids[i := src.ids[j]], dst.codes[i := src.codes[j]];
    src.ids, src.codes := src.ids[j := ids], src.codes[j := codes];
  }

  /** Exchange the lists [i0, i1) of the index with those of `src`; the count of vectors follows. */
  method SetInvlistRange(index: IndexIVF, i0: int, i1: int, src: ArrayInvertedLists) returns (r: Result<()>)
    requires index.Valid() && src.Valid() && src != index.invlists
    modifies index, index.invlists, src
    ensures index.Valid() && src.Valid()
    ensures r.Ok? <==> 0 <= i0 <= i1 <= index.invlists.nlist
                       && src.nlist == i1 - i0 && src.codeSize == index.invlists.codeSize
    ensures r.Error? ==> index.invlists.View() == old(index.invlists.View()) && src.View() == old(src.View())
    ensures r.Ok? ==> Exchanged(old(index.invlists.ids), old(src.ids), i0, i1 - i0, index.invlists.ids, src.ids)
                      && Exchanged(old(index.invlists.codes), old(src.codes), i0, i1 - i0,
                                   index.invlists.codes, src.codes)
  {
    var dst := index.invlists;
    if !(0 <= i0 <= i1 <= dst.nlist) { return Error("bad range"); }
    if !(src.nlist == i1 - i0 && dst.codeSize == src.codeSize) { return Error("lists do not match"); }
    var ntotal := index.ntotal;
    ghost var ids0, part0, codes0, partCodes0 := dst.ids, src.ids, dst.codes, src.codes;
    var i := i0;
    while i < i1
      invariant i0 <= i <= i1 && dst.Valid() && src.Valid() && ntotal == TotalSize(dst.ids)
      invariant Exchanged(ids0, part0, i0, i - i0, dst.ids, src.ids)
      invariant Exchanged(codes0, partCodes0, i0, i - i0, dst.codes, src.codes)
    {
      ExchangeStep(ids0, part0, i0, i - i0, dst.ids, src.ids);
      ExchangeStep(codes0, partCodes0, i0, i - i0, dst.codes, src.codes);
      TotalSizeUpdate(dst.ids, i, src.ids[i - i0]);
      ntotal := ntotal - |dst.ids[i]| + |src.ids[i - i0]|;
      SwapLists(dst, i, src, i - i0);
      i := i + 1;
    }
    index.ntotal := ntotal;
    r := Ok(());
  }

  /** Exchanging the same range twice restores both sides, and getting a range after setting it
      returns what was set. */
  method ExchangeTwice(index: IndexIVF, i0: nat, i1: nat, src: ArrayInvertedLists) returns (copy: ArrayInvertedLists)
    requires index.Valid() && src.Valid() && src != index.invlists
    requires i0 <= i1 <= index.invlists.nlist
    requires src.nlist == i1 - i0 && src.codeSize == index.invlists.codeSize
    modifies index, index.invlists, src
    ensures index.Valid() && src.Valid() && fresh(copy)
    ensures index.invlists.ids == old(index.invlists.ids) && index.invlists.codes == old(index.invlists.codes)
    ensures src.ids == old(src.ids) == copy.ids && src.codes == old(src.codes) == copy.codes
  {
    var dst := index.invlists;
    ghost var ids0, codes0, part0, partCodes0 := dst.ids, dst.codes, src.ids, src.codes;
    var first := SetInvlistRange(index, i0, i1, src);
    ghost var ids1, codes1, part1, partCodes1 := dst.ids, dst.codes, src.ids, src.codes;
    var got := GetInvlistRange(index, i0, i1);
    copy := got.value;
    assert copy.ids == ids1[i0..i1] && copy.codes == codes1[i0..i1];
    var second := SetInvlistRange(index, i0, i1, src);
    ExchangedTwice(ids0, part0, i0, ids1, part1, dst.ids, src.ids);
    ExchangedTwice(codes0, partCodes0, i0, codes1, partCodes1, dst.codes, src.codes);
  }
}
