/** A window of index slices in first-in first-out order (faiss/IVFlib.cpp): the lists of the
    common index are the lists of the slices put one behind the other. */
module SlidingWindow {
  import opened Basics
  import opened InvertedLists

  ghost predicate AllFit(slices: seq<Lists>, nlist: nat, codeSize: nat) {
    forall s :: 0 <= s < |slices| ==> slices[s].Fits(nlist, codeSize)
  }

  /** List `i` of the slices, one slice behind the other. */
  ghost function Joined(slices: seq<Lists>, nlist: nat, i: nat): seq<int>
    requires i < nlist && forall s :: 0 <= s < |slices| ==> |slices[s].ids| == nlist
  {
    if slices == [] then [] else slices[0].ids[i] + Joined(slices[1..], nlist, i)
  }

  ghost function JoinedCodes(slices: seq<Lists>, nlist: nat, i: nat): seq<byte>
    requires i < nlist && forall s :: 0 <= s < |slices| ==> |slices[s].codes| == nlist
  {
    if slices == [] then [] else slices[0].codes[i] + JoinedCodes(slices[1..], nlist, i)
  }

  /** The size of list `i` over the first `m` slices. */
  ghost function Boundary(slices: seq<Lists>, nlist: nat, i: nat, m: nat): nat
    requires i < nlist && m <= |slices| && forall s :: 0 <= s < |slices| ==> |slices[s].ids| == nlist
  {
    if m == 0 then 0 else Boundary(slices, nlist, i, m - 1) + |slices[m - 1].ids[i]|
  }

  lemma {:induction false} JoinedAppend(slices: seq<Lists>, sub: Lists, nlist: nat, i: nat)
    requires i < nlist && forall s :: 0 <= s < |slices| ==> |slices[s].ids| == |slices[s].codes| == nlist
    requires |sub.ids| == |sub.codes| == nlist
    ensures Joined(slices + [sub], nlist, i) == Joined(slices, nlist, i) + sub.ids[i]
    ensures JoinedCodes(slices + [sub], nlist, i) == JoinedCodes(slices, nlist, i) + sub.codes[i]
  {
    var more := slices + [sub];
    if slices == [] {
      assert more == [sub] && more[1..] == [];
    } else {
      JoinedAppend(slices[1..], sub, nlist, i);
      assert more[0] == slices[0] && more[1..] == slices[1..] + [sub];
    }
  }

  lemma {:induction false} BoundaryPrefix(slices: seq<Lists>, more: seq<Lists>, nlist: nat, i: nat, m: nat)
    requires i < nlist && m <= |slices| && slices <= more
    requires forall s :: 0 <= s < |more| ==> |more[s].ids| == nlist
    ensures Boundary(more, nlist, i, m) == Boundary(slices, nlist, i, m)
  {
    if m > 0 { BoundaryPrefix(slices, more, nlist, i, m - 1); }
  }

  lemma {:induction false} BoundaryTail(slices: seq<Lists>, nlist: nat, i: nat, m: nat)
    requires i < nlist && 0 < m <= |slices| && forall s :: 0 <= s < |slices| ==> |slices[s].ids| == nlist
    ensures Boundary(slices, nlist, i, m) == |slices[0].ids[i]| + Boundary(slices[1..], nlist, i, m - 1)
  {
    if m > 1 { BoundaryTail(slices, nlist, i, m - 1); }
  }

  lemma {:induction false} JoinedSize(slices: seq<Lists>, nlist: nat, i: nat)
    requires i < nlist && forall s :: 0 <= s < |slices| ==> |slices[s].ids| == nlist
    ensures |Joined(slices, nlist, i)| == Boundary(slices, nlist, i, |slices|)
  {
    if slices != [] {
      var rest := slices[1..];
      JoinedSize(rest, nlist, i);
      BoundaryTail(slices, nlist, i, |slices|);
      assert Joined(slices, nlist, i) == slices[0].ids[i] + Joined(rest, nlist, i);
    }
  }

  lemma {:induction false} JoinedConcat(a: seq<Lists>, b: seq<Lists>, nlist: nat, i: nat)
    requires i < nlist && forall s :: 0 <= s < |a| ==> |a[s].ids| == |a[s].codes| == nlist
    requires forall s :: 0 <= s < |b| ==> |b[s].ids| == |b[s].codes| == nlist
    ensures Joined(a + b, nlist, i) == Joined(a, nlist, i) + Joined(b, nlist, i)
    ensures JoinedCodes(a + b, nlist, i) == JoinedCodes(a, nlist, i) + JoinedCodes(b, nlist, i)
  {
    if a == [] {
      assert a + b == b;
    } else {
      assert (a + b)[0] == a[0] && (a + b)[1..] == a[1..] + b;
      JoinedConcat(a[1..], b, nlist, i);
      Associate(a[0].ids[i], Joined(a[1..], nlist, i), Joined(b, nlist, i));
      Associate(a[0].codes[i], JoinedCodes(a[1..], nlist, i), JoinedCodes(b, nlist, i));
    }
  }

  /** What slice `s` contributes to list `i` lies behind the contributions of the slices before it. */
  lemma JoinedAround(slices: seq<Lists>, nlist: nat, i: nat, s: nat)
    requires i < nlist && s < |slices|
    requires forall t :: 0 <= t < |slices| ==> |slices[t].ids| == |slices[t].codes| == nlist
    ensures Joined(slices, nlist, i)
            == Joined(slices[..s], nlist, i) + (slices[s].ids[i] + Joined(slices[s + 1..], nlist, i))
    ensures JoinedCodes(slices, nlist, i)
            == JoinedCodes(slices[..s], nlist, i) + (slices[s].codes[i] + JoinedCodes(slices[s + 1..], nlist, i))
  {
    assert slices == slices[..s] + slices[s..];
    JoinedConcat(slices[..s], slices[s..], nlist, i);
    assert slices[s..][1..] == slices[s + 1..];
  }

  /** Drop the first `remove` elements and put `src` behind the rest. */
  method ShiftAndAdd<T>(dst: seq<T>, remove: nat, src: seq<T>) returns (r: seq<T>)
    requires remove <= |dst|
    ensures r == dst[remove..] + src
  {
    r := dst;
    if remove > 0 {
      // move the elements to keep to the front, in place
      var j := 0;
      while j < |dst| - remove
        invariant 0 <= j <= |dst| - remove && |r| == |dst|
        invariant forall p :: 0 <= p < j ==> r[p] == dst[p + remove]
        invariant forall p :: j <= p < |dst| ==> r[p] == dst[p]
      {
        r := r[j := r[j + remove]];
        j := j + 1;
      }
    }
    var insertPoint := |r| - remove;
    r := r[..insertPoint] + src;
  }

  method RemoveFromBegin<T>(v: seq<T>, remove: nat) returns (r: seq<T>)
    requires remove <= |v|
    ensures r == v[remove..]
  {
    r := if remove > 0 then v[remove..] else v;
  }

  /** Shift the boundaries of a list by one slice, in place; the last entry is left alone. */
  method ShiftSizes(sizes: seq<nat>, amount: nat) returns (r: seq<nat>)
    requires sizes != [] && forall j :: 0 <= j < |sizes| ==> sizes[j] >= amount
    ensures |r| == |sizes|
    ensures forall j :: 0 <= j < |r| - 1 ==> r[j] + amount == sizes[j + 1]
    ensures r[|r| - 1] == sizes[|r| - 1]
  {
    r := sizes;
    var j := 0;
    while j + 1 < |sizes|
      invariant 0 <= j < |sizes| == |r|
      invariant forall h :: 0 <= h < j ==> r[h] + amount == sizes[h + 1]
      invariant forall h :: j <= h < |sizes| ==> r[h] == sizes[h]
    {
      r := r[j := r[j + 1] - amount];
      j := j + 1;
    }
  }

  /** List `i` of a window over `slices`: contents, codes and boundaries. */
  ghost predicate ListHolds(slices: seq<Lists>, nlist: nat, codeSize: nat, i: nat,
                            ids: seq<int>, codes: seq<byte>, sizes: seq<nat>)
    requires i < nlist && AllFit(slices, nlist, codeSize)
  {
    && ids == Joined(slices, nlist, i)
    && codes == JoinedCodes(slices, nlist, i)
    && |sizes| == |slices|
    && forall j :: 0 <= j < |slices| ==> sizes[j] == Boundary(slices, nlist, i, j + 1)
  }

  lemma {:induction false} JoinedFits(slices: seq<Lists>, nlist: nat, codeSize: nat, i: nat)
    requires i < nlist && AllFit(slices, nlist, codeSize)
    ensures |JoinedCodes(slices, nlist, i)| == |Joined(slices, nlist, i)| * codeSize
  {
    if slices != [] {
      JoinedFits(slices[1..], nlist, codeSize, i);
      var a, b := |slices[0].ids[i]|, |Joined(slices[1..], nlist, i)|;
      assert (a + b) * codeSize == a * codeSize + b * codeSize;
    }
  }

  /** The boundaries on both sides of slice `s`. */
  lemma BoundsAre(slices: seq<Lists>, nlist: nat, i: nat, sizes: seq<nat>, s: nat, lo: nat, hi: nat)
    requires i < nlist && s < |slices| == |sizes| && forall t :: 0 <= t < |slices| ==> |slices[t].ids| == nlist
    requires forall j :: 0 <= j < |slices| ==> sizes[j] == Boundary(slices, nlist, i, j + 1)
    requires lo == (if s == 0 then 0 else sizes[s - 1]) && hi == sizes[s]
    ensures lo == |Joined(slices[..s], nlist, i)| && hi == lo + |slices[s].ids[i]|
  {
    JoinedSize(slices[..s], nlist, i);
    BoundaryPrefix(slices[..s], slices, nlist, i, s);
  }

  /** List `i` read off the boundaries: what lies between two of them are the identifiers that the slice in between has
      in the list... */
  lemma IdsMean(slices: seq<Lists>, nlist: nat, i: nat, sizes: seq<nat>, s: nat, lo: nat, hi: nat)
    requires i < nlist && s < |slices| == |sizes|
    requires forall t :: 0 <= t < |slices| ==> |slices[t].ids| == |slices[t].codes| == nlist
    requires forall j :: 0 <= j < |slices| ==> sizes[j] == Boundary(slices, nlist, i, j + 1)
    requires lo == (if s == 0 then 0 else sizes[s - 1]) && hi == sizes[s]
    ensures lo <= hi <= |Joined(slices, nlist, i)| && Joined(slices, nlist, i)[lo..hi] == slices[s].ids[i]
    ensures s == |slices| - 1 ==> hi == |Joined(slices, nlist, i)|
  {
    BoundsAre(slices, nlist, i, sizes, s, lo, hi);
    JoinedAround(slices, nlist, i, s);
    CutMiddle(Joined(slices[..s], nlist, i), slices[s].ids[i], Joined(slices[s + 1..], nlist, i));
    if s == |slices| - 1 { assert slices[s + 1..] == []; }
  }

  /** ... and its codes. */
  lemma CodesMean(slices: seq<Lists>, nlist: nat, codeSize: nat, i: nat, s: nat, lo: nat, hi: nat)
    requires i < nlist && AllFit(slices, nlist, codeSize) && s < |slices|
    requires lo == |Joined(slices[..s], nlist, i)| && hi == lo + |slices[s].ids[i]|
    ensures 0 <= lo * codeSize <= hi * codeSize <= |JoinedCodes(slices, nlist, i)|
    ensures JoinedCodes(slices, nlist, i)[lo * codeSize..hi * codeSize] == slices[s].codes[i]
  {
    var before, own := JoinedCodes(slices[..s], nlist, i), slices[s].codes[i];
    JoinedFits(slices[..s], nlist, codeSize, i);
    var n := |slices[s].ids[i]|;
    assert (lo + n) * codeSize == lo * codeSize + n * codeSize;
    assert |before| == lo * codeSize && |own| == n * codeSize;
    JoinedAround(slices, nlist, i, s);
    CutMiddle(before, own, JoinedCodes(slices[s + 1..], nlist, i));
  }

  /** The window after a step. */
  function Stepped(slices: seq<Lists>, sub: Option<Lists>, removeOldest: bool): seq<Lists>
    requires removeOldest ==> slices != []
  {
    (if removeOldest then slices[1..] else slices) + (if sub.Some? then [sub.value] else [])
  }

  class SlidingIndexWindow {
    const index: IndexIVF
    var nSlice: nat
    var sizes: seq<seq<nat>>
    ghost var slices: seq<Lists>

    /** Lists before `i` hold the slices `after`, the others the slices `before`. */
    ghost predicate HalfWay(before: seq<Lists>, after: seq<Lists>, i: nat)
      reads this, index, index.invlists
    {
      var nlist, codeSize := index.invlists.nlist, index.invlists.codeSize;
      && AllFit(before, nlist, codeSize) && AllFit(after, nlist, codeSize)
      && |sizes| == nlist && index.Valid()
      && forall h :: 0 <= h < nlist ==>
           ListHolds(if h < i then after else before, nlist, codeSize, h,
                     index.invlists.ids[h], index.invlists.codes[h], sizes[h])
    }

    ghost predicate Valid()
      reads this, index, index.invlists
    {
      nSlice == |slices| && HalfWay(slices, slices, 0)
    }

    /** The index should be initially empty. */
    constructor (index: IndexIVF)
      requires index.Valid() && forall i :: 0 <= i < index.invlists.nlist ==> index.invlists.ids[i] == []
      ensures this.index == index && Valid() && slices == []
    {
      this.index := index;
      nSlice := 0;
      sizes := seq(index.invlists.nlist, _ => []);
      slices := [];
      new;
      forall i | 0 <= i < index.invlists.nlist ensures index.invlists.codes[i] == [] {
        assert |index.invlists.codes[i]| == 0 * index.invlists.codeSize;
      }
    }

    /** Each list of the index holds the live slices, one behind the other, as the boundaries say. */
    lemma ValidMeans(i: nat, s: nat)
      requires Valid() && i < index.invlists.nlist && s < |slices|
      ensures |sizes| == |index.invlists.ids| == |index.invlists.codes| == index.invlists.nlist
      ensures |sizes[i]| == |slices| == nSlice && i < |slices[s].ids| && i < |slices[s].codes|
      ensures var lo, hi := if s == 0 then 0 else sizes[i][s - 1], sizes[i][s];
              && lo <= hi <= |index.invlists.ids[i]| && index.invlists.ids[i][lo..hi] == slices[s].ids[i]
              && (s == |slices| - 1 ==> hi == |index.invlists.ids[i]|)
      ensures var c := index.invlists.codeSize;
              var lo, hi := (if s == 0 then 0 else sizes[i][s - 1]) * c, sizes[i][s] * c;
              0 <= lo <= hi <= |index.invlists.codes[i]| && index.invlists.codes[i][lo..hi] == slices[s].codes[i]
    {
      var ils := index.invlists;
      var lo, hi := if s == 0 then 0 else sizes[i][s - 1], sizes[i][s];
      BoundsAre(slices, ils.nlist, i, sizes[i], s, lo, hi);
      IdsMean(slices, ils.nlist, i, sizes[i], s, lo, hi);
      CodesMean(slices, ils.nlist, ils.codeSize, i, s, lo, hi);
    }

    /** Add one slice and/or remove the oldest one. */
    method Step(sub: ArrayInvertedLists?, compatible: bool, removeOldest: bool) returns (r: Result<()>)
      requires Valid() && sub != index.invlists
      requires sub != null && compatible ==>
                 sub.Valid() && sub.nlist == index.invlists.nlist && sub.codeSize == index.invlists.codeSize
      modifies this, index, index.invlists
      ensures Valid()
      ensures r.Error? <==> (removeOldest && old(slices) == []) || (sub != null && !compatible)
                            || (sub == null && !removeOldest)
      ensures r.Error? ==> slices == old(slices)
      ensures r.Ok? ==> slices == Stepped(old(slices), if sub == null then None else Some(sub.View()), removeOldest)
      ensures r.Ok? ==> slices == (if removeOldest then old(slices)[1..] else old(slices))
                                  + (if sub == null then [] else [Lists(sub.ids, sub.codes)])
    {
      if !(!removeOldest || nSlice > 0) {
        return Error("cannot remove slice: there is none");
      }
      if sub != null && !compatible {
        return Error("incompatible index");
      }
      if removeOldest && sub != null {
        Replace(sub);
      } else if sub != null {
        Push(sub);
      } else if removeOldest {
        Drop();
      } else {
        return Error("nothing to do???");
      }
      r := Ok(());
    }

    method Replace(sub: ArrayInvertedLists)
      requires Valid() && slices != [] && sub != index.invlists
      requires sub.Valid() && sub.nlist == index.invlists.nlist && sub.codeSize == index.invlists.codeSize
      modifies this, index, index.invlists
      ensures Valid() && slices == Stepped(old(slices), Some(sub.View()), true)
    {
      var ils := index.invlists;
      ghost var before, after := slices, Stepped(slices, Some(sub.View()), true);
      var i := 0;
      while i < ils.nlist
        invariant 0 <= i <= ils.nlist && slices == before && nSlice == |slices|
        invariant HalfWay(before, after, i)
      {
        var amountToRemove := sizes[i][0];
        DropFits(before, ils.nlist, ils.codeSize, i, ils.ids[i], ils.codes[i], sizes[i]);
        var newIds := ShiftAndAdd(ils.ids[i], amountToRemove, sub.ids[i]);
        var newCodes := ShiftAndAdd(ils.codes[i], amountToRemove * ils.codeSize, sub.codes[i]);
        var newSizes := ShiftSizes(sizes[i], amountToRemove);
        newSizes := newSizes[nSlice - 1 := |newIds|];
        ReplaceHolds(before, sub.View(), ils.nlist, ils.codeSize, i, ils.ids[i], ils.codes[i], sizes[i],
                     newIds, newCodes, newSizes);
        Install(i, |sub.ids[i]| - amountToRemove, newIds, newCodes, newSizes, before, after);
        i := i + 1;
      }
      slices := after;
    }

    method Push(sub: ArrayInvertedLists)
      requires Valid() && sub != index.invlists
      requires sub.Valid() && sub.nlist == index.invlists.nlist && sub.codeSize == index.invlists.codeSize
      modifies this, index, index.invlists
      ensures Valid() && slices == Stepped(old(slices), Some(sub.View()), false)
    {
      var ils := index.invlists;
      ghost var before, after := slices, Stepped(slices, Some(sub.View()), false);
      var i := 0;
      while i < ils.nlist
        invariant 0 <= i <= ils.nlist && slices == before && nSlice == |slices|
        invariant HalfWay(before, after, i)
      {
        var newIds := ShiftAndAdd(ils.ids[i], 0, sub.ids[i]);
        var newCodes := ShiftAndAdd(ils.codes[i], 0, sub.codes[i]);
        var newSizes := sizes[i] + [|newIds|];
        PushHolds(before, sub.View(), ils.nlist, ils.codeSize, i, ils.ids[i], ils.codes[i], sizes[i],
                  newIds, newCodes, newSizes);
        Install(i, |sub.ids[i]|, newIds, newCodes, newSizes, before, after);
        i := i + 1;
      }
      nSlice := nSlice + 1;
      slices := after;
    }

    method Drop()
      requires Valid() && slices != []
      modifies this, index, index.invlists
      ensures Valid() && slices == Stepped(old(slices), None, true)
    {
      var ils := index.invlists;
      ghost var before, after := slices, Stepped(slices, None, true);
      assert after == before[1..];
      var i := 0;
      while i < ils.nlist
        invariant 0 <= i <= ils.nlist && slices == before && nSlice == |slices|
        invariant HalfWay(before, after, i)
      {
        var amountToRemove := sizes[i][0];
        DropFits(before, ils.nlist, ils.codeSize, i, ils.ids[i], ils.codes[i], sizes[i]);
        var newIds := RemoveFromBegin(ils.ids[i], amountToRemove);
        var newCodes := RemoveFromBegin(ils.codes[i], amountToRemove * ils.codeSize);
        var newSizes := ShiftSizes(sizes[i], amountToRemove);
        newSizes := newSizes[..nSlice - 1];
        DropHolds(before, ils.nlist, ils.codeSize, i, ils.ids[i], ils.codes[i], sizes[i],
                  newIds, newCodes, newSizes);
        Install(i, -amountToRemove, newIds, newCodes, newSizes, before, after);
        i := i + 1;
      }
      nSlice := nSlice - 1;
      slices := after;
    }

    /** Put a new list `i` in place, with `delta` more vectors. */
    method Install(i: nat, delta: int, newIds: seq<int>, newCodes: seq<byte>, newSizes: seq<nat>,
                   ghost before: seq<Lists>, ghost after: seq<Lists>)
      requires i < index.invlists.nlist && HalfWay(before, after, i)
      requires ListHolds(after, index.invlists.nlist, index.invlists.codeSize, i, newIds, newCodes, newSizes)
      requires |newIds| == |index.invlists.ids[i]| + delta
      modifies this`sizes, index, index.invlists
      ensures HalfWay(before, after, i + 1)
    {
      var ils := index.invlists;
      JoinedFits(after, ils.nlist, ils.codeSize, i);
      TotalSizeUpdate(ils.ids, i, newIds);
      index.ntotal := index.ntotal + delta;
      ils.ids, ils.codes := ils.ids[i := newIds], ils.codes[i := newCodes];
      sizes := sizes[i := newSizes];
    }
  }

  /** The first boundary of a list says what belongs to the oldest slice. */
  lemma DropFits(slices: seq<Lists>, nlist: nat, codeSize: nat, i: nat,
                 ids: seq<int>, codes: seq<byte>, sizes: seq<nat>)
    requires i < nlist && slices != [] && AllFit(slices, nlist, codeSize)
    requires ListHolds(slices, nlist, codeSize, i, ids, codes, sizes)
    ensures sizes[0] == |slices[0].ids[i]| <= |ids|
    ensures 0 <= sizes[0] * codeSize == |slices[0].codes[i]| <= |codes|
    ensures forall j :: 0 <= j < |sizes| ==> sizes[j] >= sizes[0]
    ensures ids[sizes[0]..] == Joined(slices[1..], nlist, i)
    ensures codes[sizes[0] * codeSize..] == JoinedCodes(slices[1..], nlist, i)
  {
    assert Boundary(slices, nlist, i, 0) == 0;
    assert sizes[0] == Boundary(slices, nlist, i, 0 + 1);
    forall j | 0 <= j < |sizes| ensures sizes[j] >= sizes[0] {
      BoundaryTail(slices, nlist, i, j + 1);
    }
  }

  lemma DropHolds(slices: seq<Lists>, nlist: nat, codeSize: nat, i: nat,
                  ids: seq<int>, codes: seq<byte>, sizes: seq<nat>,
                  ids': seq<int>, codes': seq<byte>, sizes': seq<nat>)
    requires i < nlist && slices != [] && AllFit(slices, nlist, codeSize)
    requires ListHolds(slices, nlist, codeSize, i, ids, codes, sizes)
    requires |sizes| > 0 && sizes[0] <= |ids| && ids' == ids[sizes[0]..]
    requires 0 <= sizes[0] * codeSize <= |codes| && codes' == codes[sizes[0] * codeSize..]
    requires |sizes'| == |sizes| - 1 && forall j :: 0 <= j < |sizes'| ==> sizes'[j] + sizes[0] == sizes[j + 1]
    ensures ListHolds(slices[1..], nlist, codeSize, i, ids', codes', sizes')
  {
    DropFits(slices, nlist, codeSize, i, ids, codes, sizes);
    forall j | 0 <= j < |sizes'| ensures sizes'[j] == Boundary(slices[1..], nlist, i, j + 1) {
      BoundaryTail(slices, nlist, i, j + 2);
    }
  }

  lemma PushHolds(slices: seq<Lists>, sub: Lists, nlist: nat, codeSize: nat, i: nat,
                  ids: seq<int>, codes: seq<byte>, sizes: seq<nat>,
                  ids': seq<int>, codes': seq<byte>, sizes': seq<nat>)
    requires i < nlist && AllFit(slices, nlist, codeSize) && sub.Fits(nlist, codeSize)
    requires ListHolds(slices, nlist, codeSize, i, ids, codes, sizes)
    requires ids' == ids + sub.ids[i] && codes' == codes + sub.codes[i] && sizes' == sizes + [|ids'|]
    ensures ListHolds(slices + [sub], nlist, codeSize, i, ids', codes', sizes')
  {
    JoinedAppend(slices, sub, nlist, i);
    JoinedSize(slices + [sub], nlist, i);
    forall j | 0 <= j < |slices| ensures sizes'[j] == Boundary(slices + [sub], nlist, i, j + 1) {
      BoundaryPrefix(slices, slices + [sub], nlist, i, j + 1);
    }
  }

  lemma ReplaceHolds(slices: seq<Lists>, sub: Lists, nlist: nat, codeSize: nat, i: nat,
                     ids: seq<int>, codes: seq<byte>, sizes: seq<nat>,
                     ids': seq<int>, codes': seq<byte>, sizes': seq<nat>)
    requires i < nlist && slices != [] && AllFit(slices, nlist, codeSize) && sub.Fits(nlist, codeSize)
    requires ListHolds(slices, nlist, codeSize, i, ids, codes, sizes)
    requires |sizes| > 0 && sizes[0] <= |ids| && ids' == ids[sizes[0]..] + sub.ids[i]
    requires 0 <= sizes[0] * codeSize <= |codes| && codes' == codes[sizes[0] * codeSize..] + sub.codes[i]
    requires |sizes'| == |sizes| && sizes'[|sizes| - 1] == |ids'|
    requires forall j :: 0 <= j < |sizes| - 1 ==> sizes'[j] + sizes[0] == sizes[j + 1]
    ensures ListHolds(slices[1..] + [sub], nlist, codeSize, i, ids', codes', sizes')
  {
    var n := |sizes| - 1;
    var kept := sizes'[..n];
    DropHolds(slices, nlist, codeSize, i, ids, codes, sizes, ids[sizes[0]..], codes[sizes[0] * codeSize..], kept);
    assert sizes' == kept + [|ids'|];
    PushHolds(slices[1..], sub, nlist, codeSize, i, ids[sizes[0]..], codes[sizes[0] * codeSize..], kept,
              ids', codes', sizes');
  }

  /** The entries of a list: every identifier with its code. */
  ghost function Entries(ids: seq<int>, codes: seq<byte>, codeSize: nat): seq<(int, seq<byte>)>
    decreases |ids|
  {
    if ids == [] || |codes| < codeSize then []
    else [(ids[0], codes[..codeSize])] + Entries(ids[1..], codes[codeSize..], codeSize)
  }

  lemma CodeFits(n: nat, codeSize: nat)
    requires n > 0
    ensures codeSize <= n * codeSize == codeSize + (n - 1) * codeSize
  {
    MulMonotone(codeSize, 1, n);
  }

  lemma {:induction false} EntriesCount(ids: seq<int>, codes: seq<byte>, codeSize: nat)
    requires |codes| == |ids| * codeSize
    ensures |Entries(ids, codes, codeSize)| == |ids|
    decreases |ids|
  {
    if ids != [] {
      CodeFits(|ids|, codeSize);
      EntriesCount(ids[1..], codes[codeSize..], codeSize);
    }
  }

  lemma CutSum<T>(a: seq<T>, b: seq<T>, k: nat)
    requires k <= |a|
    ensures (a + b)[..k] == a[..k] && (a + b)[k..] == a[k..] + b
  {
  }

  lemma {:induction false} EntriesJoin(ids: seq<int>, codes: seq<byte>,
                                       ids': seq<int>, codes': seq<byte>, codeSize: nat)
    requires |codes| == |ids| * codeSize
    ensures Entries(ids + ids', codes + codes', codeSize)
            == Entries(ids, codes, codeSize) + Entries(ids', codes', codeSize)
    decreases |ids|
  {
    if ids == [] {
      assert ids + ids' == ids' && codes + codes' == codes';
    } else {
      CodeFits(|ids|, codeSize);
      CutSum(ids, ids', 1);
      CutSum(codes, codes', codeSize);
      EntriesJoin(ids[1..], codes[codeSize..], ids', codes', codeSize);
      assert (ids + ids')[0] == ids[0];
    }
  }

  /** The entries of list `i` of every slice, one slice behind the other. */
  ghost function JoinedEntries(slices: seq<Lists>, nlist: nat, codeSize: nat, i: nat): seq<(int, seq<byte>)>
    requires i < nlist && AllFit(slices, nlist, codeSize)
  {
    if slices == [] then []
    else Entries(slices[0].ids[i], slices[0].codes[i], codeSize) + JoinedEntries(slices[1..], nlist, codeSize, i)
  }

  /** Every identifier in the window is still next to the code it came with. */
  lemma {:induction false} CodesStayPaired(slices: seq<Lists>, nlist: nat, codeSize: nat, i: nat)
    requires i < nlist && AllFit(slices, nlist, codeSize)
    ensures |JoinedCodes(slices, nlist, i)| == |Joined(slices, nlist, i)| * codeSize
    ensures Entries(Joined(slices, nlist, i), JoinedCodes(slices, nlist, i), codeSize)
            == JoinedEntries(slices, nlist, codeSize, i)
    ensures |JoinedEntries(slices, nlist, codeSize, i)| == |Joined(slices, nlist, i)|
  {
    JoinedFits(slices, nlist, codeSize, i);
    EntriesCount(Joined(slices, nlist, i), JoinedCodes(slices, nlist, i), codeSize);
    if slices != [] {
      var rest := slices[1..];
      CodesStayPaired(rest, nlist, codeSize, i);
      EntriesJoin(slices[0].ids[i], slices[0].codes[i], Joined(rest, nlist, i), JoinedCodes(rest, nlist, i), codeSize);
    }
  }

  // ---- whole runs ----

  datatype Command = Command(sub: Option<Lists>, removeOldest: bool)

  ghost predicate Legal(slices: seq<Lists>, c: Command) {
    (c.removeOldest ==> slices != []) && (c.sub.Some? || c.removeOldest)
  }

  /** The commands lead from an empty window to `slices`. */
  ghost predicate Run(cmds: seq<Command>, slices: seq<Lists>) {
    if cmds == [] then slices == []
    else
      var last := cmds[|cmds| - 1];
      exists before :: Run(cmds[..|cmds| - 1], before) && Legal(before, last)
                       && slices == Stepped(before, last.sub, last.removeOldest)
  }

  ghost function Added(cmds: seq<Command>): seq<Lists> {
    if cmds == [] then []
    else
      var last := cmds[|cmds| - 1];
      Added(cmds[..|cmds| - 1]) + (if last.sub.Some? then [last.sub.value] else [])
  }

  ghost function Removals(cmds: seq<Command>): nat {
    if cmds == [] then 0
    else Removals(cmds[..|cmds| - 1]) + if cmds[|cmds| - 1].removeOldest then 1 else 0
  }

  /** First in, first out: the live slices are all the added ones but as many of the oldest as
      there were removals. */
  lemma {:induction false} LiveSlices(cmds: seq<Command>, slices: seq<Lists>)
    requires Run(cmds, slices)
    ensures Removals(cmds) <= |Added(cmds)|
    ensures slices == Added(cmds)[Removals(cmds)..]
  {
    if cmds != [] {
      var last, init := cmds[|cmds| - 1], cmds[..|cmds| - 1];
      var before :| Run(init, before) && Legal(before, last)
                    && slices == Stepped(before, last.sub, last.removeOldest);
      LiveSlices(init, before);
    }
  }
}
