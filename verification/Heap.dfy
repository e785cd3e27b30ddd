/** Operations on binary heaps in the rows of two matrices (faiss/utils/Heap.h, Heap.cpp): the
    distances and the identifiers of the best results found so far for each query. */
module Heap {
  import opened Basics
  import opened HeapOrder
  import opened HeapResults

  type Values = array2<Option<real>>
  type Ids = array2<int>

  ghost predicate SameShape(val: Values, ids: Ids) {
    val.Length0 == ids.Length0 && val.Length1 == ids.Length1
  }

  /** The heap in row `q`. */
  ghost function Row(val: Values, ids: Ids, q: nat): (s: seq<Slot>)
    requires SameShape(val, ids) && q < val.Length0
    reads val, ids
    ensures |s| == val.Length1
    ensures forall j :: 0 <= j < |s| ==> s[j] == Slot(val[q, j], ids[q, j])
  {
    seq(val.Length1, j requires 0 <= j < val.Length1 reads val, ids => Slot(val[q, j], ids[q, j]))
  }

  /** The rows other than `q` are as they were. */
  twostate predicate OthersKept(val: Values, ids: Ids, q: nat)
    reads val, ids
  {
    SameShape(val, ids) &&
    forall p: nat, j: nat :: p < val.Length0 && p != q && j < val.Length1 ==>
      val[p, j] == old(val[p, j]) && ids[p, j] == old(ids[p, j])
  }

  /** Row `q` is `s`, except perhaps at position `i`. */
  ghost predicate RowIsBut(val: Values, ids: Ids, q: nat, s: seq<Slot>, i: nat)
    reads val, ids
  {
    && SameShape(val, ids) && q < val.Length0 && |s| == val.Length1
    && forall j :: 0 <= j < |s| && j != i ==> val[q, j] == s[j].val && ids[q, j] == s[j].id
  }

  /** The child of `i`, among the first `n` places of row `q`, that takes the place of `x` (positions
      count from 1). */
  method FindRiser(keepMax: bool, val: Values, ids: Ids, q: nat, n: nat, x: Slot, i: nat, ghost s: seq<Slot>)
    returns (c: nat)
    requires 1 <= i <= n <= |s| && RowIsBut(val, ids, q, s, i - 1)
    ensures Riser(keepMax, s[..n], x, i - 1) == if c == 0 then None else Some(c - 1)
  {
    var i1 := 2 * i;
    var i2 := i1 + 1;
    if i1 > n { return 0; }
    var first := Slot(val[q, i1 - 1], ids[q, i1 - 1]);
    c := i1;
    if !(i2 == n + 1 || WorseSlot(keepMax, first, Slot(val[q, i2 - 1], ids[q, i2 - 1]))) { c := i2; }
    if WorseSlot(keepMax, x, Slot(val[q, c - 1], ids[q, c - 1])) { c := 0; }
  }

  /** Move the result at position `c` to position `i`. */
  method MoveUp(val: Values, ids: Ids, q: nat, i: nat, c: nat, ghost s: seq<Slot>)
    requires 1 <= i <= |s| && 1 <= c <= |s| && i != c && RowIsBut(val, ids, q, s, i - 1)
    modifies val, ids
    ensures RowIsBut(val, ids, q, Swap(s, i - 1, c - 1), c - 1)
    ensures OthersKept(val, ids, q)
  {
    val[q, i - 1], ids[q, i - 1] := val[q, c - 1], ids[q, c - 1];
  }

  method Place(val: Values, ids: Ids, q: nat, i: nat, x: Slot, ghost s: seq<Slot>)
    requires i < |s| && RowIsBut(val, ids, q, s, i) && s[i] == x
    modifies val, ids
    ensures SameShape(val, ids) && q < val.Length0 && Row(val, ids, q) == s
    ensures OthersKept(val, ids, q)
  {
    val[q, i], ids[q, i] := x.val, x.id;
  }

  /** Let `x`, in place of the top, move down the heap in the first `n` places of row `q`. */
  method SiftDown(keepMax: bool, val: Values, ids: Ids, q: nat, n: nat, x: Slot)
    requires SameShape(val, ids) && q < val.Length0 && 0 < n <= val.Length1
    modifies val, ids
    ensures OthersKept(val, ids, q)
    ensures Row(val, ids, q) == Down(keepMax, old(Row(val, ids, q))[0 := x], n, x, 0)
  {
    ghost var was := Row(val, ids, q);
    ghost var s := was[0 := x];
    var i := 1;
    while true
      invariant 1 <= i <= n && |s| == |was| && s[i - 1] == x
      invariant Down(keepMax, s, n, x, i - 1) == Down(keepMax, was[0 := x], n, x, 0)
      invariant RowIsBut(val, ids, q, s, i - 1)
      invariant OthersKept(val, ids, q)
      decreases n - i
    {
      var c := FindRiser(keepMax, val, ids, q, n, x, i, s);
      if c == 0 { break; }
      MoveUp(val, ids, q, i, c, s);
      s, i := Swap(s, i - 1, c - 1), c;
    }
    Place(val, ids, q, i - 1, x, s);
  }

  /** All places are free. */
  method Heapify(val: Values, ids: Ids)
    requires SameShape(val, ids)
    modifies val, ids
    ensures forall q: nat, j: nat :: q < val.Length0 && j < val.Length1 ==> val[q, j] == None && ids[q, j] == -1
  {
    forall q, j | 0 <= q < val.Length0 && 0 <= j < val.Length1 {
      val[q, j] := None;
    }
    forall q, j | 0 <= q < val.Length0 && 0 <= j < val.Length1 {
      ids[q, j] := -1;
    }
  }

  /** A line of results. */
  function Line(dis: seq<Option<real>>, ids: seq<int>): (r: seq<Slot>)
    requires |dis| == |ids|
    ensures |r| == |dis| && forall j :: 0 <= j < |r| ==> r[j] == Slot(dis[j], ids[j])
  {
    seq(|dis|, j requires 0 <= j < |dis| && |dis| == |ids| => Slot(dis[j], ids[j]))
  }

  /** Offer a line of results to the heap of query `q`. */
  method AddLine(keepMax: bool, val: Values, ids: Ids, q: nat, dis: seq<Option<real>>, idLine: seq<int>)
    requires SameShape(val, ids) && q < val.Length0 && val.Length1 > 0 && |dis| == |idLine|
    modifies val, ids
    ensures OthersKept(val, ids, q)
    ensures Row(val, ids, q) == OfferedAll(keepMax, old(Row(val, ids, q)), Line(dis, idLine))
  {
    ghost var was, line := Row(val, ids, q), Line(dis, idLine);
    var j := 0;
    while j < |dis|
      invariant 0 <= j <= |dis|
      invariant OthersKept(val, ids, q)
      invariant Row(val, ids, q) == OfferedAll(keepMax, was, line[..j])
    {
      assert line[..j + 1][..j] == line[..j];
      if Worse(keepMax, val[q, 0], dis[j]) {
        SiftDown(keepMax, val, ids, q, val.Length1, Slot(dis[j], idLine[j]));
      }
      j := j + 1;
    }
    assert line[..j] == line;
  }

  /** The identifiers of the results: the same for all lines, or a line for each. */
  datatype IdLines = Shared(line: seq<int>) | Own(lines: seq<seq<int>>)
  {
    predicate Match(dis: seq<seq<Option<real>>>) {
      && (Own? ==> |lines| == |dis|)
      && forall i :: 0 <= i < |dis| ==> |At(i)| == |dis[i]|
    }

    function At(i: nat): seq<int>
      requires Own? ==> i < |lines|
    {
      if Shared? then line else lines[i]
    }
  }

  /** The results offered to query `q`, in order. */
  ghost function OfferedTo(subset: seq<nat>, dis: seq<seq<Option<real>>>, ids: IdLines, n: nat, q: nat): seq<Slot>
    requires n <= |subset| == |dis| && ids.Match(dis)
  {
    if n == 0 then []
    else OfferedTo(subset, dis, ids, n - 1, q)
         + if subset[n - 1] == q then Line(dis[n - 1], ids.At(n - 1)) else []
  }

  lemma {:induction false} OfferedTwice(keepMax: bool, s: seq<Slot>, a: seq<Slot>, b: seq<Slot>)
    requires s != []
    ensures OfferedAll(keepMax, s, a + b) == OfferedAll(keepMax, OfferedAll(keepMax, s, a), b)
  {
    if b == [] {
      assert a + b == a;
    } else {
      OfferedTwice(keepMax, s, a, b[..|b| - 1]);
      assert (a + b)[..|a + b| - 1] == a + b[..|b| - 1];
    }
  }

  ghost function Rows(val: Values, ids: Ids): (r: seq<seq<Slot>>)
    requires SameShape(val, ids)
    reads val, ids
    ensures |r| == val.Length0 && forall q :: 0 <= q < |r| ==> r[q] == Row(val, ids, q)
  {
    seq(val.Length0, q requires 0 <= q < val.Length0 reads val, ids => Row(val, ids, q))
  }

  /** The heaps after the first `n` lines. */
  ghost predicate AreOffered(keepMax: bool, val: Values, ids: Ids, was: seq<seq<Slot>>, subset: seq<nat>,
                             dis: seq<seq<Option<real>>>, idLines: IdLines, n: nat)
    reads val, ids
  {
    && SameShape(val, ids) && |was| == val.Length0 && n <= |subset| == |dis| && idLines.Match(dis)
    && forall q: nat :: q < val.Length0 ==>
         was[q] != [] && Row(val, ids, q) == OfferedAll(keepMax, was[q], OfferedTo(subset, dis, idLines, n, q))
  }

  method AddNext(keepMax: bool, val: Values, ids: Ids, subset: seq<nat>, dis: seq<seq<Option<real>>>,
                 idLines: IdLines, si: nat, ghost was: seq<seq<Slot>>)
    requires si < |subset| && subset[si] < val.Length0 && val.Length1 > 0
    requires AreOffered(keepMax, val, ids, was, subset, dis, idLines, si)
    modifies val, ids
    ensures AreOffered(keepMax, val, ids, was, subset, dis, idLines, si + 1)
  {
    ghost var rows, line := Rows(val, ids), Line(dis[si], idLines.At(si));
    AddLine(keepMax, val, ids, subset[si], dis[si], idLines.At(si));
    forall q: nat | q < val.Length0
      ensures Row(val, ids, q) == OfferedAll(keepMax, was[q], OfferedTo(subset, dis, idLines, si + 1, q))
    {
      var before := OfferedTo(subset, dis, idLines, si, q);
      assert rows[q] == OfferedAll(keepMax, was[q], before);
      if q == subset[si] {
        OfferedTwice(keepMax, was[q], before, line);
      } else {
        assert Row(val, ids, q) == rows[q];
        assert before + [] == before;
      }
    }
  }

  /** Add results for a subset of the heaps; the same query may occur several times. */
  method AddSubset(keepMax: bool, val: Values, ids: Ids, subset: seq<nat>, dis: seq<seq<Option<real>>>,
                   idLines: IdLines)
    requires SameShape(val, ids) && val.Length1 > 0
    requires |subset| == |dis| && idLines.Match(dis)
    requires forall i :: 0 <= i < |subset| ==> subset[i] < val.Length0
    modifies val, ids
    ensures forall q: nat :: q < val.Length0 ==>
              Row(val, ids, q)
              == OfferedAll(keepMax, old(Row(val, ids, q)), OfferedTo(subset, dis, idLines, |subset|, q))
  {
    ghost var was := Rows(val, ids);
    var si := 0;
    while si < |subset|
      invariant 0 <= si <= |subset|
      invariant AreOffered(keepMax, val, ids, was, subset, dis, idLines, si)
    {
      AddNext(keepMax, val, ids, subset, dis, idLines, si, was);
      si := si + 1;
    }
  }

  /** Pop the top of the heap in the first `n` places: the last result moves down from there. */
  method Pop(keepMax: bool, val: Values, ids: Ids, q: nat, n: nat)
    requires SameShape(val, ids) && q < val.Length0 && 0 < n <= val.Length1
    modifies val, ids
    ensures OthersKept(val, ids, q)
    ensures Row(val, ids, q) == Popped(keepMax, old(Row(val, ids, q)), n)
  {
    SiftDown(keepMax, val, ids, q, n, Slot(val[q, n - 1], ids[q, n - 1]));
  }

  /** Pop the top of the heap in the first `n` places and put it before the last `m`; a result
      without identifier is going to be overwritten. */
  method PopToEnd(keepMax: bool, val: Values, ids: Ids, q: nat, n: nat, m: nat) returns (m': nat)
    requires SameShape(val, ids) && q < val.Length0 && 0 < n && n + m <= val.Length1
    modifies val, ids
    ensures OthersKept(val, ids, q)
    ensures Row(val, ids, q) == PoppedToEnd(keepMax, old(Row(val, ids, q)), n, m)
    ensures m' == if IsReal(old(Row(val, ids, q)[0])) then m + 1 else m
  {
    var top := Slot(val[q, 0], ids[q, 0]);
    Pop(keepMax, val, ids, q, n);
    var last := val.Length1 - m - 1;
    Place(val, ids, q, last, top, Row(val, ids, q)[last := top]);
    m' := if top.id != -1 then m + 1 else m;
  }

  /** Sort the heap in row `q`; returns the number of results. */
  method Reorder(keepMax: bool, val: Values, ids: Ids, q: nat) returns (nel: nat)
    requires SameShape(val, ids) && q < val.Length0
    modifies val, ids
    ensures OthersKept(val, ids, q)
    ensures (Row(val, ids, q), nel) == SortedHeap(keepMax, old(Row(val, ids, q)))
  {
    ghost var was := Row(val, ids, q);
    var k := val.Length1;
    var i, ii := 0, 0;
    while i < k
      invariant 0 <= ii <= i <= k
      invariant OthersKept(val, ids, q)
      invariant Unloaded(keepMax, Row(val, ids, q), k - i, ii) == Unloaded(keepMax, was, k, 0)
    {
      ii := PopToEnd(keepMax, val, ids, q, k - i, ii);
      i := i + 1;
    }
    nel := ii;
    MoveToFront(val, ids, q, ii);
  }

  /** Move the last `n` places of row `q` to the front and free the others. */
  method MoveToFront(val: Values, ids: Ids, q: nat, n: nat)
    requires SameShape(val, ids) && q < val.Length0 && n <= val.Length1
    modifies val, ids
    ensures OthersKept(val, ids, q)
    ensures Row(val, ids, q) == ToFront(old(Row(val, ids, q)), n)
  {
    var k := val.Length1;
    forall j | 0 <= j < n { val[q, j] := val[q, k - n + j]; }
    forall j | 0 <= j < n { ids[q, j] := ids[q, k - n + j]; }
    var ii := n;
    while ii < k
      invariant n <= ii <= k
      invariant OthersKept(val, ids, q)
      invariant forall j :: 0 <= j < n ==> val[q, j] == old(val[q, k - n + j]) && ids[q, j] == old(ids[q, k - n + j])
      invariant forall j :: n <= j < ii ==> val[q, j] == None && ids[q, j] == -1
    {
      val[q, ii], ids[q, ii] := None, -1;
      ii := ii + 1;
    }
  }
}
