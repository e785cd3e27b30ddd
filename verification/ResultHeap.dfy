/** The results of a batch of queries, a heap for each (faiss/python/extra_wrappers.py). */
module ResultHeap {
  import opened Basics
  import opened HeapOrder
  import opened HeapResults
  import opened Heap

  /** The heaps after results for a subset of them. */
  ghost function AllOffered(keepMax: bool, rows: seq<seq<Slot>>, subset: seq<nat>, dis: seq<seq<Option<real>>>,
                            ids: IdLines): (r: seq<seq<Slot>>)
    requires |subset| == |dis| && ids.Match(dis) && forall q :: 0 <= q < |rows| ==> rows[q] != []
    ensures |r| == |rows|
    ensures forall q: nat :: q < |r| ==> r[q] == OfferedAll(keepMax, rows[q], OfferedTo(subset, dis, ids, |subset|, q))
  {
    seq(|rows|, q requires 0 <= q < |rows| => OfferedAll(keepMax, rows[q], OfferedTo(subset, dis, ids, |subset|, q)))
  }

  class ResultHeap {
    const nq: nat
    const k: nat
    const keepMax: bool
    const D: Values
    const I: Ids

    ghost predicate Valid() {
      SameShape(D, I) && D.Length0 == nq && D.Length1 == k && k > 0
    }

    /** The results of each query. */
    ghost function Results(): (r: seq<seq<Slot>>)
      requires Valid()
      reads D, I
      ensures |r| == nq && forall q :: 0 <= q < nq ==> |r[q]| == k
    {
      Rows(D, I)
    }

    constructor (nq: nat, k: nat, keepMax: bool)
      requires k > 0
      ensures Valid() && fresh(D) && fresh(I)
      ensures this.nq == nq && this.k == k && this.keepMax == keepMax
      ensures Results() == seq(nq, _ => seq(k, _ => FREE))
    {
      var val, ids := new Option<real>[nq, k], new int[nq, k];
      Heapify(val, ids);
      this.nq, this.k, this.keepMax := nq, k, keepMax;
      D, I := val, ids;
      new;
      assert forall q: nat :: q < nq ==> Row(D, I, q) == seq(k, _ => FREE);
    }

    /** Add results for a subset of the heaps; the same query may occur several times. */
    method AddResultSubset(subset: seq<nat>, dis: seq<seq<Option<real>>>, ids: IdLines)
      requires Valid() && |subset| == |dis| && ids.Match(dis)
      requires forall i :: 0 <= i < |subset| ==> subset[i] < nq
      modifies D, I
      ensures Results() == AllOffered(keepMax, old(Results()), subset, dis, ids)
    {
      AddSubset(keepMax, D, I, subset, dis, ids);
    }

    /** Sort the heaps. */
    method Finalize()
      requires Valid()
      modifies D, I
      ensures forall q :: 0 <= q < nq ==> Results()[q] == SortedHeap(keepMax, old(Results())[q]).0
    {
      ghost var was := Rows(D, I);
      var j := 0;
      while j < nq
        invariant 0 <= j <= nq
        invariant forall q: nat :: q < j ==> Row(D, I, q) == SortedHeap(keepMax, was[q]).0
        invariant forall q: nat :: j <= q < nq ==> Row(D, I, q) == was[q]
      {
        SortRow(j);
        j := j + 1;
      }
    }

    method SortRow(j: nat)
      requires Valid() && j < nq
      modifies D, I
      ensures Row(D, I, j) == SortedHeap(keepMax, old(Row(D, I, j))).0
      ensures forall q: nat :: q < nq && q != j ==> Row(D, I, q) == old(Row(D, I, q))
    {
      var nel := Reorder(keepMax, D, I, j);
    }
  }
}
