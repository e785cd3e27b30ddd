/** Searching an inverted file bucket by bucket (contrib/big_batch_search.py): the queries that
    probe a bucket are matched against it together and its results merged into their heaps. */
module BigBatch {
  import opened Basics
  import opened TopK
  import opened Bags
  import opened HeapOrder
  import opened HeapResults
  import opened Heap
  import opened ResultHeap

  /** What the search reads from the index: how many lists there are, the identifiers in each, the
      distances it finds for a query in a list and, when it finds only the best ones, where they are
      in the list. A position without result has no distance and can be -1, which counts from the end. */
  datatype Index = Index(nlist: nat, listIds: nat -> seq<int>, dis: (nat, nat) -> seq<Option<real>>,
                         pos: Option<(nat, nat) -> seq<int>>)
  {
    predicate Fits(q: nat, l: nat) {
      if pos.None? then |dis(q, l)| == |listIds(l)|
      else |dis(q, l)| == |pos.value(q, l)|
           && forall j :: 0 <= j < |dis(q, l)| ==> -|listIds(l)| <= pos.value(q, l)[j] < |listIds(l)|
    }

    ghost predicate Valid() {
      forall q: nat, l: nat :: listIds(l) != [] ==> Fits(q, l)
    }

    /** What query `q` finds in list `l`. */
    function Found(q: nat, l: nat): seq<Slot> {
      if listIds(l) == [] || !Fits(q, l) then []
      else Line(dis(q, l), if pos.None? then listIds(l) else AtAll(listIds(l), pos.value(q, l)))
    }

    /** Matching the queries `qSubset` against list `l`; nothing when there is nothing to compare. */
    function BlockSearch(qSubset: seq<nat>, l: nat): (r: Option<BlockResult>)
    {
      if qSubset == [] || listIds(l) == [] then None
      else Some((seq(|qSubset|, i requires 0 <= i < |qSubset| => dis(qSubset[i], l)),
                 if pos.None? then None
                 else Some(seq(|qSubset|, i requires 0 <= i < |qSubset| => pos.value(qSubset[i], l)))))
    }
  }

  /** Distances and positions for each query. */
  type BlockResult = (seq<seq<Option<real>>>, Option<seq<seq<int>>>)

  /** The elements of `ids` at the positions `row`, negative ones counting from the end. */
  function AtAll(ids: seq<int>, row: seq<int>): (r: seq<int>)
    requires forall j :: 0 <= j < |row| ==> -|ids| <= row[j] < |ids|
    ensures |r| == |row|
  {
    seq(|row|, j requires 0 <= j < |row| => if row[j] < 0 then ids[|ids| + row[j]] else ids[row[j]])
  }

  /** A coarse assignment: row q lists the lists that query q probes, -1 standing for none. */
  ghost predicate IsAssignment(assign: seq<seq<int>>, nprobe: nat, nlist: nat) {
    forall q :: 0 <= q < |assign| ==>
      |assign[q]| == nprobe && forall j :: 0 <= j < nprobe ==> -1 <= assign[q][j] < nlist
  }

  /** Cumulative bucket bounds into an array of `n` entries. */
  ghost predicate IsLimits(lims: seq<nat>, nbucket: nat, n: nat) {
    && |lims| == nbucket + 1 && lims[nbucket] <= n
    && forall i, j :: 0 <= i <= j <= nbucket ==> lims[i] <= lims[j]
  }

  /** Sorting a matrix of bucket numbers: the rows in which each bucket occurs, as often as it
      occurs there, in no particular order. */
  ghost predicate IsBucketSort(tab: seq<seq<nat>>, nbucket: nat, flat: seq<nat>, lims: seq<nat>) {
    && IsLimits(lims, nbucket, |flat|)
    && (forall i :: 0 <= i < |flat| ==> flat[i] < |tab|)
    && forall b, q :: 0 <= b < nbucket && 0 <= q < |tab| ==>
         multiset(flat[lims[b]..lims[b + 1]])[q] == multiset(tab[q])[b]
  }

  type BucketSort = (seq<seq<nat>>, nat) -> (seq<nat>, seq<nat>)

  ghost predicate Sorts(sort: BucketSort) {
    forall tab, n :: (forall q, j :: 0 <= q < |tab| && 0 <= j < |tab[q]| ==> tab[q][j] < n) ==>
      IsBucketSort(tab, n, sort(tab, n).0, sort(tab, n).1)
  }

  /** `qSubset` lists the queries that probe list `l`, each as often as it does. */
  ghost predicate IsProbe(assign: seq<seq<int>>, qSubset: seq<nat>, l: nat) {
    && (forall i :: 0 <= i < |qSubset| ==> qSubset[i] < |assign|)
    && forall q: nat :: q < |assign| ==> multiset(qSubset)[q] == multiset(assign[q])[l]
  }

  /** The queries of each list, as the bucket sort leaves them once the -1s are dropped. */
  ghost predicate IsGrouping(assign: seq<seq<int>>, nlist: nat, ids: seq<nat>, lims: seq<nat>) {
    && IsLimits(lims, nlist, |ids|)
    && forall l: nat :: l < nlist ==> IsProbe(assign, BucketOf(ids, lims, l), l)
  }

  function BucketOf(ids: seq<nat>, lims: seq<nat>, l: nat): seq<nat> {
    if l + 1 < |lims| && lims[l] <= lims[l + 1] <= |ids| then ids[lims[l]..lims[l + 1]] else []
  }

  function Shifted(row: seq<int>): (r: seq<nat>)
    requires forall j :: 0 <= j < |row| ==> row[j] >= -1
    ensures |r| == |row| && forall j :: 0 <= j < |row| ==> r[j] == row[j] + 1
  {
    seq(|row|, j requires 0 <= j < |row| => row[j] + 1)
  }

  lemma {:induction false} ShiftedCount(row: seq<int>, l: nat)
    requires forall j :: 0 <= j < |row| ==> row[j] >= -1
    ensures multiset(Shifted(row))[l + 1] == multiset(row)[l]
  {
    if row != [] {
      var last := |row| - 1;
      ShiftedCount(row[..last], l);
      assert row == row[..last] + [row[last]];
      assert Shifted(row) == Shifted(row[..last]) + [row[last] + 1];
    }
  }

  /** The scores that query `q` finds in list `l`, once for each time it probes the list. */
  ghost function FoundIn(index: Index, assign: seq<seq<int>>, keepMax: bool): Findings<real> {
    (q: nat, l: nat) =>
      if q < |assign| then Copies(multiset(assign[q])[l], Scores(keepMax, index.Found(q, l))) else multiset{}
  }

  /** The same with identifiers. */
  ghost function ResultsIn(index: Index, assign: seq<seq<int>>): Findings<Slot> {
    (q: nat, l: nat) =>
      if q < |assign| then Copies(multiset(assign[q])[l], multiset(index.Found(q, l))) else multiset{}
  }

  /** Each of the first `n` lines for query `q` is `line`. */
  ghost predicate SameLine(subset: seq<nat>, dis: seq<seq<Option<real>>>, ids: IdLines, n: nat, q: nat, line: seq<Slot>)
  {
    && n <= |subset| == |dis| && ids.Match(dis)
    && forall i :: 0 <= i < n && subset[i] == q ==> Line(dis[i], ids.At(i)) == line
  }

  ghost function Repeated(n: nat, line: seq<Slot>): seq<Slot> {
    if n == 0 then [] else Repeated(n - 1, line) + line
  }

  /** What a query is offered, if it has the same line in all its places. */
  lemma {:induction false} OfferedRepeated(subset: seq<nat>, dis: seq<seq<Option<real>>>, ids: IdLines,
                                           n: nat, q: nat, line: seq<Slot>)
    requires SameLine(subset, dis, ids, n, q, line)
    ensures OfferedTo(subset, dis, ids, n, q) == Repeated(Places(subset, n, q), line)
  {
    if n > 0 { OfferedRepeated(subset, dis, ids, n - 1, q, line); }
  }

  lemma {:induction false} ScoresRepeated(keepMax: bool, n: nat, line: seq<Slot>)
    ensures Scores(keepMax, Repeated(n, line)) == Copies(n, Scores(keepMax, line))
  {
    if n > 0 {
      ScoresRepeated(keepMax, n - 1, line);
      ScoresConcat(keepMax, Repeated(n - 1, line), line);
    }
  }

  lemma {:induction false} ResultsRepeated(n: nat, line: seq<Slot>)
    ensures multiset(Repeated(n, line)) == Copies(n, multiset(line))
  {
    if n > 0 { ResultsRepeated(n - 1, line); }
  }

  /** How often `q` is among the first `n`. */
  ghost function Places(subset: seq<nat>, n: nat, q: nat): nat
    requires n <= |subset|
  {
    if n == 0 then 0 else Places(subset, n - 1, q) + if subset[n - 1] == q then 1 else 0
  }

  lemma {:induction false} PlacesCount(subset: seq<nat>, n: nat, q: nat)
    requires n <= |subset|
    ensures Places(subset, n, q) == multiset(subset[..n])[q]
  {
    if n > 0 {
      PlacesCount(subset, n - 1, q);
      TakeStep(subset, n - 1);
    }
  }

  lemma CountAppend<T>(row: seq<T>, v: T, x: T)
    ensures multiset(row + [v])[x] == multiset(row)[x] + if v == x then 1 else 0
  {
  }

  lemma {:induction false} CopiesOfNothing<T>(n: nat)
    ensures Copies<T>(n, multiset{}) == multiset{}
  {
    if n > 0 { CopiesOfNothing<T>(n - 1); }
  }

  /** The queries of a bucket, what the block search found for them, and the identifiers in the list. */
  type BucketResults = (seq<nat>, Option<BlockResult>, seq<int>)

  /** The results in `s` are among those of `m`, as often as they are there. */
  ghost predicate Genuine(s: seq<Slot>, m: multiset<Slot>) {
    forall x: Slot :: x.val.Some? ==> multiset(s)[x] <= m[x]
  }

  lemma {:induction false} NoResults(keepMax: bool, k: nat)
    ensures Scores(keepMax, seq(k, _ => FREE)) == multiset{}
    ensures Genuine(seq(k, _ => FREE), multiset{})
  {
    if k > 0 {
      var s := seq(k, _ => FREE);
      NoResults(keepMax, k - 1);
      assert s == seq(k - 1, _ => FREE) + [FREE];
      ScoresAppend(keepMax, seq(k - 1, _ => FREE), FREE);
    }
  }

  /** A heap of size `k` holds the best scores of `scores`, with results from `results`. */
  ghost predicate HoldsBest(keepMax: bool, k: nat, s: seq<Slot>, scores: multiset<real>, results: multiset<Slot>) {
    && |s| == k && HeapRow(keepMax, s)
    && Scores(keepMax, s) == multiset(Best(k, scores)) && Genuine(s, results)
  }

  /** What a list offers query `q`: what it finds there, once for each time that it probes the list. */
  ghost function Offer(index: Index, assign: seq<seq<int>>, q: nat, l: nat): seq<Slot>
    requires q < |assign|
  {
    Repeated(multiset(assign[q])[l], index.Found(q, l))
  }

  /** The heap of query `q` once the lists of `log` have been added in this order. */
  ghost function HeapAfter(index: Index, assign: seq<seq<int>>, keepMax: bool, k: nat, q: nat, log: seq<nat>)
    : (r: seq<Slot>)
    requires q < |assign| && k > 0
    ensures |r| == k && r != []
  {
    if log == [] then seq(k, _ => FREE)
    else OfferedAll(keepMax, HeapAfter(index, assign, keepMax, k, q, log[..|log| - 1]),
                    Offer(index, assign, q, log[|log| - 1]))
  }

  ghost function HeapsAfter(index: Index, assign: seq<seq<int>>, keepMax: bool, k: nat, log: seq<nat>)
    : (r: seq<seq<Slot>>)
    requires k > 0
    ensures |r| == |assign|
  {
    seq(|assign|, q requires 0 <= q < |assign| => HeapAfter(index, assign, keepMax, k, q, log))
  }

  lemma HeapStep(index: Index, assign: seq<seq<int>>, keepMax: bool, k: nat, q: nat, log: seq<nat>, l: nat)
    requires q < |assign| && k > 0
    ensures HeapAfter(index, assign, keepMax, k, q, log + [l])
            == OfferedAll(keepMax, HeapAfter(index, assign, keepMax, k, q, log), Offer(index, assign, q, l))
  {
    assert (log + [l])[..|log|] == log;
  }

  /** Merging what one more list offers into a heap that holds the best of a log. */
  lemma MergeOne(keepMax: bool, k: nat, c: Findings<real>, d: Findings<Slot>, q: nat, log: seq<nat>,
                 was: seq<Slot>, line: seq<Slot>, s: seq<Slot>)
    requires log != [] && HoldsBest(keepMax, k, was, Total(c, q, log[..|log| - 1]), Total(d, q, log[..|log| - 1]))
    requires Scores(keepMax, line) == c(q, log[|log| - 1]) && multiset(line) == d(q, log[|log| - 1])
    requires s == OfferedAll(keepMax, was, line)
    ensures HoldsBest(keepMax, k, s, Total(c, q, log), Total(d, q, log))
  {
    OfferedAllKeeps(keepMax, was, line);
    OfferedAllIsBest(keepMax, was, line);
    MergeAbsorbs(k, Total(c, q, log[..|log| - 1]), c(q, log[|log| - 1]));
    StillGenuine(was, line, s, Total(d, q, log[..|log| - 1]));
  }

  lemma StillGenuine(was: seq<Slot>, line: seq<Slot>, s: seq<Slot>, m: multiset<Slot>)
    requires Genuine(was, m) && multiset(s) <= multiset(was) + multiset(line)
    ensures Genuine(s, m + multiset(line))
  {
  }

  /** Each heap holds the best of what the lists added so far have to offer, with their identifiers. */
  lemma {:induction false} HeapAfterIsBest(index: Index, assign: seq<seq<int>>, keepMax: bool, k: nat, q: nat,
                                           log: seq<nat>, s: seq<Slot>)
    requires q < |assign| && k > 0 && s == HeapAfter(index, assign, keepMax, k, q, log)
    ensures HoldsBest(keepMax, k, s,
                      Total(FoundIn(index, assign, keepMax), q, log), Total(ResultsIn(index, assign), q, log))
  {
    if log == [] {
      NoResults(keepMax, k);
      BestIs([], k, multiset{});
    } else {
      var init, l := log[..|log| - 1], log[|log| - 1];
      var was := HeapAfter(index, assign, keepMax, k, q, init);
      HeapAfterIsBest(index, assign, keepMax, k, q, init, was);
      OfferIsFound(index, assign, keepMax, q, l);
      MergeOne(keepMax, k, FoundIn(index, assign, keepMax), ResultsIn(index, assign), q, log,
               was, Offer(index, assign, q, l), s);
    }
  }

  lemma OfferIsFound(index: Index, assign: seq<seq<int>>, keepMax: bool, q: nat, l: nat)
    requires q < |assign|
    ensures Scores(keepMax, Offer(index, assign, q, l)) == FoundIn(index, assign, keepMax)(q, l)
    ensures multiset(Offer(index, assign, q, l)) == ResultsIn(index, assign)(q, l)
  {
    ScoresRepeated(keepMax, multiset(assign[q])[l], index.Found(q, l));
    ResultsRepeated(multiset(assign[q])[l], index.Found(q, l));
  }

  /** The identifiers to go with the distances that the block search finds in list `l`. */
  ghost predicate IdsOf(index: Index, ids: IdLines, qSubset: seq<nat>, l: nat) {
    var r := index.BlockSearch(qSubset, l);
    r.Some? ==>
      && ids.Match(r.value.0)
      && forall i :: 0 <= i < |qSubset| ==> Line(r.value.0[i], ids.At(i)) == index.Found(qSubset[i], l)
  }

  /** What a bucket offers query `q`: what it finds in the list, once for each time it probes it. */
  lemma BucketFindings(index: Index, assign: seq<seq<int>>, qSubset: seq<nat>, l: nat, ids: IdLines, q: nat)
    requires q < |assign| && IsProbe(assign, qSubset, l) && IdsOf(index, ids, qSubset, l)
    ensures var r := index.BlockSearch(qSubset, l);
            Offer(index, assign, q, l) == if r.None? then [] else OfferedTo(qSubset, r.value.0, ids, |qSubset|, q)
  {
    var r, line := index.BlockSearch(qSubset, l), index.Found(q, l);
    if r.Some? {
      OfferedRepeated(qSubset, r.value.0, ids, |qSubset|, q, line);
      PlacesCount(qSubset, |qSubset|, q);
      assert qSubset[..|qSubset|] == qSubset;
    } else if qSubset != [] {
      RepeatedNothing(multiset(qSubset)[q]);
    }
  }

  lemma {:induction false} RepeatedNothing(n: nat)
    ensures Repeated(n, []) == []
  {
    if n > 0 { RepeatedNothing(n - 1); }
  }

  /** Merging a bucket leads from the heaps of a log to those with one more list. */
  lemma MergeBucket(index: Index, assign: seq<seq<int>>, keepMax: bool, k: nat, qSubset: seq<nat>, l: nat,
                    ids: IdLines, log: seq<nat>, was: seq<seq<Slot>>, now: seq<seq<Slot>>)
    requires k > 0 && IsProbe(assign, qSubset, l) && IdsOf(index, ids, qSubset, l)
    requires was == HeapsAfter(index, assign, keepMax, k, log)
    requires var r := index.BlockSearch(qSubset, l);
             now == if r.None? then was else AllOffered(keepMax, was, qSubset, r.value.0, ids)
    ensures now == HeapsAfter(index, assign, keepMax, k, log + [l])
  {
    forall q: nat | q < |assign| ensures HeapAfter(index, assign, keepMax, k, q, log + [l]) == now[q] {
      BucketFindings(index, assign, qSubset, l, ids, q);
      HeapStep(index, assign, keepMax, k, q, log, l);
    }
  }

  class BigBatchSearcher {
    const index: Index
    const rh: ResultHeap
    ghost const assign: seq<seq<int>>
    var bucketLims: seq<nat>
    var queryIds: seq<nat>
    ghost var added: seq<nat>  // the lists whose results were added to the heaps, in order

    ghost predicate Valid()
      reads this, rh.D, rh.I
    {
      && rh.Valid() && index.Valid()
      && rh.nq == |assign|
      && IsGrouping(assign, index.nlist, queryIds, bucketLims)
    }

    /** The heaps are those of the lists added so far (see `HeapAfterIsBest`). */
    ghost predicate Holds()
      requires rh.Valid()
      reads this, rh.D, rh.I
    {
      rh.Results() == HeapsAfter(index, assign, rh.keepMax, rh.k, added)
    }

    constructor (index: Index, assign: seq<seq<int>>, k: nat, keepMax: bool)
      requires k > 0
      ensures this.index == index && this.assign == assign
      ensures rh.Valid() && fresh(rh) && fresh(rh.D) && fresh(rh.I) && rh.nq == |assign|
      ensures rh.k == k && rh.keepMax == keepMax
      ensures Holds() && added == []
    {
      this.index := index;
      this.assign := assign;
      rh := new ResultHeap(|assign|, k, keepMax);
      bucketLims, queryIds, added := [], [], [];
      new;
    }

    /** Group the queries by the list they probe. */
    method ReorderAssign(qAssign: seq<seq<int>>, nprobe: nat, sort: BucketSort) returns (r: Result<()>)
      requires qAssign == assign && IsAssignment(assign, nprobe, index.nlist) && Sorts(sort)
      modifies this`bucketLims, this`queryIds
      ensures r.Error? <==> |assign| * nprobe <= index.nlist + 1
      ensures r.Ok? ==> IsGrouping(assign, index.nlist, queryIds, bucketLims)
    {
      var nbucket := index.nlist + 1;
      if !(nbucket < |qAssign| * nprobe) {
        return Error("nbucket < nval");
      }
      var tab := seq(|qAssign|, q requires 0 <= q < |qAssign| => Shifted(qAssign[q]));
      var sorted := sort(tab, nbucket);
      queryIds, bucketLims := sorted.0, sorted.1[1..];
      assert IsBucketSort(tab, nbucket, sorted.0, sorted.1);
      forall l, q | 0 <= l < index.nlist && 0 <= q < |assign|
        ensures multiset(queryIds[bucketLims[l]..bucketLims[l + 1]])[q] == multiset(assign[q])[l]
      {
        ShiftedCount(assign[q], l);
        assert multiset(sorted.0[sorted.1[l + 1]..sorted.1[l + 2]])[q] == multiset(tab[q])[l + 1];
      }
      r := Ok(());
    }

    /** The queries of list `l`. */
    ghost function Bucket(l: nat): seq<nat>
      reads this`queryIds, this`bucketLims
    {
      BucketOf(queryIds, bucketLims, l)
    }

    lemma BucketIsProbe(l: nat)
      requires Valid() && l < index.nlist
      ensures IsProbe(assign, Bucket(l), l)
    {
    }

    /** The queries to match against list `l`: those that probe it, as often as they do. */
    method PrepareBucket(l: nat) returns (qSubset: seq<nat>)
      requires Valid() && l < index.nlist
      ensures forall i :: 0 <= i < |qSubset| ==> qSubset[i] < |assign|
      ensures forall q: nat :: q < |assign| ==> multiset(qSubset)[q] == multiset(assign[q])[l]
      ensures qSubset == Bucket(l)
    {
      BucketIsProbe(l);
      qSubset := queryIds[bucketLims[l]..bucketLims[l + 1]];
    }

    /** The identifiers of the results: those of the whole list, or at the positions found. */
    method Identify(qSubset: seq<nat>, found: BlockResult, listIds: seq<int>, ghost l: nat) returns (ids: IdLines)
      requires index.Valid() && Some(found) == index.BlockSearch(qSubset, l) && listIds == index.listIds(l)
      ensures IdsOf(index, ids, qSubset, l)
    {
      assert forall i :: 0 <= i < |qSubset| ==> index.Fits(qSubset[i], l);
      if found.1.None? {
        ids := Shared(listIds);
      } else {
        var rows := found.1.value;
        ids := Own(seq(|rows|, i requires 0 <= i < |rows| => AtAll(listIds, rows[i])));
      }
    }

    /** Merge the results of a bucket into the heaps. */
    method AddResultsToHeap(qSubset: seq<nat>, found: Option<BlockResult>, listIds: seq<int>, ghost l: nat)
      requires Valid() && Holds() && l < index.nlist && IsProbe(assign, qSubset, l)
      requires found == index.BlockSearch(qSubset, l) && listIds == index.listIds(l)
      modifies rh.D, rh.I, this`added
      ensures Valid() && Holds() && added == old(added) + [l]
    {
      if found.None? {
        MergeBucket(index, assign, rh.keepMax, rh.k, qSubset, l, Shared([]), added, rh.Results(), rh.Results());
      } else {
        AddFound(qSubset, found.value, listIds, l);
      }
      added := added + [l];
    }

    method AddFound(qSubset: seq<nat>, found: BlockResult, listIds: seq<int>, ghost l: nat)
      requires rh.Valid() && index.Valid() && rh.nq == |assign| && Holds() && IsProbe(assign, qSubset, l)
      requires Some(found) == index.BlockSearch(qSubset, l) && listIds == index.listIds(l)
      modifies rh.D, rh.I
      ensures rh.Results() == HeapsAfter(index, assign, rh.keepMax, rh.k, added + [l])
    {
      var ids := Identify(qSubset, found, listIds, l);
      ghost var was := rh.Results();
      rh.AddResultSubset(qSubset, found.0, ids);
      MergeBucket(index, assign, rh.keepMax, rh.k, qSubset, l, ids, added, was, rh.Results());
    }

    /** Sequential execution over the lists `startList`, ..., `endList` - 1. */
    method SearchSequential(startList: nat, endList: nat)
      requires Valid() && endList <= index.nlist && Holds() && added == []
      modifies rh.D, rh.I, this`added
      ensures Valid() && Holds() && added == Between(startList, endList)
    {
      var l := startList;
      while l < endList
        invariant startList <= l && (if startList <= endList then l <= endList else l == startList)
        invariant Valid() && Holds() && added == Between(startList, l)
      {
        var qSubset := PrepareBucket(l);
        var found := index.BlockSearch(qSubset, l);
        AddResultsToHeap(qSubset, found, index.listIds(l), l);
        BetweenStep(startList, l);
        l := l + 1;
      }
    }

    /** The bucket of list `l` and what the block search finds for it. */
    ghost predicate AreResults(r: BucketResults, l: nat)
      reads this`queryIds, this`bucketLims
    {
      r.0 == Bucket(l) && r.1 == index.BlockSearch(r.0, l) && r.2 == index.listIds(l)
    }

    /** The work of the helper thread: merge the previous results, prepare the next bucket
        (if there is one). */
    method AddResultsAndPrefetch(toAdd: Option<BucketResults>, l: nat, ghost prev: nat)
      returns (bucket: Option<seq<nat>>)
      requires Valid() && Holds()
      requires toAdd.Some? ==> prev < index.nlist && AreResults(toAdd.value, prev)
      modifies rh.D, rh.I, this`added
      ensures Valid() && Holds() && added == old(added) + if toAdd.Some? then [prev] else []
      ensures bucket == if l < index.nlist then Some(Bucket(l)) else None
    {
      if toAdd.Some? {
        BucketIsProbe(prev);
        AddResultsToHeap(toAdd.value.0, toAdd.value.1, toAdd.value.2, prev);
      }
      if l < index.nlist {
        var b := PrepareBucket(l);
        bucket := Some(b);
      } else {
        bucket := None;
      }
    }

    /** Execution with the next bucket prepared, and the previous results merged, while the
        current one is being matched; the matching reads no state that the helper writes. The
        heaps receive the same results in the same order as in the sequential execution. */
    method SearchPrefetching(startList: nat, endList: nat) returns (r: Result<()>)
      requires Valid() && endList <= index.nlist && Holds() && added == []
      modifies rh.D, rh.I, this`added
      ensures r.Ok? <==> startList < endList
      ensures r.Ok? ==> Valid() && Holds() && added == Between(startList, endList)
    {
      if startList >= index.nlist {
        return Error("no such list");
      }
      var first := PrepareBucket(startList);
      if startList >= endList {
        return Error("nothing to add");
      }
      PrefetchLoop(startList, endList, first);
      r := Ok(());
    }

    method PrefetchLoop(startList: nat, endList: nat, first: seq<nat>)
      requires Valid() && startList < endList <= index.nlist && Holds() && added == []
      requires first == Bucket(startList)
      modifies rh.D, rh.I, this`added
      ensures Valid() && Holds() && added == Between(startList, endList)
    {
      var prefetched := Some(first);
      var toAdd: Option<BucketResults> := None;
      ghost var prev: nat := 0;
      var l := startList;
      while l < endList
        invariant startList <= l <= endList
        invariant Valid() && Holds() && added == if toAdd.None? then [] else Between(startList, prev)
        invariant if toAdd.None? then l == startList else startList <= prev == l - 1 && AreResults(toAdd.value, prev)
        invariant l < endList ==> prefetched == Some(Bucket(l))
      {
        prefetched, toAdd := PrefetchRound(prefetched.value, toAdd, startList, l, prev);
        prev := l;
        l := l + 1;
      }
      AddPending(toAdd.value, startList, prev);
    }

    /** Match bucket `l` while the results of the list before are merged and the next bucket is prepared. */
    method PrefetchRound(qSubset: seq<nat>, toAdd: Option<BucketResults>, ghost startList: nat, l: nat, ghost prev: nat)
      returns (prefetched: Option<seq<nat>>, toAdd': Option<BucketResults>)
      requires Valid() && startList <= l < index.nlist && Holds() && qSubset == Bucket(l)
      requires added == if toAdd.None? then [] else Between(startList, prev)
      requires if toAdd.None? then l == startList else startList <= prev == l - 1 && AreResults(toAdd.value, prev)
      modifies rh.D, rh.I, this`added
      ensures Valid() && Holds() && added == Between(startList, l)
      ensures toAdd'.Some? && AreResults(toAdd'.value, l)
      ensures l + 1 < index.nlist ==> prefetched == Some(Bucket(l + 1))
    {
      if toAdd.Some? { BetweenStep(startList, prev); }
      prefetched := AddResultsAndPrefetch(toAdd, l + 1, prev);
      var found := index.BlockSearch(qSubset, l);
      toAdd' := Some((qSubset, found, index.listIds(l)));
    }

    method AddPending(toAdd: BucketResults, ghost startList: nat, ghost l: nat)
      requires Valid() && startList <= l < index.nlist && Holds() && added == Between(startList, l)
      requires AreResults(toAdd, l)
      modifies rh.D, rh.I, this`added
      ensures Valid() && Holds() && added == Between(startList, l + 1)
    {
      BetweenStep(startList, l);
      BucketIsProbe(l);
      AddResultsToHeap(toAdd.0, toAdd.1, toAdd.2, l);
    }

    /** Put the results in order (see `FinalResults`). */
    method Finish()
      requires rh.Valid() && Holds()
      modifies rh.D, rh.I
      ensures rh.nq == |assign|
      ensures forall q: nat :: q < |assign| ==>
                rh.Results()[q] == SortedHeap(rh.keepMax, HeapAfter(index, assign, rh.keepMax, rh.k, q, added)).0
    {
      rh.Finalize();
    }
  }

  // Bucket by bucket or query by query

  /** What query `q` finds in each list. */
  ghost function ListBags(index: Index, keepMax: bool, q: nat): nat -> multiset<real> {
    (l: nat) => Scores(keepMax, index.Found(q, l))
  }

  /** The reference: a query visits its probed lists one by one. */
  ghost function Visited(k: nat, bag: nat -> multiset<real>, row: seq<int>): seq<real> {
    if row == [] then []
    else
      var h := Visited(k, bag, row[..|row| - 1]);
      var l := row[|row| - 1];
      if l < 0 then h else Best(k, multiset(h) + bag(l))
  }

  ghost function RowBag(bag: nat -> multiset<real>, row: seq<int>): multiset<real> {
    if row == [] then multiset{}
    else
      var l := row[|row| - 1];
      RowBag(bag, row[..|row| - 1]) + if l < 0 then multiset{} else bag(l)
  }

  lemma {:induction false} VisitedIsBest(k: nat, bag: nat -> multiset<real>, row: seq<int>)
    ensures Visited(k, bag, row) == Best(k, RowBag(bag, row))
  {
    if row == [] {
      BestIs([], k, multiset{});
    } else {
      var rest, l := row[..|row| - 1], row[|row| - 1];
      VisitedIsBest(k, bag, rest);
      if l >= 0 {
        MergeAbsorbs(k, RowBag(bag, rest), bag(l));
      } else {
        assert RowBag(bag, row) == RowBag(bag, rest);
      }
    }
  }

  ghost function Sum(f: nat -> multiset<real>, n: nat): multiset<real> {
    if n == 0 then multiset{} else Sum(f, n - 1) + f(n - 1)
  }

  /** Two summations that differ in one term. */
  lemma {:induction false} SumWithOneMore(f: nat -> multiset<real>, g: nat -> multiset<real>, v: int,
                                          m: multiset<real>, n: nat)
    requires forall i: nat :: i < n ==> g(i) == f(i) + if i == v then m else multiset{}
    ensures Sum(g, n) == Sum(f, n) + if 0 <= v < n then m else multiset{}
  {
    if n > 0 {
      SumWithOneMore(f, g, v, m, n - 1);
      AddBoth(Sum(f, n - 1), f(n - 1), m);
    }
  }

  lemma AddBoth(a: multiset<real>, c: multiset<real>, m: multiset<real>)
    ensures a + (c + m) == (a + c) + m && (a + m) + c == (a + c) + m
    ensures c + multiset{} == c && a + multiset{} == a && (a + c) + multiset{} == a + c
  {
  }

  /** A row's findings counted list by list. */
  ghost function PerList(bag: nat -> multiset<real>, row: seq<int>): nat -> multiset<real> {
    (l: nat) => Copies(multiset(row)[l], bag(l))
  }

  lemma CopiesAppend<T, U>(row: seq<T>, v: T, i: T, m: multiset<U>)
    ensures Copies(multiset(row + [v])[i], m)
            == Copies(multiset(row)[i], m) + if v == i then m else multiset{}
  {
    CountAppend(row, v, i);
  }

  lemma {:induction false} SumOfNothing(f: nat -> multiset<real>, n: nat)
    requires forall i: nat :: i < n ==> f(i) == multiset{}
    ensures Sum(f, n) == multiset{}
  {
    if n > 0 { SumOfNothing(f, n - 1); }
  }

  lemma NoFindings(bag: nat -> multiset<real>)
    ensures forall i: nat :: PerList(bag, [])(i) == multiset{}
  {
    forall i: nat ensures PerList(bag, [])(i) == multiset{} {
      var none: seq<int> := [];
      assert multiset(none)[i] == 0;
      assert Copies(0, bag(i)) == multiset{};
    }
  }

  lemma PerListAppend(bag: nat -> multiset<real>, row: seq<int>, v: int)
    ensures forall i: nat :: PerList(bag, row + [v])(i)
                             == PerList(bag, row)(i) + if i == v then bag(v) else multiset{}
  {
    forall i: nat ensures PerList(bag, row + [v])(i)
                          == PerList(bag, row)(i) + if i == v then bag(v) else multiset{}
    {
      CopiesAppend(row, v, i, bag(i));
    }
  }

  lemma {:induction false} SumIsRowBag(bag: nat -> multiset<real>, row: seq<int>, n: nat)
    requires forall j :: 0 <= j < |row| ==> row[j] < n
    ensures Sum(PerList(bag, row), n) == RowBag(bag, row)
  {
    if row == [] {
      NoFindings(bag);
      SumOfNothing(PerList(bag, []), n);
    } else {
      var rest, v := row[..|row| - 1], row[|row| - 1];
      SumIsRowBag(bag, rest, n);
      assert row == rest + [v];
      var m := if v < 0 then multiset{} else bag(v);
      PerListAppend(bag, rest, v);
      SumWithOneMore(PerList(bag, rest), PerList(bag, rest + [v]), v, m, n);
    }
  }

  lemma {:induction false} TotalIsSum(index: Index, assign: seq<seq<int>>, keepMax: bool, q: nat, n: nat)
    requires q < |assign|
    ensures Total(FoundIn(index, assign, keepMax), q, Between(0, n))
            == Sum(PerList(ListBags(index, keepMax, q), assign[q]), n)
  {
    if n > 0 {
      var c, log := FoundIn(index, assign, keepMax), Between(0, n - 1);
      TotalIsSum(index, assign, keepMax, q, n - 1);
      BetweenStep(0, n - 1);
      TotalAppend(c, q, log, n - 1);
      assert c(q, n - 1) == PerList(ListBags(index, keepMax, q), assign[q])(n - 1);
    }
  }

  /** Processing all the lists bucket by bucket gives each query the distances it would get
      from visiting its own probed lists one at a time. */
  lemma LoopInterchange(index: Index, assign: seq<seq<int>>, keepMax: bool, k: nat, q: nat)
    requires q < |assign| && forall j :: 0 <= j < |assign[q]| ==> assign[q][j] < index.nlist
    ensures Best(k, Total(FoundIn(index, assign, keepMax), q, Between(0, index.nlist)))
            == Visited(k, ListBags(index, keepMax, q), assign[q])
  {
    var bag := ListBags(index, keepMax, q);
    TotalIsSum(index, assign, keepMax, q, index.nlist);
    SumIsRowBag(bag, assign[q], index.nlist);
    VisitedIsBest(k, bag, assign[q]);
  }

  /** Whether the block search reports all the distances of a list or only the best `k` does
      not show in the result. */
  lemma SearchMethodsAgree(all: Index, best: Index, assign: seq<seq<int>>, keepMax: bool, k: nat, q: nat,
                           log: seq<nat>)
    requires forall l: nat :: Scores(keepMax, best.Found(q, l))
                         == multiset(Best(k, Scores(keepMax, all.Found(q, l))))
    ensures Best(k, Total(FoundIn(all, assign, keepMax), q, log))
            == Best(k, Total(FoundIn(best, assign, keepMax), q, log))
  {
    var c, d := FoundIn(all, assign, keepMax), FoundIn(best, assign, keepMax);
    forall l | l in log ensures Equivalent(k, d(q, l), c(q, l)) {
      if q < |assign| {
        TruncatedEquivalent(k, Scores(keepMax, all.Found(q, l)));
        CopiesEquivalent(k, multiset(assign[q])[l], Scores(keepMax, best.Found(q, l)),
                         Scores(keepMax, all.Found(q, l)));
      }
    }
    TotalEquivalent(k, d, c, q, log);
    var x, y := Total(c, q, log), Total(d, q, log);
    assert x + multiset{} == x && y + multiset{} == y;
  }

  // The final results

  lemma {:induction false} CopyOf<T>(n: nat, m: multiset<T>, x: T)
    requires x in Copies(n, m)
    ensures x in m
  {
    if x !in m { CopyOf(n - 1, m, x); }
  }

  lemma {:induction false} CameFrom<T>(d: Findings<T>, q: nat, log: seq<nat>, x: T)
    requires x in Total(d, q, log)
    ensures exists l :: l in log && x in d(q, l)
  {
    var last := |log| - 1;
    if x in d(q, log[last]) {
      assert log[last] in log;
    } else {
      TakeMembers(log, last);
      CameFrom(d, q, log[..last], x);
    }
  }

  /** Every result has an identifier from some list. */
  lemma ResultHasId(index: Index, assign: seq<seq<int>>, q: nat, log: seq<nat>, x: Slot)
    requires q < |assign| && x in Total(ResultsIn(index, assign), q, log)
    ensures exists l :: l in log && x.id in index.listIds(l)
  {
    CameFrom(ResultsIn(index, assign), q, log, x);
    var l :| l in log && x in ResultsIn(index, assign)(q, l);
    CopyOf(multiset(assign[q])[l], multiset(index.Found(q, l)), x);
    var j :| 0 <= j < |index.Found(q, l)| && index.Found(q, l)[j] == x;
    FoundHasId(index, q, l, j);
  }

  lemma FoundHasId(index: Index, q: nat, l: nat, j: nat)
    requires j < |index.Found(q, l)|
    ensures index.Found(q, l)[j].id in index.listIds(l)
  {
  }

  /** The final results of a query whose lists have no identifier -1: the best scores in order, each with
      an identifier found with it, and free places behind. */
  lemma FinalResults(index: Index, assign: seq<seq<int>>, keepMax: bool, k: nat, q: nat, log: seq<nat>,
                     s: seq<Slot>, n: nat)
    requires q < |assign| && k > 0 && forall l :: l in log ==> -1 !in index.listIds(l)
    requires (s, n) == SortedHeap(keepMax, HeapAfter(index, assign, keepMax, k, q, log))
    ensures n <= |s| == k && Full(s[..n])
    ensures ScoreSeq(keepMax, s[..n]) == Best(k, Total(FoundIn(index, assign, keepMax), q, log))
    ensures multiset(s[..n]) <= Total(ResultsIn(index, assign), q, log)
    ensures forall j :: n <= j < k ==> s[j] == FREE
  {
    var was, c := HeapAfter(index, assign, keepMax, k, q, log), Total(FoundIn(index, assign, keepMax), q, log);
    HeapAfterIsBest(index, assign, keepMax, k, q, log, was);
    SortedHeapIsReordered(keepMax, was);
    forall x | x in was && x.id == -1 ensures x.val.None? {
      if x.val.Some? {
        assert x in multiset(was);
        ResultHasId(index, assign, q, log, x);
      }
    }
    ReorderedShowsBest(keepMax, was, s, n, Best(k, c));
    OnlyReal(was, s[..n], Total(ResultsIn(index, assign), q, log));
  }

  lemma OnlyReal(was: seq<Slot>, r: seq<Slot>, m: multiset<Slot>)
    requires Genuine(was, m) && Full(r) && multiset(r) == multiset(Filter(IsReal, was))
    ensures multiset(r) <= m
  {
    forall x: Slot ensures multiset(r)[x] <= m[x] {
      FilterCount(IsReal, was, x);
      if x in multiset(r) { assert x in r; }
    }
  }

  /** A search of all the lists: each query ends with the scores it would get from visiting its own
      probed lists one at a time, in order. */
  lemma SearchIsExact(index: Index, assign: seq<seq<int>>, keepMax: bool, k: nat, q: nat, s: seq<Slot>, n: nat)
    requires q < |assign| && k > 0 && forall l: nat :: l < index.nlist ==> -1 !in index.listIds(l)
    requires forall j :: 0 <= j < |assign[q]| ==> assign[q][j] < index.nlist
    requires (s, n) == SortedHeap(keepMax, HeapAfter(index, assign, keepMax, k, q, Between(0, index.nlist)))
    ensures n <= |s| && Full(s[..n])
    ensures ScoreSeq(keepMax, s[..n]) == Visited(k, ListBags(index, keepMax, q), assign[q])
  {
    FinalResults(index, assign, keepMax, k, q, Between(0, index.nlist), s, n);
    LoopInterchange(index, assign, keepMax, k, q);
  }
}
