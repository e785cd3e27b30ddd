/** Precision and recall of range search results at several thresholds in one pass, against
    filtering the results anew for each threshold (contrib/evaluation.py). */
module RangeEvaluation {
  import opened Basics
  import opened Sorting
  import opened PrecisionRecall

  /** The results of several queries one after the other; those of query `q` lie between
      lims[q] and lims[q + 1]. */
  datatype Csr<T> = Csr(lims: seq<nat>, items: seq<T>)
  {
    ghost predicate Valid() {
      && |lims| > 0 && lims[0] == 0 && lims[|lims| - 1] == |items|
      && forall p, q :: 0 <= p <= q < |lims| ==> lims[p] <= lims[q]
    }

    function Row(q: nat): seq<T>
      requires q + 1 < |lims| && lims[q] <= lims[q + 1] <= |items|
    {
      items[lims[q]..lims[q + 1]]
    }

    /** How many items each query has. */
    ghost function Sizes(): (n: seq<nat>)
      requires Valid()
      ensures |n| == |lims| - 1
    {
      seq(|lims| - 1, q requires 0 <= q < |lims| - 1 => |Row(q)|)
    }
  }

  /** The row of a query has what lies between its limits. */
  lemma RowIs<T>(a: Csr<T>, q: nat, i: nat)
    requires a.Valid() && q + 1 < |a.lims| && i < a.lims[q + 1] - a.lims[q]
    ensures a.lims[q + 1] <= |a.items|
    ensures |a.Row(q)| == a.lims[q + 1] - a.lims[q] && a.Row(q)[i] == a.items[a.lims[q] + i]
  {
  }

  ghost predicate SameQueries<T, U>(a: Csr<T>, b: Csr<U>) {
    a.Valid() && b.Valid() && |a.lims| == |b.lims|
  }

  // ---- filtering ----

  function Under(thresh: real): Hit -> bool {
    (h: Hit) => h.dis < thresh
  }

  lemma CutFilter<T>(f: T -> bool, s: seq<T>, a: nat, b: nat)
    requires a <= b <= |s|
    ensures |Filter(f, s[..a])| <= |Filter(f, s[..b])| <= |Filter(f, s)|
    ensures |Filter(f, s[..b])| == |Filter(f, s[..a])| + |Filter(f, s[a..b])|
    ensures Filter(f, s)[|Filter(f, s[..a])|..|Filter(f, s[..b])|] == Filter(f, s[a..b])
  {
    assert s[..b] == s[..a] + s[a..b] && s == s[..b] + s[b..];
    FilterAppend(f, s[..a], s[a..b]);
    FilterAppend(f, s[..b], s[b..]);
  }

  /** Select the results under a threshold. */
  method FilterRangeResults(t: Csr<Hit>, thresh: real) returns (r: Csr<Hit>)
    requires t.Valid()
    ensures SameQueries(r, t)
    ensures forall q :: 0 <= q < |t.lims| - 1 ==> r.Row(q) == Filter(Under(thresh), t.Row(q))
    ensures forall q, h :: 0 <= q < |t.lims| - 1 ==> (h in r.Row(q) <==> h in t.Row(q) && h.dis < thresh)
  {
    var f := Under(thresh);
    var newLims := [0];
    var i := 0;
    while i < |t.lims| - 1
      invariant 0 <= i < |t.lims| && |newLims| == i + 1
      invariant forall h :: 0 <= h <= i ==> newLims[h] == |Filter(f, t.items[..t.lims[h]])|
    {
      CutFilter(f, t.items, t.lims[i], t.lims[i + 1]);
      newLims := newLims + [newLims[i] + |Filter(f, t.items[t.lims[i]..t.lims[i + 1]])|];
      i := i + 1;
    }
    r := Csr(newLims, Filter(f, t.items));
    assert t.items[..|t.items|] == t.items;
    forall p, q | 0 <= p <= q < |t.lims| ensures newLims[p] <= newLims[q] {
      CutFilter(f, t.items, t.lims[p], t.lims[q]);
    }
    forall q | 0 <= q < |t.lims| - 1 ensures r.Row(q) == Filter(f, t.Row(q)) {
      CutFilter(f, t.items, t.lims[q], t.lims[q + 1]);
    }
    forall q | 0 <= q < |t.lims| - 1 { FilterMembers(f, t.Row(q)); }
  }

  // ---- sorting each row in place ----

  method WriteSlice<T>(a: array<T>, l0: nat, src: seq<T>)
    requires l0 + |src| <= a.Length
    modifies a
    ensures a[l0..l0 + |src|] == src
    ensures forall p :: (0 <= p < l0 || l0 + |src| <= p < a.Length) ==> a[p] == old(a[p])
  {
    var i := 0;
    while i < |src|
      invariant 0 <= i <= |src|
      invariant forall p :: 0 <= p < i ==> a[l0 + p] == src[p]
      invariant forall p :: (0 <= p < l0 || l0 + |src| <= p < a.Length) ==> a[p] == old(a[p])
    {
      a[l0 + i] := src[i];
      i := i + 1;
    }
  }

  ghost function RowAt<T>(s: seq<T>, lims: seq<nat>, q: nat): seq<T> {
    if q + 1 < |lims| && lims[q] <= lims[q + 1] <= |s| then s[lims[q]..lims[q + 1]] else []
  }

  /** Replace row `q`; the rows before it stay as they are. */
  method WriteRow<T>(a: array<T>, lims: seq<nat>, q: nat, src: seq<T>)
    requires Csr(lims, a[..]).Valid() && q + 1 < |lims| && |src| == lims[q + 1] - lims[q]
    modifies a
    ensures RowAt(a[..], lims, q) == src
    ensures forall h: nat :: h < q ==> RowAt(a[..], lims, h) == RowAt(old(a[..]), lims, h)
  {
    ghost var before := a[..];
    WriteSlice(a, lims[q], src);
    forall h: nat | h < q ensures RowAt(a[..], lims, h) == RowAt(before, lims, h) {
      assert lims[h] <= lims[h + 1] <= lims[q];
    }
  }

  /** Replace each row by its sorted version. */
  method SortRows<T>(t: Csr<T>, sort: seq<T> -> seq<T>) returns (r: Csr<T>)
    requires t.Valid() && forall q :: 0 <= q < |t.lims| - 1 ==> |sort(t.Row(q))| == |t.Row(q)|
    ensures SameQueries(r, t)
    ensures forall q :: 0 <= q < |t.lims| - 1 ==> r.Row(q) == sort(t.Row(q))
  {
    var a := new T[|t.items|](p requires 0 <= p < |t.items| => t.items[p]);
    var q := 0;
    while q < |t.lims| - 1
      invariant 0 <= q < |t.lims|
      invariant forall h: nat :: h < q ==> RowAt(a[..], t.lims, h) == sort(t.Row(h))
    {
      WriteRow(a, t.lims, q, sort(t.Row(q)));
      q := q + 1;
    }
    r := Csr(t.lims, a[..]);
    assert forall h: nat :: h < |t.lims| - 1 ==> r.Row(h) == RowAt(a[..], t.lims, h);
  }

  // ---- counting in one pass ----

  /** Ground truth by increasing identifier. */
  ghost predicate Ascending(ids: seq<int>) {
    forall i, j :: 0 <= i <= j < |ids| ==> ids[i] <= ids[j]
  }

  /** Results by increasing distance. */
  ghost predicate ByDistance(hits: seq<Hit>) {
    forall i, j :: 0 <= i <= j < |hits| ==> hits[i].dis <= hits[j].dis
  }

  /** The first position whose element is not below the sought one. */
  function SearchSorted<T>(below: T -> bool, s: seq<T>): (k: nat)
    requires Separates(below, s)
    ensures k <= |s| && forall i :: 0 <= i < |s| ==> (below(s[i]) <==> i < k)
  {
    if s == [] || !below(s[0]) then 0 else 1 + SearchSorted(below, s[1..])
  }

  lemma {:induction false} SearchSortedCounts<T>(below: T -> bool, s: seq<T>)
    requires Separates(below, s)
    ensures SearchSorted(below, s) == |Filter(below, s)|
  {
    if s == [] {
    } else if below(s[0]) {
      SearchSortedCounts(below, s[1..]);
    } else {
      FilterNone(below, s);
    }
  }

  function Less(x: int): int -> bool {
    (y: int) => y < x
  }

  /** Whether the element found by searching is the sought one; past the end, the last is looked at. */
  function IsFound(gt: seq<int>, x: int): (b: bool)
    requires Ascending(gt) && gt != []
    ensures b <==> x in gt
  {
    var k := SearchSorted(Less(x), gt);
    var found := gt[if k == |gt| then |gt| - 1 else k] == x;
    assert x in gt ==> found by {
      if x in gt {
        var i :| 0 <= i < |gt| && gt[i] == x;
        assert !Less(x)(gt[i]);
        assert gt[k] <= gt[i];
      }
    }
    found
  }

  /** Cumulative counts. */
  function CumSum(ok: seq<bool>, n: nat): nat
    requires n <= |ok|
  {
    if n == 0 then 0 else CumSum(ok, n - 1) + if ok[n - 1] then 1 else 0
  }

  function InGt(gt: seq<int>): Hit -> bool {
    (h: Hit) => h.id in gt
  }

  /** Correct results under a threshold. */
  function Correct(gt: seq<int>, thresh: real): Hit -> bool {
    (h: Hit) => h.dis < thresh && h.id in gt
  }

  lemma {:induction false} CorrectInTwoSteps(gt: seq<int>, thresh: real, hits: seq<Hit>)
    ensures Filter(InGt(gt), Filter(Under(thresh), hits)) == Filter(Correct(gt, thresh), hits)
  {
    if hits != [] { CorrectInTwoSteps(gt, thresh, hits[1..]); }
  }

  lemma {:induction false} CumSumCounts(gt: seq<int>, hits: seq<Hit>, ok: seq<bool>, n: nat)
    requires n <= |hits| == |ok| && forall i :: 0 <= i < |ok| ==> (ok[i] <==> hits[i].id in gt)
    ensures CumSum(ok, n) == |Filter(InGt(gt), hits[..n])|
  {
    if n > 0 {
      CumSumCounts(gt, hits, ok, n - 1);
      assert hits[..n] == hits[..n - 1] + [hits[n - 1]];
      FilterAppend(InGt(gt), hits[..n - 1], [hits[n - 1]]);
      assert Filter(InGt(gt), []) == [] && [hits[n - 1]][1..] == [];
    }
  }

  /** The number of results, and of correct ones, at each threshold. */
  datatype Counts = Counts(ngt: nat, nres: nat, ninter: nat)

  function CountsAt(gt: seq<int>, hits: seq<Hit>, thresh: real): Counts {
    Counts(|gt|, |Filter(Under(thresh), hits)|, |Filter(Correct(gt, thresh), hits)|)
  }

  /** What is counted: the ground truth, the results strictly under the threshold, and those among them that are
      in the ground truth. */
  lemma CountsAre(gt: seq<int>, hits: seq<Hit>, thresh: real)
    ensures CountsAt(gt, hits, thresh).ngt == |gt|
    ensures CountsAt(gt, hits, thresh).nres == |set i: nat | i < |hits| && hits[i].dis < thresh|
    ensures CountsAt(gt, hits, thresh).ninter == |set i: nat | i < |hits| && hits[i].dis < thresh && hits[i].id in gt|
  {
    FilterSize(Under(thresh), hits, set i: nat | i < |hits| && hits[i].dis < thresh);
    FilterSize(Correct(gt, thresh), hits, set i: nat | i < |hits| && hits[i].dis < thresh && hits[i].id in gt);
  }

  lemma CountsIgnoreOrder(gt: seq<int>, gt': seq<int>, hits: seq<Hit>, hits': seq<Hit>, thresh: real)
    requires multiset(gt) == multiset(gt') && multiset(hits) == multiset(hits')
    ensures CountsAt(gt, hits, thresh) == CountsAt(gt', hits', thresh)
  {
    assert |multiset(gt)| == |gt| && |multiset(gt')| == |gt'|;
    assert forall x :: x in gt <==> x in multiset(gt);
    assert forall x :: x in gt' <==> x in multiset(gt');
    FilterPermuted(Under(thresh), hits, hits');
    FilterPermuted(Correct(gt, thresh), hits, hits');
    FilterSame(Correct(gt, thresh), Correct(gt', thresh), hits');
  }

  lemma {:induction false} FilterSame<T>(f: T -> bool, g: T -> bool, s: seq<T>)
    requires forall x :: x in s ==> f(x) == g(x)
    ensures Filter(f, s) == Filter(g, s)
  {
    if s != [] { FilterSame(f, g, s[1..]); }
  }

  /** Searching the sorted rows and accumulating gives the counts. */
  lemma SearchingCounts(gt: seq<int>, hits: seq<Hit>, ok: seq<bool>, thresh: real, nres: nat)
    requires ByDistance(hits) && |ok| == |hits| && forall i :: 0 <= i < |ok| ==> (ok[i] <==> hits[i].id in gt)
    requires nres == SearchSorted(Under(thresh), hits)
    ensures CountsAt(gt, hits, thresh) == Counts(|gt|, nres, CumSum(ok, nres))
  {
    CutPlace(Under(thresh), hits);
    SearchSortedCounts(Under(thresh), hits);
    CumSumCounts(gt, hits, ok, nres);
    CorrectInTwoSteps(gt, thresh, hits);
  }

  /** The counts of one query at all thresholds. */
  method ComputePRFor(gt: seq<int>, hits: seq<Hit>, thresholds: seq<real>) returns (counts: seq<Counts>)
    requires Ascending(gt) && ByDistance(hits)
    ensures |counts| == |thresholds|
    ensures forall t :: 0 <= t < |thresholds| ==> counts[t] == CountsAt(gt, hits, thresholds[t])
  {
    if |hits| == 0 {
      return seq(|thresholds|, _ => Counts(|gt|, 0, 0));
    }
    var nres := seq(|thresholds|, t requires 0 <= t < |thresholds| => SearchSorted(Under(thresholds[t]), hits));
    if |gt| == 0 {
      forall t | 0 <= t < |thresholds| ensures CountsAt(gt, hits, thresholds[t]) == Counts(0, nres[t], 0) {
        var none := seq(|hits|, _ => false);
        SearchingCounts(gt, hits, none, thresholds[t], nres[t]);
        FilterNone(Correct(gt, thresholds[t]), hits);
      }
      return seq(|thresholds|, t requires 0 <= t < |thresholds| => Counts(0, nres[t], 0));
    }
    var ok := seq(|hits|, i requires 0 <= i < |hits| => IsFound(gt, hits[i].id));
    forall t | 0 <= t < |thresholds|
      ensures CountsAt(gt, hits, thresholds[t]) == Counts(|gt|, nres[t], CumSum(ok, nres[t]))
    {
      SearchingCounts(gt, hits, ok, thresholds[t], nres[t]);
    }
    return seq(|thresholds|, t requires 0 <= t < |thresholds| => Counts(|gt|, nres[t], CumSum(ok, nres[t])));
  }

  // ---- the table ----

  /** Sorting routines for the rows. */
  ghost predicate SortsIds(sort: seq<int> -> seq<int>) {
    forall s :: multiset(sort(s)) == multiset(s) && Ascending(sort(s))
  }

  ghost predicate SortsHits(sort: seq<Hit> -> seq<Hit>) {
    forall s :: multiset(sort(s)) == multiset(s) && ByDistance(sort(s))
  }

  lemma SortedSize<T>(s: seq<T>, t: seq<T>)
    requires multiset(s) == multiset(t)
    ensures |s| == |t|
  {
    assert |multiset(s)| == |s| && |multiset(t)| == |t|;
  }

  /** The counts of every query at a threshold. */
  ghost function ResultsAt(found: Csr<Hit>, thresh: real): (n: seq<nat>)
    requires found.Valid()
    ensures |n| == |found.lims| - 1
  {
    seq(|found.lims| - 1, q requires 0 <= q < |found.lims| - 1 => |Filter(Under(thresh), found.Row(q))|)
  }

  ghost function CorrectAt(ref: Csr<int>, found: Csr<Hit>, thresh: real): (n: seq<nat>)
    requires SameQueries(ref, found)
    ensures |n| == |ref.lims| - 1
  {
    seq(|ref.lims| - 1, q requires 0 <= q < |ref.lims| - 1 => |Filter(Correct(ref.Row(q), thresh), found.Row(q))|)
  }

  ghost function MeasuresAt(ref: Csr<int>, found: Csr<Hit>, thresh: real, mode: Mode)
    : Result<(Option<real>, Option<real>)>
    requires SameQueries(ref, found)
  {
    Measures(ref.Sizes(), ResultsAt(found, thresh), CorrectAt(ref, found, thresh), mode)
  }

  /** An entry of the table measures, for each query, how much ground truth it has and how many of its results lie
      strictly under the threshold, in all and with an identifier from the ground truth. */
  lemma TableMeans(ref: Csr<int>, found: Csr<Hit>, thresh: real, mode: Mode,
                   ngt: seq<nat>, nres: seq<nat>, ninter: seq<nat>)
    requires SameQueries(ref, found) && |ngt| == |nres| == |ninter| == |ref.lims| - 1
    requires forall q :: 0 <= q < |ngt| ==> ngt[q] == ref.lims[q + 1] - ref.lims[q]
    requires forall q :: 0 <= q < |nres| ==>
               nres[q] == |set i: nat | i < |found.Row(q)| && found.Row(q)[i].dis < thresh|
    requires forall q :: 0 <= q < |ninter| ==>
               ninter[q] == |set i: nat | i < |found.Row(q)| && found.Row(q)[i].dis < thresh
                                          && found.Row(q)[i].id in ref.Row(q)|
    ensures MeasuresAt(ref, found, thresh, mode) == Measures(ngt, nres, ninter, mode)
  {
    forall q | 0 <= q < |ngt|
      ensures nres[q] == ResultsAt(found, thresh)[q] && ninter[q] == CorrectAt(ref, found, thresh)[q]
    {
      CountsAre(ref.Row(q), found.Row(q), thresh);
    }
    assert ngt == ref.Sizes() && nres == ResultsAt(found, thresh) && ninter == CorrectAt(ref, found, thresh);
  }

  /** The counts of all queries, each at all thresholds. */
  ghost predicate Counted(ref: Csr<int>, found: Csr<Hit>, thresholds: seq<real>, counts: seq<seq<Counts>>, n: nat)
    requires SameQueries(ref, found)
  {
    && |counts| == n < |ref.lims|
    && (forall q :: 0 <= q < n ==> |counts[q]| == |thresholds|)
    && (forall q, t :: 0 <= q < n && 0 <= t < |thresholds| ==>
          counts[q][t] == CountsAt(ref.Row(q), found.Row(q), thresholds[t]))
  }

  /** Count in one pass over the rows, which are sorted first unless they already are. */
  method CountAll(ref: Csr<int>, found: Csr<Hit>, thresholds: seq<real>, sortRef: bool, sortNew: bool,
                  idSort: seq<int> -> seq<int>, hitSort: seq<Hit> -> seq<Hit>) returns (counts: seq<seq<Counts>>)
    requires SameQueries(ref, found) && SortsIds(idSort) && SortsHits(hitSort)
    requires sortRef || forall q :: 0 <= q < |ref.lims| - 1 ==> Ascending(ref.Row(q))
    requires sortNew || forall q :: 0 <= q < |found.lims| - 1 ==> ByDistance(found.Row(q))
    ensures Counted(ref, found, thresholds, counts, |ref.lims| - 1)
  {
    var ref', new' := ref, found;
    if sortRef {
      forall q | 0 <= q < |ref.lims| - 1 ensures |idSort(ref.Row(q))| == |ref.Row(q)| {
        SortedSize(idSort(ref.Row(q)), ref.Row(q));
      }
      ref' := SortRows(ref, idSort);
    }
    if sortNew {
      forall q | 0 <= q < |found.lims| - 1 ensures |hitSort(found.Row(q))| == |found.Row(q)| {
        SortedSize(hitSort(found.Row(q)), found.Row(q));
      }
      new' := SortRows(found, hitSort);
    }
    counts := [];
    var q := 0;
    while q < |ref.lims| - 1
      invariant 0 <= q < |ref.lims|
      invariant Counted(ref, found, thresholds, counts, q)
    {
      assert multiset(ref'.Row(q)) == multiset(ref.Row(q)) && Ascending(ref'.Row(q));
      assert multiset(new'.Row(q)) == multiset(found.Row(q)) && ByDistance(new'.Row(q));
      var c := ComputePRFor(ref'.Row(q), new'.Row(q), thresholds);
      forall t | 0 <= t < |thresholds| ensures c[t] == CountsAt(ref.Row(q), found.Row(q), thresholds[t]) {
        CountsIgnoreOrder(ref'.Row(q), ref.Row(q), new'.Row(q), found.Row(q), thresholds[t]);
      }
      counts := counts + [c];
      q := q + 1;
    }
  }

  /** Precision and recall at one threshold, from the counts. */
  method MeasureOne(ghost ref: Csr<int>, ghost found: Csr<Hit>, ghost thresholds: seq<real>,
                    counts: seq<seq<Counts>>, t: nat, mode: Mode) returns (r: Result<(Option<real>, Option<real>)>)
    requires SameQueries(ref, found) && t < |thresholds|
    requires Counted(ref, found, thresholds, counts, |ref.lims| - 1)
    ensures r.Ok? <==> MeasuresAt(ref, found, thresholds[t], mode).Ok?
    ensures r.Ok? ==> r == MeasuresAt(ref, found, thresholds[t], mode)
  {
    var nq := |counts|;
    var ngt := new nat[nq](q requires 0 <= q < nq => counts[q][t].ngt);
    var nres := new nat[nq](q requires 0 <= q < nq => counts[q][t].nres);
    var ninter := new nat[nq](q requires 0 <= q < nq => counts[q][t].ninter);
    assert forall q :: 0 <= q < nq ==> counts[q][t] == CountsAt(ref.Row(q), found.Row(q), thresholds[t]);
    assert ngt[..] == ref.Sizes();
    assert nres[..] == ResultsAt(found, thresholds[t]);
    assert ninter[..] == CorrectAt(ref, found, thresholds[t]);
    r := CountsToPR(ngt, nres, ninter, mode);
  }

  /** Precisions and recalls for all thresholds in one pass. */
  method RangePRMultipleThresholds(ref: Csr<int>, found: Csr<Hit>, thresholds: seq<real>, mode: Mode,
                                   sortRef: bool, sortNew: bool,
                                   idSort: seq<int> -> seq<int>, hitSort: seq<Hit> -> seq<Hit>)
    returns (r: Result<(seq<Option<real>>, seq<Option<real>>)>)
    requires ref.Valid() && found.Valid() && SortsIds(idSort) && SortsHits(hitSort)
    requires sortRef || forall q :: 0 <= q < |ref.lims| - 1 ==> Ascending(ref.Row(q))
    requires sortNew || forall q :: 0 <= q < |found.lims| - 1 ==> ByDistance(found.Row(q))
    ensures r.Error? <==> |ref.lims| != |found.lims| || (mode == Unknown && thresholds != [])
    ensures r.Ok? ==> |r.value.0| == |r.value.1| == |thresholds|
    ensures r.Ok? ==> forall t :: 0 <= t < |thresholds| ==>
              MeasuresAt(ref, found, thresholds[t], mode) == Ok((r.value.0[t], r.value.1[t]))
  {
    if |ref.lims| != |found.lims| { return Error("different numbers of queries"); }
    var counts := CountAll(ref, found, thresholds, sortRef, sortNew, idSort, hitSort);
    r := MeasureAll(ref, found, thresholds, counts, mode);
  }

  /** Precisions and recalls at all thresholds, from the counts. */
  method MeasureAll(ghost ref: Csr<int>, ghost found: Csr<Hit>, thresholds: seq<real>,
                    counts: seq<seq<Counts>>, mode: Mode) returns (r: Result<(seq<Option<real>>, seq<Option<real>>)>)
    requires SameQueries(ref, found) && Counted(ref, found, thresholds, counts, |ref.lims| - 1)
    ensures r.Error? <==> mode == Unknown && thresholds != []
    ensures r.Ok? ==> |r.value.0| == |r.value.1| == |thresholds|
    ensures r.Ok? ==> forall t :: 0 <= t < |thresholds| ==>
              MeasuresAt(ref, found, thresholds[t], mode) == Ok((r.value.0[t], r.value.1[t]))
  {
    var precisions, recalls: seq<Option<real>> := [], [];
    var t := 0;
    while t < |thresholds|
      invariant 0 <= t <= |thresholds| && |precisions| == |recalls| == t && (mode == Unknown ==> t == 0)
      invariant forall s :: 0 <= s < t ==>
                  MeasuresAt(ref, found, thresholds[s], mode) == Ok((precisions[s], recalls[s]))
    {
      var pr := MeasureOne(ref, found, thresholds, counts, t, mode);
      if pr.Error? {
        NoStrayCorrect(ref, found, thresholds[t], mode);
        return Error(pr.message);
      }
      precisions, recalls := precisions + [pr.value.0], recalls + [pr.value.1];
      t := t + 1;
    }
    r := Ok((precisions, recalls));
  }

  /** There are no correct results where there are no results. */
  lemma NoStrayCorrect(ref: Csr<int>, found: Csr<Hit>, thresh: real, mode: Mode)
    requires SameQueries(ref, found)
    ensures MeasuresAt(ref, found, thresh, mode).Ok? <==> mode != Unknown
  {
    forall q | 0 <= q < |ref.lims| - 1 ensures CorrectAt(ref, found, thresh)[q] <= ResultsAt(found, thresh)[q] {
      CorrectInTwoSteps(ref.Row(q), thresh, found.Row(q));
      FilterShrinks(InGt(ref.Row(q)), Filter(Under(thresh), found.Row(q)));
    }
  }

  // ---- the reference: filter, then compare sets ----

  function Ids(hits: seq<Hit>): (ids: seq<int>)
    ensures |ids| == |hits| && forall i :: 0 <= i < |ids| ==> ids[i] == hits[i].id
  {
    seq(|hits|, i requires 0 <= i < |hits| => hits[i].id)
  }

  /** The size of the intersection of two sets of identifiers. */
  function Common(gt: seq<int>, found: seq<int>): nat {
    |set x | x in gt && x in found|
  }

  ghost function Commons(ref: Csr<int>, found: Csr<Hit>): (n: seq<nat>)
    requires SameQueries(ref, found)
    ensures |n| == |ref.lims| - 1
  {
    seq(|ref.lims| - 1, q requires 0 <= q < |ref.lims| - 1 => Common(ref.Row(q), Ids(found.Row(q))))
  }

  /** Precision and recall of range search results, whatever their distances. */
  method RangePR(ref: Csr<int>, found: Csr<Hit>, mode: Mode) returns (r: Result<(Option<real>, Option<real>)>)
    requires ref.Valid() && found.Valid()
    ensures |ref.lims| != |found.lims| ==> r.Error?
    ensures |ref.lims| == |found.lims| ==>
              (r.Ok? <==> Measures(ref.Sizes(), found.Sizes(), Commons(ref, found), mode).Ok?)
    ensures r.Ok? ==> r == Measures(ref.Sizes(), found.Sizes(), Commons(ref, found), mode)
  {
    var nq := |ref.lims| - 1;
    if |found.lims| - 1 != nq { return Error("different numbers of queries"); }
    var ninter := Intersections(ref, found);
    var ngt := RowSizes(ref);
    var nres := RowSizes(found);
    r := CountsToPR(ngt, nres, ninter, mode);
  }

  method Intersections(ref: Csr<int>, found: Csr<Hit>) returns (ninter: array<nat>)
    requires SameQueries(ref, found)
    ensures fresh(ninter) && ninter[..] == Commons(ref, found)
  {
    var nq := |ref.lims| - 1;
    ninter := new nat[nq](_ => 0);
    var q := 0;
    while q < nq
      invariant 0 <= q <= nq
      invariant forall h :: 0 <= h < q ==> ninter[h] == Common(ref.Row(h), Ids(found.Row(h)))
    {
      ninter[q] := Common(ref.Row(q), Ids(found.Row(q)));
      q := q + 1;
    }
    assert ninter[..] == Commons(ref, found);
  }

  method RowSizes<T>(t: Csr<T>) returns (n: array<nat>)
    requires t.Valid()
    ensures fresh(n) && n[..] == t.Sizes()
  {
    n := new nat[|t.lims| - 1](q requires 0 <= q < |t.lims| - 1 && t.Valid() => t.lims[q + 1] - t.lims[q]);
    assert n[..] == t.Sizes();
  }

  /** What is measured here, for each query: how much ground truth and how many results it has, and how many different
      identifiers are in both. */
  lemma RangePRMeans(ref: Csr<int>, found: Csr<Hit>, mode: Mode, ngt: seq<nat>, nres: seq<nat>, ninter: seq<nat>)
    requires SameQueries(ref, found) && |ngt| == |nres| == |ninter| == |ref.lims| - 1
    requires forall q :: 0 <= q < |ngt| ==> ngt[q] == ref.lims[q + 1] - ref.lims[q]
    requires forall q :: 0 <= q < |nres| ==> nres[q] == found.lims[q + 1] - found.lims[q]
    requires forall q :: 0 <= q < |ninter| ==>
               ninter[q] == |set x | x in ref.Row(q) && (exists h :: h in found.Row(q) && h.id == x)|
    ensures Measures(ref.Sizes(), found.Sizes(), Commons(ref, found), mode) == Measures(ngt, nres, ninter, mode)
  {
    SizesAre(ref, ngt);
    SizesAre(found, nres);
    CommonsAre(ref, found, ninter);
  }

  lemma SizesAre<T>(a: Csr<T>, sizes: seq<nat>)
    requires a.Valid() && |sizes| == |a.lims| - 1
    requires forall q :: 0 <= q < |sizes| ==> sizes[q] == a.lims[q + 1] - a.lims[q]
    ensures sizes == a.Sizes()
  {
  }

  lemma CommonsAre(ref: Csr<int>, found: Csr<Hit>, ninter: seq<nat>)
    requires SameQueries(ref, found) && |ninter| == |ref.lims| - 1
    requires forall q :: 0 <= q < |ninter| ==>
               ninter[q] == |set x | x in ref.Row(q) && (exists h :: h in found.Row(q) && h.id == x)|
    ensures ninter == Commons(ref, found)
  {
    var commons := Commons(ref, found);
    forall q | 0 <= q < |ninter| ensures ninter[q] == commons[q] {
      CommonIs(ref.Row(q), found.Row(q));
    }
  }

  lemma CommonIs(gt: seq<int>, hits: seq<Hit>)
    ensures Common(gt, Ids(hits)) == |set x | x in gt && (exists h :: h in hits && h.id == x)|
  {
    var a, b := set x | x in gt && x in Ids(hits), set x | x in gt && (exists h :: h in hits && h.id == x);
    forall x ensures x in a <==> x in b {
      if x in a { WithId(hits, x); }
      if x in b {
        var h :| h in hits && h.id == x;
        HasId(hits, h);
      }
    }
    assert a == b;
  }

  // ---- when the two agree ----

  /** Identifiers of the elements that satisfy `f` do not repeat. */
  ghost predicate DistinctAmong(f: Hit -> bool, hits: seq<Hit>) {
    forall i, j :: 0 <= i < j < |hits| && f(hits[i]) && f(hits[j]) ==> hits[i].id != hits[j].id
  }

  /** No ground truth identifier is reported twice under the threshold. */
  ghost predicate NoRepeats(gt: seq<int>, hits: seq<Hit>, thresh: real) {
    DistinctAmong(Correct(gt, thresh), hits)
  }

  ghost predicate Distinct(ids: seq<int>) {
    forall i, j :: 0 <= i < j < |ids| ==> ids[i] != ids[j]
  }

  lemma {:induction false} DistinctFiltered(f: Hit -> bool, hits: seq<Hit>)
    ensures Distinct(Ids(Filter(f, hits))) <==> DistinctAmong(f, hits)
  {
    if hits != [] {
      var h, rest := hits[0], hits[1..];
      DistinctFiltered(f, rest);
      DistinctCons(f, hits);
      if f(h) {
        assert Ids(Filter(f, hits)) == [h.id] + Ids(Filter(f, rest));
        ConsDistinct(h.id, Ids(Filter(f, rest)));
        IdAmong(f, rest, h.id);
      }
    }
  }

  lemma IdAmong(f: Hit -> bool, hits: seq<Hit>, x: int)
    ensures x in Ids(Filter(f, hits)) <==> exists h :: h in hits && f(h) && h.id == x
  {
    FilterMembers(f, hits);
    if x in Ids(Filter(f, hits)) { WithId(Filter(f, hits), x); }
    if h :| h in hits && f(h) && h.id == x { HasId(Filter(f, hits), h); }
  }

  lemma ConsDistinct(x: int, ids: seq<int>)
    ensures Distinct([x] + ids) <==> x !in ids && Distinct(ids)
  {
    var more := [x] + ids;
    assert forall i :: 0 <= i < |ids| ==> more[i + 1] == ids[i];
    if Distinct(more) {
      assert forall i :: 0 <= i < |ids| ==> more[0] != ids[i];
      forall i, j | 0 <= i < j < |ids| ensures ids[i] != ids[j] {
        assert more[i + 1] != more[j + 1];
      }
    }
  }

  lemma DistinctCons(f: Hit -> bool, hits: seq<Hit>)
    requires hits != []
    ensures DistinctAmong(f, hits) <==>
            DistinctAmong(f, hits[1..]) && (f(hits[0]) ==> !exists x :: x in hits[1..] && f(x) && x.id == hits[0].id)
  {
    var rest := hits[1..];
    assert forall i :: 0 <= i < |rest| ==> rest[i] == hits[i + 1];
    if DistinctAmong(f, hits) {
      forall i, j | 0 <= i < j < |rest| && f(rest[i]) && f(rest[j]) ensures rest[i].id != rest[j].id {
        assert hits[i + 1].id != hits[j + 1].id;
      }
      if f(hits[0]) {
        forall x | x in rest && f(x) ensures x.id != hits[0].id {
          var j :| 0 <= j < |rest| && rest[j] == x;
          assert hits[j + 1].id != hits[0].id;
        }
      }
    }
  }

  /** Counting correct results position by position never gives less than the set intersection, and
      gives the same if and only if no correct identifier repeats. */
  lemma CountsAgreeIff(gt: seq<int>, hits: seq<Hit>, thresh: real)
    ensures Common(gt, Ids(Filter(Under(thresh), hits))) <= |Filter(Correct(gt, thresh), hits)|
    ensures Common(gt, Ids(Filter(Under(thresh), hits))) == |Filter(Correct(gt, thresh), hits)|
            <==> NoRepeats(gt, hits, thresh)
  {
    var under, correct := Filter(Under(thresh), hits), Filter(Correct(gt, thresh), hits);
    SameIds(gt, hits, thresh);
    DistinctSizeIff(Ids(correct));
    DistinctFiltered(Correct(gt, thresh), hits);
  }

  lemma SameIds(gt: seq<int>, hits: seq<Hit>, thresh: real)
    ensures (set x | x in gt && x in Ids(Filter(Under(thresh), hits)))
            == (set x | x in Ids(Filter(Correct(gt, thresh), hits)))
  {
    var under, correct := Filter(Under(thresh), hits), Filter(Correct(gt, thresh), hits);
    FilterMembers(Under(thresh), hits);
    FilterMembers(Correct(gt, thresh), hits);
    forall x ensures x in gt && x in Ids(under) <==> x in Ids(correct) {
      if x in gt && x in Ids(under) {
        WithId(under, x);
        var h :| h in under && h.id == x;
        HasId(correct, h);
      }
      if x in Ids(correct) {
        WithId(correct, x);
        var h :| h in correct && h.id == x;
        HasId(under, h);
      }
    }
  }

  lemma WithId(hits: seq<Hit>, x: int)
    requires x in Ids(hits)
    ensures exists h :: h in hits && h.id == x
  {
    var i :| 0 <= i < |hits| && Ids(hits)[i] == x;
    assert hits[i] in hits;
  }

  lemma HasId(hits: seq<Hit>, h: Hit)
    requires h in hits
    ensures h.id in Ids(hits)
  {
    var i :| 0 <= i < |hits| && hits[i] == h;
    assert Ids(hits)[i] == h.id;
  }

  lemma CommonAtMost(gt: seq<int>, found: seq<int>)
    ensures Common(gt, found) <= |gt| && Common(gt, found) <= |found|
  {
    var s := set x | x in gt && x in found;
    DistinctSizeIff(gt);
    DistinctSizeIff(found);
    SubsetIsSmaller(s, set x | x in gt);
    SubsetIsSmaller(s, set x | x in found);
  }

  /** The results of `found` under a threshold. */
  ghost predicate IsFiltered(r: Csr<Hit>, found: Csr<Hit>, thresh: real) {
    && SameQueries(r, found)
    && forall q :: 0 <= q < |found.lims| - 1 ==> r.Row(q) == Filter(Under(thresh), found.Row(q))
  }

  /** The one-pass table agrees with filtering and comparing if and only if no correct identifier is
      reported twice; otherwise it overstates the precision. */
  lemma OnePassAgreesIff(ref: Csr<int>, found: Csr<Hit>, r: Csr<Hit>, thresh: real, mode: Mode)
    requires SameQueries(ref, found) && IsFiltered(r, found, thresh) && mode != Unknown
    ensures Measures(ref.Sizes(), r.Sizes(), Commons(ref, r), mode).Ok? && MeasuresAt(ref, found, thresh, mode).Ok?
    ensures Measures(ref.Sizes(), r.Sizes(), Commons(ref, r), mode).value.0
            == MeasuresAt(ref, found, thresh, mode).value.0
            <==> forall q :: 0 <= q < |ref.lims| - 1 ==> NoRepeats(ref.Row(q), found.Row(q), thresh)
    ensures Measures(ref.Sizes(), r.Sizes(), Commons(ref, r), mode) == MeasuresAt(ref, found, thresh, mode)
            <==> forall q :: 0 <= q < |ref.lims| - 1 ==> NoRepeats(ref.Row(q), found.Row(q), thresh)
  {
    var n := |ref.lims| - 1;
    assert r.Sizes() == ResultsAt(found, thresh);
    var a, b := Commons(ref, r), CorrectAt(ref, found, thresh);
    forall q | 0 <= q < n
      ensures a[q] <= b[q] <= ResultsAt(found, thresh)[q]
      ensures a[q] == b[q] <==> NoRepeats(ref.Row(q), found.Row(q), thresh)
    {
      CountsAgreeIff(ref.Row(q), found.Row(q), thresh);
      CorrectInTwoSteps(ref.Row(q), thresh, found.Row(q));
      FilterShrinks(InGt(ref.Row(q)), Filter(Under(thresh), found.Row(q)));
    }
    SamePrecisionIff(ref.Sizes(), r.Sizes(), a, b, mode);
    assert a == b <==> forall q :: 0 <= q < n ==> a[q] == b[q];
  }

  /** Precision and recall of range search results lie between 0 and 1. */
  lemma RangePRInUnit(ref: Csr<int>, found: Csr<Hit>, mode: Mode)
    requires SameQueries(ref, found) && mode != Unknown
    ensures exists p, r :: Measures(ref.Sizes(), found.Sizes(), Commons(ref, found), mode) == Ok((p, r))
                           && Unit(p) && Unit(r)
  {
    forall q | 0 <= q < |ref.lims| - 1
      ensures Commons(ref, found)[q] <= ref.Sizes()[q] && Commons(ref, found)[q] <= found.Sizes()[q]
    {
      CommonAtMost(ref.Row(q), Ids(found.Row(q)));
    }
    MeasuresInUnit(ref.Sizes(), found.Sizes(), Commons(ref, found), mode);
  }

  /** What the one-pass table counts as correct for each query. */
  lemma CorrectAtMost(ref: Csr<int>, found: Csr<Hit>, thresh: real, q: nat)
    requires SameQueries(ref, found) && q < |ref.lims| - 1
    ensures CorrectAt(ref, found, thresh)[q] <= ResultsAt(found, thresh)[q]
    ensures ref.Sizes()[q] == 0 ==> CorrectAt(ref, found, thresh)[q] == 0
    ensures NoRepeats(ref.Row(q), found.Row(q), thresh) ==> CorrectAt(ref, found, thresh)[q] <= ref.Sizes()[q]
  {
    var gt, hits := ref.Row(q), found.Row(q);
    CorrectInTwoSteps(gt, thresh, hits);
    FilterShrinks(InGt(gt), Filter(Under(thresh), hits));
    CountsAgreeIff(gt, hits, thresh);
    CommonAtMost(gt, Ids(Filter(Under(thresh), hits)));
    if gt == [] { FilterNone(Correct(gt, thresh), hits); }
  }

  /** The one-pass precision lies between 0 and 1. The recall does if no query counts more correct results
      than its ground truth, which takes repeated results; over all queries at once exactly if they do
      not count more in total. */
  lemma OnePassInUnit(ref: Csr<int>, found: Csr<Hit>, thresh: real, mode: Mode)
    requires SameQueries(ref, found) && mode != Unknown
    ensures MeasuresAt(ref, found, thresh, mode).Ok? && Unit(MeasuresAt(ref, found, thresh, mode).value.0)
    ensures (forall q :: 0 <= q < |ref.lims| - 1 ==> NoRepeats(ref.Row(q), found.Row(q), thresh)) ==>
              Unit(MeasuresAt(ref, found, thresh, mode).value.1)
    ensures (forall q :: 0 <= q < |ref.lims| - 1 ==> CorrectAt(ref, found, thresh)[q] <= ref.Sizes()[q]) ==>
              Unit(MeasuresAt(ref, found, thresh, mode).value.1)
    ensures mode == Overall ==>
              (Unit(MeasuresAt(ref, found, thresh, mode).value.1)
               <==> Sum(CorrectAt(ref, found, thresh)) <= Sum(ref.Sizes()))
  {
    var ngt, nres, ninter := ref.Sizes(), ResultsAt(found, thresh), CorrectAt(ref, found, thresh);
    forall q | 0 <= q < |ngt|
      ensures ninter[q] <= nres[q] && (ngt[q] == 0 ==> ninter[q] == 0)
      ensures NoRepeats(ref.Row(q), found.Row(q), thresh) ==> ninter[q] <= ngt[q]
    {
      CorrectAtMost(ref, found, thresh, q);
    }
    PrecisionInUnit(ngt, nres, ninter, mode);
    if forall q :: 0 <= q < |ngt| ==> ninter[q] <= ngt[q] { RecallInUnit(ngt, nres, ninter, mode); }
    NoneFromNothing(ngt, ninter);
    RecallInUnitIff(Sum(ngt), Sum(nres), Sum(ninter));
  }

  lemma {:induction false} NoneFromNothing(ngt: seq<nat>, ninter: seq<nat>)
    requires |ngt| == |ninter| && forall q :: 0 <= q < |ngt| && ngt[q] == 0 ==> ninter[q] == 0
    ensures Sum(ngt) == 0 ==> Sum(ninter) == 0
  {
    if ngt != [] { NoneFromNothing(ngt[1..], ninter[1..]); }
  }

  /** A correct identifier reported twice: the one-pass recall is 2. */
  lemma RepeatCountsTwice(ref: Csr<int>, found: Csr<Hit>)
    requires ref == Csr([0, 1], [7]) && found == Csr([0, 2], [Hit(0.1, 7), Hit(0.2, 7)])
    ensures SameQueries(ref, found) && !NoRepeats(ref.Row(0), found.Row(0), 1.0)
    ensures MeasuresAt(ref, found, 1.0, Overall) == Ok((Some(1.0), Some(2.0)))
  {
    var gt, hits := ref.Row(0), found.Row(0);
    SevenTwice(gt, hits);
    assert ref.Sizes() == [1] && ResultsAt(found, 1.0) == [2] && CorrectAt(ref, found, 1.0) == [2];
    assert Sum([1]) == 1 && Sum([2]) == 2;
  }

  lemma SevenTwice(gt: seq<int>, hits: seq<Hit>)
    requires gt == [7] && hits == [Hit(0.1, 7), Hit(0.2, 7)]
    ensures !NoRepeats(gt, hits, 1.0)
    ensures Filter(Under(1.0), hits) == hits && Filter(Correct(gt, 1.0), hits) == hits
  {
    assert hits[0].id == hits[1].id;
    FilterAll(Under(1.0), hits);
    FilterAll(Correct(gt, 1.0), hits);
  }

  /** Both ways of computing one entry of the table. */
  method CompareAtThreshold(ref: Csr<int>, found: Csr<Hit>, thresh: real, mode: Mode,
                            idSort: seq<int> -> seq<int>, hitSort: seq<Hit> -> seq<Hit>)
    returns (once: (Option<real>, Option<real>), again: (Option<real>, Option<real>))
    requires SameQueries(ref, found) && mode != Unknown && SortsIds(idSort) && SortsHits(hitSort)
    ensures once == again <==> forall q :: 0 <= q < |ref.lims| - 1 ==> NoRepeats(ref.Row(q), found.Row(q), thresh)
    ensures Unit(again.0) && Unit(again.1)
  {
    var table := RangePRMultipleThresholds(ref, found, [thresh], mode, true, true, idSort, hitSort);
    once := (table.value.0[0], table.value.1[0]);
    var filtered := FilterRangeResults(found, thresh);
    OnePassAgreesIff(ref, found, filtered, thresh, mode);
    RangePRInUnit(ref, filtered, mode);
    var pr := RangePR(ref, filtered, mode);
    again := pr.value;
    assert MeasuresAt(ref, found, [thresh][0], mode) == Ok(once);
  }
}
