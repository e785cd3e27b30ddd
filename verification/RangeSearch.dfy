/** Range search with a bounded result table (contrib/exhaustive_search.py): when the table
    grows too large the radius shrinks, for the results at hand and for the searches to come. */
module RangeSearch {
  import opened Basics

  /** The results of a batch of queries: how many for each, and all of them in a row. */
  datatype Batch = Batch(nres: seq<nat>, hits: seq<Hit>)

  /** All the candidates for each query, in the order in which the index reports them. */
  type Candidates = nat -> seq<Hit>

  /** `d` is strictly within radius `r`. */
  predicate Within(keepMax: bool, d: real, r: real) {
    Score(keepMax, d) < Score(keepMax, r)
  }

  function Inside(keepMax: bool, r: real): Hit -> bool {
    (h: Hit) => Within(keepMax, h.dis, r)
  }

  /** The range search of the index for one query. */
  function Search(all: Candidates, keepMax: bool, q: nat, r: real): seq<Hit> {
    Filter(Inside(keepMax, r), all(q))
  }

  /** The results for a query: its candidates strictly within the radius, which is an upper bound on distances and
      a lower bound on similarities, in the order of the index. */
  lemma SearchIs(all: Candidates, keepMax: bool, q: nat, r: real) returns (places: seq<nat>)
    ensures |places| == |Search(all, keepMax, q, r)|
    ensures forall i :: 0 <= i < |places| ==>
              places[i] < |all(q)| && Search(all, keepMax, q, r)[i] == all(q)[places[i]]
    ensures forall i, j :: 0 <= i < j < |places| ==> places[i] < places[j]
    ensures forall p: nat :: p < |all(q)| ==>
              (p in places <==> if keepMax then all(q)[p].dis > r else all(q)[p].dis < r)
  {
    places := FilterPlaces(Inside(keepMax, r), all(q));
  }

  /** The results of a batch of queries, one after the other. */
  function SearchAll(all: Candidates, keepMax: bool, qs: seq<nat>, r: real): seq<Hit> {
    if qs == [] then [] else Search(all, keepMax, qs[0], r) + SearchAll(all, keepMax, qs[1..], r)
  }

  function Counts(all: Candidates, keepMax: bool, qs: seq<nat>, r: real): (n: seq<nat>)
    ensures |n| == |qs|
  {
    seq(|qs|, i requires 0 <= i < |qs| => |Search(all, keepMax, qs[i], r)|)
  }

  function BatchOf(all: Candidates, keepMax: bool, qs: seq<nat>, r: real): Batch {
    Batch(Counts(all, keepMax, qs, r), SearchAll(all, keepMax, qs, r))
  }

  lemma {:induction false} SearchAllConcat(all: Candidates, keepMax: bool, qs: seq<nat>, ps: seq<nat>, r: real)
    ensures SearchAll(all, keepMax, qs + ps, r) == SearchAll(all, keepMax, qs, r) + SearchAll(all, keepMax, ps, r)
  {
    if qs == [] {
      assert qs + ps == ps;
    } else {
      assert (qs + ps)[0] == qs[0] && (qs + ps)[1..] == qs[1..] + ps;
      SearchAllConcat(all, keepMax, qs[1..], ps, r);
      Associate(Search(all, keepMax, qs[0], r), SearchAll(all, keepMax, qs[1..], r), SearchAll(all, keepMax, ps, r));
    }
  }

  /** Restricting to a tighter radius is searching at that radius. */
  lemma {:induction false} Tighten(keepMax: bool, s: seq<Hit>, r: real, r': real)
    requires Score(keepMax, r') <= Score(keepMax, r)
    ensures Filter(Inside(keepMax, r'), Filter(Inside(keepMax, r), s)) == Filter(Inside(keepMax, r'), s)
  {
    if s != [] {
      Tighten(keepMax, s[1..], r, r');
      if Within(keepMax, s[0].dis, r) {
        assert ([s[0]] + Filter(Inside(keepMax, r), s[1..]))[1..] == Filter(Inside(keepMax, r), s[1..]);
      }
    }
  }

  lemma {:induction false} TightenAll(all: Candidates, keepMax: bool, qs: seq<nat>, r: real, r': real)
    requires Score(keepMax, r') <= Score(keepMax, r)
    ensures Filter(Inside(keepMax, r'), SearchAll(all, keepMax, qs, r)) == SearchAll(all, keepMax, qs, r')
  {
    if qs != [] {
      TightenAll(all, keepMax, qs[1..], r, r');
      Tighten(keepMax, all(qs[0]), r, r');
      FilterAppend(Inside(keepMax, r'), Search(all, keepMax, qs[0], r), SearchAll(all, keepMax, qs[1..], r));
    }
  }

  // Restricting a batch

  /** How many of the hits of each query, laid out one after the other, satisfy `f`. */
  ghost function FilteredCounts(f: Hit -> bool, nres: seq<nat>, hits: seq<Hit>): (n: seq<nat>)
    requires Sum(nres) == |hits|
  {
    if nres == [] then []
    else [|Filter(f, hits[..nres[0]])|] + FilteredCounts(f, nres[1..], hits[nres[0]..])
  }

  /** Select the results of a batch that are within a radius. */
  method ThresholdRadiusNres(batch: Batch, thresh: real, keepMax: bool) returns (r: Batch)
    requires Sum(batch.nres) == |batch.hits|
    ensures r.hits == Filter(Inside(keepMax, thresh), batch.hits)
    ensures r.nres == FilteredCounts(Inside(keepMax, thresh), batch.nres, batch.hits)
  {
    var newNres: seq<nat> := [];
    ghost var f := Inside(keepMax, thresh);
    ghost var total := FilteredCounts(f, batch.nres, batch.hits);
    ghost var nres, hits := batch.nres, batch.hits;  // what is left to count
    var o, i := 0, 0;
    while i < |batch.nres|
      invariant 0 <= i <= |batch.nres| && 0 <= o <= |batch.hits|
      invariant nres == batch.nres[i..] && hits == batch.hits[o..] && Sum(nres) == |hits|
      invariant newNres + FilteredCounts(f, nres, hits) == total
    {
      var nr := batch.nres[i];
      assert batch.hits[o..][..nr] == batch.hits[o..o + nr] && batch.hits[o..][nr..] == batch.hits[o + nr..];
      Associate(newNres, [|Filter(f, hits[..nr])|], FilteredCounts(f, nres[1..], hits[nr..]));
      newNres := newNres + [|Filter(Inside(keepMax, thresh), batch.hits[o..o + nr])|];
      nres, hits := nres[1..], hits[nr..];
      o, i := o + nr, i + 1;
    }
    r := Batch(newNres, Filter(Inside(keepMax, thresh), batch.hits));
  }

  lemma {:induction false} CountsAddUp(all: Candidates, keepMax: bool, qs: seq<nat>, r: real)
    ensures Sum(Counts(all, keepMax, qs, r)) == |SearchAll(all, keepMax, qs, r)|
  {
    if qs != [] {
      CountsAddUp(all, keepMax, qs[1..], r);
      assert Counts(all, keepMax, qs, r)[1..] == Counts(all, keepMax, qs[1..], r);
    }
  }

  /** The restriction of a batch's results is what a search at the tighter radius gives. */
  lemma {:induction false} ThresholdIsSearch(all: Candidates, keepMax: bool, qs: seq<nat>, r: real, r': real)
    requires Score(keepMax, r') <= Score(keepMax, r)
    ensures Sum(Counts(all, keepMax, qs, r)) == |SearchAll(all, keepMax, qs, r)|
    ensures FilteredCounts(Inside(keepMax, r'), Counts(all, keepMax, qs, r), SearchAll(all, keepMax, qs, r))
            == Counts(all, keepMax, qs, r')
  {
    CountsAddUp(all, keepMax, qs, r);
    if qs != [] {
      var n, s := Counts(all, keepMax, qs, r), SearchAll(all, keepMax, qs, r);
      ThresholdIsSearch(all, keepMax, qs[1..], r, r');
      Tighten(keepMax, all(qs[0]), r, r');
      assert n[1..] == Counts(all, keepMax, qs[1..], r);
      assert s[..n[0]] == Search(all, keepMax, qs[0], r) && s[n[0]..] == SearchAll(all, keepMax, qs[1..], r);
      assert Counts(all, keepMax, qs, r')
             == [|Search(all, keepMax, qs[0], r')|] + Counts(all, keepMax, qs[1..], r');
    }
  }

  // Choosing the radius

  /** `t` has the elements of `s`, the one at `kth` where sorting would put it, the smaller
      ones before it and the larger ones behind it. */
  ghost predicate IsPartition(t: seq<real>, s: seq<real>, kth: nat) {
    && multiset(t) == multiset(s) && kth < |t| == |s|
    && (forall i :: 0 <= i < kth ==> t[i] <= t[kth])
    && (forall i :: kth < i < |t| ==> t[kth] <= t[i])
  }

  /** Any partitioning routine. */
  ghost predicate Partitions(partition: (seq<real>, nat) -> seq<real>) {
    forall s, kth: nat {:trigger partition(s, kth)} :: kth < |s| ==> IsPartition(partition(s, kth), s, kth)
  }

  function Strictly(keepMax: bool, r: real): real -> bool {
    (d: real) => Within(keepMax, d, r)
  }

  /** `r` is the loosest radius with at most `target` of the distances within it. */
  ghost predicate IsLoosest(keepMax: bool, ds: seq<real>, r: real, target: nat) {
    && |Filter(Strictly(keepMax, r), ds)| <= target
    && forall r' :: Score(keepMax, r) < Score(keepMax, r') ==> |Filter(Strictly(keepMax, r'), ds)| > target
  }

  /** The element of rank `target` from the best end is the loosest radius. */
  lemma RankIsLoosest(keepMax: bool, ds: seq<real>, t: seq<real>, target: nat)
    requires target < |ds|
    requires IsPartition(t, ds, if keepMax then |ds| - target - 1 else target)
    ensures IsLoosest(keepMax, ds, t[if keepMax then |ds| - target - 1 else target], target)
    ensures t[if keepMax then |ds| - target - 1 else target] in ds
  {
    var kth := if keepMax then |ds| - target - 1 else target;
    assert t[kth] in multiset(t);
    FewAreWithin(keepMax, ds, t, kth, target);
    forall r' | Score(keepMax, t[kth]) < Score(keepMax, r') ensures |Filter(Strictly(keepMax, r'), ds)| > target {
      LooserKeepsMore(keepMax, ds, t, kth, r', target);
    }
  }

  lemma FewAreWithin(keepMax: bool, ds: seq<real>, t: seq<real>, kth: nat, target: nat)
    requires target < |ds| && kth == (if keepMax then |ds| - target - 1 else target)
    requires IsPartition(t, ds, kth)
    ensures |Filter(Strictly(keepMax, t[kth]), ds)| <= target
  {
    var f := Strictly(keepMax, t[kth]);
    FilterPermuted(f, ds, t);
    if keepMax {
      FewFrom(f, t, kth + 1);
    } else {
      FewBefore(f, t, kth);
    }
  }

  lemma FewBefore<T>(f: T -> bool, t: seq<T>, k: nat)
    requires k <= |t| && forall i :: k <= i < |t| ==> !f(t[i])
    ensures |Filter(f, t)| <= k
  {
    assert t == t[..k] + t[k..];
    FilterAppend(f, t[..k], t[k..]);
    FilterNone(f, t[k..]);
    FilterShrinks(f, t[..k]);
  }

  lemma FewFrom<T>(f: T -> bool, t: seq<T>, k: nat)
    requires k <= |t| && forall i :: 0 <= i < k ==> !f(t[i])
    ensures |Filter(f, t)| <= |t| - k
  {
    assert t == t[..k] + t[k..];
    FilterAppend(f, t[..k], t[k..]);
    FilterNone(f, t[..k]);
    FilterShrinks(f, t[k..]);
  }

  lemma AllBefore<T>(f: T -> bool, t: seq<T>, k: nat)
    requires k <= |t| && forall i :: 0 <= i < k ==> f(t[i])
    ensures |Filter(f, t)| >= k
  {
    assert t == t[..k] + t[k..];
    FilterAppend(f, t[..k], t[k..]);
    FilterAll(f, t[..k]);
  }

  lemma AllFrom<T>(f: T -> bool, t: seq<T>, k: nat)
    requires k <= |t| && forall i :: k <= i < |t| ==> f(t[i])
    ensures |Filter(f, t)| >= |t| - k
  {
    assert t == t[..k] + t[k..];
    FilterAppend(f, t[..k], t[k..]);
    FilterAll(f, t[k..]);
  }

  lemma LooserKeepsMore(keepMax: bool, ds: seq<real>, t: seq<real>, kth: nat, r': real, target: nat)
    requires target < |ds| && kth == (if keepMax then |ds| - target - 1 else target)
    requires IsPartition(t, ds, kth) && Score(keepMax, t[kth]) < Score(keepMax, r')
    ensures |Filter(Strictly(keepMax, r'), ds)| > target
  {
    var f := Strictly(keepMax, r');
    FilterPermuted(f, ds, t);
    if keepMax {
      AllFrom(f, t, kth);
    } else {
      AllBefore(f, t, kth + 1);
    }
  }

  function Distances(hits: seq<Hit>): (ds: seq<real>)
    ensures |ds| == |hits| && forall i :: 0 <= i < |ds| ==> ds[i] == hits[i].dis
  {
    seq(|hits|, i requires 0 <= i < |hits| => hits[i].dis)
  }

  lemma {:induction false} FilterDistances(keepMax: bool, hits: seq<Hit>, r: real)
    ensures |Filter(Strictly(keepMax, r), Distances(hits))| == |Filter(Inside(keepMax, r), hits)|
  {
    if hits != [] {
      FilterDistances(keepMax, hits[1..], r);
      assert Distances(hits)[1..] == Distances(hits[1..]);
    }
  }

  function AllHits(batches: seq<Batch>): seq<Hit> {
    if batches == [] then [] else AllHits(batches[..|batches| - 1]) + batches[|batches| - 1].hits
  }

  function Flatten(queries: seq<seq<nat>>): seq<nat> {
    if queries == [] then [] else Flatten(queries[..|queries| - 1]) + queries[|queries| - 1]
  }

  /** The table holds, batch by batch, what searching at radius `r` gives. */
  ghost predicate Tabulates(all: Candidates, keepMax: bool, queries: seq<seq<nat>>, batches: seq<Batch>, r: real) {
    |batches| == |queries| && forall i :: 0 <= i < |batches| ==> batches[i] == BatchOf(all, keepMax, queries[i], r)
  }

  lemma {:induction false} TableIsSearch(all: Candidates, keepMax: bool, queries: seq<seq<nat>>,
                                         batches: seq<Batch>, r: real)
    requires Tabulates(all, keepMax, queries, batches, r)
    ensures AllHits(batches) == SearchAll(all, keepMax, Flatten(queries), r)
  {
    if batches != [] {
      var last := |batches| - 1;
      TableIsSearch(all, keepMax, queries[..last], batches[..last], r);
      SearchAllConcat(all, keepMax, Flatten(queries[..last]), queries[last], r);
    }
  }

  /** For the queries seen so far, `r` is the loosest radius with at most `target` results. */
  ghost predicate LoosestFor(all: Candidates, keepMax: bool, qs: seq<nat>, r: real, target: nat) {
    && |SearchAll(all, keepMax, qs, r)| <= target
    && forall r' :: Score(keepMax, r) < Score(keepMax, r') ==> |SearchAll(all, keepMax, qs, r')| > target
  }

  /** The radius goes from `r` to a tighter one, the loosest with at most `target` results. */
  ghost predicate Tightened(all: Candidates, keepMax: bool, qs: seq<nat>, r: real, r': real, target: nat) {
    Score(keepMax, r') < Score(keepMax, r) && LoosestFor(all, keepMax, qs, r', target)
  }

  /** Among the results at a radius, the loosest selection is the loosest search. */
  lemma LoosestSearch(all: Candidates, keepMax: bool, qs: seq<nat>, r: real, r': real, target: nat)
    requires target < |SearchAll(all, keepMax, qs, r)| && Score(keepMax, r') <= Score(keepMax, r)
    requires IsLoosest(keepMax, Distances(SearchAll(all, keepMax, qs, r)), r', target)
    ensures LoosestFor(all, keepMax, qs, r', target)
  {
    var s := SearchAll(all, keepMax, qs, r);
    TightenAll(all, keepMax, qs, r, r');
    FilterDistances(keepMax, s, r');
    forall q | Score(keepMax, r') < Score(keepMax, q) ensures |SearchAll(all, keepMax, qs, q)| > target {
      if Score(keepMax, q) <= Score(keepMax, r) {
        TightenAll(all, keepMax, qs, r, q);
        FilterDistances(keepMax, s, q);
      } else {
        TightenAll(all, keepMax, qs, q, r);
        FilterShrinks(Inside(keepMax, r), SearchAll(all, keepMax, qs, q));
      }
    }
  }

  lemma {:induction false} HitsAreWithin(all: Candidates, keepMax: bool, qs: seq<nat>, r: real)
    ensures forall h :: h in SearchAll(all, keepMax, qs, r) ==> Within(keepMax, h.dis, r)
  {
    if qs != [] {
      HitsAreWithin(all, keepMax, qs[1..], r);
      FilterHolds(Inside(keepMax, r), all(qs[0]));
    }
  }

  lemma {:induction false} FilterHolds<T>(f: T -> bool, s: seq<T>)
    ensures forall x :: x in Filter(f, s) ==> f(x)
  {
    if s != [] { FilterHolds(f, s[1..]); }
  }

  /** Restrict the results of one batch to a tighter radius. */
  method RestrictBatch(ghost all: Candidates, keepMax: bool, ghost qs: seq<nat>, batch: Batch, ghost radius: real,
                       newRadius: real) returns (r: Batch)
    requires batch == BatchOf(all, keepMax, qs, radius) && Score(keepMax, newRadius) <= Score(keepMax, radius)
    ensures r == BatchOf(all, keepMax, qs, newRadius)
  {
    ThresholdIsSearch(all, keepMax, qs, radius, newRadius);
    TightenAll(all, keepMax, qs, radius, newRadius);
    r := ThresholdRadiusNres(batch, newRadius, keepMax);
  }

  /** The result table of a range search with a moving radius. */
  class ResultTable {
    var radius: real
    var totres: nat
    var batches: seq<Batch>

    constructor (radius: real)
      ensures this.radius == radius && totres == 0 && batches == []
    {
      this.radius, this.totres, this.batches := radius, 0, [];
    }

    ghost predicate Holds(all: Candidates, keepMax: bool, queries: seq<seq<nat>>)
      reads this
    {
      Tabulates(all, keepMax, queries, batches, radius) && totres == |AllHits(batches)|
    }

    /** Add the results of one more batch. */
    method Extend(all: Candidates, keepMax: bool, queries: seq<seq<nat>>, i: nat)
      requires i < |queries| && Holds(all, keepMax, queries[..i])
      modifies this
      ensures Holds(all, keepMax, queries[..i + 1]) && radius == old(radius)
    {
      var found := BatchOf(all, keepMax, queries[i], radius);
      totres := totres + |found.hits|;
      batches := batches + [found];
      assert batches[..i] + [found] == batches && queries[..i + 1][..i] == queries[..i];
    }

    /** Find the radius that reduces the number of results to `targetNres` and apply it. */
    method ApplyMaxres(all: Candidates, keepMax: bool, ghost queries: seq<seq<nat>>, targetNres: nat,
                       partition: (seq<real>, nat) -> seq<real>)
      returns (r: Result<()>)
      requires Holds(all, keepMax, queries) && Partitions(partition)
      modifies this
      ensures r.Ok? <==> old(totres) > targetNres
      ensures r.Error? ==> radius == old(radius) && batches == old(batches) && totres == old(totres)
      ensures Holds(all, keepMax, queries)
      ensures r.Ok? ==> totres <= targetNres
                        && Tightened(all, keepMax, Flatten(queries), old(radius), radius, targetNres)
    {
      var hits := AllHits(batches);
      if !(|hits| > targetNres) {
        return Error("too few results");
      }
      TableIsSearch(all, keepMax, queries, batches, radius);
      var newRadius := PickRadius(all, keepMax, Flatten(queries), radius, hits, targetNres, partition);
      Restrict(all, keepMax, queries, newRadius);
      TableIsSearch(all, keepMax, queries, batches, radius);
      r := Ok(());
    }

    /** Apply a tighter radius to the stored batches. */
    method Restrict(all: Candidates, keepMax: bool, ghost queries: seq<seq<nat>>, newRadius: real)
      requires Holds(all, keepMax, queries) && Score(keepMax, newRadius) <= Score(keepMax, radius)
      modifies this
      ensures Holds(all, keepMax, queries) && radius == newRadius
    {
      totres := 0;
      var i := 0;
      while i < |batches|
        invariant 0 <= i <= |batches| == |queries| && radius == old(radius)
        invariant forall j :: 0 <= j < i ==> batches[j] == BatchOf(all, keepMax, queries[j], newRadius)
        invariant forall j :: i <= j < |batches| ==> batches[j] == BatchOf(all, keepMax, queries[j], radius)
        invariant totres == |AllHits(batches[..i])|
      {
        var b := RestrictBatch(all, keepMax, queries[i], batches[i], radius, newRadius);
        totres := totres + |b.hits|;
        batches := batches[i := b];
        assert batches[..i + 1][..i] == batches[..i];
        i := i + 1;
      }
      assert batches[..i] == batches;
      radius := newRadius;
    }
  }

  /** The radius that leaves `target` of the `hits`, or fewer on ties. */
  method PickRadius(ghost all: Candidates, keepMax: bool, ghost qs: seq<nat>, ghost r: real, hits: seq<Hit>,
                    target: nat, partition: (seq<real>, nat) -> seq<real>) returns (r': real)
    requires hits == SearchAll(all, keepMax, qs, r) && target < |hits| && Partitions(partition)
    ensures Tightened(all, keepMax, qs, r, r', target)
  {
    var ds := Distances(hits);
    var kth := if keepMax then |ds| - target - 1 else target;
    var parted := partition(ds, kth);
    assert IsPartition(parted, ds, kth);
    r' := parted[kth];
    RankIsLoosest(keepMax, ds, parted, target);
    HitsAreWithin(all, keepMax, qs, r);
    ghost var i :| 0 <= i < |hits| && ds[i] == r';
    assert hits[i] in hits;
    LoosestSearch(all, keepMax, qs, r, r', target);
  }

  // The whole search

  /** What a search returns: the final radius, the bounds of each query's results, the results. */
  datatype Found = Found(radius: real, lims: seq<nat>, hits: seq<Hit>)

  /** The results of query `i`. */
  ghost function Results(f: Found, i: nat): Option<seq<Hit>> {
    if i + 1 < |f.lims| && f.lims[i] <= f.lims[i + 1] <= |f.hits|
    then Some(f.hits[f.lims[i]..f.lims[i + 1]]) else None
  }

  /** The results are those of one plain range search at the returned radius. */
  ghost predicate IsRangeSearch(all: Candidates, keepMax: bool, qs: seq<nat>, f: Found) {
    && |f.lims| == |qs| + 1 && f.lims[0] == 0 && f.lims[|qs|] == |f.hits|
    && forall i :: 0 <= i < |qs| ==> Results(f, i) == Some(Search(all, keepMax, qs[i], f.radius))
  }

  /** The results of the first query begin at 0, those of each other one where those of the one before it end, and
      those of the last one end with all the results; each query has what a search at the final radius gives it. */
  lemma FoundMeans(all: Candidates, keepMax: bool, qs: seq<nat>, f: Found, i: nat)
    requires IsRangeSearch(all, keepMax, qs, f) && i < |qs|
    ensures |f.lims| == |qs| + 1 && f.lims[0] == 0 && f.lims[|qs|] == |f.hits|
    ensures f.lims[i] <= f.lims[i + 1] <= |f.hits|
    ensures f.hits[f.lims[i]..f.lims[i + 1]] == Search(all, keepMax, qs[i], f.radius)
  {
    assert Results(f, i) == Some(Search(all, keepMax, qs[i], f.radius));
  }

  /** The limits on the number of results, one derived from the other when it is not given. */
  function Limits(maxResults: Option<nat>, minResults: Option<nat>): Option<(nat, nat)> {
    match (maxResults, minResults)
    case (None, None) => None
    case (Some(hi), None) => Some((hi, (0.8 * hi as real).Floor))
    case (None, Some(lo)) => Some(((lo as real * 1.5).Floor, lo))
    case (Some(hi), Some(lo)) => Some((hi, lo))
  }

  /** A limit that is given stays as it is. Of the results up to a given upper limit at least four fifths are to be
      left, and up to half as many again as a given lower limit are allowed, both rounded down. */
  lemma LimitsAre(maxResults: Option<nat>, minResults: Option<nat>)
    ensures Limits(maxResults, minResults).None? <==> maxResults.None? && minResults.None?
    ensures Limits(maxResults, minResults).Some? ==>
              var (hi, lo) := Limits(maxResults, minResults).value;
              && (maxResults.Some? ==> hi == maxResults.value)
              && (minResults.Some? ==> lo == minResults.value)
              && (maxResults.None? ==> 2 * hi <= 3 * lo < 2 * (hi + 1))
              && (minResults.None? ==> 10 * lo <= 8 * hi < 10 * (lo + 1))
  {
  }

  function AllCounts(batches: seq<Batch>): seq<nat> {
    if batches == [] then [] else AllCounts(batches[..|batches| - 1]) + batches[|batches| - 1].nres
  }

  /** Cumulative sums, starting from 0. */
  method Cumulate(nres: seq<nat>) returns (lims: seq<nat>)
    ensures |lims| == |nres| + 1 && lims[0] == 0
    ensures forall i :: 0 <= i < |nres| ==> lims[i + 1] == lims[i] + nres[i]
  {
    lims := [0];
    var i := 0;
    while i < |nres|
      invariant 0 <= i <= |nres| && |lims| == i + 1 && lims[0] == 0
      invariant forall j :: 0 <= j < i ==> lims[j + 1] == lims[j] + nres[j]
    {
      lims := lims + [lims[i] + nres[i]];
      i := i + 1;
    }
  }

  lemma {:induction false} TableCounts(all: Candidates, keepMax: bool, queries: seq<seq<nat>>,
                                       batches: seq<Batch>, r: real)
    requires Tabulates(all, keepMax, queries, batches, r)
    ensures AllCounts(batches) == Counts(all, keepMax, Flatten(queries), r)
  {
    if batches != [] {
      var last := |batches| - 1;
      TableCounts(all, keepMax, queries[..last], batches[..last], r);
      assert Counts(all, keepMax, Flatten(queries), r)
             == Counts(all, keepMax, Flatten(queries[..last]), r) + Counts(all, keepMax, queries[last], r);
    }
  }

  lemma {:induction false} LimsCut(all: Candidates, keepMax: bool, qs: seq<nat>, r: real, lims: seq<nat>, i: nat)
    requires |lims| == |qs| + 1 && lims[0] == 0 && i <= |qs|
    requires forall j :: 0 <= j < |qs| ==> lims[j + 1] == lims[j] + |Search(all, keepMax, qs[j], r)|
    ensures lims[i] == |SearchAll(all, keepMax, qs[..i], r)|
  {
    if i > 0 {
      LimsCut(all, keepMax, qs, r, lims, i - 1);
      assert qs[..i] == qs[..i - 1] + [qs[i - 1]];
      SearchAllConcat(all, keepMax, qs[..i - 1], [qs[i - 1]], r);
      assert SearchAll(all, keepMax, [], r) == [] && [qs[i - 1]][1..] == [];
    }
  }

  lemma CutOne(all: Candidates, keepMax: bool, qs: seq<nat>, r: real, i: nat)
    requires i < |qs|
    ensures var lo := |SearchAll(all, keepMax, qs[..i], r)|;
            var own := Search(all, keepMax, qs[i], r);
            lo + |own| <= |SearchAll(all, keepMax, qs, r)| && SearchAll(all, keepMax, qs, r)[lo..lo + |own|] == own
  {
    var before, own, after := SearchAll(all, keepMax, qs[..i], r), Search(all, keepMax, qs[i], r),
                              SearchAll(all, keepMax, qs[i + 1..], r);
    assert qs == qs[..i] + qs[i..] && qs[i..][0] == qs[i] && qs[i..][1..] == qs[i + 1..];
    SearchAllConcat(all, keepMax, qs[..i], qs[i..], r);
    CutMiddle(before, own, after);
  }

  /** Cutting the results at the cumulative counts gives each query its own. */
  lemma CutIsSearch(all: Candidates, keepMax: bool, qs: seq<nat>, r: real, lims: seq<nat>)
    requires |lims| == |qs| + 1 && lims[0] == 0
    requires forall j :: 0 <= j < |qs| ==> lims[j + 1] == lims[j] + |Search(all, keepMax, qs[j], r)|
    ensures IsRangeSearch(all, keepMax, qs, Found(r, lims, SearchAll(all, keepMax, qs, r)))
  {
    forall i | 0 <= i < |qs|
      ensures Results(Found(r, lims, SearchAll(all, keepMax, qs, r)), i) == Some(Search(all, keepMax, qs[i], r))
    {
      LimsCut(all, keepMax, qs, r, lims, i);
      CutOne(all, keepMax, qs, r, i);
    }
    LimsCut(all, keepMax, qs, r, lims, |qs|);
    assert qs[..|qs|] == qs;
  }

  /** One batch, the last of `qs`, takes the radius from `r` to `r'`: it stays if there are not too many
      results, and otherwise becomes the loosest that leaves at most `minRes`. */
  ghost predicate StepRadius(all: Candidates, keepMax: bool, qs: seq<nat>, r: real, r': real,
                             minRes: nat, maxRes: nat) {
    var total := |SearchAll(all, keepMax, qs, r)|;
    if total <= maxRes then r' == r else total > minRes && Tightened(all, keepMax, qs, r, r', minRes)
  }

  /** The radii before each of the first batches, and after the last of them. */
  ghost predicate AreRadii(all: Candidates, keepMax: bool, queries: seq<seq<nat>>, radius: real,
                           minRes: nat, maxRes: nat, radii: seq<real>) {
    && 0 < |radii| <= |queries| + 1 && radii[0] == radius
    && forall i: nat :: i < |radii| - 1 ==> RadiusAt(all, keepMax, queries, minRes, maxRes, radii, i)
  }

  ghost predicate RadiusAt(all: Candidates, keepMax: bool, queries: seq<seq<nat>>,
                           minRes: nat, maxRes: nat, radii: seq<real>, i: nat)
    requires i + 1 < |radii| <= |queries| + 1
  {
    StepRadius(all, keepMax, Flatten(queries[..i + 1]), radii[i], radii[i + 1], minRes, maxRes)
  }

  lemma RadiiGrow(all: Candidates, keepMax: bool, queries: seq<seq<nat>>, radius: real,
                  minRes: nat, maxRes: nat, radii: seq<real>, r: real)
    requires AreRadii(all, keepMax, queries, radius, minRes, maxRes, radii) && |radii| <= |queries|
    requires StepRadius(all, keepMax, Flatten(queries[..|radii|]), radii[|radii| - 1], r, minRes, maxRes)
    ensures AreRadii(all, keepMax, queries, radius, minRes, maxRes, radii + [r])
  {
    var more := radii + [r];
    forall i: nat | i < |more| - 1 ensures RadiusAt(all, keepMax, queries, minRes, maxRes, more, i) {
      if i < |radii| - 1 { assert RadiusAt(all, keepMax, queries, minRes, maxRes, radii, i); }
    }
  }

  /** The radius after a batch: the same, if there are at most `maxRes` results so far. Otherwise it gets strictly
      tighter and leaves at most `minRes`, which no looser radius would do. */
  lemma RadiusMeans(all: Candidates, keepMax: bool, queries: seq<seq<nat>>, radius: real,
                    minRes: nat, maxRes: nat, radii: seq<real>, i: nat)
    requires AreRadii(all, keepMax, queries, radius, minRes, maxRes, radii) && i + 1 < |radii|
    ensures |radii| <= |queries| + 1 && radii[0] == radius
    ensures var qs, r, r' := Flatten(queries[..i + 1]), radii[i], radii[i + 1];
            var total := |SearchAll(all, keepMax, qs, r)|;
            if total <= maxRes then r' == r
            else
              && (if keepMax then r' > r else r' < r)
              && |SearchAll(all, keepMax, qs, r')| <= minRes < total
              && forall looser :: (if keepMax then looser < r' else looser > r') ==>
                   |SearchAll(all, keepMax, qs, looser)| > minRes
  {
    assert RadiusAt(all, keepMax, queries, minRes, maxRes, radii, i);
    var qs, r, r' := Flatten(queries[..i + 1]), radii[i], radii[i + 1];
    if |SearchAll(all, keepMax, qs, r)| > maxRes { TightenedMeans(all, keepMax, qs, r, r', minRes); }
  }

  lemma TightenedMeans(all: Candidates, keepMax: bool, qs: seq<nat>, r: real, r': real, target: nat)
    requires Tightened(all, keepMax, qs, r, r', target)
    ensures if keepMax then r' > r else r' < r
    ensures |SearchAll(all, keepMax, qs, r')| <= target
    ensures forall looser :: (if keepMax then looser < r' else looser > r') ==>
              |SearchAll(all, keepMax, qs, looser)| > target
  {
    forall looser | if keepMax then looser < r' else looser > r'
      ensures |SearchAll(all, keepMax, qs, looser)| > target
    {
      assert Score(keepMax, r') < Score(keepMax, looser);
    }
  }

  /** The final radius: that of the last batch, unless more than `minRes` results are to be clipped. */
  lemma ClippedMeans(all: Candidates, keepMax: bool, qs: seq<nat>, clipToMin: bool, minRes: nat, r: real, r': real)
    requires IsClipped(all, keepMax, qs, clipToMin, minRes, r, r')
    ensures if clipToMin && |SearchAll(all, keepMax, qs, r)| > minRes
            then (if keepMax then r' > r else r' < r) && |SearchAll(all, keepMax, qs, r')| <= minRes
                 && forall looser :: (if keepMax then looser < r' else looser > r') ==>
                      |SearchAll(all, keepMax, qs, looser)| > minRes
            else r' == r
  {
    if clipToMin && |SearchAll(all, keepMax, qs, r)| > minRes {
      TightenedMeans(all, keepMax, qs, r, r', minRes);
    }
  }

  /** At the next batch there are too many results, but not as many as are to be left. */
  ghost predicate GetsStuck(all: Candidates, keepMax: bool, queries: seq<seq<nat>>,
                            minRes: nat, maxRes: nat, radii: seq<real>) {
    && 0 < |radii| <= |queries|
    && maxRes < |SearchAll(all, keepMax, Flatten(queries[..|radii|]), radii[|radii| - 1])| <= minRes
  }

  /** A search that fails: three results are more than 2 and fewer than the 5 that are to be left. */
  lemma ThreeGetStuck(all: Candidates)
    requires all(0) == [Hit(0.1, 0), Hit(0.2, 1), Hit(0.3, 2)]
    ensures AreRadii(all, false, [[0]], 1.0, 5, 2, [1.0]) && GetsStuck(all, false, [[0]], 5, 2, [1.0])
  {
    var f, s := Inside(false, 1.0), all(0);
    FilterAll(f, s);
    assert [[0]][..1] == [[0]] && Flatten([[0]]) == [0] by { assert [[0]][1..] == []; }
    assert SearchAll(all, false, [0], 1.0) == s by { assert [0][1..] == []; }
  }

  /** The radii are determined by the queries, and so is whether the search gets stuck. */
  lemma {:induction false} RadiiAreUnique(all: Candidates, keepMax: bool, queries: seq<seq<nat>>, radius: real,
                                          minRes: nat, maxRes: nat, a: seq<real>, b: seq<real>, i: nat)
    requires AreRadii(all, keepMax, queries, radius, minRes, maxRes, a)
    requires AreRadii(all, keepMax, queries, radius, minRes, maxRes, b)
    requires i < |a| && i < |b|
    ensures a[i] == b[i]
    ensures i == |b| - 1 && i < |a| - 1 ==> !GetsStuck(all, keepMax, queries, minRes, maxRes, b)
  {
    if i > 0 {
      RadiiAreUnique(all, keepMax, queries, radius, minRes, maxRes, a, b, i - 1);
      var qs := Flatten(queries[..i]);
      assert RadiusAt(all, keepMax, queries, minRes, maxRes, a, i - 1);
      assert RadiusAt(all, keepMax, queries, minRes, maxRes, b, i - 1);
      if |SearchAll(all, keepMax, qs, a[i - 1])| > maxRes {
        assert a[i] == b[i];
      }
    }
    if i == |b| - 1 && i < |a| - 1 {
      assert RadiusAt(all, keepMax, queries, minRes, maxRes, a, i);
    }
  }

  /** Search one more batch and shrink the radius if there are too many results. */
  method SearchBatch(all: Candidates, keepMax: bool, queries: seq<seq<nat>>, i: nat,
                     minRes: nat, maxRes: nat, partition: (seq<real>, nat) -> seq<real>, table: ResultTable)
    returns (ok: bool)
    requires Partitions(partition) && i < |queries|
    requires table.Holds(all, keepMax, queries[..i])
    modifies table
    ensures ok <==> !(maxRes < |SearchAll(all, keepMax, Flatten(queries[..i + 1]), old(table.radius))| <= minRes)
    ensures ok ==> table.Holds(all, keepMax, queries[..i + 1])
                   && StepRadius(all, keepMax, Flatten(queries[..i + 1]), old(table.radius), table.radius,
                                 minRes, maxRes)
  {
    table.Extend(all, keepMax, queries, i);
    TableIsSearch(all, keepMax, queries[..i + 1], table.batches, table.radius);
    ok := true;
    if table.totres > maxRes {
      var applied := table.ApplyMaxres(all, keepMax, queries[..i + 1], minRes, partition);
      ok := applied.Ok?;
    }
  }

  /** Put the batches together. */
  method Assemble(ghost all: Candidates, ghost keepMax: bool, ghost queries: seq<seq<nat>>, table: ResultTable)
    returns (f: Found)
    requires table.Holds(all, keepMax, queries)
    ensures IsRangeSearch(all, keepMax, Flatten(queries), f)
    ensures f.radius == table.radius && |f.hits| == table.totres
  {
    TableIsSearch(all, keepMax, queries, table.batches, table.radius);
    TableCounts(all, keepMax, queries, table.batches, table.radius);
    var lims := Cumulate(AllCounts(table.batches));
    CutIsSearch(all, keepMax, Flatten(queries), table.radius, lims);
    f := Found(table.radius, lims, AllHits(table.batches));
  }

  /** Range search with an upper limit on the total number of results. It fails when no limit is given,
      when there is no batch, or when it gets stuck, which takes a lower limit above the upper one. */
  method RangeSearchMaxResults(all: Candidates, keepMax: bool, queries: seq<seq<nat>>, radius: real,
                               maxResults: Option<nat>, minResults: Option<nat>, clipToMin: bool,
                               partition: (seq<real>, nat) -> seq<real>)
    returns (r: Result<Found>, ghost radii: seq<real>)
    requires Partitions(partition)
    ensures Limits(maxResults, minResults).None? ==> r.Error?
    ensures Limits(maxResults, minResults).Some? ==>
              var (maxRes, minRes) := Limits(maxResults, minResults).value;
              && AreRadii(all, keepMax, queries, radius, minRes, maxRes, radii)
              && (r.Error? <==> queries == [] || GetsStuck(all, keepMax, queries, minRes, maxRes, radii))
              && (minRes <= maxRes && queries != [] ==> r.Ok?)
    ensures r.Ok? ==>
              var (maxRes, minRes) := Limits(maxResults, minResults).value;
              && |radii| == |queries| + 1
              && IsRangeSearch(all, keepMax, Flatten(queries), r.value)
              && IsClipped(all, keepMax, Flatten(queries), clipToMin, minRes, radii[|queries|], r.value.radius)
              && (minRes <= maxRes ==> |r.value.hits| <= maxRes)
              && (clipToMin ==> |r.value.hits| <= minRes)
  {
    radii := [radius];
    var limits := Limits(maxResults, minResults);
    if limits.None? {
      return Error("no limits"), radii;
    }
    var (maxRes, minRes) := limits.value;
    var table := new ResultTable(radius);
    var ok;
    ok, radii := SearchBatches(all, keepMax, queries, minRes, maxRes, partition, table);
    if !ok {
      return Error("too few results to keep"), radii;
    }
    if queries == [] {
      return Error("need at least one array to concatenate"), radii;
    }
    if minRes <= maxRes { TotalInLimits(all, keepMax, queries, radius, minRes, maxRes, radii); }
    var found := Finish(all, keepMax, queries, clipToMin, minRes, partition, table);
    r := Ok(found);
  }

  /** Search all the batches, starting from an empty table. It ends early when it gets stuck. */
  method SearchBatches(all: Candidates, keepMax: bool, queries: seq<seq<nat>>, minRes: nat, maxRes: nat,
                       partition: (seq<real>, nat) -> seq<real>, table: ResultTable)
    returns (ok: bool, ghost radii: seq<real>)
    requires Partitions(partition) && table.batches == [] && table.totres == 0
    modifies table
    ensures AreRadii(all, keepMax, queries, old(table.radius), minRes, maxRes, radii)
    ensures !ok <==> GetsStuck(all, keepMax, queries, minRes, maxRes, radii)
    ensures ok ==> |radii| == |queries| + 1 && radii[|queries|] == table.radius && table.Holds(all, keepMax, queries)
  {
    ok, radii := true, [table.radius];
    var i := 0;
    while i < |queries|
      invariant 0 <= i <= |queries|
      invariant |radii| == i + 1 && radii[i] == table.radius
      invariant AreRadii(all, keepMax, queries, old(table.radius), minRes, maxRes, radii)
      invariant table.Holds(all, keepMax, queries[..i])
    {
      ok := SearchBatch(all, keepMax, queries, i, minRes, maxRes, partition, table);
      if !ok {
        return;
      }
      RadiiGrow(all, keepMax, queries, old(table.radius), minRes, maxRes, radii, table.radius);
      radii := radii + [table.radius];
      i := i + 1;
    }
    assert queries[..i] == queries;
  }

  /** Clip the results if that is asked for, and put them together. */
  method Finish(all: Candidates, keepMax: bool, ghost queries: seq<seq<nat>>, clipToMin: bool, minRes: nat,
                partition: (seq<real>, nat) -> seq<real>, table: ResultTable) returns (f: Found)
    requires Partitions(partition) && table.Holds(all, keepMax, queries)
    modifies table
    ensures IsRangeSearch(all, keepMax, Flatten(queries), f)
    ensures IsClipped(all, keepMax, Flatten(queries), clipToMin, minRes, old(table.radius), f.radius)
    ensures |f.hits| <= |SearchAll(all, keepMax, Flatten(queries), old(table.radius))|
    ensures clipToMin ==> |f.hits| <= minRes
  {
    TableIsSearch(all, keepMax, queries, table.batches, table.radius);
    Clip(all, keepMax, queries, clipToMin, minRes, partition, table);
    f := Assemble(all, keepMax, queries, table);
  }

  /** The last radius leaves no more results than the upper limit. */
  lemma TotalInLimits(all: Candidates, keepMax: bool, queries: seq<seq<nat>>, radius: real,
                      minRes: nat, maxRes: nat, radii: seq<real>)
    requires AreRadii(all, keepMax, queries, radius, minRes, maxRes, radii)
    requires |radii| == |queries| + 1 > 1 && minRes <= maxRes
    ensures |SearchAll(all, keepMax, Flatten(queries), radii[|queries|])| <= maxRes
  {
    var i := |queries| - 1;
    assert queries[..i + 1] == queries;
    assert RadiusAt(all, keepMax, queries, minRes, maxRes, radii, i);
  }

  /** The final radius: tightened once more if that is asked for and there are too many results. */
  ghost predicate IsClipped(all: Candidates, keepMax: bool, qs: seq<nat>, clipToMin: bool, minRes: nat,
                            r: real, r': real) {
    if clipToMin && |SearchAll(all, keepMax, qs, r)| > minRes then Tightened(all, keepMax, qs, r, r', minRes)
    else r' == r
  }

  method Clip(all: Candidates, keepMax: bool, ghost queries: seq<seq<nat>>, clipToMin: bool, minRes: nat,
              partition: (seq<real>, nat) -> seq<real>, table: ResultTable)
    requires Partitions(partition) && table.Holds(all, keepMax, queries)
    modifies table
    ensures table.Holds(all, keepMax, queries) && table.totres <= old(table.totres)
    ensures clipToMin ==> table.totres <= minRes
    ensures IsClipped(all, keepMax, Flatten(queries), clipToMin, minRes, old(table.radius), table.radius)
  {
    TableIsSearch(all, keepMax, queries, table.batches, table.radius);
    if clipToMin && table.totres > minRes {
      var _ := table.ApplyMaxres(all, keepMax, queries, minRes, partition);
    }
  }

  /** The size of batch `i`: doubled from one batch to the next as long as it is below `maxBs`. */
  function BatchSize(startBs: nat, maxBs: nat, i: nat): nat {
    if i == 0 then startBs
    else
      var bs := BatchSize(startBs, maxBs, i - 1);
      if bs < maxBs then bs * 2 else bs
  }

  /** Batches of progressively increasing sizes; the last one is what is left. */
  method ExponentialQueryIterator(xq: seq<nat>, startBs: nat, maxBs: nat) returns (queries: seq<seq<nat>>)
    requires startBs > 0
    ensures Flatten(queries) == xq
    ensures forall i :: 0 <= i < |queries| ==> queries[i] != []
    ensures |queries| > 1 ==> |queries[0]| == startBs
    ensures forall i :: 0 <= i < |queries| - 2 ==>
              |queries[i + 1]| == if |queries[i]| < maxBs then 2 * |queries[i]| else |queries[i]|
    ensures |queries| == 1 ==> |queries[0]| <= startBs
    ensures |queries| > 1 ==>
              var before := |queries[|queries| - 2]|;
              |queries[|queries| - 1]| <= if before < maxBs then 2 * before else before
  {
    queries := [];
    var bs, i := startBs, 0;
    assert xq[..0] == [];
    while i < |xq|
      invariant 0 <= i <= |xq| && bs == BatchSize(startBs, maxBs, |queries|) > 0
      invariant Batched(xq, startBs, maxBs, queries, i)
      decreases |xq| - i
    {
      var end := if i + bs < |xq| then i + bs else |xq|;
      BatchStep(xq, startBs, maxBs, queries, i, end);
      queries := queries + [xq[i..end]];
      if bs < maxBs {
        bs := bs * 2;
      }
      i := end;
    }
    assert xq[..|xq|] == xq;
    SizesDouble(startBs, maxBs, queries);
  }

  /** Sizes double from one batch to the next, up to the first that is not below `maxBs`. */
  lemma SizesDouble(startBs: nat, maxBs: nat, queries: seq<seq<nat>>)
    requires startBs > 0 && AreSized(startBs, maxBs, queries, false)
    ensures forall i :: 0 <= i < |queries| ==> queries[i] != []
    ensures |queries| > 1 ==> |queries[0]| == startBs
    ensures forall i :: 0 <= i < |queries| - 2 ==>
              |queries[i + 1]| == if |queries[i]| < maxBs then 2 * |queries[i]| else |queries[i]|
    ensures |queries| == 1 ==> |queries[0]| <= startBs
    ensures |queries| > 1 ==>
              var before := |queries[|queries| - 2]|;
              |queries[|queries| - 1]| <= if before < maxBs then 2 * before else before
  {
    var last := |queries| - 1;
    assert last > 0 ==> |queries[0]| == BatchSize(startBs, maxBs, 0);
    forall i | 0 <= i < last ensures queries[i] != [] { BatchSizePositive(startBs, maxBs, i); }
    forall i | 0 <= i < last - 1
      ensures |queries[i + 1]| == if |queries[i]| < maxBs then 2 * |queries[i]| else |queries[i]|
    {
      assert |queries[i + 1]| == BatchSize(startBs, maxBs, i + 1) && |queries[i]| == BatchSize(startBs, maxBs, i);
    }
    if last > 0 { assert |queries[last - 1]| == BatchSize(startBs, maxBs, last - 1); }
  }

  lemma {:induction false} BatchSizePositive(startBs: nat, maxBs: nat, i: nat)
    requires startBs > 0
    ensures BatchSize(startBs, maxBs, i) > 0
  {
    if i > 0 { BatchSizePositive(startBs, maxBs, i - 1); }
  }

  /** The first `i` queries are in batches. */
  ghost predicate Batched(xq: seq<nat>, startBs: nat, maxBs: nat, queries: seq<seq<nat>>, i: nat) {
    i <= |xq| && Flatten(queries) == xq[..i] && AreSized(startBs, maxBs, queries, i < |xq|)
  }

  lemma BatchStep(xq: seq<nat>, startBs: nat, maxBs: nat, queries: seq<seq<nat>>, i: nat, end: nat)
    requires i < |xq| && Batched(xq, startBs, maxBs, queries, i)
    requires i < end == if i + BatchSize(startBs, maxBs, |queries|) < |xq|
                        then i + BatchSize(startBs, maxBs, |queries|) else |xq|
    ensures Batched(xq, startBs, maxBs, queries + [xq[i..end]], end)
  {
    FlattenPush(queries, xq[i..end]);
    JoinSlices(xq, i, end);
    SizedPush(startBs, maxBs, queries, xq[i..end]);
  }

  /** All batches have the intended sizes, except that the last one may be smaller unless `full`. */
  ghost predicate AreSized(startBs: nat, maxBs: nat, queries: seq<seq<nat>>, full: bool) {
    && (forall i :: 0 <= i < |queries| - 1 ==> |queries[i]| == BatchSize(startBs, maxBs, i))
    && (queries != [] ==>
          var last, bs := |queries[|queries| - 1]|, BatchSize(startBs, maxBs, |queries| - 1);
          0 < last <= bs && (full ==> last == bs))
  }

  lemma SizedPush(startBs: nat, maxBs: nat, queries: seq<seq<nat>>, b: seq<nat>)
    requires AreSized(startBs, maxBs, queries, true) && 0 < |b| <= BatchSize(startBs, maxBs, |queries|)
    ensures AreSized(startBs, maxBs, queries + [b], |b| == BatchSize(startBs, maxBs, |queries|))
  {
  }

  lemma JoinSlices<T>(s: seq<T>, i: nat, j: nat)
    requires i <= j <= |s|
    ensures s[..i] + s[i..j] == s[..j]
  {
  }

  lemma FlattenPush(queries: seq<seq<nat>>, b: seq<nat>)
    ensures Flatten(queries + [b]) == Flatten(queries) + b
  {
    assert (queries + [b])[..|queries|] == queries;
  }
}
