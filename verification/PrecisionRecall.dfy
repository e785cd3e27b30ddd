/** Precision and recall from the counts of each query (contrib/evaluation.py). */
module PrecisionRecall {
  import opened Basics
  import opened Sums

  datatype Mode = Overall | Average | Unknown

  /** The mean; there is none (NaN) over no queries. */
  function Mean(s: seq<real>): Option<real> {
    if s == [] then None else Some(SumReal(s) / |s| as real)
  }

  function Ratio(a: nat, b: nat): real
    requires b > 0
  {
    a as real / b as real
  }

  /** Precision of `nres` results of which `ninter` are correct. */
  function Precision(nres: nat, ninter: nat): real {
    if nres > 0 then Ratio(ninter, nres) else 1.0
  }

  function Recall(ngt: nat, nres: nat, ninter: nat): real {
    if ngt > 0 then Ratio(ninter, ngt) else if nres == 0 then 1.0 else 0.0
  }

  /** Precision is the share of the results that are correct, and 1 without results; recall is the share of the ground
      truth that was found, and without ground truth it is 1 or 0 according to whether nothing was found either. */
  lemma MeasuresAre(ngt: nat, nres: nat, ninter: nat)
    ensures nres > 0 ==> Precision(nres, ninter) * nres as real == ninter as real
    ensures nres == 0 ==> Precision(nres, ninter) == 1.0
    ensures ngt > 0 ==> Recall(ngt, nres, ninter) * ngt as real == ninter as real
    ensures ngt == 0 && nres == 0 ==> Recall(ngt, nres, ninter) == 1.0
    ensures ngt == 0 && nres > 0 ==> Recall(ngt, nres, ninter) == 0.0
  {
  }

  /** The mean, times how many there are, is the sum. */
  lemma MeanIs(s: seq<real>)
    ensures Mean(s).None? <==> s == []
    ensures Mean(s).Some? ==> Mean(s).value * |s| as real == SumReal(s)
  {
  }

  /** What the counts of all queries amount to: the measures of the summed counts, or the means of
      the measures of each query. */
  ghost function Measures(ngt: seq<nat>, nres: seq<nat>, ninter: seq<nat>, mode: Mode)
    : Result<(Option<real>, Option<real>)>
    requires |ngt| == |nres| == |ninter|
  {
    match mode
    case Overall =>
      Ok((Some(Precision(Sum(nres), Sum(ninter))), Some(Recall(Sum(ngt), Sum(nres), Sum(ninter)))))
    case Average =>
      if exists q :: 0 <= q < |nres| && nres[q] == 0 && ninter[q] != 0
      then Error("correct results among none")
      else Ok((Mean(Precisions(nres, ninter)), Mean(Recalls(ngt, nres, ninter))))
    case Unknown => Error("unknown mode")
  }

  /** What is measured over all the queries: in one mode the measures of the summed counts, in the other the means
      over the queries, unless a query has correct results and no results at all. */
  lemma MeasuresMean(ngt: seq<nat>, nres: seq<nat>, ninter: seq<nat>, p: seq<real>, r: seq<real>)
    requires |ngt| == |nres| == |ninter| == |p| == |r|
    requires forall q :: 0 <= q < |p| ==> p[q] == Precision(nres[q], ninter[q])
    requires forall q :: 0 <= q < |r| ==> r[q] == Recall(ngt[q], nres[q], ninter[q])
    ensures Measures(ngt, nres, ninter, Overall)
            == Ok((Some(Precision(Sum(nres), Sum(ninter))), Some(Recall(Sum(ngt), Sum(nres), Sum(ninter)))))
    ensures if exists q :: 0 <= q < |nres| && nres[q] == 0 && ninter[q] != 0
            then Measures(ngt, nres, ninter, Average).Error?
            else Measures(ngt, nres, ninter, Average) == Ok((Mean(p), Mean(r)))
    ensures Measures(ngt, nres, ninter, Unknown).Error?
  {
    assert p == Precisions(nres, ninter) && r == Recalls(ngt, nres, ninter);
  }

  ghost function Precisions(nres: seq<nat>, ninter: seq<nat>): (r: seq<real>)
    requires |nres| == |ninter|
    ensures |r| == |nres| && forall q :: 0 <= q < |r| ==> r[q] == Precision(nres[q], ninter[q])
  {
    seq(|nres|, q requires 0 <= q < |nres| => Precision(nres[q], ninter[q]))
  }

  ghost function Recalls(ngt: seq<nat>, nres: seq<nat>, ninter: seq<nat>): (r: seq<real>)
    requires |ngt| == |nres| == |ninter|
    ensures |r| == |nres| && forall q :: 0 <= q < |r| ==> r[q] == Recall(ngt[q], nres[q], ninter[q])
  {
    seq(|nres|, q requires 0 <= q < |nres| => Recall(ngt[q], nres[q], ninter[q]))
  }

  /** The recalls of the average mode; queries without ground truth get a stand-in size of 1. */
  method AverageRecalls(ngt: array<nat>, nres: array<nat>, ninter: array<nat>) returns (recalls: seq<real>)
    requires ngt.Length == nres.Length == ninter.Length
    requires ngt != nres && ngt != ninter
    modifies ngt
    ensures recalls == Recalls(old(ngt[..]), nres[..], ninter[..])
  {
    ghost var was := ngt[..];
    var n := ngt.Length;
    var mask := seq(n, q requires 0 <= q < n reads ngt => ngt[q] == 0);
    recalls := [];
    var q := 0;
    while q < n
      invariant 0 <= q <= n == |mask| && |recalls| == q
      invariant forall h :: 0 <= h < n ==> mask[h] == (was[h] == 0)
      invariant forall h :: q <= h < n ==> ngt[h] == was[h]
      invariant forall h :: 0 <= h < q ==> recalls[h] == Recall(was[h], nres[h], ninter[h])
    {
      if mask[q] { ngt[q] := 1; }
      var recall := Ratio(ninter[q], ngt[q]);
      if mask[q] { recall := if nres[q] == 0 then 1.0 else 0.0; }
      recalls := recalls + [recall];
      q := q + 1;
    }
  }

  /** The precisions of the average mode; a query without results counts as 1 / 1. */
  method AveragePrecisions(nres: array<nat>, ninter: array<nat>) returns (r: Result<seq<real>>)
    requires nres.Length == ninter.Length && nres != ninter
    modifies nres, ninter
    ensures r.Error? <==> exists q :: 0 <= q < nres.Length && old(nres[q]) == 0 && old(ninter[q]) != 0
    ensures r.Ok? ==> r.value == Precisions(old(nres[..]), old(ninter[..]))
  {
    ghost var res, inter := nres[..], ninter[..];
    var n := nres.Length;
    if exists q :: 0 <= q < n && nres[q] == 0 && ninter[q] != 0 { return Error("correct results among none"); }
    var precisions: seq<real> := [];
    var q := 0;
    while q < n
      invariant 0 <= q <= n && |precisions| == q
      invariant forall h :: q <= h < n ==> nres[h] == res[h] && ninter[h] == inter[h]
      invariant forall h :: 0 <= h < q ==> precisions[h] == Precision(res[h], inter[h])
    {
      if nres[q] == 0 { ninter[q], nres[q] := 1, 1; }
      precisions := precisions + [Ratio(ninter[q], nres[q])];
      q := q + 1;
    }
    r := Ok(precisions);
  }

  /** Precision and recall; the counts are overwritten on the way. */
  method CountsToPR(ngt: array<nat>, nres: array<nat>, ninter: array<nat>, mode: Mode)
    returns (r: Result<(Option<real>, Option<real>)>)
    requires ngt.Length == nres.Length == ninter.Length
    requires ngt != nres && ngt != ninter && nres != ninter
    modifies ngt, nres, ninter
    ensures r.Ok? <==> Measures(old(ngt[..]), old(nres[..]), old(ninter[..]), mode).Ok?
    ensures r.Ok? ==> r == Measures(old(ngt[..]), old(nres[..]), old(ninter[..]), mode)
  {
    match mode
    case Overall =>
      var g, n, i := Sum(ngt[..]), Sum(nres[..]), Sum(ninter[..]);
      r := Ok((Some(Precision(n, i)), Some(Recall(g, n, i))));
    case Average =>
      var recalls := AverageRecalls(ngt, nres, ninter);
      var precisions := AveragePrecisions(nres, ninter);
      if precisions.Error? {
        r := Error(precisions.message);
      } else {
        r := Ok((Mean(precisions.value), Mean(recalls)));
      }
    case Unknown => r := Error("unknown mode");
  }

  // ---- laws ----

  ghost predicate Unit(x: Option<real>) {
    x.Some? ==> 0.0 <= x.value <= 1.0
  }

  lemma RatioInUnit(a: nat, b: nat)
    requires a <= b && b > 0
    ensures 0.0 <= Ratio(a, b) <= 1.0
  {
  }

  lemma {:induction false} MeanInUnit(s: seq<real>)
    requires forall q :: 0 <= q < |s| ==> 0.0 <= s[q] <= 1.0
    ensures 0.0 <= SumReal(s) <= |s| as real && Unit(Mean(s))
  {
    if s != [] {
      MeanInUnit(s[1..]);
      var t, n := SumReal(s), |s| as real;
      assert t / n <= 1.0 by { assert t / n * n == t; }
    }
  }

  lemma {:induction false} SumMonotone(a: seq<nat>, b: seq<nat>)
    requires |a| == |b| && forall q :: 0 <= q < |a| ==> a[q] <= b[q]
    ensures Sum(a) <= Sum(b)
    ensures Sum(a) == Sum(b) <==> a == b
  {
    if a != [] {
      SumMonotone(a[1..], b[1..]);
      assert a == [a[0]] + a[1..] && b == [b[0]] + b[1..];
    }
  }

  /** No more correct results than results: the precision lies between 0 and 1, and the check of the
      average mode passes. */
  lemma PrecisionInUnit(ngt: seq<nat>, nres: seq<nat>, ninter: seq<nat>, mode: Mode)
    requires |ngt| == |nres| == |ninter| && mode != Unknown
    requires forall q :: 0 <= q < |nres| ==> ninter[q] <= nres[q]
    ensures Measures(ngt, nres, ninter, mode).Ok? && Unit(Measures(ngt, nres, ninter, mode).value.0)
  {
    if mode == Overall {
      SumMonotone(ninter, nres);
      if Sum(nres) > 0 { RatioInUnit(Sum(ninter), Sum(nres)); }
    } else {
      forall q | 0 <= q < |nres| ensures 0.0 <= Precisions(nres, ninter)[q] <= 1.0 {
        if nres[q] > 0 { RatioInUnit(ninter[q], nres[q]); }
      }
      MeanInUnit(Precisions(nres, ninter));
    }
  }

  /** No more correct results than ground truth: the recall lies between 0 and 1. */
  lemma RecallInUnit(ngt: seq<nat>, nres: seq<nat>, ninter: seq<nat>, mode: Mode)
    requires |ngt| == |nres| == |ninter| && Measures(ngt, nres, ninter, mode).Ok?
    requires forall q :: 0 <= q < |ngt| ==> ninter[q] <= ngt[q]
    ensures Unit(Measures(ngt, nres, ninter, mode).value.1)
  {
    if mode == Overall {
      SumMonotone(ninter, ngt);
      if Sum(ngt) > 0 { RatioInUnit(Sum(ninter), Sum(ngt)); }
    } else {
      forall q | 0 <= q < |nres| ensures 0.0 <= Recalls(ngt, nres, ninter)[q] <= 1.0 {
        if ngt[q] > 0 { RatioInUnit(ninter[q], ngt[q]); }
      }
      MeanInUnit(Recalls(ngt, nres, ninter));
    }
  }

  lemma RecallInUnitIff(ngt: nat, nres: nat, ninter: nat)
    requires ngt == 0 ==> ninter == 0
    ensures 0.0 <= Recall(ngt, nres, ninter)
    ensures Recall(ngt, nres, ninter) <= 1.0 <==> ninter <= ngt
  {
    if ngt > 0 { assert Ratio(ninter, ngt) * ngt as real == ninter as real; }
  }

  /** Counts of correct results that are neither above the results nor above the ground truth
      give measures between 0 and 1, and never trip the check of the average mode. */
  lemma MeasuresInUnit(ngt: seq<nat>, nres: seq<nat>, ninter: seq<nat>, mode: Mode)
    requires |ngt| == |nres| == |ninter| && mode != Unknown
    requires forall q :: 0 <= q < |ngt| ==> ninter[q] <= ngt[q] && ninter[q] <= nres[q]
    ensures exists p, r :: Measures(ngt, nres, ninter, mode) == Ok((p, r)) && Unit(p) && Unit(r)
  {
    PrecisionInUnit(ngt, nres, ninter, mode);
    RecallInUnit(ngt, nres, ninter, mode);
    var m := Measures(ngt, nres, ninter, mode).value;
    assert Measures(ngt, nres, ninter, mode) == Ok((m.0, m.1)) && Unit(m.0) && Unit(m.1);
  }

  lemma RatioStrict(a: nat, b: nat, n: nat)
    requires a <= b && n > 0
    ensures Ratio(a, n) <= Ratio(b, n)
    ensures Ratio(a, n) == Ratio(b, n) <==> a == b
  {
    var x, y, m := Ratio(a, n), Ratio(b, n), n as real;
    assert x * m == a as real && y * m == b as real;
  }

  lemma SameMeanIff(nres: seq<nat>, a: seq<nat>, b: seq<nat>)
    requires |nres| == |a| == |b|
    requires forall q :: 0 <= q < |a| ==> a[q] <= b[q] <= nres[q]
    ensures Mean(Precisions(nres, a)) == Mean(Precisions(nres, b)) <==> a == b
  {
    var pa, pb := Precisions(nres, a), Precisions(nres, b);
    forall q | 0 <= q < |a| ensures pa[q] <= pb[q] && (pa[q] == pb[q] <==> a[q] == b[q]) {
      if nres[q] > 0 { RatioStrict(a[q], b[q], nres[q]); }
    }
    SumRealMonotone(pa, pb);
    if a != [] { DivideInjective(SumReal(pa), SumReal(pb), |a| as real); }
    assert pa == pb ==> forall q :: 0 <= q < |a| ==> pa[q] == pb[q];
  }

  lemma DivideInjective(x: real, y: real, n: real)
    requires n > 0.0
    ensures x / n == y / n <==> x == y
  {
    assert x / n * n == x && y / n * n == y;
  }

  /** Larger counts of correct results give the same precision only if they are the same counts. */
  lemma SamePrecisionIff(ngt: seq<nat>, nres: seq<nat>, a: seq<nat>, b: seq<nat>, mode: Mode)
    requires |ngt| == |nres| == |a| == |b| && mode != Unknown
    requires forall q :: 0 <= q < |a| ==> a[q] <= b[q] <= nres[q]
    ensures Measures(ngt, nres, a, mode).Ok? && Measures(ngt, nres, b, mode).Ok?
    ensures Measures(ngt, nres, a, mode).value.0 == Measures(ngt, nres, b, mode).value.0 <==> a == b
  {
    if mode == Overall {
      SumMonotone(a, b);
      SumMonotone(b, nres);
      if Sum(nres) > 0 { RatioStrict(Sum(a), Sum(b), Sum(nres)); }
    } else {
      SameMeanIff(nres, a, b);
    }
  }
}
