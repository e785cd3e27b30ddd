/** Exploring a parameter space (faiss/AutoTune.cpp): running every combination, or
    skipping the ones that earlier measurements show to be useless. */
module Explore {
  import opened Basics
  import opened OperatingPoints
  import opened ParameterSpace
  import opened Pruning
  import opened Shuffles

  /** The first and the last combination, then the others as they are drawn. */
  ghost function DrawnOrder(draw: nat -> nat, n: nat): (r: seq<nat>)
    ensures |r| == n
    ensures forall i :: 0 <= i < n ==>
              r[i] == if i == 0 then 0 else if i == 1 then n - 1 else Shuffled(draw, n - 2)[i - 2] + 1
  {
    seq(n, i requires 0 <= i < n => NthTrial(draw, n, i))
  }

  ghost function NthTrial(draw: nat -> nat, n: nat, i: nat): nat
    requires i < n
  {
    if i == 0 then 0 else if i == 1 then n - 1 else Shuffled(draw, n - 2)[i - 2] + 1
  }

  lemma DrawnIsPermutation(draw: nat -> nat, n: nat)
    ensures IsPermutation(DrawnOrder(draw, n), n)
  {
    if n >= 2 {
      ShuffledIsPermutation(draw, n - 2);
      var rest := Shuffled(draw, n - 2);
      forall i, j | 0 <= i < j < n ensures NthTrial(draw, n, i) != NthTrial(draw, n, j) {
        if i >= 2 { assert rest[i - 2] != rest[j - 2]; }
      }
    }
  }

  /** The order in which combinations are tried: the fastest, the most accurate, then the rest. */
  method TrialOrder(n: nat, draw: nat -> nat) returns (perm: array<nat>)
    requires n >= 1
    ensures fresh(perm) && IsPermutation(perm[..], n)
    ensures perm[..] == DrawnOrder(draw, n)
  {
    perm := new nat[n];
    perm[0] := 0;
    if n > 1 {
      perm[1] := n - 1;
      assert perm[..2] == [0, n - 1];
      RandPerm(perm, 2, draw);
      ghost var rest := perm[2..];
      assert perm[0] == perm[..2][0] && perm[1] == perm[..2][1];
      var i := 2;
      while i < n
        invariant 2 <= i <= n
        invariant perm[0] == 0 && perm[1] == n - 1
        invariant forall j :: 2 <= j < i ==> perm[j] == rest[j - 2] + 1
        invariant forall j :: i <= j < n ==> perm[j] == rest[j - 2]
      {
        perm[i] := perm[i] + 1;
        i := i + 1;
      }
    }
    DrawnIs(perm[..], draw, n);
    DrawnIsPermutation(draw, n);
  }

  lemma DrawnIs(s: seq<nat>, draw: nat -> nat, n: nat)
    requires |s| == n >= 1 && s[0] == 0 && (n > 1 ==> s[1] == n - 1)
    requires forall j :: 2 <= j < n ==> s[j] == Shuffled(draw, n - 2)[j - 2] + 1
    ensures s == DrawnOrder(draw, n)
  {
    forall i | 0 <= i < n ensures s[i] == NthTrial(draw, n, i) {
    }
  }

  /** Update the bounds on combination `cno` with one more point. */
  method UpdateBounds(space: ParameterSpace, cno: nat, op: OperatingPoint, perfBound: real, timeBound: real)
    returns (perfBound': real, timeBound': real)
    requires NonEmpty(space.Dims()) && op.cno >= 0
    ensures perfBound' == if AtLeast(space.Dims(), op.cno, cno) && op.perf < perfBound then op.perf else perfBound
    ensures timeBound' == if AtLeast(space.Dims(), cno, op.cno) && op.t > timeBound then op.t else timeBound
  {
    perfBound', timeBound' := perfBound, timeBound;
    var above := space.CombinationGe(cno, op.cno);
    if above {
      if op.t > timeBound' { timeBound' := op.t; }
    }
    var below := space.CombinationGe(op.cno, cno);
    if below {
      if op.perf < perfBound' { perfBound' := op.perf; }
    }
  }

  /** Whether `cno` can be skipped given what `ops` holds. */
  method CanSkip(space: ParameterSpace, ops: OperatingPoints, cno: nat) returns (skip: bool)
    requires NonEmpty(space.Dims()) && ops.Valid() && Identified(ops.allPts)
    ensures skip <==> Skips(TupleOrder(space.Dims()), ops.allPts, cno)
  {
    ghost var ge := TupleOrder(space.Dims());
    var lowerBoundT, upperBoundPerf := 0.0, 1.0;
    var pts := ops.allPts;
    var i := 0;
    while i < |pts|
      invariant 0 <= i <= |pts|
      invariant Identified(pts[..i])
      invariant upperBoundPerf == PerfBound(ge, pts[..i], cno)
      invariant lowerBoundT == TimeBound(ge, pts[..i], cno)
    {
      assert pts[..i + 1][..i] == pts[..i] && pts[i] in pts;
      TakeMembers(pts, i + 1);
      upperBoundPerf, lowerBoundT := UpdateBounds(space, cno, pts[i], upperBoundPerf, lowerBoundT);
      i := i + 1;
    }
    assert pts[..i] == pts;
    var bestT := ops.TForPerf(upperBoundPerf);
    skip := bestT <= lowerBoundT;
  }

  /** Measure every combination. */
  method ExploreAll(nComb: nat, ops: OperatingPoints, trial: nat -> OperatingPoint)
    requires ops.Valid() && Identified(ops.allPts)
    requires forall c: nat :: trial(c).t >= 0.0 && trial(c).cno == c
    modifies ops
    ensures ops.Valid()
    ensures ops.allPts == old(ops.allPts) + Trials(trial, Range(nComb))
  {
    ghost var was, all := ops.allPts, Trials(trial, Range(nComb));
    var cno := 0;
    while cno < nComb
      invariant 0 <= cno <= nComb == |all|
      invariant ops.Valid()
      invariant ops.allPts == was + all[..cno]
    {
      var op := trial(cno);
      TakeStep(all, cno);
      Associate(was, all[..cno], [op]);
      var _ := ops.Add(op.perf, op.t, op.key, cno);
      cno := cno + 1;
    }
    assert all[..cno] == all;
  }

  /** Go through the first `nExp` combinations of `perm`, skipping the useless ones. */
  method ExplorePruned(space: ParameterSpace, ops: OperatingPoints, trial: nat -> OperatingPoint,
                       perm: array<nat>, nExp: nat)
    requires NonEmpty(space.Dims()) && nExp <= perm.Length
    requires ops.Valid() && Identified(ops.allPts)
    requires forall c: nat :: trial(c).t >= 0.0 && trial(c).cno == c
    modifies ops
    ensures ops.Valid()
    ensures ops.allPts == Pruned(TupleOrder(space.Dims()), trial, perm[..nExp], old(ops.allPts))
  {
    ghost var ge, order := TupleOrder(space.Dims()), perm[..nExp];
    var xp := 0;
    while xp < nExp
      invariant 0 <= xp <= nExp
      invariant ops.Valid() && Identified(ops.allPts)
      invariant Pruned(ge, trial, order[xp..], ops.allPts) == Pruned(ge, trial, order, old(ops.allPts))
    {
      assert order[xp..][0] == perm[xp] && order[xp..][1..] == order[xp + 1..];
      TryOne(space, ops, trial, perm[xp]);
      xp := xp + 1;
    }
  }

  /** Measure a combination unless it can be skipped. */
  method TryOne(space: ParameterSpace, ops: OperatingPoints, trial: nat -> OperatingPoint, cno: nat)
    requires NonEmpty(space.Dims()) && ops.Valid() && Identified(ops.allPts)
    requires trial(cno).t >= 0.0 && trial(cno).cno == cno
    modifies ops
    ensures ops.Valid() && Identified(ops.allPts)
    ensures ops.allPts == Tried(TupleOrder(space.Dims()), trial, old(ops.allPts), cno)
  {
    var skip := CanSkip(space, ops, cno);
    if !skip {
      var op := trial(cno);
      var _ := ops.Add(op.perf, op.t, op.key, cno);
    }
  }

  /** Explore the operating points of an index that behaves like `trial`. `order` is the
      order in which a pruned exploration went through the combinations. */
  method Explore(space: ParameterSpace, ops: OperatingPoints, trial: nat -> OperatingPoint,
                 nq: nat, critNq: nat, draw: nat -> nat)
    returns (r: Result<()>, ghost order: seq<nat>)
    requires ops.Valid() && Identified(ops.allPts)
    requires forall c: nat :: trial(c).t >= 0.0 && trial(c).cno == c
    modifies ops
    ensures ops.Valid()
    ensures var n := Combinations(space.Dims());
            r.Error? <==> nq != critNq
                          || (space.nExperiments != 0 && n != 1 && (n <= 2 || 0 < space.nExperiments <= 2))
    ensures r.Error? ==> ops.allPts == old(ops.allPts)
    ensures r.Ok? && space.nExperiments == 0 ==>
              ops.allPts == old(ops.allPts) + Trials(trial, Range(Combinations(space.Dims())))
    // As many experiments as asked for, or as there are combinations, in the order that was drawn.
    ensures var n := Combinations(space.Dims());
            r.Ok? && space.nExperiments != 0 ==>
              && |order| == (if 0 < space.nExperiments <= n then space.nExperiments else n)
              && order == DrawnOrder(draw, n)[..|order|]
              && ops.allPts == Pruned(TupleOrder(space.Dims()), trial, order, old(ops.allPts))
    ensures r.Ok? && space.nExperiments > 0 ==> |ops.allPts| <= |old(ops.allPts)| + space.nExperiments
    // Skipping does not show in any answer if the combinations gone through are enough to skip by, ...
    ensures var n := Combinations(space.Dims());
            r.Ok? && space.nExperiments != 0 && Timely(n, trial) && Genuine(n, trial, old(ops.allPts))
            && Enough(n, TupleOrder(space.Dims()), trial, order) ==>
              forall p :: Fastest(ops.Recorded(), p)
                          == Fastest([ORIGIN] + (old(ops.allPts) + Trials(trial, order)), p)
    // ... and with enough experiments the answers are those of the exhaustive exploration.
    ensures var n := Combinations(space.Dims());
            r.Ok? && Timely(n, trial) && Enough(n, TupleOrder(space.Dims()), trial, Range(n))
            && Genuine(n, trial, old(ops.allPts)) && (space.nExperiments <= 0 || space.nExperiments >= n) ==>
              forall p :: Fastest(ops.Recorded(), p)
                          == Fastest([ORIGIN] + (old(ops.allPts) + Trials(trial, Range(n))), p)
  {
    order := [];
    if nq != critNq {
      return Error("criterion does not have the same nb of queries"), order;
    }
    var nComb := space.NCombinations();
    if space.nExperiments == 0 {
      ExploreAll(nComb, ops, trial);
      return Ok(()), order;
    }
    var nExp := if space.nExperiments < 0 || space.nExperiments > nComb then nComb else space.nExperiments;
    if !(nComb == 1 || nExp > 2) {
      return Error("n_comb == 1 || n_exp > 2"), order;
    }
    order := ExploreInOrder(space, ops, trial, nComb, nExp, draw);
    r := Ok(());
  }

  /** Go through `nExp` combinations in the order that is drawn. */
  method ExploreInOrder(space: ParameterSpace, ops: OperatingPoints, trial: nat -> OperatingPoint,
                        nComb: nat, nExp: nat, draw: nat -> nat) returns (ghost order: seq<nat>)
    requires ops.Valid() && Identified(ops.allPts)
    requires forall c: nat :: trial(c).t >= 0.0 && trial(c).cno == c
    requires nComb == Combinations(space.Dims()) && 0 < nExp <= nComb
    modifies ops
    ensures ops.Valid()
    ensures |order| == nExp && order == DrawnOrder(draw, nComb)[..nExp]
    ensures ops.allPts == Pruned(TupleOrder(space.Dims()), trial, order, old(ops.allPts))
    ensures |ops.allPts| <= |old(ops.allPts)| + nExp
    ensures Timely(nComb, trial) && Genuine(nComb, trial, old(ops.allPts))
            && Enough(nComb, TupleOrder(space.Dims()), trial, order) ==>
              Lossless(TupleOrder(space.Dims()), trial, order, old(ops.allPts))
    ensures Timely(nComb, trial) && Genuine(nComb, trial, old(ops.allPts)) && nExp == nComb
            && Enough(nComb, TupleOrder(space.Dims()), trial, Range(nComb)) ==>
              forall p :: Fastest(ops.Recorded(), p)
                          == Fastest([ORIGIN] + (old(ops.allPts) + Trials(trial, Range(nComb))), p)
  {
    EmptyRangeEmptySpace(space.Dims());
    var perm := TrialOrder(nComb, draw);
    order := perm[..nExp];
    assert order == perm[..][..nExp];
    ExplorePruned(space, ops, trial, perm, nExp);
    PrunedSize(TupleOrder(space.Dims()), trial, order, old(ops.allPts));
    AnyBudget(space.Dims(), trial, perm[..], order, old(ops.allPts));
    FullBudget(space.Dims(), trial, perm[..], order, old(ops.allPts));
  }

  lemma AnyBudget(dims: seq<nat>, trial: nat -> OperatingPoint, perm: seq<nat>, order: seq<nat>,
                  pts: seq<OperatingPoint>)
    requires Identified(pts) && forall c: nat :: trial(c).cno >= 0
    requires IsPermutation(perm, Combinations(dims)) && |order| <= |perm| && order == perm[..|order|]
    ensures var n := Combinations(dims);
            Timely(n, trial) && Enough(n, TupleOrder(dims), trial, order) && Genuine(n, trial, pts) ==>
              Lossless(TupleOrder(dims), trial, order, pts)
  {
    var n, ge := Combinations(dims), TupleOrder(dims);
    if Timely(n, trial) && Enough(n, ge, trial, order) && Genuine(n, trial, pts) {
      forall p {
        LosslessPruning(n, ge, trial, order, pts, p);
      }
    }
  }

  lemma FullBudget(dims: seq<nat>, trial: nat -> OperatingPoint, perm: seq<nat>, order: seq<nat>,
                   pts: seq<OperatingPoint>)
    requires Identified(pts) && forall c: nat :: trial(c).cno >= 0
    requires IsPermutation(perm, Combinations(dims)) && |order| <= |perm| && order == perm[..|order|]
    ensures var n := Combinations(dims);
            Timely(n, trial) && Enough(n, TupleOrder(dims), trial, Range(n)) && Genuine(n, trial, pts)
            && |order| == n ==>
              forall p :: Fastest([ORIGIN] + Pruned(TupleOrder(dims), trial, order, pts), p)
                          == Fastest([ORIGIN] + (pts + Trials(trial, Range(n))), p)
  {
    var n, ge := Combinations(dims), TupleOrder(dims);
    if Timely(n, trial) && Enough(n, ge, trial, Range(n)) && Genuine(n, trial, pts) && |order| == n {
      assert order == perm;
      forall p {
        PruningMatchesExhaustive(n, ge, trial, order, pts, p);
      }
    }
  }
}
