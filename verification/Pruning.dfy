/** Skipping the parameter combinations that earlier measurements show to be useless
    (faiss/AutoTune.cpp): what that records, and exactly when nothing is lost by it. */
module Pruning {
  import opened Basics
  import opened OperatingPoints
  import opened ParameterSpace

  /** An order on combinations: `ge(c1, c2)` says that `c1` is at least `c2` in every parameter. */
  type Order = (nat, nat) -> bool

  ghost function TupleOrder(dims: seq<nat>): Order {
    (c1: nat, c2: nat) => NonEmpty(dims) && AtLeast(dims, c1, c2)
  }

  /** Running combination `c` gives `trial(c)`, and ends before `NEVER`. */
  ghost predicate Timely(n: nat, trial: nat -> OperatingPoint) {
    forall c: nat {:trigger trial(c)} :: c < n ==> trial(c).cno == c && 0.0 <= trial(c).t < NEVER
  }

  /** Raising a parameter makes a run no less accurate and no faster; accuracy is at most 1. */
  ghost predicate Monotone(n: nat, ge: Order, trial: nat -> OperatingPoint) {
    && (forall c: nat {:trigger trial(c)} :: c < n ==> trial(c).perf <= 1.0)
    && (forall c1: nat, c2: nat {:trigger ge(c1, c2)} ::
          c1 < n && c2 < n && ge(c1, c2) ==>
            trial(c1).perf >= trial(c2).perf && trial(c1).t >= trial(c2).t)
  }

  ghost predicate Identified(pts: seq<OperatingPoint>) {
    forall x :: x in pts ==> x.cno >= 0
  }

  /** Every point of `pts` is what running its combination would measure. */
  ghost predicate Genuine(n: nat, trial: nat -> OperatingPoint, pts: seq<OperatingPoint>) {
    forall x :: x in pts ==>
      0 <= x.cno < n && x.perf == trial(x.cno).perf && x.t == trial(x.cno).t
  }

  ghost function Trials(trial: nat -> OperatingPoint, cs: seq<nat>): (r: seq<OperatingPoint>)
    ensures |r| == |cs| && forall i :: 0 <= i < |r| ==> r[i] == trial(cs[i])
  {
    seq(|cs|, i requires 0 <= i < |cs| => trial(cs[i]))
  }

  /** The least performance among the points that are at least `c`, and 1. */
  ghost function PerfBound(ge: Order, pts: seq<OperatingPoint>, c: nat): real
    requires Identified(pts)
  {
    if pts == [] then 1.0
    else
      var last := |pts| - 1;
      var b := PerfBound(ge, pts[..last], c);
      if ge(pts[last].cno, c) && pts[last].perf < b then pts[last].perf else b
  }

  /** The greatest time among the points that `c` is at least, and 0. */
  ghost function TimeBound(ge: Order, pts: seq<OperatingPoint>, c: nat): real
    requires Identified(pts)
  {
    if pts == [] then 0.0
    else
      var last := |pts| - 1;
      var b := TimeBound(ge, pts[..last], c);
      if ge(c, pts[last].cno) && pts[last].t > b then pts[last].t else b
  }

  /** The bounds bound what running `c` would measure. */
  lemma {:induction false} BoundsHold(n: nat, ge: Order, trial: nat -> OperatingPoint,
                                      pts: seq<OperatingPoint>, c: nat)
    requires Timely(n, trial) && Monotone(n, ge, trial) && Genuine(n, trial, pts) && c < n
    ensures trial(c).perf <= PerfBound(ge, pts, c)
    ensures TimeBound(ge, pts, c) <= trial(c).t
  {
    if pts != [] {
      var last := |pts| - 1;
      assert pts[last] in pts;
      TakeMembers(pts, last);
      BoundsHold(n, ge, trial, pts[..last], c);
    }
  }

  /** Some recorded point reaches the performance bound within the time bound. */
  ghost predicate Skips(ge: Order, pts: seq<OperatingPoint>, c: nat)
    requires Identified(pts)
  {
    TimeOf(Fastest([ORIGIN] + pts, PerfBound(ge, pts, c))) <= TimeBound(ge, pts, c)
  }

  /** What one round of the exploration records. */
  ghost function Tried(ge: Order, trial: nat -> OperatingPoint, pts: seq<OperatingPoint>, c: nat)
    : seq<OperatingPoint>
    requires Identified(pts)
  {
    if Skips(ge, pts, c) then pts else pts + [trial(c)]
  }

  /** What is recorded after going through the combinations of `order`, skipping on the way. */
  ghost function Pruned(ge: Order, trial: nat -> OperatingPoint, order: seq<nat>, pts: seq<OperatingPoint>)
    : seq<OperatingPoint>
    requires Identified(pts) && forall c: nat :: trial(c).cno >= 0
  {
    if order == [] then pts
    else Pruned(ge, trial, order[1..], Tried(ge, trial, pts, order[0]))
  }

  /** At most one point is recorded for each combination. */
  lemma {:induction false} PrunedSize(ge: Order, trial: nat -> OperatingPoint, order: seq<nat>,
                                      pts: seq<OperatingPoint>)
    requires Identified(pts) && forall c: nat :: trial(c).cno >= 0
    ensures |pts| <= |Pruned(ge, trial, order, pts)| <= |pts| + |order|
  {
    if order != [] { PrunedSize(ge, trial, order[1..], Tried(ge, trial, pts, order[0])); }
  }

  // ---- when skipping is safe ----

  function Point(trial: nat -> OperatingPoint, x: Option<nat>): OperatingPoint {
    if x.Some? then trial(x.value) else ORIGIN
  }

  /** Combination `c` could be skipped: some `a` at least `c`, or the bound 1, is no more accurate than
      some `x`, or the origin, which takes no longer than some `b` that `c` is at least, or the bound 0. */
  ghost predicate Skippable(n: nat, ge: Order, trial: nat -> OperatingPoint, c: nat,
                            a: Option<nat>, b: Option<nat>, x: Option<nat>) {
    && (a.Some? ==> a.value < n && ge(a.value, c))
    && (b.Some? ==> b.value < n && ge(c, b.value))
    && (x.Some? ==> x.value < n)
    && Point(trial, x).perf >= (if a.Some? then trial(a.value).perf else 1.0)
    && Point(trial, x).t <= (if b.Some? then trial(b.value).t else 0.0)
  }

  /** One of the points that make `c` skippable, or the origin, dominates it. */
  ghost predicate Covered(trial: nat -> OperatingPoint, c: nat, a: Option<nat>, b: Option<nat>, x: Option<nat>) {
    || Dominates(ORIGIN, trial(c)) || Dominates(Point(trial, x), trial(c))
    || (a.Some? && Dominates(trial(a.value), trial(c))) || (b.Some? && Dominates(trial(b.value), trial(c)))
  }

  /** Whatever makes combination `c` skippable covers it. */
  ghost predicate Reliable(n: nat, ge: Order, trial: nat -> OperatingPoint, c: nat) {
    forall a, b, x {:trigger Skippable(n, ge, trial, c, a, b, x)} ::
      Skippable(n, ge, trial, c, a, b, x) ==> Covered(trial, c, a, b, x)
  }

  ghost predicate Safe(n: nat, ge: Order, trial: nat -> OperatingPoint) {
    forall c: nat :: c < n ==> Reliable(n, ge, trial, c)
  }

  /** A reliable combination of `order` dominates `c`. */
  ghost predicate Backed(n: nat, ge: Order, trial: nat -> OperatingPoint, order: seq<nat>, c: nat) {
    exists d :: d in order && Reliable(n, ge, trial, d) && Dominates(trial(d), trial(c))
  }

  /** Every combination of `order` is dominated by the origin or by a reliable one of `order`. */
  ghost predicate Enough(n: nat, ge: Order, trial: nat -> OperatingPoint, order: seq<nat>) {
    forall c :: c in order ==> Dominates(ORIGIN, trial(c)) || Backed(n, ge, trial, order, c)
  }

  /** Monotone measurements are safe to skip by. */
  lemma MonotoneIsSafe(n: nat, ge: Order, trial: nat -> OperatingPoint)
    requires Timely(n, trial) && Monotone(n, ge, trial)
    ensures Safe(n, ge, trial)
  {
    forall c: nat, a, b, x | c < n && Skippable(n, ge, trial, c, a, b, x) ensures Covered(trial, c, a, b, x) {
      assert trial(c).perf <= 1.0;
      assert 0.0 <= trial(c).t;
      assert Dominates(Point(trial, x), trial(c));
    }
  }

  /** Combination `c` is on record. */
  ghost predicate OnRecord(pts: seq<OperatingPoint>, a: Option<nat>) {
    a.Some? ==> exists z :: z in pts && z.cno == a.value
  }

  /** `a` is at least `c`, and the performance bound comes from it, or from nothing recorded. */
  ghost predicate GivesPerf(n: nat, ge: Order, trial: nat -> OperatingPoint, pts: seq<OperatingPoint>, c: nat,
                            a: Option<nat>) {
    && Identified(pts) && OnRecord(pts, a) && (a.Some? ==> a.value < n && ge(a.value, c))
    && PerfBound(ge, pts, c) == if a.Some? then trial(a.value).perf else 1.0
  }

  /** `c` is at least `b`, and the time bound comes from it, or from nothing recorded. */
  ghost predicate GivesTime(n: nat, ge: Order, trial: nat -> OperatingPoint, pts: seq<OperatingPoint>, c: nat,
                            b: Option<nat>) {
    && Identified(pts) && OnRecord(pts, b) && (b.Some? ==> b.value < n && ge(c, b.value))
    && TimeBound(ge, pts, c) == if b.Some? then trial(b.value).t else 0.0
  }

  lemma {:induction false} PerfWitness(n: nat, ge: Order, trial: nat -> OperatingPoint,
                                       pts: seq<OperatingPoint>, c: nat)
    requires Genuine(n, trial, pts)
    ensures exists a :: GivesPerf(n, ge, trial, pts, c, a)
  {
    if pts == [] {
      assert GivesPerf(n, ge, trial, pts, c, None);
    } else {
      var last := |pts| - 1;
      TakeMembers(pts, last);
      PerfWitness(n, ge, trial, pts[..last], c);
      var a :| GivesPerf(n, ge, trial, pts[..last], c, a);
      assert pts[last] in pts;
      var lower := ge(pts[last].cno, c) && pts[last].perf < PerfBound(ge, pts[..last], c);
      assert GivesPerf(n, ge, trial, pts, c, if lower then Some(pts[last].cno) else a);
    }
  }

  lemma {:induction false} TimeWitness(n: nat, ge: Order, trial: nat -> OperatingPoint,
                                       pts: seq<OperatingPoint>, c: nat)
    requires Genuine(n, trial, pts)
    ensures exists b :: GivesTime(n, ge, trial, pts, c, b)
  {
    if pts == [] {
      assert GivesTime(n, ge, trial, pts, c, None);
    } else {
      var last := |pts| - 1;
      TakeMembers(pts, last);
      TimeWitness(n, ge, trial, pts[..last], c);
      var b :| GivesTime(n, ge, trial, pts[..last], c, b);
      assert pts[last] in pts;
      var higher := ge(c, pts[last].cno) && pts[last].t > TimeBound(ge, pts[..last], c);
      assert GivesTime(n, ge, trial, pts, c, if higher then Some(pts[last].cno) else b);
    }
  }

  lemma RecordedDominates(n: nat, trial: nat -> OperatingPoint, pts: seq<OperatingPoint>, c: nat, a: Option<nat>)
    requires Genuine(n, trial, pts) && OnRecord(pts, a)
    ensures a.Some? && Dominates(trial(a.value), trial(c)) ==> Dominated([ORIGIN] + pts, trial(c))
  {
    if a.Some? {
      var z :| z in pts && z.cno == a.value;
      assert z in [ORIGIN] + pts && z.perf == trial(a.value).perf && z.t == trial(a.value).t;
    }
  }

  /** The bounds only tighten as more is recorded. */
  lemma {:induction false} BoundsReach(ge: Order, pts: seq<OperatingPoint>, c: nat, i: nat)
    requires Identified(pts) && i < |pts| && pts[i].cno >= 0
    ensures ge(pts[i].cno, c) ==> PerfBound(ge, pts, c) <= pts[i].perf
    ensures ge(c, pts[i].cno) ==> TimeBound(ge, pts, c) >= pts[i].t
  {
    var last := |pts| - 1;
    TakeMembers(pts, last);
    if i < last { BoundsReach(ge, pts[..last], c, i); }
  }

  lemma {:induction false} BoundsStart(ge: Order, pts: seq<OperatingPoint>, c: nat)
    requires Identified(pts)
    ensures PerfBound(ge, pts, c) <= 1.0 && TimeBound(ge, pts, c) >= 0.0
  {
    if pts != [] {
      TakeMembers(pts, |pts| - 1);
      BoundsStart(ge, pts[..|pts| - 1], c);
    }
  }

  ghost function Measured(trial: nat -> OperatingPoint, x: Option<nat>): seq<OperatingPoint> {
    if x.Some? then [trial(x.value)] else []
  }

  lemma MeasuredMembers(n: nat, trial: nat -> OperatingPoint, c: nat, a: Option<nat>, b: Option<nat>, x: Option<nat>,
                        pts: seq<OperatingPoint>)
    requires pts == Measured(trial, a) + Measured(trial, b) + Measured(trial, x)
    requires Timely(n, trial) && (a.Some? ==> a.value < n) && (b.Some? ==> b.value < n) && (x.Some? ==> x.value < n)
    ensures Genuine(n, trial, pts)
    ensures Dominated([ORIGIN] + pts, trial(c)) ==> Covered(trial, c, a, b, x)
  {
    forall z | z in [ORIGIN] + pts && Dominates(z, trial(c)) ensures Covered(trial, c, a, b, x) {
      assert z == ORIGIN || z in pts;
    }
  }

  /** A recorded point that meets the bounds makes a combination skipped. */
  lemma MeetsBounds(ge: Order, pts: seq<OperatingPoint>, c: nat, z: OperatingPoint)
    requires Identified(pts) && z in [ORIGIN] + pts
    requires z.perf >= PerfBound(ge, pts, c) && z.t <= TimeBound(ge, pts, c)
    ensures Skips(ge, pts, c)
  {
    FastestMeaning([ORIGIN] + pts, PerfBound(ge, pts, c));
  }

  lemma MeasuredMeetsBounds(n: nat, ge: Order, trial: nat -> OperatingPoint, c: nat,
                            a: Option<nat>, b: Option<nat>, x: Option<nat>, pts: seq<OperatingPoint>)
    requires Skippable(n, ge, trial, c, a, b, x) && Timely(n, trial) && Genuine(n, trial, pts)
    requires pts == Measured(trial, a) + Measured(trial, b) + Measured(trial, x)
    ensures Point(trial, x) in [ORIGIN] + pts
    ensures Point(trial, x).perf >= PerfBound(ge, pts, c) && Point(trial, x).t <= TimeBound(ge, pts, c)
  {
    BoundsStart(ge, pts, c);
    InOneOfThree(Measured(trial, a), Measured(trial, b), Measured(trial, x));
    if a.Some? { BoundsOfMember(ge, pts, c, trial(a.value)); }
    if b.Some? { BoundsOfMember(ge, pts, c, trial(b.value)); }
  }

  lemma InOneOfThree<T>(a: seq<T>, b: seq<T>, x: seq<T>)
    ensures forall y :: y in a || y in b || y in x ==> y in a + b + x
  {
  }

  lemma BoundsOfMember(ge: Order, pts: seq<OperatingPoint>, c: nat, y: OperatingPoint)
    requires Identified(pts) && y in pts && y.cno >= 0
    ensures ge(y.cno, c) ==> PerfBound(ge, pts, c) <= y.perf
    ensures ge(c, y.cno) ==> TimeBound(ge, pts, c) >= y.t
  {
    var i :| 0 <= i < |pts| && pts[i] == y;
    BoundsReach(ge, pts, c, i);
  }

  /** A performance that no recorded point above `c` undercuts: 1, or that of such a point. */
  ghost predicate Reaches(ge: Order, pts: seq<OperatingPoint>, c: nat, p: real)
    requires Identified(pts)
  {
    p >= 1.0 || exists a :: a in pts && ge(a.cno, c) && p >= a.perf
  }

  /** A time within 0 or that of a recorded point below `c`. */
  ghost predicate WithinTime(ge: Order, pts: seq<OperatingPoint>, c: nat, t: real)
    requires Identified(pts)
  {
    t <= 0.0 || exists b :: b in pts && ge(c, b.cno) && t <= b.t
  }

  lemma {:induction false} PerfBoundMeans(ge: Order, pts: seq<OperatingPoint>, c: nat, p: real)
    requires Identified(pts)
    ensures p >= PerfBound(ge, pts, c) <==> Reaches(ge, pts, c, p)
  {
    if pts != [] {
      var last := |pts| - 1;
      TakeMembers(pts, last);
      PerfBoundMeans(ge, pts[..last], c, p);
      assert pts == pts[..last] + [pts[last]];
    }
  }

  lemma {:induction false} TimeBoundMeans(ge: Order, pts: seq<OperatingPoint>, c: nat, t: real)
    requires Identified(pts)
    ensures t <= TimeBound(ge, pts, c) <==> WithinTime(ge, pts, c, t)
  {
    if pts != [] {
      var last := |pts| - 1;
      TakeMembers(pts, last);
      TimeBoundMeans(ge, pts[..last], c, t);
      assert pts == pts[..last] + [pts[last]];
    }
  }

  /** A recorded point, or the origin, that makes `c` skipped. */
  ghost predicate Excuses(ge: Order, pts: seq<OperatingPoint>, c: nat, z: OperatingPoint)
    requires Identified(pts)
  {
    (z == ORIGIN || z in pts) && Reaches(ge, pts, c, z.perf) && WithinTime(ge, pts, c, z.t)
  }

  /** A combination is skipped exactly if some recorded point, or the origin, reaches 1 or the performance of
      some recorded combination above it, in no more than 0 or the time of some recorded one below it. */
  lemma SkipsIff(n: nat, ge: Order, trial: nat -> OperatingPoint, pts: seq<OperatingPoint>, c: nat)
    requires Timely(n, trial) && Genuine(n, trial, pts)
    ensures Skips(ge, pts, c) <==> exists z :: Excuses(ge, pts, c, z)
  {
    var all := [ORIGIN] + pts;
    if Skips(ge, pts, c) {
      TimeWitness(n, ge, trial, pts, c);
      FastestMeaning(all, PerfBound(ge, pts, c));
      var z :| z in all && z.perf >= PerfBound(ge, pts, c) && z.t <= TimeBound(ge, pts, c);
      PerfBoundMeans(ge, pts, c, z.perf);
      TimeBoundMeans(ge, pts, c, z.t);
      assert Excuses(ge, pts, c, z);
    }
    if z :| Excuses(ge, pts, c, z) {
      PerfBoundMeans(ge, pts, c, z.perf);
      TimeBoundMeans(ge, pts, c, z.t);
      assert z in all;
      MeetsBounds(ge, pts, c, z);
    }
  }

  /** Skipping in terms of what is recorded. */
  lemma SkipsMeans(n: nat, ge: Order, trial: nat -> OperatingPoint, pts: seq<OperatingPoint>, c: nat)
    requires Timely(n, trial) && Genuine(n, trial, pts)
    ensures Skips(ge, pts, c)
            <==> exists z :: (z == ORIGIN || z in pts)
                             && (z.perf >= 1.0 || exists a :: a in pts && ge(a.cno, c) && z.perf >= a.perf)
                             && (z.t <= 0.0 || exists b :: b in pts && ge(c, b.cno) && z.t <= b.t)
  {
    SkipsIff(n, ge, trial, pts, c);
    forall z ensures Excuses(ge, pts, c, z)
                     <==> (z == ORIGIN || z in pts)
                          && (z.perf >= 1.0 || exists a :: a in pts && ge(a.cno, c) && z.perf >= a.perf)
                          && (z.t <= 0.0 || exists b :: b in pts && ge(c, b.cno) && z.t <= b.t)
    {
    }
  }

  /** The record `pts` makes `c` skipped although it holds nothing that dominates it. */
  ghost predicate Misleads(n: nat, ge: Order, trial: nat -> OperatingPoint, c: nat, pts: seq<OperatingPoint>) {
    Genuine(n, trial, pts) && Skips(ge, pts, c) && !Dominated([ORIGIN] + pts, trial(c))
  }

  /** Recording what makes a combination skippable makes it skipped. */
  lemma SkippableIsSkipped(n: nat, ge: Order, trial: nat -> OperatingPoint, c: nat,
                           a: Option<nat>, b: Option<nat>, x: Option<nat>)
    requires Timely(n, trial) && Skippable(n, ge, trial, c, a, b, x) && !Covered(trial, c, a, b, x)
    ensures exists pts :: Misleads(n, ge, trial, c, pts)
  {
    var pts := Measured(trial, a) + Measured(trial, b) + Measured(trial, x);
    MeasuredMembers(n, trial, c, a, b, x, pts);
    MeasuredMeetsBounds(n, ge, trial, c, a, b, x, pts);
    MeetsBounds(ge, pts, c, Point(trial, x));
    assert Misleads(n, ge, trial, c, pts);
  }

  /** Skipping is safe if and only if no record of genuine measurements makes it skip a combination that
      nothing recorded dominates. */
  lemma SafeIffHarmless(n: nat, ge: Order, trial: nat -> OperatingPoint)
    requires Timely(n, trial)
    ensures Safe(n, ge, trial)
            <==> forall pts, c: nat :: c < n && Genuine(n, trial, pts) && Skips(ge, pts, c) ==>
                   Dominated([ORIGIN] + pts, trial(c))
  {
    if Safe(n, ge, trial) {
      forall pts, c: nat | c < n && Genuine(n, trial, pts) && Skips(ge, pts, c)
        ensures Dominated([ORIGIN] + pts, trial(c))
      {
        SkippedIsDominated(n, ge, trial, pts, c);
      }
    } else {
      var c: nat, a, b, x :| c < n && Skippable(n, ge, trial, c, a, b, x) && !Covered(trial, c, a, b, x);
      SkippableIsSkipped(n, ge, trial, c, a, b, x);
      var pts :| Misleads(n, ge, trial, c, pts);
    }
  }

  /** Exploring `order` from the record `pts` with skipping answers every query as without. */
  ghost predicate Lossless(ge: Order, trial: nat -> OperatingPoint, order: seq<nat>, pts: seq<OperatingPoint>)
    requires Identified(pts) && forall c: nat :: trial(c).cno >= 0
  {
    forall p :: Fastest([ORIGIN] + Pruned(ge, trial, order, pts), p)
                == Fastest([ORIGIN] + (pts + Trials(trial, order)), p)
  }

  /** Exploring `order` with skipping is lossless, from every record of genuine measurements, if and only
      if the reliable combinations of `order`, or the origin, dominate all of them. */
  lemma EnoughIffLossless(n: nat, ge: Order, trial: nat -> OperatingPoint, order: seq<nat>)
    requires Timely(n, trial) && (forall c: nat :: trial(c).cno >= 0)
    requires forall i :: 0 <= i < |order| ==> order[i] < n
    ensures Enough(n, ge, trial, order) <==> forall pts :: Genuine(n, trial, pts) ==> Lossless(ge, trial, order, pts)
  {
    if Enough(n, ge, trial, order) {
      forall pts | Genuine(n, trial, pts) ensures Lossless(ge, trial, order, pts) {
        forall p { LosslessPruning(n, ge, trial, order, pts, p); }
      }
    } else {
      var c :| c in order && !Dominates(ORIGIN, trial(c)) && !Backed(n, ge, trial, order, c);
      TopExists(trial, order, |order|, c);
      var m :| IsTop(trial, order, m) && Dominates(trial(m), trial(c));
      MisleadingRecord(n, ge, trial, order, m, |order|);
      var pts :| MisleadsAll(n, ge, trial, order, |order|, m, pts);
      MissedForever(n, ge, trial, order, pts, m);
      UndominatedIsMissed(ge, trial, order, pts, m);
    }
  }

  /** Skipping is safe if and only if any sequence of combinations is enough, those included that no
      exploration goes through. */
  lemma SafeIffAlwaysEnough(n: nat, ge: Order, trial: nat -> OperatingPoint)
    ensures Safe(n, ge, trial)
            <==> forall order: seq<nat> :: (forall i :: 0 <= i < |order| ==> order[i] < n) ==>
                   Enough(n, ge, trial, order)
  {
    if forall order: seq<nat> :: (forall i :: 0 <= i < |order| ==> order[i] < n) ==> Enough(n, ge, trial, order) {
      forall c: nat | c < n ensures Reliable(n, ge, trial, c) {
        assert Enough(n, ge, trial, [c]) && c in [c];
      }
    }
    if Safe(n, ge, trial) {
      forall order: seq<nat> | forall i :: 0 <= i < |order| ==> order[i] < n ensures Enough(n, ge, trial, order) {
        SafeIsEnough(n, ge, trial, order);
      }
    }
  }

  lemma SafeIsEnough(n: nat, ge: Order, trial: nat -> OperatingPoint, order: seq<nat>)
    requires Safe(n, ge, trial) && forall i :: 0 <= i < |order| ==> order[i] < n
    ensures Enough(n, ge, trial, order)
  {
    forall c | c in order ensures Backed(n, ge, trial, order, c) {
      assert Reliable(n, ge, trial, c) && Dominates(trial(c), trial(c));
    }
  }

  /** Only what is in the order matters. */
  lemma EnoughInAnyOrder(n: nat, ge: Order, trial: nat -> OperatingPoint, xs: seq<nat>, ys: seq<nat>)
    requires forall c: nat :: c in xs <==> c in ys
    ensures Enough(n, ge, trial, xs) ==> Enough(n, ge, trial, ys)
  {
    if Enough(n, ge, trial, xs) {
      forall c | c in ys ensures Dominates(ORIGIN, trial(c)) || Backed(n, ge, trial, ys, c) {
        if d :| d in xs && Reliable(n, ge, trial, d) && Dominates(trial(d), trial(c)) {
          assert d in ys;
        }
      }
    }
  }

  // ---- what is lost otherwise ----

  /** What dominates combination `m` in `order` measures the same. */
  ghost predicate IsTop(trial: nat -> OperatingPoint, order: seq<nat>, m: nat) {
    m in order
    && forall e :: e in order && Dominates(trial(e), trial(m)) ==>
         trial(e).perf == trial(m).perf && trial(e).t == trial(m).t
  }

  /** A combination `m` among the first `k` that dominates `c`, with nothing better among them. */
  lemma {:induction false} TopExists(trial: nat -> OperatingPoint, order: seq<nat>, k: nat, c: nat)
    requires k <= |order| && c in order[..k]
    ensures exists m :: IsTop(trial, order[..k], m) && Dominates(trial(m), trial(c))
  {
    var init, e := order[..k - 1], order[k - 1];
    assert order[..k] == init + [e];
    if c in init {
      TopExists(trial, order, k - 1, c);
      var m :| IsTop(trial, init, m) && Dominates(trial(m), trial(c));
      assert IsTop(trial, order[..k], if Dominates(trial(e), trial(m)) then e else m);
    } else if m0 :| m0 in init && Dominates(trial(m0), trial(e)) {
      TopExists(trial, order, k - 1, m0);
      var m :| IsTop(trial, init, m) && Dominates(trial(m), trial(m0));
      assert IsTop(trial, order[..k], if Dominates(trial(e), trial(m)) then e else m);
    } else {
      assert IsTop(trial, order[..k], e);
    }
  }

  /** The bounds tighten as more is recorded. */
  lemma {:induction false} BoundsShrink(ge: Order, pts: seq<OperatingPoint>, more: seq<OperatingPoint>, c: nat)
    requires Identified(more) && Identified(pts) && forall x :: x in pts ==> x in more
    ensures PerfBound(ge, more, c) <= PerfBound(ge, pts, c) && TimeBound(ge, more, c) >= TimeBound(ge, pts, c)
  {
    if pts == [] {
      BoundsStart(ge, more, c);
    } else {
      var last := |pts| - 1;
      TakeMembers(pts, last);
      BoundsShrink(ge, pts[..last], more, c);
      assert pts[last] in pts && pts[last] in more;
      BoundsOfMember(ge, more, c, pts[last]);
    }
  }

  /** What is skipped stays so as more is recorded. */
  lemma SkipsGrow(n: nat, ge: Order, trial: nat -> OperatingPoint, pts: seq<OperatingPoint>,
                  more: seq<OperatingPoint>, c: nat)
    requires Timely(n, trial) && Genuine(n, trial, pts) && Genuine(n, trial, more)
    requires Skips(ge, pts, c) && forall x :: x in pts ==> x in more
    ensures Skips(ge, more, c)
  {
    BoundsShrink(ge, pts, more, c);
    TimeWitness(n, ge, trial, pts, c);
    FastestMeaning([ORIGIN] + pts, PerfBound(ge, pts, c));
    var z :| z in [ORIGIN] + pts && z.perf >= PerfBound(ge, pts, c) && z.t <= TimeBound(ge, pts, c);
    assert z in [ORIGIN] + more;
    MeetsBounds(ge, more, c, z);
  }

  /** The record `pts` holds nothing that dominates `m`, and makes whatever dominates it among the
      first `k` of `order` skipped. */
  ghost predicate MisleadsAll(n: nat, ge: Order, trial: nat -> OperatingPoint, order: seq<nat>, k: nat, m: nat,
                              pts: seq<OperatingPoint>)
  {
    && k <= |order| && Genuine(n, trial, pts) && !Dominated([ORIGIN] + pts, trial(m))
    && forall i :: 0 <= i < k && Dominates(trial(order[i]), trial(m)) ==> Skips(ge, pts, order[i])
  }

  /** Records that mislead together mislead. */
  lemma {:induction false} MisleadingRecord(n: nat, ge: Order, trial: nat -> OperatingPoint, order: seq<nat>,
                                            m: nat, k: nat)
    requires Timely(n, trial) && k <= |order| && (forall i :: 0 <= i < |order| ==> order[i] < n)
    requires IsTop(trial, order, m) && !Dominates(ORIGIN, trial(m)) && !Backed(n, ge, trial, order, m)
    ensures exists pts :: MisleadsAll(n, ge, trial, order, k, m, pts)
  {
    if k == 0 {
      assert MisleadsAll(n, ge, trial, order, 0, m, []);
    } else {
      MisleadingRecord(n, ge, trial, order, m, k - 1);
      var pts :| MisleadsAll(n, ge, trial, order, k - 1, m, pts);
      var e := order[k - 1];
      if Dominates(trial(e), trial(m)) {
        assert e in order;
        assert !Reliable(n, ge, trial, e);
        var a, b, x :| Skippable(n, ge, trial, e, a, b, x) && !Covered(trial, e, a, b, x);
        SkippableIsSkipped(n, ge, trial, e, a, b, x);
        var mis :| Misleads(n, ge, trial, e, mis);
        Together(n, ge, trial, order, k - 1, m, pts, mis);
        assert MisleadsAll(n, ge, trial, order, k, m, pts + mis);
      } else {
        assert MisleadsAll(n, ge, trial, order, k, m, pts);
      }
    }
  }

  lemma Together(n: nat, ge: Order, trial: nat -> OperatingPoint, order: seq<nat>, k: nat, m: nat,
                 pts: seq<OperatingPoint>, mis: seq<OperatingPoint>)
    requires Timely(n, trial) && k < |order| && MisleadsAll(n, ge, trial, order, k, m, pts)
    requires Misleads(n, ge, trial, order[k], mis)
    requires trial(order[k]).perf == trial(m).perf && trial(order[k]).t == trial(m).t
    ensures MisleadsAll(n, ge, trial, order, k + 1, m, pts + mis)
  {
    var both := pts + mis;
    forall i | 0 <= i < k + 1 && Dominates(trial(order[i]), trial(m)) ensures Skips(ge, both, order[i]) {
      SkipsGrow(n, ge, trial, if i < k then pts else mis, both, order[i]);
    }
    forall z | z in [ORIGIN] + both ensures !Dominates(z, trial(m)) {
      if z in [ORIGIN] + pts { } else { assert z in [ORIGIN] + mis; }
    }
  }

  /** Whatever is recorded on the way, `m` stays without anything that dominates it. */
  lemma {:induction false} MissedForever(n: nat, ge: Order, trial: nat -> OperatingPoint, order: seq<nat>,
                                         pts: seq<OperatingPoint>, m: nat)
    requires Timely(n, trial) && (forall c: nat :: trial(c).cno >= 0)
    requires forall i :: 0 <= i < |order| ==> order[i] < n
    requires MisleadsAll(n, ge, trial, order, |order|, m, pts)
    ensures !Dominated([ORIGIN] + Pruned(ge, trial, order, pts), trial(m))
  {
    if order != [] {
      var c, rest, next := order[0], order[1..], Tried(ge, trial, pts, order[0]);
      forall i | 0 <= i < |rest| && Dominates(trial(rest[i]), trial(m)) ensures Skips(ge, next, rest[i]) {
        assert rest[i] == order[i + 1];
        SkipsGrow(n, ge, trial, pts, next, rest[i]);
      }
      assert !Dominated([ORIGIN] + next, trial(m)) by {
        if !Skips(ge, pts, c) { OneMoreUndominated(pts, trial(c), trial(m)); }
      }
      MissedForever(n, ge, trial, rest, next, m);
    }
  }

  lemma OneMoreUndominated(pts: seq<OperatingPoint>, x: OperatingPoint, y: OperatingPoint)
    requires !Dominated([ORIGIN] + pts, y) && !Dominates(x, y)
    ensures !Dominated([ORIGIN] + (pts + [x]), y)
  {
    forall z | z in [ORIGIN] + (pts + [x]) ensures !Dominates(z, y) {
      if z in [ORIGIN] + pts { } else { assert z == x; }
    }
  }

  /** A combination that nothing recorded dominates is missed at its own performance. */
  lemma UndominatedIsMissed(ge: Order, trial: nat -> OperatingPoint, order: seq<nat>, pts: seq<OperatingPoint>, m: nat)
    requires Identified(pts) && (forall c: nat :: trial(c).cno >= 0) && m in order
    requires !Dominated([ORIGIN] + Pruned(ge, trial, order, pts), trial(m))
    ensures !Lossless(ge, trial, order, pts)
  {
    var p := trial(m).perf;
    var kept, all := [ORIGIN] + Pruned(ge, trial, order, pts), [ORIGIN] + (pts + Trials(trial, order));
    var i :| 0 <= i < |order| && order[i] == m;
    assert Trials(trial, order)[i] == trial(m) && trial(m) in all;
    FastestMeaning(kept, p);
    FastestMeaning(all, p);
    assert forall y :: y in kept ==> !Dominates(y, trial(m));
    assert Fastest(kept, p) != Fastest(all, p);
  }

  // ---- what is kept ----

  /** A skipped combination would only have measured a point that a recorded one dominates. */
  lemma SkippedIsDominated(n: nat, ge: Order, trial: nat -> OperatingPoint, pts: seq<OperatingPoint>, c: nat)
    requires Timely(n, trial) && Reliable(n, ge, trial, c) && Genuine(n, trial, pts) && c < n
    requires Skips(ge, pts, c)
    ensures Dominated([ORIGIN] + pts, trial(c))
  {
    var pb, tb := PerfBound(ge, pts, c), TimeBound(ge, pts, c);
    var all := [ORIGIN] + pts;
    PerfWitness(n, ge, trial, pts, c);
    var a :| GivesPerf(n, ge, trial, pts, c, a);
    TimeWitness(n, ge, trial, pts, c);
    var b :| GivesTime(n, ge, trial, pts, c, b);
    FastestMeaning(all, pb);
    var z :| z in all && z.perf >= pb && z.t == Fastest(all, pb).value;
    var x: Option<nat> := if z in pts then Some(z.cno) else None;
    assert Point(trial, x).perf == z.perf && Point(trial, x).t == z.t;
    assert Skippable(n, ge, trial, c, a, b, x);
    assert Covered(trial, c, a, b, x);
    RecordedDominates(n, trial, pts, c, a);
    RecordedDominates(n, trial, pts, c, b);
    if x.Some? { assert Dominates(trial(x.value), trial(c)) ==> Dominates(z, trial(c)); }
    assert ORIGIN in all;
  }

  /** Only genuine measurements are recorded, and nothing recorded is forgotten. */
  lemma {:induction false} PrunedGenuine(n: nat, ge: Order, trial: nat -> OperatingPoint, order: seq<nat>,
                                         pts: seq<OperatingPoint>)
    requires Timely(n, trial) && Genuine(n, trial, pts)
    requires forall c: nat :: trial(c).cno >= 0
    requires forall i :: 0 <= i < |order| ==> order[i] < n
    ensures Genuine(n, trial, Pruned(ge, trial, order, pts))
    ensures forall x :: x in pts ==> x in Pruned(ge, trial, order, pts)
    ensures forall x :: x in Pruned(ge, trial, order, pts) ==> x in pts + Trials(trial, order)
  {
    if order != [] {
      PrunedGenuine(n, ge, trial, order[1..], Tried(ge, trial, pts, order[0]));
      assert Trials(trial, order) == [trial(order[0])] + Trials(trial, order[1..]);
    }
  }

  /** Every reliable combination gone through is either measured or dominated by a recorded point. */
  lemma {:induction false} PrunedCovers(n: nat, ge: Order, trial: nat -> OperatingPoint, order: seq<nat>,
                                        pts: seq<OperatingPoint>, i: nat)
    requires Timely(n, trial) && Genuine(n, trial, pts)
    requires forall c: nat :: trial(c).cno >= 0
    requires forall i :: 0 <= i < |order| ==> order[i] < n
    requires i < |order| && Reliable(n, ge, trial, order[i])
    ensures Dominated([ORIGIN] + Pruned(ge, trial, order, pts), trial(order[i]))
  {
    var c, next := order[0], Tried(ge, trial, pts, order[0]);
    if i > 0 {
      PrunedCovers(n, ge, trial, order[1..], next, i - 1);
    } else {
      if Skips(ge, pts, c) {
        SkippedIsDominated(n, ge, trial, pts, c);
      } else {
        assert trial(c) in [ORIGIN] + next && Dominates(trial(c), trial(c));
      }
      PrunedGenuine(n, ge, trial, order[1..], next);
      var x :| x in [ORIGIN] + next && Dominates(x, trial(c));
      assert x in [ORIGIN] + Pruned(ge, trial, order, pts);
    }
  }

  lemma EnoughCovers(n: nat, ge: Order, trial: nat -> OperatingPoint, order: seq<nat>, pts: seq<OperatingPoint>, c: nat)
    requires Timely(n, trial) && Enough(n, ge, trial, order) && Genuine(n, trial, pts) && c in order
    requires forall c: nat :: trial(c).cno >= 0
    requires forall i :: 0 <= i < |order| ==> order[i] < n
    ensures Dominated([ORIGIN] + Pruned(ge, trial, order, pts), trial(c))
  {
    var kept := [ORIGIN] + Pruned(ge, trial, order, pts);
    assert ORIGIN in kept;
    if !Dominates(ORIGIN, trial(c)) {
      var d :| d in order && Reliable(n, ge, trial, d) && Dominates(trial(d), trial(c));
      var i :| 0 <= i < |order| && order[i] == d;
      PrunedCovers(n, ge, trial, order, pts, i);
      var z :| z in kept && Dominates(z, trial(d));
      assert Dominates(z, trial(c));
    }
  }

  /** Skipping loses nothing: whatever the order, every query is answered as if all the
      combinations of that order had been measured. */
  lemma LosslessPruning(n: nat, ge: Order, trial: nat -> OperatingPoint, order: seq<nat>,
                        pts: seq<OperatingPoint>, p: real)
    requires Timely(n, trial) && Enough(n, ge, trial, order) && Genuine(n, trial, pts)
    requires forall c: nat :: trial(c).cno >= 0
    requires forall i :: 0 <= i < |order| ==> order[i] < n
    ensures Fastest([ORIGIN] + Pruned(ge, trial, order, pts), p)
            == Fastest([ORIGIN] + (pts + Trials(trial, order)), p)
  {
    PrunedGenuine(n, ge, trial, order, pts);
    var kept := [ORIGIN] + Pruned(ge, trial, order, pts);
    var all := [ORIGIN] + (pts + Trials(trial, order));
    forall x | x in kept ensures Dominated(all, x) {
      assert x in all && Dominates(x, x);
    }
    forall x | x in all ensures Dominated(kept, x) {
      if x in Trials(trial, order) {
        var i :| 0 <= i < |order| && Trials(trial, order)[i] == x;
        EnoughCovers(n, ge, trial, order, pts, order[i]);
      } else {
        assert x in kept && Dominates(x, x);
      }
    }
    SameFastest(kept, all, p);
  }

  /** Going through all the combinations in any order, with skipping, answers every query
      like the exhaustive exploration. */
  lemma PruningMatchesExhaustive(n: nat, ge: Order, trial: nat -> OperatingPoint, order: seq<nat>,
                                 pts: seq<OperatingPoint>, p: real)
    requires Timely(n, trial) && Enough(n, ge, trial, Range(n)) && Genuine(n, trial, pts)
    requires forall c: nat :: trial(c).cno >= 0
    requires IsPermutation(order, n)
    ensures Fastest([ORIGIN] + Pruned(ge, trial, order, pts), p)
            == Fastest([ORIGIN] + (pts + Trials(trial, Range(n))), p)
  {
    PermutationHasAll(order, n);
    EnoughInAnyOrder(n, ge, trial, Range(n), order);
    LosslessPruning(n, ge, trial, order, pts, p);
    var xs, ys := Trials(trial, order), Trials(trial, Range(n));
    forall x | x in xs ensures x in ys {
      var i :| 0 <= i < n && xs[i] == x;
      assert ys[order[i]] == x;
    }
    forall y | y in ys ensures y in xs {
      var c :| 0 <= c < n && ys[c] == y;
      PermutationCovers(order, n, c);
      var i :| 0 <= i < n && order[i] == c;
      assert xs[i] == y;
    }
    SameMembers([ORIGIN] + (pts + xs), [ORIGIN] + (pts + ys), p);
  }

  lemma PermutationHasAll(order: seq<nat>, n: nat)
    requires IsPermutation(order, n)
    ensures forall c: nat :: c in Range(n) <==> c in order
  {
    forall c: nat ensures c in Range(n) <==> c in order {
      if c < n { PermutationCovers(order, n, c); assert Range(n)[c] == c; }
    }
  }

  lemma SameMembers(xs: seq<OperatingPoint>, ys: seq<OperatingPoint>, p: real)
    requires forall x :: x in xs <==> x in ys
    ensures Fastest(xs, p) == Fastest(ys, p)
  {
    forall x | x in xs ensures Dominated(ys, x) { assert Dominates(x, x); }
    forall y | y in ys ensures Dominated(xs, y) { assert Dominates(y, y); }
    SameFastest(xs, ys, p);
  }

  /** The skipping rule needs the monotonicity: with one parameter of three values, the middle
      one best of all, the best combination is never measured. */
  lemma PruningNeedsMonotonicity(trial: nat -> OperatingPoint)
    requires forall c: nat :: trial(c).cno >= 0
    requires trial(0) == OperatingPoint(0.5, 1.0, "", 0)
    requires trial(1) == OperatingPoint(0.9, 0.5, "", 1)
    requires trial(2) == OperatingPoint(0.5, 2.0, "", 2)
    ensures Fastest([ORIGIN] + Pruned(TupleOrder([3]), trial, [0, 2, 1], []), 0.9) == None
    ensures Fastest([ORIGIN] + Trials(trial, [0, 1, 2]), 0.9) == Some(0.5)
  {
    OneParameterOrder();
    BestIsMissed(TupleOrder([3]), trial);
    MiddleIsBest(trial);
  }

  lemma BestIsMissed(ge: Order, trial: nat -> OperatingPoint)
    requires forall c1: nat, c2: nat :: c1 < 3 && c2 < 3 ==> (ge(c1, c2) <==> c1 >= c2)
    requires forall c: nat :: trial(c).cno >= 0
    requires trial(0) == OperatingPoint(0.5, 1.0, "", 0)
    requires trial(2) == OperatingPoint(0.5, 2.0, "", 2)
    ensures Fastest([ORIGIN] + Pruned(ge, trial, [0, 2, 1], []), 0.9) == None
  {
    BestIsSkipped(ge, trial);
    NeitherReaches(trial(0), trial(2), 0.9);
  }

  lemma NeitherReaches(x: OperatingPoint, y: OperatingPoint, p: real)
    requires x.perf < p && y.perf < p && 0.0 < p
    ensures Fastest([ORIGIN] + [x, y], p) == None
  {
    assert [ORIGIN] + [x, y] == [ORIGIN, x, y];
    FastestUnique([ORIGIN, x, y], p, None);
  }

  lemma MiddleIsBest(trial: nat -> OperatingPoint)
    requires trial(0) == OperatingPoint(0.5, 1.0, "", 0)
    requires trial(1) == OperatingPoint(0.9, 0.5, "", 1)
    requires trial(2) == OperatingPoint(0.5, 2.0, "", 2)
    ensures Fastest([ORIGIN] + Trials(trial, [0, 1, 2]), 0.9) == Some(0.5)
  {
    var all := [ORIGIN] + Trials(trial, [0, 1, 2]);
    assert all[2] == trial(1);
    FastestUnique(all, 0.9, Some(0.5));
  }

  lemma OneParameterOrder()
    ensures forall c1: nat, c2: nat :: c1 < 3 && c2 < 3 ==> (TupleOrder([3])(c1, c2) <==> c1 >= c2)
  {
    forall c1: nat, c2: nat | c1 < 3 && c2 < 3 ensures TupleOrder([3])(c1, c2) <==> c1 >= c2 {
      assert [3][1..] == [] && Digits([3], c1)[0] == c1 && Digits([3], c2)[0] == c2;
    }
  }

  lemma BestIsSkipped(ge: Order, trial: nat -> OperatingPoint)
    requires forall c1: nat, c2: nat :: c1 < 3 && c2 < 3 ==> (ge(c1, c2) <==> c1 >= c2)
    requires forall c: nat :: trial(c).cno >= 0
    requires trial(0) == OperatingPoint(0.5, 1.0, "", 0)
    requires trial(2) == OperatingPoint(0.5, 2.0, "", 2)
    ensures Pruned(ge, trial, [0, 2, 1], []) == [trial(0), trial(2)]
  {
    var one, two := [trial(0)], [trial(0), trial(2)];
    TryExtremes(ge, trial);
    TryMiddle(ge, trial);
    assert Tried(ge, trial, two, 1) == two;
    assert Pruned(ge, trial, [], two) == two;
    assert Pruned(ge, trial, [1], two) == two by { assert [1][1..] == []; }
    assert Pruned(ge, trial, [2, 1], one) == two by { assert [2, 1][1..] == [1]; }
    assert [0, 2, 1][1..] == [2, 1];
  }

  lemma TryExtremes(ge: Order, trial: nat -> OperatingPoint)
    requires !ge(0, 2)
    requires trial(0) == OperatingPoint(0.5, 1.0, "", 0)
    requires trial(2) == OperatingPoint(0.5, 2.0, "", 2)
    ensures Tried(ge, trial, [], 0) == [trial(0)]
    ensures Identified([trial(0)]) && Tried(ge, trial, [trial(0)], 2) == [trial(0), trial(2)]
  {
    var one := [trial(0)];
    FastestUnique([ORIGIN] + [], 1.0, None);
    assert one[..|one| - 1] == [] && PerfBound(ge, [], 2) == 1.0 && TimeBound(ge, [], 2) == 0.0;
    assert PerfBound(ge, one, 2) == 1.0 && TimeBound(ge, one, 2) <= 1.0;
    FastestUnique([ORIGIN] + one, 1.0, None);
  }

  lemma TryMiddle(ge: Order, trial: nat -> OperatingPoint)
    requires ge(1, 0) && ge(2, 1) && !ge(0, 1) && !ge(1, 2)
    requires trial(0) == OperatingPoint(0.5, 1.0, "", 0)
    requires trial(2) == OperatingPoint(0.5, 2.0, "", 2)
    ensures Identified([trial(0), trial(2)]) && Skips(ge, [trial(0), trial(2)], 1)
  {
    var one, two := [trial(0)], [trial(0), trial(2)];
    assert one[..|one| - 1] == [] && two[..|two| - 1] == one;
    assert PerfBound(ge, [], 1) == 1.0 && TimeBound(ge, [], 1) == 0.0;
    assert PerfBound(ge, one, 1) == 1.0 && TimeBound(ge, one, 1) == 1.0;
    assert PerfBound(ge, two, 1) == 0.5 && TimeBound(ge, two, 1) == 1.0;
    assert ([ORIGIN] + two)[1] == trial(0);
    FastestUnique([ORIGIN] + two, 0.5, Some(1.0));
  }
}
