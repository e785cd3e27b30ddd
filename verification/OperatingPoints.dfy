/** Operating points of an auto-tuning run (faiss/AutoTune.cpp): every measurement
    is kept, next to a sorted array of the ones that no other makes useless. */
module OperatingPoints {
  import opened Basics

  datatype OperatingPoint = OperatingPoint(perf: real, t: real, key: string, cno: int)

  /** Doing nothing: no accuracy, no time. */
  const ORIGIN := OperatingPoint(0.0, 0.0, "", -1)

  /** The time reported for a performance that nothing reaches: 1e50. */
  const NEVER: real := 100000000000000000000000000000000000000000000000000.0

  /** `x` is at least as accurate as `y` and at least as fast. */
  predicate Dominates(x: OperatingPoint, y: OperatingPoint) {
    x.perf >= y.perf && x.t <= y.t
  }

  ghost predicate Dominated(pts: seq<OperatingPoint>, op: OperatingPoint) {
    exists x :: x in pts && Dominates(x, op)
  }

  ghost predicate Sorted(a: seq<OperatingPoint>) {
    forall i, j :: 0 <= i < j < |a| ==> a[i].perf < a[j].perf && a[i].t <= a[j].t
  }

  /** `a` is the useful part of `pts`: sorted, headed by the origin, made of recorded
      points only, and covering every recorded point. */
  ghost predicate Frontier(a: seq<OperatingPoint>, pts: seq<OperatingPoint>) {
    && a != [] && a[0] == ORIGIN
    && Sorted(a)
    && (forall x :: x in a ==> x in pts)
    && (forall x {:trigger Dominated(a, x)} :: x in pts ==> Dominated(a, x))
  }

  /** The least time among the points of `pts` that reach performance `p`. */
  function Fastest(pts: seq<OperatingPoint>, p: real): Option<real> {
    if pts == [] then None
    else
      var rest := Fastest(pts[1..], p);
      if pts[0].perf < p || (rest.Some? && rest.value <= pts[0].t) then rest else Some(pts[0].t)
  }

  /** What `Fastest` means: some point attains it and none that qualifies is faster. */
  ghost predicate IsFastest(pts: seq<OperatingPoint>, p: real, r: Option<real>) {
    match r
    case None => forall x :: x in pts ==> x.perf < p
    case Some(t) =>
      && (exists x :: x in pts && x.perf >= p && x.t == t)
      && (forall x :: x in pts && x.perf >= p ==> t <= x.t)
  }

  lemma {:induction false} FastestMeaning(pts: seq<OperatingPoint>, p: real)
    ensures IsFastest(pts, p, Fastest(pts, p))
  {
    if pts != [] {
      FastestMeaning(pts[1..], p);
      assert pts == [pts[0]] + pts[1..];
      assert pts[0] in pts;
    }
  }

  /** No other value deserves the name. */
  lemma FastestUnique(pts: seq<OperatingPoint>, p: real, r: Option<real>)
    requires IsFastest(pts, p, r)
    ensures r == Fastest(pts, p)
  {
    FastestMeaning(pts, p);
  }

  function TimeOf(r: Option<real>): real {
    if r.Some? then r.value else NEVER
  }

  /** Two point sets that dominate one another answer every query alike. */
  lemma SameFastest(xs: seq<OperatingPoint>, ys: seq<OperatingPoint>, p: real)
    requires forall y {:trigger Dominated(xs, y)} :: y in ys ==> Dominated(xs, y)
    requires forall x {:trigger Dominated(ys, x)} :: x in xs ==> Dominated(ys, x)
    ensures Fastest(xs, p) == Fastest(ys, p)
  {
    FastestAtMost(xs, ys, p);
    FastestAtMost(ys, xs, p);
  }

  lemma FastestAtMost(xs: seq<OperatingPoint>, ys: seq<OperatingPoint>, p: real)
    requires forall y {:trigger Dominated(xs, y)} :: y in ys ==> Dominated(xs, y)
    ensures Fastest(ys, p).Some? ==>
              Fastest(xs, p).Some? && Fastest(xs, p).value <= Fastest(ys, p).value
  {
    FastestMeaning(xs, p);
    FastestMeaning(ys, p);
    if Fastest(ys, p).Some? {
      var y :| y in ys && y.perf >= p && y.t == Fastest(ys, p).value;
      assert Dominated(xs, y);
    }
  }

  lemma FrontierAnswers(a: seq<OperatingPoint>, pts: seq<OperatingPoint>, p: real)
    requires Frontier(a, pts)
    ensures Fastest(a, p) == Fastest(pts, p)
  {
    forall x | x in a ensures Dominated(pts, x) { assert Dominates(x, x); }
    SameFastest(a, pts, p);
  }

  lemma FrontierDominates(a: seq<OperatingPoint>, pts: seq<OperatingPoint>, op: OperatingPoint)
    requires Frontier(a, pts)
    ensures Dominated(a, op) <==> Dominated(pts, op)
  {
    if Dominated(pts, op) {
      var x :| x in pts && Dominates(x, op);
      assert Dominated(a, x);
    }
  }

  /** The frontier once the undominated point `op` is recorded: `op` sits between the less
      accurate points that are no slower and the more accurate points. */
  function Refined(a: seq<OperatingPoint>, op: OperatingPoint): seq<OperatingPoint> {
    Filter((x: OperatingPoint) => x.perf < op.perf && x.t <= op.t, a) + [op]
    + Filter((x: OperatingPoint) => x.perf > op.perf, a)
  }

  /** What is stored after recording `xs` one by one. */
  ghost function Stored(xs: seq<OperatingPoint>): seq<OperatingPoint> {
    if xs == [] then [ORIGIN]
    else
      var before, op := xs[..|xs| - 1], xs[|xs| - 1];
      if Dominated([ORIGIN] + before, op) then Stored(before) else Refined(Stored(before), op)
  }

  lemma StoredStep(xs: seq<OperatingPoint>, op: OperatingPoint)
    ensures Stored(xs + [op]) == if Dominated([ORIGIN] + xs, op) then Stored(xs) else Refined(Stored(xs), op)
  {
    assert (xs + [op])[..|xs|] == xs;
  }

  /** With `a` sorted, both filters cut it: at `m` and at `h`. */
  lemma RefinedIsCut(a: seq<OperatingPoint>, op: OperatingPoint, m: nat, h: nat)
    requires m <= h <= |a|
    requires forall i :: 0 <= i < m ==> a[i].perf < op.perf && a[i].t <= op.t
    requires forall i :: m <= i < h ==> a[i].t > op.t && a[i].perf <= op.perf
    requires forall i :: h <= i < |a| ==> a[i].perf > op.perf
    ensures Refined(a, op) == a[..m] + [op] + a[h..]
  {
    var below := (x: OperatingPoint) => x.perf < op.perf && x.t <= op.t;
    var above := (x: OperatingPoint) => x.perf > op.perf;
    FilterIsSlice(below, a, 0, m);
    FilterIsSlice(above, a, h, |a|);
  }

  /** Recording an undominated point keeps the frontier a frontier. */
  lemma CutIsFrontier(a: seq<OperatingPoint>, pts: seq<OperatingPoint>, op: OperatingPoint, m: nat, h: nat)
    requires Frontier(a, pts) && 1 <= m <= h <= |a|
    requires forall i :: 0 <= i < m ==> a[i].perf < op.perf && a[i].t <= op.t
    requires forall i :: m <= i < h ==> a[i].t > op.t && a[i].perf <= op.perf
    requires forall i :: h <= i < |a| ==> a[i].perf > op.perf && a[i].t > op.t
    ensures Frontier(a[..m] + [op] + a[h..], pts + [op])
  {
    var b := a[..m] + [op] + a[h..];
    assert Sorted(b);
    forall x | x in b ensures x in pts + [op] {
      assert x in a || x == op;
    }
    forall x | x in pts + [op] ensures Dominated(b, x) {
      if x == op {
        assert b[m] == op && Dominates(op, op);
      } else {
        CutCovers(a, op, m, h, x);
      }
    }
  }

  lemma CutCovers(a: seq<OperatingPoint>, op: OperatingPoint, m: nat, h: nat, x: OperatingPoint)
    requires m <= h <= |a| && Dominated(a, x)
    requires forall i :: m <= i < h ==> a[i].t > op.t && a[i].perf <= op.perf
    ensures Dominated(a[..m] + [op] + a[h..], x)
  {
    var b := a[..m] + [op] + a[h..];
    var y :| y in a && Dominates(y, x);
    var i :| 0 <= i < |a| && a[i] == y;
    if i < m {
      assert b[i] == y;
    } else if i < h {
      assert b[m] == op && Dominates(op, x);
    } else {
      assert b[m + 1 + (i - h)] == y;
    }
  }

  /** `op` is to be stored between the first `k` and the points from `h` on, and beats all
      the points of at least its performance. */
  ghost predicate Slot(a: seq<OperatingPoint>, op: OperatingPoint, k: nat, h: nat) {
    && k <= h <= |a|
    && (forall i :: 0 <= i < k ==> a[i].perf < op.perf)
    && (forall i :: k <= i < h ==> a[i].perf == op.perf && a[i].t > op.t)
    && (forall i :: h <= i < |a| ==> a[i].perf > op.perf && a[i].t > op.t)
  }

  lemma SlotIsUseful(a: seq<OperatingPoint>, pts: seq<OperatingPoint>, op: OperatingPoint, k: nat, h: nat)
    requires Frontier(a, pts) && op.t >= 0.0 && Slot(a, op, k, h)
    ensures !Dominated(pts, op) && k >= 1
  {
    assert a[0] == ORIGIN;
    FrontierDominates(a, pts, op);
  }

  lemma CoveredIsUseless(a: seq<OperatingPoint>, pts: seq<OperatingPoint>, op: OperatingPoint, i: nat)
    requires Frontier(a, pts) && i < |a| && Dominates(a[i], op)
    ensures Dominated(pts, op) && Frontier(a, pts + [op])
  {
    assert a[i] in a;
    FrontierDominates(a, pts, op);
  }

  /** What makes a point worth keeping: an accuracy, and no recorded point as good in both respects. */
  lemma UndominatedMeans(xs: seq<OperatingPoint>, op: OperatingPoint)
    requires op.t >= 0.0
    ensures !Dominated([ORIGIN] + xs, op)
            <==> op.perf > 0.0 && forall x :: x in xs ==> x.perf < op.perf || x.t > op.t
  {
    var all := [ORIGIN] + xs;
    assert ORIGIN in all && forall x :: x in all <==> x == ORIGIN || x in xs;
    if !Dominated(all, op) {
      assert !Dominates(ORIGIN, op);
      forall x | x in xs ensures x.perf < op.perf || x.t > op.t { assert !Dominates(x, op); }
    }
  }

  lemma RefinedMembers(a: seq<OperatingPoint>, op: OperatingPoint)
    ensures forall x {:trigger x in Refined(a, op)} {:trigger x in a} :: x in Refined(a, op) <==>
              x == op || (x in a && (x.perf > op.perf || (x.perf < op.perf && x.t <= op.t)))
  {
    FilterMembers((x: OperatingPoint) => x.perf < op.perf && x.t <= op.t, a);
    FilterMembers((x: OperatingPoint) => x.perf > op.perf, a);
  }

  class OperatingPoints {
    var allPts: seq<OperatingPoint>
    var optimalPts: seq<OperatingPoint>

    /** Everything a query may choose from. */
    ghost function Recorded(): seq<OperatingPoint>
      reads this
    {
      [ORIGIN] + allPts
    }

    ghost predicate Valid()
      reads this
    {
      && Frontier(optimalPts, Recorded()) && optimalPts == Stored(allPts)
      && forall x :: x in allPts ==> x.t >= 0.0
    }

    constructor ()
      ensures Valid() && allPts == [] && optimalPts == [ORIGIN]
    {
      allPts := [];
      optimalPts := [ORIGIN];
      new;
      assert Dominates(ORIGIN, ORIGIN) && ORIGIN in optimalPts;
    }

    method Clear()
      modifies this
      ensures Valid() && allPts == [] && optimalPts == [ORIGIN]
    {
      allPts := [];
      optimalPts := [ORIGIN];
      assert Dominates(ORIGIN, ORIGIN) && ORIGIN in optimalPts;
    }

    /** Add a performance measure. Returns whether no earlier point, nor the origin,
        makes it useless. */
    method Add(perf: real, t: real, key: string, cno: nat) returns (kept: bool)
      requires Valid()
      requires t >= 0.0
      modifies this
      ensures Valid()
      ensures allPts == old(allPts) + [OperatingPoint(perf, t, key, cno)]
      ensures kept <==> !Dominated(old(Recorded()), OperatingPoint(perf, t, key, cno))
      ensures kept <==> perf > 0.0 && forall x :: x in old(allPts) ==> x.perf < perf || x.t > t
      ensures optimalPts == if kept then Refined(old(optimalPts), OperatingPoint(perf, t, key, cno))
                            else old(optimalPts)
      ensures forall x {:trigger x in optimalPts} {:trigger x in old(optimalPts)} :: x in optimalPts <==>
                if kept then x == OperatingPoint(perf, t, key, cno)
                             || (x in old(optimalPts) && (x.perf > perf || (x.perf < perf && x.t <= t)))
                else x in old(optimalPts)
    {
      var op := OperatingPoint(perf, t, key, cno);
      ghost var a, pts := optimalPts, Recorded();
      allPts := allPts + [op];
      assert Recorded() == pts + [op];
      StoredStep(old(allPts), op);
      UndominatedMeans(old(allPts), op);
      RefinedMembers(a, op);
      if perf == 0.0 {
        CoveredIsUseless(a, pts, op, 0);
        return false;
      }
      ghost var k: nat, h: nat;
      kept, k, h := Place(op);
      if kept {
        SlotIsUseful(a, pts, op, k, h);
        ghost var m := RemoveSlower(a, op, k, h);
        RefinedIsCut(a, op, m, h);
        CutIsFrontier(a, pts, op, m, h);
      } else {
        CoveredIsUseless(a, pts, op, k);
      }
    }

    /** Put `op` where its performance belongs, unless a stored point, the k-th, makes it useless. */
    method Place(op: OperatingPoint) returns (kept: bool, ghost k: nat, ghost h: nat)
      requires optimalPts != [] && Sorted(optimalPts)
      modifies this`optimalPts
      ensures !kept ==> optimalPts == old(optimalPts) && k < |optimalPts| && Dominates(optimalPts[k], op)
      ensures kept ==> Slot(old(optimalPts), op, k, h)
      ensures kept ==> optimalPts == old(optimalPts)[..k] + [op] + old(optimalPts)[h..]
    {
      ghost var a := optimalPts;
      var last := |optimalPts| - 1;
      k, h := 0, 0;
      if op.perf > optimalPts[last].perf {
        // keep unconditionally
        optimalPts := optimalPts + [op];
        k, h := |a|, |a|;
        assert optimalPts == a[..k] + [op] + a[h..];
      } else if op.perf == optimalPts[last].perf {
        if op.t < optimalPts[last].t {
          optimalPts := optimalPts[last := op];
          k, h := last, |a|;
        } else {
          return false, last, h;
        }
      } else {
        var i := 0;
        while optimalPts[i].perf < op.perf
          invariant 0 <= i <= last
          invariant forall j :: 0 <= j < i ==> a[j].perf < op.perf
          decreases last - i
        {
          i := i + 1;
        }
        if op.t < optimalPts[i].t {
          if optimalPts[i].perf == op.perf {
            optimalPts := optimalPts[i := op];
            k, h := i, i + 1;
          } else {
            optimalPts := optimalPts[..i] + [op] + optimalPts[i..];
            k, h := i, i;
          }
        } else {
          return false, i, h;
        }
      }
      kept := true;
    }

    /** Walk back from the end and drop each point slower than its successor. */
    method RemoveSlower(ghost a: seq<OperatingPoint>, ghost op: OperatingPoint, ghost k: nat, ghost h: nat)
      returns (ghost m: nat)
      requires Sorted(a) && 1 <= k && Slot(a, op, k, h) && a[0].t <= op.t
      requires optimalPts == a[..k] + [op] + a[h..]
      modifies this`optimalPts
      ensures 1 <= m <= k && optimalPts == a[..m] + [op] + a[h..]
      ensures forall j :: 0 <= j < m ==> a[j].t <= op.t
      ensures forall j :: m <= j < k ==> a[j].t > op.t
    {
      m := k;
      var i := |optimalPts| - 1;
      while i > 0
        invariant 1 <= m <= k && 0 <= i < |optimalPts|
        invariant optimalPts == a[..m] + [op] + a[h..]
        invariant forall j :: m <= j < k ==> a[j].t > op.t
        invariant i > m ==> m == k
        invariant i < m ==> a[m - 1].t <= op.t
      {
        if optimalPts[i].t < optimalPts[i - 1].t {
          assert i == m;
          optimalPts := optimalPts[..i - 1] + optimalPts[i..];
          m := m - 1;
        }
        i := i - 1;
      }
    }

    /** Time required to obtain a given performance measure. */
    method TForPerf(perf: real) returns (t: real)
      requires Valid()
      ensures t == TimeOf(Fastest(Recorded(), perf))
      ensures perf <= 0.0 ==> t == 0.0
      ensures perf > 0.0 && (forall x :: x in allPts ==> x.perf < perf) ==>
                t == 100000000000000000000000000000000000000000000000000.0
      ensures perf > 0.0 && (exists x :: x in allPts && x.perf >= perf) ==>
                && (exists x :: x in allPts && x.perf >= perf && x.t == t)
                && (forall x :: x in allPts && x.perf >= perf ==> t <= x.t)
      ensures (forall x :: x in allPts ==> x.t < NEVER) ==>
                (t == NEVER <==> forall x :: x in Recorded() ==> x.perf < perf)
    {
      FrontierAnswers(optimalPts, Recorded(), perf);
      FastestMeaning(Recorded(), perf);
      assert ORIGIN in Recorded() && forall x :: x in Recorded() <==> x == ORIGIN || x in allPts;
      t := Search(optimalPts, perf);
    }

    /** Add the points of `other`, their keys prefixed. Returns how many were kept. */
    method MergeWith(other: OperatingPoints, prefix: string) returns (nAdd: nat)
      requires Valid() && other != this
      requires forall x :: x in other.allPts ==> x.t >= 0.0 && x.cno >= 0
      modifies this
      ensures Valid()
      ensures allPts == old(allPts) + Prefixed(prefix, other.allPts)
      ensures nAdd == Novel(old(Recorded()), Prefixed(prefix, other.allPts))
      ensures nAdd == |set i: nat | i < |other.allPts| && IsNovel(old(allPts), other.allPts, i)|
    {
      nAdd := 0;
      ghost var all, pts, incoming := allPts, [ORIGIN] + allPts, Prefixed(prefix, other.allPts);
      ghost var done := [];
      var theirs := other.allPts;
      var i := 0;
      while i < |theirs|
        invariant 0 <= i <= |theirs| == |incoming| && other.allPts == theirs && done == incoming[..i]
        invariant Valid() && allPts == all + done
        invariant nAdd == Novel(pts, done)
      {
        assert theirs[i] in theirs;
        assert (done + [incoming[i]])[..|done|] == done;
        TakeStep(incoming, i);
        Associate([ORIGIN], all, done);
        Associate(all, done, [incoming[i]]);
        var kept := AddOther(theirs[i], prefix);
        if kept {
          nAdd := nAdd + 1;
        }
        done := done + [incoming[i]];
        i := i + 1;
      }
      assert incoming[..|incoming|] == incoming;
      NovelCount(all, theirs, prefix, |theirs|);
    }

    /** Add a point of another record. */
    method AddOther(op: OperatingPoint, prefix: string) returns (kept: bool)
      requires Valid() && op.t >= 0.0 && op.cno >= 0
      modifies this
      ensures Valid() && allPts == old(allPts) + [op.(key := prefix + op.key)]
      ensures kept <==> !Dominated([ORIGIN] + old(allPts), op.(key := prefix + op.key))
    {
      kept := Add(op.perf, op.t, prefix + op.key, op.cno);
    }
  }

  /** Bisect a frontier for the first point that reaches a performance. */
  method Search(a: seq<OperatingPoint>, perf: real) returns (t: real)
    requires a != [] && Sorted(a)
    ensures t == TimeOf(Fastest(a, perf))
  {
    if perf > a[|a| - 1].perf {
      FastestUnique(a, perf, None);
      return NEVER;
    }
    var i0, i1 := -1, |a| - 1;
    while i0 + 1 < i1
      invariant -1 <= i0 < i1 < |a|
      invariant i0 >= 0 ==> a[i0].perf < perf
      invariant a[i1].perf >= perf
    {
      var imed := (i0 + i1 + 1) / 2;
      if a[imed].perf < perf {
        i0 := imed;
      } else {
        i1 := imed;
      }
    }
    assert a[i1] in a;
    FastestUnique(a, perf, Some(a[i1].t));
    t := a[i1].t;
  }

  function Prefixed(prefix: string, pts: seq<OperatingPoint>): (r: seq<OperatingPoint>)
    ensures |r| == |pts|
    ensures forall i :: 0 <= i < |r| ==> r[i] == pts[i].(key := prefix + pts[i].key)
  {
    seq(|pts|, i requires 0 <= i < |pts| => pts[i].(key := prefix + pts[i].key))
  }

  /** How many points of `incoming` are undominated when their turn to be recorded comes. */
  ghost function Novel(pts: seq<OperatingPoint>, incoming: seq<OperatingPoint>): nat {
    if incoming == [] then 0
    else
      var before := incoming[..|incoming| - 1];
      Novel(pts, before) + if Dominated(pts + before, incoming[|incoming| - 1]) then 0 else 1
  }

  /** The `i`-th incoming point has an accuracy, and none recorded before it is as good in both respects. */
  ghost predicate IsNovel(xs: seq<OperatingPoint>, incoming: seq<OperatingPoint>, i: nat)
    requires i < |incoming|
  {
    && incoming[i].perf > 0.0
    && (forall x :: x in xs ==> x.perf < incoming[i].perf || x.t > incoming[i].t)
    && forall j :: 0 <= j < i ==> incoming[j].perf < incoming[i].perf || incoming[j].t > incoming[i].t
  }

  lemma NovelStep(xs: seq<OperatingPoint>, incoming: seq<OperatingPoint>, prefix: string, i: nat)
    requires i < |incoming| && incoming[i].t >= 0.0
    ensures !Dominated([ORIGIN] + xs + Prefixed(prefix, incoming)[..i], Prefixed(prefix, incoming)[i])
            <==> IsNovel(xs, incoming, i)
  {
    var ys := Prefixed(prefix, incoming)[..i];
    Associate([ORIGIN], xs, ys);
    UndominatedMeans(xs + ys, Prefixed(prefix, incoming)[i]);
    assert forall j :: 0 <= j < i ==> ys[j] in xs + ys && ys[j].perf == incoming[j].perf && ys[j].t == incoming[j].t;
  }

  /** Merging counts the incoming points that are novel. */
  lemma {:induction false} NovelCount(xs: seq<OperatingPoint>, incoming: seq<OperatingPoint>, prefix: string, n: nat)
    requires n <= |incoming| && forall x :: x in incoming ==> x.t >= 0.0
    ensures Novel([ORIGIN] + xs, Prefixed(prefix, incoming)[..n]) == |set i: nat | i < n && IsNovel(xs, incoming, i)|
  {
    if n > 0 {
      NovelCount(xs, incoming, prefix, n - 1);
      var ys := Prefixed(prefix, incoming);
      assert ys[..n][..n - 1] == ys[..n - 1];
      NovelStep(xs, incoming, prefix, n - 1);
      NovelSetStep(xs, incoming, n - 1);
    }
  }

  lemma NovelSetStep(xs: seq<OperatingPoint>, incoming: seq<OperatingPoint>, n: nat)
    requires n < |incoming|
    ensures |set i: nat | i < n + 1 && IsNovel(xs, incoming, i)|
            == |set i: nat | i < n && IsNovel(xs, incoming, i)| + if IsNovel(xs, incoming, n) then 1 else 0
  {
    var before := set i: nat | i < n && IsNovel(xs, incoming, i);
    assert (set i: nat | i < n + 1 && IsNovel(xs, incoming, i))
           == before + if IsNovel(xs, incoming, n) then {n} else {};
  }

  function Faster(x: Option<real>, y: Option<real>): Option<real> {
    if x.None? || (y.Some? && y.value <= x.value) then y else x
  }

  /** Merging answers every query with the better of the two original answers. */
  lemma MergedAnswers(pts: seq<OperatingPoint>, other: seq<OperatingPoint>, prefix: string, p: real)
    ensures Fastest([ORIGIN] + (pts + Prefixed(prefix, other)), p)
            == Faster(Fastest([ORIGIN] + pts, p), Fastest([ORIGIN] + other, p))
  {
    var renamed := Prefixed(prefix, other);
    var merged := [ORIGIN] + (pts + renamed);
    assert forall x :: x in merged <==> x in [ORIGIN] + pts || x in [ORIGIN] + renamed;
    FastestUnion(merged, [ORIGIN] + pts, [ORIGIN] + renamed, p);
    forall x | x in [ORIGIN] + renamed ensures Dominated([ORIGIN] + other, x) {
      if x in renamed {
        var i :| 0 <= i < |renamed| && renamed[i] == x;
        assert Dominates(other[i], x) && other[i] in [ORIGIN] + other;
      } else {
        assert Dominates(ORIGIN, x) && ORIGIN in [ORIGIN] + other;
      }
    }
    forall x | x in [ORIGIN] + other ensures Dominated([ORIGIN] + renamed, x) {
      if x in other {
        var i :| 0 <= i < |other| && other[i] == x;
        assert Dominates(renamed[i], x) && renamed[i] in [ORIGIN] + renamed;
      } else {
        assert Dominates(ORIGIN, x) && ORIGIN in [ORIGIN] + renamed;
      }
    }
    SameFastest([ORIGIN] + renamed, [ORIGIN] + other, p);
  }

  lemma FastestUnion(zs: seq<OperatingPoint>, xs: seq<OperatingPoint>, ys: seq<OperatingPoint>, p: real)
    requires forall z :: z in zs <==> z in xs || z in ys
    ensures Fastest(zs, p) == Faster(Fastest(xs, p), Fastest(ys, p))
  {
    FastestMeaning(xs, p);
    FastestMeaning(ys, p);
    var r := Faster(Fastest(xs, p), Fastest(ys, p));
    if r.Some? {
      assert exists x :: (x in xs || x in ys) && x.perf >= p && x.t == r.value;
    }
    FastestUnique(zs, p, r);
  }

  /** The answers depend on which points were added, not on their order. */
  lemma OrderIrrelevant(xs: seq<OperatingPoint>, ys: seq<OperatingPoint>, p: real)
    requires multiset(xs) == multiset(ys)
    ensures Fastest([ORIGIN] + xs, p) == Fastest([ORIGIN] + ys, p)
  {
    forall x | x in [ORIGIN] + xs ensures Dominated([ORIGIN] + ys, x) {
      assert x in xs ==> x in multiset(xs);
      assert Dominates(x, x) && x in [ORIGIN] + ys;
    }
    forall y | y in [ORIGIN] + ys ensures Dominated([ORIGIN] + xs, y) {
      assert y in ys ==> y in multiset(ys);
      assert Dominates(y, y) && y in [ORIGIN] + xs;
    }
    SameFastest([ORIGIN] + xs, [ORIGIN] + ys, p);
  }

  /** The stored frontier does depend on the order: a point that arrives first survives a
      later one of equal time and higher performance, but is not let in after it. */
  lemma FrontierDependsOnOrder()
    ensures var lo, hi := OperatingPoint(0.5, 1.0, "lo", 1), OperatingPoint(0.9, 1.0, "hi", 2);
            && Refined(Refined([ORIGIN], lo), hi) == [ORIGIN, lo, hi]
            && Refined([ORIGIN], hi) == [ORIGIN, hi]
            && !Dominated([ORIGIN], lo) && !Dominated([ORIGIN, lo], hi)
            && !Dominated([ORIGIN], hi) && Dominated([ORIGIN, hi], lo)
  {
    var lo, hi := OperatingPoint(0.5, 1.0, "lo", 1), OperatingPoint(0.9, 1.0, "hi", 2);
    RefinedIsCut([ORIGIN], lo, 1, 1);
    RefinedIsCut([ORIGIN], hi, 1, 1);
    assert Refined([ORIGIN], lo) == [ORIGIN, lo] && Refined([ORIGIN], hi) == [ORIGIN, hi];
    RefinedIsCut([ORIGIN, lo], hi, 2, 2);
    assert [ORIGIN, hi][1] == hi && Dominates(hi, lo);
  }
}
