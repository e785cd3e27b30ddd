/** What exactly the frontier of an auto-tuning run stores (faiss/AutoTune.cpp), when that depends on
    the order of the measurements, and when all of it is optimal. */
module FrontierContents {
  import opened Basics
  import opened OperatingPoints

  ghost predicate Timed(xs: seq<OperatingPoint>) {
    forall x :: x in xs ==> x.t >= 0.0
  }

  /** The origin and what was recorded after it. */
  ghost function History(xs: seq<OperatingPoint>): seq<OperatingPoint> {
    [ORIGIN] + xs
  }

  /** At one of its arrivals, `x` was dominated by nothing recorded before. */
  ghost predicate Arrives(pts: seq<OperatingPoint>, x: OperatingPoint) {
    exists i: nat :: i < |pts| && pts[i] == x && !Dominated(pts[..i], x)
  }

  /** Some point is at least as accurate and strictly faster. */
  ghost predicate Beaten(pts: seq<OperatingPoint>, x: OperatingPoint) {
    exists y :: y in pts && Beats(y, x)
  }

  predicate Beats(y: OperatingPoint, x: OperatingPoint) {
    y.perf >= x.perf && y.t < x.t
  }

  lemma ArrivesStep(pts: seq<OperatingPoint>, op: OperatingPoint, x: OperatingPoint)
    ensures Arrives(pts + [op], x) <==> Arrives(pts, x) || (x == op && !Dominated(pts, op))
    ensures Beaten(pts + [op], x) <==> Beaten(pts, x) || Beats(op, x)
  {
    var more := pts + [op];
    assert more[..|pts|] == pts && more[|pts|] == op;
    if Arrives(pts, x) {
      var i: nat :| i < |pts| && pts[i] == x && !Dominated(pts[..i], x);
      assert more[i] == x && more[..i] == pts[..i];
    }
    if Arrives(more, x) {
      var i: nat :| i < |more| && more[i] == x && !Dominated(more[..i], x);
      if i < |pts| { assert pts[i] == x && pts[..i] == more[..i]; }
    }
    if x == op && !Dominated(pts, op) { assert !Dominated(more[..|pts|], x); }
  }

  /** The stored points are those that arrived undominated and that nothing recorded, before or after,
      beats. */
  lemma {:induction false} StoredIff(xs: seq<OperatingPoint>, x: OperatingPoint)
    requires Timed(xs)
    ensures x in Stored(xs) <==> Arrives(History(xs), x) && !Beaten(History(xs), x)
  {
    if xs == [] {
      ArrivesStep([], ORIGIN, x);
      assert History(xs) == [] + [ORIGIN];
    } else {
      var before, op := xs[..|xs| - 1], xs[|xs| - 1];
      TakeMembers(xs, |xs| - 1);
      StoredIff(before, x);
      ArrivesStep(History(before), op, x);
      assert History(xs) == History(before) + [op];
      if Dominated(History(before), op) {
        var z :| z in History(before) && Dominates(z, op);
        assert Beats(op, x) ==> Beats(z, x);
      } else {
        RefinedMembers(Stored(before), op);
        forall y | y in History(before) ensures !Beats(y, op) { assert !Dominates(y, op); }
        if Arrives(History(before), x) { KeptIff(History(before), op, x); }
      }
    }
  }

  /** The same of a record, in terms of performances and times: what is stored besides the origin. */
  lemma StoredMeans(xs: seq<OperatingPoint>, x: OperatingPoint)
    requires Timed(xs) && x != ORIGIN
    ensures x in Stored(xs) <==>
            && (exists i: nat :: i < |xs| && xs[i] == x && x.perf > 0.0
                                 && forall j :: 0 <= j < i ==> xs[j].perf < x.perf || xs[j].t > x.t)
            && forall y :: y in xs ==> y.perf < x.perf || y.t >= x.t
  {
    StoredIff(xs, x);
    ArrivesMeans(xs, x);
    if x.perf > 0.0 { BeatenMeans(xs, x); }
  }

  lemma BeatenMeans(xs: seq<OperatingPoint>, x: OperatingPoint)
    requires Timed(xs) && x.perf > 0.0
    ensures !Beaten(History(xs), x) <==> forall y :: y in xs ==> y.perf < x.perf || y.t >= x.t
  {
    var h := History(xs);
    if !Beaten(h, x) {
      forall y | y in xs ensures y.perf < x.perf || y.t >= x.t { assert y in h && !Beats(y, x); }
    }
  }

  lemma ArrivesMeans(xs: seq<OperatingPoint>, x: OperatingPoint)
    requires Timed(xs) && x != ORIGIN
    ensures Arrives(History(xs), x)
            <==> exists i: nat :: i < |xs| && xs[i] == x && x.perf > 0.0
                                  && forall j :: 0 <= j < i ==> xs[j].perf < x.perf || xs[j].t > x.t
  {
    var h := History(xs);
    if Arrives(h, x) {
      var i: nat :| i < |h| && h[i] == x && !Dominated(h[..i], x);
      assert xs[i - 1] == x;
      ArrivalMeans(xs, i - 1, x);
    }
    if i: nat :| i < |xs| && xs[i] == x && x.perf > 0.0
                 && forall j :: 0 <= j < i ==> xs[j].perf < x.perf || xs[j].t > x.t {
      ArrivalMeans(xs, i, x);
      assert h[i + 1] == x;
    }
  }

  lemma ArrivalMeans(xs: seq<OperatingPoint>, i: nat, x: OperatingPoint)
    requires i < |xs| && x.t >= 0.0
    ensures !Dominated(History(xs)[..i + 1], x)
            <==> x.perf > 0.0 && forall j :: 0 <= j < i ==> xs[j].perf < x.perf || xs[j].t > x.t
  {
    assert History(xs)[..i + 1] == [ORIGIN] + xs[..i];
    UndominatedMeans(xs[..i], x);
    assert forall j :: 0 <= j < i ==> xs[j] == xs[..i][j] && xs[j] in xs[..i];
  }

  /** A new undominated point displaces exactly the points that it beats. */
  lemma KeptIff(pts: seq<OperatingPoint>, op: OperatingPoint, x: OperatingPoint)
    requires !Dominated(pts, op) && Arrives(pts, x)
    ensures (x.perf > op.perf || (x.perf < op.perf && x.t <= op.t)) <==> !Beats(op, x)
    ensures x != op
  {
    assert x in pts;
    assert !Dominates(x, op);
  }

  // ---- order ----

  /** Two points of the same time of which one is no less accurate; nothing beats the other one. */
  ghost predicate Tied(xs: seq<OperatingPoint>, x: OperatingPoint, y: OperatingPoint) {
    && x in xs && y in xs && x != y && x.t == y.t && 0.0 < x.perf <= y.perf
    && !Beaten(xs, x)
  }

  ghost predicate HasTies(xs: seq<OperatingPoint>) {
    exists x, y :: Tied(xs, x, y)
  }

  /** Without ties, which points are stored does not depend on their order. */
  lemma StoredWithoutTies(xs: seq<OperatingPoint>, x: OperatingPoint)
    requires Timed(xs) && !HasTies(xs)
    ensures x in Stored(xs) <==> x == ORIGIN || (x in xs && x.perf > 0.0 && !Beaten(xs, x))
  {
    StoredIff(xs, x);
    var h := History(xs);
    if x == ORIGIN {
      assert h[0] == ORIGIN && h[..0] == [];
    } else {
      if x in Stored(xs) {
        var i: nat :| i < |h| && h[i] == x && !Dominated(h[..i], x);
        assert h[..i][0] == ORIGIN && !Dominates(ORIGIN, x);
        assert xs[i - 1] == x;
      }
      if x in xs && x.perf > 0.0 && !Beaten(xs, x) {
        FirstOf(xs, x);
        var i: nat :| i < |xs| && xs[i] == x && x !in xs[..i];
        assert h[i + 1] == x;
        forall z | z in h[..i + 1] ensures !Dominates(z, x) {
          var j :| 0 <= j < i + 1 && h[..i + 1][j] == z;
          if j > 0 {
            assert z == xs[j - 1] && z != x;
            assert !Beats(z, x) && !Tied(xs, x, z);
          }
        }
      }
    }
  }

  lemma {:induction false} FirstOf(xs: seq<OperatingPoint>, x: OperatingPoint)
    requires x in xs
    ensures exists i: nat :: i < |xs| && xs[i] == x && x !in xs[..i]
  {
    if xs[0] == x {
      assert x !in xs[..0];
    } else {
      FirstOf(xs[1..], x);
      var i: nat :| i < |xs| - 1 && xs[1..][i] == x && x !in xs[1..][..i];
      assert xs[i + 1] == x && xs[..i + 1] == [xs[0]] + xs[1..][..i];
    }
  }

  /** A tied point is stored when it comes first, and not when the other one does. */
  lemma FirstDecides(xs: seq<OperatingPoint>, x: OperatingPoint, y: OperatingPoint)
    requires Timed(xs) && Tied(xs, x, y) && xs[0] in {x, y}
    ensures x in Stored(xs) <==> xs[0] == x
  {
    StoredIff(xs, x);
    var h := History(xs);
    if xs[0] == x {
      assert h[1] == x && h[..1] == [ORIGIN];
    } else {
      forall i: nat | i < |h| && h[i] == x ensures Dominated(h[..i], x) {
        assert h[0] == ORIGIN && h[1] == y;
        assert h[..i][1] == y && Dominates(y, x);
      }
    }
  }

  /** The same points with the one at `i` in front. */
  ghost function InFront(xs: seq<OperatingPoint>, i: nat): (ys: seq<OperatingPoint>)
    requires i < |xs|
    ensures multiset(ys) == multiset(xs) && ys[0] == xs[i]
  {
    RemoveAt(xs, i);
    [xs[i]] + (xs[..i] + xs[i + 1..])
  }

  lemma SameTies(xs: seq<OperatingPoint>, ys: seq<OperatingPoint>)
    requires multiset(xs) == multiset(ys)
    ensures forall x :: x in xs <==> x in ys
    ensures Timed(xs) ==> Timed(ys)
    ensures forall x :: Beaten(xs, x) <==> Beaten(ys, x)
    ensures forall x, y :: Tied(xs, x, y) <==> Tied(ys, x, y)
  {
    assert forall x :: x in xs <==> x in multiset(xs);
    assert forall x :: x in ys <==> x in multiset(ys);
  }

  /** The stored frontier is the same for every order of the points if and only if there are no ties. */
  lemma OrderShowsIff(xs: seq<OperatingPoint>)
    requires Timed(xs)
    ensures (forall ys :: multiset(ys) == multiset(xs) ==> Stored(ys) == Stored(xs)) <==> !HasTies(xs)
  {
    if !HasTies(xs) {
      forall ys | multiset(ys) == multiset(xs) ensures Stored(ys) == Stored(xs) {
        SameTies(xs, ys);
        forall x ensures x in Stored(ys) <==> x in Stored(xs) {
          StoredWithoutTies(xs, x);
          StoredWithoutTies(ys, x);
        }
        StoredIsSorted(xs);
        StoredIsSorted(ys);
        SortedUnique(Stored(xs), Stored(ys));
      }
    } else {
      var x, y :| Tied(xs, x, y);
      var i :| 0 <= i < |xs| && xs[i] == x;
      var j :| 0 <= j < |xs| && xs[j] == y;
      var xFirst, yFirst := InFront(xs, i), InFront(xs, j);
      SameTies(xs, xFirst);
      SameTies(xs, yFirst);
      FirstDecides(xFirst, x, y);
      FirstDecides(yFirst, x, y);
      assert Stored(xFirst) != Stored(yFirst);
    }
  }

  lemma {:induction false} FilterSorted(f: OperatingPoint -> bool, a: seq<OperatingPoint>)
    requires Sorted(a)
    ensures Sorted(Filter(f, a))
  {
    if a != [] {
      FilterSorted(f, a[1..]);
      FilterMembers(f, a[1..]);
      forall x | x in Filter(f, a[1..]) ensures a[0].perf < x.perf && a[0].t <= x.t {
        var i :| 0 <= i < |a| - 1 && a[1..][i] == x;
        assert a[i + 1] == x;
      }
      ConsSorted(a[0], Filter(f, a[1..]));
    }
  }

  lemma ConsSorted(x: OperatingPoint, a: seq<OperatingPoint>)
    requires Sorted(a) && forall y :: y in a ==> x.perf < y.perf && x.t <= y.t
    ensures Sorted([x] + a)
  {
    assert forall i :: 0 <= i < |a| ==> a[i] in a;
  }

  lemma {:induction false} StoredIsSorted(xs: seq<OperatingPoint>)
    requires Timed(xs)
    ensures Sorted(Stored(xs))
  {
    if xs != [] {
      var before, op := xs[..|xs| - 1], xs[|xs| - 1];
      TakeMembers(xs, |xs| - 1);
      StoredIsSorted(before);
      if !Dominated(History(before), op) {
        forall x | x in Stored(before) ensures x in History(before) { StoredIff(before, x); }
        RefinedIsSorted(Stored(before), History(before), op);
      }
    }
  }

  lemma RefinedIsSorted(a: seq<OperatingPoint>, pts: seq<OperatingPoint>, op: OperatingPoint)
    requires Sorted(a) && !Dominated(pts, op) && forall x :: x in a ==> x in pts
    ensures Sorted(Refined(a, op))
  {
    var below := (x: OperatingPoint) => x.perf < op.perf && x.t <= op.t;
    var above := (x: OperatingPoint) => x.perf > op.perf;
    var lo, hi := Filter(below, a), Filter(above, a);
    FilterSorted(below, a);
    FilterSorted(above, a);
    FilterMembers(below, a);
    FilterMembers(above, a);
    forall i | 0 <= i < |lo| ensures lo[i].perf < op.perf && lo[i].t <= op.t { assert lo[i] in lo; }
    forall i | 0 <= i < |hi| ensures hi[i].perf > op.perf && hi[i].t > op.t {
      assert hi[i] in hi && hi[i] in pts;
      assert !Dominates(hi[i], op);
    }
    Concatenated(lo, op, hi);
  }

  lemma Concatenated(lo: seq<OperatingPoint>, op: OperatingPoint, hi: seq<OperatingPoint>)
    requires Sorted(lo) && Sorted(hi)
    requires forall i :: 0 <= i < |lo| ==> lo[i].perf < op.perf && lo[i].t <= op.t
    requires forall i :: 0 <= i < |hi| ==> hi[i].perf > op.perf && hi[i].t > op.t
    ensures Sorted(lo + [op] + hi)
  {
  }

  lemma {:induction false} SortedUnique(a: seq<OperatingPoint>, b: seq<OperatingPoint>)
    requires Sorted(a) && Sorted(b) && forall x :: x in a <==> x in b
    ensures a == b
  {
    assert |b| > 0 ==> b[0] in b;
    if a != [] {
      assert a[0] in b;
      var j :| 0 <= j < |b| && b[j] == a[0];
      assert b[0] in a;
      var i :| 0 <= i < |a| && a[i] == b[0];
      assert a[0] == b[0];
      forall x ensures x in a[1..] <==> x in b[1..] {
        InTail(a, x);
        InTail(b, x);
      }
      SortedUnique(a[1..], b[1..]);
    }
  }

  lemma InTail(a: seq<OperatingPoint>, x: OperatingPoint)
    requires Sorted(a) && a != []
    ensures x in a[1..] <==> x in a && x != a[0]
  {
    assert a == [a[0]] + a[1..];
    if x in a[1..] {
      var i :| 0 <= i < |a| - 1 && a[1..][i] == x;
      assert a[i + 1] == x;
    }
  }

  // ---- optimality ----

  /** Nothing is at least as good in both respects and better in one. */
  ghost predicate IsOptimal(pts: seq<OperatingPoint>, x: OperatingPoint) {
    !exists y :: y in pts && Improves(y, x)
  }

  predicate Improves(y: OperatingPoint, x: OperatingPoint) {
    Dominates(y, x) && (y.perf > x.perf || y.t < x.t)
  }

  /** An unbeaten point arrived undominated and later came a more accurate one of the same time. */
  ghost predicate Outdone(pts: seq<OperatingPoint>, i: nat, j: nat) {
    && i < j < |pts| && pts[i].t == pts[j].t && pts[i].perf < pts[j].perf
    && !Dominated(pts[..i], pts[i]) && !Beaten(pts, pts[i])
  }

  /** Everything stored is optimal if and only if no recorded point was outdone. */
  lemma StoredIsOptimalIff(xs: seq<OperatingPoint>)
    requires Timed(xs)
    ensures (forall x :: x in Stored(xs) ==> IsOptimal(History(xs), x))
            <==> !exists i: nat, j: nat :: Outdone(History(xs), i, j)
  {
    var h := History(xs);
    if i: nat, j: nat :| Outdone(h, i, j) {
      StoredIff(xs, h[i]);
      assert h[j] in h && Improves(h[j], h[i]);
    }
    if !exists i: nat, j: nat :: Outdone(h, i, j) {
      forall x | x in Stored(xs) ensures IsOptimal(h, x) {
        StoredIff(xs, x);
        var i: nat :| i < |h| && h[i] == x && !Dominated(h[..i], x);
        forall j: nat | j < i ensures !Dominates(h[j], x) { assert h[j] == h[..i][j]; }
        forall y | y in h ensures !Improves(y, x) {
          var j: nat :| j < |h| && h[j] == y;
          assert !Beats(y, x) && !Outdone(h, i, j);
        }
      }
    }
  }

  /** Two points of the same time: the less accurate one is stored if it comes first, although it is not
      optimal, and not if it comes second. */
  lemma OutdoneIsStored(lo: OperatingPoint, hi: OperatingPoint)
    requires lo == OperatingPoint(0.5, 1.0, "lo", 1) && hi == OperatingPoint(0.9, 1.0, "hi", 2)
    ensures Stored([lo, hi]) == [ORIGIN, lo, hi] && Stored([hi, lo]) == [ORIGIN, hi]
    ensures !IsOptimal(History([lo, hi]), lo)
  {
    FrontierDependsOnOrder();
    StoredTwo(lo, hi);
    StoredTwo(hi, lo);
    assert History([lo, hi])[2] == hi && Improves(hi, lo);
  }

  lemma StoredTwo(x: OperatingPoint, y: OperatingPoint)
    ensures var one := if Dominated([ORIGIN], x) then [ORIGIN] else Refined([ORIGIN], x);
            Stored([x, y]) == if Dominated([ORIGIN, x], y) then one else Refined(one, y)
  {
    assert [x, y][..1] == [x] && [x][..0] == [];
    assert [ORIGIN] + [] == [ORIGIN] && [ORIGIN] + [x] == [ORIGIN, x];
    assert Stored([x]) == if Dominated([ORIGIN] + [], x) then Stored([]) else Refined(Stored([]), x);
  }

  /** Every optimal point is stored, or another one with the same performance and time. */
  lemma OptimalIsStored(xs: seq<OperatingPoint>, x: OperatingPoint)
    requires Timed(xs) && x in History(xs) && IsOptimal(History(xs), x)
    ensures exists y :: y in Stored(xs) && y.perf == x.perf && y.t == x.t
  {
    var h := History(xs);
    var i :| 0 <= i < |h| && h[i] == x;
    FirstDominating(h, x, i);
    var y :| y in h && Dominates(y, x) && Arrives(h, y);
    StoredIff(xs, y);
    assert !Improves(y, x);
    forall z | z in h ensures !Beats(z, y) {
      assert !Improves(z, x);
    }
  }

  /** The first of the points that dominate `x`. */
  lemma {:induction false} FirstDominating(h: seq<OperatingPoint>, x: OperatingPoint, i: nat)
    requires i < |h| && Dominates(h[i], x) && forall z :: z in h ==> !Improves(z, x)
    ensures exists y :: y in h && Dominates(y, x) && Arrives(h, y)
    decreases i
  {
    if j: nat :| j < i && Dominates(h[j], x) {
      FirstDominating(h, x, j);
    } else {
      var y := h[i];
      assert !Improves(y, x);
      forall z | z in h[..i] ensures !Dominates(z, y) {
        var j :| 0 <= j < i && h[..i][j] == z;
        assert h[j] == z;
      }
    }
  }
}
