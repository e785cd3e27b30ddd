/** Two-level clustering: how the sub-clusters are shared out among the first-level clusters,
    and which points each of them is trained on (contrib/clustering.py). */
module Allocation {
  import opened Basics
  import opened Sorting

  // ---- shares ----

  /** The sum of the first `c` weights. */
  function Cum(w: seq<nat>, c: nat): nat
    requires c <= |w|
  {
    if c == 0 then 0 else Cum(w, c - 1) + w[c - 1]
  }

  lemma {:induction false} CumIs(w: seq<nat>, c: nat)
    requires c <= |w|
    ensures Cum(w, c) == Sum(w[..c])
  {
    if c > 0 {
      CumIs(w, c - 1);
      SumAppend(w[..c - 1], w[c - 1]);
      TakeStep(w, c - 1);
    }
  }

  lemma {:induction false} SumAppend(s: seq<nat>, v: nat)
    ensures Sum(s + [v]) == Sum(s) + v
  {
    if s != [] {
      assert (s + [v])[1..] == s[1..] + [v];
      SumAppend(s[1..], v);
    }
  }

  /** The cumulative share of the first `c` clusters out of `m` sub-clusters, rounded down. */
  function CutAt(w: seq<nat>, total: nat, m: nat, c: nat): nat
    requires c <= |w| && total > 0
  {
    Cum(w, c) * m / total
  }

  ghost function Shares(w: seq<nat>, total: nat, m: nat): (r: seq<int>)
    requires total > 0
    ensures |r| == |w|
  {
    seq(|w|, c requires 0 <= c < |w| => CutAt(w, total, m, c + 1) - CutAt(w, total, m, c))
  }

  ghost function SumTo(s: seq<int>, c: nat): int
    requires c <= |s|
  {
    if c == 0 then 0 else SumTo(s, c - 1) + s[c - 1]
  }

  lemma {:induction false} SharesTelescope(w: seq<nat>, total: nat, m: nat, c: nat)
    requires total > 0 && c <= |w|
    ensures SumTo(Shares(w, total, m), c) == CutAt(w, total, m, c)
  {
    if c == 0 {
      assert CutAt(w, total, m, 0) == 0 by { assert 0 * m == 0; }
    } else {
      SharesTelescope(w, total, m, c - 1);
    }
  }

  /** The shares add up to `m`. */
  lemma SharesAddUp(w: seq<nat>, total: nat, m: nat)
    requires total == Cum(w, |w|) > 0
    ensures SumTo(Shares(w, total, m), |w|) == m
  {
    SharesTelescope(w, total, m, |w|);
    DivMod(total, m, 0);
  }

  /** The rounded share of a weight `w` that takes a cumulative weight from `a` to `b`. */
  lemma ShareBounds(a: nat, b: nat, w: nat, n: nat, m: nat, share: int)
    requires n > 0 && b == a + w && share == b * m / n - a * m / n
    ensures w * m - n < n * share < w * m + n
    ensures share >= 0
    ensures w == 0 ==> share == 0
    ensures m <= n ==> share <= w
  {
    var x, y, z := b * m, a * m, w * m;
    assert x == (a + w) * m == y + z;
    var qx, qy := x / n, y / n;
    assert n * qx <= x < n * qx + n && n * qy <= y < n * qy + n;
    assert n * share == n * qx - n * qy;
    ShareIsWhole(w, n, m, share);
  }

  lemma ShareIsWhole(w: nat, n: nat, m: nat, share: int)
    requires w * m - n < n * share < w * m + n
    ensures share >= 0
    ensures w == 0 ==> share == 0
    ensures m <= n ==> share <= w
  {
    if share < 0 { MulMonotone(n, share, -1); }
    if w == 0 && share > 0 { MulMonotone(n, 1, share); }
    if m <= n && share > w {
      MulMonotone(w, m, n);
      MulMonotone(n, w + 1, share);
    }
  }

  /** Each share is within one of the proportional one, and no more than there are points. */
  lemma SharesAreFair(w: seq<nat>, total: nat, m: nat, c: nat)
    requires total > 0 && c < |w|
    ensures w[c] * m - total < total * Shares(w, total, m)[c] < w[c] * m + total
    ensures Shares(w, total, m)[c] >= 0
    ensures w[c] == 0 ==> Shares(w, total, m)[c] == 0
    ensures m <= total ==> Shares(w, total, m)[c] <= w[c]
  {
    ShareBounds(Cum(w, c), Cum(w, c + 1), w[c], total, m, Shares(w, total, m)[c]);
  }

  lemma {:induction false} SumToAtMost(s: seq<int>, w: seq<nat>, c: nat)
    requires c <= |s| == |w| && forall i :: 0 <= i < c ==> s[i] <= w[i]
    ensures SumTo(s, c) <= Cum(w, c)
  {
    if c > 0 { SumToAtMost(s, w, c - 1); }
  }

  /** There are enough points everywhere if and only if there are enough points in all. */
  lemma SharesFitIff(w: seq<nat>, total: nat, m: nat)
    requires total == Cum(w, |w|) > 0
    ensures (forall c :: 0 <= c < |w| ==> Shares(w, total, m)[c] <= w[c]) <==> m <= total
  {
    if m <= total {
      forall c | 0 <= c < |w| ensures Shares(w, total, m)[c] <= w[c] {
        SharesAreFair(w, total, m, c);
      }
    } else {
      SharesAddUp(w, total, m);
      if forall c :: 0 <= c < |w| ==> Shares(w, total, m)[c] <= w[c] {
        SumToAtMost(Shares(w, total, m), w, |w|);
        assert false;
      }
    }
  }

  ghost function Ones(n: nat): (r: seq<nat>)
    ensures |r| == n
  {
    seq(n, _ => 1)
  }

  lemma {:induction false} CumOnes(n: nat, c: nat)
    requires c <= n
    ensures Cum(Ones(n), c) == c
  {
    if c > 0 { CumOnes(n, c - 1); }
  }

  /** Without rebalancing, any two shares differ by at most one. */
  lemma EvenSharesDiffer(n: nat, m: nat, b: nat, c: nat)
    requires b < n && c < n
    ensures -1 <= Shares(Ones(n), n, m)[b] - Shares(Ones(n), n, m)[c] <= 1
  {
    SharesAreFair(Ones(n), n, m, b);
    SharesAreFair(Ones(n), n, m, c);
    CloseIntegers(n, m, Shares(Ones(n), n, m)[b], Shares(Ones(n), n, m)[c]);
  }

  lemma CloseIntegers(n: nat, m: nat, x: int, y: int)
    requires m - n < n * x < m + n && m - n < n * y < m + n
    ensures -1 <= x - y <= 1
  {
    if x - y > 1 { MulMonotone(n, y + 2, x); }
    if y - x > 1 { MulMonotone(n, x + 2, y); }
  }

  /** The weights that the shares follow. */
  ghost function Weights(bc: seq<nat>, rebalance: bool): (w: seq<nat>)
    ensures |w| == |bc|
  {
    if rebalance then bc else Ones(|bc|)
  }

  ghost function Allotted(bc: seq<nat>, nc2: nat, rebalance: bool): (r: seq<int>)
    requires bc != [] && (rebalance ==> Cum(bc, |bc|) > 0)
    ensures |r| == |bc|
  {
    CumOnes(|bc|, |bc|);
    var w := Weights(bc, rebalance);
    Shares(w, Cum(w, |w|), nc2)
  }

  /** The shares follow the cluster sizes, or are even: each is the difference between the parts of the `nc2`
      sub-clusters, rounded down, that fall to the clusters up to this one and before it. */
  lemma AllottedIs(bc: seq<nat>, nc2: nat, rebalance: bool, c: nat, before: nat, upTo: nat, total: nat)
    requires c < |bc| && total > 0
    requires before == if rebalance then Sum(bc[..c]) else c
    requires upTo == if rebalance then Sum(bc[..c + 1]) else c + 1
    requires total == if rebalance then Sum(bc) else |bc|
    ensures rebalance ==> Cum(bc, |bc|) > 0
    ensures Allotted(bc, nc2, rebalance)[c] == upTo * nc2 / total - before * nc2 / total
  {
    var w := Weights(bc, rebalance);
    WeightsUpTo(bc, rebalance, c);
    WeightsUpTo(bc, rebalance, c + 1);
    WeightsUpTo(bc, rebalance, |bc|);
    assert bc[..|bc|] == bc;
    ShareIs(w, total, nc2, c, before, upTo);
  }

  lemma WeightsUpTo(bc: seq<nat>, rebalance: bool, c: nat)
    requires c <= |bc|
    ensures Cum(Weights(bc, rebalance), c) == if rebalance then Sum(bc[..c]) else c
  {
    if rebalance { CumIs(bc, c); } else { CumOnes(|bc|, c); }
  }

  lemma ShareIs(w: seq<nat>, total: nat, m: nat, c: nat, before: nat, upTo: nat)
    requires c < |w| && total > 0 && before == Cum(w, c) && upTo == Cum(w, c + 1)
    ensures Shares(w, total, m)[c] == upTo * m / total - before * m / total
  {
  }

  /** Difference a sequence in place; the subtrahend is buffered before the first write. */
  method DifferenceInPlace(a: array<int>)
    modifies a
    ensures a.Length > 0 ==> a[0] == old(a[0])
    ensures forall c :: 0 < c < a.Length ==> a[c] == old(a[c]) - old(a[c - 1])
  {
    if a.Length == 0 { return; }
    var shifted := a[..a.Length - 1];
    var c := 1;
    while c < a.Length
      invariant 1 <= c <= a.Length && a[0] == old(a[0])
      invariant forall h :: 1 <= h < c ==> a[h] == old(a[h]) - old(a[h - 1])
      invariant forall h :: c <= h < a.Length ==> a[h] == old(a[h])
    {
      a[c] := a[c] - shifted[c - 1];
      c := c + 1;
    }
  }

  method EvenShares(nc1: nat, nc2: nat) returns (alloc: seq<int>)
    requires nc1 > 0
    ensures alloc == Shares(Ones(nc1), nc1, nc2)
  {
    var cc := seq(nc1 + 1, c requires 0 <= c <= nc1 => c * nc2 / nc1);
    alloc := seq(nc1, c requires 0 <= c < nc1 => cc[c + 1] - cc[c]);
    forall c | 0 <= c < nc1 ensures alloc[c] == Shares(Ones(nc1), nc1, nc2)[c] {
      CumOnes(nc1, c);
      CumOnes(nc1, c + 1);
    }
  }

  method ProportionalShares(bc: seq<nat>, nc2: nat) returns (alloc: seq<int>)
    requires Cum(bc, |bc|) > 0
    ensures alloc == Shares(bc, Cum(bc, |bc|), nc2)
  {
    var nc1 := |bc|;
    var total := Cum(bc, nc1);
    var all := new int[nc1](c requires 0 <= c < nc1 => CutAt(bc, total, nc2, c + 1));
    DifferenceInPlace(all);
    assert CutAt(bc, total, nc2, 0) == 0 by { assert 0 * nc2 == 0; }
    alloc := all[..];
  }

  /** Share out `nc2` sub-clusters: in proportion to the cluster sizes, or evenly. */
  method AllocateSubclusters(bc: seq<nat>, nc2: nat, rebalance: bool) returns (alloc: seq<int>)
    requires bc != [] && (rebalance ==> Cum(bc, |bc|) > 0)
    ensures alloc == Allotted(bc, nc2, rebalance)
    ensures SumTo(alloc, |alloc|) == nc2
    ensures forall c :: 0 <= c < |alloc| ==> alloc[c] >= 0
  {
    if !rebalance { alloc := EvenShares(|bc|, nc2); } else { alloc := ProportionalShares(bc, nc2); }
    ghost var nc1 := |bc|;
    ghost var w := Weights(bc, rebalance);
    CumOnes(nc1, nc1);
    SharesAddUp(w, Cum(w, nc1), nc2);
    forall c | 0 <= c < nc1 ensures alloc[c] >= 0 {
      SharesAreFair(w, Cum(w, nc1), nc2, c);
    }
  }

  // ---- the points of each cluster ----

  function Is(c: nat): nat -> bool { (x: nat) => x == c }

  function Under(c: nat): nat -> bool { (x: nat) => x < c }

  /** The number of points in each of `nc1` clusters. */
  function BinCount(assign: seq<nat>, nc1: nat): (bc: seq<nat>)
    ensures |bc| == nc1
  {
    seq(nc1, c requires 0 <= c < nc1 => |Filter(Is(c), assign)|)
  }

  lemma BinCountIs(assign: seq<nat>, nc1: nat, c: nat)
    requires c < nc1
    ensures BinCount(assign, nc1)[c] == |set i: nat | i < |assign| && assign[i] == c|
  {
    FilterSize(Is(c), assign, set i: nat | i < |assign| && assign[i] == c);
  }

  lemma {:induction false} CountUnder(assign: seq<nat>, c: nat)
    ensures |Filter(Under(c + 1), assign)| == |Filter(Under(c), assign)| + |Filter(Is(c), assign)|
  {
    if assign != [] { CountUnder(assign[1..], c); }
  }

  /** The points of the clusters before `c` fill the first places. */
  lemma {:induction false} CumIsUnder(assign: seq<nat>, nc1: nat, c: nat)
    requires c <= nc1
    ensures Cum(BinCount(assign, nc1), c) == |Filter(Under(c), assign)|
  {
    if c == 0 {
      FilterNone(Under(0), assign);
    } else {
      CumIsUnder(assign, nc1, c - 1);
      CountUnder(assign, c - 1);
    }
  }

  lemma CountsAddUp(assign: seq<nat>, nc1: nat)
    requires forall i :: 0 <= i < |assign| ==> assign[i] < nc1
    ensures Cum(BinCount(assign, nc1), nc1) == |assign|
  {
    CumIsUnder(assign, nc1, nc1);
    FilterAll(Under(nc1), assign);
  }

  /** `o` lists the points by increasing cluster. */
  ghost predicate IsArgsort(o: seq<nat>, assign: seq<nat>) {
    && IsPermutation(o, |assign|)
    && forall i, j :: 0 <= i <= j < |o| ==> assign[o[i]] <= assign[o[j]]
  }

  /** In sorted order, cluster `c` takes the places from Cum(c) to Cum(c + 1). */
  lemma PlaceOfCluster(assign: seq<nat>, o: seq<nat>, nc1: nat, c: nat)
    requires IsArgsort(o, assign) && c <= nc1
    ensures Cum(BinCount(assign, nc1), c) <= |o|
    ensures forall p {:trigger o[p]} :: 0 <= p < |o| ==> (assign[o[p]] < c <==> p < Cum(BinCount(assign, nc1), c))
  {
    var t := Gather(assign, o);
    GatherPermutes(assign, o);
    CumIsUnder(assign, nc1, c);
    FilterPermuted(Under(c), assign, t);
    CutPlace(Under(c), t);
    forall p | 0 <= p < |o| ensures assign[o[p]] < c <==> p < Cum(BinCount(assign, nc1), c) {
      assert t[p] == assign[o[p]];
    }
  }

  function InCluster(assign: seq<nat>, c: nat): nat -> bool {
    (i: nat) => i < |assign| && assign[i] == c
  }

  /** A slice of the sorted order is all the points of one cluster. */
  lemma SliceIsCluster(assign: seq<nat>, o: seq<nat>, nc1: nat, c: nat)
    requires IsArgsort(o, assign) && c < nc1
    ensures Cum(BinCount(assign, nc1), c) <= Cum(BinCount(assign, nc1), c + 1) <= |o|
    ensures o[Cum(BinCount(assign, nc1), c)..Cum(BinCount(assign, nc1), c + 1)] == Filter(InCluster(assign, c), o)
  {
    var i0, i1 := Cum(BinCount(assign, nc1), c), Cum(BinCount(assign, nc1), c + 1);
    PlaceOfCluster(assign, o, nc1, c);
    PlaceOfCluster(assign, o, nc1, c + 1);
    FilterIsSlice(InCluster(assign, c), o, i0, i1);
  }

  // ---- the algorithm ----

  /** The points of cluster `c`, in the order `o`. */
  ghost function Members<P>(xt: seq<P>, assign: seq<nat>, o: seq<nat>, c: nat): seq<P>
    requires |assign| == |xt| && IsPermutation(o, |xt|)
  {
    FilterSubset(InCluster(assign, c), o, |xt|);
    Gather(xt, Filter<nat>(InCluster(assign, c), o))
  }

  /** Exactly the points that are assigned to the cluster, as the order lists them. */
  lemma MembersAre<P>(xt: seq<P>, assign: seq<nat>, o: seq<nat>, c: nat) returns (places: seq<nat>)
    requires |assign| == |xt| && IsPermutation(o, |xt|)
    ensures |places| == |Members(xt, assign, o, c)| && forall i, j :: 0 <= i < j < |places| ==> places[i] < places[j]
    ensures forall i :: 0 <= i < |places| ==> places[i] < |o| && Members(xt, assign, o, c)[i] == xt[o[places[i]]]
    ensures forall p: nat :: p < |o| ==> (p in places <==> assign[o[p]] == c)
  {
    FilterSubset(InCluster(assign, c), o, |xt|);
    places := FilterPlaces<nat>(InCluster(assign, c), o);
    forall p: nat | p < |o| ensures p in places <==> assign[o[p]] == c {
      assert InCluster(assign, c)(o[p]) <==> assign[o[p]] == c;
    }
  }

  lemma {:induction false} FilterSubset(f: nat -> bool, o: seq<nat>, n: nat)
    requires forall i :: 0 <= i < |o| ==> o[i] < n
    ensures forall i :: 0 <= i < |Filter<nat>(f, o)| ==> Filter<nat>(f, o)[i] < n
  {
    if o != [] { FilterSubset(f, o[1..], n); }
  }

  /** The k-means returns as many centroids as asked for. */
  ghost predicate YieldsAsAsked<P(!new)>(train: (seq<P>, nat) -> seq<Vec>) {
    forall s: seq<P>, k: nat :: |train(s, k)| == k
  }

  /** The points, cluster by cluster. */
  ghost predicate Grouped<P>(xt: seq<P>, assign: seq<nat>, o: seq<nat>, groups: seq<seq<P>>) {
    && |assign| == |xt| && IsPermutation(o, |xt|)
    && forall c {:trigger Members(xt, assign, o, c)} :: 0 <= c < |groups| ==> groups[c] == Members(xt, assign, o, c)
  }

  ghost function Groups<P>(xt: seq<P>, assign: seq<nat>, o: seq<nat>, nc1: nat): (groups: seq<seq<P>>)
    requires |assign| == |xt| && IsPermutation(o, |xt|)
    ensures |groups| == nc1 && Grouped(xt, assign, o, groups)
  {
    seq(nc1, c requires 0 <= c < nc1 => Members(xt, assign, o, c))
  }

  function Stacked(blocks: seq<seq<Vec>>): seq<Vec> {
    if blocks == [] then [] else Stacked(blocks[..|blocks| - 1]) + blocks[|blocks| - 1]
  }

  lemma {:induction false} StackedSize(blocks: seq<seq<Vec>>, alloc: seq<int>)
    requires |blocks| <= |alloc| && forall c :: 0 <= c < |blocks| ==> |blocks[c]| == alloc[c]
    ensures |Stacked(blocks)| == SumTo(alloc, |blocks|)
  {
    if blocks != [] { StackedSize(blocks[..|blocks| - 1], alloc); }
  }

  /** The blocks are stacked in order. */
  lemma {:induction false} StackedAt(blocks: seq<seq<Vec>>, alloc: seq<int>, c: nat, j: nat)
    requires |blocks| <= |alloc| && forall b :: 0 <= b < |blocks| ==> |blocks[b]| == alloc[b]
    requires c < |blocks| && j < |blocks[c]|
    ensures 0 <= SumTo(alloc, c) && SumTo(alloc, c) + j < |Stacked(blocks)|
    ensures Stacked(blocks)[SumTo(alloc, c) + j] == blocks[c][j]
  {
    var last := |blocks| - 1;
    StackedSize(blocks[..last], alloc);
    if c < last {
      StackedAt(blocks[..last], alloc, c, j);
    }
  }

  /** The points of cluster `c1`: the next slice of the sorted order. */
  method NextSubset<P>(xt: seq<P>, assign1: seq<nat>, o: seq<nat>, bc: seq<nat>,
                        ghost groups: seq<seq<P>>, c1: nat, i0: nat) returns (xtsub: seq<P>, i1: nat)
    requires |groups| == |bc| && Grouped(xt, assign1, o, groups) && IsArgsort(o, assign1)
    requires bc == BinCount(assign1, |bc|)
    requires c1 < |bc| && i0 == Cum(bc, c1)
    ensures i1 == Cum(bc, c1 + 1) && |xtsub| == bc[c1]
    ensures xtsub == groups[c1]
  {
    SliceIsCluster(assign1, o, |bc|, c1);
    PlaceOfCluster(assign1, o, |bc|, c1);
    PlaceOfCluster(assign1, o, |bc|, c1 + 1);
    i1 := i0 + bc[c1];
    var subset := o[i0..i1];
    assert forall p {:trigger o[p]} :: i0 <= p < i1 ==> assign1[o[p]] == c1;
    FilterSubset(InCluster(assign1, c1), o, |xt|);
    xtsub := Gather(xt, subset);
    assert xtsub == Members(xt, assign1, o, c1);
  }

  /** Each block of centroids is trained on the points of one cluster. */
  ghost predicate TrainedOn<P>(groups: seq<seq<P>>, alloc: seq<int>, train: (seq<P>, nat) -> seq<Vec>,
                               blocks: seq<seq<Vec>>)
  {
    && |blocks| <= |alloc| && |blocks| <= |groups|
    && forall c :: 0 <= c < |blocks| ==> alloc[c] >= 0 && blocks[c] == train(groups[c], alloc[c])
  }

  /** Train the sub-clusters of every cluster, on the points of that cluster. */
  method TrainSubclusters<P>(xt: seq<P>, assign1: seq<nat>, o: seq<nat>, bc: seq<nat>, ghost groups: seq<seq<P>>,
                             alloc: seq<int>, train: (seq<P>, nat) -> seq<Vec>) returns (r: Result<seq<seq<Vec>>>)
    requires |groups| == |bc| && Grouped(xt, assign1, o, groups)
    requires IsArgsort(o, assign1) && bc == BinCount(assign1, |bc|)
    requires |alloc| == |bc| && forall c :: 0 <= c < |alloc| ==> alloc[c] >= 0
    ensures r.Ok? <==> forall c :: 0 <= c < |bc| ==> alloc[c] <= bc[c]
    ensures r.Ok? ==> |r.value| == |bc| && TrainedOn(groups, alloc, train, r.value)
  {
    var i0, c1 := 0, 0;
    var c2: seq<seq<Vec>> := [];
    while c1 < |bc|
      invariant 0 <= c1 <= |bc| && i0 == Cum(bc, c1) && |c2| == c1
      invariant forall c :: 0 <= c < c1 ==> alloc[c] <= bc[c]
      invariant TrainedOn(groups, alloc, train, c2)
    {
      if bc[c1] < alloc[c1] { return Error("not enough training points"); }
      var xtsub, i1 := NextSubset(xt, assign1, o, bc, groups, c1, i0);
      c2 := c2 + [train(xtsub, alloc[c1])];
      i0, c1 := i1, c1 + 1;
    }
    r := Ok(c2);
  }

  /** Train `nc2` centroids in two levels. `assign1` is the outcome of the first level, `o` sorts
      the points by cluster and `train` is a k-means that needs as many points as centroids.
      Rebalancing can fail only for lack of points in all. */
  method TwoLevelClustering<P(!new)>(xt: seq<P>, nc1: nat, nc2: nat, rebalance: bool, assign1: seq<nat>, o: seq<nat>,
                               train: (seq<P>, nat) -> seq<Vec>)
    returns (r: Result<seq<Vec>>, ghost groups: seq<seq<P>>, ghost blocks: seq<seq<Vec>>)
    requires nc1 > 0 && |assign1| == |xt| && IsArgsort(o, assign1)
    requires forall i :: 0 <= i < |assign1| ==> assign1[i] < nc1
    requires YieldsAsAsked(train)
    ensures |xt| < nc1 ==> r.Error?
    ensures |xt| >= nc1 ==> Cum(BinCount(assign1, nc1), nc1) > 0
    ensures |xt| >= nc1 ==>
              (r.Ok? <==> forall c :: 0 <= c < nc1 ==>
                 Allotted(BinCount(assign1, nc1), nc2, rebalance)[c] <= BinCount(assign1, nc1)[c])
    ensures rebalance ==> (r.Ok? <==> nc1 <= |xt| && nc2 <= |xt|)
    ensures r.Ok? ==> |r.value| == nc2
    ensures |groups| == nc1 && Grouped(xt, assign1, o, groups)
    ensures forall c :: 0 <= c < nc1 ==> groups[c] == Members(xt, assign1, o, c)
    ensures r.Ok? ==> |blocks| == nc1 && r.value == Stacked(blocks)
    ensures r.Ok? ==> forall c :: 0 <= c < nc1 ==>
              var share := Allotted(BinCount(assign1, nc1), nc2, rebalance)[c];
              0 <= share == |blocks[c]| && blocks[c] == train(groups[c], share)
  {
    groups, blocks := Groups(xt, assign1, o, nc1), [];
    if |xt| < nc1 { r := Error("not enough training points"); return; }
    var bc := BinCount(assign1, nc1);
    CountsAddUp(assign1, nc1);
    assert |bc| == nc1 && Cum(bc, |bc|) == |xt|;
    var alloc := AllocateSubclusters(bc, nc2, rebalance);
    if rebalance { SharesFitIff(bc, |xt|, nc2); }
    var c2 := TrainSubclusters(xt, assign1, o, bc, groups, alloc, train);
    if c2.Error? { r := Error(c2.message); return; }
    blocks := c2.value;
    assert forall c :: 0 <= c < nc1 ==> |blocks[c]| == alloc[c];
    StackedSize(blocks, alloc);
    r := Ok(Stacked(c2.value));
  }
}
