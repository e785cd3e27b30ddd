/** The iterations of k-means (faiss/Clustering.cpp), over real numbers: nearest-centroid
    assignment, mean update, refilling of empty clusters. */
module Lloyd {
  import opened Basics
  import opened Sums
  import opened Centroids
  import SplitClusters

  // Nothing is lost by the mean update

  /** The mass of a cluster adds up the weights of its points, or counts them when there are no weights. */
  lemma {:induction false} MassIs(data: Data, assign: seq<nat>, c: nat, parts: seq<real>)
    requires data.Valid() && |parts| <= |assign| == |data.x|
    requires forall i :: 0 <= i < |parts| ==>
               parts[i] == if assign[i] != c then 0.0
                           else if data.weights.Some? then data.weights.value[i] else 1.0
    ensures Mass(data, assign, |parts|, c) == SumReal(parts)
  {
    if parts != [] {
      var last := |parts| - 1;
      MassIs(data, assign, c, parts[..last]);
      SumRealLast(parts[..last], parts[last]);
      assert parts[..last] + [parts[last]] == parts;
    }
  }

  /** The centre of a cluster, coordinate by coordinate: times the mass it gives the weighted sum of the points,
      and without mass it is that sum itself. */
  lemma CenterIs(data: Data, assign: seq<nat>, c: nat, j: nat, parts: seq<real>)
    requires data.Valid() && |parts| == |assign| == |data.x| && j < data.d
    requires forall i :: 0 <= i < |parts| ==>
               parts[i] == if assign[i] != c then 0.0
                           else data.x[i][j] * if data.weights.Some? then data.weights.value[i] else 1.0
    ensures var m := Mass(data, assign, |assign|, c);
            Center(data, assign, c)[j] * (if m == 0.0 then 1.0 else m) == SumReal(parts)
  {
    MomentIs(data, assign, c, j, parts);
    var m, v := Mass(data, assign, |assign|, c), Moments(data, assign, |assign|, c)[j];
    if m != 0.0 {
      assert Center(data, assign, c)[j] == v * (1.0 / m);
      DivideBack(v, m);
    }
  }

  lemma DivideBack(v: real, m: real)
    requires m != 0.0
    ensures v * (1.0 / m) * m == v
  {
    var inverse := 1.0 / m;
    assert v * inverse * m == v * (inverse * m);
  }

  lemma {:induction false} MomentIs(data: Data, assign: seq<nat>, c: nat, j: nat, parts: seq<real>)
    requires data.Valid() && |parts| <= |assign| == |data.x| && j < data.d
    requires forall i :: 0 <= i < |parts| ==>
               parts[i] == if assign[i] != c then 0.0
                           else data.x[i][j] * if data.weights.Some? then data.weights.value[i] else 1.0
    ensures Moment(data, assign, |parts|, c, j) == SumReal(parts)
  {
    if parts != [] {
      var last := |parts| - 1;
      MomentIs(data, assign, c, j, parts[..last]);
      SumRealLast(parts[..last], parts[last]);
      assert parts[..last] + [parts[last]] == parts;
    }
  }

  /** The masses of clusters kFrozen, ..., k - 1 after the first `n` points. */
  ghost function Masses(data: Data, assign: seq<nat>, n: nat, kFrozen: nat, k: nat): (r: seq<real>)
    requires data.Valid() && n <= |assign| == |data.x| && kFrozen <= k
    ensures |r| == k - kFrozen
    ensures forall ci :: 0 <= ci < |r| ==> r[ci] == Mass(data, assign, n, kFrozen + ci)
  {
    seq(k - kFrozen, ci requires 0 <= ci < k - kFrozen => Mass(data, assign, n, kFrozen + ci))
  }

  ghost function MomentsAt(data: Data, assign: seq<nat>, n: nat, kFrozen: nat, k: nat, j: nat): (r: seq<real>)
    requires data.Valid() && n <= |assign| == |data.x| && kFrozen <= k && j < data.d
    ensures |r| == k - kFrozen
    ensures forall ci :: 0 <= ci < |r| ==> r[ci] == Moment(data, assign, n, kFrozen + ci, j)
  {
    seq(k - kFrozen, ci requires 0 <= ci < k - kFrozen => Moment(data, assign, n, kFrozen + ci, j))
  }

  /** The weight of the points among the first `n` that no frozen cluster takes. */
  ghost function FreeMass(data: Data, assign: seq<nat>, n: nat, kFrozen: nat): real
    requires data.Valid() && n <= |assign| == |data.x|
  {
    if n == 0 then 0.0
    else FreeMass(data, assign, n - 1, kFrozen) + if assign[n - 1] >= kFrozen then data.W(n - 1) else 0.0
  }

  ghost function FreeMoment(data: Data, assign: seq<nat>, n: nat, kFrozen: nat, j: nat): real
    requires data.Valid() && n <= |assign| == |data.x| && j < data.d
  {
    if n == 0 then 0.0
    else FreeMoment(data, assign, n - 1, kFrozen, j)
         + if assign[n - 1] >= kFrozen then data.x[n - 1][j] * data.W(n - 1) else 0.0
  }

  lemma {:induction false} MassesAddUp(data: Data, assign: seq<nat>, n: nat, kFrozen: nat, k: nat)
    requires data.Valid() && IsAssignment(data, assign, k) && n <= |assign| && kFrozen <= k
    ensures SumReal(Masses(data, assign, n, kFrozen, k)) == FreeMass(data, assign, n, kFrozen)
  {
    var r := Masses(data, assign, n, kFrozen, k);
    if n == 0 {
      SumRealOfZeros(r);
    } else {
      MassesAddUp(data, assign, n - 1, kFrozen, k);
      var before := Masses(data, assign, n - 1, kFrozen, k);
      var c := assign[n - 1];
      if c >= kFrozen {
        assert r == before[c - kFrozen := before[c - kFrozen] + data.W(n - 1)];
        SumRealUpdate(before, c - kFrozen, before[c - kFrozen] + data.W(n - 1));
      } else {
        assert r == before;
      }
    }
  }

  lemma {:induction false} MomentsAddUp(data: Data, assign: seq<nat>, n: nat, kFrozen: nat, k: nat, j: nat)
    requires data.Valid() && IsAssignment(data, assign, k) && n <= |assign| && kFrozen <= k && j < data.d
    ensures SumReal(MomentsAt(data, assign, n, kFrozen, k, j)) == FreeMoment(data, assign, n, kFrozen, j)
  {
    if n == 0 {
      SumRealOfZeros(MomentsAt(data, assign, n, kFrozen, k, j));
    } else {
      MomentsAddUp(data, assign, n - 1, kFrozen, k, j);
      var before := MomentsAt(data, assign, n - 1, kFrozen, k, j);
      var v := MomentsStep(data, assign, n - 1, kFrozen, k, j);
      if assign[n - 1] >= kFrozen {
        SumRealUpdate(before, assign[n - 1] - kFrozen, before[assign[n - 1] - kFrozen] + v);
      }
    }
  }

  /** Point `n` adds `v` to the sum of its cluster. */
  lemma MomentsStep(data: Data, assign: seq<nat>, n: nat, kFrozen: nat, k: nat, j: nat) returns (v: real)
    requires data.Valid() && IsAssignment(data, assign, k) && n < |assign| && kFrozen <= k && j < data.d
    ensures v == data.x[n][j] * data.W(n)
    ensures var c, before := assign[n] - kFrozen, MomentsAt(data, assign, n, kFrozen, k, j);
            MomentsAt(data, assign, n + 1, kFrozen, k, j) == if c >= 0 then before[c := before[c] + v] else before
  {
    v := data.x[n][j] * data.W(n);
    var before, after := MomentsAt(data, assign, n, kFrozen, k, j), MomentsAt(data, assign, n + 1, kFrozen, k, j);
    assert forall ci :: 0 <= ci < |after| ==>
             after[ci] == before[ci] + if ci == assign[n] - kFrozen then v else 0.0;
  }

  ghost predicate Positive(data: Data)
    requires data.Valid()
  {
    forall i :: 0 <= i < |data.x| ==> data.W(i) > 0.0
  }

  ghost predicate NonNegative(data: Data)
    requires data.Valid()
  {
    forall i :: 0 <= i < |data.x| ==> data.W(i) >= 0.0
  }

  /** With positive weights only a cluster without points weighs nothing. */
  lemma {:induction false} NoMassNoMoment(data: Data, assign: seq<nat>, n: nat, c: nat, j: nat)
    requires data.Valid() && Positive(data) && n <= |assign| == |data.x| && j < data.d
    ensures Mass(data, assign, n, c) >= 0.0
    ensures Mass(data, assign, n, c) == 0.0 ==> Moment(data, assign, n, c, j) == 0.0
  {
    if n > 0 { NoMassNoMoment(data, assign, n - 1, c, j); }
  }

  /** The clusters that are not frozen, as the mean update leaves them. */
  ghost function Updated(data: Data, assign: seq<nat>, kFrozen: nat, k: nat): SplitClusters.Clusters
    requires data.Valid() && |assign| == |data.x| && kFrozen <= k
  {
    SplitClusters.Clusters(Masses(data, assign, |assign|, kFrozen, k),
                           seq(k - kFrozen, ci requires 0 <= ci < k - kFrozen => Center(data, assign, kFrozen + ci)))
  }

  /** Mean update and refilling together conserve the mass of the points that are not in
      frozen clusters... */
  lemma UpdateConservesMass(data: Data, assign: seq<nat>, kFrozen: nat, k: nat, splits: seq<SplitClusters.Move>)
    requires data.Valid() && IsAssignment(data, assign, k) && kFrozen <= k
    requires SplitClusters.CanSplitAll(Updated(data, assign, kFrozen, k), splits)
    ensures SumReal(SplitClusters.SplitAll(Updated(data, assign, kFrozen, k), splits).mass)
            == FreeMass(data, assign, |assign|, kFrozen)
  {
    SplitClusters.SplitAllKeepsMass(Updated(data, assign, kFrozen, k), splits);
    MassesAddUp(data, assign, |assign|, kFrozen, k);
  }

  lemma UpdatedProducts(data: Data, assign: seq<nat>, kFrozen: nat, k: nat, j: nat)
    requires data.Valid() && Positive(data) && IsAssignment(data, assign, k) && kFrozen <= k && j < data.d
    ensures Updated(data, assign, kFrozen, k).Valid(data.d)
    ensures Updated(data, assign, kFrozen, k).Products(data.d, j)
            == MomentsAt(data, assign, |assign|, kFrozen, k, j)
  {
    var s, moments := Updated(data, assign, kFrozen, k), MomentsAt(data, assign, |assign|, kFrozen, k, j);
    forall ci | 0 <= ci < k - kFrozen ensures |s.center[ci]| == data.d {
      assert s.center[ci] == Center(data, assign, kFrozen + ci);
    }
    forall ci | 0 <= ci < k - kFrozen ensures s.Products(data.d, j)[ci] == moments[ci] {
      NoMassNoMoment(data, assign, |assign|, kFrozen + ci, j);
      if s.mass[ci] != 0.0 {
        MassTimesCenter(data, assign, kFrozen + ci, j);
      }
    }
  }

  /** ... and their barycentre. */
  lemma UpdateConservesBarycentre(data: Data, assign: seq<nat>, kFrozen: nat, k: nat,
                                  splits: seq<SplitClusters.Move>, j: nat)
    requires data.Valid() && Positive(data) && IsAssignment(data, assign, k) && kFrozen <= k && j < data.d
    requires SplitClusters.CanSplitAll(Updated(data, assign, kFrozen, k), splits)
    ensures SplitClusters.SplitAll(Updated(data, assign, kFrozen, k), splits).Valid(data.d)
    ensures SumReal(SplitClusters.SplitAll(Updated(data, assign, kFrozen, k), splits).Products(data.d, j))
            == FreeMoment(data, assign, |assign|, kFrozen, j)
  {
    UpdatedProducts(data, assign, kFrozen, k, j);
    SplitClusters.SplitAllKeepsBarycentre(Updated(data, assign, kFrozen, k), splits, data.d, j);
    MomentsAddUp(data, assign, |assign|, kFrozen, k, j);
  }

  lemma MassTimesCenter(data: Data, assign: seq<nat>, c: nat, j: nat)
    requires data.Valid() && |assign| == |data.x| && j < data.d
    requires Mass(data, assign, |assign|, c) != 0.0
    ensures Mass(data, assign, |assign|, c) * Center(data, assign, c)[j] == Moment(data, assign, |assign|, c, j)
  {
    var m, s := Mass(data, assign, |assign|, c), Moment(data, assign, |assign|, c, j);
    var inv := 1.0 / m;
    assert m * inv == 1.0;
    assert Center(data, assign, c)[j] == s * inv;
    assert m * (s * inv) == (m * inv) * s;
  }

  lemma {:induction false} UnweightedFreeMass(data: Data, assign: seq<nat>, n: nat)
    requires data.Valid() && data.weights.None? && n <= |assign| == |data.x|
    ensures FreeMass(data, assign, n, 0) == n as real
  {
    if n > 0 { UnweightedFreeMass(data, assign, n - 1); }
  }

  /** Without weights and frozen centroids, and with more points than clusters, whatever was
      split so far there is a cluster left to split: refilling never gets stuck. */
  lemma RefillingNeverStuck(data: Data, assign: seq<nat>, k: nat, splits: seq<SplitClusters.Move>)
    requires data.Valid() && data.weights.None? && IsAssignment(data, assign, k) && |data.x| > k
    requires SplitClusters.CanSplitAll(Updated(data, assign, 0, k), splits)
    ensures var t := SplitClusters.SplitAll(Updated(data, assign, 0, k), splits);
            && SumReal(t.mass) == |data.x| as real
            && exists c :: 0 <= c < |t.mass| && t.mass[c] > 1.0
  {
    UpdateConservesMass(data, assign, 0, k, splits);
    UnweightedFreeMass(data, assign, |assign|);
    SplitClusters.SplitAllKeepsMass(Updated(data, assign, 0, k), splits);
    SplitClusters.CandidateExists(SplitClusters.SplitAll(Updated(data, assign, 0, k), splits).mass);
  }

  /** As much free weight as clusters that are not frozen is always enough. */
  lemma EnoughFreeMass(data: Data, assign: seq<nat>, kFrozen: nat, k: nat)
    requires data.Valid() && IsAssignment(data, assign, k) && kFrozen <= k
    requires FreeMass(data, assign, |assign|, kFrozen) >= (k - kFrozen) as real
    ensures SplitClusters.CanRefill(Updated(data, assign, kFrozen, k).mass)
  {
    MassesAddUp(data, assign, |assign|, kFrozen, k);
    SplitClusters.EnoughMass(Updated(data, assign, kFrozen, k).mass);
  }

  lemma UnweightedCanRefill(data: Data, assign: seq<nat>, k: nat)
    requires data.Valid() && data.weights.None? && IsAssignment(data, assign, k) && |data.x| >= k
    ensures SplitClusters.CanRefill(Updated(data, assign, 0, k).mass)
  {
    UnweightedFreeMass(data, assign, |assign|);
    EnoughFreeMass(data, assign, 0, k);
  }

  // Descent

  function Squared(x: real): real {
    x * x
  }

  /** Squared Euclidean distance over the first `d` coordinates. */
  function Distance(x: Vec, y: Vec, d: nat): real
    requires d <= |x| && d <= |y|
  {
    if d == 0 then 0.0
    else Distance(x, y, d - 1) + Squared(x[d - 1] - y[d - 1])
  }

  /** The distance adds up the squares of all the differences between coordinates. */
  lemma {:induction false} DistanceIs(x: Vec, y: Vec, squares: seq<real>)
    requires |squares| <= |x| && |squares| <= |y|
    requires forall j :: 0 <= j < |squares| ==> squares[j] == (x[j] - y[j]) * (x[j] - y[j])
    ensures Distance(x, y, |squares|) == SumReal(squares)
  {
    if squares != [] {
      var init := squares[..|squares| - 1];
      DistanceIs(x, y, init);
      SumRealLast(init, squares[|squares| - 1]);
      assert init + [squares[|squares| - 1]] == squares;
    }
  }

  ghost predicate AreCentroids(data: Data, cents: seq<Vec>) {
    forall c :: 0 <= c < |cents| ==> |cents[c]| == data.d
  }

  /** Each point is assigned to one of its nearest centroids. */
  ghost predicate IsNearest(data: Data, cents: seq<Vec>, assign: seq<nat>)
    requires data.Valid() && AreCentroids(data, cents)
  {
    && IsAssignment(data, assign, |cents|)
    && forall i, c :: 0 <= i < |assign| && 0 <= c < |cents| ==>
         Distance(data.x[i], cents[assign[i]], data.d) <= Distance(data.x[i], cents[c], data.d)
  }

  // ---- sums over the points of a cluster ----

  /** The sum of `f` over the points among the first `n` that are in cluster `c`. */
  ghost function SumWhere(f: nat -> real, assign: seq<nat>, n: nat, c: nat): real
    requires n <= |assign|
  {
    if n == 0 then 0.0 else SumWhere(f, assign, n - 1, c) + if assign[n - 1] == c then f(n - 1) else 0.0
  }

  lemma {:induction false} SumWhereSame(f: nat -> real, g: nat -> real, assign: seq<nat>, n: nat, c: nat)
    requires n <= |assign| && forall i: nat :: i < n && assign[i] == c ==> f(i) == g(i)
    ensures SumWhere(f, assign, n, c) == SumWhere(g, assign, n, c)
  {
    if n > 0 { SumWhereSame(f, g, assign, n - 1, c); }
  }

  lemma {:induction false} SumWhereAdd(f: nat -> real, g: nat -> real, h: nat -> real,
                                       assign: seq<nat>, n: nat, c: nat)
    requires n <= |assign| && forall i: nat :: i < n ==> h(i) == f(i) + g(i)
    ensures SumWhere(h, assign, n, c) == SumWhere(f, assign, n, c) + SumWhere(g, assign, n, c)
  {
    if n > 0 { SumWhereAdd(f, g, h, assign, n - 1, c); }
  }

  lemma {:induction false} SumWhereScale(a: real, f: nat -> real, h: nat -> real, assign: seq<nat>, n: nat, c: nat)
    requires n <= |assign| && forall i: nat :: i < n ==> h(i) == a * f(i)
    ensures SumWhere(h, assign, n, c) == a * SumWhere(f, assign, n, c)
  {
    if n > 0 {
      SumWhereScale(a, f, h, assign, n - 1, c);
      assert a * (SumWhere(f, assign, n - 1, c) + f(n - 1)) == a * SumWhere(f, assign, n - 1, c) + a * f(n - 1);
    }
  }

  /** The sum of `f` over the first `n` points and their clusters. */
  ghost function SumAll(f: (nat, nat) -> real, assign: seq<nat>, n: nat): real
    requires n <= |assign|
  {
    if n == 0 then 0.0 else SumAll(f, assign, n - 1) + f(n - 1, assign[n - 1])
  }

  lemma {:induction false} SumAllMonotone(f: (nat, nat) -> real, a: seq<nat>, b: seq<nat>, n: nat)
    requires n <= |a| && n <= |b| && forall i: nat :: i < n ==> f(i, a[i]) <= f(i, b[i])
    ensures SumAll(f, a, n) <= SumAll(f, b, n)
  {
    if n > 0 { SumAllMonotone(f, a, b, n - 1); }
  }

  ghost function InCluster(f: (nat, nat) -> real, c: nat): nat -> real {
    (i: nat) => f(i, c)
  }

  ghost function SumsByCluster(f: (nat, nat) -> real, assign: seq<nat>, n: nat, k: nat): (r: seq<real>)
    requires n <= |assign|
    ensures |r| == k && forall c :: 0 <= c < k ==> r[c] == SumWhere(InCluster(f, c), assign, n, c)
  {
    seq(k, c requires 0 <= c < k => SumWhere(InCluster(f, c), assign, n, c))
  }

  lemma {:induction false} ByCluster(f: (nat, nat) -> real, assign: seq<nat>, n: nat, k: nat)
    requires n <= |assign| && forall i :: 0 <= i < |assign| ==> assign[i] < k
    ensures SumAll(f, assign, n) == SumReal(SumsByCluster(f, assign, n, k))
  {
    var r := SumsByCluster(f, assign, n, k);
    if n == 0 {
      SumRealOfZeros(r);
    } else {
      ByCluster(f, assign, n - 1, k);
      var before, c := SumsByCluster(f, assign, n - 1, k), assign[n - 1];
      var v := before[c] + f(n - 1, c);
      assert r == before[c := v];
      SumRealUpdate(before, c, v);
    }
  }

  // ---- the objective ----

  /** What each point would contribute to the objective, in each cluster. */
  ghost function PointCosts(data: Data, cents: seq<Vec>): (nat, nat) -> real
    requires data.Valid() && AreCentroids(data, cents)
  {
    (i: nat, c: nat) =>
      if i < |data.x| && c < |cents| then data.W(i) * Distance(data.x[i], cents[c], data.d) else 0.0
  }

  /** The k-means objective over the first `n` points, weighted like them. */
  ghost function Objective(data: Data, cents: seq<Vec>, assign: seq<nat>, n: nat): real
    requires data.Valid() && AreCentroids(data, cents) && IsAssignment(data, assign, |cents|) && n <= |assign|
  {
    SumAll(PointCosts(data, cents), assign, n)
  }

  /** The objective adds up, for each point, its weight, if there are weights, times its distance from the centroid
      that it is assigned to. */
  lemma ObjectiveIs(data: Data, cents: seq<Vec>, assign: seq<nat>, n: nat, w: real)
    requires data.Valid() && AreCentroids(data, cents) && IsAssignment(data, assign, |cents|) && n < |assign|
    requires w == if data.weights.Some? then data.weights.value[n] else 1.0
    ensures Objective(data, cents, assign, 0) == 0.0
    ensures Objective(data, cents, assign, n + 1)
            == Objective(data, cents, assign, n) + w * Distance(data.x[n], cents[assign[n]], data.d)
  {
    assert w == data.W(n);
    assert PointCosts(data, cents)(n, assign[n]) == w * Distance(data.x[n], cents[assign[n]], data.d);
  }

  /** What each point would contribute over the first `d` coordinates with the centroid `v`. */
  ghost function CostsTo(data: Data, v: Vec, d: nat): nat -> real
    requires data.Valid() && d <= data.d == |v|
  {
    (i: nat) => if i < |data.x| then data.W(i) * Distance(data.x[i], v, d) else 0.0
  }

  /** What cluster `c` would contribute to the objective if its centroid were `v`. */
  ghost function Cost(data: Data, assign: seq<nat>, c: nat, v: Vec): real
    requires data.Valid() && |assign| == |data.x| && |v| == data.d
  {
    SumWhere(CostsTo(data, v, data.d), assign, |assign|, c)
  }

  ghost function Costs(data: Data, cents: seq<Vec>, assign: seq<nat>): (r: seq<real>)
    requires data.Valid() && AreCentroids(data, cents) && |assign| == |data.x|
    ensures |r| == |cents|
    ensures forall c :: 0 <= c < |r| ==> r[c] == Cost(data, assign, c, cents[c])
  {
    seq(|cents|, c requires 0 <= c < |cents| => Cost(data, assign, c, cents[c]))
  }

  /** The objective is the sum of the costs of the clusters. */
  lemma ObjectiveByCluster(data: Data, cents: seq<Vec>, assign: seq<nat>)
    requires data.Valid() && AreCentroids(data, cents) && IsAssignment(data, assign, |cents|)
    ensures Objective(data, cents, assign, |assign|) == SumReal(Costs(data, cents, assign))
  {
    var f, k := PointCosts(data, cents), |cents|;
    ByCluster(f, assign, |assign|, k);
    var r, s := SumsByCluster(f, assign, |assign|, k), Costs(data, cents, assign);
    forall c | 0 <= c < k ensures r[c] == s[c] {
      SumWhereSame(InCluster(f, c), CostsTo(data, cents[c], data.d), assign, |assign|, c);
    }
    assert r == s;
  }

  /** The part of the points' contributions that comes from coordinate `j`, when the centroid has `v` there. */
  ghost function SquaresTo(data: Data, j: nat, v: real): nat -> real
    requires data.Valid() && j < data.d
  {
    (i: nat) => if i < |data.x| then data.W(i) * Squared(data.x[i][j] - v) else 0.0
  }

  ghost function Spread(data: Data, assign: seq<nat>, c: nat, j: nat, v: real): real
    requires data.Valid() && |assign| == |data.x| && j < data.d
  {
    SumWhere(SquaresTo(data, j, v), assign, |assign|, c)
  }

  /** A cluster's cost over `d` coordinates adds the spread of the last one. */
  lemma CostStep(data: Data, assign: seq<nat>, c: nat, v: Vec, d: nat)
    requires data.Valid() && |assign| == |data.x| && d < data.d == |v|
    ensures SumWhere(CostsTo(data, v, d + 1), assign, |assign|, c)
            == SumWhere(CostsTo(data, v, d), assign, |assign|, c) + Spread(data, assign, c, d, v[d])
  {
    var f, g, h := CostsTo(data, v, d), SquaresTo(data, d, v[d]), CostsTo(data, v, d + 1);
    forall i: nat | i < |assign| ensures h(i) == f(i) + g(i) {
      Distribute(data.W(i), Distance(data.x[i], v, d), Squared(data.x[i][d] - v[d]));
    }
    SumWhereAdd(f, g, h, assign, |assign|, c);
  }

  lemma Distribute(w: real, a: real, b: real)
    ensures w * (a + b) == w * a + w * b
  {
  }

  // ---- the mean is best ----

  ghost function Weights(data: Data): nat -> real
    requires data.Valid()
  {
    (i: nat) => if i < |data.x| then data.W(i) else 0.0
  }

  ghost function WeightedAt(data: Data, j: nat): nat -> real
    requires data.Valid() && j < data.d
  {
    (i: nat) => if i < |data.x| then data.x[i][j] * data.W(i) else 0.0
  }

  lemma {:induction false} MassIsSum(data: Data, assign: seq<nat>, n: nat, c: nat)
    requires data.Valid() && n <= |assign| == |data.x|
    ensures Mass(data, assign, n, c) == SumWhere(Weights(data), assign, n, c)
  {
    if n > 0 { MassIsSum(data, assign, n - 1, c); }
  }

  lemma {:induction false} MomentIsSum(data: Data, assign: seq<nat>, n: nat, c: nat, j: nat)
    requires data.Valid() && n <= |assign| == |data.x| && j < data.d
    ensures Moment(data, assign, n, c, j) == SumWhere(WeightedAt(data, j), assign, n, c)
  {
    if n > 0 { MomentIsSum(data, assign, n - 1, c, j); }
  }

  /** How a spread grows with the centre `v` of points of mass `m` and moment `s`. */
  function Growth(v: real, m: real, s: real): real {
    v * v * m + (-2.0 * v) * s
  }

  lemma GrowthOfOne(x: real, w: real, v: real, before: real, after: real, a: real, b: real)
    requires before == w * Squared(x - 0.0) && after == w * Squared(x - v)
    requires a == v * v * w && b == (-2.0 * v) * (x * w)
    ensures after == before + (a + b)
  {
    assert Squared(x - v) == x * x - 2.0 * v * x + v * v;
    assert x - 0.0 == x;
    Distribute(w, x * x - 2.0 * v * x, v * v);
    Distribute(w, x * x, -2.0 * v * x);
    assert w * (-2.0 * v * x) == (-2.0 * v) * (x * w);
    assert w * (v * v) == v * v * w;
  }

  ghost function Times(a: real, f: nat -> real): nat -> real {
    (i: nat) => a * f(i)
  }

  ghost function Plus(f: nat -> real, g: nat -> real): nat -> real {
    (i: nat) => f(i) + g(i)
  }

  /** A linear combination, added up. */
  lemma SumWhereLinear(f: nat -> real, p: real, w: nat -> real, q: real, x: nat -> real, g: nat -> real,
                       assign: seq<nat>, n: nat, c: nat)
    requires n <= |assign| && forall i: nat :: i < n ==> g(i) == f(i) + Plus(Times(p, w), Times(q, x))(i)
    ensures SumWhere(g, assign, n, c)
            == SumWhere(f, assign, n, c) + (p * SumWhere(w, assign, n, c) + q * SumWhere(x, assign, n, c))
  {
    SumWhereAdd(f, Plus(Times(p, w), Times(q, x)), g, assign, n, c);
    SumWhereAdd(Times(p, w), Times(q, x), Plus(Times(p, w), Times(q, x)), assign, n, c);
    SumWhereScale(p, w, Times(p, w), assign, n, c);
    SumWhereScale(q, x, Times(q, x), assign, n, c);
  }

  lemma PointGrows(data: Data, j: nat, v: real, i: nat)
    requires data.Valid() && j < data.d && i < |data.x|
    ensures SquaresTo(data, j, v)(i)
            == SquaresTo(data, j, 0.0)(i) + Plus(Times(v * v, Weights(data)), Times(-2.0 * v, WeightedAt(data, j)))(i)
  {
    var a, b := Times(v * v, Weights(data)), Times(-2.0 * v, WeightedAt(data, j));
    assert Plus(a, b)(i) == a(i) + b(i);
    GrowthOfOne(data.x[i][j], data.W(i), v, SquaresTo(data, j, 0.0)(i), SquaresTo(data, j, v)(i), a(i), b(i));
  }

  /** How the spread depends on the centre: its growth from centre 0. */
  lemma SpreadGrows(data: Data, assign: seq<nat>, c: nat, j: nat, v: real)
    requires data.Valid() && |assign| == |data.x| && j < data.d
    ensures Spread(data, assign, c, j, v)
            == Spread(data, assign, c, j, 0.0)
               + Growth(v, Mass(data, assign, |assign|, c), Moment(data, assign, |assign|, c, j))
  {
    var n, w, x := |assign|, Weights(data), WeightedAt(data, j);
    MassIsSum(data, assign, n, c);
    MomentIsSum(data, assign, n, c, j);
    SumsGrow(data, assign, c, j, v, v * v, -2.0 * v);
  }

  lemma SumsGrow(data: Data, assign: seq<nat>, c: nat, j: nat, v: real, p: real, q: real)
    requires data.Valid() && |assign| == |data.x| && j < data.d && p == v * v && q == -2.0 * v
    ensures Spread(data, assign, c, j, v)
            == Spread(data, assign, c, j, 0.0)
               + (p * SumWhere(Weights(data), assign, |assign|, c)
                  + q * SumWhere(WeightedAt(data, j), assign, |assign|, c))
  {
    var f, g := SquaresTo(data, j, 0.0), SquaresTo(data, j, v);
    forall i: nat | i < |assign|
      ensures g(i) == f(i) + Plus(Times(p, Weights(data)), Times(q, WeightedAt(data, j)))(i)
    {
      PointGrows(data, j, v, i);
    }
    SumWhereLinear(f, p, Weights(data), q, WeightedAt(data, j), g, assign, |assign|, c);
  }

  lemma SquareIsLeast(m: real, s: real, u: real, v: real)
    requires m > 0.0 && m * u == s
    ensures Growth(u, m, s) <= Growth(v, m, s)
  {
    var d := v - u;
    assert Growth(v, m, s) - Growth(u, m, s) == m * (d * d);
    assert d * d >= 0.0;
  }

  /** The mean minimises the spread. */
  lemma MeanIsBest(data: Data, assign: seq<nat>, c: nat, j: nat, v: real)
    requires data.Valid() && |assign| == |data.x| && j < data.d
    requires Mass(data, assign, |assign|, c) > 0.0
    ensures Spread(data, assign, c, j, Center(data, assign, c)[j]) <= Spread(data, assign, c, j, v)
  {
    var m, s, u := Mass(data, assign, |assign|, c), Moment(data, assign, |assign|, c, j), Center(data, assign, c)[j];
    MassTimesCenter(data, assign, c, j);
    SpreadGrows(data, assign, c, j, u);
    SpreadGrows(data, assign, c, j, v);
    SquareIsLeast(m, s, u, v);
  }

  lemma {:induction false} MeanLowersCostTo(data: Data, assign: seq<nat>, c: nat, v: Vec, d: nat)
    requires data.Valid() && |assign| == |data.x| && d <= data.d == |v|
    requires Mass(data, assign, |assign|, c) > 0.0
    ensures SumWhere(CostsTo(data, Center(data, assign, c), d), assign, |assign|, c)
            <= SumWhere(CostsTo(data, v, d), assign, |assign|, c)
  {
    var u := Center(data, assign, c);
    if d > 0 {
      MeanLowersCostTo(data, assign, c, v, d - 1);
      MeanIsBest(data, assign, c, d - 1, v[d - 1]);
      CostStep(data, assign, c, u, d - 1);
      CostStep(data, assign, c, v, d - 1);
    } else {
      SumWhereSame(CostsTo(data, u, 0), CostsTo(data, v, 0), assign, |assign|, c);
    }
  }

  /** Reassigning every point to a nearest centroid lowers the objective. */
  lemma ReassignmentLowers(data: Data, cents: seq<Vec>, nearest: seq<nat>, assign: seq<nat>)
    requires data.Valid() && NonNegative(data) && AreCentroids(data, cents) && IsNearest(data, cents, nearest)
    requires IsAssignment(data, assign, |cents|)
    ensures Objective(data, cents, nearest, |nearest|) <= Objective(data, cents, assign, |assign|)
  {
    var f := PointCosts(data, cents);
    forall i: nat | i < |assign| ensures f(i, nearest[i]) <= f(i, assign[i]) {
      ScaleMonotone(data.W(i), Distance(data.x[i], cents[nearest[i]], data.d),
                    Distance(data.x[i], cents[assign[i]], data.d));
    }
    SumAllMonotone(f, nearest, assign, |assign|);
  }

  lemma ScaleMonotone(w: real, a: real, b: real)
    requires w >= 0.0 && a <= b
    ensures w * a <= w * b
  {
    assert w * (b - a) >= 0.0;
  }

  /** The mean update without splits: frozen centroids stay, the others move to their means. */
  ghost predicate IsMeanUpdate(data: Data, assign: seq<nat>, kFrozen: nat, cents: seq<Vec>, cents': seq<Vec>)
    requires data.Valid() && |assign| == |data.x|
  {
    && |cents'| == |cents| && kFrozen <= |cents|
    && (forall c :: 0 <= c < kFrozen ==> cents'[c] == cents[c])
    && (forall c :: kFrozen <= c < |cents| ==> cents'[c] == Center(data, assign, c))
    && (forall c :: kFrozen <= c < |cents| ==> Mass(data, assign, |assign|, c) > 0.0)
  }

  lemma UpdateLowers(data: Data, assign: seq<nat>, kFrozen: nat, cents: seq<Vec>, cents': seq<Vec>)
    requires data.Valid() && AreCentroids(data, cents) && AreCentroids(data, cents')
    requires IsAssignment(data, assign, |cents|) && IsMeanUpdate(data, assign, kFrozen, cents, cents')
    ensures Objective(data, cents', assign, |assign|) <= Objective(data, cents, assign, |assign|)
  {
    ObjectiveByCluster(data, cents, assign);
    ObjectiveByCluster(data, cents', assign);
    var s, t := Costs(data, cents', assign), Costs(data, cents, assign);
    forall c | 0 <= c < |cents| ensures s[c] <= t[c] {
      if c >= kFrozen { MeanLowersCostTo(data, assign, c, cents[c], data.d); }
    }
    SumRealMonotone(s, t);
  }

  /** Three points at 0, with one of two centroids right there. */
  ghost function Huddle(weights: Option<seq<real>>): Data {
    Data(1, [[0.0], [0.0], [0.0]], weights)
  }

  lemma HuddleIsNearest(weights: Option<seq<real>>)
    requires weights.Some? ==> |weights.value| == 3
    ensures IsNearest(Huddle(weights), [[0.0], [1.0]], [0, 0, 0])
  {
    var x, cents := [0.0], [[0.0], [1.0]];
    assert Distance(x, cents[0], 0) == Distance(x, cents[1], 0) == 0.0;
    assert Distance(x, cents[0], 1) == 0.0 && Distance(x, cents[1], 1) == 1.0;
  }

  /** With frozen centroids refilling can fail: a frozen one may take all the points, ... */
  lemma FrozenCanGetStuck()
    ensures IsNearest(Huddle(None), [[0.0], [1.0]], [0, 0, 0])
    ensures !SplitClusters.CanRefill(Updated(Huddle(None), [0, 0, 0], 1, 2).mass)
  {
    HuddleIsNearest(None);
    HuddleMass(None, 3, 1);
    assert Updated(Huddle(None), [0, 0, 0], 1, 2).mass == [0.0];
    NotOneSplit([0.0], 0);
  }

  /** ... and with weights below 1 it can fail with nothing frozen. */
  lemma WeightedCanGetStuck()
    ensures IsNearest(Huddle(Some([0.25, 0.25, 0.25])), [[0.0], [1.0]], [0, 0, 0])
    ensures !SplitClusters.CanRefill(Updated(Huddle(Some([0.25, 0.25, 0.25])), [0, 0, 0], 0, 2).mass)
  {
    var weights := Some([0.25, 0.25, 0.25]);
    HuddleIsNearest(weights);
    HuddleMass(weights, 3, 1);
    HuddleMass(weights, 3, 0);
    assert Updated(Huddle(weights), [0, 0, 0], 0, 2).mass == [0.75, 0.0];
    NotOneSplit([0.75, 0.0], 1);
  }

  lemma {:induction false} HuddleMass(weights: Option<seq<real>>, n: nat, c: nat)
    requires n <= 3 && (weights.Some? ==> weights.value == [0.25, 0.25, 0.25])
    ensures Mass(Huddle(weights), [0, 0, 0], n, c)
            == if c != 0 then 0.0 else if weights.None? then n as real else 0.25 * n as real
  {
    if n > 0 { HuddleMass(weights, n - 1, c); }
  }

  /** An empty last cluster and none above 1. */
  lemma NotOneSplit(mass: seq<real>, last: nat)
    requires |mass| == last + 1 && mass[last] == 0.0 && forall c :: 0 <= c < |mass| ==> mass[c] <= 1.0
    ensures !SplitClusters.CanRefill(mass)
  {
    SplitClusters.NoCaps(mass);
  }

  /** Lloyd's descent: after an iteration without splits, the next iteration's objective is at
      most this one's. */
  lemma Descent(data: Data, kFrozen: nat, cents: seq<Vec>, assign: seq<nat>, cents': seq<Vec>, assign': seq<nat>)
    requires data.Valid() && NonNegative(data) && AreCentroids(data, cents) && AreCentroids(data, cents')
    requires IsNearest(data, cents, assign) && IsMeanUpdate(data, assign, kFrozen, cents, cents')
    requires IsNearest(data, cents', assign')
    ensures Objective(data, cents', assign', |assign'|) <= Objective(data, cents, assign, |assign|)
  {
    UpdateLowers(data, assign, kFrozen, cents, cents');
    ReassignmentLowers(data, cents', assign', assign);
  }

  /** Two points with weights 1 and 3, and one centroid. */
  ghost function Pair(): Data {
    Data(1, [[0.0], [1.0]], Some([1.0, 3.0]))
  }

  /** With weights the objective that is reported, which ignores them, can rise after an update without
      splits: here from 0.5 to 0.625. */
  lemma ReportedMayRise(cents: seq<Vec>, cents': seq<Vec>)
    requires cents == [[0.5]] && cents' == [[0.75]]
    ensures IsNearest(Pair(), cents, [0, 0]) && IsNearest(Pair(), cents', [0, 0])
    ensures IsMeanUpdate(Pair(), [0, 0], 0, cents, cents')
    ensures Objective(Pair().Plain(), cents, [0, 0], 2) == 0.5
    ensures Objective(Pair().Plain(), cents', [0, 0], 2) == 0.625
  {
    PairMean();
    PairObjective(cents, 0.5);
    PairObjective(cents', 0.75);
  }

  lemma PairMean()
    ensures Mass(Pair(), [0, 0], 2, 0) == 4.0 && Center(Pair(), [0, 0], 0) == [0.75]
  {
    var data, assign := Pair(), [0, 0];
    assert Mass(data, assign, 1, 0) == 1.0;
    assert Moment(data, assign, 1, 0, 0) == 0.0;
    assert Moment(data, assign, 2, 0, 0) == 3.0;
    assert Center(data, assign, 0)[0] == 3.0 * (1.0 / 4.0);
  }

  lemma PairObjective(cents: seq<Vec>, v: real)
    requires cents == [[v]]
    ensures Objective(Pair().Plain(), cents, [0, 0], 2) == v * v + (1.0 - v) * (1.0 - v)
  {
    var data, x, y, c := Pair().Plain(), [0.0], [1.0], [v];
    assert Distance(x, c, 0) == Distance(y, c, 0) == 0.0;
    assert Distance(x, c, 1) == v * v && Distance(y, c, 1) == (1.0 - v) * (1.0 - v);
    var f := PointCosts(data, cents);
    OneTimes(data.W(0), Distance(x, c, 1));
    OneTimes(data.W(1), Distance(y, c, 1));
    assert f(0, 0) == v * v && f(1, 0) == (1.0 - v) * (1.0 - v);
    assert SumAll(f, [0, 0], 1) == f(0, 0);
  }

  lemma OneTimes(w: real, a: real)
    requires w == 1.0
    ensures w * a == a
  {
  }
}
