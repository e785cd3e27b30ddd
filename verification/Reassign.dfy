/** Refilling of empty clusters in the k-means written in Python (contrib/clustering.py): the
    clusters to split are drawn with replacement. */
module Reassign {
  import opened Basics

  ghost function Total(h: seq<int>): int {
    if h == [] then 0 else Total(h[..|h| - 1]) + h[|h| - 1]
  }

  lemma {:induction false} TotalUpdate(h: seq<int>, i: nat, v: int)
    requires i < |h|
    ensures Total(h[i := v]) == Total(h) - h[i] + v
  {
    var last := |h| - 1;
    if i == last {
      assert h[i := v][..last] == h[..last];
    } else {
      TotalUpdate(h[..last], i, v);
      assert h[i := v][..last] == h[..last][i := v];
    }
  }

  lemma {:induction false} TotalAtMost(h: seq<int>)
    requires forall c :: 0 <= c < |h| ==> h[c] <= 1
    ensures Total(h) <= |h|
    ensures Total(h) == |h| ==> forall c :: 0 <= c < |h| ==> h[c] == 1
  {
    if h != [] {
      var last := |h| - 1;
      TotalAtMost(h[..last]);
      assert forall c :: 0 <= c < last ==> h[c] == h[..last][c];
    }
  }

  /** Half of the points of `cj` go to the empty cluster `ci`. */
  function Halve(h: seq<int>, ci: nat, cj: nat): (r: seq<int>)
    requires ci < |h| && cj < |h|
    ensures |r| == |h|
  {
    h[ci := h[cj] / 2][cj := h[cj] - h[cj] / 2]
  }

  ghost predicate NonNegative(h: seq<int>) {
    forall c :: 0 <= c < |h| ==> h[c] >= 0
  }

  lemma MoveConserves(h: seq<int>, ci: nat, cj: nat, moved: nat)
    requires ci < |h| && cj < |h| && ci != cj && h[ci] == 0 && NonNegative(h) && moved <= h[cj]
    ensures Total(h[ci := moved][cj := h[cj] - moved]) == Total(h)
    ensures NonNegative(h[ci := moved][cj := h[cj] - moved])
  {
    var mid := h[ci := moved];
    TotalUpdate(h, ci, moved);
    TotalUpdate(mid, cj, h[cj] - moved);
  }

  /** One split moves points without losing any, and empties no cluster. */
  lemma HalveConserves(h: seq<int>, ci: nat, cj: nat)
    requires ci < |h| && cj < |h| && ci != cj && h[ci] == 0 && NonNegative(h)
    ensures Total(Halve(h, ci, cj)) == Total(h) && NonNegative(Halve(h, ci, cj))
    ensures forall c :: 0 <= c < |h| && h[c] > 0 ==> Halve(h, ci, cj)[c] > 0
  {
    var moved := h[cj] / 2;
    MoveConserves(h, ci, cj, moved);
    assert h[cj] > 0 ==> h[cj] - moved > 0;
  }

  /** The draws of a pass: clusters that hold more than one point when the pass begins. */
  ghost predicate IsDraw(h: seq<int>, empties: seq<nat>, cjs: seq<nat>) {
    && |cjs| <= |empties|
    && (forall i :: 0 <= i < |empties| ==> empties[i] < |h| && h[empties[i]] == 0)
    && (forall i, j :: 0 <= i < j < |empties| ==> empties[i] != empties[j])
    && (forall i :: 0 <= i < |cjs| ==> cjs[i] < |h| && h[cjs[i]] > 1)
  }

  /** The cluster sizes after `n` splits of a pass. */
  ghost function AfterSplits(h: seq<int>, empties: seq<nat>, cjs: seq<nat>, n: nat): (r: seq<int>)
    requires IsDraw(h, empties, cjs) && n <= |cjs|
    ensures |r| == |h|
  {
    if n == 0 then h else Halve(AfterSplits(h, empties, cjs, n - 1), empties[n - 1], cjs[n - 1])
  }

  /** One split of a pass: the next of the empty clusters gets half of the points of the cluster drawn for it, rounded
      down, and that one keeps the others. */
  lemma SplitMeans(h: seq<int>, empties: seq<nat>, cjs: seq<nat>, n: nat)
    requires IsDraw(h, empties, cjs) && NonNegative(h) && n < |cjs|
    ensures var was, now := AfterSplits(h, empties, cjs, n), AfterSplits(h, empties, cjs, n + 1);
            && AfterSplits(h, empties, cjs, 0) == h && empties[n] != cjs[n] && was[empties[n]] == 0
            && now[empties[n]] + now[cjs[n]] == was[cjs[n]] && now[empties[n]] <= now[cjs[n]] <= now[empties[n]] + 1
            && forall c :: 0 <= c < |h| && c != empties[n] && c != cjs[n] ==> now[c] == was[c]
  {
    PassKeeps(h, empties, cjs, n);
  }

  /** During a pass the clusters still to be refilled stay empty, and nothing is lost. */
  lemma {:induction false} PassKeeps(h: seq<int>, empties: seq<nat>, cjs: seq<nat>, n: nat)
    requires IsDraw(h, empties, cjs) && NonNegative(h) && n <= |cjs|
    ensures NonNegative(AfterSplits(h, empties, cjs, n)) && Total(AfterSplits(h, empties, cjs, n)) == Total(h)
    ensures forall c :: 0 <= c < |h| && h[c] > 0 ==> AfterSplits(h, empties, cjs, n)[c] > 0
    ensures forall i :: n <= i < |empties| ==> AfterSplits(h, empties, cjs, n)[empties[i]] == 0
  {
    if n > 0 {
      PassKeeps(h, empties, cjs, n - 1);
      HalveConserves(AfterSplits(h, empties, cjs, n - 1), empties[n - 1], cjs[n - 1]);
    }
  }

  // ---- when a pass leaves clusters empty ----

  ghost function Power2(m: nat): nat {
    if m == 0 then 1 else 2 * Power2(m - 1)
  }

  /** How often `c` is among the first `n` draws. */
  ghost function Drawn(cjs: seq<nat>, n: nat, c: nat): nat
    requires n <= |cjs|
  {
    if n == 0 then 0 else Drawn(cjs, n - 1, c) + if cjs[n - 1] == c then 1 else 0
  }

  /** What is left of `x` points after `m` splits. */
  ghost function Remaining(x: int, m: nat): int {
    if m == 0 then x else Remaining(x, m - 1) - Remaining(x, m - 1) / 2
  }

  lemma {:induction false} RemainingAtMost(x: int, m: nat, t: nat)
    requires x >= 0
    ensures Remaining(x, m) >= 0
    ensures Remaining(x, m) <= t <==> x <= t * Power2(m)
  {
    if m > 0 {
      RemainingAtMost(x, m - 1, 2 * t);
      assert t * Power2(m) == 2 * t * Power2(m - 1);
    }
  }

  /** A cluster that had points loses half of them at each of its draws... */
  lemma {:induction false} SizeOfDrawn(h: seq<int>, empties: seq<nat>, cjs: seq<nat>, n: nat, c: nat)
    requires IsDraw(h, empties, cjs) && n <= |cjs| && c < |h| && h[c] > 0
    ensures AfterSplits(h, empties, cjs, n)[c] == Remaining(h[c], Drawn(cjs, n, c))
  {
    if n > 0 { SizeOfDrawn(h, empties, cjs, n - 1, c); }
  }

  /** ... and a refilled one keeps its points to the end of the pass. */
  lemma {:induction false} SizeOfRefilled(h: seq<int>, empties: seq<nat>, cjs: seq<nat>, n: nat, i: nat)
    requires IsDraw(h, empties, cjs) && i < n <= |cjs|
    ensures AfterSplits(h, empties, cjs, n)[empties[i]] == Remaining(h[cjs[i]], Drawn(cjs, i, cjs[i])) / 2
  {
    if i == n - 1 {
      SizeOfDrawn(h, empties, cjs, i, cjs[i]);
    } else {
      SizeOfRefilled(h, empties, cjs, n - 1, i);
    }
  }

  lemma {:induction false} DrawnGrows(cjs: seq<nat>, m: nat, n: nat, c: nat)
    requires m <= n <= |cjs|
    ensures Drawn(cjs, m, c) <= Drawn(cjs, n, c)
  {
    if m < n { DrawnGrows(cjs, m, n - 1, c); }
  }

  /** The last draw of a cluster. */
  lemma {:induction false} LastDraw(cjs: seq<nat>, n: nat, c: nat)
    requires n <= |cjs| && Drawn(cjs, n, c) > 0
    ensures exists i: nat :: i < n && cjs[i] == c && Drawn(cjs, i, c) == Drawn(cjs, n, c) - 1
  {
    if cjs[n - 1] == c { assert Drawn(cjs, n - 1, c) == Drawn(cjs, n, c) - 1; } else { LastDraw(cjs, n - 1, c); }
  }

  lemma {:induction false} PowerGrows(m: nat, n: nat)
    requires m <= n
    ensures 0 < Power2(m) <= Power2(n)
  {
    if m < n { PowerGrows(m, n - 1); } else if m > 0 { PowerGrows(m - 1, m - 1); }
  }

  ghost predicate AllFilled(h: seq<int>) {
    forall c: nat :: c < |h| ==> h[c] > 0
  }

  /** No cluster is drawn more often than its size allows: m draws take a size above 2^(m-1). */
  ghost predicate DrawsAllowed(h: seq<int>, cjs: seq<nat>) {
    forall c: nat :: c < |h| && Drawn(cjs, |cjs|, c) > 0 ==> h[c] > Power2(Drawn(cjs, |cjs|, c) - 1)
  }

  /** All the clusters that have had their turn in a pass hold points. */
  ghost predicate TurnsFilled(h: seq<int>, empties: seq<nat>, cjs: seq<nat>)
    requires IsDraw(h, empties, cjs)
  {
    forall i :: 0 <= i < |cjs| ==> AfterSplits(h, empties, cjs, |cjs|)[empties[i]] > 0
  }

  /** A pass fills every cluster that has its turn if and only if no cluster is drawn too often. */
  lemma TurnsFilledIff(h: seq<int>, empties: seq<nat>, cjs: seq<nat>)
    requires IsDraw(h, empties, cjs) && NonNegative(h)
    ensures TurnsFilled(h, empties, cjs) <==> DrawsAllowed(h, cjs)
  {
    var n := |cjs|;
    if TurnsFilled(h, empties, cjs) {
      forall c: nat | c < |h| && Drawn(cjs, n, c) > 0 ensures h[c] > Power2(Drawn(cjs, n, c) - 1) {
        LastDraw(cjs, n, c);
        var i: nat :| i < n && cjs[i] == c && Drawn(cjs, i, c) == Drawn(cjs, n, c) - 1;
        SizeOfRefilled(h, empties, cjs, n, i);
        RemainingAtMost(h[c], Drawn(cjs, i, c), 1);
      }
    }
    if DrawsAllowed(h, cjs) {
      forall i | 0 <= i < n ensures AfterSplits(h, empties, cjs, n)[empties[i]] > 0 {
        SizeOfRefilled(h, empties, cjs, n, i);
        RefilledIsNotEmpty(h, cjs, i);
      }
    }
  }

  /** No cluster is empty that is not waiting to be refilled. */
  ghost predicate NoneLost(h: seq<int>, empties: seq<nat>) {
    forall c: nat :: c < |h| && h[c] == 0 ==> c in empties
  }

  /** A pass loses a cluster if and only if it draws another one too often; a lost cluster stays so. */
  lemma PassLosesIff(h: seq<int>, empties: seq<nat>, cjs: seq<nat>)
    requires IsDraw(h, empties, cjs) && NonNegative(h)
    ensures NoneLost(AfterSplits(h, empties, cjs, |cjs|), empties[|cjs|..])
            <==> NoneLost(h, empties) && DrawsAllowed(h, cjs)
  {
    TurnsFilledIff(h, empties, cjs);
    if NoneLost(AfterSplits(h, empties, cjs, |cjs|), empties[|cjs|..]) { NoneWasLost(h, empties, cjs); }
    if NoneLost(h, empties) && TurnsFilled(h, empties, cjs) { NoneGetsLost(h, empties, cjs); }
  }

  lemma NoneWasLost(h: seq<int>, empties: seq<nat>, cjs: seq<nat>)
    requires IsDraw(h, empties, cjs) && NonNegative(h)
    requires NoneLost(AfterSplits(h, empties, cjs, |cjs|), empties[|cjs|..])
    ensures NoneLost(h, empties) && TurnsFilled(h, empties, cjs)
  {
    var n, after, rest := |cjs|, AfterSplits(h, empties, cjs, |cjs|), empties[|cjs|..];
    PassKeeps(h, empties, cjs, n);
    forall i | 0 <= i < n ensures after[empties[i]] > 0 {
      assert empties[i] !in rest;
    }
    forall c: nat | c < |h| && h[c] == 0 ensures c in empties {
      if c !in empties { StaysLost(h, empties, cjs, n, c); }
      assert c in rest ==> c in empties;
    }
  }

  lemma NoneGetsLost(h: seq<int>, empties: seq<nat>, cjs: seq<nat>)
    requires IsDraw(h, empties, cjs) && NonNegative(h)
    requires NoneLost(h, empties) && TurnsFilled(h, empties, cjs)
    ensures NoneLost(AfterSplits(h, empties, cjs, |cjs|), empties[|cjs|..])
  {
    var n, after := |cjs|, AfterSplits(h, empties, cjs, |cjs|);
    PassKeeps(h, empties, cjs, n);
    forall c: nat | c < |h| && after[c] == 0 ensures c in empties[n..] {
      assert h[c] == 0;
      var i: nat :| i < |empties| && empties[i] == c;
      assert i >= n;
      InTail(empties, n, i);
    }
  }

  lemma InTail<T>(s: seq<T>, n: nat, i: nat)
    requires n <= i < |s|
    ensures s[i] in s[n..]
  {
    assert s[n..][i - n] == s[i];
  }

  lemma {:induction false} StaysLost(h: seq<int>, empties: seq<nat>, cjs: seq<nat>, n: nat, c: nat)
    requires IsDraw(h, empties, cjs) && n <= |cjs| && c < |h| && h[c] == 0 && c !in empties
    ensures AfterSplits(h, empties, cjs, n)[c] == 0
  {
    if n > 0 { StaysLost(h, empties, cjs, n - 1, c); }
  }

  /** A pass with a draw for every empty cluster leaves none empty if and only if no cluster is
      drawn too often. */
  lemma PassFillsIff(h: seq<int>, empties: seq<nat>, cjs: seq<nat>)
    requires IsDraw(h, empties, cjs) && NonNegative(h) && |cjs| == |empties| && NoneLost(h, empties)
    ensures AllFilled(AfterSplits(h, empties, cjs, |cjs|)) <==> DrawsAllowed(h, cjs)
  {
    PassKeeps(h, empties, cjs, |cjs|);
    PassLosesIff(h, empties, cjs);
    FilledIffNoneLost(AfterSplits(h, empties, cjs, |cjs|));
  }

  lemma FilledIffNoneLost(h: seq<int>)
    requires NonNegative(h)
    ensures AllFilled(h) <==> NoneLost(h, [])
  {
  }

  /** Whatever is drawn for them, the empty clusters are filled in one pass. */
  ghost predicate EveryDrawFills(h: seq<int>, empties: seq<nat>) {
    forall cjs :: IsDraw(h, empties, cjs) && |cjs| == |empties| ==> AllFilled(AfterSplits(h, empties, cjs, |cjs|))
  }

  /** Every cluster above 1 can take `m` draws. */
  ghost predicate AllTake(h: seq<int>, m: nat) {
    m > 0 ==> forall c: nat :: c < |h| && h[c] > 1 ==> h[c] > Power2(m - 1)
  }

  /** Whatever is drawn, a pass with enough clusters to split leaves no cluster empty if and only if every
      cluster above 1 can take all the draws. */
  lemma EveryDrawFillsIff(h: seq<int>, empties: seq<nat>)
    requires IsDraw(h, empties, []) && NonNegative(h) && NoneLost(h, empties) && 0 < |empties| <= Splittable(h)
    ensures EveryDrawFills(h, empties) <==> AllTake(h, |empties|)
  {
    var m := |empties|;
    if AllTake(h, m) {
      forall cjs | IsDraw(h, empties, cjs) && |cjs| == m ensures AllFilled(AfterSplits(h, empties, cjs, |cjs|)) {
        LargeTakeAll(h, empties, cjs);
        PassFillsIff(h, empties, cjs);
      }
    }
    if EveryDrawFills(h, empties) {
      forall c: nat | c < |h| && h[c] > 1 ensures h[c] > Power2(m - 1) {
        SameDraws(h, empties, c);
        var cjs := seq(m, _ => c);
        PassFillsIff(h, empties, cjs);
      }
    }
  }

  lemma LargeTakeAll(h: seq<int>, empties: seq<nat>, cjs: seq<nat>)
    requires IsDraw(h, empties, cjs) && |cjs| > 0
    requires forall c :: 0 <= c < |h| && h[c] > 1 ==> h[c] > Power2(|cjs| - 1)
    ensures DrawsAllowed(h, cjs)
  {
    var m := |cjs|;
    forall c: nat | c < |h| && Drawn(cjs, m, c) > 0 ensures h[c] > Power2(Drawn(cjs, m, c) - 1) {
      LastDraw(cjs, m, c);
      DrawnAtMost(cjs, m, c);
      PowerGrows(Drawn(cjs, m, c) - 1, m - 1);
    }
  }

  /** The draws that all go to cluster `c`. */
  lemma SameDraws(h: seq<int>, empties: seq<nat>, c: nat)
    requires IsDraw(h, empties, []) && empties != [] && c < |h| && h[c] > 1
    ensures IsDraw(h, empties, seq(|empties|, _ => c))
    ensures DrawsAllowed(h, seq(|empties|, _ => c)) ==> h[c] > Power2(|empties| - 1)
  {
    DrawnAlways(seq(|empties|, _ => c), |empties|, c);
  }

  lemma {:induction false} DrawnAtMost(cjs: seq<nat>, n: nat, c: nat)
    requires n <= |cjs|
    ensures Drawn(cjs, n, c) <= n
  {
    if n > 0 { DrawnAtMost(cjs, n - 1, c); }
  }

  lemma {:induction false} DrawnAlways(cjs: seq<nat>, n: nat, c: nat)
    requires n <= |cjs| && forall i :: 0 <= i < |cjs| ==> cjs[i] == c
    ensures Drawn(cjs, n, c) == n
  {
    if n > 0 { DrawnAlways(cjs, n - 1, c); }
  }

  lemma RefilledIsNotEmpty(h: seq<int>, cjs: seq<nat>, i: nat)
    requires i < |cjs| && cjs[i] < |h| && h[cjs[i]] >= 0
    requires Drawn(cjs, |cjs|, cjs[i]) > 0 ==> h[cjs[i]] > Power2(Drawn(cjs, |cjs|, cjs[i]) - 1)
    ensures Remaining(h[cjs[i]], Drawn(cjs, i, cjs[i])) / 2 > 0
  {
    var c := cjs[i];
    DrawnGrows(cjs, i + 1, |cjs|, c);
    PowerGrows(Drawn(cjs, i, c), Drawn(cjs, |cjs|, c) - 1);
    RemainingAtMost(h[c], Drawn(cjs, i, c), 1);
  }

  /** Unlike its counterpart in C++, a pass can end with an empty cluster although there are more
      points than clusters. */
  lemma EmptyClusterMayRemain()
    ensures IsDraw([2, 4, 0, 0], [2, 3], [0, 0])
    ensures Total([2, 4, 0, 0]) > 4 && AfterSplits([2, 4, 0, 0], [2, 3], [0, 0], 2) == [1, 4, 1, 0]
  {
    var a, b, c, h := [2], [2, 4], [2, 4, 0], [2, 4, 0, 0];
    assert a[..0] == [] && b[..1] == a && c[..2] == b && h[..3] == c;
    assert Total(a) == 2;
    assert Total(b) == 6;
    assert Total(c) == 6;
    assert AfterSplits(h, [2, 3], [0, 0], 1) == [1, 4, 1, 0];
  }

  // ---- the algorithm ----

  function EmptyOnes(h: seq<int>, n: nat): seq<nat>
    requires n <= |h|
  {
    if n == 0 then []
    else EmptyOnes(h, n - 1) + if h[n - 1] == 0 then [n - 1] else []
  }

  /** `EmptyOnes` lists the empty clusters, in order. */
  lemma {:induction false} EmptyOnesAre(h: seq<int>, n: nat)
    requires n <= |h|
    ensures forall i :: 0 <= i < |EmptyOnes(h, n)| ==> EmptyOnes(h, n)[i] < n && h[EmptyOnes(h, n)[i]] == 0
    ensures forall i, j :: 0 <= i < j < |EmptyOnes(h, n)| ==> EmptyOnes(h, n)[i] < EmptyOnes(h, n)[j]
    ensures forall c: nat :: c < n && h[c] == 0 ==> c in EmptyOnes(h, n)
  {
    if n > 0 { EmptyOnesAre(h, n - 1); }
  }

  lemma EmptyOnesAreDraws(h: seq<int>)
    ensures IsDraw(h, EmptyOnes(h, |h|), []) && NoneLost(h, EmptyOnes(h, |h|))
  {
    EmptyOnesAre(h, |h|);
  }

  /** The number of clusters that can be split. */
  function Splittable(h: seq<int>): nat {
    if h == [] then 0 else Splittable(h[..|h| - 1]) + if h[|h| - 1] > 1 then 1 else 0
  }

  lemma {:induction false} SplittableIs(h: seq<int>, chosen: set<nat>)
    requires forall c: nat :: c in chosen <==> c < |h| && h[c] > 1
    ensures Splittable(h) == |chosen|
  {
    if h == [] {
      assert chosen == {};
    } else {
      var last := |h| - 1;
      SplittableIs(h[..last], chosen - {last});
      assert last in chosen <==> h[last] > 1;
    }
  }

  lemma {:induction false} SplittableIff(h: seq<int>)
    ensures Splittable(h) > 0 <==> exists c :: 0 <= c < |h| && h[c] > 1
  {
    if h != [] {
      SplittableIff(h[..|h| - 1]);
      assert forall c :: 0 <= c < |h| - 1 ==> h[c] == h[..|h| - 1][c];
    }
  }

  /** A source of draws among the clusters that can be split, with replacement: for each pass, the
      current sizes and the number of draws. */
  ghost predicate IsSource(rs: (nat, seq<int>, nat) -> seq<nat>) {
    forall pass: nat, h: seq<int>, n: nat {:trigger rs(pass, h, n)} :: Splittable(h) > 0 ==>
      |rs(pass, h, n)| == n
      && forall i :: 0 <= i < n ==> rs(pass, h, n)[i] < |h| && h[rs(pass, h, n)[i]] > 1
  }

  /** One pass: the sizes and the empty clusters that it begins with, and the clusters drawn. */
  datatype Pass = Pass(h: seq<int>, empties: seq<nat>, cjs: seq<nat>)
  {
    ghost predicate Valid() {
      && NonNegative(h) && IsDraw(h, empties, cjs)
      && 0 < |cjs| == if Splittable(h) < |empties| then Splittable(h) else |empties|
    }

    ghost function After(): seq<int>
      requires Valid()
    {
      AfterSplits(h, empties, cjs, |cjs|)
    }

    ghost function Rest(): seq<nat>
      requires Valid()
    {
      empties[|cjs|..]
    }
  }

  /** A pass makes as many draws as there are clusters to refill, or as there are clusters to split when these are
      fewer; its draws fill the first clusters in line, and the others wait. */
  lemma PassMeans(p: Pass, chosen: set<nat>)
    requires p.Valid() && forall c: nat :: c in chosen <==> c < |p.h| && p.h[c] > 1
    ensures 0 < |p.cjs| == if |chosen| < |p.empties| then |chosen| else |p.empties|
    ensures forall i :: 0 <= i < |p.cjs| ==> p.cjs[i] in chosen
    ensures p.empties == p.empties[..|p.cjs|] + p.Rest() && p.After() == AfterSplits(p.h, p.empties, p.cjs, |p.cjs|)
  {
    SplittableIs(p.h, chosen);
  }

  /** Consecutive passes, from the sizes `h`. */
  ghost predicate ArePasses(h: seq<int>, passes: seq<Pass>) {
    && (forall i {:trigger passes[i]} :: 0 <= i < |passes| ==> passes[i].Valid())
    && (forall i: nat {:trigger SizesAt(h, passes, i)} :: i < |passes| ==>
          passes[i].h == SizesAt(h, passes, i) && passes[i].empties == EmptyAt(h, passes, i))
  }

  /** The sizes after `i` passes, and the clusters that still wait to be refilled. */
  ghost function SizesAt(h: seq<int>, passes: seq<Pass>, i: nat): seq<int>
    requires i <= |passes| && forall j {:trigger passes[j]} :: 0 <= j < |passes| ==> passes[j].Valid()
  {
    if i == 0 then h else passes[i - 1].After()
  }

  ghost function EmptyAt(h: seq<int>, passes: seq<Pass>, i: nat): seq<nat>
    requires i <= |passes| && forall j {:trigger passes[j]} :: 0 <= j < |passes| ==> passes[j].Valid()
  {
    if i == 0 then EmptyOnes(h, |h|) else passes[i - 1].Rest()
  }

  /** None of the first `n` passes draws a cluster too often. */
  ghost predicate AllAllowed(passes: seq<Pass>, n: nat)
    requires n <= |passes|
  {
    forall i {:trigger Allowed(passes[i])} :: 0 <= i < n ==> Allowed(passes[i])
  }

  ghost predicate Allowed(p: Pass) {
    DrawsAllowed(p.h, p.cjs)
  }

  /** After `n` passes no cluster is lost. */
  ghost predicate NoneLostAt(h: seq<int>, passes: seq<Pass>, n: nat)
    requires ArePasses(h, passes) && n <= |passes|
  {
    NoneLost(SizesAt(h, passes, n), EmptyAt(h, passes, n))
  }

  lemma NoneLostStep(h: seq<int>, passes: seq<Pass>, n: nat)
    requires ArePasses(h, passes) && n < |passes|
    ensures NoneLostAt(h, passes, n + 1) <==> NoneLostAt(h, passes, n) && Allowed(passes[n])
  {
    var p := passes[n];
    assert p.h == SizesAt(h, passes, n) && p.empties == EmptyAt(h, passes, n);
    PassLosesIff(p.h, p.empties, p.cjs);
  }

  lemma AllAllowedStep(passes: seq<Pass>, n: nat)
    requires n < |passes|
    ensures AllAllowed(passes, n + 1) <==> AllAllowed(passes, n) && Allowed(passes[n])
  {
  }

  lemma NoneLostAtStart(h: seq<int>, passes: seq<Pass>)
    requires ArePasses(h, passes)
    ensures NoneLostAt(h, passes, 0)
  {
    EmptyOnesAreDraws(h);
  }

  /** After any number of passes no cluster is lost if and only if none of them drew too often. */
  lemma {:induction false} PassesLoseIff(h: seq<int>, passes: seq<Pass>, n: nat)
    requires ArePasses(h, passes) && n <= |passes|
    ensures NoneLostAt(h, passes, n) <==> AllAllowed(passes, n)
  {
    if n == 0 {
      NoneLostAtStart(h, passes);
    } else {
      PassesLoseIff(h, passes, n - 1);
      NoneLostStep(h, passes, n - 1);
      AllAllowedStep(passes, n - 1);
    }
  }

  ghost predicate AllValid(passes: seq<Pass>) {
    forall j {:trigger passes[j]} :: 0 <= j < |passes| ==> passes[j].Valid()
  }

  lemma SameAt(h: seq<int>, passes: seq<Pass>, p: Pass, i: nat)
    requires AllValid(passes) && p.Valid() && i <= |passes|
    ensures AllValid(passes + [p])
    ensures SizesAt(h, passes + [p], i) == SizesAt(h, passes, i)
    ensures EmptyAt(h, passes + [p], i) == EmptyAt(h, passes, i)
  {
    if i > 0 { assert (passes + [p])[i - 1] == passes[i - 1]; }
  }

  lemma PassesGrow(h: seq<int>, passes: seq<Pass>, p: Pass)
    requires ArePasses(h, passes) && p.Valid()
    requires p.h == SizesAt(h, passes, |passes|) && p.empties == EmptyAt(h, passes, |passes|)
    ensures ArePasses(h, passes + [p])
    ensures SizesAt(h, passes + [p], |passes| + 1) == p.After() && EmptyAt(h, passes + [p], |passes| + 1) == p.Rest()
  {
    var more := passes + [p];
    SameAt(h, passes, p, |passes|);
    forall i: nat | i < |more|
      ensures more[i].h == SizesAt(h, more, i) && more[i].empties == EmptyAt(h, more, i)
    {
      SameAt(h, passes, p, i);
      if i < |passes| { NthPass(h, passes, i); }
    }
  }

  /** Where the passes lead from the sizes `h0`: to the sizes `h`, with `empties` still to refill. */
  ghost predicate Reached(h0: seq<int>, passes: seq<Pass>, h: seq<int>, empties: seq<nat>) {
    && ArePasses(h0, passes) && |h| == |h0|
    && h == SizesAt(h0, passes, |passes|) && empties == EmptyAt(h0, passes, |passes|)
    && NonNegative(h) && IsDraw(h, empties, []) && Total(h) == Total(h0)
    && forall c :: 0 <= c < |h| && h0[c] > 0 ==> h[c] > 0
  }

  lemma ReachedFurther(h0: seq<int>, passes: seq<Pass>, h: seq<int>, empties: seq<nat>, p: Pass)
    requires Reached(h0, passes, h, empties) && p.Valid() && p.h == h && p.empties == empties
    ensures Reached(h0, passes + [p], p.After(), p.Rest())
  {
    PassesGrow(h0, passes, p);
    AfterPass(p.h, p.empties, p.cjs);
  }

  lemma AfterPass(h: seq<int>, empties: seq<nat>, cjs: seq<nat>)
    requires NonNegative(h) && IsDraw(h, empties, cjs)
    ensures var after := AfterSplits(h, empties, cjs, |cjs|);
            && NonNegative(after) && Total(after) == Total(h) && IsDraw(after, empties[|cjs|..], [])
            && forall c :: 0 <= c < |h| && h[c] > 0 ==> after[c] > 0
  {
    PassKeeps(h, empties, cjs, |cjs|);
    LaterOnes(h, AfterSplits(h, empties, cjs, |cjs|), empties, |cjs|);
  }

  /** The empty clusters from the `n`th on wait for the next pass if they are still empty. */
  lemma LaterOnes(h: seq<int>, after: seq<int>, empties: seq<nat>, n: nat)
    requires IsDraw(h, empties, []) && n <= |empties| && |after| == |h|
    requires forall i :: n <= i < |empties| ==> after[empties[i]] == 0
    ensures IsDraw(after, empties[n..], [])
  {
    var rest := empties[n..];
    assert forall i :: 0 <= i < |rest| ==> rest[i] == empties[n + i];
  }

  // ---- which sizes survive every draw ----

  ghost predicate EveryRunFills(h: seq<int>) {
    forall passes :: IsFullRun(h, passes) ==> AllFilled(SizesAt(h, passes, |passes|))
  }

  /** With at most as many empty clusters as clusters to split, every run fills all clusters if and only
      if every cluster above 1 can take all the draws. */
  lemma EveryRunFillsIff(h: seq<int>)
    requires NonNegative(h) && 0 < |EmptyOnes(h, |h|)| <= Splittable(h)
    ensures EveryRunFills(h) <==> AllTake(h, |EmptyOnes(h, |h|)|)
  {
    var empties := EmptyOnes(h, |h|);
    EmptyOnesAreDraws(h);
    EveryDrawFillsIff(h, empties);
    if EveryRunFills(h) {
      forall cjs | IsDraw(h, empties, cjs) && |cjs| == |empties|
        ensures AllFilled(AfterSplits(h, empties, cjs, |cjs|))
      {
        RunOfOne(h, cjs);
        var passes :| IsFullRun(h, passes) && SizesAt(h, passes, |passes|) == AfterSplits(h, empties, cjs, |cjs|);
      }
    }
    if EveryDrawFills(h, empties) {
      forall passes | IsFullRun(h, passes) ensures AllFilled(SizesAt(h, passes, |passes|)) {
        OneFullRun(h, passes);
      }
    }
  }

  lemma RunOfOne(h: seq<int>, cjs: seq<nat>)
    requires NonNegative(h) && 0 < |EmptyOnes(h, |h|)| <= Splittable(h)
    requires IsDraw(h, EmptyOnes(h, |h|), cjs) && |cjs| == |EmptyOnes(h, |h|)|
    ensures exists passes :: IsFullRun(h, passes)
                             && SizesAt(h, passes, |passes|) == AfterSplits(h, EmptyOnes(h, |h|), cjs, |cjs|)
  {
    var p := Pass(h, EmptyOnes(h, |h|), cjs);
    AllDrawn(p);
    var passes := [p];
    assert passes[0] == p && SizesAt(h, passes, 0) == h && EmptyAt(h, passes, 0) == p.empties;
    assert IsFullRun(h, passes);
  }

  lemma OneFullRun(h: seq<int>, passes: seq<Pass>)
    requires IsFullRun(h, passes) && 0 < |EmptyOnes(h, |h|)| <= Splittable(h)
    ensures |passes| == 1 && IsOnePass(h, EmptyOnes(h, |h|), passes[0])
    ensures SizesAt(h, passes, |passes|)
            == AfterSplits(h, EmptyOnes(h, |h|), passes[0].cjs, |passes[0].cjs|)
  {
    SinglePass(h, passes);
  }

  /** A run that leaves no cluster waiting. */
  ghost predicate IsFullRun(h: seq<int>, passes: seq<Pass>) {
    ArePasses(h, passes) && EmptyAt(h, passes, |passes|) == []
  }

  ghost predicate IsOnePass(h: seq<int>, empties: seq<nat>, p: Pass) {
    p.h == h && p.empties == empties && IsDraw(h, empties, p.cjs) && |p.cjs| == |empties|
  }

  lemma NthPass(h: seq<int>, passes: seq<Pass>, i: nat)
    requires ArePasses(h, passes) && i < |passes|
    ensures passes[i].Valid() && passes[i].h == SizesAt(h, passes, i) && passes[i].empties == EmptyAt(h, passes, i)
  {
  }

  lemma AllDrawn(p: Pass)
    requires p.Valid() && |p.empties| <= Splittable(p.h)
    ensures p.Rest() == [] && |p.cjs| == |p.empties|
  {
  }

  lemma SinglePass(h: seq<int>, passes: seq<Pass>)
    requires ArePasses(h, passes) && passes != [] && |EmptyOnes(h, |h|)| <= Splittable(h)
    ensures |passes| == 1 && IsOnePass(h, EmptyOnes(h, |h|), passes[0])
  {
    NthPass(h, passes, 0);
    AllDrawn(passes[0]);
    if |passes| > 1 {
      NthPass(h, passes, 1);
      assert false;
    }
  }

  /** One pass is enough exactly when there are as many clusters to split as empty ones. */
  lemma OnePassIff(h: seq<int>, passes: seq<Pass>)
    requires IsFullRun(h, passes)
    ensures |passes| <= 1 <==> |EmptyOnes(h, |h|)| <= Splittable(h)
  {
    if passes != [] {
      assert passes[0].h == SizesAt(h, passes, 0) && passes[0].empties == EmptyAt(h, passes, 0);
      if |EmptyOnes(h, |h|)| <= Splittable(h) { SinglePass(h, passes); }
    }
  }

  /** Several passes can be needed with less than half of the clusters empty. */
  lemma SeveralPassesForFew(h: seq<int>, passes: seq<Pass>)
    requires h == [5, 1, 1, 0, 0] && IsFullRun(h, passes)
    ensures 2 * |EmptyOnes(h, 5)| <= 5 && |passes| > 1
  {
    EmptyStep(h, 0);
    EmptyStep(h, 1);
    EmptyStep(h, 2);
    EmptyStep(h, 3);
    EmptyStep(h, 4);
    SplittableAppend([5, 1, 1, 0], 0);
    SplittableAppend([5, 1, 1], 0);
    SplittableAppend([5, 1], 1);
    SplittableAppend([5], 1);
    assert h == [5, 1, 1, 0] + [0] && [5, 1, 1, 0] == [5, 1, 1] + [0] && [5, 1, 1] == [5, 1] + [1];
    assert [5, 1] == [5] + [1] && [5][..0] == [];
    OnePassIff(h, passes);
  }

  /** Every cluster above 1 has at least 2^m points. */
  ghost predicate AreLarge(h: seq<int>, m: nat) {
    forall c :: 0 <= c < |h| && h[c] > 1 ==> h[c] >= Power2(m)
  }

  lemma {:induction false} RemainingAtLeast(x: int, d: nat, m: nat)
    requires d <= m && x >= Power2(m)
    ensures Remaining(x, d) >= Power2(m - d)
  {
    if d > 0 { RemainingAtLeast(x, d - 1, m); }
  }

  /** What a draw leaves behind, and what it moves, when it is one of at most `k` draws. */
  lemma LargeAfterDraw(x: int, d: nat, k: nat, m: nat)
    requires d <= k <= m && x >= Power2(m)
    ensures Remaining(x, d) >= Power2(m - k)
    ensures d < k ==> Remaining(x, d) / 2 >= Power2(m - k)
  {
    RemainingAtLeast(x, d, m);
    PowerGrows(m - k, m - d);
    if d < k { PowerGrows(m - k + 1, m - d); }
  }

  lemma LargeIsAllowed(h: seq<int>, empties: seq<nat>, cjs: seq<nat>)
    requires IsDraw(h, empties, cjs) && AreLarge(h, |empties|)
    ensures DrawsAllowed(h, cjs)
  {
    forall c: nat | c < |h| && Drawn(cjs, |cjs|, c) > 0 ensures h[c] > Power2(Drawn(cjs, |cjs|, c) - 1) {
      LastDraw(cjs, |cjs|, c);
      DrawnAtMost(cjs, |cjs|, c);
      PowerGrows(Drawn(cjs, |cjs|, c), |empties|);
      PowerGrows(0, Drawn(cjs, |cjs|, c) - 1);
    }
  }

  lemma LargeAfterPass(h: seq<int>, empties: seq<nat>, cjs: seq<nat>, c: nat)
    requires IsDraw(h, empties, cjs) && NonNegative(h) && AreLarge(h, |empties|) && c < |h|
    requires AfterSplits(h, empties, cjs, |cjs|)[c] > 1
    ensures AfterSplits(h, empties, cjs, |cjs|)[c] >= Power2(|empties| - |cjs|)
  {
    if h[c] > 0 {
      SizeOfDrawn(h, empties, cjs, |cjs|, c);
      LargeWhereDrawn(h, empties, cjs, c);
    } else if i :| 0 <= i < |empties| && empties[i] == c {
      PassKeeps(h, empties, cjs, |cjs|);
      SizeOfRefilled(h, empties, cjs, |cjs|, i);
      LargeWhereRefilled(h, empties, cjs, i);
    } else {
      StaysLost(h, empties, cjs, |cjs|, c);
    }
  }

  lemma LargeWhereDrawn(h: seq<int>, empties: seq<nat>, cjs: seq<nat>, c: nat)
    requires IsDraw(h, empties, cjs) && AreLarge(h, |empties|) && c < |h|
    ensures Drawn(cjs, |cjs|, c) <= |cjs|
    ensures Remaining(h[c], Drawn(cjs, |cjs|, c)) > 1 ==>
              Remaining(h[c], Drawn(cjs, |cjs|, c)) >= Power2(|empties| - |cjs|)
  {
    var d := Drawn(cjs, |cjs|, c);
    DrawnAtMost(cjs, |cjs|, c);
    if d > 0 { OnlySplittableDrawn(h, empties, cjs, c); }
    if Remaining(h[c], d) > 1 { LargeRemains(h[c], d, |cjs|, |empties|); }
  }

  lemma LargeRemains(x: int, d: nat, k: nat, m: nat)
    requires d <= k <= m && Remaining(x, d) > 1 && (d > 0 ==> x > 1) && (x > 1 ==> x >= Power2(m))
    ensures Remaining(x, d) >= Power2(m - k)
  {
    LargeAfterDraw(x, d, k, m);
  }

  lemma OnlySplittableDrawn(h: seq<int>, empties: seq<nat>, cjs: seq<nat>, c: nat)
    requires IsDraw(h, empties, cjs) && c < |h| && Drawn(cjs, |cjs|, c) > 0
    ensures h[c] > 1
  {
    LastDraw(cjs, |cjs|, c);
  }

  lemma LargeWhereRefilled(h: seq<int>, empties: seq<nat>, cjs: seq<nat>, i: nat)
    requires IsDraw(h, empties, cjs) && AreLarge(h, |empties|) && i < |cjs|
    ensures Remaining(h[cjs[i]], Drawn(cjs, i, cjs[i])) / 2 >= Power2(|empties| - |cjs|)
  {
    var c := cjs[i];
    DrawnGrows(cjs, i + 1, |cjs|, c);
    DrawnAtMost(cjs, |cjs|, c);
    LargeAfterDraw(h[c], Drawn(cjs, i, c), |cjs|, |empties|);
  }

  lemma LargePass(p: Pass)
    requires p.Valid() && AreLarge(p.h, |p.empties|)
    ensures AreLarge(p.After(), |p.Rest()|)
  {
    forall c: nat | c < |p.h| && p.After()[c] > 1 ensures p.After()[c] >= Power2(|p.Rest()|) {
      LargeAfterPass(p.h, p.empties, p.cjs, c);
    }
  }

  /** Over several passes: when clusters above 1 have 2^m points, for m empty ones, every pass begins
      with such sizes... */
  lemma {:induction false} StaysLarge(h: seq<int>, passes: seq<Pass>, i: nat)
    requires ArePasses(h, passes) && i < |passes| && AreLarge(h, |EmptyOnes(h, |h|)|)
    ensures passes[i].Valid() && AreLarge(passes[i].h, |passes[i].empties|)
  {
    NthPass(h, passes, i);
    if i > 0 {
      StaysLarge(h, passes, i - 1);
      LargePass(passes[i - 1]);
    }
  }

  /** ... and draws no cluster too often. */
  lemma LargeAlwaysFill(h: seq<int>, passes: seq<Pass>)
    requires ArePasses(h, passes) && AreLarge(h, |EmptyOnes(h, |h|)|)
    ensures AllAllowed(passes, |passes|)
  {
    forall i | 0 <= i < |passes| ensures Allowed(passes[i]) {
      StaysLarge(h, passes, i);
      LargeIsAllowed(passes[i].h, passes[i].empties, passes[i].cjs);
    }
  }

  /** The condition for one pass does not carry over to several: 5 exceeds 2^2, but after a pass with one
      draw a cluster of 2 points is drawn twice. */
  lemma SeveralPassesMayLose()
    ensures EmptyOnes([5, 0, 0, 0], 4) == [1, 2, 3] && Splittable([5, 0, 0, 0]) == 1 && 5 > Power2(3 - 1)
    ensures exists passes :: IsFullRun([5, 0, 0, 0], passes) && SizesAt([5, 0, 0, 0], passes, |passes|) == [3, 1, 1, 0]
  {
    FiveEmpties([5, 0, 0, 0]);
    TwoSplittable([3, 2, 0, 0]);
    TwoPasses(Pass([5, 0, 0, 0], [1, 2, 3], [0]), Pass([3, 2, 0, 0], [2, 3], [1, 1]));
  }

  lemma TwoPasses(p: Pass, q: Pass)
    requires p == Pass([5, 0, 0, 0], [1, 2, 3], [0]) && q == Pass([3, 2, 0, 0], [2, 3], [1, 1])
    requires Splittable(p.h) == 1 && Splittable(q.h) == 2 && EmptyOnes(p.h, 4) == [1, 2, 3]
    ensures IsFullRun(p.h, [p, q]) && SizesAt(p.h, [p, q], 2) == [3, 1, 1, 0]
  {
    FirstOfTwo(p.h, p.empties);
    SecondOfTwo(q.h, q.empties);
    assert p.Valid() && q.Valid();
    assert p.Rest() == q.empties && q.Rest() == [];
    var passes := [p, q];
    assert passes[0] == p && passes[1] == q;
    assert SizesAt(p.h, passes, 0) == p.h && SizesAt(p.h, passes, 1) == q.h;
  }

  lemma FirstOfTwo(h: seq<int>, empties: seq<nat>)
    requires h == [5, 0, 0, 0] && empties == [1, 2, 3]
    ensures IsDraw(h, empties, [0]) && AfterSplits(h, empties, [0], 1) == [3, 2, 0, 0]
  {
    assert AfterSplits(h, empties, [0], 0) == h;
  }

  lemma SecondOfTwo(h: seq<int>, empties: seq<nat>)
    requires h == [3, 2, 0, 0] && empties == [2, 3]
    ensures IsDraw(h, empties, [1, 1]) && AfterSplits(h, empties, [1, 1], 2) == [3, 1, 1, 0]
  {
    assert AfterSplits(h, empties, [1, 1], 0) == h;
    assert AfterSplits(h, empties, [1, 1], 1) == [3, 1, 1, 0];
  }

  lemma FiveEmpties(h: seq<int>)
    requires h == [5, 0, 0, 0]
    ensures EmptyOnes(h, 4) == [1, 2, 3] && Splittable(h) == 1 && Power2(2) == 4
  {
    EmptyStep(h, 0);
    EmptyStep(h, 1);
    EmptyStep(h, 2);
    EmptyStep(h, 3);
    assert [] + [1] + [2] + [3] == [1, 2, 3];
    OneSplittable(h);
    assert Power2(1) == 2;
  }

  lemma EmptyStep(h: seq<int>, n: nat)
    requires n < |h|
    ensures EmptyOnes(h, n + 1) == EmptyOnes(h, n) + if h[n] == 0 then [n] else []
  {
  }

  lemma OneSplittable(h: seq<int>)
    requires h == [5, 0, 0, 0]
    ensures Splittable(h) == 1
  {
    SplittableAppend([5, 0, 0], 0);
    SplittableAppend([5, 0], 0);
    SplittableAppend([5], 0);
    SplittableAppend([], 5);
    assert h == [5, 0, 0] + [0] && [5, 0, 0] == [5, 0] + [0] && [5, 0] == [5] + [0] && [5] == [] + [5];
  }

  lemma TwoSplittable(h: seq<int>)
    requires h == [3, 2, 0, 0]
    ensures Splittable(h) == 2
  {
    SplittableAppend([3, 2, 0], 0);
    SplittableAppend([3, 2], 0);
    SplittableAppend([3], 2);
    SplittableAppend([], 3);
    assert h == [3, 2, 0] + [0] && [3, 2, 0] == [3, 2] + [0] && [3, 2] == [3] + [2] && [3] == [] + [3];
  }

  lemma SplittableAppend(s: seq<int>, x: int)
    ensures Splittable(s + [x]) == Splittable(s) + if x > 1 then 1 else 0
  {
    assert (s + [x])[..|s|] == s;
  }

  /** The draws end for lack of a cluster to split only with fewer points than clusters. */
  lemma StuckMeansFew(h: seq<int>, empties: seq<nat>)
    requires IsDraw(h, empties, []) && empties != [] && Splittable(h) == 0
    ensures Total(h) < |h|
  {
    SplittableIff(h);
    TotalAtMost(h);
    assert h[empties[0]] == 0;
  }

  /** What the sizes and the draws say about the outcome of a run. */
  lemma RunFills(h: seq<int>, passes: seq<Pass>)
    requires IsFullRun(h, passes) && NonNegative(h) && NonNegative(SizesAt(h, passes, |passes|))
    ensures AllFilled(SizesAt(h, passes, |passes|)) <==> AllAllowed(passes, |passes|)
    ensures |passes| <= 1 <==> |EmptyOnes(h, |h|)| <= Splittable(h)
    ensures AllTake(h, |EmptyOnes(h, |h|)|) && |passes| <= 1 ==> AllFilled(SizesAt(h, passes, |passes|))
    ensures AreLarge(h, |EmptyOnes(h, |h|)|) ==> AllFilled(SizesAt(h, passes, |passes|))
  {
    PassesLoseIff(h, passes, |passes|);
    FilledIffNoneLost(SizesAt(h, passes, |passes|));
    OnePassIff(h, passes);
    if AllTake(h, |EmptyOnes(h, |h|)|) && |passes| == 1 {
      NthPass(h, passes, 0);
      EveryRunFillsIff(h);
    }
    if AreLarge(h, |EmptyOnes(h, |h|)|) { LargeAlwaysFill(h, passes); }
  }

  /** Refill the empty clusters, in as many `passes` as it takes. Draws fail when no cluster holds
      more than one point, which takes fewer points than clusters. No cluster is left empty if and
      only if no pass drew a cluster too often. */
  method ReassignCentroids(hassign: array<int>, rs: (nat, seq<int>, nat) -> seq<nat>)
    returns (r: Result<nat>, ghost passes: seq<Pass>)
    requires NonNegative(hassign[..]) && IsSource(rs)
    modifies hassign
    ensures ArePasses(old(hassign[..]), passes)
    ensures hassign[..] == SizesAt(old(hassign[..]), passes, |passes|)
    ensures r.Ok? <==> EmptyAt(old(hassign[..]), passes, |passes|) == []
    ensures r.Error? <==> EmptyAt(old(hassign[..]), passes, |passes|) != [] && Splittable(hassign[..]) == 0
    ensures r.Ok? ==> (AllFilled(hassign[..]) <==> AllAllowed(passes, |passes|))
    ensures r.Ok? ==> r.value == |EmptyOnes(old(hassign[..]), hassign.Length)|
    ensures Total(hassign[..]) == Total(old(hassign[..])) && NonNegative(hassign[..])
    ensures forall c :: 0 <= c < hassign.Length && old(hassign[c]) > 0 ==> hassign[..][c] > 0
    ensures Total(old(hassign[..])) >= hassign.Length ==> r.Ok?
    ensures r.Ok? ==> (|passes| <= 1 <==> |EmptyOnes(old(hassign[..]), hassign.Length)| <= Splittable(old(hassign[..])))
    ensures AllTake(old(hassign[..]), |EmptyOnes(old(hassign[..]), hassign.Length)|) && |passes| <= 1 && r.Ok? ==>
              AllFilled(hassign[..])
    ensures AreLarge(old(hassign[..]), |EmptyOnes(old(hassign[..]), hassign.Length)|) && r.Ok? ==>
              AllFilled(hassign[..])
  {
    var nsplit, pass := 0, 0;
    ghost var h0 := hassign[..];
    var empties := EmptyOnes(hassign[..], hassign.Length);
    passes := [];
    EmptyOnesAreDraws(h0);
    while |empties| > 0
      invariant nsplit + |empties| == |EmptyOnes(h0, |h0|)|
      invariant Reached(h0, passes, hassign[..], empties)
      decreases |empties|
    {
      ghost var h := hassign[..];
      ghost var p;
      var nreplace;
      nreplace, p := SplitPass(hassign, empties, pass, rs);
      if nreplace == 0 {
        StuckMeansFew(h, empties);
        return Error("no cluster can be split"), passes;
      }
      ReachedFurther(h0, passes, h, empties, p);
      passes := passes + [p];
      nsplit := nsplit + nreplace;
      empties := empties[nreplace..];
      pass := pass + 1;
    }
    RunFills(h0, passes);
    r := Ok(nsplit);
  }

  /** One pass, of as many splits as there are clusters to refill and clusters to split. */
  method SplitPass(hassign: array<int>, empties: seq<nat>, pass: nat, rs: (nat, seq<int>, nat) -> seq<nat>)
    returns (nreplace: nat, ghost p: Pass)
    requires NonNegative(hassign[..]) && IsDraw(hassign[..], empties, []) && empties != [] && IsSource(rs)
    modifies hassign
    ensures nreplace == 0 ==> hassign[..] == old(hassign[..]) && Splittable(hassign[..]) == 0
    ensures nreplace > 0 ==>
              && p.Valid() && p.h == old(hassign[..]) && p.empties == empties && nreplace == |p.cjs|
              && hassign[..] == p.After()
  {
    var nnz := Splittable(hassign[..]);
    nreplace := if nnz < |empties| then nnz else |empties|;
    p := Pass(hassign[..], empties, []);
    if nreplace == 0 {
      return;
    }
    var cjs := rs(pass, hassign[..], nreplace);
    p := Pass(hassign[..], empties, cjs);
    MakeSplits(hassign, empties, cjs);
  }

  method MakeSplits(hassign: array<int>, empties: seq<nat>, cjs: seq<nat>)
    requires NonNegative(hassign[..]) && IsDraw(hassign[..], empties, cjs)
    modifies hassign
    ensures IsDraw(old(hassign[..]), empties, cjs)
    ensures hassign[..] == AfterSplits(old(hassign[..]), empties, cjs, |cjs|)
  {
    ghost var h := hassign[..];
    var i := 0;
    while i < |cjs|
      invariant 0 <= i <= |cjs|
      invariant hassign[..] == AfterSplits(h, empties, cjs, i)
    {
      MakeSplit(hassign, empties[i], cjs[i]);
      i := i + 1;
    }
  }

  /** Give half of the points of cluster `cj` to cluster `ci`. */
  method MakeSplit(hassign: array<int>, ci: nat, cj: nat)
    requires ci < hassign.Length && cj < hassign.Length && ci != cj
    modifies hassign
    ensures hassign[..] == Halve(old(hassign[..]), ci, cj)
  {
    hassign[ci] := hassign[cj] / 2;
    hassign[cj] := hassign[cj] - hassign[ci];
  }
}
