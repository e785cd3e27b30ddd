/** Helpers of the k-means written in Python (contrib/clustering.py): nearest centroids found block
    by block, and the refilling of empty clusters. */
module Assignment {
  import opened Basics

  // ---- nearest centroids ----

  /** Squared distances of query `q` to centroid `j`: a part to compare and the norm of the query. */
  datatype Problem = Problem(nq: nat, nb: nat, score: (nat, nat) -> real, norm: nat -> real)
  {
    function Dist(q: nat, j: nat): real {
      score(q, j) + norm(q)
    }

    /** `j` is the first among the closest of the centroids [lo, hi). */
    ghost predicate IsNearest(q: nat, lo: nat, hi: nat, j: nat) {
      && lo <= j < hi
      && (forall h: nat {:trigger score(q, h)} :: lo <= h < hi ==> score(q, j) <= score(q, h))
      && (forall h: nat {:trigger score(q, h)} :: lo <= h < j ==> score(q, j) < score(q, h))
    }

    function ArgMin(q: nat, lo: nat, hi: nat): (j: nat)
      requires lo < hi
      ensures IsNearest(q, lo, hi, j)
      decreases hi
    {
      if lo + 1 == hi then lo
      else
        var j := ArgMin(q, lo, hi - 1);
        if score(q, hi - 1) < score(q, j) then hi - 1 else j
    }

    lemma NearestIsUnique(q: nat, lo: nat, hi: nat, a: nat, b: nat)
      requires IsNearest(q, lo, hi, a) && IsNearest(q, lo, hi, b)
      ensures a == b
    {
      assert score(q, a) <= score(q, b) && score(q, b) <= score(q, a);
      assert a < b ==> score(q, a) > score(q, b);
      assert b < a ==> score(q, b) > score(q, a);
    }

    /** The closer of the nearest centroids of two neighbouring ranges; the first one on ties. */
    lemma NearestOfTwo(q: nat, lo: nat, mid: nat, hi: nat, a: nat, b: nat)
      requires IsNearest(q, lo, mid, a) && IsNearest(q, mid, hi, b)
      ensures IsNearest(q, lo, hi, if Dist(q, b) < Dist(q, a) then b else a)
    {
    }

    /** What the outcome for query `q` is once the centroids before `hi` were compared. */
    ghost predicate Settled(q: nat, hi: nat, d: Option<real>, i: int) {
      if hi == 0 then d == None && i == -1
      else i >= 0 && IsNearest(q, 0, hi, i) && d == Some(Dist(q, i))
    }

    /** There is only one outcome. */
    lemma SettledIsUnique(q: nat, hi: nat, d: Option<real>, i: int, d': Option<real>, i': int)
      requires Settled(q, hi, d, i) && Settled(q, hi, d', i')
      ensures d == d' && i == i'
    {
      if hi > 0 { NearestIsUnique(q, 0, hi, i, i'); }
    }
  }

  /** The place of the nearest centroid within the block [j0, j1). */
  function Offset(p: Problem, q: nat, j0: nat, j1: nat): (i: nat)
    requires j0 < j1
    ensures p.IsNearest(q, j0, j1, i + j0)
  {
    p.ArgMin(q, j0, j1) - j0
  }

  /** The nearest of the centroids [j0, j1) of the queries [q0, q1), counted from `j0`. */
  method AssignToDense(p: Problem, q0: nat, q1: nat, j0: nat, j1: nat) returns (di: seq<real>, ii: seq<nat>)
    requires q0 <= q1 && j0 < j1
    ensures |di| == |ii| == q1 - q0
    ensures forall q {:trigger ii[q]} :: 0 <= q < q1 - q0 ==>
              p.IsNearest(q0 + q, j0, j1, ii[q] + j0) && di[q] == p.Dist(q0 + q, ii[q] + j0)
  {
    ii := seq<nat>(q1 - q0, (q: nat) requires q < q1 - q0 => Offset(p, q0 + q, j0, j1));
    di := seq(q1 - q0, (q: nat) requires q < q1 - q0 => p.Dist(q0 + q, Offset(p, q0 + q, j0, j1) + j0));
    assert forall q: nat {:trigger ii[q]} :: q < q1 - q0 ==> ii[q] == Offset(p, q0 + q, j0, j1);
  }

  /** Keep the better of the current outcome and that of the centroids [j, j1). */
  method MergeBlock(p: Problem, dis: array<Option<real>>, ids: array<int>, q0: nat, q1: nat, j: nat, j1: nat)
    requires dis != ids as object && dis.Length == ids.Length == p.nq && q0 <= q1 <= p.nq && j < j1
    requires forall q :: q0 <= q < q1 ==> p.Settled(q, j, dis[q], ids[q])
    modifies dis, ids
    ensures forall q :: q0 <= q < q1 ==> p.Settled(q, j1, dis[q], ids[q])
    ensures forall q :: (0 <= q < q0 || q1 <= q < p.nq) ==> dis[q] == old(dis[q]) && ids[q] == old(ids[q])
  {
    var di, ii := AssignToDense(p, q0, q1, j, j1);
    var q := q0;
    while q < q1
      invariant q0 <= q <= q1
      invariant forall h :: q0 <= h < q ==> p.Settled(h, j1, dis[h], ids[h])
      invariant forall h :: (0 <= h < q0 || q <= h < p.nq) ==> dis[h] == old(dis[h]) && ids[h] == old(ids[h])
    {
      assert p.IsNearest(q0 + (q - q0), j, j1, ii[q - q0] + j);
      if j == 0 {
        ids[q], dis[q] := ii[q - q0], Some(di[q - q0]);
      } else {
        p.NearestOfTwo(q, 0, j, j1, ids[q], ii[q - q0] + j);
        if di[q - q0] < dis[q].value {
          ids[q], dis[q] := ii[q - q0] + j, Some(di[q - q0]);
        }
      }
      q := q + 1;
    }
  }

  /** Settle the queries [q0, q1), `bbs` centroids at a time. */
  method HandleQueryBlock(p: Problem, dis: array<Option<real>>, ids: array<int>, q0: nat, q1: nat, bbs: nat)
    requires dis != ids as object && dis.Length == ids.Length == p.nq && q0 <= q1 <= p.nq && bbs > 0
    requires forall q :: q0 <= q < q1 ==> p.Settled(q, 0, dis[q], ids[q])
    modifies dis, ids
    ensures forall q :: q0 <= q < q1 ==> p.Settled(q, p.nb, dis[q], ids[q])
    ensures forall q :: (0 <= q < q0 || q1 <= q < p.nq) ==> dis[q] == old(dis[q]) && ids[q] == old(ids[q])
  {
    var j := 0;
    while j < p.nb
      invariant 0 <= j
      invariant forall q :: q0 <= q < q1 ==> p.Settled(q, if j < p.nb then j else p.nb, dis[q], ids[q])
      invariant forall q :: (0 <= q < q0 || q1 <= q < p.nq) ==> dis[q] == old(dis[q]) && ids[q] == old(ids[q])
      decreases p.nb - j
    {
      var j1 := if j + bbs < p.nb then j + bbs else p.nb;
      MergeBlock(p, dis, ids, q0, q1, j, j1);
      j := j + bbs;
    }
  }

  /** The bounds of the blocks of `qbs` queries: each starts where the one before ends. */
  function BlockStart(nq: nat, qbs: nat, b: nat): (r: nat)
    ensures r <= nq
  {
    if b * qbs < nq then b * qbs else nq
  }

  function NBlocks(nq: nat, qbs: nat): nat
    requires qbs > 0
  {
    (nq + qbs - 1) / qbs
  }

  function BlockOf(qbs: nat, q: nat): nat
    requires qbs > 0
  {
    q / qbs
  }

  /** The blocks tile the queries. */
  lemma BlocksTile(nq: nat, qbs: nat, b: nat, q: nat)
    requires qbs > 0 && q < nq
    ensures BlockStart(nq, qbs, b) <= q < BlockStart(nq, qbs, b + 1) <==> BlockOf(qbs, q) == b
    ensures BlockOf(qbs, q) < NBlocks(nq, qbs)
  {
    var c, n := BlockOf(qbs, q), NBlocks(nq, qbs);
    assert c * qbs <= q < (c + 1) * qbs;
    assert nq <= n * qbs;
    if c >= n { MulMonotone(qbs, n, c); }
    BlockUnique(qbs, b, c, q);
  }

  lemma BlockUnique(qbs: nat, b: nat, c: nat, q: nat)
    requires c * qbs <= q < (c + 1) * qbs
    ensures b * qbs <= q < (b + 1) * qbs <==> b == c
  {
    if b < c { MulMonotone(qbs, b + 1, c); }
    if c < b { MulMonotone(qbs, c + 1, b); }
  }

  /** The queries of the blocks `done` are settled, the others untouched. */
  ghost predicate SettledIn(p: Problem, qbs: nat, done: set<nat>, dis: seq<Option<real>>, ids: seq<int>)
    requires qbs > 0
  {
    && |dis| == |ids| == p.nq
    && forall q :: 0 <= q < p.nq ==> p.Settled(q, if BlockOf(qbs, q) in done then p.nb else 0, dis[q], ids[q])
  }

  method HandleBlock(p: Problem, dis: array<Option<real>>, ids: array<int>, qbs: nat, bbs: nat, b: nat,
                     ghost done: set<nat>)
    requires qbs > 0 && bbs > 0 && dis != ids as object && b !in done
    requires SettledIn(p, qbs, done, dis[..], ids[..])
    modifies dis, ids
    ensures SettledIn(p, qbs, done + {b}, dis[..], ids[..])
  {
    var q0, q1 := BlockStart(p.nq, qbs, b), BlockStart(p.nq, qbs, b + 1);
    MulMonotone(qbs, b, b + 1);
    forall q | 0 <= q < p.nq ensures q0 <= q < q1 <==> BlockOf(qbs, q) == b {
      BlocksTile(p.nq, qbs, b, q);
    }
    assert forall q :: q0 <= q < q1 ==> p.Settled(q, 0, dis[..][q], ids[..][q]);
    HandleQueryBlock(p, dis, ids, q0, q1, bbs);
  }

  /** Whatever the block sizes and whatever order the pool handles the query blocks in, every query
      gets the first of its closest centroids and the distance to it. */
  method AssignBlocks(p: Problem, qbs: nat, bbs: nat, order: seq<nat>)
    returns (dis: array<Option<real>>, ids: array<int>)
    requires qbs > 0 && bbs > 0 && IsPermutation(order, NBlocks(p.nq, qbs))
    ensures fresh(dis) && fresh(ids) && dis.Length == ids.Length == p.nq
    ensures forall q :: 0 <= q < p.nq ==> p.Settled(q, p.nb, dis[q], ids[q])
    ensures p.nb == 0 ==> forall q :: 0 <= q < p.nq ==> dis[q] == None && ids[q] == -1
    ensures p.nb > 0 ==> forall q: nat :: q < p.nq ==>
              0 <= ids[q] < p.nb && dis[q] == Some(p.score(q, ids[q]) + p.norm(q))
    ensures p.nb > 0 ==> forall q: nat, h: nat {:trigger p.score(q, h)} :: q < p.nq && h < p.nb ==>
              p.score(q, ids[q]) <= p.score(q, h) && (h < ids[q] ==> p.score(q, ids[q]) < p.score(q, h))
  {
    dis, ids := new Option<real>[p.nq](_ => None), new int[p.nq](_ => -1);
    ghost var done := {};
    var t := 0;
    while t < |order|
      invariant 0 <= t <= |order| && fresh(dis) && fresh(ids) && dis != ids as object
      invariant forall b :: b in done <==> b in order[..t]
      invariant SettledIn(p, qbs, done, dis[..], ids[..])
    {
      HandleBlock(p, dis, ids, qbs, bbs, order[t], done);
      done := done + {order[t]};
      t := t + 1;
    }
    forall q: nat | q < p.nq ensures p.Settled(q, p.nb, dis[q], ids[q]) {
      BlocksTile(p.nq, qbs, 0, q);
      PermutationCovers(order, NBlocks(p.nq, qbs), BlockOf(qbs, q));
      assert order[..|order|] == order;
      assert BlockOf(qbs, q) in done;
      assert p.Settled(q, p.nb, dis[..][q], ids[..][q]);
    }
  }

  /** Neither the block sizes nor the order of the blocks shows in the result. */
  method AssignTwice(p: Problem, qbs: nat, bbs: nat, order: seq<nat>, qbs': nat, bbs': nat, order': seq<nat>)
    returns (dis: array<Option<real>>, ids: array<int>, dis': array<Option<real>>, ids': array<int>)
    requires qbs > 0 && bbs > 0 && IsPermutation(order, NBlocks(p.nq, qbs))
    requires qbs' > 0 && bbs' > 0 && IsPermutation(order', NBlocks(p.nq, qbs'))
    ensures dis[..] == dis'[..] && ids[..] == ids'[..]
  {
    dis, ids := AssignBlocks(p, qbs, bbs, order);
    dis', ids' := AssignBlocks(p, qbs', bbs', order');
    forall q: nat | q < p.nq ensures dis[q] == dis'[q] && ids[q] == ids'[q] {
      p.SettledIsUnique(q, p.nb, dis[q], ids[q], dis'[q], ids'[q]);
    }
  }
}
