/** What a query ends up with (contrib/big_batch_search.py), read off the block search's own answers: which
    distances and identifiers the final results show, in which order, and what is left out. */
module BatchFinals {
  import opened Basics
  import opened TopK
  import opened Bags
  import opened HeapOrder
  import opened HeapResults
  import opened BigBatch

  /** `x` is the `j`-th result that the block search has for query `q` in list `l`. Without positions it is that of
      the `j`-th vector of the list; otherwise the position says which one, counted from the end when negative. */
  ghost predicate IsHit(index: Index, q: nat, l: nat, j: nat, x: Slot) {
    && index.listIds(l) != [] && j < |index.dis(q, l)| && x.val == index.dis(q, l)[j] && x.val.Some?
    && var ids := index.listIds(l);
       if index.pos.None? then j < |ids| && x.id == ids[j]
       else
         j < |index.pos.value(q, l)| &&
         var p := index.pos.value(q, l)[j];
         -|ids| <= p < |ids| && x.id == if p >= 0 then ids[p] else ids[|ids| + p]
  }

  lemma HitIff(index: Index, q: nat, l: nat, j: nat, x: Slot)
    requires index.Valid()
    ensures IsHit(index, q, l, j, x) <==>
              j < |index.Found(q, l)| && index.Found(q, l)[j] == x && x.val.Some?
  {
    assert index.listIds(l) != [] ==> index.Fits(q, l);
  }

  lemma {:induction false} InTotal<T>(d: Findings<T>, q: nat, log: seq<nat>, l: nat, x: T)
    requires l in log && x in d(q, l)
    ensures x in Total(d, q, log)
  {
    var last := |log| - 1;
    if log[last] != l {
      var i :| 0 <= i < |log| && log[i] == l;
      assert log[..last][i] == l;
      InTotal(d, q, log[..last], l, x);
    }
  }

  lemma InCopies<T>(n: nat, m: multiset<T>, x: T)
    requires n > 0 && x in m
    ensures x in Copies(n, m)
  {
  }

  /** What the lists of `log` offer query `q` are the hits in those among them that it probes. */
  lemma OfferedIff(index: Index, assign: seq<seq<int>>, q: nat, log: seq<nat>, x: Slot)
    requires q < |assign| && index.Valid() && x.val.Some?
    ensures x in Total(ResultsIn(index, assign), q, log) <==>
              exists l: nat, j: nat :: l in log && l in assign[q] && IsHit(index, q, l, j, x)
  {
    var d := ResultsIn(index, assign);
    if x in Total(d, q, log) {
      CameFrom(d, q, log, x);
      var l: nat :| l in log && x in d(q, l);
      CopyOf(multiset(assign[q])[l], multiset(index.Found(q, l)), x);
      assert l in multiset(assign[q]);
      var j: nat :| j < |index.Found(q, l)| && index.Found(q, l)[j] == x;
      HitIff(index, q, l, j, x);
    }
    if l: nat, j: nat :| l in log && l in assign[q] && IsHit(index, q, l, j, x) {
      HitIff(index, q, l, j, x);
      assert l in multiset(assign[q]) && x in multiset(index.Found(q, l));
      InCopies(multiset(assign[q])[l], multiset(index.Found(q, l)), x);
      InTotal(d, q, log, l, x);
    }
  }

  /** Every final result is a hit in a list that the query probes: that distance with that identifier... */
  lemma FinalIsHit(index: Index, assign: seq<seq<int>>, keepMax: bool, k: nat, q: nat, log: seq<nat>,
                   s: seq<Slot>, n: nat, i: nat)
    requires q < |assign| && k > 0 && index.Valid() && forall l :: l in log ==> -1 !in index.listIds(l)
    requires (s, n) == SortedHeap(keepMax, HeapAfter(index, assign, keepMax, k, q, log)) && i < n
    ensures i < |s| && exists l: nat, j: nat :: l in log && l in assign[q] && IsHit(index, q, l, j, s[i])
  {
    FinalResults(index, assign, keepMax, k, q, log, s, n);
    assert s[i] == s[..n][i] && s[i] in multiset(s[..n]);
    OfferedIff(index, assign, q, log, s[i]);
  }

  /** ... the closest first, with the smaller identifier first among equals; or the most similar first, with the
      larger identifier first... */
  lemma FinalOrder(index: Index, assign: seq<seq<int>>, keepMax: bool, k: nat, q: nat, log: seq<nat>,
                   s: seq<Slot>, n: nat, a: nat, b: nat)
    requires q < |assign| && k > 0 && forall l :: l in log ==> -1 !in index.listIds(l)
    requires (s, n) == SortedHeap(keepMax, HeapAfter(index, assign, keepMax, k, q, log)) && a < b < n
    ensures b < |s| && s[a].val.Some? && s[b].val.Some?
    ensures var d, e := s[a].val.value, s[b].val.value;
            if keepMax then d > e || (d == e && s[a].id >= s[b].id) else d < e || (d == e && s[a].id <= s[b].id)
  {
    FinalResults(index, assign, keepMax, k, q, log, s, n);
    var was, c := HeapAfter(index, assign, keepMax, k, q, log), Total(FoundIn(index, assign, keepMax), q, log);
    HeapAfterIsBest(index, assign, keepMax, k, q, log, was);
    SortedHeapIsReordered(keepMax, was);
    assert s[a] == s[..n][a] && s[b] == s[..n][b];
  }

  // What is left out

  lemma {:induction false} BagAsSeq<T>(m: multiset<T>) returns (t: seq<T>)
    ensures multiset(t) == m
    decreases |m|
  {
    if m == multiset{} {
      t := [];
    } else {
      var x :| x in m;
      t := BagAsSeq(m - multiset{x});
      t := t + [x];
    }
  }

  /** All that the lists of `log` offer query `q`. */
  ghost function Offers(index: Index, assign: seq<seq<int>>, q: nat, log: seq<nat>): seq<Slot>
    requires q < |assign|
  {
    if log == [] then []
    else Offers(index, assign, q, log[..|log| - 1]) + Offer(index, assign, q, log[|log| - 1])
  }

  lemma {:induction false} OffersAre(index: Index, assign: seq<seq<int>>, keepMax: bool, q: nat, log: seq<nat>)
    requires q < |assign|
    ensures Scores(keepMax, Offers(index, assign, q, log)) == Total(FoundIn(index, assign, keepMax), q, log)
    ensures multiset(Offers(index, assign, q, log)) == Total(ResultsIn(index, assign), q, log)
  {
    if log != [] {
      var init, l := log[..|log| - 1], log[|log| - 1];
      OffersAre(index, assign, keepMax, q, init);
      OfferIsFound(index, assign, keepMax, q, l);
      ScoresConcat(keepMax, Offers(index, assign, q, init), Offer(index, assign, q, l));
    }
  }

  lemma {:induction false} SlotHasScore(keepMax: bool, s: seq<Slot>, x: Slot)
    requires x in s && x.val.Some?
    ensures Score(keepMax, x.val.value) in Scores(keepMax, s)
  {
    var last := |s| - 1;
    if s[last] != x {
      var i :| 0 <= i < |s| && s[i] == x;
      assert s[..last][i] == x;
      SlotHasScore(keepMax, s[..last], x);
    }
  }

  /** A result that was offered and is not among the best ones is no better than any of these. */
  lemma NotChosen(keepMax: bool, k: nat, all: seq<Slot>, chosen: seq<Slot>, x: Slot)
    requires Full(chosen) && multiset(chosen) <= multiset(all) && x in all && x !in chosen && x.val.Some?
    requires ScoreSeq(keepMax, chosen) == Best(k, Scores(keepMax, all))
    ensures |chosen| == k
    ensures forall y :: y in ScoreSeq(keepMax, chosen) ==> y <= Score(keepMax, x.val.value)
  {
    var rest := BagAsSeq(multiset(all) - multiset(chosen));
    var score, best := Score(keepMax, x.val.value), ScoreSeq(keepMax, chosen);
    assert x in multiset(all) && x !in multiset(chosen);
    assert x in multiset(rest);
    ScoresPermuted(keepMax, all, chosen + rest);
    ScoresConcat(keepMax, chosen, rest);
    ScoreSeqBag(keepMax, chosen);
    SlotHasScore(keepMax, rest, x);
    Rest(multiset(best), Scores(keepMax, rest), score);
  }

  lemma Rest<T>(a: multiset<T>, b: multiset<T>, x: T)
    requires x in b
    ensures x in a + b - a && |a + b| > |a|
  {
    assert a + b - a == b;
    assert |a + b| == |a| + |b|;
  }

  /** ... and a hit in a probed list is one of the final results, unless there are `k` of them and none is worse. */
  lemma HitIsFinal(index: Index, assign: seq<seq<int>>, keepMax: bool, k: nat, q: nat, log: seq<nat>,
                   s: seq<Slot>, n: nat, l: nat, j: nat, x: Slot)
    requires q < |assign| && k > 0 && index.Valid() && forall l :: l in log ==> -1 !in index.listIds(l)
    requires (s, n) == SortedHeap(keepMax, HeapAfter(index, assign, keepMax, k, q, log))
    requires l in log && l in assign[q] && IsHit(index, q, l, j, x)
    ensures n <= |s| == k && (x in s[..n] || n == k)
    ensures x in s[..n] || forall i :: 0 <= i < n ==> s[i].val.Some? && if keepMax then s[i].val.value >= x.val.value
                                                                      else s[i].val.value <= x.val.value
  {
    FinalResults(index, assign, keepMax, k, q, log, s, n);
    OfferedIff(index, assign, q, log, x);
    OffersAre(index, assign, keepMax, q, log);
    var all, chosen := Offers(index, assign, q, log), s[..n];
    assert x in multiset(all);
    if x !in chosen {
      NotChosen(keepMax, k, all, chosen, x);
      var scores := ScoreSeq(keepMax, chosen);
      forall i | 0 <= i < n
        ensures s[i].val.Some? && Score(keepMax, s[i].val.value) <= Score(keepMax, x.val.value)
      {
        assert s[i] == chosen[i] && chosen[i] in chosen;
        assert scores[i] in scores;
      }
    }
  }
}
