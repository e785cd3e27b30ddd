/** What heaps hold (faiss/utils/Heap.h): the best of the results that they were offered, which
    sorting a heap puts in order. */
module HeapResults {
  import opened Basics
  import opened TopK
  import opened HeapOrder

  // ---- the scores that a heap holds ----

  ghost function ScoreOf(keepMax: bool, x: Slot): (m: multiset<real>)
    ensures |m| == if x.val.Some? then 1 else 0
  {
    if x.val.Some? then multiset{Score(keepMax, x.val.value)} else multiset{}
  }

  /** The scores of the results of `s`. */
  ghost function Scores(keepMax: bool, s: seq<Slot>): multiset<real> {
    if s == [] then multiset{} else Scores(keepMax, s[..|s| - 1]) + ScoreOf(keepMax, s[|s| - 1])
  }

  lemma ScoresAppend(keepMax: bool, s: seq<Slot>, x: Slot)
    ensures Scores(keepMax, s + [x]) == Scores(keepMax, s) + ScoreOf(keepMax, x)
  {
    assert (s + [x])[..|s|] == s;
  }

  lemma BagsAssociate<T>(a: multiset<T>, b: multiset<T>, c: multiset<T>)
    ensures (a + b) + c == a + (b + c)
  {
  }

  lemma {:induction false} ScoresConcat(keepMax: bool, s: seq<Slot>, t: seq<Slot>)
    ensures Scores(keepMax, s + t) == Scores(keepMax, s) + Scores(keepMax, t)
  {
    if t == [] {
      assert s + t == s;
    } else {
      var init, x := t[..|t| - 1], t[|t| - 1];
      ScoresConcat(keepMax, s, init);
      Associate(s, init, [x]);
      assert t == init + [x];
      ScoresAppend(keepMax, s + init, x);
      BagsAssociate(Scores(keepMax, s), Scores(keepMax, init), ScoreOf(keepMax, x));
    }
  }

  lemma ScoresRemove(keepMax: bool, s: seq<Slot>, i: nat)
    requires i < |s|
    ensures Scores(keepMax, s) == Scores(keepMax, s[..i] + s[i + 1..]) + ScoreOf(keepMax, s[i])
  {
    assert s == (s[..i] + [s[i]]) + s[i + 1..];
    ScoresConcat(keepMax, s[..i] + [s[i]], s[i + 1..]);
    ScoresAppend(keepMax, s[..i], s[i]);
    ScoresConcat(keepMax, s[..i], s[i + 1..]);
  }

  /** The order of the results does not matter. */
  lemma {:induction false} ScoresPermuted(keepMax: bool, s: seq<Slot>, t: seq<Slot>)
    requires multiset(s) == multiset(t)
    ensures Scores(keepMax, s) == Scores(keepMax, t)
  {
    if s == [] {
      assert |multiset(t)| == |t|;
    } else {
      var init, x := s[..|s| - 1], s[|s| - 1];
      assert s == init + [x];
      assert x in multiset(t);
      var i :| 0 <= i < |t| && t[i] == x;
      RemoveAt(t, i);
      ScoresPermuted(keepMax, init, t[..i] + t[i + 1..]);
      ScoresRemove(keepMax, t, i);
    }
  }

  /** A score is in `Scores` as that of some result. */
  lemma {:induction false} ScoreHasSlot(keepMax: bool, s: seq<Slot>, y: real)
    requires y in Scores(keepMax, s)
    ensures exists j: nat :: j < |s| && s[j].val.Some? && Score(keepMax, s[j].val.value) == y
  {
    var last := |s| - 1;
    if y in Scores(keepMax, s[..last]) {
      ScoreHasSlot(keepMax, s[..last], y);
      var j: nat :| j < last && s[..last][j].val.Some? && Score(keepMax, s[..last][j].val.value) == y;
      assert s[j] == s[..last][j];
    }
  }

  ghost predicate Full(s: seq<Slot>) {
    forall x :: x in s ==> x.val.Some?
  }

  lemma BagsSize<T>(a: multiset<T>, b: multiset<T>)
    ensures |a + b| == |a| + |b|
  {
  }

  lemma {:induction false} HowMany(keepMax: bool, s: seq<Slot>)
    ensures |Scores(keepMax, s)| <= |s|
  {
    if s != [] {
      HowMany(keepMax, s[..|s| - 1]);
      BagsSize(Scores(keepMax, s[..|s| - 1]), ScoreOf(keepMax, s[|s| - 1]));
    }
  }

  /** Without free places there is a score for every place. */
  lemma {:induction false} OneEach(keepMax: bool, s: seq<Slot>)
    requires Full(s)
    ensures |Scores(keepMax, s)| == |s|
  {
    if s != [] {
      TakeMembers(s, |s| - 1);
      OneEach(keepMax, s[..|s| - 1]);
      BagsSize(Scores(keepMax, s[..|s| - 1]), ScoreOf(keepMax, s[|s| - 1]));
      assert s[|s| - 1] in s;
    }
  }

  lemma NoneWorse(keepMax: bool, s: seq<Slot>, y: real)
    requires IsHeap(keepMax, s) && s != [] && y in Scores(keepMax, s) && s[0].val.Some?
    ensures y <= Score(keepMax, s[0].val.value)
  {
    ScoreHasSlot(keepMax, s, y);
    var j: nat :| j < |s| && s[j].val.Some? && Score(keepMax, s[j].val.value) == y;
    TopIsWorst(keepMax, s, j);
  }

  lemma AllTaken(keepMax: bool, s: seq<Slot>)
    requires IsHeap(keepMax, s) && s != [] && s[0].val.Some?
    ensures |Scores(keepMax, s)| == |s|
  {
    forall x | x in s ensures x.val.Some? {
      var j :| 0 <= j < |s| && s[j] == x;
      TopIsWorst(keepMax, s, j);
    }
    OneEach(keepMax, s);
  }

  /** A better result for the top of a heap makes it hold the best scores... */
  lemma ReplaceIsBest(keepMax: bool, s: seq<Slot>, x: Slot)
    requires IsHeap(keepMax, s) && s != [] && Worse(keepMax, s[0].val, x.val)
    ensures Scores(keepMax, s[0 := x]) == multiset(Best(|s|, Scores(keepMax, s) + ScoreOf(keepMax, x)))
  {
    var a, y := Scores(keepMax, s), Score(keepMax, x.val.value);
    ScoresReplaced(keepMax, s, x);
    if s[0].val.None? {
      HowMany(keepMax, s[0 := x]);
      TakeAll(a + multiset{y}, |s|);
      assert Scores(keepMax, s[0 := x]) == a + multiset{y};
    } else {
      AllTaken(keepMax, s);
      forall z | z in a ensures z <= Score(keepMax, s[0].val.value) { NoneWorse(keepMax, s, z); }
      ReplaceGreatest(a, Score(keepMax, s[0].val.value), y);
    }
  }

  lemma BagsReplace<T>(a: multiset<T>, b: multiset<T>, c: multiset<T>)
    ensures b <= a + b && (a + b) - b + c == a + c
  {
  }

  lemma ScoresHead(keepMax: bool, s: seq<Slot>)
    requires s != []
    ensures Scores(keepMax, s) == Scores(keepMax, s[1..]) + ScoreOf(keepMax, s[0])
  {
    assert s[..0] + s[1..] == s[1..];
    ScoresRemove(keepMax, s, 0);
  }

  lemma ScoresReplaced(keepMax: bool, s: seq<Slot>, x: Slot)
    requires s != []
    ensures ScoreOf(keepMax, s[0]) <= Scores(keepMax, s)
    ensures Scores(keepMax, s[0 := x]) == Scores(keepMax, s) - ScoreOf(keepMax, s[0]) + ScoreOf(keepMax, x)
  {
    var t := s[0 := x];
    ScoresHead(keepMax, s);
    ScoresHead(keepMax, t);
    assert t[1..] == s[1..];
    BagsReplace(Scores(keepMax, s[1..]), ScoreOf(keepMax, s[0]), ScoreOf(keepMax, x));
  }

  lemma TakeAll(m: multiset<real>, k: nat)
    requires |m| <= k
    ensures m == multiset(Best(k, m))
  {
    BestBag(m, k, m);
  }

  lemma ReplaceGreatest(a: multiset<real>, top: real, y: real)
    requires top in a && y < top && forall z :: z in a ==> z <= top
    ensures a - multiset{top} + multiset{y} == multiset(Best(|a|, a + multiset{y}))
  {
    var b, all := a - multiset{top} + multiset{y}, a + multiset{y};
    assert all - b == multiset{top};
    assert forall z :: z in b ==> z in a || z == y;
    BestBag(b, |a|, all);
  }

  /** ... and any other result would not. */
  lemma KeepIsBest(keepMax: bool, s: seq<Slot>, x: Slot)
    requires IsHeap(keepMax, s) && s != [] && !Worse(keepMax, s[0].val, x.val)
    ensures Scores(keepMax, s) == multiset(Best(|s|, Scores(keepMax, s) + ScoreOf(keepMax, x)))
  {
    var a := Scores(keepMax, s);
    HowMany(keepMax, s);
    if x.val.None? {
      assert a + multiset{} == a;
      BestBag(a, |s|, a);
    } else {
      AllTaken(keepMax, s);
      var y := Score(keepMax, x.val.value);
      assert a + multiset{y} - a == multiset{y};
      forall z | z in a ensures z <= y { NoneWorse(keepMax, s, z); }
      BestBag(a, |s|, a + multiset{y});
    }
  }

  // ---- offering results ----

  /** The heap of a query: at least one place, and free places have no identifier. */
  ghost predicate HeapRow(keepMax: bool, s: seq<Slot>) {
    && s != [] && IsHeap(keepMax, s)
    && forall j :: 0 <= j < |s| && s[j].val.None? ==> s[j].id == -1
  }

  /** One result offered to a heap. */
  ghost function Offered(keepMax: bool, s: seq<Slot>, x: Slot): (r: seq<Slot>)
    requires s != []
    ensures |r| == |s|
  {
    if Worse(keepMax, s[0].val, x.val) then Down(keepMax, s[0 := x], |s|, x, 0) else s
  }

  ghost function OfferedAll(keepMax: bool, s: seq<Slot>, line: seq<Slot>): (r: seq<Slot>)
    requires s != []
    ensures |r| == |s|
  {
    if line == [] then s else Offered(keepMax, OfferedAll(keepMax, s, line[..|line| - 1]), line[|line| - 1])
  }

  lemma ReplacedMembers(s: seq<Slot>, x: Slot, r: seq<Slot>)
    requires s != [] && multiset(r) == multiset(s[0 := x])
    ensures multiset(r) <= multiset(s) + multiset{x}
    ensures forall y :: y in r ==> y in s || y == x
  {
    forall y | y in r ensures y in s || y == x {
      assert y in multiset(s[0 := x]);
    }
  }

  lemma ReplacedByBetter(keepMax: bool, s: seq<Slot>, x: Slot)
    requires HeapRow(keepMax, s) && Worse(keepMax, s[0].val, x.val)
    ensures HeapRow(keepMax, Offered(keepMax, s, x))
    ensures multiset(Offered(keepMax, s, x)) == multiset(s[0 := x])
  {
    var r := Offered(keepMax, s, x);
    assert s[..|s|] == s && r[..|s|] == r;
    DownKeepsHeap(keepMax, s, |s|, x);
    ReplacedMembers(s, x, r);
    forall j | 0 <= j < |r| && r[j].val.None? ensures r[j].id == -1 {
      assert r[j] in r;
    }
  }

  /** A result is taken, in place of the top, exactly when the top is free or strictly worse; otherwise nothing
      changes. */
  lemma OfferedMeans(keepMax: bool, s: seq<Slot>, x: Slot)
    requires HeapRow(keepMax, s)
    ensures var top := s[0].val;
            if x.val.Some? && (top.None? || if keepMax then x.val.value > top.value else x.val.value < top.value)
            then multiset(Offered(keepMax, s, x)) == multiset(s[0 := x])
            else Offered(keepMax, s, x) == s
  {
    if Worse(keepMax, s[0].val, x.val) { ReplacedByBetter(keepMax, s, x); }
  }

  /** A heap that is offered a result stays one, and invents nothing... */
  lemma OfferedKeeps(keepMax: bool, s: seq<Slot>, x: Slot)
    requires HeapRow(keepMax, s)
    ensures HeapRow(keepMax, Offered(keepMax, s, x))
    ensures multiset(Offered(keepMax, s, x)) <= multiset(s) + multiset{x}
  {
    if Worse(keepMax, s[0].val, x.val) {
      ReplacedByBetter(keepMax, s, x);
      ReplacedMembers(s, x, Offered(keepMax, s, x));
    }
  }

  /** ... and keeps the best scores. */
  lemma OfferedIsBest(keepMax: bool, s: seq<Slot>, x: Slot)
    requires HeapRow(keepMax, s)
    ensures Scores(keepMax, Offered(keepMax, s, x))
            == multiset(Best(|s|, Scores(keepMax, s) + ScoreOf(keepMax, x)))
  {
    if Worse(keepMax, s[0].val, x.val) {
      ReplacedByBetter(keepMax, s, x);
      ScoresPermuted(keepMax, Offered(keepMax, s, x), s[0 := x]);
      ReplaceIsBest(keepMax, s, x);
    } else {
      KeepIsBest(keepMax, s, x);
    }
  }

  /** The same for a line of results. */
  lemma {:induction false} OfferedAllKeeps(keepMax: bool, s: seq<Slot>, line: seq<Slot>)
    requires HeapRow(keepMax, s)
    ensures HeapRow(keepMax, OfferedAll(keepMax, s, line))
    ensures multiset(OfferedAll(keepMax, s, line)) <= multiset(s) + multiset(line)
  {
    if line != [] {
      var init, x := line[..|line| - 1], line[|line| - 1];
      var t := OfferedAll(keepMax, s, init);
      OfferedAllKeeps(keepMax, s, init);
      OfferedKeeps(keepMax, t, x);
      assert line == init + [x];
      MoreMembers(multiset(Offered(keepMax, t, x)), multiset(s), multiset(init), multiset(t), multiset{x});
    }
  }

  lemma MoreMembers<T>(a: multiset<T>, s: multiset<T>, init: multiset<T>, t: multiset<T>, x: multiset<T>)
    requires t <= s + init && a <= t + x
    ensures a <= s + (init + x)
  {
  }

  lemma {:induction false} OfferedAllIsBest(keepMax: bool, s: seq<Slot>, line: seq<Slot>)
    requires HeapRow(keepMax, s)
    ensures Scores(keepMax, OfferedAll(keepMax, s, line))
            == multiset(Best(|s|, Scores(keepMax, s) + Scores(keepMax, line)))
  {
    var a := Scores(keepMax, s);
    if line == [] {
      HowMany(keepMax, s);
      TakeAll(a, |s|);
      assert a + multiset{} == a;
    } else {
      var init, x := line[..|line| - 1], line[|line| - 1];
      OfferedAllKeeps(keepMax, s, init);
      OfferedAllIsBest(keepMax, s, init);
      OfferedIsBest(keepMax, OfferedAll(keepMax, s, init), x);
      MergeAbsorbs(|s|, a + Scores(keepMax, init), ScoreOf(keepMax, x));
      BagsAssociate(a, Scores(keepMax, init), ScoreOf(keepMax, x));
    }
  }

  // ---- sorting a heap ----

  predicate IsReal(x: Slot) {
    x.id != -1
  }

  /** No result comes after a worse one. */
  ghost predicate BestFirst(keepMax: bool, s: seq<Slot>) {
    forall a, b :: 0 <= a < b < |s| ==> !WorseSlot(keepMax, s[a], s[b])
  }

  /** The results of `was` that have an identifier, the best ones first, and free places behind. */
  ghost predicate Reordered(keepMax: bool, was: seq<Slot>, r: seq<Slot>, n: nat) {
    && n <= |r| == |was|
    && BestFirst(keepMax, r[..n])
    && multiset(r[..n]) == multiset(Filter(IsReal, was))
    && forall j :: n <= j < |r| ==> r[j] == FREE
  }

  /** A heap, and the sorted results taken from it so far. */
  ghost predicate Reordering(keepMax: bool, was: seq<Slot>, heap: seq<Slot>, tail: seq<Slot>) {
    && IsHeap(keepMax, heap)
    && BestFirst(keepMax, tail)
    && (forall x, y :: x in heap && y in tail ==> !WorseSlot(keepMax, x, y))
    && multiset(Filter(IsReal, heap)) + multiset(tail) == multiset(Filter(IsReal, was))
  }

  lemma {:induction false} FilterCount<T>(f: T -> bool, s: seq<T>, y: T)
    ensures multiset(Filter(f, s))[y] == if f(y) then multiset(s)[y] else 0
  {
    if s != [] {
      FilterCount(f, s[1..], y);
      SplitHead(s);
      if f(s[0]) { SplitHead(Filter(f, s)); }
    }
  }

  lemma FilterOneLess(s: seq<Slot>, t: seq<Slot>, x: Slot)
    requires multiset(s) == multiset(t) + multiset{x}
    ensures multiset(Filter(IsReal, s)) == multiset(Filter(IsReal, t)) + if IsReal(x) then multiset{x} else multiset{}
  {
    var a, b := multiset(Filter(IsReal, s)), multiset(Filter(IsReal, t));
    var c := if IsReal(x) then multiset{x} else multiset{};
    forall y: Slot ensures a[y] == (b + c)[y] {
      FilterCount(IsReal, s, y);
      FilterCount(IsReal, t, y);
    }
  }

  lemma ConsBestFirst(keepMax: bool, x: Slot, s: seq<Slot>)
    requires BestFirst(keepMax, s) && forall y :: y in s ==> !WorseSlot(keepMax, x, y)
    ensures BestFirst(keepMax, [x] + s)
  {
    var r := [x] + s;
    forall a, b | 0 <= a < b < |r| ensures !WorseSlot(keepMax, r[a], r[b]) {
      assert r[b] == s[b - 1] && s[b - 1] in s;
    }
  }

  lemma RestBelowTop(keepMax: bool, heap: seq<Slot>, heap': seq<Slot>)
    requires heap != [] && IsHeap(keepMax, heap) && multiset(heap) == multiset(heap') + multiset{heap[0]}
    ensures forall x :: x in heap' ==> x in heap && !WorseSlot(keepMax, x, heap[0])
  {
    forall x | x in heap' ensures x in heap && !WorseSlot(keepMax, x, heap[0]) {
      assert x in multiset(heap') && x in multiset(heap);
      var j :| 0 <= j < |heap| && heap[j] == x;
      TopIsWorst(keepMax, heap, j);
    }
  }

  /** Taking the top from the heap puts it in front of the sorted results, unless it has no identifier. */
  lemma TakeTop(keepMax: bool, was: seq<Slot>, heap: seq<Slot>, heap': seq<Slot>, tail: seq<Slot>, tail': seq<Slot>)
    requires Reordering(keepMax, was, heap, tail) && heap != [] && IsHeap(keepMax, heap')
    requires multiset(heap) == multiset(heap') + multiset{heap[0]}
    requires tail' == if IsReal(heap[0]) then [heap[0]] + tail else tail
    ensures Reordering(keepMax, was, heap', tail')
  {
    var top := heap[0];
    RestBelowTop(keepMax, heap, heap');
    ConsBestFirst(keepMax, top, tail);
    FilterOneLess(heap, heap', top);
    TopToTail(multiset(Filter(IsReal, heap')), multiset{top}, multiset(tail));
    if IsReal(top) {
      assert multiset(tail') == multiset{top} + multiset(tail);
      assert forall y :: y in tail' ==> y == top || y in tail;
    }
  }

  lemma TopToTail<T>(a: multiset<T>, x: multiset<T>, b: multiset<T>)
    ensures (a + x) + b == a + (x + b) && (a + multiset{}) + b == a + b
  {
  }

  /** Popping the top of the heap in the first `n` places: its last result moves down from there. */
  ghost function Popped(keepMax: bool, s: seq<Slot>, n: nat): (r: seq<Slot>)
    requires 0 < n <= |s|
    ensures |r| == |s|
  {
    Down(keepMax, s[0 := s[n - 1]], n, s[n - 1], 0)
  }

  lemma PoppedIsHeap(keepMax: bool, s: seq<Slot>, n: nat)
    requires 0 < n <= |s| && IsHeap(keepMax, s[..n])
    ensures IsHeap(keepMax, Popped(keepMax, s, n)[..n - 1]) && Popped(keepMax, s, n)[n..] == s[n..]
  {
    var u := Popped(keepMax, s, n)[..n];
    DownKeepsHeap(keepMax, s, n, s[n - 1]);
    PrefixIsHeap(keepMax, u, n - 1);
    assert u[..n - 1] == Popped(keepMax, s, n)[..n - 1];
  }

  lemma PoppedLosesTop(keepMax: bool, s: seq<Slot>, n: nat)
    requires 0 < n <= |s| && IsHeap(keepMax, s[..n])
    ensures multiset(s[..n]) == multiset(Popped(keepMax, s, n)[..n - 1]) + multiset{s[0]}
  {
    var u := Popped(keepMax, s, n)[..n];
    DownKeepsHeap(keepMax, s, n, s[n - 1]);
    PoppedBag(s[..n], u, s[n - 1]);
    assert u[..n - 1] == Popped(keepMax, s, n)[..n - 1];
  }

  lemma PoppedBag<T>(s: seq<T>, t: seq<T>, x: T)
    requires |s| == |t| > 0 && t[|t| - 1] == x && multiset(t) == multiset(s[0 := x])
    ensures multiset(s) == multiset(t[..|s| - 1]) + multiset{s[0]}
  {
    var u := s[0 := x];
    assert t == t[..|s| - 1] + [x];
    SplitHead(s);
    SplitHead(u);
    assert u[1..] == s[1..];
    DropSame(multiset(t[..|s| - 1]), multiset(s[1..]), x);
  }

  lemma DropSame<T>(a: multiset<T>, b: multiset<T>, x: T)
    requires a + multiset{x} == multiset{x} + b
    ensures a == b
  {
    assert a == a + multiset{x} - multiset{x};
    assert b == multiset{x} + b - multiset{x};
  }

  /** One round of sorting: the top is popped from the first `n` places and put before the last `m`. */
  ghost function PoppedToEnd(keepMax: bool, s: seq<Slot>, n: nat, m: nat): (r: seq<Slot>)
    requires 0 < n && n + m <= |s|
    ensures |r| == |s|
  {
    Popped(keepMax, s, n)[|s| - m - 1 := s[0]]
  }

  /** The remaining rounds; the place of a result without identifier is overwritten by the next. */
  ghost function Unloaded(keepMax: bool, s: seq<Slot>, n: nat, m: nat): (r: (seq<Slot>, nat))
    requires n + m <= |s|
    ensures |r.0| == |s| && r.1 <= n + m
    decreases n
  {
    if n == 0 then (s, m)
    else Unloaded(keepMax, PoppedToEnd(keepMax, s, n, m), n - 1, if IsReal(s[0]) then m + 1 else m)
  }

  ghost function ToFront(s: seq<Slot>, n: nat): (r: seq<Slot>)
    requires n <= |s|
    ensures |r| == |s|
  {
    s[|s| - n..] + seq(|s| - n, _ => FREE)
  }

  ghost function SortedHeap(keepMax: bool, s: seq<Slot>): (seq<Slot>, nat) {
    var r := Unloaded(keepMax, s, |s|, 0);
    (ToFront(r.0, r.1), r.1)
  }

  lemma Slices<T>(s: seq<T>, t: seq<T>, n: nat, m: nat, top: T)
    requires 0 < n && n + m <= |s| == |t| && t[n..] == s[n..]
    ensures var r := t[|s| - m - 1 := top];
            && r[..n - 1] == t[..n - 1] && r[|s| - m..] == s[|s| - m..]
            && r[|s| - m - 1..] == [top] + s[|s| - m..]
  {
    assert t[|s| - m..] == t[n..][|s| - m - n..] == s[|s| - m..];
  }

  /** One round. */
  lemma RoundKeeps(keepMax: bool, was: seq<Slot>, s: seq<Slot>, n: nat, m: nat, heap: seq<Slot>, tail: seq<Slot>)
    requires 0 < n && n + m <= |s| && Reordering(keepMax, was, s[..n], s[|s| - m..])
    requires var r, m' := PoppedToEnd(keepMax, s, n, m), if IsReal(s[0]) then m + 1 else m;
             heap == r[..n - 1] && tail == r[|s| - m'..]
    ensures Reordering(keepMax, was, heap, tail)
  {
    PoppedIsHeap(keepMax, s, n);
    PoppedLosesTop(keepMax, s, n);
    Slices(s, Popped(keepMax, s, n), n, m, s[0]);
    var heap0, tail0 := s[..n], s[|s| - m..];
    assert heap0[0] == s[0];
    assert tail == if IsReal(s[0]) then [s[0]] + tail0 else tail0;
    TakeTop(keepMax, was, heap0, heap, tail0, tail);
  }

  /** Sorting goes from `s`, with a heap in its first `n` places and results in its last `m`, to `r`. */
  ghost predicate LeadsTo(keepMax: bool, s: seq<Slot>, n: nat, m: nat, r: seq<Slot>, m': nat) {
    n + m <= |s| && (r, m') == Unloaded(keepMax, s, n, m)
  }

  /** The rounds so far and those still to come. */
  ghost predicate HalfSorted(keepMax: bool, was: seq<Slot>, s: seq<Slot>, n: nat, m: nat, r: seq<Slot>, m': nat) {
    LeadsTo(keepMax, s, n, m, r, m') && Reordering(keepMax, was, s[..n], s[|s| - m..])
  }

  lemma NextRound(keepMax: bool, was: seq<Slot>, s: seq<Slot>, n: nat, m: nat, r: seq<Slot>, m': nat)
    requires HalfSorted(keepMax, was, s, n + 1, m, r, m')
    ensures exists t, i :: HalfSorted(keepMax, was, t, n, i, r, m')
  {
    var t, i := PoppedToEnd(keepMax, s, n + 1, m), if IsReal(s[0]) then m + 1 else m;
    RoundKeeps(keepMax, was, s, n + 1, m, t[..n], t[|t| - i..]);
    assert HalfSorted(keepMax, was, t, n, i, r, m');
  }

  lemma {:induction false} UnloadedIsSorted(keepMax: bool, was: seq<Slot>, s: seq<Slot>, n: nat, m: nat,
                                            r: seq<Slot>, m': nat, tail: seq<Slot>)
    requires HalfSorted(keepMax, was, s, n, m, r, m') && m' <= |r| && tail == r[|r| - m'..]
    ensures Reordering(keepMax, was, [], tail)
    decreases n
  {
    if n == 0 {
      assert s[..0] == [] && tail == s[|s| - m..];
    } else {
      NextRound(keepMax, was, s, n - 1, m, r, m');
      var t, i :| HalfSorted(keepMax, was, t, n - 1, i, r, m');
      UnloadedIsSorted(keepMax, was, t, n - 1, i, r, m', tail);
    }
  }

  /** Sorting a heap puts its results in order, except those without identifier. */
  lemma SortedHeapIsReordered(keepMax: bool, s: seq<Slot>)
    requires IsHeap(keepMax, s)
    ensures Reordered(keepMax, s, SortedHeap(keepMax, s).0, SortedHeap(keepMax, s).1)
  {
    var r := Unloaded(keepMax, s, |s|, 0);
    var tail := r.0[|s| - r.1..];
    StartSorting(keepMax, s);
    assert s[..|s|] == s && s[|s| - 0..] == [];
    UnloadedIsSorted(keepMax, s, s, |s|, 0, r.0, r.1, tail);
    EndSorting(keepMax, s, r.0, r.1, tail);
  }

  lemma StartSorting(keepMax: bool, s: seq<Slot>)
    requires IsHeap(keepMax, s)
    ensures Reordering(keepMax, s, s, [])
  {
    assert multiset(Filter(IsReal, s)) + multiset{} == multiset(Filter(IsReal, s));
  }

  lemma EndSorting(keepMax: bool, was: seq<Slot>, s: seq<Slot>, n: nat, tail: seq<Slot>)
    requires n <= |s| == |was| && tail == s[|s| - n..] && Reordering(keepMax, was, [], tail)
    ensures Reordered(keepMax, was, ToFront(s, n), n)
  {
    assert multiset{} + multiset(tail) == multiset(tail);
    assert ToFront(s, n)[..n] == tail;
  }

  // ---- the distances of a sorted heap ----

  /** The scores of `s`, in order. */
  ghost function ScoreSeq(keepMax: bool, s: seq<Slot>): (r: seq<real>)
    requires Full(s)
    ensures |r| == |s| && forall j :: 0 <= j < |s| ==> r[j] == Score(keepMax, s[j].val.value)
  {
    seq(|s|, j requires 0 <= j < |s| => Score(keepMax, s[j].val.value))
  }

  lemma {:induction false} ScoreSeqBag(keepMax: bool, s: seq<Slot>)
    requires Full(s)
    ensures multiset(ScoreSeq(keepMax, s)) == Scores(keepMax, s)
  {
    if s != [] {
      var last := |s| - 1;
      TakeMembers(s, last);
      ScoreSeqBag(keepMax, s[..last]);
      var r := ScoreSeq(keepMax, s);
      assert r == ScoreSeq(keepMax, s[..last]) + [r[last]];
    }
  }

  lemma {:induction false} ScoresOfReal(keepMax: bool, s: seq<Slot>)
    requires forall x :: x in s && x.id == -1 ==> x.val.None?
    ensures Scores(keepMax, Filter(IsReal, s)) == Scores(keepMax, s)
  {
    if s != [] {
      ScoresOfReal(keepMax, s[1..]);
      ScoresHead(keepMax, s);
      var r := Filter(IsReal, s);
      if IsReal(s[0]) {
        ScoresHead(keepMax, r);
        assert r[1..] == Filter(IsReal, s[1..]);
      } else {
        assert s[0] in s;
      }
    }
  }

  lemma RealMembers(keepMax: bool, was: seq<Slot>, r: seq<Slot>)
    requires HeapRow(keepMax, was) && multiset(r) == multiset(Filter(IsReal, was))
    ensures Full(r)
  {
    FilterMembers(IsReal, was);
    forall x | x in r ensures x.val.Some? {
      assert x in multiset(Filter(IsReal, was));
      assert x in was && IsReal(x);
    }
  }

  /** A sorted heap shows the best scores in order, unless a result has the identifier -1. */
  lemma ReorderedShowsBest(keepMax: bool, was: seq<Slot>, r: seq<Slot>, n: nat, best: seq<real>)
    requires HeapRow(keepMax, was) && Reordered(keepMax, was, r, n)
    requires Scores(keepMax, was) == multiset(best) && Increasing(best)
    requires forall x :: x in was && x.id == -1 ==> x.val.None?
    ensures Full(r[..n]) && ScoreSeq(keepMax, r[..n]) == best
  {
    var t := r[..n];
    RealMembers(keepMax, was, t);
    ScoresPermuted(keepMax, t, Filter(IsReal, was));
    ScoresOfReal(keepMax, was);
    ScoreSeqBag(keepMax, t);
    SortedIsUnique(ScoreSeq(keepMax, t), best);
  }

  lemma SortedIsUnique(s: seq<real>, t: seq<real>)
    requires Increasing(s) && Increasing(t) && multiset(s) == multiset(t)
    ensures s == t
  {
    assert |multiset(s)| == |s| && |multiset(t)| == |t|;
    TopKUnique(s, t, |s|, multiset(s));
  }
}
