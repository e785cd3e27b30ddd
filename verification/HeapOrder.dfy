/** Binary heaps of results (faiss/utils/Heap.h, faiss/utils/ordered_key_value.h): the order of
    results, and what moving one down a heap does. The worst result is on top. */
module HeapOrder {
  import opened Basics

  /** A result: a distance and an identifier. No distance is the neutral one, the worst of all. */
  datatype Slot = Slot(val: Option<real>, id: int)

  const FREE := Slot(None, -1)

  predicate Worse(keepMax: bool, a: Option<real>, b: Option<real>) {
    b.Some? && (a.None? || Score(keepMax, a.value) > Score(keepMax, b.value))
  }

  /** Identifiers break ties. */
  predicate WorseSlot(keepMax: bool, a: Slot, b: Slot) {
    Worse(keepMax, a.val, b.val) || (a.val == b.val && if keepMax then a.id < b.id else a.id > b.id)
  }

  lemma SlotOrder(keepMax: bool, a: Slot, b: Slot, c: Slot)
    ensures !WorseSlot(keepMax, a, a)
    ensures WorseSlot(keepMax, a, b) ==> !WorseSlot(keepMax, b, a)
    ensures a == b || WorseSlot(keepMax, a, b) || WorseSlot(keepMax, b, a)
    ensures !WorseSlot(keepMax, a, b) && !WorseSlot(keepMax, b, c) ==> !WorseSlot(keepMax, a, c)
  {
  }

  /** `c` is a child of `p` in a binary tree laid out in an array. */
  predicate IsChild(p: int, c: int) {
    c == 2 * p + 1 || c == 2 * p + 2
  }

  ghost predicate IsHeap(keepMax: bool, s: seq<Slot>) {
    forall p, c {:trigger s[p], s[c]} :: 0 <= p < c < |s| && IsChild(p, c) ==> !WorseSlot(keepMax, s[c], s[p])
  }

  /** The top of a heap is its worst result. */
  lemma {:induction false} TopIsWorst(keepMax: bool, s: seq<Slot>, j: nat)
    requires IsHeap(keepMax, s) && j < |s|
    ensures !WorseSlot(keepMax, s[j], s[0])
  {
    if j > 0 {
      var p := (j - 1) / 2;
      assert IsChild(p, j);
      TopIsWorst(keepMax, s, p);
      SlotOrder(keepMax, s[j], s[p], s[0]);
    }
  }

  lemma PrefixIsHeap(keepMax: bool, s: seq<Slot>, n: nat)
    requires n <= |s| && IsHeap(keepMax, s)
    ensures IsHeap(keepMax, s[..n])
  {
  }

  /** As in a heap, except that position `i` may hold something better than what is below it. */
  ghost predicate HeapBut(keepMax: bool, s: seq<Slot>, i: nat) {
    && i < |s|
    && (forall p, c {:trigger s[p], s[c]} ::
          0 <= p < c < |s| && IsChild(p, c) && p != i ==> !WorseSlot(keepMax, s[c], s[p]))
    && (forall p, c {:trigger s[p], s[c]} ::
          0 <= p < c < |s| && IsChild(p, i) && IsChild(i, c) ==> !WorseSlot(keepMax, s[c], s[p]))
  }

  function Swap<T>(s: seq<T>, i: nat, j: nat): (r: seq<T>)
    requires i < |s| && j < |s|
    ensures |r| == |s| && multiset(r) == multiset(s)
  {
    s[i := s[j]][j := s[i]]
  }

  /** `c` is a child of `i`, and no child is worse. */
  ghost predicate WorstChild(keepMax: bool, s: seq<Slot>, i: nat, c: nat) {
    && i < c < |s| && IsChild(i, c)
    && forall j :: i < j < |s| && IsChild(i, j) ==> !WorseSlot(keepMax, s[j], s[c])
  }

  /** One step down: the worst child moves up. */
  lemma StepDown(keepMax: bool, s: seq<Slot>, i: nat, c: nat)
    requires HeapBut(keepMax, s, i) && WorstChild(keepMax, s, i, c) && !WorseSlot(keepMax, s[i], s[c])
    ensures HeapBut(keepMax, Swap(s, i, c), c)
  {
  }

  /** The way down ends at a position without children... */
  lemma NoChildren(keepMax: bool, s: seq<Slot>, i: nat)
    requires HeapBut(keepMax, s, i) && 2 * i + 1 >= |s|
    ensures IsHeap(keepMax, s)
  {
  }

  /** ... or where even the worst child is better. */
  lemma BetterChildren(keepMax: bool, s: seq<Slot>, i: nat, c: nat)
    requires HeapBut(keepMax, s, i) && WorstChild(keepMax, s, i, c) && WorseSlot(keepMax, s[i], s[c])
    ensures IsHeap(keepMax, s)
  {
    forall j | i < j < |s| && IsChild(i, j) ensures !WorseSlot(keepMax, s[j], s[i]) {
      SlotOrder(keepMax, s[i], s[c], s[i]);
      SlotOrder(keepMax, s[j], s[c], s[i]);
    }
  }

  lemma PickChild(keepMax: bool, s: seq<Slot>, i: nat)
    requires 2 * i + 1 < |s|
    ensures WorstChild(keepMax, s, i,
                       if 2 * i + 2 == |s| || WorseSlot(keepMax, s[2 * i + 1], s[2 * i + 2])
                       then 2 * i + 1 else 2 * i + 2)
  {
    SlotOrder(keepMax, s[2 * i + 1], s[2 * i + 1], s[2 * i + 1]);
    if 2 * i + 2 < |s| { SlotOrder(keepMax, s[2 * i + 1], s[2 * i + 2], s[2 * i + 2]); }
  }

  /** `x` has come down to position `i` of the heap `was`, whose top it replaces. */
  ghost predicate Sifting(keepMax: bool, was: seq<Slot>, x: Slot, s: seq<Slot>, i: nat) {
    && |s| == |was| && i < |s| && s[i] == x
    && HeapBut(keepMax, s, i)
    && multiset(s) == multiset(was[0 := x])
    && (was[|s| - 1] == x ==> s[|s| - 1] == x)
  }

  /** The heap with `x` in its place instead of the top of `was`. The last place keeps its `x`. */
  ghost predicate Sifted(keepMax: bool, was: seq<Slot>, x: Slot, s: seq<Slot>) {
    && |s| == |was| && was != []
    && IsHeap(keepMax, s)
    && multiset(s) == multiset(was[0 := x])
    && (was[|s| - 1] == x ==> s[|s| - 1] == x)
  }

  lemma SiftStarts(keepMax: bool, was: seq<Slot>, x: Slot)
    requires was != [] && IsHeap(keepMax, was)
    ensures Sifting(keepMax, was, x, was[0 := x], 0)
  {
  }

  /** The child that takes the place of `x`, or none if `x` stays. */
  function Riser(keepMax: bool, s: seq<Slot>, x: Slot, i: nat): (c: Option<nat>)
    ensures c.Some? ==> i < c.value < |s|
  {
    var i1, i2 := 2 * i + 1, 2 * i + 2;
    if i1 >= |s| then None
    else
      var c := if i2 == |s| || WorseSlot(keepMax, s[i1], s[i2]) then i1 else i2;
      if WorseSlot(keepMax, x, s[c]) then None else Some(c)
  }

  lemma SiftStep(keepMax: bool, was: seq<Slot>, x: Slot, s: seq<Slot>, i: nat)
    requires Sifting(keepMax, was, x, s, i)
    ensures var c := Riser(keepMax, s, x, i);
            if c.Some? then Sifting(keepMax, was, x, Swap(s, i, c.value), c.value) else Sifted(keepMax, was, x, s)
  {
    if 2 * i + 1 >= |s| {
      NoChildren(keepMax, s, i);
    } else {
      PickChild(keepMax, s, i);
      var c := Riser(keepMax, s, x, i);
      if c.Some? {
        StepDown(keepMax, s, i, c.value);
      } else {
        var i1, i2 := 2 * i + 1, 2 * i + 2;
        BetterChildren(keepMax, s, i, if i2 == |s| || WorseSlot(keepMax, s[i1], s[i2]) then i1 else i2);
      }
    }
  }

  /** Let `x` move down from position `i`, in the first `n` places of `s`. */
  ghost function Down(keepMax: bool, s: seq<Slot>, n: nat, x: Slot, i: nat): (r: seq<Slot>)
    requires i < n <= |s|
    ensures |r| == |s|
    decreases n - i
  {
    var c := Riser(keepMax, s[..n], x, i);
    if c.None? then s else Down(keepMax, Swap(s, i, c.value), n, x, c.value)
  }

  lemma {:induction false} DownIsSifted(keepMax: bool, was: seq<Slot>, n: nat, x: Slot, s: seq<Slot>, i: nat)
    requires n <= |s| && Sifting(keepMax, was, x, s[..n], i)
    ensures Sifted(keepMax, was, x, Down(keepMax, s, n, x, i)[..n])
    ensures Down(keepMax, s, n, x, i)[n..] == s[n..]
    decreases n - i
  {
    var c := Riser(keepMax, s[..n], x, i);
    SiftStep(keepMax, was, x, s[..n], i);
    if c.Some? {
      var t := Swap(s, i, c.value);
      assert t[..n] == Swap(s[..n], i, c.value) && t[n..] == s[n..];
      DownIsSifted(keepMax, was, n, x, t, c.value);
    }
  }

  /** A result that takes the place of the top of a heap moves down to where it belongs. */
  lemma DownKeepsHeap(keepMax: bool, s: seq<Slot>, n: nat, x: Slot)
    requires 0 < n <= |s| && IsHeap(keepMax, s[..n])
    ensures Sifted(keepMax, s[..n], x, Down(keepMax, s[0 := x], n, x, 0)[..n])
    ensures Down(keepMax, s[0 := x], n, x, 0)[n..] == s[n..]
  {
    SiftStarts(keepMax, s[..n], x);
    assert s[..n][0 := x] == s[0 := x][..n];
    DownIsSifted(keepMax, s[..n], n, x, s[0 := x], 0);
  }
}
