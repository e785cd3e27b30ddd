/** Rearranging a sequence, and the cut points of a sorted one. */
module Sorting {
  import opened Basics

  /** The elements of `s` at the positions `o`. */
  function Gather<T>(s: seq<T>, o: seq<nat>): (r: seq<T>)
    requires forall i :: 0 <= i < |o| ==> o[i] < |s|
    ensures |r| == |o| && forall i :: 0 <= i < |o| ==> r[i] == s[o[i]]
  {
    seq(|o|, i requires 0 <= i < |o| => s[o[i]])
  }

  lemma DropLargest(o: seq<nat>, n: nat, i: nat)
    requires IsPermutation(o, n + 1) && i < |o| && o[i] == n
    ensures IsPermutation(o[..i] + o[i + 1..], n)
  {
    var rest := o[..i] + o[i + 1..];
    forall j | 0 <= j < n ensures rest[j] < n {
      assert rest[j] == o[if j < i then j else j + 1];
    }
    forall j, k | 0 <= j < k < n ensures rest[j] != rest[k] {
      assert rest[j] == o[if j < i then j else j + 1];
      assert rest[k] == o[if k < i then k else k + 1];
    }
  }

  /** Gathering by a permutation rearranges. */
  lemma {:induction false} GatherPermutes<T>(s: seq<T>, o: seq<nat>)
    requires IsPermutation(o, |s|)
    ensures multiset(Gather(s, o)) == multiset(s)
  {
    if s != [] {
      var n := |s| - 1;
      PermutationCovers(o, |s|, n);
      var i :| 0 <= i < |o| && o[i] == n;
      DropLargest(o, n, i);
      GatherPermutes(s[..n], o[..i] + o[i + 1..]);
      GatherRemove(s, o, i);
      assert s == s[..n] + [s[n]];
    }
  }

  lemma GatherRemove<T>(s: seq<T>, o: seq<nat>, i: nat)
    requires s != [] && IsPermutation(o, |s|) && i < |o| && o[i] == |s| - 1
    requires IsPermutation(o[..i] + o[i + 1..], |s| - 1)
    ensures multiset(Gather(s, o)) == multiset(Gather(s[..|s| - 1], o[..i] + o[i + 1..])) + multiset{s[|s| - 1]}
  {
    GatherRest(s, o, i);
    TakeOut(Gather(s, o), i);
  }

  lemma GatherRest<T>(s: seq<T>, o: seq<nat>, i: nat)
    requires s != [] && IsPermutation(o, |s|) && i < |o| && o[i] == |s| - 1
    requires IsPermutation(o[..i] + o[i + 1..], |s| - 1)
    ensures Gather(s[..|s| - 1], o[..i] + o[i + 1..]) == Gather(s, o)[..i] + Gather(s, o)[i + 1..]
  {
    var n, t, rest := |s| - 1, Gather(s, o), o[..i] + o[i + 1..];
    forall j | 0 <= j < n ensures Gather(s[..n], rest)[j] == (t[..i] + t[i + 1..])[j] {
      assert rest[j] == o[if j < i then j else j + 1];
    }
  }

  lemma TakeOut<T>(t: seq<T>, i: nat)
    requires i < |t|
    ensures multiset(t) == multiset(t[..i] + t[i + 1..]) + multiset{t[i]}
  {
    RemoveAt(t, i);
    assert t[i] in multiset(t);
  }

  /** Elements that satisfy `f` come before all others. */
  ghost predicate Separates<T>(f: T -> bool, s: seq<T>) {
    forall i, j :: 0 <= i <= j < |s| && f(s[j]) ==> f(s[i])
  }

  /** In a sequence separated by `f`, the number of elements that satisfy `f` is the place of the cut. */
  lemma {:induction false} CutPlace<T>(f: T -> bool, s: seq<T>)
    requires Separates(f, s)
    ensures |Filter(f, s)| <= |s|
    ensures Filter(f, s) == s[..|Filter(f, s)|]
    ensures forall p {:trigger s[p]} :: 0 <= p < |s| ==> (f(s[p]) <==> p < |Filter(f, s)|)
  {
    if s == [] {
    } else if f(s[0]) {
      CutPlace(f, s[1..]);
      assert s == [s[0]] + s[1..];
    } else {
      assert forall x :: x in s ==> !f(x);
      FilterNone(f, s);
    }
  }
}
