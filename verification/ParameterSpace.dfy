/** Parameter combinations as mixed-radix numbers (faiss/AutoTune.cpp): digit i of a
    combination number selects the value of parameter i. */
module ParameterSpace {
  import opened Basics

  datatype ParameterRange = ParameterRange(name: string, values: seq<real>)

  ghost predicate NonEmpty(dims: seq<nat>) {
    forall i :: 0 <= i < |dims| ==> dims[i] > 0
  }

  /** The number of tuples. */
  function Combinations(dims: seq<nat>): nat {
    if dims == [] then 1 else dims[0] * Combinations(dims[1..])
  }

  ghost predicate IsTuple(dims: seq<nat>, d: seq<nat>) {
    |d| == |dims| && forall i :: 0 <= i < |d| ==> d[i] < dims[i]
  }

  /** Digits, least significant first. */
  function Digits(dims: seq<nat>, c: nat): (d: seq<nat>)
    requires NonEmpty(dims)
    ensures IsTuple(dims, d)
  {
    if dims == [] then [] else [c % dims[0]] + Digits(dims[1..], c / dims[0])
  }

  /** The number a tuple of digits stands for. */
  ghost function Number(dims: seq<nat>, d: seq<nat>): nat
    requires |d| == |dims|
  {
    if dims == [] then 0 else d[0] + dims[0] * Number(dims[1..], d[1..])
  }

  lemma DigitsBelow(d: nat, q: nat, r: nat, n: nat)
    requires r < d && q < n
    ensures r + d * q < d * n
  {
    MulMonotone(d, q + 1, n);
  }

  lemma DivBelow(c: nat, d: nat, n: nat)
    requires d > 0 && c < d * n
    ensures c / d < n
  {
    if n <= c / d {
      MulMonotone(d, n, c / d);
    }
  }

  /** Tuples to numbers and back. */
  lemma {:induction false} DigitsOfNumber(dims: seq<nat>, d: seq<nat>)
    requires NonEmpty(dims) && IsTuple(dims, d)
    ensures Number(dims, d) < Combinations(dims) && Digits(dims, Number(dims, d)) == d
  {
    if dims != [] {
      DigitsOfNumber(dims[1..], d[1..]);
      DivMod(dims[0], Number(dims[1..], d[1..]), d[0]);
      DigitsBelow(dims[0], Number(dims[1..], d[1..]), d[0], Combinations(dims[1..]));
    }
  }

  lemma DivisionParts(c: nat, d: nat)
    requires d > 0
    ensures c % d + d * (c / d) == c
  {
  }

  /** Numbers to tuples and back. */
  lemma {:induction false} NumberOfDigits(dims: seq<nat>, c: nat)
    requires NonEmpty(dims) && c < Combinations(dims)
    ensures Number(dims, Digits(dims, c)) == c
  {
    if dims != [] {
      DivBelow(c, dims[0], Combinations(dims[1..]));
      NumberOfDigits(dims[1..], c / dims[0]);
      DivisionParts(c, dims[0]);
      var d := Digits(dims, c);
      assert d[1..] == Digits(dims[1..], c / dims[0]);
    }
  }

  /** Digit `i` counts how often the combinations of the parameters before it fit, up to its range. */
  lemma {:induction false} DigitAt(dims: seq<nat>, c: nat, i: nat)
    requires NonEmpty(dims) && i < |dims|
    ensures Combinations(dims[..i]) > 0 && Digits(dims, c)[i] == (c / Combinations(dims[..i])) % dims[i]
  {
    if i > 0 {
      DigitAt(dims[1..], c / dims[0], i - 1);
      assert dims[..i][1..] == dims[1..][..i - 1];
      DivDiv(c, dims[0], Combinations(dims[1..][..i - 1]));
    } else {
      assert dims[..0] == [];
    }
  }

  /** The order on combinations "in the tuple sense". */
  ghost predicate AtLeast(dims: seq<nat>, c1: nat, c2: nat)
    requires NonEmpty(dims)
  {
    var d1, d2 := Digits(dims, c1), Digits(dims, c2);
    forall i :: 0 <= i < |dims| ==> d1[i] >= d2[i]
  }

  lemma {:induction false} NumberMonotone(dims: seq<nat>, d1: seq<nat>, d2: seq<nat>)
    requires |d1| == |d2| == |dims|
    requires forall i :: 0 <= i < |dims| ==> d1[i] >= d2[i]
    ensures Number(dims, d1) >= Number(dims, d2)
  {
    if dims != [] {
      NumberMonotone(dims[1..], d1[1..], d2[1..]);
      MulMonotone(dims[0], Number(dims[1..], d2[1..]), Number(dims[1..], d1[1..]));
    }
  }

  /** A partial order that numeric order extends. */
  lemma AtLeastIsPartialOrder(dims: seq<nat>, c1: nat, c2: nat, c3: nat)
    requires NonEmpty(dims)
    requires c1 < Combinations(dims) && c2 < Combinations(dims)
    ensures AtLeast(dims, c1, c1)
    ensures AtLeast(dims, c1, c2) && AtLeast(dims, c2, c3) ==> AtLeast(dims, c1, c3)
    ensures AtLeast(dims, c1, c2) && AtLeast(dims, c2, c1) ==> c1 == c2
    ensures AtLeast(dims, c1, c2) ==> c1 >= c2
  {
    NumberOfDigits(dims, c1);
    NumberOfDigits(dims, c2);
    if AtLeast(dims, c1, c2) {
      NumberMonotone(dims, Digits(dims, c1), Digits(dims, c2));
      if AtLeast(dims, c2, c1) {
        NumberMonotone(dims, Digits(dims, c2), Digits(dims, c1));
      }
    }
  }

  lemma {:induction false} ExtremeDigits(dims: seq<nat>)
    requires NonEmpty(dims)
    ensures Combinations(dims) >= 1
    ensures forall i :: 0 <= i < |dims| ==> Digits(dims, 0)[i] == 0
    ensures forall i :: 0 <= i < |dims| ==> Digits(dims, Combinations(dims) - 1)[i] == dims[i] - 1
  {
    if dims != [] {
      ExtremeDigits(dims[1..]);
      var d, n := dims[0], Combinations(dims[1..]);
      DivMod(d, 0, 0);
      DivMod(d, n - 1, d - 1);
      assert d * n - 1 == (d - 1) + d * (n - 1);
    }
  }

  /** The fastest combination is 0, the most accurate is the last one. */
  lemma BottomAndTop(dims: seq<nat>, c: nat)
    requires NonEmpty(dims)
    ensures Combinations(dims) >= 1
    ensures AtLeast(dims, c, 0) && AtLeast(dims, Combinations(dims) - 1, c)
  {
    ExtremeDigits(dims);
    var d := Digits(dims, c);
    forall i | 0 <= i < |dims| ensures d[i] <= Digits(dims, Combinations(dims) - 1)[i] {
      assert d[i] < dims[i];
    }
  }

  lemma {:induction false} CombinationsAppend(dims: seq<nat>, n: nat)
    ensures Combinations(dims + [n]) == Combinations(dims) * n
  {
    if dims == [] {
      assert dims + [n] == [n];
    } else {
      assert (dims + [n])[1..] == dims[1..] + [n];
      CombinationsAppend(dims[1..], n);
      var a, b := dims[0], Combinations(dims[1..]);
      assert a * (b * n) == (a * b) * n;
    }
  }

  lemma {:induction false} EmptyRangeEmptySpace(dims: seq<nat>)
    ensures Combinations(dims) > 0 <==> NonEmpty(dims)
  {
    if dims != [] {
      EmptyRangeEmptySpace(dims[1..]);
      var a, b := dims[0], Combinations(dims[1..]);
      if a > 0 && b > 0 { assert a * b > 0; }
      if a * b > 0 {
        assert a != 0 && b != 0;
        forall i | 0 <= i < |dims| ensures dims[i] > 0 {
          if i > 0 { assert dims[i] == dims[1..][i - 1]; }
        }
      }
    }
  }

  /** Dividing one radix off: the digit read and what is left to read. */
  method NextDigit(ghost dims: seq<nat>, ghost d: seq<nat>, ghost i: nat, c: nat, nval: nat)
    returns (digit: nat, rest: nat)
    requires NonEmpty(dims) && |d| == |dims| && i < |dims| && nval == dims[i]
    requires d[i..] == Digits(dims[i..], c)
    ensures digit == d[i] && d[i + 1..] == Digits(dims[i + 1..], rest)
  {
    assert dims[i..][0] == dims[i] && dims[i..][1..] == dims[i + 1..];
    assert d[i..][0] == d[i] && d[i..][1..] == d[i + 1..];
    digit := c % nval;
    rest := c / nval;
  }

  /** Each parameter with the value that its digit selects. */
  ghost function Settings(ranges: seq<ParameterRange>, d: seq<nat>): (r: seq<(string, real)>)
    requires |d| == |ranges| && forall i :: 0 <= i < |d| ==> d[i] < |ranges[i].values|
    ensures |r| == |d| && forall i :: 0 <= i < |r| ==> r[i] == (ranges[i].name, ranges[i].values[d[i]])
  {
    seq(|d|, i requires 0 <= i < |d| => (ranges[i].name, ranges[i].values[d[i]]))
  }

  class ParameterSpace {
    var parameterRanges: seq<ParameterRange>
    var nExperiments: int  // 0: try all combinations

    function Dims(): (dims: seq<nat>)
      reads this
      ensures |dims| == |parameterRanges|
      ensures forall i :: 0 <= i < |dims| ==> dims[i] == |parameterRanges[i].values|
    {
      seq(|parameterRanges|, i requires 0 <= i < |parameterRanges| reads this => |parameterRanges[i].values|)
    }

    method NCombinations() returns (n: nat)
      ensures n == Combinations(Dims())
    {
      n := 1;
      ghost var dims := Dims();
      var i := 0;
      while i < |parameterRanges|
        invariant 0 <= i <= |parameterRanges|
        invariant n == Combinations(dims[..i])
      {
        CombinationsAppend(dims[..i], dims[i]);
        assert dims[..i + 1] == dims[..i] + [dims[i]];
        n := n * |parameterRanges[i].values|;
        i := i + 1;
      }
      assert dims[..i] == dims;
    }

    /** Whether combination `c1` is at least `c2` in every parameter. */
    method CombinationGe(c1: nat, c2: nat) returns (ge: bool)
      requires NonEmpty(Dims())
      ensures ge <==> AtLeast(Dims(), c1, c2)
      ensures ge <==> forall i :: 0 <= i < |parameterRanges| ==> Digits(Dims(), c1)[i] >= Digits(Dims(), c2)[i]
    {
      ghost var dims := Dims();
      ghost var d1, d2 := Digits(dims, c1), Digits(dims, c2);
      var a: nat, b: nat, i := c1, c2, 0;
      while i < |parameterRanges|
        invariant 0 <= i <= |parameterRanges|
        invariant d1[i..] == Digits(dims[i..], a) && d2[i..] == Digits(dims[i..], b)
        invariant forall j :: 0 <= j < i ==> d1[j] >= d2[j]
      {
        var nval := |parameterRanges[i].values|;
        var j1, j2;
        j1, a := NextDigit(dims, d1, i, a, nval);
        j2, b := NextDigit(dims, d2, i, b, nval);
        if !(j1 >= j2) {
          return false;
        }
        i := i + 1;
      }
      return true;
    }

    /** The settings that select combination `cno` on an index, in the order they are made. */
    method IndexParameters(cno: nat) returns (settings: seq<(string, real)>)
      requires NonEmpty(Dims())
      ensures settings == Settings(parameterRanges, Digits(Dims(), cno))
    {
      ghost var dims, d := Dims(), Digits(Dims(), cno);
      ghost var all := Settings(parameterRanges, d);
      settings := [];
      var c: nat, i := cno, 0;
      assert d[0..] == d && dims[0..] == dims && all[..0] == [];
      while i < |parameterRanges|
        invariant 0 <= i <= |parameterRanges|
        invariant d[i..] == Digits(dims[i..], c)
        invariant settings == all[..i]
      {
        var setting;
        TakeStep(all, i);
        setting, c := NextSetting(dims, d, i, c);
        settings := settings + [setting];
        i := i + 1;
      }
      assert all[..i] == all;
    }

    /** The setting of parameter `i`. */
    method NextSetting(ghost dims: seq<nat>, ghost d: seq<nat>, i: nat, c: nat)
      returns (setting: (string, real), rest: nat)
      requires dims == Dims() && NonEmpty(dims) && |d| == |dims| && i < |dims| && d[i] < dims[i]
      requires d[i..] == Digits(dims[i..], c)
      ensures d[i + 1..] == Digits(dims[i + 1..], rest)
      ensures setting == (parameterRanges[i].name, parameterRanges[i].values[d[i]])
    {
      var pr := parameterRanges[i];
      var j;
      j, rest := NextDigit(dims, d, i, c, |pr.values|);
      setting := (pr.name, pr.values[j]);
    }
  }
}
