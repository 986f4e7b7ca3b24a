/** Numbers written by digits in a base, most significant first. */
module Positional {
  type Byte = x: int | 0 <= x < 256

  function Pow(b: nat, n: nat): nat {
    if n == 0 then 1 else b * Pow(b, n - 1)
  }

  ghost predicate Digits(b: nat, ds: seq<int>) {
    forall i :: 0 <= i < |ds| ==> 0 <= ds[i] < b
  }

  /** The number written by digits in base b, most significant first. */
  function Value(b: nat, ds: seq<int>): int {
    if ds == [] then 0 else Value(b, ds[..|ds| - 1]) * b + ds[|ds| - 1]
  }

  /** The shortest digits of v in base b; none for 0. */
  function MinDigits(b: nat, v: nat): (ds: seq<int>)
    requires b >= 2
    ensures Digits(b, ds) && (ds != [] ==> ds[0] != 0)
    decreases v
  {
    if v == 0 then [] else
    Shrinks(b, v);
    MinDigits(b, v / b) + [v % b]
  }

  lemma Shrinks(b: nat, v: nat)
    requires b >= 2 && v > 0
    ensures 0 <= v / b < v && v == (v / b) * b + v % b
  {
    Multiples(b, v / b, v);
  }

  lemma Multiples(b: int, q: int, v: int)
    requires b >= 2
    ensures q >= v > 0 ==> b * q >= 2 * v
    ensures q >= 1 ==> b * q >= b
    ensures q <= -1 ==> b * q <= 0 - b
  {
    if q >= v > 0 { assert b * q >= 2 * q; }
  }

  lemma {:induction false} ValuePrepend(b: nat, d: int, ds: seq<int>)
    ensures Value(b, [d] + ds) == d * Pow(b, |ds|) + Value(b, ds)
  {
    if ds == [] {
      assert [d] + ds == [d];
      assert [d][..0] == [];
    } else {
      var n := |ds| - 1;
      assert ([d] + ds)[..n + 1] == [d] + ds[..n];
      ValuePrepend(b, d, ds[..n]);
      var p, v := Pow(b, n), Value(b, ds[..n]);
      assert (d * p + v) * b == d * (b * p) + v * b;
    }
  }

  lemma {:induction false} ValueSplit(b: nat, ds: seq<int>)
    requires ds != []
    ensures Value(b, ds) == ds[0] * Pow(b, |ds| - 1) + Value(b, ds[1..])
  {
    assert ds == [ds[0]] + ds[1..];
    ValuePrepend(b, ds[0], ds[1..]);
  }

  lemma {:induction false} ValueNonNegative(b: nat, ds: seq<int>)
    requires Digits(b, ds)
    ensures Value(b, ds) >= 0
  {
    if ds != [] {
      ValueNonNegative(b, ds[..|ds| - 1]);
    }
  }

  /** A number determines its digits, leading zeros apart. */
  lemma {:induction false} MinDigitsOfValue(b: nat, ds: seq<int>)
    requires b >= 2 && Digits(b, ds) && (ds != [] ==> ds[0] != 0)
    ensures Value(b, ds) >= 0 && MinDigits(b, Value(b, ds)) == ds
  {
    ValueNonNegative(b, ds);
    if ds != [] {
      var n := |ds| - 1;
      ValueNonNegative(b, ds[..n]);
      MinDigitsOfValue(b, ds[..n]);
      var hi, d := Value(b, ds[..n]), ds[n];
      DivMod(b, hi, d);
      if n > 0 {
        ValuePositive(b, ds[..n]);
        assert hi * b > 0;
      }
      assert ds == ds[..n] + [d];
    }
  }

  lemma DivMod(b: nat, hi: int, d: int)
    requires b >= 2 && 0 <= d < b && hi >= 0
    ensures (hi * b + d) / b == hi && (hi * b + d) % b == d
  {
    var v := hi * b + d;
    var q := v / b - hi;
    assert b * q == b * (v / b) - b * hi == d - v % b;
    Multiples(b, q, 0);
  }

  lemma {:induction false} ValuePositive(b: nat, ds: seq<int>)
    requires b >= 2 && Digits(b, ds) && ds != [] && ds[0] != 0
    ensures Value(b, ds) > 0
  {
    var n := |ds| - 1;
    if n == 0 {
      assert ds[..0] == [];
    } else {
      ValuePositive(b, ds[..n]);
      assert Value(b, ds[..n]) * b > 0;
    }
  }

  lemma ValueAppend(b: nat, ds: seq<int>, d: int)
    ensures Value(b, ds + [d]) == Value(b, ds) * b + d
  {
    assert (ds + [d])[..|ds|] == ds;
  }

  lemma {:induction false} ValueOfMinDigits(b: nat, v: nat)
    requires b >= 2
    ensures Value(b, MinDigits(b, v)) == v
    decreases v
  {
    if v > 0 {
      Shrinks(b, v);
      ValueOfMinDigits(b, v / b);
      ValueAppend(b, MinDigits(b, v / b), v % b);
    }
  }

  function LeadingZeros(ds: seq<int>): (z: nat)
    ensures z <= |ds| && (forall i :: 0 <= i < z ==> ds[i] == 0) && (z < |ds| ==> ds[z] != 0)
  {
    if ds == [] || ds[0] != 0 then 0 else 1 + LeadingZeros(ds[1..])
  }

  function Zeros(n: nat): (ds: seq<int>)
    ensures |ds| == n && forall i :: 0 <= i < n ==> ds[i] == 0
  {
    seq(n, _ => 0)
  }

  lemma {:induction false} LeadingZerosWeighNothing(b: nat, ds: seq<int>, z: nat)
    requires z <= |ds| && forall i :: 0 <= i < z ==> ds[i] == 0
    ensures Value(b, ds) == Value(b, ds[z..])
  {
    if z == 0 {
      assert ds[0..] == ds;
    } else {
      ValueSplit(b, ds);
      LeadingZerosWeighNothing(b, ds[1..], z - 1);
      assert ds[1..][z - 1..] == ds[z..];
    }
  }
}
