/** Numbers written in a base, most significant digit first, and the order of their digits. */
module Positional {
  function Pow(base: nat, n: nat): nat {
    if n == 0 then 1 else base * Pow(base, n - 1)
  }

  ghost predicate Digits(base: nat, d: seq<int>) {
    forall i :: 0 <= i < |d| ==> 0 <= d[i] < base
  }

  function Value(base: nat, d: seq<int>): int {
    if d == [] then 0 else d[0] * Pow(base, |d| - 1) + Value(base, d[1..])
  }

  /** Lexicographic order of two digit sequences of one length. */
  predicate Less(a: seq<int>, b: seq<int>)
    requires |a| == |b|
  {
    a != [] && (a[0] < b[0] || (a[0] == b[0] && Less(a[1..], b[1..])))
  }

  lemma Regroup(x: int, v: int, p: int, q: int)
    ensures x * (p * q) + v * q == (x * p + v) * q
  { }

  lemma {:induction false} PowAdds(base: nat, m: nat, n: nat)
    ensures Pow(base, m + n) == Pow(base, m) * Pow(base, n)
  {
    if m > 0 {
      PowAdds(base, m - 1, n);
      Regroup(base, 0, Pow(base, m - 1), Pow(base, n));
    }
  }

  lemma {:induction false} PowPositive(base: nat, n: nat)
    requires base > 0
    ensures Pow(base, n) > 0
  {
    if n > 0 { PowPositive(base, n - 1); }
  }

  lemma AtMostFactor(x: int, y: int, p: int)
    requires x <= y && p >= 0
    ensures x * p <= y * p
  { }

  lemma {:induction false} ValueRange(base: nat, d: seq<int>)
    requires base > 0 && Digits(base, d)
    ensures 0 <= Value(base, d) < Pow(base, |d|)
  {
    if d != [] {
      var p := Pow(base, |d| - 1);
      ValueRange(base, d[1..]);
      PowPositive(base, |d| - 1);
      AtMostFactor(0, d[0], p);
      AtMostFactor(d[0], base - 1, p);
      assert (base - 1) * p + p == base * p;
    }
  }

  lemma {:induction false} ValueConcat(base: nat, a: seq<int>, b: seq<int>)
    ensures Value(base, a + b) == Value(base, a) * Pow(base, |b|) + Value(base, b)
  {
    if a == [] {
      assert a + b == b;
    } else {
      ValueConcat(base, a[1..], b);
      PowAdds(base, |a| - 1, |b|);
      assert (a + b)[1..] == a[1..] + b;
      Regroup(a[0], Value(base, a[1..]), Pow(base, |a| - 1), Pow(base, |b|));
    }
  }

  lemma ValueOne(base: nat, x: int)
    ensures Value(base, [x]) == x
  {
    assert [x][1..] == [];
  }

  lemma Leading(x: int, y: int, v: int, w: int, p: int)
    requires 0 <= v < p && 0 <= w < p
    ensures x * p + v < y * p + w <==> x < y || (x == y && v < w)
  {
    if x < y {
      AtMostFactor(x + 1, y, p);
      assert (x + 1) * p == x * p + p;
    } else if y < x {
      AtMostFactor(y + 1, x, p);
      assert (y + 1) * p == y * p + p;
    }
  }

  /** The order of the digits is the order of the numbers. */
  lemma {:induction false} LessIffValue(base: nat, a: seq<int>, b: seq<int>)
    requires base > 0 && |a| == |b| && Digits(base, a) && Digits(base, b)
    ensures Less(a, b) <==> Value(base, a) < Value(base, b)
  {
    if a != [] {
      LessIffValue(base, a[1..], b[1..]);
      ValueRange(base, a[1..]);
      ValueRange(base, b[1..]);
      Leading(a[0], b[0], Value(base, a[1..]), Value(base, b[1..]), Pow(base, |a| - 1));
    }
  }
}
