/**
 Integer facts shared by the ledger proofs: C++ integer division, which truncates
 toward zero, and sums over sequences.
 */
module Arithmetic {

  function Abs(x: int): nat {
    if x < 0 then -x else x
  }

  function Min(a: int, b: int): int {
    if a < b then a else b
  }

  function Sign(x: int): int {
    if x > 0 then 1 else if x < 0 then -1 else 0
  }

  /** `n / d` as C++ computes it for a positive divisor: truncation toward zero. */
  function TruncDiv(n: int, d: int): int
    requires d > 0
  {
    if n >= 0 then n / d else -(-n / d)
  }

  /** What truncation discards. It carries the sign of `n`. */
  function TruncRem(n: int, d: int): int
    requires d > 0
  {
    n - TruncDiv(n, d) * d
  }

  lemma TruncRemBound(n: int, d: int)
    requires d > 0
    ensures Abs(TruncRem(n, d)) <= d - 1
    ensures TruncRem(n, d) > 0 ==> n > 0
    ensures TruncRem(n, d) < 0 ==> n < 0
  {
    if n >= 0 {
      assert TruncRem(n, d) == n % d;
    } else {
      assert TruncRem(n, d) == -(-n % d);
    }
  }

  lemma MulLess(a: int, b: int, d: int)
    requires d > 0 && a * d < b * d
    ensures a < b
  {
    assert (b - a) * d == b * d - a * d;
  }

  /** Truncated division never leaves an integer interval that contains the exact quotient. */
  lemma TruncDivBetween(n: int, d: int, lo: int, hi: int)
    requires d > 0 && lo * d <= n <= hi * d
    ensures lo <= TruncDiv(n, d) <= hi
  {
    TruncRemBound(n, d);
    var q := TruncDiv(n, d);
    if n >= 0 {
      MulLess(lo, q + 1, d) by { assert (q + 1) * d == q * d + d; }
      MulLess(q, hi + 1, d) by { assert (hi + 1) * d == hi * d + d; }
    } else {
      MulLess(lo - 1, q, d) by { assert (lo - 1) * d == lo * d - d; }
      MulLess(q - 1, hi, d) by { assert (q - 1) * d == q * d - d; }
    }
  }

  lemma TruncDivExact(q: int, d: int)
    requires d > 0
    ensures TruncDiv(q * d, d) == q
  {
    TruncDivBetween(q * d, d, q, q);
  }

  lemma TruncDivFloor(n: nat, d: int)
    requires d > 0
    ensures var q := TruncDiv(n, d);
            q >= 0 && q * d <= n < (q + 1) * d
  {
    hide TruncDiv;
    TruncRemBound(n, d);
    var q := TruncDiv(n, d);
    assert (q + 1) * d == q * d + d;
    MulLess(-1, q, d);
  }

  lemma TruncDivSmall(n: nat, d: int)
    requires n < d
    ensures TruncDiv(n, d) == 0
  {
    hide TruncDiv;
    TruncDivFloor(n, d);
    MulLess(TruncDiv(n, d), 1, d);
  }

  lemma TruncDivNeg(n: int, d: int)
    requires d > 0
    ensures TruncDiv(-n, d) == -TruncDiv(n, d)
  {
  }

  /** Quotients differ by at most k if the dividends differ by less than k divisors, on either side of zero. */
  lemma TruncDivNear(x: int, y: int, d: int, k: nat)
    requires d > 0 && x <= y < x + k * d
    ensures 0 <= TruncDiv(y, d) - TruncDiv(x, d) <= k
  {
    hide TruncDiv;
    TruncDivNeg(x, d);
    TruncDivNeg(y, d);
    if x >= 0 {
      NearFloor(x, y, d, k);
    } else if y <= 0 {
      NearFloor(-y, -x, d, k);
    } else {
      NearZero(-x, y, d, k);
    }
  }

  lemma NearZero(x: nat, y: nat, d: int, k: nat)
    requires d > 0 && x + y < k * d
    ensures 0 <= TruncDiv(x, d) + TruncDiv(y, d) <= k
  {
    hide TruncDiv;
    TruncDivFloor(x, d);
    TruncDivFloor(y, d);
    Distribute(d, TruncDiv(x, d), TruncDiv(y, d));
    MulLess(TruncDiv(x, d) + TruncDiv(y, d), k, d);
  }

  lemma NearFloor(x: nat, y: nat, d: int, k: nat)
    requires d > 0 && x <= y < x + k * d
    ensures 0 <= TruncDiv(y, d) - TruncDiv(x, d) <= k
  {
    hide TruncDiv;
    TruncDivFloor(x, d);
    TruncDivFloor(y, d);
    var low, high := TruncDiv(x, d), TruncDiv(y, d);
    MulLess(low, high + 1, d);
    MulLess(high, low + 1 + k, d) by { assert (low + 1 + k) * d == (low + 1) * d + k * d; }
  }

  lemma MulBound(x: int, y: int, a: nat, b: nat)
    requires Abs(x) <= a && Abs(y) <= b
    ensures Abs(x * y) <= a * b
  {
    MulMono(Abs(x), a, Abs(y), b);
    assert Abs(x * y) == Abs(x) * Abs(y);
  }

  lemma MulMono(a: nat, b: nat, c: nat, d: nat)
    requires a <= b && c <= d
    ensures a * c <= b * d
  {
    assert a * c <= b * c by { assert (b - a) * c >= 0; }
    assert b * c <= b * d by { assert b * (d - c) >= 0; }
  }

  lemma Distribute(c: int, x: int, y: int)
    ensures c * (x + y) == c * x + c * y
  {
  }

  lemma Associate<T>(a: seq<T>, b: seq<T>, c: seq<T>)
    ensures a + (b + c) == (a + b) + c
  {
  }

  /** The sum of `f` over `xs`, accumulated from the left as the loops of the program do. */
  function SumOf<T>(f: T -> int, xs: seq<T>): int {
    if xs == [] then 0 else SumOf(f, xs[..|xs| - 1]) + f(xs[|xs| - 1])
  }

  lemma {:induction false} SumOfConcat<T>(f: T -> int, xs: seq<T>, ys: seq<T>)
    ensures SumOf(f, xs + ys) == SumOf(f, xs) + SumOf(f, ys)
  {
    if ys == [] {
      assert xs + ys == xs;
    } else {
      var last := |ys| - 1;
      assert (xs + ys)[..|xs + ys| - 1] == xs + ys[..last];
      SumOfConcat(f, xs, ys[..last]);
    }
  }

  lemma SumOfSplit<T>(f: T -> int, xs: seq<T>, i: nat)
    requires i < |xs|
    ensures SumOf(f, xs) == SumOf(f, xs[..i]) + f(xs[i]) + SumOf(f, xs[i + 1..])
  {
    assert xs == xs[..i] + [xs[i]] + xs[i + 1..];
    SumOfConcat(f, xs[..i] + [xs[i]], xs[i + 1..]);
    SumOfConcat(f, xs[..i], [xs[i]]);
    assert SumOf(f, [xs[i]]) == f(xs[i]) by { assert [xs[i]][..0] == []; }
  }

  lemma SumOfUpdate<T>(f: T -> int, xs: seq<T>, i: nat, x: T)
    requires i < |xs|
    ensures SumOf(f, xs[i := x]) == SumOf(f, xs) - f(xs[i]) + f(x)
  {
    var ys := xs[i := x];
    SumOfSplit(f, xs, i);
    SumOfSplit(f, ys, i);
    assert ys[..i] == xs[..i] && ys[i + 1..] == xs[i + 1..];
  }

  lemma SumOfRemove<T>(f: T -> int, xs: seq<T>, i: nat)
    requires i < |xs|
    ensures SumOf(f, xs[..i] + xs[i + 1..]) == SumOf(f, xs) - f(xs[i])
  {
    SumOfSplit(f, xs, i);
    SumOfConcat(f, xs[..i], xs[i + 1..]);
  }

  lemma SumOfSnoc<T>(f: T -> int, xs: seq<T>, x: T)
    ensures SumOf(f, xs + [x]) == SumOf(f, xs) + f(x)
  {
    assert (xs + [x])[..|xs|] == xs;
  }

  lemma {:induction false} SumOfZero<T>(f: T -> int, xs: seq<T>)
    requires forall i :: 0 <= i < |xs| ==> f(xs[i]) == 0
    ensures SumOf(f, xs) == 0
  {
    if xs != [] {
      SumOfZero(f, xs[..|xs| - 1]);
    }
  }

  /** A pointwise law between three summands lifts to the sums. */
  lemma {:induction false} SumOfLinear<T>(f: T -> int, g: T -> int, h: T -> int, xs: seq<T>)
    requires forall i :: 0 <= i < |xs| ==> f(xs[i]) == g(xs[i]) + h(xs[i])
    ensures SumOf(f, xs) == SumOf(g, xs) + SumOf(h, xs)
  {
    if xs != [] {
      SumOfLinear(f, g, h, xs[..|xs| - 1]);
    }
  }

  /** A pointwise bound lifts to every partial sum. */
  lemma {:induction false} SumOfBound<T>(f: T -> int, g: T -> int, c: nat, xs: seq<T>)
    requires forall i :: 0 <= i < |xs| ==> g(xs[i]) >= 0 && Abs(f(xs[i])) <= c * g(xs[i])
    ensures SumOf(g, xs) >= 0 && Abs(SumOf(f, xs)) <= c * SumOf(g, xs)
  {
    if xs != [] {
      var init, last := xs[..|xs| - 1], xs[|xs| - 1];
      SumOfBound(f, g, c, init);
      Distribute(c, SumOf(g, init), g(last));
    }
  }
}
