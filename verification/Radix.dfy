/**
 Numbers written in a power-of-two base, most significant digit first.
 */
module Radix {

  function Pow2(k: nat): (p: nat)
    ensures p >= 1
  {
    if k == 0 then 1 else 2 * Pow2(k - 1)
  }

  predicate DigitsBelow(base: nat, ds: seq<nat>) { forall i :: 0 <= i < |ds| ==> ds[i] < base }

  function Value(base: nat, ds: seq<nat>): (v: nat) {
    if ds == [] then 0 else Value(base, ds[..|ds| - 1]) * base + ds[|ds| - 1]
  }

  /** The `n` low digits of `v`. */
  function ToDigits(base: nat, v: nat, n: nat): (ds: seq<nat>)
    requires base > 0
    ensures |ds| == n && DigitsBelow(base, ds)
    decreases n
  {
    if n == 0 then [] else ToDigits(base, v / base, n - 1) + [v % base]
  }

  lemma ValueSnoc(base: nat, ds: seq<nat>, d: nat)
    ensures Value(base, ds + [d]) == Value(base, ds) * base + d
  {
    assert (ds + [d])[..|ds|] == ds;
  }

  /** A digit string of known length is determined by its value. */
  lemma {:induction false} DigitsOfValue(base: nat, ds: seq<nat>)
    requires base > 0 && DigitsBelow(base, ds)
    ensures ToDigits(base, Value(base, ds), |ds|) == ds
    decreases |ds|
  {
    if ds != [] {
      var front, last := ds[..|ds| - 1], ds[|ds| - 1];
      var v := Value(base, front);
      assert (v * base + last) / base == v && (v * base + last) % base == last by { QuotRem(base, v, last); }
      DigitsOfValue(base, front);
      assert ds == front + [last];
    }
  }

  /** Quotient and remainder are unique. */
  lemma QuotRem(base: int, q: int, r: int)
    requires 0 <= r < base
    ensures (q * base + r) / base == q && (q * base + r) % base == r
  {
    var n := q * base + r;
    var d := n / base - q;
    assert n == (n / base) * base + n % base;
    assert d * base == r - n % base;
    assert -base < d * base < base;
    Small(base, d);
  }

  lemma Small(base: int, d: int)
    requires 0 < base && -base < d * base < base
    ensures d == 0
  {
    if d >= 1 { MulMono(1, d, base); }
    if d <= -1 { MulMono(d, -1, base); }
  }

  lemma MulMono(x: int, y: int, k: int)
    requires x <= y && 0 <= k
    ensures x * k <= y * k
  {
    assert 0 <= (y - x) * k;
  }

  lemma Distribute(y1: int, y0: int, a: int, b: int)
    ensures (y1 * a + y0) * b == y1 * (a * b) + y0 * b
  {
  }

  /** Splitting the low part of a number at `b`. */
  lemma SplitLow(x: nat, a: nat, b: nat)
    requires a > 0 && b > 0
    ensures a * b > 0 && x % (a * b) == (x / b % a) * b + x % b
  {
    var y, x0 := x / b, x % b;
    var y1, y0 := y / a, y % a;
    assert x == y * b + x0 && y == y1 * a + y0;
    Positive(a, b);
    Distribute(y1, y0, a, b);
    MulMono(y0 + 1, a, b);
    OneMore(y0, b);
    MulMono(0, y0, b);
    QuotRem(a * b, y1, y0 * b + x0);
  }

  /** Shifting by a factor `k` in a word that is a multiple of `p * k` keeps the low part below `p`. */
  lemma ShiftLow(x: nat, k: nat, p: nat, c: nat, chunk: nat)
    requires p > 0 && chunk < k && c > 0
    ensures p * k > 0 && c * (p * k) > 0
    ensures ((x * k) % (c * (p * k)) + chunk) % (p * k) == (x % p) * k + chunk
  {
    var q, r := x / p, x % p;
    Positive(p, k);
    Distribute(q, r, p, k);
    Wrapped(x * k, c, p * k, q, r * k);
    MulMono(r + 1, p, k);
    OneMore(r, k);
    MulMono(0, r, k);
    QuotRem(p * k, q - (x * k) / (c * (p * k)) * c, r * k + chunk);
  }

  /** Cutting a number down to a word changes it by a multiple of what divides the word. */
  lemma Wrapped(y: nat, c: nat, m: nat, q: int, s: int)
    requires c > 0 && m > 0 && y == q * m + s
    ensures c * m > 0 && y % (c * m) == (q - y / (c * m) * c) * m + s
  {
    Positive(c, m);
    var w := c * m;
    var t := y / w;
    assert y % w == y - t * w;
    Assoc(t, c, m);
    Difference(q, t * c, m);
  }

  lemma OneMore(r: int, b: int)
    ensures (r + 1) * b == r * b + b
  {
  }

  lemma Positive(x: nat, y: nat)
    requires x > 0 && y > 0
    ensures x * y > 0
  {
  }

  lemma Assoc(a: int, b: int, c: int)
    ensures a * (b * c) == (a * b) * c
  {
  }

  lemma Difference(a: int, b: int, m: int)
    ensures (a - b) * m == a * m - b * m
  {
  }

  lemma {:induction false} Pow2Adds(a: nat, b: nat)
    ensures Pow2(a + b) == Pow2(a) * Pow2(b)
  {
    if a > 0 { Pow2Adds(a - 1, b); }
  }
}
