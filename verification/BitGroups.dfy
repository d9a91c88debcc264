/**
 Octets regrouped into digits of 1 to 8 bits, as RFC 4648 sections 4 and 6 do it.
 */
module BitGroups {
  import opened Radix

  type byte = b: nat | b < 256

  /** Number of `w`-bit groups that cover `n` octets. */
  function Groups(w: nat, n: nat): (m: nat)
    requires 1 <= w <= 8
    ensures 8 * n <= w * m < 8 * n + w
  {
    var m := (8 * n + w - 1) / w;
    assert w * m == 8 * n + w - 1 - (8 * n + w - 1) % w;
    m
  }

  /** The octets as one unbounded number, padded with zero bits to whole groups. */
  function Encoding(w: nat, bytes: seq<byte>): (ds: seq<nat>)
    requires 1 <= w <= 8
    ensures |ds| == Groups(w, |bytes|) && DigitsBelow(Pow2(w), ds)
  {
    var m := Groups(w, |bytes|);
    ToDigits(Pow2(w), Value(256, bytes) * Pow2(w * m - 8 * |bytes|), m)
  }

  /** The whole octets in a string of `w`-bit groups; the bits left over are dropped. */
  function Decoding(w: nat, ds: seq<nat>): (bytes: seq<byte>)
    ensures |bytes| == w * |ds| / 8
  {
    var r := ToDigits(256, Value(Pow2(w), ds) / Pow2(w * |ds| % 8), w * |ds| / 8);
    assert forall i :: 0 <= i < |r| ==> r[i] < 256;
    r
  }

  lemma {:induction false} ValueBelow(base: nat, ds: seq<nat>)
    requires base > 0 && DigitsBelow(base, ds)
    ensures Value(base, ds) < Power(base, |ds|)
    decreases |ds|
  {
    if ds != [] {
      var front, last := ds[..|ds| - 1], ds[|ds| - 1];
      ValueBelow(base, front);
      assert Value(base, ds) == Value(base, front) * base + last;
      hide Value, Power;
      var v, p := Value(base, front), Power(base, |ds| - 1);
      MulMono(v + 1, p, base);
      assert (v + 1) * base == v * base + base;
    }
  }

  function Power(base: nat, n: nat): (p: nat) { if n == 0 then 1 else Power(base, n - 1) * base }

  lemma {:induction false} PowerOfPow2(w: nat, n: nat)
    ensures Power(Pow2(w), n) == Pow2(w * n)
  {
    if n == 0 {
      assert w * 0 == 0;
    } else {
      PowerOfPow2(w, n - 1);
      assert w * n == w * (n - 1) + w;
      Pow2Adds(w * (n - 1), w);
    }
  }

  lemma DivBelow(v: nat, base: nat, p: nat)
    requires base > 0 && v < p * base
    ensures v / base < p
  {
    if p <= v / base { MulMono(p, v / base, base); }
  }

  /** Taking the `n` low digits of a number below `base^n` loses nothing. */
  lemma {:induction false} ValueOfDigits(base: nat, v: nat, n: nat)
    requires base > 0 && v < Power(base, n)
    ensures Value(base, ToDigits(base, v, n)) == v
    decreases n
  {
    hide Value, Power, ToDigits;
    if n == 0 {
      NoDigits(base, v);
    } else {
      var q := v / base;
      DigitsStep(base, v, n);
      DivBelow(v, base, Power(base, n - 1));
      ValueOfDigits(base, q, n - 1);
      ValueSnoc(base, ToDigits(base, q, n - 1), v % base);
      DivMod(v, base);
    }
  }

  lemma NoDigits(base: nat, v: nat)
    requires base > 0
    ensures Power(base, 0) == 1 && Value(base, ToDigits(base, v, 0)) == 0
  {
  }

  lemma DigitsStep(base: nat, v: nat, n: nat)
    requires base > 0 && n > 0
    ensures ToDigits(base, v, n) == ToDigits(base, v / base, n - 1) + [v % base]
    ensures Power(base, n) == Power(base, n - 1) * base
  {
  }

  lemma DivMod(v: nat, base: nat)
    requires base > 0
    ensures v == v / base * base + v % base
  {
  }

  /** `ds` is the encoding of `bytes` as soon as it has the right length and value. */
  lemma EncodingIs(w: nat, bytes: seq<byte>, ds: seq<nat>)
    requires 1 <= w <= 8 && |ds| == Groups(w, |bytes|) && DigitsBelow(Pow2(w), ds)
    requires Value(Pow2(w), ds) == Value(256, bytes) * Pow2(w * |ds| - 8 * |bytes|)
    ensures Encoding(w, bytes) == ds
  {
    hide Pow2, Value;
    DigitsOfValue(Pow2(w), ds);
  }

  lemma DecodingIs(w: nat, ds: seq<nat>, bytes: seq<byte>)
    requires |bytes| == w * |ds| / 8
    requires Value(256, bytes) == Value(Pow2(w), ds) / Pow2(w * |ds| % 8)
    ensures Decoding(w, ds) == bytes
  {
    hide Pow2, Value;
    DigitsOfValue(256, bytes);
  }

  lemma EncodingValue(w: nat, bytes: seq<byte>)
    requires 1 <= w <= 8
    ensures Value(Pow2(w), Encoding(w, bytes)) == Value(256, bytes) * Pow2(w * Groups(w, |bytes|) - 8 * |bytes|)
  {
    hide Value, Pow2;
    var n := |bytes|;
    var m := Groups(w, n);
    var pad := w * m - 8 * n;
    var v := Value(256, bytes);
    ValueBelow(256, bytes);
    assert Pow2(8) == 256 by { Eight(); }
    PowerOfPow2(8, n);
    PowerOfPow2(w, m);
    Pow2Adds(8 * n, pad);
    assert v + 1 <= Pow2(8 * n);
    MulMono(v + 1, Pow2(8 * n), Pow2(pad));
    Distribute(v, 1, 1, Pow2(pad));
    ValueOfDigits(Pow2(w), v * Pow2(pad), m);
  }

  lemma Eight()
    ensures Pow2(5) == 32 && Pow2(8) == 256
  {
    assert Pow2(4) == 16;
    assert Pow2(8) == 256;
  }

  /** Whatever the group size, decoding gives back every octet string. */
  lemma RegroupRoundTrip(w: nat, bytes: seq<byte>)
    requires 1 <= w <= 8
    ensures Decoding(w, Encoding(w, bytes)) == bytes
  {
    hide Value, Pow2, Encoding, Decoding;
    var ds := Encoding(w, bytes);
    var n, m := |bytes|, |ds|;
    var pad := w * m - 8 * n;
    EncodingValue(w, bytes);
    assert w * m == n * 8 + pad;
    QuotRem(8, n, pad);
    QuotRem(Pow2(pad), Value(256, bytes), 0);
    DecodingIs(w, ds, bytes);
  }
}
