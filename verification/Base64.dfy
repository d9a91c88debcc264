/**
 Base64 over octet strings (RFC 4648 section 4), with the lenient decoder that
 skips what is no base64 character and stops at the padding.
 */
module Base64 {
  import opened Strings
  import opened Radix
  import opened BitGroups

  predicate IsOctets(s: string) { forall i :: 0 <= i < |s| ==> s[i] as int < 256 }

  function Bytes(s: string): (b: seq<byte>)
    requires IsOctets(s)
    ensures |b| == |s| && forall i :: 0 <= i < |s| ==> b[i] == s[i] as int
  {
    seq(|s|, i requires 0 <= i < |s| => s[i] as int)
  }

  function Text(b: seq<byte>): (s: string)
    ensures |s| == |b| && IsOctets(s) && forall i :: 0 <= i < |b| ==> s[i] as int == b[i]
  {
    seq(|b|, i requires 0 <= i < |b| => b[i] as char)
  }

  lemma TextBytes(s: string)
    requires IsOctets(s)
    ensures Text(Bytes(s)) == s
  {
  }

  function Letter(d: nat): (c: char)
    requires d < 64
  {
    if d < 26 then ('A' as int + d) as char
    else if d < 52 then ('a' as int + d - 26) as char
    else if d < 62 then ('0' as int + d - 52) as char
    else if d == 62 then '+' else '/'
  }

  /** The value of a base64 character; the URL-safe alphabet is understood as well. */
  function Digit(c: char): (d: Option<nat>)
    ensures d.Some? ==> d.value < 64
  {
    if 'A' <= c <= 'Z' then Some(c as int - 'A' as int)
    else if 'a' <= c <= 'z' then Some(c as int - 'a' as int + 26)
    else if '0' <= c <= '9' then Some(c as int - '0' as int + 52)
    else if c == '+' || c == '-' then Some(62)
    else if c == '/' || c == '_' then Some(63)
    else None
  }

  predicate IsBase64Char(c: char) { Digit(c).Some? || c == '=' }

  predicate IsBase64(s: string) { forall i :: 0 <= i < |s| ==> IsBase64Char(s[i]) }

  function Letters(ds: seq<nat>): (s: string)
    requires DigitsBelow(64, ds)
    ensures |s| == |ds| && forall i :: 0 <= i < |s| ==> s[i] == Letter(ds[i])
  {
    seq(|ds|, i requires 0 <= i < |ds| => Letter(ds[i]))
  }

  /** Padding to a multiple of four characters. */
  function Padding(n: nat): (s: string) {
    if n % 4 == 2 then "==" else if n % 4 == 3 then "=" else if n % 4 == 1 then "===" else ""
  }

  lemma SixtyFour()
    ensures Pow2(6) == 64
  {
    assert Pow2(4) == 16;
  }

  function Encode(s: string): (r: string)
    requires IsOctets(s)
    ensures IsBase64(r)
  {
    SixtyFour();
    var ds := Encoding(6, Bytes(s));
    Letters(ds) + Padding(|ds|)
  }

  function Digits(s: string): (ds: seq<nat>)
    ensures DigitsBelow(64, ds)
  {
    if s == "" || s[0] == '=' then []
    else (match Digit(s[0]) case Some(d) => [d] case None => []) + Digits(s[1..])
  }

  function Decode(s: string): (r: string)
    ensures IsOctets(r) && |r| == 6 * |Digits(s)| / 8
  {
    Text(Decoding(6, Digits(s)))
  }

  lemma DigitOfLetter(d: nat)
    requires d < 64
    ensures Digit(Letter(d)) == Some(d) && Letter(d) != '='
  {
  }

  lemma {:induction false} DigitsOfLetters(ds: seq<nat>, pad: string)
    requires DigitsBelow(64, ds) && (pad == "" || pad[0] == '=')
    ensures Digits(Letters(ds) + pad) == ds
    decreases |ds|
  {
    hide Letter, Digit;
    var s := Letters(ds) + pad;
    if ds == [] {
      assert s == pad;
    } else {
      assert s[1..] == Letters(ds[1..]) + pad;
      DigitsOfLetters(ds[1..], pad);
      DigitOfLetter(ds[0]);
      assert ds == [ds[0]] + ds[1..];
    }
  }

  /** Decoding gives back every octet string. */
  lemma DecodeEncode(s: string)
    requires IsOctets(s)
    ensures Decode(Encode(s)) == s
  {
    hide Encoding, Decoding, Digits, Letters;
    SixtyFour();
    var ds := Encoding(6, Bytes(s));
    DigitsOfLetters(ds, Padding(|ds|));
    RegroupRoundTrip(6, Bytes(s));
    TextBytes(s);
  }

  /** Decoding never lengthens. */
  lemma {:induction false} DigitsShorter(s: string)
    ensures |Digits(s)| <= |s|
  {
    if s != "" && s[0] != '=' { DigitsShorter(s[1..]); }
  }
}
