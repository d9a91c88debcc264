/**
 TOTP secrets and recovery codes: the text forms built on the bit packing.
 */
module Secrets {
  import opened Strings
  import opened BitGroups
  import opened Base32

  // ------------------------------------------------------ canonical text

  /** `toUpperCase` of one character, exact for every character whose upper case can contain A-Z or 2-7. */
  function UpperOf(c: char): (s: string) {
    if 'a' <= c <= 'z' then [c - 'a' + 'A']
    else match c as int
      case 0xDF => "SS"
      case 0x131 => "I"
      case 0x17F => "S"
      case 0xFB00 => "FF"
      case 0xFB01 => "FI"
      case 0xFB02 => "FL"
      case 0xFB03 => "FFI"
      case 0xFB04 => "FFL"
      case 0xFB05 => "ST"
      case 0xFB06 => "ST"
      case _ => [c]
  }

  function UpperText(s: string): (r: string) {
    if s == "" then "" else UpperOf(s[0]) + UpperText(s[1..])
  }

  function Without(s: string, drop: set<char>): (r: string) {
    if s == "" then "" else (if s[0] in drop then "" else [s[0]]) + Without(s[1..], drop)
  }

  predicate PlainUpper(c: char) { 'A' <= c <= 'Z' || '2' <= c <= '9' }

  lemma {:induction false} PlainTextUnchanged(s: string, drop: set<char>)
    requires forall i :: 0 <= i < |s| ==> PlainUpper(s[i]) && s[i] !in drop
    ensures Without(s, drop) == s && UpperText(s) == s
    decreases |s|
  {
    if s != "" {
      PlainTextUnchanged(s[1..], drop);
      assert s == [s[0]] + s[1..];
    }
  }

  // ------------------------------------------------------ base32 secrets

  datatype Secret = Key(bytes: seq<byte>) | InvalidSecret

  const SECRET_FILLER: set<char> := {' ', '=', '-'}

  function Canonical(secret: string): (c: string) { UpperText(Without(secret, SECRET_FILLER)) }

  /** What `decodeBase32` accepts, and the key it yields. */
  function Decoded(secret: string): (r: Secret) {
    if |secret| < 16 || |secret| > 128 then InvalidSecret
    else
      var canonical := Canonical(secret);
      if canonical == "" || !Spelled(BASE32_ALPHABET, canonical) then InvalidSecret
      else
        var bytes := Decoding(5, Unspell(BASE32_ALPHABET, canonical));
        if 10 <= |bytes| <= 64 then Key(bytes) else InvalidSecret
  }

  /** RFC 4648 section 6 without padding characters. */
  function Encoded(bytes: seq<byte>): (s: string) {
    Eight(); Spell(BASE32_ALPHABET, Encoding(5, bytes))
  }

  method EncodeBase32(bytes: seq<byte>) returns (r: Option<string>)
    ensures r == if bytes == [] then None else Some(Encoded(bytes))
  {
    if bytes == [] { return None; }
    var output := Pack(bytes, BASE32_ALPHABET);
    r := Some(output);
  }

  method DecodeBase32(secret: string) returns (r: Secret)
    ensures r == Decoded(secret)
  {
    if |secret| < 16 || |secret| > 128 { return InvalidSecret; }
    var canonical := Canonical(secret);
    if canonical == "" || !Spelled(BASE32_ALPHABET, canonical) { return InvalidSecret; }
    var output := Unpack(canonical, BASE32_ALPHABET);
    if |output| < 10 || |output| > 64 { return InvalidSecret; }
    r := Key(output);
  }

  /** `normalizeSecret`: the canonical text of the key, `None` standing for the thrown error. */
  function Normalized(secret: string): (r: Option<string>) {
    match Decoded(secret)
    case InvalidSecret => None
    case Key(bytes) => Some(Encoded(bytes))
  }

  lemma Base32IsPlain()
    ensures forall i :: 0 <= i < |BASE32_ALPHABET| ==> PlainUpper(BASE32_ALPHABET[i])
  {
    assert forall i :: 0 <= i < 16 ==> PlainUpper(BASE32_ALPHABET[i]);
    assert forall i :: 16 <= i < 32 ==> PlainUpper(BASE32_ALPHABET[i]);
  }

  lemma RecoveryIsPlain()
    ensures forall i :: 0 <= i < |RECOVERY_CODE_ALPHABET| ==> PlainUpper(RECOVERY_CODE_ALPHABET[i])
  {
    assert forall i :: 0 <= i < 16 ==> PlainUpper(RECOVERY_CODE_ALPHABET[i]);
    assert forall i :: 16 <= i < 32 ==> PlainUpper(RECOVERY_CODE_ALPHABET[i]);
  }

  lemma SpelledIsCanonical(alphabet: string, s: string, drop: set<char>)
    requires alphabet == BASE32_ALPHABET || alphabet == RECOVERY_CODE_ALPHABET
    requires Spelled(alphabet, s) && forall c :: c in drop ==> !PlainUpper(c)
    ensures UpperText(Without(s, drop)) == s
  {
    hide PlainUpper, UpperText, Without;
    Base32IsPlain();
    RecoveryIsPlain();
    assert forall i :: 0 <= i < |s| ==> s[i] in alphabet;
    PlainTextUnchanged(s, drop);
  }

  /** Every key the manager can store survives being written as text, truncating accumulators included. */
  lemma SecretRoundTrip(bytes: seq<byte>)
    requires 10 <= |bytes| <= 64
    ensures Decoded(Encoded(bytes)) == Key(bytes)
  {
    hide Encoding, Decoding, Unspell, Distinct, UpperText, Without;
    Eight();
    var ds := Encoding(5, bytes);
    AlphabetDistinct();
    UnspellSpell(BASE32_ALPHABET, ds);
    SpelledIsCanonical(BASE32_ALPHABET, Encoded(bytes), SECRET_FILLER);
    RegroupRoundTrip(5, bytes);
  }

  /** Normalising keeps the key, and normalising again changes nothing. */
  lemma NormalizeKeepsKey(secret: string)
    requires Normalized(secret).Some?
    ensures Decoded(Normalized(secret).value) == Decoded(secret)
    ensures Normalized(Normalized(secret).value) == Normalized(secret)
  {
    SecretRoundTrip(Decoded(secret).bytes);
  }

  // ------------------------------------------------------ recovery codes

  const RECOVERY_CODE_BYTES: nat := 10

  /** JavaScript `\s`, and the dash. */
  const CODE_FILLER: set<char> :=
    {' ', '\t', '\n', '\r', 0x0B as char, 0x0C as char, 0xA0 as char, 0x1680 as char,
     0x2000 as char, 0x2001 as char, 0x2002 as char, 0x2003 as char, 0x2004 as char, 0x2005 as char,
     0x2006 as char, 0x2007 as char, 0x2008 as char, 0x2009 as char, 0x200A as char,
     0x2028 as char, 0x2029 as char, 0x202F as char, 0x205F as char, 0x3000 as char, 0xFEFF as char, '-'}

  function Plain(bytes: seq<byte>): (code: string)
    ensures |bytes| == RECOVERY_CODE_BYTES ==> |code| == 16
  {
    Eight(); Spell(RECOVERY_CODE_ALPHABET, Encoding(5, bytes))
  }

  /** Four groups of four, separated by dashes. */
  function Dashed(code: string): (s: string)
    requires |code| == 16
  {
    code[0..4] + "-" + code[4..8] + "-" + code[8..12] + "-" + code[12..16]
  }

  method GenerateRecoveryCode(bytes: seq<byte>) returns (code: string)
    requires |bytes| == RECOVERY_CODE_BYTES
    ensures |Plain(bytes)| == 16 && code == Dashed(Plain(bytes))
  {
    var plain := Pack(bytes, RECOVERY_CODE_ALPHABET);
    code := plain[0..4] + "-" + plain[4..8] + "-" + plain[8..12] + "-" + plain[12..16];
  }

  function NormalizeCode(code: string): (r: Option<string>) {
    var canonical := UpperText(Without(code, CODE_FILLER));
    if |canonical| == 16 && Spelled(RECOVERY_CODE_ALPHABET, canonical) then Some(canonical) else None
  }

  lemma {:induction false} WithoutSplits(a: string, b: string, drop: set<char>)
    ensures Without(a + b, drop) == Without(a, drop) + Without(b, drop)
    decreases |a|
  {
    if a == "" {
      assert a + b == b;
    } else {
      assert (a + b)[1..] == a[1..] + b;
      WithoutSplits(a[1..], b, drop);
    }
  }

  lemma FillerIsNotPlain(c: char)
    requires c in CODE_FILLER
    ensures !PlainUpper(c)
  {
  }

  /** A generated code is recognised as typed from the page: dashes and all. */
  lemma GeneratedCodeNormalizes(bytes: seq<byte>)
    requires |bytes| == RECOVERY_CODE_BYTES
    ensures |Plain(bytes)| == 16 && NormalizeCode(Dashed(Plain(bytes))) == Some(Plain(bytes))
  {
    hide Encoding, UpperText, Without, Distinct, Unspell, PlainUpper;
    Eight();
    RecoveryAlphabetDistinct();
    UnspellSpell(RECOVERY_CODE_ALPHABET, Encoding(5, bytes));
    var p := Plain(bytes);
    forall c | c in CODE_FILLER ensures !PlainUpper(c) { FillerIsNotPlain(c); }
    WithoutDashes(p);
    SpelledIsCanonical(RECOVERY_CODE_ALPHABET, p, CODE_FILLER);
  }

  lemma WithoutDashes(p: string)
    requires |p| == 16
    ensures Without(Dashed(p), CODE_FILLER) == Without(p, CODE_FILLER)
  {
    hide Without;
    var d := CODE_FILLER;
    var a, b, c, e := p[0..4], p[4..8], p[8..12], p[12..16];
    assert Without("-", d) == "" by { OneDash(); }
    WithoutSplits(a + "-" + b + "-" + c + "-", e, d);
    WithoutSplits(a + "-" + b + "-" + c, "-", d);
    WithoutSplits(a + "-" + b + "-", c, d);
    WithoutSplits(a + "-" + b, "-", d);
    WithoutSplits(a + "-", b, d);
    WithoutSplits(a, "-", d);
    assert p == ((a + b) + c) + e;
    WithoutSplits((a + b) + c, e, d);
    WithoutSplits(a + b, c, d);
    WithoutSplits(a, b, d);
  }

  lemma OneDash()
    ensures Without("-", CODE_FILLER) == ""
  {
  }

  lemma PlainInjective(b1: seq<byte>, b2: seq<byte>)
    requires |b1| == |b2| == RECOVERY_CODE_BYTES
    requires Plain(b1) == Plain(b2)
    ensures b1 == b2
  {
    hide Encoding, Decoding, Distinct, Spell, Unspell;
    Eight();
    RecoveryAlphabetDistinct();
    UnspellSpell(RECOVERY_CODE_ALPHABET, Encoding(5, b1));
    UnspellSpell(RECOVERY_CODE_ALPHABET, Encoding(5, b2));
    RegroupRoundTrip(5, b1);
    RegroupRoundTrip(5, b2);
  }

  /** Different random octets always give different codes, as printed. */
  lemma RecoveryCodesInjective(b1: seq<byte>, b2: seq<byte>)
    requires |b1| == |b2| == RECOVERY_CODE_BYTES
    requires Dashed(Plain(b1)) == Dashed(Plain(b2))
    ensures b1 == b2
  {
    hide Plain, NormalizeCode, Dashed;
    GeneratedCodeNormalizes(b1);
    GeneratedCodeNormalizes(b2);
    PlainInjective(b1, b2);
  }
}
