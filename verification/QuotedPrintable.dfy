/**
 Printers for quoted-printable text (section 6.7 of RFC 2045) and for encoded
 words (RFC 2047), and the proof that the reader's decoders invert them.
 */
module QuotedPrintable {
  import opened Strings
  import opened MimeText
  import opened Base64
  import opened EncodedWords
  import opened MessageParser

  const UPPER_DIGITS: string := "0123456789ABCDEF"

  const LOWER_DIGITS: string := "0123456789abcdef"

  type Octet = c: char | c as int < 256 witness ' '

  /** How the writer spells one octet, or breaks a line. */
  datatype Unit =
    | Plain(octet: Octet)
    | Escaped(octet: Octet, upperFirst: bool, upperSecond: bool)
    | Underscore
    | SoftBreak

  function HexDigit(n: nat, upper: bool): (c: char)
    requires n < 16
  {
    if upper then UPPER_DIGITS[n] else LOWER_DIGITS[n]
  }

  function Escape(octet: Octet, upperFirst: bool, upperSecond: bool): (s: string)
    ensures |s| == 3
  {
    ['=', HexDigit(octet as int / 16, upperFirst), HexDigit(octet as int % 16, upperSecond)]
  }

  function PrintUnit(u: Unit): (s: string) {
    match u
    case Plain(octet) => [octet]
    case Escaped(octet, first, second) => Escape(octet, first, second)
    case Underscore => "_"
    case SoftBreak => "=\r\n"
  }

  /** In a body every octet but `=` may stand for itself, and lines may be broken anywhere. */
  predicate BodyUnit(u: Unit) { !u.Underscore? && (u.Plain? ==> u.octet != '=') }

  /** In a header word spaces are escaped or written as underscores, and question marks are escaped. */
  predicate WordUnit(u: Unit) {
    !u.SoftBreak? && (u.Plain? ==> u.octet != '=' && u.octet != '_' && WordChar(u.octet))
  }

  function Print(us: seq<Unit>): (s: string) { if us == [] then "" else PrintUnit(us[0]) + Print(us[1..]) }

  function Octets(u: Unit): (s: string) {
    match u
    case Plain(octet) => [octet]
    case Escaped(octet, _, _) => [octet]
    case Underscore => " "
    case SoftBreak => ""
  }

  /** What the writer meant. */
  function Meant(us: seq<Unit>): (s: string) { if us == [] then "" else Octets(us[0]) + Meant(us[1..]) }

  // ------------------------------------------------------ one octet

  lemma DigitValue(n: nat, upper: bool)
    requires n < 16
    ensures HexValue(HexDigit(n, upper)) == Some(n) && WordChar(HexDigit(n, upper)) && HexDigit(n, upper) != '_'
  {
  }

  /** The decoder starts again after every unit: what follows does not matter. */
  lemma UnquoteUnit(u: Unit, rest: string)
    requires u.Escaped? || (u.Plain? && u.octet != '=')
    ensures Unquote(PrintUnit(u) + rest, 0) == Octets(u) + Unquote(rest, 0)
  {
    hide HexValue, HexDigit;
    var s := PrintUnit(u) + rest;
    if u.Escaped? {
      var n := u.octet as int;
      DigitValue(n / 16, u.upperFirst);
      DigitValue(n % 16, u.upperSecond);
      assert EscapeAt(s, 0);
      UnquoteStep(s, 0);
      UnquoteShift(s, 3, rest);
    } else {
      UnquoteStep(s, 0);
      UnquoteShift(s, 1, rest);
    }
  }

  lemma UnquoteShift(s: string, k: nat, rest: string)
    requires k <= |s| && s[k..] == rest
    ensures Unquote(s, k) == Unquote(rest, 0)
  {
    hide Unquote;
    UnquoteFrom(s, k, rest, 0);
  }

  lemma SameFrom(s: string, k: nat, rest: string, i: nat)
    requires k <= |s| && s[k..] == rest && i < |rest|
    ensures s[k + i] == rest[i] && (EscapeAt(s, k + i) <==> EscapeAt(rest, i))
    ensures EscapeAt(rest, i) ==> s[k + i + 1] == rest[i + 1] && s[k + i + 2] == rest[i + 2]
  {
    hide HexValue;
    assert forall j :: i <= j < |rest| ==> s[k + j] == rest[j];
  }

  lemma {:induction false} UnquoteFrom(s: string, k: nat, rest: string, i: nat)
    requires k <= |s| && s[k..] == rest && i <= |rest|
    ensures Unquote(s, k + i) == Unquote(rest, i)
    decreases |rest| - i
  {
    hide HexValue, Unquote, EscapeAt;
    if i < |rest| {
      SameFrom(s, k, rest, i);
      UnquoteStep(s, k + i);
      UnquoteStep(rest, i);
      if EscapeAt(rest, i) { UnquoteFrom(s, k, rest, i + 3); } else { UnquoteFrom(s, k, rest, i + 1); }
    } else {
      UnquoteEnd(s);
      UnquoteEnd(rest);
    }
  }

  // ------------------------------------------------------ bodies

  /** The text without its soft breaks. */
  function Hard(us: seq<Unit>): (r: seq<Unit>) {
    if us == [] then [] else (if us[0].SoftBreak? then [] else [us[0]]) + Hard(us[1..])
  }

  lemma {:induction false} HardUnits(us: seq<Unit>)
    requires forall u :: u in us ==> BodyUnit(u)
    ensures Meant(Hard(us)) == Meant(us)
    ensures forall u :: u in Hard(us) ==> BodyUnit(u) && !u.SoftBreak?
  {
    hide BodyUnit, Octets;
    if us != [] {
      HardUnits(us[1..]);
      if us[0].SoftBreak? {
        BreakMeansNothing(us[0]);
        assert Hard(us) == Hard(us[1..]) && "" + Meant(us[1..]) == Meant(us[1..]);
      } else {
        assert Hard(us)[0] == us[0] && Hard(us)[1..] == Hard(us[1..]);
      }
    }
  }

  lemma BreakMeansNothing(u: Unit)
    requires u.SoftBreak?
    ensures Octets(u) == ""
  {
  }

  lemma JoinOne(c: char, rest: string)
    requires c != '=' || (rest != "" && rest[0] != '\r')
    ensures JoinSoft([c] + rest) == [c] + JoinSoft(rest)
  {
    var s := [c] + rest;
    assert s[1..] == rest;
    assert |s| >= 3 ==> s[..3][0] == c && s[..3][1] == rest[0];
  }

  lemma JoinEscape(u: Unit, rest: string)
    requires u.Escaped?
    ensures JoinSoft(PrintUnit(u) + rest) == PrintUnit(u) + JoinSoft(rest)
  {
    hide JoinSoft, HexDigit;
    var d, e := HexDigit(u.octet as int / 16, u.upperFirst), HexDigit(u.octet as int % 16, u.upperSecond);
    DigitPlain(u);
    JoinOne('=', [d] + ([e] + rest));
    JoinOne(d, [e] + rest);
    JoinOne(e, rest);
    assert PrintUnit(u) + rest == ['='] + ([d] + ([e] + rest));
    assert PrintUnit(u) + JoinSoft(rest) == ['='] + ([d] + ([e] + JoinSoft(rest)));
  }

  lemma DigitPlain(u: Unit)
    requires u.Escaped?
    ensures forall n: nat, upper :: n < 16 ==> HexDigit(n, upper) != '\r' && HexDigit(n, upper) != '='
  {
  }

  lemma JoinBreak(rest: string)
    ensures JoinSoft("=\r\n" + rest) == JoinSoft(rest)
  {
    assert ("=\r\n" + rest)[..3] == "=\r\n" && ("=\r\n" + rest)[3..] == rest;
  }

  /** Removing the soft breaks leaves the other units as they were printed. */
  lemma {:induction false} JoinPrinted(us: seq<Unit>)
    requires forall u :: u in us ==> BodyUnit(u)
    ensures forall u :: u in Hard(us) ==> BodyUnit(u)
    ensures JoinSoft(Print(us)) == Print(Hard(us))
  {
    hide JoinSoft, PrintUnit;
    HardUnits(us);
    if us == [] {
      assert JoinSoft("") == "" by { JoinNothing(); }
    } else {
      var rest := Print(us[1..]);
      JoinPrinted(us[1..]);
      if us[0].SoftBreak? {
        assert PrintUnit(us[0]) == "=\r\n" by { BreakPrints(us[0]); }
        JoinBreak(rest);
        assert Hard(us) == Hard(us[1..]);
      } else {
        assert Hard(us)[0] == us[0] && Hard(us)[1..] == Hard(us[1..]);
        if us[0].Escaped? { JoinEscape(us[0], rest); } else { PlainPrints(us[0]); JoinOne(us[0].octet, rest); }
      }
    }
  }

  lemma JoinNothing()
    ensures JoinSoft("") == ""
  {
  }

  lemma BreakPrints(u: Unit)
    requires u.SoftBreak?
    ensures PrintUnit(u) == "=\r\n"
  {
  }

  lemma PlainPrints(u: Unit)
    requires u.Plain?
    ensures PrintUnit(u) == [u.octet]
  {
  }

  lemma {:induction false} UnquotePrinted(us: seq<Unit>)
    requires forall u :: u in us ==> BodyUnit(u) && !u.SoftBreak?
    ensures Unquote(Print(us), 0) == Meant(us)
  {
    hide Unquote, PrintUnit, Octets;
    assert forall i :: 0 <= i < |us| ==> us[i] in us;
    if us == [] {
      UnquoteEnd("");
    } else {
      UnquoteUnit(us[0], Print(us[1..]));
      UnquotePrinted(us[1..]);
    }
  }

  /** Every spelling of a quoted-printable body decodes to the octets it was written for. */
  lemma BodyRoundTrip(us: seq<Unit>)
    requires forall u :: u in us ==> BodyUnit(u)
    ensures Unquote(JoinSoft(Print(us)), 0) == Meant(us)
  {
    hide Unquote, JoinSoft;
    JoinPrinted(us);
    HardUnits(us);
    UnquotePrinted(Hard(us));
  }

  /** And a part that is marked as quoted-printable has those octets. */
  lemma QuotedPartDecodes(part: Part, us: seq<Unit>)
    requires Get(part.headers, "content-transfer-encoding") == Some("quoted-printable")
    requires (forall u :: u in us ==> BodyUnit(u)) && part.body == Print(us)
    ensures Decoded(part) == Meant(us)
  {
    hide Unquote, JoinSoft, Print, Decode, Strip;
    BodyRoundTrip(us);
    assert Lower(Trim("quoted-printable")) == "quoted-printable" by { NameOfQuoted(); }
  }

  lemma NameOfQuoted()
    ensures Lower(Trim("quoted-printable")) == "quoted-printable"
  {
    var name := "quoted-printable";
    assert !IsSpace(name[0]) && !IsSpace(name[|name| - 1]);
  }
}
