/**
 String functions that the mail code relies on: first occurrence of a pattern,
 CRLF framing and decimal numerals.  Throughout the project a wire string holds
 one character per octet.
 */
module Strings {

  datatype Option<+T> = None | Some(value: T)

  const CRLF: string := "\r\n"

  /** `pat` occurs in `s` at index `i`. */
  predicate At(s: string, pat: string, i: int) {
    0 <= i && i + |pat| <= |s| && s[i..i + |pat|] == pat
  }

  /** JavaScript `s.indexOf(pat, from)`: the first occurrence at or after `from`, or -1. */
  function IndexOfFrom(s: string, pat: string, from: nat): (r: int)
    ensures r == -1 || (from <= r && At(s, pat, r))
    ensures forall k :: from <= k && (r == -1 || k < r) ==> !At(s, pat, k)
    decreases |s| - from
  {
    if |s| < from + |pat| then -1
    else if At(s, pat, from) then from
    else IndexOfFrom(s, pat, from + 1)
  }

  function IndexOf(s: string, pat: string): (r: int)
    ensures r == -1 || At(s, pat, r)
    ensures forall k :: 0 <= k && (r == -1 || k < r) ==> !At(s, pat, k)
  {
    IndexOfFrom(s, pat, 0)
  }

  /** The first occurrence is unique, so any index with its two properties is the result of `IndexOf`. */
  lemma IndexOfIs(s: string, pat: string, i: nat)
    requires At(s, pat, i)
    requires forall k :: 0 <= k < i ==> !At(s, pat, k)
    ensures IndexOf(s, pat) == i
  {
    var r := IndexOf(s, pat);
    assert r == -1 || i < r ==> !At(s, pat, i);
  }

  ghost predicate HasCrlf(s: string) {
    exists k :: At(s, CRLF, k)
  }

  /** A line free of CRLF is terminated by the CRLF that follows it, even when it ends in CR. */
  lemma CrlfAfterLine(line: string, more: string)
    requires !HasCrlf(line)
    ensures IndexOf(line + CRLF + more, CRLF) == |line|
  {
    var s := line + CRLF + more;
    assert At(s, CRLF, |line|);
    forall k | 0 <= k < |line| ensures !At(s, CRLF, k) {
      assert s[k + 1] == if k + 1 < |line| then line[k + 1] else '\r';
      assert !At(line, CRLF, k);
      assert k + 2 <= |line| ==> s[k..k + 2] == line[k..k + 2];
      assert s[k..k + 2][1] == s[k + 1];
    }
    IndexOfIs(s, CRLF, |line|);
  }

  // -------------------------------------------------------------- framing

  /** Complete lines of a stream, and the unfinished text after the last CRLF. */
  datatype Framed = Framed(lines: seq<string>, rest: string)

  function Unframe(stream: string): (r: Framed)
    decreases |stream|
  {
    var i := IndexOf(stream, CRLF);
    if i == -1 then Framed([], stream)
    else
      var tail := Unframe(stream[i + 2..]);
      Framed([stream[..i]] + tail.lines, tail.rest)
  }

  lemma UnframeAt(stream: string, i: nat)
    requires IndexOf(stream, CRLF) == i
    ensures Unframe(stream) == Framed([stream[..i]] + Unframe(stream[i + 2..]).lines, Unframe(stream[i + 2..]).rest)
  {
  }

  lemma UnframeNone(stream: string)
    requires IndexOf(stream, CRLF) == -1
    ensures Unframe(stream) == Framed([], stream)
  {
  }

  lemma UnframeLine(line: string, more: string)
    requires !HasCrlf(line)
    ensures Unframe(line + CRLF + more)
            == Framed([line] + Unframe(more).lines, Unframe(more).rest)
  {
    hide Unframe, IndexOf;
    CrlfAfterLine(line, more);
    UnframeAt(line + CRLF + more, |line|);
    var s := line + CRLF + more;
    assert s[..|line|] == line && s[|line| + 2..] == more;
  }

  /** Framing `a + b` is framing `a`, then framing its unfinished text followed by `b`. */
  lemma {:induction false} UnframeSplit(a: string, b: string)
    ensures Unframe(a + b)
            == Framed(Unframe(a).lines + Unframe(Unframe(a).rest + b).lines,
                      Unframe(Unframe(a).rest + b).rest)
    decreases |a|
  {
    hide Unframe, IndexOf;
    var i := IndexOf(a, CRLF);
    if i == -1 {
      UnframeNone(a);
      assert [] + Unframe(a + b).lines == Unframe(a + b).lines;
    } else {
      CrlfInPrefix(a, b, i);
      UnframeAt(a, i);
      UnframeAt(a + b, i);
      assert (a + b)[..i] == a[..i] && (a + b)[i + 2..] == a[i + 2..] + b;
      UnframeSplit(a[i + 2..], b);
      var t := Unframe(a[i + 2..]);
      Assoc([a[..i]], t.lines, Unframe(t.rest + b).lines);
    }
  }

  lemma CrlfInPrefix(a: string, b: string, i: nat)
    requires IndexOf(a, CRLF) == i
    ensures IndexOf(a + b, CRLF) == i
  {
    assert (a + b)[i..i + 2] == a[i..i + 2];
    forall k | 0 <= k < i ensures !At(a + b, CRLF, k) {
      assert (a + b)[k..k + 2] == a[k..k + 2];
      assert !At(a, CRLF, k);
    }
    IndexOfIs(a + b, CRLF, i);
  }

  lemma Assoc<T>(a: seq<T>, b: seq<T>, c: seq<T>)
    ensures a + (b + c) == (a + b) + c
  {
  }

  function Concat(parts: seq<string>): (r: string) {
    if parts == [] then "" else parts[0] + Concat(parts[1..])
  }

  // -------------------------------------------------------------- decimals

  predicate IsDigit(c: char) { '0' <= c <= '9' }

  predicate AllDigits(s: string) { forall i :: 0 <= i < |s| ==> IsDigit(s[i]) }

  function DigitChar(d: nat): (c: char)
    requires d < 10
    ensures IsDigit(c) && c as int == '0' as int + d
  {
    ('0' as int + d) as char
  }

  /** The usual decimal numeral of `n`. */
  function Decimal(n: nat): (s: string)
    ensures |s| > 0 && AllDigits(s)
  {
    if n < 10 then [DigitChar(n)] else Decimal(n / 10) + [DigitChar(n % 10)]
  }

  function ParseDecimal(s: string): (n: nat)
    requires AllDigits(s)
  {
    if s == "" then 0
    else 10 * ParseDecimal(s[..|s| - 1]) + (s[|s| - 1] as int - '0' as int)
  }

  lemma {:induction false} DecimalRoundTrip(n: nat)
    ensures ParseDecimal(Decimal(n)) == n
  {
    var s := Decimal(n);
    if n < 10 {
      assert s[..|s| - 1] == "";
    } else {
      DecimalRoundTrip(n / 10);
      assert s[..|s| - 1] == Decimal(n / 10);
    }
  }

  /** `s.padStart(width, '0')` of a numeral. */
  function PadStart(s: string, width: nat): (r: string)
    requires AllDigits(s)
    ensures AllDigits(r) && ParseDecimal(r) == ParseDecimal(s)
    ensures |r| == if |s| >= width then |s| else width
    decreases width - |s|
  {
    if |s| >= width then s else LeadingZero(s); PadStart("0" + s, width)
  }

  lemma {:induction false} LeadingZero(s: string)
    requires AllDigits(s)
    ensures AllDigits("0" + s) && ParseDecimal("0" + s) == ParseDecimal(s)
  {
    if s != "" {
      LeadingZero(s[..|s| - 1]);
      assert ("0" + s)[..|s|] == "0" + s[..|s| - 1];
    } else {
      assert ("0" + s)[..0] == "" && ("0" + s)[0] == '0';
    }
  }
}
