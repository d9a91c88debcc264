/**
 The text transformations of the message reader and writer: line endings,
 folding, trimming, letter case, and lines.
 */
module MimeText {
  import opened Strings

  predicate IsSpace(c: char) { c == ' ' || '\t' <= c <= '\r' }

  predicate NoBreaks(s: string) { '\r' !in s && '\n' !in s }

  function LowerChar(c: char): (r: char) { if 'A' <= c <= 'Z' then (c as int + 32) as char else c }

  function Lower(s: string): (r: string)
    ensures |r| == |s| && forall i :: 0 <= i < |s| ==> r[i] == LowerChar(s[i])
  {
    seq(|s|, i requires 0 <= i < |s| => LowerChar(s[i]))
  }

  const CAPITALS: string := "ABCDEFGHIJKLMNOPQRSTUVWXYZ"

  const SMALL: string := "abcdefghijklmnopqrstuvwxyz"

  lemma CapitalsLower()
    ensures forall i :: 0 <= i < 26 ==> LowerChar(CAPITALS[i]) == SMALL[i]
  {
    assert forall i :: 0 <= i < 13 ==> LowerChar(CAPITALS[i]) == SMALL[i];
    assert forall i :: 13 <= i < 26 ==> LowerChar(CAPITALS[i]) == SMALL[i];
  }

  lemma CapitalIs(i: nat)
    requires i < 26
    ensures CAPITALS[i] as int == 'A' as int + i
  {
  }

  /** The twenty-six capitals become small letters, and nothing else changes. */
  lemma LowerExactly(c: char)
    ensures forall i :: 0 <= i < 26 ==> LowerChar(CAPITALS[i]) == SMALL[i]
    ensures (forall i :: 0 <= i < 26 ==> CAPITALS[i] != c) ==> LowerChar(c) == c
  {
    CapitalsLower();
    if 'A' <= c <= 'Z' { CapitalIs(c as int - 'A' as int); }
  }

  function TrimLeft(s: string): (r: string)
    ensures |r| <= |s| && (r != "" ==> !IsSpace(r[0]))
  {
    if s != "" && IsSpace(s[0]) then TrimLeft(s[1..]) else s
  }

  function TrimRight(s: string): (r: string)
    ensures |r| <= |s| && r == s[..|r|] && (r != "" ==> !IsSpace(r[|r| - 1]))
  {
    if s != "" && IsSpace(s[|s| - 1]) then TrimRight(s[..|s| - 1]) else s
  }

  function Trim(s: string): (r: string)
    ensures |r| <= |s|
  {
    TrimRight(TrimLeft(s))
  }

  /** Neither end is white space. */
  predicate Trimmed(s: string) { s != "" ==> !IsSpace(s[0]) && !IsSpace(s[|s| - 1]) }

  lemma TrimIsTrimmed(s: string)
    ensures Trimmed(Trim(s))
  {
    var l := TrimLeft(s);
    var r := TrimRight(l);
    assert r != "" ==> r[0] == l[0];
  }

  /** Trimming a header value with its leading space gives the value back exactly when it is trimmed. */
  lemma TrimExactly(s: string)
    ensures Trim(" " + s) == s <==> Trimmed(s)
  {
    assert (" " + s)[1..] == s;
    assert TrimLeft(" " + s) == TrimLeft(s);
    if Trimmed(s) {
      assert TrimLeft(s) == s;
    } else {
      TrimIsTrimmed(" " + s);
    }
  }

  // ------------------------------------------------------ line endings

  /** `replace(/\r\n|\r|\n/g, '\r\n')`. */
  function Normalize(s: string): (r: string)
    decreases |s|
  {
    if s == "" then ""
    else if s[0] == '\r' then CRLF + Normalize(if |s| > 1 && s[1] == '\n' then s[2..] else s[1..])
    else if s[0] == '\n' then CRLF + Normalize(s[1..])
    else [s[0]] + Normalize(s[1..])
  }

  lemma {:induction false} NormalizePlain(a: string, b: string)
    requires NoBreaks(a)
    ensures Normalize(a + b) == a + Normalize(b)
  {
    if a == "" {
      assert a + b == b && a + Normalize(b) == Normalize(b);
    } else {
      assert a[0] in a;
      assert (a + b)[1..] == a[1..] + b;
      NormalizePlain(a[1..], b);
      assert a == [a[0]] + a[1..];
      Assoc([a[0]], a[1..], Normalize(b));
    }
  }

  lemma NormalizeBreak(b: string)
    ensures Normalize(CRLF + b) == CRLF + Normalize(b)
  {
    assert (CRLF + b)[0] == '\r' && (CRLF + b)[1] == '\n' && (CRLF + b)[2..] == b;
  }

  predicate AllNoBreaks(lines: seq<string>) { forall i :: 0 <= i < |lines| ==> NoBreaks(lines[i]) }

  /** `lines.join('\r\n')`. */
  function JoinLines(lines: seq<string>): (s: string) {
    if lines == [] then "" else if |lines| == 1 then lines[0] else lines[0] + CRLF + JoinLines(lines[1..])
  }

  lemma {:induction false} NormalizeLines(lines: seq<string>)
    requires AllNoBreaks(lines)
    ensures Normalize(JoinLines(lines)) == JoinLines(lines)
  {
    if |lines| == 1 {
      NormalizePlain(lines[0], "");
      assert lines[0] + "" == lines[0];
    } else if |lines| > 1 {
      var tail := JoinLines(lines[1..]);
      NormalizeLines(lines[1..]);
      NormalizePlain(lines[0], CRLF + tail);
      NormalizeBreak(tail);
      Assoc(lines[0], CRLF, tail);
    }
  }

  lemma {:induction false} JoinAppend(a: seq<string>, b: seq<string>)
    requires a != [] && b != []
    ensures JoinLines(a + b) == JoinLines(a) + CRLF + JoinLines(b)
  {
    if |a| == 1 {
      assert (a + b)[1..] == b;
    } else {
      JoinAppend(a[1..], b);
      assert (a + b)[1..] == a[1..] + b;
      var x, y := JoinLines(a[1..]), JoinLines(b);
      assert a[0] + CRLF + (x + CRLF + y) == a[0] + CRLF + x + CRLF + y;
    }
  }

  /** `s.split('\r\n')`. */
  function SplitLines(s: string): (r: seq<string>)
    ensures r != []
  {
    Unframe(s).lines + [Unframe(s).rest]
  }

  lemma AtChar(s: string, pat: string, k: int, i: nat)
    requires At(s, pat, k) && i < |pat|
    ensures s[k + i] == pat[i]
  {
    assert s[k..k + |pat|][i] == s[k + i];
  }

  lemma NoBreaksNoCrlf(s: string)
    requires NoBreaks(s)
    ensures !HasCrlf(s)
  {
    forall k ensures !At(s, CRLF, k) {
      if At(s, CRLF, k) { AtChar(s, CRLF, k, 0); }
    }
  }

  ghost predicate NoCrlfs(lines: seq<string>) { forall i :: 0 <= i < |lines| ==> !HasCrlf(lines[i]) }

  /** Splitting undoes joining. */
  lemma {:induction false} SplitJoin(lines: seq<string>)
    requires lines != [] && NoCrlfs(lines)
    ensures SplitLines(JoinLines(lines)) == lines
  {
    hide Unframe, HasCrlf;
    if |lines| == 1 {
      assert !HasCrlf(lines[0]);
      assert Unframe(lines[0]) == Framed([], lines[0]) by { LastLine(lines[0]); }
    } else {
      SplitJoin(lines[1..]);
      assert !HasCrlf(lines[0]);
      UnframeLine(lines[0], JoinLines(lines[1..]));
      assert lines == [lines[0]] + lines[1..];
    }
  }

  lemma LastLine(s: string)
    requires !HasCrlf(s)
    ensures Unframe(s) == Framed([], s)
  {
    var i := IndexOf(s, CRLF);
    assert i != -1 ==> At(s, CRLF, i);
  }

  // ------------------------------------------------------ header blocks

  const BLANK: string := "\r\n\r\n"

  /** A header line: not empty, no line break, not a continuation. */
  predicate HeaderLine(s: string) { NoBreaks(s) && s != "" && !IsSpace(s[0]) }

  predicate HeaderLines(lines: seq<string>) { forall i :: 0 <= i < |lines| ==> HeaderLine(lines[i]) }

  /** The blank line after a header block is the first one. */
  lemma {:induction false} BlankAfter(lines: seq<string>, more: string)
    requires HeaderLines(lines) && lines != []
    ensures IndexOf(JoinLines(lines) + BLANK + more, BLANK) == |JoinLines(lines)|
  {
    hide IndexOf;
    var s := JoinLines(lines) + BLANK + more;
    assert At(s, BLANK, |JoinLines(lines)|);
    forall k | 0 <= k < |JoinLines(lines)| ensures !At(s, BLANK, k) {
      NoBlankBefore(lines, more, k);
    }
    IndexOfIs(s, BLANK, |JoinLines(lines)|);
  }

  lemma {:induction false} NoBlankBefore(lines: seq<string>, more: string, k: nat)
    requires HeaderLines(lines) && lines != [] && k < |JoinLines(lines)|
    ensures !At(JoinLines(lines) + BLANK + more, BLANK, k)
  {
    var s := JoinLines(lines) + BLANK + more;
    if k < |lines[0]| {
      assert s[k] == lines[0][k];
      assert lines[0][k] in lines[0];
      NotAt(s, k);
    } else if |lines| > 1 {
      var n := |lines[0]| + 2;
      var tail := JoinLines(lines[1..]) + BLANK + more;
      assert s == lines[0] + CRLF + tail;
      if k >= n {
        NoBlankBefore(lines[1..], more, k - n);
        Shift(lines[0] + CRLF, tail, k - n);
      } else {
        assert HeaderLine(lines[1]);
        assert tail[0] == lines[1][0] by { assert JoinLines(lines[1..])[0] == lines[1][0]; }
        assert lines[1][0] in lines[1];
        assert s[n] == tail[0] && s[|lines[0]| + 1] == '\n';
        if k == |lines[0]| { NotAtSecond(s, k); } else { NotAt(s, k); }
      }
    }
  }

  lemma NotAt(s: string, k: nat)
    requires k < |s| && s[k] != '\r'
    ensures !At(s, BLANK, k)
  {
    if At(s, BLANK, k) { AtChar(s, BLANK, k, 0); }
  }

  lemma NotAtSecond(s: string, k: nat)
    requires k + 2 < |s| && s[k + 2] != '\r'
    ensures !At(s, BLANK, k)
  {
    if At(s, BLANK, k) { AtChar(s, BLANK, k, 2); }
  }

  lemma Shift(a: string, b: string, k: nat)
    ensures At(a + b, BLANK, |a| + k) <==> At(b, BLANK, k)
  {
    assert k + 4 <= |b| ==> (a + b)[|a| + k..|a| + k + 4] == b[k..k + 4];
  }

  predicate Blank(c: char) { c == ' ' || c == '\t' }

  function SkipBlanks(s: string): (r: string)
    ensures |r| <= |s|
  {
    if s != "" && Blank(s[0]) then SkipBlanks(s[1..]) else s
  }

  /** `replace(/\r\n[ \t]+/g, ' ')`. */
  function Unfold(s: string): (r: string)
    decreases |s|
  {
    if s == "" then ""
    else if |s| >= 3 && s[..2] == CRLF && Blank(s[2]) then " " + Unfold(SkipBlanks(s[3..]))
    else [s[0]] + Unfold(s[1..])
  }

  lemma {:induction false} UnfoldPlain(a: string, b: string)
    requires NoBreaks(a)
    ensures Unfold(a + b) == a + Unfold(b)
  {
    if a == "" {
      assert a + b == b && a + Unfold(b) == Unfold(b);
    } else {
      assert a[0] in a;
      assert |a + b| >= 3 ==> (a + b)[..2][0] == a[0];
      assert (a + b)[1..] == a[1..] + b;
      UnfoldPlain(a[1..], b);
      assert a == [a[0]] + a[1..];
      Assoc([a[0]], a[1..], Unfold(b));
    }
  }

  lemma UnfoldBreak(b: string)
    requires b != "" && !Blank(b[0]) && b[0] != '\r'
    ensures Unfold(CRLF + b) == CRLF + Unfold(b)
  {
    var s := CRLF + b;
    assert s[2] == b[0] && s[1..] == "\n" + b && ("\n" + b)[1..] == b;
    assert ("\n" + b)[..2][0] == '\n';
    assert Unfold("\n" + b) == "\n" + Unfold(b);
    assert ["\r"[0]] + ("\n" + Unfold(b)) == CRLF + Unfold(b);
  }

  /** A block without continuation lines is left alone. */
  lemma {:induction false} UnfoldLines(lines: seq<string>)
    requires HeaderLines(lines)
    ensures Unfold(JoinLines(lines)) == JoinLines(lines)
  {
    if |lines| == 1 {
      UnfoldPlain(lines[0], "");
      assert lines[0] + "" == lines[0];
    } else if |lines| > 1 {
      var tail := JoinLines(lines[1..]);
      assert HeaderLine(lines[1]) && tail[0] == lines[1][0] && lines[1][0] in lines[1];
      UnfoldLines(lines[1..]);
      UnfoldPlain(lines[0], CRLF + tail);
      UnfoldBreak(tail);
      Assoc(lines[0], CRLF, tail);
    }
  }

  // ------------------------------------------------------ wrapping

  /** `replace(/\s+/g, '')`. */
  function Strip(s: string): (r: string) {
    if s == "" then "" else (if IsSpace(s[0]) then "" else [s[0]]) + Strip(s[1..])
  }

  predicate NoSpaces(s: string) { forall i :: 0 <= i < |s| ==> !IsSpace(s[i]) }

  lemma {:induction false} StripPlain(a: string, b: string)
    requires NoSpaces(a)
    ensures Strip(a + b) == a + Strip(b)
  {
    if a == "" {
      assert a + b == b && a + Strip(b) == Strip(b);
    } else {
      assert (a + b)[1..] == a[1..] + b;
      StripPlain(a[1..], b);
      assert a == [a[0]] + a[1..];
      Assoc([a[0]], a[1..], Strip(b));
    }
  }

  lemma StripBreak(b: string)
    ensures Strip(CRLF + b) == Strip(b)
  {
    var s := CRLF + b;
    assert s[1..] == "\n" + b && ("\n" + b)[1..] == b;
    assert "" + Strip(b) == Strip(b);
    assert Strip("\n" + b) == Strip(b);
  }

  /** `replace(/.{1,76}/g, '$&\r\n')` on a text without line breaks: pieces of 76 characters, each ended by CRLF. */
  function Wrap(s: string): (r: string) {
    if s == "" then "" else if |s| <= 76 then s + CRLF else s[..76] + CRLF + Wrap(s[76..])
  }

  function Pieces(s: string): (r: seq<string>) {
    if s == "" then [] else if |s| <= 76 then [s] else [s[..76]] + Pieces(s[76..])
  }

  lemma {:induction false} WrapIsLines(s: string)
    requires NoSpaces(s)
    ensures Wrap(s) == JoinLines(Pieces(s) + [""]) && AllNoBreaks(Pieces(s))
  {
    if s == "" {
      assert Pieces(s) + [""] == [""];
    } else if |s| <= 76 {
      assert (Pieces(s) + [""])[1..] == [""];
      assert NoBreaks(s);
      assert s + CRLF + "" == s + CRLF;
    } else {
      WrapIsLines(s[76..]);
      assert NoBreaks(s[..76]);
      var all := Pieces(s) + [""];
      assert all[1..] == Pieces(s[76..]) + [""];
    }
  }

  /** Removing white space undoes the wrapping. */
  lemma {:induction false} StripWrap(s: string)
    requires NoSpaces(s)
    ensures Strip(Wrap(s)) == s
  {
    if s != "" && |s| <= 76 {
      StripPlain(s, CRLF);
      StripBreak("");
      assert CRLF + "" == CRLF && s + "" == s;
    } else if s != "" {
      StripWrap(s[76..]);
      StripPlain(s[..76], CRLF + Wrap(s[76..]));
      StripBreak(Wrap(s[76..]));
      Assoc(s[..76], CRLF, Wrap(s[76..]));
      assert s == s[..76] + s[76..];
    }
  }
}
