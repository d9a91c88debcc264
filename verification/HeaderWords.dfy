/**
 Header values written as encoded words (RFC 2047): every spelling of a list of
 words, with white space between them, decodes to the octets they stand for.
 */
module HeaderWords {
  import opened Strings
  import opened MimeText
  import opened Base64
  import opened EncodedWords
  import opened QuotedPrintable

  datatype Encoded =
    | BWord(charset: string, upper: bool, octets: string)
    | QWord(charset: string, upper: bool, units: seq<Unit>)

  predicate AllWordChars(s: string) { forall i :: 0 <= i < |s| ==> WordChar(s[i]) }

  predicate LegalUnits(us: seq<Unit>) { forall i :: 0 <= i < |us| ==> WordUnit(us[i]) }

  predicate LegalWord(w: Encoded) {
    && w.charset != "" && AllWordChars(w.charset)
    && match w case BWord(_, _, octets) => IsOctets(octets) case QWord(_, _, units) => LegalUnits(units)
  }

  function Letter(w: Encoded): (c: char) {
    match w
    case BWord(_, upper, _) => if upper then 'B' else 'b'
    case QWord(_, upper, _) => if upper then 'Q' else 'q'
  }

  function Text(w: Encoded): (s: string)
    requires LegalWord(w)
  {
    match w case BWord(_, _, octets) => Encode(octets) case QWord(_, _, units) => Print(units)
  }

  function PrintWord(w: Encoded): (s: string)
    requires LegalWord(w)
  {
    "=?" + w.charset + "?" + [Letter(w)] + "?" + Text(w) + "?="
  }

  /** The octets that a word stands for. */
  function Standing(w: Encoded): (s: string) {
    match w case BWord(_, _, octets) => octets case QWord(_, _, units) => Meant(units)
  }


  /** White space before each word but the first. */
  datatype Spaced = Spaced(gap: string, word: Encoded)

  predicate LegalSpaced(w: Spaced) { LegalWord(w.word) && forall i :: 0 <= i < |w.gap| ==> IsSpace(w.gap[i]) }

  predicate Legal(ws: seq<Spaced>) { forall i :: 0 <= i < |ws| ==> LegalSpaced(ws[i]) }

  /** The words with their gaps, the first without one. */
  function PrintSpaced(ws: seq<Spaced>): (s: string)
    requires Legal(ws)
  {
    if ws == [] then ""
    else PrintWord(ws[0].word) + (if |ws| == 1 then "" else ws[1].gap + PrintSpaced(ws[1..]))
  }

  function Glued(ws: seq<Spaced>): (s: string)
    requires Legal(ws)
  {
    if ws == [] then "" else PrintWord(ws[0].word) + Glued(ws[1..])
  }

  function OctetsOf(ws: seq<Spaced>): (s: string) { if ws == [] then "" else Standing(ws[0].word) + OctetsOf(ws[1..]) }

  // ------------------------------------------------------ one word

  lemma UnitChars(u: Unit)
    requires WordUnit(u)
    ensures AllWordChars(PrintUnit(u))
  {
    hide HexDigit, HexValue;
    if u.Escaped? {
      DigitValue(u.octet as int / 16, u.upperFirst);
      DigitValue(u.octet as int % 16, u.upperSecond);
    }
  }

  lemma {:induction false} PrintedChars(us: seq<Unit>)
    requires LegalUnits(us)
    ensures AllWordChars(Print(us))
  {
    hide PrintUnit, WordUnit, WordChar;
    if us != [] {
      UnitChars(us[0]);
      PrintedChars(us[1..]);
    }
  }

  lemma TextChars(w: Encoded)
    requires LegalWord(w)
    ensures AllWordChars(Text(w))
  {
    hide Encode, IsBase64, WordUnit, WordChar;
    match w {
      case BWord(_, _, octets) => Base64Words(Encode(octets));
      case QWord(_, _, units) => PrintedChars(units);
    }
  }

  /** The characters of a printed word: no white space, and no question mark beyond its own four. */
  lemma WordShape(w: Encoded)
    requires LegalWord(w)
    ensures var p, c, t := PrintWord(w), |w.charset|, |Text(w)|;
            && |p| == c + t + 7
            && p[0] == '=' && p[1] == '?' && p[c + 2] == '?' && p[c + 3] == Letter(w) && p[c + 4] == '?'
            && p[c + t + 5] == '?' && p[c + t + 6] == '='
            && (forall k :: 2 <= k < c + 2 ==> WordChar(p[k]))
            && (forall k :: c + 5 <= k < c + 5 + t ==> WordChar(p[k]))
            && p[c + 5..c + 5 + t] == Text(w)
  {
    hide Text, IsOctets, LegalUnits, WordChar;
    TextChars(w);
    var p, c, t := PrintWord(w), |w.charset|, |Text(w)|;
    assert p == "=?" + (w.charset + ("?" + [Letter(w)] + "?" + (Text(w) + "?=")));
    assert p[2..c + 2] == w.charset && p[c + 5..c + 5 + t] == Text(w);
    forall k | 2 <= k < c + 2 ensures WordChar(p[k]) {
      assert p[k] == w.charset[k - 2];
    }
    forall k | c + 5 <= k < c + 5 + t ensures WordChar(p[k]) {
      assert p[k] == Text(w)[k - c - 5];
    }
  }

  lemma WordHasNoSpace(w: Encoded)
    requires LegalWord(w)
    ensures forall k :: 0 <= k < |PrintWord(w)| ==> !IsSpace(PrintWord(w)[k])
  {
    hide Text, PrintWord;
    WordShape(w);
  }

  lemma CharsAt(s: string, i: nat, p: string)
    requires i + |p| <= |s| && s[i..i + |p|] == p
    ensures forall k :: i <= k < i + |p| ==> s[k] == p[k - i]
    ensures forall a, b :: 0 <= a <= b <= |p| ==> s[i + a..i + b] == p[a..b]
  {
    assert forall k :: i <= k < i + |p| ==> s[k] == s[i..i + |p|][k - i];
  }

  lemma TwoAt(s: string, k: nat, a: char, b: char)
    requires k + 2 <= |s| && s[k] == a && s[k + 1] == b
    ensures At(s, [a, b], k)
  {
  }

  /** The reader finds the word wherever it stands. */
  lemma WordIsFound(s: string, i: nat, w: Encoded)
    requires LegalWord(w) && i + |PrintWord(w)| <= |s| && s[i..i + |PrintWord(w)|] == PrintWord(w)
    ensures WordAt(s, i) == Some(Word(i + |PrintWord(w)|, Letter(w), Text(w)))
  {
    hide RunEnd, PrintWord, Text, WordChar, At;
    WordShape(w);
    var p, c, t := PrintWord(w), |w.charset|, |Text(w)|;
    CharsAt(s, i, p);
    QuestionEnds();
    TwoAt(s, i, '=', '?');
    RunEndIs(s, i + 2, i + c + 2);
    var f := i + c + 5 + t;
    RunEndIs(s, i + c + 5, f);
    TwoAt(s, f, '?', '=');
    assert s[i + c + 5..f] == p[c + 5..c + 5 + t];
  }

  lemma QuestionEnds()
    ensures !WordChar('?')
  {
  }

  /** Underscores are read as spaces. */
  function Blanked(us: seq<Unit>): (r: seq<Unit>)
    ensures |r| == |us|
  {
    seq(|us|, i requires 0 <= i < |us| => if us[i].Underscore? then Plain(' ') else us[i])
  }

  lemma UnderscoreUnit(u: Unit)
    requires WordUnit(u)
    ensures var v := if u.Underscore? then Plain(' ') else u;
            && Underscores(PrintUnit(u)) == PrintUnit(v) && BodyUnit(v) && !v.SoftBreak?
            && Octets(v) == Octets(u)
  {
    hide HexDigit, HexValue;
    if u.Escaped? {
      DigitValue(u.octet as int / 16, u.upperFirst);
      DigitValue(u.octet as int % 16, u.upperSecond);
    }
  }

  lemma UnderscoresAppend(a: string, b: string)
    ensures Underscores(a + b) == Underscores(a) + Underscores(b)
  {
  }

  lemma {:induction false} UnderscoresPrinted(us: seq<Unit>)
    requires LegalUnits(us)
    ensures Underscores(Print(us)) == Print(Blanked(us)) && Meant(Blanked(us)) == Meant(us)
    ensures forall u :: u in Blanked(us) ==> BodyUnit(u) && !u.SoftBreak?
  {
    hide PrintUnit, WordUnit, BodyUnit, Octets, Underscores;
    if us == [] {
      assert Underscores("") == "" by { NoUnderscores(); }
    } else {
      UnderscoreUnit(us[0]);
      UnderscoresAppend(PrintUnit(us[0]), Print(us[1..]));
      UnderscoresPrinted(us[1..]);
      assert Blanked(us)[1..] == Blanked(us[1..]);
      assert Blanked(us) == [Blanked(us)[0]] + Blanked(us[1..]);
    }
  }

  lemma NoUnderscores()
    ensures Underscores("") == ""
  {
  }

  lemma MeaningIsStanding(w: Encoded, end: nat)
    requires LegalWord(w)
    ensures Meaning(Word(end, Letter(w), Text(w))) == Standing(w)
  {
    hide Unquote, Underscores, Print, Encode, Decode, WordChar, WordUnit;
    match w {
      case BWord(_, _, octets) => DecodeEncode(octets);
      case QWord(_, _, units) =>
        UnderscoresPrinted(units);
        UnquotePrinted(Blanked(units));
    }
  }

  // ------------------------------------------------------ the gaps disappear

  lemma JoinedStep(s: string, i: nat)
    requires i < |s| && !GapAt(s, i)
    ensures Joined(s, i) == [s[i]] + Joined(s, i + 1)
  {
    hide GapAt;
  }

  lemma {:induction false} JoinedRun(s: string, i: nat, j: nat)
    requires i <= j <= |s| && forall k :: i <= k < j ==> !GapAt(s, k)
    ensures Joined(s, i) == s[i..j] + Joined(s, j)
    decreases j - i
  {
    hide GapAt, Joined;
    if i < j {
      JoinedStep(s, i);
      JoinedRun(s, i + 1, j);
      Assoc([s[i]], s[i + 1..j], Joined(s, j));
      assert s[i..j] == [s[i]] + s[i + 1..j];
    }
  }

  lemma {:induction false} SpaceEndIs(s: string, i: nat, e: nat)
    requires i <= e <= |s| && (forall k :: i <= k < e ==> IsSpace(s[k])) && (e < |s| ==> !IsSpace(s[e]))
    ensures SpaceEnd(s, i) == e
    decreases e - i
  {
    if i < e { SpaceEndIs(s, i + 1, e); }
  }

  /** Inside a word there is no gap. */
  lemma NoGapInside(s: string, i: nat, w: Encoded)
    requires LegalWord(w) && i + |PrintWord(w)| <= |s| && s[i..i + |PrintWord(w)|] == PrintWord(w)
    ensures forall k :: i <= k < i + |PrintWord(w)| - 2 ==> !GapAt(s, k)
    ensures !GapAt(s, i + |PrintWord(w)| - 1)
  {
    hide PrintWord, Text, GapAt, IsSpace;
    WordShape(w);
    WordHasNoSpace(w);
    var p := PrintWord(w);
    CharsAt(s, i, p);
    forall k | i <= k < i + |p| - 2 ensures !GapAt(s, k) {
      assert s[k + 2] == p[k + 2 - i];
      NoGapBeforeText(s, k);
    }
    assert s[i + |p| - 1] == '=';
    NoGapAtEquals(s, i + |p| - 1);
  }

  lemma NoGapBeforeText(s: string, k: nat)
    requires k + 2 < |s| && !IsSpace(s[k + 2])
    ensures !GapAt(s, k)
  {
  }

  lemma NoGapAtEquals(s: string, k: nat)
    requires k < |s| && s[k] == '='
    ensures !GapAt(s, k)
  {
    hide SpaceEnd;
    assert k + 2 <= |s| ==> s[k..k + 2][0] == s[k];
  }

  lemma {:induction false} GapsDisappear(s: string, i: nat, ws: seq<Spaced>)
    requires Legal(ws) && i <= |s| && s[i..] == PrintSpaced(ws)
    ensures Joined(s, i) == Glued(ws)
    decreases |ws|
  {
    hide PrintWord, GapAt, LegalSpaced, Joined;
    if ws == [] {
      assert Joined(s, |s|) == "" by { JoinedEnd(s); }
    } else {
      assert LegalWord(ws[0].word) by { SpacedIsLegal(ws[0]); }
      var p := PrintWord(ws[0].word);
      var e := i + |p|;
      PrefixAt(s, i, p);
      NoGapInside(s, i, ws[0].word);
      if |ws| == 1 {
        assert e == |s| && Glued(ws[1..]) == "";
        NoGapAtEnd(s);
        JoinedRun(s, i, e);
        JoinedEnd(s);
      } else {
        var n := e + |ws[1].gap|;
        assert s[e..] == s[i..][|p|..] && s[n..] == s[i..][n - i..];
        assert Legal(ws[1..]) && s[n..] == PrintSpaced(ws[1..]);
        assert LegalWord(ws[1].word) by { SpacedIsLegal(ws[1]); }
        assert PrintWord(ws[1].word) <= s[n..];
        GapsDisappear(s, n, ws[1..]);
        assert s[e..n] == ws[1].gap;
        OneGap(s, i, e, n, ws[0].word, ws[1]);
      }
    }
  }

  lemma SpacedIsLegal(w: Spaced)
    requires LegalSpaced(w)
    ensures LegalWord(w.word)
  {
  }

  lemma PrefixAt(s: string, i: nat, p: string)
    requires i <= |s| && p <= s[i..]
    ensures i + |p| <= |s| && s[i..i + |p|] == p
  {
    assert s[i..i + |p|] == s[i..][..|p|];
  }

  lemma JoinedEnd(s: string)
    ensures Joined(s, |s|) == ""
  {
  }

  lemma NoGapAtEnd(s: string)
    ensures |s| >= 2 ==> !GapAt(s, |s| - 2)
  {
  }

  /** Between two words the reader sees a gap exactly when there is white space. */
  lemma GapBetween(s: string, e: nat, n: nat)
    requires 2 <= e <= n && n + 2 <= |s| && s[e - 2] == '?' && s[e - 1] == '=' && s[n] == '=' && s[n + 1] == '?'
    requires forall k :: e <= k < n ==> IsSpace(s[k])
    ensures GapAt(s, e - 2) <==> e < n
    ensures SpaceEnd(s, e) == n
  {
    hide At;
    SpaceEndIs(s, e, n);
    TwoAt(s, e - 2, '?', '=');
    TwoAt(s, n, '=', '?');
  }

  /** Two words with white space between them, as they stand in the value. */
  predicate Stand(s: string, i: nat, e: nat, n: nat, w: Encoded, next: Spaced) {
    && LegalWord(w) && LegalSpaced(next) && i <= e <= n <= |s|
    && s[i..e] == PrintWord(w) && s[e..n] == next.gap && PrintWord(next.word) <= s[n..]
  }

  lemma StandingChars(s: string, i: nat, e: nat, n: nat, w: Encoded, next: Spaced)
    requires Stand(s, i, e, n, w, next)
    ensures i + 7 <= e && n + 7 <= |s| && s[e - 2] == '?' && s[e - 1] == '=' && s[n] == '=' && s[n + 1] == '?'
    ensures forall k :: e <= k < n ==> IsSpace(s[k])
  {
    hide PrintWord, Text;
    var p, q := PrintWord(w), PrintWord(next.word);
    WordShape(w);
    WordShape(next.word);
    assert s[i..e][|p| - 2] == s[e - 2] && s[i..e][|p| - 1] == s[e - 1];
    assert s[n..][0] == q[0] && s[n..][1] == q[1];
    forall k | e <= k < n ensures IsSpace(s[k]) {
      assert s[k] == s[e..n][k - e];
    }
  }

  lemma StandingGaps(s: string, i: nat, e: nat, n: nat, w: Encoded, next: Spaced)
    requires Stand(s, i, e, n, w, next)
    ensures forall k :: i <= k < e && k != e - 2 ==> !GapAt(s, k)
    ensures i + 7 <= e && n + 7 <= |s| && !GapAt(s, n) && !GapAt(s, n + 1)
    ensures (GapAt(s, e - 2) <==> e < n) && SpaceEnd(s, e) == n
  {
    hide PrintWord, Text, GapAt, SpaceEnd;
    StandingChars(s, i, e, n, w, next);
    NoGapInside(s, i, w);
    PrefixAt(s, n, PrintWord(next.word));
    WordShape(next.word);
    NoGapInside(s, n, next.word);
    GapBetween(s, e, n);
  }

  lemma OneGap(s: string, i: nat, e: nat, n: nat, w: Encoded, next: Spaced)
    requires Stand(s, i, e, n, w, next)
    ensures Joined(s, i) == PrintWord(w) + Joined(s, n)
  {
    hide PrintWord, Joined, GapAt, SpaceEnd;
    StandingChars(s, i, e, n, w, next);
    StandingGaps(s, i, e, n, w, next);
    hide Stand;
    JoinedRun(s, i, e - 2);
    if e == n {
      JoinedRun(s, i, e);
    } else {
      JoinedRun(s, n, n + 2);
      JoinedGap(s, e - 2, n);
      assert s[n..n + 2] == "=?" && s[i..e] == s[i..e - 2] + "?=";
      Reassembled(s[i..e - 2], s[i..e], s[n..n + 2], Joined(s, n + 2));
    }
  }

  lemma Reassembled(a: string, p: string, m: string, rest: string)
    requires p == a + "?=" && m == "=?"
    ensures a + ("?==?" + rest) == p + (m + rest)
  {
    assert "?==?" + rest == "?=" + ("=?" + rest);
    Assoc(a, "?=", "=?" + rest);
  }

  lemma JoinedGap(s: string, i: nat, n: nat)
    requires i + 2 <= |s| && GapAt(s, i) && SpaceEnd(s, i + 2) == n
    ensures Joined(s, i) == "?==?" + Joined(s, n + 2)
  {
  }

  // ------------------------------------------------------ the words are replaced

  lemma NothingReplaced(s: string)
    ensures Replaced(s, |s|) == ""
  {
  }

  lemma OneReplaced(s: string, i: nat, w: Word)
    requires i < |s| && WordAt(s, i) == Some(w)
    ensures Replaced(s, i) == Meaning(w) + Replaced(s, w.end)
  {
    hide WordAt, Meaning;
  }

  lemma {:induction false} WordsAreReplaced(s: string, i: nat, ws: seq<Spaced>)
    requires Legal(ws) && i <= |s| && s[i..] == Glued(ws)
    ensures Replaced(s, i) == OctetsOf(ws)
    decreases |ws|
  {
    hide PrintWord, WordAt, Meaning, Standing, LegalSpaced, Replaced;
    if ws == [] {
      assert Replaced(s, |s|) == "" by { NothingReplaced(s); }
    } else {
      var w := ws[0].word;
      assert LegalWord(w) by { SpacedIsLegal(ws[0]); }
      PrefixAt(s, i, PrintWord(w));
      WordIsFound(s, i, w);
      var e := i + |PrintWord(w)|;
      MeaningIsStanding(w, e);
      assert s[e..] == s[i..][|PrintWord(w)|..];
      assert i < |s| by { WordShape(w); }
      OneReplaced(s, i, Word(e, Letter(w), Text(w)));
      WordsAreReplaced(s, e, ws[1..]);
    }
  }

  /**
   A header value of encoded words, in either encoding, in any charset and any
   spelling, decodes to their octets; the white space between them is not part of
   the value (section 6.2 of RFC 2047).
   */
  lemma WordsRoundTrip(ws: seq<Spaced>)
    requires Legal(ws)
    ensures DecodeWords(PrintSpaced(ws)) == OctetsOf(ws)
  {
    hide Joined, Replaced, Legal;
    var s := PrintSpaced(ws);
    assert s[0..] == s && Glued(ws)[0..] == Glued(ws);
    GapsDisappear(s, 0, ws);
    WordsAreReplaced(Glued(ws), 0, ws);
  }
}
