/**
 Reading back a composed message: text, subject, and nothing else.
 */
module MimeRoundTrip {
  import opened Strings
  import opened MimeText
  import opened Base64
  import opened EncodedWords
  import opened MessageParser
  import opened MimeWalk
  import opened MessageComposer

  // ------------------------------------------------------ no line breaks in header lines

  predicate AddressChar(c: char) { LocalChar(c) || LabelChar(c) || c == '@' || c == '.' }

  lemma {:induction false} DomainChars(s: string, n: nat)
    requires IsDomain(s, n)
    ensures forall i :: 0 <= i < |s| ==> AddressChar(s[i])
    decreases |s|
  {
    hide LocalChar, LabelChar, IndexOf;
    var dot := IndexOf(s, ".");
    if dot != -1 {
      DomainChars(s[dot + 1..], if n == 0 then 0 else n - 1);
      AtChar(s, ".", dot, 0);
      forall i | 0 <= i < |s| ensures AddressChar(s[i]) {
        if i < dot { assert s[i] == s[..dot][i]; }
        else if i > dot { assert s[i] == s[dot + 1..][i - dot - 1]; }
      }
    }
  }

  lemma AddressHasNoBreaks(s: string)
    requires IsAddress(s)
    ensures NoBreaks(s)
  {
    hide LocalChar, LabelChar, IndexOf;
    var at := IndexOf(s, "@");
    DomainChars(s[at + 1..], 2);
    AtChar(s, "@", at, 0);
    forall i | 0 <= i < |s| ensures s[i] != '\r' && s[i] != '\n' {
      if i > at { assert s[i] == s[at + 1..][i - at - 1]; }
      assert AddressChar(s[i]);
      BreaksAreNotAddressChars();
    }
  }

  lemma BreaksAreNotAddressChars()
    ensures !AddressChar('\r') && !AddressChar('\n')
  {
  }

  lemma {:induction false} BracketedHasNoBreaks(recipients: seq<string>)
    requires forall i :: 0 <= i < |recipients| ==> IsAddress(recipients[i])
    ensures NoBreaks(Bracketed(recipients))
  {
    hide IsAddress;
    if recipients != [] {
      AddressHasNoBreaks(recipients[0]);
      if |recipients| > 1 { BracketedHasNoBreaks(recipients[1..]); }
    }
  }

  lemma SubjectHasNoBreaks(subject: string)
    requires ValidSubject(subject)
    ensures NoBreaks(EncodeSubject(subject))
  {
    hide Encode, WordChar;
    if !Printable(subject) {
      var b64 := Encode(subject);
      Base64Words(b64);
      forall i | 0 <= i < |b64| ensures b64[i] != '\r' && b64[i] != '\n' {
        assert WordChar(b64[i]);
        BreaksAreNotWordChars();
      }
    }
  }

  lemma BreaksAreNotWordChars()
    ensures !WordChar('\r') && !WordChar('\n')
  {
  }

  predicate LineStart(name: string) { name != "" && NoBreaks(name) && !IsSpace(name[0]) }

  lemma HeaderIsLine(name: string, value: string)
    requires LineStart(name) && NoBreaks(value)
    ensures HeaderLine(Header(name, value))
  {
  }

  lemma ShortNamesStart()
    ensures LineStart("From") && LineStart("To") && LineStart("Subject") && LineStart("Date") && LineStart("Message-ID")
  {
  }

  lemma LongNamesStart()
    ensures LineStart("MIME-Version") && LineStart("Content-Type") && LineStart("Content-Transfer-Encoding")
  {
  }

  lemma FixedValues(from: string)
    requires NoBreaks(from)
    ensures NoBreaks("1.0") && NoBreaks(CONTENT_TYPE) && NoBreaks("base64") && NoBreaks("<" + from + ">")
  {
  }

  /** What composing presupposes: a validated message, and a sender, date and id without line breaks. */
  predicate Composable(from: string, o: Outgoing, date: string, id: string) {
    ValidOutgoing(o) && NoBreaks(from) && NoBreaks(date) && NoBreaks(id)
  }

  lemma HeadersAreLines(from: string, o: Outgoing, date: string, id: string)
    requires Composable(from, o, date, id)
    ensures HeaderLines(Headers(from, o, date, id))
  {
    hide HeaderLine, Header, EncodeSubject, Bracketed, IsAddress, ValidSubject, ValidText, IsOctets, NoBreaks,
      LineStart;
    ShortNamesStart();
    LongNamesStart();
    FixedValues(from);
    assert IsOctets(o.subject) by { SubjectOctets(o.subject); }
    BracketedHasNoBreaks(o.recipients);
    SubjectHasNoBreaks(o.subject);
    HeaderIsLine("From", "<" + from + ">");
    HeaderIsLine("To", Bracketed(o.recipients));
    HeaderIsLine("Subject", EncodeSubject(o.subject));
    HeaderIsLine("Date", date);
    HeaderIsLine("Message-ID", id);
    HeaderIsLine("MIME-Version", "1.0");
    HeaderIsLine("Content-Type", CONTENT_TYPE);
    HeaderIsLine("Content-Transfer-Encoding", "base64");
  }

  lemma SubjectOctets(s: string)
    requires ValidSubject(s)
    ensures IsOctets(s)
  {
  }

  // ------------------------------------------------------ header block and body come apart again

  lemma BodyIsLines(text: string)
    requires IsOctets(text)
    ensures IsOctets(Normalize(text)) && NoSpaces(Encode(Normalize(text)))
    ensures Body(text) == JoinLines(Pieces(Encode(Normalize(text))) + [""])
    ensures AllNoBreaks(Pieces(Encode(Normalize(text))))
  {
    hide Encode, Wrap, Pieces, JoinLines, Normalize, IsBase64;
    NormalOctets(text);
    var b64 := Encode(Normalize(text));
    Base64Words(b64);
    WrapIsLines(b64);
  }

  lemma ComposedSplits(from: string, o: Outgoing, date: string, id: string)
    requires Composable(from, o, date, id) && IsOctets(o.subject) && IsOctets(o.text)
    ensures SplitPart(Compose(from, o, date, id)) == Part(HeaderMap(Headers(from, o, date, id)), Body(o.text))
  {
    hide JoinLines, Headers, Body, HeaderMap, Normalize, IndexOf, Unfold, SplitLines, Composable, IsOctets, Encode,
      Pieces;
    var headers := Headers(from, o, date, id);
    var body := Body(o.text);
    HeadersAreLines(from, o, date, id);
    BodyIsLines(o.text);
    var pieces := Pieces(Encode(Normalize(o.text)));
    var msg := Compose(from, o, date, id);
    JoinAppend(headers, ["", body]);
    TwoLines(body);
    var block := JoinLines(headers);
    assert msg == block + BLANK + body;
    var lines := headers + ([""] + (pieces + [""]));
    JoinAppend(headers, [""] + (pieces + [""]));
    JoinAppend([""], pieces + [""]);
    OneLine("");
    assert JoinLines(lines) == msg;
    LinesNoBreaks(headers, pieces);
    NormalizeLines(lines);
    BlankAfter(headers, body);
    assert msg[..|block|] == block && msg[|block| + 4..] == body;
    UnfoldLines(headers);
    HeaderLinesNoCrlf(headers);
    SplitJoin(headers);
  }

  lemma TwoLines(body: string)
    ensures JoinLines(["", body]) == CRLF + body
  {
    assert ["", body][1..] == [body];
    assert "" + CRLF + body == CRLF + body;
  }

  lemma OneLine(s: string)
    ensures JoinLines([s]) == s
  {
  }

  lemma LinesNoBreaks(headers: seq<string>, pieces: seq<string>)
    requires HeaderLines(headers) && AllNoBreaks(pieces)
    ensures AllNoBreaks(headers + ([""] + (pieces + [""])))
  {
    hide NoBreaks;
    assert NoBreaks("") by { EmptyNoBreaks(); }
    forall i | 0 <= i < |headers| ensures NoBreaks(headers[i]) {
      assert HeaderLine(headers[i]);
    }
  }

  lemma EmptyNoBreaks()
    ensures NoBreaks("")
  {
  }

  lemma HeaderLinesNoCrlf(lines: seq<string>)
    requires HeaderLines(lines)
    ensures NoCrlfs(lines)
  {
    hide HasCrlf, NoBreaks;
    forall i | 0 <= i < |lines| ensures !HasCrlf(lines[i]) {
      assert HeaderLine(lines[i]);
      NoBreaksNoCrlf(lines[i]);
    }
  }

  // ------------------------------------------------------ the part it is read as

  lemma TrimSame(s: string)
    requires Trimmed(s)
    ensures Trim(" " + s) == s && Trim(s) == s
  {
    TrimExactly(s);
    assert TrimLeft(s) == s;
  }

  /** The only semicolon, and what follows it. */
  lemma ContentTypeText()
    ensures |CONTENT_TYPE| == 25 && CONTENT_TYPE[10] == ';' && CONTENT_TYPE[11] == ' ' && CONTENT_TYPE[12] == 'c'
    ensures CONTENT_TYPE[..10] == "text/plain" && Trimmed(CONTENT_TYPE)
    ensures forall i :: 0 <= i < 25 && i != 10 ==> CONTENT_TYPE[i] != ';'
  {
  }

  lemma ContentTypeIsPlain()
    ensures MediaType(Some(CONTENT_TYPE)) == "text/plain"
  {
    hide IndexOf, Trim;
    ContentTypeText();
    var v := CONTENT_TYPE;
    assert v[10..11] == ";";
    forall k | 0 <= k < 10 ensures !At(v, ";", k) {
      if At(v, ";", k) { AtChar(v, ";", k, 0); }
    }
    IndexOfIs(v, ";", 10);
    TrimSame("text/plain");
    assert Lower("text/plain") == "text/plain";
  }

  lemma {:induction false} NoParameter(v: string, name: string, i: nat)
    requires forall k :: i <= k < |v| ==> ParameterAt(v, name, k).None?
    ensures FirstParameter(v, name, i).None?
    decreases |v| - i
  {
    hide ParameterAt;
    if i < |v| { NoParameter(v, name, i + 1); }
  }

  lemma ContentTypeLacks(name: string)
    requires name != "" && name[0] != 'c'
    ensures HeaderParameter(Some(CONTENT_TYPE), name).None?
  {
    ContentTypeText();
    var v := CONTENT_TYPE;
    hide Lower;
    assert SpaceEnd(v, 12) == 12;
    assert SpaceEnd(v, 11) == 12;
    forall k | 0 <= k < |v| ensures ParameterAt(v, name, k).None? {
      if k == 10 && 12 + |name| <= |v| { assert Lower(v[12..12 + |name|])[0] == LowerChar('c'); }
    }
    NoParameter(v, name, 0);
  }

  /** The header of a composed message makes its part plain base64 text. */
  lemma PartIsPlain(part: Part)
    requires Get(part.headers, "content-type") == Some(CONTENT_TYPE) && "content-disposition" !in part.headers
    ensures IsPlain(part) && !IsContainer(part) && !IsAttachment(part)
  {
    hide MediaType, HeaderParameter;
    ContentTypeIsPlain();
    ContentTypeLacks("boundary");
    ContentTypeLacks("name");
    NoDisposition(part);
    assert "text/plain"[..5] == "text/";
    assert "text/plain"[..10][0] == 't' && "multipart/"[0] == 'm';
  }

  lemma NoDisposition(part: Part)
    requires "content-disposition" !in part.headers
    ensures HeaderParameter(Get(part.headers, "content-disposition"), "filename").None? && Disposition(part) == ""
  {
    hide IndexOf;
    assert Trim("") == "";
    assert IndexOf("", ";") == -1;
  }

  lemma BodyDecodes(part: Part, text: string)
    requires Get(part.headers, "content-transfer-encoding") == Some("base64") && IsOctets(text)
    requires part.body == Body(text)
    ensures Decoded(part) == Normalize(text)
  {
    hide Encode, Decode, Wrap, Strip, Normalize, Trim, Unquote, JoinSoft;
    NormalOctets(text);
    BodyIsLines(text);
    StripWrap(Encode(Normalize(text)));
    DecodeEncode(Normalize(text));
    TrimSame("base64");
    assert Lower("base64") == "base64";
  }

  lemma WalkPlain(part: Part)
    requires IsPlain(part) && !IsContainer(part) && !IsAttachment(part)
    ensures Walk(part, 0, NOTHING) == Found(Some(Decoded(part)), None, [], 1)
  {
    hide IsPlain, IsContainer, IsAttachment, Decoded, AsAttachment;
  }

  // ------------------------------------------------------ the subject

  /** When the header value of a subject reads back as the subject. */
  ghost predicate SubjectSurvives(subject: string) {
    !Printable(subject) || (Trimmed(subject) && !HasGap(subject, 0) && !HasWord(subject, 0))
  }

  lemma TrimShorter(s: string)
    ensures |Trim(" " + s)| < |s| || Trim(" " + s) == s
  {
    assert (" " + s)[1..] == s;
    assert TrimLeft(" " + s) == TrimLeft(s);
    var l := TrimLeft(s);
    assert |l| == |s| ==> l == s;
    assert |TrimRight(l)| == |l| ==> TrimRight(l) == l;
  }

  lemma DecodeShorter(s: string)
    ensures |DecodeWords(s)| <= |s|
  {
    hide Joined, Replaced, HasGap, HasWord;
    JoinedShorter(s, 0);
    ReplacedShorter(Joined(s, 0), 0);
  }

  lemma EncodedWordTrimmed(subject: string)
    requires IsOctets(subject)
    ensures Trimmed(EncodedWord(subject))
  {
    hide Encode;
    var w := EncodedWord(subject);
    assert w[0] == '=' && w[|w| - 1] == '=';
  }

  lemma SubjectReads(subject: string)
    requires IsOctets(subject)
    ensures DecodeWords(Trim(" " + EncodeSubject(subject))) == subject <==> SubjectSurvives(subject)
  {
    hide DecodeWords, Trim, HasGap, HasWord, EncodedWord, Trimmed;
    if !Printable(subject) {
      EncodedWordTrimmed(subject);
      TrimSame(EncodedWord(subject));
      DecodeEncodedWord(subject);
    } else {
      var value := Trim(" " + subject);
      TrimExactly(subject);
      TrimShorter(subject);
      DecodeShorter(value);
      DecodesToItselfExactly(subject);
    }
  }

  // ------------------------------------------------------ the round trip

  /**
   For every validated message: reading what was composed gives the text with its
   line endings normalised, no HTML and no attachments; and it gives the subject
   exactly when the subject is encoded, or has no outer spaces and nothing in it
   that reads as an encoded word.
   */
  lemma ComposedMessageParses(from: string, o: Outgoing, date: string, id: string)
    requires Composable(from, o, date, id) && IsOctets(o.subject) && IsOctets(o.text)
    ensures var parsed := Parse(Compose(from, o, date, id));
            && parsed.text == Some(Normalize(o.text)) && parsed.html.None? && parsed.attachments == []
            && (parsed.subject == o.subject <==> SubjectSurvives(o.subject))
  {
    hide Composable, IsOctets, Compose, SplitPart, Headers, HeaderMap, Body, Normalize, Walk, DecodeWords, Trim,
      Spelled, SubjectSurvives, IsPlain, IsContainer, IsAttachment, Decoded, EncodeSubject;
    var lines, fields := Headers(from, o, date, id), Fields(from, o, date, id);
    ComposedSplits(from, o, date, id);
    HeadersSpelled(from, o, date, id);
    FieldFound(lines, fields, 2);
    FieldFound(lines, fields, 6);
    FieldFound(lines, fields, 7);
    NamesDiffer(fields);
    FieldAbsent(lines, fields, "content-disposition");
    ContentTypeText();
    TrimSame(CONTENT_TYPE);
    TrimSame("base64");
    var part := Part(HeaderMap(lines), Body(o.text));
    PartIsPlain(part);
    BodyDecodes(part, o.text);
    WalkPlain(part);
    SubjectReads(o.subject);
  }

  /** In particular an ASCII subject without outer spaces and without `=?`, and every other subject, reads back. */
  lemma PlainSubjectSurvives(subject: string)
    requires Printable(subject) ==> Trimmed(subject) && forall k :: !At(subject, "=?", k)
    ensures SubjectSurvives(subject)
  {
    if Printable(subject) { NoMarkNoWord(subject); }
  }

  /** Two subjects that do not come back: one with an outer space, one that looks encoded. */
  lemma SubjectsThatChange()
    ensures !SubjectSurvives(" a") && !SubjectSurvives("=?x?Q?a?=")
  {
    LooksEncoded();
    hide WordAt;
    assert HasWord("=?x?Q?a?=", 0);
    assert !Trimmed(" a") && Printable(" a");
  }

  lemma LooksEncoded()
    ensures WordAt("=?x?Q?a?=", 0).Some? && Printable("=?x?Q?a?=")
  {
    hide RunEnd;
    var s := "=?x?Q?a?=";
    assert s[0..2] == "=?" && s[7..9] == "?=";
    RunEndIs(s, 2, 3);
    RunEndIs(s, 6, 7);
  }
}
