/**
 Header values with parameters (section 5.1 of RFC 2045): every spelling of a
 list of parameters is read back by name, in either case, quoted or not.
 */
module Parameters {
  import opened Strings
  import opened MimeText
  import opened EncodedWords
  import opened MessageParser

  datatype QuotedChar = QuotedChar(c: char, escaped: bool)

  /** How the writer spells a value. */
  datatype Spelling = Token(text: string) | Quoted(chars: seq<QuotedChar>)

  /** A parameter with the white space before its name and around its equals sign. */
  datatype Parameter = Parameter(gap: string, name: string, before: string, after: string, spelling: Spelling)

  predicate AllSpace(s: string) { forall i :: 0 <= i < |s| ==> IsSpace(s[i]) }

  predicate NameChar(c: char) { !IsSpace(c) && c != '=' && c != ';' && c != '"' }

  predicate IsName(s: string) { s != "" && forall i :: 0 <= i < |s| ==> NameChar(s[i]) }

  /** Without the characters that end a token, need quoting, or undo it. */
  predicate TokenChar(c: char) { !IsSpace(c) && c != ';' && c != '"' && c != '\\' }

  predicate LegalSpelling(v: Spelling) {
    match v
    case Token(text) => text != "" && forall i :: 0 <= i < |text| ==> TokenChar(text[i])
    case Quoted(chars) => forall i :: 0 <= i < |chars| ==> chars[i].c == '"' || chars[i].c == '\\' ==> chars[i].escaped
  }

  predicate Legal(p: Parameter) {
    IsName(p.name) && AllSpace(p.gap) && AllSpace(p.before) && AllSpace(p.after) && LegalSpelling(p.spelling)
  }

  function QuotedText(chars: seq<QuotedChar>): (s: string) {
    if chars == [] then ""
    else (if chars[0].escaped then ['\\', chars[0].c] else [chars[0].c]) + QuotedText(chars[1..])
  }

  function PlainText(chars: seq<QuotedChar>): (s: string) {
    if chars == [] then "" else [chars[0].c] + PlainText(chars[1..])
  }

  function Spelled(v: Spelling): (s: string) {
    match v case Token(text) => text case Quoted(chars) => "\"" + QuotedText(chars) + "\""
  }

  /** The value that is meant. */
  function Meant(v: Spelling): (s: string) {
    match v case Token(text) => text case Quoted(chars) => PlainText(chars)
  }

  function Print(p: Parameter): (s: string) {
    ";" + (p.gap + (p.name + (p.before + ("=" + (p.after + Spelled(p.spelling))))))
  }

  function PrintAll(ps: seq<Parameter>): (s: string) { if ps == [] then "" else Print(ps[0]) + PrintAll(ps[1..]) }

  // ------------------------------------------------------ white space and quotes

  /** `s` is what stands in `v` from `i` on. */
  predicate From(v: string, i: nat, s: string) { i <= |v| && v[i..] == s }

  lemma {:induction false} SpaceRun(v: string, i: nat, gap: string, rest: string)
    requires From(v, i, gap + rest) && AllSpace(gap) && (rest != "" ==> !IsSpace(rest[0]))
    ensures SpaceEnd(v, i) == i + |gap| && From(v, i + |gap|, rest)
    decreases |gap|
  {
    hide SpaceEnd, IsSpace;
    if gap == "" {
      assert gap + rest == rest;
      assert rest != "" ==> v[i] == v[i..][0];
      SpaceStops(v, i);
    } else {
      assert v[i] == v[i..][0] && v[i + 1..] == v[i..][1..] && (gap + rest)[1..] == gap[1..] + rest;
      SpaceGoesOn(v, i);
      SpaceRun(v, i + 1, gap[1..], rest);
    }
  }

  lemma SpaceStops(v: string, i: nat)
    requires i < |v| ==> !IsSpace(v[i])
    ensures SpaceEnd(v, i) == i
  {
  }

  lemma SpaceGoesOn(v: string, i: nat)
    requires i < |v| && IsSpace(v[i])
    ensures SpaceEnd(v, i) == SpaceEnd(v, i + 1)
  {
  }

  lemma {:induction false} QuoteEnds(v: string, i: nat, chars: seq<QuotedChar>, rest: string)
    requires LegalSpelling(Quoted(chars)) && From(v, i, QuotedText(chars) + ("\"" + rest))
    ensures QuoteEnd(v, i) == Some(i + |QuotedText(chars)|)
    decreases |chars|
  {
    var t := QuotedText(chars) + ("\"" + rest);
    assert v[i] == v[i..][0] == t[0];
    if chars != [] {
      var head := if chars[0].escaped then ['\\', chars[0].c] else [chars[0].c];
      assert QuotedText(chars) == head + QuotedText(chars[1..]);
      assert v[i + |head|..] == v[i..][|head|..];
      assert t[|head|..] == QuotedText(chars[1..]) + ("\"" + rest);
      QuoteEnds(v, i + |head|, chars[1..], rest);
    }
  }

  lemma {:induction false} QuotedUnescapes(chars: seq<QuotedChar>)
    requires LegalSpelling(Quoted(chars))
    ensures Unescaped(QuotedText(chars)) == PlainText(chars)
    decreases |chars|
  {
    if chars != [] {
      var rest := QuotedText(chars[1..]);
      QuotedUnescapes(chars[1..]);
      var s := QuotedText(chars);
      if chars[0].escaped { assert s[2..] == rest; } else { assert s[1..] == rest; }
    }
  }

  lemma {:induction false} TokenUnescapes(text: string)
    requires forall i :: 0 <= i < |text| ==> TokenChar(text[i])
    ensures Unescaped(text) == text
    decreases |text|
  {
    if text != "" {
      assert forall i :: 0 <= i < |text[1..]| ==> text[1..][i] == text[i + 1];
      TokenUnescapes(text[1..]);
      assert text == [text[0]] + text[1..];
    }
  }

  lemma {:induction false} TokenEnds(v: string, i: nat, text: string, rest: string)
    requires From(v, i, text + rest) && (forall k :: 0 <= k < |text| ==> TokenChar(text[k]))
    requires rest == "" || rest[0] == ';' || IsSpace(rest[0])
    ensures TokenEnd(v, i) == i + |text|
    decreases |text|
  {
    if text == "" {
      assert rest != "" ==> v[i] == v[i..][0];
    } else {
      assert v[i] == v[i..][0] && v[i + 1..] == v[i..][1..] && (text + rest)[1..] == text[1..] + rest;
      TokenEnds(v, i + 1, text[1..], rest);
    }
  }

  // ------------------------------------------------------ one parameter

  /** What stands at `i`, and what follows it. */
  lemma Cut(v: string, i: nat, a: string, rest: string)
    requires From(v, i, a + rest)
    ensures i + |a| <= |v| && v[i..i + |a|] == a && From(v, i + |a|, rest)
    ensures a != "" ==> v[i] == a[0]
  {
    assert v[i..i + |a|] == v[i..][..|a|] && v[i + |a|..] == v[i..][|a|..];
    assert a != "" ==> v[i] == v[i..][0];
  }

  /** The reader's choice at the value: quoted, a token, or nothing. */
  function ValueAt(v: string, m: nat): (r: Option<string>) {
    if m < |v| && v[m] == '"' && QuoteEnd(v, m + 1).Some? then Some(v[m + 1..QuoteEnd(v, m + 1).value])
    else if m < TokenEnd(v, m) && m <= |v| then Some(v[m..TokenEnd(v, m)])
    else None
  }

  lemma ParameterAtIs(v: string, name: string, i: nat, j: nat, k: nat, m: nat)
    requires i < |v| && v[i] == ';' && SpaceEnd(v, i + 1) == j && j + |name| <= |v|
    requires Lower(v[j..j + |name|]) == name && SpaceEnd(v, j + |name|) == k
    requires k < |v| && v[k] == '=' && SpaceEnd(v, k + 1) == m
    ensures ParameterAt(v, name, i) == ValueAt(v, m)
  {
    hide SpaceEnd, Lower, TokenEnd, QuoteEnd;
    assert m <= |v| by { SpaceEndInside(v, k + 1); }
  }

  lemma SpaceEndInside(v: string, i: nat)
    requires i <= |v|
    ensures SpaceEnd(v, i) <= |v|
  {
  }

  /** The name is found where it was written. */
  lemma NameFound(v: string, i: nat, p: Parameter, tail: string)
    requires IsName(p.name) && AllSpace(p.gap) && From(v, i, ";" + (p.gap + (p.name + tail)))
    ensures var j := i + 1 + |p.gap|;
            && i < |v| && v[i] == ';' && SpaceEnd(v, i + 1) == j
            && j + |p.name| <= |v| && v[j..j + |p.name|] == p.name && From(v, j + |p.name|, tail)
  {
    hide SpaceEnd, From, AllSpace, IsName;
    var named := p.name + tail;
    Cut(v, i, ";", p.gap + named);
    NameStarts(p, tail);
    SpaceRun(v, i + 1, p.gap, named);
    Cut(v, i + 1 + |p.gap|, p.name, tail);
  }

  lemma EqualsFound(v: string, i: nat, before: string, value: string)
    requires AllSpace(before) && From(v, i, before + ("=" + value))
    ensures var k := i + |before|; SpaceEnd(v, i) == k && k < |v| && v[k] == '=' && From(v, k + 1, value)
  {
    hide SpaceEnd, From, AllSpace;
    EqualsIsNoSpace(value);
    SpaceRun(v, i, before, "=" + value);
    Cut(v, i + |before|, "=", value);
  }

  lemma EqualsIsNoSpace(value: string)
    ensures !IsSpace(("=" + value)[0])
  {
  }

  /** Up to its value a printed parameter is read as it was written. */
  lemma ValueFound(v: string, i: nat, p: Parameter, rest: string, name: string)
    requires Legal(p) && From(v, i, Print(p) + rest) && Lower(p.name) == name
    ensures var m := i + |Print(p)| - |Spelled(p.spelling)|;
            && i <= m && From(v, m, Spelled(p.spelling) + rest)
            && ParameterAt(v, name, i) == ValueAt(v, m)
  {
    hide Spelled, Lower, ParameterAt, ValueAt, SpaceEnd, LegalSpelling, From, Print, AllSpace, IsName;
    var value := Spelled(p.spelling) + rest;
    SpelledFirst(p.spelling, rest);
    Unprint(p, rest);
    NameFound(v, i, p, p.before + ("=" + (p.after + value)));
    SameLength(p.name, name);
    var j := i + 1 + |p.gap|;
    var k := j + |name| + |p.before|;
    EqualsFound(v, j + |name|, p.before, p.after + value);
    SpaceRun(v, k + 1, p.after, value);
    ParameterAtIs(v, name, i, j, k, k + 1 + |p.after|);
  }

  lemma SpelledFirst(v: Spelling, rest: string)
    requires LegalSpelling(v)
    ensures !IsSpace((Spelled(v) + rest)[0])
  {
    SpelledStarts(v);
    assert (Spelled(v) + rest)[0] == Spelled(v)[0];
  }

  lemma Unprint(p: Parameter, rest: string)
    ensures Print(p) + rest
            == ";" + (p.gap + (p.name + (p.before + ("=" + (p.after + (Spelled(p.spelling) + rest))))))
    ensures |Print(p)| == 2 + |p.gap| + |p.name| + |p.before| + |p.after| + |Spelled(p.spelling)|
  {
    hide Spelled;
    var s := Spelled(p.spelling);
    Assoc(p.after, s, rest);
    Assoc("=", p.after + s, rest);
    Assoc(p.before, "=" + (p.after + s), rest);
    Assoc(p.name, p.before + ("=" + (p.after + s)), rest);
    Assoc(p.gap, p.name + (p.before + ("=" + (p.after + s))), rest);
    Assoc(";", p.gap + (p.name + (p.before + ("=" + (p.after + s)))), rest);
  }

  lemma SameLength(s: string, name: string)
    requires Lower(s) == name
    ensures |s| == |name|
  {
  }

  lemma SpelledStarts(v: Spelling)
    requires LegalSpelling(v)
    ensures Spelled(v) != "" && !IsSpace(Spelled(v)[0])
  {
  }

  /** The value of a printed parameter is read as it was meant. */
  lemma ValueReads(v: string, m: nat, s: Spelling, rest: string)
    requires LegalSpelling(s) && From(v, m, Spelled(s) + rest)
    requires rest == "" || rest[0] == ';' || IsSpace(rest[0])
    ensures ValueAt(v, m).Some? && Unescaped(ValueAt(v, m).value) == Meant(s)
  {
    hide QuoteEnd, TokenEnd, Unescaped, QuotedText, PlainText, From;
    match s {
      case Token(text) =>
        Cut(v, m, text, rest);
        assert v[m] != '"' by { assert TokenChar(text[0]); }
        TokenEnds(v, m, text, rest);
        TokenUnescapes(text);
      case Quoted(chars) => QuotedReads(v, m, chars, rest);
    }
  }

  lemma QuotedReads(v: string, m: nat, chars: seq<QuotedChar>, rest: string)
    requires LegalSpelling(Quoted(chars)) && From(v, m, Spelled(Quoted(chars)) + rest)
    ensures ValueAt(v, m).Some? && Unescaped(ValueAt(v, m).value) == PlainText(chars)
  {
    hide QuoteEnd, TokenEnd, Unescaped, QuotedText, PlainText, From, LegalSpelling;
    var q := QuotedText(chars);
    var tail := "\"" + rest;
    Assoc("\"" + q, "\"", rest);
    Assoc("\"", q, tail);
    Cut(v, m, "\"", q + tail);
    QuoteEnds(v, m + 1, chars, rest);
    Cut(v, m + 1, q, tail);
    QuotedUnescapes(chars);
  }

  // ------------------------------------------------------ parameters of other names

  /** A parameter of another name is passed over. */
  lemma OtherName(v: string, i: nat, p: Parameter, rest: string, name: string)
    requires Legal(p) && From(v, i, Print(p) + rest) && IsName(name) && Lower(p.name) != name
    ensures ParameterAt(v, name, i) == None
  {
    hide Spelled, Lower, SpaceEnd, LegalSpelling, From, Print, AllSpace, IsName, ParameterAt;
    var after := p.after + (Spelled(p.spelling) + rest);
    Unprint(p, rest);
    NameFound(v, i, p, p.before + ("=" + after));
    NotThisName(v, i + 1 + |p.gap|, p.name, p.before, after, name);
    NoneHere(v, name, i, i + 1 + |p.gap|);
  }

  lemma NoneHere(v: string, name: string, i: nat, j: nat)
    requires i < |v| && SpaceEnd(v, i + 1) == j
    requires j + |name| <= |v| && Lower(v[j..j + |name|]) == name ==>
               var k := SpaceEnd(v, j + |name|); k >= |v| || v[k] != '='
    ensures ParameterAt(v, name, i) == None
  {
    hide SpaceEnd, Lower, TokenEnd, QuoteEnd;
  }

  lemma NameStarts(p: Parameter, tail: string)
    requires IsName(p.name)
    ensures !IsSpace((p.name + tail)[0])
  {
    assert (p.name + tail)[0] == p.name[0] && NameChar(p.name[0]);
  }

  lemma NameNoSpace(c: char)
    requires NameChar(c)
    ensures !IsSpace(c) && c != '='
  {
  }

  lemma NotThisName(v: string, j: nat, other: string, before: string, after: string, name: string)
    requires IsName(other) && IsName(name) && AllSpace(before) && Lower(other) != name
    requires j + |other| <= |v| && v[j..j + |other|] == other && From(v, j + |other|, before + ("=" + after))
    ensures j + |name| <= |v| && Lower(v[j..j + |name|]) == name ==>
              var k := SpaceEnd(v, j + |name|); k >= |v| || v[k] != '='
  {
    hide NameChar, IsSpace, Lower, From, AllSpace, SpaceEnd;
    if |other| < |name| {
      TooShort(v, j, other, before, after, name);
    } else if |name| < |other| && j + |name| <= |v| {
      assert v[j + |name|] == other[|name|] by { assert v[j + |name|] == v[j..j + |other|][|name|]; }
      assert NameChar(other[|name|]);
      NameNoSpace(other[|name|]);
      NoSpaceEnd(v, j + |name|);
    }
  }

  lemma NoSpaceEnd(v: string, i: nat)
    requires i < |v| && !IsSpace(v[i])
    ensures SpaceEnd(v, i) == i
  {
  }

  /** A longer name would have to hold the white space or the equals sign. */
  lemma TooShort(v: string, j: nat, other: string, before: string, after: string, name: string)
    requires IsName(name) && AllSpace(before) && |other| < |name|
    requires From(v, j + |other|, before + ("=" + after))
    ensures j + |name| <= |v| ==> Lower(v[j..j + |name|]) != name
  {
    hide NameChar, IsSpace;
    assert |before + ("=" + after)| > 0;
    var c := v[j + |other|];
    assert c == v[j + |other|..][0];
    assert if before == "" then c == '=' else c == before[0];
    if j + |name| <= |v| {
      assert v[j..j + |name|][|other|] == c;
      LowerKeeps(c, before == "");
      assert NameChar(name[|other|]);
    }
  }

  lemma LowerKeeps(c: char, equals: bool)
    requires if equals then c == '=' else IsSpace(c)
    ensures !NameChar(LowerChar(c))
  {
  }

  // ------------------------------------------------------ the whole value

  /** Before the first parameter there is no semicolon, and no other value holds one. */
  predicate NoSemicolon(s: string) { forall i :: 0 <= i < |s| ==> s[i] != ';' }

  lemma {:induction false} NothingBefore(v: string, name: string, i: nat, j: nat)
    requires i <= j <= |v| && forall k :: i <= k < j ==> ParameterAt(v, name, k) == None
    ensures FirstParameter(v, name, i) == FirstParameter(v, name, j)
    decreases j - i
  {
    hide ParameterAt;
    if i < j { NothingBefore(v, name, i + 1, j); }
  }

  /** A parameter of this name is read, whatever follows it. */
  lemma ReadsHere(v: string, i: nat, p: Parameter, rest: string, name: string)
    requires From(v, i, Print(p) + rest) && Legal(p) && Lower(p.name) == name
    requires rest == "" || rest[0] == ';' || IsSpace(rest[0])
    ensures FirstParameter(v, name, i) == Some(Meant(p.spelling))
  {
    hide ParameterAt, Legal, Lower, Print, Spelled, From, FirstParameter, ValueAt;
    assert LegalSpelling(p.spelling) by { LegalParts(p); }
    ValueFound(v, i, p, rest, name);
    ValueReads(v, i + |Print(p)| - |Spelled(p.spelling)|, p.spelling, rest);
    PrintStarts(p);
    Cut(v, i, Print(p), rest);
    FoundHere(v, name, i);
  }

  /** A parameter of another name, without a semicolon of its own, is passed over. */
  lemma PassesOver(v: string, i: nat, q: Parameter, more: string, name: string)
    requires From(v, i, Print(q) + more) && Legal(q) && IsName(name) && Lower(q.name) != name
    requires NoSemicolon(Print(q)[1..])
    ensures var j := i + |Print(q)|; From(v, j, more) && FirstParameter(v, name, i) == FirstParameter(v, name, j)
  {
    hide ParameterAt, Legal, Lower, IsName, NoSemicolon, Print, From, FirstParameter;
    Cut(v, i, Print(q), more);
    PrintStarts(q);
    OtherName(v, i, q, more, name);
    var j := i + |Print(q)|;
    forall k | i <= k < j ensures ParameterAt(v, name, k) == None {
      if k > i {
        assert v[k] == v[i..j][k - i] == Print(q)[1..][k - i - 1];
        NoneWithoutSemicolon(v, name, k, Print(q)[1..]);
      }
    }
    NothingBefore(v, name, i, j);
  }

  /** The first value given to a name. */
  function FirstNamed(ps: seq<Parameter>, name: string): (r: Option<string>) {
    if ps == [] then None
    else if Lower(ps[0].name) == name then Some(Meant(ps[0].spelling))
    else FirstNamed(ps[1..], name)
  }

  /** Legal parameters without semicolons inside their values. */
  predicate Quiet(ps: seq<Parameter>) { forall i :: 0 <= i < |ps| ==> Legal(ps[i]) && NoSemicolon(Print(ps[i])[1..]) }

  lemma {:induction false} ReadsFrom(v: string, i: nat, ps: seq<Parameter>, name: string)
    requires From(v, i, PrintAll(ps)) && Quiet(ps) && IsName(name)
    ensures FirstParameter(v, name, i) == FirstNamed(ps, name)
    decreases |ps|
  {
    hide Legal, Lower, IsName, NoSemicolon, Print, From, FirstParameter;
    if ps == [] {
      FromEnd(v, i, name);
    } else if Lower(ps[0].name) == name {
      NextStarts(ps[1..]);
      ReadsHere(v, i, ps[0], PrintAll(ps[1..]), name);
    } else {
      PassesOver(v, i, ps[0], PrintAll(ps[1..]), name);
      ReadsFrom(v, i + |Print(ps[0])|, ps[1..], name);
    }
  }

  lemma FromEnd(v: string, i: nat, name: string)
    requires From(v, i, "")
    ensures FirstParameter(v, name, i) == None
  {
  }

  lemma NextStarts(ps: seq<Parameter>)
    ensures PrintAll(ps) == "" || PrintAll(ps)[0] == ';'
  {
  }

  lemma FoundHere(v: string, name: string, i: nat)
    requires i < |v| && ParameterAt(v, name, i).Some?
    ensures FirstParameter(v, name, i) == Some(Unescaped(ParameterAt(v, name, i).value))
  {
    hide ParameterAt;
  }

  lemma LegalParts(p: Parameter)
    requires Legal(p)
    ensures LegalSpelling(p.spelling)
  {
  }

  lemma PrintStarts(p: Parameter)
    ensures |Print(p)| > 0
  {
  }

  lemma NoneWithoutSemicolon(v: string, name: string, k: nat, s: string)
    requires k < |v| && NoSemicolon(s) && v[k] in s
    ensures ParameterAt(v, name, k) == None
  {
  }

  /** A value printed with parameters gives back, for every name, the first value given to it, or nothing. */
  lemma ParametersRoundTrip(main: string, ps: seq<Parameter>, name: string)
    requires NoSemicolon(main) && Quiet(ps) && IsName(name)
    ensures HeaderParameter(Some(main + PrintAll(ps)), name) == FirstNamed(ps, name)
  {
    hide ParameterAt, PrintAll, Quiet, IsName;
    var v := main + PrintAll(ps);
    assert v[0..] == v && From(v, 0, v);
    Cut(v, 0, main, PrintAll(ps));
    forall k | 0 <= k < |main| ensures ParameterAt(v, name, k) == None {
      assert v[k] == main[k];
      NoneWithoutSemicolon(v, name, k, main);
    }
    NothingBefore(v, name, 0, |main|);
    ReadsFrom(v, |main|, ps, name);
  }

  /** A semicolon inside a quoted value can pass for a parameter of its own. */
  lemma SemicolonMisleads()
    ensures HeaderParameter(Some(";x=\";b=c\""), "b") == Some("c\"")
  {
    hide Lower, ParameterAt;
    var v := ";x=\";b=c\"";
    NothingAtFirst(v);
    forall k | 0 < k < 4 ensures ParameterAt(v, "b", k) == None {
      assert v[1..4] == "x=\"";
      NoneWithoutSemicolon(v, "b", k, "x=\"");
    }
    NothingBefore(v, "b", 0, 4);
    FoundInside(v);
    FoundHere(v, "b", 4);
    LetterUnescapes();
  }

  lemma NothingAtFirst(v: string)
    requires v == ";x=\";b=c\""
    ensures ParameterAt(v, "b", 0) == None
  {
    hide Lower;
    assert v[1..2] == "x";
    OneLetter();
    assert SpaceEnd(v, 1) == 1;
  }

  lemma FoundInside(v: string)
    requires v == ";x=\";b=c\""
    ensures ParameterAt(v, "b", 4) == Some("c\"")
  {
    hide Lower;
    assert v[4] == ';' && v[5] == 'b' && v[6] == '=' && v[7] == 'c';
    assert v[5..6] == "b" && v[7..9] == "c\"";
    OneLetter();
    assert TokenEnd(v, 7) == 9;
    ParameterAtIs(v, "b", 4, 5, 6, 7);
  }

  lemma OneLetter()
    ensures Lower("x") == "x" && Lower("b") == "b"
  {
  }

  lemma LetterUnescapes()
    ensures Unescaped("c\"") == "c\""
  {
    assert "c\""[1..] == "\"" && "\""[1..] == "";
  }

  /** The main value in front of any parameters, trimmed and in lower case. */
  lemma MainReads(main: string, more: string)
    requires NoSemicolon(main) && (more == "" || more[0] == ';')
    ensures FirstField(main + more) == Lower(Trim(main))
  {
    hide Trim, Lower;
    var v := main + more;
    if more == "" {
      assert v == main;
      assert IndexOf(v, ";") == -1 by { NoneIndexed(v); }
    } else {
      assert At(v, ";", |main|) by { assert v[|main|..|main| + 1] == ";"; }
      forall k | 0 <= k < |main| ensures !At(v, ";", k) {
        assert v[k..k + 1][0] == main[k];
      }
      IndexOfIs(v, ";", |main|);
      assert v[..|main|] == main;
    }
  }

  lemma NoneIndexed(v: string)
    requires NoSemicolon(v)
    ensures IndexOf(v, ";") == -1
  {
    forall k | 0 <= k < |v| ensures !At(v, ";", k) {
      assert v[k..k + 1][0] == v[k];
    }
  }
}
