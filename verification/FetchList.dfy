/**
 `parseFetchList`: recursive descent over one merged FETCH response (RFC 3501
 section 7.4.2).  Every call costs one unit of fuel, so that a parse that would
 never return is visible as `Looping`.
 */
module FetchList {
  import opened Strings
  import opened ImapStream

  /** JavaScript `string | null | FetchValue[]`. */
  datatype FetchValue = Null | Text(text: string) | List(items: seq<FetchValue>)

  datatype Parse<+T> = Ok(value: T, pos: nat) | Malformed | Looping

  /**
   How many octets the literal loop takes for the text between the braces:
   JavaScript's `Number` of that text, `None` standing for NaN, which no octet
   count ever reaches.
   */
  type Numeral = string -> Option<nat>

  ghost predicate ReadsDecimals(num: Numeral) {
    && num("") == Some(0)
    && forall n: nat :: num(Decimal(n)) == Some(n)
  }

  predicate Is(text: string, pos: nat, c: char) { pos < |text| && text[pos] == c }

  function SkipSpaces(text: string, pos: nat): (p: nat)
    ensures pos <= p && !Is(text, p, ' ') && (p > pos ==> p <= |text|)
    decreases |text| - pos
  {
    if Is(text, pos, ' ') then SkipSpaces(text, pos + 1) else pos
  }

  /** The value of a quoted string whose text starts at `pos`, and the position after its closing quote. */
  function ReadQuoted(text: string, pos: nat): (r: (string, nat))
    ensures pos < r.1 && (pos <= |text| ==> r.1 <= |text| + 2)
    decreases |text| - pos
  {
    if pos >= |text| || text[pos] == '"' then ("", pos + 1)
    else if text[pos] == '\\' then
      var (more, end) := ReadQuoted(text, pos + 2);
      ((if pos + 1 < |text| then [text[pos + 1]] else "") + more, end)
    else
      var (more, end) := ReadQuoted(text, pos + 1);
      ([text[pos]] + more, end)
  }

  predicate EndsAtom(c: char) { c == ' ' || c == ')' || c == '(' }

  function AtomEnd(text: string, pos: nat): (p: nat)
    ensures pos <= p && (pos <= |text| ==> p <= |text|) && (pos >= |text| ==> p == pos)
    decreases |text| - pos
  {
    if pos < |text| && !EndsAtom(text[pos]) then AtomEnd(text, pos + 1) else pos
  }

  function Upper(c: char): (u: char) { if 'a' <= c <= 'z' then c - 'a' + 'A' else c }

  predicate IsNil(atom: string) {
    |atom| == 3 && Upper(atom[0]) == 'N' && Upper(atom[1]) == 'I' && Upper(atom[2]) == 'L'
  }

  /** `charIndexForBytes` on octets: the literal loop stops once `size` octets were taken, or at the end. */
  function TakenFrom(text: string, start: nat, size: Option<nat>): (length: nat)
    ensures start <= |text| ==> start + length <= |text|
    ensures start > |text| ==> length == 0
  {
    if start > |text| then 0
    else match size
      case None => |text| - start
      case Some(k) => if k <= |text| - start then k else |text| - start
  }

  /** The text between the braces; without a closing brace the slice runs to the last character but one. */
  function BraceText(text: string, pos: nat): (s: string)
    requires Is(text, pos, '{')
  {
    var end := IndexOfFrom(text, "}", pos);
    if end != -1 then text[pos + 1..end]
    else if pos + 1 <= |text| - 1 then text[pos + 1..|text| - 1] else ""
  }

  /** Where a literal starts: after `}` and CRLF, or at 2 when there is no closing brace. */
  function LiteralStart(text: string, pos: nat): (start: nat)
    requires Is(text, pos, '{')
  {
    IndexOfFrom(text, "}", pos) + 1 + |CRLF|
  }

  function LiteralEnd(num: Numeral, text: string, pos: nat): (end: nat)
    requires Is(text, pos, '{')
  {
    var start := LiteralStart(text, pos);
    start + TakenFrom(text, start, num(BraceText(text, pos)))
  }

  function Slice(text: string, from: nat, to: nat): (s: string) {
    if from <= to <= |text| then text[from..to] else ""
  }

  function ParseValue(num: Numeral, text: string, pos: nat, fuel: nat): (r: Parse<FetchValue>)
    decreases fuel
  {
    if fuel == 0 then Looping
    else
      var p := SkipSpaces(text, pos);
      if Is(text, p, '(') then
        match ParseItems(num, text, p + 1, fuel - 1)
        case Ok(items, q) => Ok(List(items), q)
        case Malformed => Malformed
        case Looping => Looping
      else if Is(text, p, '"') then
        var (value, q) := ReadQuoted(text, p + 1);
        Ok(Text(value), q)
      else if Is(text, p, '{') then
        var q := LiteralEnd(num, text, p);
        Ok(Text(Slice(text, LiteralStart(text, p), q)), q)
      else
        var q := AtomEnd(text, p);
        if p == q then Malformed
        else Ok(if IsNil(text[p..q]) then Null else Text(text[p..q]), q)
  }

  function ParseItems(num: Numeral, text: string, pos: nat, fuel: nat): (r: Parse<seq<FetchValue>>)
    decreases fuel
  {
    if fuel == 0 then Looping
    else
      var p := SkipSpaces(text, pos);
      if p >= |text| then Malformed
      else if text[p] == ')' then Ok([], p + 1)
      else
        match ParseValue(num, text, p, fuel - 1)
        case Malformed => Malformed
        case Looping => Looping
        case Ok(item, q) =>
          match ParseItems(num, text, q, fuel - 1)
          case Ok(items, end) => Ok([item] + items, end)
          case Malformed => Malformed
          case Looping => Looping
  }

  /** `parseFetchList`, with fuel enough for every parse that returns on closed text. */
  function ParseFetchList(num: Numeral, text: string): (r: Parse<FetchValue>) {
    var pos := IndexOf(text, "(");
    if pos == -1 then Malformed else ParseValue(num, text, pos, 2 * |text| + 6)
  }

  // ------------------------------------------------------ progress

  /** Every `{` has a later `}`. */
  predicate Closed(text: string) {
    forall i: nat :: i < |text| && text[i] == '{' ==> IndexOfFrom(text, "}", i) != -1
  }

  function AllButLast(s: string): (r: string) { if s == "" then "" else s[..|s| - 1] }

  lemma UnclosedText(text: string, i: nat)
    requires Is(text, i, '{') && IndexOfFrom(text, "}", i) == -1
    ensures BraceText(text, i) == AllButLast(text[i + 1..])
  {
    assert i + 1 < |text| ==> text[i + 1..][..|text| - i - 2] == text[i + 1..|text| - 1];
  }

  /**
   Every brace either is closed, or is followed by text that is no number, or by
   one that, counted from position 2, reaches past the brace.
   */
  predicate Advancing(num: Numeral, text: string) {
    forall i: nat :: i < |text| && text[i] == '{' ==>
      || IndexOfFrom(text, "}", i) != -1
      || num(AllButLast(text[i + 1..])).None?
      || 2 + num(AllButLast(text[i + 1..])).value > i
  }

  lemma ClosedAdvances(num: Numeral, text: string)
    requires Closed(text)
    ensures Advancing(num, text)
  {
  }

  lemma BraceAdvances(num: Numeral, text: string, i: nat)
    requires Advancing(num, text) && Is(text, i, '{')
    ensures i < LiteralEnd(num, text, i) <= |text| + 2
  {
    hide BraceText, AllButLast;
    if IndexOfFrom(text, "}", i) == -1 { UnclosedText(text, i); }
  }

  /** On such text every value that is parsed lies strictly further on, and the fuel never runs out. */
  lemma {:induction false} ValueAdvances(num: Numeral, text: string, pos: nat, fuel: nat)
    requires Advancing(num, text) && pos <= |text| + 2
    ensures var r := ParseValue(num, text, pos, fuel);
            && (r.Ok? ==> pos < r.pos <= |text| + 2)
            && (2 * (|text| + 3 - pos) <= fuel ==> !r.Looping?)
    decreases fuel
  {
    hide ReadQuoted, AtomEnd, IsNil, Advancing, LiteralEnd;
    if fuel > 0 {
      var p := SkipSpaces(text, pos);
      if Is(text, p, '(') { ItemsAdvance(num, text, p + 1, fuel - 1); }
      if Is(text, p, '{') { BraceAdvances(num, text, p); }
    }
  }

  lemma {:induction false} ItemsAdvance(num: Numeral, text: string, pos: nat, fuel: nat)
    requires Advancing(num, text) && pos <= |text| + 2
    ensures var r := ParseItems(num, text, pos, fuel);
            && (r.Ok? ==> pos < r.pos <= |text| + 2)
            && (2 * (|text| + 3 - pos) + 1 <= fuel ==> !r.Looping?)
    decreases fuel
  {
    hide ParseValue, Advancing;
    if fuel > 0 {
      var p := SkipSpaces(text, pos);
      if p < |text| && text[p] != ')' {
        ValueAdvances(num, text, p, fuel - 1);
        var v := ParseValue(num, text, p, fuel - 1);
        if v.Ok? { ItemsAdvance(num, text, v.pos, fuel - 1); }
      }
    }
  }

  /** Every call of `parseValue` on this text, wherever it begins, ends strictly further on. */
  ghost predicate EveryCallAdvances(num: Numeral, text: string) {
    forall pos: nat, fuel: nat :: pos <= |text| + 2 && ParseValue(num, text, pos, fuel).Ok? ==>
      ParseValue(num, text, pos, fuel).pos > pos
  }

  /** All `parseValue` calls on a text strictly advance if and only if its braces do. */
  lemma CallsAdvanceExactly(num: Numeral, text: string)
    ensures EveryCallAdvances(num, text) <==> Advancing(num, text)
  {
    if Advancing(num, text) {
      forall pos: nat, fuel: nat | pos <= |text| + 2 && ParseValue(num, text, pos, fuel).Ok?
        ensures ParseValue(num, text, pos, fuel).pos > pos
      {
        ValueAdvances(num, text, pos, fuel);
      }
    } else {
      var i: nat :| Is(text, i, '{') && IndexOfFrom(text, "}", i) == -1
                    && num(AllButLast(text[i + 1..])).Some? && 2 + num(AllButLast(text[i + 1..])).value <= i;
      StuckBrace(num, text, i);
    }
  }

  /** The call that begins at a brace that does not advance ends at or before it. */
  lemma StuckBrace(num: Numeral, text: string, i: nat)
    requires Is(text, i, '{') && IndexOfFrom(text, "}", i) == -1
    requires num(AllButLast(text[i + 1..])).Some? && 2 + num(AllButLast(text[i + 1..])).value <= i
    ensures ParseValue(num, text, i, 1).Ok? && ParseValue(num, text, i, 1).pos <= i
  {
    hide BraceText, AllButLast;
    UnclosedText(text, i);
    assert SkipSpaces(text, i) == i;
  }

  /** Parsing returns, with a value or with a protocol error, on every text whose braces advance. */
  lemma AdvancingTextParses(num: Numeral, text: string)
    requires Advancing(num, text)
    ensures !ParseFetchList(num, text).Looping?
  {
    hide Advancing;
    var pos := IndexOf(text, "(");
    if pos != -1 { ValueAdvances(num, text, pos, 2 * |text| + 6); }
  }

  /** In particular on every text whose braces are closed. */
  lemma ClosedTextParses(num: Numeral, text: string)
    requires Closed(text)
    ensures !ParseFetchList(num, text).Looping?
  {
    hide Closed, Advancing;
    ClosedAdvances(num, text);
    AdvancingTextParses(num, text);
  }

  /** An unclosed brace can make the parser read the same text for ever. */
  lemma {:induction false} UnclosedBraceLoops(num: Numeral, fuel: nat)
    requires num("") == Some(0)
    ensures ParseItems(num, "(aa {5", 2, fuel).Looping?
    ensures ParseItems(num, "(aa {5", 3, fuel).Looping?
    ensures ParseItems(num, "(aa {5", 1, fuel).Looping?
    ensures ParseValue(num, "(aa {5", 0, fuel).Looping?
    decreases fuel
  {
    var t := "(aa {5";
    if fuel > 0 {
      UnclosedBraceLoops(num, fuel - 1);
      UnclosedBraceStep(num, fuel);
    }
  }

  lemma UnclosedBraceStep(num: Numeral, fuel: nat)
    requires fuel > 0 && num("") == Some(0)
    ensures var t := "(aa {5";
            && SkipSpaces(t, 0) == 0 && SkipSpaces(t, 1) == 1 && SkipSpaces(t, 2) == 2 && SkipSpaces(t, 3) == 4
            && ParseValue(num, t, 1, fuel).Ok? && ParseValue(num, t, 1, fuel).pos == 3
            && ParseValue(num, t, 2, fuel).Ok? && ParseValue(num, t, 2, fuel).pos == 3
            && ParseValue(num, t, 4, fuel).Ok? && ParseValue(num, t, 4, fuel).pos == 2
  {
    var t := "(aa {5";
    assert SkipSpaces(t, 4) == 4;
    assert AtomEnd(t, 3) == 3;
    assert AtomEnd(t, 2) == 3;
    assert AtomEnd(t, 1) == 3;
    assert IndexOfFrom(t, "}", 4) == -1;
    assert BraceText(t, 4) == "";
  }

  /** Yet a brace that does not advance need not loop: here the text before it closes the list. */
  lemma StuckBraceMayReturn(num: Numeral)
    requires num("") == Some(0)
    ensures !Advancing(num, "ab) (x {5") && ParseFetchList(num, "ab) (x {5") == Ok(List([Text("x"), Text("")]), 3)
  {
    hide ParseValue, ParseItems, SkipSpaces, IndexOf, Advancing;
    var t := "ab) (x {5";
    var fuel: nat := 2 * |t| + 6;
    StuckBraceTokens(num, fuel - 2);
    StuckBraceTokens(num, fuel - 3);
    ItemsEnd(num, t, 2, fuel - 3);
    ItemsStep(num, t, 6, fuel - 2);
    ItemsStep(num, t, 5, fuel - 1);
    GroupAt(num, t, 4, fuel);
    assert [Text("")] + [] == [Text("")] && [Text("x")] + [Text("")] == [Text("x"), Text("")];
  }

  lemma GroupAt(num: Numeral, text: string, pos: nat, fuel: nat)
    requires Is(text, pos, '(') && fuel > 0 && ParseItems(num, text, pos + 1, fuel - 1).Ok?
    ensures var r := ParseItems(num, text, pos + 1, fuel - 1);
            ParseValue(num, text, pos, fuel) == Ok(List(r.value), r.pos)
  {
    hide ParseItems;
    assert SkipSpaces(text, pos) == pos;
  }

  lemma StuckBraceTokens(num: Numeral, fuel: nat)
    requires num("") == Some(0) && fuel > 0
    ensures var t := "ab) (x {5";
            && !Advancing(num, t) && IndexOf(t, "(") == 4
            && SkipSpaces(t, 2) == 2 && SkipSpaces(t, 5) == 5 && SkipSpaces(t, 6) == 7
            && ParseValue(num, t, 5, fuel) == Ok(Text("x"), 6) && ParseValue(num, t, 7, fuel) == Ok(Text(""), 2)
  {
    hide Advancing, ParseValue, IndexOf;
    FirstParenthesis();
    BraceIsStuck(num);
    LetterParses(num, fuel);
    EmptyLiteralParses(num, fuel);
  }

  lemma LetterParses(num: Numeral, fuel: nat)
    requires fuel > 0
    ensures var t := "ab) (x {5"; SkipSpaces(t, 5) == 5 && ParseValue(num, t, 5, fuel) == Ok(Text("x"), 6)
  {
    hide ParseItems, LiteralEnd;
    var t := "ab) (x {5";
    assert AtomEnd(t, 6) == 6;
    assert AtomEnd(t, 5) == 6 && t[5..6] == "x";
  }

  lemma EmptyLiteralParses(num: Numeral, fuel: nat)
    requires num("") == Some(0) && fuel > 0
    ensures var t := "ab) (x {5"; SkipSpaces(t, 7) == 7 && ParseValue(num, t, 7, fuel) == Ok(Text(""), 2)
  {
    hide ParseItems, LiteralEnd, LiteralStart, AtomEnd, ReadQuoted;
    var t := "ab) (x {5";
    BraceIsStuck(num);
    assert SkipSpaces(t, 7) == 7 && t[7] == '{';
    assert Slice(t, 2, 2) == "";
  }

  lemma NeverClosed()
    ensures var t := "ab) (x {5"; IndexOfFrom(t, "}", 7) == -1 && BraceText(t, 7) == ""
  {
    var t := "ab) (x {5";
    assert t[8..9][0] == '5' && t[7..8][0] == '{';
    assert IndexOfFrom(t, "}", 8) == -1;
  }

  lemma BraceIsStuck(num: Numeral)
    requires num("") == Some(0)
    ensures var t := "ab) (x {5"; !Advancing(num, t) && LiteralStart(t, 7) == 2 && LiteralEnd(num, t, 7) == 2
  {
    hide IndexOfFrom, BraceText, AllButLast;
    var t := "ab) (x {5";
    NeverClosed();
    UnclosedText(t, 7);
    assert t[7] == '{' && 2 + num(AllButLast(t[7 + 1..])).value <= 7;
  }

  lemma FirstParenthesis()
    ensures IndexOf("ab) (x {5", "(") == 4
  {
    var t := "ab) (x {5";
    assert t[4..5] == "(";
    forall k | 0 <= k < 4 ensures !At(t, "(", k) {
      assert t[k..k + 1][0] == t[k];
    }
    IndexOfIs(t, "(", 4);
  }

  // ------------------------------------------------------ the wire form

  /** What a server may print for a value (RFC 3501 section 9). */
  datatype Node =
    | Atom(s: string)
    | Nil(s: string)
    | Quoted(s: string)
    | Literal(s: string)
    | Group(nodes: Nodes)

  /** The content of a list, with the number of spaces before each element and before the closing parenthesis. */
  datatype Nodes = End(gap: nat) | Cons(gap: nat, node: Node, rest: Nodes)

  function Spaces(n: nat): (s: string)
    ensures |s| == n && forall i :: 0 <= i < n ==> s[i] == ' '
  {
    seq(n, i => ' ')
  }

  function Escaped(s: string): (r: string) {
    if s == "" then ""
    else (if s[0] == '\\' || s[0] == '"' then ['\\', s[0]] else [s[0]]) + Escaped(s[1..])
  }

  /** `quotedString`. */
  function QuotedString(s: string): (r: string) { "\"" + Escaped(s) + "\"" }

  function PrintNode(n: Node): (s: string) {
    match n
    case Atom(s) => s
    case Nil(s) => s
    case Quoted(s) => QuotedString(s)
    case Literal(s) => Announce(|s|) + CRLF + s
    case Group(nodes) => "(" + PrintNodes(nodes)
  }

  function PrintNodes(ns: Nodes): (s: string) {
    match ns
    case End(gap) => Spaces(gap) + ")"
    case Cons(gap, node, rest) => Spaces(gap) + PrintNode(node) + PrintNodes(rest)
  }

  predicate AtomText(s: string) {
    && |s| > 0 && s[0] != '"' && s[0] != '{'
    && forall i :: 0 <= i < |s| ==> !EndsAtom(s[i])
  }

  /** Atoms have atom syntax, and an atom is followed by a space or a parenthesis. */
  predicate Legal(n: Node) {
    match n
    case Atom(s) => AtomText(s) && !IsNil(s)
    case Nil(s) => IsNil(s)
    case Group(nodes) => LegalNodes(nodes)
    case _ => true
  }

  predicate LegalNodes(ns: Nodes) {
    match ns
    case End(_) => true
    case Cons(_, node, rest) =>
      && Legal(node) && LegalNodes(rest)
      && (node.Atom? || node.Nil? ==> rest.End? || rest.gap > 0 || rest.node.Group?)
  }

  function Meaning(n: Node): (v: FetchValue) {
    match n
    case Nil(_) => Null
    case Group(nodes) => List(Meanings(nodes))
    case _ => Text(n.s)
  }

  function Meanings(ns: Nodes): (vs: seq<FetchValue>) {
    match ns
    case End(_) => []
    case Cons(_, node, rest) => [Meaning(node)] + Meanings(rest)
  }

  function Calls(n: Node): (k: nat)
    ensures k > 0
  {
    if n.Group? then 1 + CallsOf(n.nodes) else 1
  }

  function CallsOf(ns: Nodes): (k: nat)
    ensures k > 0
  {
    match ns
    case End(_) => 1
    case Cons(_, node, rest) => 1 + Calls(node) + CallsOf(rest)
  }

  // ------------------------------------------------------ reading it back

  lemma {:induction false} SkipsSpaces(text: string, pos: nat, n: nat)
    requires pos + n <= |text| && forall i :: pos <= i < pos + n ==> text[i] == ' '
    requires !Is(text, pos + n, ' ')
    ensures SkipSpaces(text, pos) == pos + n
    decreases n
  {
    if n > 0 { SkipsSpaces(text, pos + 1, n - 1); }
  }

  lemma {:induction false} ReadsQuoted(pre: string, s: string, post: string)
    ensures ReadQuoted(pre + Escaped(s) + "\"" + post, |pre|) == (s, |pre| + |Escaped(s)| + 1)
    decreases |s|
  {
    var text := pre + Escaped(s) + "\"" + post;
    if s == "" {
      assert text[|pre|] == '"';
    } else {
      var e := if s[0] == '\\' || s[0] == '"' then ['\\', s[0]] else [s[0]];
      assert text == (pre + e) + Escaped(s[1..]) + "\"" + post;
      ReadsQuoted(pre + e, s[1..], post);
      assert text[|pre|..|pre| + |e|] == e;
      assert text[|pre|] == e[0];
      assert [s[0]] + s[1..] == s;
    }
  }

  lemma {:induction false} ReadsAtom(text: string, pos: nat, end: nat)
    requires pos <= end <= |text| && forall i :: pos <= i < end ==> !EndsAtom(text[i])
    requires end < |text| ==> EndsAtom(text[end])
    ensures AtomEnd(text, pos) == end
    decreases end - pos
  {
    if pos < end { ReadsAtom(text, pos + 1, end); }
  }

  lemma ReadsLiteral(num: Numeral, pre: string, s: string, post: string)
    requires ReadsDecimals(num)
    ensures var text := pre + (Announce(|s|) + CRLF + s) + post;
            && Is(text, |pre|, '{')
            && LiteralStart(text, |pre|) == |pre| + |Announce(|s|)| + 2
            && LiteralEnd(num, text, |pre|) == |pre| + |Announce(|s|)| + 2 + |s|
            && Slice(text, LiteralStart(text, |pre|), LiteralEnd(num, text, |pre|)) == s
  {
    hide IndexOfFrom, Decimal;
    var a := Announce(|s|);
    var text := pre + (a + CRLF + s) + post;
    var close := |pre| + |a| - 1;
    assert text[|pre|..|pre| + |a|] == a;
    assert text[|pre|] == a[0] == '{' && text[close] == a[|a| - 1] == '}';
    assert At(text, "}", close);
    forall k | |pre| <= k < close ensures !At(text, "}", k) {
      assert text[k] == a[k - |pre|];
      assert text[k..k + 1] == [text[k]];
    }
    FirstFrom(text, "}", |pre|, close);
    assert text[|pre| + 1..close] == Decimal(|s|);
    assert text[close + 3..close + 3 + |s|] == s;
  }

  lemma FirstFrom(text: string, pat: string, from: nat, i: nat)
    requires from <= i && At(text, pat, i) && forall k :: from <= k < i ==> !At(text, pat, k)
    ensures IndexOfFrom(text, pat, from) == i
  {
    hide IndexOfFrom;
    var r := IndexOfFrom(text, pat, from);
    assert r == -1 || i < r ==> !At(text, pat, i);
  }

  /** What follows a node in a list decides where an atom ends. */
  predicate Delimited(n: Node, post: string) {
    n.Atom? || n.Nil? ==> post == "" || EndsAtom(post[0])
  }

  lemma AtomNode(num: Numeral, pre: string, s: string, post: string, fuel: nat)
    requires AtomText(s) && (post == "" || EndsAtom(post[0])) && fuel > 0
    ensures ParseValue(num, pre + s + post, |pre|, fuel) == Ok(if IsNil(s) then Null else Text(s), |pre| + |s|)
  {
    hide IsNil;
    var text := pre + s + post;
    assert text[|pre|..|pre| + |s|] == s;
    assert text[|pre|] == s[0];
    forall i | |pre| <= i < |pre| + |s| ensures !EndsAtom(text[i]) { assert text[i] == s[i - |pre|]; }
    assert |pre| + |s| < |text| ==> text[|pre| + |s|] == post[0];
    ReadsAtom(text, |pre|, |pre| + |s|);
  }

  lemma NilIsAtomText(s: string)
    requires IsNil(s)
    ensures AtomText(s)
  {
    forall i | 0 <= i < |s| ensures !EndsAtom(s[i]) { }
  }

  lemma QuotedNode(num: Numeral, pre: string, s: string, post: string, fuel: nat)
    requires fuel > 0
    ensures ParseValue(num, pre + QuotedString(s) + post, |pre|, fuel) == Ok(Text(s), |pre| + |QuotedString(s)|)
  {
    hide ReadQuoted, Escaped;
    var text := pre + QuotedString(s) + post;
    assert text == (pre + "\"") + Escaped(s) + "\"" + post;
    assert text[|pre|] == '"';
    ReadsQuoted(pre + "\"", s, post);
  }

  lemma LiteralNode(num: Numeral, pre: string, s: string, post: string, fuel: nat)
    requires ReadsDecimals(num) && fuel > 0
    ensures var wire := Announce(|s|) + CRLF + s;
            ParseValue(num, pre + wire + post, |pre|, fuel) == Ok(Text(s), |pre| + |wire|)
  {
    hide LiteralEnd, LiteralStart, Slice, ReadsDecimals;
    ReadsLiteral(num, pre, s, post);
  }

  lemma GroupNode(num: Numeral, text: string, pos: nat, fuel: nat)
    requires Is(text, pos, '(') && fuel > 0 && ParseItems(num, text, pos + 1, fuel - 1).Ok?
    ensures var r := ParseItems(num, text, pos + 1, fuel - 1);
            ParseValue(num, text, pos, fuel) == Ok(List(r.value), r.pos)
  {
  }

  lemma ItemsStep(num: Numeral, text: string, pos: nat, fuel: nat)
    requires fuel > 0
    requires var p := SkipSpaces(text, pos);
             && p < |text| && text[p] != ')'
             && ParseValue(num, text, p, fuel - 1).Ok?
             && ParseItems(num, text, ParseValue(num, text, p, fuel - 1).pos, fuel - 1).Ok?
    ensures var v := ParseValue(num, text, SkipSpaces(text, pos), fuel - 1);
            var vs := ParseItems(num, text, v.pos, fuel - 1);
            ParseItems(num, text, pos, fuel) == Ok([v.value] + vs.value, vs.pos)
  {
    hide SkipSpaces, ParseValue;
  }

  lemma ItemsEnd(num: Numeral, text: string, pos: nat, fuel: nat)
    requires fuel > 0 && Is(text, SkipSpaces(text, pos), ')')
    ensures ParseItems(num, text, pos, fuel) == Ok([], SkipSpaces(text, pos) + 1)
  {
    hide SkipSpaces;
  }

  /** Parsing the wire form of a value gives the value, wherever it stands. */
  lemma {:induction false} NodeRoundTrip(num: Numeral, pre: string, n: Node, post: string, fuel: nat)
    requires ReadsDecimals(num) && Legal(n) && Delimited(n, post) && Calls(n) <= fuel
    ensures ParseValue(num, pre + PrintNode(n) + post, |pre|, fuel) == Ok(Meaning(n), |pre| + |PrintNode(n)|)
    decreases n
  {
    hide ParseValue, ParseItems, PrintNodes, QuotedString, Announce, ReadsDecimals, LegalNodes;
    var text := pre + PrintNode(n) + post;
    match n
    case Atom(s) => AtomNode(num, pre, s, post, fuel);
    case Nil(s) =>
      NilIsAtomText(s);
      AtomNode(num, pre, s, post, fuel);
    case Quoted(s) => QuotedNode(num, pre, s, post, fuel);
    case Literal(s) => LiteralNode(num, pre, s, post, fuel);
    case Group(nodes) =>
      assert text == (pre + "(") + PrintNodes(nodes) + post;
      assert text[|pre|] == '(';
      NodesRoundTrip(num, pre + "(", nodes, post, fuel - 1);
      GroupNode(num, text, |pre|, fuel);
  }

  lemma FirstOfNodes(ns: Nodes)
    requires LegalNodes(ns)
    ensures |PrintNodes(ns)| > 0
    ensures ns.gap > 0 ==> PrintNodes(ns)[0] == ' '
    ensures ns.gap == 0 && ns.End? ==> PrintNodes(ns)[0] == ')'
    ensures ns.gap == 0 && ns.Cons? ==> |PrintNode(ns.node)| > 0 && PrintNodes(ns)[0] == PrintNode(ns.node)[0]
  {
    if ns.Cons? { FirstOfNode(ns.node); }
    assert ns.gap > 0 ==> PrintNodes(ns)[0] == Spaces(ns.gap)[0];
  }

  lemma FirstOfNode(n: Node)
    requires Legal(n)
    ensures |PrintNode(n)| > 0 && PrintNode(n)[0] != ' ' && PrintNode(n)[0] != ')'
    ensures n.Group? ==> PrintNode(n)[0] == '('
  {
    match n
    case Atom(s) => assert !EndsAtom(s[0]);
    case Nil(s) => assert Upper(s[0]) == 'N';
    case Quoted(s) => assert QuotedString(s)[0] == '"';
    case Literal(s) => assert Announce(|s|)[0] == '{';
    case Group(nodes) =>
  }

  lemma {:induction false} NodesRoundTrip(num: Numeral, pre: string, ns: Nodes, post: string, fuel: nat)
    requires ReadsDecimals(num) && LegalNodes(ns) && CallsOf(ns) <= fuel
    ensures ParseItems(num, pre + PrintNodes(ns) + post, |pre|, fuel) == Ok(Meanings(ns), |pre| + |PrintNodes(ns)|)
    decreases ns
  {
    hide ParseValue, ParseItems, PrintNode, ReadsDecimals, Legal, SkipSpaces;
    var text := pre + PrintNodes(ns) + post;
    var p := |pre| + ns.gap;
    forall i | |pre| <= i < p ensures text[i] == ' ' { assert text[i] == Spaces(ns.gap)[i - |pre|]; }
    match ns
    case End(gap) =>
      assert text[p] == ')';
      SkipsSpaces(text, |pre|, gap);
      ItemsEnd(num, text, |pre|, fuel);
    case Cons(gap, node, rest) =>
      var more := PrintNodes(rest) + post;
      assert text == (pre + Spaces(gap)) + PrintNode(node) + more;
      FirstOfNode(node);
      assert text[p] == PrintNode(node)[0];
      SkipsSpaces(text, |pre|, gap);
      FirstOfNodes(rest);
      if rest.Cons? { FirstOfNode(rest.node); }
      assert more[0] == PrintNodes(rest)[0];
      NodeRoundTrip(num, pre + Spaces(gap), node, more, fuel - 1);
      assert text == (pre + Spaces(gap) + PrintNode(node)) + PrintNodes(rest) + post;
      NodesRoundTrip(num, pre + Spaces(gap) + PrintNode(node), rest, post, fuel - 1);
      ItemsStep(num, text, |pre|, fuel);
  }

  lemma {:induction false} FewCalls(n: Node)
    requires Legal(n)
    ensures Calls(n) + 1 <= 2 * |PrintNode(n)|
    decreases n
  {
    hide Escaped, IsNil;
    match n
    case Atom(s) =>
    case Nil(s) => NilIsAtomText(s);
    case Quoted(s) =>
    case Literal(s) =>
    case Group(nodes) => FewCallsOf(nodes);
  }

  lemma {:induction false} FewCallsOf(ns: Nodes)
    requires LegalNodes(ns)
    ensures CallsOf(ns) <= 2 * |PrintNodes(ns)|
    decreases ns
  {
    if ns.Cons? {
      FewCalls(ns.node);
      FewCallsOf(ns.rest);
    }
  }

  /**
   For every nested value of atoms, NIL, quoted strings, literals and lists,
   printed after any prefix without a parenthesis, `parseFetchList` returns
   the value that was printed.
   */
  lemma FetchRoundTrip(num: Numeral, pre: string, nodes: Nodes, post: string)
    requires ReadsDecimals(num) && LegalNodes(nodes) && '(' !in pre
    ensures var n := Group(nodes);
            ParseFetchList(num, pre + PrintNode(n) + post) == Ok(Meaning(n), |pre| + |PrintNode(n)|)
  {
    hide ParseValue, PrintNodes, ReadsDecimals, LegalNodes, IndexOf;
    var n := Group(nodes);
    var text := pre + PrintNode(n) + post;
    assert text[|pre|] == '(';
    forall k | 0 <= k < |pre| ensures !At(text, "(", k) {
      assert text[k..k + 1] == [text[k]] && text[k] == pre[k];
    }
    assert At(text, "(", |pre|);
    IndexOfIs(text, "(", |pre|);
    FewCalls(n);
    NodeRoundTrip(num, pre, n, post, 2 * |text| + 6);
  }
}
