/**
 From the socket to the parsed FETCH values: the reader and the list parser
 composed, and the parser as the source writes it, advancing one shared position.
 */
module ImapFetch {
  import opened Strings
  import opened ImapStream
  import opened ImapWire
  import opened FetchList

  predicate Clean(s: string) { forall i :: 0 <= i < |s| ==> s[i] != '\r' && s[i] != '\n' }

  /**
   A legal node whose atoms and quoted strings stay on one line, and whose literals fit
   and are followed by a space or a parenthesis.
   */
  predicate OnWire(n: Node) {
    match n
    case Literal(s) => |s| <= MAX_LITERAL_BYTES
    case Group(nodes) => OnWireNodes(nodes)
    case _ => Clean(n.s)
  }

  predicate OnWireNodes(ns: Nodes) {
    match ns
    case End(_) => true
    case Cons(_, node, rest) =>
      && OnWire(node) && OnWireNodes(rest)
      && (node.Literal? ==> rest.End? || rest.gap > 0 || rest.node.Group?)
  }

  // ------------------------------------------------------ cutting at the literals

  /** The node's wire form followed by `k`, cut into text and literals. */
  function Cut(n: Node, k: Response): (r: Response) {
    match n
    case Literal(s) => Response("", [Part(s, k.head)] + k.parts)
    case Group(nodes) => var r := CutNodes(nodes, k); Response("(" + r.head, r.parts)
    case _ => Response(PrintNode(n) + k.head, k.parts)
  }

  function CutNodes(ns: Nodes, k: Response): (r: Response) {
    match ns
    case End(gap) => Response(Spaces(gap) + ")" + k.head, k.parts)
    case Cons(gap, node, rest) => var r := Cut(node, CutNodes(rest, k)); Response(Spaces(gap) + r.head, r.parts)
  }

  lemma WirePrefix(prefix: string, text: string, parts: seq<Part>)
    ensures Wire(prefix + text, parts) == prefix + Wire(text, parts)
  {
    if parts != [] {
      hide Announce;
      var a := Announce(|parts[0].literal|);
      assert (prefix + text) + a + CRLF + parts[0].literal == prefix + (text + a + CRLF + parts[0].literal);
      Assoc(prefix, text + a + CRLF + parts[0].literal, Wire(parts[0].tail, parts[1..]));
    }
  }

  lemma WireLiteral(s: string, k: Response)
    ensures Wire("", [Part(s, k.head)] + k.parts) == (Announce(|s|) + CRLF + s) + Wire(k.head, k.parts)
  {
    var parts := [Part(s, k.head)] + k.parts;
    assert parts[1..] == k.parts;
    assert "" + Announce(|s|) == Announce(|s|);
  }

  lemma {:induction false} CutWire(n: Node, k: Response)
    ensures Wire(Cut(n, k).head, Cut(n, k).parts) == PrintNode(n) + Wire(k.head, k.parts)
    decreases n
  {
    hide Wire, QuotedString, Announce;
    match n
    case Literal(s) => WireLiteral(s, k);
    case Group(nodes) =>
      var r := CutNodes(nodes, k);
      CutNodesWire(nodes, k);
      WirePrefix("(", r.head, r.parts);
      Assoc("(", PrintNodes(nodes), Wire(k.head, k.parts));
    case _ => WirePrefix(PrintNode(n), k.head, k.parts);
  }

  lemma {:induction false} CutNodesWire(ns: Nodes, k: Response)
    ensures Wire(CutNodes(ns, k).head, CutNodes(ns, k).parts) == PrintNodes(ns) + Wire(k.head, k.parts)
    decreases ns
  {
    hide Wire, PrintNode;
    match ns
    case End(gap) => WirePrefix(Spaces(gap) + ")", k.head, k.parts);
    case Cons(gap, node, rest) =>
      var c := CutNodes(rest, k);
      var r := Cut(node, c);
      CutNodesWire(rest, k);
      CutWire(node, c);
      WirePrefix(Spaces(gap), r.head, r.parts);
      var w := Wire(k.head, k.parts);
      Assoc(PrintNode(node), PrintNodes(rest), w);
      Assoc(Spaces(gap), PrintNode(node) + PrintNodes(rest), w);
      Assoc(Spaces(gap), PrintNode(node), PrintNodes(rest));
  }

  // ------------------------------------------------------ the cut form can be sent

  /** One-line texts, safe tails, and a final text that ends in a parenthesis. */
  predicate Proper(text: string, parts: seq<Part>)
    decreases |parts|
  {
    && Clean(text)
    && if parts == [] then text != "" && text[|text| - 1] == ')'
       else |parts[0].literal| <= MAX_LITERAL_BYTES && SafeTail(parts[0].tail) && Proper(parts[0].tail, parts[1..])
  }

  lemma CleanHasNoCrlf(s: string)
    requires Clean(s)
    ensures !HasCrlf(s)
  {
    forall k ensures !At(s, CRLF, k) {
      if 0 <= k && k + 2 <= |s| { assert s[k..k + 2][0] == s[k]; }
    }
  }

  lemma {:induction false} ProperIsSendable(text: string, parts: seq<Part>)
    requires Proper(text, parts)
    ensures Sendable(text, parts)
    decreases |parts|
  {
    CleanHasNoCrlf(text);
    if parts != [] { ProperIsSendable(parts[0].tail, parts[1..]); }
  }

  lemma ProperPrefix(prefix: string, text: string, parts: seq<Part>)
    requires Clean(prefix) && Proper(text, parts)
    ensures Proper(prefix + text, parts)
  {
  }

  lemma {:induction false} EscapedClean(s: string)
    requires Clean(s)
    ensures Clean(Escaped(s))
    decreases |s|
  {
    if s != "" { EscapedClean(s[1..]); }
  }

  lemma PrintClean(n: Node)
    requires OnWire(n) && !n.Literal? && !n.Group?
    ensures Clean(PrintNode(n))
  {
    if n.Quoted? { EscapedClean(n.s); }
  }

  lemma {:induction false} CutProper(n: Node, k: Response)
    requires OnWire(n) && Proper(k.head, k.parts) && (n.Literal? ==> SafeTail(k.head))
    ensures Proper(Cut(n, k).head, Cut(n, k).parts)
    decreases n
  {
    hide QuotedString, PrintNode, SafeTail;
    match n
    case Literal(s) => assert ([Part(s, k.head)] + k.parts)[1..] == k.parts;
    case Group(nodes) =>
      CutNodesProper(nodes, k);
      ProperPrefix("(", CutNodes(nodes, k).head, CutNodes(nodes, k).parts);
    case _ =>
      PrintClean(n);
      ProperPrefix(PrintNode(n), k.head, k.parts);
  }

  lemma {:induction false} CutNodesProper(ns: Nodes, k: Response)
    requires OnWireNodes(ns) && (k == Response("", []) || Proper(k.head, k.parts))
    ensures Proper(CutNodes(ns, k).head, CutNodes(ns, k).parts)
    ensures ns.End? || ns.gap > 0 || ns.node.Group? ==> SafeTail(CutNodes(ns, k).head)
    decreases ns
  {
    hide PrintNode, OnWire;
    match ns
    case End(gap) =>
      var head := Spaces(gap) + ")";
      assert head + "" == head;
      if k != Response("", []) { ProperPrefix(head, k.head, k.parts); }
      assert (head + k.head)[0] == if gap > 0 then ' ' else ')';
    case Cons(gap, node, rest) =>
      var c := CutNodes(rest, k);
      CutNodesProper(rest, k);
      CutProper(node, c);
      var r := Cut(node, c);
      ProperPrefix(Spaces(gap), r.head, r.parts);
      var head := Spaces(gap) + r.head;
      assert gap > 0 ==> head[0] == ' ';
      assert gap == 0 && node.Group? ==> head[0] == '(';
  }

  // ------------------------------------------------------ end to end

  /** One untagged FETCH response: a prefix such as `* 12 FETCH `, and the printed list. */
  datatype Fetch = Fetch(prefix: string, nodes: Nodes)

  predicate Printable(f: Fetch) {
    Clean(f.prefix) && '(' !in f.prefix && LegalNodes(f.nodes) && OnWireNodes(f.nodes)
  }

  function ResponseOf(f: Fetch): (r: Response) {
    var r := Cut(Group(f.nodes), Response("", []));
    Response(f.prefix + r.head, r.parts)
  }

  function ResponsesOf(fs: seq<Fetch>): (rs: seq<Response>) {
    seq(|fs|, i requires 0 <= i < |fs| => ResponseOf(fs[i]))
  }

  lemma ResponseOfFetch(f: Fetch)
    requires Printable(f)
    ensures Wire(ResponseOf(f).head, ResponseOf(f).parts) == f.prefix + PrintNode(Group(f.nodes))
    ensures Sendable(ResponseOf(f).head, ResponseOf(f).parts)
  {
    var k := Response("", []);
    var n := Group(f.nodes);
    var r := Cut(n, k);
    CutWire(n, k);
    assert PrintNode(n) + Wire("", []) == PrintNode(n);
    CutNodesProper(f.nodes, k);
    ProperPrefix("(", CutNodes(f.nodes, k).head, CutNodes(f.nodes, k).parts);
    WirePrefix(f.prefix, r.head, r.parts);
    ProperPrefix(f.prefix, r.head, r.parts);
    ProperIsSendable(f.prefix + r.head, r.parts);
  }

  /**
   Whatever values the server reports and however its octets arrive, the
   client parses exactly those values, in order, and stops at its own tag.
   */
  lemma FetchedValuesAreExact(num: Numeral, tag: string, fs: seq<Fetch>, done: string, after: string,
    chunks: seq<string>)
    requires ReadsDecimals(num)
    requires forall f :: f in fs ==> Printable(f) && !(tag + " " <= FirstLine(ResponseOf(f).head, ResponseOf(f).parts))
    requires Completion(tag, done)
    requires Concat(chunks) == Stream(ResponsesOf(fs)) + (done + CRLF + after)
    ensures var reply := RunCommand(tag, ReceiveAll(Framed([], ""), chunks).lines, [], []);
            && reply.Completed?
            && var merged := Joined(reply.untagged, reply.literals);
            && |merged| == |fs|
            && forall i :: 0 <= i < |fs| ==>
                 && ParseFetchList(num, merged[i]).Ok?
                 && ParseFetchList(num, merged[i]).value == Meaning(Group(fs[i].nodes))
  {
    hide RunCommand, ReceiveAll, Joined, ParseFetchList, Completion, ReadsDecimals, Printable, Sendable, FirstLine,
      ResponseOf, Stream;
    var rs := ResponsesOf(fs);
    forall f | f in fs ensures Sendable(ResponseOf(f).head, ResponseOf(f).parts) { ResponseOfFetch(f); }
    assert Answers(tag, rs) by {
      forall r | r in rs ensures Sendable(r.head, r.parts) && !(tag + " " <= FirstLine(r.head, r.parts)) {
        var i :| 0 <= i < |rs| && rs[i] == r;
        assert fs[i] in fs;
      }
    }
    ResponsesSurviveTheReader(tag, rs, done, after, chunks);
    forall i | 0 <= i < |fs|
      ensures ParseFetchList(num, WireTexts(rs)[i]).Ok?
      ensures ParseFetchList(num, WireTexts(rs)[i]).value == Meaning(Group(fs[i].nodes))
    {
      assert fs[i] in fs;
      OneFetch(num, fs[i]);
    }
  }

  lemma OneFetch(num: Numeral, f: Fetch)
    requires ReadsDecimals(num) && Printable(f)
    ensures var text := Wire(ResponseOf(f).head, ResponseOf(f).parts);
            ParseFetchList(num, text).Ok? && ParseFetchList(num, text).value == Meaning(Group(f.nodes))
  {
    hide ParseFetchList, PrintNode, Wire;
    ResponseOfFetch(f);
    FetchRoundTrip(num, f.prefix, f.nodes, "");
    assert f.prefix + PrintNode(Group(f.nodes)) + "" == f.prefix + PrintNode(Group(f.nodes));
  }

  // ------------------------------------------------------ the parser of the source

  /** The closure variable `pos` of `parseFetchList`, shared by its recursive calls. */
  class Parser {
    const text: string
    const num: Numeral
    var pos: nat

    constructor (num: Numeral, text: string)
      ensures this.text == text && this.num == num && pos == 0
    {
      this.text, this.num, pos := text, num, 0;
    }

    method SkipBlanks()
      modifies this
      ensures pos == SkipSpaces(text, old(pos))
    {
      while Is(text, pos, ' ')
        invariant SkipSpaces(text, old(pos)) == SkipSpaces(text, pos)
        decreases |text| - pos
      {
        pos := pos + 1;
      }
    }

    method QuotedText() returns (value: string)
      modifies this
      ensures (value, pos) == ReadQuoted(text, old(pos))
    {
      value := "";
      assert "" + ReadQuoted(text, pos).0 == ReadQuoted(text, pos).0;
      while pos < |text| && text[pos] != '"'
        invariant ReadQuoted(text, old(pos)) == (value + ReadQuoted(text, pos).0, ReadQuoted(text, pos).1)
        decreases |text| - pos
      {
        ghost var (more, end) := ReadQuoted(text, if text[pos] == '\\' then pos + 2 else pos + 1);
        ghost var before := value;
        if text[pos] == '\\' { pos := pos + 1; }
        if pos < |text| { value := value + [text[pos]]; Assoc(before, [text[pos]], more); }
        pos := pos + 1;
      }
      assert value + "" == value;
      pos := pos + 1;
    }

    method Value(fuel: nat) returns (r: Parse<FetchValue>)
      modifies this
      ensures r == ParseValue(num, text, old(pos), fuel)
      ensures r.Ok? ==> pos == r.pos
      decreases fuel, 0
    {
      if fuel == 0 { return Looping; }
      SkipBlanks();
      if Is(text, pos, '(') {
        pos := pos + 1;
        var list := Items(fuel - 1);
        match list
        case Ok(items, _) => return Ok(List(items), pos);
        case Malformed => return Malformed;
        case Looping => return Looping;
      }
      if Is(text, pos, '"') {
        pos := pos + 1;
        var value := QuotedText();
        return Ok(Text(value), pos);
      }
      if Is(text, pos, '{') {
        var start := LiteralStart(text, pos);
        pos := LiteralEnd(num, text, pos);
        return Ok(Text(Slice(text, start, pos)), pos);
      }
      var start := pos;
      while pos < |text| && !EndsAtom(text[pos])
        invariant start <= pos && (start < pos ==> pos <= |text|)
        invariant AtomEnd(text, start) == AtomEnd(text, pos)
        decreases |text| - pos
      {
        pos := pos + 1;
      }
      if pos == start { return Malformed; }
      var atom := text[start..pos];
      r := Ok(if IsNil(atom) then Null else Text(atom), pos);
    }

    /** The loop of a parenthesised list. */
    method Items(fuel: nat) returns (r: Parse<seq<FetchValue>>)
      modifies this
      ensures r == ParseItems(num, text, old(pos), fuel)
      ensures r.Ok? ==> pos == r.pos
      decreases fuel, 1
    {
      var list := [];
      var left: nat := fuel;
      assert forall vs: seq<FetchValue> :: [] + vs == vs;
      while left > 0
        invariant left <= fuel
        invariant ParseItems(num, text, old(pos), fuel) == Prepend(list, ParseItems(num, text, pos, left))
      {
        hide ParseValue, SkipSpaces;
        SkipBlanks();
        if pos >= |text| { return Malformed; }
        if text[pos] == ')' { pos := pos + 1; assert list + [] == list; return Ok(list, pos); }
        var item := Value(left - 1);
        match item {
          case Malformed => return Malformed;
          case Looping => return Looping;
          case Ok(value, _) =>
            PrependTwice(list, value, ParseItems(num, text, pos, left - 1));
            list := list + [value];
        }
        left := left - 1;
      }
      r := Looping;
    }
  }

  function Prepend(list: seq<FetchValue>, r: Parse<seq<FetchValue>>): (p: Parse<seq<FetchValue>>) {
    if r.Ok? then Ok(list + r.value, r.pos) else r
  }

  lemma PrependTwice(list: seq<FetchValue>, v: FetchValue, r: Parse<seq<FetchValue>>)
    ensures Prepend(list, Prepend([v], r)) == Prepend(list + [v], r)
  {
    if r.Ok? { Assoc(list, [v], r.value); }
  }

  /** UTF-8 length of a code point. */
  function Utf8Length(c: char): (n: nat)
    ensures 1 <= n <= 4
  {
    if c as int < 0x80 then 1 else if c as int < 0x800 then 2 else if c as int < 0x1_0000 then 3 else 4
  }

  function ByteLength(s: string): (n: nat) {
    if s == "" then 0 else ByteLength(s[..|s| - 1]) + Utf8Length(s[|s| - 1])
  }

  /** More code points, more octets. */
  lemma {:induction false} LongerHoldsMore(text: string, j: nat, k: nat)
    requires j < k <= |text|
    ensures ByteLength(text[..j]) < ByteLength(text[..k])
    decreases k - j
  {
    assert text[..k][..k - 1] == text[..k - 1];
    if j < k - 1 { LongerHoldsMore(text, j, k - 1); }
  }

  /** The shortest prefix from `index` on that holds `byteCount` octets, or all of the text. */
  function CharIndex(text: string, byteCount: nat, index: nat): (r: nat)
    requires index <= |text|
    ensures index <= r <= |text|
    ensures r < |text| ==> ByteLength(text[..r]) >= byteCount
    ensures forall j :: index <= j < r ==> ByteLength(text[..j]) < byteCount
    decreases |text| - index
  {
    if index < |text| && ByteLength(text[..index]) < byteCount then CharIndex(text, byteCount, index + 1) else index
  }

  /** The loop of `charIndexForBytes`, over code points. */
  method CharIndexForBytes(text: string, byteCount: nat) returns (index: nat)
    ensures index == CharIndex(text, byteCount, 0)
  {
    hide ByteLength;
    var bytes := 0;
    index := 0;
    assert bytes == ByteLength(text[..0]) by { NoOctets(); }
    while index < |text| && bytes < byteCount
      invariant index <= |text| && bytes == ByteLength(text[..index])
      invariant CharIndex(text, byteCount, 0) == CharIndex(text, byteCount, index)
    {
      OneMore(text, index);
      bytes := bytes + Utf8Length(text[index]);
      index := index + 1;
    }
  }

  lemma NoOctets()
    ensures ByteLength("") == 0
  {
  }

  lemma OneMore(text: string, k: nat)
    requires k < |text|
    ensures ByteLength(text[..k + 1]) == ByteLength(text[..k]) + Utf8Length(text[k])
  {
    assert text[..k + 1][..k] == text[..k];
  }

  /** A literal followed by anything is cut off exactly at its number of octets, whatever its code points are. */
  lemma CutsAtLiteral(literal: string, rest: string)
    ensures CharIndex(literal + rest, ByteLength(literal), 0) == |literal|
  {
    hide ByteLength;
    var text := literal + rest;
    assert text[..|literal|] == literal;
    var index := CharIndex(text, ByteLength(literal), 0);
    if index < |literal| { LongerHoldsMore(text, index, |literal|); }
  }
}
