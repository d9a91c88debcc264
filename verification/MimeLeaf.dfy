/**
 What the reader makes of a part, from the headers as their writer meant them:
 its type, its file name, whether it is an attachment, and its children.
 */
module MimeLeaf {
  import opened Strings
  import opened MimeText
  import opened EncodedWords
  import opened MessageParser
  import opened MimeWalk
  import opened Parameters
  import Base64

  datatype Header = Header(main: string, parameters: seq<Parameter>)

  predicate LegalHeader(h: Option<Header>) { h.Some? ==> NoSemicolon(h.value.main) && Quiet(h.value.parameters) }

  function Printed(h: Option<Header>): (v: Option<string>) {
    match h case None => None case Some(x) => Some(x.main + PrintAll(x.parameters))
  }

  /** A part as its writer describes it. */
  datatype Leaf = Leaf(kind: Option<Header>, disposition: Option<Header>)

  predicate Describes(leaf: Leaf, part: Part) {
    && LegalHeader(leaf.kind) && LegalHeader(leaf.disposition)
    && Get(part.headers, "content-type") == Printed(leaf.kind)
    && Get(part.headers, "content-disposition") == Printed(leaf.disposition)
  }

  function MainOf(h: Option<Header>, missing: string): (s: string) {
    Lower(Trim(if h.Some? then h.value.main else missing))
  }

  function ValueOf(h: Option<Header>, name: string): (v: Option<string>) {
    match h case None => None case Some(x) => FirstNamed(x.parameters, name)
  }

  /** The media type; plain text unless something else is said. */
  function TypeOf(leaf: Leaf): (s: string) {
    var main := MainOf(leaf.kind, "text/plain");
    if main == "" then "text/plain" else main
  }

  /** The name given in the disposition goes before the one given with the type. */
  function NameOf(leaf: Leaf): (v: Option<string>) {
    match ValueOf(leaf.disposition, "filename")
    case Some(name) => Some(name)
    case None => ValueOf(leaf.kind, "name")
  }

  predicate Begins(s: string, prefix: string) { prefix <= s }

  predicate IsMultipart(leaf: Leaf) { Begins(TypeOf(leaf), "multipart/") && ValueOf(leaf.kind, "boundary").Some? }

  /** Marked as an attachment, named, or neither text nor a message. */
  predicate Attached(leaf: Leaf) {
    || MainOf(leaf.disposition, "") == "attachment" || NameOf(leaf).Some?
    || !(Begins(TypeOf(leaf), "text/") || TypeOf(leaf) == "message/rfc822")
  }

  lemma Names()
    ensures IsName("filename") && IsName("name") && IsName("boundary")
  {
  }

  lemma HeaderReads(h: Option<Header>, name: string, missing: string)
    requires LegalHeader(h) && IsName(name) && NoSemicolon(missing)
    ensures HeaderParameter(Printed(h), name) == ValueOf(h, name)
    ensures FirstField(if Printed(h).Some? then Printed(h).value else missing) == MainOf(h, missing)
  {
    hide Quiet, IsName, FirstParameter, FirstNamed, PrintAll, FirstField;
    match h {
      case None =>
        MainReads(missing, "");
        assert missing + "" == missing;
      case Some(x) =>
        ParametersRoundTrip(x.main, x.parameters, name);
        NextStarts(x.parameters);
        MainReads(x.main, PrintAll(x.parameters));
    }
  }

  lemma PlainHasNone()
    ensures NoSemicolon("text/plain") && NoSemicolon("")
  {
  }

  /** The reader sees the part as it was described. */
  lemma PartReads(part: Part, leaf: Leaf)
    requires Describes(leaf, part)
    ensures Kind(part) == TypeOf(leaf) && Boundary(part) == ValueOf(leaf.kind, "boundary")
    ensures FileName(part) == NameOf(leaf) && Disposition(part) == MainOf(leaf.disposition, "")
    ensures IsContainer(part) <==> IsMultipart(leaf)
    ensures !IsContainer(part) ==> (IsAttachment(part) <==> Attached(leaf))
  {
    hide HeaderParameter, FirstField, ValueOf, Printed, LegalHeader, IsName, NoSemicolon, Lower, Trim;
    Names();
    PlainHasNone();
    HeaderReads(leaf.kind, "boundary", "text/plain");
    HeaderReads(leaf.kind, "name", "text/plain");
    HeaderReads(leaf.disposition, "filename", "");
  }

  /** The characters that a shown file name must not hold. */
  predicate Unsafe(c: char) { c == '\r' || c == '\n' || c == '\0' || c == '/' || c == '\\' }

  ghost predicate ShownAs(name: string, shown: string) {
    && |shown| == (if |name| > 255 then 255 else |name|)
    && forall i :: 0 <= i < |shown| ==> shown[i] == if Unsafe(name[i]) then '_' else name[i]
  }

  lemma NameIsShown(name: string)
    ensures ShownAs(name, Shortened(SafeName(name)))
  {
  }

  /**
   A part that is no container is taken as exactly one thing: an attachment, with
   its decoded and cleaned name, type and size; the text; the HTML; or nothing.
   */
  lemma LeafIsTaken(part: Part, leaf: Leaf)
    requires Describes(leaf, part) && !IsMultipart(leaf)
    ensures var f := Walk(part, 0, NOTHING);
            var octets := Decoded(part);
            var name := DecodeWords(if NameOf(leaf).Some? then NameOf(leaf).value else "attachment");
            && f.seen == 1
            && (Attached(leaf) ==>
                  && f.text == None && f.html == None && |f.attachments| == 1
                  && f.attachments[0].kind == TypeOf(leaf) && f.attachments[0].size == |octets|
                  && ShownAs(name, f.attachments[0].name))
            && (!Attached(leaf) ==>
                  && f.attachments == []
                  && f.text == (if TypeOf(leaf) == "text/plain" then Some(octets) else None)
                  && f.html == (if TypeOf(leaf) == "text/html" then Some(octets) else None))
  {
    hide IsContainer, IsAttachment, Kind, FileName, Decoded, DecodeWords, Describes, TypeOf, NameOf, Attached,
      IsMultipart, SafeName, Shortened, ShownAs;
    PartReads(part, leaf);
    NameIsShown(DecodeWords(if NameOf(leaf).Some? then NameOf(leaf).value else "attachment"));
  }

  /** The octets of a part by its transfer encoding, in any case, with outer spaces; any other is the identity. */
  lemma DecodedExactly(part: Part, encoding: string)
    requires Get(part.headers, "content-transfer-encoding") == Some(encoding)
    ensures Lower(Trim(encoding)) == "base64" ==> Decoded(part) == Base64.Decode(Strip(part.body))
    ensures Lower(Trim(encoding)) == "quoted-printable" ==> Decoded(part) == Unquote(JoinSoft(part.body), 0)
    ensures Lower(Trim(encoding)) != "base64" && Lower(Trim(encoding)) != "quoted-printable" ==>
              Decoded(part) == part.body
  {
    hide Lower, Trim, Strip, Unquote, JoinSoft;
  }

  /** A container has exactly the parts that were joined with its boundary. */
  lemma ContainerReads(part: Part, leaf: Leaf, preamble: seq<string>, parts: seq<string>, epilogue: seq<string>)
    requires Describes(leaf, part) && IsMultipart(leaf)
    requires var boundary := ValueOf(leaf.kind, "boundary").value;
             && !HasCrlf(boundary) && NoCrlfs(preamble) && NoCrlfs(epilogue) && Unmarked(preamble, "--" + boundary)
             && (forall i :: 0 <= i < |parts| ==> Unmarked(SplitLines(parts[i]), "--" + boundary))
             && part.body == JoinLines(MultipartLines(boundary, preamble, parts, epilogue))
    ensures IsContainer(part)
    ensures Children(part) == seq(|parts|, i requires 0 <= i < |parts| => SplitPart(parts[i]))
  {
    hide IsContainer, Describes, IsMultipart, ValueOf, Boundary, Multipart, MultipartLines, SplitLines, NoCrlfs,
      Unmarked, SplitPart;
    PartReads(part, leaf);
    IsMultipartParts(leaf);
    SplitInvertsJoin(ValueOf(leaf.kind, "boundary").value, preamble, parts, epilogue);
  }

  lemma IsMultipartParts(leaf: Leaf)
    requires IsMultipart(leaf)
    ensures ValueOf(leaf.kind, "boundary").Some?
  {
  }
}
