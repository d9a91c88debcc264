/**
 The message reader: header fields, parameters, transfer encodings, multipart
 bodies, and the bounded walk over the parts.
 */
module MessageParser {
  import opened Strings
  import opened MimeText
  import opened Base64
  import opened EncodedWords

  datatype Part = Part(headers: map<string, string>, body: string)

  // ------------------------------------------------------ headers and body

  datatype Field = Field(name: string, value: string)

  function ParseField(line: string): (f: Option<Field>) {
    var colon := IndexOf(line, ":");
    if colon < 1 then None else Some(Field(Lower(Trim(line[..colon])), Trim(line[colon + 1..])))
  }

  /** Of several fields with one name the first counts. */
  function HeaderMap(lines: seq<string>): (m: map<string, string>) {
    if lines == [] then map[]
    else
      var m := HeaderMap(lines[..|lines| - 1]);
      match ParseField(lines[|lines| - 1])
      case None => m
      case Some(f) => if f.name in m then m else m[f.name := f.value]
  }

  function SplitPart(raw: string): (p: Part) {
    var normal := Normalize(raw);
    var end := IndexOf(normal, BLANK);
    var block := if end == -1 then normal else normal[..end];
    Part(HeaderMap(SplitLines(Unfold(block))), if end == -1 then "" else normal[end + 4..])
  }

  method SplitHeadersAndBody(raw: string) returns (part: Part)
    ensures part == SplitPart(raw)
  {
    hide Normalize, IndexOf, Unfold, SplitLines, ParseField;
    var normal := Normalize(raw);
    var end := IndexOf(normal, BLANK);
    var block := if end == -1 then normal else normal[..end];
    var body := if end == -1 then "" else normal[end + 4..];
    var headers: map<string, string> := map[];
    var lines := SplitLines(Unfold(block));
    for i := 0 to |lines|
      invariant headers == HeaderMap(lines[..i])
    {
      assert lines[..i + 1][..i] == lines[..i];
      match ParseField(lines[i]) {
        case None =>
        case Some(f) => if f.name !in headers { headers := headers[f.name := f.value]; }
      }
    }
    assert lines[..|lines|] == lines;
    part := Part(headers, body);
  }

  // ------------------------------------------------------ parameters

  function TokenEnd(v: string, i: nat): (e: nat)
    ensures i <= e && (i <= |v| ==> e <= |v|)
    decreases |v| - i
  {
    if i < |v| && v[i] != ';' && !IsSpace(v[i]) then TokenEnd(v, i + 1) else i
  }

  /** The closing quote of a quoted string whose text begins at `i`. */
  function QuoteEnd(v: string, i: nat): (e: Option<nat>)
    ensures e.Some? ==> i <= e.value < |v|
    decreases |v| - i
  {
    if i >= |v| then None
    else if v[i] == '"' then Some(i)
    else if v[i] == '\\' then (if i + 1 < |v| then QuoteEnd(v, i + 2) else None)
    else QuoteEnd(v, i + 1)
  }

  function Unescaped(s: string): (r: string)
    decreases |s|
  {
    if s == "" then ""
    else if s[0] == '\\' && |s| > 1 then [s[1]] + Unescaped(s[2..])
    else [s[0]] + Unescaped(s[1..])
  }

  /** `; name = value` at index `i`, the value quoted or a token; `name` is in lower case. */
  function ParameterAt(v: string, name: string, i: nat): (r: Option<string>) {
    if i >= |v| || v[i] != ';' then None
    else
      var j := SpaceEnd(v, i + 1);
      if j + |name| > |v| || Lower(v[j..j + |name|]) != name then None
      else
        var k := SpaceEnd(v, j + |name|);
        if k >= |v| || v[k] != '=' then None
        else
          var m := SpaceEnd(v, k + 1);
          if m < |v| && v[m] == '"' && QuoteEnd(v, m + 1).Some? then Some(v[m + 1..QuoteEnd(v, m + 1).value])
          else if m < TokenEnd(v, m) then Some(v[m..TokenEnd(v, m)])
          else None
  }

  function FirstParameter(v: string, name: string, i: nat): (r: Option<string>)
    decreases |v| - i
  {
    if i >= |v| then None
    else match ParameterAt(v, name, i)
      case Some(raw) => Some(Unescaped(raw))
      case None => FirstParameter(v, name, i + 1)
  }

  function Get(headers: map<string, string>, name: string): (v: Option<string>) {
    if name in headers then Some(headers[name]) else None
  }

  function HeaderParameter(v: Option<string>, name: string): (r: Option<string>) {
    match v case None => None case Some(value) => FirstParameter(value, name, 0)
  }

  /** `v.split(';', 1)[0].trim().toLowerCase()`. */
  function FirstField(v: string): (r: string) {
    var i := IndexOf(v, ";");
    Lower(Trim(if i == -1 then v else v[..i]))
  }

  function MediaType(v: Option<string>): (r: string) {
    var t := FirstField(if v.Some? then v.value else "text/plain");
    if t == "" then "text/plain" else t
  }

  function Decoded(part: Part): (octets: string) {
    var v := Get(part.headers, "content-transfer-encoding");
    var encoding := Lower(Trim(if v.Some? then v.value else "7bit"));
    if encoding == "base64" then Decode(Strip(part.body))
    else if encoding == "quoted-printable" then Unquote(JoinSoft(part.body), 0)
    else part.body
  }

  // ------------------------------------------------------ multipart bodies

  /** The lines of each part; `current` is the part being read, if any. */
  function Sections(lines: seq<string>, delimiter: string, current: Option<seq<string>>): (r: seq<seq<string>>) {
    if lines == [] || lines[0] == delimiter + "--" then (match current case None => [] case Some(part) => [part])
    else if lines[0] == delimiter then
      (match current case None => [] case Some(part) => [part]) + Sections(lines[1..], delimiter, Some([]))
    else Sections(lines[1..], delimiter, match current case None => None case Some(part) => Some(part + [lines[0]]))
  }

  function PartsOf(sections: seq<seq<string>>): (r: seq<Part>)
    ensures |r| == |sections|
  {
    seq(|sections|, i requires 0 <= i < |sections| => SplitPart(JoinLines(sections[i])))
  }

  function Multipart(body: string, boundary: string): (r: seq<Part>) {
    PartsOf(Sections(SplitLines(body), "--" + boundary, None))
  }

  lemma PartsAppend(a: seq<seq<string>>, b: seq<seq<string>>)
    ensures PartsOf(a + b) == PartsOf(a) + PartsOf(b)
  {
    hide SplitPart, JoinLines;
  }

  method SplitMultipart(body: string, boundary: string) returns (parts: seq<Part>)
    ensures parts == Multipart(body, boundary)
  {
    hide SplitPart, SplitLines, JoinLines, PartsOf;
    var delimiter := "--" + boundary;
    var current: Option<seq<string>> := None;
    var lines := SplitLines(body);
    parts := [];
    ghost var done: seq<seq<string>> := [];
    var i := 0;
    assert lines[0..] == lines && [] + Sections(lines, delimiter, None) == Sections(lines, delimiter, None);
    assert PartsOf([]) == [];
    while i < |lines| && lines[i] != delimiter + "--"
      invariant i <= |lines| && parts == PartsOf(done)
      invariant done + Sections(lines[i..], delimiter, current) == Sections(lines, delimiter, None)
    {
      var line := lines[i];
      assert lines[i..][1..] == lines[i + 1..];
      if line == delimiter {
        if current.Some? {
          PartsAppend(done, [current.value]);
          OnePart(current.value);
          var part := SplitHeadersAndBody(JoinLines(current.value));
          parts := parts + [part];
          Assoc(done, [current.value], Sections(lines[i + 1..], delimiter, Some([])));
          done := done + [current.value];
        } else {
          assert [] + Sections(lines[i + 1..], delimiter, Some([])) == Sections(lines[i + 1..], delimiter, Some([]));
        }
        current := Some([]);
      } else if current.Some? {
        current := Some(current.value + [line]);
      }
      i := i + 1;
    }
    if current.Some? {
      PartsAppend(done, [current.value]);
      OnePart(current.value);
      var part := SplitHeadersAndBody(JoinLines(current.value));
      parts := parts + [part];
    } else {
      assert done + [] == done;
    }
  }

  lemma OnePart(section: seq<string>)
    ensures PartsOf([section]) == [SplitPart(JoinLines(section))]
  {
    hide SplitPart, JoinLines;
  }

  // ------------------------------------------------------ joining parts

  /** Every part behind its own delimiter line. */
  function Assembled(delimiter: string, sections: seq<seq<string>>): (r: seq<string>) {
    if sections == [] then [] else [delimiter] + sections[0] + Assembled(delimiter, sections[1..])
  }

  /** The boundary occurs in none of the lines. */
  predicate Unmarked(lines: seq<string>, delimiter: string) {
    forall i :: 0 <= i < |lines| ==> lines[i] != delimiter && lines[i] != delimiter + "--"
  }

  predicate AllUnmarked(sections: seq<seq<string>>, delimiter: string) {
    forall i :: 0 <= i < |sections| ==> Unmarked(sections[i], delimiter)
  }

  lemma {:induction false} SectionsRead(lines: seq<string>, rest: seq<string>, delimiter: string, part: seq<string>)
    requires Unmarked(lines, delimiter)
    ensures Sections(lines + rest, delimiter, Some(part)) == Sections(rest, delimiter, Some(part + lines))
    decreases |lines|
  {
    if lines == [] {
      assert lines + rest == rest && part + lines == part;
    } else {
      assert (lines + rest)[1..] == lines[1..] + rest;
      SectionsRead(lines[1..], rest, delimiter, part + [lines[0]]);
      assert part + [lines[0]] + lines[1..] == part + lines;
    }
  }

  lemma {:induction false} SectionsSkip(lines: seq<string>, rest: seq<string>, delimiter: string)
    requires Unmarked(lines, delimiter)
    ensures Sections(lines + rest, delimiter, None) == Sections(rest, delimiter, None)
    decreases |lines|
  {
    if lines == [] {
      assert lines + rest == rest;
    } else {
      assert (lines + rest)[1..] == lines[1..] + rest;
      SectionsSkip(lines[1..], rest, delimiter);
    }
  }

  /** Behind the last part comes the closing delimiter and any epilogue, or nothing. */
  predicate Ends(rest: seq<string>, delimiter: string) { rest == [] || rest[0] == delimiter + "--" }

  lemma {:induction false} SectionsOfAssembled(sections: seq<seq<string>>, rest: seq<string>, delimiter: string,
    current: Option<seq<string>>)
    requires AllUnmarked(sections, delimiter) && Ends(rest, delimiter)
    ensures Sections(Assembled(delimiter, sections) + rest, delimiter, current)
            == (match current case None => [] case Some(part) => [part]) + sections
    decreases |sections|
  {
    var all := Assembled(delimiter, sections) + rest;
    var before := match current case None => [] case Some(part) => [part];
    if sections == [] {
      assert all == rest && before + sections == before;
    } else {
      var more := Assembled(delimiter, sections[1..]) + rest;
      assert all == [delimiter] + (sections[0] + more);
      assert all[0] == delimiter && all[1..] == sections[0] + more;
      Longer(delimiter);
      SectionsRead(sections[0], more, delimiter, []);
      assert [] + sections[0] == sections[0];
      SectionsOfAssembled(sections[1..], rest, delimiter, Some(sections[0]));
      assert [sections[0]] + sections[1..] == sections;
    }
  }

  lemma Longer(s: string)
    ensures s != s + "--"
  {
    assert |s + "--"| == |s| + 2;
  }

  lemma {:induction false} JoinSplit(s: string)
    ensures JoinLines(SplitLines(s)) == s
    decreases |s|
  {
    hide Unframe, IndexOf;
    var i := IndexOf(s, CRLF);
    if i == -1 {
      UnframeNone(s);
      assert [] + [s] == [s];
    } else {
      UnframeAt(s, i);
      JoinSplit(s[i + 2..]);
      var rest := SplitLines(s[i + 2..]);
      assert SplitLines(s) == [s[..i]] + rest;
      assert s == s[..i] + CRLF + s[i + 2..];
    }
  }

  /** A multipart body: preamble, parts, closing delimiter and epilogue, joined by line breaks. */
  function MultipartLines(boundary: string, preamble: seq<string>, parts: seq<string>,
    epilogue: seq<string>): (r: seq<string>)
  {
    var sections := seq(|parts|, i requires 0 <= i < |parts| => SplitLines(parts[i]));
    preamble + (Assembled("--" + boundary, sections) + (["--" + boundary + "--"] + epilogue))
  }

  lemma {:induction false} SplitHasNoCrlf(s: string)
    ensures NoCrlfs(SplitLines(s))
    decreases |s|
  {
    hide Unframe, HasCrlf, IndexOf;
    var i := IndexOf(s, CRLF);
    if i == -1 {
      UnframeNone(s);
      PrefixHasNoCrlf(s, |s|);
      assert s[..|s|] == s;
    } else {
      UnframeAt(s, i);
      SplitHasNoCrlf(s[i + 2..]);
      PrefixHasNoCrlf(s, i);
      assert SplitLines(s) == [s[..i]] + SplitLines(s[i + 2..]);
    }
  }

  lemma AtPrefix(s: string, n: nat, k: int)
    requires n <= |s| && At(s[..n], CRLF, k)
    ensures At(s, CRLF, k)
  {
    assert s[..n][k..k + 2] == s[k..k + 2];
  }

  lemma PrefixHasNoCrlf(s: string, n: nat)
    requires n <= |s| && (IndexOf(s, CRLF) == -1 || n <= IndexOf(s, CRLF))
    ensures !HasCrlf(s[..n])
  {
    forall k ensures !At(s[..n], CRLF, k) {
      if At(s[..n], CRLF, k) { AtPrefix(s, n, k); }
    }
  }

  lemma {:induction false} AssembledHasNoCrlf(delimiter: string, sections: seq<seq<string>>)
    requires !HasCrlf(delimiter) && forall i :: 0 <= i < |sections| ==> NoCrlfs(sections[i])
    ensures NoCrlfs(Assembled(delimiter, sections))
    decreases |sections|
  {
    hide HasCrlf;
    if sections != [] { AssembledHasNoCrlf(delimiter, sections[1..]); }
  }

  lemma DelimiterHasNoCrlf(boundary: string)
    requires !HasCrlf(boundary)
    ensures !HasCrlf("--" + boundary) && !HasCrlf("--" + boundary + "--")
  {
    var d := "--" + boundary + "--";
    forall k ensures !At(d, CRLF, k) {
      if At(d, CRLF, k) { AtInside(boundary, k); }
    }
    var short := "--" + boundary;
    assert d[..|short|] == short;
    forall k ensures !At(short, CRLF, k) {
      if At(short, CRLF, k) { AtPrefix(d, |short|, k); }
    }
  }

  lemma AtInside(boundary: string, k: int)
    requires At("--" + boundary + "--", CRLF, k)
    ensures At(boundary, CRLF, k - 2)
  {
    var d := "--" + boundary + "--";
    AtChar(d, CRLF, k, 0);
    AtChar(d, CRLF, k, 1);
    assert boundary[k - 2..k] == d[k..k + 2];
  }

  lemma LinesHaveNoCrlf(boundary: string, preamble: seq<string>, parts: seq<string>, epilogue: seq<string>)
    requires !HasCrlf(boundary) && NoCrlfs(preamble) && NoCrlfs(epilogue)
    ensures NoCrlfs(MultipartLines(boundary, preamble, parts, epilogue))
  {
    hide HasCrlf, SplitLines, Assembled;
    DelimiterHasNoCrlf(boundary);
    var sections := seq(|parts|, i requires 0 <= i < |parts| => SplitLines(parts[i]));
    forall i | 0 <= i < |sections| ensures NoCrlfs(sections[i]) {
      SplitHasNoCrlf(parts[i]);
    }
    AssembledHasNoCrlf("--" + boundary, sections);
  }

  /** Splitting gives back the parts, whenever the boundary line occurs in none of them nor in the preamble. */
  lemma SplitInvertsJoin(boundary: string, preamble: seq<string>, parts: seq<string>, epilogue: seq<string>)
    requires !HasCrlf(boundary) && NoCrlfs(preamble) && NoCrlfs(epilogue) && Unmarked(preamble, "--" + boundary)
    requires forall i :: 0 <= i < |parts| ==> Unmarked(SplitLines(parts[i]), "--" + boundary)
    ensures Multipart(JoinLines(MultipartLines(boundary, preamble, parts, epilogue)), boundary)
            == seq(|parts|, i requires 0 <= i < |parts| => SplitPart(parts[i]))
  {
    hide Sections, SplitLines, JoinLines, SplitPart, Assembled, NoCrlfs, Unmarked;
    var delimiter := "--" + boundary;
    var sections := seq(|parts|, i requires 0 <= i < |parts| => SplitLines(parts[i]));
    var rest := [delimiter + "--"] + epilogue;
    var lines := MultipartLines(boundary, preamble, parts, epilogue);
    LinesHaveNoCrlf(boundary, preamble, parts, epilogue);
    SplitJoin(lines);
    SectionsSkip(preamble, Assembled(delimiter, sections) + rest, delimiter);
    SectionsOfAssembled(sections, rest, delimiter, None);
    assert [] + sections == sections;
    forall i | 0 <= i < |parts| ensures PartsOf(sections)[i] == SplitPart(parts[i]) {
      JoinSplit(parts[i]);
    }
  }
}
