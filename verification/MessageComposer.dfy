/**
 The message writer, and the round trip through writer and reader.
 */
module MessageComposer {
  import opened Strings
  import opened MimeText
  import opened Base64
  import opened EncodedWords
  import opened MessageParser
  import opened MimeWalk

  const MAX_RECIPIENTS: nat := 50

  datatype Outgoing = Outgoing(recipients: seq<string>, subject: string, text: string)

  // ------------------------------------------------------ recipients

  predicate LocalChar(c: char) { 'A' <= c <= 'Z' || 'a' <= c <= 'z' || '0' <= c <= '9' || c in ".!#$%&'*+/=?^_`{|}~-" }

  predicate LabelChar(c: char) { 'A' <= c <= 'Z' || 'a' <= c <= 'z' || '0' <= c <= '9' || c == '-' }

  predicate IsLabel(s: string) { 1 <= |s| <= 63 && forall i :: 0 <= i < |s| ==> LabelChar(s[i]) }

  /** At least `n` labels with dots between them. */
  predicate IsDomain(s: string, n: nat)
    decreases |s|
  {
    var dot := IndexOf(s, ".");
    if dot == -1 then n <= 1 && IsLabel(s) else IsLabel(s[..dot]) && IsDomain(s[dot + 1..], if n == 0 then 0 else n - 1)
  }

  predicate IsAddress(s: string) {
    var at := IndexOf(s, "@");
    |s| <= 254 && 1 <= at <= 64 && (forall i :: 0 <= i < at ==> LocalChar(s[i])) && IsDomain(s[at + 1..], 2)
  }

  /** The text of a final `<...>`, if the entry ends in one. */
  function Angle(s: string): (r: Option<string>) {
    if s == "" || s[|s| - 1] != '>' then None
    else
      var open := LastOpen(s, |s| - 1);
      if open == -1 || open + 1 == |s| - 1 then None else Some(s[open + 1..|s| - 1])
  }

  /** The `<` before index `n` with no angle bracket between, or -1. */
  function LastOpen(s: string, n: nat): (r: int)
    requires n <= |s|
    ensures -1 <= r < n
  {
    if n == 0 || s[n - 1] == '>' then -1 else if s[n - 1] == '<' then n - 1 else LastOpen(s, n - 1)
  }

  function AddressOf(entry: string): (r: string) {
    var trimmed := Trim(entry);
    Trim(match Angle(trimmed) case None => trimmed case Some(inner) => inner)
  }

  /** Blank entries are skipped, repetitions dropped, anything else must be an address. */
  function Collected(entries: seq<string>): (r: Option<seq<string>>) {
    if entries == [] then Some([])
    else match Collected(entries[..|entries| - 1])
      case None => None
      case Some(list) =>
        var entry := entries[|entries| - 1];
        if Trim(entry) == "" then Some(list)
        else if !IsAddress(AddressOf(entry)) then None
        else if AddressOf(entry) in list then Some(list)
        else Some(list + [AddressOf(entry)])
  }

  method ParseRecipients(entries: seq<string>) returns (recipients: Option<seq<string>>)
    ensures recipients.Some? <==> Collected(entries).Some? && 1 <= |Collected(entries).value| <= MAX_RECIPIENTS
    ensures recipients.Some? ==> recipients == Collected(entries)
    ensures recipients.Some? ==> forall i :: 0 <= i < |recipients.value| ==> IsAddress(recipients.value[i])
    ensures recipients.Some? ==>
              forall i, j :: 0 <= i < j < |recipients.value| ==> recipients.value[i] != recipients.value[j]
  {
    hide IsAddress, AddressOf, Trim;
    var list: seq<string> := [];
    for i := 0 to |entries|
      invariant Collected(entries[..i]) == Some(list)
      invariant forall k :: 0 <= k < |list| ==> IsAddress(list[k])
      invariant forall k, j :: 0 <= k < j < |list| ==> list[k] != list[j]
    {
      assert entries[..i + 1][..i] == entries[..i];
      if Trim(entries[i]) == "" { continue; }
      var address := AddressOf(entries[i]);
      if !IsAddress(address) {
        RefusedStays(entries, i + 1);
        return None;
      }
      if address !in list { list := list + [address]; }
    }
    assert entries[..|entries|] == entries;
    if list == [] || |list| > MAX_RECIPIENTS { return None; }
    recipients := Some(list);
  }

  lemma {:induction false} RefusedStays(entries: seq<string>, n: nat)
    requires n <= |entries| && Collected(entries[..n]).None?
    ensures Collected(entries).None?
    decreases |entries| - n
  {
    hide IsAddress, AddressOf, Trim;
    if n == |entries| {
      assert entries[..n] == entries;
    } else {
      assert entries[..n + 1][..n] == entries[..n];
      RefusedStays(entries, n + 1);
    }
  }

  // ------------------------------------------------------ composing

  predicate Printable(s: string) { forall i :: 0 <= i < |s| ==> ' ' <= s[i] <= '~' }

  /** No control characters. */
  predicate ValidSubject(s: string) {
    IsOctets(s) && forall i :: 0 <= i < |s| ==> s[i] as int > 31 && s[i] as int != 127
  }

  predicate ValidText(s: string) { IsOctets(s) && forall i :: 0 <= i < |s| ==> s[i] as int != 0 }

  predicate ValidOutgoing(o: Outgoing) {
    && 1 <= |o.recipients| <= MAX_RECIPIENTS && (forall i :: 0 <= i < |o.recipients| ==> IsAddress(o.recipients[i]))
    && ValidSubject(o.subject) && ValidText(o.text)
  }

  function EncodeSubject(subject: string): (r: string)
    requires IsOctets(subject)
  {
    if Printable(subject) then subject else EncodedWord(subject)
  }

  function Bracketed(recipients: seq<string>): (r: string) {
    if recipients == [] then ""
    else if |recipients| == 1 then "<" + recipients[0] + ">"
    else "<" + recipients[0] + ">, " + Bracketed(recipients[1..])
  }

  function Body(text: string): (r: string)
    requires IsOctets(text)
  {
    NormalOctets(text);
    Wrap(Encode(Normalize(text)))
  }

  lemma {:induction false} NormalOctets(s: string)
    requires IsOctets(s)
    ensures IsOctets(Normalize(s))
    decreases |s|
  {
    if s != "" {
      NormalOctets(s[1..]);
      if s[0] == '\r' && |s| > 1 && s[1] == '\n' { NormalOctets(s[2..]); }
    }
  }

  function Header(name: string, value: string): (r: string) { name + ": " + value }

  const CONTENT_TYPE: string := "text/plain; charset=utf-8"

  function Headers(from: string, o: Outgoing, date: string, id: string): (r: seq<string>)
    requires IsOctets(o.subject)
    ensures |r| == 8
  {
    [Header("From", "<" + from + ">"), Header("To", Bracketed(o.recipients)),
     Header("Subject", EncodeSubject(o.subject)), Header("Date", date), Header("Message-ID", id),
     Header("MIME-Version", "1.0"),
     Header("Content-Type", CONTENT_TYPE), Header("Content-Transfer-Encoding", "base64")]
  }

  /** `date` is the formatted time and `id` the bracketed random id at the sender's domain. */
  function Compose(from: string, o: Outgoing, date: string, id: string): (r: string)
    requires IsOctets(o.subject) && IsOctets(o.text)
  {
    JoinLines(Headers(from, o, date, id) + ["", Body(o.text)])
  }

  datatype Parsed = Parsed(
    subject: string, from: string, to: string, text: Option<string>, html: Option<string>, attachments: seq<Attachment>)

  function HeaderText(part: Part, name: string): (r: string) {
    var v := Get(part.headers, name);
    DecodeWords(if v.Some? then v.value else "")
  }

  function Parse(raw: string): (r: Parsed) {
    var root := SplitPart(raw);
    var found := Walk(root, 0, NOTHING);
    Parsed(HeaderText(root, "subject"), HeaderText(root, "from"), HeaderText(root, "to"), found.text, found.html,
      found.attachments)
  }

  // ------------------------------------------------------ reading the header back

  lemma FieldOf(name: string, value: string)
    requires name != "" && ':' !in name && Trimmed(name)
    ensures ParseField(Header(name, value)) == Some(Field(Lower(name), Trim(" " + value)))
  {
    hide Lower, IndexOf;
    var line := Header(name, value);
    assert line[|name|..|name| + 1] == ":";
    forall k | 0 <= k < |name| ensures !At(line, ":", k) {
      assert line[k] == name[k] && name[k] in name;
      if At(line, ":", k) { AtChar(line, ":", k, 0); }
    }
    IndexOfIs(line, ":", |name|);
    assert line[..|name|] == name && line[|name| + 1..] == " " + value;
    assert TrimLeft(name) == name;
  }

  /** Every line is a field, and no two have the same name. */
  predicate Spelled(lines: seq<string>, fields: seq<Field>) {
    && |lines| == |fields| && (forall i :: 0 <= i < |lines| ==> ParseField(lines[i]) == Some(fields[i]))
    && forall i, j :: 0 <= i < j < |fields| ==> fields[i].name != fields[j].name
  }

  lemma {:induction false} FieldAbsent(lines: seq<string>, fields: seq<Field>, name: string)
    requires Spelled(lines, fields) && forall i :: 0 <= i < |fields| ==> fields[i].name != name
    ensures name !in HeaderMap(lines)
    decreases |lines|
  {
    hide ParseField;
    if lines != [] { FieldAbsent(lines[..|lines| - 1], fields[..|fields| - 1], name); }
  }

  lemma {:induction false} FieldFound(lines: seq<string>, fields: seq<Field>, i: nat)
    requires Spelled(lines, fields) && i < |fields|
    ensures Get(HeaderMap(lines), fields[i].name) == Some(fields[i].value)
    decreases |lines|
  {
    hide ParseField;
    var front, names := lines[..|lines| - 1], fields[..|fields| - 1];
    if i < |lines| - 1 {
      FieldFound(front, names, i);
    } else {
      FieldAbsent(front, names, fields[i].name);
    }
  }

  /** A name as it is written and as it is looked up. */
  predicate FieldName(name: string, key: string) { name != "" && ':' !in name && Trimmed(name) && Lower(name) == key }

  lemma NamedField(name: string, key: string, value: string)
    requires FieldName(name, key)
    ensures ParseField(Header(name, value)) == Some(Field(key, Trim(" " + value)))
  {
    hide Lower;
    FieldOf(name, value);
  }

  lemma ShortNames()
    ensures FieldName("From", "from") && FieldName("To", "to") && FieldName("Subject", "subject")
    ensures FieldName("Date", "date")
  {
  }

  lemma MessageIdName()
    ensures FieldName("Message-ID", "message-id")
  {
  }

  lemma MimeVersionName()
    ensures FieldName("MIME-Version", "mime-version")
  {
  }

  lemma ContentTypeName()
    ensures FieldName("Content-Type", "content-type")
  {
  }

  lemma NameAppend(a: string, x: string, b: string, y: string)
    requires FieldName(a, x) && FieldName(b, y)
    ensures FieldName(a + b, x + y)
  {
    assert Lower(a + b) == Lower(a) + Lower(b);
  }

  lemma EncodingName()
    ensures FieldName("Content-Transfer-Encoding", "content-transfer-encoding")
  {
    EncodingNameParts();
    hide FieldName;
    NameAppend("Content-", "content-", "Transfer-", "transfer-");
    NameAppend("Content-" + "Transfer-", "content-" + "transfer-", "Encoding", "encoding");
    assert "Content-" + "Transfer-" + "Encoding" == "Content-Transfer-Encoding";
    assert "content-" + "transfer-" + "encoding" == "content-transfer-encoding";
  }

  lemma EncodingNameParts()
    ensures FieldName("Content-", "content-") && FieldName("Transfer-", "transfer-")
    ensures FieldName("Encoding", "encoding")
  {
  }

  function Fields(from: string, o: Outgoing, date: string, id: string): (r: seq<Field>)
    requires IsOctets(o.subject)
    ensures |r| == 8
  {
    [Field("from", Trim(" " + ("<" + from + ">"))), Field("to", Trim(" " + Bracketed(o.recipients))),
     Field("subject", Trim(" " + EncodeSubject(o.subject))), Field("date", Trim(" " + date)),
     Field("message-id", Trim(" " + id)), Field("mime-version", Trim(" " + "1.0")),
     Field("content-type", Trim(" " + CONTENT_TYPE)),
     Field("content-transfer-encoding", Trim(" " + "base64"))]
  }

  lemma HeadersSpelled(from: string, o: Outgoing, date: string, id: string)
    requires IsOctets(o.subject)
    ensures Spelled(Headers(from, o, date, id), Fields(from, o, date, id))
  {
    hide ParseField, Trim, Header, EncodeSubject, Bracketed, FieldName;
    ShortNames();
    MessageIdName();
    MimeVersionName();
    ContentTypeName();
    EncodingName();
    NamedField("From", "from", "<" + from + ">");
    NamedField("To", "to", Bracketed(o.recipients));
    NamedField("Subject", "subject", EncodeSubject(o.subject));
    NamedField("Date", "date", date);
    NamedField("Message-ID", "message-id", id);
    NamedField("MIME-Version", "mime-version", "1.0");
    NamedField("Content-Type", "content-type", CONTENT_TYPE);
    NamedField("Content-Transfer-Encoding", "content-transfer-encoding", "base64");
    NamesDiffer(Fields(from, o, date, id));
  }

  lemma NamesDiffer(f: seq<Field>)
    requires |f| == 8 && f[0].name == "from" && f[1].name == "to" && f[2].name == "subject" && f[3].name == "date"
    requires f[4].name == "message-id" && f[5].name == "mime-version" && f[6].name == "content-type"
    requires f[7].name == "content-transfer-encoding"
    ensures forall i, j :: 0 <= i < j < 8 ==> f[i].name != f[j].name
    ensures forall i :: 0 <= i < 8 ==> f[i].name != "content-disposition"
  {
    var lengths := [4, 2, 7, 4, 10, 12, 12, 25];
    assert forall i :: 0 <= i < 8 ==> |f[i].name| == lengths[i];
    assert f[0].name[0] == 'f' && f[3].name[0] == 'd' && f[5].name[0] == 'm' && f[6].name[0] == 'c';
    assert |"content-disposition"| == 19;
  }
}
