/**
 The bounded walk over the parts of a message, and the plain scan it amounts to.
 */
module MimeWalk {
  import opened Strings
  import opened EncodedWords
  import opened MessageParser

  const MAX_DEPTH: nat := 5
  const MAX_PARTS: nat := 50
  const MAX_ATTACHMENTS: nat := 50

  datatype Attachment = Attachment(name: string, kind: string, size: nat)

  datatype Found = Found(text: Option<string>, html: Option<string>, attachments: seq<Attachment>, seen: nat)

  const NOTHING: Found := Found(None, None, [], 0)

  // ------------------------------------------------------ what one part is

  predicate StartsWith(s: string, prefix: string) { |prefix| <= |s| && s[..|prefix|] == prefix }

  function Kind(part: Part): (r: string) { MediaType(Get(part.headers, "content-type")) }

  function Boundary(part: Part): (r: Option<string>) { HeaderParameter(Get(part.headers, "content-type"), "boundary") }

  predicate IsContainer(part: Part) { StartsWith(Kind(part), "multipart/") && Boundary(part).Some? }

  function Children(part: Part): (r: seq<Part>) {
    match Boundary(part) case None => [] case Some(boundary) => Multipart(part.body, boundary)
  }

  function FileName(part: Part): (r: Option<string>) {
    match HeaderParameter(Get(part.headers, "content-disposition"), "filename")
    case Some(name) => Some(name)
    case None => HeaderParameter(Get(part.headers, "content-type"), "name")
  }

  function Disposition(part: Part): (r: string) {
    var v := Get(part.headers, "content-disposition");
    FirstField(if v.Some? then v.value else "")
  }

  predicate IsAttachment(part: Part) {
    && !IsContainer(part)
    && (Disposition(part) == "attachment" || FileName(part).Some?
        || (!StartsWith(Kind(part), "text/") && Kind(part) != "message/rfc822"))
  }

  function SafeChar(c: char): (r: char) {
    if c == '\r' || c == '\n' || c as int == 0 || c == '/' || c == '\\' then '_' else c
  }

  function SafeName(s: string): (r: string)
    ensures |r| == |s|
  {
    seq(|s|, i requires 0 <= i < |s| => SafeChar(s[i]))
  }

  function Shortened(s: string): (r: string) { if |s| <= 255 then s else s[..255] }

  function AsAttachment(part: Part): (a: Attachment) {
    var name := FileName(part);
    Attachment(Shortened(SafeName(DecodeWords(if name.Some? then name.value else "attachment"))), Kind(part),
      |Decoded(part)|)
  }

  predicate IsPlain(part: Part) { !IsContainer(part) && !IsAttachment(part) && Kind(part) == "text/plain" }

  predicate IsHtml(part: Part) { !IsContainer(part) && !IsAttachment(part) && Kind(part) == "text/html" }

  // ------------------------------------------------------ the walk

  /** A part that is not a container. */
  function Absorb(part: Part, f: Found): (r: Found) {
    if IsAttachment(part) then
      (if |f.attachments| < MAX_ATTACHMENTS then f.(attachments := f.attachments + [AsAttachment(part)]) else f)
    else if IsPlain(part) && f.text.None? then f.(text := Some(Decoded(part)))
    else if IsHtml(part) && f.html.None? then f.(html := Some(Decoded(part)))
    else f
  }

  function Walk(part: Part, depth: nat, f: Found): (r: Found)
    requires depth <= MAX_DEPTH
    decreases MAX_DEPTH - depth, 0
  {
    var g := f.(seen := f.seen + 1);
    if g.seen > MAX_PARTS then g
    else if !IsContainer(part) then Absorb(part, g)
    else if depth >= MAX_DEPTH then g
    else WalkAll(Children(part), depth + 1, g)
  }

  function WalkAll(parts: seq<Part>, depth: nat, f: Found): (r: Found)
    requires depth <= MAX_DEPTH
    decreases MAX_DEPTH - depth, 1 + |parts|
  {
    if parts == [] then f else WalkAll(parts[1..], depth, Walk(parts[0], depth, f))
  }

  class Walker {
    var text: Option<string>
    var html: Option<string>
    var attachments: seq<Attachment>
    var seenParts: nat

    ghost function Abs(): (f: Found)
      reads this
    {
      Found(text, html, attachments, seenParts)
    }

    constructor ()
      ensures Abs() == NOTHING
    {
      text, html, attachments, seenParts := None, None, [], 0;
    }

    method TakeIn(part: Part)
      requires !IsContainer(part)
      modifies this
      ensures Abs() == Absorb(part, old(Abs()))
    {
      hide IsContainer, IsAttachment, Kind, AsAttachment, Decoded;
      if IsAttachment(part) {
        if |attachments| < MAX_ATTACHMENTS { attachments := attachments + [AsAttachment(part)]; }
        return;
      }
      if Kind(part) == "text/plain" && text.None? {
        text := Some(Decoded(part));
      } else if Kind(part) == "text/html" && html.None? {
        html := Some(Decoded(part));
      }
    }

    method Visit(part: Part, depth: nat)
      requires depth <= MAX_DEPTH
      modifies this
      ensures Abs() == Walk(part, depth, old(Abs()))
      decreases MAX_DEPTH - depth, 0
    {
      hide IsContainer, Children, Boundary, Absorb, WalkAll;
      seenParts := seenParts + 1;
      if seenParts > MAX_PARTS { return; }
      if IsContainer(part) {
        if depth >= MAX_DEPTH { return; }
        ContainerBoundary(part);
        var children := SplitMultipart(part.body, Boundary(part).value);
        VisitAll(children, depth + 1);
      } else {
        TakeIn(part);
      }
    }

    method VisitAll(parts: seq<Part>, depth: nat)
      requires depth <= MAX_DEPTH
      modifies this
      ensures Abs() == WalkAll(parts, depth, old(Abs()))
      decreases MAX_DEPTH - depth, 1
    {
      hide Walk, WalkAll;
      assert parts[0..] == parts;
      for i := 0 to |parts|
        invariant WalkAll(parts[i..], depth, Abs()) == WalkAll(parts, depth, old(Abs()))
      {
        WalkAllStep(parts[i..], depth, Abs());
        assert parts[i..][1..] == parts[i + 1..];
        Visit(parts[i], depth);
      }
      WalkAllEnd(depth, Abs());
    }
  }

  lemma ContainerBoundary(part: Part)
    requires IsContainer(part)
    ensures Boundary(part).Some? && Children(part) == Multipart(part.body, Boundary(part).value)
  {
    hide Kind, Multipart, HeaderParameter;
  }

  lemma WalkAllStep(parts: seq<Part>, depth: nat, f: Found)
    requires depth <= MAX_DEPTH && parts != []
    ensures WalkAll(parts, depth, f) == WalkAll(parts[1..], depth, Walk(parts[0], depth, f))
  {
    hide Walk;
  }

  lemma WalkAllEnd(depth: nat, f: Found)
    requires depth <= MAX_DEPTH
    ensures WalkAll([], depth, f) == f
  {
  }

  // ------------------------------------------------------ the scan

  /** The nodes of the part tree, cut off below depth 5, in pre-order. */
  function PreOrder(part: Part, depth: nat): (r: seq<Part>)
    requires depth <= MAX_DEPTH
    decreases MAX_DEPTH - depth, 0
  {
    [part] + if IsContainer(part) && depth < MAX_DEPTH then PreOrderAll(Children(part), depth + 1) else []
  }

  function PreOrderAll(parts: seq<Part>, depth: nat): (r: seq<Part>)
    requires depth <= MAX_DEPTH
    decreases MAX_DEPTH - depth, 1 + |parts|
  {
    if parts == [] then [] else PreOrder(parts[0], depth) + PreOrderAll(parts[1..], depth)
  }

  /** The content of the first node of a sort. */
  function First(nodes: seq<Part>, sort: Part -> bool): (r: Option<string>) {
    if nodes == [] then None else if sort(nodes[0]) then Some(Decoded(nodes[0])) else First(nodes[1..], sort)
  }

  function Attachments(nodes: seq<Part>): (r: seq<Attachment>)
    ensures |r| <= |nodes|
  {
    if nodes == [] then []
    else (if IsAttachment(nodes[0]) then [AsAttachment(nodes[0])] else []) + Attachments(nodes[1..])
  }

  function Upto(nodes: seq<Part>, n: int): (r: seq<Part>) {
    if n <= 0 then [] else if n < |nodes| then nodes[..n] else nodes
  }

  /** One node of the scan. */
  function Look(part: Part, f: Found): (r: Found) {
    var g := f.(seen := f.seen + 1);
    if g.seen > MAX_PARTS || IsContainer(part) then g else Absorb(part, g)
  }

  function Scan(nodes: seq<Part>, f: Found): (r: Found) {
    if nodes == [] then f else Scan(nodes[1..], Look(nodes[0], f))
  }

  /** Equal but for how far past the limit the count has run. */
  predicate Same(a: Found, b: Found) {
    a.text == b.text && a.html == b.html && a.attachments == b.attachments
      && (a.seen == b.seen || (a.seen > MAX_PARTS && b.seen > MAX_PARTS))
  }

  lemma {:induction false} ScanAppend(a: seq<Part>, b: seq<Part>, f: Found)
    ensures Scan(a + b, f) == Scan(b, Scan(a, f))
    decreases |a|
  {
    hide Look;
    if a == [] {
      assert a + b == b;
    } else {
      assert (a + b)[1..] == a[1..] + b;
      ScanAppend(a[1..], b, Look(a[0], f));
    }
  }

  lemma LookSame(part: Part, a: Found, b: Found)
    requires Same(a, b)
    ensures Same(Look(part, a), Look(part, b))
  {
    hide IsContainer, IsAttachment, AsAttachment, Decoded, Kind;
  }

  lemma {:induction false} ScanSame(nodes: seq<Part>, a: Found, b: Found)
    requires Same(a, b)
    ensures Same(Scan(nodes, a), Scan(nodes, b))
    decreases |nodes|
  {
    hide Look, Same;
    if nodes != [] {
      LookSame(nodes[0], a, b);
      ScanSame(nodes[1..], Look(nodes[0], a), Look(nodes[0], b));
    }
  }

  /** Past the limit nothing is taken in. */
  lemma {:induction false} ScanPast(nodes: seq<Part>, f: Found)
    requires f.seen > MAX_PARTS
    ensures Same(Scan(nodes, f), f)
    decreases |nodes|
  {
    hide IsContainer, Absorb;
    if nodes != [] { ScanPast(nodes[1..], Look(nodes[0], f)); }
  }

  lemma {:induction false} WalkScans(part: Part, depth: nat, f: Found)
    requires depth <= MAX_DEPTH
    ensures Same(Walk(part, depth, f), Scan(PreOrder(part, depth), f))
    decreases MAX_DEPTH - depth, 0
  {
    hide IsContainer, Children, Absorb, Scan;
    var g := Look(part, f);
    var below := PreOrder(part, depth)[1..];
    assert PreOrder(part, depth) == [part] + below;
    ScanOne(part, below, f);
    if g.seen > MAX_PARTS {
      ScanPast(below, g);
    } else if IsContainer(part) && depth < MAX_DEPTH {
      assert below == PreOrderAll(Children(part), depth + 1);
      WalkAllScans(Children(part), depth + 1, g);
    } else {
      assert below == [];
      ScanNone(g);
    }
  }

  lemma ScanOne(part: Part, below: seq<Part>, f: Found)
    ensures Scan([part] + below, f) == Scan(below, Look(part, f))
  {
    hide Look;
    assert ([part] + below)[1..] == below;
  }

  lemma ScanNone(f: Found)
    ensures Scan([], f) == f
  {
  }

  lemma {:induction false} WalkAllScans(parts: seq<Part>, depth: nat, f: Found)
    requires depth <= MAX_DEPTH
    ensures Same(WalkAll(parts, depth, f), Scan(PreOrderAll(parts, depth), f))
    decreases MAX_DEPTH - depth, 1 + |parts|
  {
    hide Walk, PreOrder, Scan;
    if parts == [] {
      ScanNone(f);
    } else {
      var a, b := Walk(parts[0], depth, f), Scan(PreOrder(parts[0], depth), f);
      WalkScans(parts[0], depth, f);
      WalkAllScans(parts[1..], depth, a);
      ScanSame(PreOrderAll(parts[1..], depth), a, b);
      ScanAppend(PreOrder(parts[0], depth), PreOrderAll(parts[1..], depth), f);
    }
  }

  function Or(a: Option<string>, b: Option<string>): (r: Option<string>) { if a.Some? then a else b }

  /** What a scan adds: the first text, the first HTML and every attachment among the nodes within the limit. */
  lemma {:induction false} ScanFinds(nodes: seq<Part>, f: Found)
    requires |f.attachments| <= f.seen
    ensures var r := Scan(nodes, f);
            var near := Upto(nodes, MAX_PARTS - f.seen);
            && r.text == Or(f.text, First(near, IsPlain)) && r.html == Or(f.html, First(near, IsHtml))
            && r.attachments == f.attachments + Attachments(near)
    decreases |nodes|
  {
    hide IsContainer, IsAttachment, AsAttachment, Decoded, Kind, Scan, First, Attachments, Look;
    var near := Upto(nodes, MAX_PARTS - f.seen);
    NoneFound();
    if nodes == [] {
      ScanNone(f);
      assert near == [] && f.attachments + [] == f.attachments;
    } else {
      var g := Look(nodes[0], f);
      assert nodes == [nodes[0]] + nodes[1..];
      ScanOne(nodes[0], nodes[1..], f);
      LookCounts(nodes[0], f);
      ScanFinds(nodes[1..], g);
      if f.seen >= MAX_PARTS {
        LookPast(nodes[0], f);
        assert near == [] && Upto(nodes[1..], MAX_PARTS - g.seen) == [];
      } else {
        var rest := Upto(nodes[1..], MAX_PARTS - g.seen);
        assert near == [nodes[0]] + rest;
        LookFinds(nodes[0], rest, f);
      }
    }
  }

  lemma NoneFound()
    ensures First([], IsPlain).None? && First([], IsHtml).None? && Attachments([]) == []
  {
  }

  lemma LookCounts(part: Part, f: Found)
    requires |f.attachments| <= f.seen
    ensures Look(part, f).seen == f.seen + 1 && |Look(part, f).attachments| <= f.seen + 1
  {
    hide IsContainer, IsAttachment, AsAttachment, Decoded, Kind;
  }

  lemma LookPast(part: Part, f: Found)
    requires f.seen >= MAX_PARTS
    ensures Look(part, f) == f.(seen := f.seen + 1)
  {
    hide IsContainer, Absorb;
  }

  /**
   One node within the limit: the cap on attachments does not act, because there are
   never more of them than nodes.
   */
  lemma LookFinds(part: Part, rest: seq<Part>, f: Found)
    requires |f.attachments| <= f.seen < MAX_PARTS
    ensures var g := Look(part, f);
            && Or(g.text, First(rest, IsPlain)) == Or(f.text, First([part] + rest, IsPlain))
            && Or(g.html, First(rest, IsHtml)) == Or(f.html, First([part] + rest, IsHtml))
            && g.attachments + Attachments(rest) == f.attachments + Attachments([part] + rest)
  {
    FirstCons(part, rest, IsPlain);
    FirstCons(part, rest, IsHtml);
    AttachmentsCons(part, rest);
    ContainerNoAttachment(part);
    hide IsContainer, IsAttachment, AsAttachment, Decoded, Kind, First, Attachments;
    if IsAttachment(part) {
      Assoc(f.attachments, [AsAttachment(part)], Attachments(rest));
    } else {
      assert [] + Attachments(rest) == Attachments(rest);
    }
    assert "text/plain" != "text/html";
  }

  lemma ContainerNoAttachment(part: Part)
    ensures IsContainer(part) ==> !IsAttachment(part)
  {
    hide IsContainer;
  }

  lemma FirstCons(part: Part, rest: seq<Part>, sort: Part -> bool)
    ensures First([part] + rest, sort) == if sort(part) then Some(Decoded(part)) else First(rest, sort)
  {
    hide Decoded;
    assert ([part] + rest)[1..] == rest;
  }

  lemma AttachmentsCons(part: Part, rest: seq<Part>)
    ensures Attachments([part] + rest) == (if IsAttachment(part) then [AsAttachment(part)] else []) + Attachments(rest)
  {
    hide IsAttachment, AsAttachment;
    assert ([part] + rest)[1..] == rest;
  }

  /**
   The walk yields the first text, the first HTML and all attachments among the
   first fifty nodes, in pre-order, of the tree cut off at depth five.
   */
  lemma WalkRefinesScan(root: Part)
    ensures var r := Walk(root, 0, NOTHING);
            var nodes := Upto(PreOrder(root, 0), MAX_PARTS);
            r.text == First(nodes, IsPlain) && r.html == First(nodes, IsHtml) && r.attachments == Attachments(nodes)
    ensures |Walk(root, 0, NOTHING).attachments| <= MAX_ATTACHMENTS
  {
    hide Walk, Scan, PreOrder, First, Attachments;
    WalkScans(root, 0, NOTHING);
    ScanFinds(PreOrder(root, 0), NOTHING);
    var nodes := Upto(PreOrder(root, 0), MAX_PARTS);
    assert [] + Attachments(nodes) == Attachments(nodes);
  }
}
