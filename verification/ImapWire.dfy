/**
 What the server sends for one command, and the proof that the reader gives it
 back: untagged responses whose `{N}` literals may hold any octets at all.
 */
module ImapWire {
  import opened Strings
  import opened ImapStream

  /** A literal and the text that stands between it and the next literal or the end of the response. */
  datatype Part = Part(literal: string, tail: string)

  datatype Response = Response(head: string, parts: seq<Part>)

  /** RFC 3501 section 4.3: each literal follows its announced octet count and a CRLF. */
  function Wire(text: string, parts: seq<Part>): (s: string)
    decreases |parts|
  {
    if parts == [] then text
    else text + Announce(|parts[0].literal|) + CRLF + parts[0].literal + Wire(parts[0].tail, parts[1..])
  }

  /** A response the client can be sent: no CRLF outside literals, and no literal glued to a digit or `}`. */
  ghost predicate Sendable(text: string, parts: seq<Part>)
    decreases |parts|
  {
    && !HasCrlf(text)
    && if parts == [] then LiteralSuffix(text) == None
       else
         && |parts[0].literal| <= MAX_LITERAL_BYTES
         && SafeTail(parts[0].tail)
         && Sendable(parts[0].tail, parts[1..])
  }

  function FirstLine(text: string, parts: seq<Part>): (s: string) {
    if parts == [] then text else text + Announce(|parts[0].literal|)
  }

  /** The entries `command` stores for a response: every text segment, with its announcement. */
  function Entries(text: string, parts: seq<Part>): (r: seq<string>)
    ensures |r| > 0 && r[0] == FirstLine(text, parts)
    decreases |parts|
  {
    if parts == [] then [text]
    else [FirstLine(text, parts)] + Entries(parts[0].tail, parts[1..])
  }

  function Literals(parts: seq<Part>): (r: seq<string>) {
    seq(|parts|, i requires 0 <= i < |parts| => parts[i].literal)
  }

  /** The stream after the first line of a response. */
  function After(parts: seq<Part>, more: string): (s: string) {
    if parts == [] then more
    else parts[0].literal + (Wire(parts[0].tail, parts[1..]) + CRLF + more)
  }

  lemma WireNothing(text: string)
    ensures Wire(text, []) == text
  {
  }

  lemma WireStep(prefix: string, text: string, parts: seq<Part>)
    requires parts != []
    ensures prefix + Wire(text, parts)
            == (prefix + FirstLine(text, parts) + CRLF + parts[0].literal) + Wire(parts[0].tail, parts[1..])
  {
  }

  lemma WireSplit(text: string, parts: seq<Part>, more: string)
    ensures Wire(text, parts) + CRLF + more == FirstLine(text, parts) + CRLF + After(parts, more)
  {
    hide Wire, Announce;
    if parts == [] {
      WireNothing(text);
    } else {
      WireStep("", text, parts);
      var first, w := FirstLine(text, parts), Wire(parts[0].tail, parts[1..]);
      assert "" + Wire(text, parts) == Wire(text, parts) && "" + first == first;
      Regroup(first + CRLF, parts[0].literal, w, CRLF + more);
      Assoc(Wire(text, parts), CRLF, more);
      Assoc(w, CRLF, more);
    }
  }

  lemma Regroup(a: string, b: string, c: string, d: string)
    ensures (a + b + c) + d == a + (b + (c + d))
  {
  }

  lemma NoCrlfBefore(text: string, size: nat)
    requires !HasCrlf(text)
    ensures !HasCrlf(text + Announce(size))
  {
    var s := text + Announce(size);
    forall k ensures !At(s, CRLF, k) {
      if 0 <= k && k + 2 <= |s| {
        assert !At(text, CRLF, k);
        assert k + 2 <= |text| ==> s[k..k + 2] == text[k..k + 2];
        assert s[k..k + 2][1] == s[k + 1];
        assert k + 1 >= |text| ==> s[k + 1] == Announce(size)[k + 1 - |text|];
      }
    }
  }

  lemma FirstLineHasNoCrlf(text: string, parts: seq<Part>)
    requires Sendable(text, parts)
    ensures !HasCrlf(FirstLine(text, parts))
  {
    if parts != [] { NoCrlfBefore(text, |parts[0].literal|); }
  }

  // ------------------------------------------------------ reading a literal back

  /** The first CRLF of `literal + line + CRLF + more` lies inside the literal or ends the line. */
  lemma FirstCrlf(literal: string, line: string, more: string)
    requires !HasCrlf(line) && (line != "" ==> line[0] != '\n')
    ensures var i := IndexOf(literal + (line + CRLF + more), CRLF);
            (0 <= i && i + 2 <= |literal|) || i == |literal| + |line|
  {
    hide IndexOf;
    var t := line + CRLF + more;
    var s := literal + t;
    CrlfAfterLine(line, more);
    var end := |literal| + |line|;
    assert s[end..end + 2] == t[|line|..|line| + 2];
    assert At(s, CRLF, end);
    forall k | |literal| - 1 <= k < end && 0 <= k ensures !At(s, CRLF, k) {
      assert s[k + 1] == t[k + 1 - |literal|];
      assert s[k..k + 2][1] == s[k + 1];
      if k >= |literal| {
        assert s[k..k + 2] == t[k - |literal|..k - |literal| + 2];
        assert !At(t, CRLF, k - |literal|);
      } else {
        assert t[0] == if line == "" then '\r' else line[0];
      }
    }
    var i := IndexOf(s, CRLF);
    assert i == -1 || end < i ==> !At(s, CRLF, end);
  }

  lemma {:induction false} CollectLiteral(collected: string, literal: string, line: string, more: string)
    requires !HasCrlf(line) && (line != "" ==> line[0] != '\n')
    ensures var t := line + CRLF + more;
            var r := Collect(|collected| + |literal|, Unframe(literal + t).lines, collected);
            || r == Some((collected + literal, Unframe(t).lines))
            || r == Some((collected + literal + line + CRLF, Unframe(more).lines))
    decreases |literal|
  {
    hide Unframe, IndexOf;
    var t := line + CRLF + more;
    var s := literal + t;
    if literal == "" {
      assert s == t && collected + literal == collected;
    } else {
      FirstCrlf(literal, line, more);
      var i := IndexOf(s, CRLF);
      UnframeAt(s, i);
      if i + 2 <= |literal| {
        var next := collected + literal[..i] + CRLF;
        assert s[..i] == literal[..i] && s[i + 2..] == literal[i + 2..] + t;
        assert literal[i..i + 2] == s[i..i + 2];
        assert next + literal[i + 2..] == collected + literal;
        CollectLiteral(next, literal[i + 2..], line, more);
        assert Unframe(s).lines[1..] == Unframe(literal[i + 2..] + t).lines;
      } else {
        assert s[..i] == literal + line && s[i + 2..] == more;
        assert collected + (literal + line) + CRLF == collected + literal + line + CRLF;
        assert Unframe(s).lines[1..] == Unframe(more).lines;
      }
    }
  }

  /** The collected text ends with the literal: the next line completes the response. */
  lemma ReadsApart(literal: string, line: string, rest: seq<string>, lines: seq<string>)
    requires Collect(|literal|, lines, "") == Some((literal, [line] + rest))
    ensures ReadLiteral(|literal|, lines) == Got(literal, line, rest)
  {
    hide Collect;
    assert literal[..|literal|] == literal && literal[|literal|..] == "";
    assert ([line] + rest)[1..] == rest;
  }

  /** The literal ended in mid-line: what was collected beyond it completes the response. */
  lemma ReadsTogether(literal: string, line: string, rest: seq<string>, lines: seq<string>)
    requires Collect(|literal|, lines, "") == Some((literal + line + CRLF, rest))
    ensures ReadLiteral(|literal|, lines) == Got(literal, line, rest)
  {
    hide Collect;
    var whole := literal + line + CRLF;
    assert whole[..|literal|] == literal && whole[|literal|..] == line + CRLF;
    assert (line + CRLF)[..|line|] == line && (line + CRLF)[|line|..] == CRLF;
  }

  /** A literal is read back exactly, whatever CRLFs, announcements or tags it contains. */
  lemma ReadLiteralExact(literal: string, line: string, more: string)
    requires !HasCrlf(line) && (line != "" ==> line[0] != '\n')
    ensures ReadLiteral(|literal|, Unframe(literal + (line + CRLF + more)).lines)
            == Got(literal, line, Unframe(more).lines)
  {
    hide Unframe, Collect, HasCrlf, ReadLiteral;
    var lines, rest := Unframe(literal + (line + CRLF + more)).lines, Unframe(more).lines;
    CollectLiteral("", literal, line, more);
    UnframeLine(line, more);
    assert "" + literal == literal;
    if Collect(|literal|, lines, "") == Some((literal, [line] + rest)) {
      ReadsApart(literal, line, rest, lines);
    } else {
      ReadsTogether(literal, line, rest, lines);
    }
  }

  lemma {:induction false} FollowResponse(text: string, parts: seq<Part>, more: string, untagged: seq<string>,
    literals: seq<string>)
    requires Sendable(text, parts)
    ensures FollowLiterals(FirstLine(text, parts), Unframe(After(parts, more)).lines,
                           untagged + [FirstLine(text, parts)], literals)
            == Completed(untagged + Entries(text, parts), literals + Literals(parts), Unframe(more).lines)
    decreases |parts|
  {
    hide Unframe, LiteralSuffix, ReadLiteral;
    var first := FirstLine(text, parts);
    if parts == [] {
      assert literals + Literals(parts) == literals;
    } else {
      var p, rest := parts[0], parts[1..];
      SuffixOfAnnounce(text, |p.literal|);
      var second := FirstLine(p.tail, rest);
      FirstLineHasNoCrlf(p.tail, rest);
      WireSplit(p.tail, rest, more);
      ReadLiteralExact(p.literal, second, After(rest, more));
      FollowResponse(p.tail, rest, more, untagged + [first], literals + [p.literal]);
      Assoc(untagged, [first], Entries(p.tail, rest));
      assert literals + [p.literal] + Literals(rest) == literals + Literals(parts);
    }
  }

  // ------------------------------------------------------ joining them again

  /** One announcement takes in the next literal and the next line. */
  lemma AbsorbOne(current: string, literal: string, line: string, lines: seq<string>, literals: seq<string>)
    requires LiteralSuffix(current).Some?
    ensures Absorb(current, [line] + lines, [literal] + literals)
            == Absorb(current + CRLF + literal + line, lines, literals)
  {
    hide LiteralSuffix;
    assert ([line] + lines)[1..] == lines && ([literal] + literals)[1..] == literals;
  }

  lemma AbsorbNone(current: string, lines: seq<string>, literals: seq<string>)
    requires LiteralSuffix(current).None?
    ensures Absorb(current, lines, literals) == Absorbed(current, lines, literals)
  {
  }

  lemma HeadFirst(s: seq<string>, t: seq<string>)
    requires s != []
    ensures s + t == [s[0]] + (s[1..] + t)
  {
    Assoc([s[0]], s[1..], t);
    assert [s[0]] + s[1..] == s;
  }

  lemma EntriesStep(text: string, parts: seq<Part>, lines: seq<string>)
    requires parts != []
    ensures var p, rest := parts[0], parts[1..];
            Entries(text, parts)[1..] + lines == [FirstLine(p.tail, rest)] + (Entries(p.tail, rest)[1..] + lines)
  {
    var more := Entries(parts[0].tail, parts[1..]);
    hide FirstLine;
    assert Entries(text, parts)[1..] == more;
    HeadFirst(more, lines);
  }

  lemma LiteralsStep(parts: seq<Part>, literals: seq<string>)
    requires parts != []
    ensures Literals(parts) + literals == [parts[0].literal] + (Literals(parts[1..]) + literals)
  {
    assert Literals(parts)[1..] == Literals(parts[1..]);
    HeadFirst(Literals(parts), literals);
  }

  lemma {:induction false} AbsorbResponse(prefix: string, text: string, parts: seq<Part>, lines: seq<string>,
    literals: seq<string>)
    requires Sendable(text, parts) && (prefix == "" || SafeTail(text))
    ensures Absorb(prefix + FirstLine(text, parts), Entries(text, parts)[1..] + lines, Literals(parts) + literals)
            == Absorbed(prefix + Wire(text, parts), lines, literals)
    decreases |parts|
  {
    hide LiteralSuffix, Announce, Wire, Absorb;
    if parts == [] {
      if prefix != "" { SuffixOfTail(prefix, text); } else { assert prefix + text == text; }
      assert Entries(text, parts)[1..] + lines == lines && Literals(parts) + literals == literals;
      WireNothing(text);
      AbsorbNone(prefix + text, lines, literals);
    } else {
      AbsorbParts(prefix, text, parts, lines, literals);
      WireStep(prefix, text, parts);
    }
  }

  lemma {:induction false} AbsorbParts(prefix: string, text: string, parts: seq<Part>, lines: seq<string>,
    literals: seq<string>)
    requires Sendable(text, parts) && parts != []
    ensures var current := prefix + FirstLine(text, parts);
            Absorb(current, Entries(text, parts)[1..] + lines, Literals(parts) + literals)
            == Absorbed(current + CRLF + parts[0].literal + Wire(parts[0].tail, parts[1..]), lines, literals)
    decreases |parts|, 0
  {
    hide LiteralSuffix, Announce, Wire, Absorb, Entries, Literals;
    var p, rest := parts[0], parts[1..];
    var current := prefix + FirstLine(text, parts);
    assert current == (prefix + text) + Announce(|p.literal|);
    SuffixOfAnnounce(prefix + text, |p.literal|);
    EntriesStep(text, parts, lines);
    LiteralsStep(parts, literals);
    AbsorbOne(current, p.literal, FirstLine(p.tail, rest), Entries(p.tail, rest)[1..] + lines,
      Literals(rest) + literals);
    AbsorbResponse(current + CRLF + p.literal, p.tail, rest, lines, literals);
  }

  function AllEntries(rs: seq<Response>): (r: seq<string>) {
    if rs == [] then [] else Entries(rs[0].head, rs[0].parts) + AllEntries(rs[1..])
  }

  function AllLiterals(rs: seq<Response>): (r: seq<string>) {
    if rs == [] then [] else Literals(rs[0].parts) + AllLiterals(rs[1..])
  }

  function WireTexts(rs: seq<Response>): (r: seq<string>) {
    seq(|rs|, i requires 0 <= i < |rs| => Wire(rs[i].head, rs[i].parts))
  }

  /** The octets of several responses, each ended by CRLF. */
  function Stream(rs: seq<Response>): (s: string) {
    if rs == [] then "" else Wire(rs[0].head, rs[0].parts) + CRLF + Stream(rs[1..])
  }

  /** The first response joins to its wire text, and leaves the entries and literals after it. */
  lemma JoinedOne(r: Response, lines: seq<string>, literals: seq<string>)
    requires Sendable(r.head, r.parts)
    ensures Joined(Entries(r.head, r.parts) + lines, Literals(r.parts) + literals)
            == [Wire(r.head, r.parts)] + Joined(lines, literals)
  {
    hide Joined, Absorb, Wire, Entries, Literals, Sendable;
    var all, lits := Entries(r.head, r.parts) + lines, Literals(r.parts) + literals;
    AbsorbResponse("", r.head, r.parts, lines, literals);
    assert "" + FirstLine(r.head, r.parts) == FirstLine(r.head, r.parts);
    assert "" + Wire(r.head, r.parts) == Wire(r.head, r.parts);
    assert all[1..] == Entries(r.head, r.parts)[1..] + lines;
    assert all[0..] == all && lits[0..] == lits;
    JoinedStep(all, lits, 0, 0, Absorbed(Wire(r.head, r.parts), lines, literals));
  }

  lemma {:induction false} JoinedResponses(rs: seq<Response>)
    requires forall r :: r in rs ==> Sendable(r.head, r.parts)
    ensures Joined(AllEntries(rs), AllLiterals(rs)) == WireTexts(rs)
    decreases |rs|
  {
    hide Joined, Wire, Entries, Literals, Sendable;
    if rs == [] {
      JoinedNothing(AllLiterals(rs));
    } else {
      var r, rest := rs[0], rs[1..];
      JoinedOne(r, AllEntries(rest), AllLiterals(rest));
      JoinedResponses(rest);
      assert WireTexts(rs) == [Wire(r.head, r.parts)] + WireTexts(rest);
    }
  }

  /** Responses the server may send while the command with this tag is running. */
  ghost predicate Answers(tag: string, rs: seq<Response>) {
    forall r :: r in rs ==> Sendable(r.head, r.parts) && !(tag + " " <= FirstLine(r.head, r.parts))
  }

  /** The tagged line that ends the command. */
  ghost predicate Tagged(tag: string, done: string) { !HasCrlf(done) && tag + " " <= done }

  /** The tagged line that ends the command successfully. */
  ghost predicate Completion(tag: string, done: string) {
    !HasCrlf(done) && (done == tag + " OK" || tag + " OK " <= done)
  }

  /** Every response is passed over with its literals, whatever they contain. */
  lemma {:induction false} ResponsesPass(tag: string, rs: seq<Response>, more: string, untagged: seq<string>,
    literals: seq<string>)
    requires Answers(tag, rs)
    ensures RunCommand(tag, Unframe(Stream(rs) + more).lines, untagged, literals)
            == RunCommand(tag, Unframe(more).lines, untagged + AllEntries(rs), literals + AllLiterals(rs))
    decreases |rs|
  {
    hide Unframe, FollowLiterals, Wire;
    if rs == [] {
      assert Stream(rs) + more == more;
      assert untagged + AllEntries(rs) == untagged && literals + AllLiterals(rs) == literals;
    } else {
      var r, rest := rs[0], rs[1..];
      var next := Stream(rest) + more;
      var first := FirstLine(r.head, r.parts);
      assert Stream(rs) + more == Wire(r.head, r.parts) + CRLF + next;
      WireSplit(r.head, r.parts, next);
      FirstLineHasNoCrlf(r.head, r.parts);
      UnframeLine(first, After(r.parts, next));
      FollowResponse(r.head, r.parts, next, untagged, literals);
      ResponsesPass(tag, rest, more, untagged + Entries(r.head, r.parts), literals + Literals(r.parts));
      Assoc(untagged, Entries(r.head, r.parts), AllEntries(rest));
      Assoc(literals, Literals(r.parts), AllLiterals(rest));
    }
  }

  /** `split(' ', 1)[0]` is a word without spaces if the text is that word, or begins with it and a space. */
  lemma StatusIs(text: string, word: string)
    requires ' ' !in word
    ensures Status(text) == word <==> text == word || word + " " <= text
  {
    hide IndexOf;
    var i := IndexOf(text, " ");
    if text == word || word + " " <= text {
      if word + " " <= text { assert At(text, " ", |word|); }
      forall k | 0 <= k < |word| ensures !At(text, " ", k) {
        assert text[k] == word[k] && text[k..k + 1][0] == text[k];
      }
      assert i == -1 || i == |word|;
    } else if i != -1 {
      assert text[..i + 1] == text[..i] + " ";
    }
  }

  /** How the command ends at its own tagged line, by the word after the tag. */
  lemma TaggedLineEnds(tag: string, done: string, rest: seq<string>, untagged: seq<string>, literals: seq<string>)
    requires Tagged(tag, done)
    ensures var reply := RunCommand(tag, [done] + rest, untagged, literals);
            && (Completion(tag, done) ==> reply == Completed(untagged, literals, rest))
            && (reply.Completed? <==> done == tag + " OK" || tag + " OK " <= done)
            && (reply.Rejected? <==> done == tag + " NO" || tag + " NO " <= done)
            && !reply.Waiting?
  {
    hide Status;
    assert ([done] + rest)[1..] == rest;
    var text := done[|tag| + 1..];
    StatusIs(text, "OK");
    StatusIs(text, "NO");
    AfterTag(tag, done, "OK");
    AfterTag(tag, done, "NO");
  }

  lemma AfterTag(tag: string, done: string, word: string)
    requires tag + " " <= done
    ensures var text := done[|tag| + 1..];
            && (text == word <==> done == tag + " " + word)
            && (word + " " <= text <==> tag + " " + word + " " <= done)
  {
    var text := done[|tag| + 1..];
    assert done == tag + " " + text;
    assert tag + " " + word + " " == tag + " " + (word + " ");
    if tag + " " + (word + " ") <= done {
      assert done[|tag| + 1..][..|word| + 1] == (tag + " " + (word + " "))[|tag| + 1..];
    }
  }

  lemma CommandReads(tag: string, rs: seq<Response>, done: string, after: string, untagged: seq<string>,
    literals: seq<string>)
    requires Answers(tag, rs) && Completion(tag, done)
    ensures RunCommand(tag, Unframe(Stream(rs) + (done + CRLF + after)).lines, untagged, literals)
            == Completed(untagged + AllEntries(rs), literals + AllLiterals(rs), Unframe(after).lines)
  {
    hide Unframe, RunCommand, Answers;
    ResponsesPass(tag, rs, done + CRLF + after, untagged, literals);
    UnframeLine(done, after);
    TaggedLineEnds(tag, done, Unframe(after).lines, untagged + AllEntries(rs), literals + AllLiterals(rs));
  }

  /**
   For every chunking, the command succeeds if and only if the word after its
   tag is `OK`, is rejected if and only if it is `NO`, and is a protocol error
   for every other word.
   */
  lemma CommandEndsExactly(tag: string, rs: seq<Response>, done: string, after: string, chunks: seq<string>)
    requires Answers(tag, rs) && Tagged(tag, done) && Concat(chunks) == Stream(rs) + (done + CRLF + after)
    ensures var reply := RunCommand(tag, ReceiveAll(Framed([], ""), chunks).lines, [], []);
            && (reply.Completed? <==> done == tag + " OK" || tag + " OK " <= done)
            && (reply.Rejected? <==> done == tag + " NO" || tag + " NO " <= done)
            && (reply.ProtocolError? <==> !reply.Completed? && !reply.Rejected?)
  {
    hide Unframe, RunCommand, Answers;
    ReceivedLines(chunks);
    ResponsesPass(tag, rs, done + CRLF + after, [], []);
    UnframeLine(done, after);
    TaggedLineEnds(tag, done, Unframe(after).lines, [] + AllEntries(rs), [] + AllLiterals(rs));
  }

  lemma ReceivedLines(chunks: seq<string>)
    ensures ReceiveAll(Framed([], ""), chunks).lines == Unframe(Concat(chunks)).lines
  {
    hide Unframe;
    EmptyIsFramed();
    ChunkingIrrelevant(Framed([], ""), chunks);
    assert "" + Concat(chunks) == Concat(chunks);
    assert [] + Unframe(Concat(chunks)).lines == Unframe(Concat(chunks)).lines;
  }

  /** A literal announced beyond the limit ends the command with a protocol error, whatever follows. */
  lemma OversizeRefused(tag: string, rs: seq<Response>, text: string, size: nat, after: string, chunks: seq<string>)
    requires Answers(tag, rs) && !HasCrlf(text + Announce(size)) && !(tag + " " <= text + Announce(size))
    requires size > 8_388_608
    requires Concat(chunks) == Stream(rs) + ((text + Announce(size)) + CRLF + after)
    ensures RunCommand(tag, ReceiveAll(Framed([], ""), chunks).lines, [], []) == ProtocolError
  {
    hide Unframe, Answers, LiteralSuffix, Announce;
    var line := text + Announce(size);
    ReceivedLines(chunks);
    ResponsesPass(tag, rs, line + CRLF + after, [], []);
    UnframeLine(line, after);
    SuffixOfAnnounce(text, size);
  }

  // ------------------------------------------------------ nothing ends before its tag

  /** The reply once `more` lines have come in too. */
  function Extended(reply: Reply, more: seq<string>): (r: Reply) {
    match reply case Completed(u, l, rest) => Completed(u, l, rest + more) case other => other
  }

  lemma {:induction false} CollectMore(size: nat, lines: seq<string>, collected: string, more: seq<string>)
    ensures var r := Collect(size, lines, collected);
            r.Some? ==> Collect(size, lines + more, collected) == Some((r.value.0, r.value.1 + more))
    decreases |lines|
  {
    if |collected| < size && lines != [] {
      assert (lines + more)[1..] == lines[1..] + more;
      CollectMore(size, lines[1..], collected + lines[0] + CRLF, more);
    }
  }

  lemma ReadLiteralMore(size: nat, lines: seq<string>, more: seq<string>)
    ensures var r := ReadLiteral(size, lines);
            r.Got? ==> ReadLiteral(size, lines + more) == Got(r.literal, r.tail, r.rest + more)
  {
    hide Collect;
    CollectMore(size, lines, "", more);
    var r := Collect(size, lines, "");
    if r.Some? && r.value.1 != [] { assert (r.value.1 + more)[1..] == r.value.1[1..] + more; }
  }

  lemma {:induction false} FollowMore(current: string, lines: seq<string>, untagged: seq<string>, literals: seq<string>,
    more: seq<string>)
    ensures var r := FollowLiterals(current, lines, untagged, literals);
            !r.Waiting? ==> FollowLiterals(current, lines + more, untagged, literals) == Extended(r, more)
    decreases |lines|
  {
    hide LiteralSuffix, ReadLiteral;
    match LiteralSuffix(current) {
      case None =>
      case Some(size) =>
        if size <= MAX_LITERAL_BYTES {
          ReadLiteralMore(size, lines, more);
          var r := ReadLiteral(size, lines);
          if r.Got? {
            FollowStep(current, lines, untagged, literals);
            FollowMore(r.tail, r.rest, untagged + [r.tail], literals + [r.literal], more);
          }
        }
    }
  }

  /** A command that has ended stays ended the same way. */
  lemma {:induction false} RunMore(tag: string, lines: seq<string>, untagged: seq<string>, literals: seq<string>,
    more: seq<string>)
    ensures var r := RunCommand(tag, lines, untagged, literals);
            !r.Waiting? ==> RunCommand(tag, lines + more, untagged, literals) == Extended(r, more)
    decreases |lines|
  {
    hide FollowLiterals, Status;
    if lines != [] {
      assert (lines + more)[1..] == lines[1..] + more;
      if !(tag + " " <= lines[0]) {
        FollowMore(lines[0], lines[1..], untagged + [lines[0]], literals, more);
        match FollowLiterals(lines[0], lines[1..], untagged + [lines[0]], literals) {
          case Completed(u, l, rest) => RunMore(tag, rest, u, l, more);
          case _ =>
        }
      }
    }
  }

  lemma {:induction false} RestHasNoCrlf(s: string)
    ensures !HasCrlf(Unframe(s).rest)
    decreases |s|
  {
    hide IndexOf;
    var i := IndexOf(s, CRLF);
    if i == -1 {
      forall k ensures !At(s, CRLF, k) {
      }
    } else {
      RestHasNoCrlf(s[i + 2..]);
    }
  }

  /** Text that ends with CRLF is all lines. */
  lemma EndedTextIsLines(s: string)
    ensures Unframe(s + CRLF).rest == ""
  {
    hide Unframe, HasCrlf;
    RestHasNoCrlf(s);
    UnframeSplit(s, CRLF);
    var r := Unframe(s).rest;
    UnframeLine(r, "");
    assert r + CRLF + "" == r + CRLF;
    assert Unframe("") == Framed([], "") by { UnframeNone(""); }
  }

  lemma {:induction false} StreamIsLines(rs: seq<Response>, more: string)
    ensures Unframe(Stream(rs) + more).lines == Unframe(Stream(rs)).lines + Unframe(more).lines
    decreases |rs|
  {
    hide Unframe, Wire;
    UnframeSplit(Stream(rs), more);
    StreamEnds(rs);
    assert "" + more == more;
  }

  lemma {:induction false} StreamEnds(rs: seq<Response>)
    ensures Unframe(Stream(rs)).rest == ""
    decreases |rs|
  {
    hide Unframe, Wire;
    if rs == [] {
      UnframeNone("");
    } else {
      var line := Wire(rs[0].head, rs[0].parts);
      EndedTextIsLines(line);
      UnframeSplit(line + CRLF, Stream(rs[1..]));
      assert "" + Stream(rs[1..]) == Stream(rs[1..]);
      StreamEnds(rs[1..]);
    }
  }

  /**
   Until the last octet of its tagged line is there the command goes on waiting,
   whatever tags, numbers or line breaks the literals received so far contain.
   */
  lemma NothingEndsEarly(tag: string, rs: seq<Response>, done: string, chunks: seq<string>, missing: string)
    requires Answers(tag, rs) && Tagged(tag, done)
    requires Concat(chunks) + missing == Stream(rs) + (done + CRLF) && missing != ""
    ensures RunCommand(tag, ReceiveAll(Framed([], ""), chunks).lines, [], []) == Waiting
  {
    hide Unframe, RunCommand, Answers, HasCrlf, Stream;
    ReceivedLines(chunks);
    var received := Concat(chunks);
    var lines, all := Unframe(received).lines, Unframe(Stream(rs)).lines;
    EmptyIsFramed();
    MissingLines(received, missing, Stream(rs) + done);
    assert Stream(rs) + done + CRLF == Stream(rs) + (done + CRLF) && done + CRLF + "" == done + CRLF;
    UnframeSplit(received, missing);
    StreamIsLines(rs, done + CRLF + "");
    UnframeLine(done, "");
    var extra := Unframe(Unframe(received).rest + missing).lines;
    assert [done] + [] == [done];
    assert Unframe(done + CRLF + "").lines == [done];
    assert lines + extra == all + [done];
    StrictPart(lines, extra, all, done);
    var ok := tag + " OK";
    WordsHaveNoCrlf(tag, done);
    StreamIsLines(rs, ok + CRLF + "");
    UnframeLine(ok, "");
    CommandReads(tag, rs, ok, "", [], []);
    Assoc(lines, all[|lines|..], [ok]);
    assert [ok] + [] == [ok];
    assert [] + AllEntries(rs) == AllEntries(rs) && [] + AllLiterals(rs) == AllLiterals(rs);
    RunMore(tag, lines, [], [], all[|lines|..] + [ok]);
  }

  lemma StrictPart(part: seq<string>, extra: seq<string>, all: seq<string>, last: string)
    requires part + extra == all + [last] && extra != []
    ensures |part| <= |all| && part + all[|part|..] == all
  {
    assert (part + extra)[..|part|] == part && (all + [last])[..|part|] == all[..|part|];
  }

  lemma EmptyIsFramed()
    ensures Unframe("") == Framed([], "")
  {
    UnframeNone("");
  }

  lemma MissingLines(received: string, missing: string, text: string)
    requires received + missing == text + CRLF && missing != ""
    ensures Unframe(Unframe(received).rest + missing).lines != []
  {
    EndedTextIsLines(text);
    UnframeSplit(received, missing);
  }

  lemma WordsHaveNoCrlf(tag: string, done: string)
    requires Tagged(tag, done)
    ensures !HasCrlf(tag + " OK")
  {
    var ok := tag + " OK";
    forall k | 0 <= k < |ok| - 1 ensures !At(ok, CRLF, k) {
      if k + 2 <= |tag| + 1 {
        assert ok[k..k + 2] == done[k..k + 2];
        assert !At(done, CRLF, k);
      } else {
        assert ok[k..k + 2][1] == ok[k + 1];
      }
    }
  }

  /**
   For every cutting of the server's octets into chunks, the command completes
   at its own tagged line, `joinLiterals` returns the exact wire text of every
   response, and the lines after the completion stay queued.
   */
  lemma ResponsesSurviveTheReader(tag: string, rs: seq<Response>, done: string, after: string, chunks: seq<string>)
    requires Answers(tag, rs) && Completion(tag, done)
    requires Concat(chunks) == Stream(rs) + (done + CRLF + after)
    ensures var reply := RunCommand(tag, ReceiveAll(Framed([], ""), chunks).lines, [], []);
            && reply.Completed?
            && Joined(reply.untagged, reply.literals) == WireTexts(rs)
            && reply.literals == AllLiterals(rs)
            && reply.rest == Unframe(after).lines
  {
    hide RunCommand, Unframe;
    ReceivedLines(chunks);
    CommandReads(tag, rs, done, after, [], []);
    assert [] + AllEntries(rs) == AllEntries(rs) && [] + AllLiterals(rs) == AllLiterals(rs);
    JoinedResponses(rs);
  }
}
