/**
 The line reader of the IMAP client: a chunked octet stream is cut into lines,
 `{N}` literals are pulled out of the lines while a command is running, and
 `JoinLiterals` puts them back inline (RFC 3501 section 4.3).
 */
module ImapStream {
  import opened Strings

  const MAX_LITERAL_BYTES: nat := 8 * 1024 * 1024

  // ------------------------------------------------------ literal suffixes

  /** First index of the maximal run of digits that ends just before `k`. */
  function DigitRun(s: string, k: nat): (j: nat)
    requires k <= |s|
    ensures j <= k && AllDigits(s[j..k])
    ensures j > 0 ==> !IsDigit(s[j - 1])
  {
    if k > 0 && IsDigit(s[k - 1]) then
      var j := DigitRun(s, k - 1);
      assert s[j..k] == s[j..k - 1] + [s[k - 1]];
      j
    else k
  }

  /** The size announced by a line that matches `\{(\d+)\}$`. */
  function LiteralSuffix(s: string): (r: Option<nat>) {
    if |s| < 3 || s[|s| - 1] != '}' then None
    else
      var j := DigitRun(s, |s| - 1);
      if 0 < j < |s| - 1 && s[j - 1] == '{' then Some(ParseDecimal(s[j..|s| - 1]))
      else None
  }

  function Announce(size: nat): (s: string) { "{" + Decimal(size) + "}" }

  /** A digit run is determined by where the digits stop. */
  lemma {:induction false} DigitRunIs(s: string, j: nat, k: nat)
    requires 0 < j <= k <= |s|
    requires AllDigits(s[j..k]) && !IsDigit(s[j - 1])
    ensures DigitRun(s, k) == j
    decreases k
  {
    if j < k {
      assert s[j..k][k - 1 - j] == s[k - 1];
      assert s[j..k - 1] == s[j..k][..k - 1 - j];
      DigitRunIs(s, j, k - 1);
    }
  }

  lemma SuffixOfAnnounce(text: string, size: nat)
    ensures LiteralSuffix(text + Announce(size)) == Some(size)
  {
    hide DigitRun, ParseDecimal, Decimal;
    var s := text + Announce(size);
    var j := |text| + 1;
    assert s[j - 1] == '{';
    assert s[j..|s| - 1] == Decimal(size);
    DigitRunIs(s, j, |s| - 1);
    DecimalRoundTrip(size);
  }

  /** A line announces a literal exactly when it ends with a brace, digits and a closing brace. */
  lemma AnnouncesExactly(s: string)
    ensures LiteralSuffix(s).Some? <==>
              exists i: nat :: i + 2 < |s| && s[i] == '{' && AllDigits(s[i + 1..|s| - 1]) && s[|s| - 1] == '}'
    ensures forall i: nat :: i + 2 < |s| && s[i] == '{' && AllDigits(s[i + 1..|s| - 1]) && s[|s| - 1] == '}' ==>
              LiteralSuffix(s) == Some(ParseDecimal(s[i + 1..|s| - 1]))
  {
    hide DigitRun, ParseDecimal;
    if LiteralSuffix(s).Some? {
      var j := DigitRun(s, |s| - 1);
      assert s[j - 1] == '{' && AllDigits(s[j - 1 + 1..|s| - 1]);
    }
    forall i: nat | i + 2 < |s| && s[i] == '{' && AllDigits(s[i + 1..|s| - 1]) && s[|s| - 1] == '}'
      ensures LiteralSuffix(s) == Some(ParseDecimal(s[i + 1..|s| - 1]))
    {
      DigitRunIs(s, i + 1, |s| - 1);
    }
  }

  /** Text that can follow a literal without being taken for part of an announcement begun inside it. */
  predicate SafeTail(tail: string) {
    |tail| > 0 && !IsDigit(tail[0]) && tail[0] != '}' && tail[0] != '\n'
  }

  lemma {:induction false} DigitRunShift(x: string, t: string, k: nat)
    requires |t| > 0 && !IsDigit(t[0]) && 0 < k <= |t|
    ensures DigitRun(x + t, |x| + k) == |x| + DigitRun(t, k)
  {
    assert (x + t)[|x| + k - 1] == t[k - 1];
    if k > 1 && IsDigit(t[k - 1]) { DigitRunShift(x, t, k - 1); }
  }

  /** Whatever stands before a safe tail, only the tail itself can announce a literal. */
  lemma SuffixOfTail(x: string, tail: string)
    requires SafeTail(tail)
    ensures LiteralSuffix(x + tail) == LiteralSuffix(tail)
  {
    hide DigitRun, ParseDecimal;
    var s := x + tail;
    assert s[|s| - 1] == tail[|tail| - 1];
    if |tail| > 1 {
      DigitRunShift(x, tail, |tail| - 1);
      var j := DigitRun(tail, |tail| - 1);
      assert s[|x| + j..|s| - 1] == tail[j..|tail| - 1];
      assert j > 0 ==> s[|x| + j - 1] == tail[j - 1];
      assert tail[0] == s[|x|];
    }
  }

  // ------------------------------------------------------ the command reader

  datatype LiteralRead =
    | Got(literal: string, tail: string, rest: seq<string>)
    | NoLiteral

  /** Lines put back together with their CRLFs until `size` octets are there. */
  function Collect(size: nat, lines: seq<string>, collected: string): (r: Option<(string, seq<string>)>)
    ensures r.Some? ==> |r.value.0| >= size && |r.value.1| <= |lines|
    ensures r.Some? && |collected| < size ==> |r.value.1| < |lines|
    decreases |lines|
  {
    if |collected| >= size then Some((collected, lines))
    else if lines == [] then None
    else Collect(size, lines[1..], collected + lines[0] + CRLF)
  }

  function DropFinalCrlf(s: string): (r: string) {
    if |s| >= 2 && s[|s| - 2..] == CRLF then s[..|s| - 2] else s
  }

  /** `readLiteral`: the next `size` octets, and the text that completes the line after them. */
  function ReadLiteral(size: nat, lines: seq<string>): (r: LiteralRead)
    ensures r.Got? ==> |r.rest| < |lines| && |r.literal| == size
  {
    match Collect(size, lines, "")
    case None => NoLiteral
    case Some((collected, rest)) =>
      var remainder := collected[size..];
      if remainder != "" then Got(collected[..size], DropFinalCrlf(remainder), rest)
      else if rest == [] then NoLiteral
      else Got(collected[..size], rest[0], rest[1..])
  }

  datatype Reply =
    | Completed(untagged: seq<string>, literals: seq<string>, rest: seq<string>)
    | Rejected | ProtocolError
    | Waiting  // the lines read so far do not end the command

  /** The inner loop of `command`: follow the literals announced at the end of `current`. */
  function FollowLiterals(current: string, lines: seq<string>, untagged: seq<string>, literals: seq<string>): (r: Reply)
    ensures r.Completed? ==> |r.rest| <= |lines|
    decreases |lines|
  {
    match LiteralSuffix(current)
    case None => Completed(untagged, literals, lines)
    case Some(size) =>
      if size > MAX_LITERAL_BYTES then ProtocolError
      else
        match ReadLiteral(size, lines)
        case NoLiteral => Waiting
        case Got(literal, tail, rest) => FollowLiterals(tail, rest, untagged + [tail], literals + [literal])
  }

  function Status(line: string): (r: string) {
    var i := IndexOf(line, " ");
    if i == -1 then line else line[..i]
  }

  /** `command`, after its command line was written: everything up to the tagged completion. */
  function RunCommand(tag: string, lines: seq<string>, untagged: seq<string>, literals: seq<string>): (r: Reply)
    decreases |lines|
  {
    if lines == [] then Waiting
    else if tag + " " <= lines[0] then
      var status := Status(lines[0][|tag| + 1..]);
      if status == "OK" then Completed(untagged, literals, lines[1..])
      else if status == "NO" then Rejected
      else ProtocolError
    else
      match FollowLiterals(lines[0], lines[1..], untagged + [lines[0]], literals)
      case Completed(u, l, rest) => RunCommand(tag, rest, u, l)
      case other => other
  }

  // ------------------------------------------------------ joining

  datatype Absorbed = Absorbed(text: string, lines: seq<string>, literals: seq<string>)

  function Absorb(current: string, lines: seq<string>, literals: seq<string>): (r: Absorbed)
    ensures |r.lines| <= |lines|
    decreases |lines|
  {
    if LiteralSuffix(current).Some? && lines != [] && literals != []
    then Absorb(current + CRLF + literals[0] + lines[0], lines[1..], literals[1..])
    else Absorbed(current, lines, literals)
  }

  function Joined(lines: seq<string>, literals: seq<string>): (r: seq<string>)
    decreases |lines|
  {
    if lines == [] then []
    else
      var a := Absorb(lines[0], lines[1..], literals);
      [a.text] + Joined(a.lines, a.literals)
  }

  lemma AbsorbStep(current: string, lines: seq<string>, literals: seq<string>, i: nat, next: nat)
    requires LiteralSuffix(current).Some? && i < |lines| && next < |literals|
    ensures Absorb(current, lines[i..], literals[next..])
            == Absorb(current + CRLF + literals[next] + lines[i], lines[i + 1..], literals[next + 1..])
  {
    assert lines[i..][1..] == lines[i + 1..] && literals[next..][1..] == literals[next + 1..];
  }

  lemma AbsorbStop(current: string, lines: seq<string>, literals: seq<string>, i: nat, next: nat)
    requires i <= |lines| && next <= |literals|
    requires !(LiteralSuffix(current).Some? && i < |lines| && next < |literals|)
    ensures Absorb(current, lines[i..], literals[next..]) == Absorbed(current, lines[i..], literals[next..])
  {
  }

  /** The inner loop of `joinLiterals`: append literals while the merged text announces one. */
  method AbsorbLiterals(lines: seq<string>, literals: seq<string>, from: nat, used: nat)
    returns (current: string, i: nat, next: nat)
    requires from < |lines| && used <= |literals|
    ensures from <= i < |lines| && next <= |literals|
    ensures Absorb(lines[from], lines[from + 1..], literals[used..])
            == Absorbed(current, lines[i + 1..], literals[next..])
  {
    hide Absorb, LiteralSuffix;
    current, i, next := lines[from], from, used;
    while LiteralSuffix(current).Some? && i + 1 < |lines| && next < |literals|
      invariant from <= i < |lines| && next <= |literals|
      invariant Absorb(lines[from], lines[from + 1..], literals[used..])
                == Absorb(current, lines[i + 1..], literals[next..])
      decreases |lines| - i
    {
      AbsorbStep(current, lines, literals, i + 1, next);
      i := i + 1;
      current := current + CRLF + literals[next] + lines[i];
      next := next + 1;
    }
    AbsorbStop(current, lines, literals, i + 1, next);
  }

  lemma JoinedNothing(literals: seq<string>)
    ensures Joined([], literals) == []
  {
  }

  lemma JoinedStep(lines: seq<string>, literals: seq<string>, i: nat, next: nat, a: Absorbed)
    requires i < |lines| && next <= |literals|
    requires a == Absorb(lines[i], lines[i + 1..], literals[next..])
    ensures Joined(lines[i..], literals[next..]) == [a.text] + Joined(a.lines, a.literals)
  {
    assert lines[i..][1..] == lines[i + 1..];
  }

  /** `joinLiterals`. */
  method JoinLiterals(lines: seq<string>, literals: seq<string>) returns (merged: seq<string>)
    ensures merged == Joined(lines, literals)
  {
    hide Joined, Absorb;
    merged := [];
    var next: nat := 0;
    var i: nat := 0;
    assert lines[0..] == lines && literals[0..] == literals;
    while i < |lines|
      invariant i <= |lines| && next <= |literals|
      invariant Joined(lines, literals) == merged + Joined(lines[i..], literals[next..])
    {
      var current, last, used := AbsorbLiterals(lines, literals, i, next);
      ghost var rest := Joined(lines[last + 1..], literals[used..]);
      JoinedStep(lines, literals, i, next, Absorbed(current, lines[last + 1..], literals[used..]));
      Assoc(merged, [current], rest);
      merged := merged + [current];
      i, next := last + 1, used;
    }
    assert lines[i..] == [] && literals[next..] == literals[next..];
    JoinedNothing(literals[next..]);
  }

  // ------------------------------------------------------ the reader object

  class Reader {
    var buffer: string
    var pendingLines: seq<string>
    var tagSequence: nat

    constructor ()
      ensures buffer == "" && pendingLines == [] && tagSequence == 0
    {
      buffer, pendingLines, tagSequence := "", [], 0;
    }

    method OnData(chunk: string)
      modifies this`buffer, this`pendingLines
      ensures Framed(pendingLines, buffer) == Receive(Framed(old(pendingLines), old(buffer)), chunk)
    {
      hide Unframe, IndexOf;
      buffer := buffer + chunk;
      ghost var all := Unframe(buffer);
      var index := IndexOf(buffer, CRLF);
      while index != -1
        invariant index == IndexOf(buffer, CRLF)
        invariant all.rest == Unframe(buffer).rest
        invariant old(pendingLines) + all.lines == pendingLines + Unframe(buffer).lines
        decreases |buffer|
      {
        UnframeAt(buffer, index);
        Assoc(pendingLines, [buffer[..index]], Unframe(buffer[index + 2..]).lines);
        var line := buffer[..index];
        buffer := buffer[index + 2..];
        pendingLines := pendingLines + [line];
        index := IndexOf(buffer, CRLF);
      }
      UnframeNone(buffer);
    }

    method NextTag() returns (tag: string)
      modifies this`tagSequence
      ensures tagSequence == old(tagSequence) + 1 && tag == Tag(tagSequence)
    {
      tagSequence := tagSequence + 1;
      tag := Tag(tagSequence);
    }

    /** `readLiteral`; `NoLiteral` when the lines received so far run out. */
    method TakeLiteral(size: nat) returns (r: LiteralRead)
      modifies this`pendingLines
      ensures r == ReadLiteral(size, old(pendingLines))
      ensures r.Got? ==> pendingLines == r.rest
    {
      var collected := "";
      while |collected| < size
        invariant Collect(size, old(pendingLines), "") == Collect(size, pendingLines, collected)
        decreases |pendingLines|
      {
        if pendingLines == [] { return NoLiteral; }
        collected := collected + pendingLines[0] + CRLF;
        pendingLines := pendingLines[1..];
      }
      var remainder := collected[size..];
      if remainder == "" {
        if pendingLines == [] { return NoLiteral; }
        r := Got(collected[..size], pendingLines[0], pendingLines[1..]);
        pendingLines := pendingLines[1..];
      } else {
        r := Got(collected[..size], DropFinalCrlf(remainder), pendingLines);
      }
    }

    /** `command`, reading the lines received so far; `Waiting` when they do not end it. */
    method Command() returns (tag: string, reply: Reply)
      modifies this`pendingLines, this`tagSequence
      ensures tagSequence == old(tagSequence) + 1 && tag == Tag(tagSequence)
      ensures reply == RunCommand(tag, old(pendingLines), [], [])
      ensures reply.Completed? ==> pendingLines == reply.rest
    {
      hide FollowLiterals, ReadLiteral, LiteralSuffix, Status, Tag;
      tag := NextTag();
      var untagged, literals := [], [];
      while pendingLines != []
        invariant tagSequence == old(tagSequence) + 1
        invariant RunCommand(tag, old(pendingLines), [], []) == RunCommand(tag, pendingLines, untagged, literals)
        decreases |pendingLines|
      {
        var line := pendingLines[0];
        pendingLines := pendingLines[1..];
        if tag + " " <= line {
          var status := Status(line[|tag| + 1..]);
          if status == "OK" { return tag, Completed(untagged, literals, pendingLines); }
          return tag, if status == "NO" then Rejected else ProtocolError;
        }
        untagged := untagged + [line];
        var current := line;
        ghost var followed := FollowLiterals(line, pendingLines, untagged, literals);
        ghost var atMost := |pendingLines|;
        while LiteralSuffix(current).Some?
          invariant tagSequence == old(tagSequence) + 1
          invariant FollowLiterals(current, pendingLines, untagged, literals) == followed
          invariant |pendingLines| <= atMost
          decreases |pendingLines|
        {
          var size := LiteralSuffix(current).value;
          FollowStep(current, pendingLines, untagged, literals);
          if size > MAX_LITERAL_BYTES { return tag, ProtocolError; }
          var read := TakeLiteral(size);
          if read.NoLiteral? { return tag, Waiting; }
          literals := literals + [read.literal];
          untagged := untagged + [read.tail];
          current := read.tail;
        }
        FollowDone(current, pendingLines, untagged, literals);
      }
      reply := Waiting;
    }
  }

  lemma FollowDone(current: string, lines: seq<string>, untagged: seq<string>, literals: seq<string>)
    requires LiteralSuffix(current).None?
    ensures FollowLiterals(current, lines, untagged, literals) == Completed(untagged, literals, lines)
  {
  }

  lemma FollowStep(current: string, lines: seq<string>, untagged: seq<string>, literals: seq<string>)
    requires LiteralSuffix(current).Some?
    ensures var size := LiteralSuffix(current).value;
            var read := ReadLiteral(size, lines);
            && (read.Got? ==> |read.rest| < |lines|)
            && FollowLiterals(current, lines, untagged, literals)
               == if size > MAX_LITERAL_BYTES then ProtocolError
                  else if read.NoLiteral? then Waiting
                  else FollowLiterals(read.tail, read.rest, untagged + [read.tail], literals + [read.literal])
  {
  }

  /** `A` and the sequence number, padded with zeros to four digits. */
  function Tag(n: nat): (tag: string) { "A" + PadStart(Decimal(n), 4) }

  /** No two commands of a connection share a tag. */
  lemma TagsDiffer(m: nat, n: nat)
    requires Tag(m) == Tag(n)
    ensures m == n
  {
    DecimalRoundTrip(m);
    DecimalRoundTrip(n);
    assert Tag(m)[1..] == PadStart(Decimal(m), 4) && Tag(n)[1..] == PadStart(Decimal(n), 4);
  }

  // ------------------------------------------------------ chunking

  /** What `OnData` does to the queued lines and the buffer. */
  function Receive(f: Framed, chunk: string): (r: Framed) {
    var u := Unframe(f.rest + chunk);
    Framed(f.lines + u.lines, u.rest)
  }

  function ReceiveAll(f: Framed, chunks: seq<string>): (r: Framed)
    decreases |chunks|
  {
    if chunks == [] then f else ReceiveAll(Receive(f, chunks[0]), chunks[1..])
  }

  /** The unfinished text holds no further line. */
  lemma {:induction false} UnframeRest(s: string)
    ensures Unframe(Unframe(s).rest) == Framed([], Unframe(s).rest)
    decreases |s|
  {
    var i := IndexOf(s, CRLF);
    if i != -1 { UnframeRest(s[i + 2..]); }
  }

  lemma ReceiveTwice(f: Framed, a: string, b: string)
    ensures Receive(Receive(f, a), b) == Receive(f, a + b)
  {
    hide Unframe;
    assert f.rest + (a + b) == (f.rest + a) + b;
    UnframeSplit(f.rest + a, b);
    Assoc(f.lines, Unframe(f.rest + a).lines, Unframe(Unframe(f.rest + a).rest + b).lines);
  }

  /** However the stream is cut into chunks, the reader ends with the lines of the whole stream. */
  lemma {:induction false} ChunkingIrrelevant(f: Framed, chunks: seq<string>)
    requires Unframe(f.rest) == Framed([], f.rest)
    ensures ReceiveAll(f, chunks) == Receive(f, Concat(chunks))
    decreases |chunks|
  {
    if chunks == [] {
      assert f.rest + "" == f.rest;
    } else {
      UnframeRest(f.rest + chunks[0]);
      ChunkingIrrelevant(Receive(f, chunks[0]), chunks[1..]);
      ReceiveTwice(f, chunks[0], Concat(chunks[1..]));
    }
  }
}
