/**
 Line endings and folded headers: however a message ends its lines and folds its
 header fields, it is read as the same message.
 */
module Folding {
  import opened Strings
  import opened MimeText
  import opened MessageParser

  // ------------------------------------------------------ line endings

  /** Lines joined by the line endings that the writer happened to use. */
  function Broken(lines: seq<string>, ends: seq<string>): (s: string)
    requires |lines| == |ends| + 1
  {
    if ends == [] then lines[0] else lines[0] + (ends[0] + Broken(lines[1..], ends[1..]))
  }

  /** A lone CR must not come to stand before a lone LF. */
  predicate LegalEnds(lines: seq<string>, ends: seq<string>)
    requires |lines| == |ends| + 1
  {
    && AllNoBreaks(lines)
    && (forall i :: 0 <= i < |ends| ==> ends[i] == "\r\n" || ends[i] == "\n" || ends[i] == "\r")
    && forall i :: 0 <= i < |ends| - 1 ==> !(ends[i] == "\r" && lines[i + 1] == "" && ends[i + 1] == "\n")
  }

  lemma NormalizeEnd(end: string, rest: string)
    requires end == "\r\n" || end == "\n" || (end == "\r" && (rest == "" || rest[0] != '\n'))
    ensures Normalize(end + rest) == CRLF + Normalize(rest)
  {
    var s := end + rest;
    if end == "\r\n" {
      NormalizeBreak(rest);
    } else {
      assert s[1..] == rest;
      assert |s| > 1 ==> s[1] == rest[0];
    }
  }

  /** CR, LF and CRLF all become CRLF, and nothing else changes. */
  lemma {:induction false} EndsNormalize(lines: seq<string>, ends: seq<string>)
    requires |lines| == |ends| + 1 && LegalEnds(lines, ends)
    ensures Normalize(Broken(lines, ends)) == JoinLines(lines)
    decreases |lines|
  {
    hide Normalize, NoBreaks;
    assert NoBreaks(lines[0]);
    if ends == [] {
      NormalizePlain(lines[0], "");
      assert lines[0] + "" == lines[0] && Normalize("") == "" by { NormalizeNothing(); }
    } else {
      var rest := Broken(lines[1..], ends[1..]);
      StartsWithLine(lines[1..], ends[1..]);
      EndsNormalize(lines[1..], ends[1..]);
      NormalizePlain(lines[0], ends[0] + rest);
      NormalizeEnd(ends[0], rest);
      Assoc(lines[0], CRLF, JoinLines(lines[1..]));
    }
  }

  lemma NormalizeNothing()
    ensures Normalize("") == ""
  {
  }

  lemma StartsWithLine(lines: seq<string>, ends: seq<string>)
    requires |lines| == |ends| + 1 && LegalEnds(lines, ends)
    ensures var s := Broken(lines, ends);
            s != "" && s[0] == '\n' ==> lines[0] == "" && ends != [] && ends[0] == "\n"
  {
    hide Broken;
    var s := Broken(lines, ends);
    assert s == if ends == [] then lines[0] else lines[0] + (ends[0] + Broken(lines[1..], ends[1..])) by {
      BrokenIs(lines, ends);
    }
    if lines[0] != "" {
      assert s[0] == lines[0][0];
      assert NoBreaks(lines[0]) && lines[0][0] in lines[0];
    } else if ends != [] {
      assert s[0] == ends[0][0];
    }
  }

  lemma BrokenIs(lines: seq<string>, ends: seq<string>)
    requires |lines| == |ends| + 1
    ensures Broken(lines, ends)
            == if ends == [] then lines[0] else lines[0] + (ends[0] + Broken(lines[1..], ends[1..]))
  {
  }

  /** A message is read the same whatever its line endings. */
  lemma LineEndingsDoNotMatter(lines: seq<string>, ends: seq<string>)
    requires |lines| == |ends| + 1 && LegalEnds(lines, ends)
    ensures SplitPart(Broken(lines, ends)) == SplitPart(JoinLines(lines))
  {
    hide Normalize, HeaderMap, Unfold, IndexOf;
    EndsNormalize(lines, ends);
    NormalizeLines(lines);
  }

  // ------------------------------------------------------ folded fields

  /** One piece of a field and the white space before it; the first has none. */
  datatype Piece = Piece(gap: string, text: string)

  predicate LegalGap(gap: string) { gap != "" && forall i :: 0 <= i < |gap| ==> gap[i] == ' ' || gap[i] == '\t' }

  predicate LegalPieces(ps: seq<Piece>) {
    forall i :: 0 <= i < |ps| ==>
      && LegalGap(ps[i].gap) && NoBreaks(ps[i].text)
      && (ps[i].text != "" ==> ps[i].text[0] != ' ' && ps[i].text[0] != '\t')
  }

  /** A field: its first line, and the lines it is continued on. */
  datatype Folded = Folded(first: string, more: seq<Piece>)

  predicate LegalField(f: Folded) { HeaderLine(f.first) && LegalPieces(f.more) }

  function PrintMore(ps: seq<Piece>): (s: string) {
    if ps == [] then "" else CRLF + (ps[0].gap + (ps[0].text + PrintMore(ps[1..])))
  }

  function PrintField(f: Folded): (s: string) { f.first + PrintMore(f.more) }

  /** The field on one line: every fold is one space. */
  function FlatMore(ps: seq<Piece>): (s: string) { if ps == [] then "" else " " + (ps[0].text + FlatMore(ps[1..])) }

  function Flat(f: Folded): (s: string) { f.first + FlatMore(f.more) }

  lemma {:induction false} SkipsGap(gap: string, rest: string)
    requires (forall i :: 0 <= i < |gap| ==> gap[i] == ' ' || gap[i] == '\t')
    requires rest == "" || !Blank(rest[0])
    ensures SkipBlanks(gap + rest) == rest
    decreases |gap|
  {
    if gap == "" {
      assert gap + rest == rest;
    } else {
      assert (gap + rest)[1..] == gap[1..] + rest;
      SkipsGap(gap[1..], rest);
    }
  }

  lemma UnfoldGap(gap: string, rest: string)
    requires LegalGap(gap) && (rest == "" || !Blank(rest[0]))
    ensures Unfold(CRLF + (gap + rest)) == " " + Unfold(rest)
  {
    var s := CRLF + (gap + rest);
    assert s[..2] == CRLF && s[2] == gap[0] && s[3..] == gap[1..] + rest;
    SkipsGap(gap[1..], rest);
  }

  /** What follows a field: nothing, or a line break and something that is no white space. */
  predicate Ends(rest: string) { rest == "" || (|rest| > 2 && rest[..2] == CRLF && !Blank(rest[2])) }

  lemma {:induction false} UnfoldMore(ps: seq<Piece>, rest: string)
    requires LegalPieces(ps) && Ends(rest)
    ensures Unfold(PrintMore(ps) + rest) == FlatMore(ps) + Unfold(rest)
    decreases |ps|
  {
    hide Unfold, LegalGap, NoBreaks;
    if ps == [] {
      assert PrintMore(ps) + rest == rest && FlatMore(ps) + Unfold(rest) == Unfold(rest);
    } else {
      var next := PrintMore(ps[1..]) + rest;
      var tail := ps[0].text + next;
      Unprinted(ps[0], PrintMore(ps[1..]), rest);
      assert tail == "" || !Blank(tail[0]) by { TailStarts(ps[0].text, ps[1..], rest); }
      UnfoldGap(ps[0].gap, tail);
      UnfoldPlain(ps[0].text, next);
      UnfoldMore(ps[1..], rest);
      Assoc(ps[0].text, FlatMore(ps[1..]), Unfold(rest));
      Assoc(" ", ps[0].text + FlatMore(ps[1..]), Unfold(rest));
    }
  }

  lemma Unprinted(p: Piece, more: string, rest: string)
    ensures CRLF + (p.gap + (p.text + more)) + rest == CRLF + (p.gap + (p.text + (more + rest)))
  {
  }

  lemma TailStarts(text: string, ps: seq<Piece>, rest: string)
    requires text != "" ==> !Blank(text[0])
    requires Ends(rest)
    ensures var tail := text + (PrintMore(ps) + rest); tail == "" || !Blank(tail[0])
  {
    var tail := text + (PrintMore(ps) + rest);
    if text != "" {
      assert tail[0] == text[0];
    } else if ps != [] {
      assert tail[0] == '\r';
    } else {
      assert tail == rest;
      if rest != "" { assert rest[0] == rest[..2][0]; }
    }
  }

  function PrintAll(fs: seq<Folded>): (lines: seq<string>) {
    seq(|fs|, i requires 0 <= i < |fs| => PrintField(fs[i]))
  }

  function FlatAll(fs: seq<Folded>): (lines: seq<string>) { seq(|fs|, i requires 0 <= i < |fs| => Flat(fs[i])) }

  lemma FieldStarts(fs: seq<Folded>)
    requires fs != [] && forall i :: 0 <= i < |fs| ==> LegalField(fs[i])
    ensures var s := JoinLines(PrintAll(fs)); s != "" && !Blank(s[0]) && s[0] != '\r'
  {
    var s := JoinLines(PrintAll(fs));
    assert LegalField(fs[0]);
    assert s[0] == PrintAll(fs)[0][0] == fs[0].first[0];
    assert fs[0].first[0] in fs[0].first;
  }

  /** Unfolding a header block puts every field on one line, and touches no field that is not folded. */
  lemma {:induction false} FieldsUnfold(fs: seq<Folded>)
    requires fs != [] && forall i :: 0 <= i < |fs| ==> LegalField(fs[i])
    ensures Unfold(JoinLines(PrintAll(fs))) == JoinLines(FlatAll(fs))
    decreases |fs|
  {
    hide Unfold, LegalPieces, HeaderLine, PrintMore, FlatMore;
    assert LegalField(fs[0]);
    assert NoBreaks(fs[0].first) by { FirstHasNoBreaks(fs[0]); }
    if |fs| == 1 {
      UnfoldPlain(fs[0].first, PrintMore(fs[0].more));
      EmptyEnds();
      UnfoldMore(fs[0].more, "");
      assert PrintMore(fs[0].more) + "" == PrintMore(fs[0].more);
      assert FlatMore(fs[0].more) + "" == FlatMore(fs[0].more);
    } else {
      var tail := JoinLines(PrintAll(fs[1..]));
      assert PrintAll(fs)[1..] == PrintAll(fs[1..]) && FlatAll(fs)[1..] == FlatAll(fs[1..]);
      FieldStarts(fs[1..]);
      FieldsUnfold(fs[1..]);
      OneField(fs[0], tail);
      assert JoinLines(PrintAll(fs)) == PrintField(fs[0]) + CRLF + tail;
      assert JoinLines(FlatAll(fs)) == Flat(fs[0]) + CRLF + JoinLines(FlatAll(fs[1..]));
    }
  }

  lemma FirstHasNoBreaks(f: Folded)
    requires LegalField(f)
    ensures NoBreaks(f.first)
  {
  }

  lemma EmptyEnds()
    ensures Ends("") && Unfold("") == ""
  {
  }

  lemma OneField(f: Folded, tail: string)
    requires LegalField(f) && tail != "" && !Blank(tail[0]) && tail[0] != '\r'
    ensures Unfold(PrintField(f) + CRLF + tail) == Flat(f) + CRLF + Unfold(tail)
  {
    hide Unfold, LegalPieces, PrintMore, FlatMore;
    var rest := CRLF + tail;
    assert Ends(rest) by { assert rest[..2] == CRLF && rest[2] == tail[0]; }
    assert PrintField(f) + CRLF + tail == f.first + (PrintMore(f.more) + rest);
    UnfoldPlain(f.first, PrintMore(f.more) + rest);
    UnfoldMore(f.more, rest);
    UnfoldBreak(tail);
    assert Flat(f) + CRLF + Unfold(tail) == f.first + (FlatMore(f.more) + (CRLF + Unfold(tail)));
  }

  lemma {:induction false} FlatHasNoBreaks(ps: seq<Piece>)
    requires LegalPieces(ps)
    ensures NoBreaks(FlatMore(ps))
    decreases |ps|
  {
    if ps != [] {
      FlatHasNoBreaks(ps[1..]);
      forall c | c in FlatMore(ps) ensures c != '\r' && c != '\n' {
        assert c == ' ' || c in ps[0].text || c in FlatMore(ps[1..]);
      }
    }
  }

  lemma FieldsHaveNoCrlf(fs: seq<Folded>)
    requires forall i :: 0 <= i < |fs| ==> LegalField(fs[i])
    ensures NoCrlfs(FlatAll(fs))
  {
    hide LegalPieces, HasCrlf;
    forall i | 0 <= i < |fs| ensures !HasCrlf(FlatAll(fs)[i]) {
      assert LegalField(fs[i]);
      FlatHasNoBreaks(fs[i].more);
      assert NoBreaks(Flat(fs[i]));
      NoBreaksNoCrlf(Flat(fs[i]));
    }
  }

  /** The header fields of a message, folded or not, are those of its fields on one line each. */
  lemma FoldingDoesNotMatter(fs: seq<Folded>)
    requires fs != [] && forall i :: 0 <= i < |fs| ==> LegalField(fs[i])
    ensures SplitLines(Unfold(JoinLines(PrintAll(fs)))) == FlatAll(fs)
  {
    hide Unfold, JoinLines, SplitLines, NoCrlfs, PrintAll, LegalField;
    FieldsUnfold(fs);
    FieldsHaveNoCrlf(fs);
    SplitJoin(FlatAll(fs));
  }
}
