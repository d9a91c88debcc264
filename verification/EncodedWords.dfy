/**
 RFC 2047 encoded words in header values, and the quoted-printable decoder.
 The charset decoder is the identity on octets.
 */
module EncodedWords {
  import opened Strings
  import opened MimeText
  import opened Base64

  // ------------------------------------------------------ quoted-printable

  function HexValue(c: char): (v: Option<nat>)
    ensures v.Some? ==> v.value < 16
  {
    if '0' <= c <= '9' then Some(c as int - '0' as int)
    else if 'A' <= c <= 'F' then Some(c as int - 'A' as int + 10)
    else if 'a' <= c <= 'f' then Some(c as int - 'a' as int + 10)
    else None
  }

  predicate EscapeAt(s: string, i: nat) {
    i + 3 <= |s| && s[i] == '=' && HexValue(s[i + 1]).Some? && HexValue(s[i + 2]).Some?
  }

  /** What is left to decode from index `i` on. */
  function Unquote(s: string, i: nat): (r: string)
    ensures i <= |s| ==> |r| <= |s| - i
    decreases |s| - i
  {
    if i >= |s| then ""
    else if EscapeAt(s, i) then [(16 * HexValue(s[i + 1]).value + HexValue(s[i + 2]).value) as char] + Unquote(s, i + 3)
    else [s[i]] + Unquote(s, i + 1)
  }

  function Underscores(s: string): (r: string)
    ensures |r| == |s|
  {
    seq(|s|, i requires 0 <= i < |s| => if s[i] == '_' then ' ' else s[i])
  }

  /** `replace(/=\r\n/g, '')`: soft line breaks. */
  function JoinSoft(s: string): (r: string)
    decreases |s|
  {
    if s == "" then "" else if |s| >= 3 && s[..3] == "=\r\n" then JoinSoft(s[3..]) else [s[0]] + JoinSoft(s[1..])
  }

  method DecodeQuotedPrintable(value: string, forHeader: bool) returns (bytes: string)
    ensures bytes == Unquote(if forHeader then Underscores(value) else JoinSoft(value), 0)
  {
    hide Unquote, EscapeAt, HexValue, JoinSoft;
    var source := if forHeader then Underscores(value) else JoinSoft(value);
    bytes := "";
    var index := 0;
    assert "" + Unquote(source, 0) == Unquote(source, 0);
    while index < |source|
      invariant 0 <= index <= |source|
      invariant bytes + Unquote(source, index) == Unquote(source, 0)
    {
      UnquoteStep(source, index);
      ghost var before := bytes;
      if EscapeAt(source, index) {
        bytes := bytes + [(16 * HexValue(source[index + 1]).value + HexValue(source[index + 2]).value) as char];
        Assoc(before, bytes[|before|..], Unquote(source, index + 3));
        index := index + 2;
      } else {
        bytes := bytes + [source[index]];
        Assoc(before, bytes[|before|..], Unquote(source, index + 1));
      }
      index := index + 1;
    }
    UnquoteEnd(source);
  }

  lemma UnquoteStep(s: string, i: nat)
    requires i < |s|
    ensures EscapeAt(s, i) ==> i + 3 <= |s| && HexValue(s[i + 1]).Some? && HexValue(s[i + 2]).Some?
    ensures EscapeAt(s, i) ==>
              Unquote(s, i) == [(16 * HexValue(s[i + 1]).value + HexValue(s[i + 2]).value) as char] + Unquote(s, i + 3)
    ensures !EscapeAt(s, i) ==> Unquote(s, i) == [s[i]] + Unquote(s, i + 1)
  {
  }

  lemma UnquoteEnd(s: string)
    ensures Unquote(s, |s|) == ""
  {
  }

  // ------------------------------------------------------ encoded words

  predicate WordChar(c: char) { c != '?' && !IsSpace(c) }

  /** The end of the run of word characters that begins at `i`. */
  function RunEnd(s: string, i: nat): (e: nat)
    requires i <= |s|
    ensures i <= e <= |s| && (e < |s| ==> !WordChar(s[e])) && forall k :: i <= k < e ==> WordChar(s[k])
    decreases |s| - i
  {
    if i < |s| && WordChar(s[i]) then RunEnd(s, i + 1) else i
  }

  lemma {:induction false} RunEndIs(s: string, i: nat, e: nat)
    requires i <= e < |s| && !WordChar(s[e]) && forall k :: i <= k < e ==> WordChar(s[k])
    ensures RunEnd(s, i) == e
    decreases e - i
  {
    if i < e { RunEndIs(s, i + 1, e); }
  }

  datatype Word = Word(end: nat, encoding: char, text: string)

  predicate IsEncoding(c: char) { c == 'B' || c == 'b' || c == 'Q' || c == 'q' }

  /** The encoded word that begins at `i`, if there is one. */
  function WordAt(s: string, i: nat): (w: Option<Word>)
    ensures w.Some? ==> i + 8 + |w.value.text| <= w.value.end <= |s|
  {
    if !At(s, "=?", i) then None
    else
      var e := RunEnd(s, i + 2);
      if e == i + 2 || e + 3 > |s| || s[e] != '?' || !IsEncoding(s[e + 1]) || s[e + 2] != '?' then None
      else
        var f := RunEnd(s, e + 3);
        if At(s, "?=", f) then Some(Word(f + 2, s[e + 1], s[e + 3..f])) else None
  }

  function Meaning(w: Word): (r: string)
    ensures |r| <= |w.text|
  {
    DigitsShorter(w.text);
    if w.encoding == 'B' || w.encoding == 'b' then Decode(w.text) else Unquote(Underscores(w.text), 0)
  }

  /** Every encoded word from `i` on replaced by its meaning. */
  function Replaced(s: string, i: nat): (r: string)
    decreases |s| - i
  {
    if i >= |s| then ""
    else match WordAt(s, i)
      case Some(w) => Meaning(w) + Replaced(s, w.end)
      case None => [s[i]] + Replaced(s, i + 1)
  }

  function SpaceEnd(s: string, i: nat): (e: nat)
    ensures i <= e && (i <= |s| ==> e <= |s|)
    decreases |s| - i
  {
    if i < |s| && IsSpace(s[i]) then SpaceEnd(s, i + 1) else i
  }

  /** White space between two adjacent encoded words, from the end of the first to the beginning of the second. */
  predicate GapAt(s: string, i: nat) {
    At(s, "?=", i) && SpaceEnd(s, i + 2) > i + 2 && At(s, "=?", SpaceEnd(s, i + 2))
  }

  function Joined(s: string, i: nat): (r: string)
    decreases |s| - i
  {
    if i >= |s| then ""
    else if GapAt(s, i) then "?==?" + Joined(s, SpaceEnd(s, i + 2) + 2)
    else [s[i]] + Joined(s, i + 1)
  }

  function DecodeWords(s: string): (r: string) { Replaced(Joined(s, 0), 0) }

  // ------------------------------------------------------ when decoding changes nothing

  ghost predicate HasGap(s: string, i: nat) { exists k: nat :: i <= k < |s| && GapAt(s, k) }

  ghost predicate HasWord(s: string, i: nat) { exists k: nat :: i <= k < |s| && WordAt(s, k).Some? }

  lemma {:induction false} JoinedShorter(s: string, i: nat)
    requires i <= |s|
    ensures |Joined(s, i)| <= |s| - i
    ensures |Joined(s, i)| == |s| - i <==> !HasGap(s, i)
    ensures !HasGap(s, i) ==> Joined(s, i) == s[i..]
    decreases |s| - i
  {
    hide GapAt, SpaceEnd;
    if i < |s| {
      if GapAt(s, i) {
        GapBounds(s, i);
        JoinedShorter(s, SpaceEnd(s, i + 2) + 2);
      } else {
        JoinedShorter(s, i + 1);
        assert s[i..] == [s[i]] + s[i + 1..];
        if HasGap(s, i) {
          var k: nat :| i <= k < |s| && GapAt(s, k);
          assert HasGap(s, i + 1);
        }
      }
    }
  }

  lemma GapBounds(s: string, i: nat)
    requires GapAt(s, i)
    ensures i + 3 <= SpaceEnd(s, i + 2) && SpaceEnd(s, i + 2) + 2 <= |s|
  {
  }

  lemma {:induction false} ReplacedShorter(s: string, i: nat)
    requires i <= |s|
    ensures |Replaced(s, i)| <= |s| - i
    ensures |Replaced(s, i)| == |s| - i <==> !HasWord(s, i)
    ensures !HasWord(s, i) ==> Replaced(s, i) == s[i..]
    decreases |s| - i
  {
    hide WordAt, Meaning;
    if i < |s| {
      match WordAt(s, i) {
        case Some(w) => ReplacedShorter(s, w.end);
        case None =>
          ReplacedShorter(s, i + 1);
          assert s[i..] == [s[i]] + s[i + 1..];
          if HasWord(s, i) {
            var k: nat :| i <= k < |s| && WordAt(s, k).Some?;
            assert HasWord(s, i + 1);
          }
      }
    }
  }

  /** A value survives decoding if and only if it holds no encoded word and no gap between two. */
  lemma DecodesToItselfExactly(s: string)
    ensures DecodeWords(s) == s <==> !HasGap(s, 0) && !HasWord(s, 0)
  {
    hide Joined, Replaced, HasGap, HasWord;
    JoinedShorter(s, 0);
    assert s[0..] == s;
    ReplacedShorter(Joined(s, 0), 0);
  }

  /** In particular when `=?` does not occur in it. */
  lemma NoMarkNoWord(s: string)
    requires forall k :: !At(s, "=?", k)
    ensures !HasGap(s, 0) && !HasWord(s, 0)
  {
    hide RunEnd;
    forall k: nat ensures !GapAt(s, k) && WordAt(s, k).None? {
      assert !At(s, "=?", SpaceEnd(s, k + 2)) && !At(s, "=?", k);
    }
  }

  // ------------------------------------------------------ what the composer writes

  function EncodedWord(octets: string): (r: string)
    requires IsOctets(octets)
  {
    "=?UTF-8?B?" + Encode(octets) + "?="
  }

  lemma Base64Words(s: string)
    requires IsBase64(s)
    ensures forall i :: 0 <= i < |s| ==> WordChar(s[i])
  {
    forall i | 0 <= i < |s| ensures WordChar(s[i]) {
      assert IsBase64Char(s[i]);
    }
  }

  lemma WordOfEncoded(b64: string)
    requires IsBase64(b64)
    ensures var s := "=?UTF-8?B?" + b64 + "?="; WordAt(s, 0) == Some(Word(|s|, 'B', b64))
  {
    hide RunEnd, IsBase64;
    var s := "=?UTF-8?B?" + b64 + "?=";
    Base64Words(b64);
    assert s[..2] == "=?" && s[0..2] == "=?";
    assert s[2] == 'U' && s[3] == 'T' && s[4] == 'F' && s[5] == '-' && s[6] == '8' && s[7] == '?' && s[8] == 'B';
    assert s[9] == '?';
    RunEndIs(s, 2, 7);
    var f := 10 + |b64|;
    forall k | 10 <= k < f ensures WordChar(s[k]) {
      assert s[k] == b64[k - 10];
    }
    assert s[f] == '?';
    RunEndIs(s, 10, f);
    assert s[f..f + 2] == "?=" && s[10..f] == b64;
  }

  lemma NoSpaceNoGap(s: string)
    requires NoSpaces(s)
    ensures !HasGap(s, 0)
  {
    forall k: nat ensures !GapAt(s, k) {
    }
  }

  /** Decoding gives back every octet string that was encoded as one word. */
  lemma DecodeEncodedWord(octets: string)
    requires IsOctets(octets)
    ensures DecodeWords(EncodedWord(octets)) == octets
  {
    hide Encode, Joined, Replaced, WordAt, HasGap;
    var b64 := Encode(octets);
    var s := EncodedWord(octets);
    Base64Words(b64);
    assert NoSpaces(s) by {
      forall i | 0 <= i < |s| ensures !IsSpace(s[i]) {
        if 10 <= i < 10 + |b64| { assert s[i] == b64[i - 10] && WordChar(b64[i - 10]); }
      }
    }
    NoSpaceNoGap(s);
    JoinedShorter(s, 0);
    assert s[0..] == s;
    WordOfEncoded(b64);
    OneWord(s, Word(|s|, 'B', b64));
    DecodeEncode(octets);
  }

  lemma OneWord(s: string, w: Word)
    requires s != "" && WordAt(s, 0) == Some(w) && w.end == |s|
    ensures Replaced(s, 0) == Meaning(w)
  {
    hide WordAt, Meaning;
    assert Replaced(s, |s|) == "";
    assert Meaning(w) + "" == Meaning(w);
  }
}
