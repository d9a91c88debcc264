/**
 Secrets and recovery codes as people type them: in either case, and grouped with
 spaces and dashes wherever they like.
 */
module TypedCodes {
  import opened Strings
  import opened Base32
  import opened BitGroups
  import opened Secrets

  /** How one character is typed: what fills the space before it, and its case. */
  datatype Keystroke = Keystroke(before: string, lower: bool)

  function Typed(text: string, keys: seq<Keystroke>, end: string): (s: string)
    requires |text| == |keys|
  {
    if text == "" then end
    else keys[0].before + ([if keys[0].lower then LowerOf(text[0]) else text[0]] + Typed(text[1..], keys[1..], end))
  }

  function LowerOf(c: char): (r: char) { if 'A' <= c <= 'Z' then (c as int + 32) as char else c }

  /** All of it goes when the text is cleaned. */
  predicate Drops(s: string, drop: set<char>) { forall i :: 0 <= i < |s| ==> s[i] in drop }

  lemma {:induction false} DroppedIsNothing(s: string, drop: set<char>)
    requires Drops(s, drop)
    ensures Without(s, drop) == ""
  {
    if s != "" { DroppedIsNothing(s[1..], drop); }
  }

  lemma UpperOfTyped(c: char, lower: bool)
    requires PlainUpper(c)
    ensures UpperText([if lower then LowerOf(c) else c]) == [c]
  {
  }

  lemma OneKept(c: char, drop: set<char>)
    requires c !in drop
    ensures Without([c], drop) == [c]
  {
    assert [c][1..] == "";
  }

  lemma {:induction false} UpperAppend(a: string, b: string)
    ensures UpperText(a + b) == UpperText(a) + UpperText(b)
    decreases |a|
  {
    hide UpperOf;
    if a == "" {
      assert a + b == b;
    } else {
      assert (a + b)[1..] == a[1..] + b;
      UpperAppend(a[1..], b);
    }
  }

  /** Cleaning what was typed gives the text. */
  lemma {:induction false} TypedCleans(text: string, keys: seq<Keystroke>, end: string, drop: set<char>)
    requires |text| == |keys| && Drops(end, drop) && forall i :: 0 <= i < |keys| ==> Drops(keys[i].before, drop)
    requires forall i :: 0 <= i < |text| ==> PlainUpper(text[i]) && text[i] !in drop && LowerOf(text[i]) !in drop
    ensures UpperText(Without(Typed(text, keys, end), drop)) == text
    decreases |text|
  {
    hide Without, UpperText, PlainUpper, LowerOf, Drops;
    if text == "" {
      DroppedIsNothing(end, drop);
      assert UpperText("") == "" by { UpperNothing(); }
    } else {
      var c := if keys[0].lower then LowerOf(text[0]) else text[0];
      var rest := Typed(text[1..], keys[1..], end);
      WithoutSplits(keys[0].before, [c] + rest, drop);
      WithoutSplits([c], rest, drop);
      DroppedIsNothing(keys[0].before, drop);
      OneKept(c, drop);
      assert "" + ([c] + Without(rest, drop)) == [c] + Without(rest, drop);
      UpperAppend([c], Without(rest, drop));
      UpperOfTyped(text[0], keys[0].lower);
      TypedCleans(text[1..], keys[1..], end, drop);
      assert text == [text[0]] + text[1..];
    }
  }

  lemma UpperNothing()
    ensures UpperText("") == ""
  {
  }

  lemma {:induction false} TypedLonger(text: string, keys: seq<Keystroke>, end: string)
    requires |text| == |keys|
    ensures |text| <= |Typed(text, keys, end)|
    decreases |text|
  {
    hide LowerOf;
    if text != "" { TypedLonger(text[1..], keys[1..], end); }
  }

  /** Spaces, dashes and equals signs. */
  predicate Grouping(s: string) { forall i :: 0 <= i < |s| ==> s[i] == ' ' || s[i] == '-' || s[i] == '=' }

  lemma PlainIsKept(c: char)
    requires PlainUpper(c)
    ensures c !in SECRET_FILLER && LowerOf(c) !in SECRET_FILLER
    ensures c !in CODE_FILLER && LowerOf(c) !in CODE_FILLER
  {
  }

  lemma EncodedIsPlain(bytes: seq<byte>)
    requires |bytes| > 0
    ensures Spelled(BASE32_ALPHABET, Encoded(bytes))
    ensures forall i :: 0 <= i < |Encoded(bytes)| ==> PlainUpper(Encoded(bytes)[i])
  {
    hide PlainUpper, Encoding;
    Eight();
    Base32IsPlain();
    assert forall i :: 0 <= i < |Encoded(bytes)| ==> Encoded(bytes)[i] in BASE32_ALPHABET;
  }

  lemma SameCanonical(a: string, b: string)
    requires Canonical(a) == Canonical(b) && 16 <= |a| <= 128 && 16 <= |b| <= 128
    ensures Decoded(a) == Decoded(b)
  {
    hide Canonical, Unspell, Decoding, Spelled;
  }

  lemma DecodedLength(a: string)
    requires Decoded(a).Key?
    ensures 16 <= |a| <= 128
  {
    hide Canonical, Unspell, Decoding, Spelled;
  }

  /** A key of 10 to 64 octets is read back however its text is typed, within 128 characters. */
  lemma TypedSecretReads(bytes: seq<byte>, keys: seq<Keystroke>, end: string)
    requires 10 <= |bytes| <= 64 && |keys| == |Encoded(bytes)| && Grouping(end)
    requires forall i :: 0 <= i < |keys| ==> Grouping(keys[i].before)
    requires |Typed(Encoded(bytes), keys, end)| <= 128
    ensures Decoded(Typed(Encoded(bytes), keys, end)) == Key(bytes)
  {
    hide Encoded, Typed, UpperText, Without, Decoded, Spelled, PlainUpper, LowerOf, Grouping, Drops;
    var text := Encoded(bytes);
    SecretRoundTrip(bytes);
    DecodedLength(text);
    EncodedIsPlain(bytes);
    forall i | 0 <= i < |text| ensures text[i] !in SECRET_FILLER && LowerOf(text[i]) !in SECRET_FILLER {
      PlainIsKept(text[i]);
    }
    GroupingDrops(end);
    forall i | 0 <= i < |keys| ensures Drops(keys[i].before, SECRET_FILLER) {
      GroupingDrops(keys[i].before);
    }
    TypedCleans(text, keys, end, SECRET_FILLER);
    PlainTextUnchanged(text, SECRET_FILLER);
    TypedLonger(text, keys, end);
    SameCanonical(Typed(text, keys, end), text);
  }

  /** White space and dashes. */
  predicate CodeGrouping(s: string) {
    forall i :: 0 <= i < |s| ==> s[i] == ' ' || s[i] == '-' || s[i] == '\t' || s[i] == '\n' || s[i] == '\r'
  }

  lemma GroupingDrops(s: string)
    ensures Grouping(s) ==> Drops(s, SECRET_FILLER)
    ensures CodeGrouping(s) ==> Drops(s, CODE_FILLER)
  {
  }

  lemma PlainCodeIsPlain(bytes: seq<byte>)
    requires |bytes| == RECOVERY_CODE_BYTES
    ensures forall i :: 0 <= i < |Plain(bytes)| ==> PlainUpper(Plain(bytes)[i])
  {
    hide PlainUpper, Encoding;
    RecoveryIsPlain();
    assert forall i :: 0 <= i < |Plain(bytes)| ==> Plain(bytes)[i] in RECOVERY_CODE_ALPHABET;
  }

  /** An issued recovery code is recognised however it is typed. */
  lemma TypedCodeReads(bytes: seq<byte>, keys: seq<Keystroke>, end: string)
    requires |bytes| == RECOVERY_CODE_BYTES && |keys| == |Plain(bytes)| && CodeGrouping(end)
    requires forall i :: 0 <= i < |keys| ==> CodeGrouping(keys[i].before)
    ensures NormalizeCode(Typed(Plain(bytes), keys, end)) == Some(Plain(bytes))
  {
    hide Plain, Typed, UpperText, Without, PlainUpper, LowerOf, Dashed, CodeGrouping, Drops, Spelled;
    var text := Plain(bytes);
    PlainCodeIsPlain(bytes);
    forall i | 0 <= i < |text| ensures text[i] !in CODE_FILLER && LowerOf(text[i]) !in CODE_FILLER {
      PlainIsKept(text[i]);
    }
    GroupingDrops(end);
    forall i | 0 <= i < |keys| ensures Drops(keys[i].before, CODE_FILLER) {
      GroupingDrops(keys[i].before);
    }
    TypedCleans(text, keys, end, CODE_FILLER);
    GeneratedCodeNormalizes(bytes);
  }

  /** Anything but sixteen characters of the alphabet, after cleaning, is no recovery code. */
  lemma NormalizesExactly(code: string)
    ensures RECOVERY_CODE_ALPHABET == "23456789ABCDEFGHJKLMNPQRSTUVWXYZ"
    ensures var cleaned := UpperText(Without(code, CODE_FILLER));
            && (NormalizeCode(code).Some? <==>
                  |cleaned| == 16 && forall i :: 0 <= i < |cleaned| ==> cleaned[i] in RECOVERY_CODE_ALPHABET)
            && (NormalizeCode(code).Some? ==> NormalizeCode(code).value == cleaned)
  {
    hide UpperText, Without;
  }

  /** A secret is a key exactly when it is 16 to 128 characters whose cleaned text spells 10 to 64 octets. */
  lemma DecodesExactly(secret: string)
    ensures var cleaned := UpperText(Without(secret, SECRET_FILLER));
            Decoded(secret).Key?
            <==> && 16 <= |secret| <= 128
                 && (forall i :: 0 <= i < |cleaned| ==> cleaned[i] in "ABCDEFGHIJKLMNOPQRSTUVWXYZ234567")
                 && 10 <= |cleaned| * 5 / 8 <= 64
  {
    hide UpperText, Without, Unspell, Decoding;
    assert BASE32_ALPHABET == "ABCDEFGHIJKLMNOPQRSTUVWXYZ234567";
  }
}
