/**
 Addresses and recipient lists: what counts as an address, and that every usual
 spelling of a recipient gives the same one.
 */
module Recipients {
  import opened Strings
  import opened MimeText
  import opened EncodedWords
  import opened MessageParser
  import opened MessageComposer
  import opened MimeRoundTrip
  import opened Base64
  import opened MimeWalk

  // ------------------------------------------------------ the form of an address

  function Dotted(labels: seq<string>): (s: string) {
    if labels == [] then "" else if |labels| == 1 then labels[0] else labels[0] + ("." + Dotted(labels[1..]))
  }

  predicate Lacks(s: string, c: char) { forall i :: 0 <= i < |s| ==> s[i] != c }

  lemma FirstOf(a: string, c: char, b: string)
    requires Lacks(a, c)
    ensures IndexOf(a + ([c] + b), [c]) == |a|
    ensures IndexOf(a, [c]) == -1
  {
    var s := a + ([c] + b);
    assert s[|a|..|a| + 1] == [c];
    forall k | 0 <= k < |a| ensures !At(s, [c], k) {
      assert s[k..k + 1][0] == a[k];
    }
    IndexOfIs(s, [c], |a|);
    forall k | 0 <= k < |a| ensures !At(a, [c], k) {
      assert a[k..k + 1][0] == a[k];
    }
  }

  /** A domain is labels of 1 to 63 letters, digits and hyphens, as many as asked for or more. */
  lemma {:induction false} DomainExactly(labels: seq<string>, n: nat)
    requires labels != [] && forall i :: 0 <= i < |labels| ==> Lacks(labels[i], '.')
    ensures IsDomain(Dotted(labels), n) <==> |labels| >= n && forall i :: 0 <= i < |labels| ==> IsLabel(labels[i])
    decreases |labels|
  {
    hide IsLabel, IndexOf, Lacks;
    var s := Dotted(labels);
    if |labels| == 1 {
      FirstOf(labels[0], '.', "");
    } else {
      var rest := Dotted(labels[1..]);
      assert s == labels[0] + ("." + rest);
      FirstOf(labels[0], '.', rest);
      assert s[..|labels[0]|] == labels[0] && s[|labels[0]| + 1..] == rest;
      DomainExactly(labels[1..], if n == 0 then 0 else n - 1);
    }
  }

  /** An address is a local part of 1 to 64 characters, `@`, and two or more labels, 254 characters in all. */
  lemma AddressExactly(local: string, labels: seq<string>)
    requires Lacks(local, '@') && labels != [] && forall i :: 0 <= i < |labels| ==> Lacks(labels[i], '.')
    ensures var s := local + ("@" + Dotted(labels));
            IsAddress(s)
            <==> && 1 <= |local| <= 64 && (forall i :: 0 <= i < |local| ==> LocalChar(local[i]))
                 && |labels| >= 2 && (forall i :: 0 <= i < |labels| ==> IsLabel(labels[i])) && |s| <= 254
  {
    hide IsLabel, IndexOf, LocalChar, IsDomain, Lacks;
    var s := local + ("@" + Dotted(labels));
    FirstOf(local, '@', Dotted(labels));
    assert s[|local| + 1..] == Dotted(labels);
    DomainExactly(labels, 2);
    assert forall i :: 0 <= i < |local| ==> s[i] == local[i];
  }

  const DIGITS: string := "0123456789"

  const MARKS: string := ".!#$%&'*+/=?^_`{|}~-"

  lemma TablesAre(c: char)
    ensures c in CAPITALS <==> 65 <= c as int <= 90
    ensures c in SMALL <==> 97 <= c as int <= 122
    ensures c in DIGITS <==> 48 <= c as int <= 57
  {
    CapitalTable(c);
    SmallTable(c);
    if 48 <= c as int <= 57 { assert DIGITS[c as int - 48] == c; }
  }

  lemma CapitalTable(c: char)
    ensures c in CAPITALS <==> 65 <= c as int <= 90
  {
    if 65 <= c as int <= 90 { CapitalIs(c as int - 65); }
    if c in CAPITALS {
      var i :| 0 <= i < |CAPITALS| && CAPITALS[i] == c;
      CapitalIs(i);
    }
  }

  lemma SmallIs(i: nat)
    requires i < 26
    ensures SMALL[i] as int == 97 + i
  {
  }

  lemma SmallTable(c: char)
    ensures c in SMALL <==> 97 <= c as int <= 122
  {
    if 97 <= c as int <= 122 { SmallIs(c as int - 97); }
    if c in SMALL {
      var i :| 0 <= i < |SMALL| && SMALL[i] == c;
      SmallIs(i);
    }
  }

  /** The characters of a local part and of a label, from their tables. */
  lemma CharactersExactly(c: char)
    ensures LocalChar(c) <==> c in CAPITALS || c in SMALL || c in DIGITS || c in MARKS
    ensures LabelChar(c) <==> c in CAPITALS || c in SMALL || c in DIGITS || c == '-'
  {
    hide LocalChar, LabelChar;
    TablesAre(c);
    CharacterRanges(c);
  }

  lemma LabelExactly(s: string)
    ensures IsLabel(s)
            <==> && 1 <= |s| <= 63
                 && forall i :: 0 <= i < |s| ==> s[i] in CAPITALS || s[i] in SMALL || s[i] in DIGITS || s[i] == '-'
  {
    hide LabelChar;
    forall i | 0 <= i < |s|
      ensures LabelChar(s[i]) <==> s[i] in CAPITALS || s[i] in SMALL || s[i] in DIGITS || s[i] == '-'
    {
      CharactersExactly(s[i]);
    }
  }

  lemma CharacterRanges(c: char)
    ensures var plain := 65 <= c as int <= 90 || 97 <= c as int <= 122 || 48 <= c as int <= 57;
            && (LocalChar(c) <==> plain || c in MARKS)
            && (LabelChar(c) <==> plain || c == '-')
  {
  }

  /** Nothing in an address is white space or an angle bracket. */
  predicate AddressChar(c: char) { LocalChar(c) || LabelChar(c) || c == '@' || c == '.' }

  lemma AddressCharPlain(c: char)
    requires AddressChar(c)
    ensures !IsSpace(c) && c != '<' && c != '>'
  {
  }

  lemma {:induction false} DomainChars(s: string, n: nat)
    requires IsDomain(s, n)
    ensures s != "" && forall i :: 0 <= i < |s| ==> LabelChar(s[i]) || s[i] == '.'
    decreases |s|
  {
    hide IndexOf, LabelChar;
    var dot := IndexOf(s, ".");
    if dot != -1 {
      DomainChars(s[dot + 1..], if n == 0 then 0 else n - 1);
      forall i | 0 <= i < |s| ensures LabelChar(s[i]) || s[i] == '.' {
        if i < dot { assert s[i] == s[..dot][i]; }
        if i == dot { assert s[dot..dot + 1][0] == '.'; }
        if i > dot { assert s[i] == s[dot + 1..][i - dot - 1]; }
      }
    }
  }

  lemma AddressChars(s: string)
    requires IsAddress(s)
    ensures s != "" && forall i :: 0 <= i < |s| ==> AddressChar(s[i])
  {
    hide IndexOf, LabelChar, LocalChar, IsDomain;
    var at := IndexOf(s, "@");
    DomainChars(s[at + 1..], 2);
    forall i | 0 <= i < |s| ensures AddressChar(s[i]) {
      if i == at { assert s[at..at + 1][0] == '@'; }
      if i > at { assert s[i] == s[at + 1..][i - at - 1]; }
    }
  }

  // ------------------------------------------------------ the spelling of a recipient

  predicate Blank(s: string) { forall i :: 0 <= i < |s| ==> IsSpace(s[i]) }

  lemma {:induction false} TrimLeftBlank(gap: string, s: string)
    requires Blank(gap) && (s != "" ==> !IsSpace(s[0]))
    ensures TrimLeft(gap + s) == s
    decreases |gap|
  {
    if gap == "" {
      assert gap + s == s;
    } else {
      assert (gap + s)[1..] == gap[1..] + s;
      TrimLeftBlank(gap[1..], s);
    }
  }

  lemma {:induction false} TrimRightBlank(s: string, gap: string)
    requires Blank(gap) && (s != "" ==> !IsSpace(s[|s| - 1]))
    ensures TrimRight(s + gap) == s
    decreases |gap|
  {
    if gap == "" {
      assert s + gap == s;
    } else {
      assert (s + gap)[..|s + gap| - 1] == s + gap[..|gap| - 1];
      TrimRightBlank(s, gap[..|gap| - 1]);
    }
  }

  lemma TrimsTo(before: string, s: string, after: string)
    requires Blank(before) && Blank(after) && s != "" && !IsSpace(s[0]) && !IsSpace(s[|s| - 1])
    ensures Trim(before + (s + after)) == s
  {
    hide TrimLeft, TrimRight, IsSpace;
    TrimLeftBlank(before, s + after);
    TrimRightBlank(s, after);
  }

  lemma {:induction false} LastOpenIs(s: string, i: nat, n: nat)
    requires i < n <= |s| && s[i] == '<' && forall k :: i < k < n ==> s[k] != '<' && s[k] != '>'
    ensures LastOpen(s, n) == i
    decreases n
  {
    if i < n - 1 { LastOpenIs(s, i, n - 1); }
  }

  /** A bare address is read as it is. */
  lemma BareAddress(before: string, address: string, after: string)
    requires IsAddress(address) && Blank(before) && Blank(after)
    ensures AddressOf(before + (address + after)) == address
  {
    hide IsAddress, TrimLeft, TrimRight, AddressChar, Blank, IsSpace;
    AddressChars(address);
    AddressCharPlain(address[0]);
    AddressCharPlain(address[|address| - 1]);
    TrimsTo(before, address, after);
    EmptyIsBlank();
    TrimsTo("", address, "");
    assert "" + (address + "") == address;
  }

  lemma EmptyIsBlank()
    ensures Blank("")
  {
  }

  /** The last opening bracket is the one before the address. */
  lemma AngleIs(name: string, address: string)
    requires address != "" && forall i :: 0 <= i < |address| ==> AddressChar(address[i])
    ensures Angle(name + ("<" + address + ">")) == Some(address)
  {
    hide AddressChar, LastOpen;
    var s := name + ("<" + address + ">");
    var i := |name|;
    forall k | i < k < |s| - 1 ensures s[k] != '<' && s[k] != '>' {
      assert s[k] == address[k - i - 1];
      AddressCharPlain(s[k]);
    }
    LastOpenIs(s, i, |s| - 1);
    assert s[i + 1..|s| - 1] == address;
  }

  /** An address in angle brackets is read whatever name stands before it. */
  lemma BracketedAddress(before: string, name: string, address: string, after: string)
    requires IsAddress(address) && Blank(before) && Blank(after) && (name != "" ==> !IsSpace(name[0]))
    ensures AddressOf(before + ((name + ("<" + address + ">")) + after)) == address
  {
    hide IsAddress, Trim, AddressChar, Blank, IsSpace, Angle;
    AddressChars(address);
    AddressCharPlain(address[0]);
    AddressCharPlain(address[|address| - 1]);
    var s := name + ("<" + address + ">");
    BracketsAreNoSpace();
    assert s[|s| - 1] == '>' && s[0] == if name == "" then '<' else name[0];
    TrimsTo(before, s, after);
    AngleIs(name, address);
    EmptyIsBlank();
    TrimsTo("", address, "");
    assert "" + (address + "") == address;
  }

  lemma BracketsAreNoSpace()
    ensures !IsSpace('<') && !IsSpace('>')
  {
  }

  // ------------------------------------------------------ the list

  /** Accepted exactly when every entry that is not blank is an address; the list has each of them, and no other. */
  lemma {:induction false} CollectedExactly(entries: seq<string>)
    ensures var r := Collected(entries);
            && (r.Some?
                <==> forall i :: 0 <= i < |entries| ==> Trim(entries[i]) == "" || IsAddress(AddressOf(entries[i])))
            && (r.Some? ==>
                  forall x :: x in r.value <==>
                    exists i :: 0 <= i < |entries| && Trim(entries[i]) != "" && AddressOf(entries[i]) == x)
    decreases |entries|
  {
    hide IsAddress, AddressOf, Trim;
    if entries != [] {
      var n := |entries| - 1;
      CollectedExactly(entries[..n]);
      assert forall i :: 0 <= i < n ==> entries[..n][i] == entries[i];
    }
  }

  /** What the composer writes into `To`, read as a list again, is the same list. */
  lemma {:induction false} OwnListReads(recipients: seq<string>)
    requires forall i :: 0 <= i < |recipients| ==> IsAddress(recipients[i])
    requires forall i, j :: 0 <= i < j < |recipients| ==> recipients[i] != recipients[j]
    ensures Collected(seq(|recipients|, i requires 0 <= i < |recipients| => " <" + recipients[i] + ">"))
            == Some(recipients)
    decreases |recipients|
  {
    hide IsAddress, AddressOf, Trim;
    var entries := seq(|recipients|, i requires 0 <= i < |recipients| => " <" + recipients[i] + ">");
    if recipients != [] {
      var n := |recipients| - 1;
      OwnListReads(recipients[..n]);
      assert entries[..n] == seq(n, i requires 0 <= i < n => " <" + recipients[..n][i] + ">");
      OwnEntry(recipients[n]);
      assert recipients == recipients[..n] + [recipients[n]];
    }
  }

  lemma OwnEntry(address: string)
    requires IsAddress(address)
    ensures AddressOf(" <" + address + ">") == address && Trim(" <" + address + ">") != ""
  {
    hide IsAddress, AddressOf, Trim;
    assert Blank(" ") && Blank("");
    BracketedAddress(" ", "", address, "");
    assert " " + (("" + ("<" + address + ">")) + "") == " <" + address + ">";
    BracketsAreNoSpace();
    var s := "<" + address + ">";
    assert s[0] == '<' && s[|s| - 1] == '>';
    TrimsTo(" ", s, "");
    assert " " + (s + "") == " <" + address + ">";
  }

  // ------------------------------------------------------ the addresses of a composed message

  lemma BracketedShape(recipients: seq<string>)
    requires recipients != []
    ensures var s := Bracketed(recipients); |s| >= 2 && s[0] == '<' && s[|s| - 1] == '>'
  {
    if |recipients| > 1 { BracketedShape(recipients[1..]); }
  }

  lemma AnglesTrimmed(s: string)
    requires |s| >= 2 && s[0] == '<' && s[|s| - 1] == '>'
    ensures Trim(" " + s) == s
  {
    BracketsAreNoSpace();
    TrimSame(s);
  }

  /**
   The sender and the recipients of a composed message read back exactly when
   nothing in them reads as an encoded word.
   */
  lemma AddressesRead(from: string, o: Outgoing, date: string, id: string)
    requires Composable(from, o, date, id) && IsOctets(o.subject) && IsOctets(o.text) && o.recipients != []
    ensures var parsed := Parse(Compose(from, o, date, id));
            var to, sender := Bracketed(o.recipients), "<" + from + ">";
            && (parsed.to == to <==> !HasGap(to, 0) && !HasWord(to, 0))
            && (parsed.from == sender <==> !HasGap(sender, 0) && !HasWord(sender, 0))
  {
    hide Composable, IsOctets, Compose, SplitPart, Headers, HeaderMap, Body, Walk, DecodeWords, Trim, Spelled,
      EncodeSubject, HasGap, HasWord, Bracketed;
    var lines, fields := Headers(from, o, date, id), Fields(from, o, date, id);
    ComposedSplits(from, o, date, id);
    HeadersSpelled(from, o, date, id);
    FieldFound(lines, fields, 0);
    FieldFound(lines, fields, 1);
    BracketedShape(o.recipients);
    AnglesTrimmed(Bracketed(o.recipients));
    AnglesTrimmed("<" + from + ">");
    DecodesToItselfExactly(Bracketed(o.recipients));
    DecodesToItselfExactly("<" + from + ">");
  }

  /** What the composer accepts, and which subjects it writes as they are. */
  lemma ComposesExactly(o: Outgoing)
    ensures ValidOutgoing(o) <==>
              && 1 <= |o.recipients| <= 50 && (forall i :: 0 <= i < |o.recipients| ==> IsAddress(o.recipients[i]))
              && (forall i :: 0 <= i < |o.subject| ==> 32 <= o.subject[i] as int <= 255 && o.subject[i] as int != 127)
              && forall i :: 0 <= i < |o.text| ==> 1 <= o.text[i] as int <= 255
    ensures IsOctets(o.subject) ==>
              EncodeSubject(o.subject)
              == if forall i :: 0 <= i < |o.subject| ==> 32 <= o.subject[i] as int <= 126 then o.subject
                 else "=?UTF-8?B?" + Encode(o.subject) + "?="
  {
    hide IsAddress, Encode;
  }

  /** A legal address that does not: its local part reads as an encoded word. */
  lemma AddressThatChanges()
    ensures IsAddress("=?x?Q?a?=@b.cd") && HasWord("<=?x?Q?a?=@b.cd>", 0)
  {
    var local, labels := "=?x?Q?a?=", ["b", "cd"];
    LocalIsLegal();
    LabelsAreLegal();
    AddressExactly(local, labels);
    assert labels[1..] == ["cd"];
    assert Dotted(["cd"]) == "cd" && Dotted(labels) == "b" + ("." + "cd");
    assert local + ("@" + Dotted(labels)) == "=?x?Q?a?=@b.cd";
    LooksLikeWord();
  }

  lemma LocalIsLegal()
    ensures var local := "=?x?Q?a?="; Lacks(local, '@') && forall i :: 0 <= i < |local| ==> LocalChar(local[i])
  {
  }

  lemma LabelsAreLegal()
    ensures IsLabel("b") && IsLabel("cd") && Lacks("b", '.') && Lacks("cd", '.')
  {
  }

  lemma LooksLikeWord()
    ensures HasWord("<=?x?Q?a?=@b.cd>", 0)
  {
    hide RunEnd;
    var s := "<=?x?Q?a?=@b.cd>";
    assert s[1..3] == "=?" && s[8..10] == "?=";
    RunEndIs(s, 3, 4);
    RunEndIs(s, 7, 8);
    assert WordAt(s, 1).Some?;
  }
}
