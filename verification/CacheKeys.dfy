/**
 Identifiers, and the NUL-joined strings under which records and results are kept.
 */
module CacheKeys {
  import opened Strings

  const NUL: char := 0 as char

  predicate Alphanumeric(c: char) { 'A' <= c <= 'Z' || 'a' <= c <= 'z' || '0' <= c <= '9' }

  /** Tenants, users, items and workers. */
  predicate IsId(s: string) {
    1 <= |s| <= 128 && Alphanumeric(s[0]) && forall i :: 0 <= i < |s| ==> Alphanumeric(s[i]) || s[i] in "._:@/-"
  }

  /** Operation, request, hold and lock ids. */
  predicate IsOperationId(s: string) {
    1 <= |s| <= 128 && Alphanumeric(s[0]) && forall i :: 0 <= i < |s| ==> Alphanumeric(s[i]) || s[i] in "._:-"
  }

  predicate LetterOrDigit(code: int) { 48 <= code <= 57 || 65 <= code <= 90 || 97 <= code <= 122 }

  /** The two patterns, by character code: a letter or digit first, then those and the listed marks, 128 in all. */
  lemma IdentifiersExactly(s: string)
    ensures IsId(s)
            <==> && s != "" && |s| < 129 && LetterOrDigit(s[0] as int)
                 && forall i :: 0 <= i < |s| ==> LetterOrDigit(s[i] as int) || s[i] in {'.', '_', ':', '@', '/', '-'}
    ensures IsOperationId(s)
            <==> && s != "" && |s| < 129 && LetterOrDigit(s[0] as int)
                 && forall i :: 0 <= i < |s| ==> LetterOrDigit(s[i] as int) || s[i] in {'.', '_', ':', '-'}
  {
    hide LetterOrDigit, Alphanumeric;
    forall i | 0 <= i < |s|
      ensures Alphanumeric(s[i]) <==> LetterOrDigit(s[i] as int)
      ensures s[i] in "._:@/-" <==> s[i] in {'.', '_', ':', '@', '/', '-'}
      ensures s[i] in "._:-" <==> s[i] in {'.', '_', ':', '-'}
    {
      CharacterExactly(s[i]);
    }
  }

  lemma CharacterExactly(c: char)
    ensures Alphanumeric(c) <==> LetterOrDigit(c as int)
    ensures c in "._:@/-" <==> c in {'.', '_', ':', '@', '/', '-'}
    ensures c in "._:-" <==> c in {'.', '_', ':', '-'}
  {
    assert "._:@/-"[0] == '.' && "._:@/-"[1] == '_' && "._:@/-"[2] == ':' && "._:@/-"[3] == '@';
    assert "._:@/-"[4] == '/' && "._:@/-"[5] == '-' && "._:-"[0] == '.' && "._:-"[1] == '_' && "._:-"[2] == ':';
    assert "._:-"[3] == '-';
  }

  /** A whole store may be named by `*`, which no identifier equals. */
  function Wildcard(id: Option<string>): (s: string) { if id.Some? then id.value else "*" }

  predicate NulFree(s: string) { NUL !in s }

  lemma IdNulFree(s: string)
    requires IsId(s) || IsOperationId(s)
    ensures NulFree(s) && s != "*"
  {
    forall i | 0 <= i < |s| ensures s[i] != NUL {
    }
    assert s == "*" ==> !Alphanumeric(s[0]);
  }

  predicate AllNulFree(parts: seq<string>) { forall i :: 0 <= i < |parts| ==> NulFree(parts[i]) }

  /** The parts with NUL between them. */
  function Join(parts: seq<string>): (s: string)
    requires |parts| > 0
  {
    if |parts| == 1 then parts[0] else parts[0] + [NUL] + Join(parts[1..])
  }

  lemma FirstPart(a: string, x: string, b: string, y: string)
    requires NulFree(a) && NulFree(b) && a + [NUL] + x == b + [NUL] + y
    ensures a == b && x == y
  {
    var s := a + [NUL] + x;
    forall k | 0 <= k < |a| ensures s[k] != NUL { assert s[k] == a[k]; }
    forall k | 0 <= k < |b| ensures s[k] != NUL { assert s[k] == b[k]; }
    assert s[|a|] == NUL && s[|b|] == NUL;
    assert a == s[..|a|] && b == s[..|b|];
    assert x == s[|a| + 1..] && y == s[|b| + 1..];
  }

  /** Joining is injective on parts free of NUL, so keys of different requests never collide. */
  lemma {:induction false} JoinInjective(p: seq<string>, q: seq<string>)
    requires |p| == |q| > 0 && AllNulFree(p) && AllNulFree(q) && Join(p) == Join(q)
    ensures p == q
    decreases |p|
  {
    if |p| > 1 {
      FirstPart(p[0], Join(p[1..]), q[0], Join(q[1..]));
      JoinInjective(p[1..], q[1..]);
      assert p == [p[0]] + p[1..] && q == [q[0]] + q[1..];
    }
  }

  /** Nothing cached is lost or replaced. */
  ghost predicate Extends<V>(a: map<string, V>, b: map<string, V>) { forall k :: k in a ==> k in b && b[k] == a[k] }
}
