/**
 The base32 codec of the TOTP secrets and the bit packing of the recovery codes:
 one loop over an accumulator that JavaScript truncates to 32 bits.
 */
module Base32 {
  import opened Radix
  import opened BitGroups

  const WORD: nat := 0x1_0000_0000

  /** `(buffer << 8) | byte` on an accumulator kept modulo 2^32. */
  function ShiftIn8(buffer: nat, chunk: nat): (r: nat) { (buffer * 256) % WORD + chunk }

  /** `(buffer << 5) | index`. */
  function ShiftIn5(buffer: nat, chunk: nat): (r: nat) { (buffer * 32) % WORD + chunk }

  // ------------------------------------------------------ the truncating accumulator

  lemma WordIsPower()
    ensures Pow2(5) == 32 && Pow2(8) == 256 && Pow2(32) == WORD
  {
    assert Pow2(4) == 16;
    assert Pow2(8) == 256;
    Pow2Adds(8, 8);
    Pow2Adds(16, 16);
  }

  /** `Pow2(bits)` of pending low bits, `k` of shift: the word is a multiple of both together. */
  lemma WordFactors(bits: nat, k: nat)
    requires bits + k <= 32
    ensures WORD == Pow2(32 - bits - k) * (Pow2(bits) * Pow2(k))
    ensures Pow2(bits + k) == Pow2(bits) * Pow2(k)
  {
    hide Pow2;
    WordIsPower();
    Pow2Adds(bits, k);
    Pow2Adds(32 - bits - k, bits + k);
  }

  /** The truncation to 32 bits never reaches the `bits` pending low bits. */
  lemma ShiftIn8Low(buffer: nat, chunk: nat, bits: nat)
    requires chunk < 256 && bits <= 24
    ensures ShiftIn8(buffer, chunk) % Pow2(bits + 8) == (buffer % Pow2(bits)) * 256 + chunk
  {
    hide Pow2;
    WordIsPower();
    WordFactors(bits, 8);
    ShiftLow(buffer, 256, Pow2(bits), Pow2(24 - bits), chunk);
  }

  lemma ShiftIn5Low(buffer: nat, chunk: nat, bits: nat)
    requires chunk < 32 && bits <= 27
    ensures ShiftIn5(buffer, chunk) % Pow2(bits + 5) == (buffer % Pow2(bits)) * 32 + chunk
  {
    hide Pow2;
    WordIsPower();
    WordFactors(bits, 5);
    ShiftLow(buffer, 32, Pow2(bits), Pow2(27 - bits), chunk);
  }

  /** The top `k` of `bits + k` pending bits. */
  lemma TakeTop(buffer: nat, bits: nat, k: nat)
    ensures buffer % Pow2(bits + k) == (buffer / Pow2(bits)) % Pow2(k) * Pow2(bits) + buffer % Pow2(bits)
  {
    hide Pow2;
    Pow2Adds(k, bits);
    SplitLow(buffer, Pow2(k), Pow2(bits));
  }

  /** `(buffer << (5 - bits)) & 31` keeps exactly the pending bits, moved to the top of the group. */
  lemma FlushLow(buffer: nat, bits: nat)
    requires 0 < bits < 5
    ensures (buffer * Pow2(5 - bits)) % WORD % 32 == (buffer % Pow2(bits)) * Pow2(5 - bits)
  {
    hide Pow2;
    WordIsPower();
    WordFactors(bits, 5 - bits);
    ShiftLow(buffer, Pow2(5 - bits), Pow2(bits), Pow2(27), 0);
  }

  // ------------------------------------------------------ spelling digits

  const BASE32_ALPHABET: string := "ABCDEFGHIJKLMNOPQRSTUVWXYZ234567"
  const RECOVERY_CODE_ALPHABET: string := "23456789ABCDEFGHJKLMNPQRSTUVWXYZ"

  predicate Distinct(alphabet: string) {
    |alphabet| == 32 && forall i, j :: 0 <= i < j < 32 ==> alphabet[i] != alphabet[j]
  }

  /** Position of a base32 character, and of a recovery-code character, in its alphabet. */
  function Position(c: char): (i: int) { if c >= 'A' then c as int - 'A' as int else c as int - '2' as int + 26 }

  lemma AlphabetDistinct()
    ensures Distinct(BASE32_ALPHABET)
  {
    var a := BASE32_ALPHABET;
    assert forall i :: 0 <= i < 8 ==> Position(a[i]) == i;
    assert forall i :: 8 <= i < 16 ==> Position(a[i]) == i;
    assert forall i :: 16 <= i < 24 ==> Position(a[i]) == i;
    assert forall i :: 24 <= i < 32 ==> Position(a[i]) == i;
  }

  lemma RecoveryAlphabetDistinct()
    ensures Distinct(RECOVERY_CODE_ALPHABET)
  {
    var a := RECOVERY_CODE_ALPHABET;
    assert forall i :: 0 <= i < 8 ==> a[i] as int == '2' as int + i;
    assert forall i :: 8 <= i < 16 ==> a[i] as int == 'A' as int + i - 8;
    assert forall i :: 16 <= i < 21 ==> a[i] as int == 'J' as int + i - 16;
    assert forall i :: 21 <= i < 32 ==> a[i] as int == 'P' as int + i - 21;
  }

  function Spell(alphabet: string, ds: seq<nat>): (s: string)
    requires DigitsBelow(|alphabet|, ds)
    ensures |s| == |ds| && forall i :: 0 <= i < |s| ==> s[i] == alphabet[ds[i]]
  {
    seq(|ds|, i requires 0 <= i < |ds| => alphabet[ds[i]])
  }

  function IndexIn(alphabet: string, c: char): (i: nat)
    requires c in alphabet
    ensures i < |alphabet| && alphabet[i] == c && c !in alphabet[..i]
  {
    if alphabet[0] == c then 0
    else
      var i := 1 + IndexIn(alphabet[1..], c);
      assert alphabet[..i] == [alphabet[0]] + alphabet[1..][..i - 1];
      i
  }

  predicate Spelled(alphabet: string, s: string) { forall i :: 0 <= i < |s| ==> s[i] in alphabet }

  function Unspell(alphabet: string, s: string): (ds: seq<nat>)
    requires Spelled(alphabet, s)
    ensures |ds| == |s| && DigitsBelow(|alphabet|, ds)
    ensures forall i :: 0 <= i < |s| ==> ds[i] == IndexIn(alphabet, s[i])
  {
    seq(|s|, i requires 0 <= i < |s| => IndexIn(alphabet, s[i]))
  }

  lemma UnspellSpell(alphabet: string, ds: seq<nat>)
    requires Distinct(alphabet) && DigitsBelow(32, ds)
    ensures Spelled(alphabet, Spell(alphabet, ds)) && Unspell(alphabet, Spell(alphabet, ds)) == ds
  {
    hide IndexIn;
    var s := Spell(alphabet, ds);
    forall i | 0 <= i < |s| ensures s[i] in alphabet && IndexIn(alphabet, s[i]) == ds[i] {
      assert alphabet[IndexIn(alphabet, s[i])] == alphabet[ds[i]];
    }
  }

  // ------------------------------------------------------ the loops

  /** What the bits taken so far, the pending bits and the octets read so far have to do with each other. */
  ghost predicate Pending(outBase: nat, out: seq<nat>, inBase: nat, read: seq<nat>, buffer: nat, bits: nat) {
    Value(outBase, out) * Pow2(bits) + buffer % Pow2(bits) == Value(inBase, read)
  }

  lemma ReadOctet(out: seq<nat>, read: seq<nat>, b: byte, buffer: nat, bits: nat)
    requires bits <= 24 && Pending(32, out, 256, read, buffer, bits)
    ensures Pending(32, out, 256, read + [b], ShiftIn8(buffer, b), bits + 8)
  {
    hide Value, Pow2, ShiftIn8;
    ShiftIn8Low(buffer, b, bits);
    ValueSnoc(256, read, b);
    Eight();
    Pow2Adds(bits, 8);
    var v, p := Value(32, out), Pow2(bits);
    Distribute(v, 0, p, 256);
    Distribute(v * p, buffer % p, 1, 256);
  }

  lemma EmitGroup(out: seq<nat>, read: seq<nat>, buffer: nat, bits: nat)
    requires Pending(32, out, 256, read, buffer, bits + 5)
    ensures Pending(32, out + [buffer / Pow2(bits) % 32], 256, read, buffer, bits)
  {
    hide Value, Pow2;
    Eight();
    TakeTop(buffer, bits, 5);
    Pow2Adds(5, bits);
    var v, p, d := Value(32, out), Pow2(bits), buffer / Pow2(bits) % 32;
    ValueSnoc(32, out, d);
    Distribute(v, d, 32, p);
  }

  lemma FlushGroup(out: seq<nat>, bytes: seq<byte>, buffer: nat, bits: nat)
    requires 0 < bits < 5 && 5 * |out| + bits == 8 * |bytes| && DigitsBelow(32, out)
    requires Pending(32, out, 256, bytes, buffer, bits)
    ensures var d := (buffer * Pow2(5 - bits)) % WORD % 32; Encoding(5, bytes) == out + [d]
  {
    hide Value, Pow2, Encoding;
    var f, p := Pow2(5 - bits), Pow2(bits);
    var d := (buffer * f) % WORD % 32;
    FlushLow(buffer, bits);
    Eight();
    Pow2Adds(bits, 5 - bits);
    ValueSnoc(32, out, d);
    var v, r := Value(32, out), buffer % p;
    Distribute(v, r, p, f);
    EncodingIs(5, bytes, out + [d]);
  }

  lemma NothingPending(out: seq<nat>, bytes: seq<byte>, buffer: nat)
    requires 5 * |out| == 8 * |bytes| && DigitsBelow(32, out)
    requires Pending(32, out, 256, bytes, buffer, 0)
    ensures Encoding(5, bytes) == out
  {
    hide Value, Encoding;
    Eight();
    assert Pow2(0) == 1;
    EncodingIs(5, bytes, out);
  }

  /**
   The loop of `encodeBase32` and `generateRecoveryCode`.  Although the
   accumulator is truncated at every shift, the text is the RFC 4648 encoding
   of the octets.
   */
  method Pack(bytes: seq<byte>, alphabet: string) returns (output: string)
    requires |alphabet| == 32
    ensures Pow2(5) == 32 && output == Spell(alphabet, Encoding(5, bytes))
  {
    hide Value, Encoding, Pending, ShiftIn8;
    Eight();
    var buffer: nat, bits: nat := 0, 0;
    output := "";
    ghost var out: seq<nat> := [];
    PendingStart(32, 256);
    for i := 0 to |bytes|
      invariant bits < 5 && 5 * |out| + bits == 8 * i && DigitsBelow(32, out)
      invariant Pending(32, out, 256, bytes[..i], buffer, bits)
      invariant output == Spell(alphabet, out)
    {
      ReadOctet(out, bytes[..i], bytes[i], buffer, bits);
      assert bytes[..i + 1] == bytes[..i] + [bytes[i]];
      buffer := ShiftIn8(buffer, bytes[i]);
      bits := bits + 8;
      while bits >= 5
        invariant bits <= 12 && 5 * |out| + bits == 8 * (i + 1) && DigitsBelow(32, out)
        invariant Pending(32, out, 256, bytes[..i + 1], buffer, bits)
        invariant output == Spell(alphabet, out)
      {
        bits := bits - 5;
        EmitGroup(out, bytes[..i + 1], buffer, bits);
        var group := buffer / Pow2(bits) % 32;
        out := out + [group];
        output := output + [alphabet[group]];
      }
    }
    assert bytes[..|bytes|] == bytes;
    if bits > 0 {
      FlushGroup(out, bytes, buffer, bits);
      output := output + [alphabet[(buffer * Pow2(5 - bits)) % WORD % 32]];
    } else {
      NothingPending(out, bytes, buffer);
    }
  }

  lemma PendingStart(outBase: nat, inBase: nat)
    ensures Pending(outBase, [], inBase, [], 0, 0)
  {
  }

  lemma ReadGroup(out: seq<nat>, read: seq<nat>, d: nat, buffer: nat, bits: nat)
    requires bits <= 27 && d < 32 && Pending(256, out, 32, read, buffer, bits)
    ensures Pending(256, out, 32, read + [d], ShiftIn5(buffer, d), bits + 5)
  {
    hide Value, Pow2, ShiftIn5;
    ShiftIn5Low(buffer, d, bits);
    ValueSnoc(32, read, d);
    Eight();
    Pow2Adds(bits, 5);
    var v, p := Value(256, out), Pow2(bits);
    Distribute(v, 0, p, 32);
    Distribute(v * p, buffer % p, 1, 32);
  }

  lemma EmitOctet(out: seq<nat>, read: seq<nat>, buffer: nat, bits: nat)
    requires Pending(256, out, 32, read, buffer, bits + 8)
    ensures Pending(256, out + [buffer / Pow2(bits) % 256], 32, read, buffer, bits)
  {
    hide Value, Pow2;
    Eight();
    TakeTop(buffer, bits, 8);
    Pow2Adds(8, bits);
    var v, p, d := Value(256, out), Pow2(bits), buffer / Pow2(bits) % 256;
    ValueSnoc(256, out, d);
    Distribute(v, d, 256, p);
  }

  lemma BitsLeftOver(out: seq<byte>, ds: seq<nat>, buffer: nat, bits: nat)
    requires bits < 8 && 8 * |out| + bits == 5 * |ds|
    requires Pending(256, out, 32, ds, buffer, bits)
    ensures Decoding(5, ds) == out
  {
    hide Value, Pow2, Decoding;
    Eight();
    QuotRem(8, |out|, bits);
    QuotRem(Pow2(bits), Value(256, out), buffer % Pow2(bits));
    DecodingIs(5, ds, out);
  }

  /** The loop of `decodeBase32`. */
  method Unpack(canonical: string, alphabet: string) returns (output: seq<byte>)
    requires |alphabet| == 32 && Spelled(alphabet, canonical)
    ensures output == Decoding(5, Unspell(alphabet, canonical))
  {
    hide Value, Decoding, Pending, ShiftIn5, IndexIn;
    var buffer: nat, bits: nat := 0, 0;
    output := [];
    ghost var ds := Unspell(alphabet, canonical);
    PendingStart(256, 32);
    for i := 0 to |canonical|
      invariant bits < 8 && 8 * |output| + bits == 5 * i
      invariant Pending(256, output, 32, ds[..i], buffer, bits)
    {
      ReadGroup(output, ds[..i], ds[i], buffer, bits);
      assert ds[..i + 1] == ds[..i] + [ds[i]];
      buffer := ShiftIn5(buffer, IndexIn(alphabet, canonical[i]));
      bits := bits + 5;
      if bits >= 8 {
        bits := bits - 8;
        EmitOctet(output, ds[..i + 1], buffer, bits);
        output := output + [buffer / Pow2(bits) % 256];
      }
    }
    assert ds[..|canonical|] == ds;
    BitsLeftOver(output, ds, buffer, bits);
  }
}
