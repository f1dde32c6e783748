/**
 * UTF-8 validation as the codec performs it when a string value is created
 * from caller text, together with a reference encoder (section 3 of RFC 3629)
 * against which the validator is proved exact.
 */
module Utf8 {
  import opened Bytes

  /** A continuation byte, 10xxxxxx. */
  predicate IsCont(c: byte)
  {
    0x80 <= c < 0xC0
  }

  /** `IS_CONT` tests the top two bits. */
  lemma ContMask(c: byte)
    ensures IsCont(c) <==> (c as bv8) & 0xC0 == 0x80
  {
  }

  /**
   * `num_bytes_in_utf8_sequence`: the length of the sequence a lead byte
   * announces by its top bits, 0 when the byte can never start a well-formed
   * sequence (a continuation byte, the overlong leads 0xC0 and 0xC1, or a byte
   * above 0xF4).
   */
  function NumBytesInSequence(c: byte): (n: nat)
    ensures n == LeadLength(c)
  {
    var b := c as bv8;
    if c == 0xC0 || c == 0xC1 || c > 0xF4 || b & 0xC0 == 0x80 then 0
    else if b & 0x80 == 0 then 1
    else if b & 0xE0 == 0xC0 then 2
    else if b & 0xF0 == 0xE0 then 3
    else if b & 0xF8 == 0xF0 then 4
    else 0
  }

  /** The lead-byte classes of section 3 of RFC 3629, by range. */
  function LeadLength(c: byte): (n: nat)
  {
    if c < 0x80 then 1
    else if c < 0xC2 then 0
    else if c < 0xE0 then 2
    else if c < 0xF0 then 3
    else if c <= 0xF4 then 4
    else 0
  }

  /** The bit tests of the lead byte pick exactly the classes by range. */
  lemma NumBytesClasses(c: byte)
    ensures NumBytesInSequence(c) == LeadLength(c)
    ensures NumBytesInSequence(c) <= 4
    ensures NumBytesInSequence(c) == 0 <==> (0x80 <= c < 0xC2 || c > 0xF4)
    ensures NumBytesInSequence(c) == 1 <==> c < 0x80
    ensures NumBytesInSequence(c) == 2 <==> 0xC2 <= c < 0xE0
    ensures NumBytesInSequence(c) == 3 <==> 0xE0 <= c < 0xF0
    ensures NumBytesInSequence(c) == 4 <==> 0xF0 <= c <= 0xF4
  {
  }

  /** The length the validator assigns to the sequence at index `i`. */
  function SequenceLength(s: Bytes, i: int): nat
  {
    LeadLength(At(s, i))
  }

  /** The payload bits of a continuation byte (`c & 0x3F`). */
  function Payload(c: byte): nat
  {
    c % 64
  }

  /**
   * The value the validator assembles from the sequence at index `i`: the lead
   * byte masked with 0x1F, 0x0F or 0x07 by length, each continuation byte
   * shifted in six bits at a time. It is only meaningful when the continuation
   * bytes are present.
   */
  function CodePointAt(s: Bytes, i: int): nat
  {
    var n := SequenceLength(s, i);
    if n == 1 then At(s, i)
    else if n == 2 then (At(s, i) % 32) * 64 + Payload(At(s, i + 1))
    else if n == 3 then ((At(s, i) % 16) * 64 + Payload(At(s, i + 1))) * 64 + Payload(At(s, i + 2))
    else (((At(s, i) % 8) * 64 + Payload(At(s, i + 1))) * 64 + Payload(At(s, i + 2))) * 64 + Payload(At(s, i + 3))
  }

  /** A Unicode scalar value: a code point that is not a surrogate half. */
  predicate IsScalar(cp: int)
  {
    0 <= cp <= 0x10FFFF && !(0xD800 <= cp <= 0xDFFF)
  }

  /**
   * Whether the bytes at index `i` form one well-formed UTF-8 sequence: a
   * valid lead byte, its continuation bytes, no overlong form, nothing above
   * U+10FFFF and no surrogate half.
   */
  function VerifySequence(s: Bytes, i: nat): (ok: bool)
    ensures ok ==> 1 <= SequenceLength(s, i) <= 4 && IsScalar(CodePointAt(s, i))
    ensures ok && i < |s| ==> i + SequenceLength(s, i) <= |s|
  {
    var n := SequenceLength(s, i);
    var contOk :=
      if n == 1 then true
      else if n == 2 then IsCont(At(s, i + 1))
      else if n == 3 then IsCont(At(s, i + 1)) && IsCont(At(s, i + 2))
      else if n == 4 then IsCont(At(s, i + 1)) && IsCont(At(s, i + 2)) && IsCont(At(s, i + 3))
      else false;
    var cp := CodePointAt(s, i);
    contOk
    && !((cp < 0x80 && n > 1) || (cp < 0x800 && n > 2) || (cp < 0x10000 && n > 3))
    && cp <= 0x10FFFF
    && !(0xD800 <= cp <= 0xDFFF)
  }

  /** Every sequence from index `i` on is well formed. */
  predicate ValidFrom(s: Bytes, i: nat)
    decreases |s| - i
  {
    i >= |s| || (VerifySequence(s, i) && ValidFrom(s, i + SequenceLength(s, i)))
  }

  /** The whole text is well-formed UTF-8. */
  predicate ValidUtf8(s: Bytes)
  {
    ValidFrom(s, 0)
  }

  /** The validator's loop: one sequence at a time, stopping at the first bad one. */
  method IsValidUtf8(s: Bytes) returns (ok: bool)
    ensures ok == ValidUtf8(s)
  {
    var pos := 0;
    while pos < |s|
      invariant pos <= |s|
      invariant ValidFrom(s, pos) == ValidUtf8(s)
      decreases |s| - pos
    {
      if !VerifySequence(s, pos) {
        return false;
      }
      pos := pos + SequenceLength(s, pos);
    }
    return true;
  }

  /** The RFC 3629 encoding of a scalar value. */
  function Encode(cp: nat): (r: Bytes)
    requires cp <= 0x10FFFF
    ensures 1 <= |r| <= 4
  {
    if cp < 0x80 then [cp]
    else if cp < 0x800 then [0xC0 + cp / 64, 0x80 + cp % 64]
    else if cp < 0x10000 then [0xE0 + cp / 4096, 0x80 + (cp / 64) % 64, 0x80 + cp % 64]
    else [0xF0 + cp / 262144, 0x80 + (cp / 4096) % 64, 0x80 + (cp / 64) % 64, 0x80 + cp % 64]
  }

  /** Soundness: an accepted sequence is the encoding of the scalar value it assembles. */
  lemma VerifySound(s: Bytes, i: nat)
    requires VerifySequence(s, i) && i < |s|
    ensures IsScalar(CodePointAt(s, i))
    ensures Encode(CodePointAt(s, i)) == s[i..i + SequenceLength(s, i)]
  {
    var n := SequenceLength(s, i);
    var cp := CodePointAt(s, i);
    if n == 2 {
      Assemble2(At(s, i), At(s, i + 1));
    } else if n == 3 {
      Assemble3(At(s, i), At(s, i + 1), At(s, i + 2));
    } else if n == 4 {
      Assemble4(At(s, i), At(s, i + 1), At(s, i + 2), At(s, i + 3));
    }
    assert Encode(cp) == s[i..i + n];
  }

  lemma Assemble2(b0: byte, b1: byte)
    requires 0xC0 <= b0 < 0xE0 && 0x80 <= b1 < 0xC0
    ensures var cp := (b0 % 32) * 64 + Payload(b1);
      cp < 0x800 && cp / 64 == b0 - 0xC0 && cp % 64 == b1 - 0x80
  {
    assert b0 % 32 == b0 - 0xC0 && Payload(b1) == b1 - 0x80;
    ShiftIn(b0 % 32, Payload(b1));
  }

  lemma Assemble3(b0: byte, b1: byte, b2: byte)
    requires 0xE0 <= b0 < 0xF0 && 0x80 <= b1 < 0xC0 && 0x80 <= b2 < 0xC0
    ensures var cp := ((b0 % 16) * 64 + Payload(b1)) * 64 + Payload(b2);
      cp < 0x10000 && cp / 4096 == b0 - 0xE0 && (cp / 64) % 64 == b1 - 0x80 && cp % 64 == b2 - 0x80
  {
    assert b0 % 16 == b0 - 0xE0 && Payload(b1) == b1 - 0x80 && Payload(b2) == b2 - 0x80;
    Pack3(b0 % 16, Payload(b1), Payload(b2));
  }

  lemma Assemble4(b0: byte, b1: byte, b2: byte, b3: byte)
    requires 0xF0 <= b0 < 0xF8 && 0x80 <= b1 < 0xC0 && 0x80 <= b2 < 0xC0 && 0x80 <= b3 < 0xC0
    ensures var cp := (((b0 % 8) * 64 + Payload(b1)) * 64 + Payload(b2)) * 64 + Payload(b3);
      cp < 0x200000 && cp / 262144 == b0 - 0xF0 && (cp / 4096) % 64 == b1 - 0x80
      && (cp / 64) % 64 == b2 - 0x80 && cp % 64 == b3 - 0x80
  {
    assert b0 % 8 == b0 - 0xF0;
    assert Payload(b1) == b1 - 0x80;
    assert Payload(b2) == b2 - 0x80;
    assert Payload(b3) == b3 - 0x80;
    Pack4(b0 % 8, Payload(b1), Payload(b2), Payload(b3));
  }

  /** Three six-bit groups under a four-bit lead, shifted together and taken apart again. */
  lemma Pack3(a: nat, p1: nat, p2: nat)
    requires a < 16 && p1 < 64 && p2 < 64
    ensures var cp := (a * 64 + p1) * 64 + p2;
      cp < 0x10000 && cp / 4096 == a && (cp / 64) % 64 == p1 && cp % 64 == p2
  {
    var h := a * 64 + p1;
    var cp := h * 64 + p2;
    ShiftIn(a, p1);
    ShiftIn(h, p2);
    DivDiv64(cp);
  }

  lemma Pack4(a: nat, p1: nat, p2: nat, p3: nat)
    requires a < 8 && p1 < 64 && p2 < 64 && p3 < 64
    ensures var cp := ((a * 64 + p1) * 64 + p2) * 64 + p3;
      cp < 0x200000 && cp / 262144 == a && (cp / 4096) % 64 == p1 && (cp / 64) % 64 == p2 && cp % 64 == p3
  {
    var h := (a * 64 + p1) * 64 + p2;
    var cp := h * 64 + p3;
    Pack3(a, p1, p2);
    ShiftIn(h, p3);
    DivDiv64(cp);
    DivDiv64(h);
  }

  lemma ShiftIn(hi: nat, lo: nat)
    requires lo < 64
    ensures (hi * 64 + lo) / 64 == hi && (hi * 64 + lo) % 64 == lo
  {
  }

  lemma DivDiv64(x: nat)
    ensures x / 64 / 64 == x / 4096 && x / 4096 / 64 == x / 262144
  {
  }

  /** Completeness: the encoding of every scalar value is accepted, with its full length. */
  lemma VerifyComplete(s: Bytes, i: nat, cp: nat)
    requires IsScalar(cp) && TokenAt(s, i, Encode(cp))
    ensures VerifySequence(s, i) && SequenceLength(s, i) == |Encode(cp)|
    ensures CodePointAt(s, i) == cp
  {
    var e := Encode(cp);
    assert forall k :: 0 <= k < |e| ==> At(s, i + k) == e[k];
    if cp < 0x80 {
    } else if cp < 0x800 {
      EncodeRoundTrip2(cp);
    } else if cp < 0x10000 {
      EncodeRoundTrip3(cp);
    } else {
      EncodeRoundTrip4(cp);
    }
  }

  lemma EncodeRoundTrip2(cp: nat)
    requires 0x80 <= cp < 0x800
    ensures var e := Encode(cp);
      0xC2 <= e[0] < 0xE0 && 0x80 <= e[1] < 0xC0 && (e[0] % 32) * 64 + Payload(e[1]) == cp
  {
  }

  lemma EncodeRoundTrip3(cp: nat)
    requires 0x800 <= cp < 0x10000
    ensures var e := Encode(cp);
      0xE0 <= e[0] < 0xF0 && 0x80 <= e[1] < 0xC0 && 0x80 <= e[2] < 0xC0
      && ((e[0] % 16) * 64 + Payload(e[1])) * 64 + Payload(e[2]) == cp
  {
    var q := cp / 64;
    DivDiv64(cp);
    assert (cp / 4096) * 64 + q % 64 == q;
  }

  lemma EncodeRoundTrip4(cp: nat)
    requires 0x10000 <= cp <= 0x10FFFF
    ensures var e := Encode(cp);
      0xF0 <= e[0] <= 0xF4 && 0x80 <= e[1] < 0xC0 && 0x80 <= e[2] < 0xC0 && 0x80 <= e[3] < 0xC0
      && (((e[0] % 8) * 64 + Payload(e[1])) * 64 + Payload(e[2])) * 64 + Payload(e[3]) == cp
  {
    var e := Encode(cp);
    var a, p1, p2, p3 := cp / 262144, (cp / 4096) % 64, (cp / 64) % 64, cp % 64;
    assert e == [0xF0 + a, 0x80 + p1, 0x80 + p2, 0x80 + p3];
    assert e[0] % 8 == a by {
      assert a <= 4;
    }
    assert Payload(e[1]) == p1 && Payload(e[2]) == p2 && Payload(e[3]) == p3;
    Unpack4(cp);
  }

  /** A value below 2^21 is its four groups of bits shifted back together. */
  lemma Unpack4(cp: nat)
    ensures cp == (((cp / 262144) * 64 + (cp / 4096) % 64) * 64 + (cp / 64) % 64) * 64 + cp % 64
  {
    var q := cp / 64;
    var q2 := q / 64;
    DivDiv64(cp);
    assert q2 == cp / 4096 && q2 / 64 == cp / 262144;
    assert q2 == (q2 / 64) * 64 + q2 % 64;
    assert q == q2 * 64 + q % 64;
    assert cp == q * 64 + cp % 64;
  }

  /** The encoding of a sequence of scalar values. */
  function EncodeAll(cps: seq<nat>): Bytes
    requires forall k :: 0 <= k < |cps| ==> IsScalar(cps[k])
  {
    if cps == [] then [] else assert IsScalar(cps[0]); Encode(cps[0]) + EncodeAll(cps[1..])
  }

  /** The scalar values of a well-formed text, decoded one sequence at a time. */
  function DecodeFrom(s: Bytes, i: nat): (cps: seq<nat>)
    requires ValidFrom(s, i) && i <= |s|
    ensures forall k :: 0 <= k < |cps| ==> IsScalar(cps[k])
    decreases |s| - i
  {
    if i >= |s| then []
    else
      VerifySound(s, i);
      [CodePointAt(s, i)] + DecodeFrom(s, i + SequenceLength(s, i))
  }

  /** A suffix of the text that starts on a sequence boundary. */
  lemma {:induction false} DecodeFromEncodes(s: Bytes, i: nat)
    requires ValidFrom(s, i) && i <= |s|
    ensures EncodeAll(DecodeFrom(s, i)) == s[i..]
    decreases |s| - i
  {
    if i < |s| {
      var n := SequenceLength(s, i);
      VerifySound(s, i);
      DecodeFromEncodes(s, i + n);
      assert s[i..] == s[i..i + n] + s[i + n..];
    }
  }

  /** Every well-formed text is the encoding of the scalar values it holds. */
  lemma ValidUtf8Decodes(s: Bytes)
    requires ValidUtf8(s)
    ensures EncodeAll(DecodeFrom(s, 0)) == s
  {
    DecodeFromEncodes(s, 0);
  }

  lemma {:induction false} ValidFromEncodeAll(pre: Bytes, cps: seq<nat>)
    requires forall k :: 0 <= k < |cps| ==> IsScalar(cps[k])
    ensures ValidFrom(pre + EncodeAll(cps), |pre|)
    decreases |cps|
  {
    var s := pre + EncodeAll(cps);
    if cps != [] {
      var e := Encode(cps[0]);
      assert EncodeAll(cps) == e + EncodeAll(cps[1..]);
      assert s == (pre + e) + EncodeAll(cps[1..]);
      assert s[|pre|..|pre| + |e|] == e;
      VerifyComplete(s, |pre|, cps[0]);
      ValidFromEncodeAll(pre + e, cps[1..]);
    }
  }

  /** Every sequence of scalar values encodes to a text the validator accepts. */
  lemma EncodeAllValid(cps: seq<nat>)
    requires forall k :: 0 <= k < |cps| ==> IsScalar(cps[k])
    ensures ValidUtf8(EncodeAll(cps))
  {
    ValidFromEncodeAll([], cps);
    assert [] + EncodeAll(cps) == EncodeAll(cps);
  }

  /** Concatenating well-formed texts keeps them well formed. */
  lemma ValidUtf8Concat(a: Bytes, b: Bytes)
    requires ValidUtf8(a) && ValidUtf8(b)
    ensures ValidUtf8(a + b)
  {
    ValidUtf8Decodes(a);
    ValidUtf8Decodes(b);
    var ca, cb := DecodeFrom(a, 0), DecodeFrom(b, 0);
    EncodeAllAppend(ca, cb);
    EncodeAllValid(ca + cb);
  }

  lemma {:induction false} EncodeAllAppend(x: seq<nat>, y: seq<nat>)
    requires forall k :: 0 <= k < |x| ==> IsScalar(x[k])
    requires forall k :: 0 <= k < |y| ==> IsScalar(y[k])
    ensures forall k :: 0 <= k < |x + y| ==> IsScalar((x + y)[k])
    ensures EncodeAll(x + y) == EncodeAll(x) + EncodeAll(y)
    decreases |x|
  {
    if x != [] {
      assert (x + y)[1..] == x[1..] + y;
      assert (x + y)[0] == x[0];
      EncodeAllAppend(x[1..], y);
    } else {
      assert x + y == y;
    }
  }
}
