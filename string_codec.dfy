/**
 * The body of a JSON string literal: decoding escapes when parsing
 * (`process_string`, `parse_utf16`, `parse_utf16_hex`) and producing them
 * when serializing (`json_serialize_string`).
 */
module StringCodec {
  import opened Wrappers
  import opened Bytes
  import Utf8

  /** The value of one hexadecimal digit of either case, -1 for any other byte. */
  function HexCharToInt(c: byte): (r: int)
    ensures -1 <= r < 16
    ensures r == -1 <==> !(0x30 <= c <= 0x39 || 0x41 <= c <= 0x46 || 0x61 <= c <= 0x66)
  {
    if 0x30 <= c <= 0x39 then c - 0x30
    else if 0x61 <= c <= 0x66 then c - 0x61 + 10
    else if 0x41 <= c <= 0x46 then c - 0x41 + 10
    else -1
  }

  /** The lower-case digit the serializer writes for a nibble. */
  function HexDigit(d: nat): (c: byte)
    requires d < 16
    ensures HexCharToInt(c) == d
  {
    if d < 10 then 0x30 + d else 0x61 + d - 10
  }

  /** The upper-case digit for a nibble, which the reader accepts as well. */
  function UpperHexDigit(d: nat): (c: byte)
    requires d < 16
    ensures HexCharToInt(c) == d
  {
    if d < 10 then 0x30 + d else 0x41 + d - 10
  }

  /** Every byte the reader accepts is the lower- or upper-case spelling of the digit it returns. */
  lemma HexCharToIntSpells(c: byte)
    ensures HexCharToInt(c) >= 0 ==> c == HexDigit(HexCharToInt(c)) || c == UpperHexDigit(HexCharToInt(c))
  {
  }

  /** A hexadecimal digit of either case. */
  predicate IsHex(c: byte)
  {
    HexCharToInt(c) >= 0
  }

  /** The four hexadecimal digits after `\u`, read at index `i`; None if one is missing or is not a digit. */
  function ParseUtf16Hex(s: Bytes, i: nat): (r: Option<nat>)
    ensures r.Some? <==> IsHex(At(s, i)) && IsHex(At(s, i + 1)) && IsHex(At(s, i + 2)) && IsHex(At(s, i + 3))
    ensures r.Some? ==> r.value < 0x10000 && i + 4 <= |s|
    ensures r.Some? ==> r.value == ((HexCharToInt(At(s, i)) * 16 + HexCharToInt(At(s, i + 1))) * 16
                                    + HexCharToInt(At(s, i + 2))) * 16 + HexCharToInt(At(s, i + 3))
  {
    if At(s, i) == NUL || At(s, i + 1) == NUL || At(s, i + 2) == NUL || At(s, i + 3) == NUL then
      None
    else
      var x1, x2, x3, x4 := HexCharToInt(At(s, i)), HexCharToInt(At(s, i + 1)), HexCharToInt(At(s, i + 2)), HexCharToInt(At(s, i + 3));
      if x1 == -1 || x2 == -1 || x3 == -1 || x4 == -1 then None
      else Some(x1 * 4096 + x2 * 256 + x3 * 16 + x4)
  }

  /** A UTF-16 lead surrogate, D800-DBFF. */
  predicate IsLead(cp: nat)
  {
    0xD800 <= cp <= 0xDBFF
  }

  /** A UTF-16 trail surrogate, DC00-DFFF. */
  predicate IsTrail(cp: nat)
  {
    0xDC00 <= cp <= 0xDFFF
  }

  /** The code point a surrogate pair stands for. */
  function CombineSurrogates(lead: nat, trail: nat): (c: nat)
    requires IsLead(lead) && IsTrail(trail)
    ensures 0x10000 <= c <= 0x10FFFF && Utf8.IsScalar(c)
    ensures c == (lead - 0xD800) * 1024 + (trail - 0xDC00) + 0x10000
  {
    ((lead - 0xD800) % 1024) * 1024 + (trail - 0xDC00) % 1024 + 0x10000
  }

  lemma OutputBytes2(cp: nat)
    requires 0x80 <= cp < 0x800
    ensures [(cp / 64) % 32 + 0xC0, cp % 64 + 0x80] == Utf8.Encode(cp)
  {
  }

  lemma OutputBytes3(cp: nat)
    requires 0x800 <= cp < 0x10000
    ensures [(cp / 4096) % 16 + 0xE0, (cp / 64) % 64 + 0x80, cp % 64 + 0x80] == Utf8.Encode(cp)
  {
  }

  lemma OutputBytes4(c: nat)
    requires 0x10000 <= c <= 0x10FFFF
    ensures [(c / 262144) % 8 + 0xF0, (c / 4096) % 64 + 0x80, (c / 64) % 64 + 0x80, c % 64 + 0x80] == Utf8.Encode(c)
  {
    assert (c / 262144) % 8 == c / 262144;
  }

  /**
   * A `\u` escape whose `u` is at index `u`: the UTF-8 bytes it produces and
   * the index just after it. A lead surrogate must be followed at once by an
   * escaped trail surrogate; a lone trail surrogate is refused. The bytes are
   * assembled with the shifts and masks of the source (`>>` as `/`, `&` as `%`),
   * and are the UTF-8 encoding of the escaped code point or of the pair.
   */
  function ParseUtf16(s: Bytes, u: nat): (r: Option<(Bytes, nat)>)
    ensures r.Some? ==> u + 5 <= r.value.1 <= |s| && |r.value.0| < r.value.1 - u
    ensures ParseUtf16Hex(s, u + 1).None? ==> r.None?
    ensures var h := ParseUtf16Hex(s, u + 1);
      h.Some? && !IsLead(h.value) && !IsTrail(h.value) ==> r == Some((Utf8.Encode(h.value), u + 5))
    ensures var h := ParseUtf16Hex(s, u + 1);
      h.Some? && IsTrail(h.value) ==> r.None?
    ensures var h, t := ParseUtf16Hex(s, u + 1), ParseUtf16Hex(s, u + 7);
      h.Some? && IsLead(h.value) ==>
        (r.Some? <==> At(s, u + 5) == BACKSLASH && At(s, u + 6) == 0x75 && t.Some? && IsTrail(t.value))
    ensures var h, t := ParseUtf16Hex(s, u + 1), ParseUtf16Hex(s, u + 7);
      h.Some? && IsLead(h.value) && r.Some? ==>
        t.Some? && IsTrail(t.value) && r == Some((Utf8.Encode(CombineSurrogates(h.value, t.value)), u + 11))
  {
    match ParseUtf16Hex(s, u + 1)
    case None => None
    case Some(cp) =>
      if cp < 0x80 then Some(([cp], u + 5))
      else if cp < 0x800 then
        OutputBytes2(cp);
        Some(([(cp / 64) % 32 + 0xC0, cp % 64 + 0x80], u + 5))
      else if cp < 0xD800 || cp > 0xDFFF then
        OutputBytes3(cp);
        Some(([(cp / 4096) % 16 + 0xE0, (cp / 64) % 64 + 0x80, cp % 64 + 0x80], u + 5))
      else if cp <= 0xDBFF then
        if At(s, u + 5) != BACKSLASH || At(s, u + 6) != 0x75 then None
        else match ParseUtf16Hex(s, u + 7)
          case None => None
          case Some(trail) =>
            if trail < 0xDC00 || trail > 0xDFFF then None
            else
              var c := CombineSurrogates(cp, trail);
              OutputBytes4(c);
              Some(([(c / 262144) % 8 + 0xF0, (c / 4096) % 64 + 0x80, (c / 64) % 64 + 0x80, c % 64 + 0x80], u + 11))
      else None
  }

  /** The code point an accepted `\u` escape stands for: its hex value, or the pair it leads. */
  function EscapedCodePoint(s: Bytes, u: nat): (cp: nat)
    requires ParseUtf16(s, u).Some?
    ensures Utf8.IsScalar(cp)
  {
    var h := ParseUtf16Hex(s, u + 1).value;
    if IsLead(h) then CombineSurrogates(h, ParseUtf16Hex(s, u + 7).value) else h
  }

  /** The bytes of every accepted `\u` escape are the RFC 3629 encoding of the code point it stands for. */
  lemma ParseUtf16Encodes(s: Bytes, u: nat)
    requires ParseUtf16(s, u).Some?
    ensures ParseUtf16(s, u).value.0 == Utf8.Encode(EscapedCodePoint(s, u))
  {
  }

  /** `\uD83D\uDE00` is the pair for U+1F600, written as F0 9F 98 80; a lone `\uDE00` is refused. */
  lemma SurrogatePairExample()
    ensures ParseUtf16([BACKSLASH, 0x75, 0x44, 0x38, 0x33, 0x44, BACKSLASH, 0x75, 0x44, 0x45, 0x30, 0x30], 1)
      == Some(([0xF0, 0x9F, 0x98, 0x80], 12))
    ensures ParseUtf16([BACKSLASH, 0x75, 0x44, 0x45, 0x30, 0x30], 1).None?
  {
    var s: Bytes := [BACKSLASH, 0x75, 0x44, 0x38, 0x33, 0x44, BACKSLASH, 0x75, 0x44, 0x45, 0x30, 0x30];
    assert ParseUtf16Hex(s, 2) == Some(0xD83D);
    assert ParseUtf16Hex(s, 8) == Some(0xDE00);
    assert CombineSurrogates(0xD83D, 0xDE00) == 0x1F600;
    assert ParseUtf16Hex([BACKSLASH, 0x75, 0x44, 0x45, 0x30, 0x30], 2) == Some(0xDE00);
  }

  /** Every accepted `\u` escape produces well-formed UTF-8. */
  lemma ParseUtf16Valid(s: Bytes, u: nat)
    requires ParseUtf16(s, u).Some?
    ensures Utf8.ValidUtf8(ParseUtf16(s, u).value.0)
  {
    ParseUtf16Encodes(s, u);
    var cp := EscapedCodePoint(s, u);
    Utf8.EncodeAllValid([cp]);
    assert Utf8.EncodeAll([cp]) == Utf8.Encode(cp) + Utf8.EncodeAll([]);
  }

  /** The byte a one-letter escape `\c` stands for. */
  function SimpleEscape(c: byte): Option<byte>
  {
    if c == QUOTE then Some(QUOTE)
    else if c == BACKSLASH then Some(BACKSLASH)
    else if c == SLASH then Some(SLASH)
    else if c == 0x62 then Some(0x08)
    else if c == 0x66 then Some(0x0C)
    else if c == 0x6E then Some(LF)
    else if c == 0x72 then Some(CR)
    else if c == 0x74 then Some(TAB)
    else None
  }

  /**
   * One turn of the decoding loop at index `i`: the bytes it appends and the
   * index it continues from, or None for an unknown escape, a bad `\u` escape
   * or a raw control byte.
   */
  function DecodeStep(s: Bytes, i: nat): (r: Option<(Bytes, nat)>)
    requires i < |s|
    ensures r.Some? ==> i < r.value.1 <= |s| && |r.value.0| <= r.value.1 - i
  {
    if s[i] == BACKSLASH then
      var c := At(s, i + 1);
      if c == 0x75 then ParseUtf16(s, i + 1)
      else match SimpleEscape(c)
        case Some(b) => Some(([b], i + 2))
        case None => None
    else if s[i] < 0x20 then None
    else Some(([s[i]], i + 1))
  }

  /** Prefixes decoded bytes to the decoding of the rest, keeping a failure. */
  function Prepend(p: Bytes, r: Option<Bytes>): Option<Bytes>
  {
    match r
    case None => None
    case Some(t) => Some(p + t)
  }

  lemma PrependAssoc(a: Bytes, b: Bytes, r: Option<Bytes>)
    ensures Prepend([], r) == r
    ensures Prepend(a, Prepend(b, r)) == Prepend(a + b, r)
  {
    if r.Some? {
      assert [] + r.value == r.value;
      assert a + (b + r.value) == (a + b) + r.value;
    }
  }

  /** The decoding of the body from index `i`; it stops at the end or at a NUL. */
  function DecodeFrom(s: Bytes, i: nat): Option<Bytes>
    decreases |s| - i
  {
    if i >= |s| || s[i] == NUL then Some([])
    else match DecodeStep(s, i)
      case None => None
      case Some((out, next)) => Prepend(out, DecodeFrom(s, next))
  }

  /** What `process_string` yields for the body of a string literal (None for NULL). */
  function Unescape(s: Bytes): Option<Bytes>
  {
    DecodeFrom(s, 0)
  }

  /**
   * The decoding loop of `process_string`: it writes into an output buffer of
   * the input's length plus one, then copies the used part out.
   */
  method ProcessString(input: Bytes) returns (r: Option<Bytes>)
    ensures r == Unescape(input)
  {
    var output := new byte[|input| + 1];
    var i, o := 0, 0;
    PrependAssoc([], [], Unescape(input));
    while i < |input| && input[i] != NUL
      invariant 0 <= o <= i <= |input|
      invariant Unescape(input) == Prepend(output[..o], DecodeFrom(input, i))
      decreases |input| - i
    {
      var step := DecodeStep(input, i);
      if step.None? {
        return None;
      }
      var (out, next) := step.value;
      ghost var before := output[..o];
      WriteBytes(output, o, out);
      PrependAssoc(before, out, DecodeFrom(input, next));
      i, o := next, o + |out|;
    }
    ghost var done := output[..o];
    assert done + [] == done;
    output[o] := NUL;
    assert output[..o] == done;
    r := Some(output[..o]);
  }

  /** Copies the bytes one turn of the decoding loop produces to the output at index `o`. */
  method WriteBytes(output: array<byte>, o: nat, out: Bytes)
    requires o + |out| <= output.Length
    modifies output
    ensures output[..o + |out|] == old(output[..o]) + out
  {
    var k := 0;
    while k < |out|
      invariant 0 <= k <= |out|
      invariant output[..o + k] == old(output[..o]) + out[..k]
    {
      output[o + k] := out[k];
      k := k + 1;
    }
    assert out[..k] == out;
  }

  /** A decoded body is never longer than the text it came from. */
  lemma {:induction false} DecodeFromShrinks(s: Bytes, i: nat)
    requires i <= |s| && DecodeFrom(s, i).Some?
    ensures |DecodeFrom(s, i).value| <= |s| - i
    decreases |s| - i
  {
    if i < |s| && s[i] != NUL {
      var (out, next) := DecodeStep(s, i).value;
      DecodeFromShrinks(s, next);
    }
  }

  /** The escaped form the serializer writes for one byte. */
  function EscapeByte(c: byte, escapeSlashes: bool): (r: Bytes)
    ensures 1 <= |r| <= 6 && NoNul(r)
  {
    if c == QUOTE then [BACKSLASH, QUOTE]
    else if c == BACKSLASH then [BACKSLASH, BACKSLASH]
    else if c == 0x08 then [BACKSLASH, 0x62]
    else if c == 0x0C then [BACKSLASH, 0x66]
    else if c == LF then [BACKSLASH, 0x6E]
    else if c == CR then [BACKSLASH, 0x72]
    else if c == TAB then [BACKSLASH, 0x74]
    else if c < 0x20 then [BACKSLASH, 0x75, 0x30, 0x30, HexDigit(c / 16), HexDigit(c % 16)]
    else if c == SLASH && escapeSlashes then [BACKSLASH, SLASH]
    else [c]
  }

  /** The escaped body of a string, byte by byte. */
  function Escape(s: Bytes, escapeSlashes: bool): (r: Bytes)
    ensures NoNul(r) && |s| <= |r| <= 6 * |s|
  {
    if s == [] then [] else EscapeByte(s[0], escapeSlashes) + Escape(s[1..], escapeSlashes)
  }

  /** The string literal `json_serialize_string` writes: the bytes before the first NUL, escaped and quoted. */
  function Quoted(s: Bytes, escapeSlashes: bool): Bytes
  {
    [QUOTE] + Escape(CString(s), escapeSlashes) + [QUOTE]
  }

  /** Decoding the escape of one byte, wherever it stands, yields that byte and moves past the escape. */
  lemma DecodeStepOfEscape(pre: Bytes, c: byte, escapeSlashes: bool, rest: Bytes)
    ensures var s := pre + EscapeByte(c, escapeSlashes) + rest;
      DecodeStep(s, |pre|) == Some(([c], |pre| + |EscapeByte(c, escapeSlashes)|))
  {
    var e := EscapeByte(c, escapeSlashes);
    var s := pre + e + rest;
    assert forall k :: 0 <= k < |e| ==> At(s, |pre| + k) == e[k];
    if 0x20 <= c && c != QUOTE && c != BACKSLASH && !(c == SLASH && escapeSlashes) {
      assert e == [c];
    } else if c < 0x20 && c != 0x08 && c != 0x0C && c != LF && c != CR && c != TAB {
      assert ParseUtf16Hex(s, |pre| + 2) == Some(c / 16 * 16 + c % 16);
    }
  }

  /** One turn of the decoding loop, as an equation on DecodeFrom. */
  lemma DecodeFromStep(s: Bytes, i: nat, out: Bytes, next: nat)
    requires i < |s| && s[i] != NUL && DecodeStep(s, i) == Some((out, next))
    ensures DecodeFrom(s, i) == Prepend(out, DecodeFrom(s, next))
  {
  }

  /** The first turn of the decoding loop over an escaped byte gives it back and moves past its escape. */
  lemma DecodeEscapeHead(pre: Bytes, c: byte, escapeSlashes: bool, rest: Bytes)
    ensures var e := EscapeByte(c, escapeSlashes);
      DecodeFrom(pre + e + rest, |pre|) == Prepend([c], DecodeFrom(pre + e + rest, |pre| + |e|))
  {
    var e := EscapeByte(c, escapeSlashes);
    var t := pre + e + rest;
    DecodeStepOfEscape(pre, c, escapeSlashes, rest);
    assert t[|pre|] == e[0];
    DecodeFromStep(t, |pre|, [c], |pre| + |e|);
  }

  /** An escaped text is the escape of its first byte followed by the escape of the rest. */
  lemma EscapeSplit(pre: Bytes, s: Bytes, escapeSlashes: bool)
    requires s != []
    ensures pre + Escape(s, escapeSlashes) == pre + EscapeByte(s[0], escapeSlashes) + Escape(s[1..], escapeSlashes)
  {
    assert Escape(s, escapeSlashes) == EscapeByte(s[0], escapeSlashes) + Escape(s[1..], escapeSlashes);
    Assoc(pre, EscapeByte(s[0], escapeSlashes), Escape(s[1..], escapeSlashes));
  }

  /** Decoding an escaped byte gives it back, followed by the decoding of what comes after its escape. */
  lemma DecodeEscapeCons(pre: Bytes, c: byte, escapeSlashes: bool, rest: Bytes, tail: Bytes)
    requires var pe := pre + EscapeByte(c, escapeSlashes); DecodeFrom(pe + rest, |pe|) == Some(tail)
    ensures DecodeFrom(pre + EscapeByte(c, escapeSlashes) + rest, |pre|) == Some([c] + tail)
  {
    DecodeEscapeHead(pre, c, escapeSlashes, rest);
  }

  /** Decoding an escaped text placed after any prefix gives back the text. */
  lemma {:induction false} DecodeEscapeFrom(pre: Bytes, s: Bytes, escapeSlashes: bool)
    ensures DecodeFrom(pre + Escape(s, escapeSlashes), |pre|) == Some(s)
    decreases |s|
  {
    if s != [] {
      EscapeSplit(pre, s, escapeSlashes);
      DecodeEscapeFrom(pre + EscapeByte(s[0], escapeSlashes), s[1..], escapeSlashes);
      DecodeEscapeCons(pre, s[0], escapeSlashes, Escape(s[1..], escapeSlashes), s[1..]);
      assert [s[0]] + s[1..] == s;
    } else {
      assert pre + Escape(s, escapeSlashes) == pre;
    }
  }

  /** Round trip: the parser's decoding of what the serializer escapes gives back the bytes. */
  lemma UnescapeEscape(s: Bytes, escapeSlashes: bool)
    ensures Unescape(Escape(s, escapeSlashes)) == Some(s)
  {
    DecodeEscapeFrom([], s, escapeSlashes);
    assert [] + Escape(s, escapeSlashes) == Escape(s, escapeSlashes);
  }
}
