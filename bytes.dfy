/**
 * Bytes of NUL-terminated C strings, as the library reads them through a cursor.
 * A text is modelled as the sequence of its bytes; reading at or past its end
 * yields the terminating NUL, the way `*string` does in the C source.
 */
module Bytes {

  type byte = x: int | 0 <= x < 256
  type Bytes = seq<byte>

  const NUL: byte := 0x00
  const TAB: byte := 0x09
  const LF: byte := 0x0A
  const CR: byte := 0x0D
  const SPACE: byte := 0x20
  const QUOTE: byte := 0x22
  const COMMA: byte := 0x2C
  const MINUS: byte := 0x2D
  const DOT: byte := 0x2E
  const SLASH: byte := 0x2F
  const COLON: byte := 0x3A
  const BACKSLASH: byte := 0x5C
  const STAR: byte := 0x2A
  const LBRACKET: byte := 0x5B
  const RBRACKET: byte := 0x5D
  const LBRACE: byte := 0x7B
  const RBRACE: byte := 0x7D

  /** The byte a cursor at index `i` reads in a NUL-terminated buffer holding `s`. */
  function At(s: Bytes, i: int): byte
  {
    if 0 <= i < |s| then s[i] else NUL
  }

  /** A C string: no byte of it is the terminator. */
  predicate NoNul(s: Bytes)
  {
    forall i :: 0 <= i < |s| ==> s[i] != NUL
  }

  /** What `strlen`, `strcmp` and `strdup` see of a buffer: the bytes before its first NUL. */
  function CString(s: Bytes): (r: Bytes)
    ensures NoNul(r) && r <= s
    ensures |r| < |s| ==> s[|r|] == NUL
  {
    if s == [] || s[0] == NUL then [] else [s[0]] + CString(s[1..])
  }

  lemma {:induction false} CStringOfNoNul(s: Bytes)
    requires NoNul(s)
    ensures CString(s) == s
  {
    if s != [] {
      CStringOfNoNul(s[1..]);
    }
  }

  /** The bytes of an ASCII literal such as "true". */
  function Ascii(s: string): (r: Bytes)
    requires forall i :: 0 <= i < |s| ==> s[i] as int < 128
    ensures |r| == |s| && forall i :: 0 <= i < |s| ==> r[i] == s[i] as int
  {
    if s == [] then [] else [s[0] as int as byte] + Ascii(s[1..])
  }

  /** Whether `token` occurs in `s` at index `i` (the C `strncmp(s + i, token, |token|) == 0`). */
  predicate TokenAt(s: Bytes, i: nat, token: Bytes)
  {
    i + |token| <= |s| && s[i..i + |token|] == token
  }

  /** Concatenation regroups freely. */
  lemma Assoc(a: Bytes, b: Bytes, c: Bytes)
    ensures a + (b + c) == a + b + c
  {
  }
}
