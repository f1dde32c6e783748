/**
 * The serializer: one recursive walk that either counts the bytes of the
 * text (no buffer) or writes them into a buffer, each append followed by a
 * NUL, and the entry points built on the two passes.
 */
module Serializer {
  import opened Wrappers
  import opened Bytes
  import opened Members
  import opened Json
  import opened StringCodec

  /** `sprintf(buf, "%1.17g", number)`: the text of a number, the same in both passes. */
  type Formatter = real -> Bytes

  const INDENT_TEXT: Bytes := [SPACE, SPACE, SPACE, SPACE]

  /** Four spaces per level. */
  function Indent(level: nat): (r: Bytes)
    ensures |r| == 4 * level
  {
    if level == 0 then [] else Indent(level - 1) + INDENT_TEXT
  }

  lemma {:induction false} IndentSpaces(level: nat)
    ensures forall k :: 0 <= k < |Indent(level)| ==> Indent(level)[k] == SPACE
  {
    if level > 0 {
      IndentSpaces(level - 1);
    }
  }

  /** The opening bracket, and in pretty mode the newline after it when the container is not empty. */
  function Opening(bracket: byte, count: nat, pretty: bool): Bytes
  {
    [bracket] + (if count > 0 && pretty then [LF] else [])
  }

  /** In pretty mode the indent before the closing bracket of a non-empty container, then the bracket. */
  function Closing(bracket: byte, count: nat, level: nat, pretty: bool): Bytes
  {
    (if count > 0 && pretty then Indent(level) else []) + [bracket]
  }

  /** The indent before an element or member in pretty mode. */
  function Lead(level: nat, pretty: bool): Bytes
  {
    if pretty then Indent(level + 1) else []
  }

  /** The comma after every element or member but the last, and in pretty mode a newline. */
  function Sep(last: bool, pretty: bool): Bytes
  {
    (if last then [] else [COMMA]) + (if pretty then [LF] else [])
  }

  /** The quoted name of a member, its colon, and in pretty mode a space. */
  function Key(name: Bytes, pretty: bool, esc: bool): Bytes
  {
    Quoted(name, esc) + [COLON] + (if pretty then [SPACE] else [])
  }

  /** The text of a value at an indentation level. */
  function Text(v: Json, level: nat, pretty: bool, fmt: Formatter, esc: bool): Bytes
    decreases v, 1
  {
    match v
    case Null => NULL_TEXT
    case Boolean(b) => if b then TRUE_TEXT else FALSE_TEXT
    case Number(n) => fmt(n)
    case String(s) => Quoted(s, esc)
    case Array(items) =>
      Opening(LBRACKET, |items|, pretty) + ItemsText(items, 0, level, pretty, fmt, esc)
      + Closing(RBRACKET, |items|, level, pretty)
    case Object(ps) =>
      Opening(LBRACE, |ps|, pretty) + PairsText(ps, 0, level, pretty, fmt, esc)
      + Closing(RBRACE, |ps|, level, pretty)
  }

  /** One array element with its indent and separator. */
  function ItemText(child: Json, last: bool, level: nat, pretty: bool, fmt: Formatter, esc: bool): Bytes
    decreases child, 2
  {
    Lead(level, pretty) + Text(child, level + 1, pretty, fmt, esc) + Sep(last, pretty)
  }

  /** The elements of an array from index `i` on. */
  function ItemsText(items: seq<Json>, i: nat, level: nat, pretty: bool, fmt: Formatter, esc: bool): Bytes
    decreases items, |items| - i
  {
    if i >= |items| then []
    else ItemText(items[i], i == |items| - 1, level, pretty, fmt, esc) + ItemsText(items, i + 1, level, pretty, fmt, esc)
  }

  /** One object member with its indent, name and separator. */
  function PairText(name: Bytes, value: Json, last: bool, level: nat, pretty: bool, fmt: Formatter, esc: bool): Bytes
    decreases value, 2
  {
    Lead(level, pretty) + Key(name, pretty, esc) + Text(value, level + 1, pretty, fmt, esc) + Sep(last, pretty)
  }

  /** The members of an object from index `i` on. */
  function PairsText(ps: seq<Pair<Json>>, i: nat, level: nat, pretty: bool, fmt: Formatter, esc: bool): Bytes
    decreases ps, |ps| - i
  {
    if i >= |ps| then []
    else PairText(ps[i].name, ps[i].value, i == |ps| - 1, level, pretty, fmt, esc) + PairsText(ps, i + 1, level, pretty, fmt, esc)
  }

  /** A buffer with `s` written at `p`, one byte after the other. */
  function Splice(b: seq<byte>, p: nat, s: Bytes): (r: seq<byte>)
    requires p + |s| <= |b|
    ensures |r| == |b|
    decreases |s|
  {
    if s == [] then b else Splice(b, p, s[..|s| - 1])[p + |s| - 1 := s[|s| - 1]]
  }

  lemma {:induction false} SpliceAt(b: seq<byte>, p: nat, s: Bytes, k: nat)
    requires p + |s| <= |b| && k < |b|
    ensures Splice(b, p, s)[k] == if p <= k < p + |s| then s[k - p] else b[k]
    decreases |s|
  {
    if s != [] {
      SpliceAt(b, p, s[..|s| - 1], k);
    }
  }

  /** Writing over the last byte of an earlier write extends it. */
  lemma SpliceOverwrite(b: seq<byte>, p: nat, x: Bytes, t: byte, y: Bytes)
    requires p + |x| + |y| <= |b| && |y| >= 1
    ensures Splice(Splice(b, p, x + [t]), p + |x|, y) == Splice(b, p, x + y)
  {
    var m := Splice(b, p, x + [t]);
    var l := Splice(m, p + |x|, y);
    var r := Splice(b, p, x + y);
    forall k | 0 <= k < |b|
      ensures l[k] == r[k]
    {
      SpliceAt(m, p + |x|, y, k);
      SpliceAt(b, p, x + [t], k);
      SpliceAt(b, p, x + y, k);
      if p <= k < p + |x| {
        assert (x + [t])[k - p] == x[k - p] == (x + y)[k - p];
      } else if p + |x| <= k < p + |x| + |y| {
        assert (x + y)[k - p] == y[k - p - |x|];
      }
    }
  }

  /** A write may be taken to include the unchanged byte after it. */
  lemma SpliceExtend(b: seq<byte>, p: nat, x: Bytes)
    requires p + |x| < |b|
    ensures Splice(b, p, x) == Splice(b, p, x + [b[p + |x|]])
  {
    var y := x + [b[p + |x|]];
    forall k | 0 <= k < |b|
      ensures Splice(b, p, x)[k] == Splice(b, p, y)[k]
    {
      SpliceAt(b, p, x, k);
      SpliceAt(b, p, y, k);
    }
  }

  /** In `now`, the bytes `w` and a NUL stand at `start`; everything else is as in `b0`. */
  predicate Wrote(now: seq<byte>, b0: seq<byte>, start: nat, w: Bytes)
  {
    start + |w| < |b0| && now == Splice(b0, start, w + [NUL])
  }

  /** Nothing written yet, or `w` written with its terminator. */
  predicate Ahead(now: seq<byte>, b0: seq<byte>, start: nat, w: Bytes)
  {
    Wrote(now, b0, start, w) || (w == [] && now == b0 && start < |b0|)
  }

  /** An append right after what was written so far extends it. */
  lemma AheadAppend(b0: seq<byte>, b1: seq<byte>, start: nat, done: Bytes, s: Bytes)
    requires Ahead(b1, b0, start, done) && start + |done| + |s| < |b0|
    ensures Wrote(Splice(b1, start + |done|, s + [NUL]), b0, start, done + s)
  {
    if Wrote(b1, b0, start, done) {
      SpliceOverwrite(b0, start, done, NUL, s + [NUL]);
      assert done + (s + [NUL]) == done + s + [NUL];
    } else {
      assert done + s == s;
    }
  }

  /** `append_string`: counts `s`, or copies it and a NUL after it. */
  method AppendString(buf: array?<byte>, pos: nat, s: Bytes) returns (written: nat)
    requires buf != null ==> pos + |s| < buf.Length
    modifies buf
    ensures written == |s|
    ensures buf != null ==> buf[..] == Splice(old(buf[..]), pos, s + [NUL])
  {
    if buf == null {
      return |s|;
    }
    var k := 0;
    while k < |s|
      invariant 0 <= k <= |s|
      invariant buf[..] == Splice(old(buf[..]), pos, s[..k])
    {
      buf[pos + k] := s[k];
      assert s[..k + 1][..k] == s[..k];
      k := k + 1;
    }
    assert s[..k] == s && (s + [NUL])[..|s|] == s;
    buf[pos + |s|] := NUL;
    return |s|;
  }

  /** `append_indent`: `level` appends of four spaces; nothing at all at level 0. */
  method AppendIndent(buf: array?<byte>, pos: nat, level: nat) returns (written: nat)
    requires buf != null ==> pos + |Indent(level)| < buf.Length
    modifies buf
    ensures written == |Indent(level)|
    ensures buf != null ==> Ahead(buf[..], old(buf[..]), pos, Indent(level))
  {
    ghost var b0 := if buf == null then [] else buf[..];
    var total := 0;
    var i := 0;
    while i < level
      invariant 0 <= i <= level && total == 4 * i
      invariant buf != null ==> Ahead(buf[..], b0, pos, Indent(i))
    {
      var w := IndentStep(buf, pos, i, b0);
      total := total + w;
      i := i + 1;
    }
    return total;
  }

  /** One turn of `append_indent`'s loop: four more spaces after the first `i` levels. */
  method IndentStep(buf: array?<byte>, pos: nat, i: nat, ghost b0: seq<byte>) returns (written: nat)
    requires buf != null ==> pos + |Indent(i + 1)| < buf.Length == |b0| && Ahead(buf[..], b0, pos, Indent(i))
    modifies buf
    ensures written == |INDENT_TEXT|
    ensures buf != null ==> Ahead(buf[..], b0, pos, Indent(i + 1))
  {
    ghost var b1 := if buf == null then [] else buf[..];
    written := AppendString(buf, pos + 4 * i, INDENT_TEXT);
    if buf != null {
      AheadAppend(b0, b1, pos, Indent(i), INDENT_TEXT);
    }
  }

  /** The bytes `json_serialize_string` copies as they are, without an escape and without a NUL after them. */
  predicate IsPlain(c: byte)
  {
    c >= 0x20 && c != QUOTE && c != BACKSLASH && c != SLASH
  }

  /** One byte of `json_serialize_string`'s loop: copied, or appended as its escape; `t` is the byte left after it. */
  method SerializeByte(c: byte, buf: array?<byte>, pos: nat, escapeSlashes: bool) returns (written: nat, ghost t: byte)
    requires buf != null ==> pos + |EscapeByte(c, escapeSlashes)| < buf.Length
    modifies buf
    ensures written == |EscapeByte(c, escapeSlashes)|
    ensures buf != null ==> buf[..] == Splice(old(buf[..]), pos, EscapeByte(c, escapeSlashes) + [t])
  {
    t := NUL;
    if IsPlain(c) {
      if buf != null {
        t := buf[pos + 1];
        buf[pos] := c;
        assert [c][..0] == [];
        SpliceExtend(old(buf[..]), pos, [c]);
      }
      written := 1;
    } else {
      written := AppendString(buf, pos, EscapeByte(c, escapeSlashes));
    }
  }

  /** Escaping works byte by byte, so it distributes over concatenation. */
  lemma {:induction false} EscapeAppend(a: Bytes, b: Bytes, escapeSlashes: bool)
    ensures Escape(a + b, escapeSlashes) == Escape(a, escapeSlashes) + Escape(b, escapeSlashes)
  {
    if a == [] {
      assert a + b == b;
    } else {
      assert (a + b)[0] == a[0] && (a + b)[1..] == a[1..] + b;
      EscapeAppend(a[1..], b, escapeSlashes);
    }
  }

  lemma EscapeSnoc(s: Bytes, i: nat, escapeSlashes: bool)
    requires i < |s|
    ensures Escape(s[..i + 1], escapeSlashes) == Escape(s[..i], escapeSlashes) + EscapeByte(s[i], escapeSlashes)
    ensures |Escape(s[..i + 1], escapeSlashes)| <= |Escape(s, escapeSlashes)|
  {
    assert s[..i + 1] == s[..i] + [s[i]];
    EscapeAppend(s[..i], [s[i]], escapeSlashes);
    assert Escape([s[i]], escapeSlashes) == EscapeByte(s[i], escapeSlashes) + Escape([], escapeSlashes);
    assert s == s[..i + 1] + s[i + 1..];
    EscapeAppend(s[..i + 1], s[i + 1..], escapeSlashes);
  }

  /** One pass of the loop of `json_serialize_string`. */
  method SerializeEscapedStep(s: Bytes, i: nat, buf: array?<byte>, pos: nat, total: nat, escapeSlashes: bool,
                              ghost b0: seq<byte>, ghost t: byte)
    returns (total': nat, ghost t': byte)
    requires i < |s| && total == |Escape(s[..i], escapeSlashes)| <= |Escape(s, escapeSlashes)|
    requires buf != null ==> pos + |Escape(s, escapeSlashes)| < buf.Length == |b0|
    requires buf != null ==> buf[..] == Splice(b0, pos, Escape(s[..i], escapeSlashes) + [t])
    modifies buf
    ensures total' == |Escape(s[..i + 1], escapeSlashes)| <= |Escape(s, escapeSlashes)|
    ensures buf != null ==> buf[..] == Splice(b0, pos, Escape(s[..i + 1], escapeSlashes) + [t'])
  {
    ghost var done := Escape(s[..i], escapeSlashes);
    ghost var piece := EscapeByte(s[i], escapeSlashes);
    EscapeSnoc(s, i, escapeSlashes);
    ghost var b1 := if buf == null then [] else buf[..];
    var q := pos + total;
    var written;
    written, t' := SerializeByte(s[i], buf, q, escapeSlashes);
    if buf != null {
      SpliceThen(b0, b1, buf[..], pos, q, done, t, piece + [t']);
      Assoc(done, piece, [t']);
    }
    total' := total + written;
  }

  /** A write that starts on the spare byte after an earlier one extends it. */
  lemma SpliceThen(b0: seq<byte>, b1: seq<byte>, b2: seq<byte>, p: nat, q: nat, x: Bytes, t: byte, y: Bytes)
    requires q == p + |x| && q + |y| <= |b0| && |y| >= 1
    requires b1 == Splice(b0, p, x + [t]) && b2 == Splice(b1, q, y)
    ensures b2 == Splice(b0, p, x + y)
  {
    SpliceOverwrite(b0, p, x, t, y);
  }

  /** The loop of `json_serialize_string`: every byte of `s`, copied or escaped; `t` is the byte left after them. */
  method SerializeEscaped(s: Bytes, buf: array?<byte>, pos: nat, escapeSlashes: bool) returns (written: nat, ghost t: byte)
    requires buf != null ==> pos + |Escape(s, escapeSlashes)| < buf.Length
    modifies buf
    ensures written == |Escape(s, escapeSlashes)|
    ensures buf != null ==> buf[..] == Splice(old(buf[..]), pos, Escape(s, escapeSlashes) + [t])
  {
    ghost var b0 := if buf == null then [] else buf[..];
    t := if buf == null then NUL else buf[pos];
    if buf != null {
      SpliceExtend(b0, pos, []);
    }
    var total := 0;
    var i := 0;
    while i < |s|
      invariant 0 <= i <= |s|
      invariant total == |Escape(s[..i], escapeSlashes)| <= |Escape(s, escapeSlashes)|
      invariant buf != null ==> |b0| == buf.Length && buf[..] == Splice(b0, pos, Escape(s[..i], escapeSlashes) + [t])
    {
      total, t := SerializeEscapedStep(s, i, buf, pos, total, escapeSlashes, b0, t);
      i := i + 1;
    }
    assert s[..i] == s;
    return total, t;
  }

  /** The three appends of `json_serialize_string` together write the quoted text and a NUL. */
  lemma QuotedWrites(b0: seq<byte>, b1: seq<byte>, b2: seq<byte>, b3: seq<byte>, pos: nat, q1: nat, q2: nat, e: Bytes, t: byte)
    requires q1 == pos + 1 && q2 == q1 + |e| && q2 + 1 < |b0|
    requires pos + 1 < |b0| && b1 == Splice(b0, pos, [QUOTE] + [NUL])
    requires q1 + |e| < |b1| && b2 == Splice(b1, q1, e + [t])
    requires q2 + 1 < |b2| && b3 == Splice(b2, q2, [QUOTE] + [NUL])
    ensures b3 == Splice(b0, pos, [QUOTE] + e + [QUOTE] + [NUL])
  {
    SpliceOverwrite(b0, pos, [QUOTE], NUL, e + [t]);
    assert [QUOTE] + (e + [t]) == ([QUOTE] + e) + [t];
    SpliceOverwrite(b0, pos, [QUOTE] + e, t, [QUOTE] + [NUL]);
    assert ([QUOTE] + e) + ([QUOTE] + [NUL]) == [QUOTE] + e + [QUOTE] + [NUL];
  }

  /** `json_serialize_string`: the quoted, escaped C string. */
  method SerializeString(str: Bytes, buf: array?<byte>, pos: nat, escapeSlashes: bool) returns (written: nat)
    requires buf != null ==> pos + |Quoted(str, escapeSlashes)| < buf.Length
    modifies buf
    ensures written == |Quoted(str, escapeSlashes)|
    ensures buf != null ==> buf[..] == Splice(old(buf[..]), pos, Quoted(str, escapeSlashes) + [NUL])
  {
    var s := CString(str);
    ghost var e := Escape(s, escapeSlashes);
    ghost var b0 := if buf == null then [] else buf[..];
    var total := AppendString(buf, pos, [QUOTE]);
    ghost var b1 := if buf == null then [] else buf[..];
    var q1 := pos + total;
    var w, t := SerializeEscaped(s, buf, q1, escapeSlashes);
    total := total + w;
    ghost var b2 := if buf == null then [] else buf[..];
    var q2 := pos + total;
    w := AppendString(buf, q2, [QUOTE]);
    if buf != null {
      QuotedWrites(b0, b1, b2, buf[..], pos, q1, q2, e, t);
    }
    return total + w;
  }

  /** Bytes `s` written right after what `done` left: together they are `done + s`. */
  lemma WroteThen(b0: seq<byte>, b1: seq<byte>, b2: seq<byte>, start: nat, q: nat, done: Bytes, s: Bytes)
    requires q == start + |done| && |b1| == |b0|
    requires Wrote(b1, b0, start, done) && Ahead(b2, b1, q, s)
    ensures Wrote(b2, b0, start, done + s)
  {
    if Wrote(b2, b1, q, s) {
      SpliceOverwrite(b0, start, done, NUL, s + [NUL]);
      assert done + (s + [NUL]) == done + s + [NUL];
    } else {
      assert done + s == done;
    }
  }

  /** `APPEND_STRING` inside the walk: `s` goes after the `done` bytes written from `pos`. */
  method Put(buf: array?<byte>, pos: nat, total: nat, s: Bytes, ghost b0: seq<byte>, ghost done: Bytes)
    returns (written: nat)
    requires total == |done|
    requires buf != null ==> |b0| == buf.Length && pos + total + |s| < |b0| && Wrote(buf[..], b0, pos, done)
    modifies buf
    ensures written == |s|
    ensures buf != null ==> Wrote(buf[..], b0, pos, done + s)
  {
    ghost var b1 := if buf == null then [] else buf[..];
    var q := pos + total;
    written := AppendString(buf, q, s);
    if buf != null {
      WroteThen(b0, b1, buf[..], pos, q, done, s);
    }
  }

  /** `json_serialize_string` inside the walk: the quoted text goes after the `done` bytes written from `pos`. */
  method PutQuoted(str: Bytes, buf: array?<byte>, pos: nat, total: nat, esc: bool, ghost b0: seq<byte>, ghost done: Bytes)
    returns (written: nat)
    requires total == |done|
    requires buf != null ==> |b0| == buf.Length && pos + total + |Quoted(str, esc)| < |b0| && Wrote(buf[..], b0, pos, done)
    modifies buf
    ensures written == |Quoted(str, esc)|
    ensures buf != null ==> Wrote(buf[..], b0, pos, done + Quoted(str, esc))
  {
    ghost var b1 := if buf == null then [] else buf[..];
    var q := pos + total;
    written := SerializeString(str, buf, q, esc);
    if buf != null {
      WroteThen(b0, b1, buf[..], pos, q, done, Quoted(str, esc));
    }
  }

  /** `APPEND_INDENT` inside the walk. */
  method PutIndent(buf: array?<byte>, pos: nat, total: nat, level: nat, ghost b0: seq<byte>, ghost done: Bytes)
    returns (written: nat)
    requires total == |done|
    requires buf != null ==> |b0| == buf.Length && pos + total + |Indent(level)| < |b0| && Wrote(buf[..], b0, pos, done)
    modifies buf
    ensures written == |Indent(level)|
    ensures buf != null ==> Wrote(buf[..], b0, pos, done + Indent(level))
  {
    ghost var b1 := if buf == null then [] else buf[..];
    var q := pos + total;
    written := AppendIndent(buf, q, level);
    if buf != null {
      WroteThen(b0, b1, buf[..], pos, q, done, Indent(level));
    }
  }

  /** `json_serialize_to_buffer_r`: counts the text of `v`, or writes it, a NUL after it, at `pos`. */
  method SerializeValue(v: Json, buf: array?<byte>, pos: nat, level: nat, pretty: bool, fmt: Formatter, esc: bool)
    returns (written: nat)
    requires WellFormed(v)
    requires buf != null ==> pos + |Text(v, level, pretty, fmt, esc)| < buf.Length
    modifies buf
    ensures written == |Text(v, level, pretty, fmt, esc)|
    ensures buf != null ==> Wrote(buf[..], old(buf[..]), pos, Text(v, level, pretty, fmt, esc))
    decreases v, 1
  {
    match v
    case Null =>
      written := AppendString(buf, pos, NULL_TEXT);
    case Boolean(b) =>
      if b {
        written := AppendString(buf, pos, TRUE_TEXT);
      } else {
        written := AppendString(buf, pos, FALSE_TEXT);
      }
    case Number(n) =>
      // sprintf writes the digits and a NUL, into `buf` or into a scratch buffer
      written := AppendString(buf, pos, fmt(n));
    case String(s) =>
      written := SerializeString(s, buf, pos, esc);
    case Array(items) =>
      written := SerializeArray(items, buf, pos, level, pretty, fmt, esc);
    case Object(ps) =>
      written := SerializeObject(ps, buf, pos, level, pretty, fmt, esc);
  }

  /** One more element moves from the rest of the array text to the written part. */
  lemma ItemsTextStep(items: seq<Json>, i: nat, level: nat, pretty: bool, fmt: Formatter, esc: bool, done: Bytes, whole: Bytes)
    requires i < |items| && done + ItemsText(items, i, level, pretty, fmt, esc) == whole
    ensures done + ItemText(items[i], i == |items| - 1, level, pretty, fmt, esc) + ItemsText(items, i + 1, level, pretty, fmt, esc) == whole
  {
    Assoc(done, ItemText(items[i], i == |items| - 1, level, pretty, fmt, esc), ItemsText(items, i + 1, level, pretty, fmt, esc));
  }

  /** One more member moves from the rest of the object text to the written part. */
  lemma PairsTextStep(ps: seq<Pair<Json>>, i: nat, level: nat, pretty: bool, fmt: Formatter, esc: bool, done: Bytes, whole: Bytes)
    requires i < |ps| && done + PairsText(ps, i, level, pretty, fmt, esc) == whole
    ensures done + PairText(ps[i].name, ps[i].value, i == |ps| - 1, level, pretty, fmt, esc) + PairsText(ps, i + 1, level, pretty, fmt, esc) == whole
  {
    Assoc(done, PairText(ps[i].name, ps[i].value, i == |ps| - 1, level, pretty, fmt, esc), PairsText(ps, i + 1, level, pretty, fmt, esc));
  }

  /** The array case of `json_serialize_to_buffer_r`. */
  method SerializeArray(items: seq<Json>, buf: array?<byte>, pos: nat, level: nat, pretty: bool, fmt: Formatter, esc: bool)
    returns (written: nat)
    requires forall k :: 0 <= k < |items| ==> WellFormed(items[k])
    requires buf != null ==> pos + |Text(Array(items), level, pretty, fmt, esc)| < buf.Length
    modifies buf
    ensures written == |Text(Array(items), level, pretty, fmt, esc)|
    ensures buf != null ==> Wrote(buf[..], old(buf[..]), pos, Text(Array(items), level, pretty, fmt, esc))
    decreases items, 3
  {
    ghost var b0 := if buf == null then [] else buf[..];
    ghost var open := Opening(LBRACKET, |items|, pretty);
    ghost var body := ItemsText(items, 0, level, pretty, fmt, esc);
    ghost var close := Closing(RBRACKET, |items|, level, pretty);
    assert Text(Array(items), level, pretty, fmt, esc) == open + body + close;
    var total := PutOpening(LBRACKET, |items|, pretty, buf, pos);
    ghost var done: Bytes := open;
    var i := 0;
    while i < |items|
      invariant i <= |items| && total == |done|
      invariant done + ItemsText(items, i, level, pretty, fmt, esc) == open + body
      invariant buf != null ==> |b0| == buf.Length && Wrote(buf[..], b0, pos, done)
    {
      ItemsTextStep(items, i, level, pretty, fmt, esc, done, open + body);
      var w := SerializeItem(items[i], i == |items| - 1, buf, pos, total, level, pretty, fmt, esc, b0, done);
      done := done + ItemText(items[i], i == |items| - 1, level, pretty, fmt, esc);
      total := total + w;
      i := i + 1;
    }
    assert done == open + body;
    var w := PutClosing(RBRACKET, |items|, level, pretty, buf, pos, total, b0, done);
    return total + w;
  }

  /** One pass of the array loop: indent, element, comma and newline. */
  method SerializeItem(child: Json, last: bool, buf: array?<byte>, pos: nat, total: nat, level: nat, pretty: bool,
                       fmt: Formatter, esc: bool, ghost b0: seq<byte>, ghost done: Bytes)
    returns (written: nat)
    requires WellFormed(child) && total == |done|
    requires buf != null ==>
      |b0| == buf.Length && pos + total + |ItemText(child, last, level, pretty, fmt, esc)| < |b0| &&
      Wrote(buf[..], b0, pos, done)
    modifies buf
    ensures written == |ItemText(child, last, level, pretty, fmt, esc)|
    ensures buf != null ==> Wrote(buf[..], b0, pos, done + ItemText(child, last, level, pretty, fmt, esc))
    decreases child, 3
  {
    var w1 := PutLead(buf, pos, total, level, pretty, b0, done);
    ghost var d1 := done + Lead(level, pretty);
    var w2 := PutValue(child, buf, pos, total + w1, level + 1, pretty, fmt, esc, b0, d1);
    ghost var d2 := d1 + Text(child, level + 1, pretty, fmt, esc);
    var w3 := PutSep(last, buf, pos, total + w1 + w2, pretty, b0, d2);
    Assoc4(done, Lead(level, pretty), Text(child, level + 1, pretty, fmt, esc), Sep(last, pretty));
    return w1 + w2 + w3;
  }

  /** The indent before an element or member, in pretty mode. */
  method PutLead(buf: array?<byte>, pos: nat, total: nat, level: nat, pretty: bool, ghost b0: seq<byte>, ghost done: Bytes)
    returns (written: nat)
    requires total == |done|
    requires buf != null ==> |b0| == buf.Length && pos + total + |Lead(level, pretty)| < |b0| && Wrote(buf[..], b0, pos, done)
    modifies buf
    ensures written == |Lead(level, pretty)|
    ensures buf != null ==> Wrote(buf[..], b0, pos, done + Lead(level, pretty))
  {
    written := 0;
    if pretty {
      written := PutIndent(buf, pos, total, level + 1, b0, done);
    } else {
      assert done + [] == done;
    }
  }

  /** A nested value written by the recursive call, right after the `done` bytes. */
  method PutValue(v: Json, buf: array?<byte>, pos: nat, total: nat, level: nat, pretty: bool, fmt: Formatter, esc: bool,
                  ghost b0: seq<byte>, ghost done: Bytes)
    returns (written: nat)
    requires WellFormed(v) && total == |done|
    requires buf != null ==>
      |b0| == buf.Length && pos + total + |Text(v, level, pretty, fmt, esc)| < |b0| && Wrote(buf[..], b0, pos, done)
    modifies buf
    ensures written == |Text(v, level, pretty, fmt, esc)|
    ensures buf != null ==> Wrote(buf[..], b0, pos, done + Text(v, level, pretty, fmt, esc))
    decreases v, 2
  {
    ghost var b1 := if buf == null then [] else buf[..];
    var q := pos + total;
    written := SerializeValue(v, buf, q, level, pretty, fmt, esc);
    if buf != null {
      WroteThen(b0, b1, buf[..], pos, q, done, Text(v, level, pretty, fmt, esc));
    }
  }

  /** The comma unless `last`, then in pretty mode the newline, after an element or member. */
  method PutSep(last: bool, buf: array?<byte>, pos: nat, total: nat, pretty: bool, ghost b0: seq<byte>, ghost done: Bytes)
    returns (written: nat)
    requires total == |done|
    requires buf != null ==> |b0| == buf.Length && pos + total + |Sep(last, pretty)| < |b0| && Wrote(buf[..], b0, pos, done)
    modifies buf
    ensures written == |Sep(last, pretty)|
    ensures buf != null ==> Wrote(buf[..], b0, pos, done + Sep(last, pretty))
  {
    ghost var d := done;
    written := 0;
    if !last {
      written := Put(buf, pos, total, [COMMA], b0, d);
      d := d + [COMMA];
    }
    if pretty {
      var w := Put(buf, pos, total + written, [LF], b0, d);
      d := d + [LF];
      written := written + w;
    }
    assert d == done + Sep(last, pretty);
  }

  lemma Assoc4(a: Bytes, b: Bytes, c: Bytes, d: Bytes)
    ensures a + b + c + d == a + (b + c + d)
  {
  }

  /** The object case of `json_serialize_to_buffer_r`; each value is looked up again by its name. */
  method SerializeObject(ps: seq<Pair<Json>>, buf: array?<byte>, pos: nat, level: nat, pretty: bool, fmt: Formatter, esc: bool)
    returns (written: nat)
    requires UniqueNames(ps) && forall k :: 0 <= k < |ps| ==> NoNul(ps[k].name) && WellFormed(ps[k].value)
    requires buf != null ==> pos + |Text(Object(ps), level, pretty, fmt, esc)| < buf.Length
    modifies buf
    ensures written == |Text(Object(ps), level, pretty, fmt, esc)|
    ensures buf != null ==> Wrote(buf[..], old(buf[..]), pos, Text(Object(ps), level, pretty, fmt, esc))
    decreases ps, 3
  {
    ghost var b0 := if buf == null then [] else buf[..];
    ghost var open := Opening(LBRACE, |ps|, pretty);
    ghost var body := PairsText(ps, 0, level, pretty, fmt, esc);
    ghost var close := Closing(RBRACE, |ps|, level, pretty);
    assert Text(Object(ps), level, pretty, fmt, esc) == open + body + close;
    var total := PutOpening(LBRACE, |ps|, pretty, buf, pos);
    ghost var done: Bytes := open;
    var i := 0;
    while i < |ps|
      invariant i <= |ps| && total == |done|
      invariant done + PairsText(ps, i, level, pretty, fmt, esc) == open + body
      invariant buf != null ==> |b0| == buf.Length && Wrote(buf[..], b0, pos, done)
    {
      PairsTextStep(ps, i, level, pretty, fmt, esc, done, open + body);
      var w := SerializeMember(ps, i, buf, pos, total, level, pretty, fmt, esc, b0, done);
      done := done + PairText(ps[i].name, ps[i].value, i == |ps| - 1, level, pretty, fmt, esc);
      total := total + w;
      i := i + 1;
    }
    assert done == open + body;
    var w := PutClosing(RBRACE, |ps|, level, pretty, buf, pos, total, b0, done);
    return total + w;
  }

  /** The body of the object loop: the `i`-th name, and its value fetched again by that name. */
  method SerializeMember(ps: seq<Pair<Json>>, i: nat, buf: array?<byte>, pos: nat, total: nat, level: nat, pretty: bool,
                         fmt: Formatter, esc: bool, ghost b0: seq<byte>, ghost done: Bytes)
    returns (written: nat)
    requires i < |ps| && UniqueNames(ps) && NoNul(ps[i].name) && WellFormed(ps[i].value) && total == |done|
    requires buf != null ==>
      |b0| == buf.Length && pos + total + |PairText(ps[i].name, ps[i].value, i == |ps| - 1, level, pretty, fmt, esc)| < |b0| &&
      Wrote(buf[..], b0, pos, done)
    modifies buf
    ensures written == |PairText(ps[i].name, ps[i].value, i == |ps| - 1, level, pretty, fmt, esc)|
    ensures buf != null ==> Wrote(buf[..], b0, pos, done + PairText(ps[i].name, ps[i].value, i == |ps| - 1, level, pretty, fmt, esc))
    decreases ps, 2
  {
    var key := ps[i].name;
    CStringOfNoNul(key);
    LookupAt(ps, i);
    var value := Lookup(ps, CString(key)).value;
    written := SerializePair(key, value, i == |ps| - 1, buf, pos, total, level, pretty, fmt, esc, b0, done);
  }

  /** One pass of the object loop: indent, quoted name, colon, value, comma and newline. */
  method SerializePair(key: Bytes, value: Json, last: bool, buf: array?<byte>, pos: nat, total: nat, level: nat,
                       pretty: bool, fmt: Formatter, esc: bool, ghost b0: seq<byte>, ghost done: Bytes)
    returns (written: nat)
    requires WellFormed(value) && total == |done|
    requires buf != null ==>
      |b0| == buf.Length && pos + total + |PairText(key, value, last, level, pretty, fmt, esc)| < |b0| &&
      Wrote(buf[..], b0, pos, done)
    modifies buf
    ensures written == |PairText(key, value, last, level, pretty, fmt, esc)|
    ensures buf != null ==> Wrote(buf[..], b0, pos, done + PairText(key, value, last, level, pretty, fmt, esc))
    decreases value, 3
  {
    var w1 := PutLead(buf, pos, total, level, pretty, b0, done);
    ghost var d1 := done + Lead(level, pretty);
    var w2 := PutKey(key, buf, pos, total + w1, pretty, esc, b0, d1);
    ghost var d2 := d1 + Key(key, pretty, esc);
    var w3 := PutValue(value, buf, pos, total + w1 + w2, level + 1, pretty, fmt, esc, b0, d2);
    ghost var d3 := d2 + Text(value, level + 1, pretty, fmt, esc);
    var w4 := PutSep(last, buf, pos, total + w1 + w2 + w3, pretty, b0, d3);
    Assoc5(done, Lead(level, pretty), Key(key, pretty, esc), Text(value, level + 1, pretty, fmt, esc), Sep(last, pretty));
    return w1 + w2 + w3 + w4;
  }

  /** The quoted name of a member, its colon and in pretty mode a space. */
  method PutKey(key: Bytes, buf: array?<byte>, pos: nat, total: nat, pretty: bool, esc: bool,
                ghost b0: seq<byte>, ghost done: Bytes)
    returns (written: nat)
    requires total == |done|
    requires buf != null ==> |b0| == buf.Length && pos + total + |Key(key, pretty, esc)| < |b0| && Wrote(buf[..], b0, pos, done)
    modifies buf
    ensures written == |Key(key, pretty, esc)|
    ensures buf != null ==> Wrote(buf[..], b0, pos, done + Key(key, pretty, esc))
  {
    written := PutQuoted(key, buf, pos, total, esc, b0, done);
    ghost var d := done + Quoted(key, esc);
    var w := Put(buf, pos, total + written, [COLON], b0, d);
    d := d + [COLON];
    written := written + w;
    if pretty {
      w := Put(buf, pos, total + written, [SPACE], b0, d);
      d := d + [SPACE];
      written := written + w;
    }
    assert d == done + Key(key, pretty, esc);
  }

  lemma Assoc5(a: Bytes, b: Bytes, c: Bytes, d: Bytes, e: Bytes)
    ensures a + b + c + d + e == a + (b + c + d + e)
  {
  }

  /** The opening bracket of a container, then in pretty mode a newline if it is not empty. */
  method PutOpening(bracket: byte, count: nat, pretty: bool, buf: array?<byte>, pos: nat) returns (written: nat)
    requires buf != null ==> pos + |Opening(bracket, count, pretty)| < buf.Length
    modifies buf
    ensures written == |Opening(bracket, count, pretty)|
    ensures buf != null ==> Wrote(buf[..], old(buf[..]), pos, Opening(bracket, count, pretty))
  {
    ghost var b0 := if buf == null then [] else buf[..];
    written := AppendString(buf, pos, [bracket]);
    if count > 0 && pretty {
      var w := Put(buf, pos, written, [LF], b0, [bracket]);
      written := written + w;
    } else {
      assert [bracket] + [] == [bracket];
    }
  }

  /** In pretty mode the indent of a non-empty container's closing line, then the closing bracket. */
  method PutClosing(bracket: byte, count: nat, level: nat, pretty: bool, buf: array?<byte>, pos: nat, total: nat,
                    ghost b0: seq<byte>, ghost done: Bytes)
    returns (written: nat)
    requires total == |done|
    requires buf != null ==>
      |b0| == buf.Length && pos + total + |Closing(bracket, count, level, pretty)| < |b0| && Wrote(buf[..], b0, pos, done)
    modifies buf
    ensures written == |Closing(bracket, count, level, pretty)|
    ensures buf != null ==> Wrote(buf[..], b0, pos, done + Closing(bracket, count, level, pretty))
  {
    ghost var d := done;
    written := 0;
    if count > 0 && pretty {
      written := PutIndent(buf, pos, total, level, b0, d);
      d := d + Indent(level);
    }
    var w := Put(buf, pos, total + written, [bracket], b0, d);
    written := written + w;
    assert d + [bracket] == done + Closing(bracket, count, level, pretty);
  }

  /** What `Wrote` says, byte by byte: `w` and a NUL at `start`, the rest of the buffer as before. */
  lemma WroteBytes(now: seq<byte>, b0: seq<byte>, start: nat, w: Bytes)
    requires Wrote(now, b0, start, w)
    ensures |now| == |b0| && now[start..start + |w|] == w && now[start + |w|] == NUL
    ensures now[..start] == b0[..start] && now[start + |w| + 1..] == b0[start + |w| + 1..]
  {
    forall k | 0 <= k < |now|
      ensures now[k] == if start <= k <= start + |w| then (w + [NUL])[k - start] else b0[k]
    {
      SpliceAt(b0, start, w + [NUL], k);
    }
  }

  /** The top-level call of `json_serialize_to_buffer_r` from the entry points, on a value that may be NULL. */
  method SerializeR(v: Option<Json>, buf: array?<byte>, pretty: bool, fmt: Formatter, esc: bool) returns (written: int)
    requires v.Some? ==> WellFormed(v.value)
    requires buf != null && v.Some? ==> |Text(v.value, 0, pretty, fmt, esc)| < buf.Length
    modifies buf
    ensures v.None? ==> written == -1 && (buf != null ==> buf[..] == old(buf[..]))
    ensures v.Some? ==> written == |Text(v.value, 0, pretty, fmt, esc)|
    ensures v.Some? && buf != null ==> Wrote(buf[..], old(buf[..]), 0, Text(v.value, 0, pretty, fmt, esc))
  {
    if v.None? {
      return -1;
    }
    written := SerializeValue(v.value, buf, 0, 0, pretty, fmt, esc);
  }

  /** `json_serialization_size` and `json_serialization_size_pretty`: the text and its NUL, 0 for a NULL value. */
  method SerializationSize(v: Option<Json>, pretty: bool, fmt: Formatter, esc: bool) returns (size: nat)
    requires v.Some? ==> WellFormed(v.value)
    ensures v.None? ==> size == 0
    ensures v.Some? ==> size == |Text(v.value, 0, pretty, fmt, esc)| + 1
  {
    var res := SerializeR(v, null, pretty, fmt, esc);
    size := if res < 0 then 0 else res + 1;
  }

  /**
   * `json_serialize_to_buffer` and `json_serialize_to_buffer_pretty`: the
   * text and a NUL at the start of `buf`, or failure, with the buffer
   * untouched, when the value is NULL or the buffer is too small.
   */
  method SerializeToBuffer(v: Option<Json>, buf: array<byte>, pretty: bool, fmt: Formatter, esc: bool) returns (status: Status)
    requires v.Some? ==> WellFormed(v.value)
    modifies buf
    ensures status == Failure <==> v.None? || buf.Length < |Text(v.value, 0, pretty, fmt, esc)| + 1
    ensures status == Failure ==> buf[..] == old(buf[..])
    ensures status == Success ==>
      var t := Text(v.value, 0, pretty, fmt, esc);
      buf[..|t|] == t && buf[|t|] == NUL && buf[|t| + 1..] == old(buf[|t| + 1..])
  {
    var needed := SerializationSize(v, pretty, fmt, esc);
    if needed == 0 || buf.Length < needed {
      return Failure;
    }
    ghost var b0 := buf[..];
    var written := SerializeR(v, buf, pretty, fmt, esc);
    ghost var t := Text(v.value, 0, pretty, fmt, esc);
    WroteBytes(buf[..], b0, 0, t);
    buf[written] := NUL;
    assert buf[..|t|] == old(buf[..])[..0] + buf[..|t|];
    return Success;
  }

  /**
   * `json_serialize_to_string` and `json_serialize_to_string_pretty`: a new
   * buffer of exactly the serialization size holding the text and its NUL;
   * NULL for a NULL value or when the allocation fails.
   */
  method SerializeToString(v: Option<Json>, pretty: bool, fmt: Formatter, esc: bool, allocFails: bool)
    returns (r: Option<array<byte>>)
    requires v.Some? ==> WellFormed(v.value)
    ensures r.None? <==> v.None? || allocFails
    ensures r.Some? ==> fresh(r.value) && r.value[..] == Text(v.value, 0, pretty, fmt, esc) + [NUL]
  {
    var size := SerializationSize(v, pretty, fmt, esc);
    if size == 0 || allocFails {
      return None;
    }
    var buf := new byte[size];
    var status := SerializeToBuffer(v, buf, pretty, fmt, esc);
    if status == Failure {
      assert false;
      return None;
    }
    ghost var t := Text(v.value, 0, pretty, fmt, esc);
    assert buf[..] == buf[..|t|] + [buf[|t|]];
    return Some(buf);
  }
}
