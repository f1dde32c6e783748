/**
 * Comment stripping for `json_parse_string_with_comments`: the text is
 * copied into a mutable buffer and every comment outside a string literal is
 * overwritten with spaces, in place, so that the parser sees white space.
 */
module Comments {
  import opened Wrappers
  import opened Bytes

  /** `strstr` on a NUL-terminated buffer from index `i`: the first occurrence of `token` at or after `i`. */
  function Find(s: Bytes, i: nat, token: Bytes): (r: Option<nat>)
    requires i <= |s|
    ensures r.Some? ==> i <= r.value && TokenAt(s, r.value, token)
    ensures r.Some? ==> forall k :: i <= k < r.value ==> !TokenAt(s, k, token)
    ensures r.None? && |token| > 0 && NoNul(s) ==> forall k :: i <= k <= |s| ==> !TokenAt(s, k, token)
    decreases |s| - i
  {
    if TokenAt(s, i, token) then Some(i)
    else if At(s, i) == NUL then None
    else Find(s, i + 1, token)
  }

  /** The buffer with the bytes at indices `from` up to (not including) `to` overwritten with spaces. */
  function Blank(s: Bytes, from: nat, to: nat): (r: Bytes)
    ensures |r| == |s|
    ensures forall k :: 0 <= k < |s| ==> r[k] == if from <= k < to then SPACE else s[k]
  {
    seq(|s|, k requires 0 <= k < |s| => if from <= k < to then SPACE else s[k])
  }

  /**
   * The scan of `remove_comments` from index `i`, with the state it carries:
   * whether the cursor is inside a string literal and whether the previous
   * byte was an unescaped backslash. A start token outside a string is blanked
   * together with everything up to and including the next end token; when no
   * end token follows, only the start token is blanked and the scan stops.
   */
  function Strip(s: Bytes, i: nat, inString: bool, escaped: bool, start: Bytes, end: Bytes): (r: Bytes)
    requires i <= |s| && |start| > 0 && |end| > 0
    ensures |r| == |s|
    ensures forall k :: 0 <= k < |s| && r[k] != s[k] ==> i <= k && r[k] == SPACE
    decreases |s| - i
  {
    if At(s, i) == NUL then s
    else if s[i] == BACKSLASH && !escaped then Strip(s, i + 1, inString, true, start, end)
    else if s[i] == QUOTE && !escaped then Strip(s, i + 1, !inString, false, start, end)
    else if !inString && TokenAt(s, i, start) then
      var t := Blank(s, i, i + |start|);
      match Find(t, i + |start|, end)
      case None => t
      case Some(q) => Strip(Blank(t, i + |start|, q + |end|), q + |end|, inString, false, start, end)
    else Strip(s, i + 1, inString, false, start, end)
  }

  /** `remove_comments` as a function of the whole text; empty tokens leave it as it is. */
  function RemoveComments(s: Bytes, start: Bytes, end: Bytes): (r: Bytes)
    ensures |r| == |s|
    ensures forall k :: 0 <= k < |s| && r[k] != s[k] ==> r[k] == SPACE
  {
    if |start| == 0 || |end| == 0 then s else Strip(s, 0, false, false, start, end)
  }

  /** The two passes of `json_parse_string_with_comments`: block comments, then line comments. */
  function StripAll(s: Bytes): (r: Bytes)
    ensures |r| == |s|
    ensures forall k :: 0 <= k < |s| && r[k] != s[k] ==> r[k] == SPACE
  {
    var t := RemoveComments(s, Ascii("/*"), Ascii("*/"));
    RemoveComments(t, Ascii("//"), Ascii("\n"))
  }

  /** Overwrites `a[from..to]` with spaces. */
  method Fill(a: array<byte>, from: nat, to: nat)
    requires from <= to <= a.Length
    modifies a
    ensures a[..] == Blank(old(a[..]), from, to)
  {
    var k := from;
    assert a[..] == Blank(a[..], from, k);
    while k < to
      invariant from <= k <= to
      invariant a[..] == Blank(old(a[..]), from, k)
    {
      a[k] := SPACE;
      k := k + 1;
    }
  }

  /**
   * The step of Strip at a start token outside a string literal: with `q`
   * the end token after the start token and `u` the buffer with the start
   * token, and the comment up to and including `q`, blanked, the scan stops
   * when there is no end token and otherwise resumes after it.
   */
  lemma StripComment(s: Bytes, i: nat, inString: bool, escaped: bool, start: Bytes, end: Bytes,
                     q: Option<nat>, u: Bytes)
    requires i < |s| && s[i] != NUL && |start| > 0 && |end| > 0
    requires !(s[i] == BACKSLASH && !escaped) && !(s[i] == QUOTE && !escaped)
    requires !inString && TokenAt(s, i, start)
    requires q == Find(Blank(s, i, i + |start|), i + |start|, end)
    requires q.None? ==> u == Blank(s, i, i + |start|)
    requires q.Some? ==> u == Blank(Blank(s, i, i + |start|), i + |start|, q.value + |end|)
    ensures q.None? ==> Strip(s, i, inString, escaped, start, end) == u
    ensures q.Some? ==> q.value + |end| <= |u| == |s|
    ensures q.Some? ==> Strip(s, i, inString, escaped, start, end) == Strip(u, q.value + |end|, inString, false, start, end)
  {
  }

  /**
   * The comment branch of `remove_comments` at index `i`: blanks the start
   * token, looks for the end token after it, and blanks through the end token
   * when there is one.
   */
  method BlankComment(a: array<byte>, i: nat, start: Bytes, end: Bytes) returns (q: Option<nat>)
    requires i + |start| <= a.Length
    modifies a
    ensures q == Find(Blank(old(a[..]), i, i + |start|), i + |start|, end)
    ensures q.None? ==> a[..] == Blank(old(a[..]), i, i + |start|)
    ensures q.Some? ==> q.value + |end| <= a.Length
    ensures q.Some? ==> a[..] == Blank(Blank(old(a[..]), i, i + |start|), i + |start|, q.value + |end|)
  {
    Fill(a, i, i + |start|);
    q := Find(a[..], i + |start|, end);
    if q.Some? {
      Fill(a, i + |start|, q.value + |end|);
    }
  }

  /** `remove_comments` on the mutable copy `a` of the text. */
  method RemoveCommentsInPlace(a: array<byte>, start: Bytes, end: Bytes)
    modifies a
    ensures a[..] == RemoveComments(old(a[..]), start, end)
  {
    if |start| == 0 || |end| == 0 {
      return;
    }
    ghost var result := Strip(a[..], 0, false, false, start, end);
    var inString, escaped := false, false;
    var i := 0;
    while i < a.Length && a[i] != NUL
      invariant i <= a.Length
      invariant Strip(a[..], i, inString, escaped, start, end) == result
      decreases a.Length - i
    {
      var stop;
      i, inString, escaped, stop := StripStep(a, i, inString, escaped, start, end);
      if stop {
        return;
      }
    }
  }

  /**
   * One turn of the loop of `remove_comments` at the byte `a[i]`: the new
   * cursor and state, or `stop` when a comment has no end token.
   */
  method StripStep(a: array<byte>, i: nat, inString: bool, escaped: bool, start: Bytes, end: Bytes)
    returns (i': nat, inString': bool, escaped': bool, stop: bool)
    requires i < a.Length && a[i] != NUL && |start| > 0 && |end| > 0
    modifies a
    ensures i < i' <= a.Length
    ensures stop ==> Strip(old(a[..]), i, inString, escaped, start, end) == a[..]
    ensures !stop ==> Strip(old(a[..]), i, inString, escaped, start, end) == Strip(a[..], i', inString', escaped', start, end)
  {
    ghost var s := a[..];
    if a[i] == BACKSLASH && !escaped {
      return i + 1, inString, true, false;
    } else if a[i] == QUOTE && !escaped {
      return i + 1, !inString, false, false;
    } else if !inString && i + |start| <= a.Length && a[i..i + |start|] == start {
      i', stop := CommentStep(a, i, escaped, start, end);
      return i', inString, false, stop;
    } else {
      assert !TokenAt(s, i, start) || inString;
      return i + 1, inString, false, false;
    }
  }

  /** The turn of the loop of `remove_comments` at a start token outside a string literal. */
  method CommentStep(a: array<byte>, i: nat, escaped: bool, start: Bytes, end: Bytes) returns (i': nat, stop: bool)
    requires i < a.Length && a[i] != NUL && |start| > 0 && |end| > 0
    requires !(a[i] == BACKSLASH && !escaped) && !(a[i] == QUOTE && !escaped)
    requires TokenAt(a[..], i, start)
    modifies a
    ensures i < i' <= a.Length
    ensures stop ==> Strip(old(a[..]), i, false, escaped, start, end) == a[..]
    ensures !stop ==> Strip(old(a[..]), i, false, escaped, start, end) == Strip(a[..], i', false, false, start, end)
  {
    ghost var s := a[..];
    var q := BlankComment(a, i, start, end);
    StripComment(s, i, false, escaped, start, end, q, a[..]);
    if q.None? {
      return i + 1, true;
    }
    return q.value + |end|, false;
  }
}

module CommentsLemmas {
  import opened Wrappers
  import opened Bytes
  import opened Comments

  /** A text in which the start token never occurs comes out of the scan as it went in. */
  lemma {:induction false} StripWithoutToken(s: Bytes, i: nat, inString: bool, escaped: bool, start: Bytes, end: Bytes)
    requires i <= |s| && |start| > 0 && |end| > 0
    requires forall k :: i <= k < |s| ==> !TokenAt(s, k, start)
    ensures Strip(s, i, inString, escaped, start, end) == s
    decreases |s| - i
  {
    if At(s, i) != NUL {
      if s[i] == BACKSLASH && !escaped {
        StripWithoutToken(s, i + 1, inString, true, start, end);
      } else if s[i] == QUOTE && !escaped {
        StripWithoutToken(s, i + 1, !inString, false, start, end);
      } else {
        StripWithoutToken(s, i + 1, inString, false, start, end);
      }
    }
  }

  /**
   * The index just past the closing quote of a string literal the scan is
   * inside at `i` (a backslash escapes the next byte), or the terminator when
   * the literal is not closed.
   */
  function LiteralEnd(s: Bytes, i: nat, escaped: bool): (j: nat)
    requires i <= |s|
    ensures i <= j <= |s|
    decreases |s| - i
  {
    if At(s, i) == NUL then i
    else if s[i] == BACKSLASH && !escaped then LiteralEnd(s, i + 1, true)
    else if s[i] == QUOTE && !escaped then i + 1
    else LiteralEnd(s, i + 1, false)
  }

  /** Inside a string literal nothing is blanked: every byte through its closing quote is kept. */
  lemma {:induction false} StripKeepsLiteral(s: Bytes, i: nat, escaped: bool, start: Bytes, end: Bytes)
    requires i <= |s| && |start| > 0 && |end| > 0
    ensures forall k :: i <= k < LiteralEnd(s, i, escaped) ==> Strip(s, i, true, escaped, start, end)[k] == s[k]
    decreases |s| - i
  {
    if At(s, i) != NUL {
      if s[i] == BACKSLASH && !escaped {
        StripKeepsLiteral(s, i + 1, true, start, end);
      } else if s[i] == QUOTE && !escaped {
      } else {
        StripKeepsLiteral(s, i + 1, false, start, end);
      }
    }
  }

  // A block comment becomes spaces: `a/*b*/c` reads as `a     c`.
  lemma BlockCommentExample()
    ensures RemoveComments([0x61, SLASH, STAR, 0x62, STAR, SLASH, 0x63], [SLASH, STAR], [STAR, SLASH])
         == [0x61, SPACE, SPACE, SPACE, SPACE, SPACE, 0x63]
  {
    var s: Bytes := [0x61, SLASH, STAR, 0x62, STAR, SLASH, 0x63];
    var st: Bytes := [SLASH, STAR];
    var en: Bytes := [STAR, SLASH];
    var u: Bytes := [0x61, SPACE, SPACE, SPACE, SPACE, SPACE, 0x63];
    BlockCommentFound(s, st, en, u);
    assert Strip(s, 0, false, false, st, en) == Strip(s, 1, false, false, st, en);
    StripComment(s, 1, false, false, st, en, Some(4), u);
    BlockCommentRest(u, st, en);
  }

  lemma BlockCommentFound(s: Bytes, st: Bytes, en: Bytes, u: Bytes)
    requires s == [0x61, SLASH, STAR, 0x62, STAR, SLASH, 0x63] && st == [SLASH, STAR] && en == [STAR, SLASH]
    requires u == [0x61, SPACE, SPACE, SPACE, SPACE, SPACE, 0x63]
    ensures TokenAt(s, 1, st) && Find(Blank(s, 1, 3), 3, en) == Some(4) && Blank(Blank(s, 1, 3), 3, 6) == u
  {
    var t := Blank(s, 1, 3);
    assert t == [0x61, SPACE, SPACE, 0x62, STAR, SLASH, 0x63];
    assert t[3..5][0] != en[0] && t[4..6] == en;
    assert s[1..3] == st;
  }

  lemma BlockCommentRest(u: Bytes, st: Bytes, en: Bytes)
    requires st == [SLASH, STAR] && en == [STAR, SLASH]
    requires u == [0x61, SPACE, SPACE, SPACE, SPACE, SPACE, 0x63]
    ensures Strip(u, 6, false, false, st, en) == u
  {
    assert !TokenAt(u, 6, st);
    assert Strip(u, 6, false, false, st, en) == Strip(u, 7, false, false, st, en);
  }

  // A start token inside a string literal is text: `"/*"` comes out unchanged.
  lemma QuotedTokenExample()
    ensures RemoveComments([QUOTE, SLASH, STAR, QUOTE], [SLASH, STAR], [STAR, SLASH]) == [QUOTE, SLASH, STAR, QUOTE]
  {
    var s: Bytes := [QUOTE, SLASH, STAR, QUOTE];
    var st: Bytes := [SLASH, STAR];
    var en: Bytes := [STAR, SLASH];
    assert Strip(s, 0, false, false, st, en) == Strip(s, 1, true, false, st, en);
    assert Strip(s, 1, true, false, st, en) == Strip(s, 2, true, false, st, en);
    assert Strip(s, 2, true, false, st, en) == Strip(s, 3, true, false, st, en);
    assert Strip(s, 3, true, false, st, en) == Strip(s, 4, false, false, st, en);
  }

  // A start token with no end token after it: only the start token is blanked,
  // so `a/*b` reads as `a  b`.
  lemma UnterminatedCommentExample()
    ensures RemoveComments([0x61, SLASH, STAR, 0x62], [SLASH, STAR], [STAR, SLASH]) == [0x61, SPACE, SPACE, 0x62]
  {
    var s: Bytes := [0x61, SLASH, STAR, 0x62];
    var st: Bytes := [SLASH, STAR];
    var en: Bytes := [STAR, SLASH];
    var t := Blank(s, 1, 3);
    assert t == [0x61, SPACE, SPACE, 0x62];
    assert s[1..3] == st;
    assert Find(t, 3, en) == None by {
      assert !TokenAt(t, 3, en) && !TokenAt(t, 4, en);
    }
    assert Strip(s, 0, false, false, st, en) == Strip(s, 1, false, false, st, en);
    StripComment(s, 1, false, false, st, en, None, t);
  }
}
