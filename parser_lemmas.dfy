/**
 * What every parse that succeeds guarantees: the value is well formed (NUL-free
 * strings and names, unique names in every object) and its height stays
 * within the nesting ceiling, so the parser never builds a document it could
 * not have reached under MAX_NESTING.
 */
module ParserLemmas {
  import opened Wrappers
  import opened Bytes
  import opened Members
  import opened Json
  import opened Parser

  /** A value parsed at nesting `n`: well formed, and `n` plus its height within the ceiling. */
  predicate Sound(v: Json, n: nat)
  {
    WellFormed(v) && n + Height(v) <= MAX_NESTING
  }

  /** The pairs an object parsed at nesting `n - 1` has gathered so far. */
  predicate PairsSound(ps: seq<Pair<Json>>, n: nat)
  {
    UniqueNames(ps) && forall k :: 0 <= k < |ps| ==> NoNul(ps[k].name) && Sound(ps[k].value, n)
  }

  /** The items an array parsed at nesting `n - 1` has gathered so far. */
  predicate ItemsSound(items: seq<Json>, n: nat)
  {
    forall k :: 0 <= k < |items| ==> Sound(items[k], n)
  }

  lemma {:induction false} MaxHeightBound(items: seq<Json>, b: nat)
    requires forall k :: 0 <= k < |items| ==> Height(items[k]) <= b
    ensures MaxHeight(items) <= b
  {
    if items != [] {
      MaxHeightBound(items[1..], b);
    }
  }

  lemma {:induction false} MaxHeightOfPairsBound(ps: seq<Pair<Json>>, b: nat)
    requires forall k :: 0 <= k < |ps| ==> Height(ps[k].value) <= b
    ensures MaxHeightOfPairs(ps) <= b
  {
    if ps != [] {
      MaxHeightOfPairsBound(ps[1..], b);
    }
  }

  lemma ItemsSoundSnoc(items: seq<Json>, v: Json, m: nat)
    requires ItemsSound(items, m) && Sound(v, m)
    ensures ItemsSound(items + [v], m)
  {
  }

  /** The closing brace turns sound pairs gathered at nesting `m` into a sound object at `m - 1`. */
  lemma ObjectEndSound(s: Bytes, pos: nat, ps: seq<Pair<Json>>, m: nat)
    requires pos <= |s| && 1 <= m && PairsSound(ps, m)
    ensures ObjectEnd(s, pos, ps).Some? ==> Sound(ObjectEnd(s, pos, ps).value.0, m - 1)
  {
    if ObjectEnd(s, pos, ps).Some? {
      assert Sound(ps[0].value, m);
      MaxHeightOfPairsBound(ps, MAX_NESTING - m);
    }
  }

  /** The closing bracket turns sound items gathered at nesting `m` into a sound array at `m - 1`. */
  lemma ArrayEndSound(s: Bytes, pos: nat, items: seq<Json>, m: nat)
    requires pos <= |s| && 1 <= m && ItemsSound(items, m)
    ensures ArrayEnd(s, pos, items).Some? ==> Sound(ArrayEnd(s, pos, items).value.0, m - 1)
  {
    if ArrayEnd(s, pos, items).Some? {
      assert Sound(items[0], m);
      MaxHeightBound(items, MAX_NESTING - m);
    }
  }

  /** Whatever `parse_value` returns at nesting `n` is sound at `n`. */
  lemma {:induction false} ValueSound(s: Bytes, i: nat, n: nat, strtod: NumberReader)
    requires i <= |s|
    ensures Value(s, i, n, strtod).Some? ==> Sound(Value(s, i, n, strtod).value.0, n)
    decreases |s| - i, 1
  {
    if n <= MAX_NESTING {
      var p := WsEnd(s, i);
      var c := At(s, p);
      if c == LBRACE {
        ObjectValueSound(s, p, n + 1, strtod);
      } else if c == LBRACKET {
        ArrayValueSound(s, p, n + 1, strtod);
      }
    }
  }

  lemma {:induction false} ObjectValueSound(s: Bytes, p: nat, m: nat, strtod: NumberReader)
    requires p <= |s| && 1 <= m <= MAX_NESTING + 1
    ensures ObjectValue(s, p, m, strtod).Some? ==> Sound(ObjectValue(s, p, m, strtod).value.0, m - 1)
    decreases |s| - p, 0
  {
    if At(s, p) == LBRACE {
      var q := WsEnd(s, p + 1);
      if At(s, q) != RBRACE {
        ObjectMembersSound(s, q, m, [], strtod);
      }
    }
  }

  lemma {:induction false} ObjectMembersSound(s: Bytes, pos: nat, m: nat, acc: seq<Pair<Json>>, strtod: NumberReader)
    requires pos <= |s| && 1 <= m && PairsSound(acc, m)
    ensures ObjectMembers(s, pos, m, acc, strtod).Some? ==> Sound(ObjectMembers(s, pos, m, acc, strtod).value.0, m - 1)
    decreases |s| - pos, 2
  {
    if At(s, pos) == NUL {
      ObjectEndSound(s, pos, acc, m);
    } else {
      MemberSound(s, pos, m, acc, strtod);
      match Member(s, pos, m, acc, strtod)
      case None =>
      case Some((ps, p4)) =>
        if At(s, p4) != COMMA {
          ObjectEndSound(s, p4, ps, m);
        } else {
          ObjectMembersSound(s, WsEnd(s, p4 + 1), m, ps, strtod);
        }
    }
  }

  lemma {:induction false} MemberSound(s: Bytes, pos: nat, m: nat, acc: seq<Pair<Json>>, strtod: NumberReader)
    requires pos <= |s| && PairsSound(acc, m)
    ensures Member(s, pos, m, acc, strtod).Some? ==> PairsSound(Member(s, pos, m, acc, strtod).value.0, m)
    decreases |s| - pos, 1
  {
    match QuotedString(s, pos)
    case None =>
    case Some((key, p1)) =>
      var p2 := WsEnd(s, p1);
      if At(s, p2) == COLON {
        MemberValueSound(s, p2 + 1, m, acc, key, strtod);
      }
  }

  lemma {:induction false} MemberValueSound(s: Bytes, p: nat, m: nat, acc: seq<Pair<Json>>, key: Bytes, strtod: NumberReader)
    requires p <= |s| && PairsSound(acc, m)
    requires NoNul(key)
    ensures MemberValue(s, p, m, acc, key, strtod).Some? ==> PairsSound(MemberValue(s, p, m, acc, key, strtod).value.0, m)
    decreases |s| - p, 2
  {
    ValueSound(s, p, m, strtod);
    match Value(s, p, m, strtod)
    case None =>
    case Some((v, p3)) =>
      if !HasName(acc, key) {
        AddUnique(acc, key, v);
      }
  }

  lemma {:induction false} ArrayValueSound(s: Bytes, p: nat, m: nat, strtod: NumberReader)
    requires p <= |s| && 1 <= m <= MAX_NESTING + 1
    ensures ArrayValue(s, p, m, strtod).Some? ==> Sound(ArrayValue(s, p, m, strtod).value.0, m - 1)
    decreases |s| - p, 0
  {
    if At(s, p) == LBRACKET {
      var q := WsEnd(s, p + 1);
      if At(s, q) != RBRACKET {
        ArrayItemsSound(s, q, m, [], strtod);
      }
    }
  }

  lemma {:induction false} ArrayItemsSound(s: Bytes, pos: nat, m: nat, acc: seq<Json>, strtod: NumberReader)
    requires pos <= |s| && 1 <= m && ItemsSound(acc, m)
    ensures ArrayItems(s, pos, m, acc, strtod).Some? ==> Sound(ArrayItems(s, pos, m, acc, strtod).value.0, m - 1)
    decreases |s| - pos, 3
  {
    if At(s, pos) == NUL {
      ArrayEndSound(s, pos, acc, m);
    } else if Item(s, pos, m, strtod).Some? {
      var (v, p2) := Item(s, pos, m, strtod).value;
      ItemSound(s, pos, m, strtod);
      ItemsSoundSnoc(acc, v, m);
      ArrayItemsNextSound(s, pos, m, acc + [v], p2, strtod);
    }
  }

  /** The item a turn of the array loop reads is sound at the array's nesting. */
  lemma ItemSound(s: Bytes, pos: nat, m: nat, strtod: NumberReader)
    requires pos <= |s|
    ensures Item(s, pos, m, strtod).Some? ==> Sound(Item(s, pos, m, strtod).value.0, m)
    decreases |s| - pos, 2
  {
    ValueSound(s, pos, m, strtod);
  }

  /** After an item ending at `p2`, the array closes or the loop goes on; either way the result is sound. */
  lemma {:induction false} ArrayItemsNextSound(s: Bytes, pos: nat, m: nat, acc: seq<Json>, p2: nat, strtod: NumberReader)
    requires pos <= p2 <= |s| && 1 <= m && ItemsSound(acc, m)
    ensures At(s, p2) != COMMA && ArrayEnd(s, p2, acc).Some? ==> Sound(ArrayEnd(s, p2, acc).value.0, m - 1)
    ensures At(s, p2) == COMMA && ArrayItems(s, WsEnd(s, p2 + 1), m, acc, strtod).Some? ==>
      Sound(ArrayItems(s, WsEnd(s, p2 + 1), m, acc, strtod).value.0, m - 1)
    decreases |s| - pos, 2
  {
    if At(s, p2) != COMMA {
      ArrayEndSound(s, p2, acc, m);
    } else {
      ArrayItemsSound(s, WsEnd(s, p2 + 1), m, acc, strtod);
    }
  }

  /** `json_parse_string` returns a well-formed document no higher than the nesting ceiling. */
  lemma ParseSound(text: Option<Bytes>, strtod: NumberReader)
    ensures Parse(text, strtod).Some? ==> WellFormed(Parse(text, strtod).value) && Height(Parse(text, strtod).value) <= MAX_NESTING
  {
    if text.Some? {
      var start := if HasBom(text.value) then 3 else 0;
      ValueSound(text.value, start, 0, strtod);
    }
  }

  /** The same for `json_parse_string_with_comments`. */
  lemma ParseWithCommentsSound(text: Bytes, strtod: NumberReader)
    ensures ParseWithComments(text, strtod).Some? ==>
              WellFormed(ParseWithComments(text, strtod).value) && Height(ParseWithComments(text, strtod).value) <= MAX_NESTING
  {
    ValueSound(Comments.StripAll(CString(text)), 0, 0, strtod);
  }
}

/** Worked inputs that pin down the parser's edge cases. */
module ParserExamples {
  import opened Wrappers
  import opened Bytes
  import opened Members
  import opened Json
  import opened Parser

  /** The ceiling counts open containers: `[]` parses at nesting 1000, `[null]` only below it. */
  lemma NestingCeilingExample(strtod: NumberReader)
    ensures Value([LBRACKET, RBRACKET], 0, MAX_NESTING, strtod) == Some((Array([]), 2))
    ensures Value([LBRACKET] + NULL_TEXT + [RBRACKET], 0, MAX_NESTING, strtod) == None
    ensures Value([LBRACKET] + NULL_TEXT + [RBRACKET], 0, MAX_NESTING - 1, strtod) == Some((Array([Null]), 6))
  {
    var s := [LBRACKET] + NULL_TEXT + [RBRACKET];
    assert s == [LBRACKET, 0x6E, 0x75, 0x6C, 0x6C, RBRACKET];
    assert WsEnd(s, 0) == 0 && WsEnd(s, 1) == 1 && WsEnd(s, 5) == 5;
    assert Item(s, 1, MAX_NESTING + 1, strtod) == None;
    ArrayItemsFail(s, 1, MAX_NESTING + 1, [], strtod);
    assert Value(s, 0, MAX_NESTING, strtod) == ArrayValue(s, 0, MAX_NESTING + 1, strtod)
                                          == ArrayItems(s, 1, MAX_NESTING + 1, [], strtod);
    assert NullValue(s, 1) == Some((Null, 5)) by {
      assert s[1..5] == NULL_TEXT;
    }
    assert Item(s, 1, MAX_NESTING, strtod) == Some((Null, 5));
    ArrayItemsStop(s, 1, MAX_NESTING, [], strtod, Null, 5);
    assert [] + [Null] == [Null];
    assert Value(s, 0, MAX_NESTING - 1, strtod) == ArrayValue(s, 0, MAX_NESTING, strtod)
                                              == ArrayItems(s, 1, MAX_NESTING, [], strtod)
                                              == ArrayEnd(s, 5, [Null]);
  }

  /** Text after the value is ignored: `null x` parses as null. */
  lemma TrailingTextExample(strtod: NumberReader)
    ensures Parse(Some(NULL_TEXT + [SPACE, 0x78]), strtod) == Some(Null)
  {
  }

  /** `json_parse_string` skips a byte order mark; the variant with comments does not. */
  lemma ByteOrderMarkExample(strtod: NumberReader)
    ensures Parse(Some([0xEF, 0xBB, 0xBF] + NULL_TEXT), strtod) == Some(Null)
    ensures ParseWithComments([0xEF, 0xBB, 0xBF] + NULL_TEXT, strtod) == None
  {
  }

  /** The decimal check refuses a leading zero before a digit or an exponent, and hexadecimal. */
  lemma DecimalExample()
    ensures IsDecimal(Ascii("0.5")) && IsDecimal(Ascii("-0")) && IsDecimal(Ascii("10e5"))
    ensures !IsDecimal(Ascii("01")) && !IsDecimal(Ascii("0e5")) && !IsDecimal(Ascii("-01")) && !IsDecimal(Ascii("0x1"))
  {
  }

  /** A one-letter string literal at `i`, such as `"a"`, decodes to that letter. */
  lemma QuotedLetter(s: Bytes, i: nat, c: byte)
    requires i + 3 <= |s| && s[i] == QUOTE && s[i + 1] == c && s[i + 2] == QUOTE
    requires 0x20 <= c && c != QUOTE && c != BACKSLASH
    ensures QuotedString(s, i) == Some(([c], i + 3))
  {
    assert StringTail(s, i + 1) == StringTail(s, i + 2) == Some(i + 3);
    assert s[i + 1..i + 2] == [c];
    assert StringCodec.DecodeFrom([c], 0) == StringCodec.Prepend([c], StringCodec.DecodeFrom([c], 1));
    assert [c] + [] == [c];
    assert CString([c]) == [c] by {
      assert [c][1..] == [];
    }
  }

  /** A name given twice in one object makes the whole parse fail: `{"a":null,"a":null}`. */
  lemma DuplicateNameExample(strtod: NumberReader)
    ensures Value([LBRACE, QUOTE, 0x61, QUOTE, COLON] + NULL_TEXT + [COMMA, QUOTE, 0x61, QUOTE, COLON] + NULL_TEXT + [RBRACE],
                  0, 0, strtod) == None
  {
    var s := [LBRACE, QUOTE, 0x61, QUOTE, COLON] + NULL_TEXT + [COMMA, QUOTE, 0x61, QUOTE, COLON] + NULL_TEXT + [RBRACE];
    assert s == DuplicateText();
    assert WsEnd(s, 0) == 0 && WsEnd(s, 1) == 1 && WsEnd(s, 10) == 10;
    assert Value(s, 0, 0, strtod) == ObjectValue(s, 0, 1, strtod) == ObjectMembers(s, 1, 1, [], strtod);
    var ps := [Pair([0x61], Null)];
    FirstMember(s, strtod);
    ObjectMembersMore(s, 1, 1, [], strtod, ps, 9, 10);
    SecondMember(s, strtod);
    ObjectMembersFail(s, 10, 1, ps, strtod);
  }

  function DuplicateText(): Bytes
  {
    [LBRACE, QUOTE, 0x61, QUOTE, COLON, 0x6E, 0x75, 0x6C, 0x6C, COMMA,
     QUOTE, 0x61, QUOTE, COLON, 0x6E, 0x75, 0x6C, 0x6C, RBRACE]
  }

  lemma FirstMember(s: Bytes, strtod: NumberReader)
    requires s == DuplicateText()
    ensures Member(s, 1, 1, [], strtod) == Some(([Pair([0x61], Null)], 9))
  {
    QuotedLetter(s, 1, 0x61);
    assert WsEnd(s, 4) == 4 && WsEnd(s, 5) == 5 && WsEnd(s, 9) == 9;
    assert s[5..9] == NULL_TEXT;
    assert Value(s, 5, 1, strtod) == Some((Null, 9));
    var none: seq<Pair<Json>> := [];
    assert !HasName(none, [0x61]) && none + [Pair([0x61], Null)] == [Pair([0x61], Null)];
  }

  lemma SecondMember(s: Bytes, strtod: NumberReader)
    requires s == DuplicateText()
    ensures Member(s, 10, 1, [Pair([0x61], Null)], strtod) == None
  {
    QuotedLetter(s, 10, 0x61);
    assert WsEnd(s, 13) == 13 && WsEnd(s, 14) == 14;
    assert s[14..18] == NULL_TEXT;
    assert Value(s, 14, 1, strtod) == Some((Null, 18));
    var ps := [Pair([0x61], Null)];
    assert HasName(ps, [0x61]) by {
      assert ps[0].name == [0x61];
    }
  }
}
