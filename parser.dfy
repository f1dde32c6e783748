/**
 * The recursive-descent parser: a cursor into a NUL-terminated text that
 * every step advances, a nesting ceiling, and the scalar, string, object and
 * array productions. Each production is a function giving the value it
 * builds and the cursor after it (None for the NULL the source returns); the
 * methods advance the cursor with the source's loops and are proved to
 * compute those functions.
 */
module Parser {
  import opened Wrappers
  import opened Bytes
  import opened Members
  import opened Json
  import StringCodec
  import Comments

  /** The deepest nesting `parse_value` accepts. */
  const MAX_NESTING: nat := 1000

  /**
   * What `strtod` reports at a cursor: the number it read, how many bytes it
   * consumed (0 when it read no number), and whether it set `errno`.
   */
  datatype Scan = Scan(value: Double, length: nat, rangeError: bool)

  /** `strtod`, which is not part of this model: any function of the text and the cursor. */
  type NumberReader = (Bytes, nat) -> Scan

  /** `isspace` in the C locale: space, tab, newline, vertical tab, form feed, carriage return. */
  predicate IsSpace(c: byte)
  {
    c == SPACE || TAB <= c <= CR
  }

  /** Where `SKIP_WHITESPACES` leaves a cursor: the first byte at or after `i` that is not a space. */
  function WsEnd(s: Bytes, i: nat): (j: nat)
    requires i <= |s|
    ensures i <= j <= |s| && !IsSpace(At(s, j))
    ensures forall k :: i <= k < j ==> IsSpace(s[k])
    decreases |s| - i
  {
    if i < |s| && IsSpace(s[i]) then WsEnd(s, i + 1) else i
  }

  /** `SKIP_WHITESPACES`. */
  method SkipWhitespaces(s: Bytes, i: nat) returns (j: nat)
    requires i <= |s|
    ensures j == WsEnd(s, i)
  {
    j := i;
    while j < |s| && IsSpace(s[j])
      invariant i <= j <= |s| && WsEnd(s, j) == WsEnd(s, i)
      decreases |s| - j
    {
      j := j + 1;
    }
  }

  /**
   * The scan of `skip_quotes` inside a string literal from index `j`: the
   * index after the closing quote, or None when the text ends first. A
   * backslash protects the byte after it.
   */
  function StringTail(s: Bytes, j: nat): (r: Option<nat>)
    requires j <= |s|
    ensures r.Some? ==> j < r.value <= |s| && s[r.value - 1] == QUOTE
    decreases |s| - j
  {
    var c := At(s, j);
    if c == QUOTE then Some(j + 1)
    else if c == NUL then None
    else if c == BACKSLASH then (if At(s, j + 1) == NUL then None else StringTail(s, j + 2))
    else StringTail(s, j + 1)
  }

  /** `skip_quotes`: the index after the string literal that starts at `i`, None if `i` holds no quote. */
  function StringEnd(s: Bytes, i: nat): (r: Option<nat>)
    requires i <= |s|
    ensures r.Some? ==> i + 2 <= r.value <= |s| && s[i] == QUOTE && s[r.value - 1] == QUOTE
  {
    if At(s, i) != QUOTE then None else StringTail(s, i + 1)
  }

  method SkipQuotes(s: Bytes, i: nat) returns (r: Option<nat>)
    requires i <= |s|
    ensures r == StringEnd(s, i)
  {
    if At(s, i) != QUOTE {
      return None;
    }
    var j := i + 1;
    while At(s, j) != QUOTE
      invariant i < j <= |s| && StringTail(s, j) == StringTail(s, i + 1)
      decreases |s| - j
    {
      if At(s, j) == NUL {
        return None;
      } else if At(s, j) == BACKSLASH {
        j := j + 1;
        if At(s, j) == NUL {
          return None;
        }
      }
      j := j + 1;
    }
    return Some(j + 1);
  }

  /**
   * `get_quoted_string`: the decoded body of the string literal at `i` as the
   * C string it is stored as (the bytes before the first NUL a `\u0000`
   * escape may produce), and the index after the literal.
   */
  function QuotedString(s: Bytes, i: nat): (r: Option<(Bytes, nat)>)
    requires i <= |s|
    ensures r.Some? ==> i + 2 <= r.value.1 <= |s| && NoNul(r.value.0)
  {
    match StringEnd(s, i)
    case None => None
    case Some(e) =>
      match StringCodec.Unescape(s[i + 1..e - 1])
      case None => None
      case Some(d) => Some((CString(d), e))
  }

  method GetQuotedString(s: Bytes, i: nat) returns (r: Option<(Bytes, nat)>)
    requires i <= |s|
    ensures r == QuotedString(s, i)
  {
    var e := SkipQuotes(s, i);
    if e.None? {
      return None;
    }
    var d := StringCodec.ProcessString(s[i + 1..e.value - 1]);
    if d.None? {
      return None;
    }
    return Some((CString(d.value), e.value));
  }

  /**
   * `is_decimal` on the bytes `strtod` consumed: no leading zero before a
   * digit, none after a minus sign, and no `x`, `X` (hexadecimal floats) or
   * NUL byte (`strchr` finds the terminator).
   */
  predicate IsDecimal(t: Bytes)
  {
    !(|t| > 1 && t[0] == 0x30 && t[1] != DOT) &&
    !(|t| > 2 && t[0] == MINUS && t[1] == 0x30 && t[2] != DOT) &&
    forall k :: 0 <= k < |t| ==> t[k] != 0x78 && t[k] != 0x58 && t[k] != NUL
  }

  method CheckDecimal(t: Bytes) returns (ok: bool)
    ensures ok == IsDecimal(t)
  {
    if |t| > 1 && t[0] == 0x30 && t[1] != DOT {
      return false;
    }
    if |t| > 2 && t[0] == MINUS && t[1] == 0x30 && t[2] != DOT {
      return false;
    }
    var length := |t|;
    while length > 0
      invariant 0 <= length <= |t|
      invariant forall k :: length <= k < |t| ==> t[k] != 0x78 && t[k] != 0x58 && t[k] != NUL
    {
      length := length - 1;
      if t[length] == 0x78 || t[length] == 0x58 || t[length] == NUL {
        return false;
      }
    }
    return true;
  }

  /** Where the bytes `strtod` consumed end; it never reads past the terminator. */
  function NumberEnd(s: Bytes, i: nat, scan: Scan): (e: nat)
    requires i <= |s|
    ensures i <= e <= |s|
  {
    if i + scan.length <= |s| then i + scan.length else |s|
  }

  /**
   * `parse_number_value`: fails when `strtod` set `errno`, when the consumed
   * bytes are not decimal, or when the number is an infinity or NaN (which
   * `json_value_init_number` refuses).
   */
  function NumberValue(s: Bytes, i: nat, strtod: NumberReader): (r: Option<(Json, nat)>)
    requires i <= |s|
    ensures r.Some? ==> i <= r.value.1 <= |s|
  {
    var scan := strtod(s, i);
    var e := NumberEnd(s, i, scan);
    if scan.rangeError || !IsDecimal(s[i..e]) then None
    else match scan.value
      case NonFinite => None
      case Finite(x) => Some((Number(x), e))
  }

  method ParseNumberValue(s: Bytes, i: nat, strtod: NumberReader) returns (r: Option<(Json, nat)>)
    requires i <= |s|
    ensures r == NumberValue(s, i, strtod)
  {
    var scan := strtod(s, i);
    var e := NumberEnd(s, i, scan);
    var decimal := CheckDecimal(s[i..e]);
    if scan.rangeError || !decimal {
      return None;
    }
    match scan.value
    case NonFinite => return None;
    case Finite(x) => return Some((Number(x), e));
  }

  /** `parse_boolean_value`: `true` or `false` at the cursor. */
  function BooleanValue(s: Bytes, i: nat): (r: Option<(Json, nat)>)
    ensures r.Some? ==> i < r.value.1 <= |s|
  {
    if TokenAt(s, i, TRUE_TEXT) then Some((Boolean(true), i + 4))
    else if TokenAt(s, i, FALSE_TEXT) then Some((Boolean(false), i + 5))
    else None
  }

  /** `parse_null_value`: `null` at the cursor. */
  function NullValue(s: Bytes, i: nat): (r: Option<(Json, nat)>)
    ensures r.Some? ==> i < r.value.1 <= |s|
  {
    if TokenAt(s, i, NULL_TEXT) then Some((Null, i + 4)) else None
  }

  /**
   * `parse_value` at nesting depth `nesting`: fails beyond MAX_NESTING, skips
   * white space and dispatches on the first byte; `{` and `[` parse their
   * contents one level deeper.
   */
  function Value(s: Bytes, i: nat, nesting: nat, strtod: NumberReader): (r: Option<(Json, nat)>)
    requires i <= |s|
    ensures r.Some? ==> i <= r.value.1 <= |s|
    ensures nesting > MAX_NESTING ==> r.None?
    decreases |s| - i, 1
  {
    if nesting > MAX_NESTING then None
    else
      var p := WsEnd(s, i);
      var c := At(s, p);
      if c == LBRACE then ObjectValue(s, p, nesting + 1, strtod)
      else if c == LBRACKET then ArrayValue(s, p, nesting + 1, strtod)
      else if c == QUOTE then
        match QuotedString(s, p)
        case None => None
        case Some((t, e)) => Some((String(t), e))
      else if c == 0x66 || c == 0x74 then BooleanValue(s, p)
      else if c == MINUS || 0x30 <= c <= 0x39 then NumberValue(s, p, strtod)
      else if c == 0x6E then NullValue(s, p)
      else None
  }

  /** `parse_object_value` at the `{`: the empty object, or the members. */
  function ObjectValue(s: Bytes, p: nat, nesting: nat, strtod: NumberReader): (r: Option<(Json, nat)>)
    requires p <= |s|
    ensures r.Some? ==> p < r.value.1 <= |s|
    decreases |s| - p, 0
  {
    if At(s, p) != LBRACE then None
    else
      var q := WsEnd(s, p + 1);
      if At(s, q) == RBRACE then Some((Object([]), q + 1))
      else ObjectMembers(s, q, nesting, [], strtod)
  }

  /**
   * The member loop of `parse_object_value` from cursor `pos` with the pairs
   * `acc` read so far; a comma after a member continues the loop.
   */
  function ObjectMembers(s: Bytes, pos: nat, nesting: nat, acc: seq<Pair<Json>>, strtod: NumberReader)
    : (r: Option<(Json, nat)>)
    requires pos <= |s|
    ensures r.Some? ==> pos < r.value.1 <= |s|
    decreases |s| - pos, 2
  {
    if At(s, pos) == NUL then ObjectEnd(s, pos, acc)
    else match Member(s, pos, nesting, acc, strtod)
      case None => None
      case Some((ps, p4)) =>
        if At(s, p4) != COMMA then ObjectEnd(s, p4, ps)
        else ObjectMembers(s, WsEnd(s, p4 + 1), nesting, ps, strtod)
  }

  /**
   * One member at `pos`: a quoted name, a colon, a value one level deeper
   * than the object's own, refused when the name is already present
   * (`json_object_add`). It gives the pairs with the member added and the
   * cursor after the white space that follows the value.
   */
  function Member(s: Bytes, pos: nat, nesting: nat, acc: seq<Pair<Json>>, strtod: NumberReader)
    : (r: Option<(seq<Pair<Json>>, nat)>)
    requires pos <= |s|
    ensures r.Some? ==> pos < r.value.1 <= |s|
    decreases |s| - pos, 1
  {
    match QuotedString(s, pos)
    case None => None
    case Some((key, p1)) =>
      var p2 := WsEnd(s, p1);
      if At(s, p2) != COLON then None
      else MemberValue(s, p2 + 1, nesting, acc, key, strtod)
  }

  /** The part of a member after its colon: the value, added under `key` unless the name is already present. */
  function MemberValue(s: Bytes, p: nat, nesting: nat, acc: seq<Pair<Json>>, key: Bytes, strtod: NumberReader)
    : (r: Option<(seq<Pair<Json>>, nat)>)
    requires p <= |s|
    ensures r.Some? ==> p <= r.value.1 <= |s|
    decreases |s| - p, 2
  {
    match Value(s, p, nesting, strtod)
    case None => None
    case Some((v, p3)) =>
      match Add(acc, key, v)
      case None => None
      case Some(ps) => Some((ps, WsEnd(s, p3)))
  }

  /**
   * The end of `parse_object_value`: a closing brace, and the trim of the
   * pair arrays to the count, which `json_object_resize` refuses for a count of 0.
   */
  function ObjectEnd(s: Bytes, pos: nat, ps: seq<Pair<Json>>): (r: Option<(Json, nat)>)
    requires pos <= |s|
    ensures r.Some? ==> pos < r.value.1 <= |s| && r.value.0 == Object(ps) && ps != []
  {
    var p := WsEnd(s, pos);
    if At(s, p) != RBRACE || ps == [] then None else Some((Object(ps), p + 1))
  }

  /** `parse_array_value` at the `[`: the empty array, or the items. */
  function ArrayValue(s: Bytes, p: nat, nesting: nat, strtod: NumberReader): (r: Option<(Json, nat)>)
    requires p <= |s|
    ensures r.Some? ==> p < r.value.1 <= |s|
    decreases |s| - p, 0
  {
    if At(s, p) != LBRACKET then None
    else
      var q := WsEnd(s, p + 1);
      if At(s, q) == RBRACKET then Some((Array([]), q + 1))
      else ArrayItems(s, q, nesting, [], strtod)
  }

  /** The item loop of `parse_array_value`: one item per turn; a comma continues. */
  function ArrayItems(s: Bytes, pos: nat, nesting: nat, acc: seq<Json>, strtod: NumberReader)
    : (r: Option<(Json, nat)>)
    requires pos <= |s|
    ensures r.Some? ==> pos < r.value.1 <= |s|
    decreases |s| - pos, 3
  {
    if At(s, pos) == NUL then ArrayEnd(s, pos, acc)
    else match Item(s, pos, nesting, strtod)
      case None => None
      case Some((v, p2)) =>
        if At(s, p2) != COMMA then ArrayEnd(s, p2, acc + [v])
        else ArrayItems(s, WsEnd(s, p2 + 1), nesting, acc + [v], strtod)
  }

  /**
   * One item at `pos`: a value one level deeper than the array, and the
   * cursor after the white space that follows it.
   */
  function Item(s: Bytes, pos: nat, nesting: nat, strtod: NumberReader): (r: Option<(Json, nat)>)
    requires pos <= |s|
    ensures r.Some? ==> pos <= r.value.1 <= |s|
    decreases |s| - pos, 2
  {
    match Value(s, pos, nesting, strtod)
    case None => None
    case Some((v, p1)) => Some((v, WsEnd(s, p1)))
  }

  /** The end of `parse_array_value`: a closing bracket, and the trim that refuses a count of 0. */
  function ArrayEnd(s: Bytes, pos: nat, items: seq<Json>): (r: Option<(Json, nat)>)
    requires pos <= |s|
    ensures r.Some? ==> pos < r.value.1 <= |s| && r.value.0 == Array(items) && items != []
  {
    var p := WsEnd(s, pos);
    if At(s, p) != RBRACKET || items == [] then None else Some((Array(items), p + 1))
  }

  lemma ArrayEndAt(s: Bytes, pos: nat, items: seq<Json>, q: nat)
    requires pos <= |s| && q == WsEnd(s, pos)
    ensures ArrayEnd(s, pos, items) == if At(s, q) != RBRACKET || items == [] then None else Some((Array(items), q + 1))
  {
  }

  /** Unfoldings of the member loop: at the end of the text, after a failed member, after the last member, after a comma. */
  lemma ObjectMembersAtNul(s: Bytes, pos: nat, nesting: nat, acc: seq<Pair<Json>>, strtod: NumberReader)
    requires pos <= |s| && At(s, pos) == NUL
    ensures ObjectMembers(s, pos, nesting, acc, strtod) == ObjectEnd(s, pos, acc)
  {
  }

  lemma ObjectMembersFail(s: Bytes, pos: nat, nesting: nat, acc: seq<Pair<Json>>, strtod: NumberReader)
    requires pos <= |s| && At(s, pos) != NUL && Member(s, pos, nesting, acc, strtod).None?
    ensures ObjectMembers(s, pos, nesting, acc, strtod) == None
  {
  }

  lemma ObjectMembersStop(s: Bytes, pos: nat, nesting: nat, acc: seq<Pair<Json>>, strtod: NumberReader,
                          ps: seq<Pair<Json>>, p4: nat)
    requires pos <= |s| && At(s, pos) != NUL && Member(s, pos, nesting, acc, strtod) == Some((ps, p4))
    requires At(s, p4) != COMMA
    ensures ObjectMembers(s, pos, nesting, acc, strtod) == ObjectEnd(s, p4, ps)
  {
  }

  lemma ObjectMembersMore(s: Bytes, pos: nat, nesting: nat, acc: seq<Pair<Json>>, strtod: NumberReader,
                          ps: seq<Pair<Json>>, p4: nat, next: nat)
    requires pos <= |s| && At(s, pos) != NUL && Member(s, pos, nesting, acc, strtod) == Some((ps, p4))
    requires At(s, p4) == COMMA && p4 < |s| && next == WsEnd(s, p4 + 1)
    ensures ObjectMembers(s, pos, nesting, acc, strtod) == ObjectMembers(s, next, nesting, ps, strtod)
  {
  }

  /** Unfoldings of the item loop: at the end of the text, after a failed item, after the last item, after a comma. */
  lemma ArrayItemsAtNul(s: Bytes, pos: nat, nesting: nat, acc: seq<Json>, strtod: NumberReader)
    requires pos <= |s| && At(s, pos) == NUL
    ensures ArrayItems(s, pos, nesting, acc, strtod) == ArrayEnd(s, pos, acc)
  {
  }

  lemma ArrayItemsFail(s: Bytes, pos: nat, nesting: nat, acc: seq<Json>, strtod: NumberReader)
    requires pos <= |s| && At(s, pos) != NUL && Item(s, pos, nesting, strtod).None?
    ensures ArrayItems(s, pos, nesting, acc, strtod) == None
  {
  }

  lemma ArrayItemsStop(s: Bytes, pos: nat, nesting: nat, acc: seq<Json>, strtod: NumberReader, v: Json, p2: nat)
    requires pos <= |s| && At(s, pos) != NUL && Item(s, pos, nesting, strtod) == Some((v, p2))
    requires At(s, p2) != COMMA
    ensures ArrayItems(s, pos, nesting, acc, strtod) == ArrayEnd(s, p2, acc + [v])
  {
  }

  lemma ArrayItemsMore(s: Bytes, pos: nat, nesting: nat, acc: seq<Json>, strtod: NumberReader, v: Json, p2: nat, next: nat)
    requires pos <= |s| && At(s, pos) != NUL && Item(s, pos, nesting, strtod) == Some((v, p2))
    requires At(s, p2) == COMMA && p2 < |s| && next == WsEnd(s, p2 + 1)
    ensures ArrayItems(s, pos, nesting, acc, strtod) == ArrayItems(s, next, nesting, acc + [v], strtod)
  {
  }

  lemma ObjectEndAt(s: Bytes, pos: nat, ps: seq<Pair<Json>>, q: nat)
    requires pos <= |s| && q == WsEnd(s, pos)
    ensures ObjectEnd(s, pos, ps) == if At(s, q) != RBRACE || ps == [] then None else Some((Object(ps), q + 1))
  {
  }

  method ParseValue(s: Bytes, i: nat, nesting: nat, strtod: NumberReader) returns (r: Option<(Json, nat)>)
    requires i <= |s|
    ensures r == Value(s, i, nesting, strtod)
    decreases |s| - i, 1
  {
    if nesting > MAX_NESTING {
      return None;
    }
    var p := SkipWhitespaces(s, i);
    var c := At(s, p);
    if c == LBRACE {
      r := ParseObjectValue(s, p, nesting + 1, strtod);
    } else if c == LBRACKET {
      r := ParseArrayValue(s, p, nesting + 1, strtod);
    } else if c == QUOTE {
      var t := GetQuotedString(s, p);
      if t.None? {
        return None;
      }
      return Some((String(t.value.0), t.value.1));
    } else if c == 0x66 || c == 0x74 {
      return BooleanValue(s, p);
    } else if c == MINUS || 0x30 <= c <= 0x39 {
      r := ParseNumberValue(s, p, strtod);
    } else if c == 0x6E {
      return NullValue(s, p);
    } else {
      return None;
    }
  }

  method ParseObjectValue(s: Bytes, p: nat, nesting: nat, strtod: NumberReader) returns (r: Option<(Json, nat)>)
    requires p <= |s|
    ensures r == ObjectValue(s, p, nesting, strtod)
    decreases |s| - p, 0
  {
    if At(s, p) != LBRACE {
      return None;
    }
    var pos := SkipWhitespaces(s, p + 1);
    if At(s, pos) == RBRACE {
      return Some((Object([]), pos + 1));
    }
    r := ParseMembers(s, pos, nesting, strtod);
  }

  /** The member loop of `parse_object_value`, from the first member to the closing brace. */
  method ParseMembers(s: Bytes, start: nat, nesting: nat, strtod: NumberReader) returns (r: Option<(Json, nat)>)
    requires start <= |s|
    ensures r == ObjectMembers(s, start, nesting, [], strtod)
    decreases |s| - start, 2
  {
    var pos := start;
    var ps: seq<Pair<Json>> := [];
    ghost var whole := ObjectMembers(s, start, nesting, [], strtod);
    while At(s, pos) != NUL
      invariant start <= pos <= |s|
      invariant whole == ObjectMembers(s, pos, nesting, ps, strtod)
      decreases |s| - pos
    {
      var member := ParseMember(s, pos, nesting, ps, strtod);
      if member.None? {
        ObjectMembersFail(s, pos, nesting, ps, strtod);
        return None;
      }
      var p4 := member.value.1;
      if At(s, p4) != COMMA {
        ObjectMembersStop(s, pos, nesting, ps, strtod, member.value.0, p4);
        ps, pos := member.value.0, p4;
        break;
      }
      var next := SkipWhitespaces(s, p4 + 1);
      ObjectMembersMore(s, pos, nesting, ps, strtod, member.value.0, p4, next);
      ps, pos := member.value.0, next;
    }
    if At(s, pos) == NUL {
      ObjectMembersAtNul(s, pos, nesting, ps, strtod);
    }
    var q := SkipWhitespaces(s, pos);
    ObjectEndAt(s, pos, ps, q);
    if At(s, q) != RBRACE || ps == [] {
      return None;
    }
    return Some((Object(ps), q + 1));
  }

  method ParseArrayValue(s: Bytes, p: nat, nesting: nat, strtod: NumberReader) returns (r: Option<(Json, nat)>)
    requires p <= |s|
    ensures r == ArrayValue(s, p, nesting, strtod)
    decreases |s| - p, 0
  {
    if At(s, p) != LBRACKET {
      return None;
    }
    var pos := SkipWhitespaces(s, p + 1);
    if At(s, pos) == RBRACKET {
      return Some((Array([]), pos + 1));
    }
    r := ParseItems(s, pos, nesting, strtod);
  }

  /** The item loop of `parse_array_value`, from the first item to the closing bracket. */
  method ParseItems(s: Bytes, start: nat, nesting: nat, strtod: NumberReader) returns (r: Option<(Json, nat)>)
    requires start <= |s|
    ensures r == ArrayItems(s, start, nesting, [], strtod)
    decreases |s| - start, 3
  {
    var pos := start;
    var items: seq<Json> := [];
    ghost var whole := ArrayItems(s, start, nesting, [], strtod);
    while At(s, pos) != NUL
      invariant start <= pos <= |s|
      invariant whole == ArrayItems(s, pos, nesting, items, strtod)
      decreases |s| - pos
    {
      var item := ParseItem(s, pos, nesting, strtod);
      if item.None? {
        ArrayItemsFail(s, pos, nesting, items, strtod);
        return None;
      }
      var p2 := item.value.1;
      if At(s, p2) != COMMA {
        ArrayItemsStop(s, pos, nesting, items, strtod, item.value.0, p2);
        items, pos := items + [item.value.0], p2;
        break;
      }
      var next := SkipWhitespaces(s, p2 + 1);
      ArrayItemsMore(s, pos, nesting, items, strtod, item.value.0, p2, next);
      items, pos := items + [item.value.0], next;
    }
    if At(s, pos) == NUL {
      ArrayItemsAtNul(s, pos, nesting, items, strtod);
    }
    var q := SkipWhitespaces(s, pos);
    ArrayEndAt(s, pos, items, q);
    if At(s, q) != RBRACKET || items == [] {
      return None;
    }
    return Some((Array(items), q + 1));
  }

  /** One turn of the member loop of `parse_object_value`. */
  method ParseMember(s: Bytes, pos: nat, nesting: nat, ps: seq<Pair<Json>>, strtod: NumberReader)
    returns (r: Option<(seq<Pair<Json>>, nat)>)
    requires pos <= |s|
    ensures r == Member(s, pos, nesting, ps, strtod)
    decreases |s| - pos, 1
  {
    var key := GetQuotedString(s, pos);
    if key.None? {
      return None;
    }
    var p2 := SkipWhitespaces(s, key.value.1);
    if At(s, p2) != COLON {
      return None;
    }
    r := ParseMemberValue(s, p2 + 1, nesting, ps, key.value.0, strtod);
  }

  method ParseMemberValue(s: Bytes, p: nat, nesting: nat, ps: seq<Pair<Json>>, key: Bytes, strtod: NumberReader)
    returns (r: Option<(seq<Pair<Json>>, nat)>)
    requires p <= |s|
    ensures r == MemberValue(s, p, nesting, ps, key, strtod)
    decreases |s| - p, 2
  {
    var value := ParseValue(s, p, nesting, strtod);
    if value.None? {
      return None;
    }
    var added := Add(ps, key, value.value.0);
    if added.None? {
      return None;
    }
    var p4 := SkipWhitespaces(s, value.value.1);
    return Some((added.value, p4));
  }

  /** One turn of the item loop of `parse_array_value`. */
  method ParseItem(s: Bytes, pos: nat, nesting: nat, strtod: NumberReader) returns (r: Option<(Json, nat)>)
    requires pos <= |s|
    ensures r == Item(s, pos, nesting, strtod)
    decreases |s| - pos, 2
  {
    var value := ParseValue(s, pos, nesting, strtod);
    if value.None? {
      return None;
    }
    var p2 := SkipWhitespaces(s, value.value.1);
    return Some((value.value.0, p2));
  }

  /** Whether the text opens with the UTF-8 byte order mark EF BB BF. */
  predicate HasBom(s: Bytes)
  {
    At(s, 0) == 0xEF && At(s, 1) == 0xBB && At(s, 2) == 0xBF
  }

  /**
   * `json_parse_string`: NULL for a NULL text; otherwise the value at the
   * start of the text, after a byte order mark if there is one. Text after
   * the value is not looked at.
   */
  function Parse(text: Option<Bytes>, strtod: NumberReader): Option<Json>
  {
    match text
    case None => None
    case Some(s) =>
      var start := if HasBom(s) then 3 else 0;
      match Value(s, start, 0, strtod)
      case None => None
      case Some((v, _)) => Some(v)
  }

  /**
   * `json_parse_string_with_comments`: the value at the start of a copy of the
   * text in which block comments and then line comments are blanked. No
   * byte order mark is skipped here.
   */
  function ParseWithComments(text: Bytes, strtod: NumberReader): Option<Json>
  {
    var t := Comments.StripAll(CString(text));
    match Value(t, 0, 0, strtod)
    case None => None
    case Some((v, _)) => Some(v)
  }

  method ParseString(text: Option<Bytes>, strtod: NumberReader) returns (r: Option<Json>)
    ensures r == Parse(text, strtod)
  {
    if text.None? {
      return None;
    }
    var s := text.value;
    var start := 0;
    if At(s, 0) == 0xEF && At(s, 1) == 0xBB && At(s, 2) == 0xBF {
      start := 3;
    }
    var v := ParseValue(s, start, 0, strtod);
    if v.None? {
      return None;
    }
    return Some(v.value.0);
  }

  method ParseStringWithComments(text: Bytes, strtod: NumberReader) returns (r: Option<Json>)
    ensures r == ParseWithComments(text, strtod)
  {
    var copy := CString(text);
    var a := new byte[|copy|](k requires 0 <= k < |copy| => copy[k]);
    assert a[..] == copy;
    Comments.RemoveCommentsInPlace(a, Ascii("/*"), Ascii("*/"));
    Comments.RemoveCommentsInPlace(a, Ascii("//"), Ascii("\n"));
    var v := ParseValue(a[..], 0, 0, strtod);
    if v.None? {
      return None;
    }
    return Some(v.value.0);
  }
}
