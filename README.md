# Parson in Dafny

A model of the Parson JSON library (`parson.c`, `parson.h`), with proofs about
that model. It covers the library's five parts:

- **String codec.** UTF-8 validation (RFC 3629, section 3), unescaping of JSON
  string bodies with `\uXXXX` and surrogate pairs (RFC 8259, section 7;
  RFC 2781, section 2.2), and escaping for output.
- **Document tree.** A value node holds a non-owning `parent` link. An object
  keeps parallel `names`/`values` arrays that share one `count`/`capacity`.
  An array keeps `items` with its own `count`/`capacity`. Both are Dafny
  classes over arrays, and their operations change those arrays in place.
- **Recursive-descent parser.** It skips a byte order mark and stops at a
  nesting limit of 1000. It checks number spans for leading zeros and hex,
  and rejects duplicate names. An optional pre-pass blanks comments in place.
- **Two-pass serializer.** One recursive walk counts the bytes when there is
  no buffer and writes them when there is one.
- **Tree algorithms.** Structural equality, the schema validator, deep copy,
  and dot-notation get, set and remove.

## How the model is organised

Bytes are integers in 0..255. Text is read through a cursor: reading past the
end gives NUL, as in a NUL-terminated C buffer. A C string is the bytes
before the first NUL (`Bytes.CString`).

The pair-sequence functions of `Members` are the single definition of what
adding, setting, looking up and removing do. Three parts use them:

- the container classes, whose methods are proved against them;
- the parser, which rejects duplicate names through `Members.Add`;
- the dot-notation operations.

A document's content is the datatype `Json.Json`. The parser produces it,
the serializer walks it, and the tree algorithms operate on it.
`Json.WellFormed` is the shape every tree the library builds has: no two
pairs of an object share a name, and every name and string is a C string.
`ParserLemmas.ParseSound` proves that parsed trees have this shape.

Imperative parts of the library are methods with loops, proved against pure
functions:

- the parser's cursor loops;
- `process_string`'s output loop;
- the in-place comment blanking;
- the serializer's two passes;
- the container operations;
- the deep copy's loops.

Equality and the validator are pure and recursive in the library, so here
they are recursive functions.

Some parts of the source are taken as parameters:

- The C library's number conversion (`strtod`) is a function parameter of
  the parser.
- The `%1.17g` formatting of numbers is a function parameter of the
  serializer, and both serializer passes use the same one.
- The global slash-escaping flag is a boolean parameter.
- Allocation failure appears as an explicit flag where it changes a result:
  container growth, the name copy when a pair is added, the copy and the
  node allocation of `json_value_init_string`, the node allocation of
  `json_value_init_number`, and the output buffer of
  `json_serialize_to_string`.

Where the header's comments and the code disagree, the model follows the
code:

- `json_array_remove` shifts the later items left and keeps their order. The
  header only says the order may change.
- `json_parse_string_with_comments` does not skip a byte order mark. Only
  `json_parse_string` does. `ParserExamples.ByteOrderMarkExample` shows both.

## Model

| member | source | states |
|---|---|---|
| Json.TypeOf | parson.c:1429-1431 | the type code of a value, `JSONError` exactly for NULL; codes as in the `JSON_Value_Type` enum |
| Json.GetObject | parson.c:1433-1435 | the pairs of an object; NULL exactly when the value is not an object |
| Json.GetArray | parson.c:1437-1439 | the items of an array; NULL exactly when the value is not an array |
| Json.GetString | parson.c:1441-1443 | the bytes of a string; NULL exactly when the value is not a string |
| Json.GetNumber | parson.c:1445-1447 | the number, or 0 when the value is not a number |
| Json.GetBoolean | parson.c:1449-1451 | 1 or 0 for a boolean, -1 when the value is not a boolean |
| Json.ObjectGetValue | parson.c:1283-1293 | a value is found exactly when the object is present and has a pair with that name |
| Utf8.ContMask | parson.c:98 | the continuation-byte test `(b & 0xC0) == 0x80` is the byte range 0x80..0xBF |
| Utf8.NumBytesInSequence | parson.c:230-243 | the lead-byte classification returns the sequence length the lead bits give |
| Utf8.NumBytesClasses | parson.c:230-243 | the sequence length from the lead byte: 0 for continuation bytes, 0xC0, 0xC1 and bytes above 0xF4, otherwise 1 to 4 from the lead bits |
| Utf8.VerifySound | parson.c:245-288 | an accepted sequence is the UTF-8 encoding of a Unicode scalar value: not overlong, at most U+10FFFF, outside U+D800..U+DFFF |
| Utf8.VerifySequence | parson.c:245-288 | an accepted sequence has 1 to 4 bytes and decodes to a Unicode scalar value |
| Utf8.VerifyComplete | parson.c:245-288 | the encoding of every scalar value is accepted, with its length and code point |
| Utf8.IsValidUtf8 | parson.c:290-300 | the loop accepts a string exactly when each successive sequence is accepted |
| Utf8.ValidUtf8Decodes | parson.c:290-300 | a valid string is the concatenated encoding of the scalar values it decodes to |
| Utf8.EncodeAllValid | parson.c:290-300 | the encoding of any sequence of scalar values is valid UTF-8 |
| StringCodec.HexCharToInt | parson.c:201-210 | a result in -1..15, and -1 exactly for a byte that is not a hex digit of either case |
| StringCodec.UpperHexDigit | parson.c:201-210 | the upper-case spelling of every nibble reads back as that nibble |
| StringCodec.HexCharToIntSpells | parson.c:201-210 | every accepted byte is the lower- or upper-case spelling of the value returned, so with the digit writers each digit of either case reads as the value it spells |
| StringCodec.ParseUtf16Hex | parson.c:214-228 | four hex digits are read as a 16-bit value, and the read fails exactly when one of them is not a hex digit |
| StringCodec.ParseUtf16 | parson.c:650-694 | fails when the four hex digits do not parse or name a lone trail surrogate; a value outside U+D800..U+DFFF writes exactly its UTF-8 encoding and consumes five bytes after the backslash; a lead surrogate succeeds exactly when `\u` and a trail surrogate follow, and then writes the UTF-8 encoding of the combined code point and consumes eleven; never more output than input |
| StringCodec.CombineSurrogates | parson.c:671-681 | a lead and a trail surrogate combine to a scalar value in U+10000..U+10FFFF, by the RFC 2781 formula |
| StringCodec.ParseUtf16Encodes | parson.c:650-694 | what a successful escape writes is the UTF-8 encoding of the code point it denotes: the hex value, or the combined pair for a lead surrogate |
| StringCodec.SurrogatePairExample | parson.c:650-694 | `\uD83D\uDE00` writes the four bytes F0 9F 98 80, and a lone `\uDE00` fails |
| StringCodec.ParseUtf16Valid | parson.c:650-694 | the bytes a `\u` escape writes are valid UTF-8 |
| StringCodec.ProcessString | parson.c:699-758 | the output loop computes the unescaping of the input; only the listed escapes are accepted, and a raw byte below 0x20 fails |
| StringCodec.DecodeFromShrinks | parson.c:699-758 | the decoded string is never longer than its input |
| StringCodec.Escape | parson.c:1115-1189 | escaped output has no NUL and is between one and six times as long as the input |
| StringCodec.UnescapeEscape | parson.c:1115-1189 | unescaping the serializer's escaping of any string gives the string back, with or without escaped slashes |
| Containers.Grow | parson.c:428-432 | a full container grows to more than its capacity and to at least the starting capacity of 16 |
| Containers.Value.TypeCode | parson.c:1429-1431 | the type code of a node matches its kind |
| Containers.Value.InitNull | parson.c:1556-1564 | a new null node without a parent |
| Containers.Value.InitBoolean | parson.c:1545-1554 | a new boolean node, true exactly for a non-zero argument |
| Containers.Value.InitFiniteNumber | parson.c:1530-1543 | a new number node without a parent |
| Containers.Value.InitStringNoCopy | parson.c:617-626 | a new string node holding the given bytes |
| Containers.Value.InitObject | parson.c:1474-1487 | a new object node without a parent, wrapping a fresh, empty, valid object |
| Containers.Value.InitArray | parson.c:1489-1502 | a new array node without a parent, wrapping a fresh, empty, valid array |
| Containers.Value.InitString | parson.c:1504-1528 | NULL exactly when the C string is not valid UTF-8, the copy fails or the node allocation fails; otherwise a new node without a parent holding a copy of the C string |
| Containers.Value.InitNumber | parson.c:1530-1543 | NULL exactly for NaN or an infinity or when the node allocation fails; otherwise a new number node without a parent |
| Containers.JsonObject.Init | parson.c:395-406 | a new object with no pairs and no capacity, bound to its wrapping value |
| Containers.JsonObject.Resize | parson.c:446-484 | succeeds exactly for a non-zero capacity when allocation succeeds; the pairs and count are kept and only the capacity changes |
| Containers.JsonObject.Getn | parson.c:486-498 | the value of the first pair whose name has the same length and bytes; NULL exactly when there is none |
| Containers.JsonObject.Addn | parson.c:421-444 | refused exactly when the value is NULL, the name is present, or growing the arrays or copying the name fails; a refusal leaves the pairs and the value's parent as they were, and a growth done before a failed copy is kept; otherwise the pair is appended, earlier pairs are kept, and the value's parent becomes the object's wrapper; the value's kind never changes |
| Containers.JsonObject.RemoveInternal | parson.c:500-521 | succeeds exactly when the name is present; the last pair moves into the freed slot, count drops by one, and capacity is kept |
| Containers.JsonObject.Clear | parson.c:2063-2074 | no pairs remain, and the capacity and arrays are kept |
| Containers.JsonObject.SetValue | parson.c:1918-1937 | refused exactly for a NULL value, a value that already has a parent, or a new name whose growth or copy fails; a refusal leaves the pairs and the value's parent as they were; otherwise the value replaces the old one in its slot or is appended under the new name, and its parent becomes the object's wrapper; the value's kind never changes |
| Containers.JsonArray.Init | parson.c:558-568 | a new array with no items and no capacity, bound to its wrapping value |
| Containers.JsonArray.Resize | parson.c:583-605 | succeeds exactly for a non-zero capacity of at least the count when allocation succeeds; the items are kept |
| Containers.JsonArray.Add | parson.c:570-581 | appends the item, growing when full; the earlier items are kept, and on failure nothing changes |
| Containers.JsonArray.Remove | parson.c:1778-1791 | fails with nothing changed for an index past the count; otherwise the later items shift left in order and capacity is kept |
| Containers.JsonArray.ReplaceValue | parson.c:1793-1801 | fails, with the items and the value's parent unchanged, exactly for a bad index, a NULL value or a value with a parent; otherwise only that slot changes and the value's parent becomes the wrapper; the count and the value's kind are kept |
| Containers.JsonArray.Clear | parson.c:1851-1861 | no items remain, and the capacity is kept |
| Containers.JsonArray.AppendValue | parson.c:1863-1868 | refused, with the items and the value's parent unchanged, exactly for a NULL value, one that already has a parent, or a failed growth; otherwise the item is appended and its parent set; the value's kind is kept |
| Members.AddSpec | parson.c:421-444 | adding fails exactly when the name is present; otherwise it appends one pair, keeps earlier pairs and names unique, and leaves every other lookup unchanged |
| Members.SetSpec | parson.c:1918-1937 | after setting, the name finds the new value; the count is kept for an existing name or grows by one; other names and uniqueness are kept |
| Members.RemoveSwapSpec | parson.c:500-521 | with unique names, removal succeeds exactly when the name is present; afterwards the name is gone, the multiset of the other pairs is kept, and other lookups are unchanged |
| Members.RemoveAtSpec | parson.c:1778-1791 | removing an index keeps the items before it and shifts the later ones left in order |
| Parser.SkipWhitespaces | parson.c:65 | the loop stops at the first non-space byte, and every byte skipped is a space |
| Parser.SkipQuotes | parson.c:629-647 | the scan ends just past the closing quote, honouring backslash escapes, and fails at the terminator |
| Parser.GetQuotedString | parson.c:762-777 | a quoted body is unescaped into a C string, and the cursor moves past the closing quote |
| Parser.CheckDecimal | parson.c:302-316 | a number span is rejected when it has a leading `0` or `-0` followed by anything but `.`, or contains `x` or `X` |
| Parser.ParseNumberValue | parson.c:944-954 | the span read by the number reader must pass the decimal check and be finite |
| Parser.Value | parson.c:779-802 | parsing fails whenever the nesting exceeds 1000; the cursor only moves forward and stays inside the text |
| Parser.ParseValue | parson.c:779-802 | the dispatching parse computes `Parser.Value` |
| Parser.ParseObjectValue | parson.c:804-865 | the object loop computes `Parser.ObjectValue`: members separated by commas, duplicates rejected, closed by `}` |
| Parser.ParseArrayValue | parson.c:867-912 | the array loop computes `Parser.ArrayValue` |
| Parser.ParseString | parson.c:1251-1262 | `json_parse_string` skips a byte order mark and parses one value; trailing text is ignored, and NULL means an error |
| Parser.ParseStringWithComments | parson.c:1264-1279 | the copy is blanked of `/* */` and `//` comments in place and then parsed |
| Comments.Find | parson.c:352-392 | the `strstr` scan finds the first occurrence of the token at or after the cursor, and reports none only when there is none |
| Comments.Strip | parson.c:352-392 | blanking keeps the length and only ever turns bytes into spaces at or after the cursor |
| Comments.RemoveCommentsInPlace | parson.c:352-392 | the in-place loop computes `Comments.RemoveComments`, which blanks a comment from its start token through its end token |
| CommentsLemmas.StripKeepsLiteral | parson.c:352-392 | inside a string, every byte up to the closing quote, the terminator or the end is kept as it is, so comment tokens there are left alone |
| CommentsLemmas.StripWithoutToken | parson.c:352-392 | text without a start token is unchanged |
| CommentsLemmas.BlockCommentExample | parson.c:352-392 | `a/*b*/c` becomes `a` followed by five spaces and `c` |
| CommentsLemmas.QuotedTokenExample | parson.c:352-392 | a comment opener inside a string is left alone |
| CommentsLemmas.UnterminatedCommentExample | parson.c:352-392 | an unterminated comment has only its opening token blanked |
| ParserLemmas.ValueSound | parson.c:779-912 | every parsed value has unique names at every level, C-string names and strings, and fits within the nesting limit |
| ParserLemmas.ParseSound | parson.c:1251-1262 | a parsed document is well formed and at most 1000 levels deep |
| ParserLemmas.ParseWithCommentsSound | parson.c:1264-1279 | the same holds after comment removal |
| ParserExamples.NestingCeilingExample | parson.c:779-802 | `[]` still parses at nesting 1000, but `[null]` needs one more level and fails |
| ParserExamples.TrailingTextExample | parson.c:1251-1262 | text after the value is ignored |
| ParserExamples.ByteOrderMarkExample | parson.c:1251-1279 | a byte order mark is skipped by `json_parse_string` but not by the comments variant |
| ParserExamples.DecimalExample | parson.c:302-316 | `0.5`, `-0` and `10e5` pass; `01`, `0e5`, `-01` and `0x1` are rejected |
| ParserExamples.DuplicateNameExample | parson.c:804-865 | `{"a":null,"a":null}` is rejected |
| Serializer.AppendString | parson.c:1203-1224 | counts the string's length, and with a buffer writes it followed by a NUL |
| Serializer.AppendIndent | parson.c:1191-1201 | four spaces per level |
| Serializer.SerializeString | parson.c:1115-1189 | writes the quoted escaping of the C string; both passes report the same length |
| Serializer.SerializeValue | parson.c:977-1113 | both passes return the length of the same text; the writing pass writes exactly that text and a NUL |
| Serializer.SerializeR | parson.c:977-1113 | -1 with the buffer untouched for a NULL value; otherwise the length of the text, and with a buffer the text and a NUL written at its start |
| Serializer.SerializationSize | parson.c:1650-1654 | the text length plus one, or 0 for NULL |
| Serializer.SerializeToBuffer | parson.c:1656-1669 | fails with the buffer untouched exactly when the value is NULL or the buffer is smaller than the size; otherwise the text and a NUL are at the start and the rest is kept |
| Serializer.SerializeToString | parson.c:1693-1710 | a new buffer of exactly the size, holding the text and a NUL; NULL exactly for a NULL value or a failed allocation |
| TreeOps.Equals | parson.c:2139-2155 | two values are equal only when they have the same type |
| TreeOps.EqualsArrays | parson.c:2157-2170 | arrays are equal exactly when their counts agree and their items are equal in order |
| TreeOps.EqualsObjects | parson.c:2171-2186 | objects are equal exactly when their counts agree and every name of the first finds equal values in both |
| TreeOps.EqualsReflexive | parson.c:2139-2204 | every value equals itself |
| TreeOps.EqualsSymmetric | parson.c:2139-2204 | for trees with unique names, equality is symmetric |
| TreeOps.EqualsIgnoresOrder | parson.c:2171-2186 | objects with unique names, the same count and the same value under every name are equal, whatever the order of their pairs |
| TreeOps.Validate | parson.c:2076-2137 | a success implies matching types, unless the schema is null; a null schema accepts any value, `[]` accepts every array, and `{}` accepts every object |
| TreeOps.ValidateOpt | parson.c:2086-2088 | a NULL schema or value fails |
| TreeOps.ValidateArray | parson.c:2095-2110 | a non-empty array schema accepts exactly the arrays whose every item validates against its first item |
| TreeOps.ValidateObject | parson.c:2111-2131 | a non-empty object schema accepts exactly the objects with at least as many pairs in which every schema name is present and its value validates |
| TreeOps.CopyIdentity | parson.c:1566-1648 | the deep copy of a well-formed tree succeeds and is the same tree: same types, counts, item and name order, and string bytes |
| TreeOps.CopyEquals | parson.c:1566-1648 | the copy equals the original under `json_value_equals`, in both directions |
| TreeOps.DeepCopy | parson.c:1566-1648 | the looping copy computes `TreeOps.Copy`, and NULL stands for any failure |
| TreeOps.CopyArray | parson.c:1579-1597 | the item loop copies every item in order, or fails |
| TreeOps.CopyObject | parson.c:1598-1620 | the pair loop re-adds every name of the copy in order, or fails |
| DotPaths.FirstDot | parson.c:1316 | the index of the first dot before the terminator, with no dot before it |
| DotPaths.DotGet | parson.c:1315-1330 | a value is reached only from a present object that has a pair named by the first step |
| DotPaths.DotSet | parson.c:1955-2005 | on values, fails only for a dotted name; on success the first step's name is present and at most one pair is added |
| DotPaths.DotRemove | parson.c:523-544 | succeeds only when the first step's name is present, and removes at most one pair at that level |
| DotPaths.DotSetThenGet | parson.c:1955-2005 | after a successful dotted set, the same dotted get returns the stored value |
| DotPaths.DotSetFails | parson.c:1955-2005 | on values, a dotted set fails exactly when a step of the path names an existing value that is not an object; missing steps are created |
| DotPaths.DotSetOthers | parson.c:1955-2005 | a dotted set changes only the pair its first step names |
| DotPaths.DotSetKeepsOthers | parson.c:1955-2005 | every dotted name that parts ways with the set one, at any depth, reaches the same value afterwards |
| DotPaths.DotSetWellFormed | parson.c:1955-2005 | a dotted set keeps names unique at every level |
| DotPaths.DotRemoveSpec | parson.c:523-544 | with unique names, a dotted remove succeeds exactly when the dotted get finds a value, and afterwards the get finds nothing |
| DotPaths.DotRemoveOthers | parson.c:523-544 | a dotted remove changes only the pair its first step names |
| DotPaths.DotRemoveKeepsOthers | parson.c:523-544 | every dotted name that parts ways with the removed one, at any depth, reaches the same value afterwards |
| TreeExamples.ValidatesExactFields | parson.h:111-112 | `{"name":"", "age":0}` validates `{"name":"Joe", "age":25}` |
| TreeExamples.ValidatesExtraField | parson.h:111-112 | the same schema validates `{"name":"Joe", "age":25, "gender":"m"}` |
| TreeExamples.RejectsMissingField | parson.h:113 | it does not validate `{"name":"Joe"}` |
| TreeExamples.RejectsWrongType | parson.h:113 | it does not validate `{"name":"Joe", "age":"Cucumber"}` |
| TreeExamples.OnlyFirstSchemaItem | parson.h:114 | only the first item of an array schema is checked, so `[0, ""]` does not validate itself |
| TreeExamples.EqualsReorderedObject | parson.c:2171-2186 | `{"a":null,"b":true}` equals `{"b":true,"a":null}` |
| TreeExamples.NumberToleranceNotTransitive | parson.c:2196 | numbers within 0.000001 are equal, so equality is not transitive |
| TreeExamples.DuplicateNamesAsymmetric | parson.c:2171-2186 | with a repeated name, equality can hold one way but not the other |
| TreeExamples.CopyRefusesDuplicateNames | parson.c:1598-1620 | an object with a repeated name cannot be deep-copied |
| TreeExamples.DottedNameUnreachable | parson.h:130-133 | a name containing a dot is stored but cannot be reached or removed by dot notation |
| TreeExamples.DotSetCreatesHierarchy | parson.h:163-164 | setting `a.b` in an empty object creates the object `a` |
| TreeExamples.DotSetThroughScalarFails | parson.c:1980-1984 | setting `a.b` fails when `a` is not an object |

## Left out

- File I/O is not modelled: `read_file`, `json_parse_file*` and `json_serialize_to_file*`.
- The allocator hook `json_set_allocation_functions` is a process-wide swap of function pointers, and is not modelled.
- The parser, the string codec and the deep copy do not model allocation failure. Container growth, the name copy of an added pair, `json_value_init_string`, `json_value_init_number` and the output string do model it, as a flag.
- DotPaths.DotSet: allocation failure is not modelled for the dot-notation set. `json_object_dotset_value` also fails when the new intermediate object cannot be allocated, when adding it fails, or when the growth or name copy of the final `json_object_set_value` fails; the model's set fails only when a step names a value that is not an object, and DotPaths.DotSetFails states that case alone.
- Containers.Value.InitNull, InitBoolean, InitFiniteNumber, InitStringNoCopy, InitObject, InitArray: always succeed; the failure of their node allocation (and, for objects and arrays, of the container allocation) is not modelled.
- Floating point is not modelled. Numbers are mathematical reals. The number reader and the number formatter are parameters, and `IS_NUMBER_INVALID` is the `NonFinite` case of `Json.Double`.
- TreeOps.Equals: compares numbers by the exact real difference against 0.000001, not by `fabs` of a rounded double difference.
- The `written_total` counter is unbounded here. Overflow of the C `int` is not modelled.
- The tree algorithms and the dot-notation operations work on document values, not on the heap of linked nodes. Two things are therefore not captured:
  - the update in place of a nested object shared by a parent pointer;
  - the parent checks and the fact that `json_object_dotset_value` does not copy the value it is given.

  The container classes model the parent rule for one level.
- `json_value_free` is not modelled, and neither are the frees done on failure paths. The model has no deallocation. On values, a failure returns NULL and leaves the input unchanged.
- NULL arguments to the container and dot-notation entry points are not modelled, so those operations take a present object. NULL values are modelled where the source tests them: getters, `json_validate`, `json_value_equals`, and the serializer entry points.
- The thin typed wrappers (`json_object_get_string`, `json_array_append_number`, `json_object_dotset_boolean`, the short aliases, and others) are not modelled. Each one forwards to a modelled operation.
- `parson_strdup` of a NULL pointer is not modelled: every string passed in is present.
- DotPaths.DotSet: the first step is matched with `Members.Lookup` on whole names, which is `json_object_getn_value`. For names that themselves contain a NUL byte, this can differ from the C-string comparison. Trees the library builds have no such names.
