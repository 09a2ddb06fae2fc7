/** The recursive-descent parser of cJSON.c as a function of the text and an offset. */

module JsonParser {
  import opened Basics
  import opened JsonText

  /** CJSON_NESTING_LIMIT */
  const NESTING_LIMIT: nat := 1000

  /** A value and the offset behind it, a failure, or Overrun: the source goes on to read the byte behind the text. */
  datatype Outcome<+T> = Parsed(value: T, offset: nat) | Failed | Overrun {
    function PropagateFailure<U>(): Outcome<U>
      requires !Parsed?
    {
      if Failed? then Failed else Overrun
    }
  }

  /** The text ends in a comma. */
  predicate EndsInComma(c: seq<byte>) {
    c != [] && c[|c| - 1] == COMMA
  }

  // ---- White space ----

  /** Everything up to 32 counts as white space, NUL included. */
  function Skip(c: seq<byte>, o: nat): (r: nat)
    requires o <= |c|
    ensures o <= r <= |c|
    ensures r < |c| ==> c[r] > 32
    decreases |c| - o
  {
    if o < |c| && c[o] <= 32 then Skip(c, o + 1) else o
  }

  /** buffer_skip_whitespace: one step back when only white space was left. */
  function SkipWhitespace(c: seq<byte>, o: nat): (r: nat)
    requires o <= |c|
    ensures o <= r <= |c|
    ensures o < |c| ==> r < |c|
  {
    if o == |c| then o else if Skip(c, o) == |c| then |c| - 1 else Skip(c, o)
  }

  // ---- Strings ----

  /** The first scan of parse_string: the closing quote, or the end of the text. */
  function FindEnd(c: seq<byte>, i: nat): (r: nat)
    ensures r < |c| ==> i <= r && c[r] == QUOTE
    decreases |c| - i
  {
    if i >= |c| then |c|
    else if c[i] == QUOTE then i
    else if c[i] == BACKSLASH then if i + 1 >= |c| then |c| else FindEnd(c, i + 2)
    else FindEnd(c, i + 1)
  }

  function HexValue(b: byte): int {
    if 48 <= b <= 57 then b - 48
    else if 65 <= b <= 70 then b - 55
    else if 97 <= b <= 102 then b - 87
    else -1
  }

  /** parse_hex4: an invalid digit makes the whole number 0. */
  function ParseHex4(c: seq<byte>, i: nat): (r: nat)
    requires i + 4 <= |c|
    ensures r < 0x1_0000
  {
    var a, b, d, e := HexValue(c[i]), HexValue(c[i + 1]), HexValue(c[i + 2]), HexValue(c[i + 3]);
    if a < 0 || b < 0 || d < 0 || e < 0 then 0 else a * 0x1000 + b * 0x100 + d * 0x10 + e
  }

  /** The UTF-8 encoding of a code point, section 3 of RFC 3629. */
  function Utf8(cp: nat): (r: seq<byte>)
    requires cp <= 0x10_FFFF
    ensures 1 <= |r| <= 4
  {
    if cp < 0x80 then [cp]
    else if cp < 0x800 then [0xC0 + cp / 0x40, 0x80 + cp % 0x40]
    else if cp < 0x1_0000 then [0xE0 + cp / 0x1000, 0x80 + cp / 0x40 % 0x40, 0x80 + cp % 0x40]
    else [0xF0 + cp / 0x4_0000, 0x80 + cp / 0x1000 % 0x40, 0x80 + cp / 0x40 % 0x40, 0x80 + cp % 0x40]
  }

  /** What utf16_literal_to_utf8 finds at a \u: how many characters it takes up, and the code point. */
  datatype Literal = Literal(length: nat, codepoint: nat) | Invalid

  function Utf16Literal(c: seq<byte>, i: nat, end: nat): (r: Literal)
    requires i <= end <= |c|
    ensures r.Literal? ==> (r.length == 6 || r.length == 12) && i + r.length <= end && r.codepoint <= 0x10_FFFF
  {
    if end - i < 6 then Invalid
    else
      var first := ParseHex4(c, i + 2);
      if 0xDC00 <= first <= 0xDFFF then Invalid
      else if 0xD800 <= first <= 0xDBFF then
        if end - (i + 6) < 6 then Invalid
        else if c[i + 6] != BACKSLASH || c[i + 7] != LOWER_U then Invalid
        else
          var second := ParseHex4(c, i + 8);
          if second < 0xDC00 || second > 0xDFFF then Invalid
          else Literal(12, 0x1_0000 + (first - 0xD800) * 0x400 + (second - 0xDC00))
      else Literal(6, first)
  }

  /** The simple escapes: the byte an escaped character stands for, or -1. */
  function Unescape(b: byte): int {
    if b == 98 then 8
    else if b == 102 then 12
    else if b == 110 then NEWLINE
    else if b == 114 then 13
    else if b == 116 then TAB
    else if b == QUOTE || b == BACKSLASH || b == SLASH then b
    else -1
  }

  datatype Decoded = Bytes(bytes: seq<byte>) | Malformed

  function Prepend(bytes: seq<byte>, d: Decoded): Decoded {
    match d
    case Bytes(rest) => Bytes(bytes + rest)
    case Malformed => Malformed
  }

  /** The second scan of parse_string, from i to the closing quote. */
  function Decode(c: seq<byte>, i: nat, end: nat): Decoded
    requires end < |c|
    decreases end + 1 - i
  {
    if i >= end then Bytes([])
    else if c[i] != BACKSLASH then Prepend([c[i]], Decode(c, i + 1, end))
    else if c[i + 1] == LOWER_U then
      match Utf16Literal(c, i, end)
      case Literal(length, cp) => Prepend(Utf8(cp), Decode(c, i + length, end))
      case Invalid => Malformed
    else if Unescape(c[i + 1]) >= 0 then Prepend([Unescape(c[i + 1])], Decode(c, i + 2, end))
    else Malformed
  }

  function ParseString(c: seq<byte>, o: nat): (r: Outcome<seq<byte>>)
    requires o < |c|
    ensures r.Parsed? ==> o < r.offset <= |c|
    ensures !r.Overrun?
  {
    if c[o] != QUOTE then Failed
    else
      var end := FindEnd(c, o + 1);
      if end >= |c| then Failed
      else
        match Decode(c, o + 1, end)
        case Bytes(bytes) => Parsed(bytes, end + 1)
        case Malformed => Failed
  }

  // ---- Values ----

  /** The text has `t` at offset o. */
  predicate At(c: seq<byte>, o: nat, t: seq<byte>) {
    o + |t| <= |c| && c[o..o + |t|] == t
  }

  function ParseValue(c: seq<byte>, o: nat, depth: nat): (r: Outcome<Json>)
    requires o <= |c|
    ensures r.Parsed? ==> o < r.offset <= |c|
    ensures r.Overrun? ==> EndsInComma(c)
    decreases |c| - o, 3
  {
    if At(c, o, NULL_TEXT) then Parsed(Null, o + 4)
    else if At(c, o, FALSE_TEXT) then Parsed(Bool(false), o + 5)
    else if At(c, o, TRUE_TEXT) then Parsed(Bool(true), o + 4)
    else if o < |c| && c[o] == QUOTE then
      var s := ParseString(c, o);
      if s.Parsed? then Parsed(Str(s.value), s.offset) else s.PropagateFailure()
    else if o < |c| && c[o] == LBRACKET then ParseArray(c, o, depth)
    else if o < |c| && c[o] == LBRACE then ParseObject(c, o, depth)
    else Failed
  }

  function ParseArray(c: seq<byte>, o: nat, depth: nat): (r: Outcome<Json>)
    requires o < |c| && c[o] == LBRACKET
    ensures r.Parsed? ==> o < r.offset <= |c|
    ensures r.Overrun? ==> EndsInComma(c)
    decreases |c| - o, 2
  {
    if depth >= NESTING_LIMIT then Failed
    else
      var o1 := SkipWhitespace(c, o + 1);
      if o1 < |c| && c[o1] == RBRACKET then Parsed(Arr([]), o1 + 1)
      else if o1 >= |c| then Failed
      else
        var items := ParseItems(c, o1 - 1, depth + 1);
        if items.Parsed? then Parsed(Arr(items.value), items.offset) else items.PropagateFailure()
  }

  /** The elements of an array, o being at the character before the next one: the bracket or a comma. */
  function ParseItems(c: seq<byte>, o: nat, depth: nat): (r: Outcome<seq<Json>>)
    requires o < |c|
    ensures r.Parsed? ==> o < r.offset <= |c| && r.value != []
    ensures r.Overrun? ==> EndsInComma(c)
    decreases |c| - o, 1
  {
    var v := ParseValue(c, SkipWhitespace(c, o + 1), depth);
    if !v.Parsed? then v.PropagateFailure()
    else
      var q := SkipWhitespace(c, v.offset);
      if q < |c| && c[q] == COMMA then
        var vs := ParseItems(c, q, depth);
        if vs.Parsed? then Parsed([v.value] + vs.value, vs.offset) else vs.PropagateFailure()
      else if q < |c| && c[q] == RBRACKET then Parsed([v.value], q + 1)
      else Failed
  }

  function ParseObject(c: seq<byte>, o: nat, depth: nat): (r: Outcome<Json>)
    requires o < |c| && c[o] == LBRACE
    ensures r.Parsed? ==> o < r.offset <= |c|
    ensures r.Overrun? ==> EndsInComma(c)
    decreases |c| - o, 2
  {
    if depth >= NESTING_LIMIT then Failed
    else
      var o1 := SkipWhitespace(c, o + 1);
      if o1 < |c| && c[o1] == RBRACE then Parsed(Obj([]), o1 + 1)
      else if o1 >= |c| then Failed
      else
        var members := ParseMembers(c, o1 - 1, depth + 1);
        if members.Parsed? then Parsed(Obj(members.value), members.offset) else members.PropagateFailure()
  }

  /** One key, colon and value, o being at the character before the key: the brace, white space or a comma. That there
      is a character to read the key from, the source does not check. */
  function ParseMember(c: seq<byte>, o: nat, depth: nat): (r: Outcome<Member>)
    requires o < |c|
    ensures r.Parsed? ==> o < r.offset <= |c|
    ensures r.Overrun? ==> o + 1 == |c| || EndsInComma(c)
    decreases |c| - o, 0
  {
    var k := SkipWhitespace(c, o + 1);
    if k == |c| then Overrun
    else
      var key := ParseString(c, k);
      if !key.Parsed? then key.PropagateFailure()
      else
        var q := SkipWhitespace(c, key.offset);
        if q >= |c| || c[q] != COLON then Failed
        else
          var v := ParseValue(c, SkipWhitespace(c, q + 1), depth);
          if v.Parsed? then Parsed(Member(key.value, v.value), v.offset) else v.PropagateFailure()
  }

  function ParseMembers(c: seq<byte>, o: nat, depth: nat): (r: Outcome<seq<Member>>)
    requires o < |c|
    ensures r.Parsed? ==> o < r.offset <= |c| && r.value != []
    ensures r.Overrun? ==> o + 1 == |c| || EndsInComma(c)
    decreases |c| - o, 1
  {
    var m := ParseMember(c, o, depth);
    if !m.Parsed? then m.PropagateFailure()
    else
      var q := SkipWhitespace(c, m.offset);
      if q < |c| && c[q] == COMMA then
        var ms := ParseMembers(c, q, depth);
        if ms.Parsed? then Parsed([m.value] + ms.value, ms.offset) else ms.PropagateFailure()
      else if q < |c| && c[q] == RBRACE then Parsed([m.value], q + 1)
      else Failed
  }

  // ---- The whole text ----

  /** skip_utf8_bom */
  function SkipBom(c: seq<byte>): nat {
    if |c| > 4 && c[..3] == [0xEF, 0xBB, 0xBF] then 3 else 0
  }

  /** cJSON_ParseWithLengthOpts on a text that includes its terminating NUL. */
  function Parse(c: seq<byte>, requireNullTerminated: bool): Outcome<Json> {
    if c == [] then Failed
    else
      var v := ParseValue(c, SkipWhitespace(c, SkipBom(c)), 0);
      if !v.Parsed? || !requireNullTerminated then v
      else
        var q := SkipWhitespace(c, v.offset);
        if q >= |c| || c[q] != NUL then Failed else Parsed(v.value, q)
  }

  /** The source reads past the text only in a text whose last byte is a comma. A text passed with its terminating NUL,
      as cJSON_Parse passes it, is safe. */
  lemma OverrunNeedsComma(c: seq<byte>, requireNullTerminated: bool)
    requires !EndsInComma(c)
    ensures Parse(c, requireNullTerminated) != Overrun
  {
  }

  /** When a key is looked for behind q, it is looked for outside the text exactly when q is the last byte. */
  lemma KeyOutsideExactly(c: seq<byte>, q: nat)
    requires q < |c|
    ensures SkipWhitespace(c, q + 1) == |c| <==> q + 1 == |c|
  {
  }

  /** {"":null, with nothing behind it. */
  const UNFINISHED: seq<byte> := [LBRACE, QUOTE, QUOTE, COLON, 110, 117, 108, 108, COMMA]

  lemma UnfinishedObjectOverruns(requireNullTerminated: bool)
    ensures Parse(UNFINISHED, requireNullTerminated) == Overrun
  {
    var c := UNFINISHED;
    assert Skip(c, 0) == 0 && Skip(c, 1) == 1 && Skip(c, 3) == 3 && Skip(c, 4) == 4 && Skip(c, 8) == 8;
    assert FindEnd(c, 2) == 2 && ParseString(c, 1) == Parsed([], 3);
    assert c[4..8] == NULL_TEXT && ParseValue(c, 4, 1) == Parsed(Null, 8);
    assert ParseMember(c, 0, 1) == Parsed(Member([], Null), 8);
    assert ParseMember(c, 8, 1) == Overrun;
    assert ParseMembers(c, 8, 1) == Overrun;
    assert ParseMembers(c, 0, 1) == Overrun;
    assert ParseObject(c, 0, 0) == Overrun;
    assert c[0] == LBRACE && !At(c, 0, NULL_TEXT) && !At(c, 0, FALSE_TEXT) && !At(c, 0, TRUE_TEXT);
  }
}
