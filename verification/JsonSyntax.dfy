/** JSON texts as section 2 of RFC 8259 spells them, apart from numbers: every string in any of its spellings, white space
    wherever it may stand, and, for the minifier, comments there too. */

module JsonSyntax {
  import opened Basics
  import opened JsonText
  import opened JsonParser

  const STAR: byte := 42

  // ---- Strings ----

  /** Which of four hexadecimal digits are written with capital letters. */
  datatype Capitals = Capitals(first: bool, second: bool, third: bool, fourth: bool)

  /** One character of a string: as it is, behind a backslash, by its number, or as a pair of surrogates. */
  datatype Char =
    | Plain(b: byte)
    | Short(letter: byte)
    | Numbered(n: nat, capitals: Capitals)
    | Paired(cp: nat, high: Capitals, low: Capitals)

  function Hex(d: nat, capital: bool): byte
    requires d < 16
  {
    if d < 10 then 48 + d else if capital then 55 + d else 87 + d
  }

  function Hex4(n: nat, c: Capitals): (r: seq<byte>)
    requires n < 0x1_0000
    ensures |r| == 4
  {
    [Hex(n / 0x1000, c.first), Hex(n / 0x100 % 16, c.second), Hex(n / 16 % 16, c.third), Hex(n % 16, c.fourth)]
  }

  /** The letters behind a backslash and what they stand for, section 7 of RFC 8259. */
  const SHORT_FORMS: map<byte, byte> :=
    map[34 := 34, 92 := 92, 47 := 47, 98 := 8, 102 := 12, 110 := 10, 114 := 13, 116 := 9]

  predicate CharOk(ch: Char) {
    match ch
    case Plain(b) => b != QUOTE && b != BACKSLASH
    case Short(letter) => letter in SHORT_FORMS
    case Numbered(n, _) => n < 0x1_0000 && !(0xD800 <= n <= 0xDFFF)
    case Paired(cp, _, _) => 0x1_0000 <= cp <= 0x10_FFFF
  }

  function CharText(ch: Char): (r: seq<byte>)
    requires CharOk(ch)
    ensures r != [] && r[0] != QUOTE
  {
    match ch
    case Plain(b) => [b]
    case Short(letter) => [BACKSLASH, letter]
    case Numbered(n, c) => [BACKSLASH, LOWER_U] + Hex4(n, c)
    case Paired(cp, high, low) =>
      ([BACKSLASH, LOWER_U] + Hex4(0xD800 + (cp - 0x1_0000) / 0x400, high))
      + ([BACKSLASH, LOWER_U] + Hex4(0xDC00 + (cp - 0x1_0000) % 0x400, low))
  }

  function CharMeaning(ch: Char): seq<byte>
    requires CharOk(ch)
  {
    match ch
    case Plain(b) => [b]
    case Short(letter) => [SHORT_FORMS[letter]]
    case Numbered(n, _) => Utf8(n)
    case Paired(cp, _, _) => Utf8(cp)
  }

  predicate CharsOk(chars: seq<Char>) {
    chars != [] ==> CharOk(chars[0]) && CharsOk(chars[1..])
  }

  function CharsText(chars: seq<Char>): seq<byte>
    requires CharsOk(chars)
  {
    if chars == [] then [] else CharText(chars[0]) + CharsText(chars[1..])
  }

  function CharsMeaning(chars: seq<Char>): seq<byte>
    requires CharsOk(chars)
  {
    if chars == [] then [] else CharMeaning(chars[0]) + CharsMeaning(chars[1..])
  }

  function StringText(chars: seq<Char>): seq<byte>
    requires CharsOk(chars)
  {
    [QUOTE] + (CharsText(chars) + [QUOTE])
  }

  // ---- Between tokens ----

  datatype Filler = White(b: byte) | LineComment(body: seq<byte>) | BlockComment(body: seq<byte>)

  type Gap = seq<Filler>

  /** A line comment ends with its line; a block comment at the first star and slash. */
  function FillerText(f: Filler): seq<byte> {
    match f
    case White(b) => [b]
    case LineComment(body) => [SLASH, SLASH] + (body + [NEWLINE])
    case BlockComment(body) => [SLASH, STAR] + (body + [STAR, SLASH])
  }

  function GapText(g: Gap): seq<byte> {
    if g == [] then [] else FillerText(g[0]) + GapText(g[1..])
  }

  /** Space, tab, line feed and carriage return. */
  predicate IsBlank(b: byte) {
    b == SPACE || b == TAB || b == NEWLINE || b == 13
  }

  /** What may stand between tokens: for the parser any byte up to the space, for the minifier blanks and comments. */
  predicate FillerOk(f: Filler, commented: bool) {
    match f
    case White(b) => if commented then IsBlank(b) else b <= 32
    case LineComment(body) => commented && NEWLINE !in body
    case BlockComment(body) => commented && forall k :: 0 <= k < |body| - 1 ==> !(body[k] == STAR && body[k + 1] == SLASH)
  }

  predicate GapOk(g: Gap, commented: bool) {
    g != [] ==> FillerOk(g[0], commented) && GapOk(g[1..], commented)
  }

  // ---- Values ----

  datatype Source =
    | NullWord
    | BoolWord(value: bool)
    | Text(chars: seq<Char>)
    | Array(inner: Gap, elements: seq<Element>)
    | Object(inner: Gap, entries: seq<Entry>)

  datatype Element = Element(before: Gap, value: Source, after: Gap)

  datatype Entry = Entry(before: Gap, key: seq<Char>, beforeColon: Gap, afterColon: Gap, value: Source, after: Gap)

  /** Every string is spelled properly. */
  predicate SourceOk(x: Source)
    decreases x, 1
  {
    match x
    case Text(chars) => CharsOk(chars)
    case Array(_, elements) => ElementsOk(elements)
    case Object(_, entries) => EntriesOk(entries)
    case _ => true
  }

  predicate ElementsOk(es: seq<Element>)
    decreases es, 0
  {
    es != [] ==> SourceOk(es[0].value) && ElementsOk(es[1..])
  }

  predicate EntriesOk(es: seq<Entry>)
    decreases es, 0
  {
    es != [] ==> CharsOk(es[0].key) && SourceOk(es[0].value) && EntriesOk(es[1..])
  }

  /** Every gap holds what may stand there. */
  predicate GapsOk(x: Source, commented: bool)
    decreases x, 1
  {
    match x
    case Array(inner, elements) => GapOk(inner, commented) && ElementGapsOk(elements, commented)
    case Object(inner, entries) => GapOk(inner, commented) && EntryGapsOk(entries, commented)
    case _ => true
  }

  predicate ElementGapsOk(es: seq<Element>, commented: bool)
    decreases es, 0
  {
    es != [] ==>
      && GapOk(es[0].before, commented) && GapsOk(es[0].value, commented) && GapOk(es[0].after, commented)
      && ElementGapsOk(es[1..], commented)
  }

  predicate EntryGapsOk(es: seq<Entry>, commented: bool)
    decreases es, 0
  {
    es != [] ==>
      && GapOk(es[0].before, commented) && GapOk(es[0].beforeColon, commented) && GapOk(es[0].afterColon, commented)
      && GapsOk(es[0].value, commented) && GapOk(es[0].after, commented) && EntryGapsOk(es[1..], commented)
  }

  /** The text of a value. */
  function Spelled(x: Source): (r: seq<byte>)
    requires SourceOk(x)
    ensures r != [] && r[0] > 32 && r[0] < 128 && r[0] != RBRACKET && r[0] != RBRACE && r[0] != COMMA && r[0] != SLASH
    decreases x, 1
  {
    match x
    case NullWord => NULL_TEXT
    case BoolWord(value) => if value then TRUE_TEXT else FALSE_TEXT
    case Text(chars) => StringText(chars)
    case Array(inner, elements) =>
      [LBRACKET] + ((if elements == [] then GapText(inner) else ElementsText(elements)) + [RBRACKET])
    case Object(inner, entries) =>
      [LBRACE] + ((if entries == [] then GapText(inner) else EntriesText(entries)) + [RBRACE])
  }

  function ElementsText(es: seq<Element>): seq<byte>
    requires ElementsOk(es) && es != []
    decreases es, 2
  {
    GapText(es[0].before) + FromElement(es)
  }

  /** The elements without the gap in front of the first. */
  function FromElement(es: seq<Element>): seq<byte>
    requires ElementsOk(es) && es != []
    decreases es, 1
  {
    Spelled(es[0].value)
    + (GapText(es[0].after) + if |es| == 1 then [] else [COMMA] + ElementsText(es[1..]))
  }

  function EntriesText(es: seq<Entry>): seq<byte>
    requires EntriesOk(es) && es != []
    decreases es, 2
  {
    GapText(es[0].before) + FromEntry(es)
  }

  function FromEntry(es: seq<Entry>): seq<byte>
    requires EntriesOk(es) && es != []
    decreases es, 1
  {
    StringText(es[0].key)
    + (GapText(es[0].beforeColon)
       + ([COLON]
          + (GapText(es[0].afterColon)
             + (Spelled(es[0].value)
                + (GapText(es[0].after) + if |es| == 1 then [] else [COMMA] + EntriesText(es[1..]))))))
  }

  /** The tree that the text stands for. */
  function Meaning(x: Source): Json
    requires SourceOk(x)
    decreases x, 1
  {
    match x
    case NullWord => Null
    case BoolWord(value) => Bool(value)
    case Text(chars) => Str(CharsMeaning(chars))
    case Array(_, elements) => Arr(ElementsMeaning(elements))
    case Object(_, entries) => Obj(EntriesMeaning(entries))
  }

  function ElementsMeaning(es: seq<Element>): (r: seq<Json>)
    requires ElementsOk(es)
    ensures |r| == |es|
    decreases es, 0
  {
    if es == [] then [] else [Meaning(es[0].value)] + ElementsMeaning(es[1..])
  }

  function EntriesMeaning(es: seq<Entry>): (r: seq<Member>)
    requires EntriesOk(es)
    ensures |r| == |es|
    decreases es, 0
  {
    if es == [] then []
    else [Member(CharsMeaning(es[0].key), Meaning(es[0].value))] + EntriesMeaning(es[1..])
  }

  // ---- Pieces of text ----

  lemma AtSplit(c: seq<byte>, o: nat, a: seq<byte>, b: seq<byte>)
    ensures At(c, o, a + b) <==> At(c, o, a) && At(c, o + |a|, b)
  {
    if At(c, o, a + b) {
      assert c[o..o + |a|] == (c[o..o + |a + b|])[..|a|] == a;
      assert c[o + |a|..o + |a| + |b|] == (c[o..o + |a + b|])[|a|..] == b;
    }
    if At(c, o, a) && At(c, o + |a|, b) {
      assert c[o..o + |a + b|] == c[o..o + |a|] + c[o + |a|..o + |a| + |b|];
    }
  }

  lemma AtByte(c: seq<byte>, o: nat, b: byte)
    ensures At(c, o, [b]) <==> o < |c| && c[o] == b
  {
    if o < |c| { assert c[o..o + 1] == [c[o]]; }
  }

  lemma AtHead(c: seq<byte>, o: nat, t: seq<byte>)
    requires At(c, o, t) && t != []
    ensures o < |c| && c[o] == t[0]
  {
    assert c[o..o + |t|][0] == c[o];
  }

  lemma AtIndex(c: seq<byte>, o: nat, t: seq<byte>, k: nat)
    requires At(c, o, t) && k < |t|
    ensures o + k < |c| && c[o + k] == t[k]
  {
    assert c[o..o + |t|][k] == c[o + k];
  }
}
