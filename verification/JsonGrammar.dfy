/** The parser reads every text of the grammar as the tree it stands for, if that is nested within the limit, and refuses
    it otherwise. */

module JsonGrammar {
  import opened Basics
  import opened JsonText
  import opened JsonParser
  import opened JsonSyntax

  // ---- Gaps ----

  lemma SkipNothing(c: seq<byte>, o: nat)
    requires o < |c| && c[o] > 32
    ensures SkipWhitespace(c, o) == o
  {
  }

  lemma {:induction false} SkipFillers(c: seq<byte>, o: nat, g: Gap)
    requires GapOk(g, false) && At(c, o, GapText(g)) && o + |GapText(g)| < |c| && c[o + |GapText(g)|] > 32
    ensures Skip(c, o) == o + |GapText(g)|
    decreases g
  {
    hide At;
    if g != [] {
      AtSplit(c, o, FillerText(g[0]), GapText(g[1..]));
      AtByte(c, o, g[0].b);
      SkipFillers(c, o + 1, g[1..]);
    }
  }

  lemma SkipGap(c: seq<byte>, o: nat, g: Gap)
    requires GapOk(g, false) && At(c, o, GapText(g)) && o + |GapText(g)| < |c| && c[o + |GapText(g)|] > 32
    ensures SkipWhitespace(c, o) == o + |GapText(g)|
  {
    SkipFillers(c, o, g);
  }

  // ---- Strings ----

  lemma HexIsRead(d: nat, capital: bool)
    requires d < 16
    ensures HexValue(Hex(d, capital)) == d && Hex(d, capital) != QUOTE && Hex(d, capital) != BACKSLASH
  {
  }

  /** Four hexadecimal digits of any number, in capitals or small letters, are read as that number. */
  lemma Hex4IsRead(c: seq<byte>, i: nat, n: nat, capitals: Capitals)
    requires n < 0x1_0000 && At(c, i, Hex4(n, capitals))
    ensures i + 4 <= |c| && ParseHex4(c, i) == n
    ensures forall k :: i <= k < i + 4 ==> c[k] != QUOTE && c[k] != BACKSLASH
  {
    hide Hex, HexValue;
    var t := Hex4(n, capitals);
    AtIndex(c, i, t, 0);
    AtIndex(c, i, t, 1);
    AtIndex(c, i, t, 2);
    AtIndex(c, i, t, 3);
    FourDigits(n);
    HexIsRead(n / 0x1000, capitals.first);
    HexIsRead(n / 0x100 % 16, capitals.second);
    HexIsRead(n / 16 % 16, capitals.third);
    HexIsRead(n % 16, capitals.fourth);
  }

  lemma FourDigits(n: nat)
    requires n < 0x1_0000
    ensures n == n / 0x1000 * 0x1000 + n / 0x100 % 16 * 0x100 + n / 16 % 16 * 0x10 + n % 16
  {
    var a, b, d := n / 16, n / 0x100, n / 0x1000;
    assert n == a * 16 + n % 16 && a == b * 16 + a % 16 && b == d * 16 + b % 16;
  }

  /** A backslash, a u and four digits. */
  lemma UnitAt(c: seq<byte>, i: nat, n: nat, capitals: Capitals)
    requires n < 0x1_0000 && At(c, i, [BACKSLASH, LOWER_U] + Hex4(n, capitals))
    ensures i + 6 <= |c| && c[i] == BACKSLASH && c[i + 1] == LOWER_U && ParseHex4(c, i + 2) == n
    ensures forall k :: i + 2 <= k < i + 6 ==> c[k] != QUOTE && c[k] != BACKSLASH
  {
    hide At;
    AtSplit(c, i, [BACKSLASH, LOWER_U], Hex4(n, capitals));
    AtIndex(c, i, [BACKSLASH, LOWER_U], 0);
    AtIndex(c, i, [BACKSLASH, LOWER_U], 1);
    Hex4IsRead(c, i + 2, n, capitals);
  }

  /** The first scan passes over a six-byte escape. */
  lemma ScanSix(c: seq<byte>, i: nat)
    requires i + 6 < |c| && c[i] == BACKSLASH
    requires forall k :: i + 2 <= k < i + 6 ==> c[k] != QUOTE && c[k] != BACKSLASH
    ensures FindEnd(c, i) == FindEnd(c, i + 6)
  {
    assert FindEnd(c, i) == FindEnd(c, i + 2);
    assert FindEnd(c, i + 2) == FindEnd(c, i + 3);
    assert FindEnd(c, i + 3) == FindEnd(c, i + 4);
    assert FindEnd(c, i + 4) == FindEnd(c, i + 5);
    assert FindEnd(c, i + 5) == FindEnd(c, i + 6);
  }

  /** The halves of a pair are surrogates, and give the code point back. */
  lemma Halves(cp: nat)
    requires 0x1_0000 <= cp <= 0x10_FFFF
    ensures var high, low := 0xD800 + (cp - 0x1_0000) / 0x400, 0xDC00 + (cp - 0x1_0000) % 0x400;
            && 0xD800 <= high <= 0xDBFF && 0xDC00 <= low <= 0xDFFF
            && 0x1_0000 + (high - 0xD800) * 0x400 + (low - 0xDC00) == cp
  {
  }

  /** Both scans pass over one character, and the second gives what it stands for. */
  lemma CharIsRead(c: seq<byte>, i: nat, ch: Char, end: nat)
    requires CharOk(ch) && At(c, i, CharText(ch)) && i + |CharText(ch)| <= end < |c|
    ensures FindEnd(c, i) == FindEnd(c, i + |CharText(ch)|)
    ensures Decode(c, i, end) == Prepend(CharMeaning(ch), Decode(c, i + |CharText(ch)|, end))
  {
    match ch
    case Plain(b) =>
      AtByte(c, i, b);
    case Short(letter) =>
      AtIndex(c, i, CharText(ch), 0);
      AtIndex(c, i, CharText(ch), 1);
      ShortIsRead(letter);
    case Numbered(n, capitals) =>
      NumberedIsRead(c, i, n, capitals, end);
    case Paired(cp, high, low) =>
      PairIsRead(c, i, cp, high, low, end);
  }

  lemma ShortIsRead(letter: byte)
    requires letter in SHORT_FORMS
    ensures letter != LOWER_U && Unescape(letter) == SHORT_FORMS[letter]
  {
  }

  lemma NumberedIsRead(c: seq<byte>, i: nat, n: nat, capitals: Capitals, end: nat)
    requires CharOk(Numbered(n, capitals)) && At(c, i, CharText(Numbered(n, capitals))) && i + 6 <= end < |c|
    ensures FindEnd(c, i) == FindEnd(c, i + 6)
    ensures Decode(c, i, end) == Prepend(Utf8(n), Decode(c, i + 6, end))
  {
    hide FindEnd, Decode, At, ParseHex4, Utf8, Hex4;
    UnitAt(c, i, n, capitals);
    ScanSix(c, i);
    assert Utf16Literal(c, i, end) == Literal(6, n);
    LiteralIsRead(c, i, end);
  }

  lemma PairIsLiteral(c: seq<byte>, i: nat, h: nat, l: nat, end: nat)
    requires 0xD800 <= h <= 0xDBFF && 0xDC00 <= l <= 0xDFFF && i + 12 <= end <= |c|
    requires ParseHex4(c, i + 2) == h && c[i + 6] == BACKSLASH && c[i + 7] == LOWER_U && ParseHex4(c, i + 8) == l
    ensures Utf16Literal(c, i, end) == Literal(12, 0x1_0000 + (h - 0xD800) * 0x400 + (l - 0xDC00))
  {
    hide ParseHex4;
  }

  lemma PairIsRead(c: seq<byte>, i: nat, cp: nat, high: Capitals, low: Capitals, end: nat)
    requires CharOk(Paired(cp, high, low)) && At(c, i, CharText(Paired(cp, high, low))) && i + 12 <= end < |c|
    ensures FindEnd(c, i) == FindEnd(c, i + 12)
    ensures Decode(c, i, end) == Prepend(Utf8(cp), Decode(c, i + 12, end))
  {
    hide FindEnd, Decode, At, ParseHex4, Utf8, Hex4, Utf16Literal;
    Halves(cp);
    var h, l := 0xD800 + (cp - 0x1_0000) / 0x400, 0xDC00 + (cp - 0x1_0000) % 0x400;
    AtSplit(c, i, [BACKSLASH, LOWER_U] + Hex4(h, high), [BACKSLASH, LOWER_U] + Hex4(l, low));
    UnitAt(c, i, h, high);
    UnitAt(c, i + 6, l, low);
    ScanSix(c, i);
    ScanSix(c, i + 6);
    PairIsLiteral(c, i, h, l, end);
    LiteralIsRead(c, i, end);
  }

  lemma LiteralIsRead(c: seq<byte>, i: nat, end: nat)
    requires i < end < |c| && c[i] == BACKSLASH && i + 1 < |c| && c[i + 1] == LOWER_U && Utf16Literal(c, i, end).Literal?
    ensures var l := Utf16Literal(c, i, end); Decode(c, i, end) == Prepend(Utf8(l.codepoint), Decode(c, i + l.length, end))
  {
  }

  lemma ScanQuote(c: seq<byte>, i: nat)
    requires i < |c| && c[i] == QUOTE
    ensures FindEnd(c, i) == i
  {
  }

  lemma DecodeNothing(c: seq<byte>, end: nat)
    requires end < |c|
    ensures Decode(c, end, end) == Bytes([])
  {
  }

  lemma {:induction false} CharsAreRead(c: seq<byte>, i: nat, chars: seq<Char>, end: nat)
    requires CharsOk(chars) && At(c, i, CharsText(chars)) && end == i + |CharsText(chars)| < |c| && c[end] == QUOTE
    ensures FindEnd(c, i) == end && Decode(c, i, end) == Bytes(CharsMeaning(chars))
    decreases chars
  {
    hide CharText, CharMeaning, FindEnd, Decode, At;
    if chars == [] {
      ScanQuote(c, i);
      DecodeNothing(c, end);
    } else {
      AtSplit(c, i, CharText(chars[0]), CharsText(chars[1..]));
      CharIsRead(c, i, chars[0], end);
      CharsAreRead(c, i + |CharText(chars[0])|, chars[1..], end);
    }
  }

  /** A string in any spelling is read as the bytes it stands for. */
  lemma StringIsRead(c: seq<byte>, o: nat, chars: seq<Char>)
    requires CharsOk(chars) && At(c, o, StringText(chars))
    ensures o < |c| && ParseString(c, o) == Parsed(CharsMeaning(chars), o + |StringText(chars)|)
  {
    hide CharsText, CharsMeaning, Decode, FindEnd, At;
    var t := CharsText(chars);
    AtSplit(c, o, [QUOTE], t + [QUOTE]);
    AtSplit(c, o + 1, t, [QUOTE]);
    AtByte(c, o, QUOTE);
    AtByte(c, o + 1 + |t|, QUOTE);
    CharsAreRead(c, o + 1, chars, o + 1 + |t|);
  }

  // ---- One step of each parsing function ----

  lemma LiteralsDiffer(c: seq<byte>, o: nat, b: bool)
    requires At(c, o, if b then TRUE_TEXT else FALSE_TEXT)
    ensures !At(c, o, NULL_TEXT) && (b ==> !At(c, o, FALSE_TEXT))
  {
    AtHead(c, o, if b then TRUE_TEXT else FALSE_TEXT);
    if At(c, o, NULL_TEXT) { AtHead(c, o, NULL_TEXT); }
    if At(c, o, FALSE_TEXT) { AtHead(c, o, FALSE_TEXT); }
  }

  lemma NotALiteral(c: seq<byte>, o: nat, t: seq<byte>)
    requires At(c, o, t) && t != [] && t[0] in {QUOTE, LBRACKET, LBRACE}
    ensures o < |c| && c[o] == t[0] && !At(c, o, NULL_TEXT) && !At(c, o, FALSE_TEXT) && !At(c, o, TRUE_TEXT)
  {
    AtHead(c, o, t);
    if At(c, o, NULL_TEXT) { AtHead(c, o, NULL_TEXT); }
    if At(c, o, FALSE_TEXT) { AtHead(c, o, FALSE_TEXT); }
    if At(c, o, TRUE_TEXT) { AtHead(c, o, TRUE_TEXT); }
  }

  lemma LimitReached(c: seq<byte>, o: nat, depth: nat)
    requires o < |c| && depth >= NESTING_LIMIT
    ensures c[o] == LBRACKET ==> ParseArray(c, o, depth) == Failed
    ensures c[o] == LBRACE ==> ParseObject(c, o, depth) == Failed
  {
  }

  lemma EmptyArray(c: seq<byte>, o: nat, depth: nat, o1: nat)
    requires o < |c| && c[o] == LBRACKET && depth < NESTING_LIMIT
    requires SkipWhitespace(c, o + 1) == o1 < |c| && c[o1] == RBRACKET
    ensures ParseArray(c, o, depth) == Parsed(Arr([]), o1 + 1)
  {
    hide SkipWhitespace, ParseItems;
  }

  lemma FullArray(c: seq<byte>, o: nat, depth: nat, o1: nat)
    requires o < |c| && c[o] == LBRACKET && depth < NESTING_LIMIT
    requires SkipWhitespace(c, o + 1) == o1 < |c| && 0 < o1 && c[o1] != RBRACKET
    ensures ParseArray(c, o, depth) ==
            match ParseItems(c, o1 - 1, depth + 1)
            case Parsed(items, p) => Parsed(Arr(items), p)
            case Failed => Failed
            case Overrun => Overrun
  {
    hide SkipWhitespace, ParseItems;
  }

  lemma ItemFails(c: seq<byte>, o: nat, depth: nat)
    requires o < |c| && ParseValue(c, SkipWhitespace(c, o + 1), depth) == Failed
    ensures ParseItems(c, o, depth) == Failed
  {
    hide SkipWhitespace, ParseValue;
  }

  lemma LastItem(c: seq<byte>, o: nat, depth: nat, v: Json, p: nat, q: nat)
    requires o < |c| && ParseValue(c, SkipWhitespace(c, o + 1), depth) == Parsed(v, p)
    requires p <= |c| && SkipWhitespace(c, p) == q < |c| && c[q] == RBRACKET
    ensures ParseItems(c, o, depth) == Parsed([v], q + 1)
  {
    hide SkipWhitespace, ParseValue;
  }

  lemma MoreItems(c: seq<byte>, o: nat, depth: nat, v: Json, p: nat, q: nat)
    requires o < |c| && ParseValue(c, SkipWhitespace(c, o + 1), depth) == Parsed(v, p)
    requires p <= |c| && SkipWhitespace(c, p) == q < |c| && c[q] == COMMA
    ensures ParseItems(c, o, depth) ==
            match ParseItems(c, q, depth)
            case Parsed(vs, r) => Parsed([v] + vs, r)
            case Failed => Failed
            case Overrun => Overrun
  {
    hide SkipWhitespace, ParseValue;
  }

  lemma EmptyObject(c: seq<byte>, o: nat, depth: nat, o1: nat)
    requires o < |c| && c[o] == LBRACE && depth < NESTING_LIMIT
    requires SkipWhitespace(c, o + 1) == o1 < |c| && c[o1] == RBRACE
    ensures ParseObject(c, o, depth) == Parsed(Obj([]), o1 + 1)
  {
    hide SkipWhitespace, ParseMembers;
  }

  lemma FullObject(c: seq<byte>, o: nat, depth: nat, o1: nat)
    requires o < |c| && c[o] == LBRACE && depth < NESTING_LIMIT
    requires SkipWhitespace(c, o + 1) == o1 < |c| && 0 < o1 && c[o1] != RBRACE
    ensures ParseObject(c, o, depth) ==
            match ParseMembers(c, o1 - 1, depth + 1)
            case Parsed(members, p) => Parsed(Obj(members), p)
            case Failed => Failed
            case Overrun => Overrun
  {
    hide SkipWhitespace, ParseMembers;
  }

  lemma MemberFails(c: seq<byte>, o: nat, depth: nat)
    requires o < |c| && ParseMember(c, o, depth) == Failed
    ensures ParseMembers(c, o, depth) == Failed
  {
    hide SkipWhitespace, ParseMember;
  }

  lemma LastMember(c: seq<byte>, o: nat, depth: nat, m: Member, p: nat, q: nat)
    requires o < |c| && ParseMember(c, o, depth) == Parsed(m, p)
    requires p <= |c| && SkipWhitespace(c, p) == q < |c| && c[q] == RBRACE
    ensures ParseMembers(c, o, depth) == Parsed([m], q + 1)
  {
    hide SkipWhitespace, ParseMember;
  }

  lemma MoreMembers(c: seq<byte>, o: nat, depth: nat, m: Member, p: nat, q: nat)
    requires o < |c| && ParseMember(c, o, depth) == Parsed(m, p)
    requires p <= |c| && SkipWhitespace(c, p) == q < |c| && c[q] == COMMA
    ensures ParseMembers(c, o, depth) ==
            match ParseMembers(c, q, depth)
            case Parsed(ms, r) => Parsed([m] + ms, r)
            case Failed => Failed
            case Overrun => Overrun
  {
    hide SkipWhitespace, ParseMember;
  }

  lemma OneMember(c: seq<byte>, o: nat, depth: nat, key: seq<byte>, p: nat, q: nat, r: nat)
    requires o < |c| && SkipWhitespace(c, o + 1) < |c| && ParseString(c, SkipWhitespace(c, o + 1)) == Parsed(key, p)
    requires p <= |c| && SkipWhitespace(c, p) == q < |c| && c[q] == COLON && SkipWhitespace(c, q + 1) == r
    ensures ParseMember(c, o, depth) ==
            match ParseValue(c, r, depth)
            case Parsed(v, e) => Parsed(Member(key, v), e)
            case Failed => Failed
            case Overrun => Overrun
  {
    hide SkipWhitespace, ParseString, ParseValue;
  }

  // ---- Values ----

  /** What comes of a value that ends at `end`, when the parser is at this depth. */
  function IfShallow<T>(value: T, nesting: nat, depth: nat, end: nat): Outcome<T> {
    if depth + nesting <= NESTING_LIMIT then Parsed(value, end) else Failed
  }

  lemma {:induction false} SourceIsRead(x: Source, c: seq<byte>, o: nat, depth: nat)
    requires SourceOk(x) && GapsOk(x, false) && At(c, o, Spelled(x)) && depth <= NESTING_LIMIT
    ensures ParseValue(c, o, depth) == IfShallow(Meaning(x), Depth(Meaning(x)), depth, o + |Spelled(x)|)
    decreases x, 3
  {
    hide ParseArray, ParseObject, ParseString, At;
    match x
    case NullWord =>
    case BoolWord(b) => LiteralsDiffer(c, o, b);
    case Text(chars) =>
      NotALiteral(c, o, Spelled(x));
      StringIsRead(c, o, chars);
    case Array(inner, elements) =>
      NotALiteral(c, o, Spelled(x));
      ArrayIsRead(inner, elements, c, o, depth);
    case Object(inner, entries) =>
      NotALiteral(c, o, Spelled(x));
      ObjectIsRead(inner, entries, c, o, depth);
  }

  lemma {:induction false} ArrayIsRead(inner: Gap, es: seq<Element>, c: seq<byte>, o: nat, depth: nat)
    requires ElementsOk(es) && GapOk(inner, false) && ElementGapsOk(es, false) && depth <= NESTING_LIMIT
    requires At(c, o, Spelled(Array(inner, es))) && o < |c| && c[o] == LBRACKET
    ensures ParseArray(c, o, depth)
            == IfShallow(Arr(ElementsMeaning(es)), 1 + ItemsDepth(ElementsMeaning(es)), depth, o + |Spelled(Array(inner, es))|)
    decreases es, 2
  {
    hide At, SkipWhitespace, Skip, ParseArray, ParseItems, ItemsDepth, GapText, GapOk, FromElement;
    if depth == NESTING_LIMIT {
      LimitReached(c, o, depth);
    } else if es == [] {
      var t := GapText(inner);
      AtSplit(c, o, [LBRACKET], t + [RBRACKET]);
      AtSplit(c, o + 1, t, [RBRACKET]);
      AtByte(c, o + 1 + |t|, RBRACKET);
      SkipGap(c, o + 1, inner);
      EmptyArray(c, o, depth, o + 1 + |t|);
      NoItemsDepth();
    } else {
      var t := ElementsText(es);
      var p := o + 1 + |GapText(es[0].before)|;
      AtSplit(c, o, [LBRACKET], t + [RBRACKET]);
      AtSplit(c, o + 1, t, [RBRACKET]);
      AtByte(c, o + 1 + |t|, RBRACKET);
      AtSplit(c, o + 1, GapText(es[0].before), FromElement(es));
      ElementHead(es);
      AtHead(c, p, FromElement(es));
      SkipGap(c, o + 1, es[0].before);
      SkipNothing(c, p);
      ElementsAreRead(es, c, p - 1, p, depth + 1);
      FullArray(c, o, depth, p);
    }
  }

  lemma NoItemsDepth()
    ensures ItemsDepth([]) == 0 && MembersDepth([]) == 0
  {
  }

  lemma ElementHead(es: seq<Element>)
    requires ElementsOk(es) && es != []
    ensures FromElement(es) != [] && FromElement(es)[0] > 32 && FromElement(es)[0] != RBRACKET
  {
    hide Spelled;
  }

  lemma FromElementParts(es: seq<Element>)
    requires ElementsOk(es) && es != []
    ensures FromElement(es)
            == Spelled(es[0].value) + (GapText(es[0].after) + if |es| == 1 then [] else [COMMA] + ElementsText(es[1..]))
  {
  }

  /** The elements from the first value, at p, on; o is just before the gap in front of it. */
  lemma {:induction false} ElementsAreRead(es: seq<Element>, c: seq<byte>, o: nat, p: nat, depth: nat)
    requires ElementsOk(es) && ElementGapsOk(es, false) && es != [] && depth <= NESTING_LIMIT
    requires At(c, p, FromElement(es)) && p + |FromElement(es)| < |c| && c[p + |FromElement(es)|] == RBRACKET
    requires o < |c| && SkipWhitespace(c, o + 1) == p
    ensures ParseItems(c, o, depth)
            == IfShallow(ElementsMeaning(es), ItemsDepth(ElementsMeaning(es)), depth, p + |FromElement(es)| + 1)
    decreases es, 1
  {
    hide At, SkipWhitespace, Skip, ParseValue, ParseItems, GapText, GapOk, Spelled, Meaning, Depth, FromElement;
    FromElementParts(es);
    var x, after := es[0].value, GapText(es[0].after);
    var rest := if |es| == 1 then [] else [COMMA] + ElementsText(es[1..]);
    var q := p + |Spelled(x)|;
    AtSplit(c, p, Spelled(x), after + rest);
    AtSplit(c, q, after, rest);
    SourceIsRead(x, c, p, depth);
    assert ElementsMeaning(es) == [Meaning(x)] + ElementsMeaning(es[1..]);
    if depth + Depth(Meaning(x)) > NESTING_LIMIT {
      ItemFails(c, o, depth);
    } else if |es| == 1 {
      SkipGap(c, q, es[0].after);
      LastItem(c, o, depth, Meaning(x), q, q + |after|);
      NoItemsDepth();
      assert ElementsMeaning(es) == [Meaning(x)] && [Meaning(x)][1..] == [];
    } else {
      var e := q + |after|;
      AtSplit(c, e, [COMMA], ElementsText(es[1..]));
      AtByte(c, e, COMMA);
      SkipGap(c, q, es[0].after);
      MoreItems(c, o, depth, Meaning(x), q, e);
      var before := GapText(es[1].before);
      assert es[1..][0] == es[1];
      AtSplit(c, e + 1, before, FromElement(es[1..]));
      ElementHead(es[1..]);
      AtHead(c, e + 1 + |before|, FromElement(es[1..]));
      SkipGap(c, e + 1, es[1].before);
      ElementsAreRead(es[1..], c, e, e + 1 + |before|, depth);
    }
  }

  lemma {:induction false} ObjectIsRead(inner: Gap, es: seq<Entry>, c: seq<byte>, o: nat, depth: nat)
    requires EntriesOk(es) && GapOk(inner, false) && EntryGapsOk(es, false) && depth <= NESTING_LIMIT
    requires At(c, o, Spelled(Object(inner, es))) && o < |c| && c[o] == LBRACE
    ensures ParseObject(c, o, depth)
            == IfShallow(Obj(EntriesMeaning(es)), 1 + MembersDepth(EntriesMeaning(es)), depth, o + |Spelled(Object(inner, es))|)
    decreases es, 2
  {
    hide At, SkipWhitespace, Skip, ParseObject, ParseMembers, MembersDepth, GapText, GapOk, FromEntry;
    if depth == NESTING_LIMIT {
      LimitReached(c, o, depth);
    } else if es == [] {
      var t := GapText(inner);
      AtSplit(c, o, [LBRACE], t + [RBRACE]);
      AtSplit(c, o + 1, t, [RBRACE]);
      AtByte(c, o + 1 + |t|, RBRACE);
      SkipGap(c, o + 1, inner);
      EmptyObject(c, o, depth, o + 1 + |t|);
      NoItemsDepth();
    } else {
      var t := EntriesText(es);
      var p := o + 1 + |GapText(es[0].before)|;
      AtSplit(c, o, [LBRACE], t + [RBRACE]);
      AtSplit(c, o + 1, t, [RBRACE]);
      AtByte(c, o + 1 + |t|, RBRACE);
      AtSplit(c, o + 1, GapText(es[0].before), FromEntry(es));
      EntryHead(es);
      AtHead(c, p, FromEntry(es));
      SkipGap(c, o + 1, es[0].before);
      SkipNothing(c, p);
      EntriesAreRead(es, c, p - 1, p, depth + 1);
      FullObject(c, o, depth, p);
    }
  }

  lemma EntryHead(es: seq<Entry>)
    requires EntriesOk(es) && es != []
    ensures FromEntry(es) != [] && FromEntry(es)[0] == QUOTE
  {
    hide CharsText;
  }

  /** One key, colon and value; k is where the key stands. */
  lemma {:induction false} EntryIsRead(e: Entry, c: seq<byte>, o: nat, k: nat, depth: nat, rest: seq<byte>)
    requires CharsOk(e.key) && SourceOk(e.value) && depth <= NESTING_LIMIT
    requires GapOk(e.beforeColon, false) && GapOk(e.afterColon, false) && GapsOk(e.value, false)
    requires At(c, k, StringText(e.key) + (GapText(e.beforeColon) + ([COLON] + (GapText(e.afterColon) + (Spelled(e.value) + rest)))))
    requires o < |c| && SkipWhitespace(c, o + 1) == k
    ensures var q := k + |StringText(e.key)| + |GapText(e.beforeColon)| + 1 + |GapText(e.afterColon)| + |Spelled(e.value)|;
            && q <= |c| && At(c, q, rest)
            && ParseMember(c, o, depth)
               == IfShallow(Member(CharsMeaning(e.key), Meaning(e.value)), Depth(Meaning(e.value)), depth, q)
    decreases e, 4
  {
    hide At, SkipWhitespace, Skip, ParseValue, ParseMember, ParseString, GapText, GapOk, Spelled, Meaning, Depth, StringText,
         CharsMeaning;
    var key, beforeColon, afterColon, x := StringText(e.key), GapText(e.beforeColon), GapText(e.afterColon), Spelled(e.value);
    var p := k + |key|;
    AtSplit(c, k, key, beforeColon + ([COLON] + (afterColon + (x + rest))));
    AtSplit(c, p, beforeColon, [COLON] + (afterColon + (x + rest)));
    var q := p + |beforeColon|;
    AtSplit(c, q, [COLON], afterColon + (x + rest));
    AtByte(c, q, COLON);
    AtSplit(c, q + 1, afterColon, x + rest);
    var r := q + 1 + |afterColon|;
    AtSplit(c, r, x, rest);
    StringIsRead(c, k, e.key);
    SkipGap(c, p, e.beforeColon);
    AtHead(c, r, x);
    SkipGap(c, q + 1, e.afterColon);
    SourceIsRead(e.value, c, r, depth);
    OneMember(c, o, depth, CharsMeaning(e.key), p, q, r);
    AtEnd(c, r, x);
  }

  lemma AtEnd(c: seq<byte>, o: nat, t: seq<byte>)
    requires At(c, o, t)
    ensures o + |t| <= |c|
  {
  }

  lemma FromEntryParts(es: seq<Entry>)
    requires EntriesOk(es) && es != []
    ensures var rest := GapText(es[0].after) + if |es| == 1 then [] else [COMMA] + EntriesText(es[1..]);
            FromEntry(es)
            == StringText(es[0].key)
               + (GapText(es[0].beforeColon) + ([COLON] + (GapText(es[0].afterColon) + (Spelled(es[0].value) + rest))))
  {
  }

  /** The entries from the first key, at k, on; o is just before the gap in front of it. */
  lemma {:induction false} EntriesAreRead(es: seq<Entry>, c: seq<byte>, o: nat, k: nat, depth: nat)
    requires EntriesOk(es) && EntryGapsOk(es, false) && es != [] && depth <= NESTING_LIMIT
    requires At(c, k, FromEntry(es)) && k + |FromEntry(es)| < |c| && c[k + |FromEntry(es)|] == RBRACE
    requires o < |c| && SkipWhitespace(c, o + 1) == k
    ensures ParseMembers(c, o, depth)
            == IfShallow(EntriesMeaning(es), MembersDepth(EntriesMeaning(es)), depth, k + |FromEntry(es)| + 1)
    decreases es, 1
  {
    hide At, SkipWhitespace, Skip, ParseMember, ParseMembers, GapText, GapOk, Spelled, Meaning, Depth, StringText, CharsMeaning,
         FromEntry;
    FromEntryParts(es);
    var e, m, after := es[0], Member(CharsMeaning(es[0].key), Meaning(es[0].value)), GapText(es[0].after);
    var rest := if |es| == 1 then [] else [COMMA] + EntriesText(es[1..]);
    EntryIsRead(e, c, o, k, depth, after + rest);
    var q := k + |StringText(e.key)| + |GapText(e.beforeColon)| + 1 + |GapText(e.afterColon)| + |Spelled(e.value)|;
    AtSplit(c, q, after, rest);
    assert EntriesMeaning(es) == [m] + EntriesMeaning(es[1..]);
    if depth + Depth(m.value) > NESTING_LIMIT {
      MemberFails(c, o, depth);
    } else if |es| == 1 {
      SkipGap(c, q, e.after);
      LastMember(c, o, depth, m, q, q + |after|);
      NoItemsDepth();
      assert EntriesMeaning(es) == [m] && [m][1..] == [];
    } else {
      var n := q + |after|;
      AtSplit(c, n, [COMMA], EntriesText(es[1..]));
      AtByte(c, n, COMMA);
      SkipGap(c, q, e.after);
      MoreMembers(c, o, depth, m, q, n);
      var before := GapText(es[1].before);
      assert es[1..][0] == es[1];
      AtSplit(c, n + 1, before, FromEntry(es[1..]));
      EntryHead(es[1..]);
      AtHead(c, n + 1 + |before|, FromEntry(es[1..]));
      SkipGap(c, n + 1, es[1].before);
      EntriesAreRead(es[1..], c, n, n + 1 + |before|, depth);
    }
  }

  // ---- Whole texts ----

  /** A value with what may stand around it, and perhaps a byte order mark in front. */
  datatype Document = Document(bom: bool, before: Gap, value: Source, after: Gap)

  predicate DocumentOk(d: Document) {
    GapOk(d.before, false) && SourceOk(d.value) && GapsOk(d.value, false) && GapOk(d.after, false)
  }

  function BomText(bom: bool): seq<byte> {
    if bom then [0xEF, 0xBB, 0xBF] else []
  }

  function DocumentText(d: Document): seq<byte>
    requires SourceOk(d.value)
  {
    BomText(d.bom) + (GapText(d.before) + (Spelled(d.value) + GapText(d.after)))
  }

  lemma NoBomAhead(d: Document, more: seq<byte>)
    requires DocumentOk(d) && !d.bom
    ensures SkipBom(DocumentText(d) + more) == 0
  {
    hide GapText, Spelled, GapOk;
    var c := DocumentText(d) + more;
    if d.before == [] {
      NoGapText();
      assert c[0] == Spelled(d.value)[0];
    } else {
      GapHead(d.before);
      assert c[0] == GapText(d.before)[0];
    }
    if |c| > 4 { assert c[..3][0] == c[0]; }
  }

  lemma BomIsSkipped(d: Document, more: seq<byte>)
    requires DocumentOk(d)
    ensures SkipBom(DocumentText(d) + more) == |BomText(d.bom)|
  {
    hide GapText, Spelled, GapOk;
    var c := DocumentText(d) + more;
    if d.bom {
      SpelledIsLong(d.value);
      assert c[..3] == BomText(true);
    } else {
      NoBomAhead(d, more);
    }
  }

  lemma NoGapText()
    ensures GapText([]) == []
  {
  }

  lemma GapHead(g: Gap)
    requires GapOk(g, false) && g != []
    ensures GapText(g) != [] && GapText(g)[0] <= 32
  {
  }

  lemma SpelledIsLong(x: Source)
    requires SourceOk(x)
    ensures |Spelled(x)| >= 2
  {
    hide GapText, ElementsText, EntriesText, CharsText;
  }

  /** White space up to the terminator: the parser stops at the terminator. */
  lemma {:induction false} SkipToEnd(c: seq<byte>, o: nat, g: Gap)
    requires GapOk(g, false) && At(c, o, GapText(g)) && o + |GapText(g)| + 1 == |c| && c[|c| - 1] == NUL
    ensures Skip(c, o) == |c|
    decreases g
  {
    hide At;
    if g == [] {
      assert Skip(c, |c|) == |c|;
    } else {
      AtSplit(c, o, FillerText(g[0]), GapText(g[1..]));
      AtByte(c, o, g[0].b);
      SkipToEnd(c, o + 1, g[1..]);
    }
  }

  lemma AtStart(t: seq<byte>, more: seq<byte>)
    ensures At(t + more, 0, t)
  {
    assert (t + more)[..|t|] == t;
  }

  /** Behind the value only white space and the terminator are left. */
  lemma EndsHere(c: seq<byte>, o: nat, g: Gap)
    requires GapOk(g, false) && At(c, o, GapText(g)) && o + |GapText(g)| + 1 == |c| && c[|c| - 1] == NUL
    ensures SkipWhitespace(c, o) == |c| - 1
  {
    SkipToEnd(c, o, g);
  }

  /** The value of a document is read where it stands, whatever follows it. */
  lemma DocumentIsRead(d: Document, more: seq<byte>)
    requires DocumentOk(d)
    ensures var c := DocumentText(d) + more;
            var o := |BomText(d.bom)| + |GapText(d.before)|;
            && SkipWhitespace(c, SkipBom(c)) == o
            && ParseValue(c, o, 0) == IfShallow(Meaning(d.value), Depth(Meaning(d.value)), 0, o + |Spelled(d.value)|)
            && At(c, o + |Spelled(d.value)|, GapText(d.after))
  {
    hide GapText, Spelled, GapOk, GapsOk, Meaning, Depth, SkipWhitespace, Skip, At, ParseValue, SkipBom;
    BomIsSkipped(d, more);
    var bom, before, value, after := BomText(d.bom), GapText(d.before), Spelled(d.value), GapText(d.after);
    var c := DocumentText(d) + more;
    AtStart(DocumentText(d), more);
    AtSplit(c, 0, bom, before + (value + after));
    AtSplit(c, |bom|, before, value + after);
    var o := |bom| + |before|;
    AtSplit(c, o, value, after);
    AtHead(c, o, value);
    SkipGap(c, |bom|, d.before);
    SourceIsRead(d.value, c, o, 0);
  }

  /** Every text of the grammar, with or without a byte order mark and with white space wherever it may stand, parses as
      the tree it stands for if that is nested within the limit, and is refused otherwise. The end reported is that of the
      text, or that of the value when the terminator is not asked for. */
  lemma ParsesExactly(d: Document, requireNullTerminated: bool)
    requires DocumentOk(d)
    ensures Parse(DocumentText(d) + [NUL], requireNullTerminated) ==
            IfShallow(Meaning(d.value), Depth(Meaning(d.value)), 0,
                      if requireNullTerminated then |DocumentText(d)|
                      else |BomText(d.bom)| + |GapText(d.before)| + |Spelled(d.value)|)
  {
    hide GapText, Spelled, GapOk, GapsOk, Meaning, Depth, SkipWhitespace, Skip, At, ParseValue, SkipBom;
    var c := DocumentText(d) + [NUL];
    var o := |BomText(d.bom)| + |GapText(d.before)| + |Spelled(d.value)|;
    DocumentIsRead(d, [NUL]);
    EndsHere(c, o, d.after);
  }

  /** Text behind the value is refused when the terminator is asked for, and left alone when it is not. */
  lemma TextBehind(d: Document, more: seq<byte>, requireNullTerminated: bool)
    requires DocumentOk(d) && more != [] && more[0] > 32 && Depth(Meaning(d.value)) <= NESTING_LIMIT
    ensures Parse(DocumentText(d) + more, requireNullTerminated) ==
            if requireNullTerminated then Failed
            else Parsed(Meaning(d.value), |BomText(d.bom)| + |GapText(d.before)| + |Spelled(d.value)|)
  {
    hide GapText, Spelled, GapOk, GapsOk, Meaning, Depth, SkipWhitespace, Skip, At, ParseValue, SkipBom;
    var c := DocumentText(d) + more;
    DocumentIsRead(d, more);
    var o := |BomText(d.bom)| + |GapText(d.before)| + |Spelled(d.value)|;
    assert c[o + |GapText(d.after)|] == more[0] by { assert |DocumentText(d)| == o + |GapText(d.after)|; }
    SkipGap(c, o, d.after);
  }

}
