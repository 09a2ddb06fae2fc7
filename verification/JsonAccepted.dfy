/** The parser accepts nothing but texts of the grammar, provided that every \u is followed by four hexadecimal digits. */

module JsonAccepted {
  import opened Basics
  import opened JsonText
  import opened JsonParser
  import opened JsonSyntax
  import opened JsonGrammar

  predicate IsHex(b: byte) {
    48 <= b <= 57 || 65 <= b <= 70 || 97 <= b <= 102
  }

  /** A backslash that is not itself behind such a backslash. */
  predicate Opens(c: seq<byte>, i: nat)
    requires i < |c|
  {
    c[i] == BACKSLASH && (i == 0 || !Opens(c, i - 1))
  }

  /** No escape has begun just before i. */
  predicate InStep(c: seq<byte>, i: nat)
    requires i <= |c|
  {
    i == 0 || !Opens(c, i - 1)
  }

  /** Every escape by number has four hexadecimal digits. */
  predicate HexEscapes(c: seq<byte>) {
    forall i :: 0 <= i < |c| - 1 && Opens(c, i) && c[i + 1] == LOWER_U ==>
      i + 6 <= |c| && IsHex(c[i + 2]) && IsHex(c[i + 3]) && IsHex(c[i + 4]) && IsHex(c[i + 5])
  }

  // ---- Gaps ----

  function GapOf(s: seq<byte>): Gap {
    if s == [] then [] else [White(s[0])] + GapOf(s[1..])
  }

  lemma {:induction false} GapOfIs(s: seq<byte>)
    ensures GapText(GapOf(s)) == s
    ensures (forall k :: 0 <= k < |s| ==> s[k] <= 32) ==> GapOk(GapOf(s), false)
    decreases s
  {
    if s != [] {
      GapOfIs(s[1..]);
      assert GapOf(s)[1..] == GapOf(s[1..]);
      assert [s[0]] + s[1..] == s;
    }
  }

  lemma {:induction false} SkippedIsBlank(c: seq<byte>, o: nat)
    requires o <= |c|
    ensures forall k :: o <= k < Skip(c, o) ==> c[k] <= 32
    decreases |c| - o
  {
    if o < |c| && c[o] <= 32 { SkippedIsBlank(c, o + 1); }
  }

  /** What is skipped in front of a token is a gap. */
  lemma SkippedIsGap(c: seq<byte>, o: nat) returns (g: Gap)
    requires o <= |c| && SkipWhitespace(c, o) < |c| && c[SkipWhitespace(c, o)] > 32
    ensures GapOk(g, false) && At(c, o, GapText(g)) && o + |GapText(g)| == SkipWhitespace(c, o)
  {
    SkippedIsBlank(c, o);
    var q := SkipWhitespace(c, o);
    g := GapOf(c[o..q]);
    GapOfIs(c[o..q]);
  }

  // ---- Strings ----

  lemma DigitOf(b: byte) returns (d: nat, capital: bool)
    requires IsHex(b)
    ensures d < 16 && Hex(d, capital) == b && HexValue(b) == d
  {
    d, capital := HexValue(b), b <= 70;
  }

  lemma NumberDigits(d0: nat, d1: nat, d2: nat, d3: nat)
    requires d0 < 16 && d1 < 16 && d2 < 16 && d3 < 16
    ensures var n := d0 * 0x1000 + d1 * 0x100 + d2 * 0x10 + d3;
            n < 0x1_0000 && n / 0x1000 == d0 && n / 0x100 % 16 == d1 && n / 16 % 16 == d2 && n % 16 == d3
  {
    var n, b := d0 * 0x1000 + d1 * 0x100 + d2 * 0x10 + d3, d0 * 0x10 + d1;
    assert n / 0x100 == b && n / 0x1000 == d0;
    assert n / 16 == b * 16 + d2;
  }

  lemma NumberOf(c: seq<byte>, i: nat) returns (n: nat, capitals: Capitals)
    requires i + 4 <= |c| && IsHex(c[i]) && IsHex(c[i + 1]) && IsHex(c[i + 2]) && IsHex(c[i + 3])
    ensures n < 0x1_0000 && At(c, i, Hex4(n, capitals)) && ParseHex4(c, i) == n
  {
    var d0, c0 := DigitOf(c[i]);
    var d1, c1 := DigitOf(c[i + 1]);
    var d2, c2 := DigitOf(c[i + 2]);
    var d3, c3 := DigitOf(c[i + 3]);
    n, capitals := d0 * 0x1000 + d1 * 0x100 + d2 * 0x10 + d3, Capitals(c0, c1, c2, c3);
    NumberDigits(d0, d1, d2, d3);
    hide Hex, HexValue, IsHex;
    assert Hex4(n, capitals) == [c[i], c[i + 1], c[i + 2], c[i + 3]] == c[i..i + 4];
  }

  lemma PlainOf(c: seq<byte>, i: nat) returns (ch: Char)
    requires i < |c| && c[i] != BACKSLASH && c[i] != QUOTE
    ensures CharOk(ch) && CharText(ch) == [c[i]] && At(c, i, CharText(ch)) && InStep(c, i + 1)
  {
    ch := Plain(c[i]);
    AtByte(c, i, c[i]);
  }

  lemma EscapeOf(c: seq<byte>, i: nat) returns (ch: Char)
    requires i + 1 < |c| && InStep(c, i) && c[i] == BACKSLASH && Unescape(c[i + 1]) >= 0
    ensures CharOk(ch) && |CharText(ch)| == 2 && At(c, i, CharText(ch)) && InStep(c, i + 2)
  {
    ShortOf(c[i + 1]);
    assert Opens(c, i);
    ch := Short(c[i + 1]);
    assert c[i..i + 2] == [c[i], c[i + 1]];
  }

  /** What the second scan has taken for good. */
  lemma DecodeView(c: seq<byte>, i: nat, end: nat)
    requires i + 1 < |c| && i < end < |c| && c[i] == BACKSLASH && Decode(c, i, end).Bytes?
    ensures if c[i + 1] == LOWER_U then Utf16Literal(c, i, end).Literal? else Unescape(c[i + 1]) >= 0
  {
  }

  lemma LiteralView(c: seq<byte>, i: nat, end: nat)
    requires i <= end <= |c| && Utf16Literal(c, i, end).Literal?
    ensures i + 6 <= end
    ensures var first := ParseHex4(c, i + 2);
            0xD800 <= first <= 0xDFFF ==>
              && first <= 0xDBFF && i + 12 <= end && c[i + 6] == BACKSLASH && c[i + 7] == LOWER_U
              && 0xDC00 <= ParseHex4(c, i + 8) <= 0xDFFF
  {
    hide ParseHex4;
  }

  /** One character, when the first scan is in step with the second. */
  lemma CharOf(c: seq<byte>, i: nat, end: nat) returns (ch: Char)
    requires HexEscapes(c) && i < end < |c| && InStep(c, i) && FindEnd(c, i) == end && Decode(c, i, end).Bytes?
    ensures CharOk(ch) && At(c, i, CharText(ch)) && i + |CharText(ch)| <= end && InStep(c, i + |CharText(ch)|)
    ensures FindEnd(c, i + |CharText(ch)|) == end
    ensures Decode(c, i, end) == Prepend(CharMeaning(ch), Decode(c, i + |CharText(ch)|, end))
  {
    NextStop(c, i, end);
    if c[i] == BACKSLASH { DecodeView(c, i, end); }
    hide HexEscapes, FindEnd, Decode, At, CharText, CharMeaning, CharOk, Unescape, Utf16Literal, InStep, Opens;
    if c[i] != BACKSLASH {
      ch := PlainOf(c, i);
    } else if c[i + 1] != LOWER_U {
      ch := EscapeOf(c, i);
    } else {
      ch := NumberedOf(c, i, end);
    }
    CharIsRead(c, i, ch, end);
  }

  /** Where the first scan goes on. */
  lemma NextStop(c: seq<byte>, i: nat, end: nat)
    requires i < end < |c| && FindEnd(c, i) == end
    ensures c[i] != QUOTE && (c[i] == BACKSLASH ==> i + 2 <= end && FindEnd(c, i + 2) == end)
    ensures c[i] != BACKSLASH ==> FindEnd(c, i + 1) == end
  {
  }

  lemma ShortOf(b: byte)
    requires Unescape(b) >= 0
    ensures b in SHORT_FORMS && SHORT_FORMS[b] == Unescape(b)
  {
  }

  lemma UnitOf(c: seq<byte>, i: nat) returns (n: nat, capitals: Capitals)
    requires HexEscapes(c) && i + 1 < |c| && InStep(c, i) && c[i] == BACKSLASH && c[i + 1] == LOWER_U
    ensures i + 6 <= |c| && n < 0x1_0000 && At(c, i, [BACKSLASH, LOWER_U] + Hex4(n, capitals)) && ParseHex4(c, i + 2) == n
    ensures InStep(c, i + 6)
  {
    assert Opens(c, i);
    n, capitals := NumberOf(c, i + 2);
    assert c[i..i + 2] == [BACKSLASH, LOWER_U];
    hide Hex4, ParseHex4, HexEscapes;
    AtSplit(c, i, [BACKSLASH, LOWER_U], Hex4(n, capitals));
  }

  lemma NumberedOf(c: seq<byte>, i: nat, end: nat) returns (ch: Char)
    requires HexEscapes(c) && i + 1 < end < |c| && InStep(c, i) && c[i] == BACKSLASH && c[i + 1] == LOWER_U
    requires Utf16Literal(c, i, end).Literal?
    ensures CharOk(ch) && At(c, i, CharText(ch)) && i + |CharText(ch)| <= end && InStep(c, i + |CharText(ch)|)
  {
    hide HexEscapes, At, ParseHex4, Hex4, Utf16Literal, InStep, Opens;
    LiteralView(c, i, end);
    var n, capitals := UnitOf(c, i);
    if n < 0xD800 || n > 0xDFFF {
      ch := NumberOnly(n, capitals);
    } else {
      var l, low := UnitOf(c, i + 6);
      ch := PairOf(n, capitals, l, low);
      AtSplit(c, i, [BACKSLASH, LOWER_U] + Hex4(n, capitals), [BACKSLASH, LOWER_U] + Hex4(l, low));
    }
  }

  lemma NumberOnly(n: nat, capitals: Capitals) returns (ch: Char)
    requires n < 0xD800 || 0xDFFF < n < 0x1_0000
    ensures CharOk(ch) && CharText(ch) == [BACKSLASH, LOWER_U] + Hex4(n, capitals)
  {
    ch := Numbered(n, capitals);
  }

  lemma PairOf(n: nat, capitals: Capitals, l: nat, low: Capitals) returns (ch: Char)
    requires 0xD800 <= n <= 0xDBFF && 0xDC00 <= l <= 0xDFFF
    ensures CharOk(ch) && CharText(ch) == ([BACKSLASH, LOWER_U] + Hex4(n, capitals)) + ([BACKSLASH, LOWER_U] + Hex4(l, low))
  {
    hide Hex4;
    var cp := 0x1_0000 + (n - 0xD800) * 0x400 + (l - 0xDC00);
    assert (cp - 0x1_0000) / 0x400 == n - 0xD800 && (cp - 0x1_0000) % 0x400 == l - 0xDC00;
    ch := Paired(cp, capitals, low);
  }

  lemma FoundEnd(c: seq<byte>, i: nat)
    requires FindEnd(c, i) < |c|
    ensures i <= FindEnd(c, i)
  {
  }

  lemma {:induction false} CharsOf(c: seq<byte>, i: nat, end: nat) returns (chars: seq<Char>)
    requires HexEscapes(c) && i <= end < |c| && InStep(c, i) && FindEnd(c, i) == end && Decode(c, i, end).Bytes?
    ensures CharsOk(chars) && At(c, i, CharsText(chars)) && end == i + |CharsText(chars)|
    ensures Decode(c, i, end) == Bytes(CharsMeaning(chars))
    decreases end - i
  {
    hide FindEnd, Decode, HexEscapes, CharText, CharMeaning, CharOk, InStep, Opens;
    if i == end {
      chars := [];
      DecodeNothing(c, end);
    } else {
      var ch := CharOf(c, i, end);
      var rest := CharsOf(c, i + |CharText(ch)|, end);
      chars := [ch] + rest;
      assert chars[1..] == rest;
      AtSplit(c, i, CharText(ch), CharsText(rest));
    }
  }

  lemma StringOf(c: seq<byte>, o: nat) returns (chars: seq<Char>)
    requires HexEscapes(c) && o < |c| && ParseString(c, o).Parsed?
    ensures CharsOk(chars) && At(c, o, StringText(chars))
    ensures ParseString(c, o) == Parsed(CharsMeaning(chars), o + |StringText(chars)|)
  {
    hide Decode, HexEscapes, CharsText, CharsMeaning;
    var end := FindEnd(c, o + 1);
    FoundEnd(c, o + 1);
    chars := CharsOf(c, o + 1, end);
    hide At;
    AtByte(c, end, QUOTE);
    AtByte(c, o, QUOTE);
    AtSplit(c, o + 1, CharsText(chars), [QUOTE]);
    AtSplit(c, o, [QUOTE], CharsText(chars) + [QUOTE]);
  }

  // ---- Values ----

  /** The elements stand at p without the gap in front of the first, and end with a closing bracket. */
  predicate ElementsStand(es: seq<Element>, c: seq<byte>, p: nat, vs: seq<Json>, end: nat) {
    && es != [] && ElementsOk(es) && ElementGapsOk(es, false) && ElementsMeaning(es) == vs
    && At(c, p, FromElement(es)) && At(c, p + |FromElement(es)|, [RBRACKET]) && end == p + |FromElement(es)| + 1
  }

  predicate EntriesStand(es: seq<Entry>, c: seq<byte>, k: nat, ms: seq<Member>, end: nat) {
    && es != [] && EntriesOk(es) && EntryGapsOk(es, false) && EntriesMeaning(es) == ms
    && At(c, k, FromEntry(es)) && At(c, k + |FromEntry(es)|, [RBRACE]) && end == k + |FromEntry(es)| + 1
  }

  /** The same for one entry up to the end of its value. */
  predicate EntryStands(e: Entry, c: seq<byte>, k: nat, m: Member, end: nat) {
    && CharsOk(e.key) && SourceOk(e.value) && GapsOk(e.value, false)
    && GapOk(e.before, false) && GapOk(e.beforeColon, false) && GapOk(e.afterColon, false)
    && At(c, k, EntryText(e)) && end == k + |EntryText(e)| && m == Member(CharsMeaning(e.key), Meaning(e.value))
  }

  /** x is spelled at o, stands for v and ends at p. */
  predicate Stands(x: Source, c: seq<byte>, o: nat, v: Json, p: nat) {
    SourceOk(x) && GapsOk(x, false) && At(c, o, Spelled(x)) && Meaning(x) == v && p == o + |Spelled(x)|
  }

  lemma {:induction false} ValueOf(c: seq<byte>, o: nat, depth: nat) returns (x: Source)
    requires HexEscapes(c) && o <= |c| && ParseValue(c, o, depth).Parsed?
    ensures var r := ParseValue(c, o, depth); Stands(x, c, o, r.value, r.offset)
    decreases |c| - o, 3
  {
    hide HexEscapes, ParseArray, ParseObject, ParseString;
    if At(c, o, NULL_TEXT) {
      x := NullWord;
    } else if At(c, o, FALSE_TEXT) {
      x := BoolWord(false);
    } else if At(c, o, TRUE_TEXT) {
      x := BoolWord(true);
    } else if c[o] == QUOTE {
      var chars := StringOf(c, o);
      x := Text(chars);
    } else if c[o] == LBRACKET {
      x := ArrayOf(c, o, depth);
    } else {
      x := ObjectOf(c, o, depth);
    }
  }

  lemma ArrayView(c: seq<byte>, o: nat, depth: nat)
    requires o < |c| && c[o] == LBRACKET && ParseArray(c, o, depth).Parsed?
    ensures var o1 := SkipWhitespace(c, o + 1);
            && o1 < |c|
            && if c[o1] == RBRACKET then ParseArray(c, o, depth) == Parsed(Arr([]), o1 + 1)
               else
                 && 0 < o1 && ParseItems(c, o1 - 1, depth + 1).Parsed?
                 && var r := ParseItems(c, o1 - 1, depth + 1); ParseArray(c, o, depth) == Parsed(Arr(r.value), r.offset)
  {
    hide ParseItems;
  }

  lemma ItemsView(c: seq<byte>, o: nat, depth: nat)
    requires o < |c| && ParseItems(c, o, depth).Parsed?
    ensures var v := ParseValue(c, SkipWhitespace(c, o + 1), depth);
            && v.Parsed?
            && var q := SkipWhitespace(c, v.offset);
               && q < |c| && (c[q] == COMMA || c[q] == RBRACKET)
               && if c[q] == COMMA then
                    && ParseItems(c, q, depth).Parsed?
                    && var r := ParseItems(c, q, depth); ParseItems(c, o, depth) == Parsed([v.value] + r.value, r.offset)
                  else ParseItems(c, o, depth) == Parsed([v.value], q + 1)
  {
    hide ParseValue, SkipWhitespace;
  }

  lemma ObjectView(c: seq<byte>, o: nat, depth: nat)
    requires o < |c| && c[o] == LBRACE && ParseObject(c, o, depth).Parsed?
    ensures var o1 := SkipWhitespace(c, o + 1);
            && o1 < |c|
            && if c[o1] == RBRACE then ParseObject(c, o, depth) == Parsed(Obj([]), o1 + 1)
               else
                 && 0 < o1 && ParseMembers(c, o1 - 1, depth + 1).Parsed?
                 && var r := ParseMembers(c, o1 - 1, depth + 1); ParseObject(c, o, depth) == Parsed(Obj(r.value), r.offset)
  {
    hide ParseMembers;
  }

  lemma MembersView(c: seq<byte>, o: nat, depth: nat)
    requires o < |c| && ParseMembers(c, o, depth).Parsed?
    ensures var m := ParseMember(c, o, depth);
            && m.Parsed?
            && var q := SkipWhitespace(c, m.offset);
               && q < |c| && (c[q] == COMMA || c[q] == RBRACE)
               && if c[q] == COMMA then
                    && ParseMembers(c, q, depth).Parsed?
                    && var r := ParseMembers(c, q, depth); ParseMembers(c, o, depth) == Parsed([m.value] + r.value, r.offset)
                  else ParseMembers(c, o, depth) == Parsed([m.value], q + 1)
  {
    hide ParseMember, SkipWhitespace;
  }

  lemma MemberView(c: seq<byte>, o: nat, depth: nat)
    requires o < |c| && ParseMember(c, o, depth).Parsed?
    ensures var k := SkipWhitespace(c, o + 1);
            && k < |c| && ParseString(c, k).Parsed?
            && var key := ParseString(c, k);
               var q := SkipWhitespace(c, key.offset);
               && q < |c| && c[q] == COLON
               && var v := ParseValue(c, SkipWhitespace(c, q + 1), depth);
                  v.Parsed? && ParseMember(c, o, depth) == Parsed(Member(key.value, v.value), v.offset)
  {
    hide ParseString, ParseValue, SkipWhitespace;
  }

  /** A bracketed text from its parts. */
  lemma EmptyTogether(c: seq<byte>, o: nat, g: Gap, end: nat)
    requires o < |c| && GapOk(g, false) && At(c, o + 1, GapText(g)) && end == o + 1 + |GapText(g)| < |c|
    ensures c[o] == LBRACKET && c[end] == RBRACKET ==> Stands(Array(g, []), c, o, Arr([]), end + 1)
    ensures c[o] == LBRACE && c[end] == RBRACE ==> Stands(Object(g, []), c, o, Obj([]), end + 1)
  {
    hide At, GapText, GapOk;
    AtByte(c, o, c[o]);
    AtByte(c, end, c[end]);
    AtSplit(c, o + 1, GapText(g), [c[end]]);
    AtSplit(c, o, [c[o]], GapText(g) + [c[end]]);
    NoGap();
    assert ElementsMeaning([]) == [] && EntriesMeaning([]) == [];
    assert ElementsOk([]) && EntriesOk([]) && ElementGapsOk([], false) && EntryGapsOk([], false);
  }

  lemma ArrayTogether(c: seq<byte>, o: nat, g: Gap, es: seq<Element>, p: nat, vs: seq<Json>, end: nat) returns (x: Source)
    requires o < |c| && c[o] == LBRACKET && GapOk(g, false) && At(c, o + 1, GapText(g)) && p == o + 1 + |GapText(g)|
    requires ElementsStand(es, c, p, vs, end)
    ensures Stands(x, c, o, Arr(vs), end)
  {
    hide At, GapText, GapOk, FromElement;
    var es' := Placed(es, g);
    x := Array([], es');
    NoGap();
    AtByte(c, o, LBRACKET);
    AtSplit(c, o + 1, GapText(g), FromElement(es'));
    AtSplit(c, o + 1, ElementsText(es'), [RBRACKET]);
    AtSplit(c, o, [LBRACKET], ElementsText(es') + [RBRACKET]);
  }

  lemma {:induction false} ArrayOf(c: seq<byte>, o: nat, depth: nat) returns (x: Source)
    requires HexEscapes(c) && o < |c| && c[o] == LBRACKET && ParseArray(c, o, depth).Parsed?
    ensures var r := ParseArray(c, o, depth); Stands(x, c, o, r.value, r.offset)
    decreases |c| - o, 2
  {
    hide HexEscapes, ParseArray, ParseItems, SkipWhitespace, At, GapText, GapOk, Stands, ElementsStand;
    ArrayView(c, o, depth);
    var o1 := SkipWhitespace(c, o + 1);
    if c[o1] == RBRACKET {
      var g := SkippedIsGap(c, o + 1);
      x := Array(g, []);
      EmptyTogether(c, o, g, o1);
    } else {
      var es := ItemsOf(c, o1 - 1, depth + 1);
      StartsHere(c, o + 1);
      var r := ParseItems(c, o1 - 1, depth + 1);
      ElementsStartDark(es, c, o1, r.value, r.offset);
      var g := SkippedIsGap(c, o + 1);
      x := ArrayTogether(c, o, g, es, o1, r.value, r.offset);
    }
  }

  lemma ElementsStartDark(es: seq<Element>, c: seq<byte>, p: nat, vs: seq<Json>, end: nat)
    requires ElementsStand(es, c, p, vs, end)
    ensures p < |c| && c[p] > 32
  {
    hide At, FromElement;
    ElementHead(es);
    AtHead(c, p, FromElement(es));
  }

  lemma EntriesStartDark(es: seq<Entry>, c: seq<byte>, k: nat, ms: seq<Member>, end: nat)
    requires EntriesStand(es, c, k, ms, end)
    ensures k < |c| && c[k] > 32
  {
    hide At, FromEntry;
    EntryHead(es);
    AtHead(c, k, FromEntry(es));
  }

  lemma NoGap()
    ensures GapOk([], false)
  {
  }

  /** Where skipping has stopped it stops again. */
  lemma StartsHere(c: seq<byte>, o: nat)
    requires o <= |c| && SkipWhitespace(c, o) < |c|
    ensures SkipWhitespace(c, SkipWhitespace(c, o)) == SkipWhitespace(c, o)
  {
  }

  /** Another gap in front of the first element. */
  lemma Placed(es: seq<Element>, g: Gap) returns (es': seq<Element>)
    requires es != [] && ElementsOk(es) && ElementGapsOk(es, false) && GapOk(g, false)
    ensures es' != [] && es'[0].before == g && ElementsOk(es') && ElementGapsOk(es', false)
    ensures FromElement(es') == FromElement(es) && ElementsMeaning(es') == ElementsMeaning(es)
  {
    hide GapText, Spelled;
    es' := [es[0].(before := g)] + es[1..];
    assert es'[1..] == es[1..];
  }

  /** Behind a value at q: the closing bracket, or a comma and more elements. */
  predicate RestStands(rest: seq<Element>, c: seq<byte>, q: nat, vs: seq<Json>, end: nat) {
    && ElementsOk(rest) && ElementGapsOk(rest, false) && ElementsMeaning(rest) == vs
    && At(c, q, RestText(rest)) && At(c, q + |RestText(rest)|, [RBRACKET]) && end == q + |RestText(rest)| + 1
  }

  lemma NoRest(c: seq<byte>, q: nat)
    requires q < |c| && c[q] == RBRACKET
    ensures RestStands([], c, q, [], q + 1)
  {
    AtByte(c, q, RBRACKET);
  }

  lemma RestTogether(c: seq<byte>, q: nat, g: Gap, es: seq<Element>, p: nat, vs: seq<Json>, end: nat) returns (rest: seq<Element>)
    requires q < |c| && c[q] == COMMA && GapOk(g, false) && At(c, q + 1, GapText(g)) && p == q + 1 + |GapText(g)|
    requires ElementsStand(es, c, p, vs, end)
    ensures RestStands(rest, c, q, vs, end)
  {
    hide At, GapText, GapOk, FromElement;
    rest := Placed(es, g);
    AtByte(c, q, COMMA);
    AtSplit(c, q + 1, GapText(g), FromElement(rest));
    AtSplit(c, q, [COMMA], ElementsText(rest));
  }

  lemma {:induction false} RestOf(c: seq<byte>, q: nat, depth: nat) returns (rest: seq<Element>)
    requires HexEscapes(c) && q < |c| && c[q] == COMMA && ParseItems(c, q, depth).Parsed?
    ensures var r := ParseItems(c, q, depth); RestStands(rest, c, q, r.value, r.offset)
    decreases |c| - q, 2
  {
    hide HexEscapes, ParseItems, SkipWhitespace, At, GapText, GapOk, ElementsStand, RestStands;
    var es := ItemsOf(c, q, depth);
    var r := ParseItems(c, q, depth);
    var p := SkipWhitespace(c, q + 1);
    ElementsStartDark(es, c, p, r.value, r.offset);
    var g := SkippedIsGap(c, q + 1);
    rest := RestTogether(c, q, g, es, p, r.value, r.offset);
  }

  function RestText(es: seq<Element>): seq<byte>
    requires ElementsOk(es)
  {
    if es == [] then [] else [COMMA] + ElementsText(es)
  }

  lemma ItemsTogether(c: seq<byte>, p: nat, x: Source, v: Json, e: nat, after: Gap, q: nat, rest: seq<Element>, vs: seq<Json>, end: nat)
    returns (es: seq<Element>)
    requires Stands(x, c, p, v, e) && GapOk(after, false) && At(c, e, GapText(after)) && q == e + |GapText(after)|
    requires RestStands(rest, c, q, vs, end)
    ensures ElementsStand(es, c, p, [v] + vs, end)
  {
    hide At, GapText, GapOk, Spelled, Meaning, RestText, FromElement;
    es := [Element([], x, after)] + rest;
    assert es[1..] == rest;
    FromElementIs(es);
    NoGap();
    AtSplit(c, e, GapText(after), RestText(rest));
    AtSplit(c, p, Spelled(x), GapText(after) + RestText(rest));
  }

  /** The elements whose first value stands behind the white space behind o. */
  lemma {:induction false} ItemsOf(c: seq<byte>, o: nat, depth: nat) returns (es: seq<Element>)
    requires HexEscapes(c) && o < |c| && ParseItems(c, o, depth).Parsed?
    ensures var r := ParseItems(c, o, depth); ElementsStand(es, c, SkipWhitespace(c, o + 1), r.value, r.offset)
    decreases |c| - o, 1
  {
    hide HexEscapes, ParseItems, ParseValue, SkipWhitespace, At, GapText, GapOk, Stands, RestStands, ElementsStand;
    ItemsView(c, o, depth);
    var p := SkipWhitespace(c, o + 1);
    var v := ParseValue(c, p, depth);
    var q := SkipWhitespace(c, v.offset);
    var x := ValueOf(c, p, depth);
    var after := SkippedIsGap(c, v.offset);
    if c[q] == COMMA {
      var rest := RestOf(c, q, depth);
      var r := ParseItems(c, q, depth);
      es := ItemsTogether(c, p, x, v.value, v.offset, after, q, rest, r.value, r.offset);
    } else {
      NoRest(c, q);
      es := ItemsTogether(c, p, x, v.value, v.offset, after, q, [], [], q + 1);
      assert [v.value] + [] == [v.value];
    }
  }

  lemma FromElementIs(es: seq<Element>)
    requires ElementsOk(es) && es != []
    ensures FromElement(es) == Spelled(es[0].value) + (GapText(es[0].after) + RestText(es[1..]))
  {
    assert |es| == 1 <==> es[1..] == [];
  }

  lemma ObjectTogether(c: seq<byte>, o: nat, g: Gap, es: seq<Entry>, k: nat, ms: seq<Member>, end: nat) returns (x: Source)
    requires o < |c| && c[o] == LBRACE && GapOk(g, false) && At(c, o + 1, GapText(g)) && k == o + 1 + |GapText(g)|
    requires EntriesStand(es, c, k, ms, end)
    ensures Stands(x, c, o, Obj(ms), end)
  {
    hide At, GapText, GapOk, FromEntry;
    var es' := EntryPlaced(es, g);
    x := Object([], es');
    NoGap();
    AtByte(c, o, LBRACE);
    AtSplit(c, o + 1, GapText(g), FromEntry(es'));
    AtSplit(c, o + 1, EntriesText(es'), [RBRACE]);
    AtSplit(c, o, [LBRACE], EntriesText(es') + [RBRACE]);
  }

  lemma {:induction false} ObjectOf(c: seq<byte>, o: nat, depth: nat) returns (x: Source)
    requires HexEscapes(c) && o < |c| && c[o] == LBRACE && ParseObject(c, o, depth).Parsed?
    ensures var r := ParseObject(c, o, depth); Stands(x, c, o, r.value, r.offset)
    decreases |c| - o, 2
  {
    hide HexEscapes, ParseObject, ParseMembers, SkipWhitespace, At, GapText, GapOk, Stands, EntriesStand;
    ObjectView(c, o, depth);
    var o1 := SkipWhitespace(c, o + 1);
    if c[o1] == RBRACE {
      var g := SkippedIsGap(c, o + 1);
      x := Object(g, []);
      EmptyTogether(c, o, g, o1);
    } else {
      var es := MembersOf(c, o1 - 1, depth + 1);
      StartsHere(c, o + 1);
      var r := ParseMembers(c, o1 - 1, depth + 1);
      EntriesStartDark(es, c, o1, r.value, r.offset);
      var g := SkippedIsGap(c, o + 1);
      x := ObjectTogether(c, o, g, es, o1, r.value, r.offset);
    }
  }

  lemma EntryPlaced(es: seq<Entry>, g: Gap) returns (es': seq<Entry>)
    requires es != [] && EntriesOk(es) && EntryGapsOk(es, false) && GapOk(g, false)
    ensures es' != [] && es'[0].before == g && EntriesOk(es') && EntryGapsOk(es', false)
    ensures FromEntry(es') == FromEntry(es) && EntriesMeaning(es') == EntriesMeaning(es)
  {
    hide GapText, Spelled;
    es' := [es[0].(before := g)] + es[1..];
    assert es'[1..] == es[1..];
  }

  /** An entry up to the end of its value. */
  function EntryText(e: Entry): seq<byte>
    requires CharsOk(e.key) && SourceOk(e.value)
  {
    StringText(e.key) + (GapText(e.beforeColon) + ([COLON] + (GapText(e.afterColon) + Spelled(e.value))))
  }

  lemma {:induction false} MemberOf(c: seq<byte>, o: nat, depth: nat) returns (e: Entry)
    requires HexEscapes(c) && o < |c| && ParseMember(c, o, depth).Parsed?
    ensures var r := ParseMember(c, o, depth); EntryStands(e, c, SkipWhitespace(c, o + 1), r.value, r.offset)
    decreases |c| - o, 0
  {
    hide HexEscapes, ParseValue, ParseString, SkipWhitespace, At, GapText, GapOk, StringText, ParseMember, CharsMeaning, Stands,
         EntryStands;
    MemberView(c, o, depth);
    var k := SkipWhitespace(c, o + 1);
    var key := ParseString(c, k);
    var q := SkipWhitespace(c, key.offset);
    var r := SkipWhitespace(c, q + 1);
    var v := ParseValue(c, r, depth);
    var chars := StringOf(c, k);
    var beforeColon := SkippedIsGap(c, key.offset);
    var x := ValueOf(c, r, depth);
    StartsDark(x, c, r, v.value, v.offset);
    var afterColon := SkippedIsGap(c, q + 1);
    e := EntryTogether(c, k, chars, beforeColon, q, afterColon, x, r, v.value, v.offset);
  }

  lemma StartsDark(x: Source, c: seq<byte>, o: nat, v: Json, p: nat)
    requires Stands(x, c, o, v, p)
    ensures o < |c| && c[o] > 32
  {
    hide At;
    AtHead(c, o, Spelled(x));
  }

  lemma EntryTogether(c: seq<byte>, k: nat, chars: seq<Char>, beforeColon: Gap, q: nat, afterColon: Gap, x: Source, r: nat, v: Json,
                      end: nat) returns (e: Entry)
    requires CharsOk(chars) && At(c, k, StringText(chars)) && At(c, k + |StringText(chars)|, GapText(beforeColon))
    requires GapOk(beforeColon, false) && q == k + |StringText(chars)| + |GapText(beforeColon)| < |c| && c[q] == COLON
    requires GapOk(afterColon, false) && At(c, q + 1, GapText(afterColon)) && r == q + 1 + |GapText(afterColon)|
    requires Stands(x, c, r, v, end)
    ensures EntryStands(e, c, k, Member(CharsMeaning(chars), v), end)
  {
    e := Entry([], chars, beforeColon, afterColon, x, []);
    NoGap();
    hide At, StringText, GapText, Spelled, GapOk, Meaning, CharsMeaning;
    AtByte(c, q, COLON);
    AtSplit(c, q + 1, GapText(afterColon), Spelled(x));
    AtSplit(c, q, [COLON], GapText(afterColon) + Spelled(x));
    AtSplit(c, k + |StringText(chars)|, GapText(beforeColon), [COLON] + (GapText(afterColon) + Spelled(x)));
    AtSplit(c, k, StringText(chars), GapText(beforeColon) + ([COLON] + (GapText(afterColon) + Spelled(x))));
  }

  function EntryRestText(es: seq<Entry>): seq<byte>
    requires EntriesOk(es)
  {
    if es == [] then [] else [COMMA] + EntriesText(es)
  }

  predicate EntryRestStands(rest: seq<Entry>, c: seq<byte>, q: nat, ms: seq<Member>, end: nat) {
    && EntriesOk(rest) && EntryGapsOk(rest, false) && EntriesMeaning(rest) == ms
    && At(c, q, EntryRestText(rest)) && At(c, q + |EntryRestText(rest)|, [RBRACE]) && end == q + |EntryRestText(rest)| + 1
  }

  lemma NoEntryRest(c: seq<byte>, q: nat)
    requires q < |c| && c[q] == RBRACE
    ensures EntryRestStands([], c, q, [], q + 1)
  {
    AtByte(c, q, RBRACE);
  }

  lemma EntryRestTogether(c: seq<byte>, q: nat, g: Gap, es: seq<Entry>, k: nat, ms: seq<Member>, end: nat) returns (rest: seq<Entry>)
    requires q < |c| && c[q] == COMMA && GapOk(g, false) && At(c, q + 1, GapText(g)) && k == q + 1 + |GapText(g)|
    requires EntriesStand(es, c, k, ms, end)
    ensures EntryRestStands(rest, c, q, ms, end)
  {
    hide At, GapText, GapOk, FromEntry;
    rest := EntryPlaced(es, g);
    AtByte(c, q, COMMA);
    AtSplit(c, q + 1, GapText(g), FromEntry(rest));
    AtSplit(c, q, [COMMA], EntriesText(rest));
  }

  lemma {:induction false} EntryRestOf(c: seq<byte>, q: nat, depth: nat) returns (rest: seq<Entry>)
    requires HexEscapes(c) && q < |c| && c[q] == COMMA && ParseMembers(c, q, depth).Parsed?
    ensures var r := ParseMembers(c, q, depth); EntryRestStands(rest, c, q, r.value, r.offset)
    decreases |c| - q, 2
  {
    hide HexEscapes, ParseMembers, SkipWhitespace, At, GapText, GapOk, EntriesStand, EntryRestStands;
    var es := MembersOf(c, q, depth);
    var r := ParseMembers(c, q, depth);
    var k := SkipWhitespace(c, q + 1);
    EntriesStartDark(es, c, k, r.value, r.offset);
    var g := SkippedIsGap(c, q + 1);
    rest := EntryRestTogether(c, q, g, es, k, r.value, r.offset);
  }

  lemma MembersTogether(c: seq<byte>, k: nat, e: Entry, m: Member, end: nat, after: Gap, q: nat, rest: seq<Entry>, ms: seq<Member>,
                        last: nat) returns (es: seq<Entry>)
    requires EntryStands(e, c, k, m, end) && GapOk(after, false) && At(c, end, GapText(after)) && q == end + |GapText(after)|
    requires EntryRestStands(rest, c, q, ms, last)
    ensures EntriesStand(es, c, k, [m] + ms, last)
  {
    hide At, GapText, GapOk, EntryText, Meaning, EntryRestText, FromEntry, CharsMeaning, Spelled, StringText;
    es := [e.(after := after)] + rest;
    assert es[1..] == rest;
    FromEntryIs(es);
    SameEntryText(e, after);
    AtSplit(c, end, GapText(after), EntryRestText(rest));
    AtSplit(c, k, EntryText(e), GapText(after) + EntryRestText(rest));
  }

  lemma {:induction false} MembersOf(c: seq<byte>, o: nat, depth: nat) returns (es: seq<Entry>)
    requires HexEscapes(c) && o < |c| && ParseMembers(c, o, depth).Parsed?
    ensures var r := ParseMembers(c, o, depth); EntriesStand(es, c, SkipWhitespace(c, o + 1), r.value, r.offset)
    decreases |c| - o, 1
  {
    hide HexEscapes, ParseMember, ParseMembers, SkipWhitespace, At, GapText, GapOk, EntryStands, EntryRestStands, EntriesStand;
    MembersView(c, o, depth);
    var k := SkipWhitespace(c, o + 1);
    var m := ParseMember(c, o, depth);
    var q := SkipWhitespace(c, m.offset);
    var e := MemberOf(c, o, depth);
    var after := SkippedIsGap(c, m.offset);
    if c[q] == COMMA {
      var rest := EntryRestOf(c, q, depth);
      var r := ParseMembers(c, q, depth);
      es := MembersTogether(c, k, e, m.value, m.offset, after, q, rest, r.value, r.offset);
    } else {
      NoEntryRest(c, q);
      es := MembersTogether(c, k, e, m.value, m.offset, after, q, [], [], q + 1);
      assert [m.value] + [] == [m.value];
    }
  }

  lemma SameEntryText(e: Entry, after: Gap)
    requires CharsOk(e.key) && SourceOk(e.value)
    ensures EntryText(e.(after := after)) == EntryText(e)
  {
  }

  lemma FromEntryIs(es: seq<Entry>)
    requires EntriesOk(es) && es != []
    ensures FromEntry(es) == EntryText(es[0]) + (GapText(es[0].after) + EntryRestText(es[1..]))
  {
    assert |es| == 1 <==> es[1..] == [];
    EntryThenRest(es[0], GapText(es[0].after) + EntryRestText(es[1..]));
  }

  lemma EntryThenRest(e: Entry, behind: seq<byte>)
    requires CharsOk(e.key) && SourceOk(e.value)
    ensures EntryText(e) + behind
            == StringText(e.key) + (GapText(e.beforeColon) + ([COLON] + (GapText(e.afterColon) + (Spelled(e.value) + behind))))
  {
    hide StringText, GapText, Spelled;
    var a, b, x := GapText(e.beforeColon), GapText(e.afterColon), Spelled(e.value);
    assert (b + x) + behind == b + (x + behind);
    assert ([COLON] + (b + x)) + behind == [COLON] + (b + (x + behind));
    assert (a + ([COLON] + (b + x))) + behind == a + ([COLON] + (b + (x + behind)));
  }
}
