/** The texts the parser accepts are exactly the texts of the grammar nested within the limit, apart from escapes by number
    without four hexadecimal digits, which it takes for zero. */

module JsonLanguage {
  import opened Basics
  import opened JsonText
  import opened JsonParser
  import opened JsonSyntax
  import opened JsonGrammar
  import opened JsonAccepted

  // ---- Texts of the grammar have four digits in every escape by number ----

  /** A text whose escapes are complete. */
  predicate Closed(t: seq<byte>) {
    HexEscapes(t) && InStep(t, |t|)
  }

  lemma {:induction false} OpensInside(a: seq<byte>, b: seq<byte>, i: nat)
    requires i < |a|
    ensures Opens(a + b, i) == Opens(a, i)
  {
    if i > 0 { OpensInside(a, b, i - 1); }
  }

  lemma {:induction false} OpensBehind(a: seq<byte>, b: seq<byte>, i: nat)
    requires InStep(a, |a|) && i < |b|
    ensures Opens(a + b, |a| + i) == Opens(b, i)
  {
    if i > 0 {
      OpensBehind(a, b, i - 1);
    } else if a != [] {
      OpensInside(a, b, |a| - 1);
    }
  }

  lemma ClosedTogether(a: seq<byte>, b: seq<byte>)
    requires Closed(a) && Closed(b)
    ensures Closed(a + b)
  {
    var t := a + b;
    forall i | 0 <= i < |t| - 1 && Opens(t, i) && t[i + 1] == LOWER_U
      ensures i + 6 <= |t| && IsHex(t[i + 2]) && IsHex(t[i + 3]) && IsHex(t[i + 4]) && IsHex(t[i + 5])
    {
      if i < |a| { OpensInside(a, b, i); } else { OpensBehind(a, b, i - |a|); }
    }
    if b != [] {
      OpensBehind(a, b, |b| - 1);
    } else {
      assert t == a;
    }
  }

  lemma WithoutBackslash(t: seq<byte>)
    requires BACKSLASH !in t
    ensures Closed(t)
  {
  }

  lemma HexIsHex(d: nat, capital: bool)
    requires d < 16
    ensures IsHex(Hex(d, capital)) && Hex(d, capital) != BACKSLASH
  {
  }

  lemma UnitClosed(n: nat, capitals: Capitals)
    requires n < 0x1_0000
    ensures Closed([BACKSLASH, LOWER_U] + Hex4(n, capitals))
  {
    HexIsHex(n / 0x1000, capitals.first);
    HexIsHex(n / 0x100 % 16, capitals.second);
    HexIsHex(n / 16 % 16, capitals.third);
    HexIsHex(n % 16, capitals.fourth);
    hide Hex, IsHex;
    var t := [BACKSLASH, LOWER_U] + Hex4(n, capitals);
    assert Opens(t, 0) && forall k :: 1 <= k < 6 ==> t[k] != BACKSLASH;
  }

  lemma CharClosed(ch: Char)
    requires CharOk(ch)
    ensures Closed(CharText(ch))
  {
    hide Closed, Hex4;
    match ch
    case Plain(b) =>
      WithoutBackslash([b]);
    case Short(letter) =>
      ShortClosed(letter);
    case Numbered(n, capitals) =>
      UnitClosed(n, capitals);
    case Paired(cp, high, low) =>
      Halves(cp);
      var h, l := 0xD800 + (cp - 0x1_0000) / 0x400, 0xDC00 + (cp - 0x1_0000) % 0x400;
      UnitClosed(h, high);
      UnitClosed(l, low);
      ClosedTogether([BACKSLASH, LOWER_U] + Hex4(h, high), [BACKSLASH, LOWER_U] + Hex4(l, low));
  }

  lemma ShortClosed(letter: byte)
    requires letter in SHORT_FORMS
    ensures Closed([BACKSLASH, letter])
  {
    var t := [BACKSLASH, letter];
    assert Opens(t, 0) && !Opens(t, 1) && letter != LOWER_U;
  }

  lemma {:induction false} CharsClosed(chars: seq<Char>)
    requires CharsOk(chars)
    ensures Closed(CharsText(chars))
    decreases chars
  {
    hide Closed, CharText, CharOk;
    if chars == [] {
      WithoutBackslash([]);
    } else {
      CharClosed(chars[0]);
      CharsClosed(chars[1..]);
      ClosedTogether(CharText(chars[0]), CharsText(chars[1..]));
    }
  }

  /** A text between two bytes other than a backslash. */
  lemma Enclosed(open: byte, t: seq<byte>, close: byte)
    requires Closed(t) && open != BACKSLASH && close != BACKSLASH
    ensures Closed([open] + (t + [close]))
  {
    hide Closed;
    WithoutBackslash([open]);
    WithoutBackslash([close]);
    ClosedTogether(t, [close]);
    ClosedTogether([open], t + [close]);
  }

  lemma StringClosed(chars: seq<Char>)
    requires CharsOk(chars)
    ensures Closed(StringText(chars))
  {
    hide Closed, CharsText;
    CharsClosed(chars);
    Enclosed(QUOTE, CharsText(chars), QUOTE);
  }

  lemma {:induction false} GapClosed(g: Gap)
    requires GapOk(g, false)
    ensures Closed(GapText(g))
    decreases g
  {
    hide Closed;
    if g == [] {
      WithoutBackslash([]);
    } else {
      WithoutBackslash([g[0].b]);
      GapClosed(g[1..]);
      ClosedTogether(FillerText(g[0]), GapText(g[1..]));
    }
  }

  lemma {:induction false} SourceClosed(x: Source)
    requires SourceOk(x) && GapsOk(x, false)
    ensures Closed(Spelled(x))
    decreases x, 3
  {
    hide Closed, StringText, GapText, ElementsText, EntriesText, CharsOk, GapOk;
    match x
    case NullWord =>
      WithoutBackslash(NULL_TEXT);
    case BoolWord(value) =>
      WithoutBackslash(if value then TRUE_TEXT else FALSE_TEXT);
    case Text(chars) =>
      StringClosed(chars);
    case Array(inner, elements) =>
      if elements == [] { GapClosed(inner); } else { ElementsClosed(elements); }
      Enclosed(LBRACKET, if elements == [] then GapText(inner) else ElementsText(elements), RBRACKET);
    case Object(inner, entries) =>
      if entries == [] { GapClosed(inner); } else { EntriesClosed(entries); }
      Enclosed(LBRACE, if entries == [] then GapText(inner) else EntriesText(entries), RBRACE);
  }

  lemma {:induction false} ElementsClosed(es: seq<Element>)
    requires es != [] && ElementsOk(es) && ElementGapsOk(es, false)
    ensures Closed(ElementsText(es))
    decreases es, 2
  {
    hide Closed, GapText, Spelled, GapOk;
    GapClosed(es[0].before);
    SourceClosed(es[0].value);
    GapClosed(es[0].after);
    var rest := if |es| == 1 then [] else [COMMA] + ElementsText(es[1..]);
    if |es| == 1 {
      WithoutBackslash([]);
    } else {
      WithoutBackslash([COMMA]);
      ElementsClosed(es[1..]);
      ClosedTogether([COMMA], ElementsText(es[1..]));
    }
    ClosedTogether(GapText(es[0].after), rest);
    ClosedTogether(Spelled(es[0].value), GapText(es[0].after) + rest);
    ClosedTogether(GapText(es[0].before), FromElement(es));
  }

  /** A key, its colon and its value, with what is behind them. */
  lemma {:induction false} EntryClosed(e: Entry, rest: seq<byte>)
    requires CharsOk(e.key) && SourceOk(e.value) && GapsOk(e.value, false) && Closed(rest)
    requires GapOk(e.before, false) && GapOk(e.beforeColon, false) && GapOk(e.afterColon, false) && GapOk(e.after, false)
    ensures Closed(GapText(e.before) + (StringText(e.key) + (GapText(e.beforeColon) + ([COLON] + (GapText(e.afterColon)
                                       + (Spelled(e.value) + (GapText(e.after) + rest)))))))
    decreases e, 4
  {
    hide Closed, GapText, Spelled, GapOk, StringText, CharsOk;
    GapClosed(e.before);
    StringClosed(e.key);
    GapClosed(e.beforeColon);
    WithoutBackslash([COLON]);
    GapClosed(e.afterColon);
    SourceClosed(e.value);
    GapClosed(e.after);
    var t := GapText(e.after) + rest;
    ClosedTogether(GapText(e.after), rest);
    ClosedTogether(Spelled(e.value), t);
    t := Spelled(e.value) + t;
    ClosedTogether(GapText(e.afterColon), t);
    t := GapText(e.afterColon) + t;
    ClosedTogether([COLON], t);
    t := [COLON] + t;
    ClosedTogether(GapText(e.beforeColon), t);
    t := GapText(e.beforeColon) + t;
    ClosedTogether(StringText(e.key), t);
    ClosedTogether(GapText(e.before), StringText(e.key) + t);
  }

  lemma {:induction false} EntriesClosed(es: seq<Entry>)
    requires es != [] && EntriesOk(es) && EntryGapsOk(es, false)
    ensures Closed(EntriesText(es))
    decreases es, 2
  {
    hide Closed, GapText, Spelled, GapOk, StringText, CharsOk;
    var rest := if |es| == 1 then [] else [COMMA] + EntriesText(es[1..]);
    if |es| == 1 {
      WithoutBackslash([]);
    } else {
      WithoutBackslash([COMMA]);
      EntriesClosed(es[1..]);
      ClosedTogether([COMMA], EntriesText(es[1..]));
    }
    EntryClosed(es[0], rest);
  }

  lemma DocumentClosed(d: Document)
    requires DocumentOk(d)
    ensures Closed(DocumentText(d))
  {
    hide Closed, GapText, Spelled, GapOk, SourceOk, GapsOk;
    WithoutBackslash(BomText(d.bom));
    GapClosed(d.before);
    SourceClosed(d.value);
    GapClosed(d.after);
    ClosedTogether(Spelled(d.value), GapText(d.after));
    ClosedTogether(GapText(d.before), Spelled(d.value) + GapText(d.after));
    ClosedTogether(BomText(d.bom), GapText(d.before) + (Spelled(d.value) + GapText(d.after)));
  }

  // ---- The language ----

  /** The document is this text and stands for this tree. */
  predicate Denotes(d: Document, t: seq<byte>, v: Json) {
    DocumentOk(d) && DocumentText(d) == t && Meaning(d.value) == v
  }

  /** Only white space behind offset o, and the terminator. */
  lemma GapBehind(c: seq<byte>, o: nat) returns (g: Gap)
    requires o <= |c| && c != [] && c[|c| - 1] == NUL
    requires SkipWhitespace(c, o) < |c| && c[SkipWhitespace(c, o)] == NUL
    ensures o < |c| && SkipWhitespace(c, o) == |c| - 1 && GapOk(g, false) && c[o..|c| - 1] == GapText(g)
  {
    SkippedIsBlank(c, o);
    g := GapOf(c[o..|c| - 1]);
    GapOfIs(c[o..|c| - 1]);
  }

  lemma ClosedBehind(t: seq<byte>)
    requires HexEscapes(t)
    ensures HexEscapes(t + [NUL])
  {
    var c := t + [NUL];
    forall i | 0 <= i < |c| - 1 && Opens(c, i) && c[i + 1] == LOWER_U
      ensures i + 6 <= |c| && IsHex(c[i + 2]) && IsHex(c[i + 3]) && IsHex(c[i + 4]) && IsHex(c[i + 5])
    {
      OpensInside(t, [NUL], i);
    }
  }

  lemma BomFound(c: seq<byte>)
    ensures SkipBom(c) <= |c| && c[..SkipBom(c)] == BomText(SkipBom(c) == 3)
  {
  }

  lemma AtSlice(c: seq<byte>, o: nat, t: seq<byte>)
    requires At(c, o, t)
    ensures o + |t| <= |c| && c[o..o + |t|] == t
  {
  }

  lemma InPieces(t: seq<byte>, b: nat, o: nat, e: nat)
    requires b <= o <= e <= |t|
    ensures var c := t + [NUL]; t == c[..b] + (c[b..o] + (c[o..e] + c[e..|c| - 1]))
  {
  }

  lemma ParseView(c: seq<byte>)
    requires c != [] && Parse(c, true).Parsed?
    ensures SkipBom(c) <= |c|
    ensures var v := ParseValue(c, SkipWhitespace(c, SkipBom(c)), 0);
            && v.Parsed? && Parse(c, true).value == v.value
            && Parse(c, true).offset == SkipWhitespace(c, v.offset) < |c| && c[SkipWhitespace(c, v.offset)] == NUL
  {
    hide ParseValue, SkipWhitespace;
  }

  /** An accepted text is a document. */
  lemma Accepted(t: seq<byte>) returns (d: Document)
    requires HexEscapes(t) && Parse(t + [NUL], true).Parsed?
    ensures Denotes(d, t, Parse(t + [NUL], true).value) && Parse(t + [NUL], true).offset == |t|
  {
    hide HexEscapes, GapText, Spelled, GapOk, GapsOk, SourceOk, Meaning, SkipWhitespace, ParseValue, SkipBom, Parse, At, BomText,
         Skip;
    ClosedBehind(t);
    var c := t + [NUL];
    ParseView(c);
    var b := SkipBom(c);
    var o := SkipWhitespace(c, b);
    var v := ParseValue(c, o, 0);
    var x := ValueOf(c, o, 0);
    StartsDark(x, c, o, v.value, v.offset);
    var before := SkippedIsGap(c, b);
    var after := GapBehind(c, v.offset);
    d := Document(b == 3, before, x, after);
    BomFound(c);
    AtSlice(c, b, GapText(before));
    AtSlice(c, o, Spelled(x));
    InPieces(t, b, o, v.offset);
  }

  /** The parser accepts a text, and every escape by number in it has four hexadecimal digits, exactly when the text is one
      of the grammar, nested within the limit; and the tree that comes out is the one the text stands for. */
  lemma AcceptsExactly(t: seq<byte>, v: Json)
    ensures Parse(t + [NUL], true) == Parsed(v, |t|) && HexEscapes(t)
            <==> Depth(v) <= NESTING_LIMIT && exists d :: Denotes(d, t, v)
  {
    hide HexEscapes, Parse, Meaning, Depth, DocumentOk, DocumentText;
    if Parse(t + [NUL], true) == Parsed(v, |t|) && HexEscapes(t) {
      var d := Accepted(t);
      ParsesExactly(d, true);
    }
    if d :| Depth(v) <= NESTING_LIMIT && Denotes(d, t, v) {
      ParsesExactly(d, true);
      DocumentClosed(d);
    }
  }

  /** Any other text whose escapes are complete is refused. */
  lemma RefusesExactly(t: seq<byte>)
    requires HexEscapes(t)
    ensures Parse(t + [NUL], true) == Failed
            <==> forall d :: DocumentOk(d) && DocumentText(d) == t ==> Depth(Meaning(d.value)) > NESTING_LIMIT
  {
    hide HexEscapes, Meaning, Depth, GapOk, GapsOk, SourceOk, DocumentText, Parse;
    OverrunNeedsComma(t + [NUL], true);
    if Parse(t + [NUL], true).Parsed? {
      var d := Accepted(t);
      ParsesExactly(d, true);
    }
    forall d | DocumentOk(d) && DocumentText(d) == t && Depth(Meaning(d.value)) <= NESTING_LIMIT
      ensures Parse(t + [NUL], true).Parsed?
    {
      ParsesExactly(d, true);
    }
  }

  /** "\uZZZZ" */
  const NO_DIGITS: seq<byte> := [QUOTE, BACKSLASH, LOWER_U, 90, 90, 90, 90, QUOTE]

  lemma BadDigitsString(c: seq<byte>)
    requires c == NO_DIGITS + [NUL]
    ensures ParseString(c, 0) == Parsed([NUL], 8)
  {
    ScanSix(c, 1);
    assert FindEnd(c, 7) == 7;
    assert HexValue(c[3]) == -1 && ParseHex4(c, 3) == 0 && Utf16Literal(c, 1, 7) == Literal(6, 0);
    assert Decode(c, 7, 7) == Bytes([]) && Decode(c, 1, 7) == Bytes([NUL] + []);
    assert [NUL] + [] == [NUL];
  }

  /** A string and its terminator, when the string is read to its end. */
  lemma LoneString(c: seq<byte>)
    requires |c| == 9 && c[0] == QUOTE && c[8] == NUL && ParseString(c, 0) == Parsed([NUL], 8)
    ensures Parse(c, true) == Parsed(Str([NUL]), 8)
  {
    hide ParseString;
    assert !At(c, 0, NULL_TEXT) && !At(c, 0, FALSE_TEXT) && !At(c, 0, TRUE_TEXT);
    assert SkipBom(c) == 0 by { assert c[..3][0] == QUOTE; }
    assert Skip(c, 0) == 0 && Skip(c, 9) == 9 && Skip(c, 8) == 9;
  }

  lemma BadDigitsUnclosed()
    ensures !HexEscapes(NO_DIGITS)
  {
    var t := NO_DIGITS;
    assert t[1] == BACKSLASH && t[2] == LOWER_U && t[3] == 90 && Opens(t, 1);
  }

  /** Digits that are none are taken for the number zero: the text is accepted, and is none of the grammar. */
  lemma BadDigitsReadAsZero()
    ensures Parse(NO_DIGITS + [NUL], true) == Parsed(Str([NUL]), |NO_DIGITS|)
    ensures forall d :: DocumentOk(d) ==> DocumentText(d) != NO_DIGITS
  {
    var c := NO_DIGITS + [NUL];
    BadDigitsString(c);
    LoneString(c);
    BadDigitsUnclosed();
    forall d | DocumentOk(d) ensures DocumentText(d) != NO_DIGITS {
      hide DocumentText, HexEscapes, DocumentOk, NO_DIGITS;
      DocumentClosed(d);
    }
  }
}
