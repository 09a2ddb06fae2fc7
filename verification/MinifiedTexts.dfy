/** What the minifier makes of JSON texts: the same tokens with nothing between them. */

module MinifiedTexts {
  import opened Basics
  import opened JsonText
  import opened JsonParser
  import opened JsonSyntax
  import opened JsonGrammar
  import opened JsonRoundTrip
  import opened JsonMinify

  // ---- Without gaps ----

  function Stripped(x: Source): (r: Source)
    requires SourceOk(x)
    ensures SourceOk(r) && GapsOk(r, false) && Meaning(r) == Meaning(x)
    decreases x, 1
  {
    match x
    case Array(_, elements) => Array([], StrippedElements(elements))
    case Object(_, entries) => Object([], StrippedEntries(entries))
    case _ => x
  }

  function StrippedElements(es: seq<Element>): (r: seq<Element>)
    requires ElementsOk(es)
    ensures |r| == |es| && ElementsOk(r) && ElementGapsOk(r, false) && ElementsMeaning(r) == ElementsMeaning(es)
    decreases es, 0
  {
    if es == [] then [] else [Element([], Stripped(es[0].value), [])] + StrippedElements(es[1..])
  }

  function StrippedEntries(es: seq<Entry>): (r: seq<Entry>)
    requires EntriesOk(es)
    ensures |r| == |es| && EntriesOk(r) && EntryGapsOk(r, false) && EntriesMeaning(r) == EntriesMeaning(es)
    decreases es, 0
  {
    if es == [] then []
    else [Entry([], es[0].key, [], [], Stripped(es[0].value), [])] + StrippedEntries(es[1..])
  }

  /** The last character is not an escaped backslash: the minifier would take the closing quote for escaped. */
  predicate CleanChars(chars: seq<Char>) {
    chars != [] ==> chars[|chars| - 1] != Short(BACKSLASH)
  }

  predicate CleanSource(x: Source)
    decreases x, 1
  {
    match x
    case Text(chars) => CleanChars(chars)
    case Array(_, elements) => CleanElements(elements)
    case Object(_, entries) => CleanEntries(entries)
    case _ => true
  }

  predicate CleanElements(es: seq<Element>)
    decreases es, 0
  {
    es != [] ==> CleanSource(es[0].value) && CleanElements(es[1..])
  }

  predicate CleanEntries(es: seq<Entry>)
    decreases es, 0
  {
    es != [] ==> CleanChars(es[0].key) && CleanSource(es[0].value) && CleanEntries(es[1..])
  }

  // ---- Gaps go ----

  lemma {:induction false} LineIsSkipped(t: seq<byte>, i: nat, body: seq<byte>)
    requires At(t, i, body + [NEWLINE]) && NEWLINE !in body
    ensures SkipLine(t, i) == i + |body| + 1
    decreases body
  {
    hide At;
    if body == [] {
      assert body + [NEWLINE] == [NEWLINE];
      AtByte(t, i, NEWLINE);
    } else {
      assert body + [NEWLINE] == [body[0]] + (body[1..] + [NEWLINE]);
      AtSplit(t, i, [body[0]], body[1..] + [NEWLINE]);
      AtByte(t, i, body[0]);
      LineIsSkipped(t, i + 1, body[1..]);
    }
  }

  lemma {:induction false} BlockIsSkipped(t: seq<byte>, i: nat, body: seq<byte>)
    requires At(t, i, body + [STAR, SLASH])
    requires forall k :: 0 <= k < |body| - 1 ==> !(body[k] == STAR && body[k + 1] == SLASH)
    ensures SkipBlock(t, i) == i + |body| + 2
    decreases body
  {
    hide At;
    var all := body + [STAR, SLASH];
    AtIndex(t, i, all, 0);
    AtIndex(t, i, all, 1);
    if body != [] {
      assert all == [body[0]] + (body[1..] + [STAR, SLASH]);
      AtSplit(t, i, [body[0]], body[1..] + [STAR, SLASH]);
      forall k | 0 <= k < |body[1..]| - 1 ensures !(body[1..][k] == STAR && body[1..][k + 1] == SLASH) {
        assert !(body[k + 1] == STAR && body[k + 2] == SLASH);
      }
      BlockIsSkipped(t, i + 1, body[1..]);
    }
  }

  lemma {:induction false} LineRunsOut(t: seq<byte>, i: nat)
    requires forall k :: i <= k < |t| ==> t[k] != NEWLINE
    ensures SkipLine(t, i) >= |t|
    decreases |t| - i
  {
    if i < |t| { LineRunsOut(t, i + 1); }
  }

  lemma {:induction false} BlockRunsOut(t: seq<byte>, i: nat)
    requires forall k :: i <= k < |t| - 1 ==> !(t[k] == STAR && t[k + 1] == SLASH)
    ensures SkipBlock(t, i) >= |t|
    decreases |t| - i
  {
    if i < |t| { BlockRunsOut(t, i + 1); }
  }

  /** Slashes that begin no whole comment: one by itself goes alone, and a comment without an end takes the rest. */
  lemma LooseSlashGoes(t: seq<byte>, i: nat)
    requires i < |t| && t[i] == SLASH
    ensures Look(t, i + 1) != SLASH && Look(t, i + 1) != STAR ==> Minified(t, i) == Minified(t, i + 1)
    ensures Look(t, i + 1) == SLASH && (forall k :: i + 2 <= k < |t| ==> t[k] != NEWLINE) ==> Minified(t, i) == []
    ensures Look(t, i + 1) == STAR && (forall k :: i + 2 <= k < |t| - 1 ==> !(t[k] == STAR && t[k + 1] == SLASH))
            ==> Minified(t, i) == []
  {
    if forall k :: i + 2 <= k < |t| ==> t[k] != NEWLINE { LineRunsOut(t, i + 2); }
    if forall k :: i + 2 <= k < |t| - 1 ==> !(t[k] == STAR && t[k + 1] == SLASH) { BlockRunsOut(t, i + 2); }
  }

  lemma FillerGoes(t: seq<byte>, i: nat, f: Filler)
    requires At(t, i, FillerText(f)) && FillerOk(f, true)
    ensures Becomes(t, i, FillerText(f), [])
  {
    hide At;
    match f
    case White(b) =>
      AtByte(t, i, b);
    case LineComment(body) =>
      AtSplit(t, i, [SLASH, SLASH], body + [NEWLINE]);
      AtIndex(t, i, [SLASH, SLASH], 0);
      AtIndex(t, i, [SLASH, SLASH], 1);
      LineIsSkipped(t, i + 2, body);
    case BlockComment(body) =>
      AtSplit(t, i, [SLASH, STAR], body + [STAR, SLASH]);
      AtIndex(t, i, [SLASH, STAR], 0);
      AtIndex(t, i, [SLASH, STAR], 1);
      BlockIsSkipped(t, i + 2, body);
  }

  lemma {:induction false} GapGoes(t: seq<byte>, i: nat, g: Gap)
    requires At(t, i, GapText(g)) && GapOk(g, true)
    ensures Becomes(t, i, GapText(g), [])
    decreases g
  {
    hide At, Becomes, FillerText, FillerOk;
    if g == [] {
      NothingBecomes(t, i);
    } else {
      AtSplit(t, i, FillerText(g[0]), GapText(g[1..]));
      FillerGoes(t, i, g[0]);
      GapGoes(t, i + |FillerText(g[0])|, g[1..]);
      var none: seq<byte> := [];
      BothBecome(t, i, FillerText(g[0]), none, GapText(g[1..]), none);
      assert none + none == none;
    }
  }

  // ---- Strings stay ----

  lemma HexIsCopied(n: nat, c: Capitals)
    requires n < 0x1_0000
    ensures QUOTE !in [LOWER_U] + Hex4(n, c) && BACKSLASH !in [LOWER_U] + Hex4(n, c)
  {
    HexIsRead(n / 0x1000, c.first);
    HexIsRead(n / 0x100 % 16, c.second);
    HexIsRead(n / 16 % 16, c.third);
    HexIsRead(n % 16, c.fourth);
  }

  lemma NumberStays(t: seq<byte>, i: nat, n: nat, c: Capitals)
    requires n < 0x1_0000 && At(t, i, [BACKSLASH, LOWER_U] + Hex4(n, c))
    ensures InString(t, i) == [BACKSLASH, LOWER_U] + Hex4(n, c) + InString(t, i + 6)
  {
    hide At, InString, Hex4;
    var u := [LOWER_U] + Hex4(n, c);
    HexIsCopied(n, c);
    assert [BACKSLASH, LOWER_U] + Hex4(n, c) == [BACKSLASH] + u;
    AtSplit(t, i, [BACKSLASH], u);
    AtByte(t, i, BACKSLASH);
    AtHead(t, i + 1, u);
    CopyByte(t, i);
    CopyBytes(t, i + 1, u);
    assert [BACKSLASH] + (u + InString(t, i + 6)) == ([BACKSLASH] + u) + InString(t, i + 6);
  }

  /** One character of a string is copied, unless it is an escaped backslash in front of the closing quote. */
  lemma CharStays(t: seq<byte>, i: nat, ch: Char)
    requires CharOk(ch) && At(t, i, CharText(ch)) && (ch == Short(BACKSLASH) ==> Look(t, i + 2) != QUOTE)
    ensures InString(t, i) == CharText(ch) + InString(t, i + |CharText(ch)|)
  {
    hide At, InString;
    match ch
    case Plain(b) =>
      AtByte(t, i, b);
      CopyByte(t, i);
    case Short(letter) =>
      AtIndex(t, i, CharText(ch), 0);
      AtIndex(t, i, CharText(ch), 1);
      if letter == QUOTE {
        CopyPair(t, i);
      } else {
        CopyByte(t, i);
        CopyByte(t, i + 1);
        assert [BACKSLASH] + ([letter] + InString(t, i + 2)) == [BACKSLASH, letter] + InString(t, i + 2);
      }
    case Numbered(n, c) =>
      NumberStays(t, i, n, c);
    case Paired(cp, high, low) =>
      PairStays(t, i, cp, high, low);
  }

  lemma PairStays(t: seq<byte>, i: nat, cp: nat, high: Capitals, low: Capitals)
    requires CharOk(Paired(cp, high, low)) && At(t, i, CharText(Paired(cp, high, low)))
    ensures InString(t, i) == CharText(Paired(cp, high, low)) + InString(t, i + 12)
  {
    hide At, InString, Hex4;
    var h, l := 0xD800 + (cp - 0x1_0000) / 0x400, 0xDC00 + (cp - 0x1_0000) % 0x400;
    var a, b := [BACKSLASH, LOWER_U] + Hex4(h, high), [BACKSLASH, LOWER_U] + Hex4(l, low);
    AtSplit(t, i, a, b);
    NumberStays(t, i, h, high);
    NumberStays(t, i + 6, l, low);
    assert a + (b + InString(t, i + 12)) == (a + b) + InString(t, i + 12);
  }

  lemma {:induction false} CharsStay(t: seq<byte>, i: nat, chars: seq<Char>)
    requires CharsOk(chars) && At(t, i, CharsText(chars)) && At(t, i + |CharsText(chars)|, [QUOTE]) && CleanChars(chars)
    ensures InString(t, i) == CharsText(chars) + ([QUOTE] + Minified(t, i + |CharsText(chars)| + 1))
    decreases chars
  {
    hide CharText, Minified, InString, At;
    if chars == [] {
      AtByte(t, i, QUOTE);
      QuoteEnds(t, i);
      assert [] + ([QUOTE] + Minified(t, i + 1)) == [QUOTE] + Minified(t, i + 1);
    } else {
      var j := i + |CharText(chars[0])|;
      AtSplit(t, i, CharText(chars[0]), CharsText(chars[1..]));
      if chars[0] == Short(BACKSLASH) {
        assert chars[1..] != [];
        AtHead(t, j, CharsText(chars[1..]));
        ShortText(BACKSLASH);
      }
      CharStays(t, i, chars[0]);
      CharsStay(t, j, chars[1..]);
      var rest := [QUOTE] + Minified(t, i + |CharsText(chars)| + 1);
      assert CharText(chars[0]) + (CharsText(chars[1..]) + rest) == CharsText(chars) + rest;
    }
  }

  lemma ShortText(letter: byte)
    requires letter in SHORT_FORMS
    ensures CharText(Short(letter)) == [BACKSLASH, letter]
  {
  }

  lemma TextStays(t: seq<byte>, i: nat, chars: seq<Char>)
    requires CharsOk(chars) && At(t, i, StringText(chars)) && CleanChars(chars)
    ensures Becomes(t, i, StringText(chars), StringText(chars))
  {
    hide CharsText, Minified, InString, At, CleanChars;
    var e := CharsText(chars);
    AtSplit(t, i, [QUOTE], e + [QUOTE]);
    AtSplit(t, i + 1, e, [QUOTE]);
    AtByte(t, i, QUOTE);
    CharsStay(t, i + 1, chars);
    OpenString(t, i, []);
    var rest := Minified(t, i + |e| + 2);
    assert [] + Minified(t, i) == Minified(t, i) && [] + [QUOTE] == [QUOTE];
    assert [QUOTE] + (e + ([QUOTE] + rest)) == StringText(chars) + rest;
  }

  // ---- Values ----

  lemma {:induction false} SourceMinified(x: Source, t: seq<byte>, i: nat)
    requires SourceOk(x) && GapsOk(x, true) && CleanSource(x) && At(t, i, Spelled(x))
    ensures Becomes(t, i, Spelled(x), Spelled(Stripped(x)))
    decreases x, 3
  {
    hide At, Becomes, StringText;
    match x
    case NullWord => PlainStays(t, i, NULL_TEXT);
    case BoolWord(b) => PlainStays(t, i, if b then TRUE_TEXT else FALSE_TEXT);
    case Text(chars) => TextStays(t, i, chars);
    case Array(inner, elements) => ArrayMinified(inner, elements, t, i);
    case Object(inner, entries) => ObjectMinified(inner, entries, t, i);
  }

  /** What stands between two brackets or braces, and these. */
  lemma BracketsStay(t: seq<byte>, i: nat, open: byte, a: seq<byte>, b: seq<byte>, close: byte)
    requires At(t, i, [open] + (a + [close])) && Kept([open]) && Kept([close])
    requires At(t, i + 1, a) ==> Becomes(t, i + 1, a, b)
    ensures Becomes(t, i, [open] + (a + [close]), [open] + (b + [close]))
  {
    hide At, Becomes;
    AtSplit(t, i, [open], a + [close]);
    AtSplit(t, i + 1, a, [close]);
    PlainStays(t, i, [open]);
    PlainStays(t, i + 1 + |a|, [close]);
    BothBecome(t, i + 1, a, b, [close], [close]);
    BothBecome(t, i, [open], [open], a + [close], b + [close]);
  }

  lemma {:induction false} ArrayMinified(inner: Gap, es: seq<Element>, t: seq<byte>, i: nat)
    requires ElementsOk(es) && GapOk(inner, true) && ElementGapsOk(es, true) && CleanElements(es)
    requires At(t, i, Spelled(Array(inner, es)))
    ensures Becomes(t, i, Spelled(Array(inner, es)), Spelled(Stripped(Array(inner, es))))
    decreases es, 2
  {
    hide At, Becomes, GapText, ElementsText;
    NoGapText();
    var a := if es == [] then GapText(inner) else ElementsText(es);
    AtSplit(t, i, [LBRACKET], a + [RBRACKET]);
    AtSplit(t, i + 1, a, [RBRACKET]);
    if es == [] {
      GapGoes(t, i + 1, inner);
      BracketsStay(t, i, LBRACKET, a, [], RBRACKET);
    } else {
      ElementsMinified(es, t, i + 1);
      BracketsStay(t, i, LBRACKET, a, ElementsText(StrippedElements(es)), RBRACKET);
    }
  }

  lemma {:induction false} ElementsMinified(es: seq<Element>, t: seq<byte>, i: nat)
    requires ElementsOk(es) && ElementGapsOk(es, true) && CleanElements(es) && es != [] && At(t, i, ElementsText(es))
    ensures Becomes(t, i, ElementsText(es), ElementsText(StrippedElements(es)))
    decreases es, 1
  {
    hide At, Becomes, GapText, Spelled, Stripped;
    var es' := StrippedElements(es);
    assert es'[1..] == StrippedElements(es[1..]);
    var before, x, x', after := GapText(es[0].before), Spelled(es[0].value), Spelled(es'[0].value), GapText(es[0].after);
    var rest := if |es| == 1 then [] else [COMMA] + ElementsText(es[1..]);
    var rest' := if |es| == 1 then [] else [COMMA] + ElementsText(es'[1..]);
    AtSplit(t, i, before, x + (after + rest));
    var j := i + |before|;
    AtSplit(t, j, x, after + rest);
    AtSplit(t, j + |x|, after, rest);
    var r := j + |x| + |after|;
    GapGoes(t, i, es[0].before);
    SourceMinified(es[0].value, t, j);
    GapGoes(t, j + |x|, es[0].after);
    if |es| == 1 {
      NothingBecomes(t, r);
    } else {
      AtSplit(t, r, [COMMA], ElementsText(es[1..]));
      PlainStays(t, r, [COMMA]);
      ElementsMinified(es[1..], t, r + 1);
      BothBecome(t, r, [COMMA], [COMMA], ElementsText(es[1..]), ElementsText(es'[1..]));
    }
    hide ElementsText;
    BothBecome(t, j + |x|, after, [], rest, rest');
    BothBecome(t, j, x, x', after + rest, [] + rest');
    BothBecome(t, i, before, [], x + (after + rest), x' + ([] + rest'));
    NoGapText();
    ElementsTextHere(es);
    ElementsTextHere(es');
  }

  lemma {:induction false} ObjectMinified(inner: Gap, es: seq<Entry>, t: seq<byte>, i: nat)
    requires EntriesOk(es) && GapOk(inner, true) && EntryGapsOk(es, true) && CleanEntries(es)
    requires At(t, i, Spelled(Object(inner, es)))
    ensures Becomes(t, i, Spelled(Object(inner, es)), Spelled(Stripped(Object(inner, es))))
    decreases es, 5
  {
    hide At, Becomes, GapText, EntriesText;
    NoGapText();
    var a := if es == [] then GapText(inner) else EntriesText(es);
    AtSplit(t, i, [LBRACE], a + [RBRACE]);
    AtSplit(t, i + 1, a, [RBRACE]);
    if es == [] {
      GapGoes(t, i + 1, inner);
      BracketsStay(t, i, LBRACE, a, [], RBRACE);
    } else {
      EntriesMinified(es, t, i + 1);
      BracketsStay(t, i, LBRACE, a, EntriesText(StrippedEntries(es)), RBRACE);
    }
  }

  /** The pieces of an entry, one after the other. */
  lemma PiecesMinified(t: seq<byte>, i: nat, before: seq<byte>, key: seq<byte>, beforeColon: seq<byte>, afterColon: seq<byte>,
                       x: seq<byte>, x': seq<byte>, behind: seq<byte>, behind': seq<byte>)
    requires Becomes(t, i, before, []) && Becomes(t, i + |before|, key, key)
    requires var c := i + |before| + |key|; Becomes(t, c, beforeColon, []) && Becomes(t, c + |beforeColon|, [COLON], [COLON])
    requires var v := i + |before| + |key| + |beforeColon| + 1;
             && Becomes(t, v, afterColon, []) && Becomes(t, v + |afterColon|, x, x')
             && Becomes(t, v + |afterColon| + |x|, behind, behind')
    ensures Becomes(t, i, before + (key + (beforeColon + ([COLON] + (afterColon + (x + behind))))),
                    [] + (key + ([] + ([COLON] + ([] + (x' + behind'))))))
  {
    hide Becomes;
    var k := i + |before|;
    var c := k + |key| + |beforeColon|;
    var v := c + 1 + |afterColon|;
    BothBecome(t, v, x, x', behind, behind');
    BothBecome(t, c + 1, afterColon, [], x + behind, x' + behind');
    BothBecome(t, c, [COLON], [COLON], afterColon + (x + behind), [] + (x' + behind'));
    BothBecome(t, k + |key|, beforeColon, [], [COLON] + (afterColon + (x + behind)), [COLON] + ([] + (x' + behind')));
    BothBecome(t, k, key, key, beforeColon + ([COLON] + (afterColon + (x + behind))), [] + ([COLON] + ([] + (x' + behind'))));
    BothBecome(t, i, before, [], key + (beforeColon + ([COLON] + (afterColon + (x + behind)))),
               key + ([] + ([COLON] + ([] + (x' + behind')))));
  }

  /** An entry up to the end of its value, and what comes behind. */
  function EntryText(e: Entry, behind: seq<byte>): seq<byte>
    requires CharsOk(e.key) && SourceOk(e.value)
  {
    GapText(e.before) + (StringText(e.key) + (GapText(e.beforeColon) + ([COLON] + (GapText(e.afterColon)
    + (Spelled(e.value) + behind)))))
  }

  function StrippedEntry(e: Entry): Entry
    requires SourceOk(e.value)
  {
    Entry([], e.key, [], [], Stripped(e.value), [])
  }

  function RestText(es: seq<Entry>): seq<byte>
    requires EntriesOk(es)
  {
    if es == [] then [] else [COMMA] + EntriesText(es)
  }

  lemma EntriesTextIs(es: seq<Entry>)
    requires EntriesOk(es) && es != []
    ensures EntriesText(es) == EntryText(es[0], GapText(es[0].after) + RestText(es[1..]))
  {
    EntriesTextHere(es);
    assert |es| == 1 <==> es[1..] == [];
  }

  lemma {:induction false} RestMinified(es: seq<Entry>, t: seq<byte>, i: nat)
    requires EntriesOk(es) && EntryGapsOk(es, true) && CleanEntries(es) && At(t, i, RestText(es))
    ensures Becomes(t, i, RestText(es), RestText(StrippedEntries(es)))
    decreases es, 4
  {
    hide At, Becomes, EntriesText;
    if es == [] {
      NothingBecomes(t, i);
    } else {
      AtSplit(t, i, [COMMA], EntriesText(es));
      PlainStays(t, i, [COMMA]);
      EntriesMinified(es, t, i + 1);
      BothBecome(t, i, [COMMA], [COMMA], EntriesText(es), EntriesText(StrippedEntries(es)));
    }
  }

  lemma {:induction false} FirstMinified(es: seq<Entry>, t: seq<byte>, i: nat)
    requires EntriesOk(es) && EntryGapsOk(es, true) && CleanEntries(es) && es != []
    requires At(t, i, EntryText(es[0], GapText(es[0].after) + RestText(es[1..])))
    ensures Becomes(t, i, EntryText(es[0], GapText(es[0].after) + RestText(es[1..])),
                    EntryText(StrippedEntry(es[0]), [] + RestText(StrippedEntries(es[1..]))))
    decreases es, 1
  {
    hide At, Becomes, GapText, Spelled, Stripped, StringText, CleanChars, RestText, StrippedEntries;
    var e, key, x := es[0], StringText(es[0].key), Spelled(es[0].value);
    var before, beforeColon, afterColon := GapText(e.before), GapText(e.beforeColon), GapText(e.afterColon);
    var after, rest, rest' := GapText(e.after), RestText(es[1..]), RestText(StrippedEntries(es[1..]));
    var behind := after + rest;
    var k := i + |before|;
    var c := k + |key| + |beforeColon|;
    var v := c + 1 + |afterColon|;
    AtSplit(t, i, before, key + (beforeColon + ([COLON] + (afterColon + (x + behind)))));
    AtSplit(t, k, key, beforeColon + ([COLON] + (afterColon + (x + behind))));
    AtSplit(t, k + |key|, beforeColon, [COLON] + (afterColon + (x + behind)));
    AtSplit(t, c, [COLON], afterColon + (x + behind));
    AtSplit(t, c + 1, afterColon, x + behind);
    AtSplit(t, v, x, behind);
    AtSplit(t, v + |x|, after, rest);
    GapGoes(t, i, e.before);
    TextStays(t, k, e.key);
    GapGoes(t, k + |key|, e.beforeColon);
    PlainStays(t, c, [COLON]);
    GapGoes(t, c + 1, e.afterColon);
    SourceMinified(e.value, t, v);
    GapGoes(t, v + |x|, e.after);
    RestMinified(es[1..], t, v + |x| + |after|);
    BothBecome(t, v + |x|, after, [], rest, rest');
    NoGapText();
    PiecesMinified(t, i, before, key, beforeColon, afterColon, x, Spelled(Stripped(e.value)), behind, [] + rest');
  }

  lemma {:induction false} EntriesMinified(es: seq<Entry>, t: seq<byte>, i: nat)
    requires EntriesOk(es) && EntryGapsOk(es, true) && CleanEntries(es) && es != [] && At(t, i, EntriesText(es))
    ensures Becomes(t, i, EntriesText(es), EntriesText(StrippedEntries(es)))
    decreases es, 3
  {
    hide At, Becomes, GapText, Spelled, Stripped, StringText, CleanChars, EntriesText, RestText, EntryText;
    var es' := StrippedEntries(es);
    assert es'[0] == StrippedEntry(es[0]) && es'[1..] == StrippedEntries(es[1..]);
    EntriesTextIs(es);
    EntriesTextIs(es');
    NoGapText();
    FirstMinified(es, t, i);
  }

  // ---- Whole texts ----

  /** White space and comments go wherever they stand between tokens, and the tokens stay, in every text in which no string
      ends in an escaped backslash. */
  lemma MinifyKeepsTokens(before: Gap, x: Source, after: Gap)
    requires SourceOk(x) && GapsOk(x, true) && CleanSource(x) && GapOk(before, true) && GapOk(after, true)
    ensures Minified(GapText(before) + (Spelled(x) + GapText(after)), 0) == Spelled(Stripped(x))
  {
    hide Minified, GapText, Spelled, Stripped, At;
    var a, b, c := GapText(before), Spelled(x), GapText(after);
    var t := a + (b + c);
    WholeIsAt(t);
    AtSplit(t, 0, a, b + c);
    AtSplit(t, |a|, b, c);
    GapGoes(t, 0, before);
    SourceMinified(x, t, |a|);
    GapGoes(t, |a| + |b|, after);
    BothBecome(t, |a|, b, Spelled(Stripped(x)), c, []);
    BothBecome(t, 0, a, [], b + c, Spelled(Stripped(x)) + []);
    StringEnds(t, |t|);
    assert ([] + (Spelled(Stripped(x)) + [])) + [] == Spelled(Stripped(x));
  }

  lemma WholeIsAt(t: seq<byte>)
    ensures At(t, 0, t)
  {
    assert t[0..|t|] == t;
  }

  /** A text with comments parses, once minified, as the tree it stands for. */
  lemma CommentedParses(before: Gap, x: Source, after: Gap, requireNullTerminated: bool)
    requires SourceOk(x) && GapsOk(x, true) && CleanSource(x) && GapOk(before, true) && GapOk(after, true)
    ensures var t := Minified(GapText(before) + (Spelled(x) + GapText(after)), 0);
            Parse(t + [NUL], requireNullTerminated) == IfShallow(Meaning(x), Depth(Meaning(x)), 0, |t|)
  {
    hide Minified, Spelled, Stripped, Parse, Meaning, Depth, GapsOk;
    MinifyKeepsTokens(before, x, after);
    var d := Document(false, [], Stripped(x), []);
    NoGapText();
    NoGap();
    assert DocumentText(d) == Spelled(Stripped(x));
    ParsesExactly(d, requireNullTerminated);
  }

  lemma NoGap()
    ensures GapOk([], false)
  {
  }

  // ---- Printed trees ----

  /** No string and no key ends in a backslash. */
  predicate CleanString(s: seq<byte>) {
    s != [] ==> s[|s| - 1] != BACKSLASH
  }

  predicate Clean(v: Json)
    decreases v, 1
  {
    match v
    case Str(s) => CleanString(s)
    case Arr(items) => CleanItems(items)
    case Obj(members) => CleanMembers(members)
    case _ => true
  }

  predicate CleanItems(items: seq<Json>)
    decreases items, 0
  {
    items != [] ==> Clean(items[0]) && CleanItems(items[1..])
  }

  predicate CleanMembers(members: seq<Member>)
    decreases members, 0
  {
    members != [] ==> CleanString(members[0].key) && Clean(members[0].value) && CleanMembers(members[1..])
  }

  lemma {:induction false} CleanStringIs(s: seq<byte>)
    ensures CleanChars(PrintedChars(s)) <==> CleanString(s)
    decreases s
  {
    hide PrintedChar;
    if |s| == 1 {
      OnlyBackslash(s[0]);
      assert PrintedChars(s) == [PrintedChar(s[0])] + PrintedChars(s[1..]);
    } else if s != [] {
      CleanStringIs(s[1..]);
      assert PrintedChars(s)[1..] == PrintedChars(s[1..]);
    }
  }

  lemma OnlyBackslash(b: byte)
    ensures PrintedChar(b) == Short(BACKSLASH) <==> b == BACKSLASH
  {
  }

  lemma {:induction false} CleanIsPrintedClean(v: Json, format: bool, depth: nat)
    requires Clean(v)
    ensures CleanSource(Printed(v, format, depth))
    decreases v, 1
  {
    hide CleanString, CleanChars, PrintedChars;
    match v
    case Str(s) => CleanStringIs(s);
    case Arr(items) => CleanItemsPrintedClean(items, format, depth + 1, true);
    case Obj(members) => CleanMembersPrintedClean(members, format, depth);
    case _ =>
  }

  lemma {:induction false} CleanItemsPrintedClean(items: seq<Json>, format: bool, depth: nat, first: bool)
    requires CleanItems(items)
    ensures CleanElements(PrintedElements(items, format, depth, first))
    decreases items, 0
  {
    hide Clean, CleanSource, Printed;
    if items != [] {
      CleanIsPrintedClean(items[0], format, depth);
      CleanItemsPrintedClean(items[1..], format, depth, false);
      assert PrintedElements(items, format, depth, first)[1..] == PrintedElements(items[1..], format, depth, false);
    }
  }

  lemma {:induction false} CleanMembersPrintedClean(members: seq<Member>, format: bool, depth: nat)
    requires CleanMembers(members)
    ensures CleanEntries(PrintedEntries(members, format, depth))
    decreases members, 0
  {
    hide Clean, CleanSource, Printed, CleanString, CleanChars, PrintedChars;
    if members != [] {
      CleanStringIs(members[0].key);
      CleanIsPrintedClean(members[0].value, format, depth + 1);
      CleanMembersPrintedClean(members[1..], format, depth);
      assert PrintedEntries(members, format, depth)[1..] == PrintedEntries(members[1..], format, depth);
    }
  }

  /** Without its gaps the formatted text is the unformatted one. */
  lemma {:induction false} StrippedIsUnformatted(v: Json, depth: nat, depth': nat)
    ensures Stripped(Printed(v, true, depth)) == Printed(v, false, depth')
    decreases v, 1
  {
    match v
    case Arr(items) => StrippedItems(items, depth + 1, depth' + 1, true);
    case Obj(members) => StrippedMembers(members, depth, depth');
    case _ =>
  }

  lemma {:induction false} StrippedItems(items: seq<Json>, depth: nat, depth': nat, first: bool)
    ensures StrippedElements(PrintedElements(items, true, depth, first)) == PrintedElements(items, false, depth', first)
    decreases items, 0
  {
    hide Printed, Stripped;
    if items != [] {
      StrippedIsUnformatted(items[0], depth, depth');
      StrippedItems(items[1..], depth, depth', false);
      assert PrintedElements(items, true, depth, first)[1..] == PrintedElements(items[1..], true, depth, false);
    }
  }

  lemma {:induction false} StrippedMembers(members: seq<Member>, depth: nat, depth': nat)
    ensures StrippedEntries(PrintedEntries(members, true, depth)) == PrintedEntries(members, false, depth')
    decreases members, 0
  {
    hide Printed, Stripped;
    if members != [] {
      StrippedIsUnformatted(members[0].value, depth + 1, depth' + 1);
      StrippedMembers(members[1..], depth, depth');
      assert PrintedEntries(members, true, depth)[1..] == PrintedEntries(members[1..], true, depth);
    }
  }

  lemma ValueMinified(v: Json, depth: nat, t: seq<byte>, i: nat)
    requires At(t, i, Print(v, true, depth)) && Clean(v)
    ensures Becomes(t, i, Print(v, true, depth), Print(v, false, depth))
  {
    hide At, Becomes, Print, Printed, Spelled, Clean, CleanSource, GapsOk, Stripped;
    PrintIsSpelled(v, true, depth);
    PrintIsSpelled(v, false, depth);
    PrintedGapsOk(v, true, depth, true);
    CleanIsPrintedClean(v, true, depth);
    StrippedIsUnformatted(v, depth, depth);
    SourceMinified(Printed(v, true, depth), t, i);
  }

  lemma StringStays(t: seq<byte>, i: nat, s: seq<byte>)
    requires At(t, i, PrintString(s)) && CleanString(s)
    ensures Becomes(t, i, PrintString(s), PrintString(s))
  {
    hide At, Becomes, PrintString, PrintedChars, StringText, CleanString, CleanChars;
    PrintedStringText(s);
    CleanStringIs(s);
    TextStays(t, i, PrintedChars(s));
  }

  /** One escaped byte inside a string is copied, unless it is a backslash in front of the closing quote. */
  lemma EscapeStays(t: seq<byte>, i: nat, b: byte)
    requires At(t, i, Escape(b)) && (b == BACKSLASH ==> Look(t, i + 2) != QUOTE)
    ensures InString(t, i) == Escape(b) + InString(t, i + |Escape(b)|)
  {
    hide At, InString, Escape, PrintedChar, CharText;
    PrintedCharText(b);
    OnlyBackslash(b);
    CharStays(t, i, PrintedChar(b));
  }

  /** Minifying the formatted print of a tree gives its unformatted print, when no string or key ends in a backslash. */
  lemma FormattedBecomesUnformatted(v: Json)
    requires Clean(v)
    ensures Minified(Print(v, true, 0), 0) == Print(v, false, 0)
  {
    var t := Print(v, true, 0);
    assert At(t, 0, t);
    ValueMinified(v, 0, t, 0);
    StringEnds(t, |t|);
    assert Print(v, false, 0) + [] == Print(v, false, 0);
  }

  /** ["\\", null] formatted: the array of a string that is one backslash, and null. */
  const EXAMPLE: seq<byte> := [LBRACKET, QUOTE, BACKSLASH, BACKSLASH, QUOTE, COMMA, SPACE, 110, 117, 108, 108, RBRACKET]

  lemma ExampleTexts()
    ensures var v := Arr([Str([BACKSLASH]), Null]);
            Print(v, true, 0) == EXAMPLE && |Print(v, false, 0)| == |EXAMPLE| - 1
  {
    var items := [Str([BACKSLASH]), Null];
    assert EscapeAll([BACKSLASH]) == [BACKSLASH, BACKSLASH];
    var s := PrintString([BACKSLASH]);
    assert s == [QUOTE, BACKSLASH, BACKSLASH, QUOTE];
    assert items[1..] == [Null];
    ItemsText(items, true, 1);
    ItemsText(items, false, 1);
    ArrayText(items, true, 0);
    ArrayText(items, false, 0);
    hide EscapeAll, PrintItems, Print;
    OneNull(true);
    OneNull(false);
    assert [LBRACKET] + (s + ([COMMA] + ([SPACE] + NULL_TEXT)) + [RBRACKET]) == EXAMPLE;
  }

  lemma OneNull(format: bool)
    ensures PrintItems([Null], format, 1) == NULL_TEXT && Print(Str([BACKSLASH]), format, 1) == PrintString([BACKSLASH])
  {
  }

  lemma ExampleMinified()
    ensures Minified(EXAMPLE, 0) == EXAMPLE
  {
    hide InString, Minified;
    var t := EXAMPLE;
    assert At(t, 5, t[5..]);
    CopyBytes(t, 5, t[5..]);
    StringEnds(t, 12);
    CopyPair(t, 3);
    CopyByte(t, 2);
    OpenString(t, 1, []);
    MinifiedStep(t, 0, []);
    assert [] + Minified(t, 0) == Minified(t, 0) && [] + Minified(t, 1) == Minified(t, 1);
    assert InString(t, 2) == t[2..];
    assert Minified(t, 1) == t[1..];
  }

  /** The condition is needed: behind a string that ends in a backslash the space after the comma stays. */
  lemma TrailingBackslashKeepsBlank()
    ensures var v := Arr([Str([BACKSLASH]), Null]);
            Minified(Print(v, true, 0), 0) == Print(v, true, 0) != Print(v, false, 0)
  {
    hide Minified, Print;
    ExampleTexts();
    ExampleMinified();
  }
}
