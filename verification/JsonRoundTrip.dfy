/** What is printed is a text of the grammar, laid out in one way, so parsing it gives back the tree. */

module JsonRoundTrip {
  import opened Basics
  import opened JsonText
  import opened JsonParser
  import opened JsonSyntax
  import opened JsonGrammar

  // ---- The layout of printed texts ----

  /** How the printer spells a byte of a string. */
  function PrintedChar(b: byte): (r: Char)
    ensures CharOk(r)
  {
    if b == QUOTE || b == BACKSLASH then Short(b)
    else if b == 8 then Short(98)
    else if b == 9 then Short(116)
    else if b == 10 then Short(110)
    else if b == 12 then Short(102)
    else if b == 13 then Short(114)
    else if b < 32 then Numbered(b, Capitals(false, false, false, false))
    else Plain(b)
  }

  function PrintedChars(s: seq<byte>): (r: seq<Char>)
    ensures CharsOk(r) && |r| == |s|
  {
    if s == [] then [] else [PrintedChar(s[0])] + PrintedChars(s[1..])
  }

  function TabGap(n: nat): Gap {
    if n == 0 then [] else [White(TAB)] + TabGap(n - 1)
  }

  /** In a formatted text a new line, indented by the depth; in an unformatted one nothing. */
  function NewLine(format: bool, depth: nat): Gap {
    if format then [White(NEWLINE)] + TabGap(depth) else []
  }

  function OneBlank(format: bool, b: byte): Gap {
    if format then [White(b)] else []
  }

  /** Formatted, each member of an object stands on a line of its own, one tab deeper than the object, with a tab behind
      its colon, and the closing brace on the line behind; elements of an array follow each other with one space between.
      Unformatted there is nothing between tokens. */
  function Printed(v: Json, format: bool, depth: nat): (r: Source)
    ensures SourceOk(r)
    decreases v, 1
  {
    match v
    case Null => NullWord
    case Bool(b) => BoolWord(b)
    case Str(s) => Text(PrintedChars(s))
    case Arr(items) => Array([], PrintedElements(items, format, depth + 1, true))
    case Obj(members) => Object(NewLine(format, depth), PrintedEntries(members, format, depth))
  }

  function PrintedElements(items: seq<Json>, format: bool, depth: nat, first: bool): (r: seq<Element>)
    ensures ElementsOk(r) && |r| == |items|
    decreases items, 0
  {
    if items == [] then []
    else [Element(OneBlank(format && !first, SPACE), Printed(items[0], format, depth), [])]
         + PrintedElements(items[1..], format, depth, false)
  }

  function PrintedEntries(members: seq<Member>, format: bool, depth: nat): (r: seq<Entry>)
    ensures EntriesOk(r) && |r| == |members|
    decreases members, 0
  {
    if members == [] then []
    else [Entry(NewLine(format, depth + 1), PrintedChars(members[0].key), [], OneBlank(format, TAB),
                Printed(members[0].value, format, depth + 1), if |members| == 1 then NewLine(format, depth) else [])]
         + PrintedEntries(members[1..], format, depth)
  }

  // ---- Its gaps ----

  lemma {:induction false} TabGapText(n: nat, commented: bool)
    ensures GapText(TabGap(n)) == Tabs(n) && GapOk(TabGap(n), commented)
    decreases n
  {
    if n > 0 {
      TabGapText(n - 1, commented);
      assert TabGap(n)[1..] == TabGap(n - 1);
    }
  }

  lemma NewLineText(format: bool, depth: nat, commented: bool)
    ensures GapText(NewLine(format, depth)) == (if format then [NEWLINE] + Tabs(depth) else [])
    ensures GapOk(NewLine(format, depth), commented)
  {
    TabGapText(depth, commented);
    if format { assert NewLine(format, depth)[1..] == TabGap(depth); }
  }

  lemma OneBlankText(format: bool, b: byte, commented: bool)
    requires b == SPACE || b == TAB
    ensures GapText(OneBlank(format, b)) == (if format then [b] else []) && GapOk(OneBlank(format, b), commented)
    ensures GapText([]) == [] && GapOk([], commented)
  {
    if format { assert [White(b)][1..] == [] && [b] + [] == [b]; }
  }

  lemma {:induction false} PrintedGapsOk(v: Json, format: bool, depth: nat, commented: bool)
    ensures GapsOk(Printed(v, format, depth), commented)
    decreases v, 1
  {
    hide GapOk, NewLine;
    OneBlankText(format, TAB, commented);
    match v
    case Arr(items) => ElementGapsPrintedOk(items, format, depth + 1, true, commented);
    case Obj(members) =>
      NewLineText(format, depth, commented);
      EntryGapsPrintedOk(members, format, depth, commented);
    case _ =>
  }

  lemma {:induction false} ElementGapsPrintedOk(items: seq<Json>, format: bool, depth: nat, first: bool, commented: bool)
    ensures ElementGapsOk(PrintedElements(items, format, depth, first), commented)
    decreases items, 0
  {
    hide GapOk, Printed, GapsOk, OneBlank;
    if items != [] {
      OneBlankText(format && !first, SPACE, commented);
      PrintedGapsOk(items[0], format, depth, commented);
      ElementGapsPrintedOk(items[1..], format, depth, false, commented);
      assert PrintedElements(items, format, depth, first)[1..] == PrintedElements(items[1..], format, depth, false);
    }
  }

  lemma {:induction false} EntryGapsPrintedOk(members: seq<Member>, format: bool, depth: nat, commented: bool)
    ensures EntryGapsOk(PrintedEntries(members, format, depth), commented)
    decreases members, 0
  {
    hide GapOk, Printed, GapsOk, OneBlank, NewLine;
    if members != [] {
      OneBlankText(format, TAB, commented);
      NewLineText(format, depth + 1, commented);
      NewLineText(format, depth, commented);
      PrintedGapsOk(members[0].value, format, depth + 1, commented);
      EntryGapsPrintedOk(members[1..], format, depth, commented);
      assert PrintedEntries(members, format, depth)[1..] == PrintedEntries(members[1..], format, depth);
    }
  }

  // ---- What it stands for ----

  lemma PrintedCharMeans(b: byte)
    ensures CharMeaning(PrintedChar(b)) == [b]
  {
  }

  lemma {:induction false} PrintedCharsMean(s: seq<byte>)
    ensures CharsMeaning(PrintedChars(s)) == s
    decreases s
  {
    hide PrintedChar, CharMeaning;
    if s != [] {
      PrintedCharMeans(s[0]);
      PrintedCharsMean(s[1..]);
      assert PrintedChars(s)[1..] == PrintedChars(s[1..]);
      assert [s[0]] + s[1..] == s;
    }
  }

  lemma {:induction false} PrintedMeans(v: Json, format: bool, depth: nat)
    ensures Meaning(Printed(v, format, depth)) == v
    decreases v, 1
  {
    hide PrintedChars, CharsMeaning;
    match v
    case Str(s) => PrintedCharsMean(s);
    case Arr(items) => ElementsMean(items, format, depth + 1, true);
    case Obj(members) => EntriesMean(members, format, depth);
    case _ =>
  }

  lemma {:induction false} ElementsMean(items: seq<Json>, format: bool, depth: nat, first: bool)
    ensures ElementsMeaning(PrintedElements(items, format, depth, first)) == items
    decreases items, 0
  {
    hide Printed, Meaning;
    if items != [] {
      PrintedMeans(items[0], format, depth);
      ElementsMean(items[1..], format, depth, false);
      assert PrintedElements(items, format, depth, first)[1..] == PrintedElements(items[1..], format, depth, false);
      assert [items[0]] + items[1..] == items;
    }
  }

  lemma {:induction false} EntriesMean(members: seq<Member>, format: bool, depth: nat)
    ensures EntriesMeaning(PrintedEntries(members, format, depth)) == members
    decreases members, 0
  {
    hide Printed, Meaning, PrintedChars, CharsMeaning;
    if members != [] {
      PrintedCharsMean(members[0].key);
      PrintedMeans(members[0].value, format, depth + 1);
      EntriesMean(members[1..], format, depth);
      assert PrintedEntries(members, format, depth)[1..] == PrintedEntries(members[1..], format, depth);
      assert [members[0]] + members[1..] == members;
    }
  }

  // ---- Its text ----

  lemma PrintedCharText(b: byte)
    ensures CharText(PrintedChar(b)) == Escape(b)
  {
  }

  lemma {:induction false} PrintedCharsText(s: seq<byte>)
    ensures CharsText(PrintedChars(s)) == EscapeAll(s)
    decreases s
  {
    hide PrintedChar, CharText, Escape;
    if s != [] {
      PrintedCharText(s[0]);
      PrintedCharsText(s[1..]);
      assert PrintedChars(s)[1..] == PrintedChars(s[1..]);
    }
  }

  lemma PrintedStringText(s: seq<byte>)
    ensures StringText(PrintedChars(s)) == PrintString(s)
  {
    hide PrintedChars, CharsText, EscapeAll;
    PrintedCharsText(s);
    assert [QUOTE] + (EscapeAll(s) + [QUOTE]) == ([QUOTE] + EscapeAll(s)) + [QUOTE];
  }

  /** A printed value starts with a character that is not white space. */
  lemma PrintedHead(v: Json, format: bool, depth: nat)
    ensures Print(v, format, depth) != [] && Print(v, format, depth)[0] > 32
  {
  }

  lemma ArrayText(items: seq<Json>, format: bool, depth: nat)
    ensures Print(Arr(items), format, depth) == [LBRACKET] + (PrintItems(items, format, depth + 1) + [RBRACKET])
  {
    hide PrintItems;
    var t := PrintItems(items, format, depth + 1);
    assert ([LBRACKET] + t) + [RBRACKET] == [LBRACKET] + (t + [RBRACKET]);
  }

  function Opening(format: bool): seq<byte> {
    if format then [LBRACE] + [NEWLINE] else [LBRACE]
  }

  lemma ObjectText(members: seq<Member>, format: bool, depth: nat)
    ensures Print(Obj(members), format, depth)
            == Opening(format) + (PrintMembers(members, format, depth + 1) + Closing(format, depth))
  {
    hide PrintMembers, Tabs;
    var t := PrintMembers(members, format, depth + 1);
    assert [LBRACE, NEWLINE] == [LBRACE] + [NEWLINE];
    assert (Opening(format) + t) + Closing(format, depth) == Opening(format) + (t + Closing(format, depth));
  }

  /** The members without the white space in front of the first key. */
  function FromKey(members: seq<Member>, format: bool, depth: nat): seq<byte>
    requires members != []
  {
    PrintString(members[0].key)
    + (KeySeparator(format)
       + (Print(members[0].value, format, depth)
          + (MemberEnd(format, |members| == 1)
             + PrintMembers(members[1..], format, depth))))
  }

  lemma MembersText(members: seq<Member>, format: bool, depth: nat)
    requires members != []
    ensures PrintMembers(members, format, depth) == Indent(format, depth) + FromKey(members, format, depth)
    ensures FromKey(members, format, depth) != [] && FromKey(members, format, depth)[0] == QUOTE
  {
    hide Print, Tabs, EscapeAll;
    assert PrintString(members[0].key)[0] == QUOTE;
  }

  lemma ItemsHead(items: seq<Json>, format: bool, depth: nat)
    requires items != []
    ensures PrintItems(items, format, depth) != [] && PrintItems(items, format, depth)[0] > 32
    ensures PrintItems(items, format, depth)[0] != RBRACKET
  {
    PrintedHead(items[0], format, depth);
    PrintedNotClosing(items[0], format, depth);
  }

  lemma PrintedNotClosing(v: Json, format: bool, depth: nat)
    ensures Print(v, format, depth)[0] != RBRACKET && Print(v, format, depth)[0] != RBRACE
  {
  }

  lemma ItemsText(items: seq<Json>, format: bool, depth: nat)
    requires |items| > 1
    ensures PrintItems(items, format, depth)
            == Print(items[0], format, depth) + ([COMMA] + ((if format then [SPACE] else []) + PrintItems(items[1..], format, depth)))
  {
    hide Print;
    var rest := PrintItems(items[1..], format, depth);
    assert [COMMA, SPACE] + rest == [COMMA] + ([SPACE] + rest);
    assert [COMMA] + rest == [COMMA] + ([] + rest);
  }

  lemma NoMembersText(members: seq<Member>, format: bool, depth: nat)
    requires members == []
    ensures PrintMembers(members, format, depth) == []
  {
  }

  /** Where the closing brace of an object stands, behind its members. */
  function Closing(format: bool, depth: nat): seq<byte> {
    if format then Tabs(depth) + [RBRACE] else [RBRACE]
  }

  /** What the printer writes is the text of this layout. */
  lemma {:induction false} PrintIsSpelled(v: Json, format: bool, depth: nat)
    ensures Print(v, format, depth) == Spelled(Printed(v, format, depth))
    decreases v, 1
  {
    hide PrintItems, PrintMembers, PrintString, PrintedChars, StringText;
    match v
    case Str(s) => PrintedStringText(s);
    case Arr(items) => ArrayIsSpelled(items, format, depth);
    case Obj(members) => ObjectIsSpelled(members, format, depth);
    case _ =>
  }

  lemma {:induction false} ArrayIsSpelled(items: seq<Json>, format: bool, depth: nat)
    ensures Print(Arr(items), format, depth) == Spelled(Printed(Arr(items), format, depth))
    decreases items, 2
  {
    hide Print, PrintItems, ElementsText, PrintedElements;
    ArrayText(items, format, depth);
    OneBlankText(false, TAB, false);
    if items == [] {
      NoItemsText(items, format, depth + 1);
    } else {
      ItemsAreSpelled(items, format, depth + 1, true);
    }
  }

  lemma NoItemsText(items: seq<Json>, format: bool, depth: nat)
    requires items == []
    ensures PrintItems(items, format, depth) == []
  {
  }

  lemma {:induction false} ItemsAreSpelled(items: seq<Json>, format: bool, depth: nat, first: bool)
    requires items != []
    ensures ElementsText(PrintedElements(items, format, depth, first))
            == (if format && !first then [SPACE] else []) + PrintItems(items, format, depth)
    decreases items, 0
  {
    hide Print, Printed, Spelled, GapText, OneBlank;
    var es, text := PrintedElements(items, format, depth, first), Print(items[0], format, depth);
    OneBlankText(format && !first, SPACE, false);
    PrintIsSpelled(items[0], format, depth);
    assert es[1..] == PrintedElements(items[1..], format, depth, false);
    if |items| == 1 {
      assert FromElement(es) == text + ([] + []) == text;
    } else {
      ItemsAreSpelled(items[1..], format, depth, false);
      hide PrintItems, ElementsText;
      ItemsText(items, format, depth);
      assert FromElement(es) == text + ([] + ([COMMA] + ElementsText(es[1..])));
      assert [] + ([COMMA] + ElementsText(es[1..])) == [COMMA] + ElementsText(es[1..]);
      assert ElementsText(es) == GapText(es[0].before) + FromElement(es) by { ElementsTextHere(es); }
    }
  }

  lemma ElementsTextHere(es: seq<Element>)
    requires ElementsOk(es) && es != []
    ensures ElementsText(es) == GapText(es[0].before) + FromElement(es)
  {
  }

  function LineBreak(format: bool): seq<byte> {
    if format then [NEWLINE] else []
  }

  lemma NewLineIs(format: bool, depth: nat)
    ensures GapText(NewLine(format, depth)) == LineBreak(format) + Indent(format, depth)
  {
    NewLineText(format, depth, false);
  }

  lemma ObjectSpelledHere(inner: Gap, es: seq<Entry>)
    requires EntriesOk(es)
    ensures Spelled(Object(inner, es)) == [LBRACE] + ((if es == [] then GapText(inner) else EntriesText(es)) + [RBRACE])
  {
  }

  lemma Braces(format: bool, depth: nat, t: seq<byte>)
    ensures Opening(format) + (t + Closing(format, depth))
            == [LBRACE] + ((LineBreak(format) + (t + Indent(format, depth))) + [RBRACE])
  {
    hide Tabs;
    assert Opening(format) == [LBRACE] + LineBreak(format) && Closing(format, depth) == Indent(format, depth) + [RBRACE];
  }

  lemma {:induction false} ObjectIsSpelled(members: seq<Member>, format: bool, depth: nat)
    ensures Print(Obj(members), format, depth) == Spelled(Printed(Obj(members), format, depth))
    decreases members, 2
  {
    ObjectText(members, format, depth);
    assert Printed(Obj(members), format, depth) == Object(NewLine(format, depth), PrintedEntries(members, format, depth));
    hide Print, Printed, PrintMembers, EntriesText, PrintedEntries, NewLine, GapText, Tabs, Spelled, Opening, Closing, Indent;
    ObjectSpelledHere(NewLine(format, depth), PrintedEntries(members, format, depth));
    NewLineIs(format, depth);
    Braces(format, depth, PrintMembers(members, format, depth + 1));
    if members == [] {
      NoMembersText(members, format, depth + 1);
      assert [] + Indent(format, depth) == Indent(format, depth);
    } else {
      MembersAreSpelled(members, format, depth);
    }
  }

  /** What stands behind a value in an object. */
  lemma {:induction false} BehindIsSpelled(members: seq<Member>, format: bool, depth: nat)
    requires members != []
    ensures var es := PrintedEntries(members, format, depth);
            GapText(es[0].after) + (if |es| == 1 then [] else [COMMA] + EntriesText(es[1..]))
            == MemberEnd(format, |members| == 1) + (PrintMembers(members[1..], format, depth + 1) + Indent(format, depth))
    decreases members, 0
  {
    var es, rest := PrintedEntries(members, format, depth), PrintMembers(members[1..], format, depth + 1);
    assert es[1..] == PrintedEntries(members[1..], format, depth);
    OneBlankText(false, TAB, false);
    NewLineIs(format, depth);
    if |members| == 1 {
      NoMembersText(members[1..], format, depth + 1);
      hide PrintMembers, EntriesText, PrintedEntries, NewLine, GapText, Indent;
      assert MemberEnd(format, true) == LineBreak(format) && [] + Indent(format, depth) == Indent(format, depth);
    } else {
      MembersAreSpelled(members[1..], format, depth);
      hide PrintMembers, EntriesText, PrintedEntries, NewLine, GapText, Indent;
      assert MemberEnd(format, false) == [COMMA] + LineBreak(format);
      Regroup([COMMA], LineBreak(format), rest + Indent(format, depth));
      assert [] + ([COMMA] + EntriesText(es[1..])) == [COMMA] + EntriesText(es[1..]);
    }
  }

  lemma Regroup(a: seq<byte>, b: seq<byte>, c: seq<byte>)
    ensures (a + b) + c == a + (b + c)
  {
  }

  /** The members, with the line break in front of the first and the indentation of the closing brace. */
  lemma {:induction false} MembersAreSpelled(members: seq<Member>, format: bool, depth: nat)
    requires members != []
    ensures EntriesText(PrintedEntries(members, format, depth))
            == LineBreak(format) + (PrintMembers(members, format, depth + 1) + Indent(format, depth))
    decreases members, 1
  {
    var es, m := PrintedEntries(members, format, depth), members[0];
    assert es[0] == Entry(NewLine(format, depth + 1), PrintedChars(m.key), [], OneBlank(format, TAB),
                          Printed(m.value, format, depth + 1), if |members| == 1 then NewLine(format, depth) else []);
    BehindIsSpelled(members, format, depth);
    PrintIsSpelled(m.value, format, depth + 1);
    MembersTextHere(members, format, depth + 1);
    hide Print, Printed, Spelled, GapText, OneBlank, NewLine, Tabs, StringText, PrintString, PrintedChars, PrintMembers, EntriesText,
         Indent, PrintedEntries, MemberEnd, LineBreak, KeySeparator;
    OneBlankText(format, TAB, false);
    NewLineIs(format, depth + 1);
    PrintedStringText(m.key);
    Assembled(es, LineBreak(format), Indent(format, depth + 1), PrintString(m.key), GapText(OneBlank(format, TAB)),
              Print(m.value, format, depth + 1), MemberEnd(format, |members| == 1), PrintMembers(members[1..], format, depth + 1),
              Indent(format, depth));
  }

  lemma MembersTextHere(members: seq<Member>, format: bool, depth: nat)
    requires members != []
    ensures var m, tab := members[0], GapText(OneBlank(format, TAB));
            PrintMembers(members, format, depth)
            == Indent(format, depth)
               + (PrintString(m.key) + (([COLON] + tab) + (Print(m.value, format, depth)
                  + (MemberEnd(format, |members| == 1) + PrintMembers(members[1..], format, depth)))))
  {
    OneBlankText(format, TAB, false);
    MembersText(members, format, depth);
    hide Print, PrintMembers, PrintString, Indent, MemberEnd, Tabs, GapText, OneBlank;
    assert KeySeparator(format) == [COLON] + GapText(OneBlank(format, TAB));
  }

  lemma Assembled(es: seq<Entry>, lead: seq<byte>, indent: seq<byte>, key: seq<byte>, tab: seq<byte>, value: seq<byte>,
                  end: seq<byte>, rest: seq<byte>, tabs: seq<byte>)
    requires EntriesOk(es) && es != []
    requires GapText(es[0].before) == lead + indent && StringText(es[0].key) == key && GapText(es[0].beforeColon) == []
    requires GapText(es[0].afterColon) == tab && Spelled(es[0].value) == value
    requires GapText(es[0].after) + (if |es| == 1 then [] else [COMMA] + EntriesText(es[1..])) == end + (rest + tabs)
    ensures EntriesText(es) == lead + ((indent + (key + (([COLON] + tab) + (value + (end + rest))))) + tabs)
  {
    EntriesTextHere(es);
    hide EntriesText, GapText, StringText, Spelled, EntriesOk;
    MemberSpelled(lead, indent, key, tab, value, end, rest, tabs,
                  GapText(es[0].after) + (if |es| == 1 then [] else [COMMA] + EntriesText(es[1..])));
  }

  lemma EntriesTextHere(es: seq<Entry>)
    requires EntriesOk(es) && es != []
    ensures EntriesText(es) == GapText(es[0].before)
            + (StringText(es[0].key) + (GapText(es[0].beforeColon) + ([COLON] + (GapText(es[0].afterColon)
            + (Spelled(es[0].value) + (GapText(es[0].after) + if |es| == 1 then [] else [COMMA] + EntriesText(es[1..])))))))
  {
  }

  lemma MemberSpelled(lead: seq<byte>, indent: seq<byte>, key: seq<byte>, tab: seq<byte>, value: seq<byte>, end: seq<byte>,
                      rest: seq<byte>, tabs: seq<byte>, behind: seq<byte>)
    requires end + (rest + tabs) == behind
    ensures (lead + indent) + (key + ([] + ([COLON] + (tab + (value + behind)))))
            == lead + ((indent + (key + (([COLON] + tab) + (value + (end + rest))))) + tabs)
  {
    assert end + (rest + tabs) == (end + rest) + tabs;
    assert value + ((end + rest) + tabs) == (value + (end + rest)) + tabs;
    var t := value + (end + rest);
    assert [COLON] + (tab + (t + tabs)) == (([COLON] + tab) + t) + tabs;
    var u := ([COLON] + tab) + t;
    assert key + (u + tabs) == (key + u) + tabs && [] + (u + tabs) == u + tabs;
    assert (lead + indent) + ((key + u) + tabs) == lead + ((indent + (key + u)) + tabs);
  }

  // ---- There and back ----

  lemma ParsePrintedString(c: seq<byte>, o: nat, s: seq<byte>)
    requires At(c, o, PrintString(s))
    ensures o < |c| && ParseString(c, o) == Parsed(s, o + |PrintString(s)|)
  {
    hide At, PrintString, PrintedChars, StringText, ParseString;
    PrintedStringText(s);
    PrintedCharsMean(s);
    StringIsRead(c, o, PrintedChars(s));
  }

  lemma ParsePrinted(v: Json, format: bool, printDepth: nat, c: seq<byte>, o: nat, depth: nat)
    requires At(c, o, Print(v, format, printDepth)) && depth + Depth(v) <= NESTING_LIMIT
    ensures ParseValue(c, o, depth) == Parsed(v, o + |Print(v, format, printDepth)|)
  {
    hide At, Print, Printed, Spelled, ParseValue, Depth, Meaning, GapsOk;
    PrintIsSpelled(v, format, printDepth);
    PrintedMeans(v, format, printDepth);
    PrintedGapsOk(v, format, printDepth, false);
    SourceIsRead(Printed(v, format, printDepth), c, o, depth);
  }

  /** A tree, printed in either way and parsed, comes back whole and uses up the whole text if and only if it is nested
      within the limit, and is refused otherwise. */
  lemma RoundTripsWithinLimit(v: Json, format: bool, requireNullTerminated: bool)
    ensures Parse(Print(v, format, 0) + [NUL], requireNullTerminated) ==
            if Depth(v) <= NESTING_LIMIT then Parsed(v, |Print(v, format, 0)|) else Failed
  {
    hide Print, Printed, Spelled, Parse, Depth, Meaning, GapsOk;
    var d := Document(false, [], Printed(v, format, 0), []);
    PrintIsSpelled(v, format, 0);
    PrintedMeans(v, format, 0);
    PrintedGapsOk(v, format, 0, false);
    NoGapText();
    OneBlankText(false, TAB, false);
    assert DocumentText(d) == Print(v, format, 0);
    ParsesExactly(d, requireNullTerminated);
  }
}
