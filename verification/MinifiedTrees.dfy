/** Exactly which trees cJSON_Minify takes from their formatted to their unformatted text. A string that ends in a
    backslash leaves the minifier inside a string; that does no harm only if nothing but closing brackets follows. */

module MinifiedTrees {
  import opened Basics
  import opened JsonText
  import opened JsonParser
  import opened JsonSyntax
  import opened JsonRoundTrip
  import opened JsonMinify
  import opened MinifiedTexts

  /** No key, and no string but one with which the whole text ends, up to brackets, ends in a backslash. */
  predicate Harmless(v: Json)
    decreases v, 1
  {
    match v
    case Arr(items) => HarmlessItems(items)
    case Obj(members) => CleanMembers(members)
    case _ => true
  }

  predicate HarmlessItems(items: seq<Json>)
    decreases items, 0
  {
    if items == [] then true
    else if |items| == 1 then Harmless(items[0])
    else Clean(items[0]) && HarmlessItems(items[1..])
  }

  lemma {:induction false} CleanIsHarmless(v: Json)
    requires Clean(v)
    ensures Harmless(v)
    decreases v, 1
  {
    match v
    case Arr(items) => CleanItemsAreHarmless(items);
    case _ =>
  }

  lemma {:induction false} CleanItemsAreHarmless(items: seq<Json>)
    requires CleanItems(items)
    ensures HarmlessItems(items)
    decreases items, 0
  {
    if items != [] {
      CleanIsHarmless(items[0]);
      CleanItemsAreHarmless(items[1..]);
    }
  }

  // ---- Texts that come to differ ----

  /** Behind some common beginning the two texts go on with different bytes. */
  predicate Diverges(a: seq<byte>, b: seq<byte>) {
    a != [] && b != [] && (a[0] != b[0] || Diverges(a[1..], b[1..]))
  }

  lemma {:induction false} DivergesDiffers(a: seq<byte>, b: seq<byte>)
    requires Diverges(a, b)
    ensures a != b
    decreases a
  {
    if a[0] == b[0] { DivergesDiffers(a[1..], b[1..]); }
  }

  lemma {:induction false} DivergesBehind(p: seq<byte>, a: seq<byte>, b: seq<byte>)
    requires Diverges(a, b)
    ensures Diverges(p + a, p + b)
    decreases p
  {
    if p == [] {
      assert p + a == a && p + b == b;
    } else {
      DivergesBehind(p[1..], a, b);
      assert (p + a)[1..] == p[1..] + a && (p + b)[1..] == p[1..] + b;
    }
  }

  lemma {:induction false} DivergesBefore(a: seq<byte>, b: seq<byte>, more: seq<byte>)
    requires Diverges(a, b)
    ensures Diverges(a, b + more)
    decreases a
  {
    assert (b + more)[0] == b[0];
    if a[0] == b[0] {
      DivergesBefore(a[1..], b[1..], more);
      assert (b + more)[1..] == b[1..] + more;
    }
  }

  // ---- The two ways to go wrong ----

  /** The text at i, which is `from`, becomes `to`, but the minifier is still inside a string behind it. */
  predicate Dangles(t: seq<byte>, i: nat, from: seq<byte>, to: seq<byte>) {
    Minified(t, i) == to + InString(t, i + |from|)
  }

  lemma BecomesThenDangles(t: seq<byte>, i: nat, a: seq<byte>, a': seq<byte>, b: seq<byte>, b': seq<byte>)
    requires Becomes(t, i, a, a') && Dangles(t, i + |a|, b, b')
    ensures Dangles(t, i, a + b, a' + b')
  {
    hide Minified, InString;
    assert a' + (b' + InString(t, i + |a + b|)) == (a' + b') + InString(t, i + |a + b|);
  }

  lemma BecomesThenDiverges(t: seq<byte>, i: nat, a: seq<byte>, a': seq<byte>, x: seq<byte>)
    requires Becomes(t, i, a, a') && Diverges(Minified(t, i + |a|), x)
    ensures Diverges(Minified(t, i), a' + x)
  {
    hide Minified, Diverges;
    DivergesBehind(a', Minified(t, i + |a|), x);
  }

  /** Inside a string a blank is kept where the unformatted text goes on. */
  lemma DanglesThenDiverges(t: seq<byte>, i: nat, a: seq<byte>, a': seq<byte>, s: seq<byte>, blank: byte, x: seq<byte>)
    requires Dangles(t, i, a, a') && At(t, i + |a|, s + [blank])
    requires QUOTE !in s && BACKSLASH !in s && Blank(blank) && x != [] && !Blank(x[0])
    ensures Diverges(Minified(t, i), a' + (s + x))
  {
    hide Minified, InString, At;
    var j := i + |a|;
    AtSplit(t, j, s, [blank]);
    CopyBytes(t, j, s);
    AtByte(t, j + |s|, blank);
    CopyByte(t, j + |s|);
    var rest := [blank] + InString(t, j + |s| + 1);
    assert InString(t, j) == s + rest;
    assert Diverges(rest, x);
    DivergesBehind(s, rest, x);
    DivergesBehind(a', s + rest, s + x);
  }

  // ---- Strings ----

  lemma EscapeHead(b: byte)
    ensures Escape(b) != [] && Escape(b)[0] != QUOTE
  {
  }

  lemma BackslashEscape()
    ensures Escape(BACKSLASH) == [BACKSLASH, BACKSLASH]
  {
  }

  lemma {:induction false} EscapedDangles(t: seq<byte>, i: nat, s: seq<byte>)
    requires At(t, i, EscapeAll(s)) && At(t, i + |EscapeAll(s)|, [QUOTE]) && !CleanString(s)
    ensures InString(t, i) == EscapeAll(s) + ([QUOTE] + InString(t, i + |EscapeAll(s)| + 1))
    decreases s
  {
    hide Escape, Minified, InString, At;
    var j, rest := i + |Escape(s[0])|, [QUOTE] + InString(t, i + |EscapeAll(s)| + 1);
    AtSplit(t, i, Escape(s[0]), EscapeAll(s[1..]));
    BackslashEscape();
    if |s| == 1 {
      assert s[1..] == [] && EscapeAll(s) == [BACKSLASH, BACKSLASH];
      LastBackslash(t, i);
      assert [BACKSLASH] + ([BACKSLASH, QUOTE] + InString(t, i + 3)) == [BACKSLASH, BACKSLASH] + rest;
    } else {
      if s[0] == BACKSLASH {
        EscapeHead(s[1]);
        AtHead(t, j, EscapeAll(s[1..]));
      }
      EscapeStays(t, i, s[0]);
      EscapedDangles(t, j, s[1..]);
      assert Escape(s[0]) + (EscapeAll(s[1..]) + rest) == EscapeAll(s) + rest;
    }
  }

  /** An escaped backslash and a quote: the quote is taken for escaped. */
  lemma LastBackslash(t: seq<byte>, i: nat)
    requires At(t, i, [BACKSLASH, BACKSLASH]) && At(t, i + 2, [QUOTE])
    ensures InString(t, i) == [BACKSLASH] + ([BACKSLASH, QUOTE] + InString(t, i + 3))
  {
    hide InString, At;
    assert [BACKSLASH, BACKSLASH] == [BACKSLASH] + [BACKSLASH];
    AtSplit(t, i, [BACKSLASH], [BACKSLASH]);
    AtByte(t, i, BACKSLASH);
    AtByte(t, i + 1, BACKSLASH);
    AtByte(t, i + 2, QUOTE);
    CopyByte(t, i);
    CopyPair(t, i + 1);
  }

  lemma StringDangles(t: seq<byte>, i: nat, s: seq<byte>)
    requires At(t, i, PrintString(s)) && !CleanString(s)
    ensures Dangles(t, i, PrintString(s), PrintString(s))
  {
    hide EscapeAll, Minified, InString, At, CleanString;
    var e := EscapeAll(s);
    assert PrintString(s) == [QUOTE] + (e + [QUOTE]);
    AtSplit(t, i, [QUOTE], e + [QUOTE]);
    AtSplit(t, i + 1, e, [QUOTE]);
    AtByte(t, i, QUOTE);
    EscapedDangles(t, i + 1, s);
    OpenString(t, i, []);
    var rest := InString(t, i + |e| + 2);
    assert [] + Minified(t, i) == Minified(t, i) && [] + [QUOTE] == [QUOTE];
    assert [QUOTE] + (e + ([QUOTE] + rest)) == PrintString(s) + rest;
  }

  // ---- Trees ----

  lemma {:induction false} TabsBlank(n: nat)
    ensures AllBlank(Tabs(n))
    decreases n
  {
    if n > 0 { TabsBlank(n - 1); }
  }

  lemma ColonMinified(t: seq<byte>, i: nat)
    requires At(t, i, [COLON, TAB])
    ensures Becomes(t, i, [COLON, TAB], [COLON])
  {
    hide At, Becomes;
    assert [COLON, TAB] == [COLON] + [TAB] && [COLON] == [COLON] + [];
    AtSplit(t, i, [COLON], [TAB]);
    PlainStays(t, i, [COLON]);
    BlankGoes(t, i + 1, [TAB]);
    BothBecome(t, i, [COLON], [COLON], [TAB], []);
  }

  lemma EndMinified(t: seq<byte>, i: nat, last: bool)
    requires At(t, i, MemberEnd(true, last))
    ensures Becomes(t, i, MemberEnd(true, last), MemberEnd(false, last))
  {
    hide At, Becomes;
    if last {
      assert MemberEnd(true, last) == [NEWLINE] && MemberEnd(false, last) == [];
      BlankGoes(t, i, [NEWLINE]);
    } else {
      assert MemberEnd(true, last) == [COMMA] + [NEWLINE] && MemberEnd(false, last) == [COMMA] + [];
      AtSplit(t, i, [COMMA], [NEWLINE]);
      PlainStays(t, i, [COMMA]);
      BlankGoes(t, i + 1, [NEWLINE]);
      BothBecome(t, i, [COMMA], [COMMA], [NEWLINE], []);
    }
  }

  lemma {:induction false} ValueUnclean(v: Json, depth: nat, t: seq<byte>, i: nat)
    requires At(t, i, Print(v, true, depth)) && !Clean(v)
    ensures Harmless(v) ==> Dangles(t, i, Print(v, true, depth), Print(v, false, depth))
    ensures !Harmless(v) ==> Diverges(Minified(t, i), Print(v, false, depth))
    decreases v, 1
  {
    hide At, Dangles, Diverges, Minified, PrintItems, PrintMembers, PrintString, CleanString, CleanItems,
         CleanMembers, HarmlessItems, Tabs;
    match v
    case Str(s) => StringDangles(t, i, s);
    case Arr(items) => ArrayUnclean(items, depth, t, i);
    case Obj(members) => ObjectUnclean(members, depth, t, i);
    case _ => assert false;
  }

  lemma {:induction false} ArrayUnclean(items: seq<Json>, depth: nat, t: seq<byte>, i: nat)
    requires At(t, i, Print(Arr(items), true, depth)) && !CleanItems(items)
    ensures HarmlessItems(items) ==> Dangles(t, i, Print(Arr(items), true, depth), Print(Arr(items), false, depth))
    ensures !HarmlessItems(items) ==> Diverges(Minified(t, i), Print(Arr(items), false, depth))
    decreases items, 2
  {
    hide At, Becomes, Dangles, Diverges, Minified, Print, PrintItems, CleanItems, HarmlessItems;
    var a, b := PrintItems(items, true, depth + 1), PrintItems(items, false, depth + 1);
    ArrayText(items, true, depth);
    ArrayText(items, false, depth);
    AtSplit(t, i, [LBRACKET], a + [RBRACKET]);
    AtSplit(t, i + 1, a, [RBRACKET]);
    PlainStays(t, i, [LBRACKET]);
    ItemsUnclean(items, depth + 1, t, i + 1);
    if HarmlessItems(items) {
      DanglesOn(t, i + 1, a, b, [RBRACKET]);
      BecomesThenDangles(t, i, [LBRACKET], [LBRACKET], a + [RBRACKET], b + [RBRACKET]);
    } else {
      DivergesBefore(Minified(t, i + 1), b, [RBRACKET]);
      BecomesThenDiverges(t, i, [LBRACKET], [LBRACKET], b + [RBRACKET]);
    }
  }

  /** Inside a string other bytes are copied. */
  lemma DanglesOn(t: seq<byte>, i: nat, a: seq<byte>, a': seq<byte>, s: seq<byte>)
    requires Dangles(t, i, a, a') && At(t, i + |a|, s) && QUOTE !in s && BACKSLASH !in s
    ensures Dangles(t, i, a + s, a' + s)
  {
    hide Minified, InString, At;
    CopyBytes(t, i + |a|, s);
    assert a' + (s + InString(t, i + |a + s|)) == (a' + s) + InString(t, i + |a + s|);
  }

  lemma {:induction false} ItemsUnclean(items: seq<Json>, depth: nat, t: seq<byte>, i: nat)
    requires At(t, i, PrintItems(items, true, depth)) && !CleanItems(items)
    ensures HarmlessItems(items) ==> Dangles(t, i, PrintItems(items, true, depth), PrintItems(items, false, depth))
    ensures !HarmlessItems(items) ==> Diverges(Minified(t, i), PrintItems(items, false, depth))
    decreases items, 0
  {
    hide At, Becomes, Dangles, Diverges, Minified, Print, Clean, Harmless;
    if |items| == 1 {
      assert items[1..] == [];
      ValueUnclean(items[0], depth, t, i);
    } else {
      hide PrintItems;
      var first, first' := Print(items[0], true, depth), Print(items[0], false, depth);
      var rest, rest' := PrintItems(items[1..], true, depth), PrintItems(items[1..], false, depth);
      ItemsText(items, true, depth);
      ItemsText(items, false, depth);
      assert [] + rest' == rest';
      var j := i + |first|;
      AtSplit(t, i, first, [COMMA] + ([SPACE] + rest));
      AtSplit(t, j, [COMMA], [SPACE] + rest);
      AtSplit(t, j + 1, [SPACE], rest);
      if Clean(items[0]) {
        ValueMinified(items[0], depth, t, i);
        PlainStays(t, j, [COMMA]);
        BlankGoes(t, j + 1, [SPACE]);
        ItemsUnclean(items[1..], depth, t, j + 2);
        BothBecome(t, j, [COMMA], [COMMA], [SPACE], []);
        BothBecome(t, i, first, first', [COMMA] + [SPACE], [COMMA] + []);
        var before, before' := first + ([COMMA] + [SPACE]), first' + ([COMMA] + []);
        assert before + rest == first + ([COMMA] + ([SPACE] + rest)) && before' + rest' == first' + ([COMMA] + rest');
        if HarmlessItems(items[1..]) {
          BecomesThenDangles(t, i, before, before', rest, rest');
        } else {
          BecomesThenDiverges(t, i, before, before', rest');
        }
      } else {
        ValueUnclean(items[0], depth, t, i);
        if Harmless(items[0]) {
          AtSplit(t, j, [COMMA], [SPACE]);
          ItemsHead(items[1..], false, depth);
          DanglesThenDiverges(t, i, first, first', [COMMA], SPACE, rest');
        } else {
          DivergesBefore(Minified(t, i), first', [COMMA] + rest');
        }
      }
    }
  }

  lemma {:induction false} ObjectUnclean(members: seq<Member>, depth: nat, t: seq<byte>, i: nat)
    requires At(t, i, Print(Obj(members), true, depth)) && !CleanMembers(members)
    ensures Diverges(Minified(t, i), Print(Obj(members), false, depth))
    decreases members, 2
  {
    hide At, Becomes, Diverges, Minified, Print, PrintMembers, CleanMembers, Tabs;
    var a, b := PrintMembers(members, true, depth + 1), PrintMembers(members, false, depth + 1);
    ObjectText(members, true, depth);
    ObjectText(members, false, depth);
    var closing := Tabs(depth) + [RBRACE];
    assert [] + [RBRACE] == [RBRACE] && [LBRACE] + [] == [LBRACE];
    AtSplit(t, i, [LBRACE] + [NEWLINE], a + closing);
    AtSplit(t, i, [LBRACE], [NEWLINE]);
    PlainStays(t, i, [LBRACE]);
    BlankGoes(t, i + 1, [NEWLINE]);
    BothBecome(t, i, [LBRACE], [LBRACE], [NEWLINE], []);
    MembersUnclean(members, depth + 1, depth, t, i + 2);
    BecomesThenDiverges(t, i, [LBRACE] + [NEWLINE], [LBRACE], b + [RBRACE]);
  }

  /** The members together with the closing brace: what follows the last value is blank. */
  lemma {:induction false} MembersUnclean(members: seq<Member>, depth: nat, outer: nat, t: seq<byte>, i: nat)
    requires At(t, i, PrintMembers(members, true, depth) + (Tabs(outer) + [RBRACE])) && !CleanMembers(members)
    ensures Diverges(Minified(t, i), PrintMembers(members, false, depth) + [RBRACE])
    decreases members, 0
  {
    hide At, Becomes, Dangles, Diverges, Minified, Print, Clean, Harmless, CleanString, PrintString, PrintMembers, Tabs;
    var m, last := members[0], |members| == 1;
    var closing := Tabs(outer) + [RBRACE];
    var rest, rest' := PrintMembers(members[1..], true, depth) + closing, PrintMembers(members[1..], false, depth) + [RBRACE];
    var key, value, value' := PrintString(m.key), Print(m.value, true, depth), Print(m.value, false, depth);
    var end, end' := MemberEnd(true, last), MemberEnd(false, last);
    MemberText(members, true, depth, closing);
    MemberText(members, false, depth, [RBRACE]);
    var k := i + |Tabs(depth)|;
    AtSplit(t, i, Tabs(depth), key + ([COLON, TAB] + (value + (end + rest))));
    AtSplit(t, k, key, [COLON, TAB] + (value + (end + rest)));
    AtSplit(t, k + |key|, [COLON, TAB], value + (end + rest));
    var v := k + |key| + 2;
    AtSplit(t, v, value, end + rest);
    AtSplit(t, v + |value|, end, rest);
    TabsBlank(depth);
    BlankGoes(t, i, Tabs(depth));
    PrintedHead(m.value, false, depth);
    if !CleanString(m.key) {
      StringDangles(t, k, m.key);
      assert [COLON, TAB] == [COLON] + [TAB];
      DanglesThenDiverges(t, k, key, key, [COLON], TAB, value' + (end' + rest'));
    } else {
      StringStays(t, k, m.key);
      ColonMinified(t, k + |key|);
      MemberValueUnclean(members, depth, outer, t, v);
      BecomesThenDiverges(t, k + |key|, [COLON, TAB], [COLON], value' + (end' + rest'));
      BecomesThenDiverges(t, k, key, key, [COLON] + (value' + (end' + rest')));
    }
    BecomesThenDiverges(t, i, Tabs(depth), [], key + ([COLON] + (value' + (end' + rest'))));
  }

  /** A member list and what follows it, from the first member's parts. */
  lemma MemberText(members: seq<Member>, format: bool, depth: nat, closing: seq<byte>)
    requires members != []
    ensures PrintMembers(members, format, depth) + closing ==
            Indent(format, depth) + (PrintString(members[0].key) + (KeySeparator(format) + (Print(members[0].value, format, depth)
              + (MemberEnd(format, |members| == 1) + (PrintMembers(members[1..], format, depth) + closing)))))
  {
    hide Print, PrintString, Tabs, MemberEnd, KeySeparator, Indent;
    Reassociated(Indent(format, depth), PrintString(members[0].key), KeySeparator(format),
                 Print(members[0].value, format, depth), MemberEnd(format, |members| == 1),
                 PrintMembers(members[1..], format, depth), closing);
  }

  lemma Reassociated(a: seq<byte>, b: seq<byte>, c: seq<byte>, d: seq<byte>, e: seq<byte>, f: seq<byte>, g: seq<byte>)
    ensures (a + (b + (c + (d + (e + f))))) + g == a + (b + (c + (d + (e + (f + g)))))
  {
    Associates(e, f, g);
    Associates(d, e + f, g);
    Associates(c, d + (e + f), g);
    Associates(b, c + (d + (e + f)), g);
    Associates(a, b + (c + (d + (e + f))), g);
  }

  /** From the value of the first member on, when its key is clean. */
  lemma {:induction false} MemberValueUnclean(members: seq<Member>, depth: nat, outer: nat, t: seq<byte>, v: nat)
    requires members != [] && CleanString(members[0].key) && !CleanMembers(members)
    requires At(t, v, Print(members[0].value, true, depth))
    requires At(t, v + |Print(members[0].value, true, depth)|, MemberEnd(true, |members| == 1))
    requires At(t, v + |Print(members[0].value, true, depth)| + |MemberEnd(true, |members| == 1)|,
                PrintMembers(members[1..], true, depth) + (Tabs(outer) + [RBRACE]))
    ensures Diverges(Minified(t, v),
                     Print(members[0].value, false, depth)
                     + (MemberEnd(false, |members| == 1) + (PrintMembers(members[1..], false, depth) + [RBRACE])))
    decreases members, -1
  {
    hide At, Becomes, Dangles, Diverges, Minified, Print, Clean, Harmless, CleanString, PrintString, PrintMembers, Tabs;
    var m, last := members[0], |members| == 1;
    var value, value' := Print(m.value, true, depth), Print(m.value, false, depth);
    var end, end' := MemberEnd(true, last), MemberEnd(false, last);
    var rest' := PrintMembers(members[1..], false, depth) + [RBRACE];
    if Clean(m.value) {
      ValueMinified(m.value, depth, t, v);
      EndMinified(t, v + |value|, last);
      BothBecome(t, v, value, value', end, end');
      MembersUnclean(members[1..], depth, outer, t, v + |value| + |end|);
      BecomesThenDiverges(t, v, value + end, value' + end', rest');
      assert (value' + end') + rest' == value' + (end' + rest');
    } else {
      ValueUnclean(m.value, depth, t, v);
      if Harmless(m.value) {
        EndDiverges(members, depth, t, v, value, value');
      } else {
        DivergesBefore(Minified(t, v), value', end' + rest');
      }
    }
  }

  lemma EndDiverges(members: seq<Member>, depth: nat, t: seq<byte>, v: nat, value: seq<byte>, value': seq<byte>)
    requires members != [] && Dangles(t, v, value, value') && At(t, v + |value|, MemberEnd(true, |members| == 1))
    ensures Diverges(Minified(t, v),
                     value' + (MemberEnd(false, |members| == 1) + (PrintMembers(members[1..], false, depth) + [RBRACE])))
  {
    hide At, Dangles, Diverges, Minified, PrintMembers;
    var rest' := PrintMembers(members[1..], false, depth) + [RBRACE];
    if |members| == 1 {
      NoMembersText(members[1..], false, depth);
      assert MemberEnd(true, true) == [] + [NEWLINE] && MemberEnd(false, true) == [];
      DanglesThenDiverges(t, v, value, value', [], NEWLINE, rest');
    } else {
      MembersText(members[1..], false, depth);
      assert MemberEnd(true, false) == [COMMA] + [NEWLINE] && MemberEnd(false, false) == [COMMA];
      DanglesThenDiverges(t, v, value, value', [COMMA], NEWLINE, rest');
    }
  }

  /** Minifying the formatted text of a tree gives its unformatted text if and only if the tree is harmless. */
  lemma MinifiesExactlyHarmless(v: Json)
    ensures Minified(Print(v, true, 0), 0) == Print(v, false, 0) <==> Harmless(v)
  {
    hide Minified, InString, Print, Diverges;
    var t := Print(v, true, 0);
    if Clean(v) {
      CleanIsHarmless(v);
      FormattedBecomesUnformatted(v);
    } else {
      assert At(t, 0, t);
      ValueUnclean(v, 0, t, 0);
      if Harmless(v) {
        StringEnds(t, |t|);
        assert Print(v, false, 0) + [] == Print(v, false, 0);
      } else {
        DivergesDiffers(Minified(t, 0), Print(v, false, 0));
      }
    }
  }
}
