/** cJSON_Minify: white space and comments are taken out of a text in place. */

module JsonMinify {
  import opened Basics
  import opened JsonText
  import opened JsonParser
  import opened JsonSyntax

  /** The byte at i of a C string. */
  function Look(t: seq<byte>, i: nat): byte {
    if i < |t| then t[i] else NUL
  }

  function SkipLine(t: seq<byte>, i: nat): (r: nat)
    ensures i <= r
    decreases |t| - i
  {
    if i >= |t| then i else if t[i] == NEWLINE then i + 1 else SkipLine(t, i + 1)
  }

  function SkipBlock(t: seq<byte>, i: nat): (r: nat)
    ensures i <= r
    decreases |t| - i
  {
    if i >= |t| then i else if t[i] == STAR && Look(t, i + 1) == SLASH then i + 2 else SkipBlock(t, i + 1)
  }

  predicate Blank(b: byte) {
    b == SPACE || b == TAB || b == 13 || b == NEWLINE
  }

  /** What is left of the text from i on. */
  function Minified(t: seq<byte>, i: nat): seq<byte>
    decreases |t| - i, 1
  {
    if i >= |t| then []
    else if Blank(t[i]) then Minified(t, i + 1)
    else if t[i] == SLASH then
      if Look(t, i + 1) == SLASH then Minified(t, SkipLine(t, i + 2))
      else if Look(t, i + 1) == STAR then Minified(t, SkipBlock(t, i + 2))
      else Minified(t, i + 1)
    else if t[i] == QUOTE then [QUOTE] + InString(t, i + 1)
    else [t[i]] + Minified(t, i + 1)
  }

  /** The same from inside a string; only a quote directly behind a backslash is taken for escaped. */
  function InString(t: seq<byte>, i: nat): seq<byte>
    decreases |t| - i, 0
  {
    if i >= |t| then []
    else if t[i] == QUOTE then [QUOTE] + Minified(t, i + 1)
    else if t[i] == BACKSLASH && Look(t, i + 1) == QUOTE then [BACKSLASH, QUOTE] + InString(t, i + 2)
    else [t[i]] + InString(t, i + 1)
  }

  // ---- In place ----

  /** The text still to be read lies untouched behind what has been written. */
  ghost predicate Ahead(json: array<byte>, t: seq<byte>, into: nat, from: nat)
    reads json
  {
    json.Length == |t| + 1 && into <= from <= |t| && json[from..] == t[from..] + [NUL]
  }

  lemma AheadAt(json: array<byte>, t: seq<byte>, into: nat, from: nat)
    requires Ahead(json, t, into, from)
    ensures json[from] == Look(t, from)
    ensures from < |t| ==> json[from + 1] == Look(t, from + 1)
  {
    assert json[from] == json[from..][0];
    if from < |t| { assert json[from + 1] == json[from..][1]; }
  }

  lemma AheadBounds(json: array<byte>, t: seq<byte>, into: nat, from: nat)
    requires Ahead(json, t, into, from)
    ensures into <= from <= |t| == json.Length - 1
  {
  }

  lemma AheadLater(json: array<byte>, t: seq<byte>, into: nat, from: nat, later: nat)
    requires Ahead(json, t, into, from) && from <= later <= |t|
    ensures Ahead(json, t, into, later)
  {
    assert json[later..] == json[from..][later - from..];
    assert (t[from..] + [NUL])[later - from..] == t[later..] + [NUL];
  }

  /** One byte written at or behind the read position. */
  method Store(json: array<byte>, into: nat, from: nat, b: byte, ghost t: seq<byte>)
    requires Ahead(json, t, into, from) && from < |t|
    modifies json
    ensures Ahead(json, t, into + 1, from + 1) && json[..into + 1] == old(json[..into]) + [b]
    ensures into < from ==> Ahead(json, t, into + 1, from)
  {
    AheadLater(json, t, into, from, from + 1);
    ghost var rest, all := json[from + 1..], json[from..];
    json[into] := b;
    assert json[from + 1..] == rest;
    if into < from { assert json[from..] == all; }
  }

  /** skip_oneline_comment */
  method SkipOnelineComment(json: array<byte>, from: nat, ghost into: nat, ghost t: seq<byte>) returns (next: nat)
    requires Ahead(json, t, into, from) && NulFree(t) && from + 2 <= |t|
    ensures next == SkipLine(t, from + 2) <= |t| && Ahead(json, t, into, next)
  {
    next := from + 2;
    AheadLater(json, t, into, from, next);
    AheadAt(json, t, into, next);
    while json[next] != NUL
      invariant from + 2 <= next <= |t| && Ahead(json, t, into, next)
      invariant SkipLine(t, next) == SkipLine(t, from + 2)
      decreases |t| - next
    {
      AheadAt(json, t, into, next);
      AheadLater(json, t, into, next, next + 1);
      if json[next] == NEWLINE {
        next := next + 1;
        return;
      }
      next := next + 1;
    }
    AheadAt(json, t, into, next);
  }

  /** skip_multiline_comment */
  method SkipMultilineComment(json: array<byte>, from: nat, ghost into: nat, ghost t: seq<byte>) returns (next: nat)
    requires Ahead(json, t, into, from) && NulFree(t) && from + 2 <= |t|
    ensures next == SkipBlock(t, from + 2) <= |t| && Ahead(json, t, into, next)
  {
    next := from + 2;
    AheadLater(json, t, into, from, next);
    while json[next] != NUL
      invariant from + 2 <= next <= |t| && Ahead(json, t, into, next)
      invariant SkipBlock(t, next) == SkipBlock(t, from + 2)
      decreases |t| - next
    {
      AheadAt(json, t, into, next);
      if json[next] == STAR && json[next + 1] == SLASH {
        AheadLater(json, t, into, next, next + 2);
        next := next + 2;
        return;
      }
      AheadLater(json, t, into, next, next + 1);
      next := next + 1;
    }
    AheadAt(json, t, into, next);
  }

  /** One round of minify_string's loop: a byte, or an escaped quote with its backslash. */
  method StringByte(json: array<byte>, from: nat, into: nat, ghost t: seq<byte>)
    returns (from': nat, into': nat, closed: bool)
    requires Ahead(json, t, into, from) && NulFree(t) && from < |t|
    modifies json
    ensures from < from' <= |t| && Ahead(json, t, into', from')
    ensures json[..into'] + (if closed then Minified(t, from') else InString(t, from'))
            == old(json[..into]) + InString(t, from)
  {
    hide Minified, InString, Ahead;
    AheadBounds(json, t, into, from);
    AheadAt(json, t, into, from);
    StringStep(t, from, json[..into]);
    var c, d := json[from], json[from + 1];
    Store(json, into, from, c, t);
    from', into', closed := from + 1, into + 1, c == QUOTE;
    if c == BACKSLASH && d == QUOTE {
      AheadAt(json, t, into', from');
      Store(json, into', from', json[from'], t);
      from', into' := from' + 1, into' + 1;
    }
    AheadBounds(json, t, into', from');
  }

  /** minify_string: both positions move on together, to behind the closing quote or to the end. */
  method MinifyString(json: array<byte>, from: nat, into: nat, ghost t: seq<byte>) returns (from': nat, into': nat)
    requires Ahead(json, t, into, from) && NulFree(t) && from < |t| && t[from] == QUOTE
    modifies json
    ensures from < from' <= |t| && Ahead(json, t, into', from')
    ensures json[..into'] + Minified(t, from') == old(json[..into]) + Minified(t, from)
  {
    hide Minified, InString, Ahead;
    AheadBounds(json, t, into, from);
    ghost var goal := json[..into] + Minified(t, from);
    AheadAt(json, t, into, from);
    OpenString(t, from, json[..into]);
    Store(json, into, from, json[from], t);
    from', into' := from + 1, into + 1;
    var closed := false;
    AheadBounds(json, t, into', from');
    AheadAt(json, t, into', from');
    while !closed && json[from'] != NUL
      invariant into' <= from' <= |t| == json.Length - 1 && from < from' && Ahead(json, t, into', from')
      invariant json[..into'] + (if closed then Minified(t, from') else InString(t, from')) == goal
      decreases |t| - from'
    {
      AheadAt(json, t, into', from');
      from', into', closed := StringByte(json, from', into', t);
      AheadBounds(json, t, into', from');
    }
    if !closed {
      AheadAt(json, t, into', from');
      StringEnds(t, from');
    }
  }

  lemma OpenString(t: seq<byte>, i: nat, done: seq<byte>)
    requires i < |t| && t[i] == QUOTE
    ensures done + Minified(t, i) == done + [QUOTE] + InString(t, i + 1)
  {
  }

  lemma StringStep(t: seq<byte>, i: nat, done: seq<byte>)
    requires i < |t|
    ensures t[i] == QUOTE ==> done + InString(t, i) == done + [QUOTE] + Minified(t, i + 1)
    ensures t[i] == BACKSLASH && Look(t, i + 1) == QUOTE ==>
              i + 2 <= |t| && done + InString(t, i) == done + [BACKSLASH] + [QUOTE] + InString(t, i + 2)
    ensures t[i] != QUOTE && !(t[i] == BACKSLASH && Look(t, i + 1) == QUOTE) ==>
              done + InString(t, i) == done + [t[i]] + InString(t, i + 1)
  {
    hide Minified, InString;
    InStringHere(t, i);
    Associates(done, [QUOTE], Minified(t, i + 1));
    Associates(done, [t[i]], InString(t, i + 1));
    Associates(done + [BACKSLASH], [QUOTE], InString(t, i + 2));
    Associates(done, [BACKSLASH], [QUOTE]);
    Associates(done, [BACKSLASH, QUOTE], InString(t, i + 2));
    assert [BACKSLASH, QUOTE] == [BACKSLASH] + [QUOTE];
  }

  lemma Associates(a: seq<byte>, b: seq<byte>, c: seq<byte>)
    ensures a + b + c == a + (b + c)
  {
  }

  lemma InStringHere(t: seq<byte>, i: nat)
    requires i < |t|
    ensures InString(t, i) ==
            if t[i] == QUOTE then [QUOTE] + Minified(t, i + 1)
            else if t[i] == BACKSLASH && Look(t, i + 1) == QUOTE then [BACKSLASH, QUOTE] + InString(t, i + 2)
            else [t[i]] + InString(t, i + 1)
    ensures Look(t, i + 1) == QUOTE ==> i + 2 <= |t|
  {
    hide Minified;
  }

  lemma StringEnds(t: seq<byte>, i: nat)
    requires i == |t|
    ensures InString(t, i) == [] == Minified(t, i)
  {
  }

  lemma MinifiedStep(t: seq<byte>, i: nat, done: seq<byte>)
    requires i < |t| && t[i] != QUOTE
    ensures Blank(t[i]) ==> Minified(t, i) == Minified(t, i + 1)
    ensures t[i] == SLASH && Look(t, i + 1) == SLASH ==> Minified(t, i) == Minified(t, SkipLine(t, i + 2))
    ensures t[i] == SLASH && Look(t, i + 1) == STAR ==> Minified(t, i) == Minified(t, SkipBlock(t, i + 2))
    ensures t[i] == SLASH && Look(t, i + 1) != SLASH && Look(t, i + 1) != STAR ==> Minified(t, i) == Minified(t, i + 1)
    ensures !Blank(t[i]) && t[i] != SLASH ==> done + Minified(t, i) == done + [t[i]] + Minified(t, i + 1)
  {
  }

  /** cJSON_Minify */
  method Minify(json: array<byte>, ghost t: seq<byte>) returns (into: nat)
    requires NulFree(t) && json[..] == t + [NUL]
    modifies json
    ensures into <= |t| && json.Length == |t| + 1 && json[..into] == Minified(t, 0) && json[into] == NUL
  {
    hide Minified, InString;
    var from := 0;
    into := 0;
    assert json[0..] == json[..] && json[..0] == [] && t[0..] == t;
    assert [] + Minified(t, 0) == Minified(t, 0);
    while json[from] != NUL
      invariant Ahead(json, t, into, from)
      invariant json[..into] + Minified(t, from) == Minified(t, 0)
      decreases |t| - from
    {
      AheadAt(json, t, into, from);
      if json[from] == QUOTE {
        from, into := MinifyString(json, from, into, t);
      } else {
        MinifiedStep(t, from, json[..into]);
        if Blank(json[from]) {
          AheadLater(json, t, into, from, from + 1);
          from := from + 1;
        } else if json[from] == SLASH {
          if json[from + 1] == SLASH {
            from := SkipOnelineComment(json, from, into, t);
          } else if json[from + 1] == STAR {
            from := SkipMultilineComment(json, from, into, t);
          } else {
            AheadLater(json, t, into, from, from + 1);
            from := from + 1;
          }
        } else {
          Store(json, into, from, json[from], t);
          from, into := from + 1, into + 1;
        }
      }
    }
    AheadAt(json, t, into, from);
    StringEnds(t, from);
    assert json[..into] + [] == json[..into];
    ghost var done := json[..into];
    json[into] := NUL;
    assert json[..into] == done;
  }

  // ---- Pieces of text ----

  /** Bytes copied outside strings. */
  predicate Kept(s: seq<byte>) {
    forall k :: 0 <= k < |s| ==> !Blank(s[k]) && s[k] != SLASH && s[k] != QUOTE
  }

  predicate AllBlank(s: seq<byte>) {
    forall k :: 0 <= k < |s| ==> Blank(s[k])
  }

  /** The text at i, which is `from`, becomes `to`, and minifying goes on behind it. */
  predicate Becomes(t: seq<byte>, i: nat, from: seq<byte>, to: seq<byte>) {
    Minified(t, i) == to + Minified(t, i + |from|)
  }

  lemma {:induction false} PlainStays(t: seq<byte>, i: nat, s: seq<byte>)
    requires At(t, i, s) && Kept(s)
    ensures Becomes(t, i, s, s)
    decreases s
  {
    if s != [] {
      AtSplit(t, i, [s[0]], s[1..]);
      assert [s[0]] + s[1..] == s;
      AtByte(t, i, s[0]);
      PlainStays(t, i + 1, s[1..]);
      assert [s[0]] + (s[1..] + Minified(t, i + |s|)) == s + Minified(t, i + |s|);
    }
  }

  lemma {:induction false} BlankGoes(t: seq<byte>, i: nat, s: seq<byte>)
    requires At(t, i, s) && AllBlank(s)
    ensures Becomes(t, i, s, [])
    decreases s
  {
    if s != [] {
      AtSplit(t, i, [s[0]], s[1..]);
      assert [s[0]] + s[1..] == s;
      AtByte(t, i, s[0]);
      BlankGoes(t, i + 1, s[1..]);
    }
  }

  lemma BothBecome(t: seq<byte>, i: nat, a: seq<byte>, a': seq<byte>, b: seq<byte>, b': seq<byte>)
    requires Becomes(t, i, a, a') && Becomes(t, i + |a|, b, b')
    ensures Becomes(t, i, a + b, a' + b')
  {
    hide Minified;
    assert a' + (b' + Minified(t, i + |a + b|)) == (a' + b') + Minified(t, i + |a + b|);
  }

  /** A byte inside a string that is neither a quote nor in front of one behind a backslash. */
  lemma CopyByte(t: seq<byte>, i: nat)
    requires i < |t| && t[i] != QUOTE && !(t[i] == BACKSLASH && Look(t, i + 1) == QUOTE)
    ensures InString(t, i) == [t[i]] + InString(t, i + 1)
  {
  }

  lemma CopyPair(t: seq<byte>, i: nat)
    requires i + 1 < |t| && t[i] == BACKSLASH && t[i + 1] == QUOTE
    ensures InString(t, i) == [BACKSLASH, QUOTE] + InString(t, i + 2)
  {
  }

  lemma {:induction false} CopyBytes(t: seq<byte>, i: nat, s: seq<byte>)
    requires At(t, i, s) && QUOTE !in s && BACKSLASH !in s
    ensures InString(t, i) == s + InString(t, i + |s|)
    decreases s
  {
    hide InString, At;
    if s != [] {
      assert s == [s[0]] + s[1..];
      AtSplit(t, i, [s[0]], s[1..]);
      AtByte(t, i, s[0]);
      CopyByte(t, i);
      CopyBytes(t, i + 1, s[1..]);
      assert [s[0]] + (s[1..] + InString(t, i + |s|)) == s + InString(t, i + |s|);
    } else {
      assert s + InString(t, i) == InString(t, i);
    }
  }

  lemma QuoteEnds(t: seq<byte>, i: nat)
    requires i < |t| && t[i] == QUOTE
    ensures InString(t, i) == [QUOTE] + Minified(t, i + 1)
  {
  }

  lemma NothingBecomes(t: seq<byte>, i: nat)
    ensures Becomes(t, i, [], [])
  {
    assert [] + Minified(t, i) == Minified(t, i);
  }
}
