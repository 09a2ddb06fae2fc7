/** The printer as it runs: every write goes into room that `ensure` granted. */

module JsonPrinter {
  import opened Basics
  import opened JsonText

  const INT_MAX: nat := 0x7FFF_FFFF

  // ---- Facts about the printed texts ----

  lemma {:induction false} EscapedNulFree(s: seq<byte>)
    requires NulFree(s)
    ensures NulFree(EscapeAll(s))
    decreases s
  {
    if s != [] { EscapedNulFree(s[1..]); }
  }

  lemma {:induction false} TabsNulFree(n: nat)
    ensures NulFree(Tabs(n)) && |Tabs(n)| == n
    decreases n
  {
    if n > 0 { TabsNulFree(n - 1); }
  }

  lemma Concat(a: seq<byte>, b: seq<byte>)
    requires NulFree(a) && NulFree(b)
    ensures NulFree(a + b)
  {
  }

  /** The text of a tree of C strings is a C string. */
  lemma {:induction false} PrintedNulFree(v: Json, format: bool, depth: nat)
    requires CStrings(v)
    ensures NulFree(Print(v, format, depth))
    decreases v, 1
  {
    hide PrintItems, PrintMembers, PrintString, Tabs;
    match v
    case Null =>
    case Bool(_) =>
    case Str(s) => KeyNulFree(s);
    case Arr(items) =>
      ItemsNulFree(items, format, depth + 1);
      Concat([LBRACKET], PrintItems(items, format, depth + 1));
    case Obj(members) =>
      MembersNulFree(members, format, depth + 1);
      TabsNulFree(depth);
      Concat(if format then [LBRACE, NEWLINE] else [LBRACE], PrintMembers(members, format, depth + 1));
      Concat(Tabs(depth), [RBRACE]);
  }

  lemma {:induction false} ItemsNulFree(items: seq<Json>, format: bool, depth: nat)
    requires ItemsCStrings(items)
    ensures NulFree(PrintItems(items, format, depth))
    decreases items, 0
  {
    hide Print;
    if items != [] {
      PrintedNulFree(items[0], format, depth);
      ItemsNulFree(items[1..], format, depth);
    }
  }

  lemma {:induction false} MembersNulFree(members: seq<Member>, format: bool, depth: nat)
    requires MembersCStrings(members)
    ensures NulFree(PrintMembers(members, format, depth))
    decreases members, 0
  {
    hide Print, EscapeAll, Tabs;
    if members != [] {
      var m := members[0];
      var key, colon, value, after, rest := PrintString(m.key), KeySeparator(format), Print(m.value, format, depth),
                                            MemberEnd(format, |members| == 1), PrintMembers(members[1..], format, depth);
      TabsNulFree(depth);
      EscapedNulFree(m.key);
      PrintedNulFree(m.value, format, depth);
      MembersNulFree(members[1..], format, depth);
      hide PrintString;
      Concat(after, rest);
      Concat(value, after + rest);
      Concat(colon, value + (after + rest));
      Concat(key, colon + (value + (after + rest)));
      Concat(Indent(format, depth), key + (colon + (value + (after + rest))));
    }
  }

  /** Additional characters the first loop of print_string_ptr counts for one byte. */
  function Extra(b: byte): nat {
    if b == QUOTE || b == BACKSLASH || b == 8 || b == 12 || b == NEWLINE || b == 13 || b == TAB then 1
    else if b < 32 then 5
    else 0
  }

  function ExtraAll(s: seq<byte>): nat {
    if s == [] then 0 else Extra(s[0]) + ExtraAll(s[1..])
  }

  lemma {:induction false} EscapedLength(s: seq<byte>)
    ensures |EscapeAll(s)| == |s| + ExtraAll(s)
    ensures ExtraAll(s) == 0 ==> EscapeAll(s) == s
    decreases s
  {
    if s != [] { EscapedLength(s[1..]); }
  }

  lemma {:induction false} EscapeAppend(s: seq<byte>, b: byte)
    ensures EscapeAll(s + [b]) == EscapeAll(s) + Escape(b)
    ensures ExtraAll(s + [b]) == ExtraAll(s) + Extra(b)
    decreases s
  {
    hide Escape, Extra;
    if s == [] {
      assert s + [b] == [b] && [b][1..] == [];
      assert EscapeAll([b]) == Escape(b) + [];
    } else {
      EscapeAppend(s[1..], b);
      assert (s + [b])[1..] == s[1..] + [b];
      assert Escape(s[0]) + (EscapeAll(s[1..]) + Escape(b)) == (Escape(s[0]) + EscapeAll(s[1..])) + Escape(b);
    }
  }

  /** What is written before some bytes are worked on fits in front of what the rest needs. */
  lemma {:induction false} EscapedSplit(a: seq<byte>, b: seq<byte>)
    ensures EscapeAll(a + b) == EscapeAll(a) + EscapeAll(b)
    decreases a
  {
    hide Escape;
    if a == [] {
      assert a + b == b;
    } else {
      EscapedSplit(a[1..], b);
      assert (a + b)[1..] == a[1..] + b && (a + b)[0] == a[0];
      assert EscapeAll(a + b) == Escape(a[0]) + EscapeAll(a[1..] + b);
      assert Escape(a[0]) + (EscapeAll(a[1..]) + EscapeAll(b)) == (Escape(a[0]) + EscapeAll(a[1..])) + EscapeAll(b);
    }
  }

  /** Indentation, key and colon behind one another. */
  lemma KeyParts(before: seq<byte>, key: seq<byte>, format: bool, depth: nat)
    ensures before + Indent(format, depth) + PrintString(key) + KeySeparator(format)
            == before + KeyText(key, format, depth)
  {
    hide PrintString, Tabs;
  }

  lemma KeyLength(key: seq<byte>, format: bool, depth: nat)
    ensures |KeyText(key, format, depth)| == |Indent(format, depth)| + |PrintString(key)| + |KeySeparator(format)|
  {
    hide PrintString, Tabs;
  }

  /** One byte more is escaped. */
  lemma EscapedSoFar(before: seq<byte>, s: seq<byte>, i: nat)
    requires i < |s|
    ensures EscapeAll(s[..i + 1]) == EscapeAll(s[..i]) + Escape(s[i])
    ensures |EscapeAll(s[i..])| == |Escape(s[i])| + |EscapeAll(s[i + 1..])|
    ensures before + ([QUOTE] + EscapeAll(s[..i + 1])) == (before + ([QUOTE] + EscapeAll(s[..i]))) + Escape(s[i])
  {
    hide Escape, EscapeAll;
    assert s[..i] + [s[i]] == s[..i + 1] && [s[i]] + s[i + 1..] == s[i..];
    EscapeAppend(s[..i], s[i]);
    EscapedSplit([s[i]], s[i + 1..]);
    OneEscape(s[i]);
    assert before + ([QUOTE] + (EscapeAll(s[..i]) + Escape(s[i])))
           == (before + ([QUOTE] + EscapeAll(s[..i]))) + Escape(s[i]);
  }

  // ---- The print buffer ----

  class PrintBuffer {
    var buffer: array<byte>
    var offset: nat
    var depth: nat
    const noalloc: bool
    const format: bool
    /** Where the room of the last grant ends. */
    ghost var granted: nat

    /** How much the buffer can hold in the end. */
    function Capacity(): nat
      reads this, buffer
    {
      if noalloc then buffer.Length else INT_MAX
    }

    /** Sizes are C ints, and the offset is on a byte of the buffer unless nothing has been written. */
    ghost predicate Sized()
      reads this, buffer
    {
      buffer.Length <= INT_MAX && (offset < buffer.Length || offset == 0)
    }

    constructor (length: nat, noalloc: bool, format: bool)
      requires length <= INT_MAX
      ensures Sized() && fresh(buffer) && buffer.Length == length && offset == 0 && depth == 0
      ensures this.noalloc == noalloc && this.format == format
    {
      buffer := new byte[length];
      offset, depth, granted := 0, 0, 0;
      this.noalloc, this.format := noalloc, format;
    }

    /** ensure: room for `needed` bytes from the offset on, and one byte behind them. */
    method Ensure(needed: nat) returns (ok: bool)
      requires Sized()
      modifies this`buffer, this`granted
      ensures buffer == old(buffer) || fresh(buffer)
      ensures ok ==> granted == offset + needed < buffer.Length
      ensures ok <==> offset + needed + 1 <= Capacity()
      ensures Capacity() == old(Capacity()) && Sized()
      ensures offset <= buffer.Length && buffer[..offset] == old(buffer[..offset])
    {
      if buffer.Length > 0 && offset >= buffer.Length {
        return false;
      }
      if needed > INT_MAX {
        return false;
      }
      var total := needed + offset + 1;
      if total <= buffer.Length {
        granted := offset + needed;
        return true;
      }
      if noalloc {
        return false;
      }
      var newSize := 0;
      if total > INT_MAX / 2 {
        if total <= INT_MAX {
          newSize := INT_MAX;
        } else {
          return false;
        }
      } else {
        newSize := total * 2;
      }
      var newBuffer := new byte[newSize];
      forall i | 0 <= i < buffer.Length { newBuffer[i] := buffer[i]; }
      assert newBuffer[..offset] == buffer[..offset];
      buffer := newBuffer;
      granted := offset + needed;
      return true;
    }

    /** *output_pointer = b, inside the room granted. */
    method Put(k: nat, b: byte)
      requires offset <= k < granted < buffer.Length
      modifies buffer
      ensures buffer[..k + 1] == old(buffer[..k]) + [b]
    {
      buffer[k] := b;
    }

    method PutAll(k: nat, bytes: seq<byte>)
      requires offset <= k && k + |bytes| <= granted < buffer.Length
      modifies buffer
      ensures buffer[..k + |bytes|] == old(buffer[..k]) + bytes
    {
      forall i | 0 <= i < |bytes| { buffer[k + i] := bytes[i]; }
    }

    /** A text stands at the end of what has been written, with a NUL behind it. */
    ghost predicate Holds(before: seq<byte>, t: seq<byte>)
      reads this, buffer
    {
      && |before| <= offset <= |before| + |t| < buffer.Length
      && buffer[..|before| + |t|] == before + t && buffer[|before| + |t|] == NUL
    }

    /** update_offset: strlen from the offset on. */
    method UpdateOffset(ghost before: seq<byte>, ghost t: seq<byte>)
      requires Holds(before, t) && NulFree(t) && Sized()
      modifies this`offset
      ensures Sized() && Capacity() == old(Capacity())
      ensures offset == |before| + |t| < buffer.Length && buffer[..offset] == before + t
    {
      assert forall i :: |before| <= i < |before| + |t| ==> buffer[i] == (before + t)[i] != 0;
      while buffer[offset] != NUL
        invariant old(offset) <= offset <= |before| + |t|
        decreases |before| + |t| - offset
      {
        offset := offset + 1;
      }
    }

    /** strcpy of a literal with its NUL. */
    method PutLiteral(t: seq<byte>) returns (ok: bool)
      requires Sized() && |t| > 0
      modifies this`buffer, this`granted, buffer
      ensures Capacity() == old(Capacity()) && Sized()
      ensures ok <==> old(offset) + |t| + 2 <= Capacity()
      ensures buffer == old(buffer) || fresh(buffer)
      ensures offset <= buffer.Length && (ok ==> Holds(old(buffer[..offset]), t))
    {
      ok := Ensure(|t| + 1);
      if ok {
        PutAll(offset, t);
        Put(offset + |t|, NUL);
      }
    }

    /** print_string_ptr */
    method PrintStringPtr(s: seq<byte>) returns (ok: bool)
      requires Sized()
      modifies this`buffer, this`granted, buffer
      ensures Capacity() == old(Capacity()) && Sized()
      ensures ok <==> old(offset) + |PrintString(s)| + 2 <= Capacity()
      ensures buffer == old(buffer) || fresh(buffer)
      ensures offset <= buffer.Length && (ok ==> Holds(old(buffer[..offset]), PrintString(s)))
    {
      hide Escape, Extra, EscapeAll, ExtraAll;
      var escapeCharacters := CountEscapes(s);
      EscapedLength(s);
      var outputLength := |s| + escapeCharacters;
      ok := Ensure(outputLength + 3);
      if !ok {
        return;
      }
      if escapeCharacters == 0 {
        CopyInto(s);
      } else {
        EscapeInto(s, outputLength);
      }
    }

    /** memcpy between the quotes when nothing has to be escaped. */
    method CopyInto(s: seq<byte>)
      requires EscapeAll(s) == s && granted == offset + |s| + 3 < buffer.Length
      modifies buffer
      ensures buffer[..offset + |s| + 2] == old(buffer[..offset]) + PrintString(s)
      ensures buffer[offset + |s| + 2] == NUL
    {
      hide EscapeAll;
      ghost var before := buffer[..offset];
      Put(offset, QUOTE);
      PutAll(offset + 1, s);
      Put(offset + 1 + |s|, QUOTE);
      assert before + [QUOTE] + s + [QUOTE] == before + PrintString(s);
      Put(offset + 2 + |s|, NUL);
      assert buffer[..offset + |s| + 2] == buffer[..offset + |s| + 3][..offset + |s| + 2];
    }

    /** The first loop of print_string_ptr. */
    method CountEscapes(s: seq<byte>) returns (escapeCharacters: nat)
      ensures escapeCharacters == ExtraAll(s)
    {
      hide Escape, EscapeAll;
      escapeCharacters := 0;
      var rest := s;
      while rest != []
        invariant escapeCharacters + ExtraAll(rest) == ExtraAll(s)
        decreases |rest|
      {
        var b := rest[0];
        if b == QUOTE || b == BACKSLASH || b == 8 || b == 12 || b == NEWLINE || b == 13 || b == TAB {
          escapeCharacters := escapeCharacters + 1;
        } else if b < 32 {
          escapeCharacters := escapeCharacters + 5;
        }
        rest := rest[1..];
      }
    }

    /** The second loop, between the quotes. */
    method EscapeInto(s: seq<byte>, outputLength: nat)
      requires outputLength == |EscapeAll(s)| && granted == offset + outputLength + 3 < buffer.Length
      modifies buffer
      ensures buffer[..offset + outputLength + 2] == old(buffer[..offset]) + PrintString(s)
      ensures buffer[offset + outputLength + 2] == NUL
    {
      hide Escape, Extra, EscapeAll, ExtraAll;
      ghost var before := buffer[..offset];
      Put(offset, QUOTE);
      NoEscapes();
      assert s[0..] == s && [] + s == s && [QUOTE] + [] == [QUOTE];
      var outputPointer := offset + 1;
      for i := 0 to |s|
        invariant outputPointer == offset + 1 + |EscapeAll(s[..i])|
        invariant |EscapeAll(s[..i])| + |EscapeAll(s[i..])| == outputLength
        invariant buffer[..outputPointer] == before + ([QUOTE] + EscapeAll(s[..i]))
      {
        EscapedSoFar(before, s, i);
        outputPointer := PutEscaped(outputPointer, s[i]);
      }
      assert s[..|s|] == s && s[|s|..] == [];
      Put(offset + outputLength + 1, QUOTE);
      assert before + ([QUOTE] + EscapeAll(s)) + [QUOTE] == before + PrintString(s);
      Put(offset + outputLength + 2, NUL);
      assert buffer[..offset + outputLength + 2] == buffer[..offset + outputLength + 3][..offset + outputLength + 2];
    }

    /** One byte, copied or escaped; sprintf's own NUL is overwritten by what comes next. */
    method PutEscaped(at: nat, b: byte) returns (next: nat)
      requires offset <= at && at + |Escape(b)| < granted < buffer.Length
      modifies buffer
      ensures next == at + |Escape(b)| <= buffer.Length && buffer[..next] == old(buffer[..at]) + Escape(b)
    {
      next := at;
      if b > 31 && b != QUOTE && b != BACKSLASH {
        Put(next, b);
      } else {
        Put(next, BACKSLASH);
        next := next + 1;
        if b == BACKSLASH {
          Put(next, BACKSLASH);
        } else if b == QUOTE {
          Put(next, QUOTE);
        } else if b == 8 {
          Put(next, 98);
        } else if b == 12 {
          Put(next, 102);
        } else if b == NEWLINE {
          Put(next, 110);
        } else if b == 13 {
          Put(next, 114);
        } else if b == TAB {
          Put(next, 116);
        } else {
          PutAll(next, [LOWER_U, 48, 48, HexDigit(b / 16), HexDigit(b % 16)]);
          ghost var written := buffer[..next + 5];
          Put(next + 5, NUL);
          assert buffer[..next + 5] == buffer[..next + 6][..next + 5] == written;
          next := next + 4;
        }
      }
      next := next + 1;
    }

    /** print_value */
    method PrintValue(v: Json) returns (ok: bool)
      requires Sized() && CStrings(v)
      modifies this, buffer
      ensures Capacity() == old(Capacity()) && Sized()
      ensures ok <==> old(offset) + |Print(v, format, old(depth))| + 2 <= Capacity()
      ensures buffer == old(buffer) || fresh(buffer)
      ensures offset <= buffer.Length
              && (ok ==> depth == old(depth) && Holds(old(buffer[..offset]), Print(v, format, depth)))
      decreases v, 1
    {
      hide PrintItems, PrintMembers, EscapeAll;
      match v
      case Null =>
        ok := PutLiteral(NULL_TEXT);
      case Bool(b) =>
        if b {
          ok := PutLiteral(TRUE_TEXT);
        } else {
          ok := PutLiteral(FALSE_TEXT);
        }
      case Str(s) =>
        ok := PrintStringPtr(s);
      case Arr(items) =>
        ok := PrintArray(items);
      case Obj(members) =>
        ok := PrintObject(members);
    }

    /** One round of print_array's loop: an element, and what separates it from the next. */
    method PrintItem(v: Json, last: bool) returns (ok: bool)
      requires Sized() && CStrings(v)
      modifies this, buffer
      ensures Capacity() == old(Capacity()) && Sized()
      ensures !ok ==> old(offset) + |ItemText(v, format, old(depth), last)| + 2 > Capacity()
      ensures buffer == old(buffer) || fresh(buffer)
      ensures offset <= buffer.Length
      ensures ok ==> depth == old(depth) && buffer[..offset] == old(buffer[..offset]) + ItemText(v, format, depth, last)
      decreases v, 2
    {
      hide Print, CStrings, NulFree;
      ghost var before := buffer[..offset];
      ok := PrintValue(v);
      if !ok {
        return;
      }
      PrintedNulFree(v, format, depth);
      UpdateOffset(before, Print(v, format, depth));
      if !last {
        ok := PutTerminated(ItemSeparator(format));
        assert before + Print(v, format, depth) + ItemSeparator(format) == before + ItemText(v, format, depth, last);
      }
    }

    /** The loop of print_array. */
    method PrintElements(items: seq<Json>) returns (ok: bool)
      requires Sized() && ItemsCStrings(items)
      modifies this, buffer
      ensures Capacity() == old(Capacity()) && Sized()
      ensures !ok ==> old(offset) + |PrintItems(items, format, old(depth))| + 2 > Capacity()
      ensures buffer == old(buffer) || fresh(buffer)
      ensures offset <= buffer.Length
      ensures ok ==> depth == old(depth) && buffer[..offset] == old(buffer[..offset]) + PrintItems(items, format, depth)
      decreases items, 3
    {
      hide PrintItems, CStrings, ItemsCStrings, ItemText;
      ghost var before, done: seq<byte> := buffer[..offset], [];
      AllItemsText(items, format, depth);
      ok := true;
      var i := 0;
      while i < |items|
        invariant i <= |items| && Sized() && Capacity() == old(Capacity()) && depth == old(depth) && ok
        invariant buffer == old(buffer) || fresh(buffer)
        invariant buffer[..offset] == before + done
        invariant done + PrintItems(items[i..], format, depth) == PrintItems(items, format, depth)
        invariant ItemsCStrings(items[i..])
        decreases |items| - i
      {
        NextItem(items, i, format, depth, done);
        ok := PrintItem(items[i], i + 1 == |items|);
        if !ok {
          return;
        }
        done := done + ItemText(items[i], format, depth, i + 1 == |items|);
        i := i + 1;
      }
      NoItemsText(items, format, depth, i);
    }

    /** print_array */
    method PrintArray(items: seq<Json>) returns (ok: bool)
      requires Sized() && ItemsCStrings(items)
      modifies this, buffer
      ensures Capacity() == old(Capacity()) && Sized()
      ensures ok <==> old(offset) + |Print(Arr(items), format, old(depth))| + 2 <= Capacity()
      ensures buffer == old(buffer) || fresh(buffer)
      ensures offset <= buffer.Length
              && (ok ==> depth == old(depth) && Holds(old(buffer[..offset]), Print(Arr(items), format, depth)))
      decreases items, 4
    {
      hide Print, PrintItems, ItemsCStrings;
      ArrayText(buffer[..offset], items, format, depth);
      ok := PutPart([LBRACKET]);
      if !ok {
        return;
      }
      depth := depth + 1;
      ok := PrintElements(items);
      if !ok {
        return;
      }
      ok := PutLiteral([RBRACKET]);
      depth := depth - 1;
    }

    /** Bytes without a NUL behind them, as between two parts of an object. */
    method PutPart(t: seq<byte>) returns (ok: bool)
      requires Sized()
      modifies this`buffer, this`granted, this`offset, buffer
      ensures Capacity() == old(Capacity()) && Sized()
      ensures ok <==> old(offset) + |t| + 1 <= Capacity()
      ensures buffer == old(buffer) || fresh(buffer)
      ensures offset <= buffer.Length && (ok ==> buffer[..offset] == old(buffer[..offset]) + t)
    {
      ok := Ensure(|t|);
      if ok {
        PutAll(offset, t);
        offset := offset + |t|;
      }
    }

    /** Bytes with a NUL behind them that the offset does not pass. */
    method PutTerminated(t: seq<byte>) returns (ok: bool)
      requires Sized()
      modifies this`buffer, this`granted, this`offset, buffer
      ensures Capacity() == old(Capacity()) && Sized()
      ensures ok <==> old(offset) + |t| + 2 <= Capacity()
      ensures buffer == old(buffer) || fresh(buffer)
      ensures offset <= buffer.Length && (ok ==> buffer[..offset] == old(buffer[..offset]) + t)
    {
      ok := Ensure(|t| + 1);
      if ok {
        PutAll(offset, t);
        ghost var written := buffer[..offset + |t|];
        Put(offset + |t|, NUL);
        assert buffer[..offset + |t|] == buffer[..offset + |t| + 1][..offset + |t|] == written;
        offset := offset + |t|;
      }
    }

    /** Indentation, key and colon. */
    method PrintKey(key: seq<byte>) returns (ok: bool)
      requires Sized() && NulFree(key)
      modifies this`buffer, this`granted, this`offset, buffer
      ensures Capacity() == old(Capacity()) && Sized()
      ensures !ok ==> old(offset) + |KeyText(key, format, depth)| + 1 > Capacity()
      ensures buffer == old(buffer) || fresh(buffer)
      ensures offset <= buffer.Length
      ensures ok ==> buffer[..offset] == old(buffer[..offset]) + KeyText(key, format, depth)
    {
      hide PrintString, Tabs, KeyText;
      KeyLength(key, format, depth);
      ghost var before := buffer[..offset];
      if format {
        ok := PutPart(Tabs(depth));
        if !ok {
          return;
        }
      }
      ghost var indented := buffer[..offset];
      assert indented == before + Indent(format, depth);
      ok := PrintStringPtr(key);
      if !ok {
        return;
      }
      KeyNulFree(key);
      UpdateOffset(indented, PrintString(key));
      ok := PutPart(KeySeparator(format));
      KeyParts(before, key, format, depth);
    }

    /** One round of print_object's loop: indentation, key, colon, value and what follows it. */
    method PrintMember(m: Member, last: bool) returns (ok: bool)
      requires Sized() && NulFree(m.key) && CStrings(m.value)
      modifies this, buffer
      ensures Capacity() == old(Capacity()) && Sized()
      ensures !ok ==> old(offset) + |MemberText(m, format, old(depth), last)| + 2 > Capacity()
      ensures buffer == old(buffer) || fresh(buffer)
      ensures offset <= buffer.Length
      ensures ok ==> depth == old(depth) && buffer[..offset] == old(buffer[..offset]) + MemberText(m, format, depth, last)
      decreases m, 2
    {
      hide Print, CStrings, KeyText, MemberEnd;
      ghost var before := buffer[..offset];
      ok := PrintKey(m.key);
      if !ok {
        return;
      }
      ghost var keyed := buffer[..offset];
      ok := PrintValue(m.value);
      if !ok {
        return;
      }
      PrintedNulFree(m.value, format, depth);
      UpdateOffset(keyed, Print(m.value, format, depth));
      ok := PutTerminated(MemberEnd(format, last));
      assert before + KeyText(m.key, format, depth) + Print(m.value, format, depth) + MemberEnd(format, last)
          == before + MemberText(m, format, depth, last);
    }

    /** The loop of print_object. */
    method PrintAllMembers(members: seq<Member>) returns (ok: bool)
      requires Sized() && MembersCStrings(members)
      modifies this, buffer
      ensures Capacity() == old(Capacity()) && Sized()
      ensures !ok ==> old(offset) + |PrintMembers(members, format, old(depth))| + 2 > Capacity()
      ensures buffer == old(buffer) || fresh(buffer)
      ensures offset <= buffer.Length
      ensures ok ==> depth == old(depth) && buffer[..offset] == old(buffer[..offset]) + PrintMembers(members, format, depth)
      decreases members, 3
    {
      hide PrintMembers, CStrings, MembersCStrings, MemberText, NulFree;
      ghost var before, done: seq<byte> := buffer[..offset], [];
      AllMembersText(members, format, depth);
      ok := true;
      var i := 0;
      while i < |members|
        invariant i <= |members| && Sized() && Capacity() == old(Capacity()) && depth == old(depth) && ok
        invariant buffer == old(buffer) || fresh(buffer)
        invariant buffer[..offset] == before + done
        invariant done + PrintMembers(members[i..], format, depth) == PrintMembers(members, format, depth)
        invariant MembersCStrings(members[i..])
        decreases |members| - i
      {
        NextMember(members, i, format, depth, done);
        ok := PrintMember(members[i], i + 1 == |members|);
        if !ok {
          return;
        }
        done := done + MemberText(members[i], format, depth, i + 1 == |members|);
        i := i + 1;
      }
      NoMembersText(members, format, depth, i);
    }

    /** The opening brace of an object, for which one byte too many is asked. */
    method OpenObject() returns (ok: bool)
      requires Sized()
      modifies this, buffer
      ensures Capacity() == old(Capacity()) && Sized()
      ensures ok <==> old(offset) + (if format then 2 else 1) + 2 <= Capacity()
      ensures buffer == old(buffer) || fresh(buffer)
      ensures offset <= buffer.Length
      ensures ok ==> depth == old(depth) + 1
      ensures ok ==> buffer[..offset] == old(buffer[..offset]) + if format then [LBRACE, NEWLINE] else [LBRACE]
    {
      var length := if format then 2 else 1;
      ok := Ensure(length + 1);
      if ok {
        PutAll(offset, if format then [LBRACE, NEWLINE] else [LBRACE]);
        depth := depth + 1;
        offset := offset + length;
      }
    }

    /** print_object */
    method PrintObject(members: seq<Member>) returns (ok: bool)
      requires Sized() && MembersCStrings(members)
      modifies this, buffer
      ensures Capacity() == old(Capacity()) && Sized()
      ensures ok <==> old(offset) + |Print(Obj(members), format, old(depth))| + 2 <= Capacity()
      ensures buffer == old(buffer) || fresh(buffer)
      ensures offset <= buffer.Length
              && (ok ==> depth == old(depth) && Holds(old(buffer[..offset]), Print(Obj(members), format, depth)))
      decreases members, 4
    {
      hide Print, PrintMembers, MembersCStrings, Tabs;
      ObjectText(buffer[..offset], members, format, depth);
      ok := OpenObject();
      if !ok {
        return;
      }
      ok := PrintAllMembers(members);
      if !ok {
        return;
      }
      ok := PutLiteral(if format then Tabs(depth - 1) + [RBRACE] else [RBRACE]);
      depth := depth - 1;
    }
  }

  lemma ArrayText(before: seq<byte>, items: seq<Json>, format: bool, depth: nat)
    ensures before + [LBRACKET] + PrintItems(items, format, depth + 1) + [RBRACKET]
            == before + Print(Arr(items), format, depth)
  {
    hide PrintItems;
  }

  lemma ObjectText(before: seq<byte>, members: seq<Member>, format: bool, depth: nat)
    ensures before + (if format then [LBRACE, NEWLINE] else [LBRACE]) + PrintMembers(members, format, depth + 1)
            + (if format then Tabs(depth) + [RBRACE] else [RBRACE]) == before + Print(Obj(members), format, depth)
  {
    hide PrintMembers, Tabs;
  }

  lemma AllItemsText(items: seq<Json>, format: bool, depth: nat)
    ensures items[0..] == items && [] + PrintItems(items[0..], format, depth) == PrintItems(items, format, depth)
  {
  }

  lemma NoItemsText(items: seq<Json>, format: bool, depth: nat, i: nat)
    requires i == |items|
    ensures PrintItems(items[i..], format, depth) == []
    ensures forall done: seq<byte> :: done + [] == done
  {
    assert items[i..] == [];
  }

  /** One more item of a printed array. */
  lemma NextItem(items: seq<Json>, i: nat, format: bool, depth: nat, done: seq<byte>)
    requires i < |items| && ItemsCStrings(items[i..])
    requires done + PrintItems(items[i..], format, depth) == PrintItems(items, format, depth)
    ensures CStrings(items[i]) && ItemsCStrings(items[i + 1..])
    ensures done + ItemText(items[i], format, depth, i + 1 == |items|) + PrintItems(items[i + 1..], format, depth)
            == PrintItems(items, format, depth)
  {
    hide Print, ItemSeparator;
    var rest := items[i..];
    assert rest[0] == items[i] && rest[1..] == items[i + 1..];
    var first, tail := Print(items[i], format, depth), PrintItems(items[i + 1..], format, depth);
    if i + 1 < |items| {
      assert PrintItems(rest, format, depth) == first + (ItemSeparator(format) + tail);
      assert done + (first + (ItemSeparator(format) + tail)) == done + (first + ItemSeparator(format)) + tail;
    } else {
      assert tail == [] && done + first + tail == done + first;
    }
  }

  function ItemText(v: Json, format: bool, depth: nat, last: bool): seq<byte> {
    if last then Print(v, format, depth) else Print(v, format, depth) + ItemSeparator(format)
  }

  lemma NoEscapes()
    ensures EscapeAll([]) == []
  {
  }

  lemma OneEscape(b: byte)
    ensures EscapeAll([b]) == Escape(b)
  {
    assert [b][1..] == [];
    assert Escape(b) + [] == Escape(b);
  }

  lemma KeyNulFree(key: seq<byte>)
    requires NulFree(key)
    ensures NulFree(PrintString(key))
  {
    EscapedNulFree(key);
  }

  function KeyText(key: seq<byte>, format: bool, depth: nat): seq<byte> {
    Indent(format, depth) + PrintString(key) + KeySeparator(format)
  }

  function MemberText(m: Member, format: bool, depth: nat, last: bool): seq<byte> {
    KeyText(m.key, format, depth) + Print(m.value, format, depth) + MemberEnd(format, last)
  }

  lemma AllMembersText(members: seq<Member>, format: bool, depth: nat)
    ensures members[0..] == members && [] + PrintMembers(members[0..], format, depth)
            == PrintMembers(members, format, depth)
  {
  }

  lemma NoMembersText(members: seq<Member>, format: bool, depth: nat, i: nat)
    requires i == |members|
    ensures PrintMembers(members[i..], format, depth) == []
    ensures forall done: seq<byte> :: done + [] == done
  {
    assert members[i..] == [];
  }

  lemma Regrouped(a: seq<byte>, b: seq<byte>, c: seq<byte>, d: seq<byte>, e: seq<byte>, tail: seq<byte>)
    ensures a + (b + (c + (d + (e + tail)))) == a + b + c + d + e + tail
  {
    assert b + (c + (d + (e + tail))) == b + c + d + e + tail;
  }

  lemma FirstMember(members: seq<Member>, format: bool, depth: nat)
    requires members != [] && MembersCStrings(members)
    ensures NulFree(members[0].key) && CStrings(members[0].value) && MembersCStrings(members[1..])
    ensures PrintMembers(members, format, depth)
            == MemberText(members[0], format, depth, |members| == 1) + PrintMembers(members[1..], format, depth)
  {
    hide Indent, PrintString, KeySeparator, Print, MemberEnd, NulFree, CStrings;
    var m := members[0];
    var a, b, c, d, e := Indent(format, depth), PrintString(m.key), KeySeparator(format), Print(m.value, format, depth),
                         MemberEnd(format, |members| == 1);
    Regrouped(a, b, c, d, e, PrintMembers(members[1..], format, depth));
    assert a + b + c + d + e == (a + b + c) + d + e;
  }

  lemma NextMember(members: seq<Member>, i: nat, format: bool, depth: nat, done: seq<byte>)
    requires i < |members| && MembersCStrings(members[i..])
    requires done + PrintMembers(members[i..], format, depth) == PrintMembers(members, format, depth)
    ensures NulFree(members[i].key) && CStrings(members[i].value) && MembersCStrings(members[i + 1..])
    ensures done + MemberText(members[i], format, depth, i + 1 == |members|) + PrintMembers(members[i + 1..], format, depth)
            == PrintMembers(members, format, depth)
  {
    hide MemberText, PrintMembers, NulFree, CStrings, MembersCStrings;
    var rest := members[i..];
    FirstMember(rest, format, depth);
    assert rest[0] == members[i] && rest[1..] == members[i + 1..];
    var text, tail := MemberText(members[i], format, depth, i + 1 == |members|), PrintMembers(members[i + 1..], format, depth);
    assert done + (text + tail) == done + text + tail;
  }

  /** print: the whole text of a tree, from an empty buffer, with its NUL. */
  method PrintTree(v: Json, format: bool, length: nat, noalloc: bool) returns (ok: bool, text: seq<byte>)
    requires CStrings(v) && length <= INT_MAX
    ensures ok <==> |Print(v, format, 0)| + 2 <= if noalloc then length else INT_MAX
    ensures ok ==> text == Print(v, format, 0)
  {
    hide Print, CStrings;
    var p := new PrintBuffer(length, noalloc, format);
    ok := p.PrintValue(v);
    text := [];
    if ok {
      PrintedNulFree(v, format, 0);
      p.UpdateOffset([], Print(v, format, 0));
      text := p.buffer[..p.offset];
      assert [] + Print(v, format, 0) == Print(v, format, 0);
    }
  }
}
