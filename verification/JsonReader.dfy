/** The parser as it runs: an offset moving over the text and a depth counter. */

module JsonReader {
  import opened Basics
  import opened JsonText
  import opened JsonParser
  import opened JsonStrings

  /** Elements already linked in, in front of what is still to come. */
  function Linked<T>(done: seq<T>, rest: Outcome<seq<T>>): Outcome<seq<T>> {
    if rest.Parsed? then Parsed(done + rest.value, rest.offset) else rest
  }

  lemma LinkOne<T>(done: seq<T>, x: T, more: seq<T>, offset: nat)
    ensures Linked(done, Parsed([x] + more, offset)) == Linked(done + [x], Parsed(more, offset))
    ensures Linked(done, Parsed([x], offset)) == Parsed(done + [x], offset)
  {
    assert done + ([x] + more) == (done + [x]) + more;
  }

  lemma ItemsStep(c: seq<byte>, o: nat, depth: nat, done: seq<Json>)
    requires o < |c|
    ensures var r := ParseValue(c, SkipWhitespace(c, o + 1), depth);
            if !r.Parsed? then ParseItems(c, o, depth) == r.PropagateFailure()
            else
              var q := SkipWhitespace(c, r.offset);
              if q < |c| && c[q] == COMMA then
                Linked(done, ParseItems(c, o, depth)) == Linked(done + [r.value], ParseItems(c, q, depth))
              else if q < |c| && c[q] == RBRACKET then
                Linked(done, ParseItems(c, o, depth)) == Parsed(done + [r.value], q + 1)
              else ParseItems(c, o, depth) == Failed
  {
    hide SkipWhitespace, ParseValue;
    var r := ParseValue(c, SkipWhitespace(c, o + 1), depth);
    if r.Parsed? {
      var q := SkipWhitespace(c, r.offset);
      if q < |c| && c[q] == COMMA && ParseItems(c, q, depth).Parsed? {
        LinkOne(done, r.value, ParseItems(c, q, depth).value, ParseItems(c, q, depth).offset);
      }
    }
  }

  lemma MembersStep(c: seq<byte>, o: nat, depth: nat, done: seq<Member>)
    requires o < |c|
    ensures var r := ParseMember(c, o, depth);
            if !r.Parsed? then ParseMembers(c, o, depth) == r.PropagateFailure()
            else
              var q := SkipWhitespace(c, r.offset);
              if q < |c| && c[q] == COMMA then
                Linked(done, ParseMembers(c, o, depth)) == Linked(done + [r.value], ParseMembers(c, q, depth))
              else if q < |c| && c[q] == RBRACE then
                Linked(done, ParseMembers(c, o, depth)) == Parsed(done + [r.value], q + 1)
              else ParseMembers(c, o, depth) == Failed
  {
    hide SkipWhitespace, ParseMember;
    var r := ParseMember(c, o, depth);
    if r.Parsed? {
      var q := SkipWhitespace(c, r.offset);
      if q < |c| && c[q] == COMMA && ParseMembers(c, q, depth).Parsed? {
        LinkOne(done, r.value, ParseMembers(c, q, depth).value, ParseMembers(c, q, depth).offset);
      }
    }
  }

  class ParseBuffer {
    const content: seq<byte>
    var offset: nat
    var depth: nat

    constructor (content: seq<byte>)
      ensures this.content == content && offset == 0 && depth == 0
    {
      this.content, offset, depth := content, 0, 0;
    }

    /** The outcome of a method that parses a T from the offset on. */
    ghost predicate Agrees<T>(r: Outcome<T>, spec: Outcome<T>)
      reads this
    {
      r == spec && (r.Parsed? ==> offset == r.offset)
    }

    /** buffer_skip_whitespace */
    method BufferSkipWhitespace()
      requires offset <= |content|
      modifies this`offset
      ensures offset == SkipWhitespace(content, old(offset))
    {
      if offset == |content| {
        return;
      }
      while offset < |content| && content[offset] <= 32
        invariant offset <= |content| && Skip(content, offset) == Skip(content, old(offset))
        decreases |content| - offset
      {
        offset := offset + 1;
      }
      if offset == |content| {
        offset := offset - 1;
      }
    }

    /** parse_string, which reads the byte at the current offset without asking whether there is one. */
    method ParseStringHere() returns (r: Outcome<seq<byte>>)
      requires offset < |content|
      modifies this`offset
      ensures Agrees(r, ParseString(content, old(offset)))
    {
      r := ReadString(content, offset);
      if r.Parsed? {
        offset := r.offset;
      }
    }

    /** strncmp against a literal. */
    method Matches(t: seq<byte>) returns (matches: bool)
      requires offset <= |content|
      ensures matches <==> At(content, offset, t)
    {
      matches := offset + |t| <= |content| && content[offset..offset + |t|] == t;
    }

    /** parse_value */
    method ParseValueHere() returns (r: Outcome<Json>)
      requires offset <= |content|
      modifies this`offset, this`depth
      ensures Agrees(r, ParseValue(content, old(offset), old(depth))) && (r.Parsed? ==> depth == old(depth))
      decreases |content| - offset, 3
    {
      hide ParseArray, ParseObject, ParseString, At;
      var isNull := Matches(NULL_TEXT);
      if isNull {
        offset := offset + 4;
        return Parsed(Null, offset);
      }
      var isFalse := Matches(FALSE_TEXT);
      if isFalse {
        offset := offset + 5;
        return Parsed(Bool(false), offset);
      }
      var isTrue := Matches(TRUE_TEXT);
      if isTrue {
        offset := offset + 4;
        return Parsed(Bool(true), offset);
      }
      if offset < |content| && content[offset] == QUOTE {
        var s := ParseStringHere();
        if s.Parsed? {
          return Parsed(Str(s.value), s.offset);
        }
        return s.PropagateFailure();
      }
      if offset < |content| && content[offset] == LBRACKET {
        r := ParseArrayHere();
        return;
      }
      if offset < |content| && content[offset] == LBRACE {
        r := ParseObjectHere();
        return;
      }
      return Failed;
    }

    /** parse_array */
    method ParseArrayHere() returns (r: Outcome<Json>)
      requires offset < |content| && content[offset] == LBRACKET
      modifies this`offset, this`depth
      ensures Agrees(r, ParseArray(content, old(offset), old(depth))) && (r.Parsed? ==> depth == old(depth))
      decreases |content| - offset, 2
    {
      hide SkipWhitespace, ParseItems, ParseValue, Linked;
      if depth >= NESTING_LIMIT {
        return Failed;
      }
      depth := depth + 1;
      ghost var level := depth;
      offset := offset + 1;
      BufferSkipWhitespace();
      if offset < |content| && content[offset] == RBRACKET {
        depth := depth - 1;
        offset := offset + 1;
        return Parsed(Arr([]), offset);
      }
      if offset >= |content| {
        return Failed;
      }
      offset := offset - 1;
      var items: seq<Json>, more := [], true;
      ghost var goal := ParseItems(content, offset, level);
      NothingLinked(goal);
      while more
        invariant old(offset) <= offset < |content| && depth == level
        invariant more ==> Linked(items, ParseItems(content, offset, level)) == goal
        invariant !more ==>
                    if content[offset] == RBRACKET then goal == Parsed(items, offset + 1) else goal == Failed
        decreases more, |content| - offset
      {
        ItemsStep(content, offset, level, items);
        offset := offset + 1;
        BufferSkipWhitespace();
        var v := ParseValueHere();
        if !v.Parsed? {
          LinkedFailure(items);
          return v.PropagateFailure();
        }
        items := items + [v.value];
        BufferSkipWhitespace();
        LinkedFailure(items[..|items| - 1]);
        if offset >= |content| {
          return Failed;
        }
        more := content[offset] == COMMA;
      }
      if content[offset] != RBRACKET {
        return Failed;
      }
      depth := depth - 1;
      offset := offset + 1;
      return Parsed(Arr(items), offset);
    }

    /** parse_object */
    method ParseObjectHere() returns (r: Outcome<Json>)
      requires offset < |content| && content[offset] == LBRACE
      modifies this`offset, this`depth
      ensures Agrees(r, ParseObject(content, old(offset), old(depth))) && (r.Parsed? ==> depth == old(depth))
      decreases |content| - offset, 2
    {
      hide SkipWhitespace, ParseMembers, ParseMember, Linked;
      if depth >= NESTING_LIMIT {
        return Failed;
      }
      depth := depth + 1;
      ghost var level := depth;
      offset := offset + 1;
      BufferSkipWhitespace();
      if offset < |content| && content[offset] == RBRACE {
        depth := depth - 1;
        offset := offset + 1;
        return Parsed(Obj([]), offset);
      }
      if offset >= |content| {
        return Failed;
      }
      offset := offset - 1;
      var members: seq<Member>, more := [], true;
      ghost var goal := ParseMembers(content, offset, level);
      NothingLinked(goal);
      while more
        invariant old(offset) <= offset < |content| && depth == level
        invariant more ==> Linked(members, ParseMembers(content, offset, level)) == goal
        invariant !more ==>
                    if content[offset] == RBRACE then goal == Parsed(members, offset + 1) else goal == Failed
        decreases more, |content| - offset
      {
        MembersStep(content, offset, level, members);
        var m := ParseMemberHere();
        if !m.Parsed? {
          LinkedFailure(members);
          return m.PropagateFailure();
        }
        members := members + [m.value];
        BufferSkipWhitespace();
        LinkedFailure(members[..|members| - 1]);
        if offset >= |content| {
          return Failed;
        }
        more := content[offset] == COMMA;
      }
      if content[offset] != RBRACE {
        return Failed;
      }
      depth := depth - 1;
      offset := offset + 1;
      return Parsed(Obj(members), offset);
    }

    /** One round of parse_object's loop: name, colon and value. */
    method ParseMemberHere() returns (r: Outcome<Member>)
      requires offset < |content|
      modifies this`offset, this`depth
      ensures Agrees(r, ParseMember(content, old(offset), old(depth))) && (r.Parsed? ==> depth == old(depth))
      decreases |content| - offset, 0
    {
      hide SkipWhitespace, ParseString, ParseValue;
      offset := offset + 1;
      BufferSkipWhitespace();
      if offset == |content| {
        // parse_string would read the byte behind the text
        return Overrun;
      }
      var key := ParseStringHere();
      if !key.Parsed? {
        return key.PropagateFailure();
      }
      BufferSkipWhitespace();
      if offset >= |content| || content[offset] != COLON {
        return Failed;
      }
      offset := offset + 1;
      BufferSkipWhitespace();
      var v := ParseValueHere();
      if !v.Parsed? {
        return v.PropagateFailure();
      }
      return Parsed(Member(key.value, v.value), offset);
    }
  }

  lemma NothingLinked<T>(rest: Outcome<seq<T>>)
    ensures Linked([], rest) == rest
  {
    if rest.Parsed? { assert [] + rest.value == rest.value; }
  }

  lemma LinkedFailure<T>(done: seq<T>)
    ensures Linked(done, Failed) == Failed && Linked(done, Overrun) == Overrun
  {
  }

  /** cJSON_ParseWithLengthOpts; `end` is what return_parse_end points at: behind the value, or at a byte of the text for
      the error message. */
  method ParseText(c: seq<byte>, requireNullTerminated: bool) returns (r: Outcome<Json>, end: nat)
    ensures r == Parse(c, requireNullTerminated)
    ensures if r.Parsed? then end == r.offset else end < |c| || c == []
  {
    hide SkipWhitespace, ParseValue;
    if c == [] {
      return Failed, 0;
    }
    var buffer := new ParseBuffer(c);
    if |c| > 4 && c[..3] == [0xEF, 0xBB, 0xBF] {
      buffer.offset := 3;
    }
    buffer.BufferSkipWhitespace();
    r := buffer.ParseValueHere();
    if r.Parsed? && requireNullTerminated {
      buffer.BufferSkipWhitespace();
      if buffer.offset >= |c| || c[buffer.offset] != NUL {
        r := Failed;
      }
    }
    if r.Parsed? {
      r := Parsed(r.value, buffer.offset);
      end := buffer.offset;
    } else {
      end := if buffer.offset < |c| then buffer.offset else |c| - 1;
    }
  }
}
