/** parse_string: the first scan sizes the output, the second fills it, for every text, well-formed or not. */

module JsonStrings {
  import opened Basics
  import opened Bits
  import opened JsonText
  import opened JsonParser

  // ---- UTF-8 ----

  /** Reading UTF-8 back, section 3 of RFC 3629. */
  function Utf8Value(b: seq<byte>): int
    requires 1 <= |b| <= 4
  {
    var v := seq(|b|, i requires 0 <= i < |b| => b[i] as int);
    if |b| == 1 then v[0]
    else if |b| == 2 then (v[0] - 0xC0) * 0x40 + (v[1] - 0x80)
    else if |b| == 3 then (v[0] - 0xE0) * 0x1000 + (v[1] - 0x80) * 0x40 + (v[2] - 0x80)
    else (v[0] - 0xF0) * 0x4_0000 + (v[1] - 0x80) * 0x1000 + (v[2] - 0x80) * 0x40 + (v[3] - 0x80)
  }

  /** The first byte of a sequence tells its length; the others are 10xxxxxx. */
  predicate Utf8Shaped(b: seq<byte>) {
    && 1 <= |b| <= 4
    && (|b| == 1 ==> b[0] < 0x80) && (|b| == 2 ==> 0xC2 <= b[0] < 0xE0)
    && (|b| == 3 ==> 0xE0 <= b[0] < 0xF0) && (|b| == 4 ==> 0xF0 <= b[0] < 0xF8)
    && forall k :: 1 <= k < |b| ==> 0x80 <= b[k] < 0xC0
  }

  /** Every code point is encoded in the one proper form, the shortest, and can be read back. */
  lemma Utf8RoundTrip(cp: nat)
    requires cp <= 0x10_FFFF
    ensures Utf8Shaped(Utf8(cp)) && Utf8Value(Utf8(cp)) == cp
    ensures |Utf8(cp)| == if cp < 0x80 then 1 else if cp < 0x800 then 2 else if cp < 0x1_0000 then 3 else 4
  {
    var a := cp / 0x40;
    var b := a / 0x40;
    assert cp == a * 0x40 + cp % 0x40 && a == b * 0x40 + a % 0x40 && b == b / 0x40 * 0x40 + b % 0x40;
    assert cp / 0x1000 == b && cp / 0x4_0000 == b / 0x40;
  }

  /** The number that the first n of the digits at i spell. */
  function FirstDigits(c: seq<byte>, i: nat, n: nat): int
    requires i + n <= |c|
  {
    if n == 0 then 0 else 16 * FirstDigits(c, i, n - 1) + HexValue(c[i + n - 1])
  }

  predicate FirstAreDigits(c: seq<byte>, i: nat, n: nat)
    requires i + n <= |c|
  {
    n > 0 ==> FirstAreDigits(c, i, n - 1) && HexValue(c[i + n - 1]) >= 0
  }

  lemma FourDigitsAre(c: seq<byte>, i: nat)
    requires i + 4 <= |c| && FirstAreDigits(c, i, 4)
    ensures FirstDigits(c, i, 4) == ParseHex4(c, i)
  {
    assert FirstAreDigits(c, i, 2) && FirstAreDigits(c, i, 1);
    assert FirstDigits(c, i, 1) == HexValue(c[i]);
    assert FirstDigits(c, i, 2) == 16 * FirstDigits(c, i, 1) + HexValue(c[i + 1]);
    assert FirstDigits(c, i, 3) == 16 * FirstDigits(c, i, 2) + HexValue(c[i + 2]);
    assert FirstDigits(c, i, 4) == 16 * FirstDigits(c, i, 3) + HexValue(c[i + 3]);
  }

  lemma NoDigit(c: seq<byte>, i: nat, k: nat)
    requires i + 4 <= |c| && k < 4 && HexValue(c[i + k]) < 0
    ensures ParseHex4(c, i) == 0
  {
    assert k == 0 || k == 1 || k == 2 || k == 3;
  }

  lemma ShiftFour(h: nat)
    ensures ShiftLeft(h, 4) == 16 * h
  {
    assert ShiftLeft(h, 4) == 2 * ShiftLeft(h, 3) && ShiftLeft(h, 3) == 2 * ShiftLeft(h, 2);
    assert ShiftLeft(h, 2) == 2 * ShiftLeft(h, 1) && ShiftLeft(h, 1) == 2 * ShiftLeft(h, 0);
  }

  /** parse_hex4: each digit is added, and all but the last make room for the next. */
  method ReadHex4(input: seq<byte>, start: nat) returns (h: nat)
    requires start + 4 <= |input|
    ensures h == ParseHex4(input, start)
  {
    hide ParseHex4, ShiftLeft;
    h := 0;
    for i := 0 to 4
      invariant FirstAreDigits(input, start, i)
      invariant h == if i < 4 then 16 * FirstDigits(input, start, i) else FirstDigits(input, start, i)
    {
      var b := input[start + i];
      if 48 <= b <= 57 {
        h := h + (b - 48);
      } else if 65 <= b <= 70 {
        h := h + (10 + b - 65);
      } else if 97 <= b <= 102 {
        h := h + (10 + b - 97);
      } else {
        NoDigit(input, start, i);
        return 0;
      }
      assert h == FirstDigits(input, start, i + 1) && FirstAreDigits(input, start, i + 1);
      if i < 3 {
        ShiftFour(h);
        h := ShiftLeft(h, 4);
      }
    }
    FourDigitsAre(input, start);
  }

  /** utf16_literal_to_utf8: writes the code point's bytes at `at`, from the last to the first. */
  method Utf16LiteralToUtf8(c: seq<byte>, i: nat, end: nat, output: array<byte>, at: nat)
    returns (sequenceLength: nat, next: nat)
    requires i <= end <= |c| && at <= output.Length
    requires var l := Utf16Literal(c, i, end); l.Literal? ==> at + |Utf8(l.codepoint)| <= output.Length
    modifies output
    ensures match Utf16Literal(c, i, end)
            case Invalid => sequenceLength == 0 && next == at && output[..] == old(output[..])
            case Literal(length, cp) =>
              sequenceLength == length && next == at + |Utf8(cp)| <= output.Length
              && output[..next] == old(output[..at]) + Utf8(cp)
  {
    hide And, Or;
    sequenceLength, next := 0, at;
    if end - i < 6 {
      return;
    }
    var first := ReadHex4(c, i + 2);
    var codepoint := first;
    if 0xDC00 <= first <= 0xDFFF {
      return;
    }
    var length := 6;
    if 0xD800 <= first <= 0xDBFF {
      if end - (i + 6) < 6 || c[i + 6] != BACKSLASH || c[i + 7] != LOWER_U {
        return;
      }
      var second := ReadHex4(c, i + 8);
      if second < 0xDC00 || second > 0xDFFF {
        return;
      }
      length := 12;
      SurrogateBits(first, second);
      codepoint := 0x1_0000 + Or(ShiftLeft(And(first, 0x3FF), 10), And(second, 0x3FF));
    }
    assert Utf16Literal(c, i, end) == Literal(length, codepoint);
    var utf8Length, mark := 1, 0;
    if codepoint < 0x80 {
    } else if codepoint < 0x800 {
      utf8Length, mark := 2, 0xC0;
    } else if codepoint < 0x1_0000 {
      utf8Length, mark := 3, 0xE0;
    } else {
      utf8Length, mark := 4, 0xF0;
    }
    WriteUtf8(codepoint, utf8Length, mark, output, at);
    sequenceLength, next := length, at + utf8Length;
  }

  /** The loop over the continuation bytes, from the last, and the first byte. */
  method WriteUtf8(cp: nat, utf8Length: nat, mark: nat, output: array<byte>, at: nat)
    requires cp <= 0x10_FFFF && utf8Length == |Utf8(cp)| && at + utf8Length <= output.Length
    requires mark == (if utf8Length == 1 then 0 else if utf8Length == 2 then 0xC0
                      else if utf8Length == 3 then 0xE0 else 0xF0)
    modifies output
    ensures output[..at + utf8Length] == old(output[..at]) + Utf8(cp)
  {
    hide And, Or;
    var rest, position := cp, utf8Length - 1;
    ghost var bytes := Utf8(cp);
    while position > 0
      invariant 0 <= position < utf8Length
      invariant forall k :: 0 <= k < at ==> output[k] == old(output[k])
      invariant forall k :: position < k < utf8Length ==> output[at + k] == bytes[k]
      invariant rest == RestAt(cp, utf8Length - 1 - position)
    {
      RestByte(cp, position);
      ContinuationBits(rest);
      output[at + position] := And(Or(rest, 0x80), 0xBF);
      rest := rest / 0x40;
      position := position - 1;
    }
    RestFirst(cp);
    if utf8Length > 1 {
      FirstByteBits(rest, mark);
      output[at] := And(Or(rest, mark), 0xFF);
    } else {
      AsciiBits(rest);
      output[at] := And(rest, 0x7F);
    }
    assert forall k :: 0 <= k < utf8Length ==> output[at + k] == bytes[k];
    assert output[..at + utf8Length] == output[..at] + output[at..at + utf8Length];
    assert output[at..at + utf8Length] == bytes;
  }

  /** The code point after n six-bit groups have been shifted out. */
  function RestAt(cp: nat, n: nat): nat {
    if n == 0 then cp else RestAt(cp, n - 1) / 0x40
  }

  lemma RestByte(cp: nat, position: nat)
    requires cp <= 0x10_FFFF && 0 < position < |Utf8(cp)|
    ensures Utf8(cp)[position] == 0x80 + RestAt(cp, |Utf8(cp)| - 1 - position) % 0x40
  {
    assert RestAt(cp, 0) == cp && RestAt(cp, 1) == cp / 0x40 && RestAt(cp, 2) == cp / 0x40 / 0x40 == cp / 0x1000;
  }

  lemma RestFirst(cp: nat)
    requires cp <= 0x10_FFFF
    ensures var n := |Utf8(cp)|;
            Utf8(cp)[0] == RestAt(cp, n - 1) + if n == 1 then 0 else if n == 2 then 0xC0 else if n == 3 then 0xE0 else 0xF0
  {
    assert RestAt(cp, 0) == cp && RestAt(cp, 1) == cp / 0x40 && RestAt(cp, 2) == cp / 0x40 / 0x40 == cp / 0x1000;
    assert RestAt(cp, 3) == cp / 0x1000 / 0x40 == cp / 0x4_0000;
  }

  // ---- How much the first scan allows ----

  /** The units of the first scan from a on: a character, or a backslash with the character behind it. */
  function Units(c: seq<byte>, a: nat, end: nat): nat
    requires end < |c|
    decreases end + 1 - a
  {
    if a >= end then 0 else 1 + Units(c, if c[a] == BACKSLASH then a + 2 else a + 1, end)
  }

  /** The first scan stops at `end`, also when it is joined at a. */
  predicate Joined(c: seq<byte>, a: nat, end: nat) {
    end < |c| && a <= end && FindEnd(c, a) == end
  }

  lemma NextUnit(c: seq<byte>, a: nat, end: nat)
    requires Joined(c, a, end) && a < end
    ensures var n := if c[a] == BACKSLASH then a + 2 else a + 1;
            Joined(c, n, end) && Units(c, a, end) == 1 + Units(c, n, end)
  {
  }

  /** Four characters hold at least two units. */
  lemma FourCharacters(c: seq<byte>, a: nat, end: nat) returns (a': nat)
    requires Joined(c, a, end) && a + 4 <= end
    ensures Joined(c, a', end) && a + 4 <= a' <= a + 5 && Units(c, a, end) >= 2 + Units(c, a', end)
  {
    hide Joined, Units;
    NextUnit(c, a, end);
    a' := if c[a] == BACKSLASH then a + 2 else a + 1;
    NextUnit(c, a', end);
    a' := if c[a'] == BACKSLASH then a' + 2 else a' + 1;
    if a' < a + 4 {
      NextUnit(c, a', end);
      a' := if c[a'] == BACKSLASH then a' + 2 else a' + 1;
      if a' < a + 4 {
        NextUnit(c, a', end);
        a' := if c[a'] == BACKSLASH then a' + 2 else a' + 1;
      }
    }
  }

  predicate HexDigits(c: seq<byte>, i: nat) {
    i + 4 <= |c| && HexValue(c[i]) >= 0 && HexValue(c[i + 1]) >= 0 && HexValue(c[i + 2]) >= 0 && HexValue(c[i + 3]) >= 0
  }

  /** Four hexadecimal digits are four units. */
  lemma FourDigits(c: seq<byte>, a: nat, end: nat)
    requires Joined(c, a, end) && a + 4 <= end && HexDigits(c, a)
    ensures Joined(c, a + 4, end) && Units(c, a, end) == 4 + Units(c, a + 4, end)
  {
    hide Joined, Units;
    NextUnit(c, a, end);
    NextUnit(c, a + 1, end);
    NextUnit(c, a + 2, end);
    NextUnit(c, a + 3, end);
  }

  /** The second scan is at p and may have come in between the two characters of a unit; `a` is where the first scan
      next stops, and `written` bytes are within what the units before it allow. */
  ghost predicate Within(c: seq<byte>, start: nat, end: nat, p: nat, a: nat, written: nat)
    requires end < |c|
  {
    && (a == p || a == p + 1) && p <= end + 1
    && (a <= end ==> Joined(c, a, end))
    && written + Units(c, a, end) + (a - p) <= Units(c, start, end)
  }

  lemma PlainStep(c: seq<byte>, start: nat, end: nat, p: nat, a: nat, written: nat) returns (a': nat)
    requires end < |c| && Within(c, start, end, p, a, written) && p < end && c[p] != BACKSLASH
    ensures Within(c, start, end, p + 1, a', written + 1)
  {
    if a == p {
      NextUnit(c, a, end);
      a' := p + 1;
    } else {
      a' := a;
    }
  }

  lemma EscapeStep(c: seq<byte>, start: nat, end: nat, p: nat, a: nat, written: nat) returns (a': nat)
    requires end < |c| && Within(c, start, end, p, a, written) && p < end && c[p] == BACKSLASH
    ensures Within(c, start, end, p + 2, a', written + 1)
  {
    if a < end { NextUnit(c, a, end); }
    a' := if a == p then p + 2 else if a >= end then end + 1 else if c[a] == BACKSLASH then a + 2 else a + 1;
  }

  /** The characters of a \u and what stands behind it: where the first scan then stops, and for how many units. */
  lemma LiteralUnits(c: seq<byte>, end: nat, p: nat, a: nat) returns (a': nat)
    requires end < |c| && (a == p || a == p + 1) && Joined(c, a, end) && p + 6 <= end
    requires c[p] == BACKSLASH && c[p + 1] == LOWER_U
    ensures Joined(c, a', end) && p + 6 <= a' <= p + 7
    ensures Units(c, a, end) >= 3 + Units(c, a', end)
    ensures HexDigits(c, p + 2) ==> a' == p + 6 && Units(c, a, end) == 5 + Units(c, a', end)
  {
    NextUnit(c, a, end);
    if HexDigits(c, p + 2) {
      FourDigits(c, p + 2, end);
      a' := p + 6;
    } else {
      a' := FourCharacters(c, p + 2, end);
    }
  }

  lemma LiteralStep(c: seq<byte>, start: nat, end: nat, p: nat, a: nat, written: nat) returns (a': nat)
    requires end < |c| && Within(c, start, end, p, a, written) && p < end && c[p] == BACKSLASH && c[p + 1] == LOWER_U
    requires Utf16Literal(c, p, end).Literal?
    ensures var l := Utf16Literal(c, p, end);
            Within(c, start, end, p + l.length, a', written + |Utf8(l.codepoint)|)
  {
    var l := Utf16Literal(c, p, end);
    hide Joined, Units, FindEnd;
    a' := LiteralUnits(c, end, p, a);
    HexOrZero(c, p + 2);
    if l.length == 12 {
      HexOrZero(c, p + 8);
      a' := LiteralUnits(c, end, p + 6, p + 6);
    }
  }

  lemma HexOrZero(c: seq<byte>, i: nat)
    requires i + 4 <= |c|
    ensures HexDigits(c, i) || ParseHex4(c, i) == 0
  {
  }

  lemma PrependTwice(a: seq<byte>, b: seq<byte>, d: Decoded)
    ensures Prepend(a, Prepend(b, d)) == Prepend(a + b, d)
  {
    if d.Bytes? { assert a + (b + d.bytes) == (a + b) + d.bytes; }
  }

  /** The two scans agree on an end; the first sizes the output by the units it passes. */
  method MeasureString(c: seq<byte>, o: nat) returns (found: bool, end: nat, allocationLength: nat)
    requires o < |c| && c[o] == QUOTE
    ensures found <==> FindEnd(c, o + 1) < |c|
    ensures found ==> end == FindEnd(c, o + 1) && o < end && Joined(c, o + 1, end)
    ensures found ==> allocationLength == Units(c, o + 1, end) + 1
  {
    var skippedBytes := 0;
    end, found, allocationLength := o + 1, false, 0;
    ghost var passed := 0;
    while end < |c| && c[end] != QUOTE
      invariant o + 1 <= end <= |c| && FindEnd(c, end) == FindEnd(c, o + 1)
      invariant passed + skippedBytes == end - (o + 1)
      invariant FindEnd(c, o + 1) < |c| ==>
                  end <= FindEnd(c, o + 1) &&
                  Units(c, o + 1, FindEnd(c, o + 1)) == passed + Units(c, end, FindEnd(c, o + 1))
      decreases |c| - end
    {
      if c[end] == BACKSLASH {
        if end + 1 >= |c| {
          return;
        }
        skippedBytes := skippedBytes + 1;
        end := end + 1;
      }
      end := end + 1;
      passed := passed + 1;
    }
    if end >= |c| || c[end] != QUOTE {
      return;
    }
    found, allocationLength := true, end - o - skippedBytes;
  }

  /** parse_string. The output holds what the first scan counted and a terminating NUL; every index written is checked
      against that size, whatever the text. */
  method ReadString(c: seq<byte>, o: nat) returns (r: Outcome<seq<byte>>)
    requires o < |c|
    ensures r == ParseString(c, o)
    ensures r.Parsed? ==> |r.value| <= Units(c, o + 1, r.offset - 1)
  {
    hide Decode, Units, Joined, FindEnd, Utf16Literal, Utf8, Unescape, Prepend;
    if c[o] != QUOTE {
      return Failed;
    }
    var found, end, allocationLength := MeasureString(c, o);
    if !found {
      return Failed;
    }
    var output := new byte[allocationLength + 1];
    var p: nat, n: nat := o + 1, 0;
    ghost var a: nat, start, d := o + 1, o + 1, Decode(c, o + 1, end);
    PrependNothing(d);
    while p < end
      invariant o + 1 <= p <= end + 1 && n <= output.Length
      invariant Within(c, start, end, p, a, n)
      invariant Prepend(output[..n], Decode(c, p, end)) == d
      decreases end + 1 - p
    {
      DecodeStep(c, p, end);
      if c[p] != BACKSLASH {
        a := PlainStep(c, start, end, p, a, n);
        PrependTwice(output[..n], [c[p]], Decode(c, p + 1, end));
        output[n] := c[p];
        assert output[..n + 1] == output[..n] + [c[p]];
        p, n := p + 1, n + 1;
      } else if c[p + 1] == LOWER_U {
        if Utf16Literal(c, p, end).Literal? {
          ghost var l := Utf16Literal(c, p, end);
          PrependTwice(output[..n], Utf8(l.codepoint), Decode(c, p + l.length, end));
          a := LiteralStep(c, start, end, p, a, n);
        }
        var sequenceLength, next := Utf16LiteralToUtf8(c, p, end, output, n);
        if sequenceLength == 0 {
          PrependMalformed(output[..n]);
          return Failed;
        }
        p, n := p + sequenceLength, next;
      } else {
        if Unescape(c[p + 1]) < 0 {
          PrependMalformed(output[..n]);
          return Failed;
        }
        a := EscapeStep(c, start, end, p, a, n);
        PrependTwice(output[..n], [Unescape(c[p + 1])], Decode(c, p + 2, end));
        output[n] := Unescape(c[p + 1]);
        assert output[..n + 1] == output[..n] + [output[n]];
        p, n := p + 2, n + 1;
      }
    }
    DecodeEnds(c, p, end);
    PrependEnd(output[..n]);
    output[n] := NUL;
    return Parsed(output[..n], end + 1);
  }

  /** One round of the second scan. */
  lemma DecodeStep(c: seq<byte>, p: nat, end: nat)
    requires p < end < |c|
    ensures c[p] != BACKSLASH ==> Decode(c, p, end) == Prepend([c[p]], Decode(c, p + 1, end))
    ensures c[p] == BACKSLASH && c[p + 1] == LOWER_U ==>
              var l := Utf16Literal(c, p, end);
              Decode(c, p, end) == if l.Literal? then Prepend(Utf8(l.codepoint), Decode(c, p + l.length, end)) else Malformed
    ensures c[p] == BACKSLASH && c[p + 1] != LOWER_U ==>
              Unescape(c[p + 1]) < 256 &&
              Decode(c, p, end) == if Unescape(c[p + 1]) >= 0 then Prepend([Unescape(c[p + 1])], Decode(c, p + 2, end)) else Malformed
  {
  }

  lemma DecodeEnds(c: seq<byte>, p: nat, end: nat)
    requires end < |c| && p >= end
    ensures Decode(c, p, end) == Bytes([])
  {
  }

  lemma PrependNothing(d: Decoded)
    ensures Prepend([], d) == d
  {
    if d.Bytes? { assert [] + d.bytes == d.bytes; }
  }

  lemma PrependEnd(a: seq<byte>)
    ensures Prepend(a, Bytes([])) == Bytes(a)
  {
    assert a + [] == a;
  }

  lemma PrependMalformed(a: seq<byte>)
    ensures Prepend(a, Malformed) == Malformed
  {
  }
}
