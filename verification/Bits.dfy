/** The bitwise operators of the source on unsigned numbers, digit by digit; shifts are products and quotients. */

module Bits {

  function And(a: nat, b: nat): nat
    decreases a
  {
    if a == 0 || b == 0 then 0 else 2 * And(a / 2, b / 2) + (if a % 2 == 1 && b % 2 == 1 then 1 else 0)
  }

  function Or(a: nat, b: nat): nat
    decreases a
  {
    if a == 0 then b else if b == 0 then a
    else 2 * Or(a / 2, b / 2) + (if a % 2 == 1 || b % 2 == 1 then 1 else 0)
  }

  /** a << k */
  function ShiftLeft(a: nat, k: nat): (r: nat)
    ensures r >= a && (a == 0 ==> r == 0)
  {
    if k == 0 then a else 2 * ShiftLeft(a, k - 1)
  }

  /** One binary digit. */
  lemma Digit(a: nat, b: nat, x: nat, y: nat)
    requires x < 2 && y < 2
    ensures And(2 * a + x, 2 * b + y) == 2 * And(a, b) + (if x == 1 && y == 1 then 1 else 0)
    ensures Or(2 * a + x, 2 * b + y) == 2 * Or(a, b) + (if x == 1 || y == 1 then 1 else 0)
  {
    assert (2 * a + x) / 2 == a && (2 * b + y) / 2 == b;
  }

  /** The k low digits and the others do not meet. */
  lemma {:induction false} Split(k: nat, a: nat, a0: nat, b: nat, b0: nat)
    requires a0 < ShiftLeft(1, k) && b0 < ShiftLeft(1, k)
    ensures And(ShiftLeft(a, k) + a0, ShiftLeft(b, k) + b0) == ShiftLeft(And(a, b), k) + And(a0, b0)
    ensures Or(ShiftLeft(a, k) + a0, ShiftLeft(b, k) + b0) == ShiftLeft(Or(a, b), k) + Or(a0, b0)
    decreases k
  {
    hide And, Or;
    if k == 0 {
      Nothing(0);
    } else {
      Split(k - 1, a, a0 / 2, b, b0 / 2);
      Digit(ShiftLeft(a, k - 1) + a0 / 2, ShiftLeft(b, k - 1) + b0 / 2, a0 % 2, b0 % 2);
      Digit(a0 / 2, b0 / 2, a0 % 2, b0 % 2);
    }
  }

  lemma Nothing(a: nat)
    ensures And(a, 0) == And(0, a) == 0 && Or(a, 0) == Or(0, a) == a
  {
  }

  /** Masking with k ones keeps k digits. */
  lemma {:induction false} AllOnes(k: nat, a: nat)
    requires a < ShiftLeft(1, k)
    ensures And(a, ShiftLeft(1, k) - 1) == a
    decreases k
  {
    hide And;
    if k == 0 {
      Nothing(0);
    } else {
      AllOnes(k - 1, a / 2);
      Digit(a / 2, ShiftLeft(1, k - 1) - 1, a % 2, 1);
    }
  }

  lemma Masked(k: nat, q: nat, r: nat)
    requires r < ShiftLeft(1, k)
    ensures And(ShiftLeft(q, k) + r, ShiftLeft(1, k) - 1) == r
  {
    hide And;
    Split(k, q, r, 0, ShiftLeft(1, k) - 1);
    Nothing(q);
    AllOnes(k, r);
  }

  /** Digits that do not meet are added up. */
  lemma Joined(k: nat, a: nat, b: nat)
    requires b < ShiftLeft(1, k)
    ensures Or(ShiftLeft(a, k), b) == Or(b, ShiftLeft(a, k)) == ShiftLeft(a, k) + b
  {
    hide Or;
    Split(k, a, 0, 0, b);
    Split(k, 0, b, a, 0);
    Nothing(a);
    Nothing(b);
  }

  /** The shifts by constants. */
  lemma Shifted(a: nat)
    ensures ShiftLeft(a, 2) == 4 * a && ShiftLeft(a, 3) == 8 * a && ShiftLeft(a, 4) == 0x10 * a
    ensures ShiftLeft(a, 5) == 0x20 * a && ShiftLeft(a, 6) == 0x40 * a && ShiftLeft(a, 7) == 0x80 * a
    ensures ShiftLeft(a, 8) == 0x100 * a && ShiftLeft(a, 10) == 0x400 * a
  {
    assert ShiftLeft(a, 0) == a && ShiftLeft(a, 1) == 2 * a;
    assert ShiftLeft(a, 3) == 2 * ShiftLeft(a, 2) && ShiftLeft(a, 5) == 2 * ShiftLeft(a, 4);
    assert ShiftLeft(a, 7) == 2 * ShiftLeft(a, 6) && ShiftLeft(a, 10) == 2 * ShiftLeft(a, 9);
  }

  /** A continuation byte: (cp | 0x80) & 0xBF. */
  lemma ContinuationBits(cp: nat)
    ensures And(Or(cp, 0x80), 0xBF) == 0x80 + cp % 0x40
  {
    hide And, Or, ShiftLeft;
    var q, r := cp / 0x40, cp % 0x40;
    Shifted(1);
    Shifted(2);
    Shifted(q);
    Shifted(Or(q, 2));
    Nothing(r);
    Split(6, q, r, 2, 0);
    Split(6, Or(q, 2), r, 2, 0x3F);
    AllOnes(6, r);
    SecondDigit(q);
  }

  lemma SecondDigit(q: nat)
    ensures And(Or(q, 2), 2) == 2
  {
    hide ShiftLeft;
    var high, low := q / 4, q % 4;
    var marked := if low < 2 then low + 2 else low;
    LowDigits(low, marked);
    hide And, Or;
    Shifted(1);
    Shifted(high);
    Nothing(high);
    Shifted(0);
    Split(2, high, low, 0, 2);
    Split(2, high, marked, 0, 2);
  }

  lemma LowDigits(low: nat, marked: nat)
    requires low < 4 && marked == if low < 2 then low + 2 else low
    ensures Or(low, 2) == marked && And(marked, 2) == 2
  {
    assert low == 0 || low == 1 || low == 2 || low == 3;
  }

  /** The first byte of a longer sequence: (cp | mark) & 0xFF. */
  lemma FirstByteBits(cp: nat, mark: nat)
    requires (mark == 0xC0 && cp < 0x20) || (mark == 0xE0 && cp < 0x10) || (mark == 0xF0 && cp < 0x08)
    ensures And(Or(cp, mark), 0xFF) == mark + cp
  {
    hide And, Or, ShiftLeft;
    Shifted(1);
    if mark == 0xC0 {
      Shifted(6);
      Joined(5, 6, cp);
    } else if mark == 0xE0 {
      Shifted(14);
      Joined(4, 14, cp);
    } else {
      Shifted(30);
      Joined(3, 30, cp);
    }
    AllOnes(8, mark + cp);
  }

  /** A byte of its own: cp & 0x7F. */
  lemma AsciiBits(cp: nat)
    requires cp < 0x80
    ensures And(cp, 0x7F) == cp
  {
    Shifted(1);
    AllOnes(7, cp);
  }

  /** The code point of a surrogate pair: ((first & 0x3FF) << 10) | (second & 0x3FF). */
  lemma SurrogateBits(first: nat, second: nat)
    requires 0xD800 <= first <= 0xDBFF && 0xDC00 <= second <= 0xDFFF
    ensures Or(ShiftLeft(And(first, 0x3FF), 10), And(second, 0x3FF)) == (first - 0xD800) * 0x400 + (second - 0xDC00)
  {
    hide And, Or, ShiftLeft;
    Shifted(1);
    Shifted(54);
    Shifted(55);
    Shifted(first - 0xD800);
    Masked(10, 54, first - 0xD800);
    Masked(10, 55, second - 0xDC00);
    Joined(10, first - 0xD800, second - 0xDC00);
  }
}
