/** What several components share: bytes, task numbers, and lists of distinct elements that grow and shrink in the
    middle. */

module Basics {

  type byte = x: int | 0 <= x < 256

  type TaskId = nat

  /** configMAX_PRIORITIES */
  const MAX_PRIORITIES: nat := 32

  /** taskEVENT_LIST_ITEM_VALUE_IN_USE: the bit that says an event list item value is not a priority. */
  const ITEM_VALUE_IN_USE: nat := 0x8000_0000

  predicate NoDup<T(==)>(s: seq<T>) {
    s != [] ==> s[0] !in s[1..] && NoDup(s[1..])
  }

  /** The first occurrence of an element taken out. */
  function Without<T(==)>(s: seq<T>, x: T): seq<T> {
    if s == [] then [] else if s[0] == x then s[1..] else [s[0]] + Without(s[1..], x)
  }

  lemma {:induction false} WithoutMembers<T>(s: seq<T>, x: T)
    requires NoDup(s)
    ensures NoDup(Without(s, x))
    ensures forall y :: y in Without(s, x) <==> y in s && y != x
  {
    if s != [] && s[0] != x {
      WithoutMembers(s[1..], x);
    }
  }

  /** What stays keeps its order: an element is taken out of the part of a list that has it, and the rest is untouched. */
  lemma {:induction false} WithoutBoth<T>(a: seq<T>, b: seq<T>, x: T)
    ensures Without(a + b, x) == if x in a then Without(a, x) + b else a + Without(b, x)
    decreases a
  {
    if a == [] {
      assert a + b == b;
    } else if a[0] == x {
      assert (a + b)[1..] == a[1..] + b;
    } else {
      WithoutBoth(a[1..], b, x);
      assert (a + b)[1..] == a[1..] + b;
    }
  }

  /** An element put in at position p. */
  function Inserted<T>(s: seq<T>, p: nat, x: T): seq<T>
    requires p <= |s|
  {
    s[..p] + [x] + s[p..]
  }

  /** The element at position p taken out. */
  function Removed<T>(s: seq<T>, p: nat): seq<T>
    requires p < |s|
  {
    s[..p] + s[p + 1..]
  }
}
