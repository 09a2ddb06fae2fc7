/** The value-ordered lists of list.c seen as sequences. */

module ItemLists {

  /** A ListItem_t on a list: xItemValue and pvOwner. A list is the sequence of its items from head to tail;
      functions, predicates and proofs all follow its structure. */
  datatype Item<T> = Item(value: nat, owner: T)

  ghost predicate Ascending<T>(s: seq<Item<T>>) {
    |s| > 1 ==> s[0].value <= s[1].value && Ascending(s[1..])
  }

  ghost predicate DistinctOwners<T>(s: seq<Item<T>>) {
    s != [] ==> !HasOwner(s[1..], s[0].owner) && DistinctOwners(s[1..])
  }

  ghost predicate AllAtLeast<T>(s: seq<Item<T>>, lo: nat) {
    s != [] ==> lo <= s[0].value && AllAtLeast(s[1..], lo)
  }

  ghost predicate AllBelow<T>(s: seq<Item<T>>, hi: nat) {
    s != [] ==> s[0].value < hi && AllBelow(s[1..], hi)
  }

  predicate HasOwner<T(==)>(s: seq<Item<T>>, t: T) {
    s != [] && (s[0].owner == t || HasOwner(s[1..], t))
  }

  predicate HasItem<T(==)>(s: seq<Item<T>>, x: Item<T>) {
    s != [] && (s[0] == x || HasItem(s[1..], x))
  }

  /** What vListInsert does: the new item goes in front of the first larger value, so items with equal values stay
      in insertion order. */
  function InsertSorted<T>(s: seq<Item<T>>, x: Item<T>): seq<Item<T>> {
    if s == [] || x.value < s[0].value then [x] + s else [s[0]] + InsertSorted(s[1..], x)
  }

  /** uxListRemove on the item of an owner. */
  function RemoveOwner<T(==)>(s: seq<Item<T>>, t: T): seq<Item<T>> {
    if s == [] then [] else if s[0].owner == t then s[1..] else [s[0]] + RemoveOwner(s[1..], t)
  }

  /** Owners in list order. */
  function Owners<T>(s: seq<Item<T>>): seq<T> {
    if s == [] then [] else [s[0].owner] + Owners(s[1..])
  }

  /** The new item stands behind everything up to the first larger value, equal values included. */
  lemma {:induction false} BehindItsEquals<T>(s: seq<Item<T>>, x: Item<T>) returns (p: nat)
    ensures p <= |s| && InsertSorted(s, x) == s[..p] + [x] + s[p..]
    ensures forall k :: 0 <= k < p ==> s[k].value <= x.value
    ensures p < |s| ==> x.value < s[p].value
  {
    if s == [] || x.value < s[0].value {
      p := 0;
      assert s[..0] + [x] + s[0..] == [x] + s;
    } else {
      var q := BehindItsEquals(s[1..], x);
      p := q + 1;
      assert [s[0]] + (s[1..][..q] + [x] + s[1..][q..]) == s[..p] + [x] + s[p..];
    }
  }

  /** Removing an item takes it out of the part of the list that has it, and leaves the rest in order. */
  lemma {:induction false} RemoveFromOne<T>(a: seq<Item<T>>, x: Item<T>, b: seq<Item<T>>)
    requires !HasOwner(a, x.owner)
    ensures RemoveOwner(a + ([x] + b), x.owner) == a + b
  {
    if a == [] {
      assert a + ([x] + b) == [x] + b && a + b == b;
    } else {
      RemoveFromOne(a[1..], x, b);
      assert (a + ([x] + b))[1..] == a[1..] + ([x] + b);
    }
  }

  // ---- What insertion keeps ----

  lemma {:induction false} InsertKeepsAscending<T>(s: seq<Item<T>>, x: Item<T>)
    requires Ascending(s)
    ensures Ascending(InsertSorted(s, x))
    ensures InsertSorted(s, x) != []
    ensures InsertSorted(s, x)[0] == if s == [] || x.value < s[0].value then x else s[0]
  {
    if !(s == [] || x.value < s[0].value) {
      InsertKeepsAscending(s[1..], x);
    }
  }

  lemma {:induction false} InsertKeepsDistinct<T>(s: seq<Item<T>>, x: Item<T>)
    requires DistinctOwners(s) && !HasOwner(s, x.owner)
    ensures DistinctOwners(InsertSorted(s, x))
  {
    if !(s == [] || x.value < s[0].value) {
      InsertKeepsDistinct(s[1..], x);
      InsertKeepsAway(s[1..], x, s[0].owner);
    }
  }

  lemma {:induction false} InsertKeepsAway<T>(s: seq<Item<T>>, x: Item<T>, t: T)
    ensures HasOwner(InsertSorted(s, x), t) <==> HasOwner(s, t) || x.owner == t
  {
    if !(s == [] || x.value < s[0].value) {
      InsertKeepsAway(s[1..], x, t);
    }
  }

  lemma {:induction false} InsertKeepsItems<T>(s: seq<Item<T>>, x: Item<T>, y: Item<T>)
    ensures HasItem(InsertSorted(s, x), y) <==> HasItem(s, y) || y == x
  {
    if !(s == [] || x.value < s[0].value) {
      InsertKeepsItems(s[1..], x, y);
    }
  }

  lemma {:induction false} InsertKeepsAtLeast<T>(s: seq<Item<T>>, x: Item<T>, lo: nat)
    requires lo <= x.value && AllAtLeast(s, lo)
    ensures AllAtLeast(InsertSorted(s, x), lo)
  {
    if !(s == [] || x.value < s[0].value) {
      InsertKeepsAtLeast(s[1..], x, lo);
    }
  }

  lemma {:induction false} InsertKeepsBelow<T>(s: seq<Item<T>>, x: Item<T>, hi: nat)
    requires x.value < hi && AllBelow(s, hi)
    ensures AllBelow(InsertSorted(s, x), hi)
  {
    if !(s == [] || x.value < s[0].value) {
      InsertKeepsBelow(s[1..], x, hi);
    }
  }

  // ---- What removal keeps ----

  lemma {:induction false} RemoveKeepsAscending<T>(s: seq<Item<T>>, t: T)
    requires Ascending(s)
    ensures Ascending(RemoveOwner(s, t))
    ensures RemoveOwner(s, t) != [] ==> s != [] && s[0].value <= RemoveOwner(s, t)[0].value
  {
    if s != [] && s[0].owner != t {
      RemoveKeepsAscending(s[1..], t);
    }
  }

  lemma {:induction false} RemoveKeepsDistinct<T>(s: seq<Item<T>>, t: T)
    requires DistinctOwners(s)
    ensures DistinctOwners(RemoveOwner(s, t)) && !HasOwner(RemoveOwner(s, t), t)
  {
    if s != [] && s[0].owner != t {
      RemoveKeepsDistinct(s[1..], t);
      RemoveKeepsAway(s[1..], t, s[0].owner);
    }
  }

  lemma {:induction false} RemoveKeepsAway<T>(s: seq<Item<T>>, t: T, t': T)
    requires !HasOwner(s, t')
    ensures !HasOwner(RemoveOwner(s, t), t')
  {
    if s != [] && s[0].owner != t {
      RemoveKeepsAway(s[1..], t, t');
    }
  }

  lemma {:induction false} RemoveKeepsItems<T>(s: seq<Item<T>>, t: T, y: Item<T>)
    requires HasItem(s, y) && y.owner != t
    ensures HasItem(RemoveOwner(s, t), y)
  {
    if s[0] != y && s[0].owner != t {
      RemoveKeepsItems(s[1..], t, y);
    }
  }

  lemma {:induction false} RemoveKeepsAtLeast<T>(s: seq<Item<T>>, t: T, lo: nat)
    requires AllAtLeast(s, lo)
    ensures AllAtLeast(RemoveOwner(s, t), lo)
  {
    if s != [] && s[0].owner != t {
      RemoveKeepsAtLeast(s[1..], t, lo);
    }
  }

  lemma {:induction false} RemoveKeepsBelow<T>(s: seq<Item<T>>, t: T, hi: nat)
    requires AllBelow(s, hi)
    ensures AllBelow(RemoveOwner(s, t), hi)
  {
    if s != [] && s[0].owner != t {
      RemoveKeepsBelow(s[1..], t, hi);
    }
  }

  lemma {:induction false} RemoveAbsent<T>(s: seq<Item<T>>, t: T)
    requires !HasOwner(s, t)
    ensures RemoveOwner(s, t) == s
  {
    if s != [] {
      RemoveAbsent(s[1..], t);
    }
  }

  /** In an ascending list nothing is below the head. */
  lemma {:induction false} AscendingFromHead<T>(s: seq<Item<T>>, lo: nat)
    requires Ascending(s) && (s != [] ==> lo <= s[0].value)
    ensures AllAtLeast(s, lo)
  {
    if s != [] {
      AscendingFromHead(s[1..], lo);
    }
  }

  /** An item's owner is on the list, and its value obeys the list's bounds. */
  lemma {:induction false} ItemHasOwner<T>(s: seq<Item<T>>, x: Item<T>)
    requires HasItem(s, x)
    ensures HasOwner(s, x.owner)
    ensures forall lo: nat :: AllAtLeast(s, lo) ==> lo <= x.value
  {
    if s[0] != x {
      ItemHasOwner(s[1..], x);
    }
  }
}
