/** list.c: a doubly linked ring of items with an end marker and a moving index. */

module ListRing {
  import opened Basics
  import opened Ticks
  import opened ItemLists

  class ListItem {
    var itemValue: TickType
    var next: ListItem?
    var previous: ListItem?
    var container: List?

    constructor (itemValue: TickType)
      ensures this.itemValue == itemValue && container == null
    {
      this.itemValue, container := itemValue, null;
      next, previous := null, null;
    }
  }

  /** The items of a ring as list items of ItemLists: a value and an owner. */
  ghost function View(items: seq<ListItem>): seq<Item<ListItem>>
    reads items`itemValue
  {
    if items == [] then [] else [Item(items[0].itemValue, items[0])] + View(items[1..])
  }

  /** Following `next` from each place leads to the place after it, and following `previous` back again; place p is
      left out when p is given. */
  ghost predicate LinkedBut(r: seq<ListItem>, p: int)
    reads r`next, r`previous
  {
    && (forall k :: 0 <= k < |r| - 1 && k != p ==> r[k].next == r[k + 1])
    && (forall k :: 1 <= k < |r| && k != p + 1 ==> r[k].previous == r[k - 1])
  }

  ghost predicate Linked(r: seq<ListItem>)
    reads r`next, r`previous
  {
    LinkedBut(r, -1)
  }

  /** A ring opened behind place p and closed over a new node. */
  lemma SplicedIn(r: seq<ListItem>, p: nat, item: ListItem)
    requires p + 1 < |r| && LinkedBut(r, p)
    requires r[p].next == item && item.next == r[p + 1] && item.previous == r[p] && r[p + 1].previous == item
    ensures Linked(r[..p + 1] + [item] + r[p + 1..])
  {
    var s := r[..p + 1] + [item] + r[p + 1..];
    forall k | 0 <= k < |s| - 1 ensures s[k].next == s[k + 1] {
      if k < p { assert r[k].next == r[k + 1]; } else if k > p + 1 { assert r[k - 1].next == r[k]; }
    }
    forall k | 1 <= k < |s| ensures s[k].previous == s[k - 1] {
      if k < p + 1 { assert r[k].previous == r[k - 1]; } else if k > p + 2 { assert r[k - 1].previous == r[k - 2]; }
    }
  }

  /** A ring closed over the node at place p. */
  lemma SplicedOut(r: seq<ListItem>, p: nat)
    requires 0 < p < |r| - 1
    requires forall k :: 0 <= k < |r| - 1 && k != p - 1 && k != p ==> r[k].next == r[k + 1]
    requires forall k :: 1 <= k < |r| && k != p && k != p + 1 ==> r[k].previous == r[k - 1]
    requires r[p - 1].next == r[p + 1] && r[p + 1].previous == r[p - 1]
    ensures Linked(r[..p] + r[p + 1..])
  {
    var s := r[..p] + r[p + 1..];
    forall k | 0 <= k < |s| - 1 ensures s[k].next == s[k + 1] {
      if k < p - 1 { assert r[k].next == r[k + 1]; } else if k > p - 1 { assert r[k + 1].next == r[k + 2]; }
    }
    forall k | 1 <= k < |s| ensures s[k].previous == s[k - 1] {
      if k < p { assert r[k].previous == r[k - 1]; } else if k > p { assert r[k + 1].previous == r[k]; }
    }
  }

  /** The ring of a list from the marker around to the marker. */
  ghost function RingOf(end: ListItem, items: seq<ListItem>): (r: seq<ListItem>)
    ensures |r| == |items| + 2 && r[0] == end && r[|items| + 1] == end
    ensures forall k :: 1 <= k <= |items| ==> r[k] == items[k - 1]
  {
    [end] + items + [end]
  }

  /** The items differ from one another and from the marker. */
  ghost predicate Distinct(end: ListItem, items: seq<ListItem>) {
    && (forall i :: 0 <= i < |items| ==> items[i] != end)
    && (forall i, j :: 0 <= i < j < |items| ==> items[i] != items[j])
  }

  /** The node at a place of the ring is at no other, the marker apart, and a stranger is at none. */
  lemma OnlyPlace(end: ListItem, items: seq<ListItem>, p: nat, stranger: ListItem)
    requires Distinct(end, items) && p <= |items| && stranger != end && stranger !in items
    ensures var r := RingOf(end, items);
            && (forall k :: 0 <= k <= |items| && k != p ==> r[k] != r[p])
            && (forall k :: 1 <= k <= |items| + 1 && k != p + 1 ==> r[k] != r[p + 1])
            && (forall k :: 0 <= k < |r| ==> r[k] != stranger)
  {
  }

  lemma RingInserted(end: ListItem, items: seq<ListItem>, p: nat, item: ListItem, at: nat)
    requires p <= |items| && at <= |items|
    ensures var r := RingOf(end, items); RingOf(end, Inserted(items, p, item)) == r[..p + 1] + [item] + r[p + 1..]
    ensures Distinct(end, items) && item != end && item !in items ==> Distinct(end, Inserted(items, p, item))
    ensures RingOf(end, items)[at] == RingOf(end, Inserted(items, p, item))[if p < at then at + 1 else at]
    ensures |Inserted(items, p, item)| == |items| + 1
  {
    var s := Inserted(items, p, item);
    assert items == items[..p] + items[p..];
    assert s[p] == item;
  }

  lemma RingRemoved(end: ListItem, items: seq<ListItem>, p: nat, at: nat)
    requires p < |items| && Distinct(end, items) && at <= |items|
    ensures var r := RingOf(end, items); RingOf(end, Removed(items, p)) == r[..p + 1] + r[p + 2..]
    ensures Distinct(end, Removed(items, p)) && items[p] !in Removed(items, p)
    ensures |Removed(items, p)| == |items| - 1
    ensures RingOf(end, Removed(items, p))[if at > p then at - 1 else at]
            == RingOf(end, items)[if at == p + 1 then p else at]
  {
    assert items == items[..p] + [items[p]] + items[p + 1..];
  }

  ghost predicate AllIn(items: seq<ListItem>, l: List)
    reads items`container
  {
    forall x :: x in items ==> x.container == l
  }

  lemma AllInInserted(items: seq<ListItem>, p: nat, item: ListItem, l: List)
    requires p <= |items| && AllIn(items, l) && item.container == l
    ensures AllIn(Inserted(items, p, item), l)
  {
    assert forall k :: 0 <= k < |items| ==> items[k] in items;
  }

  class List {
    var numberOfItems: nat
    var index: ListItem
    const end: ListItem
    /** The items from head to tail, and where the index stands: on the end marker at 0, on the k-th item at k. */
    ghost var items: seq<ListItem>
    ghost var at: nat

    ghost predicate Valid()
      reads this, end, items
    {
      && Distinct(end, items)
      && numberOfItems == |items| && at <= |items| && index == RingOf(end, items)[at] && end.itemValue == PORT_MAX_DELAY
      && Linked(RingOf(end, items))
      && AllIn(items, this)
    }

    /** vListInitialise */
    constructor ()
      ensures Valid() && items == [] && fresh(end) && end.itemValue == PORT_MAX_DELAY
    {
      end := new ListItem(PORT_MAX_DELAY);
      numberOfItems, items, at := 0, [], 0;
      index := end;
      new;
      end.next, end.previous := end, end;
    }

    /** Linking an item in behind the p-th node. */
    method LinkBehind(node: ListItem, item: ListItem, ghost p: nat, ghost after: ListItem)
      requires Valid() && p <= |items| && node == RingOf(end, items)[p] && item != end && item !in items
      requires after == RingOf(end, items)[p + 1]
      modifies this`numberOfItems, this`items, this`at
      modifies item`next, item`previous, item`container, node`next, after`previous
      ensures Valid() && items == Inserted(old(items), p, item)
      ensures at == if p < old(at) then old(at) + 1 else old(at)
    {
      hide Distinct, Inserted, RingOf, Linked, LinkedBut;
      OnlyPlace(end, items, p, item);
      RingInserted(end, items, p, item, at);
      Splice(RingOf(end, items), p, node, item, after);
      item.container := this;
      numberOfItems := numberOfItems + 1;
      ghost var k := if p < at then at + 1 else at;
      assert index == RingOf(end, Inserted(items, p, item))[k];
      AllInInserted(items, p, item, this);
      items := Inserted(items, p, item);
      at := k;
    }

    /** vListInsertEnd: in front of the index, so that every other item has its turn first. */
    method InsertEnd(item: ListItem)
      requires Valid() && item != end && item !in items
      modifies this`numberOfItems, this`items, this`at
      modifies item`next, item`previous, item`container, index`previous, if index.previous != null then {index.previous} else {}
      ensures Valid()
      ensures items == if old(at) == 0 then old(items) + [item] else Inserted(old(items), old(at) - 1, item)
      ensures index == old(index) && Upcoming(items, at) == Upcoming(old(items), old(at)) + [item]
    {
      hide Distinct, LinkedBut, AllIn;
      ghost var p := if at == 0 then |items| else at - 1;
      RingLinks(end, items, p);
      LinkBehind(index.previous, item, p, index);
      UpcomingInserted(old(items), old(at), item);
    }

    /** The search of vListInsert: the last place before a larger value, or the last of all. */
    method FindPlace(valueOfInsertion: TickType, ghost item: ListItem) returns (cursor: ListItem, ghost p: nat)
      requires Valid()
      ensures p <= |items| && cursor == RingOf(end, items)[p]
      ensures var x := Item(valueOfInsertion, item);
              InsertSorted(View(items), x) == View(items[..p]) + ([x] + View(items[p..]))
    {
      hide Distinct, LinkedBut, AllIn, Linked, InsertSorted, View;
      ghost var x := Item(valueOfInsertion, item);
      if valueOfInsertion == PORT_MAX_DELAY {
        RingLinks(end, items, |items|);
        LargestGoesLast(items, x);
        return end.previous, |items|;
      }
      cursor, p := end, 0;
      ViewFrom(items, 0);
      RingLinks(end, items, 0);
      while cursor.next.itemValue <= valueOfInsertion
        invariant p <= |items| && cursor == RingOf(end, items)[p] && cursor.next == RingOf(end, items)[p + 1]
        invariant InsertSorted(View(items), x) == View(items[..p]) + InsertSorted(View(items[p..]), x)
        decreases |items| - p
      {
        assert p < |items|;
        SearchStep(items, p, x);
        p := p + 1;
        cursor := cursor.next;
        RingLinks(end, items, p);
      }
      SearchEnds(items, p, x);
    }

    /** vListInsert */
    method Insert(item: ListItem)
      requires Valid() && item != end && item !in items
      modifies this`numberOfItems, this`items, this`at
      modifies item`next, item`previous, item`container
      modifies items`next, items`previous, end`next, end`previous
      ensures Valid()
      ensures View(items) == InsertSorted(old(View(items)), Item(item.itemValue, item)) && index == old(index)
    {
      hide Distinct, LinkedBut, AllIn, Linked, InsertSorted, View, Inserted;
      var cursor, p := FindPlace(item.itemValue, item);
      ghost var before, after := items, RingOf(end, items)[p + 1];
      assert cursor == end || cursor in items;
      assert after == end || after in items;
      LinkBehind(cursor, item, p, after);
      ViewInserted(before, p, item);
    }

    /** uxListRemove */
    method Remove(item: ListItem, ghost p: nat) returns (left: nat)
      requires Valid() && p < |items| && item == items[p]
      modifies this`numberOfItems, this`items, this`at, this`index, item`container
      modifies items`next, items`previous, end`next, end`previous
      ensures Valid() && items == Removed(old(items), p) && left == |items| && item.container == null
      ensures index == if old(index) == item then RingOf(end, old(items))[p] else old(index)
    {
      hide Distinct, LinkedBut, Linked, Removed, RingOf, AllIn;
      ghost var r := RingOf(end, items);
      AllInMeans(items, this);
      RingLinks(end, items, p);
      RingLinks(end, items, p + 1);
      RingRemoved(end, items, p, at);
      WhichPlace(end, items, at, p + 1);
      ItemsDiffer(end, items, p);
      Unsplice(r, p + 1, item, end, items);
      if index == item {
        index := item.previous;
      }
      ghost var rest, k := Removed(items, p), if at > p then at - 1 else at;
      assert index == RingOf(end, rest)[k];
      item.container := null;
      numberOfItems := numberOfItems - 1;
      AllInRemoved(items, p, this);
      items, at := rest, k;
      assert Linked(RingOf(end, items));
      left := numberOfItems;
    }

    /** listGET_OWNER_OF_NEXT_ENTRY: the index moves on, past the marker. */
    method NextEntry() returns (item: ListItem)
      requires Valid() && items != []
      modifies this`index, this`at
      ensures Valid() && item == index == Rotation(items, old(at))[0]
      ensures Rotation(items, at) == Rotation(items, old(at))[1..] + [item]
    {
      hide Distinct, LinkedBut, Linked, AllIn, Rotation;
      RingLinks(end, items, at);
      RingLinks(end, items, 0);
      NotTheMarker(end, items);
      TurnsGo(items, at);
      index := index.next;
      at := at + 1;
      if index == end {
        index := index.next;
        at := 1;
      }
      item := index;
    }
  }

  /** The four links that put an item into a ring. */
  method Splice(ghost r: seq<ListItem>, ghost p: nat, node: ListItem, item: ListItem, ghost after: ListItem)
    requires p + 1 < |r| && node == r[p] && after == r[p + 1] && Linked(r)
    requires forall k :: 0 <= k < |r| - 1 && k != p ==> r[k] != r[p]
    requires forall k :: 1 <= k < |r| && k != p + 1 ==> r[k] != r[p + 1]
    requires forall k :: 0 <= k < |r| ==> r[k] != item
    modifies item`next, item`previous, node`next, after`previous
    ensures Linked(r[..p + 1] + [item] + r[p + 1..])
  {
    assert node.next == r[p + 1];
    item.next := node.next;
    item.next.previous := item;
    item.previous := node;
    node.next := item;
    assert LinkedBut(r, p);
    SplicedIn(r, p, item);
  }

  /** The links at a place of a valid ring. */
  lemma RingLinks(end: ListItem, items: seq<ListItem>, p: nat)
    requires Linked(RingOf(end, items)) && p <= |items|
    ensures RingOf(end, items)[p].next == RingOf(end, items)[p + 1]
    ensures RingOf(end, items)[p + 1].previous == RingOf(end, items)[p]
    ensures end.previous == RingOf(end, items)[|items|]
  {
    assert RingOf(end, items)[|items| + 1].previous == RingOf(end, items)[|items|];
  }

  lemma ItemsDiffer(end: ListItem, items: seq<ListItem>, p: nat)
    requires Distinct(end, items) && p < |items|
    ensures forall k :: 0 <= k < |items| && k != p ==> items[k] != items[p]
  {
  }

  lemma WhichPlace(end: ListItem, items: seq<ListItem>, i: nat, j: nat)
    requires Distinct(end, items) && i <= |items| && 0 < j <= |items|
    ensures RingOf(end, items)[i] == RingOf(end, items)[j] <==> i == j
  {
  }

  /** The two links that take an item out of a ring. */
  method Unsplice(ghost r: seq<ListItem>, ghost p: nat, item: ListItem, ghost end: ListItem, ghost items: seq<ListItem>)
    requires r == RingOf(end, items) && Distinct(end, items) && Linked(r) && 0 < p <= |items| && item == r[p]
    modifies items`next, items`previous, end`next, end`previous
    ensures Linked(r[..p] + r[p + 1..]) && item.previous == old(item.previous)
  {
    assert item.next == r[p + 1] && item.previous == r[p - 1];
    assert forall k :: 0 <= k < |r| ==> r[k] == end || r[k] in items;
    forall k | 0 <= k < |r| - 1 && k != p - 1 ensures r[k] != r[p - 1] {}
    forall k | 1 <= k < |r| && k != p + 1 ensures r[k] != r[p + 1] {}
    item.next.previous := item.previous;
    item.previous.next := item.next;
    SplicedOut(r, p);
  }

  lemma AllInMeans(items: seq<ListItem>, l: List)
    requires AllIn(items, l)
    ensures forall k :: 0 <= k < |items| ==> items[k].container == l
  {
  }

  lemma AllInRemoved(items: seq<ListItem>, p: nat, l: List)
    requires p < |items| && forall k :: 0 <= k < |items| && k != p ==> items[k].container == l
    ensures AllIn(Removed(items, p), l)
  {
    var s := Removed(items, p);
    forall x | x in s ensures x.container == l {
      var k :| 0 <= k < |s| && s[k] == x;
      assert x == items[if k < p then k else k + 1];
    }
  }

  // ---- The search of vListInsert ----

  lemma {:induction false} ViewSplit(a: seq<ListItem>, b: seq<ListItem>)
    ensures View(a + b) == View(a) + View(b)
    decreases a
  {
    if a == [] {
      assert a + b == b && View(a) == [];
    } else {
      ViewSplit(a[1..], b);
      assert (a + b)[1..] == a[1..] + b && (a + b)[0] == a[0];
      var head := [Item(a[0].itemValue, a[0])];
      assert View(a) == head + View(a[1..]);
      assert head + (View(a[1..]) + View(b)) == (head + View(a[1..])) + View(b);
    }
  }

  lemma ViewFrom(items: seq<ListItem>, p: nat)
    requires p <= |items|
    ensures View(items) == View(items[..p]) + View(items[p..])
    ensures p == 0 ==> View(items[..p]) == [] && items[p..] == items && forall v: seq<Item<ListItem>> :: [] + v == v
  {
    assert items == items[..p] + items[p..];
    ViewSplit(items[..p], items[p..]);
  }

  lemma SearchStep(items: seq<ListItem>, p: nat, x: Item<ListItem>)
    requires p < |items| && items[p].itemValue <= x.value
    requires InsertSorted(View(items), x) == View(items[..p]) + InsertSorted(View(items[p..]), x)
    ensures InsertSorted(View(items), x) == View(items[..p + 1]) + InsertSorted(View(items[p + 1..]), x)
  {
    hide InsertSorted, View;
    var head, tail := Item(items[p].itemValue, items[p]), View(items[p + 1..]);
    assert items[p..] == [items[p]] + items[p + 1..] && items[..p + 1] == items[..p] + [items[p]];
    ViewSplit([items[p]], items[p + 1..]);
    ViewSplit(items[..p], [items[p]]);
    ViewOne(items[p]);
    InsertBehind(head, tail, x);
    assert View(items[..p]) + ([head] + InsertSorted(tail, x)) == (View(items[..p]) + [head]) + InsertSorted(tail, x);
  }

  lemma ViewOne(item: ListItem)
    ensures View([item]) == [Item(item.itemValue, item)]
  {
  }

  lemma InsertBehind(head: Item<ListItem>, tail: seq<Item<ListItem>>, x: Item<ListItem>)
    requires head.value <= x.value
    ensures InsertSorted([head] + tail, x) == [head] + InsertSorted(tail, x)
  {
    assert ([head] + tail)[1..] == tail;
  }

  lemma SearchEnds(items: seq<ListItem>, p: nat, x: Item<ListItem>)
    requires p <= |items| && (p < |items| ==> items[p].itemValue > x.value)
    requires InsertSorted(View(items), x) == View(items[..p]) + InsertSorted(View(items[p..]), x)
    ensures InsertSorted(View(items), x) == View(items[..p]) + ([x] + View(items[p..]))
  {
    if p < |items| { assert items[p..][0] == items[p]; }
  }

  lemma {:induction false} LargestGoesLast(items: seq<ListItem>, x: Item<ListItem>)
    requires x.value == PORT_MAX_DELAY
    ensures InsertSorted(View(items), x) == View(items[..|items|]) + ([x] + View(items[|items|..]))
    decreases items
  {
    assert items[..|items|] == items && items[|items|..] == [];
    if items == [] {
      assert [x] + View(items) == [x];
    } else {
      LargestGoesLast(items[1..], x);
      var rest := items[1..];
      assert rest[..|rest|] == rest && rest[|rest|..] == [];
      assert View(items)[1..] == View(rest);
      var head := [Item(items[0].itemValue, items[0])];
      assert head + (View(rest) + ([x] + [])) == (head + View(rest)) + ([x] + []);
    }
  }

  lemma ViewInserted(items: seq<ListItem>, p: nat, item: ListItem)
    requires p <= |items|
    ensures View(Inserted(items, p, item)) == View(items[..p]) + ([Item(item.itemValue, item)] + View(items[p..]))
  {
    ViewSplit(items[..p] + [item], items[p..]);
    ViewSplit(items[..p], [item]);
    assert View([item]) == [Item(item.itemValue, item)];
    assert (View(items[..p]) + View([item])) + View(items[p..]) == View(items[..p]) + (View([item]) + View(items[p..]));
  }

  // ---- Taking turns ----

  /** The items in the order in which the index will come to them, the one it stands on last. */
  function Rotation(items: seq<ListItem>, at: nat): seq<ListItem>
    requires at <= |items|
  {
    items[at..] + items[..at]
  }

  /** The same without the item the index stands on. */
  function Upcoming(items: seq<ListItem>, at: nat): seq<ListItem>
    requires at <= |items|
  {
    if at == 0 then items else items[at..] + items[..at - 1]
  }

  lemma UpcomingInserted(items: seq<ListItem>, at: nat, item: ListItem)
    requires at <= |items|
    ensures Inserted(items, |items|, item) == items + [item]
    ensures at == 0 ==> Upcoming(items + [item], 0) == Upcoming(items, 0) + [item]
    ensures at > 0 ==> Upcoming(Inserted(items, at - 1, item), at + 1) == Upcoming(items, at) + [item]
  {
    if at > 0 {
      var s := Inserted(items, at - 1, item);
      assert s[at + 1..] == items[at..];
      assert s[..at] == items[..at - 1] + [item];
      assert items[at..] + (items[..at - 1] + [item]) == (items[at..] + items[..at - 1]) + [item];
    }
  }

  /** The first n choices of an unchanged list whose rotation is r. */
  function Choices(r: seq<ListItem>, n: nat): seq<ListItem>
    requires r != []
    decreases n
  {
    if n == 0 then [] else [r[0]] + Choices(r[1..] + [r[0]], n - 1)
  }

  lemma {:induction false} ChoicesFollow(r: seq<ListItem>, a: seq<ListItem>, b: seq<ListItem>)
    requires r == a + b && r != []
    ensures Choices(r, |a|) == a
    decreases |a|
  {
    if a != [] {
      assert r[1..] + [r[0]] == a[1..] + (b + [a[0]]);
      ChoicesFollow(r[1..] + [r[0]], a[1..], b + [a[0]]);
      assert [a[0]] + a[1..] == a;
    }
  }

  /** The next turn is the rotation's first, and goes to its end. */
  lemma TurnsGo(items: seq<ListItem>, at: nat)
    requires at <= |items| && items != []
    ensures at < |items| ==>
              Rotation(items, at)[0] == items[at] && Rotation(items, at + 1) == Rotation(items, at)[1..] + [items[at]]
    ensures at == |items| ==>
              Rotation(items, at)[0] == items[0] && Rotation(items, 1) == Rotation(items, at)[1..] + [items[0]]
  {
    if at < |items| {
      assert items[at..] == [items[at]] + items[at + 1..] && items[..at + 1] == items[..at] + [items[at]];
    } else {
      assert items == [items[0]] + items[1..] && items[..1] == [items[0]];
    }
  }

  lemma NotTheMarker(end: ListItem, items: seq<ListItem>)
    requires Distinct(end, items)
    ensures forall k :: 1 <= k <= |items| ==> RingOf(end, items)[k] != end
  {
  }

  lemma SameItems(a: seq<ListItem>, b: seq<ListItem>)
    ensures multiset(b + a) == multiset(a + b)
  {
  }

  lemma AllChosen(r: seq<ListItem>)
    requires r != []
    ensures Choices(r, |r|) == r
  {
    hide Choices;
    assert r == r + [];
    ChoicesFollow(r, r, []);
  }

  /** On an unchanged list of n items, n choices in a row take each of them once. */
  lemma EachOnce(items: seq<ListItem>, at: nat)
    requires items != [] && at <= |items|
    ensures |Rotation(items, at)| == |items| && Choices(Rotation(items, at), |items|) == Rotation(items, at)
    ensures multiset(Rotation(items, at)) == multiset(items)
  {
    hide Choices;
    SameItems(items[..at], items[at..]);
    assert items[..at] + items[at..] == items;
    AllChosen(Rotation(items, at));
  }
}
