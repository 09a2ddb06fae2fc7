/** The children of a cJSON array or object: a chain through next, ended by NULL, with prev its inverse except that the
    first child's prev is the last child. */

module SiblingChains {
  import opened Basics
  import opened JsonText

  /** An item: its own type and text, its neighbours, and its first child. */
  class Node {
    const value: Json
    var next: Node?
    var prev: Node?
    var child: Node?

    constructor (value: Json)
      ensures this.value == value && next == null && prev == null && child == null
    {
      this.value := value;
      next, prev, child := null, null, null;
    }
  }

  /** What the children of a chain stand for. */
  ghost function Values(nodes: seq<Node>): seq<Json> {
    if nodes == [] then [] else Values(nodes[..|nodes| - 1]) + [nodes[|nodes| - 1].value]
  }

  lemma ValuesOneMore(nodes: seq<Node>, node: Node)
    ensures Values(nodes + [node]) == Values(nodes) + [node.value]
  {
    assert (nodes + [node])[..|nodes|] == nodes;
  }

  ghost predicate Distinct(nodes: seq<Node>) {
    forall i, j :: 0 <= i < j < |nodes| ==> nodes[i] != nodes[j]
  }

  /** The links inside the chain, those at place p (between p - 1 and p) left out. */
  ghost predicate LinkedBut(nodes: seq<Node>, p: int)
    reads nodes`next, nodes`prev
  {
    && (forall k :: 0 <= k < |nodes| - 1 && k != p - 1 ==> nodes[k].next == nodes[k + 1])
    && (forall k :: 1 <= k < |nodes| && k != p ==> nodes[k].prev == nodes[k - 1])
  }

  ghost predicate Linked(nodes: seq<Node>)
    reads nodes`next, nodes`prev
  {
    LinkedBut(nodes, 0)
  }

  /** The first child's prev is the last child, whose next is NULL. */
  ghost predicate Ended(nodes: seq<Node>)
    reads nodes`next, nodes`prev
  {
    nodes != [] ==> nodes[|nodes| - 1].next == null && nodes[0].prev == nodes[|nodes| - 1]
  }

  // ---- Sequences ----

  lemma InsertedDistinct(nodes: seq<Node>, p: nat, x: Node)
    requires Distinct(nodes) && p <= |nodes| && x !in nodes
    ensures Distinct(Inserted(nodes, p, x)) && |Inserted(nodes, p, x)| == |nodes| + 1
    ensures Inserted(nodes, p, x)[0] == if p == 0 then x else nodes[0]
    ensures Inserted(nodes, p, x)[|nodes|] == if p == |nodes| then x else nodes[|nodes| - 1]
    ensures p == |nodes| ==> Inserted(nodes, p, x) == nodes + [x]
  {
  }

  lemma RemovedDistinct(nodes: seq<Node>, p: nat)
    requires Distinct(nodes) && p < |nodes|
    ensures Distinct(Removed(nodes, p)) && |Removed(nodes, p)| == |nodes| - 1
    ensures |nodes| > 1 ==> Removed(nodes, p)[0] == if p == 0 then nodes[1] else nodes[0]
    ensures |nodes| > 1 ==> Removed(nodes, p)[|nodes| - 2] == if p
            == |nodes| - 1 then nodes[|nodes| - 2] else nodes[|nodes| - 1]
  {
  }

  lemma ReplacedDistinct(nodes: seq<Node>, p: nat, x: Node)
    requires Distinct(nodes) && p < |nodes| && x !in nodes
    ensures Distinct(nodes[p := x])
  {
  }

  lemma OnlyPlace(nodes: seq<Node>, p: nat)
    requires Distinct(nodes) && p < |nodes|
    ensures forall k :: 0 <= k < |nodes| && k != p ==> nodes[k] != nodes[p]
  {
  }

  // ---- Links ----

  lemma SplicedIn(nodes: seq<Node>, p: nat, x: Node)
    requires p <= |nodes| && LinkedBut(nodes, p)
    requires p > 0 ==> nodes[p - 1].next == x && x.prev == nodes[p - 1]
    requires p < |nodes| ==> x.next == nodes[p] && nodes[p].prev == x
    ensures Linked(Inserted(nodes, p, x))
  {
    var s := Inserted(nodes, p, x);
    forall k | 0 <= k < |s| - 1 ensures s[k].next == s[k + 1] {
      if k < p - 1 { assert nodes[k].next == nodes[k + 1]; } else if k > p { assert nodes[k - 1].next == nodes[k]; }
    }
    forall k | 1 <= k < |s| ensures s[k].prev == s[k - 1] {
      if k < p { assert nodes[k].prev == nodes[k - 1]; } else if k > p + 1 { assert nodes[k - 1].prev == nodes[k - 2]; }
    }
  }

  lemma SplicedOut(nodes: seq<Node>, p: nat)
    requires p < |nodes|
    requires forall k :: 0 <= k < |nodes| - 1 && k != p - 1 && k != p ==> nodes[k].next == nodes[k + 1]
    requires forall k :: 1 <= k < |nodes| && k != p && k != p + 1 ==> nodes[k].prev == nodes[k - 1]
    requires 0 < p < |nodes| - 1 ==> nodes[p - 1].next == nodes[p + 1] && nodes[p + 1].prev == nodes[p - 1]
    ensures Linked(Removed(nodes, p))
  {
    var s := Removed(nodes, p);
    forall k | 0 <= k < |s| - 1 ensures s[k].next == s[k + 1] {
      if k < p - 1 { assert nodes[k].next == nodes[k + 1]; } else if k > p - 1 { assert nodes[k + 1].next == nodes[k + 2]; }
    }
    forall k | 1 <= k < |s| ensures s[k].prev == s[k - 1] {
      if k < p { assert nodes[k].prev == nodes[k - 1]; } else if k > p { assert nodes[k + 1].prev == nodes[k]; }
    }
  }

  lemma Swapped(nodes: seq<Node>, p: nat, x: Node)
    requires p < |nodes|
    requires forall k :: 0 <= k < |nodes| - 1 && k != p - 1 && k != p ==> nodes[k].next == nodes[k + 1]
    requires forall k :: 1 <= k < |nodes| && k != p && k != p + 1 ==> nodes[k].prev == nodes[k - 1]
    requires p > 0 ==> nodes[p - 1].next == x && x.prev == nodes[p - 1]
    requires p < |nodes| - 1 ==> nodes[p + 1].prev == x && x.next == nodes[p + 1]
    ensures Linked(nodes[p := x])
  {
  }

  lemma LinksAt(nodes: seq<Node>, p: nat)
    requires Linked(nodes) && p < |nodes|
    ensures p > 0 ==> nodes[p].prev == nodes[p - 1] && nodes[p - 1].next == nodes[p]
    ensures p < |nodes| - 1 ==> nodes[p].next == nodes[p + 1] && nodes[p + 1].prev == nodes[p]
    ensures Ended(nodes) && p == |nodes| - 1 ==> nodes[p].next == null
  {
  }

  /** The cross-wiring with which the parser and cJSON_Duplicate put a new child behind the last one. */
  method LinkBehind(last: Node?, node: Node, ghost done: seq<Node>)
    requires Distinct(done) && Linked(done) && node !in done && last == if done == [] then null else done[|done| - 1]
    modifies (if last != null then {last} else {})`next, node`prev
    ensures Distinct(done + [node]) && Linked(done + [node]) && Values(done + [node]) == Values(done) + [node.value]
    ensures last == null ==> node.prev == old(node.prev)
  {
    hide Distinct, Inserted, Values;
    if last != null {
      OnlyPlace(done, |done| - 1);
      last.next := node;
      node.prev := last;
    }
    InsertedDistinct(done, |done|, node);
    SplicedIn(done, |done|, node);
    ValuesOneMore(done, node);
  }

  /** The first child's prev is set last. */
  method CloseChain(head: Node?, last: Node?, ghost done: seq<Node>)
    requires Distinct(done) && Linked(done) && (done != [] ==> done[|done| - 1].next == null)
    requires head == if done == [] then null else done[0]
    requires last == if done == [] then null else done[|done| - 1]
    modifies (if head != null then {head} else {})`prev
    ensures Linked(done) && Ended(done)
  {
    if head != null {
      OnlyPlace(done, 0);
      head.prev := last;
    }
  }

  class Parent {
    var child: Node?
    ghost var nodes: seq<Node>

    ghost predicate Valid()
      reads this, nodes`next, nodes`prev
    {
      && Distinct(nodes) && Linked(nodes) && Ended(nodes)
      && child == if nodes == [] then null else nodes[0]
    }

    constructor ()
      ensures Valid() && nodes == []
    {
      child, nodes := null, [];
    }

    /** add_item_to_array, for an item that is not in a chain. */
    method AddItem(item: Node)
      requires Valid() && item !in nodes && item.next == null
      modifies this, item, nodes
      ensures Valid() && nodes == old(nodes) + [item]
    {
      hide Distinct, Inserted;
      ghost var before := nodes;
      InsertedDistinct(before, |before|, item);
      if child == null {
        child := item;
        item.prev := item;
        item.next := null;
      } else {
        OnlyPlace(before, |before| - 1);
        OnlyPlace(before, 0);
        var last := child.prev;
        if last != null {
          last.next := item;
          item.prev := last;
          child.prev := item;
        }
      }
      SplicedIn(before, |before|, item);
      nodes := Inserted(before, |before|, item);
    }

    /** get_array_item */
    method GetItem(which: nat) returns (item: Node?)
      requires Valid()
      ensures item == if which < |nodes| then nodes[which] else null
    {
      item := child;
      var left := which;
      ghost var k := 0;
      while item != null && left > 0
        invariant 0 <= left && k + left == which && k <= |nodes|
        invariant item == if k < |nodes| then nodes[k] else null
        decreases left
      {
        LinksAt(nodes, k);
        item := item.next;
        left := left - 1;
        k := k + 1;
      }
    }

    /** cJSON_InsertItemInArray */
    method InsertItem(which: nat, item: Node)
      requires Valid() && item !in nodes && (which >= |nodes| ==> item.next == null)
      modifies this, item, nodes
      ensures Valid() && nodes == Inserted(old(nodes), if which < |old(nodes)| then which else |old(nodes)|, item)
    {
      hide Distinct, Inserted;
      var after := GetItem(which);
      ghost var before := nodes;
      if after == null {
        InsertedDistinct(before, |before|, item);
        AddItem(item);
        return;
      }
      InsertedDistinct(before, which, item);
      LinksAt(before, which);
      OnlyPlace(before, which);
      if which > 0 { OnlyPlace(before, which - 1); }
      item.next := after;
      item.prev := after.prev;
      after.prev := item;
      if after == child {
        child := item;
      } else {
        item.prev.next := item;
      }
      SplicedIn(before, which, item);
      nodes := Inserted(before, which, item);
    }

    /** cJSON_DetachItemViaPointer, for the p-th child. */
    method DetachItem(item: Node, ghost p: nat)
      requires Valid() && p < |nodes| && item == nodes[p]
      modifies this, nodes
      ensures Valid() && nodes == Removed(old(nodes), p) && item.next == null && item.prev == null
    {
      hide Distinct, Removed;
      ghost var before := nodes;
      RemovedDistinct(before, p);
      LinksAt(before, p);
      OnlyPlace(before, p);
      OnlyPlace(before, 0);
      if p > 0 { OnlyPlace(before, p - 1); }
      if p + 1 < |before| { OnlyPlace(before, p + 1); }
      if item != child {
        item.prev.next := item.next;
      }
      if item.next != null {
        item.next.prev := item.prev;
      }
      if item == child {
        child := item.next;
      } else if item.next == null {
        child.prev := item.prev;
      }
      item.prev := null;
      item.next := null;
      SplicedOut(before, p);
      nodes := Removed(before, p);
    }

    /** cJSON_ReplaceItemViaPointer, for the p-th child; deleting the old item is left to the caller. */
    method ReplaceItem(item: Node, replacement: Node, ghost p: nat)
      requires Valid() && p < |nodes| && item == nodes[p] && replacement !in nodes
      modifies this, nodes, replacement
      ensures Valid() && nodes == old(nodes)[p := replacement] && item.next == null && item.prev == null
    {
      hide Distinct;
      ghost var before := nodes;
      ReplacedDistinct(before, p, replacement);
      LinksAt(before, p);
      OnlyPlace(before, p);
      OnlyPlace(before, 0);
      if p > 0 { OnlyPlace(before, p - 1); }
      if p + 1 < |before| { OnlyPlace(before, p + 1); }
      replacement.next := item.next;
      replacement.prev := item.prev;
      if replacement.next != null {
        replacement.next.prev := replacement;
      }
      if child == item {
        if child.prev == child {
          replacement.prev := replacement;
        }
        child := replacement;
      } else {
        if replacement.prev != null {
          replacement.prev.next := replacement;
        }
        if replacement.next == null {
          child.prev := replacement;
        }
      }
      item.next := null;
      item.prev := null;
      Swapped(before, p, replacement);
      nodes := before[p := replacement];
    }

    /** The linking in parse_array and parse_object: each new child behind the one before, the first child's prev last. */
    method LinkParsed(values: seq<Json>)
      requires Valid() && nodes == []
      modifies this
      ensures Valid() && Values(nodes) == values && fresh(nodes)
    {
      hide Distinct, Values, Linked, Ended;
      var head: Node?, current: Node? := null, null;
      ghost var done: seq<Node> := [];
      NoNodes(done);
      for i := 0 to |values|
        invariant Values(done) == values[..i] && Distinct(done) && Linked(done) && fresh(done)
        invariant head == if done == [] then null else done[0]
        invariant current == if done == [] then null else done[|done| - 1]
        invariant done != [] ==> done[|done| - 1].next == null
      {
        var node := new Node(values[i]);
        LinkBehind(current, node, done);
        if head == null {
          head := node;
        }
        current := node;
        assert values[..i + 1] == values[..i] + [values[i]];
        done := done + [node];
      }
      CloseChain(head, current, done);
      assert values[..|values|] == values;
      child := head;
      nodes := done;
    }
  }

  lemma NoNodes(nodes: seq<Node>)
    requires nodes == []
    ensures Distinct(nodes) && Values(nodes) == []
  {
  }
}
