/** Whole trees of linked items, and cJSON_Duplicate, which copies them level by level. */

module ItemTrees {
  import opened Basics
  import opened JsonText
  import opened SiblingChains

  /** An item together with the trees of its children, in order. */
  datatype Tree = Tree(node: Node, below: seq<Tree>)

  function Roots(ts: seq<Tree>): (r: seq<Node>)
    ensures |r| == |ts| && forall k :: 0 <= k < |ts| ==> r[k] == ts[k].node
  {
    if ts == [] then [] else Roots(ts[..|ts| - 1]) + [ts[|ts| - 1].node]
  }

  function Nodes(t: Tree): set<Node>
    decreases t, 1
  {
    {t.node} + NodesOf(t.below)
  }

  function NodesOf(ts: seq<Tree>): set<Node>
    decreases ts, 0
  {
    if ts == [] then {} else NodesOf(ts[..|ts| - 1]) + Nodes(ts[|ts| - 1])
  }

  /** The items below the roots. */
  function Deep(ts: seq<Tree>): set<Node> {
    if ts == [] then {} else Deep(ts[..|ts| - 1]) + NodesOf(ts[|ts| - 1].below)
  }

  /** No item occurs twice. */
  predicate ProperTree(t: Tree)
    decreases t, 1
  {
    t.node !in NodesOf(t.below) && Proper(t.below)
  }

  predicate Proper(ts: seq<Tree>)
    decreases ts, 0
  {
    ts != [] ==>
      && Proper(ts[..|ts| - 1]) && ProperTree(ts[|ts| - 1])
      && NodesOf(ts[..|ts| - 1]) !! Nodes(ts[|ts| - 1])
  }

  /** The links are those of the tree: each item leads to its first child, and its children form a chain. */
  ghost predicate Wired(t: Tree)
    reads Nodes(t)`child, NodesOf(t.below)`next, NodesOf(t.below)`prev
    decreases t, 1
  {
    RootsAreNodes(t.below);
    DeepAreNodes(t.below);
    && t.node.child == (if t.below == [] then null else t.below[0].node)
    && Linked(Roots(t.below)) && Ended(Roots(t.below))
    && AllWired(t.below)
  }

  ghost predicate AllWired(ts: seq<Tree>)
    reads NodesOf(ts)`child, Deep(ts)`next, Deep(ts)`prev
    decreases ts, 0
  {
    ts != [] ==> AllWired(ts[..|ts| - 1]) && Wired(ts[|ts| - 1])
  }

  lemma {:induction false} RootsAreNodes(ts: seq<Tree>)
    ensures forall n :: n in Roots(ts) ==> n in NodesOf(ts)
    decreases ts
  {
    if ts != [] { RootsAreNodes(ts[..|ts| - 1]); }
  }

  lemma {:induction false} DeepAreNodes(ts: seq<Tree>)
    ensures Deep(ts) <= NodesOf(ts)
    decreases ts
  {
    if ts != [] { DeepAreNodes(ts[..|ts| - 1]); }
  }

  /** The roots of a proper forest differ from each other and from everything below. */
  lemma {:induction false} RootsApart(ts: seq<Tree>)
    requires Proper(ts)
    ensures Distinct(Roots(ts)) && forall n :: n in Roots(ts) ==> n !in Deep(ts)
    decreases ts
  {
    if ts != [] {
      var init, t := ts[..|ts| - 1], ts[|ts| - 1];
      RootsApart(init);
      RootsAreNodes(init);
      DeepAreNodes(init);
    }
  }

  /** What a tree stands for. */
  datatype Value = Value(own: Json, below: seq<Value>)

  function ValueOf(t: Tree): Value
    decreases t, 1
  {
    Value(t.node.value, ValuesOf(t.below))
  }

  function ValuesOf(ts: seq<Tree>): seq<Value>
    decreases ts, 0
  {
    if ts == [] then [] else ValuesOf(ts[..|ts| - 1]) + [ValueOf(ts[|ts| - 1])]
  }

  /** One tree more at the end of a forest. */
  lemma OneTreeMore(ts: seq<Tree>, t: Tree)
    ensures (ts + [t])[..|ts|] == ts && Roots(ts + [t]) == Roots(ts) + [t.node]
    ensures NodesOf(ts + [t]) == NodesOf(ts) + Nodes(t) && ValuesOf(ts + [t]) == ValuesOf(ts) + [ValueOf(t)]
    ensures Proper(ts) && ProperTree(t) && NodesOf(ts) !! Nodes(t) ==> Proper(ts + [t])
    ensures AllWired(ts) && Wired(t) ==> AllWired(ts + [t])
  {
    assert (ts + [t])[..|ts|] == ts;
  }

  lemma OneTreeFurther(ts: seq<Tree>, k: nat)
    requires k < |ts|
    ensures ValuesOf(ts[..k + 1]) == ValuesOf(ts[..k]) + [ValueOf(ts[k])]
  {
    assert ts[..k + 1] == ts[..k] + [ts[k]];
    OneTreeMore(ts[..k], ts[k]);
  }

  /** A tree of a forest. */
  lemma {:induction false} TreeOf(ts: seq<Tree>, k: nat)
    requires k < |ts| && Proper(ts) && AllWired(ts)
    ensures ProperTree(ts[k]) && Wired(ts[k]) && ts[k] < Tree(ts[k].node, ts)
    decreases ts
  {
    if k < |ts| - 1 {
      TreeOf(ts[..|ts| - 1], k);
      assert ts[..|ts| - 1][k] == ts[k];
    }
  }

  /** The items of a forest at hand exist. */
  twostate lemma {:induction false} Exist(ts: seq<Tree>)
    ensures forall n :: n in NodesOf(ts) ==> old(allocated(n))
    decreases ts, 0
  {
    if ts != [] {
      Exist(ts[..|ts| - 1]);
      TreeExists(ts[|ts| - 1]);
    }
  }

  twostate lemma {:induction false} TreeExists(t: Tree)
    ensures forall n :: n in Nodes(t) ==> old(allocated(n))
    decreases t, 1
  {
    Exist(t.below);
  }

  /** Whatever is not linked differently stays wired. */
  twostate lemma {:induction false} StaysWired(ts: seq<Tree>)
    requires old(AllWired(ts))
    requires forall n :: n in NodesOf(ts) && old(allocated(n)) ==> n.child == old(n.child)
    requires forall n :: n in Deep(ts) && old(allocated(n)) ==> n.next == old(n.next) && n.prev == old(n.prev)
    ensures AllWired(ts)
    decreases ts, 0
  {
    if ts != [] {
      StaysWired(ts[..|ts| - 1]);
      TreeStaysWired(ts[|ts| - 1]);
    }
  }

  twostate lemma {:induction false} TreeStaysWired(t: Tree)
    requires old(Wired(t))
    requires forall n :: n in Nodes(t) && old(allocated(n)) ==> n.child == old(n.child)
    requires forall n :: n in NodesOf(t.below) && old(allocated(n)) ==> n.next == old(n.next) && n.prev == old(n.prev)
    ensures Wired(t)
    decreases t, 1
  {
    Exist(t.below);
    DeepAreNodes(t.below);
    RootsAreNodes(t.below);
    StaysWired(t.below);
  }

  /** A copy whose children so far are done, the last of them without a next one. */
  ghost predicate Growing(copy: Node, last: Node?, done: seq<Tree>)
    reads copy, NodesOf(done)
  {
    RootsAreNodes(done);
    DeepAreNodes(done);
    && Proper(done) && AllWired(done) && Linked(Roots(done)) && copy !in NodesOf(done)
    && last == (if done == [] then null else done[|done| - 1].node) && (last != null ==> last.next == null)
    && copy.child == if done == [] then null else done[0].node
  }

  /** A finished copy is put behind the others. */
  method AppendCopy(copy: Node, last: Node?, newChild: Node, ghost done: seq<Tree>, ghost tree: Tree)
    requires Growing(copy, last, done) && newChild == tree.node && newChild.next == null
    requires ProperTree(tree) && Wired(tree) && NodesOf(done) !! Nodes(tree) && copy !in Nodes(tree)
    modifies (if last != null then {last} else {})`next, newChild`prev, copy`child
    ensures Growing(copy, newChild, done + [tree])
  {
    hide Distinct, Linked, Proper, NodesOf, Deep, Roots;
    RootsApart(done);
    RootsAreNodes(done);
    DeepAreNodes(done);
    OneTreeMore(done, tree);
    if last != null { assert Roots(done)[|done| - 1] == last; }
    LinkBehind(last, newChild, Roots(done));
    if last == null {
      copy.child := newChild;
    }
    StaysWired(done);
    TreeStaysWired(tree);
    OneTreeMore(done, tree);
  }

  /** The first child of a copy is closed in a chain. */
  method CloseCopy(copy: Node, last: Node?, ghost done: seq<Tree>)
    requires Growing(copy, last, done)
    modifies (if copy.child != null then {copy.child} else {})`prev
    ensures ProperTree(Tree(copy, done)) && Wired(Tree(copy, done)) && copy.child == old(copy.child)
  {
    hide Distinct, Linked, Ended, Proper, NodesOf, Deep, Roots;
    RootsApart(done);
    RootsAreNodes(done);
    if last != null { assert Roots(done)[0] == copy.child; }
    CloseChain(copy.child, last, Roots(done));
    StaysWired(done);
  }

  /** A child is copied with everything below it, and the copy is put behind those made before. */
  method CopyChild(copy: Node, last: Node?, child: Node, ghost done: seq<Tree>, ghost t: Tree)
    returns (newChild: Node, ghost tree: Tree)
    requires t.node == child && ProperTree(t) && Wired(t) && Growing(copy, last, done)
    modifies (if last != null then {last} else {})`next, copy`child
    ensures Growing(copy, newChild, done + [tree]) && fresh(Nodes(tree)) && ValueOf(tree) == ValueOf(t)
    decreases t, 1
  {
    hide Distinct, Linked, Ended, Proper, AllWired, NodesOf, ValuesOf, Deep, Roots, ProperTree, Wired, ValueOf;
    Exist(done);
    newChild, tree := Duplicate(child, true, t);
    StaysWired(done);
    AppendCopy(copy, last, newChild, done, tree);
  }

  /** cJSON_Duplicate: a fresh tree that stands for the same, wired in the same way, and the old one untouched. */
  method Duplicate(item: Node, recurse: bool, ghost t: Tree) returns (copy: Node, ghost c: Tree)
    requires t.node == item && ProperTree(t) && Wired(t)
    ensures c.node == copy && ProperTree(c) && Wired(c) && fresh(Nodes(c))
    ensures ValueOf(c) == if recurse then ValueOf(t) else Value(item.value, [])
    ensures copy.next == null && copy.prev == null
    decreases t, 0
  {
    hide Distinct, Linked, Ended, Proper, AllWired, NodesOf, ValuesOf, Deep, Roots, ProperTree, Wired, Growing;
    copy := new Node(item.value);
    ghost var done: seq<Tree>, k: nat := [], 0;
    Childless(copy, t);
    if !recurse {
      return copy, Tree(copy, []);
    }
    TreeStaysWired(t);
    WiredMeans(t);
    var child := item.child;
    var last: Node? := null;
    while child != null
      invariant k <= |t.below| && child == if k < |t.below| then t.below[k].node else null
      invariant Growing(copy, last, done) && ValuesOf(done) == ValuesOf(t.below[..k])
      invariant fresh(copy) && fresh(NodesOf(done)) && copy.next == null && copy.prev == null
      decreases |t.below| - k
    {
      TreeStaysWired(t);
      WiredMeans(t);
      TreeOf(t.below, k);
      NextChild(t.below, k);
      GrowingMeans(copy, last, done);
      var newChild; ghost var tree;
      newChild, tree := CopyChild(copy, last, child, done, t.below[k]);
      OneTreeMore(done, tree);
      OneTreeFurther(t.below, k);
      last := newChild;
      done := done + [tree];
      child := child.next;
      k := k + 1;
    }
    assert t.below[..|t.below|] == t.below;
    GrowingMeans(copy, last, done);
    CloseCopy(copy, last, done);
    c := Tree(copy, done);
  }

  lemma GrowingMeans(copy: Node, last: Node?, ts: seq<Tree>)
    requires Growing(copy, last, ts)
    ensures copy.child != null ==> copy.child in NodesOf(ts)
    ensures last != null ==> last in NodesOf(ts)
    ensures copy !in NodesOf(ts)
  {
    RootsAreNodes(ts);
    if ts != [] { assert Roots(ts)[0] == ts[0].node && Roots(ts)[|ts| - 1] == ts[|ts| - 1].node; }
  }

  lemma Childless(copy: Node, t: Tree)
    requires copy.child == null
    ensures ProperTree(Tree(copy, [])) && Wired(Tree(copy, [])) && ValueOf(Tree(copy, [])) == Value(copy.value, [])
    ensures Growing(copy, null, []) && Nodes(Tree(copy, [])) == {copy} && NodesOf([]) == {}
    ensures ValuesOf([]) == ValuesOf(t.below[..0])
  {
    assert t.below[..0] == [];
  }

  lemma WiredMeans(t: Tree)
    requires Wired(t) && ProperTree(t)
    ensures AllWired(t.below) && Linked(Roots(t.below)) && Ended(Roots(t.below)) && Proper(t.below)
    ensures t.node.child == if t.below == [] then null else t.below[0].node
  {
  }

  /** The links of a child lead to the next one. */
  lemma NextChild(ts: seq<Tree>, k: nat)
    requires k < |ts| && Linked(Roots(ts)) && Ended(Roots(ts))
    ensures ts[k].node.next == if k + 1 < |ts| then ts[k + 1].node else null
  {
    LinksAt(Roots(ts), k);
  }
}
