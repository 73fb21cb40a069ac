/** The pane layout of src/daemon/layout.c: a binary split tree kept in a fixed node array and changed in place. */
module Layout {
  import opened SplitTree

  const LAYOUT_MAX_LEAVES: nat := 6
  const LAYOUT_NODES: nat := 11

  datatype Node = Node(inUse: bool, leaf: bool, pane: int, stacked: bool, child0: int, child1: int, rect: Rect)

  const NO_RECT := Rect(0, 0, 0, 0)

  function LeafNode(pane: int): Node {
    Node(true, true, pane, false, 0, 0, NO_RECT)
  }

  /** The rectangle the root gets for a view. */
  function ViewRect(cols: nat, rows: nat): Rect {
    Rect(0, 0, if cols != 0 then cols else 1, if rows != 0 then rows else 1)
  }

  /** The node array holds the tree, slot for slot. */
  ghost predicate Stored(ns: seq<Node>, t: Tree) {
    t.at < |ns| && ns[t.at].inUse &&
    match t
    case Leaf(at, pane) => ns[at].leaf && ns[at].pane == pane
    case Split(at, stacked, a, b) =>
      !ns[at].leaf && ns[at].stacked == stacked && ns[at].child0 == a.at && ns[at].child1 == b.at && Stored(ns, a) &&
        Stored(ns, b)
  }

  /** Every node has the rectangle the tree gives it within r. */
  ghost predicate Placed(ns: seq<Node>, t: Tree, r: Rect) {
    t.at < |ns| && ns[t.at].rect == r &&
    (t.Split? ==> Placed(ns, t.first, FirstRect(r, t.stacked)) && Placed(ns, t.second, SecondRect(r, t.stacked)))
  }

  ghost predicate SameShape(n: Node, m: Node) {
    n == m.(rect := n.rect)
  }

  lemma {:induction false} StoredFrame(ns: seq<Node>, ms: seq<Node>, t: Tree)
    requires Stored(ns, t) && |ns| == |ms|
    requires forall i :: 0 <= i < |ns| && i in Nodes(t) ==> SameShape(ns[i], ms[i])
    ensures Stored(ms, t)
  {
    assert SameShape(ns[t.at], ms[t.at]);
    if t.Split? {
      StoredFrame(ns, ms, t.first);
      StoredFrame(ns, ms, t.second);
    }
  }

  lemma {:induction false} PlacedFrame(ns: seq<Node>, ms: seq<Node>, t: Tree, r: Rect)
    requires Placed(ns, t, r) && |ns| == |ms|
    requires forall i :: 0 <= i < |ns| && i in Nodes(t) ==> ns[i] == ms[i]
    ensures Placed(ms, t, r)
  {
    assert ns[t.at] == ms[t.at];
    if t.Split? {
      PlacedFrame(ns, ms, t.first, FirstRect(r, t.stacked));
      PlacedFrame(ns, ms, t.second, SecondRect(r, t.stacked));
    }
  }

  lemma {:induction false} StoredNodes(ns: seq<Node>, t: Tree)
    requires Stored(ns, t)
    ensures forall i :: i in Nodes(t) ==> 0 <= i < |ns| && ns[i].inUse
    ensures forall i :: i in Nodes(t) && ns[i].leaf ==> ns[i].pane in Panes(t)
  {
    if t.Split? {
      StoredNodes(ns, t.first);
      StoredNodes(ns, t.second);
    }
  }

  /** A leaf node of a pane is the one the tree names. */
  lemma {:induction false} StoredLeaf(ns: seq<Node>, t: Tree, pane: int, i: nat)
    requires WellFormed(t) && Stored(ns, t) && i in Nodes(t) && i < |ns| && ns[i].leaf && ns[i].pane == pane
    ensures pane in Panes(t) && LeafAt(t, pane) == i
  {
    if t.Split? {
      StoredNodes(ns, t.first);
      StoredNodes(ns, t.second);
      StoredLeaf(ns, if i in Nodes(t.first) then t.first else t.second, pane, i);
    }
  }

  lemma {:induction false} LeafStored(ns: seq<Node>, t: Tree, pane: int)
    requires Stored(ns, t) && pane in Panes(t)
    ensures var i := LeafAt(t, pane); i in Nodes(t) && i < |ns| && ns[i].leaf && ns[i].pane == pane
  {
    if t.Split? {
      LeafStored(ns, if pane in Panes(t.first) then t.first else t.second, pane);
    }
  }

  /** Only rectangles below the root of t may differ. */
  ghost predicate Reflowed(ns: seq<Node>, ms: seq<Node>, t: Tree) {
    |ns| == |ms| && forall i :: 0 <= i < |ns| ==>
      SameShape(ns[i], ms[i]) && (i !in Nodes(t) || i == t.at ==> ms[i] == ns[i])
  }

  /** One division: the two children have their rectangles. */
  ghost predicate Divided(ns: seq<Node>, ds: seq<Node>, t: Tree) {
    t.Split? && t.at < |ns| && t.first.at < |ns| && t.second.at < |ns| &&
    ds == ns[t.first.at := ns[t.first.at].(rect := FirstRect(ns[t.at].rect, t.stacked))]
            [t.second.at := ns[t.second.at].(rect := SecondRect(ns[t.at].rect, t.stacked))]
  }

  lemma DividedStored(ns: seq<Node>, ds: seq<Node>, t: Tree)
    requires WellFormed(t) && Stored(ns, t) && Divided(ns, ds, t)
    ensures Stored(ds, t.first) && Stored(ds, t.second)
  {
    assert forall i :: 0 <= i < |ns| ==> SameShape(ns[i], ds[i]);
    StoredFrame(ns, ds, t.first);
    StoredFrame(ns, ds, t.second);
  }

  lemma ReflowBoth(ns: seq<Node>, ds: seq<Node>, bs: seq<Node>, ms: seq<Node>, t: Tree)
    requires WellFormed(t) && Stored(ns, t) && Divided(ns, ds, t)
    requires Reflowed(ds, bs, t.first) && Placed(bs, t.first, ds[t.first.at].rect)
    requires Reflowed(bs, ms, t.second) && Placed(ms, t.second, bs[t.second.at].rect)
    ensures Reflowed(ns, ms, t) && Placed(ms, t, ns[t.at].rect)
  {
    assert forall i :: 0 <= i < |ns| ==> SameShape(ns[i], ds[i]) && SameShape(ds[i], bs[i]) && SameShape(bs[i], ms[i]);
    PlacedFrame(bs, ms, t.first, ds[t.first.at].rect);
  }

  /** The array after a split, given what it changed. */
  ghost predicate SplitStep(ns: seq<Node>, ms: seq<Node>, t: Tree, pane: int, stacked: bool, i: nat, j: nat, added: int)
    requires pane in Panes(t)
  {
    var l := LeafAt(t, pane);
    && |ns| == |ms| && i < |ms| && j < |ms| && l < |ms|
    && ms[i] == LeafNode(pane) && ms[j] == LeafNode(added)
    && ms[l] == ns[l].(leaf := false, pane := -1, stacked := stacked, child0 := i, child1 := j)
    && forall k :: 0 <= k < |ns| && k in Nodes(t) && k != l ==> ms[k] == ns[k]
  }

  lemma {:induction false} StoredSplit(ns: seq<Node>, ms: seq<Node>, t: Tree, pane: int, stacked: bool, i: nat, j: nat,
      added: int)
    requires WellFormed(t) && Stored(ns, t) && pane in Panes(t)
    requires SplitStep(ns, ms, t, pane, stacked, i, j, added)
    ensures Stored(ms, SplitLeaf(t, pane, stacked, i, j, added))
  {
    LeafStored(ns, t, pane);
    if t.Split? {
      var near, far := if pane in Panes(t.first) then t.first else t.second,
        if pane in Panes(t.first) then t.second else t.first;
      LeafStored(ns, near, pane);
      StoredSplit(ns, ms, near, pane, stacked, i, j, added);
      StoredFrame(ns, ms, far);
      SplitLeafAt(near, pane, stacked, i, j, added);
    }
  }

  lemma SplitLeafAt(t: Tree, pane: int, stacked: bool, i: nat, j: nat, added: int)
    ensures SplitLeaf(t, pane, stacked, i, j, added).at == t.at
  {
  }

  /** The array after a close, given what it changed. */
  ghost predicate CloseStep(ns: seq<Node>, ms: seq<Node>, t: Tree, pane: int)
    requires t.Split? && pane in Panes(t)
  {
    var p, l, s := ParentOf(t, pane).at, LeafAt(t, pane), SiblingAt(t, pane);
    && |ns| == |ms| && p < |ms| && s < |ms| && ms[p] == ns[s]
    && forall k :: 0 <= k < |ns| && k in Nodes(t) && k != l && k != p && k != s ==> ms[k] == ns[k]
  }

  lemma {:induction false} StoredClose(ns: seq<Node>, ms: seq<Node>, t: Tree, pane: int)
    requires WellFormed(t) && Stored(ns, t) && t.Split? && pane in Panes(t) && CloseStep(ns, ms, t, pane)
    ensures Stored(ms, CloseLeaf(t, pane))
  {
    ParentShape(t, pane);
    if IsLeafOf(t.first, pane) {
      StoredMove(ns, ms, t.second, t.at);
    } else if IsLeafOf(t.second, pane) {
      StoredMove(ns, ms, t.first, t.at);
    } else {
      var near, far := if pane in Panes(t.first) then t.first else t.second,
        if pane in Panes(t.first) then t.second else t.first;
      ParentShape(near, pane);
      CloseLeafShape(near, pane);
      StoredClose(ns, ms, near, pane);
      StoredFrame(ns, ms, far);
    }
  }

  lemma StoredMove(ns: seq<Node>, ms: seq<Node>, t: Tree, at: nat)
    requires WellFormed(t) && Stored(ns, t) && |ns| == |ms| && at < |ms| && ms[at] == ns[t.at]
    requires forall k :: 0 <= k < |ns| && k in Nodes(t) && k != t.at ==> ms[k] == ns[k]
    ensures Stored(ms, t.(at := at))
  {
    if t.Split? {
      StoredFrame(ns, ms, t.first);
      StoredFrame(ns, ms, t.second);
    }
  }

  /** Children of a subtree's nodes are in the subtree. */
  lemma {:induction false} StoredChildren(ns: seq<Node>, t: Tree, i: nat)
    requires Stored(ns, t) && i in Nodes(t) && i < |ns| && !ns[i].leaf
    ensures ns[i].child0 in Nodes(t) && ns[i].child1 in Nodes(t)
  {
    if i != t.at {
      StoredChildren(ns, if i in Nodes(t.first) then t.first else t.second, i);
    }
  }

  /** The node that has pane's leaf as a child is its parent in the tree. */
  lemma {:induction false} StoredParent(ns: seq<Node>, t: Tree, pane: int, i: nat)
    requires WellFormed(t) && Stored(ns, t) && pane in Panes(t) && i in Nodes(t) && i < |ns| && !ns[i].leaf
    requires ns[i].child0 == LeafAt(t, pane) || ns[i].child1 == LeafAt(t, pane)
    ensures t.Split? && ParentOf(t, pane).at == i
  {
    LeafStored(ns, t, pane);
    var near := if pane in Panes(t.first) then t.first else t.second;
    LeafStored(ns, near, pane);
    if i == t.at {
      assert near.at == LeafAt(near, pane);
    } else {
      StoredChildren(ns, if i in Nodes(t.first) then t.first else t.second, i);
      StoredParent(ns, near, pane, i);
    }
  }

  lemma {:induction false} ParentStored(ns: seq<Node>, t: Tree, pane: int)
    requires WellFormed(t) && Stored(ns, t) && t.Split? && pane in Panes(t)
    ensures var p := ParentOf(t, pane);
      p.at in Nodes(t) && Stored(ns, p) && (ns[p.at].child0 == LeafAt(t, pane) || ns[p.at].child1 == LeafAt(t, pane))
  {
    ParentShape(t, pane);
    if !IsLeafOf(t.first, pane) && !IsLeafOf(t.second, pane) {
      ParentStored(ns, if pane in Panes(t.first) then t.first else t.second, pane);
    }
  }

  /** The array holds the tree and nothing else is in use. */
  ghost predicate Holds(ns: seq<Node>, t: Tree) {
    WellFormed(t) && Stored(ns, t) && forall i :: 0 <= i < |ns| ==> (ns[i].inUse <==> i in Nodes(t))
  }

  lemma HoldsReshaped(ns: seq<Node>, ms: seq<Node>, t: Tree)
    requires Holds(ns, t) && |ns| == |ms| && forall i :: 0 <= i < |ns| ==> SameShape(ns[i], ms[i])
    ensures Holds(ms, t)
  {
    StoredFrame(ns, ms, t);
    assert forall i :: 0 <= i < |ns| ==> SameShape(ns[i], ms[i]);
  }

  lemma HoldsSplit(ns: seq<Node>, ms: seq<Node>, t: Tree, pane: int, stacked: bool, i: nat, j: nat, added: int)
    requires Holds(ns, t) && pane in Panes(t) && added !in Panes(t) && i !in Nodes(t) && j !in Nodes(t) && i != j
    requires SplitStep(ns, ms, t, pane, stacked, i, j, added)
    requires forall k :: 0 <= k < |ns| && k !in Nodes(t) && k != i && k != j ==> ms[k] == ns[k]
    ensures Holds(ms, SplitLeaf(t, pane, stacked, i, j, added))
  {
    StoredSplit(ns, ms, t, pane, stacked, i, j, added);
    SplitLeafShape(t, pane, stacked, i, j, added);
    LeafStored(ns, t, pane);
  }

  /** The assignments of layout_split. */
  function Grafted(ns: seq<Node>, leaf: nat, pane: int, stacked: bool, i: nat, j: nat, added: int): (ms: seq<Node>)
    requires leaf < |ns| && i < |ns| && j < |ns|
    ensures |ms| == |ns|
  {
    var ms := ns[i := LeafNode(pane)][j := LeafNode(added)];
    ms[leaf := ms[leaf].(leaf := false, pane := -1, stacked := stacked, child0 := i, child1 := j)]
  }

  lemma HoldsGrafted(ns: seq<Node>, t: Tree, leaf: nat, pane: int, stacked: bool, i: nat, j: nat, added: int)
    requires Holds(ns, t) && pane in Panes(t) && added !in Panes(t) && i !in Nodes(t) && j !in Nodes(t) && i != j
    requires leaf == LeafAt(t, pane) && leaf < |ns| && i < |ns| && j < |ns|
    ensures Holds(Grafted(ns, leaf, pane, stacked, i, j, added), SplitLeaf(t, pane, stacked, i, j, added))
  {
    LeafStored(ns, t, pane);
    HoldsSplit(ns, Grafted(ns, leaf, pane, stacked, i, j, added), t, pane, stacked, i, j, added);
  }

  /** The three assignments of layout_close. */
  function Closed(ns: seq<Node>, parent: nat, leaf: nat, sibling: nat): (ms: seq<Node>)
    requires parent < |ns| && leaf < |ns| && sibling < |ns|
    ensures |ms| == |ns|
  {
    var a := ns[parent := ns[sibling].(inUse := true)];
    var b := a[leaf := a[leaf].(inUse := false)];
    b[sibling := b[sibling].(inUse := false)]
  }

  lemma HoldsClose(ns: seq<Node>, t: Tree, pane: int)
    requires Holds(ns, t) && t.Split? && pane in Panes(t)
    ensures var p, l, s := ParentOf(t, pane).at, LeafAt(t, pane), SiblingAt(t, pane);
      && p < |ns| && l < |ns| && s < |ns| && ns[p].inUse
      && s == (if ns[p].child0 == l then ns[p].child1 else ns[p].child0)
      && Holds(Closed(ns, p, l, s), CloseLeaf(t, pane))
  {
    ParentShape(t, pane);
    ParentStored(ns, t, pane);
    CloseLeafShape(t, pane);
    StoredNodes(ns, t);
    var p, l, s := ParentOf(t, pane).at, LeafAt(t, pane), SiblingAt(t, pane);
    StoredClose(ns, Closed(ns, p, l, s), t, pane);
  }

  lemma {:induction false} PlacedLeaf(ns: seq<Node>, t: Tree, r: Rect, pane: int)
    requires Placed(ns, t, r) && pane in Panes(t)
    ensures LeafAt(t, pane) < |ns| && ns[LeafAt(t, pane)].rect == LeafRect(t, r, pane)
  {
    if t.Split? {
      if pane in Panes(t.first) {
        PlacedLeaf(ns, t.first, FirstRect(r, t.stacked), pane);
      } else {
        PlacedLeaf(ns, t.second, SecondRect(r, t.stacked), pane);
      }
    }
  }

  /** A pane this size may be split in that direction. */
  predicate Splittable(r: Rect, stacked: bool) {
    if stacked then r.rows >= 2 * PANE_MIN_ROWS + 1 else r.cols >= 2 * PANE_MIN_COLS + 1
  }

  ghost predicate MeetsMinimum(r: Rect, stacked: bool) {
    if stacked then r.rows >= PANE_MIN_ROWS else r.cols >= PANE_MIN_COLS
  }

  /** A pane may be split exactly if both halves keep the minimum. */
  lemma SplittableExactly(r: Rect, stacked: bool)
    ensures Splittable(r, stacked) <==>
      MeetsMinimum(FirstRect(r, stacked), stacked) && MeetsMinimum(SecondRect(r, stacked), stacked)
  {
  }

  /** A split gives both halves the minimum and moves no other pane. */
  ghost predicate SplitGeometry(t: Tree, s: Tree, view: Rect, pane: int, added: int, stacked: bool) {
    && {pane, added} <= Panes(s) && Panes(t) <= Panes(s)
    && MeetsMinimum(LeafRect(s, view, pane), stacked) && MeetsMinimum(LeafRect(s, view, added), stacked)
    && pane in Panes(t) &&
      EvenHalves(LeafRect(t, view, pane), LeafRect(s, view, pane), LeafRect(s, view, added), stacked)
    && forall other :: other in Panes(t) && other != pane ==> LeafRect(s, view, other) == LeafRect(t, view, other)
  }

  lemma SplitGeometryHolds(t: Tree, view: Rect, pane: int, stacked: bool, i: nat, j: nat, added: int)
    requires WellFormed(t) && pane in Panes(t) && added !in Panes(t) && i !in Nodes(t) && j !in Nodes(t) && i != j
    requires Splittable(LeafRect(t, view, pane), stacked)
    ensures SplitGeometry(t, SplitLeaf(t, pane, stacked, i, j, added), view, pane, added, stacked)
  {
    SplitLeafShape(t, pane, stacked, i, j, added);
    SplitHalves(t, view, pane, stacked, i, j, added);
    DividedEvenly(LeafRect(t, view, pane), stacked);
    forall other | other in Panes(t) && other != pane
      ensures LeafRect(SplitLeaf(t, pane, stacked, i, j, added), view, other) == LeafRect(t, view, other)
    {
      SplitRects(t, view, pane, stacked, i, j, added, other);
    }
  }

  class PaneLayout {
    const nodes: array<Node>
    var root: int
    /** The tree the node array holds. */
    ghost var tree: Tree

    ghost predicate Valid()
      reads this, nodes
    {
      nodes.Length == LAYOUT_NODES && root == tree.at && Holds(nodes[..], tree)
    }

    ghost function RectOf(pane: int): Rect
      requires Valid() && pane in Panes(tree)
      reads this, nodes
    {
      LeafStored(nodes[..], tree, pane);
      nodes[LeafAt(tree, pane)].rect
    }

    /** The rectangles are those of the view. */
    ghost predicate Current(cols: nat, rows: nat)
      reads this, nodes
    {
      Placed(nodes[..], tree, ViewRect(cols, rows))
    }

    /** layout_init */
    constructor (pane: int)
      ensures Valid() && fresh(nodes) && tree == Leaf(0, pane)
    {
      var unused := Node(false, false, 0, false, 0, 0, NO_RECT);
      nodes := new Node[LAYOUT_NODES](i => if i == 0 then LeafNode(pane) else unused);
      root := 0;
      tree := Leaf(0, pane);
    }

    /** reflow_node: the cap on the depth is never what stops it. */
    method ReflowNode(idx: int, depth: nat, ghost t: Tree)
      requires nodes.Length == LAYOUT_NODES && WellFormed(t) && Stored(nodes[..], t) && idx == t.at
      requires depth + Height(t) < LAYOUT_NODES
      modifies nodes
      ensures Reflowed(old(nodes[..]), nodes[..], t) && Placed(nodes[..], t, old(nodes[idx]).rect)
      decreases t
    {
      if idx < 0 || idx >= LAYOUT_NODES || depth >= LAYOUT_NODES {
        return;
      }
      var n := nodes[idx];
      if n.leaf {
        return;
      }
      var c0, c1 := n.child0, n.child1;
      if c0 < 0 || c0 >= LAYOUT_NODES || c1 < 0 || c1 >= LAYOUT_NODES {
        return;
      }
      ghost var before := nodes[..];
      nodes[c0] := nodes[c0].(rect := FirstRect(n.rect, n.stacked));
      nodes[c1] := nodes[c1].(rect := SecondRect(n.rect, n.stacked));
      ghost var divided := nodes[..];
      DividedStored(before, divided, t);
      ReflowNode(c0, depth + 1, t.first);
      ghost var between := nodes[..];
      StoredFrame(divided, between, t.second);
      ReflowNode(c1, depth + 1, t.second);
      ReflowBoth(before, divided, between, nodes[..], t);
    }

    /** layout_reflow */
    method Reflow(cols: nat, rows: nat)
      requires Valid()
      modifies nodes
      ensures Valid() && tree == old(tree) && Current(cols, rows)
      ensures forall i :: 0 <= i < nodes.Length ==> SameShape(nodes[i], old(nodes[i]))
    {
      SixLeaves();
      HeightBelowLeaves(tree);
      if root < 0 || root >= LAYOUT_NODES {
        return;
      }
      ghost var before := nodes[..];
      nodes[root] := nodes[root].(rect := ViewRect(cols, rows));
      HoldsReshaped(before, nodes[..], tree);
      ReflowNode(root, 0, tree);
      HoldsReshaped(before, nodes[..], tree);
    }

    /** In-use nodes are one less than twice the leaves, so there are at most LAYOUT_MAX_LEAVES leaves. */
    lemma SixLeaves()
      requires Valid()
      ensures |Nodes(tree)| == 2 * Leaves(tree) - 1 && Leaves(tree) <= LAYOUT_MAX_LEAVES
    {
      StoredNodes(nodes[..], tree);
      NodeCount(tree);
      AtMost(Nodes(tree), nodes.Length);
    }

    /** Unless there are LAYOUT_MAX_LEAVES leaves, two nodes are free: an odd number of the 11 nodes is in use. */
    lemma TwoFree(a: int)
      requires Valid()
      requires forall i :: 0 <= i < nodes.Length && i != a ==> nodes[i].inUse
      ensures Leaves(tree) == LAYOUT_MAX_LEAVES
    {
      SixLeaves();
      AllBut(Nodes(tree), nodes.Length, a);
    }

    /** node_alloc */
    method Alloc() returns (k: int)
      requires nodes.Length == LAYOUT_NODES
      ensures k < 0 ==> forall i :: 0 <= i < nodes.Length ==> nodes[i].inUse
      ensures k >= 0 ==> k < nodes.Length && !nodes[k].inUse && forall i :: 0 <= i < k ==> nodes[i].inUse
    {
      for i := 0 to LAYOUT_NODES
        invariant forall j :: 0 <= j < i ==> nodes[j].inUse
      {
        if !nodes[i].inUse {
          return i;
        }
      }
      return -1;
    }

    /** find_leaf */
    method FindLeaf(pane: int) returns (k: int)
      requires Valid()
      ensures if pane in Panes(tree) then k == LeafAt(tree, pane) else k == -1
    {
      StoredNodes(nodes[..], tree);
      for i := 0 to LAYOUT_NODES
        invariant forall j :: 0 <= j < i ==> !(nodes[j].inUse && nodes[j].leaf && nodes[j].pane == pane)
      {
        if nodes[i].inUse && nodes[i].leaf && nodes[i].pane == pane {
          StoredLeaf(nodes[..], tree, pane, i);
          return i;
        }
      }
      if pane in Panes(tree) {
        LeafStored(nodes[..], tree, pane);
      }
      return -1;
    }

    /** find_parent of a pane's leaf */
    method FindParent(node: int, ghost pane: int) returns (k: int)
      requires Valid() && pane in Panes(tree) && node == LeafAt(tree, pane)
      ensures k == if tree.Split? then ParentOf(tree, pane).at else -1
    {
      StoredNodes(nodes[..], tree);
      for i := 0 to LAYOUT_NODES
        invariant forall j :: 0 <= j < i ==>
          !(nodes[j].inUse && !nodes[j].leaf && (nodes[j].child0 == node || nodes[j].child1 == node))
      {
        if nodes[i].inUse && !nodes[i].leaf && (nodes[i].child0 == node || nodes[i].child1 == node) {
          StoredParent(nodes[..], tree, pane, i);
          return i;
        }
      }
      if tree.Split? {
        ParentStored(nodes[..], tree, pane);
      }
      return -1;
    }

    /** layout_split: refused, with nothing changed, or done with the rectangles of the view current. */
    method Split(cols: nat, rows: nat, pane: int, added: int, stacked: bool)
        returns (ok: bool, ghost i: nat, ghost j: nat)
      requires Valid() && added !in Panes(tree)
      modifies this, nodes
      ensures Valid()
      ensures ok <==> pane in Panes(old(tree)) && old(pane in Panes(tree) && Splittable(RectOf(pane), stacked))
                      && Leaves(old(tree)) < LAYOUT_MAX_LEAVES
      ensures !ok ==> tree == old(tree) && nodes[..] == old(nodes[..])
      ensures ok ==> Current(cols, rows) && tree == SplitLeaf(old(tree), pane, stacked, i, j, added)
                     && Leaves(tree) == Leaves(old(tree)) + 1 && Panes(tree) == Panes(old(tree)) + {added}
                     && i !in Nodes(old(tree)) && j !in Nodes(old(tree)) && i != j
      ensures ok && old(Current(cols, rows)) ==>
        SplitGeometry(old(tree), tree, ViewRect(cols, rows), pane, added, stacked)
    {
      i, j := 0, 0;
      var leaf := FindLeaf(pane);
      if leaf < 0 {
        return false, i, j;
      }
      LeafStored(nodes[..], tree, pane);
      if !Splittable(nodes[leaf].rect, stacked) {
        return false, i, j;
      }
      var a := Alloc();
      if a < 0 {
        TwoFree(-1);
        return false, i, j;
      }
      ghost var before := nodes[..];
      nodes[a] := nodes[a].(inUse := true);
      var b := Alloc();
      if b < 0 {
        nodes[a] := nodes[a].(inUse := false);
        assert nodes[..] == before;
        TwoFree(a);
        return false, i, j;
      }
      i, j := a, b;
      if Placed(before, tree, ViewRect(cols, rows)) {
        PlacedLeaf(before, tree, ViewRect(cols, rows), pane);
        SplitGeometryHolds(tree, ViewRect(cols, rows), pane, stacked, i, j, added);
      }
      Graft(cols, rows, pane, leaf, a, b, added, stacked, before);
      ok := true;
    }

    /** The leaf becomes a split of two new ones, and the view is reflowed. */
    method Graft(cols: nat, rows: nat, pane: int, leaf: int, a: int, b: int, added: int, stacked: bool,
        ghost before: seq<Node>)
      requires nodes.Length == LAYOUT_NODES == |before| && root == tree.at && Holds(before, tree)
      requires pane in Panes(tree) && added !in Panes(tree) && leaf == LeafAt(tree, pane)
      requires 0 <= a < |before| && 0 <= b < |before| && a != b && a !in Nodes(tree) && b !in Nodes(tree)
      requires nodes[..] == before[a := before[a].(inUse := true)]
      modifies this, nodes
      ensures Valid() && Current(cols, rows) && tree == SplitLeaf(old(tree), pane, stacked, a, b, added)
      ensures Leaves(tree) == Leaves(old(tree)) + 1 && Panes(tree) == Panes(old(tree)) + {added}
      ensures Leaves(tree) <= LAYOUT_MAX_LEAVES
    {
      LeafStored(before, tree, pane);
      nodes[a], nodes[b] := LeafNode(pane), LeafNode(added);
      nodes[leaf] := nodes[leaf].(leaf := false, pane := -1, stacked := stacked, child0 := a, child1 := b);
      assert nodes[..] == Grafted(before, leaf, pane, stacked, a, b, added);
      HoldsGrafted(before, tree, leaf, pane, stacked, a, b, added);
      SplitLeafShape(tree, pane, stacked, a, b, added);
      tree := SplitLeaf(tree, pane, stacked, a, b, added);
      SixLeaves();
      Reflow(cols, rows);
    }

    /** layout_close: refused for an absent or the last pane, else the sibling takes the parent's place. */
    method Close(cols: nat, rows: nat, pane: int) returns (ok: bool)
      requires Valid()
      modifies this, nodes
      ensures Valid()
      ensures ok <==> pane in Panes(old(tree)) && old(tree).Split?
      ensures !ok ==> tree == old(tree) && nodes[..] == old(nodes[..])
      ensures ok ==> Current(cols, rows) && tree == CloseLeaf(old(tree), pane)
                     && Leaves(tree) == Leaves(old(tree)) - 1 && Panes(tree) == Panes(old(tree)) - {pane}
    {
      var leaf := FindLeaf(pane);
      if leaf < 0 {
        return false;
      }
      var parent := FindParent(leaf, pane);
      if parent < 0 {
        return false;
      }
      HoldsClose(nodes[..], tree, pane);
      CloseLeafShape(tree, pane);
      var sibling := if nodes[parent].child0 == leaf then nodes[parent].child1 else nodes[parent].child0;
      ghost var before := nodes[..];
      nodes[parent] := nodes[sibling].(inUse := true);
      nodes[leaf] := nodes[leaf].(inUse := false);
      nodes[sibling] := nodes[sibling].(inUse := false);
      assert nodes[..] == Closed(before, parent, leaf, sibling);
      tree := CloseLeaf(tree, pane);
      Reflow(cols, rows);
      ok := true;
    }

    /** layout_pane_rect: with the rectangles of the view current, the one the tree gives the pane. */
    method PaneRect(pane: int) returns (ok: bool, rect: Rect)
      requires Valid()
      ensures ok <==> pane in Panes(tree)
      ensures forall cols, rows :: ok && Current(cols, rows) ==> rect == LeafRect(tree, ViewRect(cols, rows), pane)
    {
      var leaf := FindLeaf(pane);
      if leaf < 0 {
        return false, NO_RECT;
      }
      LeafStored(nodes[..], tree, pane);
      forall cols, rows | Current(cols, rows) ensures nodes[leaf].rect == LeafRect(tree, ViewRect(cols, rows), pane) {
        PlacedLeaf(nodes[..], tree, ViewRect(cols, rows), pane);
      }
      return true, nodes[leaf].rect;
    }
  }

  lemma {:induction false} AtMost(s: set<nat>, n: nat)
    requires forall i :: i in s ==> i < n
    ensures |s| <= n
  {
    if n > 0 {
      AtMost(s - {n - 1}, n - 1);
    } else {
      assert s == {};
    }
  }

  lemma {:induction false} AllBut(s: set<nat>, n: nat, a: int)
    requires forall i: nat :: i < n && i != a ==> i in s
    ensures |s| >= n - 1 && (a >= n ==> |s| >= n)
  {
    if n > 0 {
      AllBut(s - {n - 1}, n - 1, if a == n - 1 then n else a);
    }
  }
}
