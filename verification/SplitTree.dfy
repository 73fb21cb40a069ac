/** Geometry of the binary split tree (src/daemon/layout.c, divide and reflow_node; dividers as
    src/daemon/composite.c draws them). A tree names, for every node, its slot in the node array. */
module SplitTree {
  const PANE_MIN_COLS: nat := 20
  const PANE_MIN_ROWS: nat := 3

  datatype Tree = Leaf(at: nat, pane: int) | Split(at: nat, stacked: bool, first: Tree, second: Tree)

  datatype Rect = Rect(x: nat, y: nat, cols: nat, rows: nat)

  /** 16-bit wrap-around of a coordinate. */
  function U16(v: nat): nat {
    v % 0x1_0000
  }

  /** The two halves of a length behind one divider cell; the first keeps the odd one; neither is below 1. */
  function Half(length: nat): (h: (nat, nat)) {
    var usable := if length > 1 then length - 1 else 1;
    var near := (usable + 1) / 2;
    var far := if usable > near then usable - near else 1;
    (if near != 0 then near else 1, if far != 0 then far else 1)
  }

  function FirstRect(r: Rect, stacked: bool): Rect {
    if stacked then r.(rows := Half(r.rows).0) else r.(cols := Half(r.cols).0)
  }

  function SecondRect(r: Rect, stacked: bool): Rect {
    if stacked then r.(y := U16(r.y + Half(r.rows).0 + 1), rows := Half(r.rows).1)
    else r.(x := U16(r.x + Half(r.cols).0 + 1), cols := Half(r.cols).1)
  }

  /** The divider of a split node: one row or column right behind its first child. */
  function DividerRect(r: Rect, stacked: bool): Rect {
    if stacked then Rect(r.x, U16(r.y + Half(r.rows).0), r.cols, 1)
    else Rect(U16(r.x + Half(r.cols).0), r.y, 1, r.rows)
  }

  ghost predicate Inside(r: Rect, px: int, py: int) {
    r.x <= px < r.x + r.cols && r.y <= py < r.y + r.rows
  }

  ghost function Height(t: Tree): nat {
    match t
    case Leaf(_, _) => 0
    case Split(_, _, a, b) => 1 + if Height(a) > Height(b) then Height(a) else Height(b)
  }

  ghost function Leaves(t: Tree): (n: nat)
    ensures n >= 1
  {
    match t
    case Leaf(_, _) => 1
    case Split(_, _, a, b) => Leaves(a) + Leaves(b)
  }

  /** How many leaves and dividers of the tree, laid out in r, hold a cell. */
  ghost function Pieces(t: Tree, r: Rect, px: int, py: int): nat {
    match t
    case Leaf(_, _) => if Inside(r, px, py) then 1 else 0
    case Split(_, stacked, a, b) =>
      Pieces(a, FirstRect(r, stacked), px, py) + Pieces(b, SecondRect(r, stacked), px, py)
      + if Inside(DividerRect(r, stacked), px, py) then 1 else 0
  }

  /** Leaves and dividers together hold every cell of r exactly once and nothing else. */
  ghost predicate Tiles(t: Tree, r: Rect) {
    forall px, py :: Pieces(t, r, px, py) == if Inside(r, px, py) then 1 else 0
  }

  ghost function Extent(r: Rect, stacked: bool): nat {
    if stacked then r.rows else r.cols
  }

  /** Every split node has at least 3 cells in its split direction. */
  ghost predicate Roomy(t: Tree, r: Rect) {
    match t
    case Leaf(_, _) => true
    case Split(_, stacked, a, b) =>
      Extent(r, stacked) >= 3 && Roomy(a, FirstRect(r, stacked)) && Roomy(b, SecondRect(r, stacked))
  }

  /** Room for what a tree of this height can stick out at the far sides without 16-bit wrap-around. */
  ghost predicate Bounded(r: Rect, slack: nat) {
    r.cols >= 1 && r.rows >= 1 && r.x + r.cols + 2 * slack <= 0x1_0000 && r.y + r.rows + 2 * slack <= 0x1_0000
  }

  lemma HalfSum(length: nat)
    ensures Half(length).0 >= 1 && Half(length).1 >= 1
    ensures length >= 3 ==> Half(length).0 + 1 + Half(length).1 == length
    ensures 1 <= length < 3 ==> Half(length).0 == 1 && Half(length).1 == 1
    ensures length >= 1 ==> Half(length).0 + 1 + Half(length).1 <= length + 2
  {
  }

  /** Two rectangles divide one: side by side or one on the other with one cell between them, the first as long as the
      second or one cell longer, and both as wide as the whole. */
  predicate EvenHalves(r: Rect, a: Rect, b: Rect, stacked: bool) {
    if stacked then
      && a.x == b.x == r.x && a.cols == b.cols == r.cols && a.y == r.y && b.y == U16(r.y + a.rows + 1)
      && a.rows + 1 + b.rows == r.rows && b.rows <= a.rows <= b.rows + 1
    else
      && a.y == b.y == r.y && a.rows == b.rows == r.rows && a.x == r.x && b.x == U16(r.x + a.cols + 1)
      && a.cols + 1 + b.cols == r.cols && b.cols <= a.cols <= b.cols + 1
  }

  lemma DividedEvenly(r: Rect, stacked: bool)
    requires Extent(r, stacked) >= 3
    ensures EvenHalves(r, FirstRect(r, stacked), SecondRect(r, stacked), stacked)
  {
  }

  lemma {:induction false} RoomyTiles(t: Tree, r: Rect)
    requires Roomy(t, r) && Bounded(r, 0)
    ensures Tiles(t, r)
  {
    if t.Split? {
      HalfSum(Extent(r, t.stacked));
      RoomyTiles(t.first, FirstRect(r, t.stacked));
      RoomyTiles(t.second, SecondRect(r, t.stacked));
    }
  }

  /** One division, cell by cell: nothing of r is left over, the parts do not overlap, and they stay in r exactly
      when there are 3 cells to divide; otherwise the second part starts outside. */
  lemma Division(r: Rect, stacked: bool, slack: nat, px: int, py: int)
    requires Bounded(r, slack + 1)
    ensures var a, b, d := FirstRect(r, stacked), SecondRect(r, stacked), DividerRect(r, stacked);
      && Bounded(a, slack) && Bounded(b, slack)
      && (Inside(r, px, py) ==> Inside(a, px, py) || Inside(b, px, py) || Inside(d, px, py))
      && (Inside(b, px, py) ==> !Inside(a, px, py) && !Inside(d, px, py))
      && (Inside(a, px, py) ==> !Inside(d, px, py) && Inside(r, px, py))
      && (Extent(r, stacked) >= 3 && Inside(b, px, py) ==> Inside(r, px, py))
      && Inside(b, b.x, b.y) && (Extent(r, stacked) < 3 ==> !Inside(r, b.x, b.y))
  {
    HalfSum(Extent(r, stacked));
    NoWrap(r, stacked, slack);
  }

  lemma NoWrap(r: Rect, stacked: bool, slack: nat)
    requires Bounded(r, slack + 1)
    ensures var b, d := SecondRect(r, stacked), DividerRect(r, stacked);
      && b.x == (if stacked then r.x else r.x + Half(r.cols).0 + 1)
      && b.y == (if stacked then r.y + Half(r.rows).0 + 1 else r.y)
      && d.x == (if stacked then r.x else r.x + Half(r.cols).0)
      && d.y == (if stacked then r.y + Half(r.rows).0 else r.y)
  {
    HalfSum(Extent(r, stacked));
  }

  /** However cramped, leaves and dividers leave no cell of r uncovered. */
  lemma {:induction false} Covers(t: Tree, r: Rect, px: int, py: int)
    requires Bounded(r, Height(t)) && Inside(r, px, py)
    ensures Pieces(t, r, px, py) >= 1
  {
    if t.Split? {
      Division(r, t.stacked, Height(t) - 1, px, py);
      if Inside(FirstRect(r, t.stacked), px, py) {
        Covers(t.first, FirstRect(r, t.stacked), px, py);
      } else if Inside(SecondRect(r, t.stacked), px, py) {
        Covers(t.second, SecondRect(r, t.stacked), px, py);
      }
    }
  }

  /** A split node below 3 cells makes some cell be held twice, or holds one outside the rectangle. */
  lemma {:induction false} CrampedMiss(t: Tree, r: Rect) returns (px: int, py: int)
    requires !Roomy(t, r) && Bounded(r, Height(t))
    ensures if Inside(r, px, py) then Pieces(t, r, px, py) >= 2 else Pieces(t, r, px, py) >= 1
  {
    var a, b := FirstRect(r, t.stacked), SecondRect(r, t.stacked);
    Division(r, t.stacked, Height(t) - 1, b.x, b.y);
    if Extent(r, t.stacked) < 3 {
      px, py := b.x, b.y;
      Covers(t.second, b, px, py);
    } else if !Roomy(t.first, a) {
      px, py := CrampedMiss(t.first, a);
      Division(r, t.stacked, Height(t) - 1, px, py);
      if Inside(b, px, py) { Covers(t.second, b, px, py); }
    } else {
      px, py := CrampedMiss(t.second, b);
      Division(r, t.stacked, Height(t) - 1, px, py);
      if Inside(a, px, py) { Covers(t.first, a, px, py); }
    }
  }

  /** Leaves and dividers tile the view exactly when every split node has at least 3 cells to divide. */
  lemma TilesIffRoomy(t: Tree, r: Rect)
    requires Bounded(r, Height(t))
    ensures Tiles(t, r) <==> Roomy(t, r)
  {
    if Roomy(t, r) {
      RoomyTiles(t, r);
    } else {
      var px, py := CrampedMiss(t, r);
      assert Pieces(t, r, px, py) != if Inside(r, px, py) then 1 else 0;
    }
  }

  // ---- tree surgery ----

  ghost function Nodes(t: Tree): set<nat> {
    match t
    case Leaf(at, _) => {at}
    case Split(at, _, a, b) => {at} + Nodes(a) + Nodes(b)
  }

  ghost function Panes(t: Tree): set<int> {
    match t
    case Leaf(_, pane) => {pane}
    case Split(_, _, a, b) => Panes(a) + Panes(b)
  }

  /** No node slot and no pane occurs twice. */
  ghost predicate WellFormed(t: Tree) {
    match t
    case Leaf(_, _) => true
    case Split(at, _, a, b) =>
      && WellFormed(a) && WellFormed(b)
      && Nodes(a) !! Nodes(b) && at !in Nodes(a) && at !in Nodes(b) && Panes(a) !! Panes(b)
  }

  /** The leaf of pane becomes a split of itself, in slot i, and a leaf for added, in slot j. */
  ghost function SplitLeaf(t: Tree, pane: int, stacked: bool, i: nat, j: nat, added: int): Tree {
    match t
    case Leaf(at, p) => if p == pane then Split(at, stacked, Leaf(i, pane), Leaf(j, added)) else t
    case Split(_, _, a, b) =>
      if pane in Panes(a) then t.(first := SplitLeaf(a, pane, stacked, i, j, added))
      else t.(second := SplitLeaf(b, pane, stacked, i, j, added))
  }

  ghost predicate IsLeafOf(t: Tree, pane: int) {
    t.Leaf? && t.pane == pane
  }

  /** The sibling subtree of pane's leaf takes the parent's slot. */
  ghost function CloseLeaf(t: Tree, pane: int): Tree
    requires t.Split? && pane in Panes(t)
  {
    if IsLeafOf(t.first, pane) then t.second.(at := t.at)
    else if IsLeafOf(t.second, pane) then t.first.(at := t.at)
    else if pane in Panes(t.first) then t.(first := CloseLeaf(t.first, pane))
    else assert pane in Panes(t.second); t.(second := CloseLeaf(t.second, pane))
  }

  ghost function LeafAt(t: Tree, pane: int): nat
    requires pane in Panes(t)
  {
    match t
    case Leaf(at, _) => at
    case Split(_, _, a, b) => if pane in Panes(a) then LeafAt(a, pane) else LeafAt(b, pane)
  }

  /** The split node right above pane's leaf. */
  ghost function ParentOf(t: Tree, pane: int): (p: Tree)
    requires t.Split? && pane in Panes(t)
    ensures p.Split?
  {
    if IsLeafOf(t.first, pane) || IsLeafOf(t.second, pane) then t
    else if pane in Panes(t.first) then ParentOf(t.first, pane)
    else assert pane in Panes(t.second); ParentOf(t.second, pane)
  }

  ghost function LeafRect(t: Tree, r: Rect, pane: int): Rect
    requires pane in Panes(t)
  {
    match t
    case Leaf(_, _) => r
    case Split(_, stacked, a, b) =>
      if pane in Panes(a) then LeafRect(a, FirstRect(r, stacked), pane) else LeafRect(b, SecondRect(r, stacked), pane)
  }

  lemma DisjointSize<T>(a: set<T>, b: set<T>)
    requires a !! b
    ensures |a + b| == |a| + |b|
  {
  }

  /** A full binary tree: one split node less than leaves. */
  lemma {:induction false} NodeCount(t: Tree)
    requires WellFormed(t)
    ensures |Nodes(t)| == 2 * Leaves(t) - 1
  {
    if t.Split? {
      NodeCount(t.first);
      NodeCount(t.second);
      DisjointSize(Nodes(t.first), Nodes(t.second));
      DisjointSize({t.at}, Nodes(t.first) + Nodes(t.second));
      assert Nodes(t) == {t.at} + (Nodes(t.first) + Nodes(t.second));
    }
  }

  lemma {:induction false} HeightBelowLeaves(t: Tree)
    ensures Height(t) <= Leaves(t) - 1
  {
    if t.Split? {
      HeightBelowLeaves(t.first);
      HeightBelowLeaves(t.second);
    }
  }

  lemma {:induction false} PaneCount(t: Tree)
    requires WellFormed(t)
    ensures |Panes(t)| == Leaves(t)
  {
    if t.Split? {
      PaneCount(t.first);
      PaneCount(t.second);
      DisjointSize(Panes(t.first), Panes(t.second));
    }
  }

  lemma {:induction false} SplitLeafShape(t: Tree, pane: int, stacked: bool, i: nat, j: nat, added: int)
    requires WellFormed(t) && pane in Panes(t) && added !in Panes(t) && i !in Nodes(t) && j !in Nodes(t) && i != j
    ensures var s := SplitLeaf(t, pane, stacked, i, j, added);
      && s.at == t.at && WellFormed(s)
      && Nodes(s) == Nodes(t) + {i, j} && Panes(s) == Panes(t) + {added} && Leaves(s) == Leaves(t) + 1
  {
    if t.Split? {
      if pane in Panes(t.first) {
        SplitLeafShape(t.first, pane, stacked, i, j, added);
      } else {
        SplitLeafShape(t.second, pane, stacked, i, j, added);
      }
    }
  }

  ghost function SiblingAt(t: Tree, pane: int): nat
    requires t.Split? && pane in Panes(t)
  {
    var p := ParentOf(t, pane);
    if IsLeafOf(p.first, pane) then p.second.at else p.first.at
  }

  /** The parent of pane's leaf has that leaf as a child. */
  lemma {:induction false} ParentShape(t: Tree, pane: int)
    requires WellFormed(t) && t.Split? && pane in Panes(t)
    ensures var p := ParentOf(t, pane);
      && WellFormed(p) && Nodes(p) <= Nodes(t)
      && LeafAt(t, pane) == (if IsLeafOf(p.first, pane) then p.first.at else p.second.at)
      && (!IsLeafOf(p.first, pane) ==> IsLeafOf(p.second, pane))
  {
    if !IsLeafOf(t.first, pane) && !IsLeafOf(t.second, pane) {
      if pane in Panes(t.first) {
        ParentShape(t.first, pane);
      } else {
        ParentShape(t.second, pane);
      }
    }
  }

  lemma {:induction false} CloseLeafShape(t: Tree, pane: int)
    requires WellFormed(t) && t.Split? && pane in Panes(t)
    ensures var s := CloseLeaf(t, pane);
      && s.at == t.at && WellFormed(s) && {LeafAt(t, pane), SiblingAt(t, pane)} <= Nodes(t)
      && Nodes(s) == Nodes(t) - {LeafAt(t, pane), SiblingAt(t, pane)}
      && Panes(s) == Panes(t) - {pane} && Leaves(s) == Leaves(t) - 1
  {
    if IsLeafOf(t.first, pane) || IsLeafOf(t.second, pane) {
      MoveShape(t.first, t.at);
      MoveShape(t.second, t.at);
    } else if pane in Panes(t.first) {
      CloseLeafShape(t.first, pane);
    } else {
      CloseLeafShape(t.second, pane);
    }
  }

  lemma MoveShape(t: Tree, at: nat)
    requires WellFormed(t) && at !in Nodes(t)
    ensures var s := t.(at := at);
      WellFormed(s) && Nodes(s) == Nodes(t) - {t.at} + {at} && Panes(s) == Panes(t) && Leaves(s) == Leaves(t)
  {
  }

  /** Closing a pane that a split has just made leads back to the tree before the split. */
  lemma {:induction false} SplitThenClose(t: Tree, pane: int, stacked: bool, i: nat, j: nat, added: int)
    requires WellFormed(t) && pane in Panes(t) && added !in Panes(t)
    ensures var s := SplitLeaf(t, pane, stacked, i, j, added);
      s.Split? && added in Panes(s) && CloseLeaf(s, added) == t
  {
    if t.Split? {
      if pane in Panes(t.first) {
        SplitThenClose(t.first, pane, stacked, i, j, added);
      } else {
        SplitThenClose(t.second, pane, stacked, i, j, added);
      }
    }
  }

  /** A split moves no other pane; the two halves divide the rectangle of the one split. */
  lemma {:induction false} SplitRects(t: Tree, r: Rect, pane: int, stacked: bool, i: nat, j: nat, added: int,
      other: int)
    requires WellFormed(t) && pane in Panes(t) && added !in Panes(t) && i !in Nodes(t) && j !in Nodes(t) && i != j
    requires other in Panes(t) && other != pane
    ensures var s := SplitLeaf(t, pane, stacked, i, j, added);
      && {other, pane, added} <= Panes(s)
      && LeafRect(s, r, other) == LeafRect(t, r, other)
      && LeafRect(s, r, pane) == FirstRect(LeafRect(t, r, pane), stacked)
      && LeafRect(s, r, added) == SecondRect(LeafRect(t, r, pane), stacked)
  {
    SplitLeafShape(t, pane, stacked, i, j, added);
    var a, b := t.first, t.second;
    if pane in Panes(a) {
      SplitLeafShape(a, pane, stacked, i, j, added);
      if other in Panes(a) {
        SplitRects(a, FirstRect(r, t.stacked), pane, stacked, i, j, added, other);
      } else {
        SplitHalves(a, FirstRect(r, t.stacked), pane, stacked, i, j, added);
      }
    } else {
      SplitLeafShape(b, pane, stacked, i, j, added);
      if other in Panes(b) {
        SplitRects(b, SecondRect(r, t.stacked), pane, stacked, i, j, added, other);
      } else {
        SplitHalves(b, SecondRect(r, t.stacked), pane, stacked, i, j, added);
      }
    }
  }

  lemma {:induction false} SplitHalves(t: Tree, r: Rect, pane: int, stacked: bool, i: nat, j: nat, added: int)
    requires WellFormed(t) && pane in Panes(t) && added !in Panes(t) && i !in Nodes(t) && j !in Nodes(t) && i != j
    ensures var s := SplitLeaf(t, pane, stacked, i, j, added);
      && {pane, added} <= Panes(s)
      && LeafRect(s, r, pane) == FirstRect(LeafRect(t, r, pane), stacked)
      && LeafRect(s, r, added) == SecondRect(LeafRect(t, r, pane), stacked)
  {
    SplitLeafShape(t, pane, stacked, i, j, added);
    if t.Split? {
      if pane in Panes(t.first) {
        SplitLeafShape(t.first, pane, stacked, i, j, added);
        SplitHalves(t.first, FirstRect(r, t.stacked), pane, stacked, i, j, added);
      } else {
        SplitLeafShape(t.second, pane, stacked, i, j, added);
        SplitHalves(t.second, SecondRect(r, t.stacked), pane, stacked, i, j, added);
      }
    }
  }

  /** With two or more leaves, no leaf has the whole view. */
  lemma {:induction false} NoLeafIsAll(t: Tree, r: Rect, pane: int)
    requires t.Split? && Roomy(t, r) && pane in Panes(t)
    ensures LeafRect(t, r, pane) != r
  {
    LeafWithin(t, r, pane);
  }

  lemma {:induction false} LeafWithin(t: Tree, r: Rect, pane: int)
    requires Roomy(t, r) && pane in Panes(t)
    ensures var q := LeafRect(t, r, pane);
      q.cols <= r.cols && q.rows <= r.rows && (t.Split? ==> q.cols + q.rows < r.cols + r.rows)
  {
    if t.Split? {
      HalfSum(Extent(r, t.stacked));
      if pane in Panes(t.first) {
        LeafWithin(t.first, FirstRect(r, t.stacked), pane);
      } else {
        LeafWithin(t.second, SecondRect(r, t.stacked), pane);
      }
    }
  }
}
