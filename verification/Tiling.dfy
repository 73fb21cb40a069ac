/** The view as the compositor draws it from the node array (src/daemon/composite.c, emit_dividers and the pane
    rectangles): after a reflow, which nodes draw a cell of the view. */
module Tiling {
  import opened SplitTree
  import opened Layout

  /** The divider of a split node, found from its first child as emit_dividers does. */
  function DrawnDivider(n: Node, a: Node): Rect {
    if n.stacked then Rect(n.rect.x, U16(a.rect.y + a.rect.rows), n.rect.cols, 1)
    else Rect(U16(a.rect.x + a.rect.cols), n.rect.y, 1, n.rect.rows)
  }

  /** Node i draws the cell: a leaf its rectangle, a split node its divider. */
  ghost predicate Draws(ns: seq<Node>, i: nat, px: int, py: int) {
    i < |ns| && ns[i].inUse &&
    if ns[i].leaf then Inside(ns[i].rect, px, py)
    else 0 <= ns[i].child0 < |ns| && Inside(DrawnDivider(ns[i], ns[ns[i].child0]), px, py)
  }

  ghost function Drawers(ns: seq<Node>, t: Tree, px: int, py: int): set<nat> {
    set i | i in Nodes(t) && Draws(ns, i, px, py)
  }

  /** A split node draws its divider where the tree has it. */
  lemma SplitDraws(ns: seq<Node>, t: Tree, r: Rect, px: int, py: int)
    requires t.Split? && Stored(ns, t) && Placed(ns, t, r)
    ensures Draws(ns, t.at, px, py) <==> Inside(DividerRect(r, t.stacked), px, py)
  {
    assert Placed(ns, t.first, FirstRect(r, t.stacked));
  }

  lemma DrawersSplit(ns: seq<Node>, t: Tree, px: int, py: int)
    requires t.Split? && WellFormed(t)
    ensures |Drawers(ns, t, px, py)|
      == |Drawers(ns, t.first, px, py)| + |Drawers(ns, t.second, px, py)| + if Draws(ns, t.at, px, py) then 1 else 0
  {
    var a, b := Drawers(ns, t.first, px, py), Drawers(ns, t.second, px, py);
    var own: set<nat> := if Draws(ns, t.at, px, py) then {t.at} else {};
    assert Drawers(ns, t, px, py) == a + b + own;
    DisjointSize(a, b);
    DisjointSize(a + b, own);
  }

  lemma {:induction false} DrawersArePieces(ns: seq<Node>, t: Tree, r: Rect, px: int, py: int)
    requires WellFormed(t) && Stored(ns, t) && Placed(ns, t, r)
    ensures |Drawers(ns, t, px, py)| == Pieces(t, r, px, py)
  {
    if t.Split? {
      DrawersSplit(ns, t, px, py);
      SplitDraws(ns, t, r, px, py);
      DrawersArePieces(ns, t.first, FirstRect(r, t.stacked), px, py);
      DrawersArePieces(ns, t.second, SecondRect(r, t.stacked), px, py);
    } else {
      assert Drawers(ns, t, px, py) == if Inside(r, px, py) then {t.at} else {};
    }
  }

  /** After a reflow that left every split node at least 3 cells to divide, each cell of the view is drawn by exactly
      one node in use, leaf or divider, and no node draws outside the view. */
  lemma ViewDrawnOnce(ns: seq<Node>, t: Tree, cols: nat, rows: nat, px: int, py: int)
    requires Holds(ns, t) && Placed(ns, t, ViewRect(cols, rows)) && Roomy(t, ViewRect(cols, rows))
    requires cols < 0x1_0000 && rows < 0x1_0000
    ensures |set i | 0 <= i < |ns| && Draws(ns, i, px, py)| == if Inside(ViewRect(cols, rows), px, py) then 1 else 0
  {
    var view := ViewRect(cols, rows);
    RoomyTiles(t, view);
    DrawersArePieces(ns, t, view, px, py);
    StoredNodes(ns, t);
    assert Drawers(ns, t, px, py) == set i | 0 <= i < |ns| && Draws(ns, i, px, py);
    assert Pieces(t, view, px, py) == if Inside(view, px, py) then 1 else 0;
  }
}
