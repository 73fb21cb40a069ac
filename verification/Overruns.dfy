/** Why frames of dirty rows need their two premises: scenes in which one of them fails and a partial frame leaves a
    picture that a full repaint would not (src/daemon/composite.c). */
module Overruns {
  import opened Bytes
  import opened Cells
  import opened Screen
  import opened SplitTree
  import opened Layout
  import opened Tiling
  import opened Picture
  import opened Composite

  const A_CELL: Cell := Cell(0x41, DEFAULT_COLOR, DEFAULT_COLOR, {}, false, false, 0)

  /** A pane of one row. */
  function OneRow(id: nat, x: nat, cols: nat, line: Row, dirty: set<nat>): Option<PaneView> {
    Some(PaneView(id, Rect(x, 0, cols, 1), [line], dirty))
  }

  lemma OneRowRuns(id: nat, x: nat, cols: nat, line: Row, dirty: set<nat>)
    ensures var p := OneRow(id, x, cols, line, dirty).value;
      && Composite.Height(p) == 1 && PaneRun(p, 0) == Run(x, 0, Emission(line, cols))
      && PaneRuns(p, true, 1) == [Run(x, 0, Emission(line, cols))]
      && PaneRuns(p, false, 1) == if 0 in dirty then [Run(x, 0, Emission(line, cols))] else []
  {
    var p := OneRow(id, x, cols, line, dirty).value;
    assert PaneRuns(p, true, 0) == [] == PaneRuns(p, false, 0);
  }

  /** A row of narrow cells is as wide as it is long. */
  lemma {:induction false} NarrowExact(line: Row, n: nat)
    requires n <= |line| && forall i :: 0 <= i < |line| ==> !line[i].wide && !line[i].spacer
    ensures Leads(line, |line|, n) == 0 == Spacers(line, n)
  {
    if n > 0 {
      NarrowExact(line, n - 1);
    }
  }

  lemma NarrowEmission(line: Row)
    requires forall i :: 0 <= i < |line| ==> !line[i].wide && !line[i].spacer
    ensures |Emission(line, |line|)| == |line|
  {
    NarrowExact(line, |line|);
    EmissionExact(line, |line|);
  }

  // ---- a pair split by erasing ----

  /** Two panes of two columns side by side, with the divider between them in column 2. */
  function SideBySide(line: Row, dirty: set<nat>): Scene {
    Scene([Node(true, false, 0, false, 1, 2, Rect(0, 0, 5, 1)),
           Node(true, true, 0, false, 0, 0, Rect(0, 0, 2, 1)),
           Node(true, true, 1, false, 0, 0, Rect(3, 0, 2, 1))],
          [OneRow(0, 0, 2, line, dirty), OneRow(1, 3, 2, BlankRow(2, EMPTY), {})], NO_ZOOM)
  }

  const SIDE_TREE := Split(0, false, Leaf(1, 0), Leaf(2, 1))

  lemma SideBySideLaidOut(line: Row, dirty: set<nat>)
    ensures LaidOut(SideBySide(line, dirty), SIDE_TREE, 5, 1)
  {
    var s, view := SideBySide(line, dirty), ViewRect(5, 1);
    var a, b := Leaf(1, 0), Leaf(2, 1);
    assert Half(5) == (2, 2);
    assert FirstRect(view, false) == Rect(0, 0, 2, 1) && SecondRect(view, false) == Rect(3, 0, 2, 1);
    assert Stored(s.ns, a) && Stored(s.ns, b) && Placed(s.ns, a, Rect(0, 0, 2, 1)) && Placed(s.ns, b, Rect(3, 0, 2, 1));
    assert Nodes(SIDE_TREE) == {0, 1, 2} && Panes(SIDE_TREE) == {0, 1};
    assert LeafRect(SIDE_TREE, view, 0) == Rect(0, 0, 2, 1) && LeafRect(SIDE_TREE, view, 1) == Rect(3, 0, 2, 1);
  }

  lemma SideBySideFrames(line: Row, dirty: set<nat>)
    ensures var other := Run(3, 0, Emission(BlankRow(2, EMPTY), 2));
      && Frame(SideBySide(line, dirty), true) == [Run(0, 0, Emission(line, 2)), other, Run(2, 0, [BAR])]
      && Frame(SideBySide(line, dirty), false) == if 0 in dirty then [Run(0, 0, Emission(line, 2))] else []
  {
    var s := SideBySide(line, dirty);
    OneRowRuns(0, 0, 2, line, dirty);
    OneRowRuns(1, 3, 2, BlankRow(2, EMPTY), {});
    assert RowRuns(s, true, 0) == [] == RowRuns(s, false, 0);
    assert RowRuns(s, true, 1) == [Run(0, 0, Emission(line, 2))];
    assert RowRuns(s, false, 1) == if 0 in dirty then [Run(0, 0, Emission(line, 2))] else [];
    assert BarRuns(2, 0, 0) == [] && BarRuns(2, 0, 1) == [Run(2, 0, [BAR])];
    assert DividerRuns(s.ns, 0) == [] && NodeRuns(s.ns, 0) == BarRuns(2, 0, 1);
    assert DividerRuns(s.ns, 1) == DividerRuns(s.ns, 2) == DividerRuns(s.ns, 3) == [Run(2, 0, [BAR])];
  }

  /** The row after a wide character is printed and its right half erased. */
  function HalfErased(): Row {
    Filled(Written(BlankRow(2, EMPTY), 0, 0x4E00, PLAIN, 2), 1, 2, Blank(DEFAULT_COLOR))
  }

  lemma HalfErasedRow()
    ensures Emission(HalfErased(), 2) == [GlyphOf(Lead(0x4E00, PLAIN, 2)), RightHalf, SPACE]
  {
    var line := HalfErased();
    assert line[0] == Lead(0x4E00, PLAIN, 2) && line[1] == Blank(DEFAULT_COLOR);
    assert Cellwise(line, 2, 0) == [];
    assert Cellwise(line, 2, 1) == [GlyphOf(line[0]), RightHalf];
    assert Cellwise(line, 2, 2) == [GlyphOf(line[0]), RightHalf] + [SPACE];
  }

  /** The premise on row widths is needed, with panes laid out as they should be: erasing the right half of a wide
      character leaves a row one column too wide, and the partial frame that draws it runs over the divider, which
      only a full frame puts back. */
  lemma SplitPairOverruns()
    ensures var before, s := SideBySide(BlankRow(2, EMPTY), {}), SideBySide(HalfErased(), {0});
      && LaidOut(s, SIDE_TREE, 5, 1) && Since(before, s) && Drawable(before, 0) && ApartAt(s, 0) && !ExactAt(s, 0)
      && Pictured(Frame(before, true), before, 0) && !Pictured(Frame(before, true) + Frame(s, false), s, 0)
  {
    var blank := BlankRow(2, EMPTY);
    var before, s := SideBySide(blank, {}), SideBySide(HalfErased(), {0});
    SideBySideLaidOut(blank, {});
    SideBySideLaidOut(HalfErased(), {0});
    LaidOutApart(before, SIDE_TREE, 5, 1, 0);
    LaidOutApart(s, SIDE_TREE, 5, 1, 0);
    HalfErasedRow();
    NarrowEmission(blank);
    SideBySideFrames(blank, {});
    SideBySideFrames(HalfErased(), {0});
    assert Visible(s, 0) && |PaneRun(s.panes[0].value, 0).glyphs| == 3;
    BarOverpainted();
  }

  lemma BarOverpainted()
    ensures var before, s := SideBySide(BlankRow(2, EMPTY), {}), SideBySide(HalfErased(), {0});
      !Pictured(Frame(before, true) + Frame(s, false), s, 0)
  {
    var blank := BlankRow(2, EMPTY);
    var before, s := SideBySide(blank, {}), SideBySide(HalfErased(), {0});
    HalfErasedRow();
    SideBySideFrames(blank, {});
    SideBySideFrames(HalfErased(), {0});
    var other, run := Run(3, 0, Emission(blank, 2)), Run(0, 0, Emission(HalfErased(), 2));
    assert Shown(Frame(s, true), SPACE, 2, 0) == BAR;
    assert Frame(before, true) + Frame(s, false) == [Run(0, 0, Emission(blank, 2)), other, Run(2, 0, [BAR]), run];
    assert Shown(Frame(before, true) + Frame(s, false), SPACE, 2, 0) == SPACE;
  }

  // ---- a view too narrow for its panes ----

  /** Three panes in a view of four columns: the second half of the first split lands on the divider of the other. */
  function Cramped(line: Row, dirty: set<nat>): Scene {
    Scene([Node(true, false, 0, false, 1, 2, Rect(0, 0, 4, 1)),
           Node(true, false, 0, false, 3, 4, Rect(0, 0, 2, 1)),
           Node(true, true, 1, false, 0, 0, Rect(3, 0, 1, 1)),
           Node(true, true, 0, false, 0, 0, Rect(0, 0, 1, 1)),
           Node(true, true, 2, false, 0, 0, Rect(2, 0, 1, 1))],
          [OneRow(0, 0, 1, [EMPTY], {}), OneRow(1, 3, 1, [EMPTY], {}), OneRow(2, 2, 1, line, dirty)], NO_ZOOM)
  }

  const CRAMPED_TREE := Split(0, false, Split(1, false, Leaf(3, 0), Leaf(4, 2)), Leaf(2, 1))

  /** That is how a reflow lays them out. */
  lemma CrampedPlaced(line: Row, dirty: set<nat>)
    ensures Holds(Cramped(line, dirty).ns, CRAMPED_TREE) &&
      Placed(Cramped(line, dirty).ns, CRAMPED_TREE, ViewRect(4, 1))
    ensures !SplitTree.Roomy(CRAMPED_TREE, ViewRect(4, 1))
  {
    var ns, view := Cramped(line, dirty).ns, ViewRect(4, 1);
    var first, a, b, c := Split(1, false, Leaf(3, 0), Leaf(4, 2)), Leaf(3, 0), Leaf(4, 2), Leaf(2, 1);
    assert Half(4) == (2, 1) && Half(2) == (1, 1);
    assert FirstRect(view, false) == Rect(0, 0, 2, 1) && SecondRect(view, false) == Rect(3, 0, 1, 1);
    assert FirstRect(Rect(0, 0, 2, 1), false) == Rect(0, 0, 1, 1) &&
      SecondRect(Rect(0, 0, 2, 1), false) == Rect(2, 0, 1, 1);
    assert Stored(ns, a) && Stored(ns, b) && Stored(ns, c) && Stored(ns, first);
    assert Placed(ns, a, Rect(0, 0, 1, 1)) && Placed(ns, b, Rect(2, 0, 1, 1)) && Placed(ns, c, Rect(3, 0, 1, 1));
    assert Placed(ns, first, Rect(0, 0, 2, 1));
    assert Nodes(first) == {1, 3, 4} && Panes(first) == {0, 2} && Nodes(CRAMPED_TREE) == {0, 1, 2, 3, 4};
  }

  lemma CrampedFrames(line: Row, dirty: set<nat>)
    ensures var p, q := Run(0, 0, Emission([EMPTY], 1)), Run(3, 0, Emission([EMPTY], 1));
      && Frame(Cramped(line, dirty), true) == [p, q, Run(2, 0, Emission(line, 1)), Run(2, 0, [BAR]), Run(1, 0, [BAR])]
      && Frame(Cramped(line, dirty), false) == if 0 in dirty then [Run(2, 0, Emission(line, 1))] else []
  {
    CrampedRows(line, dirty);
    CrampedDividers(line, dirty);
  }

  lemma CrampedRows(line: Row, dirty: set<nat>)
    ensures var s, p, q := Cramped(line, dirty), Run(0, 0, Emission([EMPTY], 1)), Run(3, 0, Emission([EMPTY], 1));
      && RowRuns(s, true, 3) == [p, q, Run(2, 0, Emission(line, 1))]
      && RowRuns(s, false, 3) == if 0 in dirty then [Run(2, 0, Emission(line, 1))] else []
  {
    var s := Cramped(line, dirty);
    OneRowRuns(0, 0, 1, [EMPTY], {});
    OneRowRuns(1, 3, 1, [EMPTY], {});
    OneRowRuns(2, 2, 1, line, dirty);
    var p, q := Run(0, 0, Emission([EMPTY], 1)), Run(3, 0, Emission([EMPTY], 1));
    assert RowRuns(s, true, 0) == [] == RowRuns(s, false, 0);
    assert RowRuns(s, true, 1) == [p] && RowRuns(s, false, 1) == [];
    assert RowRuns(s, true, 2) == [p, q] && RowRuns(s, false, 2) == [];
  }

  lemma CrampedDividers(line: Row, dirty: set<nat>)
    ensures DividerRuns(Cramped(line, dirty).ns, 5) == [Run(2, 0, [BAR]), Run(1, 0, [BAR])]
  {
    var s := Cramped(line, dirty);
    assert BarRuns(2, 0, 0) == [] && BarRuns(2, 0, 1) == [Run(2, 0, [BAR])];
    assert BarRuns(1, 0, 0) == [] && BarRuns(1, 0, 1) == [Run(1, 0, [BAR])];
    assert DividerRuns(s.ns, 0) == [] && DividerRuns(s.ns, 1) == [Run(2, 0, [BAR])];
    assert DividerRuns(s.ns, 2) == [Run(2, 0, [BAR]), Run(1, 0, [BAR])];
    assert DividerRuns(s.ns, 3) == DividerRuns(s.ns, 4) == DividerRuns(s.ns, 5) == DividerRuns(s.ns, 2);
  }

  /** So is the premise that panes keep apart: every row is of exact width, and the partial frame that draws a letter
      still overpaints the divider a full frame puts there. */
  lemma CrampedOverpaints()
    ensures var before, s := Cramped([EMPTY], {}), Cramped([A_CELL], {0});
      && Holds(s.ns, CRAMPED_TREE) && Placed(s.ns, CRAMPED_TREE, ViewRect(4, 1))
      && !SplitTree.Roomy(CRAMPED_TREE, ViewRect(4, 1))
      && Since(before, s) && ExactAt(before, 0) && ExactAt(s, 0) && !ApartAt(s, 0)
      && Pictured(Frame(before, true), before, 0) && !Pictured(Frame(before, true) + Frame(s, false), s, 0)
  {
    CrampedPlaced([A_CELL], {0});
    CrampedScenes();
    CrampedPicture();
  }

  lemma CrampedScenes()
    ensures var before, s := Cramped([EMPTY], {}), Cramped([A_CELL], {0});
      Since(before, s) && ExactAt(before, 0) && ExactAt(s, 0) && !ApartAt(s, 0)
  {
    var s := Cramped([A_CELL], {0});
    NarrowEmission([EMPTY]);
    NarrowEmission([A_CELL]);
    assert InPane(s, 2, 2, 0) && Draws(s.ns, 0, 2, 0);
  }

  lemma CrampedPicture()
    ensures var before, s := Cramped([EMPTY], {}), Cramped([A_CELL], {0});
      !Pictured(Frame(before, true) + Frame(s, false), s, 0)
  {
    var before, s := Cramped([EMPTY], {}), Cramped([A_CELL], {0});
    CrampedFrames([EMPTY], {});
    CrampedFrames([A_CELL], {0});
    assert Cellwise([A_CELL], 1, 0) == [] && Cellwise([A_CELL], 1, 1) == [GlyphOf(A_CELL)];
    var run := Run(2, 0, Emission([A_CELL], 1));
    assert run.glyphs == [GlyphOf(A_CELL)];
    assert Shown(Frame(s, true), SPACE, 2, 0) == BAR;
    var runs := Frame(before, true) + Frame(s, false);
    assert runs[|runs| - 1] == run;
    assert Shown(runs, SPACE, 2, 0) == GlyphOf(A_CELL);
  }
}
