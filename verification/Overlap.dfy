/** Exactly when frames of dirty rows can be trusted (src/daemon/composite.c): a geometry leaves a screen line right for
    all contents whose rows are of exact width if and only if its panes and dividers keep apart there. */
module Overlap {
  import opened Bytes
  import opened Cells
  import SplitTree
  import opened Layout
  import opened Tiling
  import opened Picture
  import opened Composite

  /** The same nodes, zoom and panes in the same places, whatever they hold. */
  ghost predicate SameGeometry(g: Scene, s: Scene) {
    && g.ns == s.ns && g.zoomed == s.zoomed && |g.panes| == |s.panes|
    && forall i :: 0 <= i < |g.panes| ==> SamePlace(g.panes[i], s.panes[i])
  }

  ghost predicate SamePlace(p: Option<PaneView>, q: Option<PaneView>) {
    p.Some? == q.Some? &&
    (p.Some? ==> p.value.id == q.value.id && p.value.rect == q.value.rect && |p.value.grid| == |q.value.grid|)
  }

  /** A client shows one content, and another one with its dirty rows is to be sent; no row overruns its pane. */
  ghost predicate Sends(g: Scene, before: Scene, s: Scene, sent: seq<Run>, py: int) {
    && SameGeometry(g, before) && SameGeometry(g, s) && Since(before, s)
    && ExactAt(before, py) && ExactAt(s, py) && Pictured(sent, before, py)
  }

  /** Whatever the panes hold, the dirty rows leave the picture of a full repaint. */
  ghost predicate Reliable(g: Scene, py: int) {
    forall before, s, sent :: Sends(g, before, s, sent, py) ==> Pictured(sent + Frame(s, false), s, py)
  }

  lemma ApartSuffices(g: Scene, py: int)
    requires ApartAt(g, py)
    ensures Reliable(g, py)
  {
    forall before, s, sent | Sends(g, before, s, sent, py)
      ensures Pictured(sent + Frame(s, false), s, py)
    {
      ApartAlike(g, s, py);
      PartialIsFull(before, s, sent, py);
    }
  }

  lemma InPaneAlike(g: Scene, s: Scene, i: int, px: int, py: int)
    requires SameGeometry(g, s)
    ensures InPane(g, i, px, py) <==> InPane(s, i, px, py)
  {
    if 0 <= i < |g.panes| {
      assert SamePlace(g.panes[i], s.panes[i]);
    }
  }

  lemma ApartAlike(g: Scene, s: Scene, py: int)
    requires SameGeometry(g, s) && ApartAt(g, py)
    ensures ApartAt(s, py)
  {
    forall i, j, px | InPane(s, i, px, py) && InPane(s, j, px, py)
      ensures i == j
    {
      InPaneAlike(g, s, i, px, py);
      InPaneAlike(g, s, j, px, py);
    }
    if s.zoomed == NO_ZOOM {
      forall i, n, px | InPane(s, i, px, py) && 0 <= n < |s.ns| && Draws(s.ns, n, px, py)
        ensures s.ns[n].leaf
      {
        InPaneAlike(g, s, i, px, py);
      }
    }
  }

  // ---- contents that show an overlap ----

  const LETTER: Cell := Cell(0x41, DEFAULT_COLOR, DEFAULT_COLOR, {}, false, false, 0)

  function PlainRow(cols: nat, lettered: bool): Row {
    BlankRow(cols, if lettered then LETTER else EMPTY)
  }

  /** A blank pane, with a dirty row of letters if r is one of its rows. */
  function Canvas(p: PaneView, r: int): PaneView {
    PaneView(p.id, p.rect, seq(|p.grid|, j => PlainRow(p.rect.cols, j == r)), if r >= 0 then {r} else {})
  }

  /** Blank panes, one of them with a row of letters. */
  function Canvases(g: Scene, i: int, r: int): Scene {
    Scene(g.ns, seq(|g.panes|, j requires 0 <= j < |g.panes| =>
      if g.panes[j].None? then None else Some(Canvas(g.panes[j].value, if j == i then r else -1))), g.zoomed)
  }

  lemma {:induction false} PlainCells(cols: nat, lettered: bool, n: nat)
    requires n <= cols
    ensures |Cellwise(PlainRow(cols, lettered), cols, n)| == n
    ensures forall c :: 0 <= c < n ==>
      Cellwise(PlainRow(cols, lettered), cols, n)[c] == if lettered then GlyphOf(LETTER) else SPACE
  {
    if n > 0 {
      PlainCells(cols, lettered, n - 1);
      assert PlainRow(cols, lettered)[n - 1] == if lettered then LETTER else EMPTY;
    }
  }

  /** A row of a canvas is of exact width, all letters or all blank. */
  lemma CanvasRow(p: PaneView, r: int, row: nat)
    requires row < |p.grid|
    ensures var run := PaneRun(Canvas(p, r), row);
      && run.x == p.rect.x && run.y == p.rect.y + row && |run.glyphs| == p.rect.cols
      && forall c :: 0 <= c < |run.glyphs| ==> run.glyphs[c] == if row == r then GlyphOf(LETTER) else SPACE
  {
    var cols := p.rect.cols;
    PlainCells(cols, row == r, cols);
    assert Canvas(p, r).grid[row] == PlainRow(cols, row == r);
    assert Emission(PlainRow(cols, row == r), cols) == Cellwise(PlainRow(cols, row == r), cols, cols);
  }

  lemma CanvasesFit(g: Scene, i: int, r: int, py: int)
    ensures SameGeometry(g, Canvases(g, i, r)) && ExactAt(Canvases(g, i, r), py)
  {
    var s := Canvases(g, i, r);
    forall j, row | Visible(s, j) && 0 <= row < Height(s.panes[j].value) && s.panes[j].value.rect.y + row == py
      ensures |PaneRun(s.panes[j].value, row).glyphs| == s.panes[j].value.rect.cols
    {
      CanvasRow(g.panes[j].value, if j == i then r else -1, row);
    }
  }

  lemma CanvasesSince(g: Scene, i: int, r: int)
    ensures Since(Canvases(g, -1, -1), Canvases(g, i, r))
  {
    var before, s := Canvases(g, -1, -1), Canvases(g, i, r);
    forall j | 0 <= j < |s.panes|
      ensures SincePane(before.panes[j], s.panes[j])
    {
      if s.panes[j].Some? {
        var p, q := before.panes[j].value, s.panes[j].value;
        forall row | 0 <= row < |q.grid| && row !in q.dirty
          ensures q.grid[row] == p.grid[row]
        {
        }
      }
    }
  }

  // ---- what a full frame shows there ----

  /** Wherever a run hits the cell, it does not put g there. */
  ghost predicate Avoids(runs: seq<Run>, g: Glyph, px: int, py: int) {
    forall run :: run in runs && Hits(run, px, py) ==> run.glyphs[px - run.x] != g
  }

  lemma {:induction false} ShownAvoids(runs: seq<Run>, base: Glyph, g: Glyph, px: int, py: int)
    requires Avoids(runs, g, px, py) && (base != g || !NoneHits(runs, px, py))
    ensures Shown(runs, base, px, py) != g
  {
    if |runs| > 0 {
      var n := |runs| - 1;
      assert runs[n] in runs;
      if !Hits(runs[n], px, py) {
        assert runs == runs[..n] + [runs[n]];
        ShownAvoids(runs[..n], base, g, px, py);
      }
    }
  }

  /** A pane without letters puts none anywhere. */
  lemma BlankAvoids(p: PaneView, full: bool, px: int, py: int)
    ensures Avoids(PaneRuns(Canvas(p, -1), full, Height(Canvas(p, -1))), GlyphOf(LETTER), px, py)
  {
    var q := Canvas(p, -1);
    forall run | run in PaneRuns(q, full, Height(q)) && Hits(run, px, py)
      ensures run.glyphs[px - run.x] != GlyphOf(LETTER)
    {
      var row := PaneRunFrom(q, full, Height(q), run);
      CanvasRow(p, -1, row);
    }
  }

  /** A pane drawn later over the letters hides them, and the panes after it keep it so. */
  lemma {:induction false} Hidden(g: Scene, i: nat, r: int, j: nat, k: nat, px: int, py: int)
    requires i < j < k <= |g.panes| && InPane(g, j, px, py)
    ensures Shown(RowRuns(Canvases(g, i, r), true, k), SPACE, px, py) != GlyphOf(LETTER)
  {
    var s := Canvases(g, i, r);
    if Visible(s, k - 1) {
      var p := g.panes[k - 1].value;
      var own := PaneRuns(Canvas(p, -1), true, Height(Canvas(p, -1)));
      var rows := RowRuns(s, true, k - 1);
      ShownOn(rows, own, SPACE, px, py);
      BlankAvoids(p, true, px, py);
      if k - 1 == j {
        PaneCovers(p, px, py);
      } else {
        Hidden(g, i, r, j, k - 1, px, py);
      }
      ShownAvoids(own, Shown(rows, SPACE, px, py), GlyphOf(LETTER), px, py);
    } else {
      Hidden(g, i, r, j, k - 1, px, py);
    }
  }

  lemma PaneCovers(p: PaneView, px: int, py: int)
    requires SplitTree.Inside(p.rect, px, py) && py < p.rect.y + Height(p)
    ensures !NoneHits(PaneRuns(Canvas(p, -1), true, Height(Canvas(p, -1))), px, py)
  {
    var q, row := Canvas(p, -1), py - p.rect.y;
    CanvasRow(p, -1, row);
    PaneRunIn(q, true, Height(q), row);
    assert Hits(PaneRun(q, row), px, py);
  }

  lemma {:induction false} DividersAvoid(ns: seq<Node>, k: nat, px: int, py: int)
    requires k <= |ns|
    ensures Avoids(DividerRuns(ns, k), GlyphOf(LETTER), px, py)
  {
    if k > 0 {
      DividersAvoid(ns, k - 1, px, py);
      NodeAvoids(ns, k - 1, px, py);
    }
  }

  lemma NodeAvoids(ns: seq<Node>, i: nat, px: int, py: int)
    requires i < |ns|
    ensures Avoids(NodeRuns(ns, i), GlyphOf(LETTER), px, py)
  {
    forall run | run in NodeRuns(ns, i) && Hits(run, px, py)
      ensures run.glyphs[px - run.x] != GlyphOf(LETTER)
    {
      var d := DrawnDivider(ns[i], ns[ns[i].child0]);
      if !ns[i].stacked {
        BarRunFrom(d.x, d.y, d.rows, run);
      }
    }
  }

  lemma {:induction false} BarRunIn(x: nat, y: nat, n: nat, py: int)
    requires y <= py < y + n
    ensures Run(x, py, [BAR]) in BarRuns(x, y, n)
  {
    if py < y + n - 1 {
      BarRunIn(x, y, n - 1, py);
    }
  }

  /** Where a divider is drawn, one of its runs hits. */
  lemma {:induction false} DividerCovers(ns: seq<Node>, k: nat, n: nat, px: int, py: int)
    requires n < k <= |ns| && !ns[n].leaf && Draws(ns, n, px, py)
    ensures !NoneHits(DividerRuns(ns, k), px, py)
  {
    if n < k - 1 {
      DividerCovers(ns, k - 1, n, px, py);
      var run :| run in DividerRuns(ns, k - 1) && Hits(run, px, py);
      assert run in DividerRuns(ns, k);
    } else {
      var d := DrawnDivider(ns[n], ns[ns[n].child0]);
      var run := if ns[n].stacked then Run(d.x, d.y, seq(d.cols, j => RULE)) else Run(d.x, py, [BAR]);
      if !ns[n].stacked {
        BarRunIn(d.x, d.y, d.rows, py);
      }
      assert run in NodeRuns(ns, n) && Hits(run, px, py);
      assert run in DividerRuns(ns, k);
    }
  }

  /** Something is drawn over pane i at the cell: a later pane, or a divider. */
  ghost predicate Covered(g: Scene, i: int, px: int, py: int) {
    || (exists j :: i < j && InPane(g, j, px, py))
    || (g.zoomed == NO_ZOOM && exists n :: 0 <= n < |g.ns| && !g.ns[n].leaf && Draws(g.ns, n, px, py))
  }

  /** The full frame does not show the letters there. */
  lemma FullHides(g: Scene, i: nat, r: int, px: int, py: int)
    requires Covered(g, i, px, py)
    ensures Shown(Frame(Canvases(g, i, r), true), SPACE, px, py) != GlyphOf(LETTER)
  {
    var s := Canvases(g, i, r);
    var rows := RowRuns(s, true, |s.panes|);
    var bars := if s.zoomed == NO_ZOOM then DividerRuns(s.ns, |s.ns|) else [];
    ShownOn(rows, bars, SPACE, px, py);
    DividersAvoid(s.ns, |s.ns|, px, py);
    if j :| i < j && InPane(g, j, px, py) {
      Hidden(g, i, r, j, |s.panes|, px, py);
    } else {
      var n :| 0 <= n < |g.ns| && !g.ns[n].leaf && Draws(g.ns, n, px, py);
      DividerCovers(s.ns, |s.ns|, n, px, py);
    }
    ShownAvoids(bars, Shown(rows, SPACE, px, py), GlyphOf(LETTER), px, py);
  }

  /** The frame of dirty rows does. */
  lemma PartialShows(g: Scene, i: nat, px: int, py: int, base: Glyph)
    requires InPane(g, i, px, py)
    ensures var r := py - g.panes[i].value.rect.y;
      Shown(Frame(Canvases(g, i, r), false), base, px, py) == GlyphOf(LETTER)
  {
    var p := g.panes[i].value;
    var r := py - p.rect.y;
    var s, q := Canvases(g, i, r), Canvas(p, r);
    var only := PaneRun(q, r);
    CanvasRow(p, r, r);
    PaneRunIn(q, false, Height(q), r);
    RowRunIn(s, false, |s.panes|, i, only);
    forall run | run in Frame(s, false) && Hits(run, px, py)
      ensures run == only
    {
      var j, row := RowRunFrom(s, false, |s.panes|, run);
    }
    ShownOnly(Frame(s, false), base, px, py, only);
  }

  lemma CanvasesSend(g: Scene, i: int, r: int, py: int)
    ensures Sends(g, Canvases(g, -1, -1), Canvases(g, i, r), Frame(Canvases(g, -1, -1), true), py)
  {
    CanvasesFit(g, -1, -1, py);
    CanvasesFit(g, i, r, py);
    CanvasesSince(g, i, r);
  }

  lemma CoveredUnreliable(g: Scene, i: nat, px: int, py: int)
    requires InPane(g, i, px, py) && Covered(g, i, px, py)
    ensures !Reliable(g, py)
  {
    var r := py - g.panes[i].value.rect.y;
    var before, s := Canvases(g, -1, -1), Canvases(g, i, r);
    var sent := Frame(before, true);
    CanvasesSend(g, i, r, py);
    ShownOn(sent, Frame(s, false), SPACE, px, py);
    PartialShows(g, i, px, py, Shown(sent, SPACE, px, py));
    FullHides(g, i, r, px, py);
    assert !Pictured(sent + Frame(s, false), s, py);
  }

  /** A geometry is reliable on a screen line, for all contents with rows of exact width, if and only if its panes and
      dividers keep apart there. */
  lemma ReliableIffApart(g: Scene, py: int)
    ensures Reliable(g, py) <==> ApartAt(g, py)
  {
    if ApartAt(g, py) {
      ApartSuffices(g, py);
    } else if i, j, px :| InPane(g, i, px, py) && InPane(g, j, px, py) && i != j {
      assert Covered(g, if i < j then i else j, px, py);
      CoveredUnreliable(g, if i < j then i else j, px, py);
    } else {
      var i, n, px :| InPane(g, i, px, py) && 0 <= n < |g.ns| && Draws(g.ns, n, px, py) && !g.ns[n].leaf;
      CoveredUnreliable(g, i, px, py);
    }
  }
}
