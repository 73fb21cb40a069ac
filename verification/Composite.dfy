/** Frames for a session of several panes (src/daemon/composite.c, composite_frame, and src/daemon/session.c,
    session_composite_one): a frame that repaints only dirty rows leaves the picture of a full repaint. */
module Composite {
  import opened Bytes
  import opened Cells
  import opened SplitTree
  import opened Layout
  import opened Tiling
  import opened Picture

  const NO_ZOOM: nat := 255

  /** A pane as the compositor sees it: where it is, what it shows, which rows are reported dirty. */
  datatype PaneView = PaneView(id: nat, rect: Rect, grid: Grid, dirty: set<nat>)

  datatype Scene = Scene(ns: seq<Node>, panes: seq<Option<PaneView>>, zoomed: nat)

  /** Pane i is drawn: while zoomed, only the zoomed one is. */
  predicate Visible(s: Scene, i: int) {
    0 <= i < |s.panes| && s.panes[i].Some? && (s.zoomed == NO_ZOOM || s.panes[i].value.id == s.zoomed)
  }

  function Height(p: PaneView): nat {
    Min(p.rect.rows, |p.grid|)
  }

  function PaneRun(p: PaneView, r: nat): Run
    requires r < |p.grid|
  {
    Run(p.rect.x, p.rect.y + r, Emission(p.grid[r], p.rect.cols))
  }

  /** The first n rows of a pane, all of them or the dirty ones. */
  function PaneRuns(p: PaneView, full: bool, n: nat): seq<Run>
    requires n <= Height(p)
  {
    if n == 0 then []
    else PaneRuns(p, full, n - 1) + if full || n - 1 in p.dirty then [PaneRun(p, n - 1)] else []
  }

  /** The first k panes. */
  function RowRuns(s: Scene, full: bool, k: nat): seq<Run>
    requires k <= |s.panes|
  {
    if k == 0 then []
    else if !Visible(s, k - 1) then RowRuns(s, full, k - 1)
    else RowRuns(s, full, k - 1) + PaneRuns(s.panes[k - 1].value, full, Height(s.panes[k - 1].value))
  }

  const BAR := Glyph(0x2502, 0, DEFAULT_COLOR, DEFAULT_COLOR, {Dim})
  const RULE := Glyph(0x2500, 0, DEFAULT_COLOR, DEFAULT_COLOR, {Dim})

  /** The first n rows of a vertical divider. */
  function BarRuns(x: nat, y: nat, n: nat): seq<Run> {
    if n == 0 then [] else BarRuns(x, y, n - 1) + [Run(x, y + n - 1, [BAR])]
  }

  function NodeRuns(ns: seq<Node>, i: nat): seq<Run>
    requires i < |ns|
  {
    if !ns[i].inUse || ns[i].leaf || !(0 <= ns[i].child0 < |ns|) then []
    else
      var d := DrawnDivider(ns[i], ns[ns[i].child0]);
      if ns[i].stacked then [Run(d.x, d.y, seq(d.cols, j => RULE))] else BarRuns(d.x, d.y, d.rows)
  }

  /** emit_dividers over the first k nodes */
  function DividerRuns(ns: seq<Node>, k: nat): seq<Run>
    requires k <= |ns|
  {
    if k == 0 then [] else DividerRuns(ns, k - 1) + NodeRuns(ns, k - 1)
  }

  /** composite_frame */
  function Frame(s: Scene, full: bool): seq<Run> {
    RowRuns(s, full, |s.panes|) + if full && s.zoomed == NO_ZOOM then DividerRuns(s.ns, |s.ns|) else []
  }

  // ---- which runs there are ----

  lemma {:induction false} PaneRunIn(p: PaneView, full: bool, n: nat, r: nat)
    requires r < n <= Height(p) && (full || r in p.dirty)
    ensures PaneRun(p, r) in PaneRuns(p, full, n)
  {
    if r < n - 1 {
      PaneRunIn(p, full, n - 1, r);
    }
  }

  lemma {:induction false} PaneRunFrom(p: PaneView, full: bool, n: nat, run: Run) returns (r: nat)
    requires n <= Height(p) && run in PaneRuns(p, full, n)
    ensures r < n && (full || r in p.dirty) && run == PaneRun(p, r)
  {
    if run in PaneRuns(p, full, n - 1) {
      r := PaneRunFrom(p, full, n - 1, run);
    } else {
      r := n - 1;
    }
  }

  lemma {:induction false} RowRunIn(s: Scene, full: bool, k: nat, i: nat, run: Run)
    requires i < k <= |s.panes| && Visible(s, i) && run in PaneRuns(s.panes[i].value, full, Height(s.panes[i].value))
    ensures run in RowRuns(s, full, k)
  {
    if i < k - 1 {
      RowRunIn(s, full, k - 1, i, run);
    }
  }

  lemma {:induction false} RowRunFrom(s: Scene, full: bool, k: nat, run: Run) returns (i: nat, r: nat)
    requires k <= |s.panes| && run in RowRuns(s, full, k)
    ensures i < k && Visible(s, i) && r < Height(s.panes[i].value) && (full || r in s.panes[i].value.dirty)
    ensures run == PaneRun(s.panes[i].value, r)
  {
    if run in RowRuns(s, full, k - 1) {
      i, r := RowRunFrom(s, full, k - 1, run);
    } else {
      i := k - 1;
      r := PaneRunFrom(s.panes[i].value, full, Height(s.panes[i].value), run);
    }
  }

  lemma {:induction false} BarRunFrom(x: nat, y: nat, n: nat, run: Run)
    requires run in BarRuns(x, y, n)
    ensures run.x == x && y <= run.y < y + n && run.glyphs == [BAR]
  {
    if run in BarRuns(x, y, n - 1) {
      BarRunFrom(x, y, n - 1, run);
    }
  }

  /** A run of a divider stays on the divider. */
  lemma {:induction false} DividerHit(ns: seq<Node>, k: nat, run: Run, px: int, py: int) returns (i: nat)
    requires k <= |ns| && run in DividerRuns(ns, k) && Hits(run, px, py)
    ensures i < k && !ns[i].leaf && Draws(ns, i, px, py)
  {
    if run in DividerRuns(ns, k - 1) {
      i := DividerHit(ns, k - 1, run, px, py);
    } else {
      i := k - 1;
      var d := DrawnDivider(ns[i], ns[ns[i].child0]);
      if !ns[i].stacked {
        BarRunFrom(d.x, d.y, d.rows, run);
      }
    }
  }

  // ---- frames ----

  /** Every row drawn on a screen line takes exactly the columns of its pane. */
  ghost predicate ExactAt(s: Scene, py: int) {
    forall i, r :: Visible(s, i) && 0 <= r < Height(s.panes[i].value) && s.panes[i].value.rect.y + r == py ==>
      |PaneRun(s.panes[i].value, r).glyphs| == s.panes[i].value.rect.cols
  }

  ghost predicate InPane(s: Scene, i: int, px: int, py: int) {
    Visible(s, i) && Inside(s.panes[i].value.rect, px, py) && py < s.panes[i].value.rect.y + Height(s.panes[i].value)
  }

  /** No cell of a screen line is in two drawn panes, or in a drawn pane and on a drawn divider. */
  ghost predicate ApartAt(s: Scene, py: int) {
    && (forall i, j, px :: InPane(s, i, px, py) && InPane(s, j, px, py) ==> i == j)
    && (s.zoomed == NO_ZOOM ==>
      forall i, n, px :: InPane(s, i, px, py) && 0 <= n < |s.ns| && Draws(s.ns, n, px, py) ==> s.ns[n].leaf)
  }

  /** A screen line that frames of dirty rows can be trusted with. */
  ghost predicate Drawable(s: Scene, py: int) {
    ExactAt(s, py) && ApartAt(s, py)
  }

  /** The scene seen earlier, with the same panes in the same places, where rows not dirty now are as they were. */
  ghost predicate Since(before: Scene, s: Scene) {
    && before.ns == s.ns && before.zoomed == s.zoomed && |before.panes| == |s.panes|
    && forall i :: 0 <= i < |s.panes| ==> SincePane(before.panes[i], s.panes[i])
  }

  ghost predicate SincePane(before: Option<PaneView>, now: Option<PaneView>) {
    before.Some? == now.Some? &&
    (now.Some? ==>
      var p, q := before.value, now.value;
      p.id == q.id && p.rect == q.rect && |p.grid| == |q.grid| && CleanRows(q.grid, p.grid, q.dirty))
  }

  /** On a screen line, the client's picture, built up by the runs sent since its screen was cleared, is that of a full
      frame. */
  ghost predicate Pictured(sent: seq<Run>, s: Scene, py: int) {
    forall px :: Shown(sent, SPACE, px, py) == Shown(Frame(s, true), SPACE, px, py)
  }

  lemma RowHit(s: Scene, full: bool, run: Run, px: int, py: int) returns (i: nat, r: nat)
    requires ExactAt(s, py) && run in RowRuns(s, full, |s.panes|) && Hits(run, px, py)
    ensures InPane(s, i, px, py) && r == py - s.panes[i].value.rect.y && r < |s.panes[i].value.grid|
    ensures run == PaneRun(s.panes[i].value, r) && (full || r in s.panes[i].value.dirty)
  {
    i, r := RowRunFrom(s, full, |s.panes|, run);
    assert |PaneRun(s.panes[i].value, r).glyphs| == s.panes[i].value.rect.cols;
  }

  /** In a pane, no run of a frame hits but the pane's own row. */
  lemma OnlyHit(s: Scene, full: bool, i: nat, run: Run, px: int, py: int)
    requires ExactAt(s, py) && ApartAt(s, py) && InPane(s, i, px, py) && run in Frame(s, full) && Hits(run, px, py)
    ensures run == PaneRun(s.panes[i].value, py - s.panes[i].value.rect.y)
  {
    if run in RowRuns(s, full, |s.panes|) {
      var j, r := RowHit(s, full, run, px, py);
      assert InPane(s, j, px, py);
    } else {
      var n := DividerHit(s.ns, |s.ns|, run, px, py);
      assert false;
    }
  }

  /** In a pane, a full frame shows the pane's own row, and so does a partial one that repaints it. */
  lemma FrameInPane(s: Scene, full: bool, i: nat, px: int, py: int, base: Glyph)
    requires ExactAt(s, py) && ApartAt(s, py) && InPane(s, i, px, py)
    requires full || py - s.panes[i].value.rect.y in s.panes[i].value.dirty
    ensures PaneShows(s.panes[i].value, Shown(Frame(s, full), base, px, py), px, py)
  {
    OwnRun(s, full, i, px, py);
    OnlyOwnRun(s, full, i, px, py);
    OwnRunShows(s.panes[i].value, Frame(s, full), base, px, py);
  }

  lemma OwnRunShows(p: PaneView, runs: seq<Run>, base: Glyph, px: int, py: int)
    requires 0 <= py - p.rect.y < |p.grid| && Hits(PaneRun(p, py - p.rect.y), px, py)
    requires PaneRun(p, py - p.rect.y) in runs && OnlyHits(runs, PaneRun(p, py - p.rect.y), px, py)
    ensures PaneShows(p, Shown(runs, base, px, py), px, py)
  {
    ShownOnly(runs, base, px, py, PaneRun(p, py - p.rect.y));
  }

  /** The pane's own row is among the runs of the frame, and it hits. */
  lemma OwnRun(s: Scene, full: bool, i: nat, px: int, py: int)
    requires ExactAt(s, py) && InPane(s, i, px, py)
    requires full || py - s.panes[i].value.rect.y in s.panes[i].value.dirty
    ensures var p := s.panes[i].value; var only := PaneRun(p, py - p.rect.y);
      Hits(only, px, py) && only in Frame(s, full)
  {
    var p := s.panes[i].value;
    var r := py - p.rect.y;
    assert |PaneRun(p, r).glyphs| == p.rect.cols;
    PaneRunIn(p, full, Height(p), r);
    RowRunIn(s, full, |s.panes|, i, PaneRun(p, r));
  }

  lemma OnlyOwnRun(s: Scene, full: bool, i: nat, px: int, py: int)
    requires ExactAt(s, py) && ApartAt(s, py) && InPane(s, i, px, py)
    ensures OnlyHits(Frame(s, full), PaneRun(s.panes[i].value, py - s.panes[i].value.rect.y), px, py)
  {
    forall run | run in Frame(s, full) && Hits(run, px, py)
      ensures run == PaneRun(s.panes[i].value, py - s.panes[i].value.rect.y)
    {
      OnlyHit(s, full, i, run, px, py);
    }
  }

  /** The glyph is the one the pane has at the cell. */
  ghost predicate PaneShows(p: PaneView, g: Glyph, px: int, py: int) {
    && 0 <= py - p.rect.y < |p.grid| && Hits(PaneRun(p, py - p.rect.y), px, py)
    && g == PaneRun(p, py - p.rect.y).glyphs[px - p.rect.x]
  }

  /** A cell whose row is clean, or that is in no pane, is not touched by a partial frame. */
  lemma PartialMisses(s: Scene, px: int, py: int)
    requires ExactAt(s, py) && ApartAt(s, py)
    requires forall i :: InPane(s, i, px, py) ==> py - s.panes[i].value.rect.y !in s.panes[i].value.dirty
    ensures NoneHits(Frame(s, false), px, py)
  {
    forall run | run in Frame(s, false)
      ensures !Hits(run, px, py)
    {
      if Hits(run, px, py) {
        var i, r := RowHit(s, false, run, px, py);
      }
    }
  }

  /** Outside every pane only dividers show. */
  lemma OutsidePanes(s: Scene, px: int, py: int)
    requires ExactAt(s, py) && forall i :: !InPane(s, i, px, py)
    ensures Shown(Frame(s, true), SPACE, px, py) ==
      Shown(if s.zoomed == NO_ZOOM then DividerRuns(s.ns, |s.ns|) else [], SPACE, px, py)
  {
    var rows := RowRuns(s, true, |s.panes|);
    forall run | run in rows
      ensures !Hits(run, px, py)
    {
      if Hits(run, px, py) {
        var i, r := RowHit(s, true, run, px, py);
      }
    }
    ShownNone(rows, SPACE, px, py);
    ShownOn(rows, if s.zoomed == NO_ZOOM then DividerRuns(s.ns, |s.ns|) else [], SPACE, px, py);
  }

  lemma SameInPane(before: Scene, s: Scene, i: int, px: int, py: int)
    requires Since(before, s)
    ensures InPane(before, i, px, py) <==> InPane(s, i, px, py)
  {
    if 0 <= i < |s.panes| {
      assert SincePane(before.panes[i], s.panes[i]);
    }
  }

  lemma SameApart(before: Scene, s: Scene, py: int)
    requires Since(before, s) && ApartAt(s, py)
    ensures ApartAt(before, py)
  {
    forall i, j, px | InPane(before, i, px, py) && InPane(before, j, px, py)
      ensures i == j
    {
      SameInPane(before, s, i, px, py);
      SameInPane(before, s, j, px, py);
    }
    if s.zoomed == NO_ZOOM {
      forall i, n, px | InPane(before, i, px, py) && 0 <= n < |s.ns| && Draws(s.ns, n, px, py)
        ensures s.ns[n].leaf
      {
        SameInPane(before, s, i, px, py);
      }
    }
  }

  lemma PartialCell(before: Scene, s: Scene, sent: seq<Run>, px: int, py: int)
    requires Since(before, s) && ApartAt(s, py) && ExactAt(before, py) && ExactAt(s, py) && Pictured(sent, before, py)
    ensures Shown(sent + Frame(s, false), SPACE, px, py) == Shown(Frame(s, true), SPACE, px, py)
  {
    var base := Shown(sent, SPACE, px, py);
    ShownOn(sent, Frame(s, false), SPACE, px, py);
    SameApart(before, s, py);
    if i :| InPane(s, i, px, py) {
      PartialInPane(before, s, i, base, px, py);
    } else {
      PartialMisses(s, px, py);
      ShownNone(Frame(s, false), base, px, py);
      OutsidePanes(s, px, py);
      forall i: int
        ensures !InPane(before, i, px, py)
      {
        SameInPane(before, s, i, px, py);
      }
      OutsidePanes(before, px, py);
    }
  }

  lemma PartialInPane(before: Scene, s: Scene, i: nat, base: Glyph, px: int, py: int)
    requires Since(before, s) && ApartAt(s, py) && ApartAt(before, py) && ExactAt(before, py) && ExactAt(s, py) &&
      InPane(s, i, px, py)
    requires base == Shown(Frame(before, true), SPACE, px, py)
    ensures Shown(Frame(s, false), base, px, py) == Shown(Frame(s, true), SPACE, px, py)
  {
    FrameInPane(s, true, i, px, py, SPACE);
    if py - s.panes[i].value.rect.y in s.panes[i].value.dirty {
      FrameInPane(s, false, i, px, py, base);
      SameShown(s.panes[i].value, Shown(Frame(s, false), base, px, py), Shown(Frame(s, true), SPACE, px, py), px, py);
    } else {
      BeforeShows(before, s, i, px, py);
      CleanInPane(before.panes[i], s, i, base, Shown(Frame(s, true), SPACE, px, py), px, py);
    }
  }

  lemma SameShown(p: PaneView, g: Glyph, h: Glyph, px: int, py: int)
    requires PaneShows(p, g, px, py) && PaneShows(p, h, px, py)
    ensures g == h
  {
  }

  /** A clean row is not drawn again, and shows what it showed. */
  lemma CleanInPane(before: Option<PaneView>, s: Scene, i: nat, base: Glyph, g: Glyph, px: int, py: int)
    requires ApartAt(s, py) && ExactAt(s, py) && InPane(s, i, px, py) && SincePane(before, s.panes[i])
    requires py - s.panes[i].value.rect.y !in s.panes[i].value.dirty
    requires PaneShows(before.value, base, px, py) && PaneShows(s.panes[i].value, g, px, py)
    ensures Shown(Frame(s, false), base, px, py) == g
  {
    CleanShows(before, s.panes[i], base, g, px, py);
    NotDrawn(s, i, base, px, py);
  }

  lemma BeforeShows(before: Scene, s: Scene, i: nat, px: int, py: int)
    requires Since(before, s) && ApartAt(before, py) && ExactAt(before, py) && InPane(s, i, px, py)
    ensures SincePane(before.panes[i], s.panes[i])
    ensures PaneShows(before.panes[i].value, Shown(Frame(before, true), SPACE, px, py), px, py)
  {
    SameInPane(before, s, i, px, py);
    FrameInPane(before, true, i, px, py, SPACE);
  }

  lemma NotDrawn(s: Scene, i: nat, base: Glyph, px: int, py: int)
    requires ApartAt(s, py) && ExactAt(s, py) && InPane(s, i, px, py)
    requires py - s.panes[i].value.rect.y !in s.panes[i].value.dirty
    ensures Shown(Frame(s, false), base, px, py) == base
  {
    OnlyClean(s, i, px, py);
    PartialMisses(s, px, py);
    ShownNone(Frame(s, false), base, px, py);
  }

  /** A clean row shows what it showed. */
  lemma CleanShows(before: Option<PaneView>, now: Option<PaneView>, g: Glyph, h: Glyph, px: int, py: int)
    requires SincePane(before, now) && now.Some? && py - now.value.rect.y !in now.value.dirty
    requires PaneShows(before.value, g, px, py) && PaneShows(now.value, h, px, py)
    ensures g == h
  {
    var r := py - now.value.rect.y;
    assert now.value.grid[r] == before.value.grid[r];
  }

  /** The one pane a cell is in being clean there, no pane the cell is in is dirty there. */
  lemma OnlyClean(s: Scene, i: nat, px: int, py: int)
    requires ApartAt(s, py) && InPane(s, i, px, py) && py - s.panes[i].value.rect.y !in s.panes[i].value.dirty
    ensures forall j :: InPane(s, j, px, py) ==> py - s.panes[j].value.rect.y !in s.panes[j].value.dirty
  {
  }

  /** A frame that repaints only dirty rows leaves every screen line it can be trusted with as a full repaint would. */
  lemma PartialIsFull(before: Scene, s: Scene, sent: seq<Run>, py: int)
    requires Since(before, s) && ApartAt(s, py) && ExactAt(before, py) && ExactAt(s, py) && Pictured(sent, before, py)
    ensures Pictured(sent + Frame(s, false), s, py)
  {
    forall px
      ensures Shown(sent + Frame(s, false), SPACE, px, py) == Shown(Frame(s, true), SPACE, px, py)
    {
      PartialCell(before, s, sent, px, py);
    }
  }

  // ---- a full frame does not look at damage ----

  ghost predicate SameCells(a: Option<PaneView>, b: Option<PaneView>) {
    a.Some? == b.Some? && (a.Some? ==> a.value == b.value.(dirty := a.value.dirty))
  }

  ghost predicate SameScene(a: Scene, b: Scene) {
    a.ns == b.ns && a.zoomed == b.zoomed && |a.panes| == |b.panes| && forall i :: 0 <= i < |a.panes| ==>
      SameCells(a.panes[i], b.panes[i])
  }

  lemma {:induction false} FullPane(p: PaneView, q: PaneView, n: nat)
    requires p == q.(dirty := p.dirty) && n <= Height(p)
    ensures PaneRuns(p, true, n) == PaneRuns(q, true, n)
  {
    if n > 0 {
      FullPane(p, q, n - 1);
      assert PaneRun(p, n - 1) == PaneRun(q, n - 1);
    }
  }

  lemma {:induction false} FullRows(a: Scene, b: Scene, k: nat)
    requires SameScene(a, b) && k <= |a.panes|
    ensures RowRuns(a, true, k) == RowRuns(b, true, k)
  {
    if k > 0 {
      FullRows(a, b, k - 1);
      assert SameCells(a.panes[k - 1], b.panes[k - 1]);
      if a.panes[k - 1].Some? {
        FullPane(a.panes[k - 1].value, b.panes[k - 1].value, Height(a.panes[k - 1].value));
      }
    }
  }

  lemma FullIgnoresDamage(a: Scene, b: Scene)
    requires SameScene(a, b)
    ensures Frame(a, true) == Frame(b, true)
  {
    FullRows(a, b, |a.panes|);
  }

  // ---- what keeps panes apart ----

  /** The panes have the rectangles a reflow of the whole view gave their leaves. */
  ghost predicate LaidOut(s: Scene, t: Tree, cols: nat, rows: nat) {
    && Holds(s.ns, t) && Placed(s.ns, t, ViewRect(cols, rows)) && SplitTree.Roomy(t, ViewRect(cols, rows))
    && cols < 0x1_0000 && rows < 0x1_0000
    && forall i :: 0 <= i < |s.panes| && s.panes[i].Some? ==>
      i in Panes(t) && s.panes[i].value.rect == LeafRect(t, ViewRect(cols, rows), i)
  }

  lemma SingleOwner(ns: seq<Node>, t: Tree, cols: nat, rows: nat, i: nat, j: nat, px: int, py: int)
    requires Holds(ns, t) && Placed(ns, t, ViewRect(cols, rows)) && SplitTree.Roomy(t, ViewRect(cols, rows))
    requires cols < 0x1_0000 && rows < 0x1_0000
    requires Draws(ns, i, px, py) && Draws(ns, j, px, py)
    ensures i == j
  {
    ViewDrawnOnce(ns, t, cols, rows, px, py);
    var all := set n | 0 <= n < |ns| && Draws(ns, n, px, py);
    if i != j {
      assert {i, j} <= all;
      SubsetSize({i, j}, all);
    }
  }

  lemma SubsetSize<T>(a: set<T>, b: set<T>)
    requires a <= b
    ensures |a| <= |b|
  {
    DisjointSize(a, b - a);
    assert a + (b - a) == b;
  }

  lemma PaneOwner(s: Scene, t: Tree, cols: nat, rows: nat, i: nat, px: int, py: int)
    requires LaidOut(s, t, cols, rows) && InPane(s, i, px, py)
    ensures i in Panes(t) && Draws(s.ns, LeafAt(t, i), px, py) && s.ns[LeafAt(t, i)].leaf &&
      s.ns[LeafAt(t, i)].pane == i
  {
    LeafStored(s.ns, t, i);
    PlacedLeaf(s.ns, t, ViewRect(cols, rows), i);
    StoredNodes(s.ns, t);
  }

  /** After a reflow that left room for every divider, panes and dividers keep apart. */
  lemma LaidOutApart(s: Scene, t: Tree, cols: nat, rows: nat, py: int)
    requires LaidOut(s, t, cols, rows) && s.zoomed == NO_ZOOM
    ensures ApartAt(s, py)
  {
    forall i, j, px | InPane(s, i, px, py) && InPane(s, j, px, py)
      ensures i == j
    {
      PaneOwner(s, t, cols, rows, i, px, py);
      PaneOwner(s, t, cols, rows, j, px, py);
      SingleOwner(s.ns, t, cols, rows, LeafAt(t, i), LeafAt(t, j), px, py);
    }
    forall i, n, px | InPane(s, i, px, py) && 0 <= n < |s.ns| && Draws(s.ns, n, px, py)
      ensures s.ns[n].leaf
    {
      PaneOwner(s, t, cols, rows, i, px, py);
      SingleOwner(s.ns, t, cols, rows, LeafAt(t, i), n, px, py);
    }
  }

  lemma {:induction false} NoRows(s: Scene, full: bool, k: nat)
    requires k <= |s.panes| && forall i :: !Visible(s, i)
    ensures RowRuns(s, full, k) == []
  {
    if k > 0 {
      NoRows(s, full, k - 1);
    }
  }

  /** A pane that exits while it is zoomed takes the zoom with it nowhere: session_pane_reaped keeps the zoomed id, so
      with panes left every frame is empty until the zoom is dropped. */
  lemma ZoomedGone(s: Scene, full: bool)
    requires s.zoomed != NO_ZOOM
    requires forall i :: 0 <= i < |s.panes| && s.panes[i].Some? ==> s.panes[i].value.id != s.zoomed
    ensures Frame(s, full) == []
  {
    NoRows(s, full, |s.panes|);
  }

  /** While one pane is zoomed it is drawn alone, so it overlaps nothing; wire ids being distinct is all it takes. */
  lemma ZoomedApart(s: Scene, py: int)
    requires s.zoomed != NO_ZOOM
    requires forall i, j :: Visible(s, i) && Visible(s, j) && s.panes[i].value.id == s.panes[j].value.id ==> i == j
    ensures ApartAt(s, py)
  {
    forall i, j, px | InPane(s, i, px, py) && InPane(s, j, px, py)
      ensures i == j
    {
      assert Visible(s, i) && Visible(s, j);
    }
  }
}
