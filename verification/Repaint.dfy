/** What a repaint shows (src/daemon/composite.c): every cell of a pane in its own column with its character, mark,
    colors and style, dividers where the split nodes have them, and nothing elsewhere; and with it what every client
    that is in step has on its screen. */
module Repaint {
  import opened Bytes
  import opened Cells
  import opened Tiling
  import T = SplitTree
  import opened Layout
  import opened Picture
  import opened Composite
  import opened Clients

  // ---- one row ----

  /** What a cell looks like: a right half is covered by the left one, an empty cell is a space, and so is a left half
      in the last column drawn. */
  predicate CellShown(c: Cell, last: bool, g: Glyph) {
    if c.spacer then g == RightHalf
    else
      && g.Glyph? && g.fg == c.fg && g.bg == c.bg && g.style == c.style
      && (if c.wide && last then g.cp == 0x20 && g.comb == 0
          else g.cp == (if c.cp != 0 then c.cp else 0x20) && g.comb == c.comb)
  }

  /** A left half whose right half is still to come. */
  predicate Awaits(line: Row, draw: nat, n: nat)
    requires n <= draw <= |line|
  {
    0 < n < draw && line[n - 1].wide && !line[n - 1].spacer
  }

  /** The first n cells are in their columns. */
  ghost predicate InColumns(line: Row, draw: nat, n: nat)
    requires n <= draw <= |line|
  {
    var gs := Cellwise(line, draw, n);
    && |gs| == (if Awaits(line, draw, n) then n + 1 else n)
    && (Awaits(line, draw, n) ==> gs[n] == RightHalf)
    && forall c :: 0 <= c < n ==> CellShown(line[c], c == draw - 1, gs[c])
  }

  lemma NextColumn(line: Row, draw: nat, n: nat)
    requires 0 < n <= draw <= |line| && Paired(line, draw) && InColumns(line, draw, n - 1)
    ensures InColumns(line, draw, n)
  {
    var gs, more := Cellwise(line, draw, n - 1), Columns(line[n - 1], n == draw);
    assert Cellwise(line, draw, n) == gs + more;
    assert forall c :: 0 <= c < n - 1 ==> (gs + more)[c] == gs[c];
  }

  lemma {:induction false} AllInColumns(line: Row, draw: nat, n: nat)
    requires n <= draw <= |line| && Paired(line, draw)
    ensures InColumns(line, draw, n)
  {
    if n > 0 {
      AllInColumns(line, draw, n - 1);
      NextColumn(line, draw, n);
    }
  }

  /** A row with pairs intact is drawn cell by cell in its own columns, and spaces follow up to the pane's width. */
  lemma RowShown(line: Row, cols: nat)
    requires Paired(line, Min(cols, |line|))
    ensures |Emission(line, cols)| == cols
    ensures forall c :: 0 <= c < Min(cols, |line|) ==>
      CellShown(line[c], c == Min(cols, |line|) - 1, Emission(line, cols)[c])
    ensures forall c :: Min(cols, |line|) <= c < cols ==>
      Emission(line, cols)[c] == Glyph(0x20, 0, DEFAULT_COLOR, DEFAULT_COLOR, {})
  {
    AllInColumns(line, Min(cols, |line|), Min(cols, |line|));
  }

  // ---- a screen line ----

  /** All rows drawn on the line have their pairs intact. */
  ghost predicate IntactAt(s: Scene, py: int) {
    forall i, r :: Visible(s, i) && 0 <= r < Height(s.panes[i].value) && s.panes[i].value.rect.y + r == py ==>
      Paired(s.panes[i].value.grid[r], Min(s.panes[i].value.rect.cols, |s.panes[i].value.grid[r]|))
  }

  lemma IntactExact(s: Scene, py: int)
    requires IntactAt(s, py)
    ensures ExactAt(s, py)
  {
    forall i, r | Visible(s, i) && 0 <= r < Height(s.panes[i].value) && s.panes[i].value.rect.y + r == py
      ensures |PaneRun(s.panes[i].value, r).glyphs| == s.panes[i].value.rect.cols
    {
      RowShown(s.panes[i].value.grid[r], s.panes[i].value.rect.cols);
    }
  }

  /** The glyph is what the pane has at the cell: its own cell there, or a space where its rows are shorter. */
  ghost predicate PaneCellShown(p: PaneView, g: Glyph, px: int, py: int)
    requires T.Inside(p.rect, px, py) && py < p.rect.y + Height(p)
  {
    var line, c := p.grid[py - p.rect.y], px - p.rect.x;
    if c < |line| then CellShown(line[c], c == Min(p.rect.cols, |line|) - 1, g)
    else g == Glyph(0x20, 0, DEFAULT_COLOR, DEFAULT_COLOR, {})
  }

  lemma PaneCell(s: Scene, i: nat, px: int, py: int, base: Glyph)
    requires IntactAt(s, py) && ApartAt(s, py) && InPane(s, i, px, py)
    ensures PaneCellShown(s.panes[i].value, Shown(Frame(s, true), base, px, py), px, py)
  {
    IntactExact(s, py);
    FrameInPane(s, true, i, px, py, base);
    IntactRow(s, i, py - s.panes[i].value.rect.y);
    OwnCell(s.panes[i].value, Shown(Frame(s, true), base, px, py), px, py);
  }

  lemma IntactRow(s: Scene, i: nat, r: nat)
    requires Visible(s, i) && r < Height(s.panes[i].value) && IntactAt(s, s.panes[i].value.rect.y + r)
    ensures var p := s.panes[i].value; Paired(p.grid[r], Min(p.rect.cols, |p.grid[r]|))
  {
  }

  lemma OwnCell(p: PaneView, g: Glyph, px: int, py: int)
    requires T.Inside(p.rect, px, py) && py < p.rect.y + Height(p) && PaneShows(p, g, px, py)
    requires var line := p.grid[py - p.rect.y]; Paired(line, Min(p.rect.cols, |line|))
    ensures PaneCellShown(p, g, px, py)
  {
    RowShown(p.grid[py - p.rect.y], p.rect.cols);
  }

  /** The glyph of a divider: a dim line, across for panes on top of each other, down for panes side by side. */
  ghost predicate DividerShown(ns: seq<Node>, g: Glyph, px: int, py: int) {
    exists n :: 0 <= n < |ns| && Draws(ns, n, px, py) && !ns[n].leaf && LineGlyph(ns[n].stacked, g)
  }

  predicate LineGlyph(across: bool, g: Glyph) {
    g == Glyph(if across then 0x2500 else 0x2502, 0, DEFAULT_COLOR, DEFAULT_COLOR, {Dim})
  }

  /** A split node draws a divider there. */
  ghost predicate OnDivider(ns: seq<Node>, k: nat, px: int, py: int)
    requires k <= |ns|
  {
    exists n :: 0 <= n < k && Draws(ns, n, px, py) && !ns[n].leaf
  }

  lemma {:induction false} BarShown(x: nat, y: nat, n: nat, base: Glyph, px: int, py: int)
    ensures Shown(BarRuns(x, y, n), base, px, py) == if px == x && y <= py < y + n then BAR else base
  {
    if n > 0 {
      BarShown(x, y, n - 1, base, px, py);
      assert BarRuns(x, y, n)[..n - 1] == BarRuns(x, y, n - 1) by { BarCount(x, y, n - 1); }
      BarCount(x, y, n);
    }
  }

  lemma {:induction false} BarCount(x: nat, y: nat, n: nat)
    ensures |BarRuns(x, y, n)| == n
  {
    if n > 0 {
      BarCount(x, y, n - 1);
    }
  }

  lemma NodeShown(ns: seq<Node>, i: nat, base: Glyph, px: int, py: int)
    requires i < |ns|
    ensures var g := Shown(NodeRuns(ns, i), base, px, py);
      if Draws(ns, i, px, py) && !ns[i].leaf then LineGlyph(ns[i].stacked, g) else g == base
  {
    if ns[i].inUse && !ns[i].leaf && 0 <= ns[i].child0 < |ns| {
      var d := DrawnDivider(ns[i], ns[ns[i].child0]);
      if ns[i].stacked {
        var run := Run(d.x, d.y, seq(d.cols, j => RULE));
        assert [run][..0] == [];
        assert Shown([run], base, px, py) == if Hits(run, px, py) then RULE else base;
      } else {
        BarShown(d.x, d.y, d.rows, base, px, py);
      }
    }
  }

  lemma {:induction false} DividersShown(ns: seq<Node>, k: nat, base: Glyph, px: int, py: int)
    requires k <= |ns|
    ensures var g := Shown(DividerRuns(ns, k), base, px, py);
      if OnDivider(ns, k, px, py) then DividerShown(ns, g, px, py) else g == base
  {
    if k > 0 {
      var g := Shown(DividerRuns(ns, k - 1), base, px, py);
      DividersShown(ns, k - 1, base, px, py);
      ShownOn(DividerRuns(ns, k - 1), NodeRuns(ns, k - 1), base, px, py);
      NodeShown(ns, k - 1, g, px, py);
      OneMoreNode(ns, k, px, py);
    }
  }

  lemma OneMoreNode(ns: seq<Node>, k: nat, px: int, py: int)
    requires 0 < k <= |ns|
    ensures OnDivider(ns, k, px, py) <==>
      OnDivider(ns, k - 1, px, py) || (Draws(ns, k - 1, px, py) && !ns[k - 1].leaf)
  {
  }

  lemma OutsideCell(s: Scene, px: int, py: int)
    requires IntactAt(s, py) && forall i :: !InPane(s, i, px, py)
    ensures var g := Shown(Frame(s, true), SPACE, px, py);
      if s.zoomed == NO_ZOOM && OnDivider(s.ns, |s.ns|, px, py) then DividerShown(s.ns, g, px, py) else g == SPACE
  {
    IntactExact(s, py);
    OutsidePanes(s, px, py);
    DividersShown(s.ns, |s.ns|, SPACE, px, py);
  }

  /** The line as it should look, whatever runs it was put together from. */
  ghost predicate LineShown(s: Scene, runs: seq<Run>, py: int) {
    && (forall i, px :: InPane(s, i, px, py) ==>
      PaneCellShown(s.panes[i].value, Shown(runs, SPACE, px, py), px, py))
    && (forall px :: (forall i :: !InPane(s, i, px, py)) ==>
      var g := Shown(runs, SPACE, px, py);
      if s.zoomed == NO_ZOOM && OnDivider(s.ns, |s.ns|, px, py) then DividerShown(s.ns, g, px, py) else g == SPACE)
  }

  /** A full repaint puts every cell of every pane drawn on the line where it belongs, and dividers between them. */
  lemma FullShowsLine(s: Scene, py: int)
    requires IntactAt(s, py) && ApartAt(s, py)
    ensures LineShown(s, Frame(s, true), py)
  {
    forall i, px | InPane(s, i, px, py)
      ensures PaneCellShown(s.panes[i].value, Shown(Frame(s, true), SPACE, px, py), px, py)
    {
      PaneCell(s, i, px, py, SPACE);
    }
    forall px | forall i :: !InPane(s, i, px, py)
      ensures var g := Shown(Frame(s, true), SPACE, px, py);
        if s.zoomed == NO_ZOOM && OnDivider(s.ns, |s.ns|, px, py) then DividerShown(s.ns, g, px, py) else g == SPACE
    {
      OutsideCell(s, px, py);
    }
  }

  // ---- clients ----

  /** On every line that can be trusted and has its pairs intact, the client has the cells of the panes on its
      screen. */
  ghost predicate HasCells(c: Client, s: Scene) {
    forall py :: Trusted(c, py) && IntactAt(s, py) && ApartAt(s, py) ==> LineShown(s, c.sent, py)
  }

  lemma PicturedLine(s: Scene, sent: seq<Run>, py: int)
    requires Pictured(sent, s, py) && LineShown(s, Frame(s, true), py)
    ensures LineShown(s, sent, py)
  {
  }

  /** A client that shows a full repaint has every cell. */
  lemma ShowsCells(c: Client, s: Scene)
    requires Shows(c, s)
    ensures HasCells(c, s)
  {
    forall py | Trusted(c, py) && IntactAt(s, py) && ApartAt(s, py)
      ensures LineShown(s, c.sent, py)
    {
      FullShowsLine(s, py);
      PicturedLine(s, c.sent, py);
    }
  }

  ghost predicate AllHaveCells(clients: map<nat, Client>, s: Scene) {
    forall k :: k in clients ==> HasCells(clients[k], s)
  }

  lemma AllShowCells(clients: map<nat, Client>, s: Scene)
    requires AllShow(clients, s)
    ensures AllHaveCells(clients, s)
  {
    forall k | k in clients
      ensures HasCells(clients[k], s)
    {
      ShowsCells(clients[k], s);
    }
  }

  /** Every client has the cells of the panes on all lines that had rows of exact width and have their pairs intact. */
  ghost predicate AllLinesShown(clients: map<nat, Client>, s: Scene) {
    forall k, py :: k in clients && ExactSince(clients[k], py) && IntactAt(s, py) ==> LineShown(s, clients[k].sent, py)
  }

  /** In a settled view nothing more is asked of a line. */
  lemma SettledCells(clients: map<nat, Client>, s: Scene)
    requires AllShow(clients, s) && AllSettled(clients) && Settled(s)
    ensures AllLinesShown(clients, s)
  {
    AllShowCells(clients, s);
    forall k, py | k in clients && ExactSince(clients[k], py) && IntactAt(s, py)
      ensures LineShown(s, clients[k].sent, py)
    {
      assert SettledSince(clients[k]) && HasCells(clients[k], s);
      SettledTrusted(clients[k], py);
      SettledApart(s, py);
    }
  }
}
