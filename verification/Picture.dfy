/** What a client's terminal shows of a composited frame (src/daemon/composite.c): runs of glyphs put at a place, the
    later over the earlier. */
module Picture {
  import opened Bytes
  import opened Cells

  datatype Glyph = Glyph(cp: nat, comb: nat, fg: Color, bg: Color, style: set<Style>) | RightHalf

  const SPACE := Glyph(0x20, 0, DEFAULT_COLOR, DEFAULT_COLOR, {})

  datatype Run = Run(x: nat, y: nat, glyphs: seq<Glyph>)

  predicate Hits(run: Run, px: int, py: int) {
    run.y == py && run.x <= px < run.x + |run.glyphs|
  }

  /** The glyph a cell shows after the runs, over a picture that had base there. */
  function Shown(runs: seq<Run>, base: Glyph, px: int, py: int): Glyph {
    if |runs| == 0 then base
    else
      var last := runs[|runs| - 1];
      if Hits(last, px, py) then last.glyphs[px - last.x] else Shown(runs[..|runs| - 1], base, px, py)
  }

  lemma {:induction false} ShownOn(a: seq<Run>, b: seq<Run>, base: Glyph, px: int, py: int)
    ensures Shown(a + b, base, px, py) == Shown(b, Shown(a, base, px, py), px, py)
  {
    if |b| == 0 {
      assert a + b == a;
    } else {
      assert (a + b)[..|a + b| - 1] == a + b[..|b| - 1];
      ShownOn(a, b[..|b| - 1], base, px, py);
    }
  }

  ghost predicate NoneHits(runs: seq<Run>, px: int, py: int) {
    forall run :: run in runs ==> !Hits(run, px, py)
  }

  lemma {:induction false} ShownNone(runs: seq<Run>, base: Glyph, px: int, py: int)
    requires NoneHits(runs, px, py)
    ensures Shown(runs, base, px, py) == base
  {
    if |runs| > 0 {
      assert runs[|runs| - 1] in runs;
      ShownNone(runs[..|runs| - 1], base, px, py);
    }
  }

  ghost predicate OnlyHits(runs: seq<Run>, only: Run, px: int, py: int) {
    forall run :: run in runs && Hits(run, px, py) ==> run == only
  }

  /** Where only one run hits, and it is among the runs, it shows. */
  lemma {:induction false} ShownOnly(runs: seq<Run>, base: Glyph, px: int, py: int, only: Run)
    requires Hits(only, px, py) && only in runs && OnlyHits(runs, only, px, py)
    ensures Shown(runs, base, px, py) == only.glyphs[px - only.x]
  {
    var last := runs[|runs| - 1];
    if !Hits(last, px, py) {
      assert runs == runs[..|runs| - 1] + [last];
      ShownOnly(runs[..|runs| - 1], base, px, py, only);
    }
  }

  // ---- one row of a pane ----

  function GlyphOf(c: Cell): Glyph {
    Glyph(if c.cp != 0 then c.cp else 0x20, c.comb, c.fg, c.bg, c.style)
  }

  /** The columns one cell takes: none for a spacer, two for a left half unless it is the last drawn. */
  function Columns(c: Cell, last: bool): seq<Glyph> {
    if c.spacer then []
    else if c.wide then if last then [Glyph(0x20, 0, c.fg, c.bg, c.style)] else [GlyphOf(c), RightHalf]
    else [GlyphOf(c)]
  }

  /** The columns of the first n of draw cells. */
  function Cellwise(line: Row, draw: nat, n: nat): seq<Glyph>
    requires n <= draw <= |line|
  {
    if n == 0 then [] else Cellwise(line, draw, n - 1) + Columns(line[n - 1], n == draw)
  }

  function Spaces(n: nat): (s: seq<Glyph>)
    ensures |s| == n
  {
    seq(n, i => SPACE)
  }

  /** emit_pane_row: the cells of the row, then spaces up to the pane's width. */
  function Emission(line: Row, cols: nat): seq<Glyph> {
    var draw := Min(cols, |line|);
    Cellwise(line, draw, draw) + Spaces(cols - draw)
  }

  /** Left halves that are given two columns, and spacers, among the first n of draw cells. */
  function Leads(line: Row, draw: nat, n: nat): nat
    requires n <= draw <= |line|
  {
    if n == 0 then 0
    else Leads(line, draw, n - 1) + if !line[n - 1].spacer && line[n - 1].wide && n != draw then 1 else 0
  }

  function Spacers(line: Row, n: nat): nat
    requires n <= |line|
  {
    if n == 0 then 0 else Spacers(line, n - 1) + if line[n - 1].spacer then 1 else 0
  }

  lemma {:induction false} CellwiseWidth(line: Row, draw: nat, n: nat)
    requires n <= draw <= |line|
    ensures |Cellwise(line, draw, n)| + Spacers(line, n) == n + Leads(line, draw, n)
  {
    if n > 0 {
      CellwiseWidth(line, draw, n - 1);
    }
  }

  /** A row is drawn exactly as wide as its pane if and only if its drawn left halves and spacers balance. */
  lemma EmissionExact(line: Row, cols: nat)
    ensures var draw := Min(cols, |line|);
      |Emission(line, cols)| == cols <==> Leads(line, draw, draw) == Spacers(line, draw)
  {
    CellwiseWidth(line, Min(cols, |line|), Min(cols, |line|));
  }

  /** Every left half has its spacer behind it, as far as drawn, and every spacer its left half. */
  predicate Paired(line: Row, draw: nat)
    requires draw <= |line|
  {
    && (forall c :: 0 <= c < draw && line[c].spacer ==> c > 0 && line[c - 1].wide && !line[c - 1].spacer)
    && (forall c :: 0 <= c < draw - 1 && line[c].wide && !line[c].spacer ==> line[c + 1].spacer)
  }

  /** In a row with pairs intact every cell is drawn in its own column. */
  lemma {:induction false} PairedWidth(line: Row, draw: nat, n: nat)
    requires n <= draw <= |line| && Paired(line, draw)
    ensures Leads(line, draw, n) ==
      Spacers(line, n) + if 0 < n < draw && line[n - 1].wide && !line[n - 1].spacer then 1 else 0
  {
    if n > 0 {
      PairedWidth(line, draw, n - 1);
    }
  }
}
