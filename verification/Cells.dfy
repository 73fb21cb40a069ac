/** Cells, rows and grids of the terminal engine (src/vt/vt.h, src/vt/vt_screen.c), and what the row and grid
    primitives make of them. */
module Cells {
  const ROWS_MAX: nat := 1000
  const COLS_MAX: nat := 1000

  predicate Surrogate(cp: nat) { 0xD800 <= cp <= 0xDFFF }

  /** Code points that occupy a cell: no controls, no surrogates. */
  predicate Printable(cp: nat) {
    (0x20 <= cp < 0x7F || 0xA0 <= cp <= 0x10FFFF) && !Surrogate(cp)
  }

  /** Combining marks a cell can carry: in the BMP, and above the one-byte range. */
  predicate Markable(cp: nat) {
    0x300 <= cp <= 0xFFFF && !Surrogate(cp)
  }

  const DEFAULT_COLOR: nat := 0

  /** 0 is the default, then 256 indexed colors, then 24-bit ones. */
  type Color = c: nat | c == 0 || 0x100_0000 <= c < 0x100_0100 || 0x200_0000 <= c < 0x300_0000

  datatype Style = Bold | Dim | Italic | Underline | Blink | Reverse | Invisible | Strike

  datatype RawCell = Cell(cp: nat, fg: Color, bg: Color, style: set<Style>, wide: bool, spacer: bool, comb: nat)

  /** A cell as the engine stores it: an empty one has cp 0, and comb 0 stands for no mark. */
  type Cell = c: RawCell | (c.cp == 0 || Printable(c.cp)) && (c.comb == 0 || Markable(c.comb))
    witness Cell(0, 0, 0, {}, false, false, 0)

  const EMPTY: Cell := Cell(0, 0, 0, {}, false, false, 0)

  /** An erased cell keeps the background of the pen. */
  function Blank(bg: Color): Cell {
    Cell(0, DEFAULT_COLOR, bg, {}, false, false, 0)
  }

  /** What characters are written with. */
  datatype Pen = Pen(fg: Color, bg: Color, style: set<Style>)

  const PLAIN := Pen(DEFAULT_COLOR, DEFAULT_COLOR, {})

  type Row = seq<Cell>
  type Grid = seq<Row>

  ghost predicate Shaped(g: Grid, rows: nat, cols: nat) {
    |g| == rows && forall r :: 0 <= r < |g| ==> |g[r]| == cols
  }

  /** The row with cells from up to to replaced. */
  function Filled(row: Row, from: nat, to: nat, c: Cell): (s: Row)
    ensures |s| == |row|
  {
    seq(|row|, i requires 0 <= i < |row| => if from <= i < to then c else row[i])
  }

  /** Room made for n cells at col; what is pushed off the end is gone. */
  function Inserted(row: Row, col: nat, n: nat, c: Cell): (s: Row)
    ensures |s| == |row|
  {
    seq(|row|, i requires 0 <= i < |row| => if i < col then row[i] else if i < col + n then c else row[i - n])
  }

  /** n cells taken out at col; blanks come in at the end. */
  function Deleted(row: Row, col: nat, n: nat, c: Cell): (s: Row)
    ensures |s| == |row|
  {
    seq(|row|, i requires 0 <= i < |row| => if i < col then row[i] else if i + n < |row| then row[i + n] else c)
  }

  /** Rows top to bot move up by n; blank rows come in below. */
  function ScrolledUp(g: Grid, top: nat, bot: nat, n: nat, blank: Row): (h: Grid)
    requires bot < |g|
    ensures |h| == |g|
  {
    seq(|g|, r requires 0 <= r < |g| => if r < top || bot < r then g[r] else if r + n <= bot then g[r + n] else blank)
  }

  /** Rows top to bot move down by n; blank rows come in above. */
  function ScrolledDown(g: Grid, top: nat, bot: nat, n: nat, blank: Row): (h: Grid)
    requires bot < |g|
    ensures |h| == |g|
  {
    seq(|g|, r requires 0 <= r < |g| => if r < top || bot < r then g[r] else if r >= top + n then g[r - n] else blank)
  }

  /** Rows a to b - 1 replaced by blank ones. */
  function Blanked(g: Grid, a: nat, b: nat, blank: Row): (h: Grid)
    ensures |h| == |g|
  {
    seq(|g|, r requires 0 <= r < |g| => if a <= r < b then blank else g[r])
  }

  function BlankRow(cols: nat, c: Cell): (s: Row)
    ensures |s| == cols
  {
    seq(cols, i => c)
  }

  /** The overlap of an old grid, in a new one of other size. */
  function Resized(g: Grid, rows: nat, cols: nat): (h: Grid)
    ensures |h| == rows
  {
    seq(rows, r requires 0 <= r < rows =>
      seq(cols, c requires 0 <= c < cols => if r < |g| && c < |g[r]| then g[r][c] else EMPTY))
  }

  /** Rows not in dirty are as in the shadow. */
  ghost predicate CleanRows(g: Grid, shadow: Grid, dirty: set<nat>) {
    forall r :: 0 <= r < |g| && r !in dirty ==> r < |shadow| && g[r] == shadow[r]
  }

  lemma FilledWhole(row: Row, cols: nat, c: Cell)
    requires |row| == cols
    ensures Filled(row, 0, cols, c) == BlankRow(cols, c)
  {
  }

  lemma BlankedNone(g: Grid, a: nat, blank: Row)
    ensures Blanked(g, a, a, blank) == g
  {
  }

  lemma BlankedStep(g: Grid, a: nat, b: nat, blank: Row)
    requires a <= b < |g|
    ensures Blanked(g, a, b, blank)[b := blank] == Blanked(g, a, b + 1, blank)
  {
  }

  /** The row that row i is copied from when rows lo to hi move up by k, as far as there is one. */
  function RowAbove(i: nat, lo: nat, hi: nat, k: nat): nat {
    if lo <= i && i + k <= hi then i + k else i
  }

  function RowBelow(i: nat, lo: nat, hi: nat, k: nat): nat {
    if lo + k <= i <= hi then i - k else i
  }

  lemma ScrolledUpSteps(g: Grid, h: Grid, lo: nat, hi: nat, k: nat, blank: Row)
    requires lo <= hi < |g| == |h| && 1 <= k <= hi - lo + 1
    requires forall i :: 0 <= i < |g| ==> h[i] == g[RowAbove(i, lo, hi, k)]
    ensures Blanked(h, hi - k + 1, hi + 1, blank) == ScrolledUp(g, lo, hi, k, blank)
  {
  }

  lemma ScrolledDownSteps(g: Grid, h: Grid, lo: nat, hi: nat, k: nat, blank: Row)
    requires lo <= hi < |g| == |h| && 1 <= k <= hi - lo + 1
    requires forall i :: 0 <= i < |g| ==> h[i] == g[RowBelow(i, lo, hi, k)]
    ensures Blanked(h, lo, lo + k, blank) == ScrolledDown(g, lo, hi, k, blank)
  {
  }
}
