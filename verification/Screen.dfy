/** The grid of the terminal engine (src/vt/vt_screen.c): cursor, scroll regions, erasing, inserting, alternate screen,
    resizing, and the damage marks a compositor repaints from. */
module Screen {
  import opened Bytes
  import opened Cells

  datatype Cursor = Cursor(row: nat, col: nat, pen: Pen, pendingWrap: bool, charset: nat, graphics0: bool,
      graphics1: bool, origin: bool)

  const HOME := Cursor(0, 0, PLAIN, false, 0, false, false, false)

  /** The tracked modes; those that only concern the input side are in other, by number. */
  datatype Modes = Modes(origin: bool, autowrap: bool, visible: bool, altscreen: bool, insert: bool, other: set<int>)

  const INITIAL_MODES := Modes(false, true, true, false, false, {})

  function Clamp(v: nat, max: nat): (c: nat)
    requires max >= 1
    ensures 1 <= c <= max && (1 <= v <= max ==> c == v) && (v == 0 ==> c == 1) && (v > max ==> c == max)
  {
    if v == 0 then 1 else if v > max then max else v
  }

  /** The width tables (src/vt/vt_width.c): only printable code points have a width, marks start at U+0300. */
  ghost predicate Tables(width: nat -> nat, combining: nat -> bool) {
    forall cp: nat ::
      width(cp) <= 2 && (width(cp) > 0 ==> 0x20 <= cp < 0x7F || cp >= 0xA0) && (combining(cp) ==> cp >= 0x300)
  }

  ghost predicate InGrid(c: Cursor, rows: nat, cols: nat) {
    c.row < rows && c.col < cols && c.charset < 2
  }

  ghost predicate BothShaped(grids: seq<Grid>, rows: nat, cols: nat) {
    |grids| == 2 && forall g :: 0 <= g < |grids| ==> Shaped(grids[g], rows, cols)
  }

  ghost predicate Sound(all: bool, dirty: set<nat>, grids: seq<Grid>, active: nat, shadow: Grid) {
    all || (active < |grids| && CleanRows(grids[active], shadow, dirty))
  }

  /** The two grids with one row of the active one replaced. */
  function WithRow(grids: seq<Grid>, active: nat, row: nat, line: Row): (g: seq<Grid>)
    requires active < |grids| && row < |grids[active]|
    ensures |g| == |grids|
  {
    grids[active := grids[active][row := line]]
  }

  /** Rows lo to hi - 1. */
  ghost function Span(lo: nat, hi: nat): (s: set<nat>)
    ensures forall r :: r in s <==> lo <= r < hi
  {
    if lo >= hi then {} else Span(lo, hi - 1) + {hi - 1}
  }

  /** Where a request for row and col takes the cursor: within the scroll region in origin mode, else within the
      grid. */
  function MovedTo(c: Cursor, rows: nat, cols: nat, origin: bool, top: nat, bot: nat, row: int, col: int): (m: Cursor)
    requires top <= bot < rows && cols >= 1
    ensures InGrid(c, rows, cols) ==> InGrid(m, rows, cols)
  {
    var lo, hi := if origin then top else 0, if origin then bot else rows - 1;
    var r := if origin then row + top else row;
    c.(row := if r < lo then lo else if r > hi then hi else r,
       col := if col < 0 then 0 else if col >= cols then cols - 1 else col,
       pendingWrap := false)
  }

  /** A column back, or out of a wrap that is held. */
  function Backed(c: Cursor): Cursor {
    if c.pendingWrap then c.(pendingWrap := false) else if c.col > 0 then c.(col := c.col - 1) else c
  }

  /** The first tab stop from column c on, or the last column. */
  function TabFrom(tabs: set<nat>, c: nat, cols: nat): (t: nat)
    requires cols >= 1
    ensures t < cols && (t == cols - 1 || (t in tabs && t >= c)) && forall i :: c <= i < t ==> i !in tabs
    decreases cols - c
  {
    if c >= cols then cols - 1 else if c in tabs then c else TabFrom(tabs, c + 1, cols)
  }

  class Vt {
    const width: nat -> nat
    const combining: nat -> bool
    var rows: nat
    var cols: nat
    var grids: seq<Grid>
    var active: nat
    var cur: Cursor
    var saved: seq<Cursor>
    var modes: Modes
    var top: nat
    var bot: nat
    var tabs: set<nat>
    var lastRow: nat
    var lastCol: nat
    var lastValid: bool
    var dirty: set<nat>
    var dirtyAll: bool
    /** Lines handed to the scrollback. */
    var scrolled: seq<Row>
    /** The visible grid when damage was last cleared. */
    ghost var shadow: Grid

    function Visible(): Grid
      requires |grids| == 2 && active < 2
      reads this
    {
      grids[active]
    }

    ghost function Now(): Sheet
      requires |grids| == 2 && active < 2
      reads this
    {
      Sheet(grids[active], cur, scrolled)
    }

    ghost function Conf(): Setup
      reads this
    {
      Setup(cols, top, bot, active == 0, modes.autowrap, modes.insert)
    }

    ghost predicate GridsOk()
      reads this
    {
      1 <= rows <= ROWS_MAX && 1 <= cols <= COLS_MAX && active < 2 && BothShaped(grids, rows, cols)
    }

    ghost predicate CursorsOk()
      reads this
    {
      && InGrid(cur, rows, cols) && |saved| == 2 && InGrid(saved[0], rows, cols) && InGrid(saved[1], rows, cols)
      && top <= bot < rows && (lastValid ==> lastRow < rows && lastCol < cols)
      && (active == 1 <==> modes.altscreen)
    }

    /** A visible row reported clean has exactly the cells it had when damage was last cleared. */
    ghost predicate DamageOk()
      reads this
    {
      Sound(dirtyAll, dirty, grids, active, shadow)
    }

    ghost predicate Valid()
      reads this
    {
      GridsOk() && CursorsOk() && DamageOk() && Tables(width, combining)
    }

    /** No mark of damage is lost. */
    ghost predicate KeepsMarks(before: set<nat>, all: bool)
      reads this
    {
      before <= dirty && (all ==> dirtyAll)
    }

    function BlankCell(): Cell
      reads this
    {
      Blank(cur.pen.bg)
    }

    // ---- rows ----

    /** mark_row */
    method MarkRow(row: nat)
      requires row < rows
      modifies `dirty
      ensures dirty == old(dirty) + {row}
    {
      dirty := dirty + {row};
    }

    /** Cells of a row written; the row has to be marked, before or after. */
    method WriteRow(row: nat, line: Row)
      requires GridsOk() && row < rows && |line| == cols
      modifies `grids
      ensures GridsOk() && grids == WithRow(old(grids), active, row, line)
      ensures old(DamageOk()) && row in dirty ==> DamageOk()
    {
      grids := WithRow(grids, active, row, line);
    }

    /** clear_row */
    method ClearRow(row: nat, from: nat, to: nat)
      requires GridsOk() && DamageOk()
      modifies `grids, `dirty
      ensures GridsOk() && DamageOk()
      ensures row >= rows ==> grids == old(grids) && dirty == old(dirty)
      ensures row < rows ==> dirty == old(dirty) + {row}
      ensures row < rows ==>
        grids == WithRow(old(grids), active, row, Filled(old(grids)[active][row], from, to, BlankCell()))
    {
      if row >= rows {
        return;
      }
      var end := if to > cols then cols else to;
      MarkRow(row);
      var b := BlankCell();
      var line := Visible()[row];
      ghost var was := line;
      var c := from;
      while c < end
        invariant |line| == cols && (c <= end || c == from)
        invariant forall i :: 0 <= i < cols ==> line[i] == if from <= i < c then b else was[i]
      {
        line := line[c := b];
        c := c + 1;
      }
      assert line == Filled(was, from, to, b);
      WriteRow(row, line);
    }

    /** unsplit_wide: the other half of a wide character goes blank. */
    method UnsplitWide(row: nat, col: nat)
      requires GridsOk() && DamageOk()
      modifies `grids, `dirty
      ensures GridsOk() && DamageOk()
      ensures row >= rows || col >= cols ==> grids == old(grids) && dirty == old(dirty)
      ensures row < rows && col < cols ==> dirty == old(dirty) + {row}
      ensures row < rows && col < cols ==>
        grids == WithRow(old(grids), active, row, Unsplit(old(grids)[active][row], col))
    {
      if row >= rows || col >= cols {
        return;
      }
      MarkRow(row);
      var line := Visible()[row];
      if line[col].spacer && col > 0 && line[col - 1].wide {
        line := line[col - 1 := Emptied(line[col - 1])];
      }
      if line[col].wide && col + 1 < cols && line[col + 1].spacer {
        line := line[col + 1 := Emptied(line[col + 1])];
      }
      WriteRow(row, line);
    }

    /** mark_rows */
    method MarkRows(lo: nat, hi: nat)
      requires lo <= hi < rows
      modifies `dirty
      ensures dirty == old(dirty) + Span(lo, hi + 1)
    {
      for r := lo to hi + 1
        invariant dirty == old(dirty) + Span(lo, r)
      {
        dirty := dirty + {r};
      }
    }

    /** A loop of clear_row over whole rows a to b - 1. */
    method ClearRows(a: nat, b: nat)
      requires GridsOk() && DamageOk() && a <= b <= rows
      modifies `grids, `dirty
      ensures GridsOk() && DamageOk() && dirty == old(dirty) + Span(a, b)
      ensures grids == old(grids)[active := Blanked(old(grids)[active], a, b, BlankRow(cols, BlankCell()))]
    {
      ghost var was := Visible();
      BlankedNone(was, a, BlankRow(cols, BlankCell()));
      for i := a to b
        invariant GridsOk() && DamageOk() && dirty == old(dirty) + Span(a, i)
        invariant grids == old(grids)[active := Blanked(was, a, i, BlankRow(cols, BlankCell()))]
      {
        BlankedStep(was, a, i, BlankRow(cols, BlankCell()));
        FilledWhole(Visible()[i], cols, BlankCell());
        ClearRow(i, 0, cols);
      }
    }

    // ---- scrolling ----

    /** scroll_region_up: lines that leave the top of the primary screen go to the scrollback. */
    method ScrollRegionUp(lo: nat, hi: nat, n: int)
      requires GridsOk() && DamageOk() && lo <= hi < rows
      modifies `grids, `dirty, `lastValid, `scrolled
      ensures GridsOk() && DamageOk()
      ensures n <= 0 ==>
        grids == old(grids) && dirty == old(dirty) && lastValid == old(lastValid) && scrolled == old(scrolled)
      ensures n > 0 ==> !lastValid && dirty == old(dirty) + Span(lo, hi + 1)
      ensures n > 0 ==> var k := if n > hi - lo + 1 then hi - lo + 1 else n;
        && grids == old(grids)[active := ScrolledUp(old(grids)[active], lo, hi, k, BlankRow(cols, BlankCell()))]
        && scrolled == old(scrolled) + if active == 0 && lo == 0 then old(grids)[active][..k] else []
    {
      if n <= 0 {
        return;
      }
      lastValid := false;
      MarkRows(lo, hi);
      var height := hi - lo + 1;
      var k := if n > height then height else n;
      if active == 0 && lo == 0 {
        scrolled := scrolled + Visible()[..k];
      }
      ShiftUp(lo, hi, k);
    }

    method ShiftUp(lo: nat, hi: nat, k: nat)
      requires GridsOk() && DamageOk() && lo <= hi < rows && 1 <= k <= hi - lo + 1 && Span(lo, hi + 1) <= dirty
      modifies `grids, `dirty
      ensures GridsOk() && DamageOk() && dirty == old(dirty)
      ensures grids == old(grids)[active := ScrolledUp(old(grids)[active], lo, hi, k, BlankRow(cols, BlankCell()))]
    {
      var was := Visible();
      var moved := MoveUp(was, lo, hi, k);
      assert Shaped(moved, rows, cols);
      ScrolledUpSteps(was, moved, lo, hi, k, BlankRow(cols, BlankCell()));
      grids := grids[active := moved];
      ClearRows(hi - k + 1, hi + 1);
    }

    /** scroll_region_down */
    method ScrollRegionDown(lo: nat, hi: nat, n: int)
      requires GridsOk() && DamageOk() && lo <= hi < rows
      modifies `grids, `dirty, `lastValid
      ensures GridsOk() && DamageOk()
      ensures n <= 0 ==> grids == old(grids) && dirty == old(dirty) && lastValid == old(lastValid)
      ensures n > 0 ==> !lastValid && dirty == old(dirty) + Span(lo, hi + 1)
      ensures n > 0 ==> var k := if n > hi - lo + 1 then hi - lo + 1 else n;
        grids == old(grids)[active := ScrolledDown(old(grids)[active], lo, hi, k, BlankRow(cols, BlankCell()))]
    {
      if n <= 0 {
        return;
      }
      lastValid := false;
      MarkRows(lo, hi);
      var height := hi - lo + 1;
      var k := if n > height then height else n;
      ShiftDown(lo, hi, k);
    }

    method ShiftDown(lo: nat, hi: nat, k: nat)
      requires GridsOk() && DamageOk() && lo <= hi < rows && 1 <= k <= hi - lo + 1 && Span(lo, hi + 1) <= dirty
      modifies `grids, `dirty
      ensures GridsOk() && DamageOk() && dirty == old(dirty)
      ensures grids == old(grids)[active := ScrolledDown(old(grids)[active], lo, hi, k, BlankRow(cols, BlankCell()))]
    {
      var was := Visible();
      var moved := MoveDown(was, lo, hi, k);
      assert Shaped(moved, rows, cols);
      ScrolledDownSteps(was, moved, lo, hi, k, BlankRow(cols, BlankCell()));
      grids := grids[active := moved];
      ClearRows(lo, lo + k);
    }

    // ---- cursor ----

    /** vt_screen_move_cursor */
    method MoveCursor(row: int, col: int)
      requires Valid()
      modifies `cur, `lastValid
      ensures Valid() && !lastValid && cur == MovedTo(old(cur), rows, cols, modes.origin, top, bot, row, col)
    {
      var lo, hi, r, c := 0, rows - 1, row, col;
      if modes.origin {
        lo, hi, r := top, bot, row + top;
      }
      if r < lo { r := lo; }
      if r > hi { r := hi; }
      if c < 0 { c := 0; }
      if c >= cols { c := cols - 1; }
      cur := cur.(row := r, col := c, pendingWrap := false);
      lastValid := false;
    }

    /** vt_screen_carriage_return */
    method CarriageReturn()
      requires Valid()
      modifies `cur, `lastValid
      ensures Valid() && !lastValid && cur == old(cur).(col := 0, pendingWrap := false)
    {
      cur := cur.(col := 0, pendingWrap := false);
      lastValid := false;
    }

    /** vt_screen_backspace */
    method Backspace()
      requires Valid()
      modifies `cur, `lastValid
      ensures Valid() && !lastValid
      ensures cur == Backed(old(cur))
    {
      lastValid := false;
      if cur.pendingWrap {
        cur := cur.(pendingWrap := false);
        return;
      }
      if cur.col > 0 {
        cur := cur.(col := cur.col - 1);
      }
    }

    /** vt_screen_newline: down a row, or scroll the region up at its last row. */
    method Newline()
      requires Valid()
      modifies `grids, `dirty, `lastValid, `scrolled, `cur
      ensures Valid() && !lastValid && Now() == NewlineOf(old(Now()), Conf()) &&
        grids == old(grids)[active := Now().grid]
      ensures old(cur).row == bot ==> dirty == old(dirty) + Span(top, bot + 1)
      ensures old(cur).row != bot ==> dirty == old(dirty)
    {
      if cur.row == bot {
        ScrollLine();
        cur := cur.(pendingWrap := false);
      } else {
        StepDown();
      }
    }

    method StepDown()
      requires Valid()
      modifies `lastValid, `cur
      ensures Valid() && !lastValid
      ensures cur ==
        old(cur).(pendingWrap := false, row := if old(cur).row + 1 < rows then old(cur).row + 1 else old(cur).row)
    {
      lastValid := false;
      cur := cur.(pendingWrap := false);
      if cur.row + 1 < rows {
        cur := cur.(row := cur.row + 1);
      }
    }

    /** The region up by one line. */
    method ScrollLine()
      requires Valid()
      modifies `grids, `dirty, `lastValid, `scrolled
      ensures Valid() && !lastValid && dirty == old(dirty) + Span(top, bot + 1)
      ensures grids == old(grids)[active := ScrolledUp(old(grids)[active], top, bot, 1, BlankRow(cols, BlankCell()))]
      ensures scrolled == old(scrolled) + if active == 0 && top == 0 then old(grids)[active][..1] else []
    {
      ScrollRegionUp(top, bot, 1);
    }

    /** vt_screen_reverse_index */
    method ReverseIndex()
      requires Valid()
      modifies `grids, `dirty, `lastValid, `cur
      ensures Valid() && !lastValid && Now() == ReverseOf(old(Now()), Conf()) &&
        grids == old(grids)[active := Now().grid]
      ensures old(cur).row == top ==> dirty == old(dirty) + Span(top, bot + 1)
      ensures old(cur).row != top ==> dirty == old(dirty)
    {
      if cur.row == top {
        ScrollRegionDown(top, bot, 1);
        cur := cur.(pendingWrap := false);
      } else {
        StepUp();
      }
    }

    method StepUp()
      requires Valid()
      modifies `lastValid, `cur
      ensures Valid() && !lastValid
      ensures cur == old(cur).(pendingWrap := false, row := if old(cur).row > 0 then old(cur).row - 1 else 0)
    {
      lastValid := false;
      cur := cur.(pendingWrap := false);
      if cur.row > 0 {
        cur := cur.(row := cur.row - 1);
      }
    }

    /** vt_screen_tab: to the next tab stop, or the last column. */
    method Tab()
      requires Valid()
      modifies `cur, `lastValid
      ensures Valid() && !lastValid
      ensures cur == old(cur).(pendingWrap := false, col := TabFrom(tabs, old(cur).col + 1, cols))
    {
      var c := NextStop(cur.col + 1);
      lastValid := false;
      cur := cur.(pendingWrap := false, col := c);
    }

    method NextStop(from: nat) returns (c: nat)
      requires cols >= 1
      ensures c == TabFrom(tabs, from, cols)
    {
      c := from;
      while c < cols
        invariant TabFrom(tabs, c, cols) == TabFrom(tabs, from, cols)
      {
        if c in tabs {
          return;
        }
        c := c + 1;
      }
      c := cols - 1;
    }

    // ---- erasing, inserting, deleting ----

    /** vt_screen_erase_display: from the cursor on, up to the cursor, or everything. */
    method EraseDisplay(mode: nat)
      requires Valid()
      modifies `grids, `dirty, `lastValid, `cur
      ensures Valid() && !lastValid && cur == old(cur).(pendingWrap := false)
      ensures mode > 3 ==> grids == old(grids)
      ensures mode <= 3 ==>
        grids == old(grids)[active := Erased(old(grids)[active], mode, cur.row, cur.col, cols, BlankCell())]
      ensures old(dirty) <= dirty
    {
      lastValid := false;
      cur := cur.(pendingWrap := false);
      if mode == 0 {
        EraseBelow();
      } else if mode == 1 {
        EraseAbove();
      } else if mode <= 3 {
        ErasedAll(Visible(), mode, cur.row, cur.col, cols, BlankCell());
        ClearRows(0, rows);
      }
    }

    /** From the cursor to the end of the display. */
    method EraseBelow()
      requires GridsOk() && DamageOk() && cur.row < rows
      modifies `grids, `dirty
      ensures GridsOk() && DamageOk()
      ensures grids == old(grids)[active := Erased(old(grids)[active], 0, cur.row, cur.col, cols, BlankCell())]
      ensures old(dirty) <= dirty
    {
      ghost var was := Visible();
      ErasedBelow(was, cur.row, cur.col, cols, BlankCell());
      ClearRow(cur.row, cur.col, cols);
      ghost var g := was[cur.row := Filled(was[cur.row], cur.col, cols, BlankCell())];
      ActiveTwice(old(grids), active, g, Blanked(g, cur.row + 1, rows, BlankRow(cols, BlankCell())));
      ClearRows(cur.row + 1, rows);
    }

    /** From the start of the display to the cursor. */
    method EraseAbove()
      requires GridsOk() && DamageOk() && cur.row < rows
      modifies `grids, `dirty
      ensures GridsOk() && DamageOk()
      ensures grids == old(grids)[active := Erased(old(grids)[active], 1, cur.row, cur.col, cols, BlankCell())]
      ensures old(dirty) <= dirty
    {
      ghost var was := Visible();
      ErasedAbove(was, cur.row, cur.col, cols, BlankCell());
      ghost var g := Blanked(was, 0, cur.row, BlankRow(cols, BlankCell()));
      ActiveTwice(old(grids), active, g, g[cur.row := Filled(g[cur.row], 0, cur.col + 1, BlankCell())]);
      ClearRows(0, cur.row);
      ClearRow(cur.row, 0, cur.col + 1);
    }

    /** vt_screen_erase_line */
    method EraseLine(mode: nat)
      requires Valid()
      modifies `grids, `dirty, `lastValid, `cur
      ensures Valid() && !lastValid && cur == old(cur).(pendingWrap := false)
      ensures mode > 2 ==> grids == old(grids)
      ensures mode <= 2 ==> grids == WithRow(old(grids), active, cur.row,
        Filled(old(grids)[active][cur.row], if mode == 0 then cur.col else 0, if mode == 1 then cur.col + 1 else cols,
          BlankCell()))
      ensures old(dirty) <= dirty
    {
      lastValid := false;
      cur := cur.(pendingWrap := false);
      if mode == 0 {
        ClearRow(cur.row, cur.col, cols);
      } else if mode == 1 {
        ClearRow(cur.row, 0, cur.col + 1);
      } else if mode == 2 {
        ClearRow(cur.row, 0, cols);
      }
    }

    /** vt_screen_insert_lines */
    method InsertLines(n: int)
      requires Valid() && n > 0
      modifies `grids, `dirty, `lastValid, `cur
      ensures Valid()
      ensures !(top <= old(cur).row <= bot) ==>
        grids == old(grids) && cur == old(cur) && lastValid == old(lastValid)
      ensures top <= old(cur).row <= bot ==> cur == old(cur).(pendingWrap := false) && !lastValid
      ensures top <= old(cur).row <= bot ==>
        grids == old(grids)[active :=
          ScrolledDown(old(grids)[active], cur.row, bot, Min(n, bot - cur.row + 1), BlankRow(cols, BlankCell()))]
      ensures old(dirty) <= dirty
    {
      if cur.row < top || cur.row > bot {
        return;
      }
      ScrollRegionDown(cur.row, bot, n);
      cur := cur.(pendingWrap := false);
    }

    /** vt_screen_delete_lines */
    method DeleteLines(n: int)
      requires Valid() && n > 0
      modifies `grids, `dirty, `lastValid, `scrolled, `cur
      ensures Valid()
      ensures !(top <= old(cur).row <= bot) ==>
        grids == old(grids) && cur == old(cur) && lastValid == old(lastValid)
      ensures top <= old(cur).row <= bot ==> cur == old(cur).(pendingWrap := false) && !lastValid
      ensures top <= old(cur).row <= bot ==>
        grids == old(grids)[active :=
          ScrolledUp(old(grids)[active], cur.row, bot, Min(n, bot - cur.row + 1), BlankRow(cols, BlankCell()))]
      ensures old(dirty) <= dirty
      ensures !(top <= old(cur).row <= bot) ==> scrolled == old(scrolled)
      ensures top <= old(cur).row <= bot ==>
        scrolled == old(scrolled) + if active == 0 && cur.row == 0 then old(grids)[active][..Min(n, bot + 1)] else []
    {
      if cur.row < top || cur.row > bot {
        return;
      }
      ScrollRegionUp(cur.row, bot, n);
      cur := cur.(pendingWrap := false);
    }

    /** vt_screen_insert_chars */
    method InsertChars(n: int)
      requires Valid() && n > 0
      modifies `grids, `dirty, `lastValid, `cur
      ensures Valid() && !lastValid && cur == old(cur).(pendingWrap := false) && dirty == old(dirty) + {cur.row}
      ensures grids == WithRow(old(grids), active, cur.row,
        Inserted(old(grids)[active][cur.row], cur.col, Min(n, cols - cur.col), BlankCell()))
    {
      lastValid := false;
      var avail := cols - cur.col;
      var k := if n > avail then avail else n;
      ShiftRight(k);
      cur := cur.(pendingWrap := false);
    }

    method ShiftRight(k: nat)
      requires GridsOk() && DamageOk() && cur.row < rows && cur.col + k <= cols
      modifies `grids, `dirty
      ensures GridsOk() && DamageOk() && dirty == old(dirty) + {cur.row}
      ensures grids ==
        WithRow(old(grids), active, cur.row, Inserted(old(grids)[active][cur.row], cur.col, k, BlankCell()))
    {
      var line := Visible()[cur.row];
      var moved := line[..cur.col + k] + line[cur.col..cols - k];
      MovedRight(line, cur.col, k, BlankCell());
      WithRowTwice(grids, active, cur.row, moved, Inserted(line, cur.col, k, BlankCell()));
      MarkRow(cur.row);
      WriteRow(cur.row, moved);
      ClearRow(cur.row, cur.col, cur.col + k);
    }

    /** vt_screen_delete_chars */
    method DeleteChars(n: int)
      requires Valid() && n > 0
      modifies `grids, `dirty, `lastValid, `cur
      ensures Valid() && !lastValid && cur == old(cur).(pendingWrap := false) && dirty == old(dirty) + {cur.row}
      ensures grids == WithRow(old(grids), active, cur.row,
        Deleted(old(grids)[active][cur.row], cur.col, Min(n, cols - cur.col), BlankCell()))
    {
      lastValid := false;
      var avail := cols - cur.col;
      var k := if n > avail then avail else n;
      ShiftLeft(k);
      cur := cur.(pendingWrap := false);
    }

    method ShiftLeft(k: nat)
      requires GridsOk() && DamageOk() && cur.row < rows && cur.col + k <= cols
      modifies `grids, `dirty
      ensures GridsOk() && DamageOk() && dirty == old(dirty) + {cur.row}
      ensures grids ==
        WithRow(old(grids), active, cur.row, Deleted(old(grids)[active][cur.row], cur.col, k, BlankCell()))
    {
      var line := Visible()[cur.row];
      var moved := line[..cur.col] + line[cur.col + k..] + line[cols - k..];
      MovedLeft(line, cur.col, k, BlankCell());
      WithRowTwice(grids, active, cur.row, moved, Deleted(line, cur.col, k, BlankCell()));
      MarkRow(cur.row);
      WriteRow(cur.row, moved);
      ClearRow(cur.row, cols - k, cols);
    }

    /** vt_screen_erase_chars */
    method EraseChars(n: int)
      requires Valid() && n > 0
      modifies `grids, `dirty, `lastValid, `cur
      ensures Valid() && !lastValid && cur == old(cur).(pendingWrap := false)
      ensures grids == WithRow(old(grids), active, cur.row,
        Filled(old(grids)[active][cur.row], cur.col, cur.col + n, BlankCell()))
      ensures old(dirty) <= dirty
    {
      lastValid := false;
      var end := if cur.col + n > cols then cols else cur.col + n;
      ClearRow(cur.row, cur.col, end);
      cur := cur.(pendingWrap := false);
      assert Filled(old(grids)[active][cur.row], cur.col, end, BlankCell()) ==
        Filled(old(grids)[active][cur.row], cur.col, cur.col + n, BlankCell());
    }

    // ---- printing ----

    /** attach_combining: one mark a cell, only on the cell written last. */
    method AttachCombining(cp: nat)
      requires Valid() && cp >= 0x300 && !Surrogate(cp)
      modifies `grids, `dirty
      ensures Valid()
      ensures !old(Attaches(cp)) ==> grids == old(grids) && dirty == old(dirty)
      ensures old(Attaches(cp)) ==> Marked(old(grids), cp)
      ensures old(dirty) <= dirty
    {
      if !lastValid || cp > 0xFFFF {
        return;
      }
      var line := Visible()[lastRow];
      if line[lastCol].cp == 0 || line[lastCol].comb != 0 {
        return;
      }
      WriteRow(lastRow, line[lastCol := line[lastCol].(comb := cp)]);
      MarkRow(lastRow);
    }

    /** The grids are as before but for a mark on the cell written last. */
    ghost predicate Marked(before: seq<Grid>, cp: nat)
      requires Markable(cp) && BothShaped(before, rows, cols) && active < 2
      reads this
    {
      lastRow < rows && lastCol < cols &&
      var line := before[active][lastRow];
      grids == WithRow(before, active, lastRow, line[lastCol := line[lastCol].(comb := cp)])
    }

    /** A mark arriving now would be put on the cell written last. */
    predicate Attaches(cp: nat)
      requires Valid()
      reads this
    {
      lastValid && cp <= 0xFFFF && Visible()[lastRow][lastCol].cp != 0 && Visible()[lastRow][lastCol].comb == 0
    }

    method WrapLine()
      requires Valid()
      modifies `grids, `dirty, `lastValid, `scrolled, `cur
      ensures Valid() && Now() == WrapOf(old(Now()), Conf()) && grids == old(grids)[active := Now().grid]
      ensures old(dirty) <= dirty && !lastValid
    {
      CarriageReturn();
      Newline();
    }

    /** The wrap held back at the right margin, then the room a wide character needs; a one-column grid without
        autowrap has none. */
    method MakeRoom(w: nat) returns (fits: bool)
      requires Valid() && 1 <= w <= 2
      modifies `grids, `dirty, `lastValid, `scrolled, `cur
      ensures Valid() && (fits <==> !(w == 2 && cols == 1 && !modes.autowrap)) &&
        (!fits ==> lastValid == old(lastValid))
      ensures Now() == RoomOf(old(Now()), Conf(), w) && grids == old(grids)[active := Now().grid]
      ensures old(dirty) <= dirty
    {
      if cur.pendingWrap && modes.autowrap {
        WrapLine();
      }
      fits := true;
      if w == 2 {
        ghost var before := grids;
        fits := MakeWide();
        ActiveTwice(old(grids), active, before[active], grids[active]);
      }
    }

    method ClearAndWrap()
      requires Valid()
      modifies `grids, `dirty, `lastValid, `scrolled, `cur
      ensures Valid() && Now() == WrapOf(TailCleared(old(Now()), Conf()), Conf()) &&
        grids == old(grids)[active := Now().grid]
      ensures old(dirty) <= dirty
    {
      ClearRow(cur.row, cur.col, cols);
      ghost var before := grids;
      WrapLine();
      ActiveTwice(old(grids), active, before[active], grids[active]);
    }

    method MakeWide() returns (fits: bool)
      requires Valid()
      modifies `grids, `dirty, `lastValid, `scrolled, `cur
      ensures Valid() && (fits <==> !(cols == 1 && !modes.autowrap)) && (!fits ==> lastValid == old(lastValid))
      ensures Now() == WideOf(old(Now()), Conf()) && grids == old(grids)[active := Now().grid]
      ensures old(dirty) <= dirty
    {
      fits := true;
      if cur.col + 1 >= cols {
        if modes.autowrap {
          ClearAndWrap();
        } else {
          fits := StepBack();
        }
      }
    }

    /** Without autowrap a wide character goes one column back, if there is one. */
    method StepBack() returns (fits: bool)
      requires Valid() && cur.col + 1 >= cols
      modifies `cur
      ensures Valid() && fits == (cols >= 2) && cur == (if fits then old(cur).(col := cols - 2) else old(cur))
    {
      fits := cols >= 2;
      if fits {
        cur := cur.(col := cols - 2);
      }
    }

    /** One cell of the cursor's row overwritten. */
    method WriteCell(col: nat, c: Cell)
      requires GridsOk() && DamageOk() && cur.row < rows && col < cols
      modifies `grids, `dirty
      ensures GridsOk() && DamageOk() && dirty == old(dirty) + {cur.row}
      ensures grids == WithRow(old(grids), active, cur.row, Overwritten(old(grids)[active][cur.row], col, c))
    {
      ghost var a := Unsplit(Visible()[cur.row], col);
      WithRowTwice(grids, active, cur.row, a, a[col := c]);
      UnsplitWide(cur.row, col);
      WriteRow(cur.row, Visible()[cur.row][col := c]);
    }

    /** The cells of one character, from the cursor on. */
    method WriteChar(cp: nat, w: nat)
      requires Valid() && Printable(cp)
      modifies `grids, `dirty
      ensures Valid() && dirty == old(dirty) + {cur.row}
      ensures grids ==
        WithRow(old(grids), active, cur.row, Written(old(grids)[active][cur.row], cur.col, cp, cur.pen, w))
    {
      WriteCell(cur.col, Lead(cp, cur.pen, w));
      if w == 2 && cur.col + 1 < cols {
        ghost var a := Visible()[cur.row];
        WithRowTwice(old(grids), active, cur.row, a, Overwritten(a, cur.col + 1, Spacer(cur.pen)));
        WriteCell(cur.col + 1, Spacer(cur.pen));
      }
    }

    /** vt_screen_put from the point where the place is known: overwrite, remember the base, advance. */
    method PutHere(cp: nat, w: nat)
      requires Valid() && 1 <= w <= 2 && Printable(cp)
      modifies `grids, `dirty, `lastRow, `lastCol, `lastValid, `cur
      ensures Valid() && lastValid && lastRow == old(cur).row && lastCol == old(cur).col
      ensures dirty == old(dirty) + {old(cur).row}
      ensures Now() == GlyphPut(old(Now()), Conf(), cp, w) && grids == old(grids)[active := Now().grid]
    {
      WriteChar(cp, w);
      Advance(w);
    }

    /** The base is remembered before the cursor advances. */
    method Advance(w: nat)
      requires Valid()
      modifies `lastRow, `lastCol, `lastValid, `cur
      ensures Valid() && lastValid && lastRow == old(cur).row && lastCol == old(cur).col &&
        cur == Advanced(old(cur), w, cols)
    {
      lastRow, lastCol, lastValid := cur.row, cur.col, true;
      if cur.col + w - 1 >= cols - 1 {
        cur := cur.(col := cols - 1, pendingWrap := true);
      } else {
        cur := cur.(col := cur.col + w);
      }
    }

    /** The cell written last is the one the cursor was on. */
    ghost predicate AtLast(c: Cursor)
      reads this
    {
      lastRow == c.row && lastCol == c.col
    }

    /** vt_screen_put */
    method Put(cp: nat, w: nat)
      requires Valid() && w <= 2 && (w > 0 ==> Printable(cp)) && !Surrogate(cp)
      modifies `grids, `dirty, `lastRow, `lastCol, `lastValid, `scrolled, `cur
      ensures Valid() && cur.pen == old(cur).pen && grids == old(grids)[active := Now().grid]
      ensures w == 0 ==> cur == old(cur) && scrolled == old(scrolled)
      ensures w == 0 && !combining(cp) ==> grids == old(grids) && dirty == old(dirty)
      ensures w > 0 ==> Now() == PutOf(old(Now()), Conf(), cp, w)
      ensures w == 0 || (w == 2 && cols == 1 && !modes.autowrap) ==>
        lastValid == old(lastValid) && lastRow == old(lastRow) && lastCol == old(lastCol)
      ensures w > 0 && !(w == 2 && cols == 1 && !modes.autowrap) ==>
        lastValid && AtLast(RoomOf(old(Now()), Conf(), w).cur)
      ensures old(dirty) <= dirty
      ensures w == 0 && combining(cp) && !old(Attaches(cp)) ==> grids == old(grids) && dirty == old(dirty)
      ensures w == 0 && combining(cp) && old(Attaches(cp)) ==> Marked(old(grids), cp)
    {
      if w == 0 {
        if combining(cp) {
          AttachCombining(cp);
        }
        return;
      }
      PutGlyph(cp, w);
    }

    /** vt_screen_put of a character that takes a cell or two */
    method PutGlyph(cp: nat, w: nat)
      requires Valid() && 1 <= w <= 2 && Printable(cp)
      modifies `grids, `dirty, `lastRow, `lastCol, `lastValid, `scrolled, `cur
      ensures Valid() && Now() == PutOf(old(Now()), Conf(), cp, w) && grids == old(grids)[active := Now().grid]
      ensures old(dirty) <= dirty
      ensures if w == 2 && cols == 1 && !modes.autowrap
        then lastValid == old(lastValid) && lastRow == old(lastRow) && lastCol == old(lastCol)
        else lastValid && AtLast(RoomOf(old(Now()), Conf(), w).cur)
    {
      var fits := MakeRoom(w);
      if !fits {
        return;
      }
      ghost var before := grids;
      PutInserting(cp, w);
      ActiveTwice(old(grids), active, before[active], grids[active]);
    }

    method PutInserting(cp: nat, w: nat)
      requires Valid() && 1 <= w <= 2 && Printable(cp)
      modifies `grids, `dirty, `lastRow, `lastCol, `lastValid, `cur
      ensures Valid() && lastValid && AtLast(old(cur))
      ensures Now() == GlyphPut(InsertOf(old(Now()), Conf(), w), Conf(), cp, w) &&
        grids == old(grids)[active := Now().grid]
      ensures old(dirty) <= dirty
    {
      ghost var before := grids;
      if modes.insert {
        InsertChars(w);
        before := grids;
      }
      PutHere(cp, w);
      ActiveTwice(old(grids), active, before[active], grids[active]);
    }

    // ---- regions, alternate screen, reset ----

    /** vt_screen_set_scroll_region, 1-based; 0 is the default, an empty or one-row region is ignored. */
    method SetScrollRegion(first: int, last: int)
      requires Valid()
      modifies `top, `bot, `cur, `lastValid
      ensures Valid()
      ensures var t, b := if first <= 0 then 1 else first, if last <= 0 || last > rows then rows else last;
        if t >= b then top == old(top) && bot == old(bot) && cur == old(cur) && lastValid == old(lastValid)
        else
          top == t - 1 && bot == b - 1 && cur == MovedTo(old(cur), rows, cols, modes.origin, t - 1, b - 1, 0, 0) &&
          !lastValid
    {
      var t := if first <= 0 then 1 else first;
      var b := if last <= 0 || last > rows then rows else last;
      if t >= b {
        return;
      }
      top, bot := t - 1, b - 1;
      MoveCursor(0, 0);
    }

    /** vt_screen_switch_alt; every caller leaves the cursor to save_cursor and restore_cursor. */
    method SwitchAlt(alt: bool, clear: bool)
      requires Valid()
      modifies `lastValid, `dirtyAll, `dirty, `active, `modes, `grids, `cur
      ensures Valid() && modes == old(modes).(altscreen := alt) && (active == 1 <==> alt)
      ensures old(modes.altscreen) == alt ==>
        grids == old(grids) && cur == old(cur) && dirty == old(dirty) && dirtyAll == old(dirtyAll) &&
        lastValid == old(lastValid)
      ensures old(modes.altscreen) != alt ==> dirtyAll && cur == old(cur).(pendingWrap := false) && !lastValid
      ensures grids == if alt && clear && !old(modes.altscreen)
        then old(grids)[1 := Blanked(old(grids)[1], 0, rows, BlankRow(cols, BlankCell()))] else old(grids)
      ensures KeepsMarks(old(dirty), old(dirtyAll))
    {
      if alt == modes.altscreen {
        return;
      }
      Flip(alt);
      if alt && clear {
        ClearRows(0, rows);
      }
    }

    method Flip(alt: bool)
      requires Valid()
      modifies `lastValid, `dirtyAll, `active, `modes, `cur
      ensures Valid() && modes == old(modes).(altscreen := alt) && (active == 1 <==> alt)
      ensures dirtyAll && cur == old(cur).(pendingWrap := false) && !lastValid
    {
      lastValid, dirtyAll := false, true;
      active := if alt then 1 else 0;
      modes := modes.(altscreen := alt);
      cur := cur.(pendingWrap := false);
    }

    /** reset_tabstops: every eighth column. */
    method ResetTabs()
      modifies `tabs
      ensures forall c :: c in tabs <==> 0 < c < cols && c % 8 == 0
    {
      tabs := {};
      var c := 8;
      while c < cols
        invariant c % 8 == 0 && c > 0
        invariant forall i :: i in tabs <==> 0 < i < cols && i < c && i % 8 == 0
        decreases cols - c
      {
        tabs := tabs + {c};
        c := c + 8;
      }
    }

    /** vt_screen_reset */
    method Reset()
      requires GridsOk() && Tables(width, combining)
      modifies `lastValid, `dirtyAll, `modes, `active, `top, `bot, `cur, `saved, `tabs, `grids
      ensures Valid() && dirtyAll && !lastValid && modes == INITIAL_MODES && cur == HOME && saved == [HOME, HOME] &&
        active == 0
      ensures top == 0 && bot == rows - 1 && grids == [EmptyGrid(rows, cols), EmptyGrid(rows, cols)]
      ensures forall c :: c in tabs <==> 0 < c < cols && c % 8 == 0
    {
      ResetTabs();
      lastValid, dirtyAll := false, true;
      BlankBoth();
      modes, top, bot := INITIAL_MODES, 0, rows - 1;
      cur, saved := HOME, [HOME, HOME];
    }

    method BlankBoth()
      requires GridsOk()
      modifies `active, `grids
      ensures GridsOk() && active == 0 && grids == [EmptyGrid(rows, cols), EmptyGrid(rows, cols)]
    {
      var cells := EmptyGrids();
      active, grids := 0, cells;
    }

    method EmptyGrids() returns (cells: seq<Grid>)
      ensures cells == [EmptyGrid(rows, cols), EmptyGrid(rows, cols)] && BothShaped(cells, rows, cols)
    {
      EmptyShape(rows, cols);
      cells := [EmptyGrid(rows, cols), EmptyGrid(rows, cols)];
    }

    /** vt_screen_align_test: a screen full of E. */
    method AlignTest()
      requires Valid()
      modifies `lastValid, `dirtyAll, `grids, `top, `bot, `cur
      ensures Valid() && dirtyAll && top == 0 && bot == rows - 1 && !lastValid
      ensures cur == MovedTo(old(cur), rows, cols, modes.origin, 0, rows - 1, 0, 0)
      ensures grids == old(grids)[active := Blanked(old(grids)[active], 0, rows, BlankRow(cols, LETTER_E))]
    {
      lastValid, dirtyAll := false, true;
      FillWithE();
      top, bot := 0, rows - 1;
      MoveCursor(0, 0);
    }

    method FillWithE()
      requires GridsOk()
      modifies `grids
      ensures GridsOk() && grids == old(grids)[active := Blanked(old(grids)[active], 0, rows, BlankRow(cols, LETTER_E))]
    {
      ghost var was := Visible();
      BlankedNone(was, 0, BlankRow(cols, LETTER_E));
      for r := 0 to rows
        invariant GridsOk()
        invariant grids == old(grids)[active := Blanked(was, 0, r, BlankRow(cols, LETTER_E))]
      {
        BlankedStep(was, 0, r, BlankRow(cols, LETTER_E));
        grids := WithRow(grids, active, r, BlankRow(cols, LETTER_E));
      }
    }

    // ---- lifecycle ----

    /** vt_new */
    constructor (height: nat, breadth: nat, width: nat -> nat, combining: nat -> bool)
      requires Tables(width, combining)
      ensures Valid() && dirtyAll && rows == Clamp(height, ROWS_MAX) && cols == Clamp(breadth, COLS_MAX)
      ensures this.width == width && this.combining == combining && scrolled == []
      ensures cur == HOME && active == 0 && grids == [EmptyGrid(rows, cols), EmptyGrid(rows, cols)]
    {
      this.width, this.combining := width, combining;
      var r, c := Clamp(height, ROWS_MAX), Clamp(breadth, COLS_MAX);
      rows, cols := r, c;
      grids := [EmptyGrid(r, c), EmptyGrid(r, c)];
      active, lastValid, lastRow, lastCol := 0, false, 0, 0;
      dirty, dirtyAll, scrolled, shadow := {}, false, [], [];
      new;
      Reset();
    }

    method Reshape(r: nat, c: nat)
      requires Valid() && 1 <= r <= ROWS_MAX && 1 <= c <= COLS_MAX
      modifies `rows, `cols, `grids, `top, `bot, `cur, `saved, `lastValid, `dirtyAll
      ensures Valid() && rows == r && cols == c && dirtyAll && top == 0 && bot == r - 1 && !lastValid
      ensures grids == [Resized(old(grids)[0], rows, cols), Resized(old(grids)[1], rows, cols)]
      ensures cur == Confined(old(cur), rows, cols).(pendingWrap := false)
      ensures saved == [Confined(old(saved)[0], rows, cols), Confined(old(saved)[1], rows, cols)]
    {
      lastValid, dirtyAll := false, true;
      ReshapeGrids(r, c);
      cur := Confined(cur, r, c).(pendingWrap := false);
      saved := [Confined(saved[0], r, c), Confined(saved[1], r, c)];
    }

    method ReshapeGrids(r: nat, c: nat)
      requires GridsOk() && 1 <= r <= ROWS_MAX && 1 <= c <= COLS_MAX
      modifies `rows, `cols, `grids, `top, `bot
      ensures GridsOk() && rows == r && cols == c && top == 0 && bot == r - 1
      ensures grids == [Resized(old(grids)[0], r, c), Resized(old(grids)[1], r, c)]
    {
      var cells := ResizeGrids(r, c);
      rows, cols, top, bot, grids := r, c, 0, r - 1, cells;
    }

    method ResizeGrids(r: nat, c: nat) returns (cells: seq<Grid>)
      requires |grids| == 2
      ensures cells == [Resized(grids[0], r, c), Resized(grids[1], r, c)] && BothShaped(cells, r, c)
    {
      ResizedShape(grids[0], r, c);
      ResizedShape(grids[1], r, c);
      cells := [Resized(grids[0], r, c), Resized(grids[1], r, c)];
    }

    /** vt_resize: both grids keep the overlap, top left. */
    method Resize(height: nat, breadth: nat)
      requires Valid()
      modifies `rows, `cols, `grids, `top, `bot, `cur, `saved, `lastValid, `dirtyAll, `tabs
      ensures Valid() && rows == Clamp(height, ROWS_MAX) && cols == Clamp(breadth, COLS_MAX)
      ensures rows == old(rows) && cols == old(cols) ==>
        grids == old(grids) && cur == old(cur) && saved == old(saved) && dirtyAll == old(dirtyAll)
      ensures rows != old(rows) || cols != old(cols) ==>
        && dirtyAll && top == 0 && bot == rows - 1 && !lastValid
        && grids == [Resized(old(grids)[0], rows, cols), Resized(old(grids)[1], rows, cols)]
        && cur == Confined(old(cur), rows, cols).(pendingWrap := false)
        && saved == [Confined(old(saved)[0], rows, cols), Confined(old(saved)[1], rows, cols)]
    {
      var r, c := Clamp(height, ROWS_MAX), Clamp(breadth, COLS_MAX);
      if r == rows && c == cols {
        return;
      }
      Reshape(r, c);
      ResetTabs();
    }

    // ---- damage ----

    /** vt_row_dirty: a row not reported holds what it held when damage was last cleared. */
    predicate RowDirty(row: nat)
      reads this
    {
      row < rows && (dirtyAll || row in dirty)
    }

    /** vt_any_dirty */
    predicate AnyDirty()
      reads this
    {
      dirtyAll || dirty != {}
    }

    /** vt_damage_clear */
    method DamageClear()
      requires Valid()
      modifies `dirty, `dirtyAll, `shadow
      ensures Valid() && shadow == Visible() && dirty == {} && !dirtyAll
    {
      dirtyAll, dirty := false, {};
      shadow := Visible();
    }
  }

  /** A grid erased from (row, col) on, up to and with it, or as a whole. */
  function Erased(g: Grid, mode: nat, row: nat, col: nat, cols: nat, c: Cell): (h: Grid)
    requires row < |g|
    ensures |h| == |g| && (Shaped(g, |g|, cols) ==> Shaped(h, |g|, cols))
  {
    seq(|g|, r requires 0 <= r < |g| => ErasedRow(g[r], r - row, mode, col, cols, c))
  }

  /** The row that is d below the cursor's. */
  function ErasedRow(line: Row, d: int, mode: nat, col: nat, cols: nat, c: Cell): (s: Row)
    ensures |line| == cols ==> |s| == cols
  {
    if mode >= 2 || (mode == 0 && d > 0) || (mode == 1 && d < 0) then BlankRow(cols, c)
    else if d == 0 then Filled(line, if mode == 0 then col else 0, if mode == 0 then cols else col + 1, c)
    else line
  }

  lemma ErasedBelow(g: Grid, row: nat, col: nat, cols: nat, c: Cell)
    requires row < |g|
    ensures Erased(g, 0, row, col, cols, c) ==
      Blanked(g[row := Filled(g[row], col, cols, c)], row + 1, |g|, BlankRow(cols, c))
  {
  }

  lemma ErasedAbove(g: Grid, row: nat, col: nat, cols: nat, c: Cell)
    requires row < |g|
    ensures Erased(g, 1, row, col, cols, c) ==
      Blanked(g, 0, row, BlankRow(cols, c))[row := Filled(Blanked(g, 0, row, BlankRow(cols, c))[row], 0, col + 1, c)]
  {
  }

  lemma ErasedAll(g: Grid, mode: nat, row: nat, col: nat, cols: nat, c: Cell)
    requires row < |g| && mode >= 2
    ensures Erased(g, mode, row, col, cols, c) == Blanked(g, 0, |g|, BlankRow(cols, c))
  {
  }

  lemma WithRowTwice(grids: seq<Grid>, active: nat, row: nat, a: Row, b: Row)
    requires active < |grids| && row < |grids[active]|
    ensures WithRow(WithRow(grids, active, row, a), active, row, b) == WithRow(grids, active, row, b)
    ensures WithRow(grids, active, row, a)[active][row] == a
  {
    var h := grids[active][row := a];
    assert h[row := b] == grids[active][row := b];
    assert WithRow(grids, active, row, a)[active] == h;
  }

  /** Replacing the active grid twice is replacing it once. */
  lemma ActiveTwice(grids: seq<Grid>, active: nat, g: Grid, h: Grid)
    requires active < |grids|
    ensures grids[active := g][active := h] == grids[active := h] && grids[active := g][active] == g
  {
  }

  lemma MovedRight(line: Row, col: nat, k: nat, c: Cell)
    requires col + k <= |line|
    ensures Filled(line[..col + k] + line[col..|line| - k], col, col + k, c) == Inserted(line, col, k, c)
  {
  }

  lemma MovedLeft(line: Row, col: nat, k: nat, c: Cell)
    requires col + k <= |line|
    ensures Filled(line[..col] + line[col + k..] + line[|line| - k..], |line| - k, |line|, c) ==
      Deleted(line, col, k, c)
  {
  }

  /** The row copies of scroll_region_up, top to bottom. */
  method MoveUp(g: Grid, lo: nat, hi: nat, k: nat) returns (h: Grid)
    requires lo <= hi < |g| && 1 <= k <= hi - lo + 1
    ensures |h| == |g| && forall i :: 0 <= i < |g| ==> h[i] == g[RowAbove(i, lo, hi, k)]
  {
    h := g;
    var r := lo;
    while r + k <= hi
      invariant lo <= r && r + k <= hi + 1 && |h| == |g|
      invariant forall i :: 0 <= i < |g| ==> h[i] == g[if i < r then RowAbove(i, lo, hi, k) else i]
    {
      h := h[r := h[r + k]];
      r := r + 1;
    }
  }

  /** The row copies of scroll_region_down, bottom to top. */
  method MoveDown(g: Grid, lo: nat, hi: nat, k: nat) returns (h: Grid)
    requires lo <= hi < |g| && 1 <= k <= hi - lo + 1
    ensures |h| == |g| && forall i :: 0 <= i < |g| ==> h[i] == g[RowBelow(i, lo, hi, k)]
  {
    h := g;
    var r: int := hi;
    while r - k >= lo
      invariant lo + k - 1 <= r <= hi && |h| == |g|
      invariant forall i :: 0 <= i < |g| ==> h[i] == g[if r < i then RowBelow(i, lo, hi, k) else i]
    {
      h := h[r := h[r - k]];
      r := r - 1;
    }
  }

  function Emptied(c: Cell): Cell {
    c.(cp := 0, style := {}, wide := false, spacer := false, comb := 0)
  }

  /** A row in which the other half of the character at col, if it is half of a wide one, is blanked. */
  function Unsplit(line: Row, col: nat): (s: Row)
    requires col < |line|
    ensures |s| == |line|
  {
    var a := if line[col].spacer && col > 0 && line[col - 1].wide then line[col - 1 := Emptied(line[col - 1])]
      else line;
    if a[col].wide && col + 1 < |a| && a[col + 1].spacer then a[col + 1 := Emptied(a[col + 1])] else a
  }

  // ---- one character in a row ----

  const LETTER_E: Cell := Cell(0x45, DEFAULT_COLOR, DEFAULT_COLOR, {}, false, false, 0)

  function EmptyGrid(rows: nat, cols: nat): Grid {
    seq(rows, r => BlankRow(cols, EMPTY))
  }

  lemma EmptyShape(rows: nat, cols: nat)
    ensures BothShaped([EmptyGrid(rows, cols), EmptyGrid(rows, cols)], rows, cols)
  {
  }

  function Confined(c: Cursor, rows: nat, cols: nat): (d: Cursor)
    requires rows >= 1 && cols >= 1
  {
    c.(row := if c.row >= rows then rows - 1 else c.row, col := if c.col >= cols then cols - 1 else c.col)
  }

  function Lead(cp: nat, pen: Pen, w: nat): Cell
    requires Printable(cp)
  {
    Cell(cp, pen.fg, pen.bg, pen.style, w == 2, false, 0)
  }

  function Spacer(pen: Pen): Cell {
    Cell(0, pen.fg, pen.bg, {}, false, true, 0)
  }

  function Advanced(c: Cursor, w: nat, cols: nat): Cursor
    requires cols >= 1
  {
    if c.col + w > cols - 1 then c.(col := cols - 1, pendingWrap := true) else c.(col := c.col + w)
  }

  function Overwritten(line: Row, col: nat, c: Cell): (s: Row)
    requires col < |line|
    ensures |s| == |line|
  {
    Unsplit(line, col)[col := c]
  }

  lemma ResizedShape(g: Grid, rows: nat, cols: nat)
    ensures Shaped(Resized(g, rows, cols), rows, cols)
  {
  }

  /** A grid keeps what fits another size and is empty elsewhere; grown and shrunk back it is the same. A cursor stays
      where it is or comes to the nearest row and column there are. */
  lemma ResizedKeeps(g: Grid, rows: nat, cols: nat, tall: nat, broad: nat, cur: Cursor)
    requires Shaped(g, rows, cols) && rows <= tall && cols <= broad && 1 <= rows && 1 <= cols
    ensures Resized(Resized(g, tall, broad), rows, cols) == g
    ensures forall r, c :: 0 <= r < tall && 0 <= c < broad && (r >= rows || c >= cols) ==>
      Resized(g, tall, broad)[r][c] == Cell(0, DEFAULT_COLOR, DEFAULT_COLOR, {}, false, false, 0)
    ensures forall n, k :: 0 <= n < rows && 0 <= k < cols ==> Resized(g, rows, cols)[n][k] == g[n][k]
    ensures Confined(cur, rows, cols) == cur.(row := Min(cur.row, rows - 1), col := Min(cur.col, cols - 1))
  {
    var big := Resized(g, tall, broad);
    ResizedShape(g, tall, broad);
    forall r | 0 <= r < rows
      ensures Resized(big, rows, cols)[r] == g[r]
    {
    }
  }

  /** A character written over one half of a wide one leaves the other half empty, in the colors it had. */
  lemma OtherHalfEmpty(line: Row, col: nat, cp: nat, pen: Pen)
    requires col < |line| && Printable(cp)
    ensures line[col].spacer && col > 0 && line[col - 1].wide ==>
      Written(line, col, cp, pen, 1)[col - 1] == Cell(0, line[col - 1].fg, line[col - 1].bg, {}, false, false, 0)
    ensures line[col].wide && col + 1 < |line| && line[col + 1].spacer ==>
      Written(line, col, cp, pen, 1)[col + 1] == Cell(0, line[col + 1].fg, line[col + 1].bg, {}, false, false, 0)
  {
  }

  /** A row after a character of width w is written at col. */
  function Written(line: Row, col: nat, cp: nat, pen: Pen, w: nat): (s: Row)
    requires col < |line| && Printable(cp)
    ensures |s| == |line|
  {
    var a := Overwritten(line, col, Lead(cp, pen, w));
    if w == 2 && col + 1 < |line| then Overwritten(a, col + 1, Spacer(pen)) else a
  }

  /** A narrow character is there afterwards, and a wide one exactly if the next cell was not an orphaned right half:
      there, blanking the halves of what the second column held takes the new left half for its partner. */
  lemma WrittenShows(line: Row, col: nat, cp: nat, pen: Pen, w: nat)
    requires col < |line| && Printable(cp) && 1 <= w <= 2
    ensures Written(line, col, cp, pen, w)[col] == Lead(cp, pen, w) <==>
      !(w == 2 && col + 1 < |line| && line[col + 1].spacer && !line[col].wide)
    ensures forall i :: 0 <= i < |line| && !(col - 1 <= i < col + w + 1) ==>
      Written(line, col, cp, pen, w)[i] == line[i]
  {
  }

  /** Such a row comes about in three steps: print a wide character, erase its left half, print another in its place. */
  lemma OverprintVanishes(line: Row, cp: nat)
    requires line == Filled(Written(BlankRow(3, EMPTY), 0, 0x4E00, PLAIN, 2), 0, 1, Blank(DEFAULT_COLOR))
    requires Printable(cp)
    ensures line[1].spacer && Written(line, 0, cp, PLAIN, 2)[0].cp == 0
  {
    WrittenShows(line, 0, cp, PLAIN, 2);
  }

  // ---- printing as a whole ----

  /** What printing changes: the visible grid, the cursor, and the lines handed to the scrollback. */
  datatype Sheet = Sheet(grid: Grid, cur: Cursor, out: seq<Row>)

  /** What it depends on besides. */
  datatype Setup = Setup(cols: nat, top: nat, bot: nat, primary: bool, autowrap: bool, insert: bool)

  /** The cursor may have moved; all else it carries is the same. */
  ghost predicate Carried(c: Cursor, d: Cursor) {
    d == c.(row := d.row, col := d.col, pendingWrap := d.pendingWrap)
  }

  ghost predicate SheetOk(s: Sheet, u: Setup) {
    u.cols >= 1 && u.top <= u.bot < |s.grid| && Shaped(s.grid, |s.grid|, u.cols) && s.cur.row < |s.grid| &&
      s.cur.col < u.cols
  }

  /** Down a row, or the region up by one at its last row; a line that leaves the top of the primary screen is handed
      out. */
  ghost function NewlineOf(s: Sheet, u: Setup): (t: Sheet)
    requires SheetOk(s, u)
    ensures SheetOk(t, u) && |t.grid| == |s.grid| && Carried(s.cur, t.cur)
  {
    var c := s.cur.(pendingWrap := false);
    if c.row == u.bot then
      Sheet(ScrolledUp(s.grid, u.top, u.bot, 1, BlankRow(u.cols, Blank(c.pen.bg))), c,
        s.out + if u.primary && u.top == 0 then s.grid[..1] else [])
    else if c.row + 1 < |s.grid| then s.(cur := c.(row := c.row + 1))
    else s.(cur := c)
  }

  /** Up a row, or the region down by one at its first row. */
  ghost function ReverseOf(s: Sheet, u: Setup): (t: Sheet)
    requires SheetOk(s, u)
    ensures SheetOk(t, u) && |t.grid| == |s.grid| && Carried(s.cur, t.cur)
  {
    var c := s.cur.(pendingWrap := false);
    if c.row == u.top then
      s.(grid := ScrolledDown(s.grid, u.top, u.bot, 1, BlankRow(u.cols, Blank(c.pen.bg))), cur := c)
    else s.(cur := c.(row := if c.row > 0 then c.row - 1 else 0))
  }

  ghost function WrapOf(s: Sheet, u: Setup): (t: Sheet)
    requires SheetOk(s, u)
    ensures SheetOk(t, u) && |t.grid| == |s.grid| && Carried(s.cur, t.cur)
  {
    NewlineOf(s.(cur := s.cur.(col := 0, pendingWrap := false)), u)
  }

  /** The rest of the cursor's row blank. */
  ghost function TailCleared(s: Sheet, u: Setup): (t: Sheet)
    requires SheetOk(s, u)
    ensures SheetOk(t, u) && |t.grid| == |s.grid| && t.cur == s.cur
  {
    s.(grid := s.grid[s.cur.row := Filled(s.grid[s.cur.row], s.cur.col, u.cols, Blank(s.cur.pen.bg))])
  }

  /** A wide character at the last column goes to the next line, or one column back without autowrap. */
  ghost function WideOf(s: Sheet, u: Setup): (t: Sheet)
    requires SheetOk(s, u)
    ensures SheetOk(t, u) && |t.grid| == |s.grid| && Carried(s.cur, t.cur)
  {
    if s.cur.col + 1 < u.cols then s
    else if u.autowrap then WrapOf(TailCleared(s, u), u)
    else if u.cols >= 2 then s.(cur := s.cur.(col := u.cols - 2))
    else s
  }

  /** Where a character of width w will be put. */
  ghost function RoomOf(s: Sheet, u: Setup, w: nat): (t: Sheet)
    requires SheetOk(s, u)
    ensures SheetOk(t, u) && |t.grid| == |s.grid| && Carried(s.cur, t.cur)
  {
    var a := if s.cur.pendingWrap && u.autowrap then WrapOf(s, u) else s;
    if w == 2 then WideOf(a, u) else a
  }

  /** Room made in the row, in insert mode. */
  ghost function InsertOf(s: Sheet, u: Setup, w: nat): (t: Sheet)
    requires SheetOk(s, u)
    ensures SheetOk(t, u) && |t.grid| == |s.grid| && Carried(s.cur, t.cur)
  {
    if !u.insert then s
    else s.(
      grid := s.grid[s.cur.row :=
        Inserted(s.grid[s.cur.row], s.cur.col, Min(w, u.cols - s.cur.col), Blank(s.cur.pen.bg))],
      cur := s.cur.(pendingWrap := false))
  }

  /** The character itself. */
  ghost function GlyphPut(s: Sheet, u: Setup, cp: nat, w: nat): (t: Sheet)
    requires SheetOk(s, u) && Printable(cp)
    ensures SheetOk(t, u) && |t.grid| == |s.grid| && Carried(s.cur, t.cur)
  {
    s.(grid := s.grid[s.cur.row := Written(s.grid[s.cur.row], s.cur.col, cp, s.cur.pen, w)],
      cur := Advanced(s.cur, w, u.cols))
  }

  /** vt_screen_put of a character of width 1 or 2; a one-column grid without autowrap takes no wide one. */
  ghost function PutOf(s: Sheet, u: Setup, cp: nat, w: nat): (t: Sheet)
    requires SheetOk(s, u) && Printable(cp)
    ensures SheetOk(t, u) && |t.grid| == |s.grid| && Carried(s.cur, t.cur)
  {
    if w == 2 && u.cols == 1 && !u.autowrap then s else GlyphPut(InsertOf(RoomOf(s, u, w), u, w), u, cp, w)
  }

  /** Narrow characters printed one after the other. */
  ghost function TypeOf(s: Sheet, u: Setup, cps: seq<nat>): (t: Sheet)
    requires SheetOk(s, u) && forall i :: 0 <= i < |cps| ==> Printable(cps[i])
    ensures SheetOk(t, u) && |t.grid| == |s.grid| && Carried(s.cur, t.cur)
  {
    if |cps| == 0 then s else PutOf(TypeOf(s, u, cps[..|cps| - 1]), u, cps[|cps| - 1], 1)
  }

  /** The text stands in the cursor's row from the cursor's old place on; nothing else but that row has changed. */
  ghost predicate Typed(s: Sheet, t: Sheet, cps: seq<nat>)
    requires s.cur.row < |s.grid| && forall i :: 0 <= i < |cps| ==> Printable(cps[i])
  {
    && t.cur.row == s.cur.row && t.out == s.out && |t.grid| == |s.grid|
    && (forall r :: 0 <= r < |s.grid| && r != s.cur.row ==> t.grid[r] == s.grid[r])
    && s.cur.col + |cps| <= |t.grid[s.cur.row]|
    && (forall i :: 0 <= i < |cps| ==> t.grid[s.cur.row][s.cur.col + i] == Lead(cps[i], s.cur.pen, 1))
  }

  lemma NarrowKeeps(line: Row, col: nat, cp: nat, pen: Pen, i: nat)
    requires col < |line| && Printable(cp) && i < col && !line[i].wide
    ensures Written(line, col, cp, pen, 1)[i] == line[i]
  {
  }

  /** With room and no insert mode a narrow character goes exactly where the cursor is. */
  lemma PutStraight(s: Sheet, u: Setup, cp: nat)
    requires SheetOk(s, u) && Printable(cp) && !u.insert && !(s.cur.pendingWrap && u.autowrap)
    ensures PutOf(s, u, cp, 1) == GlyphPut(s, u, cp, 1)
  {
  }

  /** Where the cursor is after text that fits: behind it, or held at the last column. */
  ghost predicate Behind(s: Sheet, t: Sheet, u: Setup, n: nat)
    requires u.cols >= 1
  {
    t.cur == if s.cur.col + n < u.cols then s.cur.(col := s.cur.col + n) else if n == 0 then s.cur
      else s.cur.(col := u.cols - 1, pendingWrap := true)
  }

  lemma {:induction false} TypeStep(s: Sheet, u: Setup, cps: seq<nat>)
    requires SheetOk(s, u) && (forall i :: 0 <= i < |cps| ==> Printable(cps[i])) && |cps| > 0 && !u.insert
    requires !(TypeOf(s, u, cps[..|cps| - 1]).cur.pendingWrap && u.autowrap)
    ensures TypeOf(s, u, cps) == GlyphPut(TypeOf(s, u, cps[..|cps| - 1]), u, cps[|cps| - 1], 1)
  {
    PutStraight(TypeOf(s, u, cps[..|cps| - 1]), u, cps[|cps| - 1]);
  }

  /** Text that fits the rest of the row is there to read after it is printed, whatever the row held before. */
  lemma {:induction false} TextShows(s: Sheet, u: Setup, cps: seq<nat>)
    requires SheetOk(s, u) && (forall i :: 0 <= i < |cps| ==> Printable(cps[i]))
    requires !u.insert && !(s.cur.pendingWrap && u.autowrap) && s.cur.col + |cps| <= u.cols
    ensures Typed(s, TypeOf(s, u, cps), cps) && Behind(s, TypeOf(s, u, cps), u, |cps|)
  {
    if |cps| > 0 {
      TextShows(s, u, cps[..|cps| - 1]);
      TypeStep(s, u, cps);
      TypedOne(s, TypeOf(s, u, cps[..|cps| - 1]), u, cps);
    }
  }

  lemma TypedOne(s: Sheet, m: Sheet, u: Setup, cps: seq<nat>)
    requires SheetOk(s, u) && SheetOk(m, u) && |cps| > 0 && (forall i :: 0 <= i < |cps| ==> Printable(cps[i]))
    requires s.cur.col + |cps| <= u.cols && Typed(s, m, cps[..|cps| - 1]) && Behind(s, m, u, |cps| - 1)
    ensures Typed(s, GlyphPut(m, u, cps[|cps| - 1], 1), cps) && Behind(s, GlyphPut(m, u, cps[|cps| - 1], 1), u, |cps|)
  {
    var n := |cps| - 1;
    var t := GlyphPut(m, u, cps[n], 1);
    var line := m.grid[s.cur.row];
    forall i | 0 <= i < |cps|
      ensures t.grid[s.cur.row][s.cur.col + i] == Lead(cps[i], s.cur.pen, 1)
    {
      if i < n {
        assert line[s.cur.col + i] == Lead(cps[..n][i], s.cur.pen, 1);
        NarrowKeeps(line, s.cur.col + n, cps[n], s.cur.pen, s.cur.col + i);
      }
    }
  }
}
