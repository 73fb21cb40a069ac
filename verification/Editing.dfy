/** The sequences that edit the screen, from their bytes on (src/vt/vt_dispatch.c over src/vt/vt_screen.c): which cell
    shows what afterwards. */
module Editing {
  import opened Bytes
  import opened Cells
  import opened Screen
  import opened Parser
  import opened E = Engine
  import opened Sequences
  import R = Replay

  /** What an erased cell holds: the background of the pen and nothing else. */
  ghost function Wiped(e: Engine): Cell {
    Cell(0, DEFAULT_COLOR, e.cur.pen.bg, {}, false, false, 0)
  }

  /** Cells of the screen shown have changed; a held wrap is over and a combining mark finds no cell. */
  ghost predicate OnlyCells(e: Engine, f: Engine)
    requires Ok(e) && Ok(f)
  {
    f == e.(grids := e.grids[e.active := f.grids[e.active]], cur := e.cur.(pendingWrap := false), last := None)
  }

  lemma EditIs(e: Engine, c: Collected, final: byte, width: nat -> nat, combining: nat -> bool)
    requires Ok(e) && CollectedOk(c) && Tables(width, combining)
    requires Erases(final) || EditsChars(final) || EditsLines(final)
    ensures CsiPlainOf(e, c, final, width, combining) == EditOf(e, c, final)
  {
    assert Target(c, final, e.cur, if e.modes.origin then e.top else 0) == None;
  }

  lemma {:induction false} EditFed(e: Engine, p: Parser, ps: seq<nat>, final: byte, width: nat -> nat,
      combining: nat -> bool)
    requires Ok(e) && ParserOk(p) && R.Idle(p) && Tables(width, combining) && InRange(ps)
    requires Erases(final) || EditsChars(final) || EditsLines(final)
    ensures R.Idle(R.Run(p, Control(ps, final)).0)
    ensures Fed(e, p, Control(ps, final), width, combining) == EditOf(e, Given(ps, |ps|, 0), final)
  {
    ControlFed(e, p, ps, final, width, combining);
    EditIs(e, Given(ps, |ps|, 0), final, width, combining);
  }

  lemma CountIs(ps: seq<nat>, n: nat)
    requires (ps == [n] && 1 <= n <= PARAM_CEILING) || (n == 1 && (ps == [] || ps == [0]))
    ensures Count(Given(ps, |ps|, 0)) == n
  {
  }

  // ---- erasing ----

  /** The cells that ED (whole display) and EL (row) erase: from the cursor on, up to the cursor, or all. */
  predicate Covers(display: bool, mode: nat, row: nat, col: nat, r: nat, c: nat) {
    if r == row then (mode == 0 && c >= col) || (mode == 1 && c <= col) || mode == 2 || (mode == 3 && display)
    else display && ((mode == 0 && r > row) || (mode == 1 && r < row) || mode == 2 || mode == 3)
  }

  lemma PartErasedAt(g: Grid, cur: Cursor, cols: nat, blank: Cell, display: bool, mode: nat, r: nat, c: nat)
    requires cur.row < |g| && Shaped(g, |g|, cols) && r < |g| && c < cols
    ensures PartErased(g, cur, cols, blank, display, mode)[r][c] ==
      if Covers(display, mode, cur.row, cur.col, r, c) then blank else g[r][c]
  {
  }

  /** ESC [ n J and ESC [ n K erase exactly the cells they cover; without a parameter, as with 0. */
  lemma {:induction false} EraseFed(e: Engine, p: Parser, n: nat, ps: seq<nat>, display: bool, width: nat -> nat,
      combining: nat -> bool)
    requires Ok(e) && ParserOk(p) && R.Idle(p) && Tables(width, combining)
    requires (ps == [n] && n <= PARAM_CEILING) || (n == 0 && ps == [])
    ensures var f := Fed(e, p, Control(ps, if display then 0x4A else 0x4B), width, combining);
      && OnlyCells(e, f)
      && forall r, c :: 0 <= r < e.rows && 0 <= c < e.cols ==>
        f.grids[e.active][r][c] ==
          if Covers(display, n, e.cur.row, e.cur.col, r, c) then Wiped(e) else e.grids[e.active][r][c]
  {
    EditFed(e, p, ps, if display then 0x4A else 0x4B, width, combining);
    ErasedCells(e, display, n);
  }

  lemma ErasedCells(e: Engine, display: bool, n: nat)
    requires Ok(e)
    ensures var f := ErasedOf(e, display, n);
      && OnlyCells(e, f)
      && forall r, c :: 0 <= r < e.rows && 0 <= c < e.cols ==>
        f.grids[e.active][r][c] ==
          if Covers(display, n, e.cur.row, e.cur.col, r, c) then Wiped(e) else e.grids[e.active][r][c]
  {
    var g := e.grids[e.active];
    forall r, c | 0 <= r < e.rows && 0 <= c < e.cols
      ensures PartErased(g, e.cur, e.cols, Wiped(e), display, n)[r][c] ==
        if Covers(display, n, e.cur.row, e.cur.col, r, c) then Wiped(e) else g[r][c]
    {
      PartErasedAt(g, e.cur, e.cols, Wiped(e), display, n, r, c);
    }
  }

  // ---- characters ----

  /** The cell of a row after n were inserted, deleted or erased at col. */
  function CharAt(line: Row, col: nat, n: nat, final: byte, blank: Cell, c: nat): Cell
    requires c < |line|
  {
    if c < col then line[c]
    else if final == 0x40 then if c < col + n then blank else line[c - n]
    else if final == 0x50 then if c + n < |line| then line[c + n] else blank
    else if c < col + n then blank else line[c]
  }

  lemma CharsEditedAt(line: Row, col: nat, blank: Cell, n: nat, final: byte, c: nat)
    requires col < |line| && EditsChars(final) && c < |line|
    ensures |CharsEdited(line, col, blank, n, final)| == |line|
    ensures CharsEdited(line, col, blank, n, final)[c] == CharAt(line, col, n, final, blank, c)
  {
  }

  /** ESC [ n @, P and X: n blanks pushed in at the cursor, n cells pulled out, n cells erased, in the cursor's row; no
      other row changes. No parameter and 0 stand for 1. */
  lemma {:induction false} CharsFed(e: Engine, p: Parser, n: nat, ps: seq<nat>, final: byte, width: nat -> nat,
      combining: nat -> bool)
    requires Ok(e) && ParserOk(p) && R.Idle(p) && Tables(width, combining) && final in {0x40, 0x50, 0x58}
    requires (ps == [n] && 1 <= n <= PARAM_CEILING) || (n == 1 && (ps == [] || ps == [0]))
    ensures var f := Fed(e, p, Control(ps, final), width, combining);
      && OnlyCells(e, f)
      && (forall r :: 0 <= r < e.rows && r != e.cur.row ==> f.grids[e.active][r] == e.grids[e.active][r])
      && forall c :: 0 <= c < e.cols ==>
        f.grids[e.active][e.cur.row][c] ==
          CharAt(e.grids[e.active][e.cur.row], e.cur.col, n, final, Wiped(e), c)
  {
    EditFed(e, p, ps, final, width, combining);
    CountIs(ps, n);
    CharCells(e, n, final);
  }

  lemma CharCells(e: Engine, n: nat, final: byte)
    requires Ok(e) && EditsChars(final)
    ensures var f := CharsOf(e, n, final);
      && OnlyCells(e, f)
      && (forall r :: 0 <= r < e.rows && r != e.cur.row ==> f.grids[e.active][r] == e.grids[e.active][r])
      && forall c :: 0 <= c < e.cols ==>
        f.grids[e.active][e.cur.row][c] ==
          CharAt(e.grids[e.active][e.cur.row], e.cur.col, n, final, Wiped(e), c)
  {
    var line := e.grids[e.active][e.cur.row];
    forall c | 0 <= c < e.cols
      ensures |CharsEdited(line, e.cur.col, Wiped(e), n, final)| == e.cols
      ensures CharsEdited(line, e.cur.col, Wiped(e), n, final)[c] == CharAt(line, e.cur.col, n, final, Wiped(e), c)
    {
      CharsEditedAt(line, e.cur.col, Wiped(e), n, final, c);
    }
  }

  // ---- lines ----

  /** Rows lo to hi moved by n, up or down, with erased ones coming in; the others stayed. */
  ghost predicate Slid(g: Grid, h: Grid, lo: nat, hi: nat, up: bool, n: nat, blank: Cell)
    requires hi < |g|
  {
    && |h| == |g|
    && (forall r :: 0 <= r < |g| && (r < lo || hi < r) ==> h[r] == g[r])
    && (forall r :: lo <= r <= hi && up ==> h[r] == if r + n <= hi then g[r + n] else BlankRow(|g[r]|, blank))
    && (forall r :: lo <= r <= hi && !up ==> h[r] == if lo <= r - n then g[r - n] else BlankRow(|g[r]|, blank))
  }

  predicate MovesUp(final: byte) {
    final == 0x4D || final == 0x53
  }

  /** IL and DL work from the cursor's row on, SU and SD on the whole region. */
  function FirstMoved(final: byte, row: nat, top: nat): nat {
    if final == 0x4C || final == 0x4D then row else top
  }

  lemma SlidUp(g: Grid, lo: nat, hi: nat, cols: nat, blank: Cell, n: nat)
    requires lo <= hi < |g| && Shaped(g, |g|, cols)
    ensures Slid(g, ScrolledUp(g, lo, hi, Min(n, hi - lo + 1), BlankRow(cols, blank)), lo, hi, true, n, blank)
  {
  }

  lemma SlidDown(g: Grid, lo: nat, hi: nat, cols: nat, blank: Cell, n: nat)
    requires lo <= hi < |g| && Shaped(g, |g|, cols)
    ensures Slid(g, ScrolledDown(g, lo, hi, Min(n, hi - lo + 1), BlankRow(cols, blank)), lo, hi, false, n, blank)
  {
  }

  lemma LinesSlid(g: Grid, cur: Cursor, top: nat, bot: nat, cols: nat, blank: Cell, n: nat, final: byte)
    requires cur.row < |g| && top <= bot < |g| && Shaped(g, |g|, cols) && EditsLines(final)
    requires final in {0x4C, 0x4D} ==> top <= cur.row <= bot
    ensures Slid(g, LinesEdited(g, cur, top, bot, BlankRow(cols, blank), n, final), FirstMoved(final, cur.row, top),
      bot,
      MovesUp(final), n, blank)
  {
    var lo := FirstMoved(final, cur.row, top);
    SlidUp(g, lo, bot, cols, blank, n);
    SlidDown(g, lo, bot, cols, blank, n);
  }

  /** Nothing but rows of the screen shown has changed; those that left the top of the primary one were handed out. */
  ghost predicate LinesMoved(e: Engine, f: Engine, final: byte, n: nat)
    requires Ok(e) && Ok(f)
  {
    var lo := FirstMoved(final, e.cur.row, e.top);
    && f == e.(grids := e.grids[e.active := f.grids[e.active]], cur := f.cur, last := None, scrolled := f.scrolled)
    && f.cur == (if final == 0x4C || final == 0x4D then e.cur.(pendingWrap := false) else e.cur)
    && Slid(e.grids[e.active], f.grids[e.active], lo, e.bot, MovesUp(final), n, Wiped(e))
    && f.scrolled == e.scrolled + if MovesUp(final) && e.active == 0 && lo == 0
      then e.grids[0][..Min(n, e.bot + 1)] else []
  }

  lemma LinesDone(e: Engine, n: nat, final: byte)
    requires Ok(e) && EditsLines(final)
    ensures if final in {0x4C, 0x4D} && !(e.top <= e.cur.row <= e.bot) then LinesOf(e, n, final) == e
      else LinesMoved(e, LinesOf(e, n, final), final, n)
  {
    if !(final in {0x4C, 0x4D} && !(e.top <= e.cur.row <= e.bot)) {
      LinesSlid(e.grids[e.active], e.cur, e.top, e.bot, e.cols, Wiped(e), n, final);
    }
  }

  /** ESC [ n L and M insert and delete lines at the cursor, if it is in the region; S and T scroll the region up and
      down. */
  lemma {:induction false} LinesFed(e: Engine, p: Parser, n: nat, ps: seq<nat>, final: byte, width: nat -> nat,
      combining: nat -> bool)
    requires Ok(e) && ParserOk(p) && R.Idle(p) && Tables(width, combining) && final in {0x4C, 0x4D, 0x53, 0x54}
    requires (ps == [n] && 1 <= n <= PARAM_CEILING) || (n == 1 && (ps == [] || ps == [0]))
    ensures var f := Fed(e, p, Control(ps, final), width, combining);
      if final in {0x4C, 0x4D} && !(e.top <= e.cur.row <= e.bot) then f == e else LinesMoved(e, f, final, n)
  {
    EditFed(e, p, ps, final, width, combining);
    CountIs(ps, n);
    LinesDone(e, n, final);
  }

  // ---- the region ----

  lemma RegionIs(e: Engine, c: Collected, width: nat -> nat, combining: nat -> bool)
    requires Ok(e) && CollectedOk(c) && Tables(width, combining)
    ensures CsiPlainOf(e, c, 0x72, width, combining) == RegionOf(e, Param(c, 0, 0), Param(c, 1, 0))
  {
  }

  /** ESC [ t ; b r: rows t to b, counted from 1, scroll from then on and the cursor is home; a region of fewer than two
      rows, or from below the screen, is none. */
  lemma {:induction false} RegionFed(e: Engine, p: Parser, t: nat, b: nat, width: nat -> nat, combining: nat -> bool)
    requires Ok(e) && ParserOk(p) && R.Idle(p) && Tables(width, combining)
    requires 1 <= t <= PARAM_CEILING && 1 <= b <= PARAM_CEILING
    ensures Fed(e, p, Control([t, b], 0x72), width, combining) ==
      if t < Min(b, e.rows)
      then At(e.(top := t - 1, bot := Min(b, e.rows) - 1), if e.modes.origin then t - 1 else 0, 0) else e
  {
    ControlFed(e, p, [t, b], 0x72, width, combining);
    var c := Given([t, b], 2, 0);
    RegionIs(e, c, width, combining);
    assert Param(c, 0, 0) == t && Param(c, 1, 0) == b;
    RegionSet(e, t, b);
  }

  lemma RegionSet(e: Engine, t: nat, b: nat)
    requires Ok(e) && t >= 1 && b >= 1
    ensures RegionOf(e, t, b) ==
      if t < Min(b, e.rows)
      then At(e.(top := t - 1, bot := Min(b, e.rows) - 1), if e.modes.origin then t - 1 else 0, 0) else e
  {
    if t < Min(b, e.rows) {
      MovedAt(e.(top := t - 1, bot := Min(b, e.rows) - 1), 0, 0);
    }
  }

  // ---- controls ----

  lemma {:induction false} ExecuteFed(e: Engine, p: Parser, c0: byte, width: nat -> nat, combining: nat -> bool)
    requires Ok(e) && ParserOk(p) && R.Idle(p) && Tables(width, combining)
    requires c0 < 0x20 && c0 !in {0x18, 0x1A, 0x1B}
    ensures R.Idle(R.Run(p, [c0]).0) && Fed(e, p, [c0], width, combining) == Executed(e, c0)
  {
    R.RunOne(p, c0);
    FedOne(e, p, [c0], Execute(c0), width, combining);
  }

  /** CR, BS and HT move within the row. */
  lemma {:induction false} RowControls(e: Engine, p: Parser, width: nat -> nat, combining: nat -> bool)
    requires Ok(e) && ParserOk(p) && R.Idle(p) && Tables(width, combining)
    ensures Fed(e, p, [0x0D], width, combining) == At(e, e.cur.row, 0)
    ensures Fed(e, p, [0x08], width, combining) ==
      At(e, e.cur.row, if e.cur.pendingWrap || e.cur.col == 0 then e.cur.col else e.cur.col - 1)
    ensures var f := Fed(e, p, [0x09], width, combining);
      && f == At(e, e.cur.row, f.cur.col) && (f.cur.col == e.cols - 1 || f.cur.col in e.tabs)
      && f.cur.col >= Min(e.cur.col + 1, e.cols - 1) && forall c :: e.cur.col < c < f.cur.col ==> c !in e.tabs
  {
    ExecuteFed(e, p, 0x0D, width, combining);
    ExecuteFed(e, p, 0x08, width, combining);
    ExecuteFed(e, p, 0x09, width, combining);
  }

  /** A row down, or the region up by one where the cursor is in its last row. */
  ghost predicate Down(e: Engine, f: Engine, col: nat)
    requires Ok(e) && Ok(f)
  {
    if e.cur.row != e.bot then f == At(e, Min(e.cur.row + 1, e.rows - 1), col)
    else
      && f == At(e, e.cur.row, col).(grids := e.grids[e.active := f.grids[e.active]], scrolled := f.scrolled)
      && Slid(e.grids[e.active], f.grids[e.active], e.top, e.bot, true, 1, Wiped(e))
      && f.scrolled == e.scrolled + if e.active == 0 && e.top == 0 then e.grids[0][..1] else []
  }

  ghost predicate Upward(e: Engine, f: Engine)
    requires Ok(e) && Ok(f)
  {
    if e.cur.row != e.top then f == At(e, if e.cur.row > 0 then e.cur.row - 1 else 0, e.cur.col)
    else
      && f == At(e, e.cur.row, e.cur.col).(grids := e.grids[e.active := f.grids[e.active]])
      && Slid(e.grids[e.active], f.grids[e.active], e.top, e.bot, false, 1, Wiped(e))
  }

  lemma LoweredDown(e: Engine)
    requires Ok(e)
    ensures Down(e, Lowered(e), e.cur.col)
  {
    SlidUp(e.grids[e.active], e.top, e.bot, e.cols, Wiped(e), 1);
  }

  lemma WrappedDown(e: Engine)
    requires Ok(e)
    ensures Down(e, EscPlainOf(e, 0x45), 0)
  {
    SlidUp(e.grids[e.active], e.top, e.bot, e.cols, Wiped(e), 1);
  }

  lemma RaisedUp(e: Engine)
    requires Ok(e)
    ensures Upward(e, EscPlainOf(e, 0x4D))
  {
    SlidDown(e.grids[e.active], e.top, e.bot, e.cols, Wiped(e), 1);
  }

  /** LF, VT and FF, and ESC D, in the same column; ESC E to the first; ESC M the other way. */
  lemma {:induction false} LineControls(e: Engine, p: Parser, c0: byte, width: nat -> nat, combining: nat -> bool)
    requires Ok(e) && ParserOk(p) && R.Idle(p) && Tables(width, combining) && 0x0A <= c0 <= 0x0C
    ensures Down(e, Fed(e, p, [c0], width, combining), e.cur.col)
    ensures Down(e, Fed(e, p, [0x1B, 0x44], width, combining), e.cur.col)
    ensures Down(e, Fed(e, p, [0x1B, 0x45], width, combining), 0)
    ensures Upward(e, Fed(e, p, [0x1B, 0x4D], width, combining))
  {
    ExecuteFed(e, p, c0, width, combining);
    EscapeFed(e, p, 0x44, width, combining);
    EscapeFed(e, p, 0x45, width, combining);
    EscapeFed(e, p, 0x4D, width, combining);
    LoweredDown(e);
    WrappedDown(e);
    RaisedUp(e);
  }

  // ---- repetition ----

  function Times(b: byte, n: nat): (text: seq<byte>)
    ensures |text| == n && forall i :: 0 <= i < n ==> text[i] == b
  {
    seq(n, i => b)
  }

  lemma RepeatStep(e: Engine, b: byte, n: nat, width: nat -> nat, combining: nat -> bool)
    requires Ok(e) && Tables(width, combining) && 0x20 <= b < 0x7F && width(b) == 1 && n > 0
    ensures RepeatOf(e, b, 0, n, width, combining) == GlyphOn(RepeatOf(e, b, 0, n - 1, width, combining), b, 1)
  {
  }

  lemma {:induction false} RepeatIsText(e: Engine, p: Parser, b: byte, n: nat, width: nat -> nat,
      combining: nat -> bool)
    requires Ok(e) && ParserOk(p) && R.Idle(p) && Tables(width, combining) && !Graphics(e.cur)
    requires 0x20 <= b < 0x7F && width(b) == 1
    ensures RepeatOf(e, b, 0, n, width, combining) == Fed(e, p, Times(b, n), width, combining)
  {
    if n == 0 {
      assert Times(b, 0) == [];
      NothingFed(e, p, width, combining);
    } else {
      assert Times(b, n)[..n - 1] == Times(b, n - 1);
      RepeatIsText(e, p, b, n - 1, width, combining);
      TextFed(e, p, Times(b, n - 1), width, combining);
      LetterFed(e, p, Times(b, n), width, combining);
      RepeatStep(e, b, n, width, combining);
    }
  }

  lemma RepeatIs(e: Engine, c: Collected, width: nat -> nat, combining: nat -> bool)
    requires Ok(e) && CollectedOk(c) && Tables(width, combining)
    ensures CsiPlainOf(e, c, 0x62, width, combining) == Repeated(e, Count(c), width, combining)
  {
  }

  lemma LastRepeated(e: Engine, b: byte, n: nat, width: nat -> nat, combining: nat -> bool)
    requires Ok(e) && Tables(width, combining) && 0x20 <= b < 0x7F
    requires var g := e.grids[e.active][e.cur.row][if e.cur.col > 0 then e.cur.col - 1 else 0]; g.cp == b && g.comb == 0
    ensures Repeated(e, n, width, combining) == RepeatOf(e, b, 0, if n <= 1000 then n else 1000, width, combining)
  {
  }

  /** ESC [ n b behind a character that was typed is that character typed n times more, a thousand times at most. */
  lemma {:induction false} RepeatFed(e: Engine, p: Parser, b: byte, n: nat, ps: seq<nat>, width: nat -> nat,
      combining: nat -> bool)
    requires Ok(e) && ParserOk(p) && R.Idle(p) && Tables(width, combining) && !Graphics(e.cur)
    requires 0x20 <= b < 0x7F && width(b) == 1
    requires var g := e.grids[e.active][e.cur.row][if e.cur.col > 0 then e.cur.col - 1 else 0]; g.cp == b && g.comb == 0
    requires (ps == [n] && 1 <= n <= PARAM_CEILING) || (n == 1 && (ps == [] || ps == [0]))
    ensures Fed(e, p, Control(ps, 0x62), width, combining) ==
      Fed(e, p, Times(b, if n <= 1000 then n else 1000), width, combining)
  {
    ControlFed(e, p, ps, 0x62, width, combining);
    RepeatIs(e, Given(ps, |ps|, 0), width, combining);
    CountIs(ps, n);
    LastRepeated(e, b, n, width, combining);
    RepeatIsText(e, p, b, if n <= 1000 then n else 1000, width, combining);
  }
}
