/** The terminal engine as a function: what every action of the parser makes of everything the engine holds
    (src/vt/vt_dispatch.c over src/vt/vt_screen.c), short of damage marks. */
module Engine {
  import opened Bytes
  import opened Cells
  import opened Screen
  import opened Parser
  import R = Replay

  /** last is the cell that a combining mark would go on. */
  datatype Engine = Engine(rows: nat, cols: nat, grids: seq<Grid>, active: nat, cur: Cursor, saved: seq<Cursor>,
      modes: Modes, top: nat, bot: nat, tabs: set<nat>, scrolled: seq<Row>, last: Option<(nat, nat)>)

  ghost predicate Ok(e: Engine) {
    && 1 <= e.rows <= ROWS_MAX && 1 <= e.cols <= COLS_MAX && e.active < 2 && BothShaped(e.grids, e.rows, e.cols)
    && InGrid(e.cur, e.rows, e.cols) && |e.saved| == 2 && InGrid(e.saved[0], e.rows, e.cols)
    && InGrid(e.saved[1], e.rows, e.cols) && e.top <= e.bot < e.rows
    && (e.last.Some? ==> e.last.value.0 < e.rows && e.last.value.1 < e.cols)
    && (e.active == 1 <==> e.modes.altscreen)
  }

  ghost function SheetOf(e: Engine): (s: Sheet)
    requires Ok(e)
    ensures SheetOk(s, SetupOf(e))
  {
    Sheet(e.grids[e.active], e.cur, e.scrolled)
  }

  ghost function SetupOf(e: Engine): Setup {
    Setup(e.cols, e.top, e.bot, e.active == 0, e.modes.autowrap, e.modes.insert)
  }

  ghost function WithSheet(e: Engine, s: Sheet): Engine
    requires e.active < |e.grids|
  {
    e.(grids := e.grids[e.active := s.grid], cur := s.cur, scrolled := s.out)
  }

  // ---- printing ----

  /** DEC special graphics for 0x60 to 0x7E. */
  const GRAPHICS: seq<nat> := [
    0x25C6, 0x2592, 0x2409, 0x240C, 0x240D, 0x240A, 0x00B0, 0x00B1, 0x2424, 0x240B, 0x2518, 0x2510, 0x250C, 0x2514,
    0x253C, 0x23BA, 0x23BB, 0x2500, 0x23BC, 0x23BD, 0x251C, 0x2524, 0x2534, 0x252C, 0x2502, 0x2264, 0x2265, 0x03C0,
    0x2260, 0x00A3, 0x00B7
  ]

  /** The code point vt_do_print draws; None for a C1 control. */
  function Drawn(cp: nat, graphics: bool): (d: Option<nat>)
    ensures d.Some? ==> d.value <= 0x10FFFF && !Surrogate(d.value)
    ensures d.None? <==> 0x80 <= cp <= 0x9F
    ensures cp > 0x10FFFF || Surrogate(cp) ==> d == Some(0xFFFD)
    ensures cp <= 0x10FFFF && !Surrogate(cp) && d.Some? && !(graphics && 0x60 <= cp <= 0x7E) ==> d == Some(cp)
  {
    if cp > 0x10FFFF || Surrogate(cp) then Some(0xFFFD)
    else if 0x80 <= cp <= 0x9F then None
    else if graphics && 0x60 <= cp <= 0x7E then Some(GRAPHICS[cp - 0x60])
    else Some(cp)
  }

  /** The letters that boxes are drawn with: corners, crossing and tees, and the two lines. */
  lemma BoxesDrawn()
    ensures Drawn(0x6A, true) == Some(0x2518) && Drawn(0x6B, true) == Some(0x2510)
    ensures Drawn(0x6C, true) == Some(0x250C) && Drawn(0x6D, true) == Some(0x2514) && Drawn(0x6E, true) == Some(0x253C)
    ensures Drawn(0x71, true) == Some(0x2500) && Drawn(0x78, true) == Some(0x2502)
    ensures Drawn(0x74, true) == Some(0x251C) && Drawn(0x75, true) == Some(0x2524)
    ensures Drawn(0x76, true) == Some(0x2534) && Drawn(0x77, true) == Some(0x252C)
  {
  }

  predicate Graphics(cur: Cursor) {
    if cur.charset == 0 then cur.graphics0 else cur.graphics1
  }

  /** A character that takes a cell or two. */
  ghost function GlyphOn(e: Engine, cp: nat, w: nat): (f: Engine)
    requires Ok(e) && Printable(cp)
    ensures Ok(f)
  {
    var s, u := SheetOf(e), SetupOf(e);
    var at := RoomOf(s, u, w).cur;
    WithSheet(e, PutOf(s, u, cp, w)).(
      last := if w == 2 && e.cols == 1 && !e.modes.autowrap then e.last else Some((at.row, at.col)))
  }

  ghost predicate Attaches(e: Engine, cp: nat)
    requires Ok(e)
  {
    e.last.Some? && cp <= 0xFFFF &&
    var c := e.grids[e.active][e.last.value.0][e.last.value.1]; c.cp != 0 && c.comb == 0
  }

  /** A combining mark, on the cell written last or nowhere. */
  ghost function MarkOn(e: Engine, cp: nat): (f: Engine)
    requires Ok(e) && cp >= 0x300 && !Surrogate(cp)
    ensures Ok(f)
  {
    if !Attaches(e, cp) then e
    else
      var line := e.grids[e.active][e.last.value.0];
      var c := e.last.value.1;
      e.(grids := WithRow(e.grids, e.active, e.last.value.0, line[c := line[c].(comb := cp)]))
  }

  ghost function PutOn(e: Engine, cp: nat, w: nat, combining: bool): (f: Engine)
    requires Ok(e) && (w > 0 ==> Printable(cp)) && !Surrogate(cp) && (combining ==> cp >= 0x300)
    ensures Ok(f)
  {
    if w > 0 then GlyphOn(e, cp, w) else if combining then MarkOn(e, cp) else e
  }

  ghost function Printed(e: Engine, cp: nat, width: nat -> nat, combining: nat -> bool): (f: Engine)
    requires Ok(e) && Tables(width, combining)
    ensures Ok(f)
  {
    var d := Drawn(cp, Graphics(e.cur));
    if d.None? then e else PutOn(e, d.value, width(d.value), combining(d.value))
  }

  // ---- controls ----

  ghost function Lowered(e: Engine): (f: Engine)
    requires Ok(e)
    ensures Ok(f)
  {
    WithSheet(e, NewlineOf(SheetOf(e), SetupOf(e))).(last := None)
  }

  ghost function Executed(e: Engine, c0: byte): (f: Engine)
    requires Ok(e)
    ensures Ok(f)
  {
    if c0 == 0x08 then e.(cur := Backed(e.cur), last := None)
    else if c0 == 0x09 then
      e.(cur := e.cur.(pendingWrap := false, col := TabFrom(e.tabs, e.cur.col + 1, e.cols)), last := None)
    else if 0x0A <= c0 <= 0x0C then Lowered(e)
    else if c0 == 0x0D then e.(cur := e.cur.(col := 0, pendingWrap := false), last := None)
    else if c0 == 0x0E || c0 == 0x0F then e.(cur := e.cur.(charset := 0x0F - c0))
    else e
  }

  // ---- escapes ----

  ghost function Saved(e: Engine): (f: Engine)
    requires Ok(e)
    ensures Ok(f)
  {
    e.(saved := e.saved[e.active := e.cur.(origin := e.modes.origin)])
  }

  ghost function Restored(e: Engine): (f: Engine)
    requires Ok(e)
    ensures Ok(f)
  {
    e.(cur := e.saved[e.active].(pendingWrap := false), modes := e.modes.(origin := e.saved[e.active].origin))
  }

  ghost function Moved(e: Engine, row: int, col: int): (f: Engine)
    requires Ok(e)
    ensures Ok(f)
  {
    e.(cur := MovedTo(e.cur, e.rows, e.cols, e.modes.origin, e.top, e.bot, row, col), last := None)
  }

  ghost function EveryEighth(cols: nat): set<nat> {
    set c: nat | c < cols && c > 0 && c % 8 == 0
  }

  ghost function Reborn(e: Engine): (f: Engine)
    requires Ok(e)
    ensures Ok(f)
  {
    Engine(e.rows, e.cols, [EmptyGrid(e.rows, e.cols), EmptyGrid(e.rows, e.cols)], 0, HOME, [HOME, HOME], INITIAL_MODES,
      0, e.rows - 1, EveryEighth(e.cols), e.scrolled, None)
  }

  ghost function Aligned(e: Engine): (f: Engine)
    requires Ok(e)
    ensures Ok(f)
  {
    e.(grids := e.grids[e.active := Blanked(e.grids[e.active], 0, e.rows, BlankRow(e.cols, LETTER_E))],
       top := 0, bot := e.rows - 1, last := None,
       cur := MovedTo(e.cur, e.rows, e.cols, e.modes.origin, 0, e.rows - 1, 0, 0))
  }

  ghost function EscPlainOf(e: Engine, final: byte): (f: Engine)
    requires Ok(e)
    ensures Ok(f)
  {
    if final == 0x37 then Saved(e)
    else if final == 0x38 then Restored(e)
    else if final == 0x44 then Lowered(e)
    else if final == 0x45 then WithSheet(e, WrapOf(SheetOf(e), SetupOf(e))).(last := None)
    else if final == 0x4D then WithSheet(e, ReverseOf(SheetOf(e), SetupOf(e))).(last := None)
    else if final == 0x48 then e.(tabs := e.tabs + {e.cur.col})
    else if final == 0x63 then Reborn(e)
    else e
  }

  /** Charsets and the alignment test. */
  ghost function EscInterOf(e: Engine, i0: byte, final: byte): (f: Engine)
    requires Ok(e)
    ensures Ok(f)
  {
    if i0 == 0x28 then e.(cur := e.cur.(graphics0 := final == 0x30))
    else if i0 == 0x29 then e.(cur := e.cur.(graphics1 := final == 0x30))
    else if i0 == 0x23 && final == 0x38 then Aligned(e)
    else e
  }

  ghost function EscOf(e: Engine, c: Collected, final: byte): (f: Engine)
    requires Ok(e) && CollectedOk(c)
    ensures Ok(f)
  {
    if c.ninter == 0 then EscPlainOf(e, final) else if c.ninter == 1 then EscInterOf(e, c.inter[0], final) else e
  }

  /** vt_param */
  function Param(c: Collected, i: nat, dflt: int): (p: int)
    requires CollectedOk(c)
    ensures p == dflt || 0 <= p <= PARAM_CEILING
  {
    if i >= c.nparams || !c.seen[i] then dflt else c.params[i]
  }

  // ---- SGR ----

  function Indexed(n: nat): Color {
    0x100_0000 + n % 256
  }

  function Rgb(r: nat, g: nat, b: nat): (c: Color)
  {
    0x200_0000 + r % 256 * 65536 + g % 256 * 256 + b % 256
  }

  /** What one plain parameter does to the pen. */
  function Plain(pen: Pen, p: int): Pen {
    if p == 0 then PLAIN
    else if p == 1 then pen.(style := pen.style + {Bold})
    else if p == 2 then pen.(style := pen.style + {Dim})
    else if p == 3 then pen.(style := pen.style + {Italic})
    else if p == 4 then pen.(style := pen.style + {Underline})
    else if p == 5 || p == 6 then pen.(style := pen.style + {Blink})
    else if p == 7 then pen.(style := pen.style + {Reverse})
    else if p == 8 then pen.(style := pen.style + {Invisible})
    else if p == 9 then pen.(style := pen.style + {Strike})
    else if p == 21 || p == 22 then pen.(style := pen.style - {Bold, Dim})
    else if p == 23 then pen.(style := pen.style - {Italic})
    else if p == 24 then pen.(style := pen.style - {Underline})
    else if p == 25 then pen.(style := pen.style - {Blink})
    else if p == 27 then pen.(style := pen.style - {Reverse})
    else if p == 28 then pen.(style := pen.style - {Invisible})
    else if p == 29 then pen.(style := pen.style - {Strike})
    else if p == 39 then pen.(fg := DEFAULT_COLOR)
    else if p == 49 then pen.(bg := DEFAULT_COLOR)
    else if 30 <= p <= 37 then pen.(fg := Indexed(p - 30))
    else if 40 <= p <= 47 then pen.(bg := Indexed(p - 40))
    else if 90 <= p <= 97 then pen.(fg := Indexed(p - 90 + 8))
    else if 100 <= p <= 107 then pen.(bg := Indexed(p - 100 + 8))
    else pen
  }

  function Painted(pen: Pen, p: int, c: Color): Pen {
    if p == 38 then pen.(fg := c) else pen.(bg := c)
  }

  /** The pen after parameters i and on: an extended color takes two or four more; a malformed one ends it. */
  function PenAfter(c: Collected, i: nat, pen: Pen): Pen
    requires CollectedOk(c)
    decreases c.nparams - i
  {
    if i >= c.nparams then pen
    else
      var p := Param(c, i, 0);
      if p != 38 && p != 48 then PenAfter(c, i + 1, Plain(pen, p))
      else
        var kind := Param(c, i + 1, -1);
        if kind == 5 && i + 2 < c.nparams then PenAfter(c, i + 3, Painted(pen, p, Indexed(Param(c, i + 2, 0))))
        else if kind == 2 && i + 4 < c.nparams then
          PenAfter(c, i + 5, Painted(pen, p, Rgb(Param(c, i + 2, 0), Param(c, i + 3, 0), Param(c, i + 4, 0))))
        else pen
  }

  ghost function Inked(e: Engine, c: Collected): (f: Engine)
    requires Ok(e) && CollectedOk(c)
    ensures Ok(f)
  {
    e.(cur := e.cur.(pen := if c.nparams == 0 then PLAIN else PenAfter(c, 0, e.cur.pen)))
  }

  // ---- modes ----

  /** The other screen, blank if it is the alternate one and to be cleared; none if it is the one shown. */
  ghost function Switched(e: Engine, alt: bool, clear: bool): (f: Engine)
    requires Ok(e)
    ensures Ok(f)
  {
    if e.modes.altscreen == alt then e
    else
      e.(modes := e.modes.(altscreen := alt), active := if alt then 1 else 0, last := None,
         cur := e.cur.(pendingWrap := false),
         grids := if alt && clear
           then e.grids[1 := Blanked(e.grids[1], 0, e.rows, BlankRow(e.cols, Blank(e.cur.pen.bg)))] else e.grids)
  }

  /** Modes 1048 and, with an alternate screen in between, 1049. */
  ghost function CursorModeOf(e: Engine, alt: bool, on: bool): (f: Engine)
    requires Ok(e)
    ensures Ok(f)
  {
    if on then if alt then Switched(Saved(e), true, true) else Saved(e)
    else Restored(if alt then Switched(e, false, false) else e)
  }

  ghost function Flagged(m: Modes, mode: int, on: bool): Modes {
    if mode == 7 then m.(autowrap := on)
    else if mode == 25 then m.(visible := on)
    else if mode in {1, 1000, 1002, 1003, 1004, 1005, 1006, 2004} then
      m.(other := if on then m.other + {mode} else m.other - {mode})
    else m
  }

  /** One parameter of DECSET and DECRST, or of SM and RM. */
  ghost function ModeOf(e: Engine, private: bool, mode: int, on: bool): (f: Engine)
    requires Ok(e)
    ensures Ok(f)
  {
    if !private then if mode == 4 then e.(modes := e.modes.(insert := on)) else e
    else if mode == 47 || mode == 1047 then Switched(e, on, on && mode == 1047)
    else if mode == 1048 || mode == 1049 then CursorModeOf(e, mode == 1049, on)
    else if mode == 6 then Moved(e.(modes := e.modes.(origin := on)), 0, 0)
    else e.(modes := Flagged(e.modes, mode, on))
  }

  /** The first n parameters as modes, one after the other. */
  ghost function ModesOf(e: Engine, c: Collected, n: nat, private: bool, on: bool): (f: Engine)
    requires Ok(e) && CollectedOk(c)
    ensures Ok(f)
  {
    if n == 0 then e else ModeOf(ModesOf(e, c, n - 1, private, on), private, Param(c, n - 1, 0), on)
  }

  // ---- control sequences ----

  /** Where a cursor sequence asks to go, in the terms of vt_screen_move_cursor. */
  function Target(c: Collected, final: byte, cur: Cursor, base: nat): (t: Option<(int, int)>)
    requires CollectedOk(c)
  {
    var p := Param(c, 0, 1);
    var n := if p == 0 then 1 else p;
    var row := cur.row - base;
    if final == 0x41 then Some((row - n, cur.col))
    else if final == 0x42 then Some((row + n, cur.col))
    else if final == 0x43 then Some((row, cur.col + n))
    else if final == 0x44 then Some((row, cur.col - n))
    else if final == 0x45 then Some((row + n, 0))
    else if final == 0x46 then Some((row - n, 0))
    else if final == 0x47 then Some((row, n - 1))
    else if final == 0x48 || final == 0x66 then Some((Param(c, 0, 1) - 1, Param(c, 1, 1) - 1))
    else if final == 0x64 then Some((n - 1, cur.col))
    else None
  }

  /** The cell in front of the cursor. */
  function Before(g: Grid, cur: Cursor): Cell
    requires cur.row < |g| && cur.col < |g[cur.row]|
  {
    g[cur.row][if cur.col > 0 then cur.col - 1 else 0]
  }

  /** How often: the first parameter, where absent and 0 mean once. */
  function Count(c: Collected): (n: nat)
    requires CollectedOk(c)
    ensures n > 0
  {
    if Param(c, 0, 1) == 0 then 1 else Param(c, 0, 1)
  }

  predicate EditsLines(final: byte) {
    final == 0x4C || final == 0x4D || final == 0x53 || final == 0x54
  }

  predicate EditsChars(final: byte) {
    final == 0x40 || final == 0x50 || final == 0x58
  }

  predicate Erases(final: byte) {
    final == 0x4A || final == 0x4B
  }

  /** The page a sequence edits lines of: IL and DL from the cursor's row within the region, SU and SD the whole
      region. */
  ghost function LinesEdited(g: Grid, cur: Cursor, top: nat, bot: nat, blank: Row, n: nat, final: byte): Grid
    requires cur.row < |g| && top <= bot < |g|
  {
    if final == 0x53 then ScrolledUp(g, top, bot, Min(n, bot - top + 1), blank)
    else if final == 0x54 then ScrolledDown(g, top, bot, Min(n, bot - top + 1), blank)
    else if cur.row < top || cur.row > bot then g
    else if final == 0x4C then ScrolledDown(g, cur.row, bot, Min(n, bot - cur.row + 1), blank)
    else ScrolledUp(g, cur.row, bot, Min(n, bot - cur.row + 1), blank)
  }

  /** The row a sequence edits characters of: ICH, DCH, ECH. */
  ghost function CharsEdited(line: Row, col: nat, blank: Cell, n: nat, final: byte): Row
    requires col < |line|
  {
    if final == 0x40 then Inserted(line, col, Min(n, |line| - col), blank)
    else if final == 0x50 then Deleted(line, col, Min(n, |line| - col), blank)
    else Filled(line, col, col + n, blank)
  }

  /** ED and EL. */
  ghost function PartErased(g: Grid, cur: Cursor, cols: nat, blank: Cell, display: bool, mode: nat): (h: Grid)
    requires cur.row < |g|
    ensures Shaped(g, |g|, cols) ==> Shaped(h, |g|, cols)
  {
    if display then if mode <= 3 then Erased(g, mode, cur.row, cur.col, cols, blank) else g
    else if mode > 2 then g
    else g[cur.row :=
      Filled(g[cur.row], if mode == 0 then cur.col else 0, if mode == 1 then cur.col + 1 else cols, blank)]
  }

  // ---- editing ----

  ghost function ErasedOf(e: Engine, display: bool, mode: nat): (f: Engine)
    requires Ok(e)
    ensures Ok(f)
  {
    var g := PartErased(e.grids[e.active], e.cur, e.cols, Blank(e.cur.pen.bg), display, mode);
    e.(grids := e.grids[e.active := g], cur := e.cur.(pendingWrap := false), last := None)
  }

  ghost function CharsOf(e: Engine, n: nat, final: byte): (f: Engine)
    requires Ok(e)
    ensures Ok(f)
  {
    var line := e.grids[e.active][e.cur.row];
    e.(grids := WithRow(e.grids, e.active, e.cur.row, CharsEdited(line, e.cur.col, Blank(e.cur.pen.bg), n, final)),
       cur := e.cur.(pendingWrap := false), last := None)
  }

  /** Lines that leave the top of the primary screen are handed out. */
  ghost function HandedOut(e: Engine, lo: nat, n: nat): seq<Row>
    requires Ok(e) && lo <= e.bot
  {
    if e.active == 0 && lo == 0 then e.grids[e.active][..Min(n, e.bot + 1)] else []
  }

  ghost function LinesOf(e: Engine, n: nat, final: byte): (f: Engine)
    requires Ok(e) && EditsLines(final)
    ensures Ok(f)
  {
    var page := final == 0x53 || final == 0x54;
    if !page && (e.cur.row < e.top || e.cur.row > e.bot) then e
    else
      var g := LinesEdited(e.grids[e.active], e.cur, e.top, e.bot, BlankRow(e.cols, Blank(e.cur.pen.bg)), n, final);
      var lo := if page then e.top else e.cur.row;
      e.(grids := e.grids[e.active := g], last := None,
         cur := if page then e.cur else e.cur.(pendingWrap := false),
         scrolled := e.scrolled + if final == 0x4D || final == 0x53 then HandedOut(e, lo, n) else [])
  }

  /** The sequences that edit the grid. */
  ghost function EditOf(e: Engine, c: Collected, final: byte): (f: Engine)
    requires Ok(e) && CollectedOk(c)
    ensures Ok(f)
  {
    if Erases(final) then ErasedOf(e, final == 0x4A, Param(c, 0, 0))
    else if EditsChars(final) then CharsOf(e, Count(c), final)
    else if EditsLines(final) then LinesOf(e, Count(c), final)
    else e
  }

  /** DECSTBM: the region asked for and the cursor home, or everything as it was if there is no such region. */
  ghost function RegionOf(e: Engine, first: int, last: int): (f: Engine)
    requires Ok(e)
    ensures Ok(f)
  {
    var t, b := if first <= 0 then 1 else first, if last <= 0 || last > e.rows then e.rows else last;
    if t >= b then e else Moved(e.(top := t - 1, bot := b - 1), 0, 0)
  }

  /** REP: the character before the cursor, with its mark, n times. */
  ghost function RepeatOf(e: Engine, cp: nat, mark: nat, n: nat, width: nat -> nat, combining: nat -> bool): (f: Engine)
    requires Ok(e) && Tables(width, combining) && Printable(cp) && (mark != 0 ==> Markable(mark))
    ensures Ok(f)
  {
    if n == 0 then e
    else
      var f := PutOn(RepeatOf(e, cp, mark, n - 1, width, combining), cp, width(cp), combining(cp));
      if mark == 0 then f else PutOn(f, mark, 0, combining(mark))
  }

  ghost function Repeated(e: Engine, n: nat, width: nat -> nat, combining: nat -> bool): (f: Engine)
    requires Ok(e) && Tables(width, combining)
    ensures Ok(f)
  {
    var prev := Before(e.grids[e.active], e.cur);
    if prev.cp == 0 then e else RepeatOf(e, prev.cp, prev.comb, Min(n, COLS_MAX), width, combining)
  }

  ghost function CsiRestOf(e: Engine, c: Collected, final: byte, width: nat -> nat, combining: nat -> bool): (f: Engine)
    requires Ok(e) && CollectedOk(c) && Tables(width, combining)
    ensures Ok(f)
  {
    if final == 0x62 then Repeated(e, Count(c), width, combining)
    else if final == 0x67 then e.(tabs := if Param(c, 0, 0) == 3 then {} else e.tabs - {e.cur.col})
    else if final == 0x68 || final == 0x6C then ModesOf(e, c, c.nparams, false, final == 0x68)
    else if final == 0x6D then Inked(e, c)
    else if final == 0x72 then RegionOf(e, Param(c, 0, 0), Param(c, 1, 0))
    else if final == 0x73 then Saved(e)
    else if final == 0x75 then Restored(e)
    else e
  }

  ghost function CsiPlainOf(e: Engine, c: Collected, final: byte, width: nat -> nat,
      combining: nat -> bool): (f: Engine)
    requires Ok(e) && CollectedOk(c) && Tables(width, combining)
    ensures Ok(f)
  {
    var t := Target(c, final, e.cur, if e.modes.origin then e.top else 0);
    if t.Some? then Moved(e, t.value.0, t.value.1)
    else if Erases(final) || EditsChars(final) || EditsLines(final) then EditOf(e, c, final)
    else CsiRestOf(e, c, final, width, combining)
  }

  /** A marker other than ?, intermediates, and too many of them: nothing. */
  ghost function CsiOf(e: Engine, c: Collected, final: byte, width: nat -> nat, combining: nat -> bool): (f: Engine)
    requires Ok(e) && CollectedOk(c) && Tables(width, combining)
    ensures Ok(f)
  {
    if c.ninter > INTER_MAX then e
    else if c.priv == 0x3F then
      if final == 0x68 || final == 0x6C then ModesOf(e, c, c.nparams, true, final == 0x68) else e
    else if c.priv != 0 || c.ninter != 0 then e
    else CsiPlainOf(e, c, final, width, combining)
  }

  // ---- actions ----

  predicate ActionOk(a: Action) {
    (a.EscDispatch? ==> CollectedOk(a.seqn)) && (a.CsiDispatch? ==> CollectedOk(a.seqn))
  }

  predicate ActionsOk(acts: seq<Action>) {
    forall i :: 0 <= i < |acts| ==> ActionOk(acts[i])
  }

  /** One action of the parser; a finished OSC string only reaches callbacks. */
  ghost function Acted(e: Engine, a: Action, width: nat -> nat, combining: nat -> bool): (f: Engine)
    requires Ok(e) && ActionOk(a) && Tables(width, combining)
    ensures Ok(f)
  {
    match a
    case Print(cp) => Printed(e, cp, width, combining)
    case Execute(c0) => Executed(e, c0)
    case EscDispatch(c, final) => EscOf(e, c, final)
    case CsiDispatch(c, final) => CsiOf(e, c, final, width, combining)
    case OscDispatch(_, _) => e
  }

  ghost function ActedAll(e: Engine, acts: seq<Action>, width: nat -> nat, combining: nat -> bool): (f: Engine)
    requires Ok(e) && ActionsOk(acts) && Tables(width, combining)
    ensures Ok(f)
  {
    if |acts| == 0 then e
    else Acted(ActedAll(e, acts[..|acts| - 1], width, combining), acts[|acts| - 1], width, combining)
  }

  /** Every sequence the parser dispatches is within the bounds of its buffers. */
  lemma StepActionsOk(p: Parser, b: byte)
    requires ParserOk(p)
    ensures ActionsOk(Step(p, b).1)
  {
    CollectOk(p.seqn, b);
  }

  lemma {:induction false} RunActionsOk(p: Parser, data: seq<byte>)
    requires ParserOk(p)
    ensures ActionsOk(R.Run(p, data).1)
  {
    if data != [] {
      RunActionsOk(p, data[..|data| - 1]);
      StepActionsOk(R.Run(p, data[..|data| - 1]).0, data[|data| - 1]);
    }
  }

  lemma {:induction false} ActedNext(e: Engine, acts: seq<Action>, i: nat, width: nat -> nat, combining: nat -> bool)
    requires Ok(e) && ActionsOk(acts) && Tables(width, combining) && i < |acts|
    ensures ActedAll(e, acts[..i + 1], width, combining) ==
      Acted(ActedAll(e, acts[..i], width, combining), acts[i], width, combining)
  {
    assert acts[..i + 1][..i] == acts[..i];
  }

  lemma {:induction false} ActedOn(e: Engine, a: seq<Action>, b: seq<Action>, width: nat -> nat, combining: nat -> bool)
    requires Ok(e) && ActionsOk(a) && ActionsOk(b) && Tables(width, combining)
    ensures ActionsOk(a + b)
    ensures ActedAll(e, a + b, width, combining) == ActedAll(ActedAll(e, a, width, combining), b, width, combining)
  {
    if |b| == 0 {
      assert a + b == a;
    } else {
      var n := |b| - 1;
      assert (a + b)[..|a + b| - 1] == a + b[..n];
      ActedOn(e, a, b[..n], width, combining);
    }
  }

  // ---- bytes ----

  /** What bytes make of an engine whose parser is at p: all that the parser dispatches, acted out. */
  ghost function Fed(e: Engine, p: Parser, data: seq<byte>, width: nat -> nat, combining: nat -> bool): (f: Engine)
    requires Ok(e) && ParserOk(p) && Tables(width, combining)
    ensures Ok(f)
  {
    RunActionsOk(p, data);
    ActedAll(e, R.Run(p, data).1, width, combining)
  }

  lemma {:induction false} FedMore(e: Engine, p: Parser, data: seq<byte>, i: nat, width: nat -> nat,
      combining: nat -> bool)
    requires Ok(e) && ParserOk(p) && Tables(width, combining) && i < |data|
    ensures var q := R.Run(p, data[..i]).0;
      && ActionsOk(Step(q, data[i]).1) && R.Run(p, data[..i + 1]).0 == Step(q, data[i]).0
      && Fed(e, p, data[..i + 1], width, combining) ==
        ActedAll(Fed(e, p, data[..i], width, combining), Step(q, data[i]).1, width, combining)
  {
    assert data[..i + 1][..i] == data[..i];
    RunActionsOk(p, data[..i]);
    StepActionsOk(R.Run(p, data[..i]).0, data[i]);
    ActedOn(e, R.Run(p, data[..i]).1, Step(R.Run(p, data[..i]).0, data[i]).1, width, combining);
  }

  /** How the bytes are cut into reads does not matter. */
  lemma {:induction false} FedSplit(e: Engine, p: Parser, a: seq<byte>, b: seq<byte>, width: nat -> nat,
      combining: nat -> bool)
    requires Ok(e) && ParserOk(p) && Tables(width, combining)
    ensures R.Run(p, a + b).0 == R.Run(R.Run(p, a).0, b).0
    ensures Fed(e, p, a + b, width, combining) ==
      Fed(Fed(e, p, a, width, combining), R.Run(p, a).0, b, width, combining)
  {
    R.RunSplit(p, a, b);
    RunActionsOk(p, a);
    RunActionsOk(R.Run(p, a).0, b);
    ActedOn(e, R.Run(p, a).1, R.Run(R.Run(p, a).0, b).1, width, combining);
  }

  /** Bytes that are text in any font: printable ASCII, each a column wide. */
  ghost predicate PlainText(text: seq<byte>, width: nat -> nat) {
    forall i :: 0 <= i < |text| ==> 0x20 <= text[i] < 0x7F && width(text[i]) == 1
  }

  function CodePoints(text: seq<byte>): (cps: seq<nat>)
    ensures |cps| == |text| && forall i :: 0 <= i < |cps| ==> cps[i] == text[i]
  {
    seq(|text|, i requires 0 <= i < |text| => text[i] as nat)
  }

  /** An idle parser prints them and stays idle. */
  lemma TextStep(p: Parser, b: byte)
    requires ParserOk(p) && R.Idle(p) && 0x20 <= b < 0x7F
    ensures R.Idle(Step(p, b).0) && Step(p, b).1 == [Print(b)]
  {
  }

  lemma LetterActed(e: Engine, b: byte, width: nat -> nat, combining: nat -> bool)
    requires Ok(e) && Tables(width, combining) && !Graphics(e.cur) && 0x20 <= b < 0x7F && width(b) == 1
    ensures ActionsOk([Print(b)]) && ActedAll(e, [Print(b)], width, combining) == GlyphOn(e, b, 1)
  {
    assert [Print(b)][..0] == [];
    assert ActedAll(e, [], width, combining) == e;
    assert Drawn(b, false) == Some(b);
  }

  lemma GlyphSheet(e: Engine, cp: nat, w: nat)
    requires Ok(e) && Printable(cp)
    ensures var f := GlyphOn(e, cp, w);
      && SheetOf(f) == PutOf(SheetOf(e), SetupOf(e), cp, w) && SetupOf(f) == SetupOf(e) && Carried(e.cur, f.cur)
  {
  }

  lemma {:induction false} TypeMore(s: Sheet, u: Setup, text: seq<byte>)
    requires SheetOk(s, u) && |text| > 0 && forall i :: 0 <= i < |text| ==> 0x20 <= text[i] < 0x7F
    ensures var n := |text| - 1;
      TypeOf(s, u, CodePoints(text)) == PutOf(TypeOf(s, u, CodePoints(text[..n])), u, text[n], 1)
  {
    assert CodePoints(text)[..|text| - 1] == CodePoints(text[..|text| - 1]);
  }

  lemma {:induction false} NothingFed(e: Engine, p: Parser, width: nat -> nat, combining: nat -> bool)
    requires Ok(e) && ParserOk(p) && Tables(width, combining)
    ensures R.Run(p, []) == (p, []) && Fed(e, p, [], width, combining) == e
    ensures TypeOf(SheetOf(e), SetupOf(e), CodePoints([])) == SheetOf(e)
  {
  }

  /** Text was typed on the sheet, and nothing else. */
  ghost predicate TypedOn(e: Engine, f: Engine, text: seq<byte>)
    requires Ok(e) && Ok(f) && forall i :: 0 <= i < |text| ==> 0x20 <= text[i] < 0x7F
  {
    && SetupOf(f) == SetupOf(e) && Carried(e.cur, f.cur)
    && SheetOf(f) == TypeOf(SheetOf(e), SetupOf(e), CodePoints(text))
  }

  lemma {:induction false} TypedMore(e: Engine, f: Engine, text: seq<byte>)
    requires Ok(e) && Ok(f) && |text| > 0 && forall i :: 0 <= i < |text| ==> 0x20 <= text[i] < 0x7F
    requires TypedOn(e, f, text[..|text| - 1])
    ensures TypedOn(e, GlyphOn(f, text[|text| - 1], 1), text)
  {
    GlyphSheet(f, text[|text| - 1], 1);
    TypeMore(SheetOf(e), SetupOf(e), text);
  }

  lemma {:induction false} LetterFed(e: Engine, p: Parser, text: seq<byte>, width: nat -> nat, combining: nat -> bool)
    requires Ok(e) && ParserOk(p) && Tables(width, combining) && PlainText(text, width) && |text| > 0
    requires var n := |text| - 1;
      R.Idle(R.Run(p, text[..n]).0) && !Graphics(Fed(e, p, text[..n], width, combining).cur)
    ensures var n := |text| - 1;
      && R.Idle(R.Run(p, text).0)
      && Fed(e, p, text, width, combining) == GlyphOn(Fed(e, p, text[..n], width, combining), text[n], 1)
  {
    var n := |text| - 1;
    FedMore(e, p, text, n, width, combining);
    assert text[..n + 1] == text;
    TextStep(R.Run(p, text[..n]).0, text[n]);
    LetterActed(Fed(e, p, text[..n], width, combining), text[n], width, combining);
  }

  /** Text fed to an idle parser is typed on the sheet. */
  lemma {:induction false} TextFed(e: Engine, p: Parser, text: seq<byte>, width: nat -> nat, combining: nat -> bool)
    requires Ok(e) && ParserOk(p) && R.Idle(p) && Tables(width, combining) && !Graphics(e.cur) && PlainText(text, width)
    ensures R.Idle(R.Run(p, text).0) && TypedOn(e, Fed(e, p, text, width, combining), text)
  {
    if text == [] {
      NothingFed(e, p, width, combining);
    } else {
      var n := |text| - 1;
      TextFed(e, p, text[..n], width, combining);
      LetterFed(e, p, text, width, combining);
      TypedMore(e, Fed(e, p, text[..n], width, combining), text);
    }
  }

  /** Bytes of text that fit the rest of the row are there to read after they are fed, whatever the row held before; no
      other row changes, and the cursor is behind them. */
  lemma BytesShow(e: Engine, p: Parser, text: seq<byte>, width: nat -> nat, combining: nat -> bool)
    requires Ok(e) && ParserOk(p) && R.Idle(p) && Tables(width, combining) && !Graphics(e.cur) && PlainText(text, width)
    requires !e.modes.insert && !(e.cur.pendingWrap && e.modes.autowrap) && e.cur.col + |text| <= e.cols
    ensures var f := Fed(e, p, text, width, combining);
      Typed(SheetOf(e), SheetOf(f), CodePoints(text)) && Behind(SheetOf(e), SheetOf(f), SetupOf(e), |text|)
  {
    TextFed(e, p, text, width, combining);
    TextShows(SheetOf(e), SetupOf(e), CodePoints(text));
  }
}
