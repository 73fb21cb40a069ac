/** Sequences become screen operations (src/vt/vt_dispatch.c), and the whole engine: bytes through the parser to the
    screen, with resizes and damage clears in between. */
module Dispatch {
  import opened Bytes
  import opened Cells
  import opened Screen
  import opened Parser
  import opened E = Engine
  import R = Replay
  import M = Machine

  /** All the engine holds, short of damage marks. */
  ghost function StateOf(v: Vt): (e: Engine)
    reads v
    ensures v.Valid() ==> Ok(e)
  {
    Engine(v.rows, v.cols, v.grids, v.active, v.cur, v.saved, v.modes, v.top, v.bot, v.tabs, v.scrolled,
      if v.lastValid then Some((v.lastRow, v.lastCol)) else None)
  }

  /** vt_do_print */
  method Print(v: Vt, cp: nat)
    requires v.Valid()
    modifies v`grids, v`dirty, v`lastRow, v`lastCol, v`lastValid, v`scrolled, v`cur
    ensures v.Valid() && v.KeepsMarks(old(v.dirty), old(v.dirtyAll))
    ensures StateOf(v) == Printed(old(StateOf(v)), cp, v.width, v.combining)
  {
    var d := Drawn(cp, if v.cur.charset == 0 then v.cur.graphics0 else v.cur.graphics1);
    if d.None? {
      return;
    }
    PutChar(v, d.value, v.width(d.value));
  }

  method PutChar(v: Vt, cp: nat, w: nat)
    requires v.Valid() && w <= 2 && (w > 0 ==> Printable(cp)) && !Surrogate(cp)
    modifies v`grids, v`dirty, v`lastRow, v`lastCol, v`lastValid, v`scrolled, v`cur
    ensures v.Valid() && v.KeepsMarks(old(v.dirty), old(v.dirtyAll))
    ensures StateOf(v) == PutOn(old(StateOf(v)), cp, w, v.combining(cp))
  {
    if w > 0 {
      PutGlyph(v, cp, w);
    } else if v.combining(cp) {
      PutMark(v, cp);
    }
  }

  method PutGlyph(v: Vt, cp: nat, w: nat)
    requires v.Valid() && 1 <= w <= 2 && Printable(cp)
    modifies v`grids, v`dirty, v`lastRow, v`lastCol, v`lastValid, v`scrolled, v`cur
    ensures v.Valid() && v.KeepsMarks(old(v.dirty), old(v.dirtyAll))
    ensures StateOf(v) == GlyphOn(old(StateOf(v)), cp, w)
  {
    v.Put(cp, w);
  }

  method PutMark(v: Vt, cp: nat)
    requires v.Valid() && v.combining(cp) && !Surrogate(cp)
    modifies v`grids, v`dirty, v`lastRow, v`lastCol, v`lastValid, v`scrolled, v`cur
    ensures v.Valid() && v.KeepsMarks(old(v.dirty), old(v.dirtyAll))
    ensures StateOf(v) == MarkOn(old(StateOf(v)), cp)
  {
    v.Put(cp, 0);
  }

  /** vt_do_execute */
  method Execute(v: Vt, c0: byte)
    requires v.Valid()
    modifies v`grids, v`dirty, v`lastValid, v`scrolled, v`cur
    ensures v.Valid() && v.KeepsMarks(old(v.dirty), old(v.dirtyAll))
    ensures StateOf(v) == Executed(old(StateOf(v)), c0)
  {
    if 0x0A <= c0 <= 0x0C {
      Down(v);
    } else {
      ExecuteInRow(v, c0);
    }
  }

  method Down(v: Vt)
    requires v.Valid()
    modifies v`grids, v`dirty, v`lastValid, v`scrolled, v`cur
    ensures v.Valid() && v.KeepsMarks(old(v.dirty), old(v.dirtyAll))
    ensures StateOf(v) == Lowered(old(StateOf(v)))
  {
    v.Newline();
  }

  /** The controls that stay in the row. */
  method ExecuteInRow(v: Vt, c0: byte)
    requires v.Valid() && !(0x0A <= c0 <= 0x0C)
    modifies v`lastValid, v`cur
    ensures v.Valid() && StateOf(v) == Executed(old(StateOf(v)), c0)
  {
    if c0 == 0x08 {
      v.Backspace();
    } else if c0 == 0x09 {
      NextStop(v);
    } else if c0 == 0x0D {
      v.CarriageReturn();
    } else if c0 == 0x0E || c0 == 0x0F {
      ChooseCharset(v, 0x0F - c0);
    }
  }

  method NextStop(v: Vt)
    requires v.Valid()
    modifies v`lastValid, v`cur
    ensures v.Valid() && StateOf(v) == Executed(old(StateOf(v)), 0x09)
  {
    v.Tab();
  }

  method ChooseCharset(v: Vt, g: nat)
    requires v.Valid() && g < 2
    modifies v`cur
    ensures v.Valid() && StateOf(v) == old(StateOf(v)).(cur := old(v.cur).(charset := g))
  {
    v.cur := v.cur.(charset := g);
  }

  /** save_cursor */
  method SaveCursor(v: Vt)
    requires v.Valid()
    modifies v`saved
    ensures v.Valid() && StateOf(v) == Saved(old(StateOf(v)))
  {
    v.saved := v.saved[v.active := v.cur.(origin := v.modes.origin)];
  }

  /** restore_cursor: the clamps never bite, since saved cursors are kept inside the grid. */
  method RestoreCursor(v: Vt)
    requires v.Valid()
    modifies v`cur, v`modes
    ensures v.Valid() && StateOf(v) == Restored(old(StateOf(v)))
  {
    v.cur := Confined(v.saved[v.active], v.rows, v.cols).(pendingWrap := false);
    v.modes := v.modes.(origin := v.cur.origin);
  }

  /** vt_do_esc */
  method Esc(v: Vt, c: Collected, final: byte)
    requires v.Valid() && CollectedOk(c)
    modifies v`grids, v`dirty, v`dirtyAll, v`lastRow, v`lastCol, v`lastValid, v`scrolled, v`cur, v`saved, v`modes,
      v`active, v`top, v`bot, v`tabs
    ensures v.Valid() && v.KeepsMarks(old(v.dirty), old(v.dirtyAll))
    ensures StateOf(v) == EscOf(old(StateOf(v)), c, final)
  {
    if c.ninter == 1 {
      EscInter(v, c.inter[0], final);
      return;
    }
    if c.ninter != 0 {
      return;
    }
    EscPlain(v, final);
  }

  /** Charsets and the alignment test. */
  method EscInter(v: Vt, i0: byte, final: byte)
    requires v.Valid()
    modifies v`grids, v`dirtyAll, v`lastValid, v`cur, v`top, v`bot
    ensures v.Valid() && v.KeepsMarks(old(v.dirty), old(v.dirtyAll))
    ensures StateOf(v) == EscInterOf(old(StateOf(v)), i0, final)
  {
    if i0 == 0x28 || i0 == 0x29 {
      Designate(v, i0 == 0x28, final == 0x30);
    } else if i0 == 0x23 && final == 0x38 {
      Align(v);
    }
  }

  method Designate(v: Vt, first: bool, graphics: bool)
    requires v.Valid()
    modifies v`cur
    ensures v.Valid() && StateOf(v) == old(StateOf(v)).(cur := if first then old(v.cur).(graphics0 := graphics)
                                                               else old(v.cur).(graphics1 := graphics))
  {
    v.cur := if first then v.cur.(graphics0 := graphics) else v.cur.(graphics1 := graphics);
  }

  method Align(v: Vt)
    requires v.Valid()
    modifies v`grids, v`dirtyAll, v`lastValid, v`cur, v`top, v`bot
    ensures v.Valid() && v.KeepsMarks(old(v.dirty), old(v.dirtyAll)) && StateOf(v) == Aligned(old(StateOf(v)))
  {
    v.AlignTest();
  }

  method EscPlain(v: Vt, final: byte)
    requires v.Valid()
    modifies v`grids, v`dirty, v`dirtyAll, v`lastRow, v`lastCol, v`lastValid, v`scrolled, v`cur, v`saved, v`modes,
      v`active, v`top, v`bot, v`tabs
    ensures v.Valid() && v.KeepsMarks(old(v.dirty), old(v.dirtyAll))
    ensures StateOf(v) == EscPlainOf(old(StateOf(v)), final)
  {
    if final == 0x37 {
      SaveCursor(v);
    } else if final == 0x38 {
      RestoreCursor(v);
    } else if final == 0x48 {
      v.tabs := v.tabs + {v.cur.col};
    } else if final == 0x63 {
      ResetAll(v);
    } else {
      EscLine(v, final);
    }
  }

  method ResetAll(v: Vt)
    requires v.Valid()
    modifies v`grids, v`dirty, v`dirtyAll, v`lastRow, v`lastCol, v`lastValid, v`scrolled, v`cur, v`saved, v`modes,
      v`active, v`top, v`bot, v`tabs
    ensures v.Valid() && v.KeepsMarks(old(v.dirty), old(v.dirtyAll)) && StateOf(v) == Reborn(old(StateOf(v)))
  {
    v.Reset();
    assert v.tabs == EveryEighth(v.cols);
  }

  /** IND, NEL and RI. */
  method EscLine(v: Vt, final: byte)
    requires v.Valid() && final != 0x37 && final != 0x38 && final != 0x48 && final != 0x63
    modifies v`grids, v`dirty, v`lastValid, v`scrolled, v`cur
    ensures v.Valid() && v.KeepsMarks(old(v.dirty), old(v.dirtyAll))
    ensures StateOf(v) == EscPlainOf(old(StateOf(v)), final)
  {
    if final == 0x44 {
      Down(v);
    } else if final == 0x45 {
      v.WrapLine();
    } else if final == 0x4D {
      Up(v);
    }
  }

  method Up(v: Vt)
    requires v.Valid()
    modifies v`grids, v`dirty, v`lastValid, v`cur
    ensures v.Valid() && v.KeepsMarks(old(v.dirty), old(v.dirtyAll))
    ensures StateOf(v) == EscPlainOf(old(StateOf(v)), 0x4D)
  {
    v.ReverseIndex();
  }

  /** do_sgr */
  method Sgr(v: Vt, c: Collected)
    requires v.Valid() && CollectedOk(c)
    modifies v`cur
    ensures v.Valid() && StateOf(v) == Inked(old(StateOf(v)), c)
  {
    var pen := v.cur.pen;
    if c.nparams == 0 {
      pen := PLAIN;
    }
    var i := 0;
    while i < c.nparams
      invariant c.nparams > 0 ==> PenAfter(c, i, pen) == PenAfter(c, 0, v.cur.pen)
      invariant c.nparams == 0 ==> pen == PLAIN
      decreases c.nparams - i
    {
      var p := Param(c, i, 0);
      if p != 38 && p != 48 {
        pen := Plain(pen, p);
      } else {
        var kind := Param(c, i + 1, -1);
        if kind == 5 && i + 2 < c.nparams {
          pen := Painted(pen, p, Indexed(Param(c, i + 2, 0)));
          i := i + 2;
        } else if kind == 2 && i + 4 < c.nparams {
          pen := Painted(pen, p, Rgb(Param(c, i + 2, 0), Param(c, i + 3, 0), Param(c, i + 4, 0)));
          i := i + 4;
        } else {
          break;
        }
      }
      i := i + 1;
    }
    v.cur := v.cur.(pen := pen);
  }

  // ---- modes ----

  method OriginMode(v: Vt, on: bool)
    requires v.Valid()
    modifies v`modes, v`cur, v`lastValid
    ensures v.Valid() && StateOf(v) == ModeOf(old(StateOf(v)), true, 6, on)
  {
    v.modes := v.modes.(origin := on);
    v.MoveCursor(0, 0);
  }

  /** One parameter of do_decset */
  method DecMode(v: Vt, mode: int, on: bool)
    requires v.Valid()
    modifies v`grids, v`dirty, v`dirtyAll, v`lastValid, v`cur, v`saved, v`modes, v`active
    ensures v.Valid() && v.KeepsMarks(old(v.dirty), old(v.dirtyAll))
    ensures StateOf(v) == ModeOf(old(StateOf(v)), true, mode, on)
  {
    if mode == 47 || mode == 1047 {
      Switch(v, on, on && mode == 1047);
    } else if mode == 1048 || mode == 1049 {
      CursorMode(v, mode == 1049, on);
    } else if mode == 6 {
      OriginMode(v, on);
    } else {
      PlainFlag(v, mode, on);
    }
  }

  method Switch(v: Vt, alt: bool, clear: bool)
    requires v.Valid()
    modifies v`grids, v`dirty, v`dirtyAll, v`lastValid, v`cur, v`modes, v`active
    ensures v.Valid() && v.KeepsMarks(old(v.dirty), old(v.dirtyAll))
    ensures StateOf(v) == Switched(old(StateOf(v)), alt, clear)
  {
    v.SwitchAlt(alt, clear);
  }

  method PlainFlag(v: Vt, mode: int, on: bool)
    requires v.Valid()
    modifies v`modes
    ensures v.Valid() && StateOf(v) == old(StateOf(v)).(modes := Flagged(old(v.modes), mode, on))
  {
    var m := v.modes;
    if mode in {1, 1000, 1002, 1003, 1004, 1005, 1006, 2004} {
      m := m.(other := if on then m.other + {mode} else m.other - {mode});
    } else if mode == 7 || mode == 25 {
      m := if mode == 7 then m.(autowrap := on) else m.(visible := on);
    }
    v.modes := m;
  }

  /** Modes 1048 and 1049: save or restore the cursor, the latter around an alternate screen. */
  method CursorMode(v: Vt, alt: bool, on: bool)
    requires v.Valid()
    modifies v`grids, v`dirty, v`dirtyAll, v`lastValid, v`cur, v`saved, v`modes, v`active
    ensures v.Valid() && v.KeepsMarks(old(v.dirty), old(v.dirtyAll))
    ensures StateOf(v) == CursorModeOf(old(StateOf(v)), alt, on)
  {
    if on {
      SaveCursor(v);
    }
    if alt {
      Switch(v, on, on);
    }
    if !on {
      RestoreCursor(v);
    }
  }

  /** do_decset and do_sm_rm */
  method SetModes(v: Vt, c: Collected, private: bool, on: bool)
    requires v.Valid() && CollectedOk(c)
    modifies v`grids, v`dirty, v`dirtyAll, v`lastValid, v`cur, v`saved, v`modes, v`active
    ensures v.Valid() && v.KeepsMarks(old(v.dirty), old(v.dirtyAll))
    ensures StateOf(v) == ModesOf(old(StateOf(v)), c, c.nparams, private, on)
  {
    for i := 0 to c.nparams
      invariant v.Valid() && v.KeepsMarks(old(v.dirty), old(v.dirtyAll))
      invariant StateOf(v) == ModesOf(old(StateOf(v)), c, i, private, on)
    {
      SetMode(v, private, Param(c, i, 0), on);
    }
  }

  method SetMode(v: Vt, private: bool, mode: int, on: bool)
    requires v.Valid()
    modifies v`grids, v`dirty, v`dirtyAll, v`lastValid, v`cur, v`saved, v`modes, v`active
    ensures v.Valid() && v.KeepsMarks(old(v.dirty), old(v.dirtyAll))
    ensures StateOf(v) == ModeOf(old(StateOf(v)), private, mode, on)
  {
    if private {
      DecMode(v, mode, on);
    } else if mode == 4 {
      v.modes := v.modes.(insert := on);
    }
  }

  // ---- control sequences ----

  /** REP: the grapheme before the cursor once more, n times. */
  method Repeat(v: Vt, n: nat)
    requires v.Valid()
    modifies v`grids, v`dirty, v`lastRow, v`lastCol, v`lastValid, v`scrolled, v`cur
    ensures v.Valid() && v.KeepsMarks(old(v.dirty), old(v.dirtyAll))
    ensures StateOf(v) == Repeated(old(StateOf(v)), n, v.width, v.combining)
  {
    var count := Min(n, COLS_MAX);
    var prev := Before(v.Visible(), v.cur);
    if prev.cp == 0 {
      return;
    }
    for i := 0 to count
      invariant v.Valid() && v.KeepsMarks(old(v.dirty), old(v.dirtyAll))
      invariant StateOf(v) == RepeatOf(old(StateOf(v)), prev.cp, prev.comb, i, v.width, v.combining)
    {
      RepeatOnce(v, prev.cp, prev.comb);
    }
  }

  method RepeatOnce(v: Vt, cp: nat, mark: nat)
    requires v.Valid() && Printable(cp) && (mark != 0 ==> Markable(mark))
    modifies v`grids, v`dirty, v`lastRow, v`lastCol, v`lastValid, v`scrolled, v`cur
    ensures v.Valid() && v.KeepsMarks(old(v.dirty), old(v.dirtyAll))
    ensures StateOf(v) == RepeatOf(old(StateOf(v)), cp, mark, 1, v.width, v.combining)
  {
    ghost var e := StateOf(v);
    assert RepeatOf(e, cp, mark, 0, v.width, v.combining) == e;
    PutChar(v, cp, v.width(cp));
    if mark != 0 {
      PutChar(v, mark, 0);
    }
  }

  /** The sequences that edit the grid: erase, insert, delete, scroll. */
  method Edit(v: Vt, c: Collected, final: byte)
    requires v.Valid() && CollectedOk(c)
    modifies v`grids, v`dirty, v`lastValid, v`scrolled, v`cur
    ensures v.Valid() && v.KeepsMarks(old(v.dirty), old(v.dirtyAll))
    ensures StateOf(v) == EditOf(old(StateOf(v)), c, final)
  {
    if Erases(final) {
      Erase(v, final == 0x4A, Param(c, 0, 0));
    } else if EditsChars(final) {
      EditChars(v, Count(c), final);
    } else if EditsLines(final) {
      EditLines(v, Count(c), final);
    }
  }

  method Erase(v: Vt, display: bool, mode: nat)
    requires v.Valid()
    modifies v`grids, v`dirty, v`lastValid, v`cur
    ensures v.Valid() && v.KeepsMarks(old(v.dirty), old(v.dirtyAll))
    ensures StateOf(v) == ErasedOf(old(StateOf(v)), display, mode)
  {
    if display {
      v.EraseDisplay(mode);
    } else {
      v.EraseLine(mode);
    }
  }

  method EditChars(v: Vt, n: nat, final: byte)
    requires v.Valid() && n > 0 && EditsChars(final)
    modifies v`grids, v`dirty, v`lastValid, v`cur
    ensures v.Valid() && v.KeepsMarks(old(v.dirty), old(v.dirtyAll))
    ensures StateOf(v) == CharsOf(old(StateOf(v)), n, final)
  {
    if final == 0x40 {
      v.InsertChars(n);
    } else {
      LoseChars(v, n, final);
    }
  }

  method LoseChars(v: Vt, n: nat, final: byte)
    requires v.Valid() && n > 0 && (final == 0x50 || final == 0x58)
    modifies v`grids, v`dirty, v`lastValid, v`cur
    ensures v.Valid() && v.KeepsMarks(old(v.dirty), old(v.dirtyAll))
    ensures StateOf(v) == CharsOf(old(StateOf(v)), n, final)
  {
    if final == 0x50 {
      v.DeleteChars(n);
    } else {
      v.EraseChars(n);
    }
  }

  method EditLines(v: Vt, n: nat, final: byte)
    requires v.Valid() && n > 0 && EditsLines(final)
    modifies v`grids, v`dirty, v`lastValid, v`scrolled, v`cur
    ensures v.Valid() && v.KeepsMarks(old(v.dirty), old(v.dirtyAll))
    ensures StateOf(v) == LinesOf(old(StateOf(v)), n, final)
  {
    if final == 0x4C {
      OpenLines(v, n);
    } else if final == 0x4D {
      DropLines(v, n);
    } else {
      ScrollPage(v, n, final);
    }
  }

  method OpenLines(v: Vt, n: nat)
    requires v.Valid() && n > 0
    modifies v`grids, v`dirty, v`lastValid, v`cur
    ensures v.Valid() && v.KeepsMarks(old(v.dirty), old(v.dirtyAll))
    ensures StateOf(v) == LinesOf(old(StateOf(v)), n, 0x4C)
  {
    v.InsertLines(n);
  }

  method DropLines(v: Vt, n: nat)
    requires v.Valid() && n > 0
    modifies v`grids, v`dirty, v`lastValid, v`scrolled, v`cur
    ensures v.Valid() && v.KeepsMarks(old(v.dirty), old(v.dirtyAll))
    ensures StateOf(v) == LinesOf(old(StateOf(v)), n, 0x4D)
  {
    v.DeleteLines(n);
  }

  method ScrollPage(v: Vt, n: nat, final: byte)
    requires v.Valid() && n > 0 && (final == 0x53 || final == 0x54)
    modifies v`grids, v`dirty, v`lastValid, v`scrolled
    ensures v.Valid() && v.KeepsMarks(old(v.dirty), old(v.dirtyAll))
    ensures StateOf(v) == LinesOf(old(StateOf(v)), n, final)
  {
    if final == 0x53 {
      ScrollPageUp(v, n);
    } else {
      v.ScrollRegionDown(v.top, v.bot, n);
    }
  }

  method ScrollPageUp(v: Vt, n: nat)
    requires v.Valid() && n > 0
    modifies v`grids, v`dirty, v`lastValid, v`scrolled
    ensures v.Valid() && v.KeepsMarks(old(v.dirty), old(v.dirtyAll))
    ensures StateOf(v) == LinesOf(old(StateOf(v)), n, 0x53)
  {
    v.ScrollRegionUp(v.top, v.bot, n);
  }

  /** The sequences without marker or intermediates. */
  method CsiPlain(v: Vt, c: Collected, final: byte)
    requires v.Valid() && CollectedOk(c)
    modifies v`grids, v`dirty, v`dirtyAll, v`lastRow, v`lastCol, v`lastValid, v`scrolled, v`cur, v`saved, v`modes,
      v`active, v`top, v`bot, v`tabs
    ensures v.Valid() && v.KeepsMarks(old(v.dirty), old(v.dirtyAll))
    ensures StateOf(v) == CsiPlainOf(old(StateOf(v)), c, final, v.width, v.combining)
  {
    var t := Target(c, final, v.cur, if v.modes.origin then v.top else 0);
    if t.Some? {
      v.MoveCursor(t.value.0, t.value.1);
    } else if Erases(final) || EditsChars(final) || EditsLines(final) {
      Edit(v, c, final);
    } else {
      CsiRest(v, c, final);
    }
  }

  method CsiRest(v: Vt, c: Collected, final: byte)
    requires v.Valid() && CollectedOk(c)
    modifies v`grids, v`dirty, v`dirtyAll, v`lastRow, v`lastCol, v`lastValid, v`scrolled, v`cur, v`saved, v`modes,
      v`active, v`top, v`bot, v`tabs
    ensures v.Valid() && v.KeepsMarks(old(v.dirty), old(v.dirtyAll))
    ensures StateOf(v) == CsiRestOf(old(StateOf(v)), c, final, v.width, v.combining)
  {
    if final == 0x62 {
      Repeat(v, Count(c));
    } else if final == 0x67 {
      ClearStops(v, Param(c, 0, 0) == 3);
    } else if final == 0x68 || final == 0x6C {
      SetModes(v, c, false, final == 0x68);
    } else {
      CsiCursor(v, c, final);
    }
  }

  method ClearStops(v: Vt, all: bool)
    requires v.Valid()
    modifies v`tabs
    ensures v.Valid() && StateOf(v) == old(StateOf(v)).(tabs := if all then {} else old(v.tabs) - {v.cur.col})
  {
    v.tabs := if all then {} else v.tabs - {v.cur.col};
  }

  /** SGR, DECSTBM, save and restore: nothing of the grid. */
  method CsiCursor(v: Vt, c: Collected, final: byte)
    requires v.Valid() && CollectedOk(c) && final != 0x62 && final != 0x67 && final != 0x68 && final != 0x6C
    modifies v`lastValid, v`cur, v`saved, v`modes, v`top, v`bot
    ensures v.Valid() && StateOf(v) == CsiRestOf(old(StateOf(v)), c, final, v.width, v.combining)
  {
    if final == 0x6D {
      Sgr(v, c);
    } else if final == 0x72 {
      SetRegion(v, Param(c, 0, 0), Param(c, 1, 0));
    } else if final == 0x73 {
      SaveCursor(v);
    } else if final == 0x75 {
      RestoreCursor(v);
    }
  }

  /** DECSTBM */
  method SetRegion(v: Vt, first: int, last: int)
    requires v.Valid()
    modifies v`lastValid, v`cur, v`top, v`bot
    ensures v.Valid() && StateOf(v) == RegionOf(old(StateOf(v)), first, last)
  {
    v.SetScrollRegion(first, last);
  }

  /** vt_do_csi; requests for a report change nothing. */
  method Csi(v: Vt, c: Collected, final: byte)
    requires v.Valid() && CollectedOk(c)
    modifies v`grids, v`dirty, v`dirtyAll, v`lastRow, v`lastCol, v`lastValid, v`scrolled, v`cur, v`saved, v`modes,
      v`active, v`top, v`bot, v`tabs
    ensures v.Valid() && v.KeepsMarks(old(v.dirty), old(v.dirtyAll))
    ensures StateOf(v) == CsiOf(old(StateOf(v)), c, final, v.width, v.combining)
  {
    if c.ninter > INTER_MAX {
      return;
    }
    if c.priv == 0x3F {
      if final == 0x68 || final == 0x6C {
        SetModes(v, c, true, final == 0x68);
      }
      return;
    }
    if c.priv != 0 || c.ninter != 0 {
      return;
    }
    CsiPlain(v, c, final);
  }

  /** One action of the parser; a finished OSC string only reaches callbacks. */
  method Act(v: Vt, a: Action)
    requires v.Valid() && ActionOk(a)
    modifies v`grids, v`dirty, v`dirtyAll, v`lastRow, v`lastCol, v`lastValid, v`scrolled, v`cur, v`saved, v`modes,
      v`active, v`top, v`bot, v`tabs
    ensures v.Valid() && v.KeepsMarks(old(v.dirty), old(v.dirtyAll))
    ensures StateOf(v) == Acted(old(StateOf(v)), a, v.width, v.combining)
  {
    match a {
      case Print(cp) => Print(v, cp);
      case Execute(c0) => Execute(v, c0);
      case EscDispatch(c, final) => Esc(v, c, final);
      case CsiDispatch(c, final) => Csi(v, c, final);
      case OscDispatch(_, _) =>
    }
  }

  /** vt_feed: what the bytes make of the engine is the run of the parser over them, acted out. No mark of damage is
      lost, and only damage clearing moves the reference picture. */
  method FeedVt(vt: Vt, machine: M.ParserMachine, data: seq<byte>)
    requires vt.Valid() && machine.Valid()
    modifies vt, machine
    ensures vt.Valid() && vt.shadow == old(vt.shadow) && vt.rows == old(vt.rows) && vt.cols == old(vt.cols)
    ensures vt.KeepsMarks(old(vt.dirty), old(vt.dirtyAll))
    ensures machine.Valid() && machine.fed == old(machine.fed) + data && ParserOk(old(machine.Now()))
    ensures StateOf(vt) == Fed(old(StateOf(vt)), old(machine.Now()), data, vt.width, vt.combining)
  {
    ghost var before, p, e := machine.fed, machine.Now(), StateOf(vt);
    M.NowOk(machine);
    for i := 0 to |data|
      invariant vt.Valid() && vt.shadow == old(vt.shadow) && vt.rows == old(vt.rows) && vt.cols == old(vt.cols)
      invariant vt.KeepsMarks(old(vt.dirty), old(vt.dirtyAll))
      invariant machine.Valid() && machine.fed == before + data[..i] && machine.Now() == R.Run(p, data[..i]).0
      invariant StateOf(vt) == Fed(e, p, data[..i], vt.width, vt.combining)
    {
      M.Snoc(before, data, i);
      FedMore(e, p, data, i, vt.width, vt.combining);
      FeedByte(vt, machine, data[i]);
    }
    assert data[..|data|] == data;
  }

  method FeedByte(vt: Vt, machine: M.ParserMachine, b: byte)
    requires vt.Valid() && machine.Valid()
    modifies vt, machine
    ensures vt.Valid() && vt.shadow == old(vt.shadow) && vt.rows == old(vt.rows) && vt.cols == old(vt.cols)
    ensures vt.KeepsMarks(old(vt.dirty), old(vt.dirtyAll))
    ensures machine.Valid() && machine.fed == old(machine.fed) + [b] && ParserOk(old(machine.Now()))
    ensures machine.Now() == Step(old(machine.Now()), b).0 && ActionsOk(Step(old(machine.Now()), b).1)
    ensures StateOf(vt) == ActedAll(old(StateOf(vt)), Step(old(machine.Now()), b).1, vt.width, vt.combining)
  {
    M.NowOk(machine);
    StepActionsOk(machine.Now(), b);
    var acts := machine.FeedOne(b);
    ActAll(vt, acts);
  }

  method ActAll(vt: Vt, acts: seq<Action>)
    requires vt.Valid() && ActionsOk(acts)
    modifies vt
    ensures vt.Valid() && vt.shadow == old(vt.shadow) && vt.rows == old(vt.rows) && vt.cols == old(vt.cols)
    ensures vt.KeepsMarks(old(vt.dirty), old(vt.dirtyAll))
    ensures StateOf(vt) == ActedAll(old(StateOf(vt)), acts, vt.width, vt.combining)
  {
    ghost var e := StateOf(vt);
    for i := 0 to |acts|
      invariant vt.Valid() && vt.shadow == old(vt.shadow) && vt.rows == old(vt.rows) && vt.cols == old(vt.cols)
      invariant vt.KeepsMarks(old(vt.dirty), old(vt.dirtyAll))
      invariant StateOf(vt) == ActedAll(e, acts[..i], vt.width, vt.combining)
    {
      ActNext(vt, acts, i, e);
    }
    assert acts[..|acts|] == acts;
  }

  method ActNext(vt: Vt, acts: seq<Action>, i: nat, ghost e: Engine)
    requires vt.Valid() && ActionsOk(acts) && i < |acts| && Ok(e)
    requires StateOf(vt) == ActedAll(e, acts[..i], vt.width, vt.combining)
    modifies vt
    ensures vt.Valid() && vt.shadow == old(vt.shadow) && vt.rows == old(vt.rows) && vt.cols == old(vt.cols)
    ensures vt.KeepsMarks(old(vt.dirty), old(vt.dirtyAll))
    ensures StateOf(vt) == ActedAll(e, acts[..i + 1], vt.width, vt.combining)
  {
    ActedNext(e, acts, i, vt.width, vt.combining);
    Act(vt, acts[i]);
  }

  datatype Event = Feed(data: seq<byte>) | Resize(rows: nat, cols: nat) | DamageClear

  class Terminal {
    const vt: Vt
    const machine: M.ParserMachine

    ghost predicate Valid()
      reads this, vt, machine
    {
      vt.Valid() && machine.Valid()
    }

    constructor (rows: nat, cols: nat, width: nat -> nat, combining: nat -> bool)
      requires Tables(width, combining)
      ensures Valid() && fresh(vt) && fresh(machine)
    {
      vt := new Vt(rows, cols, width, combining);
      machine := new M.ParserMachine();
    }

    method FeedBytes(data: seq<byte>)
      requires Valid()
      modifies vt, machine
      ensures Valid() && vt.shadow == old(vt.shadow) && vt.rows == old(vt.rows) && vt.cols == old(vt.cols)
      ensures vt.KeepsMarks(old(vt.dirty), old(vt.dirtyAll))
      ensures machine.fed == old(machine.fed) + data && ParserOk(old(machine.Now()))
      ensures StateOf(vt) == Fed(old(StateOf(vt)), old(machine.Now()), data, vt.width, vt.combining)
    {
      FeedVt(vt, machine, data);
    }

    method Handle(e: Event)
      requires Valid()
      modifies vt, machine
      ensures Valid() && vt.shadow == if e == DamageClear then vt.Visible() else old(vt.shadow)
    {
      match e {
        case Feed(data) => FeedBytes(data);
        case Resize(rows, cols) => vt.Resize(rows, cols);
        case DamageClear => vt.DamageClear();
      }
    }

    /** Any history of bytes, resizes and damage clears: the shape invariants hold after it, and a row reported clean
        holds exactly the cells it held when damage was last cleared. */
    method Play(events: seq<Event>)
      requires Valid()
      modifies vt, machine
      ensures Valid() && Clean()
      ensures NoClear(events) ==> vt.shadow == old(vt.shadow)
      ensures |events| > 0 && events[|events| - 1] == DamageClear ==> vt.shadow == vt.Visible()
    {
      for i := 0 to |events|
        invariant Valid() && (NoClear(events[..i]) ==> vt.shadow == old(vt.shadow))
        invariant i > 0 && events[i - 1] == DamageClear ==> vt.shadow == vt.Visible()
      {
        NoClearMore(events, i);
        Handle(events[i]);
      }
      assert events[..|events|] == events;
    }

    /** Every row reported clean is as it was when damage was last cleared. */
    ghost predicate Clean()
      requires vt.Valid()
      reads this, vt
    {
      forall r :: 0 <= r < vt.rows && !vt.RowDirty(r) ==> r < |vt.shadow| && vt.Visible()[r] == vt.shadow[r]
    }
  }

  ghost predicate NoClear(events: seq<Event>) {
    forall i :: 0 <= i < |events| ==> !events[i].DamageClear?
  }

  lemma NoClearMore(events: seq<Event>, i: nat)
    requires i < |events|
    ensures NoClear(events[..i + 1]) <==> NoClear(events[..i]) && !events[i].DamageClear?
  {
    assert events[..i + 1] == events[..i] + [events[i]];
    assert events[..i + 1][i] == events[i];
  }
}
