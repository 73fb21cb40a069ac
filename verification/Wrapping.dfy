/** Text longer than the row (src/vt/vt_screen.c, vt_screen_put): where it stands, row after row, on the page made of
    the lines handed to the scrollback and the screen below them. */
module Wrapping {
  import opened Bytes
  import opened Cells
  import opened Screen
  import opened Parser
  import opened E = Engine
  import M = Modular
  import R = Replay

  /** A primary screen that scrolls as a whole, with autowrap and no insert mode. */
  ghost predicate Flows(u: Setup, rows: nat) {
    u.primary && u.autowrap && !u.insert && u.top == 0 && u.bot + 1 == rows
  }

  /** The lines handed out since, and the screen. */
  ghost function PageOf(s: Sheet, t: Sheet): Grid
    requires |s.out| <= |t.out|
  {
    t.out[|s.out|..] + t.grid
  }

  /** The row of the page the cursor is in. */
  ghost function RowOf(s: Sheet, t: Sheet): int {
    |t.out| - |s.out| + t.cur.row
  }

  /** The column the next character is due in; behind the last one where a wrap is held. */
  ghost function Due(t: Sheet, u: Setup): nat {
    if t.cur.pendingWrap then u.cols else t.cur.col
  }

  /** Character k stands in the row and column that counting on from the cursor gives. */
  ghost predicate Stands(s: Sheet, t: Sheet, u: Setup, cps: seq<nat>, k: nat)
    requires u.cols >= 1 && |s.out| <= |t.out| && k < |cps| && Printable(cps[k])
  {
    var at := Due(s, u) + k;
    var row, col := s.cur.row + at / u.cols, at % u.cols;
    && row <= RowOf(s, t) && row < |PageOf(s, t)| && col < |PageOf(s, t)[row]|
    && PageOf(s, t)[row][col] == Lead(cps[k], s.cur.pen, 1)
  }

  /** The page with the text on it. The cursor is behind its last character, the rows above the text and below the
      cursor are as they were, and nothing scrolled before the last row was reached. */
  ghost predicate Flowed(s: Sheet, t: Sheet, u: Setup, cps: seq<nat>)
    requires u.cols >= 1 && forall k :: 0 <= k < |cps| ==> Printable(cps[k])
  {
    && s.out <= t.out && |t.grid| == |s.grid| && t.cur.pen == s.cur.pen && s.cur.row <= RowOf(s, t)
    && (RowOf(s, t) - s.cur.row) * u.cols + Due(t, u) == Due(s, u) + |cps|
    && (|t.out| > |s.out| ==> t.cur.row == u.bot)
    && s.cur.row <= |s.grid| <= |PageOf(s, t)|
    && (forall i :: 0 <= i < s.cur.row ==> PageOf(s, t)[i] == s.grid[i])
    && (forall i :: RowOf(s, t) < i < |s.grid| ==> PageOf(s, t)[i] == s.grid[i])
    && forall k :: 0 <= k < |cps| ==> Stands(s, t, u, cps, k)
  }

  /** The page in which one row was written. */
  lemma PagePut(s: Sheet, t: Sheet, u: Setup, cp: nat)
    requires SheetOk(t, u) && Printable(cp) && s.out <= t.out && Flows(u, |t.grid|) && !t.cur.pendingWrap
    ensures var f, pg := GlyphPut(t, u, cp, 1), PageOf(s, t);
      && RowOf(s, f) == RowOf(s, t) < |pg| && pg[RowOf(s, t)] == t.grid[t.cur.row]
      && PageOf(s, f) == pg[RowOf(s, t) := Written(t.grid[t.cur.row], t.cur.col, cp, t.cur.pen, 1)]
      && Due(f, u) == Due(t, u) + 1
  {
    var f := GlyphPut(t, u, cp, 1);
    var k := |t.out| - |s.out|;
    assert PageOf(s, t)[k + t.cur.row] == t.grid[t.cur.row];
    assert PageOf(s, f) == PageOf(s, t)[k + t.cur.row := Written(t.grid[t.cur.row], t.cur.col, cp, t.cur.pen, 1)];
  }

  /** A wrap goes to the next row of the page, which is a blank one where the screen ends. */
  lemma PageWrap(s: Sheet, t: Sheet, u: Setup)
    requires SheetOk(t, u) && s.out <= t.out && Flows(u, |t.grid|)
    ensures var f, pg := WrapOf(t, u), PageOf(s, t);
      && s.out <= f.out && !f.cur.pendingWrap && f.cur.col == 0 && RowOf(s, f) == RowOf(s, t) + 1
      && (|f.out| > |s.out| ==> f.cur.row == u.bot || |t.out| > |s.out|)
      && (|t.out| > |s.out| && t.cur.row == u.bot ==> f.cur.row == u.bot)
      && PageOf(s, f) == if t.cur.row == u.bot then pg + [BlankRow(u.cols, Blank(t.cur.pen.bg))] else pg
  {
    var f := WrapOf(t, u);
    if t.cur.row == u.bot {
      var blank := BlankRow(u.cols, Blank(t.cur.pen.bg));
      assert f.grid == t.grid[1..] + [blank];
      assert f.out[|s.out|..] == t.out[|s.out|..] + t.grid[..1];
    }
  }

  lemma {:induction false} WrapFlows(s: Sheet, t: Sheet, u: Setup, cps: seq<nat>)
    requires SheetOk(t, u) && SheetOk(s, u) && Flows(u, |t.grid|) && t.cur.pendingWrap
    requires (forall k :: 0 <= k < |cps| ==> Printable(cps[k])) && Flowed(s, t, u, cps)
    ensures Flowed(s, WrapOf(t, u), u, cps)
  {
    var f := WrapOf(t, u);
    PageWrap(s, t, u);
    OneRowMore(RowOf(s, t) - s.cur.row, u.cols);
    assert PageOf(s, t) <= PageOf(s, f);
    forall k | 0 <= k < |cps|
      ensures Stands(s, f, u, cps, k)
    {
      StillStands(s, t, f, u, cps, k);
    }
  }

  lemma OneRowMore(q: int, cols: nat)
    ensures q * cols + cols == (q + 1) * cols
  {
  }

  lemma {:induction false} StillStands(s: Sheet, t: Sheet, f: Sheet, u: Setup, cps: seq<nat>, k: nat)
    requires u.cols >= 1 && |s.out| <= |t.out| && |s.out| <= |f.out| && k < |cps| && Printable(cps[k])
    requires PageOf(s, t) <= PageOf(s, f) && RowOf(s, t) <= RowOf(s, f) && Stands(s, t, u, cps, k)
    ensures Stands(s, f, u, cps, k)
  {
  }

  /** Characters before it in the same row are in columns before it. */
  lemma Earlier(row: nat, cols: nat, col: nat, at: nat)
    requires cols >= 1 && col < cols && at < row * cols + col
    ensures at / cols <= row && (at / cols == row ==> at % cols < col)
  {
    var q := at / cols;
    assert at == q * cols + at % cols && (q - row) * cols == q * cols - row * cols;
    if q > row {
      M.MulAtLeast(q - row, cols);
    }
  }

  lemma {:induction false} StandsOn(s: Sheet, t: Sheet, u: Setup, cps: seq<nat>, cp: nat, k: nat)
    requires SheetOk(t, u) && Flows(u, |t.grid|) && !t.cur.pendingWrap && Printable(cp) && u.cols >= 1
    requires (forall k :: 0 <= k < |cps| ==> Printable(cps[k])) && Flowed(s, t, u, cps) && k < |cps|
    ensures Stands(s, GlyphPut(t, u, cp, 1), u, cps, k)
  {
    PagePut(s, t, u, cp);
    var at := Due(s, u) + k;
    assert Stands(s, t, u, cps, k);
    Earlier(RowOf(s, t) - s.cur.row, u.cols, t.cur.col, at);
    if at / u.cols == RowOf(s, t) - s.cur.row {
      NarrowKeeps(t.grid[t.cur.row], t.cur.col, cp, t.cur.pen, at % u.cols);
    }
  }

  lemma {:induction false} GlyphFlows(s: Sheet, t: Sheet, u: Setup, cps: seq<nat>)
    requires SheetOk(t, u) && Flows(u, |t.grid|) && !t.cur.pendingWrap && |cps| > 0
    requires (forall k :: 0 <= k < |cps| ==> Printable(cps[k])) && Flowed(s, t, u, cps[..|cps| - 1])
    ensures Flowed(s, GlyphPut(t, u, cps[|cps| - 1], 1), u, cps)
  {
    var n := |cps| - 1;
    var f := GlyphPut(t, u, cps[n], 1);
    PagePut(s, t, u, cps[n]);
    forall k | 0 <= k < |cps|
      ensures Stands(s, f, u, cps, k)
    {
      if k < n {
        StandsOn(s, t, u, cps[..n], cps[n], k);
      } else {
        LastStands(s, t, u, cps);
      }
    }
  }

  lemma {:induction false} LastStands(s: Sheet, t: Sheet, u: Setup, cps: seq<nat>)
    requires SheetOk(t, u) && Flows(u, |t.grid|) && !t.cur.pendingWrap && |cps| > 0 && t.cur.pen == s.cur.pen
    requires Printable(cps[|cps| - 1]) && s.out <= t.out && s.cur.row <= RowOf(s, t)
    requires (RowOf(s, t) - s.cur.row) * u.cols + Due(t, u) == Due(s, u) + |cps| - 1
    ensures Stands(s, GlyphPut(t, u, cps[|cps| - 1], 1), u, cps, |cps| - 1)
  {
    var n := |cps| - 1;
    PagePut(s, t, u, cps[n]);
    M.DivUnique(Due(s, u) + n, u.cols, RowOf(s, t) - s.cur.row, t.cur.col);
  }

  /** Text of any length flows on from the cursor: character after character in its row and column of the page, lines
      that leave the top of the screen handed out in order above the rest. */
  lemma {:induction false} TextFlows(s: Sheet, u: Setup, cps: seq<nat>)
    requires SheetOk(s, u) && Flows(u, |s.grid|) && forall k :: 0 <= k < |cps| ==> Printable(cps[k])
    ensures Flowed(s, TypeOf(s, u, cps), u, cps)
  {
    if |cps| > 0 {
      var n := |cps| - 1;
      TextFlows(s, u, cps[..n]);
      var t := TypeOf(s, u, cps[..n]);
      if t.cur.pendingWrap {
        WrapFlows(s, t, u, cps[..n]);
        GlyphFlows(s, WrapOf(t, u), u, cps);
      } else {
        GlyphFlows(s, t, u, cps);
      }
    } else {
      assert PageOf(s, s) == s.grid;
    }
  }

  /** A wide character due in the last column is not split: it goes to the start of the next row, and the column it left
      is blank. */
  lemma WideWraps(s: Sheet, u: Setup, cp: nat)
    requires SheetOk(s, u) && Printable(cp) && u.autowrap && !u.insert && u.cols >= 2 && !s.cur.pendingWrap
    requires s.cur.col == u.cols - 1 && s.cur.row < u.bot
    requires var below := s.grid[s.cur.row + 1];
      !below[0].wide && !below[1].wide && !below[0].spacer && !below[1].spacer
    ensures var t := PutOf(s, u, cp, 2);
      && t.grid[s.cur.row] == s.grid[s.cur.row][u.cols - 1 := Blank(s.cur.pen.bg)]
      && t.grid[s.cur.row + 1] == s.grid[s.cur.row + 1][0 := Lead(cp, s.cur.pen, 2)][1 := Spacer(s.cur.pen)]
      && t.out == s.out && t.cur.row == s.cur.row + 1 && Due(t, u) == 2
      && forall r :: 0 <= r < |s.grid| && r != s.cur.row && r != s.cur.row + 1 ==> t.grid[r] == s.grid[r]
  {
    var line := s.grid[s.cur.row];
    assert Filled(line, u.cols - 1, u.cols, Blank(s.cur.pen.bg)) == line[u.cols - 1 := Blank(s.cur.pen.bg)];
  }

  /** The same from bytes: plain text of any length fed to an idle parser. */
  lemma BytesFlow(e: Engine, p: Parser, text: seq<byte>, width: nat -> nat, combining: nat -> bool)
    requires Ok(e) && ParserOk(p) && R.Idle(p) && Tables(width, combining) && !Graphics(e.cur) && PlainText(text, width)
    requires Flows(SetupOf(e), e.rows)
    ensures Flowed(SheetOf(e), SheetOf(Fed(e, p, text, width, combining)), SetupOf(e), CodePoints(text))
  {
    TextFed(e, p, text, width, combining);
    TextFlows(SheetOf(e), SetupOf(e), CodePoints(text));
  }
}
