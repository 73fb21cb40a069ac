/** The alternate screen (src/vt/vt_dispatch.c, modes 47, 1047, 1048 and 1049): whatever a program does on it, the
    primary screen, its saved cursor and the scrollback are left alone, and come back when it leaves. */
module AltScreen {
  import opened Bytes
  import opened Cells
  import opened Screen
  import opened Parser
  import opened E = Engine
  import opened Sequences
  import opened Switches
  import R = Replay

  /** The modes that turn the alternate screen on and off. */
  predicate SwitchesScreen(mode: int) {
    mode == 47 || mode == 1047 || mode == 1049
  }

  /** The actions after which the primary screen may be shown: a reset, and those modes turned off. */
  predicate Leaves(a: Action)
    requires ActionOk(a)
  {
    match a
    case EscDispatch(c, final) => c.ninter == 0 && final == 0x63
    case CsiDispatch(c, final) =>
      c.priv == 0x3F && final == 0x6C && exists i :: 0 <= i < c.nparams && SwitchesScreen(Param(c, i, 0))
    case _ => false
  }

  /** The alternate screen is shown, and what belongs to the primary one is as it was. */
  ghost predicate Aside(e: Engine, f: Engine)
    requires Ok(e) && Ok(f)
  {
    && f.active == 1 && f.grids[0] == e.grids[0] && f.saved[0] == e.saved[0] && f.scrolled == e.scrolled
    && f.rows == e.rows && f.cols == e.cols
  }

  // ---- printing ----

  lemma NewlineAside(s: Sheet, u: Setup)
    requires SheetOk(s, u) && !u.primary
    ensures NewlineOf(s, u).out == s.out && WrapOf(s, u).out == s.out
  {
  }

  lemma PutAside(s: Sheet, u: Setup, cp: nat, w: nat)
    requires SheetOk(s, u) && !u.primary && Printable(cp)
    ensures PutOf(s, u, cp, w).out == s.out
  {
    NewlineAside(s, u);
    var a := if s.cur.pendingWrap && u.autowrap then WrapOf(s, u) else s;
    NewlineAside(TailCleared(a, u), u);
  }

  lemma GlyphAside(e: Engine, cp: nat, w: nat, combining: bool)
    requires Ok(e) && e.active == 1 && (w > 0 ==> Printable(cp)) && !Surrogate(cp) && (combining ==> cp >= 0x300)
    ensures Aside(e, PutOn(e, cp, w, combining))
  {
    if w > 0 {
      PutAside(SheetOf(e), SetupOf(e), cp, w);
    }
  }

  lemma PrintAside(e: Engine, cp: nat, width: nat -> nat, combining: nat -> bool)
    requires Ok(e) && e.active == 1 && Tables(width, combining)
    ensures Aside(e, Printed(e, cp, width, combining))
  {
    var d := Drawn(cp, Graphics(e.cur));
    if d.Some? {
      GlyphAside(e, d.value, width(d.value), combining(d.value));
    }
  }

  lemma {:induction false} RepeatAside(e: Engine, cp: nat, mark: nat, n: nat, width: nat -> nat,
      combining: nat -> bool)
    requires Ok(e) && e.active == 1 && Tables(width, combining) && Printable(cp) && (mark != 0 ==> Markable(mark))
    ensures Aside(e, RepeatOf(e, cp, mark, n, width, combining))
  {
    if n > 0 {
      RepeatAside(e, cp, mark, n - 1, width, combining);
      var g := RepeatOf(e, cp, mark, n - 1, width, combining);
      GlyphAside(g, cp, width(cp), combining(cp));
      if mark != 0 {
        GlyphAside(PutOn(g, cp, width(cp), combining(cp)), mark, 0, combining(mark));
      }
    }
  }

  // ---- the rest ----

  lemma ExecuteAside(e: Engine, c0: byte)
    requires Ok(e) && e.active == 1
    ensures Aside(e, Executed(e, c0))
  {
    NewlineAside(SheetOf(e), SetupOf(e));
  }

  lemma EscAside(e: Engine, c: Collected, final: byte)
    requires Ok(e) && e.active == 1 && CollectedOk(c) && !(c.ninter == 0 && final == 0x63)
    ensures Aside(e, EscOf(e, c, final))
  {
    NewlineAside(SheetOf(e), SetupOf(e));
  }

  lemma EditAside(e: Engine, c: Collected, final: byte)
    requires Ok(e) && e.active == 1 && CollectedOk(c)
    ensures Aside(e, EditOf(e, c, final))
  {
  }

  lemma ModeAside(e: Engine, private: bool, mode: int, on: bool)
    requires Ok(e) && e.active == 1 && (private && !on ==> !SwitchesScreen(mode))
    ensures Aside(e, ModeOf(e, private, mode, on))
  {
  }

  lemma {:induction false} ModesAside(e: Engine, c: Collected, n: nat, private: bool, on: bool)
    requires Ok(e) && e.active == 1 && CollectedOk(c)
    requires private && !on ==> forall i :: 0 <= i < n ==> !SwitchesScreen(Param(c, i, 0))
    ensures Aside(e, ModesOf(e, c, n, private, on))
  {
    if n > 0 {
      ModesAside(e, c, n - 1, private, on);
      ModeAside(ModesOf(e, c, n - 1, private, on), private, Param(c, n - 1, 0), on);
    }
  }

  lemma RestAside(e: Engine, c: Collected, final: byte, width: nat -> nat, combining: nat -> bool)
    requires Ok(e) && e.active == 1 && CollectedOk(c) && Tables(width, combining)
    ensures Aside(e, CsiRestOf(e, c, final, width, combining))
  {
    if final == 0x62 {
      RepeatedAside(e, Count(c), width, combining);
    } else if final == 0x68 || final == 0x6C {
      ModesAside(e, c, c.nparams, false, final == 0x68);
    } else {
      OthersAside(e, c, final, width, combining);
    }
  }

  lemma OthersAside(e: Engine, c: Collected, final: byte, width: nat -> nat, combining: nat -> bool)
    requires Ok(e) && e.active == 1 && CollectedOk(c) && Tables(width, combining) && final !in {0x62, 0x68, 0x6C}
    ensures Aside(e, CsiRestOf(e, c, final, width, combining))
  {
  }

  lemma RepeatedAside(e: Engine, n: nat, width: nat -> nat, combining: nat -> bool)
    requires Ok(e) && e.active == 1 && Tables(width, combining)
    ensures Aside(e, Repeated(e, n, width, combining))
  {
    var prev := Before(e.grids[e.active], e.cur);
    if prev.cp != 0 {
      RepeatAside(e, prev.cp, prev.comb, Min(n, COLS_MAX), width, combining);
    }
  }

  lemma PlainAside(e: Engine, c: Collected, final: byte, width: nat -> nat, combining: nat -> bool)
    requires Ok(e) && e.active == 1 && CollectedOk(c) && Tables(width, combining)
    ensures Aside(e, CsiPlainOf(e, c, final, width, combining))
  {
    EditAside(e, c, final);
    RestAside(e, c, final, width, combining);
  }

  lemma CsiAside(e: Engine, c: Collected, final: byte, width: nat -> nat, combining: nat -> bool)
    requires Ok(e) && e.active == 1 && CollectedOk(c) && Tables(width, combining) && !Leaves(CsiDispatch(c, final))
    ensures Aside(e, CsiOf(e, c, final, width, combining))
  {
    if c.priv == 0x3F && (final == 0x68 || final == 0x6C) {
      ModesAside(e, c, c.nparams, true, final == 0x68);
    } else {
      PlainAside(e, c, final, width, combining);
    }
  }

  lemma ActionAside(e: Engine, a: Action, width: nat -> nat, combining: nat -> bool)
    requires Ok(e) && e.active == 1 && ActionOk(a) && Tables(width, combining) && !Leaves(a)
    ensures Aside(e, Acted(e, a, width, combining))
  {
    match a
    case Print(cp) => PrintAside(e, cp, width, combining);
    case Execute(c0) => ExecuteAside(e, c0);
    case EscDispatch(c, final) => EscAside(e, c, final);
    case CsiDispatch(c, final) => CsiAside(e, c, final, width, combining);
    case OscDispatch(_, _) =>
  }

  /** None of the actions leaves. */
  ghost predicate Stays(acts: seq<Action>)
    requires ActionsOk(acts)
  {
    forall i :: 0 <= i < |acts| ==> !Leaves(acts[i])
  }

  lemma {:induction false} ActionsAside(e: Engine, acts: seq<Action>, width: nat -> nat, combining: nat -> bool)
    requires Ok(e) && e.active == 1 && ActionsOk(acts) && Tables(width, combining) && Stays(acts)
    ensures Aside(e, ActedAll(e, acts, width, combining))
  {
    if |acts| > 0 {
      var n := |acts| - 1;
      ActionsAside(e, acts[..n], width, combining);
      ActionAside(ActedAll(e, acts[..n], width, combining), acts[n], width, combining);
    }
  }

  /** Bytes fed while the alternate screen is shown touch nothing of the primary one, unless they leave it. */
  lemma {:induction false} BytesAside(e: Engine, p: Parser, data: seq<byte>, width: nat -> nat, combining: nat -> bool)
    requires Ok(e) && e.active == 1 && ParserOk(p) && Tables(width, combining)
    requires ActionsOk(R.Run(p, data).1) && Stays(R.Run(p, data).1)
    ensures Aside(e, Fed(e, p, data, width, combining))
  {
    ActionsAside(e, R.Run(p, data).1, width, combining);
  }

  // ---- there and back ----

  /** ESC [ ? 1049 h on the primary screen: its cursor is kept, and a blank alternate screen is shown. */
  lemma {:induction false} EntersFed(e: Engine, p: Parser, width: nat -> nat, combining: nat -> bool)
    requires Ok(e) && ParserOk(p) && R.Idle(p) && Tables(width, combining) && e.active == 0
    ensures R.Idle(R.Run(p, Private([1049], 0x68)).0)
    ensures var f := Fed(e, p, Private([1049], 0x68), width, combining);
      && f.active == 1 && f.grids[0] == e.grids[0] && f.scrolled == e.scrolled && f.rows == e.rows && f.cols == e.cols
      && f.saved[0] == e.cur.(origin := e.modes.origin) && f.cur == e.cur.(pendingWrap := false)
      && (forall r, c :: 0 <= r < f.rows && 0 <= c < f.cols ==>
        f.grids[1][r][c] == Cell(0, DEFAULT_COLOR, e.cur.pen.bg, {}, false, false, 0))
  {
    PrivateFed(e, p, [1049], 0x68, width, combining);
    OneMode(e, 1049, true, true, 0x3F);
  }

  /** ESC [ ? 1049 l on the alternate one: the primary screen again, with the cursor it had. */
  lemma {:induction false} LeavesFed(e: Engine, p: Parser, width: nat -> nat, combining: nat -> bool)
    requires Ok(e) && ParserOk(p) && R.Idle(p) && Tables(width, combining) && e.active == 1
    ensures R.Idle(R.Run(p, Private([1049], 0x6C)).0)
    ensures var f := Fed(e, p, Private([1049], 0x6C), width, combining);
      && f.active == 0 && f.grids == e.grids && f.scrolled == e.scrolled
      && f.cur == e.saved[0].(pendingWrap := false) && f.modes.origin == e.saved[0].origin
  {
    PrivateFed(e, p, [1049], 0x6C, width, combining);
    OneMode(e, 1049, true, false, 0x3F);
  }

  /** A program that goes to the alternate screen, does there whatever it likes short of leaving it, and leaves with
      every sequence finished, finds the primary screen as it was: every cell, the lines handed to the scrollback, and
      the cursor with its pen and character sets. */
  lemma {:induction false} ScreenComesBack(e: Engine, p: Parser, data: seq<byte>, width: nat -> nat,
      combining: nat -> bool)
    requires Ok(e) && ParserOk(p) && R.Idle(p) && Tables(width, combining) && e.active == 0
    requires var (q, acts) := R.Run(R.Run(p, Private([1049], 0x68)).0, data);
      R.Idle(q) && ActionsOk(acts) && Stays(acts)
    ensures var f := Fed(e, p, Private([1049], 0x68) + data + Private([1049], 0x6C), width, combining);
      && f.active == 0 && f.grids[0] == e.grids[0] && f.scrolled == e.scrolled
      && f.cur == e.cur.(pendingWrap := false, origin := e.modes.origin) && f.modes.origin == e.modes.origin
  {
    var enter, leave := Private([1049], 0x68), Private([1049], 0x6C);
    EntersFed(e, p, width, combining);
    var f, q := Fed(e, p, enter, width, combining), R.Run(p, enter).0;
    BytesAside(f, q, data, width, combining);
    FedSplit(e, p, enter, data, width, combining);
    LeavesFed(Fed(f, q, data, width, combining), R.Run(q, data).0, width, combining);
    FedSplit(e, p, enter + data, leave, width, combining);
  }
}
