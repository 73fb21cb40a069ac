/** Control sequences from their bytes on (src/vt/vt_parser.c into src/vt/vt_dispatch.c): what the engine has become
    after ESC [, decimal parameters and a final byte, in the fields a reader of the screen sees. */
module Sequences {
  import opened Bytes
  import opened Cells
  import opened Screen
  import opened Parser
  import opened E = Engine
  import R = Replay

  // ---- parameters ----

  /** Numbers in decimal, with semicolons between them. */
  function Joined(ps: seq<nat>): seq<byte> {
    if |ps| == 0 then []
    else if |ps| == 1 then Decimal(ps[0])
    else Joined(ps[..|ps| - 1]) + [0x3B] + Decimal(ps[|ps| - 1])
  }

  /** ESC [ and what ends in a final byte. */
  function Control(ps: seq<nat>, final: byte): seq<byte> {
    [0x1B, 0x5B] + Joined(ps) + [final]
  }

  /** The same with the marker of DEC's private sequences. */
  function Private(ps: seq<nat>, final: byte): seq<byte> {
    [0x1B, 0x5B, 0x3F] + Joined(ps) + [final]
  }

  predicate InRange(ps: seq<nat>) {
    |ps| <= PARAMS_MAX && forall i :: 0 <= i < |ps| ==> ps[i] <= PARAM_CEILING
  }

  /** What holds exactly these parameters, n of them counted. */
  function Given(ps: seq<nat>, n: nat, priv: byte): (c: Collected)
    requires InRange(ps) && n <= PARAMS_MAX
    ensures CollectedOk(c)
  {
    Collected(seq(PARAMS_MAX, i requires 0 <= i => if i < |ps| then ps[i] else 0), seq(PARAMS_MAX, i => i < |ps|), n,
      false, [], 0, priv)
  }

  /** One number into the slot that is open. */
  function Entered(c: Collected, n: nat): Collected
    requires CollectedOk(c) && c.nparams < PARAMS_MAX
  {
    c.(params := c.params[c.nparams := n], seen := c.seen[c.nparams := true])
  }

  predicate Collecting(p: Parser) {
    ParserOk(p) && (p.state == CsiEntry || p.state == CsiParam)
  }

  lemma DigitStep(p: Parser, digit: nat)
    requires Collecting(p) && p.seqn.nparams < PARAMS_MAX && digit < 10
    requires p.seqn.params[p.seqn.nparams] <= 999999
    ensures Step(p, 0x30 + digit) ==
      (p.(seqn := Entered(p.seqn, p.seqn.params[p.seqn.nparams] * 10 + digit), state := CsiParam), [])
  {
  }

  /** Its digits bring a number of at most seven into the open slot. */
  lemma {:induction false} DigitsRun(p: Parser, n: nat)
    requires Collecting(p) && p.seqn.nparams < PARAMS_MAX && p.seqn.params[p.seqn.nparams] == 0 && n <= PARAM_CEILING
    ensures R.Run(p, Decimal(n)) == (p.(seqn := Entered(p.seqn, n), state := CsiParam), [])
  {
    if n < 10 {
      DigitStep(p, n);
      R.RunOne(p, 0x30 + n);
    } else {
      DigitsRun(p, n / 10);
      OneMoreDigit(p, Decimal(n / 10), n / 10, n % 10);
      assert n / 10 * 10 + n % 10 == n;
    }
  }

  lemma {:induction false} OneMoreDigit(p: Parser, digits: seq<byte>, m: nat, d: nat)
    requires Collecting(p) && p.seqn.nparams < PARAMS_MAX && m <= 999999 && d < 10
    requires R.Run(p, digits) == (p.(seqn := Entered(p.seqn, m), state := CsiParam), [])
    ensures R.Run(p, digits + [0x30 + d]) == (p.(seqn := Entered(p.seqn, m * 10 + d), state := CsiParam), [])
  {
    NextDigit(p, m, d);
    var q := R.Run(p, digits).0;
    R.RunOne(q, 0x30 + d);
    R.RunSplit(p, digits, [0x30 + d]);
  }

  lemma NextDigit(p: Parser, m: nat, d: nat)
    requires Collecting(p) && p.seqn.nparams < PARAMS_MAX && m <= 999999 && d < 10
    ensures var q := p.(seqn := Entered(p.seqn, m), state := CsiParam);
      && ParserOk(q)
      && Step(q, 0x30 + d) == (p.(seqn := Entered(p.seqn, m * 10 + d), state := CsiParam), [])
  {
    var q := p.(seqn := Entered(p.seqn, m), state := CsiParam);
    DigitStep(q, d);
    EnteredTwice(p.seqn, m, m * 10 + d);
    assert q.seqn.nparams == p.seqn.nparams && q.seqn.params[q.seqn.nparams] == m;
  }

  lemma EnteredTwice(c: Collected, m: nat, n: nat)
    requires CollectedOk(c) && c.nparams < PARAMS_MAX && m <= PARAM_CEILING
    ensures Entered(Entered(c, m), n) == Entered(c, n)
  {
    assert c.params[c.nparams := m][c.nparams := n] == c.params[c.nparams := n];
    assert c.seen[c.nparams := true][c.nparams := true] == c.seen[c.nparams := true];
  }

  lemma SemicolonStep(p: Parser)
    requires Collecting(p) && p.seqn.nparams < PARAMS_MAX
    ensures Step(p, 0x3B) == (p.(seqn := p.seqn.(nparams := p.seqn.nparams + 1), state := CsiParam), [])
  {
  }

  lemma GivenMore(ps: seq<nat>, priv: byte)
    requires InRange(ps) && |ps| > 0
    ensures var n := |ps| - 1; Entered(Given(ps[..n], n, priv), ps[n]) == Given(ps, n, priv)
  {
    var n := |ps| - 1;
    assert Entered(Given(ps[..n], n, priv), ps[n]).params == Given(ps, n, priv).params;
    assert Entered(Given(ps[..n], n, priv), ps[n]).seen == Given(ps, n, priv).seen;
  }

  /** A parser that has collected nothing collects the numbers, the last of them still open. */
  lemma {:induction false} JoinedRun(p: Parser, ps: seq<nat>)
    requires Collecting(p) && InRange(ps) && |ps| > 0 && p.seqn == Given([], 0, p.seqn.priv)
    ensures R.Run(p, Joined(ps)) == (p.(seqn := Given(ps, |ps| - 1, p.seqn.priv), state := CsiParam), [])
  {
    var n, priv := |ps| - 1, p.seqn.priv;
    if n == 0 {
      assert ps[..0] == [];
      DigitsRun(p, ps[0]);
      GivenMore(ps, priv);
    } else {
      JoinedRun(p, ps[..n]);
      var q := R.Run(p, Joined(ps[..n])).0;
      SemicolonStep(q);
      R.RunOne(q, 0x3B);
      R.RunSplit(p, Joined(ps[..n]), [0x3B]);
      var r := p.(seqn := Given(ps[..n], n, priv), state := CsiParam);
      assert Step(q, 0x3B).0 == r;
      DigitsRun(r, ps[n]);
      R.RunSplit(p, Joined(ps[..n]) + [0x3B], Decimal(ps[n]));
      GivenMore(ps, priv);
    }
  }

  /** ESC [ leaves a parser that has collected nothing. */
  lemma {:induction false} IntroRun(p: Parser)
    requires ParserOk(p) && R.Idle(p)
    ensures ParserOk(p.(seqn := Given([], 0, 0), state := CsiEntry))
    ensures R.Run(p, [0x1B, 0x5B]) == (p.(seqn := Given([], 0, 0), state := CsiEntry), [])
  {
    var a := Step(p, 0x1B).0;
    StepOk(p, 0x1B);
    R.RunOne(p, 0x1B);
    R.RunOne(a, 0x5B);
    R.RunSplit(p, [0x1B], [0x5B]);
    var e: seq<byte>, b: seq<byte> := [0x1B], [0x5B];
    assert e + b == [0x1B, 0x5B];
    assert Cleared() == Given([], 0, 0);
  }

  lemma MarkerStep(p: Parser)
    requires ParserOk(p) && p.state == CsiEntry && p.seqn == Given([], 0, 0)
    ensures Step(p, 0x3F) == (p.(seqn := Given([], 0, 0x3F), state := CsiParam), [])
  {
  }

  lemma {:induction false} MarkerRun(p: Parser)
    requires ParserOk(p) && R.Idle(p)
    ensures ParserOk(p.(seqn := Given([], 0, 0x3F), state := CsiParam))
    ensures R.Run(p, [0x1B, 0x5B, 0x3F]) == (p.(seqn := Given([], 0, 0x3F), state := CsiParam), [])
  {
    IntroRun(p);
    var q := p.(seqn := Given([], 0, 0), state := CsiEntry);
    MarkerStep(q);
    ThenOne(p, [0x1B, 0x5B], q, 0x3F, [0x1B, 0x5B, 0x3F]);
  }

  /** One byte more, behind bytes that dispatched nothing. */
  lemma {:induction false} ThenOne(p: Parser, bs: seq<byte>, q: Parser, b: byte, all: seq<byte>)
    requires ParserOk(p) && ParserOk(q) && R.Run(p, bs) == (q, []) && all == bs + [b]
    ensures R.Run(p, all) == Step(q, b)
  {
    assert all[..|all| - 1] == bs;
    R.RunLast(p, all);
    assert [] + Step(q, b).1 == Step(q, b).1;
  }

  lemma FinalStep(p: Parser, ps: seq<nat>, final: byte)
    requires Collecting(p) && InRange(ps) && 0x40 <= final <= 0x7E
    requires p.seqn == Given(ps, if |ps| > 0 then |ps| - 1 else 0, p.seqn.priv)
    ensures var c := Given(ps, |ps|, p.seqn.priv);
      Step(p, final) == (p.(seqn := c, state := Ground), [CsiDispatch(c, final)])
  {
  }

  /** The numbers and the final byte dispatch one sequence that holds them. */
  lemma {:induction false} RestRun(p: Parser, ps: seq<nat>, final: byte)
    requires Collecting(p) && InRange(ps) && p.seqn == Given([], 0, p.seqn.priv) && 0x40 <= final <= 0x7E
    ensures var c := Given(ps, |ps|, p.seqn.priv);
      R.Run(p, Joined(ps) + [final]) == (p.(seqn := c, state := Ground), [CsiDispatch(c, final)])
  {
    if |ps| == 0 {
      assert ps == [] && R.Run(p, Joined(ps)) == (p, []);
    } else {
      JoinedRun(p, ps);
    }
    var q := R.Run(p, Joined(ps)).0;
    FinalStep(q, ps, final);
    R.RunOne(q, final);
    R.RunSplit(p, Joined(ps), [final]);
  }

  lemma {:induction false} Introduced(p: Parser, intro: seq<byte>, ps: seq<nat>, final: byte)
    requires ParserOk(p) && InRange(ps) && 0x40 <= final <= 0x7E
    requires var (q, acts) := R.Run(p, intro); acts == [] && Collecting(q) && q.seqn == Given([], 0, q.seqn.priv)
    ensures var q := R.Run(p, intro).0;
      var c := Given(ps, |ps|, q.seqn.priv);
      R.Run(p, intro + Joined(ps) + [final]) == (q.(seqn := c, state := Ground), [CsiDispatch(c, final)])
  {
    RestRun(R.Run(p, intro).0, ps, final);
    var rest := Joined(ps) + [final];
    R.RunSplit(p, intro, rest);
    R.Assoc(intro, Joined(ps), [final]);
    assert intro + Joined(ps) + [final] == intro + rest;
    var (q, acts) := R.Run(R.Run(p, intro).0, rest);
    assert [] + acts == acts;
  }

  lemma {:induction false} ControlRun(p: Parser, ps: seq<nat>, final: byte)
    requires ParserOk(p) && R.Idle(p) && InRange(ps) && 0x40 <= final <= 0x7E
    ensures var c := Given(ps, |ps|, 0); R.Run(p, Control(ps, final)) == (p.(seqn := c), [CsiDispatch(c, final)])
  {
    IntroRun(p);
    Introduced(p, [0x1B, 0x5B], ps, final);
  }

  lemma {:induction false} PrivateRun(p: Parser, ps: seq<nat>, final: byte)
    requires ParserOk(p) && R.Idle(p) && InRange(ps) && 0x40 <= final <= 0x7E
    ensures var c := Given(ps, |ps|, 0x3F); R.Run(p, Private(ps, final)) == (p.(seqn := c), [CsiDispatch(c, final)])
  {
    MarkerRun(p);
    Introduced(p, [0x1B, 0x5B, 0x3F], ps, final);
  }

  lemma EscapeRun(p: Parser, final: byte)
    requires ParserOk(p) && R.Idle(p) && 0x30 <= final <= 0x7E && final !in {0x50, 0x58, 0x5B, 0x5D, 0x5E, 0x5F}
    ensures R.Run(p, [0x1B, final]) == (p.(seqn := Cleared()), [EscDispatch(Cleared(), final)])
  {
    var q := Step(p, 0x1B).0;
    StepOk(p, 0x1B);
    R.RunOne(p, 0x1B);
    R.RunOne(q, final);
    R.RunSplit(p, [0x1B], [final]);
    var e: seq<byte>, b: seq<byte> := [0x1B], [final];
    assert e + b == [0x1B, final];
  }

  /** Bytes that dispatch one action are that action carried out. */
  lemma FedOne(e: Engine, p: Parser, data: seq<byte>, a: Action, width: nat -> nat, combining: nat -> bool)
    requires Ok(e) && ParserOk(p) && Tables(width, combining) && R.Run(p, data).1 == [a]
    ensures ActionOk(a) && Fed(e, p, data, width, combining) == Acted(e, a, width, combining)
  {
    RunActionsOk(p, data);
    assert ActionsOk([a]) && [a][0] == a;
    assert [a][..0] == [];
    assert ActedAll(e, [], width, combining) == e;
  }

  /** A control sequence fed to an idle parser is carried out, once, with the numbers its bytes say; the parser is idle
      again. */
  lemma {:induction false} ControlFed(e: Engine, p: Parser, ps: seq<nat>, final: byte, width: nat -> nat,
      combining: nat -> bool)
    requires Ok(e) && ParserOk(p) && R.Idle(p) && Tables(width, combining) && InRange(ps) && 0x40 <= final <= 0x7E
    ensures R.Idle(R.Run(p, Control(ps, final)).0)
    ensures Fed(e, p, Control(ps, final), width, combining) ==
      CsiPlainOf(e, Given(ps, |ps|, 0), final, width, combining)
  {
    ControlRun(p, ps, final);
    FedOne(e, p, Control(ps, final), CsiDispatch(Given(ps, |ps|, 0), final), width, combining);
  }

  lemma {:induction false} PrivateFed(e: Engine, p: Parser, ps: seq<nat>, final: byte, width: nat -> nat,
      combining: nat -> bool)
    requires Ok(e) && ParserOk(p) && R.Idle(p) && Tables(width, combining) && InRange(ps)
    requires final == 0x68 || final == 0x6C
    ensures R.Idle(R.Run(p, Private(ps, final)).0)
    ensures Fed(e, p, Private(ps, final), width, combining) ==
      ModesOf(e, Given(ps, |ps|, 0x3F), |ps|, true, final == 0x68)
  {
    PrivateRun(p, ps, final);
    FedOne(e, p, Private(ps, final), CsiDispatch(Given(ps, |ps|, 0x3F), final), width, combining);
  }

  lemma {:induction false} EscapeFed(e: Engine, p: Parser, final: byte, width: nat -> nat, combining: nat -> bool)
    requires Ok(e) && ParserOk(p) && R.Idle(p) && Tables(width, combining) && 0x30 <= final <= 0x7E
    requires final !in {0x50, 0x58, 0x5B, 0x5D, 0x5E, 0x5F}
    ensures R.Idle(R.Run(p, [0x1B, final]).0)
    ensures Fed(e, p, [0x1B, final], width, combining) == EscPlainOf(e, final)
  {
    EscapeRun(p, final);
    FedOne(e, p, [0x1B, final], EscDispatch(Cleared(), final), width, combining);
  }

  // ---- the cursor ----

  /** The cursor elsewhere, out of a held wrap; nothing else is touched but that a combining mark finds no cell. */
  ghost function At(e: Engine, row: nat, col: nat): Engine {
    e.(cur := e.cur.(row := row, col := col, pendingWrap := false), last := None)
  }

  function Within(v: int, lo: nat, hi: nat): nat
    requires lo <= hi
  {
    if v < lo then lo else if v > hi then hi else v
  }

  /** The rows a cursor may be moved in. */
  ghost function FirstRow(e: Engine): nat {
    if e.modes.origin then e.top else 0
  }

  ghost function LastRow(e: Engine): nat
    requires Ok(e)
  {
    if e.modes.origin then e.bot else e.rows - 1
  }

  lemma MovedAt(e: Engine, row: int, col: int)
    requires Ok(e)
    ensures Moved(e, row, col) ==
      At(e, Within(FirstRow(e) + row, FirstRow(e), LastRow(e)), Within(col, 0, e.cols - 1))
  {
  }

  lemma {:induction false} CursorFed(e: Engine, p: Parser, ps: seq<nat>, final: byte, row: int, col: int,
      width: nat -> nat, combining: nat -> bool)
    requires Ok(e) && ParserOk(p) && R.Idle(p) && Tables(width, combining) && InRange(ps) && 0x40 <= final <= 0x7E
    requires Target(Given(ps, |ps|, 0), final, e.cur, FirstRow(e)) == Some((row, col))
    ensures R.Idle(R.Run(p, Control(ps, final)).0)
    ensures Fed(e, p, Control(ps, final), width, combining) ==
      At(e, Within(FirstRow(e) + row, FirstRow(e), LastRow(e)), Within(col, 0, e.cols - 1))
  {
    ControlFed(e, p, ps, final, width, combining);
    MovedAt(e, row, col);
  }

  lemma TargetTo(r: nat, c: nat, final: byte, cur: Cursor, base: nat)
    requires r <= PARAM_CEILING && c <= PARAM_CEILING && (final == 0x48 || final == 0x66)
    ensures Target(Given([r, c], 2, 0), final, cur, base) == Some((r - 1, c - 1))
    ensures Target(Given([], 0, 0), final, cur, base) == Some((0, 0))
  {
  }

  /** ESC [ r ; c H, and the same with f: counted from 1, no further than the screen; in origin mode counted from the
      top of the region and no further than its end. */
  lemma {:induction false} CursorTo(e: Engine, p: Parser, r: nat, c: nat, final: byte, width: nat -> nat,
      combining: nat -> bool)
    requires Ok(e) && ParserOk(p) && R.Idle(p) && Tables(width, combining)
    requires 1 <= r <= PARAM_CEILING && 1 <= c <= PARAM_CEILING && (final == 0x48 || final == 0x66)
    ensures R.Idle(R.Run(p, Control([r, c], final)).0)
    ensures Fed(e, p, Control([r, c], final), width, combining) ==
      At(e, if e.modes.origin then e.top + Min(r, e.bot - e.top + 1) - 1 else Min(r, e.rows) - 1, Min(c, e.cols) - 1)
  {
    TargetTo(r, c, final, e.cur, FirstRow(e));
    CursorFed(e, p, [r, c], final, r - 1, c - 1, width, combining);
  }

  /** Without parameters it goes home. */
  lemma {:induction false} CursorHome(e: Engine, p: Parser, final: byte, width: nat -> nat, combining: nat -> bool)
    requires Ok(e) && ParserOk(p) && R.Idle(p) && Tables(width, combining) && (final == 0x48 || final == 0x66)
    ensures Fed(e, p, Control([], final), width, combining) == At(e, if e.modes.origin then e.top else 0, 0)
  {
    TargetTo(0, 0, final, e.cur, FirstRow(e));
    CursorFed(e, p, [], final, 0, 0, width, combining);
  }

  /** The finals of the sequences that take one number. */
  datatype Motion = Up | Down | Right | Left | NextLine | PreviousLine | ToColumn | ToRow

  function Final(m: Motion): byte {
    match m
    case Up => 0x41 case Down => 0x42 case Right => 0x43 case Left => 0x44
    case NextLine => 0x45 case PreviousLine => 0x46 case ToColumn => 0x47 case ToRow => 0x64
  }

  /** What n asks for, before the cursor is kept on the screen. */
  function Destination(m: Motion, n: nat, row: int, col: int, first: nat): (int, int) {
    match m
    case Up => (row - n, col)
    case Down => (row + n, col)
    case Right => (row, col + n)
    case Left => (row, col - n)
    case NextLine => (row + n, 0)
    case PreviousLine => (row - n, 0)
    case ToColumn => (row, n - 1)
    case ToRow => (first + n - 1, col)
  }

  lemma TargetBy(m: Motion, n: nat, ps: seq<nat>, cur: Cursor, base: nat)
    requires (ps == [n] && 1 <= n <= PARAM_CEILING) || (n == 1 && (ps == [] || ps == [0]))
    ensures InRange(ps)
    ensures var (row, col) := Destination(m, n, cur.row, cur.col, base);
      Target(Given(ps, |ps|, 0), Final(m), cur, base) == Some((row - base, col))
  {
  }

  /** A and B: n rows up or down; C and D: n columns on or back; E and F: to the start of the n-th row below or above;
      G and d: to column or row n, counted from 1 and, in origin mode, from the top of the region. The cursor stays on
      the screen, and in origin mode in the region. No parameter and 0 stand for 1. */
  lemma {:induction false} CursorBy(e: Engine, p: Parser, m: Motion, n: nat, ps: seq<nat>, width: nat -> nat,
      combining: nat -> bool)
    requires Ok(e) && ParserOk(p) && R.Idle(p) && Tables(width, combining)
    requires (ps == [n] && 1 <= n <= PARAM_CEILING) || (n == 1 && (ps == [] || ps == [0]))
    ensures R.Idle(R.Run(p, Control(ps, Final(m))).0)
    ensures var (row, col) := Destination(m, n, e.cur.row, e.cur.col, FirstRow(e));
      Fed(e, p, Control(ps, Final(m)), width, combining) ==
        At(e, Within(row, FirstRow(e), LastRow(e)), Within(col, 0, e.cols - 1))
  {
    TargetBy(m, n, ps, e.cur, FirstRow(e));
    var (row, col) := Destination(m, n, e.cur.row, e.cur.col, FirstRow(e));
    CursorFed(e, p, ps, Final(m), row - FirstRow(e), col, width, combining);
  }

  // ---- the pen ----

  ghost function Penned(e: Engine, pen: Pen): Engine {
    e.(cur := e.cur.(pen := pen))
  }

  lemma {:induction false} PenFed(e: Engine, p: Parser, ps: seq<nat>, pen: Pen, width: nat -> nat,
      combining: nat -> bool)
    requires Ok(e) && ParserOk(p) && R.Idle(p) && Tables(width, combining) && InRange(ps)
    requires pen == if ps == [] then PLAIN else PenAfter(Given(ps, |ps|, 0), 0, e.cur.pen)
    ensures R.Idle(R.Run(p, Control(ps, 0x6D)).0)
    ensures Fed(e, p, Control(ps, 0x6D), width, combining) == Penned(e, pen)
  {
    ControlFed(e, p, ps, 0x6D, width, combining);
    SgrInks(e, Given(ps, |ps|, 0), width, combining);
  }

  lemma SgrInks(e: Engine, c: Collected, width: nat -> nat, combining: nat -> bool)
    requires Ok(e) && CollectedOk(c) && Tables(width, combining)
    ensures CsiPlainOf(e, c, 0x6D, width, combining) ==
      Penned(e, if c.nparams == 0 then PLAIN else PenAfter(c, 0, e.cur.pen))
  {
  }

  /** One plain parameter. */
  lemma PenOne(n: nat, pen: Pen)
    requires n <= PARAM_CEILING && n != 38 && n != 48
    ensures PenAfter(Given([n], 1, 0), 0, pen) == Plain(pen, n)
  {
    var c := Given([n], 1, 0);
    assert PenAfter(c, 1, Plain(pen, n)) == Plain(pen, n);
  }

  lemma PenIndexed(base: nat, n: nat, pen: Pen)
    requires (base == 38 || base == 48) && n <= PARAM_CEILING
    ensures PenAfter(Given([base, 5, n], 3, 0), 0, pen) == Painted(pen, base, Indexed(n))
  {
    var c := Given([base, 5, n], 3, 0);
    assert PenAfter(c, 3, Painted(pen, base, Indexed(n))) == Painted(pen, base, Indexed(n));
  }

  lemma PenDirect(base: nat, r: nat, g: nat, b: nat, pen: Pen)
    requires (base == 38 || base == 48) && r <= PARAM_CEILING && g <= PARAM_CEILING && b <= PARAM_CEILING
    ensures PenAfter(Given([base, 2, r, g, b], 5, 0), 0, pen) == Painted(pen, base, Rgb(r, g, b))
  {
    var c := Given([base, 2, r, g, b], 5, 0);
    assert PenAfter(c, 5, Painted(pen, base, Rgb(r, g, b))) == Painted(pen, base, Rgb(r, g, b));
  }

  lemma {:induction false} PenOneFed(e: Engine, p: Parser, n: nat, width: nat -> nat, combining: nat -> bool)
    requires Ok(e) && ParserOk(p) && R.Idle(p) && Tables(width, combining) && n <= PARAM_CEILING && n != 38 && n != 48
    ensures R.Idle(R.Run(p, Control([n], 0x6D)).0)
    ensures Fed(e, p, Control([n], 0x6D), width, combining) == Penned(e, Plain(e.cur.pen, n))
  {
    PenOne(n, e.cur.pen);
    PenFed(e, p, [n], Plain(e.cur.pen, n), width, combining);
  }

  /** The parameter that turns a style on. */
  function CodeOf(s: Style): nat {
    match s
    case Bold => 1 case Dim => 2 case Italic => 3 case Underline => 4
    case Blink => 5 case Reverse => 7 case Invisible => 8 case Strike => 9
  }

  lemma PlainOn(pen: Pen, s: Style)
    ensures Plain(pen, CodeOf(s)) == Pen(pen.fg, pen.bg, pen.style + {s})
  {
  }

  lemma PlainOff(pen: Pen, s: Style)
    ensures Plain(pen, if s == Bold then 22 else 20 + CodeOf(s)) ==
      Pen(pen.fg, pen.bg, pen.style - if s == Bold || s == Dim then {Bold, Dim} else {s})
  {
  }

  /** ESC [ m and ESC [ 0 m: the plain pen. */
  lemma {:induction false} PenReset(e: Engine, p: Parser, width: nat -> nat, combining: nat -> bool)
    requires Ok(e) && ParserOk(p) && R.Idle(p) && Tables(width, combining)
    ensures Fed(e, p, Control([], 0x6D), width, combining) == Penned(e, Pen(DEFAULT_COLOR, DEFAULT_COLOR, {}))
    ensures Fed(e, p, Control([0], 0x6D), width, combining) == Penned(e, Pen(DEFAULT_COLOR, DEFAULT_COLOR, {}))
  {
    PenFed(e, p, [], PLAIN, width, combining);
    PenOneFed(e, p, 0, width, combining);
  }

  /** Each style has a parameter that adds it and nothing else. */
  lemma {:induction false} StyleOn(e: Engine, p: Parser, s: Style, width: nat -> nat, combining: nat -> bool)
    requires Ok(e) && ParserOk(p) && R.Idle(p) && Tables(width, combining)
    ensures var pen := e.cur.pen;
      Fed(e, p, Control([CodeOf(s)], 0x6D), width, combining) == Penned(e, Pen(pen.fg, pen.bg, pen.style + {s}))
  {
    PlainOn(e.cur.pen, s);
    PenOneFed(e, p, CodeOf(s), width, combining);
  }

  /** Twenty more takes it away; bold and dim go together, with 22. */
  lemma {:induction false} StyleOff(e: Engine, p: Parser, s: Style, width: nat -> nat, combining: nat -> bool)
    requires Ok(e) && ParserOk(p) && R.Idle(p) && Tables(width, combining)
    ensures var pen := e.cur.pen;
      Fed(e, p, Control([if s == Bold then 22 else 20 + CodeOf(s)], 0x6D), width, combining) ==
        Penned(e, Pen(pen.fg, pen.bg, pen.style - if s == Bold || s == Dim then {Bold, Dim} else {s}))
  {
    PlainOff(e.cur.pen, s);
    PenOneFed(e, p, if s == Bold then 22 else 20 + CodeOf(s), width, combining);
  }

  /** Parameters for the background are those for the foreground and ten. */
  ghost function Colored(pen: Pen, back: bool, c: Color): Pen {
    if back then Pen(pen.fg, c, pen.style) else Pen(c, pen.bg, pen.style)
  }

  /** 38;5;n and 48;5;n: color n of 256, in its low byte. */
  lemma {:induction false} IndexedColor(e: Engine, p: Parser, back: bool, n: nat, width: nat -> nat,
      combining: nat -> bool)
    requires Ok(e) && ParserOk(p) && R.Idle(p) && Tables(width, combining) && n <= PARAM_CEILING
    ensures Fed(e, p, Control([if back then 48 else 38, 5, n], 0x6D), width, combining) ==
      Penned(e, Colored(e.cur.pen, back, 0x100_0000 + n % 256))
  {
    var base := if back then 48 else 38;
    PenIndexed(base, n, e.cur.pen);
    PenFed(e, p, [base, 5, n], Colored(e.cur.pen, back, 0x100_0000 + n % 256), width, combining);
  }

  /** 38;2;r;g;b and 48;2;r;g;b: red highest, blue lowest, each in a byte. */
  lemma {:induction false} DirectColor(e: Engine, p: Parser, back: bool, r: nat, g: nat, b: nat, width: nat -> nat,
      combining: nat -> bool)
    requires Ok(e) && ParserOk(p) && R.Idle(p) && Tables(width, combining)
    requires r <= PARAM_CEILING && g <= PARAM_CEILING && b <= PARAM_CEILING
    ensures Fed(e, p, Control([if back then 48 else 38, 2, r, g, b], 0x6D), width, combining) ==
      Penned(e, Colored(e.cur.pen, back, 0x200_0000 + r % 256 * 0x1_0000 + g % 256 * 0x100 + b % 256))
  {
    var base := if back then 48 else 38;
    PenDirect(base, r, g, b, e.cur.pen);
    PenFed(e, p, [base, 2, r, g, b], Painted(e.cur.pen, base, Rgb(r, g, b)), width, combining);
  }

  /** The parameters of the eight colors, of their bright forms and of the default one. */
  predicate Names(code: nat, back: bool, c: Color) {
    var base := if back then 40 else 30;
    || (base <= code < base + 8 && c == 0x100_0000 + (code - base))
    || (base + 60 <= code < base + 68 && c == 0x100_0008 + (code - base - 60))
    || (code == base + 9 && c == DEFAULT_COLOR)
  }

  lemma PlainColor(pen: Pen, code: nat, back: bool, c: Color)
    requires Names(code, back, c)
    ensures Plain(pen, code) == Colored(pen, back, c)
  {
  }

  lemma {:induction false} BasicColor(e: Engine, p: Parser, code: nat, back: bool, c: Color, width: nat -> nat,
      combining: nat -> bool)
    requires Ok(e) && ParserOk(p) && R.Idle(p) && Tables(width, combining) && Names(code, back, c)
    ensures Fed(e, p, Control([code], 0x6D), width, combining) == Penned(e, Colored(e.cur.pen, back, c))
  {
    PlainColor(e.cur.pen, code, back, c);
    PenOneFed(e, p, code, width, combining);
  }

  // ---- several parameters ----

  /** From parameter i on no color is cut short. */
  predicate Complete(ps: seq<nat>, i: nat)
    requires i <= |ps|
    decreases |ps| - i
  {
    if i == |ps| then true
    else if ps[i] != 38 && ps[i] != 48 then Complete(ps, i + 1)
    else if i + 2 < |ps| && ps[i + 1] == 5 then Complete(ps, i + 3)
    else if i + 4 < |ps| && ps[i + 1] == 2 then Complete(ps, i + 5)
    else false
  }

  lemma {:induction false} PenShifted(ps: seq<nat>, qs: seq<nat>, j: nat, pen: Pen)
    requires InRange(ps) && InRange(qs) && InRange(ps + qs) && j <= |qs|
    ensures PenAfter(Given(ps + qs, |ps + qs|, 0), |ps| + j, pen) == PenAfter(Given(qs, |qs|, 0), j, pen)
    decreases |qs| - j
  {
    var c, d := Given(ps + qs, |ps + qs|, 0), Given(qs, |qs|, 0);
    forall k: nat, dflt: int
      ensures Param(c, |ps| + k, dflt) == Param(d, k, dflt)
    {
    }
    if j < |qs| {
      var q := Param(d, j, 0);
      assert Param(c, |ps| + j, 0) == q && Param(c, |ps| + j + 1, -1) == Param(d, j + 1, -1);
      if q != 38 && q != 48 {
        PenShifted(ps, qs, j + 1, Plain(pen, q));
      } else if Param(d, j + 1, -1) == 5 && j + 2 < |qs| {
        PenShifted(ps, qs, j + 3, Painted(pen, q, Indexed(Param(d, j + 2, 0))));
      } else if Param(d, j + 1, -1) == 2 && j + 4 < |qs| {
        PenShifted(ps, qs, j + 5, Painted(pen, q, Rgb(Param(d, j + 2, 0), Param(d, j + 3, 0), Param(d, j + 4, 0))));
      }
    }
  }

  lemma {:induction false} PenJoined(ps: seq<nat>, qs: seq<nat>, i: nat, pen: Pen)
    requires InRange(ps) && InRange(qs) && InRange(ps + qs) && i <= |ps| && Complete(ps, i)
    ensures PenAfter(Given(ps + qs, |ps + qs|, 0), i, pen) ==
      PenAfter(Given(qs, |qs|, 0), 0, PenAfter(Given(ps, |ps|, 0), i, pen))
    decreases |ps| - i
  {
    var c, d := Given(ps + qs, |ps + qs|, 0), Given(ps, |ps|, 0);
    forall k: nat, dflt: int | k < |ps|
      ensures Param(c, k, dflt) == Param(d, k, dflt) == ps[k]
    {
    }
    if i == |ps| {
      PenShifted(ps, qs, 0, pen);
    } else {
      var q := Param(d, i, 0);
      if q != 38 && q != 48 {
        PenJoined(ps, qs, i + 1, Plain(pen, q));
      } else if Param(d, i + 1, -1) == 5 && i + 2 < |ps| {
        PenJoined(ps, qs, i + 3, Painted(pen, q, Indexed(Param(d, i + 2, 0))));
      } else {
        PenJoined(ps, qs, i + 5, Painted(pen, q, Rgb(Param(d, i + 2, 0), Param(d, i + 3, 0), Param(d, i + 4, 0))));
      }
    }
  }

  /** Parameters in one sequence are those in two, one after the other, unless the cut goes through a color. */
  lemma {:induction false} SgrSplits(e: Engine, p: Parser, ps: seq<nat>, qs: seq<nat>, width: nat -> nat,
      combining: nat -> bool)
    requires Ok(e) && ParserOk(p) && R.Idle(p) && Tables(width, combining) && |ps| > 0 && |qs| > 0
    requires InRange(ps) && InRange(qs) && InRange(ps + qs) && Complete(ps, 0)
    ensures Fed(e, p, Control(ps + qs, 0x6D), width, combining) ==
      Fed(e, p, Control(ps, 0x6D) + Control(qs, 0x6D), width, combining)
  {
    var pen := PenAfter(Given(ps, |ps|, 0), 0, e.cur.pen);
    PenJoined(ps, qs, 0, e.cur.pen);
    var last := PenAfter(Given(qs, |qs|, 0), 0, pen);
    PenFed(e, p, ps + qs, last, width, combining);
    PenFed(e, p, ps, pen, width, combining);
    PenFed(Penned(e, pen), R.Run(p, Control(ps, 0x6D)).0, qs, last, width, combining);
    FedSplit(e, p, Control(ps, 0x6D), Control(qs, 0x6D), width, combining);
  }
}
