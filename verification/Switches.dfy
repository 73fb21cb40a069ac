/** Modes, the saved cursor and strings, from their bytes on (src/vt/vt_dispatch.c, src/vt/vt_parser.c). */
module Switches {
  import opened Bytes
  import opened Cells
  import opened Screen
  import opened Parser
  import opened E = Engine
  import opened Sequences
  import R = Replay

  // ---- modes ----

  lemma {:induction false} OneMode(e: Engine, mode: nat, private: bool, on: bool, priv: byte)
    requires Ok(e) && mode <= PARAM_CEILING
    ensures ModesOf(e, Given([mode], 1, priv), 1, private, on) == ModeOf(e, private, mode, on)
  {
    var c := Given([mode], 1, priv);
    assert Param(c, 0, 0) == mode;
    assert ModesOf(e, c, 0, private, on) == e;
  }

  /** ESC [ ? 6 h and l: origin mode, and the cursor home. */
  lemma {:induction false} OriginFed(e: Engine, p: Parser, on: bool, width: nat -> nat, combining: nat -> bool)
    requires Ok(e) && ParserOk(p) && R.Idle(p) && Tables(width, combining)
    ensures Fed(e, p, Private([6], if on then 0x68 else 0x6C), width, combining) ==
      At(e.(modes := e.modes.(origin := on)), if on then e.top else 0, 0)
  {
    PrivateModeFed(e, p, 6, on, width, combining);
    MovedAt(e.(modes := e.modes.(origin := on)), 0, 0);
  }

  /** What a flag of its own number is after ESC [ ? 7 or 25 h and l: autowrap, and whether the cursor is shown. */
  lemma {:induction false} FlagFed(e: Engine, p: Parser, mode: nat, on: bool, width: nat -> nat, combining: nat -> bool)
    requires Ok(e) && ParserOk(p) && R.Idle(p) && Tables(width, combining) && (mode == 7 || mode == 25)
    ensures Fed(e, p, Private([mode], if on then 0x68 else 0x6C), width, combining) ==
      e.(modes := if mode == 7 then e.modes.(autowrap := on) else e.modes.(visible := on))
  {
    PrivateModeFed(e, p, mode, on, width, combining);
  }

  lemma InsertIs(e: Engine, c: Collected, on: bool, width: nat -> nat, combining: nat -> bool)
    requires Ok(e) && CollectedOk(c) && Tables(width, combining)
    ensures CsiPlainOf(e, c, if on then 0x68 else 0x6C, width, combining) == ModesOf(e, c, c.nparams, false, on)
  {
    var final := if on then 0x68 else 0x6C;
    NoEdit(e, c, final, width, combining);
  }

  /** Sequences that neither move nor edit. */
  lemma NoEdit(e: Engine, c: Collected, final: byte, width: nat -> nat, combining: nat -> bool)
    requires Ok(e) && CollectedOk(c) && Tables(width, combining) && final in {0x68, 0x6C, 0x73, 0x75}
    ensures CsiPlainOf(e, c, final, width, combining) == CsiRestOf(e, c, final, width, combining)
  {
    assert Target(c, final, e.cur, if e.modes.origin then e.top else 0) == None;
  }

  /** ESC [ 4 h and l: insert mode. */
  lemma {:induction false} InsertFed(e: Engine, p: Parser, on: bool, width: nat -> nat, combining: nat -> bool)
    requires Ok(e) && ParserOk(p) && R.Idle(p) && Tables(width, combining)
    ensures Fed(e, p, Control([4], if on then 0x68 else 0x6C), width, combining) ==
      e.(modes := e.modes.(insert := on))
  {
    ControlFed(e, p, [4], if on then 0x68 else 0x6C, width, combining);
    InsertIs(e, Given([4], 1, 0), on, width, combining);
    OneMode(e, 4, false, on, 0);
  }

  lemma {:induction false} PrivateModeFed(e: Engine, p: Parser, mode: nat, on: bool, width: nat -> nat,
      combining: nat -> bool)
    requires Ok(e) && ParserOk(p) && R.Idle(p) && Tables(width, combining) && mode <= PARAM_CEILING
    ensures R.Idle(R.Run(p, Private([mode], if on then 0x68 else 0x6C)).0)
    ensures Fed(e, p, Private([mode], if on then 0x68 else 0x6C), width, combining) == ModeOf(e, true, mode, on)
  {
    PrivateFed(e, p, [mode], if on then 0x68 else 0x6C, width, combining);
    OneMode(e, mode, true, on, 0x3F);
  }

  // ---- the saved cursor ----

  /** ESC 7 and ESC [ s. */
  predicate Saves(bs: seq<byte>) {
    bs == [0x1B, 0x37] || bs == Control([], 0x73)
  }

  /** ESC 8 and ESC [ u. */
  predicate Restores(bs: seq<byte>) {
    bs == [0x1B, 0x38] || bs == Control([], 0x75)
  }

  lemma {:induction false} SaveFed(e: Engine, p: Parser, bs: seq<byte>, width: nat -> nat, combining: nat -> bool)
    requires Ok(e) && ParserOk(p) && R.Idle(p) && Tables(width, combining) && Saves(bs)
    ensures Fed(e, p, bs, width, combining) == Saved(e)
  {
    if bs == [0x1B, 0x37] {
      EscapeFed(e, p, 0x37, width, combining);
    } else {
      ControlFed(e, p, [], 0x73, width, combining);
      NoEdit(e, Given([], 0, 0), 0x73, width, combining);
    }
  }

  lemma {:induction false} RestoreFed(e: Engine, p: Parser, bs: seq<byte>, width: nat -> nat, combining: nat -> bool)
    requires Ok(e) && ParserOk(p) && R.Idle(p) && Tables(width, combining) && Restores(bs)
    ensures Fed(e, p, bs, width, combining) == Restored(e)
  {
    if bs == [0x1B, 0x38] {
      EscapeFed(e, p, 0x38, width, combining);
    } else {
      RestoreControlFed(e, p, width, combining);
    }
  }

  lemma {:induction false} RestoreControlFed(e: Engine, p: Parser, width: nat -> nat, combining: nat -> bool)
    requires Ok(e) && ParserOk(p) && R.Idle(p) && Tables(width, combining)
    ensures Fed(e, p, Control([], 0x75), width, combining) == Restored(e)
  {
    ControlFed(e, p, [], 0x75, width, combining);
    NoEdit(e, Given([], 0, 0), 0x75, width, combining);
  }

  /** The cursor that was saved comes back, with its pen, character sets and origin mode, whatever came between, as long
      as the same screen is shown and none was saved for it again. */
  lemma {:induction false} SavedComesBack(e: Engine, p: Parser, save: seq<byte>, f: Engine, q: Parser,
      restore: seq<byte>,
      width: nat -> nat, combining: nat -> bool)
    requires Ok(e) && ParserOk(p) && R.Idle(p) && Tables(width, combining) && Saves(save)
    requires Ok(f) && ParserOk(q) && R.Idle(q) && Restores(restore) && f.active == e.active
    requires f.saved[e.active] == Fed(e, p, save, width, combining).saved[e.active]
    ensures Fed(f, q, restore, width, combining) ==
      f.(cur := e.cur.(pendingWrap := false, origin := e.modes.origin), modes := f.modes.(origin := e.modes.origin))
  {
    SaveFed(e, p, save, width, combining);
    RestoreFed(f, q, restore, width, combining);
  }

  // ---- strings ----

  /** Bytes that neither end nor cancel a string. */
  predicate Quoted(text: seq<byte>) {
    forall i :: 0 <= i < |text| ==> text[i] >= 0x20
  }

  lemma {:induction false} OscOpens(p: Parser)
    requires ParserOk(p) && R.Idle(p)
    ensures R.Run(p, [0x1B, 0x5D]) == (p.(seqn := Cleared(), state := OscString, osc := [], oscOverflow := false), [])
  {
    var q := Step(p, 0x1B).0;
    StepOk(p, 0x1B);
    R.RunOne(p, 0x1B);
    R.RunOne(q, 0x5D);
    R.RunSplit(p, [0x1B], [0x5D]);
    var a: seq<byte>, b: seq<byte> := [0x1B], [0x5D];
    assert a + b == [0x1B, 0x5D];
  }

  /** What an OSC string has gathered: as much as there is room for. */
  lemma {:induction false} OscGathers(p: Parser, text: seq<byte>)
    requires ParserOk(p) && p.state == OscString && p.osc == [] && !p.oscOverflow && Quoted(text)
    ensures R.Run(p, text) == (p.(osc := text[..Min(|text|, 4095)], oscOverflow := |text| > 4095), [])
  {
    if |text| > 0 {
      var n := |text| - 1;
      OscGathers(p, text[..n]);
      OscByte(p, text);
      var q := p.(osc := text[..n][..Min(n, 4095)], oscOverflow := n > 4095);
      assert R.Run(p, text[..n]) == (q, []);
      R.RunLast(p, text);
      assert Step(q, text[n]) == (p.(osc := text[..Min(|text|, 4095)], oscOverflow := |text| > 4095), []);
      assert R.Run(p, text).1 == [] + Step(q, text[n]).1 == [];
      assert R.Run(p, text).0 == Step(q, text[n]).0;
    } else {
      assert text[..0] == [];
    }
  }

  lemma {:induction false} OscByte(p: Parser, text: seq<byte>)
    requires ParserOk(p) && p.state == OscString && |text| > 0 && Quoted(text)
    ensures var n := |text| - 1;
      var q := p.(osc := text[..n][..Min(n, 4095)], oscOverflow := n > 4095);
      && ParserOk(q)
      && Step(q, text[n]) == (p.(osc := text[..Min(|text|, 4095)], oscOverflow := |text| > 4095), [])
  {
    var n := |text| - 1;
    assert text[..n][..Min(n, 4095)] == text[..Min(n, 4095)];
    if n < 4095 {
      assert text[..n] + [text[n]] == text[..|text|];
    }
  }

  /** An OSC string is handed over with its text, cut at 4095 bytes, and the screen is left alone. */
  lemma {:induction false} OscRun(p: Parser, text: seq<byte>)
    requires ParserOk(p) && R.Idle(p) && Quoted(text)
    ensures var (q, acts) := R.Run(p, [0x1B, 0x5D] + text + [0x07]);
      R.Idle(q) && acts == [OscDispatch(text[..Min(|text|, 4095)], |text| > 4095)]
  {
    OscOpens(p);
    var q := R.Run(p, [0x1B, 0x5D]).0;
    OscGathers(q, text);
    R.RunSplit(p, [0x1B, 0x5D], text);
    var r := R.Run(q, text).0;
    R.RunOne(r, 0x07);
    R.RunSplit(p, [0x1B, 0x5D] + text, [0x07]);
  }

  /** In a device control string. */
  predicate InDcs(p: Parser) {
    p.u8 == 0 && (p.state == DcsEntry || p.state == DcsPass)
  }

  lemma {:induction false} DcsSwallows(p: Parser, body: seq<byte>)
    requires ParserOk(p) && InDcs(p) && forall i :: 0 <= i < |body| ==> body[i] !in {0x18, 0x1A, 0x1B}
    ensures R.Run(p, body).1 == [] && InDcs(R.Run(p, body).0)
  {
    if |body| > 0 {
      DcsSwallows(p, body[..|body| - 1]);
      R.RunLast(p, body);
    }
  }

  lemma {:induction false} DcsEndRun(p: Parser)
    requires ParserOk(p) && InDcs(p)
    ensures var (q, acts) := R.Run(p, [0x1B, 0x5C]);
      R.Idle(q) && acts == if p.state == DcsEntry then [EscDispatch(Cleared(), 0x5C)] else []
  {
    var q := Step(p, 0x1B).0;
    StepOk(p, 0x1B);
    R.RunOne(p, 0x1B);
    R.RunOne(q, 0x5C);
    R.RunSplit(p, [0x1B], [0x5C]);
    var a: seq<byte>, b: seq<byte> := [0x1B], [0x5C];
    assert a + b == [0x1B, 0x5C];
  }

  lemma {:induction false} DcsEnds(e: Engine, p: Parser, bs: seq<byte>, width: nat -> nat, combining: nat -> bool)
    requires Ok(e) && ParserOk(p) && Tables(width, combining)
    requires R.Run(p, bs).1 == [EscDispatch(Cleared(), 0x5C)] || R.Run(p, bs).1 == []
    ensures Fed(e, p, bs, width, combining) == e
  {
    if R.Run(p, bs).1 == [] {
      NothingDispatched(e, p, bs, width, combining);
    } else {
      FedOne(e, p, bs, EscDispatch(Cleared(), 0x5C), width, combining);
    }
  }

  lemma DcsOpens(p: Parser)
    requires ParserOk(p) && R.Idle(p)
    ensures R.Run(p, [0x1B, 0x50]).1 == [] && InDcs(R.Run(p, [0x1B, 0x50]).0)
  {
    var q := Step(p, 0x1B).0;
    StepOk(p, 0x1B);
    R.RunOne(p, 0x1B);
    R.RunOne(q, 0x50);
    R.RunSplit(p, [0x1B], [0x50]);
    var a: seq<byte>, b: seq<byte> := [0x1B], [0x50];
    assert a + b == [0x1B, 0x50];
  }

  /** A device control string that is neither cut nor cancelled does nothing at all. */
  lemma {:induction false} DcsFed(e: Engine, p: Parser, body: seq<byte>, width: nat -> nat, combining: nat -> bool)
    requires Ok(e) && ParserOk(p) && R.Idle(p) && Tables(width, combining)
    requires forall i :: 0 <= i < |body| ==> body[i] !in {0x18, 0x1A, 0x1B}
    ensures R.Idle(R.Run(p, [0x1B, 0x50] + body + [0x1B, 0x5C]).0)
    ensures Fed(e, p, [0x1B, 0x50] + body + [0x1B, 0x5C], width, combining) == e
  {
    var dcs: seq<byte>, end: seq<byte> := [0x1B, 0x50], [0x1B, 0x5C];
    DcsOpens(p);
    var q := R.Run(p, dcs).0;
    DcsSwallows(q, body);
    R.RunSplit(p, dcs, body);
    var r := R.Run(p, dcs + body).0;
    NothingDispatched(e, p, dcs + body, width, combining);
    DcsEndRun(r);
    DcsEnds(e, r, end, width, combining);
    FedSplit(e, p, dcs + body, end, width, combining);
  }

  lemma {:induction false} NothingDispatched(e: Engine, p: Parser, data: seq<byte>, width: nat -> nat,
      combining: nat -> bool)
    requires Ok(e) && ParserOk(p) && Tables(width, combining) && R.Run(p, data).1 == []
    ensures Fed(e, p, data, width, combining) == e
  {
  }
}
