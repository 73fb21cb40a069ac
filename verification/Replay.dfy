/** Replaying unfinished sequences (src/vt/vt_parser.c, record_pending; src/vt/vt_render.c, the last bytes of a
    snapshot): the bytes recorded since the parser was last idle bring a fresh parser to the same live state. */
module Replay {
  import opened Bytes
  import opened Parser
  import U = Utf8

  predicate Idle(p: Parser) {
    p.state == Ground && p.u8 == U.ACCEPT
  }

  /** Controls the recorder leaves out: all but ESC and NUL. */
  predicate Skipped(b: byte) {
    b < 0x20 && b != 0x1B && b != 0
  }

  /** Where a control that is left out does change something: CAN or SUB in mid-sequence, any right behind an ESC that
      cut a character short, BEL in an OSC string, any behind an ESC in a string of either kind. */
  predicate Matters(p: Parser, b: byte) {
    || ((b == 0x18 || b == 0x1A) && p.state != Ground)
    || (p.state == Escape && p.u8 != U.ACCEPT)
    || (p.state == OscString && b == 0x07)
    || p.state == OscEsc || p.state == DcsIgnore
  }

  predicate UsesSequence(s: State) {
    s == Escape || s == EscapeInt || s == CsiEntry || s == CsiParam || s == CsiInt
  }

  predicate UsesString(s: State) {
    s == OscString || s == OscEsc
  }

  /** The same state, and the same contents wherever that state still reads them. */
  predicate Alike(p: Parser, q: Parser) {
    && p.state == q.state && p.u8 == q.u8 && (p.u8 != U.ACCEPT ==> p.cp == q.cp)
    && (UsesSequence(p.state) ==> p.seqn == q.seqn)
    && (UsesString(p.state) ==> p.osc == q.osc && p.oscOverflow == q.oscOverflow)
  }

  /** Parser and everything dispatched after a stream. */
  function Run(p: Parser, bs: seq<byte>): (r: (Parser, seq<Action>))
    requires ParserOk(p)
    ensures ParserOk(r.0)
  {
    if bs == [] then (p, []) else
    var (q, before) := Run(p, bs[..|bs| - 1]);
    StepOk(q, bs[|bs| - 1]);
    var (r, acts) := Step(q, bs[|bs| - 1]);
    (r, before + acts)
  }

  /** The recorder: harmless holds as long as every control it left out came in a state that control leaves
      unchanged. */
  datatype Recorder = Recorder(p: Parser, pending: seq<byte>, lost: bool, harmless: bool)

  function Record(r: Recorder, b: byte): Recorder
    requires ParserOk(r.p)
  {
    RecordAfter(r, Step(r.p, b).0, b)
  }

  /** Recording byte b, which brought the parser to p. */
  function RecordAfter(r: Recorder, p: Parser, b: byte): Recorder {
    if Idle(p) then Recorder(p, [], false, true)
    else if Skipped(b) then Recorder(p, r.pending, r.lost, r.harmless && !Matters(r.p, b))
    else if |r.pending| < PENDING_MAX then Recorder(p, r.pending + [b], r.lost, r.harmless)
    else Recorder(p, r.pending, true, r.harmless)
  }

  function Recorded(bs: seq<byte>): (r: Recorder)
    ensures ParserOk(r.p) && |r.pending| <= PENDING_MAX
  {
    CollectOk(Cleared(), 0);
    if bs == [] then Recorder(Fresh(), [], false, true) else
    var r := Recorded(bs[..|bs| - 1]);
    StepOk(r.p, bs[|bs| - 1]);
    Record(r, bs[|bs| - 1])
  }

  // ---- alike parsers stay alike ----

  lemma EscapeStepAlike(p: Parser, q: Parser, b: byte)
    requires ParserOk(p) && ParserOk(q) && p.seqn == q.seqn && p.state == q.state == Escape
    ensures EscapeStep(p, b).1 == EscapeStep(q, b).1 && Alike(EscapeStep(p, b).0, EscapeStep(q, b).0)
  {
  }

  lemma CsiStepAlike(p: Parser, q: Parser, b: byte)
    requires ParserOk(p) && ParserOk(q) && Alike(p, q)
    requires p.state == CsiEntry || p.state == CsiParam || p.state == CsiInt || p.state == CsiIgnore
    ensures CsiStep(p, b).1 == CsiStep(q, b).1 && Alike(CsiStep(p, b).0, CsiStep(q, b).0)
  {
  }

  lemma OscStepAlike(p: Parser, q: Parser, b: byte)
    requires ParserOk(p) && ParserOk(q) && Alike(p, q) && UsesString(p.state)
    ensures StringStep(p, b).1 == StringStep(q, b).1 && Alike(StringStep(p, b).0, StringStep(q, b).0)
  {
    CollectOk(p.seqn, b);
    if p.state == OscEsc && b != 0x5C {
      EscapeStepAlike(p.(seqn := Cleared(), state := Escape), q.(seqn := Cleared(), state := Escape), b);
    }
  }

  lemma StringStepAlike(p: Parser, q: Parser, b: byte)
    requires ParserOk(p) && ParserOk(q) && Alike(p, q) && !UsesSequence(p.state) && p.state != Ground &&
      p.state != CsiIgnore
    ensures StringStep(p, b).1 == StringStep(q, b).1 && Alike(StringStep(p, b).0, StringStep(q, b).0)
  {
    if UsesString(p.state) {
      OscStepAlike(p, q, b);
    }
  }

  lemma GroundStepAlike(p: Parser, q: Parser, b: byte)
    requires Alike(p, q) && p.state == Ground
    ensures GroundStep(p, b).1 == GroundStep(q, b).1 && Alike(GroundStep(p, b).0, GroundStep(q, b).0)
  {
  }

  lemma InterStepAlike(p: Parser, q: Parser, b: byte)
    requires ParserOk(p) && ParserOk(q) && Alike(p, q) && p.state == EscapeInt
    ensures Step(p, b).1 == Step(q, b).1 && Alike(Step(p, b).0, Step(q, b).0)
  {
  }

  /** One byte is dispatched alike by parsers that are alike, and leaves them so. */
  lemma StepAlike(p: Parser, q: Parser, b: byte)
    requires ParserOk(p) && ParserOk(q) && Alike(p, q)
    ensures Step(p, b).1 == Step(q, b).1 && Alike(Step(p, b).0, Step(q, b).0)
  {
    if b == 0x18 || b == 0x1A || (b == 0x1B && p.state != OscString && p.state != DcsPass && p.state != SosPmApc) {
      AnywhereAlike(p, q, b);
    } else {
      InStateAlike(p, q, b);
    }
  }

  /** The transitions that any state takes first. */
  lemma AnywhereAlike(p: Parser, q: Parser, b: byte)
    requires ParserOk(p) && ParserOk(q) && Alike(p, q)
    requires b == 0x18 || b == 0x1A || (b == 0x1B && p.state != OscString && p.state != DcsPass && p.state != SosPmApc)
    ensures Step(p, b).1 == Step(q, b).1 && Alike(Step(p, b).0, Step(q, b).0)
  {
  }

  lemma InStateAlike(p: Parser, q: Parser, b: byte)
    requires ParserOk(p) && ParserOk(q) && Alike(p, q) && b != 0x18 && b != 0x1A
    requires b == 0x1B ==> p.state == OscString || p.state == DcsPass || p.state == SosPmApc
    ensures Step(p, b).1 == Step(q, b).1 && Alike(Step(p, b).0, Step(q, b).0)
  {
    match p.state
    case Ground => GroundStepAlike(p, q, b);
    case Escape => EscapeStepAlike(p, q, b);
    case EscapeInt => InterStepAlike(p, q, b);
    case CsiEntry => CsiStepAlike(p, q, b);
    case CsiParam => CsiStepAlike(p, q, b);
    case CsiInt => CsiStepAlike(p, q, b);
    case CsiIgnore => CsiStepAlike(p, q, b);
    case _ => StringStepAlike(p, q, b);
  }

  lemma {:induction false} RunAlike(p: Parser, q: Parser, bs: seq<byte>)
    requires ParserOk(p) && ParserOk(q) && Alike(p, q)
    ensures Run(p, bs).1 == Run(q, bs).1 && Alike(Run(p, bs).0, Run(q, bs).0)
  {
    if bs != [] {
      var n := |bs| - 1;
      RunAlike(p, q, bs[..n]);
      StepAlike(Run(p, bs[..n]).0, Run(q, bs[..n]).0, bs[n]);
    }
  }

  lemma {:induction false} RunLast(p: Parser, bs: seq<byte>)
    requires ParserOk(p) && |bs| > 0
    ensures var n := |bs| - 1;
      var (q, acts) := Run(p, bs[..n]);
      Run(p, bs) == (Step(q, bs[n]).0, acts + Step(q, bs[n]).1)
  {
  }

  lemma Assoc<T>(a: seq<T>, b: seq<T>, c: seq<T>)
    ensures a + (b + c) == (a + b) + c
  {
  }

  /** A run may be cut anywhere. */
  lemma {:induction false} RunSplit(p: Parser, a: seq<byte>, b: seq<byte>)
    requires ParserOk(p)
    ensures Run(p, a + b).0 == Run(Run(p, a).0, b).0 && Run(p, a + b).1 == Run(p, a).1 + Run(Run(p, a).0, b).1
  {
    var q := Run(p, a).0;
    if b == [] {
      assert a + b == a;
    } else {
      var n := |b| - 1;
      RunSplit(p, a, b[..n]);
      assert (a + b)[..|a + b| - 1] == a + b[..n];
      RunLast(p, a + b);
      RunLast(q, b);
      Assoc(Run(p, a).1, Run(q, b[..n]).1, Step(Run(q, b[..n]).0, b[n]).1);
    }
  }

  /** No bytes to come tell the parsers apart by what is dispatched. */
  ghost predicate Indistinct(p: Parser, q: Parser)
    requires ParserOk(p) && ParserOk(q)
  {
    forall later :: Run(p, later).1 == Run(q, later).1
  }

  lemma {:induction false} RunOne(p: Parser, b: byte)
    requires ParserOk(p)
    ensures Run(p, [b]) == Step(p, b)
  {
    assert [b][..0] == [] && Run(p, []) == (p, []);
    StepOk(p, b);
    assert [] + Step(p, b).1 == Step(p, b).1;
  }

  lemma {:induction false} RunTwo(p: Parser, b: byte, c: byte)
    requires ParserOk(p) && ParserOk(Step(p, b).0)
    ensures Run(p, [b, c]).1 == Step(p, b).1 + Step(Step(p, b).0, c).1
  {
    assert [b, c][..1] == [b];
    RunOne(p, b);
  }

  /** A letter is printed in ground state, and only there. */
  lemma LetterTells(p: Parser, q: Parser, a: byte)
    requires ParserOk(p) && ParserOk(q) && a == 0x41 && p.state != Ground && q.state == Ground
    ensures Run(p, [a]).1 != Run(q, [a]).1
  {
    RunOne(p, a);
    RunOne(q, a);
    assert Step(q, a).1[0].Print?;
  }

  /** A backslash ends an OSC string behind ESC; behind a plain ESC it is an escape. */
  lemma SlashTells(p: Parser, q: Parser, slash: byte)
    requires ParserOk(p) && ParserOk(q) && slash == 0x5C && p.state == OscEsc && q.state == Escape
    ensures Run(p, [slash]).1 != Run(q, [slash]).1
  {
    RunOne(p, slash);
    RunOne(q, slash);
    assert Step(p, slash).1[0].OscDispatch?;
  }

  /** Behind ESC it ends a device control string, and what follows is printed. */
  lemma StringEndTells(p: Parser, q: Parser, slash: byte, a: byte)
    requires ParserOk(p) && ParserOk(q) && slash == 0x5C && a == 0x41 && p.state == DcsIgnore && q.state == DcsPass
    ensures Run(p, [slash, a]).1 != Run(q, [slash, a]).1
  {
    StepOk(p, slash);
    StepOk(q, slash);
    RunTwo(p, slash, a);
    RunTwo(q, slash, a);
    assert Step(q, slash) == (q, []) && Step(q, a) == (q, []);
    assert Step(Step(p, slash).0, a).1 != [];
  }

  /** A character cut short shows when the escape is cancelled and a letter follows. */
  lemma CancelTells(p: Parser, q: Parser, cancel: byte, a: byte)
    requires ParserOk(p) && ParserOk(q) && cancel == 0x18 && a == 0x41 && p.u8 != U.ACCEPT && q.u8 == U.ACCEPT
    ensures Run(p, [cancel, a]).1 != Run(q, [cancel, a]).1
  {
    StepOk(p, cancel);
    StepOk(q, cancel);
    RunTwo(p, cancel, a);
    RunTwo(q, cancel, a);
    assert |Step(Step(p, cancel).0, a).1| == 2 && |Step(Step(q, cancel).0, a).1| == 1;
  }

  /** Where a control that matters leads. */
  lemma MattersLeads(p: Parser, b: byte)
    requires ParserOk(p) && Skipped(b) && Matters(p, b)
    ensures var q := Step(p, b).0;
      || (p.state != Ground && q.state == Ground)
      || (p.state == OscEsc && q.state == Escape)
      || (p.state == DcsIgnore && q.state == DcsPass)
      || (p.u8 != U.ACCEPT && q.u8 == U.ACCEPT)
  {
  }

  /** A control that matters leaves a parser that bytes to come do tell apart: a letter, or a backslash, or what cancels
      the sequence and then a letter. */
  lemma MattersTells(p: Parser, b: byte) returns (later: seq<byte>)
    requires ParserOk(p) && Skipped(b) && Matters(p, b)
    ensures ParserOk(Step(p, b).0) && Run(p, later).1 != Run(Step(p, b).0, later).1
  {
    StepOk(p, b);
    MattersLeads(p, b);
    var q := Step(p, b).0;
    var letter: byte, cancel: byte, slash: byte := 0x41, 0x18, 0x5C;
    if p.state != Ground && q.state == Ground {
      LetterTells(p, q, letter);
      later := [letter];
    } else if p.state == OscEsc && q.state == Escape {
      SlashTells(p, q, slash);
      later := [slash];
    } else if p.state == DcsIgnore && q.state == DcsPass {
      StringEndTells(p, q, slash, letter);
      later := [slash, letter];
    } else {
      CancelTells(p, q, cancel, letter);
      later := [cancel, letter];
    }
  }

  lemma RunSnoc(p: Parser, bs: seq<byte>, b: byte)
    requires ParserOk(p)
    ensures Run(p, bs + [b]).0 == Step(Run(p, bs).0, b).0
  {
    assert (bs + [b])[..|bs|] == bs;
  }

  lemma AlikeTransitive(p: Parser, q: Parser, r: Parser)
    requires Alike(p, q) && Alike(q, r)
    ensures Alike(p, r)
  {
  }

  lemma SkippedAlike(p: Parser, b: byte)
    requires ParserOk(p) && Skipped(b) && !Matters(p, b)
    ensures Alike(p, Step(p, b).0)
  {
  }

  /** A control the recorder leaves out changes something that bytes to come can tell exactly in these states. */
  lemma SkippedHarmless(p: Parser, b: byte)
    requires ParserOk(p) && Skipped(b)
    ensures ParserOk(Step(p, b).0) && (Indistinct(p, Step(p, b).0) <==> !Matters(p, b))
  {
    StepOk(p, b);
    var q := Step(p, b).0;
    if Matters(p, b) {
      var later := MattersTells(p, b);
    } else {
      SkippedAlike(p, b);
      forall later
        ensures Run(p, later).1 == Run(q, later).1
      {
        RunAlike(p, q, later);
      }
    }
  }

  /** Replay: if the recorder has not overflowed and left out nothing that mattered, feeding what it recorded to a fresh
      parser gives the live parser state. */
  lemma {:induction false} ReplayReproduces(bs: seq<byte>)
    requires !Recorded(bs).lost && Recorded(bs).harmless
    ensures ParserOk(Fresh()) && Alike(Run(Fresh(), Recorded(bs).pending).0, Recorded(bs).p)
  {
    CollectOk(Cleared(), 0);
    if bs != [] {
      var r, b := Recorded(bs[..|bs| - 1]), bs[|bs| - 1];
      var p := Step(r.p, b).0;
      StepOk(r.p, b);
      if !Idle(p) {
        ReplayReproduces(bs[..|bs| - 1]);
        var q := Run(Fresh(), r.pending).0;
        if Skipped(b) {
          SkippedAlike(r.p, b);
          AlikeTransitive(q, r.p, p);
        } else {
          StepAlike(q, r.p, b);
          RunSnoc(Fresh(), r.pending, b);
        }
      }
    }
  }

  /** Every later byte is then dispatched alike by the parser that was fed everything and the one that was fed the
      recorded bytes. */
  lemma ReplayContinues(bs: seq<byte>, later: seq<byte>)
    requires !Recorded(bs).lost && Recorded(bs).harmless
    ensures ParserOk(Fresh())
    ensures var replayed := Run(Fresh(), Recorded(bs).pending).0;
      Run(replayed, later).1 == Run(Recorded(bs).p, later).1
  {
    ReplayReproduces(bs);
    RunAlike(Run(Fresh(), Recorded(bs).pending).0, Recorded(bs).p, later);
  }

  lemma RecordedSnoc(bs: seq<byte>, b: byte)
    ensures Recorded(bs + [b]) == Record(Recorded(bs), b)
  {
    assert (bs + [b])[..|bs|] == bs;
  }

  lemma RecordKept(r: Recorder, b: byte)
    requires ParserOk(r.p) && Step(r.p, b).0.state != Ground && !Skipped(b) && |r.pending| < PENDING_MAX
    ensures Record(r, b) == Recorder(Step(r.p, b).0, r.pending + [b], r.lost, r.harmless)
  {
  }

  lemma EscInString(esc: byte, open: byte)
    requires esc == 0x1B && open == 0x5D
    ensures var r := Recorded([esc, open, esc]);
      r.pending == [esc, open, esc] && !r.lost && r.harmless && r.p.state == OscEsc
  {
    var r0 := Recorded([]);
    RecordKept(r0, esc);
    RecordedSnoc([], esc);
    assert [] + [esc] == [esc];
    var r1 := Recorded([esc]);
    RecordKept(r1, open);
    RecordedSnoc([esc], open);
    assert [esc] + [open] == [esc, open];
    var r2 := Recorded([esc, open]);
    RecordKept(r2, esc);
    RecordedSnoc([esc, open], esc);
    assert [esc, open] + [esc] == [esc, open, esc];
  }

  /** The recorder is not safe without that premise: ESC ] ESC LF leaves the parser after an ESC, while the recorded
      ESC ] ESC leaves a fresh one inside the string, waiting for its terminator. */
  lemma LeftOutControlMatters(esc: byte, open: byte, lf: byte)
    requires esc == 0x1B && open == 0x5D && lf == 0x0A
    ensures ParserOk(Fresh())
    ensures var r := Recorded([esc, open, esc, lf]);
      && !r.lost && r.pending == [esc, open, esc] && r.p.state == Escape
      && Run(Fresh(), r.pending).0.state == OscEsc && !Alike(Run(Fresh(), r.pending).0, r.p)
  {
    EscInString(esc, open);
    ReplayReproduces([esc, open, esc]);
    RecordedSnoc([esc, open, esc], lf);
    assert [esc, open, esc] + [lf] == [esc, open, esc, lf];
  }

  lemma {:induction false} DcsThenEsc(esc: byte, dcs: byte, final: byte)
    requires esc == 0x1B && dcs == 0x50 && final == 0x71
    ensures var r := Recorded([esc, dcs, final, esc]);
      r.pending == [esc, dcs, final, esc] && !r.lost && r.harmless && r.p.state == DcsIgnore
  {
    var r0 := Recorded([]);
    RecordKept(r0, esc);
    RecordedSnoc([], esc);
    assert [] + [esc] == [esc];
    RecordKept(Recorded([esc]), dcs);
    RecordedSnoc([esc], dcs);
    assert [esc] + [dcs] == [esc, dcs];
    RecordKept(Recorded([esc, dcs]), final);
    RecordedSnoc([esc, dcs], final);
    assert [esc, dcs] + [final] == [esc, dcs, final];
    RecordKept(Recorded([esc, dcs, final]), esc);
    RecordedSnoc([esc, dcs, final], esc);
    assert [esc, dcs, final] + [esc] == [esc, dcs, final, esc];
  }

  /** Nor in a device control string: after ESC P q ESC LF the string goes on, while the recorded ESC P q ESC leaves a
      fresh parser ready for the backslash that ends it. */
  lemma {:induction false} LeftOutInDcs(esc: byte, dcs: byte, final: byte, lf: byte, back: byte)
    requires esc == 0x1B && dcs == 0x50 && final == 0x71 && lf == 0x0A && back == 0x5C
    ensures ParserOk(Fresh())
    ensures var r := Recorded([esc, dcs, final, esc, lf]);
      var replayed := Run(Fresh(), r.pending).0;
      && !r.lost && r.pending == [esc, dcs, final, esc] && r.p.state == DcsPass && replayed.state == DcsIgnore
      && Step(replayed, back).0.state == Ground && Step(r.p, back).0.state == DcsPass
  {
    DcsThenEsc(esc, dcs, final);
    ReplayReproduces([esc, dcs, final, esc]);
    RecordedSnoc([esc, dcs, final, esc], lf);
    assert [esc, dcs, final, esc] + [lf] == [esc, dcs, final, esc, lf];
  }
}
