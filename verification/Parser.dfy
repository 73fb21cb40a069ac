/** The escape-sequence parser of src/vt/vt_parser.c: the VT500 state machine over arbitrary bytes, the recorder of
    unfinished sequences, and what replaying the recorded bytes reproduces. */
module Parser {
  import opened Bytes
  import U = Utf8

  const PARAMS_MAX: nat := 16
  const INTER_MAX: nat := 2
  const OSC_MAX: nat := 4096
  const PENDING_MAX: nat := 4160
  const PARAM_CEILING: nat := 9999999

  datatype State =
    | Ground | Escape | EscapeInt | CsiEntry | CsiParam | CsiInt | CsiIgnore
    | OscString | OscEsc | DcsEntry | DcsParam | DcsInt | DcsPass | DcsIgnore | SosPmApc

  /** What a sequence has collected: parameters, intermediates, private marker. ninter is INTER_MAX + 1 once too many
      intermediates came. */
  datatype Collected = Collected(params: seq<nat>, seen: seq<bool>, nparams: nat, overflow: bool, inter: seq<byte>,
      ninter: nat, priv: byte)

  datatype Parser = Parser(state: State, seqn: Collected, osc: seq<byte>, oscOverflow: bool, u8: nat, cp: nat)

  datatype Action =
    | Print(cp: nat)
    | Execute(c0: byte)
    | EscDispatch(seqn: Collected, final: byte)
    | CsiDispatch(seqn: Collected, final: byte)
    | OscDispatch(text: seq<byte>, truncated: bool)

  /** clear_seq */
  function Cleared(): Collected {
    Collected(seq(PARAMS_MAX, i => 0), seq(PARAMS_MAX, i => false), 0, false, [], 0, 0)
  }

  function Fresh(): Parser {
    Parser(Ground, Cleared(), [], false, U.ACCEPT, 0)
  }

  // ---- collecting ----

  function CollectInter(c: Collected, b: byte): Collected {
    if c.ninter < INTER_MAX then c.(inter := c.inter + [b], ninter := c.ninter + 1) else c.(ninter := INTER_MAX + 1)
  }

  function CollectParam(c: Collected, b: byte): Collected
    requires |c.params| == |c.seen| == PARAMS_MAX && 0x30 <= b
  {
    if b == 0x3B then if c.nparams < PARAMS_MAX then c.(nparams := c.nparams + 1) else c.(overflow := true)
    else if c.nparams >= PARAMS_MAX then c.(overflow := true)
    else
      var cur := c.params[c.nparams];
      c.(params := c.params[c.nparams := if cur > 999999 then PARAM_CEILING else cur * 10 + (b - 0x30)],
         seen := c.seen[c.nparams := true])
  }

  function FinishParams(c: Collected): Collected
    requires |c.seen| == PARAMS_MAX
  {
    if c.nparams < PARAMS_MAX && (c.seen[c.nparams] || c.nparams > 0 || c.seen[0]) then c.(nparams := c.nparams + 1)
    else c
  }

  predicate CollectedOk(c: Collected) {
    && |c.params| == |c.seen| == PARAMS_MAX && c.nparams <= PARAMS_MAX
    && (forall i :: 0 <= i < PARAMS_MAX ==> c.params[i] <= PARAM_CEILING)
    && |c.inter| <= INTER_MAX && c.ninter <= INTER_MAX + 1 && (c.ninter <= INTER_MAX ==> c.ninter == |c.inter|)
  }

  predicate ParserOk(p: Parser) {
    CollectedOk(p.seqn) && |p.osc| <= OSC_MAX - 1
  }

  // ---- one byte ----

  predicate Digit(b: byte) { 0x30 <= b <= 0x39 || b == 0x3B }

  function To(p: Parser, s: State): Parser { p.(state := s) }

  /** The byte in ground state: controls execute, the rest goes through the UTF-8 automaton; a rejected byte prints a
      replacement and is tried again as the start of a character unless it is ASCII. */
  function GroundStep(p: Parser, b: byte): (Parser, seq<Action>) {
    if b < 0x20 then (p, [Execute(b)])
    else if b == 0x7F then (p, [])
    else
      var cp := U.StepCp(p.u8, p.cp, b);
      var u8 := U.StepState(p.u8, b);
      if u8 == U.ACCEPT then (p.(u8 := u8, cp := cp), [Print(cp)])
      else if u8 == U.REJECT then
        if b < 0x80 then (p.(u8 := U.ACCEPT, cp := cp), [Print(0xFFFD), Print(b)])
        else if b >= 0xC2 then
          (p.(u8 := U.StepState(U.ACCEPT, b), cp := U.StepCp(U.ACCEPT, cp, b)), [Print(0xFFFD)])
        else (p.(u8 := U.ACCEPT, cp := cp), [Print(0xFFFD)])
      else (p.(u8 := u8, cp := cp), [])
  }

  /** The byte right after ESC. */
  function EscapeStep(p0: Parser, b: byte): (Parser, seq<Action>) {
    var p := p0.(u8 := U.ACCEPT);
    if b < 0x20 then (p, [Execute(b)])
    else if b <= 0x2F then (p.(seqn := CollectInter(p.seqn, b), state := EscapeInt), [])
    else if b == 0x5B then (p.(seqn := Cleared(), state := CsiEntry), [])
    else if b == 0x5D then (p.(osc := [], oscOverflow := false, state := OscString), [])
    else if b == 0x50 then (p.(seqn := Cleared(), state := DcsEntry), [])
    else if b == 0x58 || b == 0x5E || b == 0x5F then (To(p, SosPmApc), [])
    else if b <= 0x7E then (To(p, Ground), [EscDispatch(p.seqn, b)])
    else (p, [])
  }

  function CsiFinal(p: Parser, b: byte): (Parser, seq<Action>)
    requires ParserOk(p)
  {
    var c := FinishParams(p.seqn);
    (p.(seqn := c, state := Ground), [CsiDispatch(c, b)])
  }

  function CsiStep(p: Parser, b: byte): (Parser, seq<Action>)
    requires ParserOk(p)
  {
    if b < 0x20 then (p, [Execute(b)])
    else if p.state == CsiIgnore then if 0x40 <= b <= 0x7E then (To(p, Ground), []) else (p, [])
    else if p.state == CsiInt then
      if b <= 0x2F then (p.(seqn := CollectInter(p.seqn, b)), [])
      else if b <= 0x3F then (To(p, CsiIgnore), [])
      else if b <= 0x7E then CsiFinal(p, b)
      else (p, [])
    else if 0x3C <= b <= 0x3F then
      if p.state == CsiEntry then (p.(seqn := p.seqn.(priv := b), state := CsiParam), []) else (To(p, CsiIgnore), [])
    else if Digit(b) then (p.(seqn := CollectParam(p.seqn, b), state := CsiParam), [])
    else if b == 0x3A then (To(p, CsiIgnore), [])
    else if b <= 0x2F then (p.(seqn := CollectInter(p.seqn, b), state := CsiInt), [])
    else if b <= 0x7E then CsiFinal(p, b)
    else (p, [])
  }

  function StringStep(p: Parser, b: byte): (Parser, seq<Action>) {
    match p.state
    case OscString =>
      if b == 0x1B then (To(p, OscEsc), [])
      else if b == 0x07 then (To(p, Ground), [OscDispatch(p.osc, p.oscOverflow)])
      else if b >= 0x20 || b == 0 then
        (if |p.osc| < OSC_MAX - 1 then p.(osc := p.osc + [b]) else p.(oscOverflow := true), [])
      else (p, [])
    case OscEsc =>
      if b == 0x5C then (To(p, Ground), [OscDispatch(p.osc, p.oscOverflow)])
      else EscapeStep(p.(seqn := Cleared(), state := Escape), b)
    case DcsPass => (if b == 0x1B then To(p, DcsIgnore) else p, [])
    case DcsIgnore => (if b == 0x5C then To(p, Ground) else if b != 0x1B then To(p, DcsPass) else p, [])
    case SosPmApc => (if b == 0x1B then To(p, DcsIgnore) else p, [])
    case _ => (if 0x40 <= b <= 0x7E then To(p, DcsPass) else p, [])
  }

  /** feed_byte */
  function Step(p: Parser, b: byte): (Parser, seq<Action>)
    requires ParserOk(p)
  {
    if b == 0x18 || b == 0x1A then (To(p, Ground), [])
    else if b == 0x1B && p.state != OscString && p.state != DcsPass && p.state != SosPmApc then
      (p.(seqn := Cleared(), state := Escape), [])
    else match p.state
      case Ground => GroundStep(p, b)
      case Escape => EscapeStep(p, b)
      case EscapeInt =>
        if b < 0x20 then (p, [Execute(b)])
        else if b <= 0x2F then (p.(seqn := CollectInter(p.seqn, b)), [])
        else if b <= 0x7E then (To(p, Ground), [EscDispatch(p.seqn, b)])
        else (p, [])
      case CsiEntry => CsiStep(p, b)
      case CsiParam => CsiStep(p, b)
      case CsiInt => CsiStep(p, b)
      case CsiIgnore => CsiStep(p, b)
      case _ => StringStep(p, b)
  }

  lemma CollectOk(c: Collected, b: byte)
    requires CollectedOk(c)
    ensures CollectedOk(CollectInter(c, b)) && CollectedOk(FinishParams(c)) && CollectedOk(Cleared())
    ensures Digit(b) ==> CollectedOk(CollectParam(c, b))
  {
  }

  lemma EscapeStepOk(p: Parser, b: byte)
    requires ParserOk(p)
    ensures ParserOk(EscapeStep(p, b).0)
  {
    CollectOk(p.seqn, b);
  }

  lemma CsiStepOk(p: Parser, b: byte)
    requires ParserOk(p)
    ensures ParserOk(CsiStep(p, b).0)
  {
    CollectOk(p.seqn, b);
    CollectOk(p.seqn.(priv := b), b);
  }

  lemma StringStepOk(p: Parser, b: byte)
    requires ParserOk(p)
    ensures ParserOk(StringStep(p, b).0)
  {
    CollectOk(p.seqn, b);
    EscapeStepOk(p.(seqn := Cleared(), state := Escape), b);
  }

  /** Every byte keeps parameters, intermediates and string bodies within their buffers. */
  lemma StepOk(p: Parser, b: byte)
    requires ParserOk(p)
    ensures ParserOk(Step(p, b).0)
  {
    CollectOk(p.seqn, b);
    EscapeStepOk(p, b);
    CsiStepOk(p, b);
    StringStepOk(p, b);
  }
}
