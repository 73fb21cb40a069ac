/** History read back (src/common/scrollback.c, serialize_line, into src/vt/): the bytes a line is kept in, fed to the
    engine, put its cells on the screen again. */
module LineReplay {
  import opened Bytes
  import opened Cells
  import opened Screen
  import opened Parser
  import opened E = Engine
  import opened Sequences
  import L = LineText
  import R = Replay
  import U = Utf8

  // ---- code points through the parser ----

  /** A byte of a character: the automaton goes on, or is done and the character printed. */
  lemma {:induction false} CharacterByte(p: Parser, b: byte)
    requires ParserOk(p) && p.state == Ground && b >= 0x20 && b != 0x7F
    ensures var c, u := U.StepCp(p.u8, p.cp, b), U.StepState(p.u8, b);
      && (u == U.ACCEPT ==> R.Run(p, [b]) == (p.(u8 := u, cp := c), [Print(c)]))
      && (u != U.ACCEPT && u != U.REJECT ==> R.Run(p, [b]) == (p.(u8 := u, cp := c), []))
  {
    R.RunOne(p, b);
  }

  ghost function Prints(cps: seq<nat>): (acts: seq<Action>)
    ensures |acts| == |cps|
  {
    seq(|cps|, i requires 0 <= i < |cps| => Print(cps[i]))
  }

  /** Text that decodes is printed, code point after code point, and the parser is idle at its end. */
  lemma {:induction false} DecodedRun(p: Parser, bs: seq<byte>)
    requires ParserOk(p) && p.state == Ground && L.Decode(p.u8, p.cp, bs).1 == U.ACCEPT
    requires forall i :: 0 <= i < |bs| ==> bs[i] >= 0x20 && bs[i] != 0x7F
    ensures R.Idle(R.Run(p, bs).0) && R.Run(p, bs).1 == Prints(L.Decode(p.u8, p.cp, bs).0)
    decreases |bs|
  {
    if |bs| > 0 {
      var q := FirstByte(p, bs);
      DecodedRun(q, bs[1..]);
      R.RunSplit(p, [bs[0]], bs[1..]);
      assert [bs[0]] + bs[1..] == bs;
    }
  }

  lemma {:induction false} FirstByte(p: Parser, bs: seq<byte>) returns (q: Parser)
    requires ParserOk(p) && p.state == Ground && |bs| > 0 && L.Decode(p.u8, p.cp, bs).1 == U.ACCEPT
    requires bs[0] >= 0x20 && bs[0] != 0x7F
    ensures q == R.Run(p, [bs[0]]).0 && q.state == Ground
    ensures L.Decode(q.u8, q.cp, bs[1..]).1 == U.ACCEPT
    ensures Prints(L.Decode(p.u8, p.cp, bs).0) ==
      R.Run(p, [bs[0]]).1 + Prints(L.Decode(q.u8, q.cp, bs[1..]).0)
  {
    var c, u := U.StepCp(p.u8, p.cp, bs[0]), U.StepState(p.u8, bs[0]);
    L.RejectedStays(c, bs[1..]);
    CharacterByte(p, bs[0]);
    q := p.(u8 := u, cp := c);
    var rest := L.Decode(u, c, bs[1..]).0;
    assert u == U.ACCEPT ==> Prints([c] + rest) == [Print(c)] + Prints(rest);
  }

  lemma {:induction false} EncodedRun(p: Parser, cp: nat)
    requires ParserOk(p) && R.Idle(p) && L.Encodable(cp)
    ensures R.Idle(R.Run(p, L.Encode(cp)).0) && R.Run(p, L.Encode(cp)).1 == [Print(cp)]
  {
    var bs := L.Encode(cp);
    L.DecodeEncoded(cp, p.cp, []);
    assert bs + [] == bs;
    assert L.Decode(U.ACCEPT, cp, []) == ([], U.ACCEPT);
    DecodedRun(p, bs);
    assert Prints([cp]) == [Print(cp)];
  }

  /** A character with a width is put, a mark goes on the cell in front. */
  lemma {:induction false} CharFed(e: Engine, p: Parser, cp: nat, width: nat -> nat, combining: nat -> bool)
    requires Ok(e) && ParserOk(p) && R.Idle(p) && Tables(width, combining) && !Graphics(e.cur) && L.Encodable(cp)
    ensures R.Idle(R.Run(p, L.Encode(cp)).0)
    ensures Fed(e, p, L.Encode(cp), width, combining) == PutOn(e, cp, width(cp), combining(cp))
  {
    EncodedRun(p, cp);
    FedOne(e, p, L.Encode(cp), Print(cp), width, combining);
    assert Drawn(cp, false) == Some(cp);
  }

  // ---- the pen ----

  /** What of a pen is kept: all but blinking and invisible. */
  function Kept(pen: Pen): Pen {
    Pen(pen.fg, pen.bg, pen.style - {Blink, Invisible})
  }

  /** Engine and parser after some pieces. */
  ghost predicate Leads(e: Engine, p: Parser, ps: seq<L.Piece>, f: Engine, q: Parser, width: nat -> nat,
      combining: nat -> bool)
    requires Ok(e) && ParserOk(p) && Tables(width, combining) && L.PiecesOk(ps)
  {
    && ParserOk(q) && R.Idle(q) && q == R.Run(p, L.Written(ps)).0
    && f == Fed(e, p, L.Written(ps), width, combining)
  }

  lemma {:induction false} WrittenOn(a: seq<L.Piece>, b: seq<L.Piece>)
    requires L.PiecesOk(a) && L.PiecesOk(b)
    ensures L.PiecesOk(a + b) && L.Written(a + b) == L.Written(a) + L.Written(b)
  {
    if |a| == 0 {
      assert a + b == b;
    } else {
      assert a + b == [a[0]] + (a[1..] + b) && a == [a[0]] + a[1..];
      WrittenOn(a[1..], b);
      L.WrittenCons(a[0], a[1..] + b);
      L.WrittenCons(a[0], a[1..]);
      L.Regrouped(L.PieceBytes(a[0]), L.Written(a[1..]), L.Written(b));
    }
  }

  lemma {:induction false} WrittenOne(piece: L.Piece)
    requires L.PieceOk(piece)
    ensures L.PiecesOk([piece]) && L.Written([piece]) == L.PieceBytes(piece)
  {
    assert [piece][1..] == [];
  }

  lemma {:induction false} LeadsOn(e: Engine, p: Parser, a: seq<L.Piece>, f: Engine, q: Parser, b: seq<L.Piece>,
      g: Engine, r: Parser, width: nat -> nat, combining: nat -> bool)
    requires Ok(e) && ParserOk(p) && Tables(width, combining) && L.PiecesOk(a) && L.PiecesOk(b)
    requires Leads(e, p, a, f, q, width, combining) && Leads(f, q, b, g, r, width, combining)
    ensures L.PiecesOk(a + b) && Leads(e, p, a + b, g, r, width, combining)
  {
    WrittenOn(a, b);
    FedSplit(e, p, L.Written(a), L.Written(b), width, combining);
  }

  lemma {:induction false} LeadsNowhere(e: Engine, p: Parser, width: nat -> nat, combining: nat -> bool)
    requires Ok(e) && ParserOk(p) && R.Idle(p) && Tables(width, combining)
    ensures Leads(e, p, [], e, p, width, combining)
  {
    NothingFed(e, p, width, combining);
  }

  /** A color in the parameters of SGR. */
  function ColorCodes(base: nat, c: Color): (ps: seq<nat>)
    requires c != DEFAULT_COLOR && base <= 48
    ensures InRange(ps)
  {
    if c < 0x200_0000 then [base, 5, c - 0x100_0000] else [base, 2, c / 0x1_0000 - 0x200, c / 0x100 % 0x100, c % 0x100]
  }

  lemma {:induction false} JoinedMore(ps: seq<nat>, n: nat)
    requires |ps| > 0
    ensures Joined(ps + [n]) == Joined(ps) + [0x3B] + Decimal(n)
  {
    assert (ps + [n])[..|ps|] == ps;
  }

  lemma {:induction false} Joined3(a: nat, b: nat, c: nat)
    ensures Joined([a, b, c]) == Decimal(a) + [0x3B] + Decimal(b) + [0x3B] + Decimal(c)
  {
    JoinedMore([a], b);
    JoinedMore([a, b], c);
    assert [a] + [b] == [a, b] && [a, b] + [c] == [a, b, c];
  }

  lemma {:induction false} Joined5(a: nat, b: nat, c: nat, d: nat, f: nat)
    ensures Joined([a, b, c, d, f]) ==
      Decimal(a) + [0x3B] + Decimal(b) + [0x3B] + Decimal(c) + [0x3B] + Decimal(d) + [0x3B] + Decimal(f)
  {
    Joined3(a, b, c);
    JoinedMore([a, b, c], d);
    JoinedMore([a, b, c, d], f);
    assert [a, b, c] + [d] == [a, b, c, d] && [a, b, c, d] + [f] == [a, b, c, d, f];
  }

  lemma {:induction false} KindWritten(a: seq<byte>, kind: byte)
    requires kind < 10
    ensures a + [0x3B, 0x30 + kind, 0x3B] == a + [0x3B] + Decimal(kind) + [0x3B]
  {
  }

  lemma Components(c: Color)
    ensures 0 < c < 0x200_0000 ==> c / 0x100_0000 == 1 && c % 0x100 == c - 0x100_0000
    ensures c >= 0x200_0000 ==> c / 0x100_0000 != 1 && c / 0x1_0000 % 0x100 == c / 0x1_0000 - 0x200
    ensures c >= 0x200_0000 ==>
      c == 0x200_0000 + (c / 0x1_0000 - 0x200) * 0x1_0000 + c / 0x100 % 0x100 * 0x100 + c % 0x100
  {
  }

  lemma {:induction false} ColorWritten(base: nat, c: Color)
    requires c != DEFAULT_COLOR && base <= 48
    ensures L.ColorBody(base, c) == Joined(ColorCodes(base, c))
  {
    Components(c);
    if c < 0x200_0000 {
      KindWritten(Decimal(base), 5);
      Joined3(base, 5, c - 0x100_0000);
    } else {
      KindWritten(Decimal(base), 2);
      Joined5(base, 2, c / 0x1_0000 - 0x200, c / 0x100 % 0x100, c % 0x100);
    }
  }

  /** What parameters make of a pen. */
  function Inking(pen: Pen, ps: seq<nat>): Pen
    requires InRange(ps)
  {
    PenAfter(Given(ps, |ps|, 0), 0, pen)
  }

  lemma {:induction false} InkFed(e: Engine, p: Parser, body: seq<byte>, ps: seq<nat>, width: nat -> nat,
      combining: nat -> bool) returns (q: Parser)
    requires Ok(e) && ParserOk(p) && R.Idle(p) && Tables(width, combining) && InRange(ps) && ps != []
    requires body == Joined(ps) && L.PieceOk(L.Control(body))
    ensures Leads(e, p, [L.Control(body)], Penned(e, Inking(e.cur.pen, ps)), q, width, combining)
  {
    WrittenOne(L.Control(body));
    assert L.PieceBytes(L.Control(body)) == Control(ps, 0x6D);
    PenFed(e, p, ps, Inking(e.cur.pen, ps), width, combining);
    q := R.Run(p, Control(ps, 0x6D)).0;
  }

  ghost predicate AllInRange(codes: seq<seq<nat>>) {
    forall i :: 0 <= i < |codes| ==> InRange(codes[i])
  }

  /** The pen after the sequences from i on; one without parameters is not there. */
  ghost function InkFrom(pen: Pen, codes: seq<seq<nat>>, i: nat): Pen
    requires i <= |codes| && AllInRange(codes)
    decreases |codes| - i
  {
    if i == |codes| then pen else InkFrom(Inking(pen, codes[i]), codes, i + 1)
  }

  /** The sequences of these parameters are the pieces chosen. */
  ghost predicate Coded(options: seq<(bool, L.Piece)>, codes: seq<seq<nat>>) {
    && |options| == |codes| && AllInRange(codes)
    && forall i :: 0 <= i < |options| ==> CodedBy(options[i], codes[i])
  }

  ghost predicate CodedBy(option: (bool, L.Piece), ps: seq<nat>) {
    && option.1.Control? && L.PieceOk(option.1) && option.0 == (ps != [])
    && (ps != [] ==> option.1.body == Joined(ps))
  }

  lemma {:induction false} OptionFed(e: Engine, p: Parser, piece: L.Piece, ps: seq<nat>, width: nat -> nat,
      combining: nat -> bool) returns (q: Parser)
    requires Ok(e) && ParserOk(p) && R.Idle(p) && Tables(width, combining) && L.PieceOk(piece) && piece.Control?
    requires InRange(ps) && (ps != [] ==> piece.body == Joined(ps))
    ensures Leads(e, p, L.If(ps != [], piece), Penned(e, Inking(e.cur.pen, ps)), q, width, combining)
  {
    if ps != [] {
      q := InkFed(e, p, piece.body, ps, width, combining);
    } else {
      LeadsNowhere(e, p, width, combining);
      q := p;
    }
  }

  lemma {:induction false} ChosenFed(e: Engine, p: Parser, options: seq<(bool, L.Piece)>, codes: seq<seq<nat>>, i: nat,
      width: nat -> nat, combining: nat -> bool) returns (q: Parser)
    requires Ok(e) && ParserOk(p) && R.Idle(p) && Tables(width, combining) && Coded(options, codes) && i <= |options|
    ensures L.PiecesOk(L.Chosen(options[i..]))
    ensures Leads(e, p, L.Chosen(options[i..]), Penned(e, InkFrom(e.cur.pen, codes, i)), q, width, combining)
    decreases |options| - i
  {
    if i == |options| {
      LeadsNowhere(e, p, width, combining);
      q := p;
    } else {
      assert options[i..][1..] == options[i + 1..];
      var m := OptionFed(e, p, options[i].1, codes[i], width, combining);
      var f := Penned(e, Inking(e.cur.pen, codes[i]));
      q := ChosenFed(f, m, options, codes, i + 1, width, combining);
      LeadsOn(e, p, L.If(options[i].0, options[i].1), f, m, L.Chosen(options[i + 1..]),
        Penned(f, InkFrom(f.cur.pen, codes, i + 1)), q, width, combining);
    }
  }

  function StyleCode(pen: Pen, s: Style): (ps: seq<nat>)
    ensures InRange(ps)
  {
    if s in pen.style then [CodeOf(s)] else []
  }

  /** The parameters a pen is written with. */
  function Codes(pen: Pen): (codes: seq<seq<nat>>)
    ensures |codes| == 9 && AllInRange(codes)
  {
    [[0], StyleCode(pen, Bold), StyleCode(pen, Dim), StyleCode(pen, Italic), StyleCode(pen, Underline),
     StyleCode(pen, Reverse), StyleCode(pen, Strike), if pen.fg != DEFAULT_COLOR then ColorCodes(38, pen.fg) else [],
     if pen.bg != DEFAULT_COLOR then ColorCodes(48, pen.bg) else []]
  }

  lemma {:induction false} DigitCoded(chosen: bool, n: nat)
    requires n < 10
    ensures CodedBy((chosen, L.Control([0x30 + n])), if chosen then [n] else [])
  {
  }

  lemma {:induction false} ColorCoded(base: nat, c: Color)
    requires base <= 48
    ensures CodedBy((c != DEFAULT_COLOR, L.Control(L.ColorBody(base, c))),
      if c != DEFAULT_COLOR then ColorCodes(base, c) else [])
  {
    if c != DEFAULT_COLOR {
      ColorWritten(base, c);
    }
  }

  lemma {:induction false} PenCoded(pen: Pen)
    ensures Coded(L.PenOptions(pen), Codes(pen))
  {
    var o, c := L.PenOptions(pen), Codes(pen);
    FirstCoded(pen, o, c);
    LastCoded(pen, o, c);
    NineCoded(o, c);
  }

  lemma NineCoded(o: seq<(bool, L.Piece)>, c: seq<seq<nat>>)
    requires |o| == |c| == 9 && AllInRange(c)
    requires CodedBy(o[0], c[0]) && CodedBy(o[1], c[1]) && CodedBy(o[2], c[2]) && CodedBy(o[3], c[3]) &&
      CodedBy(o[4], c[4]) && CodedBy(o[5], c[5]) && CodedBy(o[6], c[6]) && CodedBy(o[7], c[7]) && CodedBy(o[8], c[8])
    ensures Coded(o, c)
  {
  }

  lemma {:induction false} FirstCoded(pen: Pen, o: seq<(bool, L.Piece)>, c: seq<seq<nat>>)
    requires o == L.PenOptions(pen) && c == Codes(pen)
    ensures CodedBy(o[0], c[0]) && CodedBy(o[1], c[1]) && CodedBy(o[2], c[2]) && CodedBy(o[3], c[3])
  {
    DigitCoded(true, 0);
    DigitCoded(Bold in pen.style, 1);
    DigitCoded(Dim in pen.style, 2);
    DigitCoded(Italic in pen.style, 3);
  }

  lemma {:induction false} LastCoded(pen: Pen, o: seq<(bool, L.Piece)>, c: seq<seq<nat>>)
    requires o == L.PenOptions(pen) && c == Codes(pen)
    ensures CodedBy(o[4], c[4]) && CodedBy(o[5], c[5]) && CodedBy(o[6], c[6]) && CodedBy(o[7], c[7]) &&
      CodedBy(o[8], c[8])
  {
    DigitCoded(Underline in pen.style, 4);
    DigitCoded(Reverse in pen.style, 7);
    DigitCoded(Strike in pen.style, 9);
    ColorCoded(38, pen.fg);
    ColorCoded(48, pen.bg);
  }

  lemma InkStyle(was: Pen, pen: Pen, s: Style)
    ensures Inking(was, StyleCode(pen, s)) == Pen(was.fg, was.bg, was.style + pen.style * {s})
  {
    if s in pen.style {
      PlainOn(was, s);
      PenOne(CodeOf(s), was);
    }
  }

  lemma InkColor(was: Pen, base: nat, c: Color)
    requires c != DEFAULT_COLOR && (base == 38 || base == 48)
    ensures Inking(was, ColorCodes(base, c)) == if base == 38 then was.(fg := c) else was.(bg := c)
  {
    if c < 0x200_0000 {
      PenIndexed(base, c - 0x100_0000, was);
    } else {
      Components(c);
      ByteColor(c / 0x1_0000 - 0x200, c / 0x100 % 0x100, c % 0x100);
      PenDirect(base, c / 0x1_0000 - 0x200, c / 0x100 % 0x100, c % 0x100, was);
    }
  }

  lemma ByteColor(r: nat, g: nat, b: nat)
    requires r < 0x100 && g < 0x100 && b < 0x100
    ensures Rgb(r, g, b) == 0x200_0000 + r * 0x1_0000 + g * 0x100 + b
  {
  }

  /** The sequences a pen is written in bring any pen to it, less blinking and invisible. */
  lemma {:induction false} CodesInk(was: Pen, pen: Pen)
    ensures InkFrom(was, Codes(pen), 0) == Kept(pen)
  {
    var c := Codes(pen);
    PenOne(0, was);
    assert InkFrom(was, c, 0) == InkFrom(PLAIN, c, 1);
    var bold, dim, italic := pen.style * {Bold}, pen.style * {Bold, Dim}, pen.style * {Bold, Dim, Italic};
    InkStyle(PLAIN, pen, Bold);
    assert {} + bold == bold;
    assert InkFrom(PLAIN, c, 1) == InkFrom(Pen(0, 0, bold), c, 2);
    InkStyle(Pen(0, 0, bold), pen, Dim);
    assert bold + pen.style * {Dim} == dim;
    assert InkFrom(Pen(0, 0, bold), c, 2) == InkFrom(Pen(0, 0, dim), c, 3);
    InkStyle(Pen(0, 0, dim), pen, Italic);
    assert dim + pen.style * {Italic} == italic;
    assert InkFrom(Pen(0, 0, dim), c, 3) == InkFrom(Pen(0, 0, italic), c, 4);
    LaterCodesInk(pen);
  }

  lemma {:induction false} LaterCodesInk(pen: Pen)
    ensures InkFrom(Pen(0, 0, pen.style * {Bold, Dim, Italic}), Codes(pen), 4) == Kept(pen)
  {
    var c := Codes(pen);
    var italic, under := pen.style * {Bold, Dim, Italic}, pen.style * {Bold, Dim, Italic, Underline};
    var reverse, all := pen.style * {Bold, Dim, Italic, Underline, Reverse}, pen.style - {Blink, Invisible};
    InkStyle(Pen(0, 0, italic), pen, Underline);
    assert italic + pen.style * {Underline} == under;
    assert InkFrom(Pen(0, 0, italic), c, 4) == InkFrom(Pen(0, 0, under), c, 5);
    InkStyle(Pen(0, 0, under), pen, Reverse);
    assert under + pen.style * {Reverse} == reverse;
    assert InkFrom(Pen(0, 0, under), c, 5) == InkFrom(Pen(0, 0, reverse), c, 6);
    InkStyle(Pen(0, 0, reverse), pen, Strike);
    AllStyles(pen.style);
    assert InkFrom(Pen(0, 0, reverse), c, 6) == InkFrom(Pen(0, 0, all), c, 7);
    ColorsInk(pen, all);
  }

  lemma AllStyles(style: set<Style>)
    ensures style * {Bold, Dim, Italic, Underline, Reverse} + style * {Strike} == style - {Blink, Invisible}
  {
    forall s | s in style && s !in {Blink, Invisible}
      ensures s in {Bold, Dim, Italic, Underline, Reverse} || s == Strike
    {
      match s
      case _ =>
    }
  }

  lemma {:induction false} ColorsInk(pen: Pen, style: set<Style>)
    ensures InkFrom(Pen(0, 0, style), Codes(pen), 7) == Pen(pen.fg, pen.bg, style)
  {
    var c := Codes(pen);
    if pen.fg != DEFAULT_COLOR {
      InkColor(Pen(0, 0, style), 38, pen.fg);
    }
    assert InkFrom(Pen(0, 0, style), c, 7) == InkFrom(Pen(pen.fg, 0, style), c, 8);
    if pen.bg != DEFAULT_COLOR {
      InkColor(Pen(pen.fg, 0, style), 48, pen.bg);
    }
    assert InkFrom(Pen(pen.fg, 0, style), c, 8) == InkFrom(Pen(pen.fg, pen.bg, style), c, 9);
  }

  /** The pieces of a pen leave the engine with that pen. */
  lemma {:induction false} PenReadsBack(e: Engine, p: Parser, pen: Pen, width: nat -> nat, combining: nat -> bool)
    returns (q: Parser)
    requires Ok(e) && ParserOk(p) && R.Idle(p) && Tables(width, combining)
    ensures L.PiecesOk(L.PenPieces(pen))
    ensures Leads(e, p, L.PenPieces(pen), Penned(e, Kept(pen)), q, width, combining)
  {
    PenCoded(pen);
    q := ChosenFed(e, p, L.PenOptions(pen), Codes(pen), 0, width, combining);
    assert L.PenOptions(pen)[0..] == L.PenOptions(pen);
    CodesInk(e.cur.pen, pen);
  }

  // ---- cells ----

  /** A row as the engine writes one: characters of the width they are shown in, marks that combine, and left halves of
      wide characters with their right halves behind them. */
  ghost predicate WellFormed(cells: Row, width: nat -> nat, combining: nat -> bool) {
    forall i :: 0 <= i < |cells| ==> CellFormed(cells, i, width, combining)
  }

  ghost predicate CellFormed(cells: Row, i: nat, width: nat -> nat, combining: nat -> bool)
    requires i < |cells|
  {
    if cells[i].spacer then i > 0 && cells[i - 1].wide && !cells[i - 1].spacer
    else
      && (cells[i].wide ==> cells[i].cp != 0 && i + 1 < |cells| && cells[i + 1].spacer)
      && (cells[i].cp != 0 ==> width(cells[i].cp) == if cells[i].wide then 2 else 1)
      && (cells[i].comb != 0 ==> width(cells[i].comb) == 0 && combining(cells[i].comb))
  }

  /** What is read back of cell i: an empty cell as a space, a right half in the colors of its left one. */
  function Back(cells: Row, i: nat): Cell
    requires i < |cells|
  {
    var c := cells[i];
    if c.spacer then
      var l := if i > 0 then cells[i - 1] else c;
      Cell(0, l.fg, l.bg, {}, false, true, 0)
    else
      Cell(if c.cp != 0 then c.cp else 0x20, c.fg, c.bg, c.style - {Blink, Invisible}, c.wide, false, c.comb)
  }

  predicate Halfless(line: Row) {
    forall i :: 0 <= i < |line| ==> !line[i].wide && !line[i].spacer
  }

  /** The row with the first n cells read back, over what it held. */
  ghost function Overlaid(line: Row, cells: Row, n: nat): (s: Row)
    requires n <= |cells| && |cells| <= |line|
    ensures |s| == |line|
  {
    seq(|line|, i requires 0 <= i < |line| => if i < n then Back(cells, i) else line[i])
  }

  /** Where a line may be read back: at the start of a row that holds no wide characters, with a plain pen. */
  ghost predicate Ready(e: Engine, n: nat) {
    && Ok(e) && !e.modes.insert && e.cur.col == 0 && !e.cur.pendingWrap && e.cur.pen == PLAIN && !Graphics(e.cur)
    && n <= e.cols && Halfless(e.grids[e.active][e.cur.row])
  }

  /** A fresh screen is, for lines no longer than its rows. */
  lemma FreshReady(e: Engine, n: nat)
    requires Ok(e) && n <= e.cols
    ensures Ready(Reborn(e), n)
  {
  }

  /** The engine with n cells read back and a pen. */
  ghost function Standing(e: Engine, cells: Row, n: nat, pen: Pen, last: Option<(nat, nat)>): Engine
    requires Ready(e, |cells|) && n <= |cells|
  {
    e.(grids := WithRow(e.grids, e.active, e.cur.row, Overlaid(e.grids[e.active][e.cur.row], cells, n)), last := last,
       cur := e.cur.(col := Min(n, e.cols - 1), pendingWrap := n == e.cols, pen := Kept(pen)))
  }

  lemma StandingOk(e: Engine, cells: Row, n: nat, pen: Pen, last: Option<(nat, nat)>)
    requires Ready(e, |cells|) && n <= |cells| && (last.Some? ==> last.value.0 < e.rows && last.value.1 < e.cols)
    ensures Ok(Standing(e, cells, n, pen, last)) && !Graphics(Standing(e, cells, n, pen, last).cur)
  {
  }

  lemma StandingStart(e: Engine, cells: Row)
    requires Ready(e, |cells|)
    ensures Standing(e, cells, 0, PLAIN, e.last) == e
  {
    var line := e.grids[e.active][e.cur.row];
    assert Overlaid(line, cells, 0) == line;
    assert e.grids[e.active][e.cur.row := line] == e.grids[e.active];
    assert Kept(PLAIN) == PLAIN;
  }

  /** Written where no halves are, a character takes its cells and no others change. */
  lemma WrittenClean(line: Row, col: nat, cp: nat, pen: Pen, w: nat)
    requires Printable(cp) && 1 <= w <= 2 && col + w <= |line|
    requires forall i :: col <= i < |line| ==> !line[i].wide && !line[i].spacer
    ensures Written(line, col, cp, pen, w) ==
      if w == 2 then line[col := Lead(cp, pen, 2)][col + 1 := Spacer(pen)] else line[col := Lead(cp, pen, 1)]
  {
  }

  function Unmarked(cells: Row, n: nat): (bare: Row)
    requires n < |cells|
    ensures |bare| == |cells|
  {
    cells[n := cells[n].(comb := 0)]
  }

  lemma OverlaidGlyph(line: Row, cells: Row, n: nat, w: nat)
    requires 1 <= w && n + w <= |cells| <= |line| && Halfless(line) && !cells[n].spacer
    requires w == (if cells[n].wide then 2 else 1) && (w == 2 ==> cells[n + 1].spacer)
    ensures var cp := if cells[n].cp != 0 then cells[n].cp else 0x20;
      Written(Overlaid(line, cells, n), n, cp, Kept(L.PenOf(cells[n])), w) == Overlaid(line, Unmarked(cells, n), n + w)
  {
    var cp := if cells[n].cp != 0 then cells[n].cp else 0x20;
    WrittenClean(Overlaid(line, cells, n), n, cp, Kept(L.PenOf(cells[n])), w);
  }

  lemma OverlaidMark(line: Row, cells: Row, n: nat, m: nat)
    requires n < m <= |cells| <= |line| && !cells[n].spacer
    ensures var s := Overlaid(line, Unmarked(cells, n), m);
      s[n].cp != 0 && s[n].comb == 0 && s[n := s[n].(comb := cells[n].comb)] == Overlaid(line, cells, m)
  {
  }

  /** With room for it in the row, a character goes where the cursor is. */
  lemma PutHere(s: Sheet, u: Setup, cp: nat, w: nat)
    requires SheetOk(s, u) && Printable(cp) && !u.insert && !s.cur.pendingWrap && s.cur.col + w <= u.cols
    ensures RoomOf(s, u, w) == s && PutOf(s, u, cp, w) == GlyphPut(s, u, cp, w)
  {
  }

  /** The character itself. */
  lemma GlyphStands(e: Engine, cells: Row, n: nat, w: nat, last: Option<(nat, nat)>)
    requires Ready(e, |cells|) && 1 <= w && n + w <= |cells| && !cells[n].spacer
    requires w == (if cells[n].wide then 2 else 1) && (w == 2 ==> cells[n + 1].spacer)
    requires last.Some? ==> last.value.0 < e.rows && last.value.1 < e.cols
    ensures var s := Standing(e, cells, n, L.PenOf(cells[n]), last);
      && Ok(s)
      && GlyphOn(s, if cells[n].cp != 0 then cells[n].cp else 0x20, w) ==
        Standing(e, Unmarked(cells, n), n + w, L.PenOf(cells[n]), Some((e.cur.row, n)))
  {
    var line, row := e.grids[e.active][e.cur.row], e.cur.row;
    var s := Standing(e, cells, n, L.PenOf(cells[n]), last);
    StandingOk(e, cells, n, L.PenOf(cells[n]), last);
    OverlaidGlyph(line, cells, n, w);
    PutHere(SheetOf(s), SetupOf(s), if cells[n].cp != 0 then cells[n].cp else 0x20, w);
    WithRowTwice(e.grids, e.active, row, Overlaid(line, cells, n), Overlaid(line, Unmarked(cells, n), n + w));
  }

  /** Its mark. */
  lemma MarkStands(e: Engine, cells: Row, n: nat, m: nat)
    requires Ready(e, |cells|) && n < m <= |cells| && !cells[n].spacer && cells[n].comb != 0
    ensures var s := Standing(e, Unmarked(cells, n), m, L.PenOf(cells[n]), Some((e.cur.row, n)));
      && Ok(s)
      && MarkOn(s, cells[n].comb) == Standing(e, cells, m, L.PenOf(cells[n]), Some((e.cur.row, n)))
  {
    var line, row := e.grids[e.active][e.cur.row], e.cur.row;
    StandingOk(e, Unmarked(cells, n), m, L.PenOf(cells[n]), Some((row, n)));
    OverlaidMark(line, cells, n, m);
    WithRowTwice(e.grids, e.active, row, Overlaid(line, Unmarked(cells, n), m), Overlaid(line, cells, m));
  }

  lemma {:induction false} CharLeads(e: Engine, p: Parser, cp: nat, f: Engine, width: nat -> nat,
      combining: nat -> bool) returns (q: Parser)
    requires Ok(e) && ParserOk(p) && R.Idle(p) && Tables(width, combining) && !Graphics(e.cur) && L.Encodable(cp)
    requires f == PutOn(e, cp, width(cp), combining(cp))
    ensures L.PiecesOk([L.Char(cp)]) && Leads(e, p, [L.Char(cp)], f, q, width, combining)
  {
    WrittenOne(L.Char(cp));
    CharFed(e, p, cp, width, combining);
    q := R.Run(p, L.Encode(cp)).0;
  }

  /** The columns of a cell that is no right half. */
  function Span(c: Cell): nat {
    if c.wide then 2 else 1
  }

  /** A cell that can be read back at n. */
  ghost predicate Fits(cells: Row, n: nat, width: nat -> nat, combining: nat -> bool) {
    && n < |cells| && !cells[n].spacer && n + Span(cells[n]) <= |cells| && (cells[n].wide ==> cells[n + 1].spacer)
    && width(if cells[n].cp != 0 then cells[n].cp else 0x20) == Span(cells[n])
    && (cells[n].comb != 0 ==> width(cells[n].comb) == 0 && combining(cells[n].comb))
  }

  ghost predicate InScreen(e: Engine, last: Option<(nat, nat)>) {
    last.Some? ==> last.value.0 < e.rows && last.value.1 < e.cols
  }

  lemma PutStands(e: Engine, cells: Row, n: nat, last: Option<(nat, nat)>, w: nat, combining: bool)
    requires Ready(e, |cells|) && n < |cells| && n + Span(cells[n]) <= |cells| && !cells[n].spacer &&
      w == Span(cells[n])
    requires InScreen(e, last) && (w == 2 ==> cells[n + 1].spacer)
    requires combining ==> cells[n].cp >= 0x300
    ensures var s := Standing(e, cells, n, L.PenOf(cells[n]), last);
      && Ok(s) && !Graphics(s.cur)
      && PutOn(s, if cells[n].cp != 0 then cells[n].cp else 0x20, w, combining) ==
        Standing(e, Unmarked(cells, n), n + w, L.PenOf(cells[n]), Some((e.cur.row, n)))
  {
    GlyphStands(e, cells, n, w, last);
  }

  lemma {:induction false} BaseLeads(e: Engine, p: Parser, cells: Row, n: nat, last: Option<(nat, nat)>,
      width: nat -> nat, combining: nat -> bool) returns (q: Parser, f: Engine)
    requires Ready(e, |cells|) && ParserOk(p) && R.Idle(p) && Tables(width, combining) && InScreen(e, last)
    requires Fits(cells, n, width, combining)
    ensures f == Standing(e, Unmarked(cells, n), n + Span(cells[n]), L.PenOf(cells[n]), Some((e.cur.row, n)))
    ensures var s, cp := Standing(e, cells, n, L.PenOf(cells[n]), last), if cells[n].cp != 0 then cells[n].cp else 0x20;
      Ok(s) && L.PiecesOk([L.Char(cp)]) && Leads(s, p, [L.Char(cp)], f, q, width, combining)
  {
    var cp := if cells[n].cp != 0 then cells[n].cp else 0x20;
    PutStands(e, cells, n, last, width(cp), combining(cp));
    f := Standing(e, Unmarked(cells, n), n + Span(cells[n]), L.PenOf(cells[n]), Some((e.cur.row, n)));
    q := CharLeads(Standing(e, cells, n, L.PenOf(cells[n]), last), p, cp, f, width, combining);
  }

  lemma {:induction false} MarkLeads(e: Engine, p: Parser, cells: Row, n: nat, s: Engine, width: nat -> nat,
      combining: nat -> bool) returns (q: Parser, f: Engine)
    requires Ready(e, |cells|) && ParserOk(p) && R.Idle(p) && Tables(width, combining)
    requires Fits(cells, n, width, combining)
    requires s == Standing(e, Unmarked(cells, n), n + Span(cells[n]), L.PenOf(cells[n]), Some((e.cur.row, n))) && Ok(s)
    ensures f == Standing(e, cells, n + Span(cells[n]), L.PenOf(cells[n]), Some((e.cur.row, n)))
    ensures var mark := L.If(cells[n].comb != 0, L.Char(cells[n].comb));
      L.PiecesOk(mark) && Leads(s, p, mark, f, q, width, combining)
  {
    if cells[n].comb != 0 {
      f := MarkPut(e, cells, n, s, width, combining);
      q := CharLeads(s, p, cells[n].comb, f, width, combining);
    } else {
      assert Unmarked(cells, n) == cells;
      LeadsNowhere(s, p, width, combining);
      q, f := p, s;
    }
  }

  lemma {:induction false} MarkPut(e: Engine, cells: Row, n: nat, s: Engine, width: nat -> nat, combining: nat -> bool)
    returns (f: Engine)
    requires Ready(e, |cells|) && Fits(cells, n, width, combining) && cells[n].comb != 0
    requires s == Standing(e, Unmarked(cells, n), n + Span(cells[n]), L.PenOf(cells[n]), Some((e.cur.row, n))) && Ok(s)
    ensures f == Standing(e, cells, n + Span(cells[n]), L.PenOf(cells[n]), Some((e.cur.row, n)))
    ensures !Graphics(s.cur) && f == PutOn(s, cells[n].comb, width(cells[n].comb), combining(cells[n].comb))
  {
    MarkStands(e, cells, n, n + Span(cells[n]));
    f := MarkOn(s, cells[n].comb);
  }

  lemma {:induction false} PenLeads(e: Engine, p: Parser, cells: Row, n: nat, pen: Pen, last: Option<(nat, nat)>,
      width: nat -> nat, combining: nat -> bool) returns (q: Parser)
    requires Ready(e, |cells|) && ParserOk(p) && R.Idle(p) && Tables(width, combining) && InScreen(e, last)
    requires n < |cells|
    ensures var s, other := Standing(e, cells, n, pen, last), L.PenOf(cells[n]);
      var change := if other != pen then L.PenPieces(other) else [];
      Ok(s) && L.PiecesOk(change) && Leads(s, p, change, Standing(e, cells, n, other, last), q, width, combining)
  {
    var s, other := Standing(e, cells, n, pen, last), L.PenOf(cells[n]);
    StandingOk(e, cells, n, pen, last);
    if other != pen {
      q := PenReadsBack(s, p, other, width, combining);
    } else {
      LeadsNowhere(s, p, width, combining);
      q := p;
    }
  }

  lemma {:induction false} CharsLead(e: Engine, p: Parser, cells: Row, n: nat, last: Option<(nat, nat)>,
      width: nat -> nat, combining: nat -> bool) returns (q: Parser)
    requires Ready(e, |cells|) && ParserOk(p) && R.Idle(p) && Tables(width, combining) && InScreen(e, last)
    requires Fits(cells, n, width, combining)
    ensures var s, c := Standing(e, cells, n, L.PenOf(cells[n]), last), cells[n];
      && Ok(s) && L.PiecesOk(L.CellChars(c))
      && Leads(s, p, L.CellChars(c), Standing(e, cells, n + Span(c), L.PenOf(c), Some((e.cur.row, n))), q, width,
        combining)
  {
    var c := cells[n];
    var s := Standing(e, cells, n, L.PenOf(c), last);
    var m, f := BaseLeads(e, p, cells, n, last, width, combining);
    var g;
    q, g := MarkLeads(e, m, cells, n, f, width, combining);
    LeadsOn(s, p, [L.Char(if c.cp != 0 then c.cp else 0x20)], f, m, L.If(c.comb != 0, L.Char(c.comb)), g, q, width,
      combining);
  }

  /** The pieces of a cell put it on the screen behind those before it. */
  lemma {:induction false} CellLeads(e: Engine, p: Parser, cells: Row, n: nat, pen: Pen, last: Option<(nat, nat)>,
      s: Engine, width: nat -> nat, combining: nat -> bool) returns (q: Parser, f: Engine)
    requires Ready(e, |cells|) && ParserOk(p) && R.Idle(p) && Tables(width, combining) && InScreen(e, last)
    requires Fits(cells, n, width, combining) && s == Standing(e, cells, n, pen, last)
    ensures f == Standing(e, cells, n + Span(cells[n]), L.PenOf(cells[n]), Some((e.cur.row, n))) && Ok(s) && Ok(f)
    ensures L.PiecesOk(L.CellPieces(pen, cells[n])) && Leads(s, p, L.CellPieces(pen, cells[n]), f, q, width, combining)
  {
    var p1 := PenLeads(e, p, cells, n, pen, last, width, combining);
    q := CharsLead(e, p1, cells, n, last, width, combining);
    f := Standing(e, cells, n + Span(cells[n]), L.PenOf(cells[n]), Some((e.cur.row, n)));
    LeadsOn(s, p, if L.PenOf(cells[n]) != pen then L.PenPieces(L.PenOf(cells[n])) else [],
      Standing(e, cells, n, L.PenOf(cells[n]), last), p1, L.CellChars(cells[n]), f, q, width, combining);
  }

  // ---- the line ----

  /** The pieces of a line from a cell on: those of the cell, and those behind it. */
  lemma {:induction false} PiecesFrom(pen: Pen, cells: Row, n: nat)
    requires n < |cells| && !cells[n].spacer && n + Span(cells[n]) <= |cells|
    requires cells[n].wide ==> cells[n + 1].spacer
    ensures L.LinePieces(pen, cells[n..]) ==
      L.CellPieces(pen, cells[n]) + L.LinePieces(L.PenOf(cells[n]), cells[n + Span(cells[n])..])
  {
    assert cells[n..][1..] == cells[n + 1..];
    if cells[n].wide {
      assert cells[n + 1..][1..] == cells[n + 2..];
      var rest := L.LinePieces(L.PenOf(cells[n]), cells[n + 2..]);
      assert L.LinePieces(L.PenOf(cells[n]), cells[n + 1..]) == [] + rest;
      assert [] + rest == rest;
    }
  }

  lemma {:induction false} EndLeads(e: Engine, p: Parser, cells: Row, pen: Pen, last: Option<(nat, nat)>,
      width: nat -> nat, combining: nat -> bool) returns (q: Parser)
    requires Ready(e, |cells|) && ParserOk(p) && R.Idle(p) && Tables(width, combining) && InScreen(e, last)
    ensures var s, tail := Standing(e, cells, |cells|, pen, last), L.If(pen != PLAIN, L.RESET);
      && Ok(s) && L.PiecesOk(tail)
      && Leads(s, p, tail, Standing(e, cells, |cells|, PLAIN, last), q, width, combining)
  {
    StandingOk(e, cells, |cells|, pen, last);
    var s := Standing(e, cells, |cells|, pen, last);
    if pen != PLAIN {
      q := InkFed(s, p, [0x30], [0], width, combining);
      PenOne(0, s.cur.pen);
    } else {
      LeadsNowhere(s, p, width, combining);
      q := p;
    }
  }

  lemma FormedFits(cells: Row, n: nat, width: nat -> nat, combining: nat -> bool)
    requires WellFormed(cells, width, combining) && width(0x20) == 1 && n < |cells| && !cells[n].spacer
    ensures Fits(cells, n, width, combining)
    ensures n + Span(cells[n]) < |cells| ==> !cells[n + Span(cells[n])].spacer
  {
    assert CellFormed(cells, n, width, combining);
    if n + Span(cells[n]) < |cells| {
      assert CellFormed(cells, n + Span(cells[n]), width, combining);
    }
  }

  /** From a cell on, the rest of the line goes behind what stands already, and the pen is plain at its end. */
  lemma {:induction false} LineLeads(e: Engine, p: Parser, cells: Row, n: nat, pen: Pen, last: Option<(nat, nat)>,
      s: Engine, width: nat -> nat, combining: nat -> bool) returns (q: Parser, f: Engine, later: Option<(nat, nat)>)
    requires Ready(e, |cells|) && ParserOk(p) && R.Idle(p) && Tables(width, combining) && InScreen(e, last)
    requires WellFormed(cells, width, combining) && width(0x20) == 1
    requires n <= |cells| && (n < |cells| ==> !cells[n].spacer) && s == Standing(e, cells, n, pen, last)
    ensures InScreen(e, later) && f == Standing(e, cells, |cells|, PLAIN, later) && Ok(s)
    ensures L.PiecesOk(L.LinePieces(pen, cells[n..]))
    ensures Leads(s, p, L.LinePieces(pen, cells[n..]), f, q, width, combining)
    decreases |cells| - n
  {
    if n == |cells| {
      q := EndLeads(e, p, cells, pen, last, width, combining);
      f, later := Standing(e, cells, |cells|, PLAIN, last), last;
    } else {
      var m, at := n + Span(cells[n]), Some((e.cur.row, n));
      FormedFits(cells, n, width, combining);
      var p1, g := CellLeads(e, p, cells, n, pen, last, s, width, combining);
      q, f, later := LineLeads(e, p1, cells, m, L.PenOf(cells[n]), at, g, width, combining);
      PiecesFrom(pen, cells, n);
      LeadsOn(s, p, L.CellPieces(pen, cells[n]), g, p1, L.LinePieces(L.PenOf(cells[n]), cells[m..]), f, q, width,
        combining);
    }
  }

  /** What is trimmed off is empty, and no right half. */
  lemma {:induction false} TrimmedOff(cells: Row)
    ensures var t := L.Trimmed(cells);
      t == cells[..|t|] && forall i :: |t| <= i < |cells| ==> cells[i].cp == 0 && !cells[i].spacer
  {
    if |cells| > 0 && cells[|cells| - 1].cp == 0 && !cells[|cells| - 1].spacer {
      TrimmedOff(cells[..|cells| - 1]);
    }
  }

  lemma {:induction false} TrimmedWellFormed(cells: Row, width: nat -> nat, combining: nat -> bool)
    requires WellFormed(cells, width, combining)
    ensures WellFormed(L.Trimmed(cells), width, combining)
  {
    TrimmedOff(cells);
    var t := L.Trimmed(cells);
    forall i | 0 <= i < |t|
      ensures CellFormed(t, i, width, combining)
    {
      assert CellFormed(cells, i, width, combining);
    }
  }

  /** The same character with its mark, colors and style, less blinking and invisible; an empty cell is a space. */
  predicate ReadBack(c: Cell, d: Cell) {
    && d.cp == (if c.cp != 0 then c.cp else 0x20) && d.comb == c.comb && d.fg == c.fg && d.bg == c.bg
    && d.style == c.style - {Blink, Invisible} && d.wide == c.wide && !d.spacer
  }

  /** The row shows the cells in their columns, right halves behind left ones, and behind them what it showed before. */
  ghost predicate Shows(t: Row, was: Row, line: Row) {
    && |line| == |was| && |t| <= |was|
    && (forall i :: 0 <= i < |t| && !t[i].spacer ==> ReadBack(t[i], line[i]))
    && (forall i :: 0 <= i < |t| && t[i].spacer ==> line[i].spacer && line[i].cp == 0)
    && (forall i :: |t| <= i < |was| ==> line[i] == was[i])
  }

  lemma OverlaidShows(t: Row, was: Row)
    requires |t| <= |was|
    ensures Shows(t, was, Overlaid(was, t, |t|))
  {
  }

  /** A line that was kept whole, fed to an idle parser, puts its cells back on the screen from the start of a row:
      every character in its column with its mark, colors and style. The other rows, the modes and the region are as
      before, and the pen is plain. */
  lemma {:induction false} LineReadBack(e: Engine, p: Parser, cells: Row, cap: nat, width: nat -> nat,
      combining: nat -> bool) returns (line: Row)
    requires ParserOk(p) && R.Idle(p) && Tables(width, combining) && width(0x20) == 1
    requires WellFormed(cells, width, combining) && L.Whole(cells, cap) && Ready(e, |L.Trimmed(cells)|)
    ensures Shows(L.Trimmed(cells), e.grids[e.active][e.cur.row], line)
    ensures R.Idle(R.Run(p, L.Serialized(cells, cap)).0)
    ensures var n, f := |L.Trimmed(cells)|, Fed(e, p, L.Serialized(cells, cap), width, combining);
      f == e.(grids := WithRow(e.grids, e.active, e.cur.row, line), last := f.last,
        cur := e.cur.(col := Min(n, e.cols - 1), pendingWrap := n == e.cols))
  {
    var t := L.Trimmed(cells);
    TrimmedWellFormed(cells, width, combining);
    StandingStart(e, t);
    line := Overlaid(e.grids[e.active][e.cur.row], t, |t|);
    OverlaidShows(t, e.grids[e.active][e.cur.row]);
    var q, f, later := WholeLineLeads(e, p, t, width, combining);
    L.FitPrefix(L.LinePieces(PLAIN, t), 0, cap);
    assert Kept(PLAIN) == PLAIN;
  }

  lemma {:induction false} WholeLineLeads(e: Engine, p: Parser, t: Row, width: nat -> nat, combining: nat -> bool)
    returns (q: Parser, f: Engine, later: Option<(nat, nat)>)
    requires ParserOk(p) && R.Idle(p) && Tables(width, combining) && width(0x20) == 1
    requires WellFormed(t, width, combining) && Ready(e, |t|)
    ensures L.PiecesOk(L.LinePieces(PLAIN, t))
    ensures f == Standing(e, t, |t|, PLAIN, later) && Leads(e, p, L.LinePieces(PLAIN, t), f, q, width, combining)
  {
    StandingStart(e, t);
    FirstFormed(t, width, combining);
    q, f, later := LineLeads(e, p, t, 0, PLAIN, e.last, e, width, combining);
    assert t[0..] == t;
  }

  lemma FirstFormed(cells: Row, width: nat -> nat, combining: nat -> bool)
    requires WellFormed(cells, width, combining)
    ensures |cells| > 0 ==> !cells[0].spacer
  {
    if |cells| > 0 {
      assert CellFormed(cells, 0, width, combining);
    }
  }
}
