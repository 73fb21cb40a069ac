/** A line of cells as text: how the scrollback writes it (src/common/scrollback.c, serialize_line), what the pager
    strips from it (src/client/pager.c, pager_strip_ansi), and what decoding the rest gives back. */
module LineText {
  import opened Bytes
  import opened Cells
  import U = Utf8

  const ESC: byte := 0x1B

  // ---- code points as bytes ----

  /** What the text of a line may hold. */
  predicate Encodable(cp: nat) {
    Printable(cp) || Markable(cp)
  }

  /** What UTF-8 can say: all but surrogates, up to the last plane. */
  predicate Scalar(cp: nat) {
    cp <= 0x10_FFFF && !Surrogate(cp)
  }

  function Utf8(cp: nat): seq<byte>
    requires Scalar(cp)
  {
    if cp < 0x80 then [cp]
    else if cp < 0x800 then [0xC0 + cp / 64, 0x80 + cp % 64]
    else if cp < 0x1_0000 then [0xE0 + cp / 4096, 0x80 + cp / 64 % 64, 0x80 + cp % 64]
    else [0xF0 + cp / 0x4_0000, 0x80 + cp / 4096 % 64, 0x80 + cp / 64 % 64, 0x80 + cp % 64]
  }

  function Encode(cp: nat): (bs: seq<byte>)
    requires Encodable(cp)
    ensures 1 <= |bs| <= 4 && forall i :: 0 <= i < |bs| ==> bs[i] >= 0x20 && bs[i] != 0x7F
  {
    Utf8(cp)
  }

  /** The automaton over some bytes: code points completed, and the state it is left in. */
  function Decode(state: nat, cp: nat, bs: seq<byte>): (seq<nat>, nat)
    decreases |bs|
  {
    if |bs| == 0 then ([], state)
    else
      var c := U.StepCp(state, cp, bs[0]);
      var s := U.StepState(state, bs[0]);
      var (cps, after) := Decode(s, c, bs[1..]);
      (if s == U.ACCEPT then [c] + cps else cps, after)
  }

  /** A continuation byte after the lead bits so far. */
  lemma {:induction false} DecodeOne(state: nat, cp: nat, b: byte, rest: seq<byte>)
    ensures var c := U.StepCp(state, cp, b); var s := U.StepState(state, b);
      Decode(state, cp, [b] + rest) ==
        (if s == U.ACCEPT then [c] + Decode(s, c, rest).0 else Decode(s, c, rest).0, Decode(s, c, rest).1)
  {
    assert ([b] + rest)[1..] == rest;
  }

  /** What a continuation byte adds. */
  lemma Continued(state: nat, acc: nat, x: nat)
    requires state == 24 || state == 36
    requires acc < 0x1_0000 && x < 64
    ensures U.StepCp(state, acc, 0x80 + x) == acc * 64 + x
    ensures U.StepState(state, 0x80 + x) == if state == 24 then U.ACCEPT else 24
  {
  }

  /** The last byte of a character. */
  lemma {:induction false} LastByte(acc: nat, x: nat, rest: seq<byte>)
    requires acc < 0x1_0000 && x < 64
    ensures var cp := acc * 64 + x;
      Decode(24, acc, [0x80 + x] + rest) == ([cp] + Decode(U.ACCEPT, cp, rest).0, Decode(U.ACCEPT, cp, rest).1)
  {
    Continued(24, acc, x);
    DecodeOne(24, acc, 0x80 + x, rest);
  }

  /** The last two bytes of one. */
  lemma {:induction false} LastTwo(acc: nat, x: nat, y: nat, rest: seq<byte>)
    requires acc < 0x400 && x < 64 && y < 64
    ensures var cp := (acc * 64 + x) * 64 + y;
      Decode(36, acc, [0x80 + x, 0x80 + y] + rest) ==
        ([cp] + Decode(U.ACCEPT, cp, rest).0, Decode(U.ACCEPT, cp, rest).1)
  {
    var more: seq<byte> := [0x80 + y] + rest;
    assert [0x80 + x, 0x80 + y] + rest == [0x80 + x] + more;
    Continued(36, acc, x);
    DecodeOne(36, acc, 0x80 + x, more);
    LastByte(acc * 64 + x, y, rest);
  }

  lemma {:induction false} Decode2(cp: nat, c0: nat, rest: seq<byte>)
    requires 0x80 <= cp < 0x800
    ensures Decode(U.ACCEPT, c0, [0xC0 + cp / 64, 0x80 + cp % 64] + rest) ==
      ([cp] + Decode(U.ACCEPT, cp, rest).0, Decode(U.ACCEPT, cp, rest).1)
  {
    var a, b := 0xC0 + cp / 64, 0x80 + cp % 64;
    assert [a, b] + rest == [a] + ([b] + rest);
    DecodeOne(U.ACCEPT, c0, a, [b] + rest);
    LastByte(cp / 64, cp % 64, rest);
  }

  /** The first two bytes of three leave one to come; surrogates and overlong forms never get there. */
  lemma Lead3(hi: nat, x: nat, c0: nat)
    requires hi < 16 && x < 64 && (hi == 0 ==> x >= 32) && (hi == 13 ==> x < 32)
    ensures var s := U.StepState(U.ACCEPT, 0xE0 + hi);
      U.StepCp(U.ACCEPT, c0, 0xE0 + hi) == hi && s != U.ACCEPT && U.StepState(s, 0x80 + x) == 24 &&
        U.StepCp(s, hi, 0x80 + x) == hi * 64 + x
  {
  }

  /** The first two bytes of four leave two to come. */
  lemma Lead4(hi: nat, x: nat, c0: nat)
    requires hi < 5 && x < 64 && (hi == 0 ==> x >= 16) && (hi == 4 ==> x < 16)
    ensures var s := U.StepState(U.ACCEPT, 0xF0 + hi);
      U.StepCp(U.ACCEPT, c0, 0xF0 + hi) == hi && s != U.ACCEPT && U.StepState(s, 0x80 + x) == 36 &&
        U.StepCp(s, hi, 0x80 + x) == hi * 64 + x
  {
  }

  lemma {:induction false} Decode3(hi: nat, x: nat, y: nat, c0: nat, rest: seq<byte>)
    requires hi < 16 && x < 64 && y < 64 && (hi == 0 ==> x >= 32) && (hi == 13 ==> x < 32)
    ensures var cp := (hi * 64 + x) * 64 + y;
      Decode(U.ACCEPT, c0, [0xE0 + hi, 0x80 + x, 0x80 + y] + rest) ==
        ([cp] + Decode(U.ACCEPT, cp, rest).0, Decode(U.ACCEPT, cp, rest).1)
  {
    var a, b, c := 0xE0 + hi, 0x80 + x, 0x80 + y;
    assert [a, b, c] + rest == [a] + ([b] + ([c] + rest));
    Lead3(hi, x, c0);
    DecodeOne(U.ACCEPT, c0, a, [b] + ([c] + rest));
    DecodeOne(U.StepState(U.ACCEPT, a), hi, b, [c] + rest);
    LastByte(hi * 64 + x, y, rest);
  }

  lemma {:induction false} Decode4(hi: nat, x: nat, y: nat, z: nat, c0: nat, rest: seq<byte>)
    requires hi < 5 && x < 64 && y < 64 && z < 64 && (hi == 0 ==> x >= 16) && (hi == 4 ==> x < 16)
    ensures var cp := ((hi * 64 + x) * 64 + y) * 64 + z;
      Decode(U.ACCEPT, c0, [0xF0 + hi, 0x80 + x, 0x80 + y, 0x80 + z] + rest) ==
        ([cp] + Decode(U.ACCEPT, cp, rest).0, Decode(U.ACCEPT, cp, rest).1)
  {
    var a, b, c, d := 0xF0 + hi, 0x80 + x, 0x80 + y, 0x80 + z;
    assert [a, b, c, d] + rest == [a] + ([b] + ([c, d] + rest));
    Lead4(hi, x, c0);
    DecodeOne(U.ACCEPT, c0, a, [b] + ([c, d] + rest));
    DecodeOne(U.StepState(U.ACCEPT, a), hi, b, [c, d] + rest);
    LastTwo(hi * 64 + x, y, z, rest);
  }

  lemma Digits3(cp: nat)
    requires 0x800 <= cp < 0x1_0000 && !Surrogate(cp)
    ensures cp == (cp / 4096 * 64 + cp / 64 % 64) * 64 + cp % 64 && cp / 4096 < 16
    ensures (cp / 4096 == 0 ==> cp / 64 % 64 >= 32) && (cp / 4096 == 13 ==> cp / 64 % 64 < 32)
  {
  }

  lemma Digits4(cp: nat)
    requires 0x1_0000 <= cp <= 0x10_FFFF
    ensures cp == ((cp / 0x4_0000 * 64 + cp / 4096 % 64) * 64 + cp / 64 % 64) * 64 + cp % 64 && cp / 0x4_0000 < 5
    ensures (cp / 0x4_0000 == 0 ==> cp / 4096 % 64 >= 16) && (cp / 0x4_0000 == 4 ==> cp / 4096 % 64 < 16)
  {
  }

  lemma {:induction false} Encoded3(cp: nat, c0: nat, rest: seq<byte>)
    requires 0x800 <= cp < 0x1_0000 && !Surrogate(cp)
    ensures Decode(U.ACCEPT, c0, [0xE0 + cp / 4096, 0x80 + cp / 64 % 64, 0x80 + cp % 64] + rest) ==
      ([cp] + Decode(U.ACCEPT, cp, rest).0, Decode(U.ACCEPT, cp, rest).1)
  {
    Digits3(cp);
    Decode3(cp / 4096, cp / 64 % 64, cp % 64, c0, rest);
  }

  lemma {:induction false} Encoded4(cp: nat, c0: nat, rest: seq<byte>)
    requires 0x1_0000 <= cp <= 0x10_FFFF
    ensures Decode(U.ACCEPT, c0,
      [0xF0 + cp / 0x4_0000, 0x80 + cp / 4096 % 64, 0x80 + cp / 64 % 64, 0x80 + cp % 64] + rest) ==
      ([cp] + Decode(U.ACCEPT, cp, rest).0, Decode(U.ACCEPT, cp, rest).1)
  {
    Digits4(cp);
    Decode4(cp / 0x4_0000, cp / 4096 % 64, cp / 64 % 64, cp % 64, c0, rest);
  }

  /** An encoded code point decodes to itself, and the automaton is ready for the next. */
  lemma {:induction false} DecodeUtf8(cp: nat, c0: nat, rest: seq<byte>)
    requires Scalar(cp)
    ensures Decode(U.ACCEPT, c0, Utf8(cp) + rest) ==
      ([cp] + Decode(U.ACCEPT, cp, rest).0, Decode(U.ACCEPT, cp, rest).1)
  {
    if cp < 0x80 {
      DecodeOne(U.ACCEPT, c0, cp, rest);
    } else if cp < 0x800 {
      Decode2(cp, c0, rest);
    } else if cp < 0x1_0000 {
      Encoded3(cp, c0, rest);
    } else {
      Encoded4(cp, c0, rest);
    }
  }

  lemma DecodeEncoded(cp: nat, c0: nat, rest: seq<byte>)
    requires Encodable(cp)
    ensures Decode(U.ACCEPT, c0, Encode(cp) + rest) ==
      ([cp] + Decode(U.ACCEPT, cp, rest).0, Decode(U.ACCEPT, cp, rest).1)
  {
    DecodeUtf8(cp, c0, rest);
  }

  // ---- nothing else is accepted ----

  /** The bytes are one character and nothing more. */
  ghost predicate Completes(state: nat, acc: nat, bs: seq<byte>, cp: nat) {
    Decode(state, acc, bs) == ([cp], U.ACCEPT)
  }

  /** Once the automaton has rejected a byte it accepts no more. */
  lemma {:induction false} RejectedStays(cp: nat, bs: seq<byte>)
    ensures Decode(U.REJECT, cp, bs) == ([], U.REJECT)
    decreases |bs|
  {
    if |bs| > 0 {
      RejectedStays(U.StepCp(U.REJECT, cp, bs[0]), bs[1..]);
    }
  }

  /** Bytes that end in acceptance have completed something. */
  lemma {:induction false} SomethingDecoded(state: nat, acc: nat, bs: seq<byte>)
    requires |bs| > 0 && Decode(state, acc, bs).1 == U.ACCEPT
    ensures Decode(state, acc, bs).0 != []
    decreases |bs|
  {
    if |bs| > 1 {
      SomethingDecoded(U.StepState(state, bs[0]), U.StepCp(state, acc, bs[0]), bs[1..]);
    }
  }

  /** The first byte of a character, and what the others have to complete. */
  lemma {:induction false} FirstOf(state: nat, acc: nat, bs: seq<byte>, cp: nat)
    requires Completes(state, acc, bs, cp) && state != U.REJECT
    ensures |bs| > 0
    ensures var c, s := U.StepCp(state, acc, bs[0]), U.StepState(state, bs[0]);
      s != U.REJECT && if s == U.ACCEPT then cp == c && bs == [bs[0]] else Completes(s, c, bs[1..], cp)
  {
    var c, s := U.StepCp(state, acc, bs[0]), U.StepState(state, bs[0]);
    RejectedStays(c, bs[1..]);
    if s == U.ACCEPT {
      var more := Decode(s, c, bs[1..]).0;
      assert [c] + more == [cp] && ([c] + more)[0] == cp;
      if |bs| > 1 {
        SomethingDecoded(s, c, bs[1..]);
      }
    }
  }

  /** One byte to come. */
  lemma {:induction false} OnlyOne(acc: nat, bs: seq<byte>, cp: nat)
    requires Completes(24, acc, bs, cp) && acc < 0x1_0000
    ensures |bs| == 1 && 0x80 <= bs[0] < 0xC0 && cp == acc * 64 + (bs[0] - 0x80)
  {
    FirstOf(24, acc, bs, cp);
  }

  /** Two to come; the first of them is bounded by what is before it. */
  lemma {:induction false} OnlyTwo(state: nat, acc: nat, bs: seq<byte>, cp: nat)
    requires state in {36, 48, 60} && Completes(state, acc, bs, cp) && acc < 0x400
    ensures |bs| == 2 && 0x80 <= bs[0] < 0xC0 && 0x80 <= bs[1] < 0xC0
    ensures cp == (acc * 64 + (bs[0] - 0x80)) * 64 + (bs[1] - 0x80)
    ensures (state == 48 ==> bs[0] >= 0xA0) && (state == 60 ==> bs[0] < 0xA0)
  {
    FirstOf(state, acc, bs, cp);
    OnlyOne(U.StepCp(state, acc, bs[0]), bs[1..], cp);
  }

  lemma {:induction false} OnlyThree(state: nat, acc: nat, bs: seq<byte>, cp: nat)
    requires state in {72, 84, 96} && Completes(state, acc, bs, cp) && acc < 8
    ensures |bs| == 3 && 0x80 <= bs[0] < 0xC0 && 0x80 <= bs[1] < 0xC0 && 0x80 <= bs[2] < 0xC0
    ensures cp == ((acc * 64 + (bs[0] - 0x80)) * 64 + (bs[1] - 0x80)) * 64 + (bs[2] - 0x80)
    ensures (state == 72 ==> bs[0] >= 0x90) && (state == 96 ==> bs[0] < 0x90)
  {
    FirstOf(state, acc, bs, cp);
    OnlyTwo(36, U.StepCp(state, acc, bs[0]), bs[1..], cp);
  }

  lemma Whole2(hi: nat, x: nat)
    requires 2 <= hi < 32 && x < 64
    ensures var cp := hi * 64 + x; Scalar(cp) && Utf8(cp) == [0xC0 + hi, 0x80 + x]
  {
  }

  lemma Whole3(hi: nat, x: nat, y: nat)
    requires hi < 16 && x < 64 && y < 64 && (hi == 0 ==> x >= 32) && (hi == 13 ==> x < 32)
    ensures var cp := (hi * 64 + x) * 64 + y; Scalar(cp) && Utf8(cp) == [0xE0 + hi, 0x80 + x, 0x80 + y]
  {
  }

  lemma Whole4(hi: nat, x: nat, y: nat, z: nat)
    requires hi < 5 && x < 64 && y < 64 && z < 64 && (hi == 0 ==> x >= 16) && (hi == 4 ==> x < 16)
    ensures var cp := ((hi * 64 + x) * 64 + y) * 64 + z;
      Scalar(cp) && Utf8(cp) == [0xF0 + hi, 0x80 + x, 0x80 + y, 0x80 + z]
  {
    var a := hi * 64 + x;
    var b := a * 64 + y;
    var cp := b * 64 + z;
    assert cp / 64 == b && b / 64 == a && a / 64 == hi;
    assert cp / 4096 == a && cp / 0x4_0000 == hi;
  }

  /** The automaton accepts exactly UTF-8: bytes are one character if and only if they are the encoding of a scalar
      value, which is the code point it computes. Overlong forms, surrogates and what lies beyond the last plane are
      rejected. */
  lemma {:induction false} AcceptsExactly(bs: seq<byte>, c0: nat, cp: nat)
    ensures Completes(U.ACCEPT, c0, bs, cp) <==> Scalar(cp) && bs == Utf8(cp)
  {
    if Completes(U.ACCEPT, c0, bs, cp) {
      OnlyUtf8(bs, c0, cp);
    }
    if Scalar(cp) && bs == Utf8(cp) {
      DecodeUtf8(cp, c0, []);
      assert bs + [] == bs && Decode(U.ACCEPT, cp, []) == ([], U.ACCEPT) && [cp] + [] == [cp];
    }
  }

  lemma {:induction false} OnlyUtf8(bs: seq<byte>, c0: nat, cp: nat)
    requires Completes(U.ACCEPT, c0, bs, cp)
    ensures Scalar(cp) && bs == Utf8(cp)
  {
    FirstOf(U.ACCEPT, c0, bs, cp);
    var s := U.StepState(U.ACCEPT, bs[0]);
    if s == 24 {
      Only2(bs, c0, cp);
    } else if s in {36, 48, 60} {
      Only3(bs, c0, cp);
    } else if s != U.ACCEPT {
      Only4(bs, c0, cp);
    }
  }

  lemma {:induction false} Only2(bs: seq<byte>, c0: nat, cp: nat)
    requires |bs| > 0 && U.StepState(U.ACCEPT, bs[0]) == 24
    requires Completes(24, U.StepCp(U.ACCEPT, c0, bs[0]), bs[1..], cp)
    ensures Scalar(cp) && bs == Utf8(cp)
  {
    var hi := bs[0] - 0xC0;
    assert U.StepCp(U.ACCEPT, c0, bs[0]) == hi && 2 <= hi < 32;
    OnlyOne(hi, bs[1..], cp);
    Whole2(hi, bs[1] - 0x80);
  }

  lemma {:induction false} Only3(bs: seq<byte>, c0: nat, cp: nat)
    requires |bs| > 0 && U.StepState(U.ACCEPT, bs[0]) in {36, 48, 60}
    requires Completes(U.StepState(U.ACCEPT, bs[0]), U.StepCp(U.ACCEPT, c0, bs[0]), bs[1..], cp)
    ensures Scalar(cp) && bs == Utf8(cp)
  {
    var hi := bs[0] - 0xE0;
    assert U.StepCp(U.ACCEPT, c0, bs[0]) == hi && 0 <= hi < 16;
    OnlyTwo(U.StepState(U.ACCEPT, bs[0]), hi, bs[1..], cp);
    Whole3(hi, bs[1] - 0x80, bs[2] - 0x80);
  }

  lemma {:induction false} Only4(bs: seq<byte>, c0: nat, cp: nat)
    requires |bs| > 0 && U.StepState(U.ACCEPT, bs[0]) in {72, 84, 96}
    requires Completes(U.StepState(U.ACCEPT, bs[0]), U.StepCp(U.ACCEPT, c0, bs[0]), bs[1..], cp)
    ensures Scalar(cp) && bs == Utf8(cp)
  {
    var hi := bs[0] - 0xF0;
    assert U.StepCp(U.ACCEPT, c0, bs[0]) == hi && 0 <= hi < 5;
    OnlyThree(U.StepState(U.ACCEPT, bs[0]), hi, bs[1..], cp);
    Whole4(hi, bs[1] - 0x80, bs[2] - 0x80, bs[3] - 0x80);
  }

  // ---- pieces ----

  /** What a line is written in: control sequences, and code points. */
  datatype Piece = Control(body: seq<byte>) | Char(cp: nat)

  /** A control sequence's body has no byte that would end it early. */
  predicate PieceOk(p: Piece) {
    match p
    case Control(body) => forall i :: 0 <= i < |body| ==> body[i] < 0x40
    case Char(cp) => Encodable(cp)
  }

  function PieceBytes(p: Piece): (bs: seq<byte>)
    requires PieceOk(p)
    ensures |bs| >= 1
  {
    match p
    case Control(body) => [ESC, 0x5B] + body + [0x6D]
    case Char(cp) => Encode(cp)
  }

  ghost predicate PiecesOk(ps: seq<Piece>) {
    forall i :: 0 <= i < |ps| ==> PieceOk(ps[i])
  }

  ghost function Written(ps: seq<Piece>): seq<byte>
    requires PiecesOk(ps)
  {
    if |ps| == 0 then [] else PieceBytes(ps[0]) + Written(ps[1..])
  }

  ghost function CodePoints(ps: seq<Piece>): seq<nat> {
    if |ps| == 0 then [] else (if ps[0].Char? then [ps[0].cp] else []) + CodePoints(ps[1..])
  }

  /** The code points alone, encoded. */
  ghost function Visible(ps: seq<Piece>): seq<byte>
    requires PiecesOk(ps)
  {
    if |ps| == 0 then [] else (if ps[0].Char? then Encode(ps[0].cp) else []) + Visible(ps[1..])
  }

  // ---- stripping ----

  /** What follows a control sequence, from behind its introducer on. */
  function AfterCsi(t: seq<byte>): (r: seq<byte>)
    ensures |r| <= |t|
  {
    if |t| == 0 then [] else if 0x40 <= t[0] <= 0x7E then t[1..] else AfterCsi(t[1..])
  }

  /** What follows a string command, ended by BEL or ESC \. */
  function AfterOsc(t: seq<byte>): (r: seq<byte>)
    ensures |r| <= |t|
  {
    if |t| == 0 then []
    else if t[0] == 0x07 then t[1..]
    else if t[0] == ESC && |t| > 1 && t[1] == 0x5C then t[2..]
    else AfterOsc(t[1..])
  }

  /** pager_strip_ansi, with room for everything. */
  function Strip(s: seq<byte>): seq<byte>
    decreases |s|
  {
    if |s| == 0 then []
    else if s[0] == ESC then
      if |s| == 1 then []
      else if s[1] == 0x5B then Strip(AfterCsi(s[2..]))
      else if s[1] == 0x5D then Strip(AfterOsc(s[2..]))
      else Strip(s[2..])
    else if s[0] < 0x20 || s[0] == 0x7F then Strip(s[1..])
    else [s[0]] + Strip(s[1..])
  }

  lemma {:induction false} SkipsBody(body: seq<byte>, rest: seq<byte>)
    requires forall i :: 0 <= i < |body| ==> body[i] < 0x40
    ensures AfterCsi(body + [0x6D] + rest) == rest
  {
    var t := body + [0x6D] + rest;
    if |body| == 0 {
      assert t[1..] == rest;
    } else {
      assert t[1..] == body[1..] + [0x6D] + rest;
      SkipsBody(body[1..], rest);
    }
  }

  lemma {:induction false} KeepsText(bs: seq<byte>, rest: seq<byte>)
    requires forall i :: 0 <= i < |bs| ==> bs[i] >= 0x20 && bs[i] != 0x7F
    ensures Strip(bs + rest) == bs + Strip(rest)
  {
    if |bs| == 0 {
      assert bs + rest == rest;
    } else {
      assert (bs + rest)[1..] == bs[1..] + rest;
      KeepsText(bs[1..], rest);
      assert [bs[0]] + (bs[1..] + Strip(rest)) == bs + Strip(rest);
    }
  }

  lemma {:induction false} StripPiece(p: Piece, rest: seq<byte>)
    requires PieceOk(p)
    ensures Strip(PieceBytes(p) + rest) == (if p.Char? then Encode(p.cp) else []) + Strip(rest)
  {
    match p
    case Char(cp) => KeepsText(Encode(cp), rest);
    case Control(body) =>
      var s := PieceBytes(p) + rest;
      assert s[2..] == body + [0x6D] + rest;
      SkipsBody(body, rest);
  }

  /** Stripping a line of whole pieces leaves exactly its code points. */
  lemma {:induction false} StripPieces(ps: seq<Piece>)
    requires PiecesOk(ps)
    ensures Strip(Written(ps)) == Visible(ps)
  {
    if |ps| > 0 {
      StripPiece(ps[0], Written(ps[1..]));
      StripPieces(ps[1..]);
    }
  }

  lemma {:induction false} DecodeVisible(ps: seq<Piece>, c0: nat)
    requires PiecesOk(ps)
    ensures Decode(U.ACCEPT, c0, Visible(ps)) == (CodePoints(ps), U.ACCEPT)
  {
    if |ps| > 0 {
      if ps[0].Char? {
        DecodeEncoded(ps[0].cp, c0, Visible(ps[1..]));
        DecodeVisible(ps[1..], ps[0].cp);
      } else {
        assert Visible(ps) == Visible(ps[1..]) && CodePoints(ps) == CodePoints(ps[1..]);
        DecodeVisible(ps[1..], c0);
      }
    }
  }

  // ---- the pieces of a line ----

  /** The body of a color sequence: 38 or 48, then an index or three components. */
  function ColorBody(base: nat, c: Color): (s: seq<byte>)
    ensures forall i :: 0 <= i < |s| ==> s[i] < 0x40
  {
    if c / 0x100_0000 == 1 then Decimal(base) + [0x3B, 0x35, 0x3B] + Decimal(c % 0x100)
    else
      Decimal(base) + [0x3B, 0x32, 0x3B] + Decimal(c / 0x1_0000 % 0x100) + [0x3B] + Decimal(c / 0x100 % 0x100) +
      [0x3B] + Decimal(c % 0x100)
  }

  function If(c: bool, p: Piece): seq<Piece> {
    if c then [p] else []
  }

  const RESET := Control([0x30])

  function PenOf(c: Cell): Pen {
    Pen(c.fg, c.bg, c.style)
  }

  /** The pieces whose condition holds. */
  function Chosen(options: seq<(bool, Piece)>): seq<Piece> {
    if |options| == 0 then [] else If(options[0].0, options[0].1) + Chosen(options[1..])
  }

  function PenOptions(pen: Pen): seq<(bool, Piece)> {
    [(true, RESET), (Bold in pen.style, Control([0x31])), (Dim in pen.style, Control([0x32])),
     (Italic in pen.style, Control([0x33])), (Underline in pen.style, Control([0x34])),
     (Reverse in pen.style, Control([0x37])), (Strike in pen.style, Control([0x39])),
     (pen.fg != DEFAULT_COLOR, Control(ColorBody(38, pen.fg))),
     (pen.bg != DEFAULT_COLOR, Control(ColorBody(48, pen.bg)))]
  }

  /** The sequences for another pen; blinking and invisible are not kept. */
  function PenPieces(pen: Pen): seq<Piece> {
    Chosen(PenOptions(pen))
  }

  /** Base and mark. */
  function CellChars(c: Cell): seq<Piece> {
    [Char(if c.cp != 0 then c.cp else 0x20)] + If(c.comb != 0, Char(c.comb))
  }

  function CellPieces(pen: Pen, c: Cell): seq<Piece> {
    if c.spacer then [] else (if PenOf(c) != pen then PenPieces(PenOf(c)) else []) + CellChars(c)
  }

  function PenAfter(pen: Pen, c: Cell): Pen {
    if c.spacer then pen else PenOf(c)
  }

  /** The pieces of the cells, from a pen on, and the reset at the end. */
  function LinePieces(pen: Pen, cells: Row): seq<Piece>
    decreases |cells|
  {
    if |cells| == 0 then If(pen != PLAIN, RESET)
    else CellPieces(pen, cells[0]) + LinePieces(PenAfter(pen, cells[0]), cells[1..])
  }

  /** Trailing cells that are empty and no spacers go. */
  function Trimmed(cells: Row): (t: Row)
    ensures t <= cells
  {
    if |cells| > 0 && cells[|cells| - 1].cp == 0 && !cells[|cells| - 1].spacer then Trimmed(cells[..|cells| - 1])
    else cells
  }

  /** The text of the cells: empty ones as spaces, spacers skipped, each mark behind its base. */
  function Text(cells: Row): seq<nat> {
    if |cells| == 0 then []
    else if cells[0].spacer then Text(cells[1..])
    else
      [if cells[0].cp != 0 then cells[0].cp else 0x20] + (if cells[0].comb != 0 then [cells[0].comb] else []) +
      Text(cells[1..])
  }

  // ---- the line as a whole ----

  ghost predicate Controls(ps: seq<Piece>) {
    forall i :: 0 <= i < |ps| ==> ps[i].Control? && PieceOk(ps[i])
  }

  lemma {:induction false} ChosenControls(options: seq<(bool, Piece)>)
    requires forall i :: 0 <= i < |options| ==> options[i].1.Control? && PieceOk(options[i].1)
    ensures Controls(Chosen(options))
  {
    if |options| > 0 {
      ChosenControls(options[1..]);
    }
  }

  lemma PenPiecesOk(pen: Pen)
    ensures Controls(PenPieces(pen))
  {
    ChosenControls(PenOptions(pen));
  }

  lemma CellPiecesOk(pen: Pen, c: Cell)
    ensures PiecesOk(CellPieces(pen, c))
  {
    PenPiecesOk(PenOf(c));
  }

  lemma {:induction false} LinePiecesOk(pen: Pen, cells: Row)
    ensures PiecesOk(LinePieces(pen, cells))
    decreases |cells|
  {
    if |cells| > 0 {
      CellPiecesOk(pen, cells[0]);
      LinePiecesOk(PenAfter(pen, cells[0]), cells[1..]);
    }
  }

  lemma {:induction false} CodePointsOn(a: seq<Piece>, b: seq<Piece>)
    ensures CodePoints(a + b) == CodePoints(a) + CodePoints(b)
  {
    if |a| == 0 {
      assert a + b == b;
    } else {
      assert (a + b)[1..] == a[1..] + b;
      CodePointsOn(a[1..], b);
      Regrouped(if a[0].Char? then [a[0].cp] else [], CodePoints(a[1..]), CodePoints(b));
    }
  }

  lemma {:induction false} NoCodePoints(ps: seq<Piece>)
    requires Controls(ps)
    ensures CodePoints(ps) == []
  {
    if |ps| > 0 {
      NoCodePoints(ps[1..]);
    }
  }

  lemma {:induction false} CharsCodePoints(c: Cell)
    ensures CodePoints(CellChars(c)) == [if c.cp != 0 then c.cp else 0x20] + if c.comb != 0 then [c.comb] else []
  {
    var base := [Char(if c.cp != 0 then c.cp else 0x20)];
    assert base[1..] == [];
    assert CodePoints(base) == [if c.cp != 0 then c.cp else 0x20];
    CodePointsOn(base, If(c.comb != 0, Char(c.comb)));
    if c.comb != 0 {
      assert [Char(c.comb)][1..] == [];
      assert CodePoints([Char(c.comb)]) == [c.comb];
    }
  }

  lemma {:induction false} CellCodePoints(pen: Pen, c: Cell)
    ensures CodePoints(CellPieces(pen, c)) ==
      if c.spacer then [] else [if c.cp != 0 then c.cp else 0x20] + if c.comb != 0 then [c.comb] else []
  {
    CharsCodePoints(c);
    var change := if PenOf(c) != pen then PenPieces(PenOf(c)) else [];
    PenPiecesOk(PenOf(c));
    NoCodePoints(change);
    CodePointsOn(change, CellChars(c));
  }

  /** The code points among a line's pieces are its text. */
  lemma {:induction false} LineCodePoints(pen: Pen, cells: Row)
    ensures CodePoints(LinePieces(pen, cells)) == Text(cells)
    decreases |cells|
  {
    if |cells| == 0 {
      NoCodePoints(If(pen != PLAIN, RESET));
    } else {
      CellCodePoints(pen, cells[0]);
      LineCodePoints(PenAfter(pen, cells[0]), cells[1..]);
      CodePointsOn(CellPieces(pen, cells[0]), LinePieces(PenAfter(pen, cells[0]), cells[1..]));
    }
  }

  /** The pieces that are put before one does not fit. */
  ghost function Fit(ps: seq<Piece>, used: nat, cap: nat): seq<Piece>
    requires PiecesOk(ps)
  {
    if |ps| == 0 || used + |PieceBytes(ps[0])| > cap then []
    else [ps[0]] + Fit(ps[1..], used + |PieceBytes(ps[0])|, cap)
  }

  lemma {:induction false} FitPrefix(ps: seq<Piece>, used: nat, cap: nat)
    requires PiecesOk(ps)
    ensures PiecesOk(Fit(ps, used, cap)) && Fit(ps, used, cap) <= ps
    ensures CodePoints(Fit(ps, used, cap)) <= CodePoints(ps)
    ensures used + |Written(ps)| <= cap ==> Fit(ps, used, cap) == ps
  {
    if |ps| > 0 && used + |PieceBytes(ps[0])| <= cap {
      FitNext(ps, used, |PieceBytes(ps[0])|, cap);
    } else {
      assert Fit(ps, used, cap) == [];
    }
  }

  lemma {:induction false} FitNext(ps: seq<Piece>, used: nat, size: nat, cap: nat)
    requires PiecesOk(ps) && |ps| > 0 && size == |PieceBytes(ps[0])| && used + size <= cap
    ensures PiecesOk(Fit(ps, used, cap)) && Fit(ps, used, cap) <= ps
    ensures CodePoints(Fit(ps, used, cap)) <= CodePoints(ps)
    ensures used + |Written(ps)| <= cap ==> Fit(ps, used, cap) == ps
  {
    var rest := Fit(ps[1..], used + size, cap);
    assert Fit(ps, used, cap) == [ps[0]] + rest && |Written(ps)| == size + |Written(ps[1..])|;
    FitPrefix(ps[1..], used + size, cap);
    FitOne(ps, rest);
  }

  lemma {:induction false} FitOne(ps: seq<Piece>, f: seq<Piece>)
    requires PiecesOk(ps) && |ps| > 0 && PiecesOk(f) && f <= ps[1..] && CodePoints(f) <= CodePoints(ps[1..])
    ensures PiecesOk([ps[0]] + f) && [ps[0]] + f <= ps && CodePoints([ps[0]] + f) <= CodePoints(ps)
    ensures f == ps[1..] ==> [ps[0]] + f == ps
  {
    assert ([ps[0]] + f)[1..] == f;
  }

  /** serialize_line */
  ghost function Serialized(cells: Row, cap: nat): seq<byte> {
    var ps := LinePieces(PLAIN, Trimmed(cells));
    LinePiecesOk(PLAIN, Trimmed(cells));
    FitPrefix(ps, 0, cap);
    Written(Fit(ps, 0, cap))
  }

  /** The line fits the cap. */
  ghost predicate Whole(cells: Row, cap: nat) {
    LinePiecesOk(PLAIN, Trimmed(cells));
    |Written(LinePieces(PLAIN, Trimmed(cells)))| <= cap
  }

  /** What the pager leaves of a serialized line decodes to the text of its cells; where the line was cut at the cap,
      to a prefix of it in whole code points. */
  lemma {:induction false} LineReadsBack(cells: Row, cap: nat)
    ensures var (cps, state) := Decode(U.ACCEPT, 0, Strip(Serialized(cells, cap)));
      state == U.ACCEPT && cps <= Text(Trimmed(cells))
    ensures Whole(cells, cap) ==>
      Decode(U.ACCEPT, 0, Strip(Serialized(cells, cap))).0 == Text(Trimmed(cells))
  {
    var ps := LinePieces(PLAIN, Trimmed(cells));
    LinePiecesOk(PLAIN, Trimmed(cells));
    FitPrefix(ps, 0, cap);
    var f := Fit(ps, 0, cap);
    StripPieces(f);
    DecodeVisible(f, 0);
    LineCodePoints(PLAIN, Trimmed(cells));
  }

  /** Only whole pieces are put, and never more bytes than the cap. */
  lemma {:induction false} FitBound(ps: seq<Piece>, used: nat, cap: nat)
    requires PiecesOk(ps) && used <= cap
    ensures PiecesOk(Fit(ps, used, cap)) && used + |Written(Fit(ps, used, cap))| <= cap
  {
    if |ps| > 0 && used + |PieceBytes(ps[0])| <= cap {
      var on := used + |PieceBytes(ps[0])|;
      FitBound(ps[1..], on, cap);
      WrittenCons(ps[0], Fit(ps[1..], on, cap));
      assert Fit(ps, used, cap) == [ps[0]] + Fit(ps[1..], on, cap);
    } else {
      assert Fit(ps, used, cap) == [];
    }
  }

  /** Stripping never adds a byte. */
  lemma {:induction false} StripShorter(s: seq<byte>)
    ensures |Strip(s)| <= |s|
    decreases |s|
  {
    if |s| > 0 {
      if s[0] != ESC {
        StripShorter(s[1..]);
      } else if |s| > 1 {
        StripShorter(if s[1] == 0x5B then AfterCsi(s[2..]) else if s[1] == 0x5D then AfterOsc(s[2..]) else s[2..]);
      }
    }
  }

  const LINE_CAP: nat := 8192

  /** End to end: a line of cells, serialized for the scrollback and stripped into the pager's buffer, decodes to the
      text of the cells, or to a prefix of it in whole code points where the line was cut. */
  lemma {:induction false} PagerReadsLine(cells: Row)
    ensures var (cps, state) := Decode(U.ACCEPT, 0, Clipped(Strip(Serialized(cells, LINE_CAP)), LINE_CAP + 1));
      && state == U.ACCEPT && cps <= Text(Trimmed(cells))
      && (Whole(cells, LINE_CAP) ==> cps == Text(Trimmed(cells)))
  {
    var ps := LinePieces(PLAIN, Trimmed(cells));
    LinePiecesOk(PLAIN, Trimmed(cells));
    FitBound(ps, 0, LINE_CAP);
    StripShorter(Serialized(cells, LINE_CAP));
    LineReadsBack(cells, LINE_CAP);
  }

  // ---- as the source runs it ----

  /** The bytes so far, and those of the pieces to come as far as they fit. */
  ghost function Onward(out: seq<byte>, ps: seq<Piece>, cap: nat): seq<byte>
    requires PiecesOk(ps)
  {
    FitPrefix(ps, |out|, cap);
    out + Written(Fit(ps, |out|, cap))
  }

  lemma {:induction false} OnwardStep(out: seq<byte>, ps: seq<Piece>, cap: nat)
    requires PiecesOk(ps)
    ensures |ps| == 0 ==> Onward(out, ps, cap) == out
    ensures |ps| > 0 ==>
      Onward(out, ps, cap) == if |out| + |PieceBytes(ps[0])| > cap then out
        else Onward(out + PieceBytes(ps[0]), ps[1..], cap)
  {
    FitPrefix(ps, |out|, cap);
    if |ps| > 0 && |out| + |PieceBytes(ps[0])| <= cap {
      OnwardFits(out, ps, PieceBytes(ps[0]), cap);
    }
  }

  lemma {:induction false} OnwardFits(out: seq<byte>, ps: seq<Piece>, bs: seq<byte>, cap: nat)
    requires PiecesOk(ps) && |ps| > 0 && bs == PieceBytes(ps[0]) && |out| + |bs| <= cap
    ensures Onward(out, ps, cap) == Onward(out + bs, ps[1..], cap)
  {
    var rest := Fit(ps[1..], |out| + |bs|, cap);
    FitPrefix(ps, |out|, cap);
    FitPrefix(ps[1..], |out| + |bs|, cap);
    assert Fit(ps, |out|, cap) == [ps[0]] + rest;
    WrittenCons(ps[0], rest);
    Regrouped(out, bs, Written(rest));
  }

  lemma {:induction false} WrittenCons(p: Piece, ps: seq<Piece>)
    requires PieceOk(p) && PiecesOk(ps)
    ensures PiecesOk([p] + ps) && Written([p] + ps) == PieceBytes(p) + Written(ps)
  {
    assert ([p] + ps)[1..] == ps;
  }

  lemma Regrouped<T>(a: seq<T>, b: seq<T>, c: seq<T>)
    ensures a + (b + c) == (a + b) + c
  {
  }

  /** PUT, piece after piece: the first that does not fit ends the line. */
  method PutAll(out0: seq<byte>, ps: seq<Piece>, cap: nat, ghost more: seq<Piece>) returns (out: seq<byte>, ok: bool)
    requires PiecesOk(ps) && PiecesOk(more)
    ensures Onward(out0, ps + more, cap) == if ok then Onward(out, more, cap) else out
  {
    out := out0;
    assert ps[0..] + more == ps + more;
    for i := 0 to |ps|
      invariant PiecesOk(ps[i..] + more) && Onward(out, ps[i..] + more, cap) == Onward(out0, ps + more, cap)
    {
      OnwardStep(out, ps[i..] + more, cap);
      assert (ps[i..] + more)[1..] == ps[i + 1..] + more;
      var bs := PieceBytes(ps[i]);
      if |out| + |bs| > cap {
        return out, false;
      }
      out := out + bs;
    }
    assert ps[|ps|..] + more == more;
    ok := true;
  }

  /** serialize_line: the pen is written where it changes, the text cell by cell. */
  method SerializeLine(cells: Row, cap: nat) returns (out: seq<byte>)
    ensures out == Serialized(cells, cap)
  {
    var last := TrimLine(cells);
    var t := cells[..last];
    LinePiecesOk(PLAIN, t);
    out := [];
    var pen := PLAIN;
    ghost var whole := Onward(out, LinePieces(PLAIN, t), cap);
    assert t[0..] == t && [] + whole == whole;
    for c := 0 to |t|
      invariant PiecesOk(LinePieces(pen, t[c..])) && Onward(out, LinePieces(pen, t[c..]), cap) == whole
    {
      var cell := t[c];
      assert t[c..][1..] == t[c + 1..];
      CellPiecesOk(pen, cell);
      LinePiecesOk(PenAfter(pen, cell), t[c + 1..]);
      var ok;
      out, ok := PutAll(out, CellPieces(pen, cell), cap, LinePieces(PenAfter(pen, cell), t[c + 1..]));
      if !ok {
        return;
      }
      pen := PenAfter(pen, cell);
    }
    assert t[|t|..] == [];
    var tail := If(pen != PLAIN, RESET);
    OnwardStep(out, tail, cap);
    if pen != PLAIN && |out| + 4 <= cap {
      out := out + PieceBytes(RESET);
      OnwardStep(out, tail[1..], cap);
    }
  }

  method TrimLine(cells: Row) returns (last: nat)
    ensures last <= |cells| && cells[..last] == Trimmed(cells)
  {
    last := |cells|;
    assert cells[..last] == cells;
    while last > 0 && cells[last - 1].cp == 0 && !cells[last - 1].spacer
      invariant last <= |cells| && Trimmed(cells[..last]) == Trimmed(cells)
    {
      assert cells[..last][..last - 1] == cells[..last - 1];
      last := last - 1;
    }
  }

  /** What the buffer holds of the text so far. */
  function Clipped(all: seq<byte>, cap: nat): seq<byte> {
    if |all| < cap then all else all[..if cap > 0 then cap - 1 else 0]
  }

  lemma ClippedMore(all: seq<byte>, b: byte, cap: nat)
    ensures Clipped(all + [b], cap) == Clipped(all, cap) + if |Clipped(all, cap)| + 1 < cap then [b] else []
  {
  }

  /** pager_strip_ansi: as much as the buffer takes, less the terminator. */
  method StripAnsi(s: seq<byte>, cap: nat) returns (out: seq<byte>)
    ensures out == Clipped(Strip(s), cap)
  {
    out := [];
    ghost var all: seq<byte> := [];
    var i := 0;
    assert s[0..] == s && all + Strip(s) == Strip(s);
    while i < |s|
      invariant 0 <= i <= |s| && Strip(s) == all + Strip(s[i..]) && out == Clipped(all, cap)
      decreases |s| - i
    {
      var b := s[i];
      StripFirst(s, i, all);
      if b == ESC {
        if i + 1 >= |s| {
          return;
        }
        i := SkipEscape(s, i);
      } else {
        if !(b < 0x20 || b == 0x7F) {
          ClippedMore(all, b, cap);
          if |out| + 1 < cap {
            out := out + [b];
          }
          all := all + [b];
        }
        i := i + 1;
      }
    }
    assert all + Strip(s[i..]) == all;
  }

  lemma {:induction false} StripFirst(s: seq<byte>, i: nat, all: seq<byte>)
    requires i < |s|
    ensures s[i] == ESC && i + 1 == |s| ==> all + Strip(s[i..]) == all
    ensures s[i] != ESC && (s[i] < 0x20 || s[i] == 0x7F) ==> Strip(s[i..]) == Strip(s[i + 1..])
    ensures s[i] >= 0x20 && s[i] != 0x7F ==> all + Strip(s[i..]) == (all + [s[i]]) + Strip(s[i + 1..])
  {
    assert s[i..][1..] == s[i + 1..];
    if s[i] >= 0x20 && s[i] != 0x7F {
      Regrouped(all, [s[i]], Strip(s[i + 1..]));
    }
  }

  /** The index behind an escape. */
  method SkipEscape(s: seq<byte>, i: nat) returns (k: nat)
    requires i + 1 < |s| && s[i] == ESC
    ensures i < k <= |s| && Strip(s[k..]) == Strip(s[i..])
  {
    assert s[i..][2..] == s[i + 2..] && s[i..][1] == s[i + 1];
    var n := s[i + 1];
    if n == 0x5B {
      k := SkipCsi(s, i + 2);
    } else if n == 0x5D {
      k := SkipOsc(s, i + 2);
    } else {
      k := i + 2;
    }
  }

  /** The index behind a control sequence whose introducer ends before k. */
  method SkipCsi(s: seq<byte>, k: nat) returns (i: nat)
    requires k <= |s|
    ensures k <= i <= |s| && s[i..] == AfterCsi(s[k..])
  {
    i := k;
    while i < |s| && (s[i] < 0x40 || s[i] > 0x7E)
      invariant k <= i <= |s| && AfterCsi(s[i..]) == AfterCsi(s[k..])
    {
      assert s[i..][1..] == s[i + 1..];
      i := i + 1;
    }
    if i < |s| {
      assert s[i..][1..] == s[i + 1..];
      i := i + 1;
    }
  }

  method SkipOsc(s: seq<byte>, k: nat) returns (i: nat)
    requires k <= |s|
    ensures k <= i <= |s| && s[i..] == AfterOsc(s[k..])
  {
    i := k;
    while i < |s| && s[i] != 0x07
      invariant k <= i <= |s| && AfterOsc(s[i..]) == AfterOsc(s[k..])
    {
      assert s[i..][1..] == s[i + 1..] && (i + 2 <= |s| ==> s[i..][2..] == s[i + 2..]);
      if s[i] == ESC && i + 1 < |s| && s[i + 1] == 0x5C {
        return i + 2;
      }
      i := i + 1;
    }
    if i < |s| {
      assert s[i..][1..] == s[i + 1..];
      i := i + 1;
    }
  }
}
