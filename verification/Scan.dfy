/** The client's chord scanner (src/client/scan.c): Ctrl-\ and what may follow it, in input cut into reads anywhere. */
module Scan {
  import opened Bytes

  const CTRL_BACKSLASH: byte := 0x1C
  const ESC: byte := 0x1B
  const BRACKET: byte := 0x5B

  datatype Action =
    | Detach | CopyMode | SplitStacked | SplitSide | PaneNext | PaneLast | PaneClose | PaneZoom
    | PaneUp | PaneDown | PaneRight | PaneLeft

  /** The byte that completes a chord right after Ctrl-\. */
  function Key(b: byte): Option<Action> {
    if b == 0x04 then Some(Detach)
    else if b == BRACKET then Some(CopyMode)
    else if b == 0x22 then Some(SplitStacked)
    else if b == 0x25 then Some(SplitSide)
    else if b == 0x6F then Some(PaneNext)
    else if b == 0x3B then Some(PaneLast)
    else if b == 0x78 then Some(PaneClose)
    else if b == 0x7A then Some(PaneZoom)
    else None
  }

  function Arrow(b: byte): Option<Action> {
    if b == 0x41 then Some(PaneUp)
    else if b == 0x42 then Some(PaneDown)
    else if b == 0x43 then Some(PaneRight)
    else if b == 0x44 then Some(PaneLeft)
    else None
  }

  /** The bytes swallowed so far, by how far the chord has come. */
  function Held(armed: nat): (h: seq<byte>)
    ensures |h| <= 3
  {
    if armed == 1 then [CTRL_BACKSLASH]
    else if armed == 2 then [CTRL_BACKSLASH, ESC]
    else if armed == 3 then [CTRL_BACKSLASH, ESC, BRACKET]
    else []
  }

  /** The bytes of a whole chord. */
  predicate IsChord(a: Action, keys: seq<byte>) {
    || (|keys| == 2 && keys[0] == CTRL_BACKSLASH && Key(keys[1]) == Some(a))
    || (|keys| == 4 && keys[..3] == Held(3) && Arrow(keys[3]) == Some(a))
  }

  /** What one byte does: the next state, the bytes let through, the chord it completes. */
  datatype Turn = Turn(armed: nat, out: seq<byte>, action: Option<Action>)

  function Step(armed: nat, b: byte): (t: Turn)
    ensures t.armed <= 3
  {
    if armed == 1 then
      if Key(b).Some? then Turn(0, [], Key(b))
      else if b == ESC then Turn(2, [], None)
      else Turn(0, [CTRL_BACKSLASH, b], None)
    else if armed == 2 then
      if b == BRACKET then Turn(3, [], None) else var t := Step(0, b); t.(out := Held(2) + t.out)
    else if armed == 3 then
      if Arrow(b).Some? then Turn(0, [], Arrow(b)) else var t := Step(0, b); t.(out := Held(3) + t.out)
    else if b == CTRL_BACKSLASH then Turn(1, [], None)
    else Turn(0, [b], None)
  }

  /** Input up to the first completed chord. */
  datatype Result = Result(armed: nat, out: seq<byte>, consumed: nat, action: Option<Action>)

  function Run(armed: nat, input: seq<byte>): (r: Result)
    ensures r.consumed <= |input|
    decreases |input|
  {
    if |input| == 0 then Result(armed, [], 0, None)
    else
      var t := Step(armed, input[0]);
      if t.action.Some? then Result(t.armed, t.out, 1, t.action)
      else var r := Run(t.armed, input[1..]); Result(r.armed, t.out + r.out, 1 + r.consumed, r.action)
  }

  // ---- the chords ----

  /** The bytes of each chord: Ctrl-\ and Ctrl-D, [, ", %, o, ;, x or z, or an arrow key as the terminal sends it. */
  function ChordOf(a: Action): seq<byte> {
    match a
    case Detach => [0x1C, 0x04]
    case CopyMode => [0x1C, 0x5B]
    case SplitStacked => [0x1C, 0x22]
    case SplitSide => [0x1C, 0x25]
    case PaneNext => [0x1C, 0x6F]
    case PaneLast => [0x1C, 0x3B]
    case PaneClose => [0x1C, 0x78]
    case PaneZoom => [0x1C, 0x7A]
    case PaneUp => [0x1C, 0x1B, 0x5B, 0x41]
    case PaneDown => [0x1C, 0x1B, 0x5B, 0x42]
    case PaneRight => [0x1C, 0x1B, 0x5B, 0x43]
    case PaneLeft => [0x1C, 0x1B, 0x5B, 0x44]
  }

  /** A chord is those bytes and no others. */
  lemma ChordBytes(a: Action, keys: seq<byte>)
    ensures IsChord(a, keys) <==> keys == ChordOf(a)
  {
  }

  lemma {:induction false} RunStep(armed: nat, b: byte, rest: seq<byte>)
    ensures var t := Step(armed, b);
      Run(armed, [b] + rest) ==
        if t.action.Some? then Result(t.armed, t.out, 1, t.action)
        else var r := Run(t.armed, rest); Result(r.armed, t.out + r.out, 1 + r.consumed, r.action)
  {
    assert ([b] + rest)[1..] == rest;
  }

  lemma {:induction false} TwoKeys(b: byte, a: Action, rest: seq<byte>)
    requires Key(b) == Some(a)
    ensures Run(0, [CTRL_BACKSLASH, b] + rest) == Result(0, [], 2, Some(a))
  {
    assert [CTRL_BACKSLASH, b] + rest == [CTRL_BACKSLASH] + ([b] + rest);
    RunStep(0, CTRL_BACKSLASH, [b] + rest);
    RunStep(1, b, rest);
  }

  lemma {:induction false} FourKeys(b: byte, a: Action, rest: seq<byte>)
    requires Arrow(b) == Some(a)
    ensures Run(0, [CTRL_BACKSLASH, ESC, BRACKET, b] + rest) == Result(0, [], 4, Some(a))
  {
    var last := [b] + rest;
    var two := [BRACKET] + last;
    assert [CTRL_BACKSLASH, ESC, BRACKET, b] + rest == [CTRL_BACKSLASH] + ([ESC] + two);
    RunStep(0, CTRL_BACKSLASH, [ESC] + two);
    RunStep(1, ESC, two);
    RunStep(2, BRACKET, last);
    RunStep(3, b, rest);
  }

  /** Typed on their own they do what they stand for, and nothing of them is let through. */
  lemma {:induction false} ChordRuns(a: Action, rest: seq<byte>)
    ensures Run(0, ChordOf(a) + rest) == Result(0, [], |ChordOf(a)|, Some(a))
  {
    var keys := ChordOf(a);
    if |keys| == 2 {
      TwoKeys(keys[1], a, rest);
      assert keys == [CTRL_BACKSLASH, keys[1]];
    } else {
      FourKeys(keys[3], a, rest);
      assert keys == [CTRL_BACKSLASH, ESC, BRACKET, keys[3]];
    }
  }

  // ---- conservation ----

  /** One byte: what was held and the byte are what is let through and what is held now, or the chord. */
  lemma StepConserves(armed: nat, b: byte)
    requires armed <= 3
    ensures var t := Step(armed, b);
      match t.action
      case None => t.out + Held(t.armed) == Held(armed) + [b]
      case Some(a) => t.armed == 0 && t.out == [] && IsChord(a, Held(armed) + [b])
  {
  }

  /** Bytes out and bytes still held are the bytes held before and those consumed, less exactly a completed chord. */
  lemma {:induction false} RunConserves(armed: nat, input: seq<byte>) returns (chord: seq<byte>)
    requires armed <= 3
    ensures var r := Run(armed, input);
      && r.armed <= 3 && r.out + chord + Held(r.armed) == Held(armed) + input[..r.consumed]
      && match r.action
         case None => r.consumed == |input| && chord == []
         case Some(a) => IsChord(a, chord) && r.armed == 0
    decreases |input|
  {
    if |input| == 0 {
      return [];
    }
    StepConserves(armed, input[0]);
    var t := Step(armed, input[0]);
    if t.action.Some? {
      chord := Held(armed) + [input[0]];
      return;
    }
    chord := RunConserves(t.armed, input[1..]);
    var r := Run(t.armed, input[1..]);
    Glue(Held(armed), input, t.out, Held(t.armed), r.out, chord, Held(r.armed), r.consumed);
  }

  lemma Glue(held: seq<byte>, input: seq<byte>, out: seq<byte>, mid: seq<byte>, more: seq<byte>, chord: seq<byte>,
      after: seq<byte>, n: nat)
    requires |input| > 0 && out + mid == held + [input[0]] && n <= |input| - 1 &&
      more + chord + after == mid + input[1..][..n]
    ensures out + more + chord + after == held + input[..1 + n]
  {
    assert out + more + chord + after == out + (more + chord + after);
    assert out + (mid + input[1..][..n]) == (out + mid) + input[1..][..n];
    assert held + [input[0]] + input[1..][..n] == held + ([input[0]] + input[1..][..n]);
    assert [input[0]] + input[1..][..n] == input[..1 + n];
  }

  /** At most three bytes more come out than go in. */
  lemma OutputBound(armed: nat, input: seq<byte>)
    requires armed <= 3
    ensures |Run(armed, input).out| <= |input| + 3
  {
    var _ := RunConserves(armed, input);
  }

  /** The bound the header states: twice the input. */
  ghost predicate WithinTwice(armed: nat, input: seq<byte>) {
    |Run(armed, input).out| <= 2 * |input|
  }

  function Letters(n: nat): (s: seq<byte>)
    ensures |s| == n
  {
    seq(n, i => 0x61)
  }

  lemma {:induction false} LettersPass(n: nat)
    ensures |Run(0, Letters(n)).out| == n
  {
    if n > 0 {
      assert Letters(n)[1..] == Letters(n - 1);
      assert Step(0, 0x61) == Turn(0, [0x61], None);
      LettersPass(n - 1);
    }
  }

  /** Letters break an arrow chord and let what it held through in front of them. */
  lemma LettersBreak(armed: nat, n: nat)
    requires 2 <= armed <= 3 && n > 0
    ensures |Run(armed, Letters(n)).out| == n + armed
  {
    assert Letters(n)[1..] == Letters(n - 1);
    Reexamined(armed, 0x61);
    assert Step(0, 0x61) == Turn(0, [0x61], None);
    LettersPass(n - 1);
  }

  /** Twice the input is room enough for every input of a length if and only if the length is 0 or at least the number
      of bytes held: less can overrun, since those bytes may come out with it. */
  lemma TwiceIffLongEnough(armed: nat, n: nat)
    requires armed <= 3
    ensures (forall input :: |input| == n ==> WithinTwice(armed, input)) <==> n == 0 || n >= |Held(armed)|
  {
    if n == 0 || n >= |Held(armed)| {
      forall input | |input| == n
        ensures WithinTwice(armed, input)
      {
        var _ := RunConserves(armed, input);
      }
    } else {
      LettersBreak(armed, n);
      assert !WithinTwice(armed, Letters(n));
    }
  }

  // ---- cutting the input ----

  datatype Item = Byte(b: byte) | Do(a: Action)

  function Items(bs: seq<byte>): seq<Item> {
    seq(|bs|, i requires 0 <= i < |bs| => Byte(bs[i]))
  }

  function TurnItems(t: Turn): seq<Item> {
    Items(t.out) + if t.action.Some? then [Do(t.action.value)] else []
  }

  /** All of the input, chord after chord: the state after it, and bytes and actions in order. */
  function Trace(armed: nat, input: seq<byte>): (nat, seq<Item>)
    decreases |input|
  {
    if |input| == 0 then (armed, [])
    else
      var t := Step(armed, input[0]);
      var (after, items) := Trace(t.armed, input[1..]);
      (after, TurnItems(t) + items)
  }

  /** Cutting the input anywhere changes neither bytes nor actions. */
  lemma {:induction false} TraceSplit(armed: nat, a: seq<byte>, b: seq<byte>)
    ensures var (mid, first) := Trace(armed, a); var (after, second) := Trace(mid, b);
      Trace(armed, a + b) == (after, first + second)
    decreases |a|
  {
    if |a| == 0 {
      assert a + b == b;
      assert [] + Trace(armed, b).1 == Trace(armed, b).1;
    } else {
      assert (a + b)[1..] == a[1..] + b;
      var t := Step(armed, a[0]);
      TraceSplit(t.armed, a[1..], b);
      var (mid, first) := Trace(t.armed, a[1..]);
      var (after, second) := Trace(mid, b);
      assert TurnItems(t) + (first + second) == (TurnItems(t) + first) + second;
    }
  }

  /** One call gives the start of the trace; the input it left gives the rest. */
  lemma {:induction false} RunTraces(armed: nat, input: seq<byte>)
    ensures var r := Run(armed, input);
      && (r.action.None? ==> r.consumed == |input|)
      && Trace(armed, input).0 == Trace(r.armed, input[r.consumed..]).0
      && Trace(armed, input).1 ==
        Items(r.out) + (if r.action.Some? then [Do(r.action.value)] else []) + Trace(r.armed, input[r.consumed..]).1
    decreases |input|
  {
    if |input| == 0 {
      return;
    }
    var t := Step(armed, input[0]);
    if t.action.None? {
      RunTraces(t.armed, input[1..]);
      var r := Run(t.armed, input[1..]);
      assert input[1..][r.consumed..] == input[1 + r.consumed..];
      ItemsJoin(t.out, r.out, if r.action.Some? then [Do(r.action.value)] else [],
        Trace(r.armed, input[1 + r.consumed..]).1);
    }
  }

  lemma ItemsJoin(a: seq<byte>, b: seq<byte>, done: seq<Item>, rest: seq<Item>)
    ensures (Items(a) + []) + (Items(b) + done + rest) == Items(a + b) + done + rest
  {
    assert Items(a + b) == Items(a) + Items(b);
  }

  // ---- the scanner itself ----

  class Chord {
    var armed: nat
    var pending: seq<byte>
    var npending: nat

    ghost predicate Valid()
      reads this
    {
      armed <= 3 && |pending| == 3 && npending <= 3 && (armed >= 2 ==> pending[..npending] == Held(armed)) &&
        (armed < 2 ==> npending == 0)
    }

    constructor ()
      ensures Valid() && armed == 0
    {
      armed, pending, npending := 0, [0, 0, 0], 0;
    }

    /** chord_flush */
    method Flush(fwd: seq<byte>) returns (out: seq<byte>)
      requires Valid() && armed >= 2
      modifies `armed, `npending
      ensures Valid() && armed == 0 && out == fwd + Held(old(armed))
    {
      out := fwd;
      for k := 0 to npending
        invariant out == fwd + pending[..k]
      {
        out := out + [pending[k]];
      }
      armed, npending := 0, 0;
    }

    /** A byte right after Ctrl-\ */
    method AfterPrefix(b: byte, fwd: seq<byte>) returns (out: seq<byte>, action: Option<Action>)
      requires Valid() && armed == 1
      modifies this
      ensures Valid() && Turn(armed, out, action) == Step(1, b).(out := fwd + Step(1, b).out)
    {
      armed, npending, out := 0, 0, fwd;
      action := Key(b);
      if action.Some? {
        return;
      }
      if b == ESC {
        armed, npending := 2, 2;
        pending := pending[0 := CTRL_BACKSLASH][1 := ESC];
        return;
      }
      out := fwd + [CTRL_BACKSLASH] + [b];
    }

    /** One look at a byte; again says that it broke a chord and is to be looked at once more from idle. */
    method Examine(b: byte, fwd: seq<byte>) returns (out: seq<byte>, action: Option<Action>, again: bool)
      requires Valid()
      modifies this
      ensures Valid() && (again ==> armed == 0 && old(armed) >= 2)
      ensures var t := Step(old(armed), b);
        if again then
          action.None? && t == Step(0, b).(out := Held(old(armed)) + Step(0, b).out) && out == fwd + Held(old(armed))
        else Turn(armed, out, action) == t.(out := fwd + t.out)
    {
      out, action, again := fwd, None, false;
      if armed == 1 {
        out, action := AfterPrefix(b, fwd);
      } else if armed == 2 && b == BRACKET {
        armed, npending := 3, 3;
        pending := pending[2 := BRACKET];
      } else if armed == 3 && Arrow(b).Some? {
        armed, npending, action := 0, 0, Arrow(b);
      } else if armed >= 2 {
        Reexamined(armed, b);
        out := Flush(fwd);
        again := true;
      } else if b == CTRL_BACKSLASH {
        armed := 1;
      } else {
        out := fwd + [b];
      }
    }

    /** scan_input: a byte that breaks a chord is examined once more from idle. */
    method ScanInput(input: seq<byte>) returns (fwd: seq<byte>, consumed: nat, action: Option<Action>)
      requires Valid()
      modifies this
      ensures Valid() && Result(armed, fwd, consumed, action) == Run(old(armed), input)
    {
      fwd, action := [], None;
      var i := 0;
      ghost var whole := Run(armed, input);
      assert input[0..] == input;
      while i < |input|
        invariant Valid() && 0 <= i <= |input| && action.None?
        invariant whole == Onward(fwd, i, Run(armed, input[i..]))
        decreases |input| - i, armed
      {
        ghost var was, before := armed, fwd;
        RunFirst(was, input, i, before);
        var again: bool;
        fwd, action, again := Examine(input[i], fwd);
        if action.Some? {
          return fwd, i + 1, action;
        }
        if again {
          OnceMore(was, input, i, before);
          i := i - 1;
        }
        i := i + 1;
      }
      consumed := |input|;
    }
  }

  /** A result with fwd let through and n bytes consumed before it. */
  function Onward(fwd: seq<byte>, n: nat, r: Result): Result {
    r.(out := fwd + r.out, consumed := n + r.consumed)
  }

  /** A byte examined once more from idle, behind what was held, is the byte examined once. */
  lemma OnceMore(was: nat, input: seq<byte>, i: nat, before: seq<byte>)
    requires i < |input| && Step(was, input[i]) == Step(0, input[i]).(out := Held(was) + Step(0, input[i]).out)
    ensures Onward(before + Held(was), i, Run(0, input[i..])) == Onward(before, i, Run(was, input[i..]))
  {
    RunFirst(was, input, i, before);
    RunFirst(0, input, i, before + Held(was));
    assert before + (Held(was) + Step(0, input[i]).out) == (before + Held(was)) + Step(0, input[i]).out;
  }

  lemma RunFirst(armed: nat, input: seq<byte>, i: nat, fwd: seq<byte>)
    requires i < |input|
    ensures var t := Step(armed, input[i]);
      Onward(fwd, i, Run(armed, input[i..])) ==
        if t.action.Some? then Result(t.armed, fwd + t.out, i + 1, t.action)
        else Onward(fwd + t.out, i + 1, Run(t.armed, input[i + 1..]))
  {
    assert input[i..][1..] == input[i + 1..];
    var t := Step(armed, input[i]);
    var r := Run(t.armed, input[i + 1..]);
    assert fwd + (t.out + r.out) == fwd + t.out + r.out;
  }

  lemma Reexamined(armed: nat, b: byte)
    requires armed == 2 || armed == 3
    requires armed == 2 ==> b != BRACKET
    requires armed == 3 ==> Arrow(b).None?
    ensures Step(armed, b) == Step(0, b).(out := Held(armed) + Step(0, b).out)
  {
  }
}
