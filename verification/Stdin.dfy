/** Keyboard input on its way to a child (src/daemon/session.c, pane_stdin and its staging buffer): whatever the
    terminal accepts at a time, bytes arrive in order and none is lost below the staging limit. */
module Stdin {
  import opened Bytes

  const STAGE_MAX: nat := 262144
  const STAGE_MIN: nat := 4096

  /** What write() answers: some bytes taken, interrupted, or nothing for now. */
  datatype Answer = Took(n: nat) | Interrupted | Blocked

  /** How many of len bytes a run of writes takes: it ends when the terminal takes no more. */
  function Accepted(answers: seq<Answer>, len: nat): (n: nat)
    ensures n <= len
  {
    if |answers| == 0 || len == 0 then 0
    else match answers[0]
      case Took(n) => if n == 0 then 0 else Min(n, len) + Accepted(answers[1..], len - Min(n, len))
      case Interrupted => Accepted(answers[1..], len)
      case Blocked => 0
  }

  lemma {:induction false} AcceptedAt(answers: seq<Answer>, i: nat, len: nat)
    requires i < |answers| && len > 0
    ensures Accepted(answers[i..], len) == match answers[i]
      case Took(n) => if n == 0 then 0 else Min(n, len) + Accepted(answers[i + 1..], len - Min(n, len))
      case Interrupted => Accepted(answers[i + 1..], len)
      case Blocked => 0
  {
    assert answers[i..][1..] == answers[i + 1..];
  }

  // ---- the pipe, as values ----

  /** Bytes the terminal has, and bytes that wait for it. */
  datatype Pipe = Pipe(written: seq<byte>, staged: seq<byte>)

  /** A call with bytes typed, or a wake-up because the terminal has room again. */
  datatype Step = Typed(data: seq<byte>, answers: seq<Answer>) | Room(answers: seq<Answer>)

  function Data(s: Step): seq<byte> {
    if s.Typed? then s.data else []
  }

  /** The first k staged bytes handed over. */
  function Handed(p: Pipe, k: nat): Pipe
    requires k <= |p.staged|
  {
    Pipe(p.written + p.staged[..k], p.staged[k..])
  }

  /** As many as the terminal takes. */
  function Given(p: Pipe, answers: seq<Answer>): Pipe {
    Handed(p, Accepted(answers, |p.staged|))
  }

  /** How much of a call gets in: behind bytes that wait, what still fits the staging buffer; else what the terminal
      takes at once and what fits the buffer of the rest. */
  function Taken(p: Pipe, s: Step): (n: nat)
    requires |p.staged| <= STAGE_MAX
    ensures n <= |Data(s)|
  {
    if s.Room? then 0
    else if |p.staged| > 0 then Min(|s.data|, STAGE_MAX - |p.staged|)
    else Accepted(s.answers, |s.data|) + Min(|s.data| - Accepted(s.answers, |s.data|), STAGE_MAX)
  }

  /** The most bytes staged at a time during a call. */
  function Peak(p: Pipe, s: Step): nat
    requires |p.staged| <= STAGE_MAX
  {
    if s.Room? then |p.staged|
    else if |p.staged| > 0 then |p.staged| + Taken(p, s)
    else Taken(p, s) - Accepted(s.answers, |s.data|)
  }

  function After(p: Pipe, s: Step): (q: Pipe)
    requires |p.staged| <= STAGE_MAX
    ensures |q.staged| <= STAGE_MAX
  {
    var n := Taken(p, s);
    if s.Room? then Given(p, s.answers)
    else if |p.staged| > 0 then Given(Pipe(p.written, p.staged + s.data[..n]), s.answers)
    else var k := Accepted(s.answers, |s.data|); Pipe(p.written + s.data[..k], s.data[k..n])
  }

  ghost function AfterAll(p: Pipe, steps: seq<Step>): (q: Pipe)
    requires |p.staged| <= STAGE_MAX
    ensures |q.staged| <= STAGE_MAX
  {
    if |steps| == 0 then p else After(AfterAll(p, steps[..|steps| - 1]), steps[|steps| - 1])
  }

  /** What a run took in: of every call the prefix that got in, one behind the other. */
  ghost function Flow(p: Pipe, steps: seq<Step>): seq<byte>
    requires |p.staged| <= STAGE_MAX
  {
    if |steps| == 0 then []
    else
      var last := steps[|steps| - 1];
      Flow(p, steps[..|steps| - 1]) + Data(last)[..Taken(AfterAll(p, steps[..|steps| - 1]), last)]
  }

  lemma GivenConserves(p: Pipe, answers: seq<Answer>)
    ensures Given(p, answers).written + Given(p, answers).staged == p.written + p.staged
  {
    var k := Accepted(answers, |p.staged|);
    assert p.staged[..k] + p.staged[k..] == p.staged;
  }

  /** One step: nothing is lost or reordered but what did not get in. */
  lemma AfterConserves(p: Pipe, s: Step)
    requires |p.staged| <= STAGE_MAX
    ensures var q := After(p, s);
      q.written + q.staged == p.written + p.staged + Data(s)[..Taken(p, s)] && p.written <= q.written
  {
    var n := Taken(p, s);
    if s.Room? {
      GivenConserves(p, s.answers);
    } else if |p.staged| > 0 {
      GivenConserves(Pipe(p.written, p.staged + s.data[..n]), s.answers);
      Regroup(p.written, p.staged, s.data[..n]);
    } else {
      var k := Accepted(s.answers, |s.data|);
      assert s.data[..k] + s.data[k..n] == s.data[..n];
      Regroup(p.written, s.data[..k], s.data[k..n]);
    }
  }

  /** A call loses bytes only if the staging buffer filled up meanwhile. */
  lemma LossMeansFull(p: Pipe, s: Step)
    requires |p.staged| <= STAGE_MAX && Taken(p, s) < |Data(s)|
    ensures Peak(p, s) == STAGE_MAX
  {
  }

  /** Over any run of calls and wake-ups, written bytes followed by staged ones are what was there before followed by a
      prefix of each call in order, and a prefix is proper only where the staging buffer filled up. */
  lemma {:induction false} RunConserves(p: Pipe, steps: seq<Step>)
    requires |p.staged| <= STAGE_MAX
    ensures var q := AfterAll(p, steps);
      q.written + q.staged == p.written + p.staged + Flow(p, steps) && p.written <= q.written
    ensures forall j :: 0 <= j < |steps| && Taken(AfterAll(p, steps[..j]), steps[j]) < |Data(steps[j])| ==>
      Peak(AfterAll(p, steps[..j]), steps[j]) == STAGE_MAX
  {
    if |steps| > 0 {
      var before, last := steps[..|steps| - 1], steps[|steps| - 1];
      RunConserves(p, before);
      var m := AfterAll(p, before);
      AfterConserves(m, last);
      Regroup(p.written + p.staged, Flow(p, before), Data(last)[..Taken(m, last)]);
    }
    forall j | 0 <= j < |steps| && Taken(AfterAll(p, steps[..j]), steps[j]) < |Data(steps[j])|
      ensures Peak(AfterAll(p, steps[..j]), steps[j]) == STAGE_MAX
    {
      LossMeansFull(AfterAll(p, steps[..j]), steps[j]);
    }
  }

  lemma Regroup(a: seq<byte>, b: seq<byte>, c: seq<byte>)
    ensures (a + b) + c == a + (b + c)
  {
  }

  class PaneInput {
    var buf: seq<byte>
    var head: nat
    var len: nat
    /** Whether the poll loop watches for room. */
    var pollOut: bool
    /** What the terminal has taken. */
    ghost var written: seq<byte>

    function Staged(): (s: seq<byte>)
      requires head + len <= |buf|
      reads this
      ensures |s| == len
    {
      buf[head..head + len]
    }

    ghost predicate Fits()
      reads this
    {
      head + len <= |buf| <= STAGE_MAX
    }

    ghost function Now(): Pipe
      requires Fits()
      reads this
    {
      Pipe(written, Staged())
    }

    /** The loop watches for room exactly while bytes are staged. */
    ghost predicate Valid()
      reads this
    {
      Fits() && (pollOut <==> len > 0) && (len == 0 ==> head == 0)
    }

    constructor ()
      ensures Valid() && Now() == Pipe([], [])
    {
      buf, head, len, pollOut, written := [], 0, 0, false, [];
    }

    /** pane_stdin_stage: appended as far as the limit allows. */
    method Stage(data: seq<byte>)
      requires Fits()
      modifies `buf, `head, `len
      ensures Fits() && head == 0 && Staged() == old(Staged()) + data[..Min(|data|, STAGE_MAX - old(len))]
    {
      if head > 0 {
        buf := buf[head..head + len] + buf[len..];
        head := 0;
      }
      assert buf[..len] == old(Staged());
      var room := STAGE_MAX - len;
      var n := if |data| > room then room else |data|;
      if n == 0 {
        return;
      }
      if len + n > |buf| {
        var cap := Capacity(|buf|, len + n);
        buf := buf + seq(cap - |buf|, i => 0);
      }
      ghost var before := buf[..len];
      buf := buf[..len] + data[..n] + buf[len + n..];
      len := len + n;
      assert buf[..len] == before + data[..n];
    }

    /** The first k staged bytes are written. */
    method Hand(k: nat)
      requires Fits() && k <= len
      modifies `head, `len, `written
      ensures Fits() && len == old(len) - k && Now() == Handed(old(Now()), k)
    {
      HandedSlice(buf, head, len, k);
      written := written + buf[head..head + k];
      head, len := head + k, len - k;
    }

    /** pane_stdin_drain: staged bytes go out until the terminal is full or none is left. */
    method Drain(answers: seq<Answer>)
      requires Fits()
      modifies `head, `len, `written, `pollOut
      ensures Valid() && Now() == Given(old(Now()), answers)
    {
      var i, more := 0, true;
      ghost var end := Given(Now(), answers);
      GivenStart(Now(), answers);
      while len > 0 && i < |answers| && more
        invariant Fits() && i <= |answers| && Coming(Now(), answers, i, more) == end
        decreases |answers| - i
      {
        GivenStep(Now(), answers, i);
        more := Offer(answers[i]);
        i := i + 1;
      }
      GivenEnd(Now(), answers, i, more);
      Settle();
    }

    /** One write of what is staged, and whether to go on. */
    method Offer(answer: Answer) returns (more: bool)
      requires Fits() && len > 0
      modifies `head, `len, `written
      ensures Fits() && more == GoesOn(answer) && Now() == Answered(old(Now()), answer)
    {
      more := answer == Interrupted || (answer.Took? && answer.n > 0);
      if answer.Took? {
        Hand(Min(answer.n, len));
      }
    }

    /** The read cursor goes back to the start once nothing is staged, and the poll mask follows. */
    method Settle()
      requires Fits()
      modifies `head, `pollOut
      ensures Valid() && Now() == old(Now())
    {
      if len == 0 {
        assert Staged() == [];
        head := 0;
        assert Staged() == [];
      }
      pollOut := len > 0;
    }

    /** pane_stdin */
    method Type(data: seq<byte>, answers: seq<Answer>)
      requires Valid()
      modifies this
      ensures Valid() && Now() == After(old(Now()), Typed(data, answers))
    {
      if len > 0 {
        Stage(data);
        Drain(answers);
      } else {
        TypeDirect(data, answers);
      }
    }

    /** The fast path: straight to the terminal, what it will not take is staged. */
    method TypeDirect(data: seq<byte>, answers: seq<Answer>)
      requires Valid() && len == 0
      modifies `buf, `head, `len, `written, `pollOut
      ensures Valid() && Now() == After(old(Now()), Typed(data, answers))
    {
      var off := WriteDirect(data, answers);
      assert Staged() == [];
      if off < |data| {
        Stage(data[off..]);
        pollOut := true;
        ghost var n := Min(|data| - off, STAGE_MAX);
        assert [] + data[off..][..n] == data[off..off + n];
      }
    }

    method WriteDirect(data: seq<byte>, answers: seq<Answer>) returns (off: nat)
      modifies `written
      ensures off == Accepted(answers, |data|) && written == old(written) + data[..off]
    {
      off := 0;
      var i := 0;
      assert answers[0..] == answers;
      while off < |data| && i < |answers|
        invariant off <= |data| && written == old(written) + data[..off] && i <= |answers|
        invariant off + Accepted(answers[i..], |data| - off) == Accepted(answers, |data|)
        decreases |answers| - i
      {
        AcceptedAt(answers, i, |data| - off);
        match answers[i] {
          case Took(k) =>
            if k == 0 {
              break;
            }
            var more := Min(k, |data| - off);
            assert data[..off] + data[off..off + more] == data[..off + more];
            Regroup(old(written), data[..off], data[off..off + more]);
            written := written + data[off..off + more];
            off := off + more;
          case Interrupted =>
          case Blocked => break;
        }
        i := i + 1;
      }
    }

    /** Any run of calls and of wake-ups for room, with the terminal taking what it will: the pipe ends where its steps
        lead, so written and staged bytes are a prefix of each call in order, all of it unless the buffer filled up. */
    method Session(steps: seq<Step>)
      requires Valid()
      modifies this
      ensures Valid() && Now() == AfterAll(old(Now()), steps)
      ensures written + Staged() == old(written) + old(Staged()) + Flow(old(Now()), steps) && old(written) <= written
      ensures forall j :: 0 <= j < |steps| && Taken(AfterAll(old(Now()), steps[..j]), steps[j]) < |Data(steps[j])| ==>
        Peak(AfterAll(old(Now()), steps[..j]), steps[j]) == STAGE_MAX
    {
      ghost var start := Now();
      for i := 0 to |steps|
        invariant Valid() && Now() == AfterAll(start, steps[..i])
      {
        assert steps[..i + 1][..i] == steps[..i];
        match steps[i] {
          case Typed(data, answers) => Type(data, answers);
          case Room(answers) => Wake(answers);
        }
      }
      assert steps[..|steps|] == steps;
      RunConserves(start, steps);
    }

    /** The poll loop found room, as in pane_pty_readable. */
    method Wake(answers: seq<Answer>)
      requires Valid()
      modifies `head, `len, `written, `pollOut
      ensures Valid() && Now() == Given(old(Now()), answers)
    {
      if len > 0 {
        Drain(answers);
      }
    }
  }

  lemma HandedSlice(buf: seq<byte>, head: nat, len: nat, k: nat)
    requires head + len <= |buf| && k <= len
    ensures buf[head..head + len][..k] == buf[head..head + k]
    ensures buf[head..head + len][k..] == buf[head + k..head + len]
  {
  }

  /** Where a pipe gets to with the answers from i on, unless the terminal has stopped taking. */
  ghost function Coming(p: Pipe, answers: seq<Answer>, i: nat, more: bool): Pipe
    requires i <= |answers|
  {
    if more then Given(p, answers[i..]) else p
  }

  /** The pipe after one answer. */
  function Answered(p: Pipe, answer: Answer): Pipe {
    if answer.Took? then Handed(p, Min(answer.n, |p.staged|)) else p
  }

  predicate GoesOn(answer: Answer) {
    answer == Interrupted || (answer.Took? && answer.n > 0)
  }

  lemma {:induction false} GivenStep(p: Pipe, answers: seq<Answer>, i: nat)
    requires i < |answers| && |p.staged| > 0
    ensures Coming(p, answers, i, true) == Coming(Answered(p, answers[i]), answers, i + 1, GoesOn(answers[i]))
  {
    AcceptedAt(answers, i, |p.staged|);
    HandedOn(p, 0, 0);
    if answers[i].Took? {
      var k := Min(answers[i].n, |p.staged|);
      HandedOn(p, k, Accepted(answers[i + 1..], |p.staged| - k));
    }
  }

  lemma {:induction false} GivenStart(p: Pipe, answers: seq<Answer>)
    ensures Coming(p, answers, 0, true) == Given(p, answers)
  {
    assert answers[0..] == answers;
  }

  /** Nothing left, or no answer: nothing more is handed over. */
  lemma {:induction false} GivenEnd(p: Pipe, answers: seq<Answer>, i: nat, more: bool)
    requires i <= |answers|
    ensures |p.staged| == 0 || i == |answers| || !more ==> Coming(p, answers, i, more) == p
  {
    HandedOn(p, 0, 0);
  }

  lemma HandedOn(p: Pipe, done: nat, k: nat)
    requires done + k <= |p.staged|
    ensures Handed(Handed(p, done), k) == Handed(p, done + k) && Handed(p, 0) == p
  {
  }

  /** The doubling of the staging buffer, capped at the limit. */
  method Capacity(cap: nat, need: nat) returns (c: nat)
    requires cap < need <= STAGE_MAX
    ensures need <= c <= STAGE_MAX
  {
    c := if cap > 0 then cap else STAGE_MIN;
    while c < need
      invariant c > 0
      decreases need - c
    {
      c := c * 2;
    }
    if c > STAGE_MAX {
      c := STAGE_MAX;
    }
  }
}
