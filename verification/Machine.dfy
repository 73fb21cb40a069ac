/** The parser as src/vt/vt_parser.c runs it: fields changed byte by byte, with the recorder around every byte. */
module Machine {
  import opened Bytes
  import opened Parser
  import opened Replay
  import U = Utf8

  class ParserMachine {
    var state: State
    var params: seq<nat>
    var seen: seq<bool>
    var nparams: nat
    var paramOverflow: bool
    var inter: seq<byte>
    var ninter: nat
    var priv: byte
    var osc: seq<byte>
    var oscOverflow: bool
    var u8: nat
    var cp: nat
    var pending: seq<byte>
    var pendingLost: bool
    /** Every byte fed so far. */
    ghost var fed: seq<byte>

    ghost function Seqn(): Collected
      reads this
    {
      Collected(params, seen, nparams, paramOverflow, inter, ninter, priv)
    }

    /** The parser as a value. */
    ghost function Now(): Parser
      reads this
    {
      Parser(state, Seqn(), osc, oscOverflow, u8, cp)
    }

    /** The fields are those the recorder has after every byte fed; with it, all buffers stay within bounds. */
    ghost predicate Valid()
      reads this
    {
      var r := Recorded(fed);
      Now() == r.p && pending == r.pending && pendingLost == r.lost
    }

    constructor ()
      ensures Valid() && fed == []
    {
      state, params, seen := Ground, seq(PARAMS_MAX, i => 0), seq(PARAMS_MAX, i => false);
      nparams, paramOverflow, inter, ninter, priv := 0, false, [], 0, 0;
      osc, oscOverflow, u8, cp, pending, pendingLost, fed := [], false, U.ACCEPT, 0, [], false, [];
    }

    /** clear_seq */
    method ClearSeq()
      modifies `nparams, `paramOverflow, `params, `seen, `ninter, `inter, `priv
      ensures Seqn() == Cleared()
    {
      nparams, paramOverflow := 0, false;
      params, seen := seq(PARAMS_MAX, i => 0), seq(PARAMS_MAX, i => false);
      ninter, inter, priv := 0, [], 0;
    }

    /** collect_inter */
    method AddInter(b: byte)
      modifies `ninter, `inter
      ensures Seqn() == CollectInter(old(Seqn()), b)
    {
      if ninter < INTER_MAX {
        inter, ninter := inter + [b], ninter + 1;
      } else {
        ninter := INTER_MAX + 1;
      }
    }

    /** collect_param */
    method AddParam(b: byte)
      requires CollectedOk(Seqn()) && Digit(b)
      modifies `nparams, `paramOverflow, `params, `seen
      ensures Seqn() == CollectParam(old(Seqn()), b)
    {
      if b == 0x3B {
        if nparams < PARAMS_MAX {
          nparams := nparams + 1;
        } else {
          paramOverflow := true;
        }
        return;
      }
      var idx := nparams;
      if idx >= PARAMS_MAX {
        paramOverflow := true;
        return;
      }
      var cur := params[idx];
      params := params[idx := if cur > 999999 then PARAM_CEILING else cur * 10 + (b - 0x30)];
      seen := seen[idx := true];
    }

    /** finish_params */
    method EndParams()
      requires CollectedOk(Seqn())
      modifies `nparams
      ensures Seqn() == FinishParams(old(Seqn()))
    {
      if nparams < PARAMS_MAX && (seen[nparams] || nparams > 0 || seen[0]) {
        nparams := nparams + 1;
      }
    }

    /** osc_put */
    method OscPut(b: byte)
      modifies `osc, `oscOverflow
      ensures if |old(osc)| < OSC_MAX - 1 then osc == old(osc) + [b] && oscOverflow == old(oscOverflow)
              else osc == old(osc) && oscOverflow
    {
      if |osc| < OSC_MAX - 1 {
        osc := osc + [b];
      } else {
        oscOverflow := true;
      }
    }

    /** The transitions that any state takes first. */
    method Anywhere(b: byte) returns (consumed: bool)
      requires ParserOk(Now())
      modifies `state, `nparams, `paramOverflow, `params, `seen, `ninter, `inter, `priv
      ensures consumed ==> (Now(), []) == Step(old(Now()), b)
      ensures !consumed ==> Now() == old(Now())
      ensures consumed <==> b == 0x18 || b == 0x1A
                            || (b == 0x1B && old(state) != OscString && old(state) != DcsPass && old(state) != SosPmApc)
    {
      if b == 0x18 || b == 0x1A {
        state := Ground;
        return true;
      }
      if b == 0x1B {
        if state == OscString || state == DcsPass || state == SosPmApc {
          return false;
        }
        ClearSeq();
        state := Escape;
        return true;
      }
      return false;
    }

    /** feed_byte in ground state */
    method FeedGround(b: byte) returns (acts: seq<Action>)
      modifies `u8, `cp
      ensures (Now(), acts) == GroundStep(old(Now()), b)
    {
      if b < 0x20 {
        return [Execute(b)];
      }
      if b == 0x7F {
        return [];
      }
      cp, u8 := U.StepCp(u8, cp, b), U.StepState(u8, b);
      acts := [];
      if u8 == U.ACCEPT {
        acts := [Print(cp)];
      } else if u8 == U.REJECT {
        u8 := U.ACCEPT;
        acts := [Print(0xFFFD)];
        if b < 0x80 {
          acts := [Print(0xFFFD), Print(b)];
        } else if b >= 0xC2 {
          cp, u8 := U.StepCp(u8, cp, b), U.StepState(u8, b);
        }
      }
    }

    /** feed_byte after ESC */
    method FeedEscape(b: byte) returns (acts: seq<Action>)
      modifies this
      ensures (Now(), acts) == EscapeStep(old(Now()), b)
      ensures pending == old(pending) && pendingLost == old(pendingLost) && fed == old(fed)
    {
      u8 := U.ACCEPT;
      acts := [];
      if b < 0x20 {
        acts := [Execute(b)];
      } else if b <= 0x2F {
        AddInter(b);
        state := EscapeInt;
      } else if b == 0x5B {
        ClearSeq();
        state := CsiEntry;
      } else if b == 0x5D {
        osc, oscOverflow := [], false;
        state := OscString;
      } else if b == 0x50 {
        ClearSeq();
        state := DcsEntry;
      } else if b == 0x58 || b == 0x5E || b == 0x5F {
        state := SosPmApc;
      } else if b <= 0x7E {
        acts := [EscDispatch(Collected(params, seen, nparams, paramOverflow, inter, ninter, priv), b)];
        state := Ground;
      }
    }

    /** feed_byte in a control sequence */
    method FeedCsi(b: byte) returns (acts: seq<Action>)
      requires ParserOk(Now())
      requires state == CsiEntry || state == CsiParam || state == CsiInt || state == CsiIgnore
      modifies this
      ensures (Now(), acts) == CsiStep(old(Now()), b)
      ensures pending == old(pending) && pendingLost == old(pendingLost) && fed == old(fed)
    {
      acts := [];
      if b < 0x20 {
        acts := [Execute(b)];
      } else if state == CsiIgnore {
        if 0x40 <= b <= 0x7E {
          state := Ground;
        }
      } else if state != CsiInt && 0x3C <= b <= 0x3F {
        if state == CsiEntry {
          priv := b;
          state := CsiParam;
        } else {
          state := CsiIgnore;
        }
      } else if state != CsiInt && Digit(b) {
        AddParam(b);
        state := CsiParam;
      } else if b <= 0x2F {
        AddInter(b);
        state := CsiInt;
      } else if b <= 0x3F {
        state := CsiIgnore;
      } else if b <= 0x7E {
        EndParams();
        acts := [CsiDispatch(Collected(params, seen, nparams, paramOverflow, inter, ninter, priv), b)];
        state := Ground;
      }
    }

    /** feed_byte in an OSC string, or right after an ESC in one */
    method FeedOsc(b: byte) returns (acts: seq<Action>)
      requires state == OscString || state == OscEsc
      modifies this
      ensures (Now(), acts) == StringStep(old(Now()), b)
      ensures pending == old(pending) && pendingLost == old(pendingLost) && fed == old(fed)
    {
      acts := [];
      if state == OscString {
        if b == 0x1B {
          state := OscEsc;
        } else if b == 0x07 {
          acts := [OscDispatch(osc, oscOverflow)];
          state := Ground;
        } else if b >= 0x20 || b == 0 {
          OscPut(b);
        }
      } else if b == 0x5C {
        acts := [OscDispatch(osc, oscOverflow)];
        state := Ground;
      } else {
        ClearSeq();
        state := Escape;
        acts := FeedEscape(b);
      }
    }

    /** feed_byte in a string state */
    method FeedString(b: byte) returns (acts: seq<Action>)
      requires state == OscString || state == OscEsc || state == DcsEntry || state == DcsParam || state == DcsInt
            || state == DcsPass || state == DcsIgnore || state == SosPmApc
      modifies this
      ensures (Now(), acts) == StringStep(old(Now()), b)
      ensures pending == old(pending) && pendingLost == old(pendingLost) && fed == old(fed)
    {
      acts := [];
      if state == OscString || state == OscEsc {
        acts := FeedOsc(b);
      } else if state == DcsPass || state == SosPmApc {
        if b == 0x1B {
          state := DcsIgnore;
        }
      } else if state == DcsIgnore {
        if b == 0x5C {
          state := Ground;
        } else if b != 0x1B {
          state := DcsPass;
        }
      } else if 0x40 <= b <= 0x7E {
        state := DcsPass;
      }
    }

    /** feed_byte */
    method FeedByte(b: byte) returns (acts: seq<Action>)
      requires ParserOk(Now())
      modifies this
      ensures (Now(), acts) == Step(old(Now()), b)
      ensures pending == old(pending) && pendingLost == old(pendingLost) && fed == old(fed)
    {
      var consumed := Anywhere(b);
      if consumed {
        return [];
      }
      match state {
        case Ground => acts := FeedGround(b);
        case Escape => acts := FeedEscape(b);
        case EscapeInt =>
          acts := [];
          if b < 0x20 {
            acts := [Execute(b)];
          } else if b <= 0x2F {
            AddInter(b);
          } else if b <= 0x7E {
            acts := [EscDispatch(Collected(params, seen, nparams, paramOverflow, inter, ninter, priv), b)];
            state := Ground;
          }
        case CsiEntry | CsiParam | CsiInt | CsiIgnore => acts := FeedCsi(b);
        case _ => acts := FeedString(b);
      }
    }

    /** record_pending, on the state after the byte */
    method RecordPending(b: byte)
      modifies `pending, `pendingLost
      ensures if Idle(Now()) then pending == [] && !pendingLost
              else if Skipped(b) then pending == old(pending) && pendingLost == old(pendingLost)
              else if |old(pending)| < PENDING_MAX then pending == old(pending) + [b] && pendingLost == old(pendingLost)
              else pending == old(pending) && pendingLost
    {
      if state == Ground && u8 == U.ACCEPT {
        pending, pendingLost := [], false;
        return;
      }
      if b < 0x20 && b != 0x1B && b != 0 {
        return;
      }
      if |pending| < PENDING_MAX {
        pending := pending + [b];
      } else {
        pendingLost := true;
      }
    }

    /** One turn of vt_feed. */
    method FeedOne(b: byte) returns (acts: seq<Action>)
      requires Valid()
      modifies this
      ensures Valid() && fed == old(fed) + [b]
      ensures ParserOk(old(Now())) && (Now(), acts) == Step(old(Now()), b)
    {
      ghost var r := Recorded(fed);
      RecordedSnoc(fed, b);
      acts := FeedByte(b);
      Note(b, r);
      fed := fed + [b];
    }

    method Note(b: byte, ghost r: Recorder)
      requires pending == r.pending && pendingLost == r.lost
      modifies `pending, `pendingLost
      ensures var after := RecordAfter(r, Now(), b);
        Now() == after.p && pending == after.pending && pendingLost == after.lost
    {
      RecordPending(b);
    }

    /** vt_feed: what it dispatches is the run of the parser over the bytes. */
    method Feed(data: seq<byte>) returns (acts: seq<Action>)
      requires Valid()
      modifies this
      ensures Valid() && fed == old(fed) + data
      ensures ParserOk(old(Now())) && acts == Run(old(Now()), data).1
    {
      acts := [];
      ghost var start := Now();
      ghost var before := fed;
      for i := 0 to |data|
        invariant Valid() && fed == before + data[..i]
        invariant Run(start, data[..i]) == (Now(), acts)
      {
        RunOn(start, data, i);
        Snoc(before, data, i);
        var more := FeedOne(data[i]);
        acts := acts + more;
      }
      assert data[..|data|] == data;
    }
  }

  lemma NowOk(m: ParserMachine)
    requires m.Valid()
    ensures ParserOk(m.Now())
  {
  }

  lemma Snoc<T>(a: seq<T>, b: seq<T>, i: nat)
    requires i < |b|
    ensures a + b[..i] + [b[i]] == a + b[..i + 1]
  {
  }

  lemma RunOn(p: Parser, bs: seq<byte>, i: nat)
    requires ParserOk(p) && i < |bs|
    ensures var (q, acts) := Run(p, bs[..i]);
      Run(p, bs[..i + 1]) == (Step(q, bs[i]).0, acts + Step(q, bs[i]).1)
  {
    assert bs[..i + 1][..i] == bs[..i];
  }
}
