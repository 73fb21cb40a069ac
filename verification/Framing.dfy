/** Length-prefixed frames over a byte stream: the C reader and writer (src/common/proto.c) and the Rust decoder
    (app/tauri/src-tauri/crates/at-proto/src/stream.rs) give the same frames however the stream is cut into chunks. */
module Framing {
  import opened Bytes
  import opened ByteRing

  const HDR: nat := 5
  const MAX_PAYLOAD: nat := 0x10_0000

  datatype Frame = Frame(kind: byte, payload: seq<byte>)

  function Encode(f: Frame): seq<byte>
    requires |f.payload| <= MAX_PAYLOAD
  {
    PutU32(|f.payload|) + [f.kind] + f.payload
  }

  /** What stands at the front of a stream. */
  datatype Front = Short | Oversized(len: u32) | Whole(frame: Frame, used: nat)

  function Look(s: seq<byte>): (r: Front)
    ensures r.Whole? ==> HDR <= r.used <= |s| && |r.frame.payload| <= MAX_PAYLOAD && r.used == HDR + |r.frame.payload|
  {
    if |s| < HDR then Short
    else
      var n := GetU32(s);
      if n > MAX_PAYLOAD then Oversized(n)
      else if |s| < HDR + n then Short
      else Whole(Frame(s[4], s[HDR..HDR + n]), HDR + n)
  }

  /** A stream taken apart: its frames, the bytes left over, and the length that broke the limit if one did. */
  datatype Parsed = Parsed(frames: seq<Frame>, rest: seq<byte>, bad: Option<u32>)

  function Parse(s: seq<byte>): (p: Parsed)
    decreases |s|
  {
    match Look(s)
    case Short => Parsed([], s, None)
    case Oversized(n) => Parsed([], s, Some(n))
    case Whole(f, used) => var p := Parse(s[used..]); p.(frames := [f] + p.frames)
  }

  /** The parse of a stream of which some frames are already taken. */
  function Ahead(taken: seq<Frame>, s: seq<byte>): Parsed {
    var p := Parse(s);
    p.(frames := taken + p.frames)
  }

  lemma AheadStep(taken: seq<Frame>, s: seq<byte>)
    ensures Look(s).Whole? ==> Ahead(taken + [Look(s).frame], s[Look(s).used..]) == Ahead(taken, s)
    ensures Look(s).Short? ==> Ahead(taken, s) == Parsed(taken, s, None)
    ensures Look(s).Oversized? ==> Ahead(taken, s) == Parsed(taken, s, Some(Look(s).len))
  {
    if Look(s).Whole? {
      var p := Parse(s[Look(s).used..]);
      assert taken + ([Look(s).frame] + p.frames) == (taken + [Look(s).frame]) + p.frames;
    }
  }

  function EncodeAll(fs: seq<Frame>): seq<byte>
    requires forall i :: 0 <= i < |fs| ==> |fs[i].payload| <= MAX_PAYLOAD
  {
    if |fs| == 0 then [] else Encode(fs[0]) + EncodeAll(fs[1..])
  }

  /** A frame on the wire: the length of its payload, lowest byte first, its kind, and the payload. */
  lemma FrameBytes(f: Frame)
    requires |f.payload| <= MAX_PAYLOAD
    ensures var s := Encode(f);
      && |s| == 5 + |f.payload| && s[4] == f.kind && s[5..] == f.payload
      && PlaceValue(s[..4]) == |f.payload|
  {
    LittleEndian(|f.payload|, 0);
    assert Encode(f)[..4] == PutU32(|f.payload|);
  }

  // ---- round trip ----

  lemma LookEncoded(f: Frame, rest: seq<byte>)
    requires |f.payload| <= MAX_PAYLOAD
    ensures Look(Encode(f) + rest) == Whole(f, HDR + |f.payload|) && (Encode(f) + rest)[HDR + |f.payload|..] == rest
  {
    var s := Encode(f) + rest;
    U32RoundTrip(|f.payload|, [f.kind] + f.payload + rest);
    assert s == PutU32(|f.payload|) + ([f.kind] + f.payload + rest);
  }

  /** Any list of frames, encoded one after the other, parses to that list with nothing left. */
  lemma {:induction false} ParseEncoded(fs: seq<Frame>)
    requires forall i :: 0 <= i < |fs| ==> |fs[i].payload| <= MAX_PAYLOAD
    ensures Parse(EncodeAll(fs)) == Parsed(fs, [], None)
  {
    if |fs| > 0 {
      var rest := EncodeAll(fs[1..]);
      LookEncoded(fs[0], rest);
      ParseEncoded(fs[1..]);
      FirstFrame(Encode(fs[0]) + rest);
      assert [fs[0]] + fs[1..] == fs;
    }
  }

  // ---- chunking ----

  /** A whole frame, or a broken limit, stays at the front when more bytes come. */
  lemma LookMore(a: seq<byte>, b: seq<byte>)
    ensures Look(a).Whole? ==> Look(a + b) == Look(a) && (a + b)[Look(a).used..] == a[Look(a).used..] + b
    ensures Look(a).Oversized? ==> Look(a + b) == Look(a)
  {
    if |a| >= HDR {
      var n := GetU32(a);
      assert GetU32(a + b) == n;
      if |a| >= HDR + n {
        assert (a + b)[HDR..HDR + n] == a[HDR..HDR + n];
      }
    }
  }

  /** A parse, one frame at a time. */
  lemma {:induction false} ParseFirst(s: seq<byte>)
    ensures Look(s).Whole? ==> Parse(s) == Led(Look(s).frame, Parse(s[Look(s).used..]))
    ensures Look(s).Short? ==> Parse(s) == Parsed([], s, None)
    ensures Look(s).Oversized? ==> Parse(s) == Parsed([], s, Some(Look(s).len))
  {
  }

  function Led(f: Frame, p: Parsed): Parsed {
    p.(frames := [f] + p.frames)
  }

  /** Parsing on from p with more bytes gives q. */
  ghost predicate ParsedOn(p: Parsed, b: seq<byte>, q: Parsed) {
    if p.bad.Some? then q.frames == p.frames && q.bad == p.bad else q == Ahead(p.frames, p.rest + b)
  }

  lemma ParsedOnFirst(f: Frame, p: Parsed, b: seq<byte>, q: Parsed)
    requires ParsedOn(p, b, q)
    ensures ParsedOn(Led(f, p), b, Led(f, q))
  {
    if p.bad.None? {
      var r := Parse(p.rest + b);
      assert [f] + (p.frames + r.frames) == ([f] + p.frames) + r.frames;
    }
  }

  /** Parsing what has come so far, then the rest with what was left over, is parsing it all. */
  lemma {:induction false} ParseSplit(a: seq<byte>, b: seq<byte>)
    ensures ParsedOn(Parse(a), b, Parse(a + b))
    decreases |a|
  {
    LookMore(a, b);
    ParseFirst(a);
    if Look(a).Whole? {
      var used := Look(a).used;
      ParseSplit(a[used..], b);
      ParseFirst(a + b);
      ParsedOnFirst(Look(a).frame, Parse(a[used..]), b, Parse(a[used..] + b));
    } else if Look(a).Oversized? {
      ParseFirst(a + b);
    } else {
      assert [] + Parse(a + b).frames == Parse(a + b).frames;
    }
  }

  /** What is left over is always less than a largest frame, so a reader's buffer stays bounded. */
  lemma {:induction false} RestBounded(s: seq<byte>)
    ensures Look(Parse(s).rest) == if Parse(s).bad.Some? then Oversized(Parse(s).bad.value) else Short
    ensures Parse(s).bad.None? ==> |Parse(s).rest| < HDR + MAX_PAYLOAD
    decreases |s|
  {
    match Look(s)
    case Whole(_, used) => RestBounded(s[used..]);
    case _ =>
  }

  function Concat(chunks: seq<seq<byte>>): seq<byte> {
    if |chunks| == 0 then [] else Concat(chunks[..|chunks| - 1]) + chunks[|chunks| - 1]
  }

  // ---- the C side ----

  /** proto_write_frame: the whole frame, or nothing. */
  method WriteFrame(out: Ring, kind: byte, payload: seq<byte>) returns (ok: bool)
    requires out.Valid()
    modifies out, out.buf
    ensures out.Valid() && (out.buf == old(out.buf) || fresh(out.buf))
    ensures ok <==> |payload| <= MAX_PAYLOAD && (out.max == 0 || old(out.len) + HDR + |payload| <= out.max)
    ensures out.Contents() == old(out.Contents()) + if ok then Encode(Frame(kind, payload)) else []
  {
    if |payload| > MAX_PAYLOAD {
      return false;
    }
    if out.max > 0 && out.len + HDR + |payload| > out.max {
      return false;
    }
    var header := PutU32(|payload|) + [kind];
    ghost var was := out.Contents();
    var _ := out.Write(header);
    var _ := out.Write(payload);
    assert was + header + payload == was + (header + payload);
    return true;
  }

  /** Header, payload and rest make up what is looked at. */
  lemma WholeFront(s: seq<byte>, hdr: seq<byte>, payload: seq<byte>, rest: seq<byte>)
    requires |hdr| == HDR && |s| >= HDR && hdr == s[..HDR] && s[HDR..] == payload + rest
    requires GetU32(hdr) == |payload| <= MAX_PAYLOAD
    ensures Look(s) == Whole(Frame(hdr[4], payload), HDR + |payload|) && s[HDR + |payload|..] == rest
  {
    assert s == hdr + (payload + rest);
    assert s[HDR..HDR + |payload|] == payload;
  }

  /** proto_read_frame: a frame off the front of the ring, or nothing yet, or a violation. */
  method ReadFrame(inp: Ring) returns (r: Front)
    requires inp.Valid()
    modifies inp`head, inp`len
    ensures inp.Valid() && r == Look(old(inp.Contents()))
    ensures inp.Contents() == if r.Whole? then old(inp.Contents())[r.used..] else old(inp.Contents())
  {
    var hdr := inp.Peek(HDR);
    if |hdr| < HDR {
      return Short;
    }
    ghost var s := inp.Contents();
    assert hdr == s[..HDR];
    var n := GetU32(hdr);
    if n > MAX_PAYLOAD {
      return Oversized(n);
    }
    if inp.len < HDR + n {
      return Short;
    }
    inp.Consume(HDR);
    var payload := inp.Read(n);
    WholeFront(s, hdr, payload, inp.Contents());
    return Whole(Frame(hdr[4], payload), HDR + n);
  }

  /** Frames off the ring until none is whole: one turn of client_io after its reads. */
  method DrainRing(inp: Ring) returns (frames: seq<Frame>, bad: Option<u32>)
    requires inp.Valid()
    modifies inp`head, inp`len
    ensures inp.Valid() && Parsed(frames, inp.Contents(), bad) == Parse(old(inp.Contents()))
  {
    frames := [];
    ghost var s := inp.Contents();
    ghost var whole := Parse(s);
    while true
      invariant inp.Valid() && s == inp.Contents() && Ahead(frames, s) == whole
      decreases |s|
    {
      AheadStep(frames, s);
      var r := ReadFrame(inp);
      if !r.Whole? {
        bad := if r.Short? then None else Some(r.len);
        return;
      }
      s := s[r.used..];
      frames := frames + [r.frame];
    }
  }

  // ---- the daemon's read loop ----

  const READ_MAX: nat := 16384
  const PRE_HELLO_BUDGET: nat := 64
  const IN_MAX: nat := 2 * MAX_PAYLOAD

  /** A connection while it lasts, with the bytes not yet parsed, or how it ended: an oversized frame, more bytes than
      may wait, a first frame that is no greeting. */
  datatype End = Open(rest: seq<byte>) | Violated(len: u32) | Overrun | Refused

  datatype Served = Served(frames: seq<Frame>, end: End)

  /** A HELLO of the version the daemon speaks. */
  predicate Greets(f: Frame) {
    f.kind == 1 && |f.payload| >= 4 && f.payload[0] == 1 && f.payload[1] == 0
  }

  /** How many unparsed bytes a connection may have, before and after its greeting. */
  function Limit(greeted: bool): nat {
    if greeted then IN_MAX else PRE_HELLO_BUDGET
  }

  function EndOf(p: Parsed): End {
    if p.bad.Some? then Violated(p.bad.value) else Open(p.rest)
  }

  /** One wake-up of the daemon: everything there is to read is gathered first and parsed then. */
  function AfterBurst(s: Served, greeted: bool, data: seq<byte>): Served {
    if !s.end.Open? then s
    else if |s.end.rest| + |data| > Limit(greeted) then s.(end := Overrun)
    else
      var p := Parse(s.end.rest + data);
      if !greeted && p.frames != [] && !Greets(p.frames[0]) then Served(s.frames + p.frames[..1], Refused)
      else Served(s.frames + p.frames, EndOf(p))
  }

  /** Wake-up after wake-up; greeted tells whether the client had said HELLO before the first. */
  ghost function ServedAll(greeted: bool, bursts: seq<seq<byte>>): Served {
    if |bursts| == 0 then Served([], Open([]))
    else
      var s := ServedAll(greeted, bursts[..|bursts| - 1]);
      AfterBurst(s, greeted || s.frames != [], bursts[|bursts| - 1])
  }

  /** Unless a violation came before, burst i and the bytes left over before it are within the limit. */
  ghost predicate BurstFits(greeted: bool, bursts: seq<seq<byte>>, i: nat)
    requires i < |bursts|
  {
    var p := Parse(Concat(bursts[..i]));
    p.bad.None? ==> |p.rest| + |bursts[i]| <= Limit(greeted || p.frames != [])
  }

  ghost predicate AllFit(greeted: bool, bursts: seq<seq<byte>>) {
    forall i :: 0 <= i < |bursts| ==> BurstFits(greeted, bursts, i)
  }

  predicate GreetsFirst(greeted: bool, frames: seq<Frame>) {
    greeted || frames == [] || Greets(frames[0])
  }

  /** What a client can tell before it sends. */
  ghost predicate Welcome(greeted: bool, bursts: seq<seq<byte>>) {
    AllFit(greeted, bursts) && GreetsFirst(greeted, Parse(Concat(bursts)).frames)
  }

  lemma {:induction false} FitPrefix(greeted: bool, bursts: seq<seq<byte>>)
    requires |bursts| > 0
    ensures AllFit(greeted, bursts) <==>
      AllFit(greeted, bursts[..|bursts| - 1]) && BurstFits(greeted, bursts, |bursts| - 1)
  {
    var n := |bursts| - 1;
    forall i | 0 <= i < n
      ensures BurstFits(greeted, bursts, i) <==> BurstFits(greeted, bursts[..n], i)
    {
      assert bursts[..n][..i] == bursts[..i];
    }
  }

  /** One burst more, from where a stream parsed so far stands. */
  lemma {:induction false} BurstParses(a: seq<byte>, data: seq<byte>, greeted: bool)
    requires var p := Parse(a); p.bad.None? && |p.rest| + |data| <= Limit(greeted || p.frames != [])
    requires GreetsFirst(greeted, Parse(a + data).frames)
    ensures var p := Parse(a);
      AfterBurst(Served(p.frames, EndOf(p)), greeted || p.frames != [], data) ==
        Served(Parse(a + data).frames, EndOf(Parse(a + data)))
  {
    ParseSplit(a, data);
    var p := Parse(a);
    var q := Parse(p.rest + data);
    assert p.frames == [] ==> p.frames + q.frames == q.frames;
  }

  lemma {:induction false} BurstRefused(a: seq<byte>, data: seq<byte>, greeted: bool)
    requires var p := Parse(a); p.bad.None? && |p.rest| + |data| <= Limit(greeted || p.frames != [])
    requires GreetsFirst(greeted, Parse(a).frames) && !GreetsFirst(greeted, Parse(a + data).frames)
    ensures var p := Parse(a); AfterBurst(Served(p.frames, EndOf(p)), greeted || p.frames != [], data).end == Refused
  {
    ParseSplit(a, data);
    var p := Parse(a);
    var q := Parse(p.rest + data);
    assert p.frames == [] ==> p.frames + q.frames == q.frames;
  }

  lemma {:induction false} BurstEither(a: seq<byte>, data: seq<byte>, greeted: bool)
    requires var p := Parse(a); p.bad.None? && |p.rest| + |data| <= Limit(greeted || p.frames != [])
    requires GreetsFirst(greeted, Parse(a).frames)
    ensures var p, q := Parse(a), Parse(a + data);
      var s := AfterBurst(Served(p.frames, EndOf(p)), greeted || p.frames != [], data);
      if GreetsFirst(greeted, q.frames) then s == Served(q.frames, EndOf(q)) else s.end == Refused
  {
    if GreetsFirst(greeted, Parse(a + data).frames) {
      BurstParses(a, data, greeted);
    } else {
      BurstRefused(a, data, greeted);
    }
  }

  /** The daemon dispatches the parse of everything sent, and stands where it ends, exactly for the bursts it welcomes;
      any other stream overruns its buffer or is refused. */
  lemma {:induction false} ServesIffWelcome(greeted: bool, bursts: seq<seq<byte>>)
    ensures var p := Parse(Concat(bursts)); var s := ServedAll(greeted, bursts);
      if Welcome(greeted, bursts) then s == Served(p.frames, EndOf(p)) else s.end.Overrun? || s.end.Refused?
  {
    if |bursts| > 0 {
      var n := |bursts| - 1;
      var a, data := Concat(bursts[..n]), bursts[n];
      ServesIffWelcome(greeted, bursts[..n]);
      FitPrefix(greeted, bursts);
      ParseSplit(a, data);
      if Welcome(greeted, bursts[..n]) && Parse(a).bad.None? && BurstFits(greeted, bursts, n) {
        BurstEither(a, data, greeted);
      }
    }
  }

  /** More bytes than may wait hold a whole frame or a violation: overrunning always costs something. */
  lemma OverrunLoses(s: seq<byte>)
    requires |s| > IN_MAX
    ensures Parse(s).frames != [] || Parse(s).bad.Some?
  {
    RestBounded(s);
  }

  /** The length that broke the limit, if that is how a connection ended. */
  function Broken(e: End): Option<u32> {
    if e.Violated? then Some(e.len) else None
  }

  /** For a client that has said HELLO: frames and violation are those of the whole stream if and only if no burst,
      with the bytes left over before it, is longer than the buffer. */
  lemma {:induction false} ServesIffFits(bursts: seq<seq<byte>>)
    ensures var p := Parse(Concat(bursts)); var s := ServedAll(true, bursts);
      s.frames == p.frames && Broken(s.end) == p.bad <==> AllFit(true, bursts)
  {
    ServesIffWelcome(true, bursts);
    if !AllFit(true, bursts) {
      OverrunShort(bursts);
    }
  }

  lemma {:induction false} OverrunShort(bursts: seq<seq<byte>>)
    requires !AllFit(true, bursts)
    ensures var p := Parse(Concat(bursts)); var s := ServedAll(true, bursts);
      s.end == Overrun && (|s.frames| < |p.frames| || (s.frames == p.frames && p.bad.Some?))
  {
    if |bursts| > 0 {
      var n := |bursts| - 1;
      var a, data := Concat(bursts[..n]), bursts[n];
      FitPrefix(true, bursts);
      ParseSplit(a, data);
      if AllFit(true, bursts[..n]) {
        ServesIffWelcome(true, bursts[..n]);
        OverrunLoses(Parse(a).rest + data);
      } else {
        OverrunShort(bursts[..n]);
      }
    }
  }

  /** A run of zero bytes: empty frames of type 0, five bytes each. */
  function Zeros(n: nat): (s: seq<byte>)
    ensures |s| == n
  {
    seq(n, i => 0)
  }

  /** Two mebibytes and one more read that come in faster than the daemon empties its socket are valid frames, and
      none of them is dispatched. */
  lemma {:induction false} FastSenderDropped()
    ensures var burst := Zeros(129 * READ_MAX);
      && ServedAll(true, [burst]) == Served([], Overrun)
      && Parse(Concat([burst])).frames != [] && Parse(Concat([burst])).frames[0] == Frame(0, [])
  {
    var burst := Zeros(129 * READ_MAX);
    var none: seq<seq<byte>> := [burst][..0];
    assert ServedAll(true, none) == Served([], Open([])) && Concat(none) == [];
    assert Concat([burst]) == [] + burst == burst;
    assert GetU32(burst) == 0 && burst[HDR..HDR] == [];
    assert Look(burst) == Whole(Frame(0, []), HDR);
  }

  /** The bytes of a wake-up's reads: all but the last are full ones, since a short read ends the loop. */
  ghost predicate Reads(chunks: seq<seq<byte>>) {
    && (forall i :: 0 <= i < |chunks| ==> 0 < |chunks[i]| <= READ_MAX)
    && (forall i :: 0 <= i < |chunks| - 1 ==> |chunks[i]| == READ_MAX)
  }

  /** The reads of client_io: into the ring, as long as it may take them. */
  method TakeReads(inp: Ring, greeted: bool, chunks: seq<seq<byte>>) returns (ok: bool)
    requires inp.Valid() && inp.max == IN_MAX && Reads(chunks) && inp.len <= Limit(greeted)
    modifies inp, inp.buf
    ensures inp.Valid() && (inp.buf == old(inp.buf) || fresh(inp.buf))
    ensures ok <==> old(inp.len) + |Concat(chunks)| <= Limit(greeted)
    ensures ok ==> inp.Contents() == old(inp.Contents()) + Concat(chunks)
  {
    ghost var was := inp.Contents();
    GainedNone(was, chunks);
    for i := 0 to |chunks|
      invariant inp.Valid() && (inp.buf == old(inp.buf) || fresh(inp.buf))
      invariant inp.Contents() == Gained(was, chunks, i) && inp.len <= Limit(greeted)
    {
      GainedMore(was, chunks, i);
      if !greeted && inp.len + |chunks[i]| > PRE_HELLO_BUDGET {
        return false;
      }
      var fits := inp.Write(chunks[i]);
      if !fits {
        return false;
      }
    }
    ok := true;
  }

  /** What the ring holds after i reads. */
  ghost function Gained(was: seq<byte>, chunks: seq<seq<byte>>, i: nat): seq<byte>
    requires i <= |chunks|
  {
    was + Concat(chunks[..i])
  }

  lemma {:induction false} GainedNone(was: seq<byte>, chunks: seq<seq<byte>>)
    ensures Gained(was, chunks, 0) == was && Gained(was, chunks, |chunks|) == was + Concat(chunks)
  {
    assert chunks[..|chunks|] == chunks;
    assert was + Concat(chunks[..0]) == was;
  }

  lemma {:induction false} GainedMore(was: seq<byte>, chunks: seq<seq<byte>>, i: nat)
    requires i < |chunks|
    ensures Gained(was, chunks, i + 1) == Gained(was, chunks, i) + chunks[i]
    ensures |Gained(was, chunks, i)| + |chunks[i]| <= |was| + |Concat(chunks)|
  {
    assert chunks[..i + 1][..i] == chunks[..i];
    assert was + (Concat(chunks[..i]) + chunks[i]) == was + Concat(chunks[..i]) + chunks[i];
    Longer(chunks, i);
  }

  /** The first i + 1 chunks are no longer than all of them. */
  lemma {:induction false} Longer(chunks: seq<seq<byte>>, i: nat)
    requires i < |chunks|
    ensures |Concat(chunks[..i])| + |chunks[i]| <= |Concat(chunks)|
    decreases |chunks|
  {
    if i < |chunks| - 1 {
      var before := chunks[..|chunks| - 1];
      Longer(before, i);
      assert before[..i] == chunks[..i];
    } else {
      assert chunks[..i] == chunks[..|chunks| - 1];
    }
  }

  /** The frames of client_io: dispatched until none is whole; before the greeting, any other first frame ends it. */
  method DispatchFrames(inp: Ring, greeted: bool) returns (frames: seq<Frame>, end: End)
    requires inp.Valid()
    modifies inp`head, inp`len
    ensures inp.Valid() && Served(frames, end) == Parsing(greeted, old(inp.Contents()))
    ensures end.Open? ==> end.rest == inp.Contents()
  {
    var first := ReadFrame(inp);
    ghost var s := old(inp.Contents());
    if !first.Whole? {
      NoFrame(s, greeted);
      var rest := inp.Peek(inp.len);
      assert rest == inp.Contents() == s;
      return [], if first.Short? then Open(rest) else Violated(first.len);
    }
    FirstFrame(s);
    if !greeted && !Greets(first.frame) {
      return [first.frame], Refused;
    }
    var more;
    more, end := DispatchRest(inp);
    frames := [first.frame] + more;
  }

  lemma NoFrame(s: seq<byte>, greeted: bool)
    requires !Look(s).Whole?
    ensures Parsing(greeted, s) == Served([], if Look(s).Short? then Open(s) else Violated(Look(s).len))
  {
  }

  method DispatchRest(inp: Ring) returns (frames: seq<Frame>, end: End)
    requires inp.Valid()
    modifies inp`head, inp`len
    ensures inp.Valid() && var p := Parse(old(inp.Contents())); frames == p.frames && end == EndOf(p)
    ensures end.Open? ==> end.rest == inp.Contents()
  {
    var bad;
    frames, bad := DrainRing(inp);
    var rest := inp.Peek(inp.len);
    assert rest == inp.Contents();
    end := if bad.Some? then Violated(bad.value) else Open(rest);
  }

  /** What one wake-up makes of the bytes it has. */
  function Parsing(greeted: bool, s: seq<byte>): Served {
    var p := Parse(s);
    if !greeted && p.frames != [] && !Greets(p.frames[0]) then Served(p.frames[..1], Refused)
    else Served(p.frames, EndOf(p))
  }

  lemma {:induction false} FirstFrame(s: seq<byte>)
    requires Look(s).Whole?
    ensures var p, q := Parse(s), Parse(s[Look(s).used..]);
      p == Parsed([Look(s).frame] + q.frames, q.rest, q.bad) && p.frames[..1] == [Look(s).frame]
  {
  }

  /** client_io over a run of wake-ups, each with the reads it found: frames and end are those of the specification. */
  method ServeBursts(inp: Ring, greeted: bool, bursts: seq<seq<seq<byte>>>) returns (s: Served)
    requires inp.Valid() && inp.Contents() == [] && inp.max == IN_MAX
    requires forall i :: 0 <= i < |bursts| ==> Reads(bursts[i])
    modifies inp, inp.buf
    ensures s == ServedAll(greeted, Gathered(bursts))
  {
    s := Served([], Open([]));
    ghost var start := inp.buf;
    for i := 0 to |bursts|
      invariant s == ServedAll(greeted, Gathered(bursts[..i]))
      invariant inp.Valid() && inp.max == IN_MAX && (inp.buf == start || fresh(inp.buf))
      invariant s.end.Open? ==> s.end.rest == inp.Contents() && inp.len <= Limit(greeted || s.frames != [])
    {
      GatheredMore(bursts, i);
      if s.end.Open? {
        s := ServeBurst(inp, greeted || s.frames != [], bursts[i], s);
      }
    }
    assert bursts[..|bursts|] == bursts;
  }

  method ServeBurst(inp: Ring, greeted: bool, chunks: seq<seq<byte>>, s: Served) returns (t: Served)
    requires inp.Valid() && inp.max == IN_MAX && Reads(chunks) && inp.len <= Limit(greeted)
    requires s.end == Open(inp.Contents())
    modifies inp, inp.buf
    ensures inp.Valid() && (inp.buf == old(inp.buf) || fresh(inp.buf)) && t == AfterBurst(s, greeted, Concat(chunks))
    ensures t.end.Open? ==> t.end.rest == inp.Contents() && inp.len <= Limit(greeted || t.frames != [])
  {
    var ok := TakeReads(inp, greeted, chunks);
    if !ok {
      return s.(end := Overrun);
    }
    ghost var all := inp.Contents();
    var frames, end := DispatchFrames(inp, greeted);
    RestShorter(all);
    return Served(s.frames + frames, end);
  }

  lemma {:induction false} RestShorter(s: seq<byte>)
    ensures |Parse(s).rest| <= |s|
    decreases |s|
  {
    if Look(s).Whole? {
      RestShorter(s[Look(s).used..]);
    }
  }

  ghost function Gathered(bursts: seq<seq<seq<byte>>>): (bs: seq<seq<byte>>)
    ensures |bs| == |bursts|
  {
    seq(|bursts|, i requires 0 <= i < |bursts| => Concat(bursts[i]))
  }

  lemma {:induction false} GatheredMore(bursts: seq<seq<seq<byte>>>, i: nat)
    requires i < |bursts|
    ensures var g := Gathered(bursts[..i + 1]);
      |g| == i + 1 && g[..i] == Gathered(bursts[..i]) && g[i] == Concat(bursts[i])
  {
  }

  // ---- the Rust side ----

  class Decoder {
    var buf: seq<byte>
    var poisoned: Option<u32>

    constructor ()
      ensures buf == [] && poisoned == None
    {
      buf, poisoned := [], None;
    }

    /** Decoder::feed */
    method Feed(bytes: seq<byte>)
      modifies `buf
      ensures buf == old(buf) + if poisoned.None? then bytes else []
    {
      if poisoned.None? {
        buf := buf + bytes;
      }
    }

    /** Decoder::next_frame: after a violation, the same one for ever. */
    method NextFrame() returns (r: Front)
      modifies this
      ensures r == if old(poisoned).Some? then Oversized(old(poisoned).value) else Look(old(buf))
      ensures poisoned == if r.Oversized? then Some(r.len) else None
      ensures buf == if r.Whole? then old(buf)[r.used..] else old(buf)
    {
      if poisoned.Some? {
        return Oversized(poisoned.value);
      }
      if |buf| < HDR {
        return Short;
      }
      var n := GetU32(buf[..4]);
      assert n == GetU32(buf);
      if n > MAX_PAYLOAD {
        poisoned := Some(n);
        return Oversized(n);
      }
      if |buf| < HDR + n {
        return Short;
      }
      var kind := buf[4];
      var payload := buf[HDR..HDR + n];
      buf := buf[HDR + n..];
      return Whole(Frame(kind, payload), HDR + n);
    }

    method DrainDecoder() returns (frames: seq<Frame>)
      modifies this
      ensures old(poisoned).Some? ==> frames == [] && poisoned == old(poisoned) && buf == old(buf)
      ensures old(poisoned).None? ==> Parsed(frames, buf, poisoned) == Parse(old(buf))
    {
      frames := [];
      ghost var whole := Parse(buf);
      while true
        invariant if old(poisoned).Some? then frames == [] && poisoned == old(poisoned) && buf == old(buf)
                  else poisoned.None? && whole == Ahead(frames, buf)
        decreases |buf|
      {
        AheadStep(frames, buf);
        var r := NextFrame();
        if !r.Whole? {
          return;
        }
        frames := frames + [r.frame];
      }
    }
  }

  /** The desktop client reading chunk by chunk: the same frames and the same violation as the daemon's reader. */
  method DecodeChunks(chunks: seq<seq<byte>>) returns (frames: seq<Frame>, bad: Option<u32>)
    ensures var p := Parse(Concat(chunks)); frames == p.frames && bad == p.bad
  {
    var d := new Decoder();
    frames := [];
    for i := 0 to |chunks|
      invariant Parse(Concat(chunks[..i])).frames == frames && Parse(Concat(chunks[..i])).bad == d.poisoned
      invariant d.poisoned.None? ==> Parse(Concat(chunks[..i])).rest == d.buf
    {
      assert chunks[..i + 1][..i] == chunks[..i];
      ParseSplit(Concat(chunks[..i]), chunks[i]);
      d.Feed(chunks[i]);
      var more := d.DrainDecoder();
      frames := frames + more;
    }
    assert chunks[..|chunks|] == chunks;
    bad := d.poisoned;
  }
}
