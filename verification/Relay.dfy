/** What the daemon's tables are for (src/daemon/server.c, src/daemon/session.c): connections and sessions told apart by
    numbers that are never given out twice. Output goes to those who asked for the session, input to the session asked
    for, whatever slots are reused meanwhile. */
module Relay {
  import opened Bytes

  const MAX_CLIENTS: nat := 32
  const MAX_SESSIONS: nat := 64
  const NONE: int := -1

  /** A session in use: its name, and its number. */
  datatype Room = Room(name: string, inst: nat)

  datatype Delivery = Delivery(inst: nat, conn: nat)

  datatype Input = Input(conn: nat, inst: nat, data: seq<byte>)

  /** The next number to give out, who is connected through which client slot, what session is in which slot, what every
      connection has last asked for, all output handed to connections and all input handed to sessions. */
  datatype World = World(next: nat, line: map<int, nat>, rooms: map<int, Room>, asked: map<nat, nat>,
      wire: seq<Delivery>, typed: seq<Input>)

  /** What a client asks for; fails names the client slots whose socket gives out meanwhile. */
  datatype Ask =
    | New(name: string, spawned: bool, fails: set<int>)
    | Attach(name: string, fails: set<int>)
    | Detach
    | Kill(name: string, ok: bool)
    | Stdin(data: seq<byte>)
    | HangUp

  datatype Event =
    | Connect(loopOk: bool)
    | Output(s: int, fails: set<int>)
    | Exit(s: int, fails: set<int>)
    | Request(k: int, r: Ask)

  /** What the tables decide: which clients were disconnected, and who was handed output in which order. */
  datatype Outcome = Outcome(dropped: set<int>, heard: seq<Delivery>)

  const QUIET := Outcome({}, [])

  /** The first slot not in use, counting from k. */
  function FreeFrom(used: set<int>, k: nat, n: nat): (f: int)
    ensures f == NONE || (k <= f < n && f !in used)
    ensures forall i :: k <= i < (if f == NONE then n else f) ==> i in used
    decreases n - k
  {
    if k >= n then NONE else if k !in used then k else FreeFrom(used, k + 1, n)
  }

  ghost predicate Has(rooms: map<int, Room>, name: string) {
    exists s :: s in rooms && rooms[s].name == name
  }

  /** The session of that name. */
  ghost function RoomOf(rooms: map<int, Room>, name: string): (s: int)
    requires Has(rooms, name)
    ensures s in rooms && rooms[s].name == name
  {
    var s :| s in rooms && rooms[s].name == name;
    s
  }

  /** A new session takes place if the name is free, there is a slot, and its child starts. */
  ghost predicate Makes(w: World, name: string, spawned: bool) {
    !Has(w.rooms, name) && FreeFrom(w.rooms.Keys, 0, MAX_SESSIONS) != NONE && spawned
  }

  ghost function After(w: World, o: Outcome): World {
    w.(line := w.line - o.dropped, wire := w.wire + o.heard)
  }

  /** What an event comes to, with the outcome that the tables decided on. */
  ghost function Step(w: World, e: Event, o: Outcome): World {
    match e
    case Connect(loopOk) =>
      var k := FreeFrom(w.line.Keys, 0, MAX_CLIENTS);
      if k == NONE then w else w.(next := w.next + 1, line := if loopOk then w.line[k := w.next] else w.line)
    case Output(s, _) => After(w, o)
    case Exit(s, _) => After(w.(rooms := w.rooms - {s}), o)
    case Request(k, r) => if k in w.line then After(Asked(w, w.line[k], r), o) else w
  }

  /** What a request of connection c comes to, but for who is disconnected or hears of it. */
  ghost function Asked(w: World, c: nat, r: Ask): World {
    match r
    case New(name, spawned, _) =>
      if !Makes(w, name, spawned) then w
      else
        var s := FreeFrom(w.rooms.Keys, 0, MAX_SESSIONS);
        w.(next := w.next + 1, rooms := w.rooms[s := Room(name, w.next)], asked := w.asked[c := w.next])
    case Attach(name, _) =>
      if !Has(w.rooms, name) then w
      else w.(asked := w.asked[c := w.rooms[RoomOf(w.rooms, name)].inst])
    case Detach => w.(asked := w.asked - {c})
    case Kill(name, _) => if !Has(w.rooms, name) then w else w.(rooms := w.rooms - {RoomOf(w.rooms, name)})
    case Stdin(data) => if c !in w.asked then w else w.(typed := w.typed + [Input(c, w.asked[c], data)])
    case HangUp => w
  }

  /** The client slots of those who asked for a session. */
  ghost function Audience(w: World, inst: nat): set<int> {
    set k | k in w.line && w.line[k] in w.asked && w.asked[w.line[k]] == inst
  }

  /** Output went to connections that asked for the session. */
  ghost predicate Told(asked: map<nat, nat>, inst: nat, heard: seq<Delivery>) {
    forall i :: 0 <= i < |heard| ==>
      heard[i].inst == inst && heard[i].conn in asked && asked[heard[i].conn] == inst
  }

  /** And to all of them that are still connected. */
  ghost predicate Reached(w: World, inst: nat, o: Outcome) {
    forall k :: k in Audience(w, inst) && k !in o.dropped ==> Delivery(inst, w.line[k]) in o.heard
  }

  /** What the tables may decide. */
  ghost predicate Proper(w: World, e: Event, o: Outcome) {
    match e
    case Connect(_) => o == QUIET
    case Output(s, fails) =>
      if s !in w.rooms then o == QUIET
      else o.dropped <= fails && Told(w.asked, w.rooms[s].inst, o.heard) && Reached(w, w.rooms[s].inst, o)
    case Exit(s, fails) =>
      if s !in w.rooms then o == QUIET
      else
        var all := Audience(w, w.rooms[s].inst);
        all <= o.dropped <= fails + all && Told(w.asked, w.rooms[s].inst, o.heard)
    case Request(k, r) => if k in w.line then Answers(w, k, r, o) else o == QUIET
  }

  ghost predicate Answers(w: World, k: int, r: Ask, o: Outcome)
    requires k in w.line
  {
    match r
    case New(name, spawned, fails) =>
      && o.dropped <= fails + {k}
      && if Makes(w, name, spawned) then Told(Asked(w, w.line[k], r).asked, w.next, o.heard) else o.heard == []
    case Attach(name, fails) =>
      && o.dropped <= fails + {k}
      && if Has(w.rooms, name) then Told(Asked(w, w.line[k], r).asked, w.rooms[RoomOf(w.rooms, name)].inst, o.heard)
        else o.heard == []
    case Detach => o == QUIET
    case Kill(name, ok) =>
      var all := if Has(w.rooms, name) then Audience(w, w.rooms[RoomOf(w.rooms, name)].inst) else {};
      all <= o.dropped <= all + (if ok then {} else {k}) && o.heard == []
    case Stdin(_) => o == QUIET
    case HangUp => o == Outcome({k}, [])
  }

  lemma AfterQuiet(w: World)
    ensures After(w, QUIET) == w
  {
  }

  /** An event about a slot that is not in use changes nothing. */
  lemma NothingThere(w: World, e: Event)
    requires e.Output? || e.Exit? ==> e.s !in w.rooms
    requires e.Request? ==> e.k !in w.line
    requires e.Connect? ==> FreeFrom(w.line.Keys, 0, MAX_CLIENTS) == NONE
    ensures Proper(w, e, QUIET) && Step(w, e, QUIET) == w
  {
    AfterQuiet(w);
    if e.Exit? {
      assert w.rooms - {e.s} == w.rooms;
    }
  }

  // ---- runs ----

  ghost function Run(w: World, events: seq<Event>, os: seq<Outcome>): World
    requires |os| == |events|
  {
    if |events| == 0 then w
    else
      var n := |events| - 1;
      Step(Run(w, events[..n], os[..n]), events[n], os[n])
  }

  ghost predicate AllProper(w: World, events: seq<Event>, os: seq<Outcome>)
    requires |os| == |events|
  {
    |events| == 0 ||
    var n := |events| - 1;
    AllProper(w, events[..n], os[..n]) && Proper(Run(w, events[..n], os[..n]), events[n], os[n])
  }

  lemma {:induction false} OneMore(w: World, events: seq<Event>, i: nat, os: seq<Outcome>, o: Outcome)
    requires i < |events| && |os| == i && AllProper(w, events[..i], os)
    requires Proper(Run(w, events[..i], os), events[i], o)
    ensures AllProper(w, events[..i + 1], os + [o])
    ensures Run(w, events[..i + 1], os + [o]) == Step(Run(w, events[..i], os), events[i], o)
  {
    assert events[..i + 1][..i] == events[..i] && (os + [o])[..i] == os;
  }

  /** Numbers given out are below the next; no two connections and no two sessions share one. */
  ghost predicate Unmixed(w: World) {
    && (forall c :: c in w.asked ==> c < w.next)
    && (forall k :: k in w.line ==> w.line[k] < w.next)
    && (forall j, k :: j in w.line && k in w.line && w.line[j] == w.line[k] ==> j == k)
    && (forall s :: s in w.rooms ==> w.rooms[s].inst < w.next)
    && (forall s, t :: s in w.rooms && t in w.rooms && w.rooms[s].inst == w.rooms[t].inst ==> s == t)
  }

  lemma AskedUnmixed(w: World, c: nat, r: Ask)
    requires Unmixed(w) && c < w.next
    ensures Unmixed(Asked(w, c, r)) && Asked(w, c, r).next >= w.next
  {
  }

  lemma AfterUnmixed(w: World, o: Outcome)
    requires Unmixed(w)
    ensures Unmixed(After(w, o))
  {
  }

  lemma StepUnmixed(w: World, e: Event, o: Outcome)
    requires Unmixed(w)
    ensures Unmixed(Step(w, e, o)) && Step(w, e, o).next >= w.next
  {
    match e {
      case Connect(_) =>
      case Output(_, _) => AfterUnmixed(w, o);
      case Exit(s, _) => AfterUnmixed(w.(rooms := w.rooms - {s}), o);
      case Request(k, r) =>
        if k in w.line {
          AskedUnmixed(w, w.line[k], r);
          AfterUnmixed(Asked(w, w.line[k], r), o);
        }
    }
  }

  /** Whoever asks again: connection c sends the event, and it is one of those that change what it asked for. */
  ghost predicate AsksAgain(w: World, e: Event, c: nat) {
    e.Request? && e.k in w.line && w.line[e.k] == c && (e.r.New? || e.r.Attach? || e.r.Detach?)
  }

  /** All that c hears or types from some point on concerns one session, or it is nothing at all. */
  ghost predicate KeepsTo(w: World, v: World, c: nat) {
    && (c in v.asked <==> c in w.asked) && (c in w.asked ==> v.asked[c] == w.asked[c])
    && w.wire <= v.wire && w.typed <= v.typed
    && (forall i :: |w.wire| <= i < |v.wire| && v.wire[i].conn == c ==> c in w.asked && v.wire[i].inst == w.asked[c])
    && (forall i :: |w.typed| <= i < |v.typed| && v.typed[i].conn == c ==>
      c in w.asked && v.typed[i].inst == w.asked[c])
  }

  lemma StepKeepsTo(w: World, e: Event, o: Outcome, c: nat)
    requires Proper(w, e, o) && !AsksAgain(w, e, c)
    ensures KeepsTo(w, Step(w, e, o), c)
  {
  }

  lemma KeepsToOn(w: World, v: World, u: World, c: nat)
    requires KeepsTo(w, v, c) && KeepsTo(v, u, c)
    ensures KeepsTo(w, u, c)
  {
  }

  /** Until a connection asks again it hears the session it asked for and types into that one, and if it is detached it
      hears nothing and what it types goes nowhere, whatever slots are reused. */
  lemma {:induction false} RunKeepsTo(w: World, events: seq<Event>, os: seq<Outcome>, c: nat)
    requires |os| == |events| && AllProper(w, events, os)
    requires forall i :: 0 <= i < |events| ==> !AsksAgain(Run(w, events[..i], os[..i]), events[i], c)
    ensures KeepsTo(w, Run(w, events, os), c)
  {
    if |events| > 0 {
      var n := |events| - 1;
      forall i | 0 <= i < n
        ensures !AsksAgain(Run(w, events[..n][..i], os[..n][..i]), events[..n][i], c)
      {
        assert events[..n][..i] == events[..i] && os[..n][..i] == os[..i];
      }
      RunKeepsTo(w, events[..n], os[..n], c);
      var v := Run(w, events[..n], os[..n]);
      StepKeepsTo(v, events[n], os[n], c);
      KeepsToOn(w, v, Step(v, events[n], os[n]), c);
    }
  }

  /** Numbers stay unmixed over any run, and a connection just made has asked for nothing. */
  lemma {:induction false} RunUnmixed(w: World, events: seq<Event>, os: seq<Outcome>)
    requires |os| == |events| && Unmixed(w)
    ensures Unmixed(Run(w, events, os)) && Run(w, events, os).next !in Run(w, events, os).asked
  {
    if |events| > 0 {
      var n := |events| - 1;
      RunUnmixed(w, events[..n], os[..n]);
      StepUnmixed(Run(w, events[..n], os[..n]), events[n], os[n]);
    }
  }
}
