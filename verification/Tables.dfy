/** The static tables of clients and sessions (src/daemon/server.c, src/daemon/session.c): slots that are reused and
    point at each other both ways. Ghost numbers tell one use of a slot from the next, and over any run the tables relay
    input and output as connections asked. */
module Tables {
  import opened Bytes
  import opened Relay

  const MAX_CLIENTS_PER_SESSION: nat := 8

  /** A disconnected client keeps its attached pointer until the slot is taken again. */
  datatype Client = Client(inUse: bool, attached: int)

  datatype Sess = Sess(inUse: bool, name: string, clients: seq<int>)

  function NoClients(): (t: seq<int>)
    ensures |t| == MAX_CLIENTS_PER_SESSION && forall i :: 0 <= i < |t| ==> t[i] == NONE
  {
    seq(MAX_CLIENTS_PER_SESSION, i => NONE)
  }

  ghost predicate Shape(cs: seq<Client>, ss: seq<Sess>) {
    |cs| == MAX_CLIENTS && |ss| == MAX_SESSIONS && forall s :: 0 <= s < |ss| ==>
      |ss[s].clients| == MAX_CLIENTS_PER_SESSION
  }

  /** k is a connected client whose attached pointer is session s. */
  ghost predicate Member(cs: seq<Client>, s: int, k: int) {
    0 <= k < |cs| && cs[k].inUse && cs[k].attached == s
  }

  /** Tables name only connected clients attached to that very session, and only tables of sessions in use name any. */
  ghost predicate Named(cs: seq<Client>, ss: seq<Sess>) {
    forall s, i :: 0 <= s < |ss| && 0 <= i < |ss[s].clients| && ss[s].clients[i] != NONE ==>
      ss[s].inUse && Member(cs, s, ss[s].clients[i])
  }

  ghost predicate InTable(ss: seq<Sess>, s: int, k: int) {
    0 <= s < |ss| && ss[s].inUse && k in ss[s].clients
  }

  /** Every connected attached client, except perhaps one, is in the table of a session in use. */
  ghost predicate Listed(cs: seq<Client>, ss: seq<Sess>, except: int) {
    forall k :: 0 <= k < |cs| && k != except && cs[k].inUse && cs[k].attached != NONE ==> InTable(ss, cs[k].attached, k)
  }

  /** The attached pointer of a connection leads to the session instance it asked for, whatever slots were reused. */
  ghost predicate Faithful(cs: seq<Client>, conn: seq<nat>, inst: seq<nat>, asked: map<nat, nat>, next: nat) {
    && |conn| == |cs| && |inst| == MAX_SESSIONS
    && (forall c :: c in asked ==> c < next)
    && (forall k :: 0 <= k < |cs| && cs[k].inUse ==> conn[k] < next && Follows(cs[k], conn[k], inst, asked))
    && (forall j, k :: 0 <= j < |cs| && 0 <= k < |cs| && cs[j].inUse && cs[k].inUse && conn[j] == conn[k] ==> j == k)
  }

  ghost predicate Follows(c: Client, conn: nat, inst: seq<nat>, asked: map<nat, nat>) {
    if c.attached == NONE then conn !in asked
    else 0 <= c.attached < |inst| && conn in asked && asked[conn] == inst[c.attached]
  }

  /** Sessions in use have numbers of their own. */
  ghost predicate Numbered(ss: seq<Sess>, inst: seq<nat>, next: nat) {
    && |inst| == |ss| && (forall s :: 0 <= s < |ss| && ss[s].inUse ==> inst[s] < next)
    && forall s, t :: 0 <= s < |ss| && 0 <= t < |ss| && ss[s].inUse && ss[t].inUse && inst[s] == inst[t] ==> s == t
  }

  /** Who is connected, and what sessions there are. */
  ghost function Lines(cs: seq<Client>, conn: seq<nat>): map<int, nat>
    requires |conn| == |cs|
  {
    map k: int | 0 <= k < |cs| && cs[k].inUse :: conn[k]
  }

  ghost function Rooms(ss: seq<Sess>, inst: seq<nat>): map<int, Room>
    requires |inst| == |ss|
  {
    map s: int | 0 <= s < |ss| && ss[s].inUse :: Room(ss[s].name, inst[s])
  }

  ghost predicate NamesDistinct(ss: seq<Sess>) {
    forall i, j :: 0 <= i < |ss| && 0 <= j < |ss| && ss[i].inUse && ss[j].inUse && ss[i].name == ss[j].name ==> i == j
  }

  /** A table without k. */
  function Without(t: seq<int>, k: int): (u: seq<int>)
    ensures |u| == |t|
  {
    seq(|t|, i requires 0 <= i < |t| => if t[i] == k then NONE else t[i])
  }

  function Put(ss: seq<Sess>, s: int, table: seq<int>): seq<Sess>
    requires 0 <= s < |ss|
  {
    ss[s := ss[s].(clients := table)]
  }

  /** Clients may have been disconnected, nothing else. */
  ghost predicate Fewer(cs: seq<Client>, ss: seq<Sess>, ds: seq<Client>, ts: seq<Sess>) {
    && |ds| == |cs| && |ts| == |ss|
    && (forall k :: 0 <= k < |cs| ==> ds[k] == cs[k] || ds[k] == cs[k].(inUse := false))
    && (forall s :: 0 <= s < |ss| ==> FewerIn(ss[s], ts[s]))
  }

  ghost predicate FewerIn(a: Sess, b: Sess) {
    && b == a.(clients := b.clients) && |b.clients| == |a.clients|
    && forall i :: 0 <= i < |a.clients| ==> b.clients[i] == a.clients[i] || b.clients[i] == NONE
  }

  /** Only these clients may have been disconnected. */
  ghost predicate Spared(cs: seq<Client>, ds: seq<Client>, but: set<int>) {
    |ds| == |cs| && forall k :: 0 <= k < |cs| && k !in but ==> ds[k] == cs[k]
  }

  /** Nobody has connected, and only these may have been disconnected. */
  ghost predicate Thinned(cs: seq<Client>, ds: seq<Client>, but: set<int>) {
    |ds| == |cs| && forall k :: 0 <= k < |cs| ==>
      (ds[k].inUse ==> cs[k].inUse) && (cs[k].inUse && k !in but ==> ds[k].inUse)
  }

  /** The same sessions, with other tables perhaps. */
  ghost predicate SameRooms(ss: seq<Sess>, ts: seq<Sess>) {
    |ts| == |ss| && forall s :: 0 <= s < |ss| ==> ts[s].inUse == ss[s].inUse && ts[s].name == ss[s].name
  }

  ghost function Dropped(cs: seq<Client>, ds: seq<Client>): set<int>
    requires |ds| == |cs|
  {
    set k | 0 <= k < |cs| && cs[k].inUse && !ds[k].inUse
  }

  lemma RoomsSame(ss: seq<Sess>, ts: seq<Sess>, inst: seq<nat>)
    requires SameRooms(ss, ts) && |inst| == |ss|
    ensures Rooms(ts, inst) == Rooms(ss, inst)
  {
  }

  lemma RoomsLess(ss: seq<Sess>, ts: seq<Sess>, inst: seq<nat>, s: int)
    requires 0 <= s < |ss| && SameRooms(ss[s := ss[s].(inUse := false)], ts) && |inst| == |ss|
    ensures Rooms(ts, inst) == Rooms(ss, inst) - {s}
  {
  }

  lemma StillVacant(ss: seq<Sess>, inst: seq<nat>, s: int, name: string)
    requires |inst| == |ss| && 0 <= s < |ss| && !ss[s].inUse
    ensures Rooms(ss[s := Sess(false, name, NoClients())], inst) == Rooms(ss, inst)
  {
  }

  lemma Found(ss: seq<Sess>, inst: seq<nat>, name: string, s: int)
    requires NamesDistinct(ss) && |inst| == |ss| && 0 <= s < |ss| && ss[s].inUse && ss[s].name == name
    ensures Has(Rooms(ss, inst), name) && RoomOf(Rooms(ss, inst), name) == s
  {
    assert s in Rooms(ss, inst) && Rooms(ss, inst)[s].name == name;
  }

  /** Those who asked for a session are the clients that point at it. */
  lemma AudienceMembers(w: World, cs: seq<Client>, ss: seq<Sess>, conn: seq<nat>, inst: seq<nat>, s: int)
    requires Shape(cs, ss) && Listed(cs, ss, NONE) && Faithful(cs, conn, inst, w.asked, w.next)
    requires Numbered(ss, inst, w.next) && w.line == Lines(cs, conn) && 0 <= s < |ss| && ss[s].inUse
    ensures forall k :: k in Audience(w, inst[s]) <==> Member(cs, s, k)
  {
    forall k | 0 <= k < |cs| && cs[k].inUse
      ensures k in Audience(w, inst[s]) <==> Member(cs, s, k)
    {
      assert Follows(cs[k], conn[k], inst, w.asked);
      if cs[k].attached != NONE {
        assert InTable(ss, cs[k].attached, k);
      }
    }
  }

  lemma LinesLeft(cs: seq<Client>, ds: seq<Client>, conn: seq<nat>, but: set<int>)
    requires Thinned(cs, ds, but) && |conn| == |cs|
    ensures Lines(ds, conn) == Lines(cs, conn) - Dropped(cs, ds) && Dropped(cs, ds) <= but
  {
  }

  lemma FewerStill(cs: seq<Client>, ss: seq<Sess>, ds: seq<Client>, ts: seq<Sess>, es: seq<Client>, us: seq<Sess>)
    requires Fewer(cs, ss, ds, ts) && Fewer(ds, ts, es, us)
    ensures Fewer(cs, ss, es, us)
  {
    forall s | 0 <= s < |ss|
      ensures FewerIn(ss[s], us[s])
    {
      assert FewerIn(ss[s], ts[s]) && FewerIn(ts[s], us[s]);
    }
  }

  // ---- single steps ----

  lemma StillThere(t: seq<int>, k: int, j: int)
    requires j in t && j != k
    ensures j in Without(t, k)
  {
    var i :| 0 <= i < |t| && t[i] == j;
    assert Without(t, k)[i] == j;
  }

  lemma LeaveListed(cs: seq<Client>, ss: seq<Sess>, s: int, k: int)
    requires Shape(cs, ss) && Listed(cs, ss, k) && 0 <= s < |ss|
    ensures Listed(cs, Put(ss, s, Without(ss[s].clients, k)), k)
  {
    var ts := Put(ss, s, Without(ss[s].clients, k));
    forall j | 0 <= j < |cs| && j != k && cs[j].inUse && cs[j].attached != NONE
      ensures InTable(ts, cs[j].attached, j)
    {
      assert InTable(ss, cs[j].attached, j);
      if cs[j].attached == s {
        StillThere(ss[s].clients, k, j);
      }
    }
  }

  // ---- whole events ----

  /** All that the daemon holds. */
  datatype Snap = Snap(clients: seq<Client>, sessions: seq<Sess>, conn: seq<nat>, inst: seq<nat>,
      asked: map<nat, nat>, next: nat, wire: seq<Delivery>, typed: seq<Input>)

  ghost predicate Good(a: Snap, except: int) {
    && Shape(a.clients, a.sessions) && Named(a.clients, a.sessions) && Listed(a.clients, a.sessions, except)
    && Faithful(a.clients, a.conn, a.inst, a.asked, a.next) && NamesDistinct(a.sessions)
    && Numbered(a.sessions, a.inst, a.next)
  }

  /** The tables without the slots. */
  ghost function Seen(a: Snap): World
    requires |a.conn| == |a.clients| && |a.inst| == |a.sessions|
  {
    World(a.next, Lines(a.clients, a.conn), Rooms(a.sessions, a.inst), a.asked, a.wire, a.typed)
  }

  /** Client k is in no table. */
  ghost predicate Unlisted(a: Snap, k: int) {
    Good(a, k) && 0 <= k < |a.clients| && a.clients[k].inUse &&
    (0 <= a.clients[k].attached < |a.sessions| ==> k !in a.sessions[a.clients[k].attached].clients)
  }

  /** The slot of a client in no table may change; except for the client itself, all are listed as before. */
  lemma GoodSlot(a: Snap, k: int, c: Client, asked: map<nat, nat>)
    requires Unlisted(a, k) && (c.inUse ==> Follows(c, a.conn[k], a.inst, asked))
    requires forall x :: x in asked ==> x < a.next
    requires forall x :: x != a.conn[k] ==> (x in asked <==> x in a.asked) && (x in asked ==> asked[x] == a.asked[x])
    ensures Good(a.(clients := a.clients[k := c], asked := asked), k)
    ensures !c.inUse || c.attached == NONE ==> Good(a.(clients := a.clients[k := c], asked := asked), NONE)
  {
    var cs := a.clients[k := c];
    forall s, i | 0 <= s < |a.sessions| && 0 <= i < |a.sessions[s].clients| && a.sessions[s].clients[i] != NONE
      ensures a.sessions[s].inUse && Member(cs, s, a.sessions[s].clients[i])
    {
      assert Member(a.clients, s, a.sessions[s].clients[i]);
    }
    forall j | 0 <= j < |cs| && j != k && cs[j].inUse
      ensures Follows(cs[j], a.conn[j], a.inst, asked) && a.conn[j] < a.next
    {
      assert Follows(a.clients[j], a.conn[j], a.inst, a.asked);
    }
  }

  /** A free slot is taken by a new connection. */
  lemma GoodAccept(a: Snap, k: int, inUse: bool)
    requires Good(a, NONE) && 0 <= k < |a.clients| && !a.clients[k].inUse
    ensures Good(a.(clients := a.clients[k := Client(inUse, NONE)], conn := a.conn[k := a.next], next := a.next + 1),
      NONE)
  {
    var cs := a.clients[k := Client(inUse, NONE)];
    forall s, i | 0 <= s < |a.sessions| && 0 <= i < |a.sessions[s].clients| && a.sessions[s].clients[i] != NONE
      ensures a.sessions[s].inUse && Member(cs, s, a.sessions[s].clients[i])
    {
      assert Member(a.clients, s, a.sessions[s].clients[i]);
    }
    forall j | 0 <= j < |cs| && j != k && cs[j].inUse
      ensures Follows(cs[j], a.conn[j], a.inst, a.asked) && a.conn[j] < a.next
    {
    }
  }

  /** A free slot is taken by a new session, or tried and given back. */
  lemma GoodClaim(a: Snap, s: int, name: string, b: Snap)
    requires Good(a, NONE) && 0 <= s < |a.sessions| && !a.sessions[s].inUse
    requires forall i :: 0 <= i < |a.sessions| && a.sessions[i].inUse ==> a.sessions[i].name != name
    requires
      || b == a.(sessions := a.sessions[s := Sess(false, name, NoClients())])
      || b == a.(sessions := a.sessions[s := Sess(true, name, NoClients())], inst := a.inst[s := a.next],
                 next := a.next + 1)
    ensures Good(b, NONE)
  {
    forall k | 0 <= k < |a.clients| && a.clients[k].inUse
      ensures a.clients[k].attached != s && Follows(a.clients[k], a.conn[k], b.inst, a.asked)
      ensures a.clients[k].attached != NONE ==> InTable(b.sessions, a.clients[k].attached, k)
    {
      assert Follows(a.clients[k], a.conn[k], a.inst, a.asked);
      assert a.clients[k].attached != NONE ==> InTable(a.sessions, a.clients[k].attached, k);
    }
  }

  /** Nothing but clients and tables may differ. */
  ghost predicate SameElse(a: Snap, b: Snap) {
    a == b.(clients := a.clients, sessions := a.sessions, wire := a.wire)
  }

  /** Every entry of the table reached means every client of the session reached. */
  lemma AllReached(a: Snap, s: int, heard: seq<Delivery>)
    requires Good(a, NONE) && 0 <= s < |a.sessions|
    requires forall j :: 0 <= j < |a.sessions[s].clients| && a.sessions[s].clients[j] != NONE ==>
      0 <= a.sessions[s].clients[j] < |a.conn| && Delivery(a.inst[s], a.conn[a.sessions[s].clients[j]]) in heard
    ensures forall k :: Member(a.clients, s, k) ==> Delivery(a.inst[s], a.conn[k]) in heard
  {
    forall k | Member(a.clients, s, k)
      ensures Delivery(a.inst[s], a.conn[k]) in heard
    {
      assert InTable(a.sessions, s, k);
    }
  }

  /** Output, or an attempt that came to nothing: the sessions are the same. */
  lemma BookedOutput(a: Snap, b: Snap, heard: seq<Delivery>, but: set<int>)
    requires Good(a, NONE) && SameElse(a, b) && b.wire == a.wire + heard
    requires Thinned(a.clients, b.clients, but) && SameRooms(a.sessions, b.sessions)
    ensures var o := Outcome(Dropped(a.clients, b.clients), heard); o.dropped <= but && Seen(b) == After(Seen(a), o)
  {
    LinesLeft(a.clients, b.clients, a.conn, but);
    RoomsSame(a.sessions, b.sessions, a.inst);
  }

  lemma BookedReached(a: Snap, b: Snap, s: int, o: Outcome)
    requires Good(a, NONE) && 0 <= s < |a.sessions| && a.sessions[s].inUse
    requires |b.clients| == |a.clients| && o.dropped == Dropped(a.clients, b.clients)
    requires forall k :: 0 <= k < |a.clients| && b.clients[k].inUse ==> b.clients[k] == a.clients[k]
    requires forall k :: Member(b.clients, s, k) ==> Delivery(a.inst[s], a.conn[k]) in o.heard
    ensures Reached(Seen(a), a.inst[s], o)
  {
    var w := Seen(a);
    AudienceMembers(w, a.clients, a.sessions, a.conn, a.inst, s);
    forall k | k in Audience(w, a.inst[s]) && k !in o.dropped
      ensures Delivery(a.inst[s], w.line[k]) in o.heard
    {
      assert Member(a.clients, s, k);
      assert Member(b.clients, s, k);
    }
  }

  /** The end of a session: all its clients are gone. */
  lemma BookedEnd(a: Snap, b: Snap, s: int, heard: seq<Delivery>, but: set<int>)
    requires Good(a, NONE) && SameElse(a, b) && b.wire == a.wire + heard
    requires 0 <= s < |a.sessions| && a.sessions[s].inUse
    requires SameRooms(a.sessions[s := a.sessions[s].(inUse := false)], b.sessions)
    requires Thinned(a.clients, b.clients, but + set k | 0 <= k < |a.clients| && Member(a.clients, s, k))
    requires forall k :: Member(a.clients, s, k) ==> !b.clients[k].inUse
    ensures var o, w := Outcome(Dropped(a.clients, b.clients), heard), Seen(a);
      && Audience(w, a.inst[s]) <= o.dropped <= but + Audience(w, a.inst[s])
      && Seen(b) == After(w.(rooms := w.rooms - {s}), o)
  {
    AudienceMembers(Seen(a), a.clients, a.sessions, a.conn, a.inst, s);
    LinesLeft(a.clients, b.clients, a.conn, but + set k | 0 <= k < |a.clients| && Member(a.clients, s, k));
    RoomsLess(a.sessions, b.sessions, a.inst, s);
  }

  lemma BookedNew(a: Snap, b: Snap, s: int, name: string)
    requires Good(a, NONE) && 0 <= s < |a.sessions| && !a.sessions[s].inUse
    requires b == a.(next := a.next + 1, sessions := a.sessions[s := Sess(true, name, NoClients())],
      inst := a.inst[s := a.next])
    ensures Seen(b) == Seen(a).(next := a.next + 1, rooms := Seen(a).rooms[s := Room(name, a.next)])
  {
  }

  lemma BookedConnect(a: Snap, b: Snap, k: int, loopOk: bool)
    requires Good(a, NONE) && 0 <= k < |a.clients| && !a.clients[k].inUse
    requires b == a.(next := a.next + 1, clients := a.clients[k := Client(loopOk, NONE)], conn := a.conn[k := a.next])
    ensures Seen(b) ==
      Seen(a).(next := a.next + 1, line := if loopOk then Seen(a).line[k := a.next] else Seen(a).line)
  {
  }

  class Daemon {
    var clients: seq<Client>
    var sessions: seq<Sess>
    ghost var conn: seq<nat>
    ghost var inst: seq<nat>
    ghost var asked: map<nat, nat>
    ghost var next: nat
    ghost var wire: seq<Delivery>
    ghost var typed: seq<Input>

    ghost function Shot(): Snap
      reads this
    {
      Snap(clients, sessions, conn, inst, asked, next, wire, typed)
    }

    ghost function Now(): World
      requires |conn| == |clients| && |inst| == |sessions|
      reads this
    {
      Seen(Shot())
    }

    /** What holds between any two events. */
    ghost predicate Valid()
      reads this
    {
      Almost(NONE)
    }

    ghost predicate Almost(except: int)
      reads this
    {
      Good(Shot(), except)
    }

    constructor ()
      ensures Valid() && Now() == World(0, map[], map[], map[], [], [])
    {
      clients := seq(MAX_CLIENTS, i => Client(false, NONE));
      sessions := seq(MAX_SESSIONS, i => Sess(false, "", NoClients()));
      conn, inst, asked, next := seq(MAX_CLIENTS, i => 0), seq(MAX_SESSIONS, i => 0), map[], 0;
      wire, typed := [], [];
    }

    /** session_detach */
    method SessionDetach(s: int, k: int)
      requires Almost(k) && 0 <= s < |sessions| && 0 <= k < |clients|
      modifies `sessions
      ensures Almost(k) && sessions == Put(old(sessions), s, Without(old(sessions)[s].clients, k))
    {
      var t := sessions[s].clients;
      ghost var was := t;
      for i := 0 to |t|
        invariant |t| == |was| && forall j :: 0 <= j < |t| ==> t[j] == if j < i && was[j] == k then NONE else was[j]
      {
        if t[i] == k {
          t := t[i := NONE];
        }
      }
      assert t == Without(was, k);
      LeaveListed(clients, sessions, s, k);
      sessions := Put(sessions, s, t);
    }

    /** client_disconnect: no table names the client afterwards. */
    method Disconnect(k: int)
      requires Almost(k) && 0 <= k < |clients|
      modifies `sessions, `clients
      ensures Valid() && !clients[k].inUse && forall j :: 0 <= j < |clients| && j != k ==> clients[j] == old(clients)[j]
      ensures Fewer(old(clients), old(sessions), clients, sessions)
    {
      if !clients[k].inUse {
        return;
      }
      TakeOff(k);
      GoodSlot(Shot(), k, clients[k].(inUse := false), asked);
      clients := clients[k := clients[k].(inUse := false)];
    }

    /** Out of the table it is in. */
    method TakeOff(k: int)
      requires Almost(k) && 0 <= k < |clients| && clients[k].inUse
      modifies `sessions
      ensures Unlisted(Shot(), k) && Fewer(clients, old(sessions), clients, sessions)
      ensures clients[k].attached == NONE ==> sessions == old(sessions)
    {
      assert Follows(clients[k], conn[k], inst, asked);
      if clients[k].attached != NONE {
        SessionDetach(clients[k].attached, k);
      }
    }

    /** client_send, whose write may fail and take the client with it. */
    method Send(k: int, ok: bool)
      requires Valid() && 0 <= k < |clients|
      modifies `sessions, `clients
      ensures Valid() && Fewer(old(clients), old(sessions), clients, sessions)
      ensures Spared(old(clients), clients, if ok then {} else {k}) && (!ok ==> !clients[k].inUse)
    {
      if clients[k].inUse && !ok {
        assert Almost(k);
        Disconnect(k);
      }
    }

    /** Output of a session to every client in its table: each gets only the session it asked for. */
    method Broadcast(s: int, fails: set<int>) returns (ghost heard: seq<Delivery>)
      requires Valid() && 0 <= s < |sessions|
      modifies `sessions, `clients, `wire
      ensures Valid() && Fewer(old(clients), old(sessions), clients, sessions) && Spared(old(clients), clients, fails)
      ensures wire == old(wire) + heard && Told(asked, inst[s], heard)
      ensures forall k :: Member(clients, s, k) ==> Delivery(inst[s], conn[k]) in heard
    {
      heard := [];
      for i := 0 to MAX_CLIENTS_PER_SESSION
        invariant Valid() && Fewer(old(clients), old(sessions), clients, sessions) && wire == old(wire) + heard
        invariant Spared(old(clients), clients, fails) && Told(asked, inst[s], heard)
        invariant forall j :: 0 <= j < i && sessions[s].clients[j] != NONE ==>
          Delivery(inst[s], conn[sessions[s].clients[j]]) in heard
      {
        var k := sessions[s].clients[i];
        if k != NONE {
          heard := heard + [Delivery(inst[s], conn[k])];
          ghost var cs, ss := clients, sessions;
          HandOut(s, i, fails);
          FewerStill(old(clients), old(sessions), cs, ss, clients, sessions);
          assert FewerIn(ss[s], sessions[s]);
        }
      }
      AllReached(Shot(), s, heard);
    }

    /** To one client of the table. */
    method HandOut(s: int, i: int, fails: set<int>)
      requires Valid() && 0 <= s < |sessions| && 0 <= i < |sessions[s].clients| && sessions[s].clients[i] != NONE
      modifies `sessions, `clients, `wire
      ensures Valid() && Fewer(old(clients), old(sessions), clients, sessions) && Spared(old(clients), clients, fails)
      ensures var k := old(sessions)[s].clients[i];
        && 0 <= k < |conn| && conn[k] in asked && asked[conn[k]] == inst[s]
        && wire == old(wire) + [Delivery(inst[s], conn[k])]
    {
      var k := sessions[s].clients[i];
      assert Member(clients, s, k);
      assert Follows(clients[k], conn[k], inst, asked);
      wire := wire + [Delivery(inst[s], conn[k])];
      Send(k, k !in fails);
    }

    /** session_free_slot: the table entry goes first, then the client. */
    method FreeSlot(s: int)
      requires Valid() && 0 <= s < |sessions|
      modifies `sessions, `clients
      ensures Valid() && !sessions[s].inUse && forall k :: !Member(clients, s, k)
      ensures Thinned(old(clients), clients, set k | 0 <= k < |clients| && Member(old(clients), s, k))
      ensures forall k :: Member(old(clients), s, k) ==> !clients[k].inUse
      ensures SameRooms(old(sessions)[s := old(sessions)[s].(inUse := false)], sessions)
    {
      EvictAll(s);
      NobodyLeft(clients, sessions, s);
      sessions := sessions[s := sessions[s].(inUse := false)];
    }

    method EvictAll(s: int)
      requires Valid() && 0 <= s < |sessions|
      modifies `sessions, `clients
      ensures Valid() && Fewer(old(clients), old(sessions), clients, sessions)
      ensures forall j :: 0 <= j < |sessions[s].clients| ==> sessions[s].clients[j] == NONE
      ensures Spared(old(clients), clients, set k | 0 <= k < |clients| && Member(old(clients), s, k))
    {
      ghost var mine := set k | 0 <= k < |clients| && Member(old(clients), s, k);
      for i := 0 to MAX_CLIENTS_PER_SESSION
        invariant Valid() && Fewer(old(clients), old(sessions), clients, sessions)
        invariant forall j :: 0 <= j < i ==> sessions[s].clients[j] == NONE
        invariant Spared(old(clients), clients, mine)
      {
        if sessions[s].clients[i] != NONE {
          assert Member(clients, s, sessions[s].clients[i]);
          ghost var cs, ss := clients, sessions;
          Evict(s, i);
          FewerStill(old(clients), old(sessions), cs, ss, clients, sessions);
          assert FewerIn(ss[s], sessions[s]);
        }
      }
    }

    method Evict(s: int, i: int)
      requires Valid() && 0 <= s < |sessions| && 0 <= i < |sessions[s].clients| && sessions[s].clients[i] != NONE
      modifies `sessions, `clients
      ensures Valid() && Fewer(old(clients), old(sessions), clients, sessions) && sessions[s].clients[i] == NONE
      ensures Spared(old(clients), clients, {old(sessions)[s].clients[i]})
    {
      var k := sessions[s].clients[i];
      assert Member(clients, s, k);
      NullListed(clients, sessions, s, i);
      sessions := Put(sessions, s, sessions[s].clients[i := NONE]);
      ghost var ts := sessions;
      Disconnect(k);
      FewerStill(old(clients), old(sessions), old(clients), ts, clients, sessions);
      assert FewerIn(ts[s], sessions[s]);
    }

    // ---- events ----

    /** server_accept: the first free slot, with nothing of its last user; without a slot in the poll loop it is given
        back at once. */
    method Accept(loopOk: bool) returns (k: int)
      requires Valid()
      modifies `clients, `conn, `next
      ensures Valid() && k == FreeFrom(Lines(old(clients), old(conn)).Keys, 0, MAX_CLIENTS)
      ensures if k == NONE then
          clients == old(clients) && conn == old(conn) && next == old(next)
        else
          clients == old(clients)[k := Client(loopOk, NONE)] && conn == old(conn)[k := old(next)] &&
          next == old(next) + 1
    {
      k := NONE;
      ghost var used := Lines(clients, conn).Keys;
      for i := 0 to |clients|
        invariant k == NONE && FreeFrom(used, 0, MAX_CLIENTS) == FreeFrom(used, i, MAX_CLIENTS)
      {
        if !clients[i].inUse {
          k := i;
          break;
        }
      }
      if k == NONE {
        return;
      }
      GoodAccept(Shot(), k, loopOk);
      clients := clients[k := Client(loopOk, NONE)];
      conn, next := conn[k := next], next + 1;
    }

    /** session_find */
    method Find(name: string) returns (s: int)
      requires Valid()
      ensures s != NONE ==> 0 <= s < |sessions| && sessions[s].inUse && sessions[s].name == name
      ensures s == NONE ==> forall i :: 0 <= i < |sessions| && sessions[i].inUse ==> sessions[i].name != name
      ensures (s != NONE) == Has(Now().rooms, name) && (s != NONE ==> s == RoomOf(Now().rooms, name))
    {
      for i := 0 to |sessions|
        invariant forall j :: 0 <= j < i && sessions[j].inUse ==> sessions[j].name != name
      {
        if sessions[i].inUse && sessions[i].name == name {
          Found(sessions, inst, name, i);
          return i;
        }
      }
      return NONE;
    }

    /** session_alloc and session_new: the name must be new and a slot free; a failed spawn gives the slot back. */
    method NewSession(name: string, spawned: bool) returns (s: int)
      requires Valid()
      modifies `sessions, `inst, `next
      ensures Valid() && asked == old(asked) && conn == old(conn)
      ensures (s != NONE) == Makes(old(Now()), name, spawned)
      ensures if s == NONE then
          Rooms(sessions, inst) == Rooms(old(sessions), old(inst)) && next == old(next)
        else
          s == FreeFrom(Rooms(old(sessions), old(inst)).Keys, 0, MAX_SESSIONS) && next == old(next) + 1 &&
          sessions == old(sessions)[s := Sess(true, name, NoClients())] && inst == old(inst)[s := old(next)]
    {
      var known := Find(name);
      if known != NONE {
        return NONE;
      }
      s := FreeRoom();
      if s == NONE {
        return;
      }
      ghost var ss := sessions;
      Claim(s, name, spawned);
      if !spawned {
        StillVacant(ss, inst, s, name);
        return NONE;
      }
    }

    method Claim(s: int, name: string, spawned: bool)
      requires Valid() && 0 <= s < |sessions| && !sessions[s].inUse
      requires forall i :: 0 <= i < |sessions| && sessions[i].inUse ==> sessions[i].name != name
      modifies `sessions, `inst, `next
      ensures Valid() && sessions == old(sessions)[s := Sess(spawned, name, NoClients())]
      ensures inst == (if spawned then old(inst)[s := old(next)] else old(inst))
      ensures next == old(next) + if spawned then 1 else 0
    {
      ghost var a := Shot();
      sessions := sessions[s := Sess(spawned, name, NoClients())];
      if spawned {
        inst, next := inst[s := next], next + 1;
      }
      GoodClaim(a, s, name, Shot());
    }

    method FreeRoom() returns (s: int)
      requires Valid()
      ensures s == FreeFrom(Rooms(sessions, inst).Keys, 0, MAX_SESSIONS)
    {
      ghost var used := Rooms(sessions, inst).Keys;
      for i := 0 to |sessions|
        invariant FreeFrom(used, 0, MAX_SESSIONS) == FreeFrom(used, i, MAX_SESSIONS)
      {
        if !sessions[i].inUse {
          return i;
        }
      }
      return NONE;
    }

    /** session_attach: into the first hole, unless an earlier entry is the client already; a full table turns it
        away. */
    method SessionAttach(s: int, k: int, fails: set<int>) returns (ghost heard: seq<Delivery>)
      requires Almost(k) && 0 <= s < |sessions| && sessions[s].inUse && Member(clients, s, k)
      modifies `sessions, `clients, `wire
      ensures Valid() && (clients[k].inUse ==> Member(clients, s, k))
      ensures k !in fails && (k in old(sessions)[s].clients || NONE in old(sessions)[s].clients) ==> clients[k].inUse
      ensures Thinned(old(clients), clients, fails + {k}) && SameRooms(old(sessions), sessions)
      ensures wire == old(wire) + heard && Told(asked, inst[s], heard)
    {
      heard := [];
      for i := 0 to MAX_CLIENTS_PER_SESSION
        invariant forall j :: 0 <= j < i ==> sessions[s].clients[j] != NONE && sessions[s].clients[j] != k
      {
        if sessions[s].clients[i] == k {
          assert InTable(sessions, s, k);
          return;
        }
        if sessions[s].clients[i] == NONE {
          heard := Admit(s, i, k, fails);
          return;
        }
      }
      Disconnect(k);
    }

    method Admit(s: int, i: int, k: int, fails: set<int>) returns (ghost heard: seq<Delivery>)
      requires Almost(k) && 0 <= s < |sessions| && sessions[s].inUse && Member(clients, s, k)
      requires 0 <= i < |sessions[s].clients| && sessions[s].clients[i] == NONE
      modifies `sessions, `clients, `wire
      ensures Valid() && (clients[k].inUse ==> Member(clients, s, k)) && (k !in fails ==> clients[k].inUse)
      ensures Thinned(old(clients), clients, fails + {k}) && SameRooms(old(sessions), sessions)
      ensures wire == old(wire) + heard && Told(asked, inst[s], heard)
    {
      EnterTable(clients, sessions, s, i, k);
      sessions := Put(sessions, s, sessions[s].clients[i := k]);
      heard := Broadcast(s, fails);
      Send(k, k !in fails);
    }

    /** Leave the old session and point at the new one. */
    method Repoint(s: int, k: int)
      requires Valid() && 0 <= s < |sessions| && sessions[s].inUse && 0 <= k < |clients| && clients[k].inUse
      modifies `sessions, `clients, `asked
      ensures Almost(k) && Member(clients, s, k) && sessions[s].inUse && asked == old(asked)[conn[k] := inst[s]]
      ensures Thinned(old(clients), clients, {}) && SameRooms(old(sessions), sessions)
    {
      if clients[k].attached == s {
        assert Follows(clients[k], conn[k], inst, asked);
        assert asked == asked[conn[k] := inst[s]];
        return;
      }
      TakeOff(k);
      GoodSlot(Shot(), k, Client(true, s), asked[conn[k] := inst[s]]);
      clients := clients[k := Client(true, s)];
      asked := asked[conn[k] := inst[s]];
    }

    /** What handle_new and handle_attach do once they have the session. */
    method Join(s: int, k: int, fails: set<int>) returns (ghost heard: seq<Delivery>)
      requires Valid() && 0 <= s < |sessions| && sessions[s].inUse && 0 <= k < |clients| && clients[k].inUse
      modifies `sessions, `clients, `wire, `asked
      ensures Valid() && (clients[k].inUse ==> Member(clients, s, k)) && asked == old(asked)[conn[k] := inst[s]]
      ensures Thinned(old(clients), clients, fails + {k}) && SameRooms(old(sessions), sessions)
      ensures wire == old(wire) + heard && Told(asked, inst[s], heard)
    {
      Repoint(s, k);
      heard := SessionAttach(s, k, fails);
    }

    /** handle_new */
    method HandleNew(k: int, name: string, spawned: bool, fails: set<int>) returns (ghost o: Outcome)
      requires Valid() && 0 <= k < |clients| && clients[k].inUse
      modifies `sessions, `clients, `wire, `asked, `inst, `next
      ensures Valid() && Answers(old(Now()), k, New(name, spawned, fails), o)
      ensures Now() == After(Asked(old(Now()), old(conn)[k], New(name, spawned, fails)), o)
    {
      ghost var a := Shot();
      var s := NewSession(name, spawned);
      if s == NONE {
        o := Refuse(k, fails);
      } else {
        BookedNew(a, Shot(), s, name);
        o := Bind(s, k, fails);
      }
    }

    /** An error is sent. */
    method Refuse(k: int, fails: set<int>) returns (ghost o: Outcome)
      requires Valid() && 0 <= k < |clients|
      modifies `sessions, `clients
      ensures Valid() && o.heard == [] && o.dropped <= fails + {k} && Now() == After(old(Now()), o)
    {
      ghost var a := Shot();
      Send(k, k !in fails);
      o := Outcome(Dropped(a.clients, clients), []);
      BookedOutput(a, Shot(), [], fails + {k});
    }

    method Bind(s: int, k: int, fails: set<int>) returns (ghost o: Outcome)
      requires Valid() && 0 <= s < |sessions| && sessions[s].inUse && 0 <= k < |clients| && clients[k].inUse
      modifies `sessions, `clients, `wire, `asked
      ensures Valid() && o.dropped <= fails + {k} && Told(asked, inst[s], o.heard)
      ensures Now() == After(old(Now()).(asked := old(asked)[conn[k] := inst[s]]), o)
    {
      ghost var a := Shot();
      ghost var heard := Join(s, k, fails);
      o := Outcome(Dropped(a.clients, clients), heard);
      LinesLeft(a.clients, clients, conn, fails + {k});
      RoomsSame(a.sessions, sessions, inst);
    }

    /** handle_attach: only ever to the session of that name. */
    method HandleAttach(k: int, name: string, fails: set<int>) returns (ghost o: Outcome)
      requires Valid() && 0 <= k < |clients| && clients[k].inUse
      modifies `sessions, `clients, `wire, `asked
      ensures Valid() && Answers(old(Now()), k, Attach(name, fails), o)
      ensures Now() == After(Asked(old(Now()), old(conn)[k], Attach(name, fails)), o)
    {
      var s := Find(name);
      if s == NONE {
        o := Refuse(k, fails);
      } else {
        o := Bind(s, k, fails);
      }
    }

    /** MSG_DETACH */
    method HandleDetach(k: int)
      requires Valid() && 0 <= k < |clients| && clients[k].inUse
      modifies `sessions, `clients, `asked
      ensures Valid() && clients[k] == Client(true, NONE) && Now() == Asked(old(Now()), conn[k], Detach)
    {
      assert Follows(clients[k], conn[k], inst, asked);
      if clients[k].attached != NONE {
        Unpoint(k);
        RoomsSame(old(sessions), sessions, inst);
        LinesLeft(old(clients), clients, conn, {});
      }
    }

    method Unpoint(k: int)
      requires Valid() && 0 <= k < |clients| && clients[k].inUse && clients[k].attached != NONE
      modifies `sessions, `clients, `asked
      ensures Valid() && clients[k] == Client(true, NONE) && asked == old(asked) - {conn[k]}
      ensures Thinned(old(clients), clients, {}) && SameRooms(old(sessions), sessions)
    {
      assert Almost(k);
      TakeOff(k);
      GoodSlot(Shot(), k, Client(true, NONE), asked - {conn[k]});
      clients := clients[k := Client(true, NONE)];
      asked := asked - {conn[k]};
    }

    /** handle_kill: every client of the session is disconnected, then the asker hears the new list. */
    method HandleKill(k: int, name: string, ok: bool) returns (ghost o: Outcome)
      requires Valid() && 0 <= k < |clients| && clients[k].inUse
      modifies `sessions, `clients
      ensures Valid() && Answers(old(Now()), k, Kill(name, ok), o)
      ensures Now() == After(Asked(old(Now()), conn[k], Kill(name, ok)), o)
    {
      var s := Find(name);
      ghost var a, but := Shot(), if ok then {} else {k};
      if s == NONE {
        Send(k, ok);
        o := Outcome(Dropped(a.clients, clients), []);
        BookedOutput(a, Shot(), [], but);
      } else {
        EndSession(s, k, ok);
        o := Outcome(Dropped(a.clients, clients), []);
        BookedEnd(a, Shot(), s, [], but);
      }
    }

    method EndSession(s: int, k: int, ok: bool)
      requires Valid() && 0 <= s < |sessions| && sessions[s].inUse && 0 <= k < |clients|
      modifies `sessions, `clients
      ensures Valid() && SameRooms(old(sessions)[s := old(sessions)[s].(inUse := false)], sessions)
      ensures Thinned(old(clients), clients,
        (if ok then {} else {k}) + set j | 0 <= j < |clients| && Member(old(clients), s, j))
      ensures forall j :: Member(old(clients), s, j) ==> !clients[j].inUse
    {
      FreeSlot(s);
      Send(k, ok);
    }

    /** The last pane's child is gone. */
    method ChildExit(s: int, fails: set<int>) returns (ghost o: Outcome)
      requires Valid() && 0 <= s < |sessions| && sessions[s].inUse
      modifies `sessions, `clients, `wire
      ensures Valid() && Proper(old(Now()), Exit(s, fails), o) && Now() == Step(old(Now()), Exit(s, fails), o)
    {
      ghost var a := Shot();
      ghost var heard := LastWords(s, fails);
      o := Outcome(Dropped(a.clients, clients), heard);
      BookedEnd(a, Shot(), s, heard, fails);
    }

    method LastWords(s: int, fails: set<int>) returns (ghost heard: seq<Delivery>)
      requires Valid() && 0 <= s < |sessions| && sessions[s].inUse
      modifies `sessions, `clients, `wire
      ensures Valid() && wire == old(wire) + heard && Told(asked, inst[s], heard)
      ensures SameRooms(old(sessions)[s := old(sessions)[s].(inUse := false)], sessions)
      ensures Thinned(old(clients), clients, fails + set j | 0 <= j < |clients| && Member(old(clients), s, j))
      ensures forall j :: Member(old(clients), s, j) ==> !clients[j].inUse
    {
      heard := Broadcast(s, fails);
      FreeSlot(s);
    }

    /** Output of a session in use. */
    method Speak(s: int, fails: set<int>) returns (ghost o: Outcome)
      requires Valid() && 0 <= s < |sessions| && sessions[s].inUse
      modifies `sessions, `clients, `wire
      ensures Valid() && Proper(old(Now()), Output(s, fails), o) && Now() == Step(old(Now()), Output(s, fails), o)
    {
      ghost var a := Shot();
      ghost var heard := Broadcast(s, fails);
      o := Outcome(Dropped(a.clients, clients), heard);
      BookedOutput(a, Shot(), heard, fails);
      BookedReached(a, Shot(), s, o);
    }

    /** MSG_STDIN_DATA: what a connection types goes to the session it asked for, and nowhere if it is detached. */
    method StdinData(k: int, data: seq<byte>) returns (s: int)
      requires Valid() && 0 <= k < |clients| && clients[k].inUse
      modifies `typed
      ensures Valid() && Now() == Asked(old(Now()), conn[k], Stdin(data))
      ensures s == NONE <==> conn[k] !in asked
      ensures s != NONE ==> 0 <= s < |sessions| && sessions[s].inUse && asked[conn[k]] == inst[s]
    {
      assert Follows(clients[k], conn[k], inst, asked);
      s := clients[k].attached;
      assert s != NONE ==> InTable(sessions, s, k);
      if s != NONE {
        typed := typed + [Input(conn[k], inst[s], data)];
      }
    }

    /** Any run of events: what the tables relay is what the connections asked for, told apart by numbers. */
    method Play(events: seq<Event>) returns (ghost os: seq<Outcome>)
      requires Valid()
      modifies this
      ensures Valid() && |os| == |events| && AllProper(old(Now()), events, os)
      ensures Now() == Run(old(Now()), events, os)
    {
      os := [];
      for i := 0 to |events|
        invariant Valid() && |os| == i && AllProper(old(Now()), events[..i], os)
        invariant Now() == Run(old(Now()), events[..i], os)
      {
        ghost var o := Handle(events[i]);
        OneMore(old(Now()), events, i, os, o);
        os := os + [o];
      }
      assert events[..|events|] == events;
    }

    method Handle(e: Event) returns (ghost o: Outcome)
      requires Valid()
      modifies this
      ensures Valid() && Proper(old(Now()), e, o) && Now() == Step(old(Now()), e, o)
    {
      match e {
        case Connect(loopOk) => o := Enter(loopOk);
        case Output(s, fails) =>
          if 0 <= s < |sessions| && sessions[s].inUse {
            o := Speak(s, fails);
            return;
          }
          NothingThere(Now(), e);
          o := QUIET;
        case Exit(s, fails) =>
          if 0 <= s < |sessions| && sessions[s].inUse {
            o := ChildExit(s, fails);
            return;
          }
          NothingThere(Now(), e);
          o := QUIET;
        case Request(k, r) =>
          if 0 <= k < |clients| && clients[k].inUse {
            o := Serve(k, r);
            return;
          }
          NothingThere(Now(), e);
          o := QUIET;
      }
    }

    method Enter(loopOk: bool) returns (ghost o: Outcome)
      requires Valid()
      modifies `clients, `conn, `next
      ensures Valid() && Proper(old(Now()), Connect(loopOk), o) && Now() == Step(old(Now()), Connect(loopOk), o)
    {
      ghost var a := Shot();
      var k := Accept(loopOk);
      o := QUIET;
      if k == NONE {
        NothingThere(Seen(a), Connect(loopOk));
      } else {
        BookedConnect(a, Shot(), k, loopOk);
      }
    }

    method Serve(k: int, r: Ask) returns (ghost o: Outcome)
      requires Valid() && 0 <= k < |clients| && clients[k].inUse
      modifies this
      ensures Valid() && Answers(old(Now()), k, r, o) && Now() == After(Asked(old(Now()), old(conn)[k], r), o)
    {
      match r {
        case New(name, spawned, fails) => o := HandleNew(k, name, spawned, fails);
        case Attach(name, fails) => o := HandleAttach(k, name, fails);
        case Detach =>
          HandleDetach(k);
          AfterQuiet(Now());
          o := QUIET;
        case Kill(name, ok) => o := HandleKill(k, name, ok);
        case Stdin(data) =>
          var _ := StdinData(k, data);
          AfterQuiet(Now());
          o := QUIET;
        case HangUp => o := HandleHangUp(k);
      }
    }

    method HandleHangUp(k: int) returns (ghost o: Outcome)
      requires Valid() && 0 <= k < |clients| && clients[k].inUse
      modifies `sessions, `clients
      ensures Valid() && o == Outcome({k}, []) && Now() == After(old(Now()), o)
    {
      ghost var a := Shot();
      assert Almost(k);
      Disconnect(k);
      o := Outcome({k}, []);
      assert Dropped(a.clients, clients) == {k};
      BookedOutput(a, Shot(), [], {k});
    }
  }

  /** An entry nulled, its client is the only one that may be missing. */
  lemma NullListed(cs: seq<Client>, ss: seq<Sess>, s: int, i: int)
    requires Shape(cs, ss) && Named(cs, ss) && Listed(cs, ss, NONE) && 0 <= s < |ss| && 0 <= i < |ss[s].clients|
    ensures var ts := Put(ss, s, ss[s].clients[i := NONE]);
      Shape(cs, ts) && Named(cs, ts) && Listed(cs, ts, ss[s].clients[i]) && Fewer(cs, ss, cs, ts)
  {
    var ts := Put(ss, s, ss[s].clients[i := NONE]);
    var k := ss[s].clients[i];
    forall j | 0 <= j < |cs| && j != k && cs[j].inUse && cs[j].attached != NONE
      ensures InTable(ts, cs[j].attached, j)
    {
      assert InTable(ss, cs[j].attached, j);
      if cs[j].attached == s {
        var m :| 0 <= m < |ss[s].clients| && ss[s].clients[m] == j;
        assert ts[s].clients[m] == j;
      }
    }
    assert FewerIn(ss[s], ts[s]);
  }

  lemma EnterTable(cs: seq<Client>, ss: seq<Sess>, s: int, i: int, k: int)
    requires Shape(cs, ss) && Named(cs, ss) && Listed(cs, ss, k) && 0 <= s < |ss| && 0 <= i < |ss[s].clients|
    requires ss[s].inUse && ss[s].clients[i] == NONE && Member(cs, s, k) && NamesDistinct(ss)
    ensures var ts := Put(ss, s, ss[s].clients[i := k]);
      Shape(cs, ts) && Named(cs, ts) && Listed(cs, ts, NONE) && NamesDistinct(ts)
  {
    var ts := Put(ss, s, ss[s].clients[i := k]);
    forall j | 0 <= j < |cs| && cs[j].inUse && cs[j].attached != NONE
      ensures InTable(ts, cs[j].attached, j)
    {
      if j == k {
        assert ts[s].clients[i] == k;
      } else {
        assert InTable(ss, cs[j].attached, j);
        if cs[j].attached == s {
          var m :| 0 <= m < |ss[s].clients| && ss[s].clients[m] == j;
          assert ts[s].clients[m] == j;
        }
      }
    }
  }

  /** A session whose table is empty has no client left that points at it. */
  lemma NobodyLeft(cs: seq<Client>, ss: seq<Sess>, s: int)
    requires Shape(cs, ss) && Named(cs, ss) && Listed(cs, ss, NONE) && NamesDistinct(ss) && 0 <= s < |ss|
    requires forall i :: 0 <= i < |ss[s].clients| ==> ss[s].clients[i] == NONE
    ensures forall k :: !Member(cs, s, k)
    ensures var ts := ss[s := ss[s].(inUse := false)];
      Shape(cs, ts) && Named(cs, ts) && Listed(cs, ts, NONE) && NamesDistinct(ts)
  {
    forall k | 0 <= k < |cs|
      ensures !Member(cs, s, k)
    {
    }
    var ts := ss[s := ss[s].(inUse := false)];
    forall j | 0 <= j < |cs| && cs[j].inUse && cs[j].attached != NONE
      ensures InTable(ts, cs[j].attached, j)
    {
      assert InTable(ss, cs[j].attached, j);
      assert !Member(cs, s, j);
    }
  }
}
