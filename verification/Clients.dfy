/** What clients of a composited session show (src/daemon/session.c, session_composite_one and session_attach): every
    client has its own history of frames, and only the session as a whole has damage. */
module Clients {
  import opened Bytes
  import opened Picture
  import opened Composite

  /** The runs a client was sent since its screen was last cleared, and the scenes they were made from: the first one
      in full, of every later one the dirty rows. */
  datatype Client = Client(sent: seq<Run>, scenes: seq<Scene>)

  function Last(c: Client): Scene
    requires c.scenes != []
  {
    c.scenes[|c.scenes| - 1]
  }

  /** No frame of dirty rows was sent, or none overran its pane or another one on this screen line. */
  ghost predicate Trusted(c: Client, py: int) {
    |c.scenes| == 1 || forall j :: 0 <= j < |c.scenes| ==> Drawable(c.scenes[j], py)
  }

  /** On every line that can be trusted, the client's picture is that of a full repaint of the scene. */
  ghost predicate Shows(c: Client, s: Scene) {
    forall py :: Trusted(c, py) ==> Pictured(c.sent, s, py)
  }

  /** The client shows the scene it was sent last, and rows not reported dirty now are as they were in it. */
  ghost predicate Synced(c: Client, now: Scene) {
    c.scenes != [] && Since(Last(c), now) && Shows(c, Last(c))
  }

  ghost function SentFrame(c: Client, frame: seq<Run>, full: bool, now: Scene): Client {
    if full then Client(frame, [now]) else Client(c.sent + frame, c.scenes + [now])
  }

  /** Whichever kind of frame is sent, the client then shows a full repaint. */
  lemma FrameShows(c: Client, s: Scene, full: bool)
    requires !full ==> Synced(c, s)
    ensures Shows(SentFrame(c, Frame(s, full), full, s), s)
  {
    if !full {
      forall py | Trusted(SentFrame(c, Frame(s, false), false, s), py)
        ensures Pictured(c.sent + Frame(s, false), s, py)
      {
        TrustedBefore(c, s, py);
        PartialIsFull(Last(c), s, c.sent, py);
      }
    }
  }

  lemma TrustedBefore(c: Client, s: Scene, py: int)
    requires c.scenes != [] && Trusted(SentFrame(c, Frame(s, false), false, s), py)
    ensures Trusted(c, py) && Drawable(Last(c), py) && Drawable(s, py)
  {
    var all := c.scenes + [s];
    assert all[|c.scenes|] == s;
    forall j | 0 <= j < |c.scenes|
      ensures Drawable(c.scenes[j], py)
    {
      assert all[j] == c.scenes[j];
    }
  }

  /** A view as the session keeps it: reflowed with room for every divider, or zoomed into one of panes with ids of
      their own. */
  ghost predicate Settled(s: Scene) {
    if s.zoomed == NO_ZOOM then exists t, cols, rows :: LaidOut(s, t, cols, rows)
    else forall i, j :: Visible(s, i) && Visible(s, j) && s.panes[i].value.id == s.panes[j].value.id ==> i == j
  }

  /** In a settled view every line whose rows take exactly their pane's columns can be trusted. */
  lemma SettledTrusted(c: Client, py: int)
    requires forall j :: 0 <= j < |c.scenes| ==> Settled(c.scenes[j]) && ExactAt(c.scenes[j], py)
    ensures Trusted(c, py)
  {
    forall j | 0 <= j < |c.scenes|
      ensures Drawable(c.scenes[j], py)
    {
      var s := c.scenes[j];
      assert Settled(s) && ExactAt(s, py);
      SettledApart(s, py);
    }
  }

  lemma SettledApart(s: Scene, py: int)
    requires Settled(s)
    ensures ApartAt(s, py)
  {
    if s.zoomed == NO_ZOOM {
      var t, cols, rows :| LaidOut(s, t, cols, rows);
      LaidOutApart(s, t, cols, rows, py);
    } else {
      ZoomedApart(s, py);
    }
  }

  ghost predicate AllSettled(clients: map<nat, Client>) {
    forall k :: k in clients ==> SettledSince(clients[k])
  }

  ghost predicate SettledSince(c: Client) {
    forall j :: 0 <= j < |c.scenes| ==> Settled(c.scenes[j])
  }

  /** All rows on the line were of exact width since the client's last full frame. */
  ghost predicate ExactSince(c: Client, py: int) {
    forall j :: 0 <= j < |c.scenes| ==> ExactAt(c.scenes[j], py)
  }

  lemma AllTrusted(clients: map<nat, Client>)
    requires AllSettled(clients)
    ensures forall k, py :: k in clients && ExactSince(clients[k], py) ==> Trusted(clients[k], py)
  {
    forall k, py | k in clients && ExactSince(clients[k], py)
      ensures Trusted(clients[k], py)
    {
      assert SettledSince(clients[k]);
      SettledTrusted(clients[k], py);
    }
  }

  lemma JoinSettled(clients: map<nat, Client>, k: nat, c: Client)
    requires AllSettled(clients) && SettledSince(c)
    ensures AllSettled(clients[k := c])
  {
  }

  lemma SentSettled(clients: map<nat, Client>, frame: seq<Run>, full: bool, now: Scene)
    requires AllSettled(clients) && Settled(now)
    ensures AllSettled(SentAll(clients, frame, full, now))
  {
    var sent := SentAll(clients, frame, full, now);
    forall k | k in sent
      ensures SettledSince(sent[k])
    {
      assert SettledSince(clients[k]);
    }
  }

  /** A scene with the same cells asks for the same picture. */
  lemma ShowsSame(c: Client, s: Scene, t: Scene)
    requires Shows(c, s) && SameScene(s, t)
    ensures Shows(c, t)
  {
    FullIgnoresDamage(s, t);
  }

  // ---- all clients of a session ----

  ghost function SentAll(clients: map<nat, Client>, frame: seq<Run>, full: bool, now: Scene): map<nat, Client> {
    map k | k in clients :: SentFrame(clients[k], frame, full, now)
  }

  ghost predicate AllSynced(clients: map<nat, Client>, now: Scene) {
    forall k :: k in clients ==> Synced(clients[k], now)
  }

  ghost predicate AllShow(clients: map<nat, Client>, s: Scene) {
    forall k :: k in clients ==> Shows(clients[k], s)
  }

  /** One frame to everybody: all show a full repaint, and they stay in step with the scene once damage is cleared. */
  lemma SentAllShow(clients: map<nat, Client>, s: Scene, full: bool, cleared: Scene)
    requires !full ==> AllSynced(clients, s)
    requires SameScene(s, cleared)
    ensures AllShow(SentAll(clients, Frame(s, full), full, s), cleared)
    ensures AllSynced(SentAll(clients, Frame(s, full), full, s), cleared)
  {
    forall k | k in clients
      ensures Shows(SentFrame(clients[k], Frame(s, full), full, s), cleared)
      ensures Synced(SentFrame(clients[k], Frame(s, full), full, s), cleared)
    {
      FrameShows(clients[k], s, full);
      ShowsSame(SentFrame(clients[k], Frame(s, full), full, s), s, cleared);
    }
  }

  // ---- nothing to send ----

  ghost predicate Undamaged(s: Scene) {
    forall i :: 0 <= i < |s.panes| && s.panes[i].Some? ==> s.panes[i].value.dirty == {}
  }

  /** Without damage nothing has to be sent: every client in step shows a full repaint already. */
  lemma UndamagedShown(clients: map<nat, Client>, s: Scene)
    requires AllSynced(clients, s) && Undamaged(s)
    ensures AllShow(clients, s)
  {
    forall k | k in clients
      ensures Shows(clients[k], s)
    {
      ShowsSame(clients[k], Last(clients[k]), s);
    }
  }

  // ---- output of a pane ----

  /** A pane that was fed: every row that changed is dirty, and no dirty row became clean. */
  ghost predicate Fed(before: Option<PaneView>, after: Option<PaneView>) {
    SincePane(before, after) &&
    (after.Some? ==> forall r :: 0 <= r < |after.value.grid| && r in before.value.dirty ==> r in after.value.dirty)
  }

  ghost predicate FedScene(s: Scene, t: Scene) {
    && s.ns == t.ns && s.zoomed == t.zoomed && |s.panes| == |t.panes|
    && forall i :: 0 <= i < |s.panes| ==> Fed(s.panes[i], t.panes[i])
  }

  /** Output of any pane leaves every client in step, however long ago its last frame was. */
  lemma FedStillSynced(clients: map<nat, Client>, s: Scene, t: Scene)
    requires AllSynced(clients, s) && FedScene(s, t)
    ensures AllSynced(clients, t)
  {
    forall k | k in clients
      ensures Synced(clients[k], t)
    {
    }
  }
}
