/** A session's view over its whole life (src/daemon/session.c): panes print, the layout changes, clients come and go,
    and now and then one frame goes to everybody. */
module Views {
  import opened Bytes
  import opened SplitTree
  import opened Layout
  import opened Picture
  import opened Composite
  import opened Clients
  import opened Repaint
  import opened Screen
  import opened Compositor
  import opened Plans

  /** A client of a session with one pane: what it shows is that pane's raw output. */
  const UNSEEN := Client([], [])

  ghost predicate AllUnseen(clients: map<nat, Client>) {
    forall k :: k in clients ==> clients[k] == UNSEEN
  }

  /** A table of n slots with one pane. */
  function Alone(pane: Slot, n: nat): (slots: seq<Slot>)
    requires pane.Live? && n > 0
    ensures |slots| == n && slots[0] == pane && forall i :: 0 < i < n ==> slots[i].Free?
    ensures Engines(slots) == {pane.vt} && Parsers(slots) == {pane.machine} && Distinct(slots)
  {
    var slots := [pane] + seq(n - 1, i => Free);
    assert slots[0] == pane;
    slots
  }

  function Places(slots: seq<Slot>): seq<Option<Place>> {
    seq(|slots|, i requires 0 <= i < |slots| =>
      if slots[i].Live? then Some(Place(slots[i].id, slots[i].rect)) else None)
  }

  lemma {:induction false} PlacesCount(slots: seq<Slot>)
    ensures Count(Places(slots)) == LiveCount(slots)
  {
    if |slots| > 0 {
      var n := |slots| - 1;
      assert Places(slots)[..n] == Places(slots[..n]);
      PlacesCount(slots[..n]);
    }
  }

  lemma PlacesMoved(slots: seq<Slot>, rects: seq<Rect>)
    requires |rects| == |slots|
    ensures Places(Moved(slots, rects, |rects|)) == Shifted(Places(slots), rects)
  {
  }

  lemma PlacesPut(slots: seq<Slot>, i: nat, sl: Slot)
    requires i < |slots|
    ensures Places(slots[i := sl]) ==
      Places(slots)[i := if sl.Live? then Some(Place(sl.id, sl.rect)) else None]
  {
  }

  lemma WidenedPlan(slots: seq<Slot>, i: nat, sl: Slot, rects: seq<Rect>)
    requires |rects| == |slots| && i < |slots| && sl.Live?
    ensures Places(Moved(slots[i := sl], rects, |rects|)) ==
      Shifted(Places(slots)[i := Some(Place(sl.id, sl.rect))], rects)
  {
    PlacesPut(slots, i, sl);
    PlacesMoved(slots[i := sl], rects);
  }

  lemma NarrowedPlan(slots: seq<Slot>, i: nat, rects: seq<Rect>)
    requires |rects| == |slots| && i < |slots| && slots[i].Live?
    ensures Places(Moved(slots[i := Free], rects, |rects|)) == Shifted(Places(slots)[i := None], rects)
    ensures Places(slots)[i].Some? && Count(Places(slots)) == LiveCount(slots)
  {
    PlacesCount(slots);
    PlacesPut(slots, i, Free);
    PlacesMoved(slots[i := Free], rects);
  }

  /** A settled plan makes a settled scene. */
  lemma PlanSettles(ns: seq<Node>, slots: seq<Slot>, zoomed: nat)
    requires Sane(slots) && SettledPlan(Plan(ns, zoomed, Places(slots)))
    ensures Settled(SceneNow(ns, slots, zoomed))
  {
    var p, s := Plan(ns, zoomed, Places(slots)), SceneNow(ns, slots, zoomed);
    if zoomed == NO_ZOOM {
      var t, cols, rows :| Roomed(p, t, cols, rows);
      forall i | 0 <= i < |s.panes| && s.panes[i].Some?
        ensures i in Panes(t) && s.panes[i].value.rect == LeafRect(t, ViewRect(cols, rows), i)
      {
        assert p.places[i].Some?;
      }
      assert LaidOut(s, t, cols, rows);
    } else {
      forall i, j | Visible(s, i) && Visible(s, j) && s.panes[i].value.id == s.panes[j].value.id
        ensures i == j
      {
        assert SameId(p, i, j);
      }
    }
  }

  /** The run ends with a frame. */
  predicate Framed(events: seq<Event>) {
    |events| > 0 && events[|events| - 1] == Tick
  }

  class View {
    const width: nat -> nat
    const combining: nat -> bool
    var ns: seq<Node>
    var slots: seq<Slot>
    var zoomed: nat
    var layoutDirty: bool
    var attached: set<nat>
    ghost var clients: map<nat, Client>

    ghost function Scenery(): Scene
      requires Sane(slots)
      reads this, Engines(slots)
    {
      SceneNow(ns, slots, zoomed)
    }

    ghost function Planned(): Plan
      reads this
    {
      Plan(ns, zoomed, Places(slots))
    }

    /** session_should_composite */
    predicate Composites()
      reads this
    {
      LiveCount(slots) >= 2
    }

    /** Unless a full repaint is due, every client of a composited session is in step with the panes. */
    ghost predicate Valid()
      reads this, Engines(slots), Parsers(slots)
    {
      Fit() && (Composites() && !layoutDirty ==> AllSynced(clients, Scenery()))
    }

    /** All but what clients show. */
    ghost predicate Fit()
      reads this, Engines(slots), Parsers(slots)
    {
      && Tables(width, combining) && Sane(slots) && ParsersSane(slots) && Distinct(slots)
      && clients.Keys == attached
    }

    constructor (width: nat -> nat, combining: nat -> bool, ns: seq<Node>, n: nat, rect: Rect)
      requires Tables(width, combining) && n > 0
      ensures Valid() && attached == {} && !layoutDirty && zoomed == NO_ZOOM && this.ns == ns && |slots| == n
      ensures slots[0].Live? && slots[0].id == 0 && slots[0].rect == rect && slots == Alone(slots[0], n)
      ensures fresh(Engines(slots)) && fresh(Parsers(slots))
    {
      this.width, this.combining, this.ns := width, combining, ns;
      var first := NewPane(0, rect, width, combining);
      slots := Alone(first, n);
      zoomed, layoutDirty, attached, clients := NO_ZOOM, false, {}, map[];
    }

    /** pane_pty_readable: output reaches the pane's engine; nothing is sent yet. */
    method Feed(i: nat, data: seq<byte>)
      requires Valid() && i < |slots| && slots[i].Live?
      modifies slots[i].vt, slots[i].machine
      ensures Valid() && FedScene(old(Scenery()), Scenery())
      ensures slots[i].machine.fed == old(slots[i].machine.fed) + data
    {
      ghost var s := Scenery();
      FeedSlot(slots, i, data);
      if Composites() && !layoutDirty {
        FedStillSynced(clients, s, Scenery());
      }
    }

    /** session_apply_layout: engines follow their rectangles, and a full repaint is due. */
    method Rearrange(ns: seq<Node>, rects: seq<Rect>, zoomed: nat)
      requires Fit() && |rects| == |slots|
      modifies `ns, `slots, `zoomed, `layoutDirty, Engines(slots)
      ensures Valid() && layoutDirty && this.ns == ns && this.zoomed == zoomed &&
        slots == Moved(old(slots), rects, |rects|)
      ensures Engines(slots) == old(Engines(slots)) && Parsers(slots) == old(Parsers(slots))
    {
      ResizeAll(slots, rects);
      Move(rects);
      layoutDirty, this.ns, this.zoomed := true, ns, zoomed;
    }

    /** session_resize with one pane: it takes the new size, and what clients show is its raw output anyway. */
    method ResizeSingle(rects: seq<Rect>)
      requires Valid() && !Composites() && |rects| == |slots|
      modifies `slots, Engines(slots)
      ensures Valid() && !Composites() && slots == Moved(old(slots), rects, |rects|)
      ensures Engines(slots) == old(Engines(slots)) && Parsers(slots) == old(Parsers(slots))
    {
      ResizeAll(slots, rects);
      SameCount(slots, Moved(slots, rects, |rects|));
      Move(rects);
    }

    method Move(rects: seq<Rect>)
      requires Fit() && |rects| == |slots|
      modifies `slots
      ensures Fit() && slots == Moved(old(slots), rects, |rects|)
      ensures Engines(slots) == old(Engines(slots)) && Parsers(slots) == old(Parsers(slots))
    {
      MovedSame(slots, rects, |rects|);
      slots := Moved(slots, rects, |rects|);
    }

    /** session_split, once the layout has room: a new pane in a free slot */
    method Open(i: nat, id: nat, ns: seq<Node>, rects: seq<Rect>)
      requires Fit() && |rects| == |slots| && i < |slots| && slots[i].Free?
      modifies `ns, `slots, `zoomed, `layoutDirty, Engines(slots)
      ensures Valid() && layoutDirty && this.ns == ns && zoomed == NO_ZOOM && |slots| == |old(slots)|
      ensures slots[i].Live? && slots[i].id == id && slots[i].rect == rects[i] && fresh(slots[i].vt) &&
        fresh(slots[i].machine)
      ensures slots == Moved(old(slots)[i := slots[i]], rects, |rects|)
      ensures Engines(slots) == old(Engines(slots)) + {slots[i].vt} &&
        Parsers(slots) == old(Parsers(slots)) + {slots[i].machine}
    {
      Place(i, id, rects[i]);
      ghost var placed := slots;
      Rearrange(ns, rects, NO_ZOOM);
      assert slots[i] == placed[i] && placed == old(slots)[i := slots[i]];
    }

    /** A pane of its own in the slot. */
    method Place(i: nat, id: nat, rect: Rect)
      requires Fit() && i < |slots| && slots[i].Free?
      modifies `slots
      ensures Fit() && |slots| == |old(slots)| && slots == old(slots)[i := slots[i]]
      ensures slots[i].Live? && slots[i].id == id && slots[i].rect == rect && fresh(slots[i].vt) &&
        fresh(slots[i].machine)
      ensures Engines(slots) == old(Engines(slots)) + {slots[i].vt} &&
        Parsers(slots) == old(Parsers(slots)) + {slots[i].machine}
    {
      var pane := NewPane(id, rect, width, combining);
      assert Fit();
      Insert(i, pane);
    }

    method Insert(i: nat, pane: Slot)
      requires Fit() && i < |slots| && slots[i].Free?
      requires pane.Live? && pane.vt.Valid() && pane.machine.Valid()
      requires pane.vt !in Engines(slots) && pane.machine !in Parsers(slots)
      modifies `slots
      ensures Fit() && slots == old(slots)[i := pane]
      ensures Engines(slots) == old(Engines(slots)) + {pane.vt} &&
        Parsers(slots) == old(Parsers(slots)) + {pane.machine}
    {
      PutIn(slots, i, pane);
      slots := slots[i := pane];
    }

    /** session_close_pane, which drops the zoom, and session_pane_reaped, which keeps it, with other panes left: down
        to one pane, compositing ends. */
    method Shut(i: nat, ns: seq<Node>, rects: seq<Rect>, zoomed: nat)
      requires Fit() && |rects| == |slots| && i < |slots| && slots[i].Live?
      modifies `ns, `slots, `zoomed, `layoutDirty, `clients, Engines(slots)
      ensures Valid() && this.ns == ns && this.zoomed == zoomed && slots == Moved(old(slots)[i := Free], rects, |rects|)
      ensures layoutDirty == Composites() && (clients == old(clients) || AllUnseen(clients))
      ensures Engines(slots) <= old(Engines(slots)) && Parsers(slots) <= old(Parsers(slots))
    {
      Clear(i);
      Rearrange(ns, rects, zoomed);
      if !Composites() {
        LeaveComposite();
      }
    }

    method Clear(i: nat)
      requires Fit() && i < |slots| && slots[i].Live?
      modifies `slots
      ensures Fit() && slots == old(slots)[i := Free]
      ensures Engines(slots) <= old(Engines(slots)) && Parsers(slots) <= old(Parsers(slots))
    {
      TakeOut(slots, i);
      slots := slots[i := Free];
    }

    /** session_leave_composite: the survivor is shown in full to all, and damage starts anew. */
    method LeaveComposite()
      requires Valid() && !Composites()
      modifies `layoutDirty, `clients, Engines(slots)`dirty, Engines(slots)`dirtyAll, Engines(slots)`shadow
      ensures Valid() && !layoutDirty && AllUnseen(clients)
    {
      layoutDirty := false;
      clients := map k | k in clients :: UNSEEN;
      ClearScene(ns, slots, zoomed);
    }

    /** session_select_pane moved the focus: a full frame re-arms the input modes. */
    method Select()
      requires Valid()
      modifies `layoutDirty
      ensures Valid() && layoutDirty == (old(layoutDirty) || Composites())
    {
      layoutDirty := layoutDirty || LiveCount(slots) >= 2;
    }

    /** session_attach: at two panes or more the newcomer alone gets a full frame. Damage is not cleared and no repaint
        is due for it, so the others stay in step as they were. */
    method Join(k: nat) returns (frame: seq<Run>)
      requires Valid() && k !in attached
      modifies `attached, `clients
      ensures Valid() && attached == old(attached) + {k}
      ensures Composites() ==> frame == Frame(Scenery(), true)
      ensures clients == old(clients)[k := old(Newcomer())] && (Composites() ==> clients[k].sent == frame)
      ensures Composites() ==> Shows(clients[k], Scenery())
    {
      frame := [];
      if Composites() {
        frame := CompositeFrame(ns, slots, zoomed, true);
        JoinsSynced(clients, k, Scenery(), layoutDirty);
        assert Scenery() == old(Scenery());
      }
      Enter(k, Newcomer());
    }

    /** A newcomer is entered in the table. */
    method Enter(k: nat, ghost newcomer: Client)
      requires Valid() && k !in attached && (Composites() ==> Synced(newcomer, Scenery()))
      modifies `attached, `clients
      ensures Valid() && attached == old(attached) + {k} && clients == old(clients)[k := newcomer]
      ensures Scenery() == old(Scenery())
    {
      ghost var s := Scenery();
      attached, clients := attached + {k}, clients[k := newcomer];
      assert Scenery() == s;
    }

    /** session_detach */
    method Leave(k: nat)
      requires Valid()
      modifies `attached, `clients
      ensures Valid() && attached == old(attached) - {k} && clients == old(clients) - {k}
    {
      attached, clients := attached - {k}, clients - {k};
    }

    /** session_composite_one: one frame for everybody, in full when the layout changed, else the dirty rows. Then every
        client, whenever it attached, shows what a full repaint would, and damage is cleared. */
    method CompositeOne() returns (frame: seq<Run>)
      requires Valid() && Composites()
      modifies `layoutDirty, `clients, Engines(slots)`dirty, Engines(slots)`dirtyAll, Engines(slots)`shadow
      ensures Valid() && !layoutDirty && SameScene(old(Scenery()), Scenery()) && AllShow(clients, Scenery())
      ensures if old(layoutDirty) || old(SomeDirty(slots))
        then frame == Frame(old(Scenery()), old(layoutDirty)) &&
             clients == SentAll(old(clients), frame, old(layoutDirty), old(Scenery())) && Undamaged(Scenery())
        else frame == [] && clients == old(clients)
    {
      var full := layoutDirty;
      var any := AnyDirty(slots);
      if full || any {
        frame := Broadcast(full);
      } else {
        frame := [];
        UndamagedShown(clients, Scenery());
      }
    }

    /** The frame goes to everybody before damage is cleared, once for all. */
    method Broadcast(full: bool) returns (frame: seq<Run>)
      requires Valid() && Composites() && full == layoutDirty
      modifies `layoutDirty, `clients, Engines(slots)`dirty, Engines(slots)`dirtyAll, Engines(slots)`shadow
      ensures Valid() && !layoutDirty && SameScene(old(Scenery()), Scenery()) && AllShow(clients, Scenery())
      ensures frame == Frame(old(Scenery()), full) && clients == SentAll(old(clients), frame, full, old(Scenery()))
      ensures Undamaged(Scenery())
    {
      ghost var s := Scenery();
      frame := CompositeFrame(ns, slots, zoomed, full);
      ClearScene(ns, slots, zoomed);
      ghost var cleared := SceneNow(ns, slots, zoomed);
      SentAllShow(clients, s, full, cleared);
      Note(SentAll(clients, frame, full, s), cleared);
    }

    /** No repaint is due any more, and the clients are as given. */
    method Note(ghost after: map<nat, Client>, ghost s: Scene)
      requires Tables(width, combining) && Sane(slots) && ParsersSane(slots) && Distinct(slots) &&
        after.Keys == attached
      requires s == Scenery() && AllSynced(after, s)
      modifies `layoutDirty, `clients
      ensures Valid() && !layoutDirty && clients == after && Scenery() == s
    {
      layoutDirty, clients := false, after;
    }

    /** One event; those about a slot or a client that is not there, or is there already, change nothing. */
    method Handle(e: Event)
      requires Valid()
      modifies this, Engines(slots), Parsers(slots)
      ensures Valid() && attached == Attending(old(attached), e) && Planned() == PlanAfter(old(Planned()), e)
      ensures fresh(Engines(slots) - old(Engines(slots))) && fresh(Parsers(slots) - old(Parsers(slots)))
      ensures e == Tick && Composites() ==> AllShow(clients, Scenery())
      ensures AllSettled(old(clients)) && (Crowded(old(Planned())) ==> SettledPlan(old(Planned()))) ==>
        AllSettled(clients)
    {
      match e {
        case Print(i, data) =>
          if i < |slots| && slots[i].Live? {
            Feed(i, data);
          }
        case Attach(k) => Welcome(k);
        case Detach(k) => Leave(k);
        case Tick => Round();
        case _ => HandleLayout(e);
      }
    }

    method Welcome(k: nat)
      requires Valid()
      modifies `attached, `clients
      ensures Valid() && attached == old(attached) + {k}
      ensures AllSettled(old(clients)) && (Crowded(Planned()) ==> SettledPlan(Planned())) ==> AllSettled(clients)
    {
      if k !in attached {
        NewcomerSettled();
        if AllSettled(clients) && SettledSince(Newcomer()) {
          JoinSettled(clients, k, Newcomer());
        }
        var frame := Join(k);
      }
    }

    /** A client that attaches now. */
    ghost function Newcomer(): Client
      requires Sane(slots)
      reads this, Engines(slots)
    {
      if Composites() then Client(Frame(Scenery(), true), [Scenery()]) else UNSEEN
    }

    lemma NewcomerSettled()
      requires Valid()
      ensures (Crowded(Planned()) ==> SettledPlan(Planned())) ==> SettledSince(Newcomer())
    {
      PlacesCount(slots);
      if Composites() && SettledPlan(Planned()) {
        PlanSettles(ns, slots, zoomed);
      }
    }

    method Round()
      requires Valid()
      modifies `layoutDirty, `clients, Engines(slots)`dirty, Engines(slots)`dirtyAll, Engines(slots)`shadow
      ensures Valid() && (Composites() ==> AllShow(clients, Scenery()))
      ensures AllSettled(old(clients)) && (Crowded(Planned()) ==> SettledPlan(Planned())) ==> AllSettled(clients)
    {
      if Composites() {
        PlacesCount(slots);
        if SettledPlan(Planned()) {
          PlanSettles(ns, slots, zoomed);
          if AllSettled(clients) {
            SentSettled(clients, Frame(Scenery(), layoutDirty), layoutDirty, Scenery());
          }
        }
        var frame := CompositeOne();
      }
    }

    method Refit(ns: seq<Node>, rects: seq<Rect>, zoomed: nat)
      requires Valid() && |rects| == |slots|
      modifies `ns, `slots, `zoomed, `layoutDirty, Engines(slots)
      ensures Valid() && Planned() == PlanAfter(old(Planned()), Arrange(ns, rects, zoomed))
      ensures Engines(slots) == old(Engines(slots)) && Parsers(slots) == old(Parsers(slots))
    {
      PlacesCount(slots);
      PlacesMoved(slots, rects);
      if Composites() {
        Rearrange(ns, rects, zoomed);
      } else {
        ResizeSingle(rects);
      }
    }

    method HandleLayout(e: Event)
      requires Valid() && (e.Arrange? || e.Split? || e.Close? || e.Focus?)
      modifies this, Engines(slots)
      ensures Valid() && attached == old(attached) && Planned() == PlanAfter(old(Planned()), e)
      ensures fresh(Engines(slots) - old(Engines(slots))) && fresh(Parsers(slots) - old(Parsers(slots)))
      ensures clients == old(clients) || AllUnseen(clients)
    {
      match e {
        case Arrange(ns, rects, zoomed) =>
          if |rects| == |slots| {
            Refit(ns, rects, zoomed);
          }
        case Split(i, id, ns, rects) =>
          if |rects| == |slots| && i < |slots| && slots[i].Free? {
            Widen(i, id, ns, rects);
          }
        case Close(i, ns, rects, zoomed) =>
          if |rects| == |slots| && i < |slots| && slots[i].Live? {
            Narrow(i, ns, rects, zoomed);
          }
        case Focus => Select();
      }
    }

    method Widen(i: nat, id: nat, ns: seq<Node>, rects: seq<Rect>)
      requires Valid() && |rects| == |slots| && i < |slots| && slots[i].Free?
      modifies `ns, `slots, `zoomed, `layoutDirty, Engines(slots)
      ensures Valid() && Planned() == PlanAfter(old(Planned()), Event.Split(i, id, ns, rects))
      ensures fresh(Engines(slots) - old(Engines(slots))) && fresh(Parsers(slots) - old(Parsers(slots)))
    {
      Open(i, id, ns, rects);
      WidenedPlan(old(slots), i, slots[i], rects);
    }

    method Narrow(i: nat, ns: seq<Node>, rects: seq<Rect>, zoomed: nat)
      requires Valid() && |rects| == |slots| && i < |slots| && slots[i].Live?
      modifies `ns, `slots, `zoomed, `layoutDirty, `clients, Engines(slots)
      ensures Valid() && Planned() == PlanAfter(old(Planned()), Close(i, ns, rects, zoomed))
      ensures Engines(slots) <= old(Engines(slots)) && Parsers(slots) <= old(Parsers(slots))
      ensures clients == old(clients) || AllUnseen(clients)
    {
      NarrowedPlan(slots, i, rects);
      if Composites() {
        Shut(i, ns, rects, zoomed);
      }
    }

    /** Any run of output, layout changes, clients coming and going, and frames: whenever a frame has gone out, every
        attached client shows what a full repaint would, and with it the cells of every pane, each in its column with
        its character, mark, colors and style, and the dividers between them. In an orderly run that is on every line
        whose rows were of exact width. */
    method Play(events: seq<Event>)
      requires Valid()
      modifies this, Engines(slots), Parsers(slots)
      ensures Valid() && attached == AttendingAll(old(attached), events)
      ensures Planned() == PlanAll(old(Planned()), events)
      ensures Framed(events) && Composites() ==> AllShow(clients, Scenery()) && AllHaveCells(clients, Scenery())
      ensures AllSettled(old(clients)) && Orderly(old(Planned()), events) ==>
        && (forall k, py :: k in clients && ExactSince(clients[k], py) ==> Trusted(clients[k], py))
        && (Framed(events) && Composites() ==> AllLinesShown(clients, Scenery()))
    {
      ghost var p := Planned();
      PlayAll(events);
      if AllSettled(clients) {
        AllTrusted(clients);
      }
      if Framed(events) && Composites() {
        AllShowCells(clients, Scenery());
        if AllSettled(clients) && Orderly(p, events) {
          assert events[..|events|] == events;
          CellsShow();
        }
      }
    }

    lemma CellsShow()
      requires Valid() && Composites() && AllShow(clients, Scenery()) && AllSettled(clients)
      requires Crowded(Planned()) ==> SettledPlan(Planned())
      ensures AllLinesShown(clients, Scenery())
    {
      PlacesCount(slots);
      PlanSettles(ns, slots, zoomed);
      SettledCells(clients, Scenery());
    }

    method PlayAll(events: seq<Event>)
      requires Valid()
      modifies this, Engines(slots), Parsers(slots)
      ensures Valid() && attached == AttendingAll(old(attached), events)
      ensures Planned() == PlanAll(old(Planned()), events)
      ensures Framed(events) && Composites() ==> AllShow(clients, Scenery())
      ensures AllSettled(old(clients)) && Orderly(old(Planned()), events) ==> AllSettled(clients)
    {
      ghost var p := Planned();
      for i := 0 to |events|
        invariant Valid() && attached == AttendingAll(old(attached), events[..i]) &&
          Planned() == PlanAll(p, events[..i])
        invariant fresh(Engines(slots) - old(Engines(slots))) && fresh(Parsers(slots) - old(Parsers(slots)))
        invariant i > 0 && events[i - 1] == Tick && Composites() ==> AllShow(clients, Scenery())
        invariant AllSettled(old(clients)) && Orderly(p, events) ==> AllSettled(clients)
      {
        assert events[..i + 1][..i] == events[..i];
        Handle(events[i]);
      }
      assert events[..|events|] == events;
    }

    /** session_apply_layout over the session's own layout: the tree's rectangles, except that a zoomed pane has the
        whole view. */
    method ApplyLayout(lt: PaneLayout, cols: nat, rows: nat, zoomed: nat)
      requires Valid() && lt.Valid() && lt.Current(cols, rows)
      modifies `ns, `slots, `zoomed, `layoutDirty, Engines(slots)
      ensures Valid() && layoutDirty && ns == lt.nodes[..] && this.zoomed == zoomed && |slots| == |old(slots)|
      ensures forall i :: 0 <= i < |slots| && old(slots)[i].Live? ==>
        slots[i] == old(slots)[i].(rect := RectFor(lt.tree, old(slots)[i], i, cols, rows, zoomed))
      ensures zoomed == NO_ZOOM && HasRoom(lt.tree, slots, cols, rows) ==> SettledPlan(Planned())
    {
      var rects := RectsOf(lt, slots, cols, rows, zoomed);
      ghost var nodes, t := lt.nodes[..], lt.tree;
      if zoomed == NO_ZOOM && HasRoom(t, Moved(slots, rects, |rects|), cols, rows) {
        RoomSettles(nodes, t, Moved(slots, rects, |rects|), cols, rows);
      }
      Rearrange(lt.nodes[..], rects, zoomed);
    }
  }

  /** The live panes have leaves, and there is room for every divider. */
  ghost predicate HasRoom(t: Tree, slots: seq<Slot>, cols: nat, rows: nat) {
    && Roomy(t, ViewRect(cols, rows)) && cols < 0x1_0000 && rows < 0x1_0000
    && forall i :: 0 <= i < |slots| && slots[i].Live? ==> i in Panes(t)
  }

  lemma RoomSettles(ns: seq<Node>, t: Tree, slots: seq<Slot>, cols: nat, rows: nat)
    requires HasRoom(t, slots, cols, rows) && Holds(ns, t) && Placed(ns, t, ViewRect(cols, rows))
    requires forall i :: 0 <= i < |slots| && slots[i].Live? ==>
      slots[i].rect == RectFor(t, slots[i], i, cols, rows, NO_ZOOM)
    ensures SettledPlan(Plan(ns, NO_ZOOM, Places(slots)))
  {
    assert Roomed(Plan(ns, NO_ZOOM, Places(slots)), t, cols, rows);
  }

  /** Where session_apply_layout puts a pane. */
  ghost function RectFor(t: Tree, sl: Slot, i: int, cols: nat, rows: nat, zoomed: nat): Rect
    requires sl.Live?
  {
    if zoomed != NO_ZOOM && sl.id == zoomed then ViewRect(cols, rows)
    else if i in Panes(t) then LeafRect(t, ViewRect(cols, rows), i)
    else sl.rect
  }

  method RectsOf(lt: PaneLayout, slots: seq<Slot>, cols: nat, rows: nat, zoomed: nat) returns (rects: seq<Rect>)
    requires lt.Valid() && lt.Current(cols, rows)
    ensures |rects| == |slots|
    ensures forall i :: 0 <= i < |slots| && slots[i].Live? ==>
      rects[i] == RectFor(lt.tree, slots[i], i, cols, rows, zoomed)
  {
    rects := [];
    for i := 0 to |slots|
      invariant |rects| == i
      invariant forall j :: 0 <= j < i && slots[j].Live? ==>
        rects[j] == RectFor(lt.tree, slots[j], j, cols, rows, zoomed)
    {
      var rect := Rect(0, 0, 0, 0);
      if slots[i].Live? {
        rect := slots[i].rect;
        if zoomed != NO_ZOOM && slots[i].id == zoomed {
          rect := ViewRect(cols, rows);
        } else {
          var ok, r := lt.PaneRect(i);
          rect := if ok then r else rect;
        }
      }
      rects := rects + [rect];
    }
  }

  /** A newcomer with a full frame is in step, and the others are as before. */
  lemma JoinsSynced(clients: map<nat, Client>, k: nat, s: Scene, due: bool)
    requires !due ==> AllSynced(clients, s)
    ensures Synced(Client(Frame(s, true), [s]), s)
    ensures !due ==> AllSynced(clients[k := Client(Frame(s, true), [s])], s)
  {
    forall i | 0 <= i < |s.panes|
      ensures SincePane(s.panes[i], s.panes[i])
    {
    }
  }

  lemma TakeOut(slots: seq<Slot>, i: nat)
    requires i < |slots| && Distinct(slots)
    ensures var after := slots[i := Free];
      Engines(after) <= Engines(slots) && Parsers(after) <= Parsers(slots) && Distinct(after)
  {
    var after := slots[i := Free];
    assert forall j :: 0 <= j < |slots| && after[j].Live? ==> after[j] == slots[j];
  }

  lemma PutIn(slots: seq<Slot>, i: nat, pane: Slot)
    requires i < |slots| && slots[i].Free? && pane.Live? && Distinct(slots)
    requires pane.vt !in Engines(slots) && pane.machine !in Parsers(slots)
    ensures var after := slots[i := pane];
      && Engines(after) == Engines(slots) + {pane.vt} && Parsers(after) == Parsers(slots) + {pane.machine}
      && Distinct(after)
  {
    var after := slots[i := pane];
    forall j | 0 <= j < |slots| && j != i
      ensures after[j] == slots[j]
    {
    }
    assert after[i] == pane;
  }
}
