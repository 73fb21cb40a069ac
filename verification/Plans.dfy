/** What can happen to a view, and where its panes are after it, as values (src/daemon/session.c). */
module Plans {
  import opened Bytes
  import opened SplitTree
  import opened Layout
  import opened Composite

  /** A layout change brings the nodes and every slot's rectangle, as a reflow left them. */
  datatype Event =
    | Print(slot: nat, data: seq<byte>)
    | Arrange(ns: seq<Node>, rects: seq<Rect>, zoomed: nat)
    | Split(slot: nat, id: nat, ns: seq<Node>, rects: seq<Rect>)
    | Close(slot: nat, ns: seq<Node>, rects: seq<Rect>, zoomed: nat)
    | Focus
    | Attach(client: nat)
    | Detach(client: nat)
    | Tick

  /** Who is attached after an event. */
  function Attending(who: set<nat>, e: Event): set<nat> {
    match e
    case Attach(k) => who + {k}
    case Detach(k) => who - {k}
    case _ => who
  }

  function AttendingAll(who: set<nat>, events: seq<Event>): set<nat> {
    if |events| == 0 then who
    else Attending(AttendingAll(who, events[..|events| - 1]), events[|events| - 1])
  }

  datatype Place = Place(id: nat, rect: Rect)

  /** Nodes, zoom, and the pane in every slot. */
  datatype Plan = Plan(ns: seq<Node>, zoomed: nat, places: seq<Option<Place>>)

  function Count(places: seq<Option<Place>>): nat {
    if |places| == 0 then 0
    else Count(places[..|places| - 1]) + if places[|places| - 1].Some? then 1 else 0
  }

  /** session_should_composite */
  predicate Crowded(p: Plan) {
    Count(p.places) >= 2
  }

  /** Every pane in its new rectangle. */
  function Shifted(places: seq<Option<Place>>, rects: seq<Rect>): seq<Option<Place>>
    requires |rects| == |places|
  {
    seq(|places|, i requires 0 <= i < |places| =>
      if places[i].None? then None else Some(places[i].value.(rect := rects[i])))
  }

  /** The plan after an event; one about a slot that is not free, or not in use, changes nothing, and with one pane a
      new size does not touch the layout. */
  function PlanAfter(p: Plan, e: Event): Plan {
    match e
    case Arrange(ns, rects, zoomed) =>
      if |rects| != |p.places| then p
      else if Crowded(p) then Plan(ns, zoomed, Shifted(p.places, rects))
      else p.(places := Shifted(p.places, rects))
    case Split(i, id, ns, rects) =>
      if |rects| != |p.places| || i >= |p.places| || p.places[i].Some? then p
      else Plan(ns, NO_ZOOM, Shifted(p.places[i := Some(Place(id, rects[i]))], rects))
    case Close(i, ns, rects, zoomed) =>
      if |rects| != |p.places| || i >= |p.places| || p.places[i].None? || !Crowded(p) then p
      else Plan(ns, zoomed, Shifted(p.places[i := None], rects))
    case _ => p
  }

  function PlanAll(p: Plan, events: seq<Event>): Plan {
    if |events| == 0 then p else PlanAfter(PlanAll(p, events[..|events| - 1]), events[|events| - 1])
  }

  /** The panes are where a reflow of the view with room for every divider puts the leaves. */
  ghost predicate Roomed(p: Plan, t: Tree, cols: nat, rows: nat) {
    && Holds(p.ns, t) && Placed(p.ns, t, ViewRect(cols, rows)) && SplitTree.Roomy(t, ViewRect(cols, rows))
    && cols < 0x1_0000 && rows < 0x1_0000
    && forall i :: 0 <= i < |p.places| && p.places[i].Some? ==>
      i in Panes(t) && p.places[i].value.rect == LeafRect(t, ViewRect(cols, rows), i)
  }

  /** Such a reflow, or a zoom, with ids of their own. */
  ghost predicate SettledPlan(p: Plan) {
    if p.zoomed == NO_ZOOM then exists t, cols, rows :: Roomed(p, t, cols, rows)
    else forall i, j :: SameId(p, i, j) ==> i == j
  }

  ghost predicate SameId(p: Plan, i: int, j: int) {
    && 0 <= i < |p.places| && 0 <= j < |p.places| && p.places[i].Some? && p.places[j].Some?
    && p.places[i].value.id == p.places[j].value.id
  }

  /** Whenever frames go out the plan is settled: what a session sees to that reflows after every change and is not
      shrunk below what its dividers need. */
  ghost predicate Orderly(p: Plan, events: seq<Event>) {
    forall i :: 0 <= i <= |events| && Crowded(PlanAll(p, events[..i])) ==> SettledPlan(PlanAll(p, events[..i]))
  }
}
