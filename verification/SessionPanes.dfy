/** The panes of a session (src/daemon/session.c): split with its rollbacks, close, reap and select keep the leaves of
    the layout, the live pane slots, the wire ids and the active pane in step. */
module SessionPanes {
  import opened SplitTree
  import opened Layout

  const MAX_PANES: nat := LAYOUT_MAX_LEAVES
  const ACTIVE: nat := 255
  const LAST_ID: nat := 254

  datatype Slot = Slot(inUse: bool, id: nat)

  const FREE := Slot(false, 0)

  /** The live slots among the first n. */
  ghost function LiveSlots(slots: seq<Slot>): set<int> {
    set i | 0 <= i < |slots| && slots[i].inUse
  }

  ghost predicate OtherThan(slots: seq<Slot>, slot: int) {
    exists i :: 0 <= i < |slots| && i != slot && slots[i].inUse
  }

  ghost predicate Holder(slots: seq<Slot>, i: int, id: nat) {
    0 <= i < |slots| && slots[i].inUse && slots[i].id == id
  }

  ghost predicate LiveId(slots: seq<Slot>, id: nat) {
    exists i :: Holder(slots, i, id)
  }

  ghost predicate IdsDistinct(slots: seq<Slot>) {
    && (forall i :: 0 <= i < |slots| && slots[i].inUse ==> slots[i].id <= LAST_ID)
    && forall i, j, id :: Holder(slots, i, id) && Holder(slots, j, id) ==> i == j
  }

  /** Only the first slot ever holds pane 0: the ids given out later start at 1. */
  ghost predicate ZeroFirst(slots: seq<Slot>) {
    forall i :: Holder(slots, i, 0) ==> i == 0
  }

  ghost predicate FirstUsed(slots: seq<Slot>, k: int) {
    0 <= k < |slots| && slots[k].inUse && forall i :: 0 <= i < k ==> !slots[i].inUse
  }

  /** Which pane is active once the active one, id, is gone: the one active before it if that lives, else pane 0 if that
      lives, else the one in the first slot in use. */
  ghost predicate Succeeds(slots: seq<Slot>, id: nat, last: nat, active: nat) {
    if last != id && LiveId(slots, last) then active == last
    else if LiveId(slots, 0) then active == 0
    else exists k :: FirstUsed(slots, k) && active == slots[k].id
  }

  /** Where an id search starts from, k steps on: 1 to 254, round and round. */
  function Candidate(start: nat, k: nat): (id: nat)
    requires 1 <= start <= LAST_ID
    ensures 1 <= id <= LAST_ID
  {
    (start - 1 + k) % LAST_ID + 1
  }

  lemma CandidateNext(start: nat, k: nat)
    requires 1 <= start <= LAST_ID
    ensures Candidate(start, k + 1) == if Candidate(start, k) == LAST_ID then 1 else Candidate(start, k) + 1
    ensures Candidate(start, 0) == start
  {
  }

  lemma CandidatesDiffer(start: nat, j: nat, k: nat)
    requires 1 <= start <= LAST_ID && j < k < LAST_ID
    ensures Candidate(start, j) != Candidate(start, k)
  {
  }

  /** The first k candidates were all live. */
  ghost predicate AllLive(slots: seq<Slot>, start: nat, k: nat)
    requires 1 <= start <= LAST_ID
  {
    forall j :: 0 <= j < k ==> LiveId(slots, Candidate(start, j))
  }

  ghost function HolderOf(slots: seq<Slot>, id: nat): (i: int)
    requires LiveId(slots, id)
    ensures Holder(slots, i, id)
  {
    var i :| Holder(slots, i, id); i
  }

  /** k candidates that are all live sit in k slots. */
  lemma {:induction false} LiveCandidates(slots: seq<Slot>, start: nat, k: nat) returns (held: set<nat>)
    requires 1 <= start <= LAST_ID && k < LAST_ID && AllLive(slots, start, k)
    ensures |held| == k && forall i :: i in held ==>
      0 <= i < |slots| && exists j :: 0 <= j < k && Holder(slots, i, Candidate(start, j))
  {
    if k == 0 {
      held := {};
    } else {
      var before := LiveCandidates(slots, start, k - 1);
      var id := Candidate(start, k - 1);
      var i: nat := HolderOf(slots, id);
      if i in before {
        var j :| 0 <= j < k - 1 && Holder(slots, i, Candidate(start, j));
        CandidatesDiffer(start, j, k - 1);
      }
      held := before + {i};
    }
  }

  /** More candidates than slots cannot all be live, so the id search ends. */
  lemma SearchEnds(slots: seq<Slot>, start: nat, k: nat)
    requires 1 <= start <= LAST_ID && k < LAST_ID && AllLive(slots, start, k)
    ensures k <= |slots|
  {
    var held := LiveCandidates(slots, start, k);
    AtMost(held, |slots|);
  }

  /** How a spawn went: which step failed, if any. */
  datatype Spawn = NoMemory | NoChild | NoLoopSlot | Spawned

  class Session {
    var slots: seq<Slot>
    const lt: PaneLayout
    var viewCols: nat
    var viewRows: nat
    var activeId: nat
    var lastId: nat
    var nextId: nat
    var zoomedId: nat
    var inUse: bool

    /** What every operation keeps while the session is in use. */
    ghost predicate Valid()
      reads this, lt, lt.nodes
    {
      && lt.Valid() && |slots| == MAX_PANES && LiveSlots(slots) == Panes(lt.tree)
      && IdsDistinct(slots) && ZeroFirst(slots) && LiveId(slots, activeId) && activeId != ACTIVE && lastId != ACTIVE
      && 1 <= nextId <= LAST_ID
    }

    /** session_new, once its child runs: slot 0 holds pane 0 and fills the view. */
    constructor (cols: nat, rows: nat)
      ensures Valid() && inUse && activeId == 0 && slots[0] == Slot(true, 0) && fresh(lt) && fresh(lt.nodes)
      ensures lt.Current(viewCols, viewRows) && viewCols == cols && viewRows == rows
    {
      var l := new PaneLayout(0);
      l.Reflow(cols, rows);
      lt := l;
      slots := [Slot(true, 0), FREE, FREE, FREE, FREE, FREE];
      viewCols, viewRows, activeId, lastId, nextId, zoomedId, inUse := cols, rows, 0, 0, 1, ACTIVE, true;
      new;
      assert Holder(slots, 0, 0);
      assert LiveSlots(slots) == {0};
    }

    // ---- looking up ----

    method FirstLive(id: nat) returns (k: int)
      ensures k < 0 ==> !LiveId(slots, id)
      ensures k >= 0 ==> Holder(slots, k, id)
    {
      for i := 0 to |slots|
        invariant forall j :: 0 <= j < i ==> !Holder(slots, j, id)
      {
        if slots[i].inUse && slots[i].id == id {
          return i;
        }
      }
      return -1;
    }

    /** session_active_pane */
    method ActivePane() returns (k: int)
      ensures k < 0 ==> forall i :: 0 <= i < |slots| ==> !slots[i].inUse
      ensures k >= 0 ==> k < |slots| && slots[k].inUse && (LiveId(slots, activeId) ==> slots[k].id == activeId)
      ensures k >= 0 && !LiveId(slots, activeId) ==> FirstUsed(slots, k)
    {
      k := FirstLive(activeId);
      if k >= 0 {
        return;
      }
      for i := 0 to |slots|
        invariant forall j :: 0 <= j < i ==> !slots[j].inUse
      {
        if slots[i].inUse {
          return i;
        }
      }
      return -1;
    }

    /** session_pane_by_id */
    method PaneById(id: nat) returns (k: int)
      ensures k >= 0 ==> k < |slots| && slots[k].inUse && (id != ACTIVE ==> slots[k].id == id)
      ensures id != ACTIVE ==> (k < 0 <==> !LiveId(slots, id))
      ensures id == ACTIVE && LiveId(slots, activeId) ==> k >= 0 && slots[k].id == activeId
    {
      if id == ACTIVE {
        k := ActivePane();
        if LiveId(slots, activeId) {
          assert Holder(slots, HolderOf(slots, activeId), activeId);
        }
      } else {
        k := FirstLive(id);
      }
    }

    method FreeSlot() returns (k: int)
      ensures k < 0 ==> forall i :: 0 <= i < |slots| ==> slots[i].inUse
      ensures k >= 0 ==> k < |slots| && !slots[k].inUse && forall i :: 0 <= i < k ==> slots[i].inUse
    {
      for i := 0 to |slots|
        invariant forall j :: 0 <= j < i ==> slots[j].inUse
      {
        if !slots[i].inUse {
          return i;
        }
      }
      return -1;
    }

    /** The id search of session_split: it ends, on an id no live pane holds. */
    method NextFreeId() returns (id: nat)
      requires |slots| == MAX_PANES && 1 <= nextId <= LAST_ID
      modifies `nextId
      ensures 1 <= nextId <= LAST_ID && 1 <= id <= LAST_ID && !LiveId(slots, id)
      ensures exists k: nat ::
        AllLive(slots, old(nextId), k) && id == Candidate(old(nextId), k) && nextId == Candidate(old(nextId), k + 1)
    {
      ghost var start := nextId;
      ghost var k: nat := 0;
      CandidateNext(start, 0);
      id := nextId;
      nextId := if nextId == LAST_ID then 1 else nextId + 1;
      var holder := FirstLive(id);
      while holder >= 0
        invariant k <= MAX_PANES && AllLive(slots, start, k) && id == Candidate(start, k) &&
          nextId == Candidate(start, k + 1)
        invariant if holder >= 0 then Holder(slots, holder, id) else !LiveId(slots, id)
        decreases MAX_PANES - k, holder
      {
        assert AllLive(slots, start, k + 1);
        SearchEnds(slots, start, k + 1);
        k := k + 1;
        CandidateNext(start, k);
        id := nextId;
        nextId := if nextId == LAST_ID then 1 else nextId + 1;
        holder := FirstLive(id);
      }
    }

    // ---- split ----

    /** A split of the pane target names can be made: it lives, a slot is free, and there is room for both halves. */
    ghost predicate Splits(target: nat, stacked: bool, t: int)
      requires Valid()
      reads this, lt, lt.nodes
    {
      && Holder(slots, t, if target == ACTIVE then activeId else target) && t in Panes(lt.tree)
      && Splittable(lt.RectOf(t), stacked) && exists i :: 0 <= i < |slots| && !slots[i].inUse
    }

    ghost predicate CanSplit(target: nat, stacked: bool)
      requires Valid()
      reads this, lt, lt.nodes
    {
      exists t :: Splits(target, stacked, t)
    }

    /** session_split: done, or refused or rolled back with panes, tree and active pane as they were. */
    method SplitPane(target: nat, stacked: bool, spawn: Spawn) returns (k: int)
      requires Valid() && inUse
      modifies this, lt, lt.nodes
      ensures Valid() && inUse && zoomedId == ACTIVE
      ensures k >= 0 <==> spawn == Spawned && old(CanSplit(target, stacked))
      ensures k < 0 ==>
        slots == old(slots) && lt.tree == old(lt.tree) && activeId == old(activeId) && lastId == old(lastId)
      ensures k >= 0 ==>
        spawn == Spawned && k < |slots| && !old(slots)[k].inUse && slots == old(slots)[k := Slot(true, activeId)]
      ensures k >= 0 ==> !LiveId(old(slots), activeId) && lastId == old(activeId) && lt.Current(viewCols, viewRows)
      ensures k >= 0 ==> forall i :: 0 <= i < k ==> old(slots)[i].inUse
      ensures k >= 0 ==>
        Grown(old(slots), old(lt.tree), lt.tree, if target == ACTIVE then old(activeId) else target, stacked, k)
      ensures viewCols == old(viewCols) && viewRows == old(viewRows)
    {
      ghost var can := CanSplit(target, stacked);
      var t, free := Choose(target, stacked);
      assert can == CanSplit(target, stacked);
      zoomedId := ACTIVE;
      if t < 0 || free < 0 {
        return -1;
      }
      ghost var was := lt.tree;
      var ok, i, j := lt.Split(viewCols, viewRows, t, free, stacked);
      if !ok {
        return -1;
      }
      assert Holder(slots, t, if target == ACTIVE then activeId else target);
      k := Populate(was, t, stacked, i, j, free, spawn);
    }

    /** The new leaf gets a pane, or goes again. */
    method Populate(ghost was: Tree, t: int, stacked: bool, ghost i: nat, ghost j: nat, free: int, spawn: Spawn)
        returns (k: int)
      requires lt.Valid() && lt.tree == SplitLeaf(was, t, stacked, i, j, free) && Panes(lt.tree) == Panes(was) + {free}
      requires lt.Current(viewCols, viewRows) && WellFormed(was) && t in Panes(was) && free !in Panes(was)
      requires |slots| == MAX_PANES && LiveSlots(slots) == Panes(was) && 0 <= free < |slots| && !slots[free].inUse
      requires IdsDistinct(slots) && ZeroFirst(slots) && LiveId(slots, activeId) && activeId != ACTIVE &&
        lastId != ACTIVE && 1 <= nextId <= LAST_ID
      modifies `slots, `activeId, `lastId, `nextId, lt, lt.nodes
      ensures Valid() && lt.Current(viewCols, viewRows) && (k == free || k == -1) && (k == free <==> spawn == Spawned)
      ensures k < 0 ==> slots == old(slots) && lt.tree == was && activeId == old(activeId) && lastId == old(lastId)
      ensures k >= 0 ==>
        slots == old(slots)[free := Slot(true, activeId)] && !LiveId(old(slots), activeId) && lastId == old(activeId) &&
        lt.tree == old(lt.tree)
    {
      var id := NextFreeId();
      if spawn != Spawned {
        var closed := Rollback(was, t, stacked, i, j, free);
        return -1;
      }
      ghost var before := slots;
      slots := slots[free := Slot(true, id)];
      lastId, activeId := activeId, id;
      AddedSlot(before, free, id);
      return free;
    }

    /** The slot of the pane to split and the first free one; there is room for a leaf as long as a slot is free. */
    method Choose(target: nat, stacked: bool) returns (t: int, free: int)
      requires Valid()
      ensures t < 0 || free < 0 ==> !CanSplit(target, stacked)
      ensures t >= 0 && free >= 0 ==>
        && t in Panes(lt.tree) && 0 <= free < |slots| && !slots[free].inUse && Leaves(lt.tree) < LAYOUT_MAX_LEAVES
        && Holder(slots, t, if target == ACTIVE then activeId else target)
        && (forall i :: 0 <= i < free ==> slots[i].inUse)
        && (Splittable(lt.RectOf(t), stacked) <==> CanSplit(target, stacked))
    {
      t := PaneById(target);
      free := FreeSlot();
      if t >= 0 && free >= 0 {
        RoomForLeaf(slots, lt.tree, free);
        ghost var id := if target == ACTIVE then activeId else target;
        assert t in LiveSlots(slots) && Holder(slots, t, id);
        if Splittable(lt.RectOf(t), stacked) {
          assert Splits(target, stacked, t);
        } else {
          assert forall x :: Holder(slots, x, id) ==> x == t;
        }
      } else if t < 0 && target != ACTIVE {
        assert forall x :: !Holder(slots, x, target);
      }
    }

    /** layout_close on the way out of a split that failed */
    method Rollback(ghost was: Tree, pane: int, stacked: bool, ghost i: nat, ghost j: nat, free: int) returns (ok: bool)
      requires lt.Valid() && WellFormed(was) && pane in Panes(was) && free !in Panes(was)
      requires lt.tree == SplitLeaf(was, pane, stacked, i, j, free)
      modifies lt, lt.nodes
      ensures lt.Valid() && ok && lt.tree == was && lt.Current(viewCols, viewRows)
    {
      SplitThenClose(was, pane, stacked, i, j, free);
      ok := lt.Close(viewCols, viewRows, free);
    }

    // ---- close and reap ----

    /** What session_close_pane and session_pane_reaped do about a pane that is gone: the last one takes the session
        with it, otherwise its sibling grows, and if it was active another one is. */
    method Remove(slot: int)
      requires Valid() && inUse && 0 <= slot < |slots| && slots[slot].inUse
      modifies this, lt, lt.nodes
      ensures inUse ==> Valid() && slots == old(slots)[slot := FREE] && lt.Current(viewCols, viewRows)
      ensures inUse ==>
        if old(activeId) != old(slots)[slot].id then activeId == old(activeId)
        else Succeeds(slots, old(activeId), old(lastId), activeId)
      ensures inUse ==>
        lastId == old(lastId) && old(lt.tree).Split? && slot in Panes(old(lt.tree)) &&
          lt.tree == CloseLeaf(old(lt.tree), slot)
      ensures inUse <==> OtherThan(old(slots), slot)
      ensures zoomedId == old(zoomedId) && viewCols == old(viewCols) && viewRows == old(viewRows) &&
        |slots| == |old(slots)|
    {
      var id := slots[slot].id;
      var others := OtherLive(slot);
      if !others {
        slots := seq(|slots|, i => FREE);
        inUse := false;
        return;
      }
      ghost var before := slots;
      TakeAway(slot);
      GoneId(before, slot);
      if activeId == id {
        activeId := if lastId != id then lastId else 0;
      }
      RepairActive();
    }

    /** The slot is free and its leaf closed. */
    method TakeAway(slot: int)
      requires Valid() && inUse && 0 <= slot < |slots| && slots[slot].inUse && OtherThan(slots, slot)
      modifies `slots, lt, lt.nodes
      ensures slots == old(slots)[slot := FREE] && lt.Valid() && lt.Current(viewCols, viewRows)
      ensures LiveSlots(slots) == Panes(lt.tree) && IdsDistinct(slots) && ZeroFirst(slots) && OtherThan(slots, -1)
      ensures forall id :: LiveId(old(slots), id) && id != old(slots)[slot].id ==> LiveId(slots, id)
      ensures old(lt.tree).Split? && slot in Panes(old(lt.tree)) && lt.tree == CloseLeaf(old(lt.tree), slot)
    {
      ghost var before := slots;
      LastLeaf(slots, lt.tree, slot);
      slots := slots[slot := FREE];
      var closed := lt.Close(viewCols, viewRows, slot);
      RemovedSlot(before, slot);
    }

    method OtherLive(slot: int) returns (any: bool)
      ensures any <==> OtherThan(slots, slot)
    {
      any := false;
      for i := 0 to |slots|
        invariant any <==> exists j :: 0 <= j < i && j != slot && slots[j].inUse
      {
        if i != slot && slots[i].inUse {
          any := true;
        }
      }
    }

    method RepairActive()
      requires OtherThan(slots, -1) && IdsDistinct(slots) && activeId != ACTIVE
      modifies `activeId
      ensures LiveId(slots, activeId) && activeId != ACTIVE &&
        (LiveId(slots, old(activeId)) ==> activeId == old(activeId))
      ensures !LiveId(slots, old(activeId)) ==> exists k :: FirstUsed(slots, k) && activeId == slots[k].id
    {
      var k := PaneById(activeId);
      if k < 0 {
        var fallback := ActivePane();
        if fallback >= 0 {
          activeId := slots[fallback].id;
          assert Holder(slots, fallback, activeId);
        }
      }
    }

    /** session_close_pane */
    method ClosePane(id: nat) returns (ok: bool)
      requires Valid() && inUse
      modifies this, lt, lt.nodes
      ensures ok <==> id == ACTIVE || LiveId(old(slots), id)
      ensures inUse ==> Valid()
      ensures !ok ==>
        && inUse && slots == old(slots) && activeId == old(activeId) && lastId == old(lastId)
        && zoomedId == old(zoomedId) && lt.tree == old(lt.tree)
      ensures ok && inUse ==> zoomedId == ACTIVE && lt.Current(viewCols, viewRows)
      ensures ok ==> var gone := if id == ACTIVE then old(activeId) else id;
        && LiveId(old(slots), gone)
        && (inUse <==> OtherThan(old(slots), HolderOf(old(slots), gone)))
        && (inUse ==> Vacated(old(slots), slots, old(lt.tree), lt.tree, HolderOf(old(slots), gone)))
        && (inUse ==> !LiveId(slots, gone))
        && (inUse ==> if gone == old(activeId) then Succeeds(slots, gone, old(lastId), activeId)
          else activeId == old(activeId))
    {
      var k := PaneById(id);
      if k < 0 {
        return false;
      }
      zoomedId := ACTIVE;
      ghost var before, gone := slots, if id == ACTIVE then activeId else id;
      assert Holder(slots, k, gone);
      Remove(k);
      assert Holder(before, HolderOf(before, gone), gone);
      GoneId(before, k);
      ok := true;
    }

    /** session_pane_reaped: no zoom is dropped here. */
    method Reap(k: int)
      requires Valid() && inUse && 0 <= k < |slots| && slots[k].inUse
      modifies this, lt, lt.nodes
      ensures inUse ==> Valid() && Vacated(old(slots), slots, old(lt.tree), lt.tree, k)
      ensures inUse ==> lt.Current(viewCols, viewRows) && !LiveId(slots, old(slots)[k].id)
      ensures inUse <==> OtherThan(old(slots), k)
      ensures inUse ==>
        if old(activeId) == old(slots)[k].id then Succeeds(slots, old(activeId), old(lastId), activeId)
        else activeId == old(activeId)
      ensures zoomedId == old(zoomedId)
    {
      ghost var before := slots;
      Remove(k);
      GoneId(before, k);
    }

    // ---- select ----

    /** The next live slot after start in steps of step, or start itself when it comes round. */
    method Cycle(start: int, step: int) returns (k: int)
      requires |slots| == MAX_PANES && 0 <= start < |slots| && slots[start].inUse &&
        (step == 1 || step == MAX_PANES - 1)
      ensures 0 <= k < |slots| && slots[k].inUse && (OtherThan(slots, start) ==> k != start)
      ensures NextLive(slots, start, step, k)
    {
      for n := 1 to MAX_PANES + 1
        invariant AllFree(slots, start, step, n)
      {
        k := Around(start, step, n);
        if slots[k].inUse {
          if k == start && OtherThan(slots, start) {
            RoundTrip(slots, start, step, n);
          }
          return;
        }
      }
      RoundTrip(slots, start, step, MAX_PANES + 1);
      assert false;
    }

    /** session_select_pane; near is what a search by direction comes up with, if anything. */
    method SelectPane(mode: nat, id: nat, rects: seq<Rect>) returns (ok: bool)
      requires Valid() && inUse && |rects| == |slots|
      modifies `activeId, `lastId, `zoomedId
      ensures Valid()
      ensures !ok ==> activeId == old(activeId) && lastId == old(lastId) && zoomedId == old(zoomedId)
      ensures activeId != old(activeId) ==> lastId == old(activeId) && zoomedId == ACTIVE
      ensures mode == 8 ==>
        && ok && activeId == old(activeId) && lastId == old(lastId)
        && zoomedId == (if old(zoomedId) != ACTIVE || !OtherThan(slots, HolderOf(slots, activeId)) then ACTIVE
          else activeId)
      ensures mode != 8 && activeId == old(activeId) ==> zoomedId == old(zoomedId) && lastId == old(lastId)
      ensures mode == 0 && id == ACTIVE ==> ok && activeId == old(activeId)
      ensures mode == 0 && id != ACTIVE ==> (ok <==> LiveId(slots, id)) && (ok ==> activeId == id)
      ensures mode == 3 ==> (ok <==> LiveId(slots, old(lastId))) && (ok ==> activeId == old(lastId))
      ensures 4 <= mode <= 7 ==> ok && Directed(slots, rects, old(activeId), mode, activeId)
      ensures mode == 1 || mode == 2 || mode > 8 ==>
        ok && NextLive(slots, HolderOf(slots, old(activeId)), if mode == 1 then 1 else MAX_PANES - 1,
          HolderOf(slots, activeId))
      ensures (mode == 1 || mode == 2 || mode > 8) && OtherThan(slots, HolderOf(slots, old(activeId))) ==>
        activeId != old(activeId)
    {
      var cur := ActivePane();
      ghost var holder := HolderOf(slots, activeId);
      assert Holder(slots, holder, activeId) && Holder(slots, cur, activeId);
      if mode == 8 {
        Zoom(cur);
        return true;
      }
      var next := -1;
      if mode == 0 {
        next := PaneById(id);
      } else if mode == 3 {
        next := PaneById(lastId);
      } else if 4 <= mode <= 7 {
        next := PaneInDirection(slots, rects, cur, mode);
        if next < 0 {
          return true;
        }
      } else {
        next := Cycle(cur, if mode == 1 then 1 else MAX_PANES - 1);
      }
      if next < 0 || next == cur {
        return next == cur;
      }
      zoomedId := ACTIVE;
      lastId := activeId;
      activeId := slots[next].id;
      assert Holder(slots, next, activeId);
      return true;
    }

    /** The zoom toggle; one pane is never zoomed. */
    method Zoom(cur: int)
      requires |slots| == MAX_PANES && 0 <= cur < |slots|
      modifies `zoomedId
      ensures zoomedId ==
        if old(zoomedId) != ACTIVE then ACTIVE else if OtherThan(slots, cur) then slots[cur].id else ACTIVE
    {
      if zoomedId != ACTIVE {
        zoomedId := ACTIVE;
        return;
      }
      var others := OtherLive(cur);
      if others {
        zoomedId := slots[cur].id;
      }
    }
  }

  /** The slot of the pane is free, its leaf is closed, and all else is as it was. */
  ghost predicate Vacated(was: seq<Slot>, now: seq<Slot>, t: Tree, u: Tree, h: int)
    requires 0 <= h < |was|
  {
    now == was[h := FREE] && t.Split? && h in Panes(t) && u == CloseLeaf(t, h)
  }

  /** The leaf of pane id was split, and the slot k is the pane of the new one. */
  ghost predicate Grown(was: seq<Slot>, t: Tree, u: Tree, id: nat, stacked: bool, k: int) {
    exists h, i, j :: Holder(was, h, id) && h in Panes(t) && u == SplitLeaf(t, h, stacked, i, j, k)
  }

  lemma GoneId(slots: seq<Slot>, k: int)
    requires 0 <= k < |slots| && slots[k].inUse && IdsDistinct(slots)
    ensures !LiveId(slots[k := FREE], slots[k].id)
  {
    var s := slots[k := FREE];
    if LiveId(s, slots[k].id) {
      var i := HolderOf(s, slots[k].id);
      assert Holder(slots, i, slots[k].id) && Holder(slots, k, slots[k].id);
    }
  }

  /** The slot n steps on, round and round. */
  function Around(start: int, step: int, n: nat): (k: int)
    ensures 0 <= k < MAX_PANES
  {
    (start + n * step) % MAX_PANES
  }

  ghost predicate AllFree(slots: seq<Slot>, start: int, step: int, n: nat)
    requires |slots| == MAX_PANES
  {
    forall m :: 1 <= m < n ==> !slots[Around(start, step, m)].inUse
  }

  /** k is the first live slot in that direction. */
  ghost predicate NextLive(slots: seq<Slot>, start: int, step: int, k: int)
    requires |slots| == MAX_PANES
  {
    exists n :: 1 <= n <= MAX_PANES && k == Around(start, step, n) && slots[k].inUse && AllFree(slots, start, step, n)
  }

  // ---- the pane in a direction ----

  /** The pane selected is the nearest one that way, or the active one stays if there is none. */
  ghost predicate Directed(slots: seq<Slot>, rects: seq<Rect>, from: nat, mode: nat, to': nat)
    requires |rects| == |slots| && LiveId(slots, from) && LiveId(slots, to')
  {
    var cur, k := HolderOf(slots, from), HolderOf(slots, to');
    Nearest(slots, rects, cur, mode, |slots|, if k == cur then -1 else k)
  }

  /** Pane p lies beyond the edge of pane cur: above, below, right or left, for modes 4 to 7. */
  predicate Beyond(cur: Rect, p: Rect, mode: nat) {
    if mode == 4 then p.y + p.rows <= cur.y
    else if mode == 5 then p.y >= cur.y + cur.rows
    else if mode == 6 then p.x >= cur.x + cur.cols
    else p.x + p.cols <= cur.x
  }

  function Gap(a: int, b: int): nat {
    if a >= b then a - b else b - a
  }

  /** Edge distance first, then the offset of the centers. */
  function Key(cur: Rect, p: Rect, mode: nat): (k: int)
    requires Beyond(cur, p, mode)
  {
    var across := Gap(p.x + p.cols / 2, cur.x + cur.cols / 2);
    var along := Gap(p.y + p.rows / 2, cur.y + cur.rows / 2);
    if mode == 4 then (cur.y - (p.y + p.rows)) * 4096 + across
    else if mode == 5 then (p.y - (cur.y + cur.rows)) * 4096 + across
    else if mode == 6 then (p.x - (cur.x + cur.cols)) * 4096 + along
    else (cur.x - (p.x + p.cols)) * 4096 + along
  }

  /** Above and below, right and left are each other's converse, and a pane that way shares no cell. */
  lemma BeyondConverse(a: Rect, b: Rect, px: int, py: int)
    ensures Beyond(a, b, 4) <==> Beyond(b, a, 5)
    ensures Beyond(a, b, 6) <==> Beyond(b, a, 7)
    ensures Inside(a, px, py) && Inside(b, px, py) ==>
      !Beyond(a, b, 4) && !Beyond(a, b, 5) && !Beyond(a, b, 6) && !Beyond(a, b, 7)
    ensures Beyond(a, b, 4) && Inside(a, px, py) ==> b.y + b.rows <= py
    ensures Beyond(a, b, 6) && Inside(a, px, py) ==> px < b.x
  {
  }

  /** How far pane p is beyond the edge, and how far its center is off. */
  function Edge(cur: Rect, p: Rect, mode: nat): int {
    match mode
    case 4 => cur.y - (p.y + p.rows)
    case 5 => p.y - (cur.y + cur.rows)
    case 6 => p.x - (cur.x + cur.cols)
    case _ => cur.x - (p.x + p.cols)
  }

  function Offset(cur: Rect, p: Rect, mode: nat): nat {
    if mode <= 5 then Gap(p.x + p.cols / 2, cur.x + cur.cols / 2) else Gap(p.y + p.rows / 2, cur.y + cur.rows / 2)
  }

  /** As long as no center is off by 4096 cells or more, the edge decides, and the center only between equal ones. */
  lemma KeyOrder(cur: Rect, p: Rect, q: Rect, mode: nat)
    requires 4 <= mode <= 7 && Beyond(cur, p, mode) && Beyond(cur, q, mode)
    requires Offset(cur, p, mode) < 4096 && Offset(cur, q, mode) < 4096
    ensures Key(cur, p, mode) < Key(cur, q, mode) <==>
      Edge(cur, p, mode) < Edge(cur, q, mode) ||
      (Edge(cur, p, mode) == Edge(cur, q, mode) && Offset(cur, p, mode) < Offset(cur, q, mode))
  {
  }

  ghost predicate Candidates(slots: seq<Slot>, rects: seq<Rect>, cur: int, mode: nat, i: int)
    requires |rects| == |slots| && 0 <= cur < |slots|
  {
    0 <= i < |slots| && slots[i].inUse && i != cur && Beyond(rects[cur], rects[i], mode)
  }

  /** best is nearest among the first n slots, the first one of several; -1 if nothing lies that way. */
  ghost predicate Nearest(slots: seq<Slot>, rects: seq<Rect>, cur: int, mode: nat, n: nat, best: int)
    requires |rects| == |slots| && 0 <= cur < |slots|
  {
    if best < 0 then forall i :: 0 <= i < n ==> !Candidates(slots, rects, cur, mode, i)
    else
      && best < n && Candidates(slots, rects, cur, mode, best)
      && forall i :: 0 <= i < n && Candidates(slots, rects, cur, mode, i) ==>
        var k, b := Key(rects[cur], rects[i], mode), Key(rects[cur], rects[best], mode);
        b < k || (b == k && best <= i)
  }

  /** pane_in_direction */
  method PaneInDirection(slots: seq<Slot>, rects: seq<Rect>, cur: int, mode: nat) returns (best: int)
    requires |rects| == |slots| && 0 <= cur < |slots|
    ensures -1 <= best < |slots| && Nearest(slots, rects, cur, mode, |slots|, best)
  {
    best := -1;
    var bestKey := 0;
    for i := 0 to |slots|
      invariant -1 <= best < i || best == -1
      invariant Nearest(slots, rects, cur, mode, i, best)
      invariant best >= 0 ==> bestKey == Key(rects[cur], rects[best], mode)
    {
      if slots[i].inUse && i != cur && Beyond(rects[cur], rects[i], mode) {
        var key := Key(rects[cur], rects[i], mode);
        if best < 0 || key < bestKey {
          best, bestKey := i, key;
        }
      }
    }
  }

  /** Steps of one, forward or back, come past every other slot before they are back at the start. */
  lemma RoundTrip(slots: seq<Slot>, start: int, step: int, n: nat)
    requires |slots| == MAX_PANES && 0 <= start < |slots| && (step == 1 || step == MAX_PANES - 1) && slots[start].inUse
    requires n >= MAX_PANES || (1 <= n && Around(start, step, n) == start)
    requires AllFree(slots, start, step, n)
    ensures n <= MAX_PANES && !OtherThan(slots, start)
  {
    assert Around(start, step, 6) == start;
    assert n == 6;
    forall i | 0 <= i < |slots| && i != start
      ensures !slots[i].inUse
    {
      var m := StepsTo(start, i, step);
      assert Around(start, step, m) == i;
    }
  }

  /** How many steps of one, or of one back, lead from one slot to another. */
  lemma StepsTo(start: int, i: int, step: int) returns (m: nat)
    requires 0 <= start < MAX_PANES && 0 <= i < MAX_PANES && i != start && (step == 1 || step == MAX_PANES - 1)
    ensures 1 <= m < MAX_PANES && (start + m * step) % MAX_PANES == i
  {
    m := if step == 1 then (i - start) % 6 else (start - i) % 6;
  }

  lemma AddedSlot(slots: seq<Slot>, k: int, id: nat)
    requires 0 <= k < |slots| && !slots[k].inUse && IdsDistinct(slots) && !LiveId(slots, id) && 1 <= id <= LAST_ID
    requires ZeroFirst(slots)
    ensures var s := slots[k := Slot(true, id)];
      LiveSlots(s) == LiveSlots(slots) + {k} && IdsDistinct(s) && ZeroFirst(s) && LiveId(s, id)
  {
    var s := slots[k := Slot(true, id)];
    forall i | Holder(s, i, 0)
      ensures i == 0
    {
      assert Holder(slots, i, 0);
    }
    assert Holder(s, k, id);
    forall i, j, x | Holder(s, i, x) && Holder(s, j, x)
      ensures i == j
    {
      assert i != k ==> Holder(slots, i, x);
      assert j != k ==> Holder(slots, j, x);
    }
  }

  lemma RemovedSlot(slots: seq<Slot>, k: int)
    requires 0 <= k < |slots| && slots[k].inUse && IdsDistinct(slots) && ZeroFirst(slots)
    ensures var s := slots[k := FREE];
      && LiveSlots(s) == LiveSlots(slots) - {k} && IdsDistinct(s) && ZeroFirst(s)
      && (forall id :: LiveId(slots, id) && id != slots[k].id ==> LiveId(s, id))
      && (OtherThan(slots, k) ==> OtherThan(s, -1))
  {
    var s := slots[k := FREE];
    forall i | Holder(s, i, 0)
      ensures i == 0
    {
      assert Holder(slots, i, 0);
    }
    if OtherThan(slots, k) {
      var i :| 0 <= i < |slots| && i != k && slots[i].inUse;
      assert s[i].inUse;
    }
    forall i, j, x | Holder(s, i, x) && Holder(s, j, x)
      ensures i == j
    {
      assert Holder(slots, i, x) && Holder(slots, j, x);
    }
    forall id | LiveId(slots, id) && id != slots[k].id
      ensures LiveId(s, id)
    {
      assert Holder(s, HolderOf(slots, id), id);
    }
  }

  /** With a free slot there are fewer live panes than the layout has room for. */
  lemma RoomForLeaf(slots: seq<Slot>, t: Tree, free: int)
    requires WellFormed(t) && |slots| == MAX_PANES && LiveSlots(slots) == Panes(t) && 0 <= free < |slots| &&
      !slots[free].inUse
    ensures Leaves(t) < LAYOUT_MAX_LEAVES
  {
    PaneCount(t);
    var all := LiveSlots(slots) + {free};
    IntsBound(all, |slots|);
    assert |all| == |LiveSlots(slots)| + 1;
  }

  lemma {:induction false} IntsBound(s: set<int>, n: nat)
    requires forall i :: i in s ==> 0 <= i < n
    ensures |s| <= n
  {
    var t: set<nat> := set i | i in s && 0 <= i;
    assert t == s;
    AtMost(t, n);
  }

  /** With another live slot the tree is no single leaf. */
  lemma LastLeaf(slots: seq<Slot>, t: Tree, slot: int)
    requires LiveSlots(slots) == Panes(t) && OtherThan(slots, slot)
    requires slot in LiveSlots(slots)
    ensures t.Split?
  {
    var i :| 0 <= i < |slots| && i != slot && slots[i].inUse;
    assert {i, slot} <= Panes(t);
  }
}
