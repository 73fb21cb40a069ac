/** The compositor at work (src/daemon/composite.c): loops that emit a frame from the panes' engines, the one place
    where damage is cleared, and the engines following their rectangles. */
module Compositor {
  import opened Bytes
  import opened Cells
  import opened SplitTree
  import opened Layout
  import opened Tiling
  import opened Picture
  import opened Composite
  import opened Clients
  import opened Screen
  import M = Machine
  import D = Dispatch

  /** A pane slot: its wire id, where it is drawn, its screen and its parser. */
  datatype Slot = Free | Live(id: nat, rect: Rect, vt: Vt, machine: M.ParserMachine)

  ghost function Engines(slots: seq<Slot>): set<Vt> {
    set i | 0 <= i < |slots| && slots[i].Live? :: slots[i].vt
  }

  ghost function Parsers(slots: seq<Slot>): set<M.ParserMachine> {
    set i | 0 <= i < |slots| && slots[i].Live? :: slots[i].machine
  }

  ghost predicate Sane(slots: seq<Slot>)
    reads Engines(slots)
  {
    forall i :: 0 <= i < |slots| && slots[i].Live? ==> slots[i].vt.Valid()
  }

  ghost predicate ParsersSane(slots: seq<Slot>)
    reads Parsers(slots)
  {
    forall i :: 0 <= i < |slots| && slots[i].Live? ==> slots[i].machine.Valid()
  }

  /** No two panes share a screen or a parser. */
  ghost predicate Distinct(slots: seq<Slot>) {
    forall i, j :: 0 <= i < j < |slots| && slots[i].Live? && slots[j].Live? ==>
      slots[i].vt != slots[j].vt && slots[i].machine != slots[j].machine
  }

  ghost function Reported(vt: Vt): set<nat>
    reads vt
  {
    if vt.dirtyAll then Span(0, vt.rows) else vt.dirty
  }

  /** A pane as the compositor sees it. */
  ghost function Now(sl: Slot): Option<PaneView>
    requires sl.Live? ==> sl.vt.Valid()
    reads if sl.Live? then {sl.vt} else {}
  {
    if sl.Free? then None else Some(PaneView(sl.id, sl.rect, sl.vt.Visible(), Reported(sl.vt)))
  }

  /** The panes slot by slot. */
  ghost function Shots(slots: seq<Slot>): seq<Option<PaneView>>
    requires Sane(slots)
    reads Engines(slots)
  {
    seq(|slots|,
      i requires 0 <= i < |slots| && (slots[i].Live? ==> slots[i].vt in Engines(slots) && slots[i].vt.Valid())
      reads Engines(slots) => Now(slots[i]))
  }

  ghost function SceneNow(ns: seq<Node>, slots: seq<Slot>, zoomed: nat): Scene
    requires Sane(slots)
    reads Engines(slots)
  {
    Scene(ns, Shots(slots), zoomed)
  }

  function LiveCount(slots: seq<Slot>): nat {
    if |slots| == 0 then 0 else LiveCount(slots[..|slots| - 1]) + if slots[|slots| - 1].Live? then 1 else 0
  }

  ghost function LiveIndices(slots: seq<Slot>): set<nat> {
    set i: nat | i < |slots| && slots[i].Live?
  }

  /** The count is that of the live slots. */
  lemma {:induction false} LiveCounted(slots: seq<Slot>)
    ensures LiveCount(slots) == |LiveIndices(slots)|
  {
    if |slots| > 0 {
      var n := |slots| - 1;
      LiveCounted(slots[..n]);
      assert LiveIndices(slots) == LiveIndices(slots[..n]) + if slots[n].Live? then {n} else {};
    }
  }

  // ---- emitting a frame ----

  /** emit_pane_row */
  method EmitPaneRow(line: Row, cols: nat) returns (out: seq<Glyph>)
    ensures out == Emission(line, cols)
  {
    var draw := Min(cols, |line|);
    out := [];
    for c := 0 to draw
      invariant out == Cellwise(line, draw, c)
    {
      var cell := line[c];
      if !cell.spacer {
        if cell.wide && c + 1 >= draw {
          out := out + [Glyph(0x20, 0, cell.fg, cell.bg, cell.style)];
        } else if cell.wide {
          out := out + [GlyphOf(cell), RightHalf];
        } else {
          out := out + [GlyphOf(cell)];
        }
      }
    }
    out := out + Spaces(cols - draw);
  }

  /** emit_dividers */
  method EmitDividers(ns: seq<Node>) returns (runs: seq<Run>)
    ensures runs == DividerRuns(ns, |ns|)
  {
    runs := [];
    for i := 0 to |ns|
      invariant runs == DividerRuns(ns, i)
    {
      var n := ns[i];
      if n.inUse && !n.leaf && 0 <= n.child0 < |ns| {
        var d := DrawnDivider(n, ns[n.child0]);
        if n.stacked {
          runs := runs + [Run(d.x, d.y, seq(d.cols, j => RULE))];
        } else {
          var bars := [];
          for r := 0 to d.rows
            invariant bars == BarRuns(d.x, d.y, r)
          {
            bars := bars + [Run(d.x, d.y + r, [BAR])];
          }
          runs := runs + bars;
        }
      }
    }
  }

  /** The rows of one pane */
  method EmitPane(sl: Slot, full: bool) returns (runs: seq<Run>)
    requires sl.Live? && sl.vt.Valid()
    ensures runs == PaneRuns(Now(sl).value, full, Composite.Height(Now(sl).value))
  {
    runs := [];
    var vt := sl.vt;
    ghost var p := Now(sl).value;
    var rows := Min(sl.rect.rows, vt.rows);
    for r := 0 to rows
      invariant runs == PaneRuns(p, full, r)
    {
      if full || vt.RowDirty(r) {
        var out := EmitPaneRow(vt.Visible()[r], sl.rect.cols);
        runs := runs + [Run(sl.rect.x, sl.rect.y + r, out)];
      }
    }
  }

  /** The rows of all panes that are drawn */
  method EmitRows(ns: seq<Node>, slots: seq<Slot>, zoomed: nat, full: bool) returns (runs: seq<Run>)
    requires Sane(slots)
    ensures runs == RowRuns(SceneNow(ns, slots, zoomed), full, |slots|)
  {
    runs := [];
    ghost var s := SceneNow(ns, slots, zoomed);
    for i := 0 to |slots|
      invariant runs == RowRuns(s, full, i) && s == SceneNow(ns, slots, zoomed)
    {
      if slots[i].Live? && (zoomed == NO_ZOOM || slots[i].id == zoomed) {
        var more := EmitPane(slots[i], full);
        runs := runs + more;
      }
    }
  }

  /** composite_frame, as the runs it draws */
  method CompositeFrame(ns: seq<Node>, slots: seq<Slot>, zoomed: nat, full: bool) returns (runs: seq<Run>)
    requires Sane(slots)
    ensures runs == Frame(SceneNow(ns, slots, zoomed), full)
  {
    runs := EmitRows(ns, slots, zoomed, full);
    ghost var s := SceneNow(ns, slots, zoomed);
    var bars: seq<Run> := [];
    if full && zoomed == NO_ZOOM {
      bars := EmitDividers(ns);
      assert s == SceneNow(ns, slots, zoomed);
    }
    runs := runs + bars;
  }

  // ---- output of a pane ----

  /** vt_feed on a pane */
  method FeedPane(sl: Slot, data: seq<byte>)
    requires sl.Live? && sl.vt.Valid() && sl.machine.Valid()
    modifies sl.vt, sl.machine
    ensures sl.vt.Valid() && Fed(old(Now(sl)), Now(sl))
    ensures sl.machine.Valid() && sl.machine.fed == old(sl.machine.fed) + data
  {
    ghost var before := Now(sl);
    D.FeedVt(sl.vt, sl.machine, data);
    assert Shaped(before.value.grid, old(sl.vt.rows), old(sl.vt.cols));
    assert Shaped(sl.vt.Visible(), sl.vt.rows, sl.vt.cols);
  }

  /** Output of one pane touches no other. */
  method FeedSlot(slots: seq<Slot>, i: nat, data: seq<byte>)
    requires Sane(slots) && Distinct(slots) && i < |slots| && slots[i].Live? && slots[i].machine.Valid()
    modifies slots[i].vt, slots[i].machine
    ensures Sane(slots) && slots[i].machine.Valid() && slots[i].machine.fed == old(slots[i].machine.fed) + data
    ensures forall j :: 0 <= j < |slots| ==> Fed(old(Shots(slots))[j], Shots(slots)[j])
  {
    ghost var before := Shots(slots);
    FeedPane(slots[i], data);
    forall j | 0 <= j < |slots| && j != i
      ensures slots[j].Live? ==> slots[j].vt.Valid()
      ensures Now(slots[j]) == before[j]
    {
    }
  }

  /** pane_alloc: a pane with a screen and a parser of its own */
  method NewPane(id: nat, rect: Rect, width: nat -> nat, combining: nat -> bool) returns (sl: Slot)
    requires Tables(width, combining)
    ensures sl.Live? && sl.id == id && sl.rect == rect && fresh(sl.vt) && fresh(sl.machine)
    ensures sl.vt.Valid() && sl.vt.dirtyAll && sl.machine.Valid()
  {
    var vt := new Vt(rect.rows, rect.cols, width, combining);
    var machine := new M.ParserMachine();
    sl := Live(id, rect, vt, machine);
  }

  // ---- clearing damage ----

  ghost predicate SomeDirty(slots: seq<Slot>)
    reads Engines(slots)
  {
    exists i :: 0 <= i < |slots| && slots[i].Live? && slots[i].vt.AnyDirty()
  }

  method AnyDirty(slots: seq<Slot>) returns (any: bool)
    requires Sane(slots)
    ensures any == SomeDirty(slots)
  {
    for i := 0 to |slots|
      invariant forall j :: 0 <= j < i && slots[j].Live? ==> !slots[j].vt.AnyDirty()
    {
      if slots[i].Live? && slots[i].vt.AnyDirty() {
        return true;
      }
    }
    return false;
  }

  /** vt_damage_clear on every pane */
  method ClearDamage(slots: seq<Slot>)
    requires Sane(slots)
    modifies Engines(slots)`dirty, Engines(slots)`dirtyAll, Engines(slots)`shadow
    ensures Sane(slots)
    ensures forall i :: 0 <= i < |slots| && slots[i].Live? ==> !slots[i].vt.AnyDirty()
  {
    for i := 0 to |slots|
      invariant Sane(slots)
      invariant forall j :: 0 <= j < i && slots[j].Live? ==> !slots[j].vt.AnyDirty()
    {
      if slots[i].Live? {
        slots[i].vt.DamageClear();
      }
    }
  }

  /** The session's picture is what it was, without damage. */
  method ClearScene(ns: seq<Node>, slots: seq<Slot>, zoomed: nat)
    requires Sane(slots)
    modifies Engines(slots)`dirty, Engines(slots)`dirtyAll, Engines(slots)`shadow
    ensures Sane(slots) && SameScene(old(SceneNow(ns, slots, zoomed)), SceneNow(ns, slots, zoomed))
    ensures Undamaged(SceneNow(ns, slots, zoomed))
  {
    ClearDamage(slots);
  }

  // ---- geometry ----

  /** The slots with the first n rectangles replaced. */
  function Moved(slots: seq<Slot>, rects: seq<Rect>, n: nat): seq<Slot>
    requires |rects| == |slots|
  {
    seq(|slots|, i requires 0 <= i < |slots| =>
      if i < n && slots[i].Live? then slots[i].(rect := rects[i]) else slots[i])
  }

  lemma MovedSame(slots: seq<Slot>, rects: seq<Rect>, n: nat)
    requires |rects| == |slots|
    ensures Engines(Moved(slots, rects, n)) == Engines(slots) && Parsers(Moved(slots, rects, n)) == Parsers(slots)
    ensures Distinct(slots) ==> Distinct(Moved(slots, rects, n))
  {
    var m := Moved(slots, rects, n);
    forall i | 0 <= i < |slots|
      ensures m[i].Live? == slots[i].Live? &&
        (m[i].Live? ==> m[i].vt == slots[i].vt && m[i].machine == slots[i].machine)
    {
    }
  }

  lemma {:induction false} SameCount(a: seq<Slot>, b: seq<Slot>)
    requires |a| == |b| && forall i :: 0 <= i < |a| ==> a[i].Live? == b[i].Live?
    ensures LiveCount(a) == LiveCount(b)
  {
    if |a| > 0 {
      SameCount(a[..|a| - 1], b[..|b| - 1]);
    }
  }

  ghost predicate Sized(vt: Vt, r: Rect)
    reads vt
  {
    vt.rows == Clamp(r.rows, ROWS_MAX) && vt.cols == Clamp(r.cols, COLS_MAX)
  }

  predicate SameSize(a: Rect, b: Rect) {
    a.rows == b.rows && a.cols == b.cols
  }

  method ResizeTo(vt: Vt, r: Rect)
    requires vt.Valid()
    modifies vt
    ensures vt.Valid() && Sized(vt, r)
  {
    vt.Resize(r.rows, r.cols);
  }

  /** session_apply_layout, the engines: a pane whose rectangle has another size is resized to it. */
  method ResizeAll(slots: seq<Slot>, rects: seq<Rect>)
    requires Sane(slots) && Distinct(slots) && |rects| == |slots|
    modifies Engines(slots)
    ensures Sane(slots)
    ensures forall i :: 0 <= i < |slots| && slots[i].Live? ==>
      if SameSize(rects[i], slots[i].rect) then Now(slots[i]) == old(Now(slots[i])) else Sized(slots[i].vt, rects[i])
  {
    for i := 0 to |slots|
      invariant Sane(slots)
      invariant forall j :: i <= j < |slots| && slots[j].Live? ==> Now(slots[j]) == old(Now(slots[j]))
      invariant forall j :: 0 <= j < i && slots[j].Live? ==>
        if SameSize(rects[j], slots[j].rect) then Now(slots[j]) == old(Now(slots[j])) else Sized(slots[j].vt, rects[j])
    {
      if slots[i].Live? && !SameSize(rects[i], slots[i].rect) {
        ResizeTo(slots[i].vt, rects[i]);
      }
    }
  }
}
