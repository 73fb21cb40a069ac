/** History backfill at attach (app/tauri/src/terminal/backfill.ts): history is paged in before the repaint, live output
    waits behind it, whatever the order of arrival. */
module Backfill {
  import opened Bytes

  const PAGE_LINES: nat := 1000
  const FETCH_MAX: nat := 25000

  type Text = seq<byte>

  datatype Line = Line(num: int, text: Text)

  datatype Stash = Stash(cols: nat, rows: nat, blob: Text)

  /** What comes in for the view besides history. */
  datatype Arrival = Repaint(s: Stash) | Output(bytes: Text)

  /** What the view is told, one call after the other. */
  datatype Call = WriteLine(line: Line) | Pad | Show(a: Arrival)

  datatype State = Waiting | Fetching | Live

  datatype Event =
    | Arrived(bytes: Text)
    | Snapshot(s: Stash, sbLines: int)
    /** A page that starts so many lines after the one asked for. */
    | Page(ahead: nat, lines: seq<Text>)
    | Stall
    | Dispose

  // ---- what the view should be told ----

  function AsLines(ls: seq<Line>): (cs: seq<Call>)
    ensures |cs| == |ls|
  {
    seq(|ls|, i requires 0 <= i < |ls| => WriteLine(ls[i]))
  }

  function AsShows(xs: seq<Arrival>): (cs: seq<Call>)
    ensures |cs| == |xs|
  {
    seq(|xs|, i requires 0 <= i < |xs| => Show(xs[i]))
  }

  /** The latest snapshot of some arrivals. */
  ghost function LatestOf(order: seq<Arrival>): Option<Stash> {
    if |order| == 0 then None
    else if order[|order| - 1].Repaint? then Some(order[|order| - 1].s)
    else LatestOf(order[..|order| - 1])
  }

  /** Their output, in order. */
  ghost function TextsOf(order: seq<Arrival>): seq<Text> {
    if |order| == 0 then []
    else if order[|order| - 1].Output? then TextsOf(order[..|order| - 1]) + [order[|order| - 1].bytes]
    else TextsOf(order[..|order| - 1])
  }

  function Outputs(ts: seq<Text>): (xs: seq<Arrival>)
    ensures |xs| == |ts|
  {
    seq(|ts|, i requires 0 <= i < |ts| => Output(ts[i]))
  }

  /** What was held back, as it is let out: the latest repaint alone, then all output. */
  ghost function Opening(latest: Option<Stash>, texts: seq<Text>): seq<Arrival> {
    (if latest.Some? then [Repaint(latest.value)] else []) + Outputs(texts)
  }

  /** History, a pad exactly if there is any, what was held back up to arrival k, and then the arrivals as they come. */
  ghost function Trace(history: seq<Line>, order: seq<Arrival>, k: nat): seq<Call>
    requires k <= |order|
  {
    Front(history) + AsShows(Opening(LatestOf(order[..k]), TextsOf(order[..k])) + order[k..])
  }

  ghost function Front(history: seq<Line>): seq<Call> {
    AsLines(history) + if history == [] then [] else [Pad]
  }

  /** The calls so far: until the view is live nothing but history, from then on the whole trace. */
  ghost predicate Told(calls: seq<Call>, live: bool, history: seq<Line>, order: seq<Arrival>, k: nat) {
    if live then k <= |order| && calls == Trace(history, order, k) else calls == AsLines(history)
  }

  lemma {:induction false} HeldMore(order: seq<Arrival>, x: Arrival)
    ensures LatestOf(order + [x]) == if x.Repaint? then Some(x.s) else LatestOf(order)
    ensures TextsOf(order + [x]) == TextsOf(order) + if x.Output? then [x.bytes] else []
  {
    assert (order + [x])[..|order|] == order;
  }

  lemma ShowsMore(xs: seq<Arrival>, x: Arrival)
    ensures AsShows(xs + [x]) == AsShows(xs) + [Show(x)]
  {
  }

  /** An arrival while live is shown at once. */
  lemma {:induction false} ToldMore(calls: seq<Call>, history: seq<Line>, order: seq<Arrival>, k: nat, x: Arrival)
    requires Told(calls, true, history, order, k)
    ensures Told(calls + [Show(x)], true, history, order + [x], k)
  {
    var held := Opening(LatestOf(order[..k]), TextsOf(order[..k]));
    assert (order + [x])[..k] == order[..k] && (order + [x])[k..] == order[k..] + [x];
    ShowsMore(held + order[k..], x);
    assert held + (order[k..] + [x]) == (held + order[k..]) + [x];
  }

  /** What the view gets on going live. */
  lemma {:induction false} ToldOpening(calls: seq<Call>, history: seq<Line>, order: seq<Arrival>)
    requires calls == Front(history) + AsShows(Opening(LatestOf(order), TextsOf(order)))
    ensures Told(calls, true, history, order, |order|)
  {
    assert order[..|order|] == order && order[|order|..] == [];
    var held := Opening(LatestOf(order), TextsOf(order));
    assert held + [] == held;
  }

  /** Lines in ascending order, each numbered at least lo and less than hi. */
  ghost predicate Ascending(ls: seq<Line>, lo: int, hi: int) {
    |ls| == 0 || (lo <= ls[|ls| - 1].num < hi && Ascending(ls[..|ls| - 1], lo, ls[|ls| - 1].num))
  }

  /** Ascending means what it says. */
  lemma {:induction false} AscendingPairs(ls: seq<Line>, lo: int, hi: int, i: nat, j: nat)
    requires Ascending(ls, lo, hi) && i < j < |ls|
    ensures lo <= ls[i].num < ls[j].num < hi
  {
    if j < |ls| - 1 {
      AscendingPairs(ls[..|ls| - 1], lo, ls[|ls| - 1].num, i, j);
    } else if i < |ls| - 2 {
      AscendingPairs(ls[..|ls| - 1], lo, ls[|ls| - 1].num, i, |ls| - 2);
    }
  }

  /** What was written of the history, at any time. */
  ghost predicate Kept(history: seq<Line>, wroteAny: bool, oldest: Option<int>, target: int, requested: nat) {
    && (wroteAny <==> history != []) && oldest == (if history == [] then None else Some(history[0].num))
    && Ascending(history, Floor(target), target) && requested <= FETCH_MAX
  }

  /** The first n of a page's lines, numbered. */
  function Numbered(first: int, lines: seq<Text>, n: nat): (ls: seq<Line>)
    requires n <= |lines|
    ensures |ls| == n
  {
    seq(n, i requires 0 <= i < n => Line(first + i, lines[i]))
  }

  lemma {:induction false} AscendingOn(ls: seq<Line>, lo: int, mid: int, first: int, lines: seq<Text>, n: nat, hi: int)
    requires Ascending(ls, lo, mid) && lo <= mid <= first && n <= |lines| && mid <= hi && (n > 0 ==> first + n <= hi)
    ensures Ascending(ls + Numbered(first, lines, n), lo, hi)
  {
    if n == 0 {
      Joined(ls, first, lines, 0);
      Wider(ls, lo, mid, hi);
    } else {
      AscendingOn(ls, lo, mid, first, lines, n - 1, first + n - 1);
      Joined(ls, first, lines, n);
      AscendingSnoc(ls + Numbered(first, lines, n - 1), lo, Line(first + n - 1, lines[n - 1]), hi);
    }
  }

  /** A page on top of lines below mid: ascending below the total, and below the page's end if that is before it. */
  lemma AscendingPage(ls: seq<Line>, lo: int, mid: int, first: int, lines: seq<Text>, n: nat, target: int)
    requires Ascending(ls, lo, mid) && lo <= mid <= first && mid < target && n == Below(first, |lines|, target)
    ensures Ascending(ls + Numbered(first, lines, n), lo, target)
    ensures first + |lines| < target ==> Ascending(ls + Numbered(first, lines, n), lo, first + |lines|)
  {
    AscendingOn(ls, lo, mid, first, lines, n, target);
    if first + |lines| < target {
      AscendingOn(ls, lo, mid, first, lines, n, first + |lines|);
    }
  }

  lemma KeptMore(ls: seq<Line>, wroteAny: bool, oldest: Option<int>, target: int, requested: nat, first: int,
      lines: seq<Text>, n: nat)
    requires Kept(ls, wroteAny, oldest, target, requested) && n <= |lines|
    requires Ascending(ls + Numbered(first, lines, n), Floor(target), target)
    ensures Kept(ls + Numbered(first, lines, n), wroteAny || n > 0,
      if n > 0 && oldest.None? then Some(first) else oldest, target, requested)
  {
    var all := ls + Numbered(first, lines, n);
    assert ls != [] ==> all[0] == ls[0];
    assert ls == [] && n > 0 ==> all[0] == Line(first, lines[0]);
  }

  lemma Joined(ls: seq<Line>, first: int, lines: seq<Text>, n: nat)
    requires n <= |lines|
    ensures ls + Numbered(first, lines, n) ==
      if n == 0 then ls else ls + Numbered(first, lines, n - 1) + [Line(first + n - 1, lines[n - 1])]
  {
  }

  lemma Wider(ls: seq<Line>, lo: int, mid: int, hi: int)
    requires Ascending(ls, lo, mid) && mid <= hi
    ensures Ascending(ls, lo, hi)
  {
  }

  lemma AscendingSnoc(ls: seq<Line>, lo: int, l: Line, hi: int)
    requires Ascending(ls, lo, l.num) && lo <= l.num < hi
    ensures Ascending(ls + [l], lo, hi)
  {
    assert (ls + [l])[..|ls|] == ls;
  }

  /** How many of n lines from first on are below the target. */
  function Below(first: int, n: nat, target: int): (k: nat)
    ensures k <= n && (k == n || first + k >= target)
  {
    if n <= target - first then n else if target > first then target - first else 0
  }

  function Floor(target: int): (f: int)
    ensures 0 <= f && (target > 0 ==> target - FETCH_MAX <= f < target)
  {
    if target - FETCH_MAX > 0 then target - FETCH_MAX else 0
  }

  // ---- where the machine stands, event by event ----

  /** The fetch so far, everything that arrived for the view, and how much of it had when the view went live. */
  datatype Progress = Progress(
    state: State, target: int, nextStart: int, history: seq<Line>, order: seq<Arrival>, openedAt: nat)

  function GoneLive(p: Progress): Progress {
    p.(state := Live, openedAt := |p.order|)
  }

  /** What an event does: the first snapshot begins a fetch up to its total, or none if there is no history; pages add
      their lines below the total, in order, until one is empty or reaches it; a stall ends the fetch. */
  function Advanced(p: Progress, e: Event): Progress {
    match e
    case Arrived(bytes) => p.(order := p.order + [Output(bytes)])
    case Snapshot(s, sbLines) =>
      var q := p.(order := p.order + [Repaint(s)]);
      if p.state != Waiting then q
      else if sbLines <= 0 then GoneLive(q)
      else q.(state := Fetching, target := sbLines, nextStart := Floor(sbLines))
    case Page(ahead, lines) => if p.state == Fetching then Paged(p, p.nextStart + ahead, lines) else p
    case Stall => if p.state == Live then p else GoneLive(p)
    case Dispose => p
  }

  function Paged(p: Progress, first: int, lines: seq<Text>): Progress {
    var q := p.(history := p.history + Numbered(first, lines, Below(first, |lines|, p.target)));
    if |lines| == 0 || first + |lines| >= p.target then GoneLive(q) else q.(nextStart := first + |lines|)
  }

  ghost function AdvancedAll(p: Progress, events: seq<Event>): Progress {
    if |events| == 0 then p else Advanced(AdvancedAll(p, events[..|events| - 1]), events[|events| - 1])
  }

  lemma {:induction false} OneMore(p: Progress, events: seq<Event>, i: nat)
    requires i < |events|
    ensures AdvancedAll(p, events[..i + 1]) == Advanced(AdvancedAll(p, events[..i]), events[i])
  {
    assert events[..i + 1][..i] == events[..i];
  }

  // ---- a fetch that nothing interrupts ----

  /** The texts of all pages, one after the other. */
  ghost function PageTexts(events: seq<Event>): seq<Text> {
    if |events| == 0 then []
    else
      var e := events[|events| - 1];
      PageTexts(events[..|events| - 1]) + if e.Page? then e.lines else []
  }

  /** A page is what was asked for and not empty; nobody gives up. */
  predicate Answers(e: Event) {
    match e
    case Page(ahead, lines) => ahead == 0 && lines != []
    case Stall => false
    case Dispose => false
    case _ => true
  }

  /** Until the view is live. */
  ghost predicate Answered(p: Progress, events: seq<Event>) {
    forall i :: 0 <= i < |events| && AdvancedAll(p, events[..i]).state != Live ==> Answers(events[i])
  }

  /** Of a history of n lines, the number of the first one fetched: the last 25000 are. */
  function FirstFetched(n: nat): nat {
    if n <= 25000 then 0 else n - 25000
  }

  /** The fetch stands where the pages so far reach; with all lines there the view is live. */
  ghost predicate Fetched(q: Progress, texts: seq<Text>, n: nat) {
    var lo := FirstFetched(n);
    && q.history == Numbered(lo, texts, Min(|texts|, n - lo))
    && (if |texts| < n - lo then q.state == Fetching && q.target == n && q.nextStart == lo + |texts|
        else q.state == Live)
  }

  lemma NumberedOn(lo: int, texts: seq<Text>, lines: seq<Text>, k: nat)
    requires k <= |lines|
    ensures Numbered(lo, texts, |texts|) + Numbered(lo + |texts|, lines, k) ==
      Numbered(lo, texts + lines, |texts| + k)
  {
  }

  lemma NumberedPrefix(lo: int, texts: seq<Text>, lines: seq<Text>, k: nat)
    requires k <= |texts|
    ensures Numbered(lo, texts + lines, k) == Numbered(lo, texts, k)
  {
  }

  lemma FetchedMore(q: Progress, texts: seq<Text>, n: nat, e: Event)
    requires Fetched(q, texts, n) && (q.state != Live ==> Answers(e))
    ensures Fetched(Advanced(q, e), texts + if e.Page? then e.lines else [], n)
  {
    var lo := FirstFetched(n);
    if !e.Page? {
      assert texts + [] == texts;
    } else if q.state == Live {
      NumberedPrefix(lo, texts, e.lines, n - lo);
    } else {
      NumberedOn(lo, texts, e.lines, Min(|e.lines|, n - lo - |texts|));
    }
  }

  lemma {:induction false} FetchedAll(p: Progress, events: seq<Event>, n: nat)
    requires Fetched(p, [], n) && Answered(p, events)
    ensures Fetched(AdvancedAll(p, events), PageTexts(events), n)
  {
    if |events| > 0 {
      var m := |events| - 1;
      assert forall i :: 0 <= i < m ==> events[..m][..i] == events[..i];
      FetchedAll(p, events[..m], n);
      FetchedMore(AdvancedAll(p, events[..m]), PageTexts(events[..m]), n, events[m]);
    }
  }

  lemma {:induction false} AfterFirst(p: Progress, events: seq<Event>)
    requires |events| > 0
    ensures AdvancedAll(p, events) == AdvancedAll(Advanced(p, events[0]), events[1..])
  {
    if |events| == 1 {
      assert events[..0] == [] && events[1..] == [];
      assert AdvancedAll(p, []) == p;
    } else {
      var m := |events| - 1;
      assert events[..m][1..] == events[1..][..m - 1];
      AfterFirst(p, events[..m]);
    }
  }

  lemma {:induction false} AnsweredRest(p: Progress, events: seq<Event>)
    requires |events| > 0 && Answered(p, events)
    ensures Answered(Advanced(p, events[0]), events[1..])
  {
    var q := Advanced(p, events[0]);
    forall i | 0 <= i < |events| - 1 && AdvancedAll(q, events[1..][..i]).state != Live
      ensures Answers(events[1..][i])
    {
      AfterFirst(p, events[..i + 1]);
      assert events[..i + 1][1..] == events[1..][..i];
    }
  }

  /** A run in which a first snapshot announces n lines, and then every page starts where it was asked to and brings
      something, with no stall and no disposal before the view is live. */
  ghost predicate Undisturbed(p: Progress, events: seq<Event>, n: nat) {
    && p.state == Waiting && p.history == [] && n > 0 && |events| > 0 && events[0].Snapshot? && events[0].sbLines == n
    && Answered(p, events)
  }

  /** The history is then exactly the last 25000 of the n lines, or all of them, each once and in order under its own
      number, with the texts the pages brought; and the view is live as soon as they are all there. */
  lemma {:induction false} WholeHistory(p: Progress, events: seq<Event>, n: nat)
    requires Undisturbed(p, events, n)
    ensures Fetched(AdvancedAll(p, events), PageTexts(events[1..]), n)
  {
    AfterFirst(p, events);
    AnsweredRest(p, events);
    FetchedAll(Advanced(p, events[0]), events[1..], n);
  }

  /** In the numbers of its lines. */
  lemma HistoryNumbers(q: Progress, texts: seq<Text>, n: nat)
    requires Fetched(q, texts, n) && q.state == Live
    ensures |q.history| == Min(n, 25000)
    ensures forall i :: 0 <= i < |q.history| ==> q.history[i].num == n - |q.history| + i
    ensures |texts| >= |q.history| && forall i :: 0 <= i < |q.history| ==> q.history[i].text == texts[i]
  {
  }

  class Machine {
    var state: State
    var disposed: bool
    var stash: Option<Stash>
    var queued: seq<Text>
    var nextStart: int
    var wroteAny: bool
    var oldest: Option<int>
    var target: int
    /** Every call to the view, and every request for a page, in order. */
    var calls: seq<Call>
    var requests: seq<(int, int)>
    /** The history lines written; output and snapshots as they arrived; how many had when the view went live. */
    ghost var history: seq<Line>
    ghost var order: seq<Arrival>
    ghost var openedAt: nat

    ghost function Now(): Progress
      reads this
    {
      Progress(state, target, nextStart, history, order, openedAt)
    }

    /** Where a fetch stands. */
    ghost predicate Paging()
      reads this
    {
      && Floor(target) <= nextStart < target && |requests| <= 1 + nextStart - Floor(target)
      && Ascending(history, Floor(target), nextStart)
    }

    /** What is held back is the latest snapshot and all output so far; once live, nothing is. */
    ghost predicate Holding()
      reads this
    {
      if state == Live then queued == [] && stash.None?
      else queued == TextsOf(order) && stash == LatestOf(order)
    }

    ghost predicate Valid()
      reads this
    {
      && Kept(history, wroteAny, oldest, target, |requests|) && Told(calls, state == Live, history, order, openedAt)
      && (!disposed ==> Holding() && (state == Fetching ==> stash.Some? && Paging()))
      && (state == Waiting ==> history == [] && requests == [] && target == 0)
    }

    constructor ()
      ensures Valid() && state == Waiting && !disposed && calls == [] && order == []
    {
      state, disposed, stash, queued, nextStart := Waiting, false, None, [], 0;
      wroteAny, oldest, target, calls, requests := false, None, 0, [], [];
      history, order, openedAt := [], [], 0;
    }

    /** Every interleaving of events: whatever the order of arrival, the view is told the history in ascending order
        below the announced total, a pad exactly if there was any, the latest snapshot before going live, all output
        that had to wait, and from then on every arrival as it comes, each exactly once. */
    method Play(events: seq<Event>)
      requires Valid()
      modifies this
      ensures Valid() && (!disposed ==> Now() == AdvancedAll(old(Now()), events))
      ensures Told(calls, state == Live, history, order, openedAt) && Ascending(history, Floor(target), target)
      ensures !disposed ==> forall n :: Undisturbed(old(Now()), events, n) ==> Fetched(Now(), PageTexts(events[1..]), n)
      ensures old(disposed) ==> calls == old(calls)
    {
      for i := 0 to |events|
        invariant Valid() && (old(disposed) ==> disposed && calls == old(calls))
        invariant !disposed ==> Now() == AdvancedAll(old(Now()), events[..i])
      {
        OneMore(old(Now()), events, i);
        Handle(events[i]);
      }
      assert events[..|events|] == events;
      forall n | !disposed && Undisturbed(old(Now()), events, n)
        ensures Fetched(Now(), PageTexts(events[1..]), n)
      {
        WholeHistory(old(Now()), events, n);
      }
    }

    method Handle(e: Event)
      requires Valid()
      modifies this
      ensures Valid() && (old(disposed) ==> disposed && calls == old(calls))
      ensures !disposed ==> Now() == Advanced(old(Now()), e)
    {
      match e {
        case Arrived(bytes) => OnOutput(bytes);
        case Snapshot(s, sbLines) => OnSnapshot(s, sbLines);
        case Page(ahead, lines) => OnPage(ahead, lines);
        case Stall => OnStall();
        case Dispose => OnDispose();
      }
    }

    method OnPage(ahead: nat, lines: seq<Text>)
      requires Valid()
      modifies `history, `calls, `wroteAny, `oldest, `nextStart, `requests, `state, `stash, `queued, `openedAt
      ensures Valid() && (disposed ==> calls == old(calls))
      ensures !disposed ==> Now() == Advanced(old(Now()), Page(ahead, lines))
    {
      OnScrollback(nextStart + ahead, lines);
    }

    /** Shown at once, or held. */
    method OnOutput(bytes: Text)
      requires Valid()
      modifies `queued, `calls, `order
      ensures Valid() && (!disposed ==> Now() == Advanced(old(Now()), Arrived(bytes)))
      ensures calls == old(calls) + if !disposed && state == Live then [Show(Output(bytes))] else []
    {
      if disposed {
        return;
      }
      HeldMore(order, Output(bytes));
      if state == Live {
        ToldMore(calls, history, order, openedAt, Output(bytes));
        calls := calls + [Show(Output(bytes))];
      } else {
        queued := queued + [bytes];
      }
      order := order + [Output(bytes)];
    }

    /** A repaint when live; before, the newer screen takes the place of the older, and the first begins the fetch. */
    method OnSnapshot(s: Stash, sbLines: int)
      requires Valid()
      modifies `calls, `order, `stash, `state, `target, `nextStart, `requests, `queued, `openedAt
      ensures Valid() && old(calls) <= calls && (!disposed ==> Now() == Advanced(old(Now()), Snapshot(s, sbLines)))
      ensures disposed ==> calls == old(calls) && requests == old(requests)
      ensures !disposed && old(state) == Live ==> calls == old(calls) + [Show(Repaint(s))]
      ensures !disposed && old(state) == Fetching ==> calls == old(calls) && stash == Some(s)
      ensures !disposed && old(state) == Waiting && sbLines > 0 ==>
        requests == [(FirstFetched(sbLines), Min(1000, sbLines))]
    {
      if disposed {
        return;
      }
      HeldMore(order, Repaint(s));
      if state == Live {
        ToldMore(calls, history, order, openedAt, Repaint(s));
        calls, order := calls + [Show(Repaint(s))], order + [Repaint(s)];
        return;
      }
      stash, order := Some(s), order + [Repaint(s)];
      if state == Fetching {
        return;
      }
      if sbLines <= 0 {
        Finish();
      } else {
        BeginFetch(sbLines);
      }
    }

    method BeginFetch(sbLines: int)
      requires !disposed && state == Waiting && sbLines > 0 && history == [] && requests == [] && calls == []
      requires Holding() && stash.Some? && !wroteAny && oldest.None?
      modifies `state, `target, `nextStart, `requests
      ensures Valid() && Now() == old(Now()).(state := Fetching, target := sbLines, nextStart := Floor(sbLines))
      ensures requests == [(FirstFetched(sbLines), Min(1000, sbLines))]
    {
      state, target := Fetching, sbLines;
      nextStart := Floor(sbLines);
      RequestNext();
    }

    method RequestNext()
      modifies `requests
      ensures requests == old(requests) + [(nextStart, Min(PAGE_LINES, target - nextStart))]
    {
      requests := requests + [(nextStart, Min(PAGE_LINES, target - nextStart))];
    }

    /** A page. It never starts before what was asked for; a late one, after the repaint, changes nothing. Either the
        fetch is over or the next request starts later, so paging ends. */
    method OnScrollback(firstSeq: int, lines: seq<Text>)
      requires Valid() && (!disposed && state == Fetching ==> firstSeq >= nextStart)
      modifies `history, `calls, `wroteAny, `oldest, `nextStart, `requests, `state, `stash, `queued, `openedAt
      ensures Valid() && old(calls) <= calls
      ensures disposed || old(state) != Fetching ==> Now() == old(Now()) && calls == old(calls)
      ensures !disposed && old(state) == Fetching ==> Now() == Paged(old(Now()), firstSeq, lines)
      ensures !disposed && old(state) == state == Fetching ==>
        && nextStart == firstSeq + |lines| > old(nextStart)
        && requests == old(requests) + [(nextStart, Min(1000, target - nextStart))]
      ensures disposed || state != Fetching ==> requests == old(requests)
    {
      if disposed || state != Fetching {
        return;
      }
      WriteLines(firstSeq, lines);
      Settle(firstSeq, |lines|);
    }

    /** Done after an empty page or the last one, else on to the next. */
    method Settle(firstSeq: int, n: nat)
      requires state == Fetching && !disposed && Floor(target) <= nextStart <= firstSeq && nextStart < target
      requires |requests| <= 1 + nextStart - Floor(target) && Holding() && stash.Some? && calls == AsLines(history)
      requires Kept(history, wroteAny, oldest, target, |requests|)
      requires firstSeq + n < target ==> Ascending(history, Floor(target), firstSeq + n)
      modifies `nextStart, `requests, `state, `stash, `queued, `calls, `openedAt
      ensures Valid() && old(calls) <= calls
      ensures Now() ==
        if n == 0 || firstSeq + n >= target then GoneLive(old(Now())) else old(Now()).(nextStart := firstSeq + n)
      ensures requests == old(requests) +
        if state == Live then [] else [(nextStart, Min(1000, target - nextStart))]
    {
      var covered := firstSeq + n;
      if n == 0 || covered >= target {
        Finish();
        return;
      }
      nextStart := covered;
      RequestNext();
    }

    /** The lines of a page below the announced total go to the view. */
    method WriteLines(firstSeq: int, lines: seq<Text>)
      requires Valid() && !disposed && state == Fetching && firstSeq >= nextStart
      modifies `history, `calls, `wroteAny, `oldest
      ensures history == old(history) + Numbered(firstSeq, lines, Below(firstSeq, |lines|, target))
      ensures calls == AsLines(history) && old(calls) <= calls
      ensures firstSeq + |lines| < target ==> Ascending(history, Floor(target), firstSeq + |lines|)
      ensures Kept(history, wroteAny, oldest, target, |requests|)
    {
      var room := if target > firstSeq then target - firstSeq else 0;
      var show := Min(|lines|, room);
      AscendingPage(history, Floor(target), nextStart, firstSeq, lines, show, target);
      KeptMore(history, wroteAny, oldest, target, |requests|, firstSeq, lines, show);
      PushLines(firstSeq, lines, show);
      if show > 0 {
        wroteAny := true;
        if oldest.None? {
          oldest := Some(firstSeq);
        }
      }
    }

    method PushLines(firstSeq: int, lines: seq<Text>, show: nat)
      requires show <= |lines| && calls == AsLines(history)
      modifies `history, `calls
      ensures history == old(history) + Numbered(firstSeq, lines, show) && calls == AsLines(history) &&
        old(calls) <= calls
    {
      for i := 0 to show
        invariant history == old(history) + Numbered(firstSeq, lines, i) && calls == AsLines(history) &&
          old(calls) <= calls
      {
        calls := calls + [WriteLine(Line(firstSeq + i, lines[i]))];
        history := history + [Line(firstSeq + i, lines[i])];
      }
    }

    method OnStall()
      requires Valid()
      modifies `state, `stash, `queued, `calls, `openedAt
      ensures Valid() && old(calls) <= calls && (!disposed ==> Now() == Advanced(old(Now()), Stall))
      ensures disposed || old(state) == Live ==> calls == old(calls)
    {
      if !disposed && state != Live {
        Finish();
      }
    }

    method OnDispose()
      requires Valid()
      modifies `disposed, `queued, `stash
      ensures Valid() && disposed && queued == [] && stash.None?
    {
      disposed, queued, stash := true, [], None;
    }

    /** The pad if there was history, the latest repaint, then all that was held back. */
    method Finish()
      requires !disposed && state != Live && Holding() && calls == AsLines(history)
      requires Kept(history, wroteAny, oldest, target, |requests|)
      modifies `state, `stash, `queued, `calls, `openedAt
      ensures Valid() && Now() == GoneLive(old(Now())) && old(calls) <= calls
    {
      state := Live;
      if wroteAny {
        calls := calls + [Pad];
      }
      assert calls == Front(history);
      LetOut();
      ToldOpening(calls, history, order);
      openedAt := |order|;
    }

    /** The stashed repaint, then the queue. */
    method LetOut()
      modifies `stash, `queued, `calls
      ensures stash.None? && queued == [] && calls == old(calls) + AsShows(Opening(old(stash), old(queued)))
    {
      ghost var told: seq<Arrival> := [];
      if stash.Some? {
        calls, told := calls + [Show(Repaint(stash.value))], [Repaint(stash.value)];
        stash := None;
      }
      for i := 0 to |queued|
        invariant calls == old(calls) + AsShows(told + Outputs(queued[..i]))
        modifies `calls
      {
        assert told + Outputs(queued[..i + 1]) == (told + Outputs(queued[..i])) + [Output(queued[i])];
        ShowsMore(told + Outputs(queued[..i]), Output(queued[i]));
        calls := calls + [Show(Output(queued[i]))];
      }
      assert queued[..|queued|] == queued;
      queued := [];
    }
  }
}
