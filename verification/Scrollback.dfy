/** The scrollback store of src/common/scrollback.c: the ring of recent lines over the two log generations,
    opening it on what a crash left behind, pushing lines and fetching pages at any depth. */
module Scrollback {
  import opened Bytes
  import opened Log
  import opened DiskFormat
  import opened History
  import opened LineRing
  import opened LogIndex
  import opened Generations

  const MEM_LINES_DEFAULT: nat := 10000
  const FILE_MAX_DEFAULT: nat := 0x200_0000

  /** The two files of one store; a file that does not exist is None. */
  datatype Disk = Disk(prev: Option<seq<byte>>, cur: Option<seq<byte>>)

  /** A disk as a run of the store leaves it: whole records of consecutive lines, the current log cut anywhere. */
  ghost predicate DiskHolds(f: Format, d: Disk, prev: seq<Rec>, cur: seq<Rec>, cut: nat) {
    && Contiguous(prev + cur)
    && (d.prev == Some(Encode(f, prev)) || (d.prev == None && prev == []))
    && cut <= |Encode(f, cur)|
    && (d.cur == Some(Encode(f, cur)[..cut]) || (d.cur == None && cur == []))
  }

  ghost function NextNo(rs: seq<Rec>): nat {
    if rs == [] then 0 else rs[|rs| - 1].no + 1
  }

  /** Numbering resumes behind both generations. */
  lemma NextNoMax(a: seq<Rec>, b: seq<Rec>)
    requires Contiguous(a + b)
    ensures NextNo(a + b) == if NextNo(b) > NextNo(a) then NextNo(b) else NextNo(a)
  {
    ContiguousPart(a, b);
    if b != [] {
      assert (a + b)[|a + b| - 1] == b[|b| - 1];
      if a != [] {
        assert a[|a| - 1].no == a[0].no + (|a| - 1) && b[|b| - 1].no == b[0].no + (|b| - 1);
      }
    } else {
      assert a + b == a;
    }
  }

  lemma SliceSnoc<T>(a: seq<T>, b: seq<T>, k: nat, j: nat)
    requires k <= j < |b|
    ensures a + b[k..j] + [b[j]] == a + b[k..j + 1]
  {
  }

  /** A ring of n that held was, after lines k to j of rs were put into it. */
  ghost function Fed(was: seq<Rec>, rs: seq<Rec>, k: nat, j: nat, n: nat): seq<Rec>
    requires k <= j <= |rs|
    decreases j
  {
    if j == k then was else Last(Fed(was, rs, k, j - 1, n) + [rs[j - 1]], n)
  }

  lemma {:induction false} FedIsLast(was: seq<Rec>, rs: seq<Rec>, k: nat, j: nat, n: nat)
    requires k <= j <= |rs| && |was| <= n && n > 0
    ensures Fed(was, rs, k, j, n) == Last(was + rs[k..j], n)
    decreases j
  {
    if j == k {
      assert was + rs[k..k] == was;
    } else {
      FedIsLast(was, rs, k, j - 1, n);
      SliceSnoc(was, rs, k, j - 1);
      FedOne(Fed(was, rs, k, j - 1, n), was + rs[k..j - 1], rs[j - 1], was + rs[k..j], n);
    }
  }

  lemma FedOne(fed: seq<Rec>, a: seq<Rec>, r: Rec, b: seq<Rec>, n: nat)
    requires fed == Last(a, n) && b == a + [r] && n > 0
    ensures Last(fed + [r], n) == Last(b, n)
  {
    LastSnoc(a, r, n);
  }

  lemma RefillStep(was: seq<Rec>, rs: seq<Rec>, k: nat, j: nat, n: nat)
    requires k <= j < |rs|
    ensures Fed(was, rs, k, j + 1, n) == Last(Fed(was, rs, k, j, n) + [rs[j]], n)
  {
  }

  /** Reading at the start of record j finds it, and behind the last record nothing. */
  ghost predicate ReadsAt(f: Format, file: seq<byte>, rs: seq<Rec>, j: nat)
    requires j <= |rs|
  {
    f.read(file, Offset(rs, j)) == if j < |rs| then Some(rs[j]) else None
  }

  /** read_one_log_from into the ring: every record of the file from record k on. */
  method Refill(f: Format, file: seq<byte>, tail: nat, ring: Ring, ghost rs: seq<Rec>, ghost k: nat)
    requires ring.Valid() && k <= |rs| && tail == Offset(rs, k)
    requires forall j :: 0 <= j <= |rs| ==> ReadsAt(f, file, rs, j)
    modifies ring, ring.slots
    ensures ring.Valid()
    ensures ring.held == Last(old(ring.held) + rs[k..|rs|], ring.slots.Length)
  {
    ghost var was, n := ring.held, ring.slots.Length;
    assert |was| <= n;
    ghost var j := k;
    var off := tail;
    assert ReadsAt(f, file, rs, j);
    var r := f.read(file, off);
    while r.Some?
      invariant ring.Valid() && k <= j <= |rs| && off == Offset(rs, j)
      invariant r == if j < |rs| then Some(rs[j]) else None
      invariant ring.held == Fed(was, rs, k, j, n)
      decreases |rs| - j
    {
      RefillStep(was, rs, k, j, n);
      ring.Put(r.value);
      off := off + Size(r.value);
      assert off == Offset(rs, j + 1) && ReadsAt(f, file, rs, j + 1);
      j := j + 1;
      r := f.read(file, off);
    }
    FedIsLast(was, rs, k, |rs|, n);
  }

  lemma ScanReadsAt(f: Format, file: seq<byte>)
    requires Faithful(f)
    ensures var rs := Scan(f, file, 0); forall j :: 0 <= j <= |rs| ==> ReadsAt(f, file, rs, j)
  {
    var rs := Scan(f, file, 0);
    forall j | 0 <= j <= |rs| ensures ReadsAt(f, file, rs, j) {
      ScanRead(f, file, rs, j);
    }
  }

  /** How disk and ring relate to all the lines there were: the disk holds the latest of them, the ring the last mem. */
  ghost predicate Linked(prev: seq<Rec>, cur: seq<Rec>, held: seq<Rec>, lines: seq<Rec>, next: nat, mem: nat) {
    && Contiguous(lines) && IsSuffix(prev + cur, lines) && (lines != [] ==> prev + cur != [])
    && next == NextNo(lines)
    && held == Last(lines, mem)
  }

  /** One more line, with the older generation kept or dropped. */
  lemma LinkedPush(prev: seq<Rec>, cur: seq<Rec>, held: seq<Rec>, lines: seq<Rec>, next: nat, mem: nat, r: Rec)
    requires Linked(prev, cur, held, lines, next, mem) && r.no == next && mem > 0
    ensures Linked(prev, cur + [r], Last(held + [r], mem), lines + [r], next + 1, mem)
    ensures Linked(cur + [r], [], Last(held + [r], mem), lines + [r], next + 1, mem)
  {
    LastSnoc(lines, r, mem);
    ContiguousSnoc(lines, r);
    DiskPush(prev, cur, lines, r);
  }

  lemma ContiguousSnoc(lines: seq<Rec>, r: Rec)
    requires Contiguous(lines) && r.no == NextNo(lines)
    ensures Contiguous(lines + [r]) && NextNo(lines + [r]) == r.no + 1
  {
    assert lines != [] ==> lines[|lines| - 1].no == lines[0].no + (|lines| - 1);
  }

  lemma DiskPush(prev: seq<Rec>, cur: seq<Rec>, lines: seq<Rec>, r: Rec)
    requires IsSuffix(prev + cur, lines)
    ensures IsSuffix(prev + (cur + [r]), lines + [r]) && IsSuffix(cur + [r] + [], lines + [r])
    ensures |prev + (cur + [r])| > 0 && |cur + [r] + []| > 0
  {
    assert prev + (cur + [r]) == prev + cur + [r];
    assert cur + [r] + [] == cur + [r];
    SuffixSnoc(prev + cur, lines, r);
    assert cur == (prev + cur)[|prev|..] == lines[|lines| - |cur|..];
    SuffixSnoc(cur, lines, r);
  }

  lemma SuffixSnoc(a: seq<Rec>, b: seq<Rec>, r: Rec)
    requires IsSuffix(a, b)
    ensures IsSuffix(a + [r], b + [r])
  {
  }

  lemma SuffixContiguous(a: seq<Rec>, b: seq<Rec>)
    requires Contiguous(b) && IsSuffix(a, b)
    ensures Contiguous(a)
  {
    assert forall i :: 0 <= i < |a| ==> a[i] == b[|b| - |a| + i];
  }

  lemma LinkedParts(prev: seq<Rec>, cur: seq<Rec>, held: seq<Rec>, lines: seq<Rec>, next: nat, mem: nat)
    requires Linked(prev, cur, held, lines, next, mem)
    ensures Contiguous(held) && Contiguous(prev) && Contiguous(cur) && IsSuffix(held, lines)
  {
    SuffixContiguous(held, lines);
    SuffixContiguous(prev + cur, lines);
    ContiguousPart(prev, cur);
  }

  /** A start before the ring's first line is before the end of the logs. */
  lemma BeforeRing(prev: seq<Rec>, cur: seq<Rec>, held: seq<Rec>, lines: seq<Rec>, next: nat, mem: nat, start: nat)
    requires Linked(prev, cur, held, lines, next, mem) && mem > 0
    ensures held == [] || start < held[0].no ==> Reaches(prev, cur, start)
  {
    if prev + cur != [] && held != [] {
      assert held[|held| - 1] == lines[|lines| - 1] == (prev + cur)[|prev + cur| - 1];
    }
  }

  /** out is the plain page of all lines on disk or staged whenever the text buffer holds that page, except for a
      request that starts at a line the ring still holds and rotation has already dropped from disk. */
  ghost predicate AnswersHistory(prev: seq<Rec>, cur: seq<Rec>, held: seq<Rec>, start: nat, n: nat, room: nat,
      out: seq<Rec>) {
    prev + cur != [] && PageFits(prev + cur, start, n, room) ==>
      (out == PlainPage(prev + cur, start, n)
       <==> !(held != [] && held[0].no <= start < (prev + cur)[0].no && n > 0))
  }

  lemma DeepAnswers(prev: seq<Rec>, cur: seq<Rec>, held: seq<Rec>, lines: seq<Rec>, next: nat, mem: nat,
                    start: nat, n: nat, room: nat)
    requires Linked(prev, cur, held, lines, next, mem)
    ensures AnswersHistory(prev, cur, held, start, n, room, Deep(prev, cur, held, start, n, room))
  {
    LinkedParts(prev, cur, held, lines, next, mem);
    if prev + cur != [] && PageFits(prev + cur, start, n, room) {
      DeepIsHistory(prev, cur, held, lines, start, n, room);
    }
  }

  function Mem(memLines: nat): (n: nat)
    ensures n > 0
  {
    if memLines == 0 then MEM_LINES_DEFAULT else memLines
  }

  function Cap(fileMax: nat): nat {
    if fileMax == 0 then FILE_MAX_DEFAULT else fileMax
  }

  /** Whether the oldest line the ring holds is no later than start. */
  method HoldsFrom(ring: Ring, start: nat) returns (yes: bool)
    requires ring.Valid()
    ensures yes <==> ring.held != [] && start >= ring.held[0].no
  {
    if ring.count == 0 {
      return false;
    }
    var first := ring.At(0);
    yes := start >= first.no;
  }

  /** The ring for what it holds, else the disk. */
  method ServeParts(log: LogFiles, ring: Ring, start: nat, n: nat, room: nat) returns (out: seq<Rec>)
    requires log.Valid() && ring.Valid() && Contiguous(ring.held) && Contiguous(log.prev) && Contiguous(log.cur)
    modifies log`curFile, log`fileSize, log`wbuf, log`recsSwept
    ensures log.Valid() && out == Deep(log.prev, log.cur, ring.held, start, n, room)
    ensures (ring.held != [] && start >= ring.held[0].no) || Reaches(log.prev, log.cur, start) ==>
      old(log.recsSwept) <= log.recsSwept < old(log.recsSwept) + INDEX_STEP
  {
    var recent;
    recent, out := ServeRing(ring, start, n);
    if !recent {
      out := log.Fetch(start, n, room);
    }
  }

  method ServeRing(ring: Ring, start: nat, n: nat) returns (recent: bool, out: seq<Rec>)
    requires ring.Valid() && Contiguous(ring.held)
    ensures recent <==> ring.held != [] && start >= ring.held[0].no
    ensures recent ==> out == PlainPage(ring.held, start, n)
  {
    recent := HoldsFrom(ring, start);
    out := [];
    if recent {
      out := ring.Fetch(start, n);
    }
  }

  /** One more line in the ring and in the log. */
  method PutBoth(log: LogFiles, ring: Ring, r: Rec)
    requires log.Valid() && ring.Valid()
    modifies log, ring, ring.slots
    ensures log.Valid() && ring.Valid() && ring.held == Last(old(ring.held) + [r], ring.slots.Length)
    ensures if Offset(old(log.cur), |old(log.cur)|) + Size(r) < log.fileMax
      then log.prev == old(log.prev) && log.cur == old(log.cur) + [r]
      else log.prev == old(log.cur) + [r] && log.cur == []
  {
    ring.Put(r);
    assert unchanged(log) && log.Valid();
    ghost var held := ring.held;
    log.Append(r);
    assert ring.Valid() && ring.held == held;
  }

  /** The lists after a push. */
  ghost function Pushed(m: Model, r: Rec, cap: nat): Model {
    if Offset(m.cur, |m.cur|) + Size(r) < cap then Model(m.prev, m.cur + [r], m.lines + [r])
    else Model(m.cur + [r], [], m.lines + [r])
  }

  lemma PushFollows(m: Model, r: Rec, cap: nat)
    requires r.no == NextNo(m.lines)
    ensures Following(m, Event.Push(r.text), cap) == Pushed(m, r, cap) && Pushed(m, r, cap).lines == m.lines + [r]
  {
  }

  ghost predicate Tied(m: Model, held: seq<Rec>, next: nat, mem: nat) {
    Linked(m.prev, m.cur, held, m.lines, next, mem)
  }

  lemma TiedPush(m: Model, held: seq<Rec>, next: nat, mem: nat, r: Rec, cap: nat)
    requires Tied(m, held, next, mem) && r.no == next && mem > 0
    ensures Tied(Pushed(m, r, cap), Last(held + [r], mem), next + 1, mem)
  {
    LinkedPush(m.prev, m.cur, held, m.lines, next, mem, r);
    assert Tied(Model(m.prev, m.cur + [r], m.lines + [r]), Last(held + [r], mem), next + 1, mem);
    assert Tied(Model(m.cur + [r], [], m.lines + [r]), Last(held + [r], mem), next + 1, mem);
  }

  class Store {
    const log: LogFiles
    const ring: Ring
    var nextSeq: nat
    /** Every line held when the store was opened and pushed since. */
    ghost var lines: seq<Rec>

    ghost predicate Valid()
      reads this, log, ring, ring.slots
    {
      log.Valid() && ring.Valid() && Tied(Abs(), ring.held, nextSeq, ring.slots.Length)
    }

    ghost function Abs(): Model
      reads this, log
    {
      Model(log.prev, log.cur, lines)
    }

    ghost predicate Set(f: Format, mem: nat, cap: nat)
      reads this, log, ring
    {
      log.fmt == f && log.fileMax == cap && ring.slots.Length == mem
    }

    /** sb_open_pane on whatever a crash left: the records of the current log wholly before the cut are recovered,
        numbering goes on behind them, and the ring holds the last lines of both generations. */
    constructor Open(f: Format, disk: Disk, memLines: nat, fileMax: nat, ghost prev: seq<Rec>, ghost cur: seq<Rec>,
        ghost cut: nat)
      requires Faithful(f) && DiskHolds(f, disk, prev, cur, cut)
      ensures Valid() && fresh(log) && fresh(ring) && fresh(ring.slots) && log.fmt == f
      ensures log.prev == prev && log.cur == cur[..WholeBefore(cur, cut)] && lines == log.prev + log.cur
      ensures ring.slots.Length == Mem(memLines) && log.fileMax == Cap(fileMax)
    {
      ghost var kept := cur[..WholeBefore(cur, cut)];
      Recovered(f, disk, prev, cur, cut);
      OpenLinked(prev, kept, Mem(memLines));
      var next, l, r := OpenParts(f, disk, Mem(memLines), Cap(fileMax), prev, kept);
      nextSeq, log, ring, lines := next, l, r, prev + kept;
      new;
      assert Abs() == Model(prev, kept, prev + kept);
    }

    /** sb_push_line, behind the serialization of the cells. */
    method Push(text: seq<byte>)
      requires Valid() && |text| <= LINE_MAX && nextSeq < 0x1_0000_0000_0000_0000
      modifies this, log, ring, ring.slots
      ensures Valid() && nextSeq == old(nextSeq) + 1 && lines == old(lines) + [Rec(old(nextSeq), text)]
      ensures Abs() == Following(old(Abs()), Event.Push(text), log.fileMax)
    {
      var r: Rec := Rec(nextSeq, text);
      ghost var m, after := Abs(), Pushed(Abs(), r, log.fileMax);
      TiedPush(m, ring.held, nextSeq, ring.slots.Length, r, log.fileMax);
      Numbered();
      PushFollows(m, r, log.fileMax);
      nextSeq := nextSeq + 1;
      lines := lines + [r];
      PutBoth(log, ring, r);
      assert Abs() == after;
    }

    /** sb_flush */
    method Flush()
      requires Valid()
      modifies log`curFile, log`fileSize, log`wbuf
      ensures Valid() && log.wbuf == [] && Abs() == old(Abs())
    {
      log.Drain();
      assert unchanged(ring) && unchanged(ring.slots);
      assert ring.Valid();
    }

    /** sb_fetch_deep: the ring for anything it still holds, else the disk. With a buffer large enough for the lines
        due and the ring's first line still on disk, that is exactly the first lines numbered start or later. */
    method FetchDeep(start: nat, maxLines: nat, outCap: nat, room: nat) returns (out: seq<Rec>)
      requires Valid()
      modifies log`curFile, log`fileSize, log`wbuf, log`recsSwept
      ensures Valid()
      ensures var n := if maxLines <= outCap then maxLines else outCap;
        && out == Deep(log.prev, log.cur, ring.held, start, n, room)
        && AnswersHistory(log.prev, log.cur, ring.held, start, n, room, out)
      ensures Abs() == old(Abs()) && out == Answer(Abs(), Event.Fetch(start, maxLines, outCap, room), ring.slots.Length)
      ensures old(log.recsSwept) <= log.recsSwept < old(log.recsSwept) + INDEX_STEP
    {
      var n := if maxLines <= outCap then maxLines else outCap;
      DeepAnswers(log.prev, log.cur, ring.held, lines, nextSeq, ring.slots.Length, start, n, room);
      out := Serve(start, n, room);
    }

    method Serve(start: nat, n: nat, room: nat) returns (out: seq<Rec>)
      requires Valid()
      modifies log`curFile, log`fileSize, log`wbuf, log`recsSwept
      ensures Valid() && out == Deep(log.prev, log.cur, ring.held, start, n, room)
      ensures old(log.recsSwept) <= log.recsSwept < old(log.recsSwept) + INDEX_STEP
    {
      LinkedParts(log.prev, log.cur, ring.held, lines, nextSeq, ring.slots.Length);
      BeforeRing(log.prev, log.cur, ring.held, lines, nextSeq, ring.slots.Length, start);
      out := ServeParts(log, ring, start, n, room);
    }

    /** What a crash leaves: the files, with what was being appended cut at any byte. */
    function CrashDisk(cut: nat): Disk
      requires cut <= |log.curFile + log.wbuf|
      reads this, log
    {
      Disk(log.prevFile, Some((log.curFile + log.wbuf)[..cut]))
    }

    /** A crash between renaming the current log and creating the new one. */
    function RotationCrashDisk(): Disk
      reads this, log
    {
      Disk(Some(log.curFile + log.wbuf), None)
    }

    lemma Numbered()
      requires Valid()
      ensures nextSeq == NextNo(lines)
    {
    }

    lemma CrashHolds(cut: nat)
      requires Valid() && cut <= |log.curFile + log.wbuf|
      ensures DiskHolds(log.fmt, CrashDisk(cut), log.prev, log.cur, cut)
    {
      SuffixContiguous(log.prev + log.cur, lines);
    }

    lemma RotationCrashHolds()
      requires Valid()
      ensures DiskHolds(log.fmt, RotationCrashDisk(), log.cur, [], 0)
    {
      LinkedParts(log.prev, log.cur, ring.held, lines, nextSeq, ring.slots.Length);
      assert log.cur + [] == log.cur;
    }
  }

  datatype Event =
    | Push(text: seq<byte>)
    | Flush
    | Fetch(start: nat, maxLines: nat, outCap: nat, room: nat)
    | Crash(cut: nat)
    | CrashInRotation

  // ---- the plain list, and every run of events on it ----

  /** The store as plain lists: the lines of each log, and all lines since the store was opened. */
  datatype Model = Model(prev: seq<Rec>, cur: seq<Rec>, lines: seq<Rec>)

  /** What an event makes of the lists. A crash keeps what is wholly before the cut; the rest was never there. */
  ghost function Following(m: Model, e: Event, cap: nat): Model {
    match e
    case Push(text) =>
      if NextNo(m.lines) >= 0x1_0000_0000_0000_0000 || |text| > LINE_MAX then m
      else
        Pushed(m, Rec(NextNo(m.lines), text), cap)
    case Flush => m
    case Fetch(_, _, _, _) => m
    case Crash(cut) =>
      if cut > Offset(m.cur, |m.cur|) then m
      else
        var kept := m.cur[..WholeBefore(m.cur, cut)];
        Model(m.prev, kept, m.prev + kept)
    case CrashInRotation => Model(m.cur, [], m.cur + [])
  }

  /** What a fetch answers: from the last mem lines if the start is among them, else from the logs. */
  ghost function Answer(m: Model, e: Event, mem: nat): seq<Rec> {
    if e.Fetch? then Deep(m.prev, m.cur, Last(m.lines, mem), e.start, Min(e.maxLines, e.outCap), e.room) else []
  }

  ghost function Ends(events: seq<Event>, cap: nat): Model {
    if |events| == 0 then Model([], [], []) else Following(Ends(events[..|events| - 1], cap), events[|events| - 1], cap)
  }

  ghost function Answers(events: seq<Event>, cap: nat, mem: nat): seq<seq<Rec>> {
    if |events| == 0 then []
    else
      Answers(events[..|events| - 1], cap, mem) +
      [Answer(Ends(events[..|events| - 1], cap), events[|events| - 1], mem)]
  }

  ghost predicate TextsFit(events: seq<Event>) {
    forall i :: 0 <= i < |events| ==> TextFits(events[i])
  }

  ghost predicate TextFits(e: Event) {
    e.Push? ==> |e.text| <= LINE_MAX
  }

  lemma {:induction false} OneMoreEvent(events: seq<Event>, i: nat, cap: nat, mem: nat)
    requires i < |events|
    ensures Ends(events[..i + 1], cap) == Following(Ends(events[..i], cap), events[i], cap)
    ensures Answers(events[..i + 1], cap, mem) ==
      Answers(events[..i], cap, mem) + [Answer(Ends(events[..i], cap), events[i], mem)]
  {
    assert events[..i + 1][..i] == events[..i];
  }

  lemma {:induction false} AnswersLength(events: seq<Event>, cap: nat, mem: nat)
    ensures |Answers(events, cap, mem)| == |events|
  {
    if |events| > 0 {
      AnswersLength(events[..|events| - 1], cap, mem);
    }
  }

  lemma {:induction false} AnswersAt(events: seq<Event>, cap: nat, mem: nat, i: nat)
    requires i < |events| == |Answers(events, cap, mem)|
    ensures Answers(events, cap, mem)[i] == Answer(Ends(events[..i], cap), events[i], mem)
    decreases |events|
  {
    var before := events[..|events| - 1];
    AnswersLength(before, cap, mem);
    if i < |events| - 1 {
      AnswersAt(before, cap, mem, i);
      assert before[..i] == events[..i];
    }
  }

  // ---- the lists stay linked, so every answer is history ----

  /** Lists with the last mem lines as the ring and the next number as it must be. */
  ghost predicate Sound(m: Model, mem: nat) {
    Tied(m, Last(m.lines, mem), NextNo(m.lines), mem)
  }

  lemma SoundPush(m: Model, r: Rec, cap: nat, mem: nat)
    requires Sound(m, mem) && mem > 0 && r.no == NextNo(m.lines)
    ensures Sound(Pushed(m, r, cap), mem)
  {
    TiedPush(m, Last(m.lines, mem), NextNo(m.lines), mem, r, cap);
    PushFollows(m, r, cap);
    LastSnoc(m.lines, r, mem);
  }

  lemma SoundCut(m: Model, k: nat, mem: nat)
    requires Sound(m, mem) && k <= |m.cur|
    ensures Sound(Model(m.prev, m.cur[..k], m.prev + m.cur[..k]), mem) && Sound(Model(m.cur, [], m.cur + []), mem)
  {
    SuffixContiguous(m.prev + m.cur, m.lines);
    assert m.prev + m.cur == (m.prev + m.cur[..k]) + m.cur[k..];
    ContiguousPart(m.prev + m.cur[..k], m.cur[k..]);
    OpenLinked(m.prev, m.cur[..k], mem);
    ContiguousPart(m.prev, m.cur);
    assert m.cur + [] == m.cur;
    OpenLinked(m.cur, [], mem);
  }

  lemma {:induction false} SoundFollowing(m: Model, e: Event, cap: nat, mem: nat)
    requires Sound(m, mem) && mem > 0
    ensures Sound(Following(m, e, cap), mem)
  {
    match e
    case Push(text) =>
      if NextNo(m.lines) < 0x1_0000_0000_0000_0000 && |text| <= LINE_MAX {
        SoundPush(m, Rec(NextNo(m.lines), text), cap, mem);
      }
    case Crash(cut) =>
      if cut <= Offset(m.cur, |m.cur|) {
        CutModel(m, cut, cap);
        SoundCut(m, WholeBefore(m.cur, cut), mem);
      }
    case CrashInRotation =>
      RotationModel(m, cap);
      SoundCut(m, 0, mem);
    case _ =>
  }

  lemma {:induction false} EndsSound(events: seq<Event>, cap: nat, mem: nat)
    requires mem > 0
    ensures Sound(Ends(events, cap), mem)
  {
    if |events| == 0 {
      OpenLinked([], [], mem);
    } else {
      EndsSound(events[..|events| - 1], cap, mem);
      SoundFollowing(Ends(events[..|events| - 1], cap), events[|events| - 1], cap, mem);
    }
  }

  /** The answer to event i, if it is a fetch, is the history: the first lines due of all that are on disk or staged. */
  ghost predicate FetchAnswered(events: seq<Event>, i: nat, cap: nat, mem: nat, out: seq<Rec>)
    requires i < |events|
  {
    var m, e := Ends(events[..i], cap), events[i];
    e.Fetch? ==>
      AnswersHistory(m.prev, m.cur, Last(m.lines, mem), e.start, Min(e.maxLines, e.outCap), e.room, out)
  }

  /** In every run from an empty directory every fetch answers from history. */
  lemma {:induction false} RunAnswers(events: seq<Event>, cap: nat, mem: nat, i: nat)
    requires mem > 0 && i < |events| && |Answers(events, cap, mem)| == |events|
    ensures FetchAnswered(events, i, cap, mem, Answers(events, cap, mem)[i])
  {
    AnswersAt(events, cap, mem, i);
    EndsSound(events[..i], cap, mem);
    var m, e := Ends(events[..i], cap), events[i];
    if e.Fetch? {
      DeepAnswers(m.prev, m.cur, Last(m.lines, mem), m.lines, NextNo(m.lines), mem,
        e.start, Min(e.maxLines, e.outCap), e.room);
    }
  }

  /** The exception is met in practice: with room for one line a log, the second push drops the first line from disk
      while the ring still serves it. */
  lemma {:induction false} RingOutlivesDisk(x: byte, cap: nat)
    requires cap == 17
    ensures var a: Rec, b: Rec := Rec(0, [x]), Rec(1, [x]);
      var m := Ends([Event.Push([x]), Event.Push([x])], cap);
      m == Model([b], [], [a, b]) && Answer(m, Fetch(0, 1, 1, 1), 2) == [a] && PlainPage(m.prev + m.cur, 0, 1) == [b]
  {
    var a: Rec, b: Rec := Rec(0, [x]), Rec(1, [x]);
    var e := Event.Push([x]);
    var one := [e, e][..1];
    assert one == [e] && [e][..0] == [];
    assert Ends([], cap) == Model([], [], []);
    assert Ends([e], cap) == Following(Model([], [], []), e, cap) == Model([a], [], [a]);
    var none: seq<Rec> := [];
    assert Offset(none, 0) == 0;
    assert Ends([e, e], cap) == Following(Model([a], [], [a]), e, cap);
    assert Following(Model([a], [], [a]), e, cap) == Model([b], [], [a, b]);
    assert Last([a, b], 2) == [a, b] && [b] + none == [b];
    assert PlainPage([a, b], 0, 1) == [a, b][0..1] == [a] && PlainPage([b], 0, 1) == [b][0..1] == [b];
  }

  /** Every run of pushes, flushes, fetches and crashes with reopening, from an empty directory: every fetch answers
      from the plain lists, and so from history, and in the end the store holds just these. */
  method Run(crc: Checksum, events: seq<Event>, memLines: nat, fileMax: nat) returns (s: Store, answers: seq<seq<Rec>>)
    requires |events| < 0x1_0000_0000_0000_0000
    requires TextsFit(events)
    ensures s.Valid() && s.Abs() == Ends(events, Cap(fileMax)) &&
      answers == Answers(events, Cap(fileMax), Mem(memLines))
    ensures |answers| == |events|
    ensures forall i :: 0 <= i < |events| ==> FetchAnswered(events, i, Cap(fileMax), Mem(memLines), answers[i])
  {
    var f := LogFormat(crc);
    LogFormatFaithful(crc);
    s, answers := RunWith(f, events, memLines, fileMax);
    AllAnswered(events, Cap(fileMax), Mem(memLines));
  }

  lemma {:induction false} AllAnswered(events: seq<Event>, cap: nat, mem: nat)
    requires mem > 0
    ensures |Answers(events, cap, mem)| == |events|
    ensures forall i :: 0 <= i < |events| ==> FetchAnswered(events, i, cap, mem, Answers(events, cap, mem)[i])
  {
    AnswersLength(events, cap, mem);
    forall i | 0 <= i < |events|
      ensures FetchAnswered(events, i, cap, mem, Answers(events, cap, mem)[i])
    {
      RunAnswers(events, cap, mem, i);
    }
  }

  method RunWith(f: Format, events: seq<Event>, memLines: nat, fileMax: nat) returns (s: Store, answers: seq<seq<Rec>>)
    requires Faithful(f) && |events| < 0x1_0000_0000_0000_0000
    requires TextsFit(events)
    ensures s.Valid() && s.Abs() == Ends(events, Cap(fileMax)) &&
      answers == Answers(events, Cap(fileMax), Mem(memLines))
  {
    var empty := OpenEmpty(f, memLines, fileMax);
    NoEvents(events, Cap(fileMax), Mem(memLines));
    s, answers := RunFrom(empty, events, 0, memLines, fileMax, []);
  }

  /** The run from event i on. */
  method RunFrom(s: Store, events: seq<Event>, i: nat, memLines: nat, fileMax: nat, sofar: seq<seq<Rec>>)
      returns (t: Store, answers: seq<seq<Rec>>)
    requires i <= |events| < 0x1_0000_0000_0000_0000 && TextsFit(events) && s.nextSeq <= i
    requires s.Valid() && s.Set(s.log.fmt, Mem(memLines), Cap(fileMax))
    requires s.Abs() == Ends(events[..i], Cap(fileMax)) && sofar == Answers(events[..i], Cap(fileMax), Mem(memLines))
    modifies s, s.log, s.ring, s.ring.slots
    ensures t.Valid() && t.Abs() == Ends(events, Cap(fileMax)) &&
      answers == Answers(events, Cap(fileMax), Mem(memLines))
    decreases |events| - i
  {
    if i == |events| {
      assert events[..i] == events;
      return s, sofar;
    }
    assert TextFits(events[i]);
    var next, more := StepAt(s, events, i, memLines, fileMax, sofar);
    t, answers := RunFrom(next, events, i + 1, memLines, fileMax, more);
  }

  lemma {:induction false} NoEvents(events: seq<Event>, cap: nat, mem: nat)
    ensures Ends(events[..0], cap) == Model([], [], []) && Answers(events[..0], cap, mem) == []
  {
  }

  method OpenEmpty(f: Format, memLines: nat, fileMax: nat) returns (s: Store)
    requires Faithful(f)
    ensures s.Valid() && s.Set(f, Mem(memLines), Cap(fileMax)) && s.nextSeq == 0 && s.Abs() == Model([], [], [])
    ensures fresh(s) && fresh(s.log) && fresh(s.ring) && fresh(s.ring.slots)
  {
    ghost var none: seq<Rec> := [];
    NothingHeld(f, none);
    s := new Store.Open(f, Disk(None, None), memLines, fileMax, none, none, 0);
    s.Numbered();
  }

  lemma NothingHeld(f: Format, none: seq<Rec>)
    requires none == []
    ensures DiskHolds(f, Disk(None, None), none, none, 0) && none[..WholeBefore(none, 0)] == none && none + none == none
  {
  }

  /** One more event of a run. */
  method StepAt(s: Store, events: seq<Event>, i: nat, memLines: nat, fileMax: nat, answers: seq<seq<Rec>>)
      returns (t: Store, more: seq<seq<Rec>>)
    requires i < |events| && s.Valid() && s.Set(s.log.fmt, Mem(memLines), Cap(fileMax)) &&
      s.nextSeq < 0x1_0000_0000_0000_0000
    requires TextFits(events[i])
    requires s.Abs() == Ends(events[..i], Cap(fileMax)) && answers == Answers(events[..i], Cap(fileMax), Mem(memLines))
    modifies s, s.log, s.ring, s.ring.slots
    ensures t.Valid() && t.Set(s.log.fmt, Mem(memLines), Cap(fileMax)) && t.nextSeq <= old(s.nextSeq) + 1
    ensures t.Abs() == Ends(events[..i + 1], Cap(fileMax)) &&
      more == Answers(events[..i + 1], Cap(fileMax), Mem(memLines))
    ensures t == s || (fresh(t) && fresh(t.log) && fresh(t.ring) && fresh(t.ring.slots))
  {
    OneMoreEvent(events, i, Cap(fileMax), Mem(memLines));
    var out;
    t, out := Step(s, events[i], memLines, fileMax);
    more := answers + [out];
  }

  method Step(s: Store, e: Event, memLines: nat, fileMax: nat) returns (t: Store, out: seq<Rec>)
    requires s.Valid() && s.Set(s.log.fmt, Mem(memLines), Cap(fileMax)) && s.nextSeq < 0x1_0000_0000_0000_0000 &&
      (e.Push? ==> |e.text| <= LINE_MAX)
    modifies s, s.log, s.ring, s.ring.slots
    ensures t.Valid() && t.Set(s.log.fmt, Mem(memLines), Cap(fileMax)) && t.nextSeq <= old(s.nextSeq) + 1
    ensures t.Abs() == Following(old(s.Abs()), e, Cap(fileMax)) && out == Answer(old(s.Abs()), e, Mem(memLines))
    ensures t == s || (fresh(t) && fresh(t.log) && fresh(t.ring) && fresh(t.ring.slots))
  {
    t, out := s, [];
    if e.Push? {
      s.Push(e.text);
    } else if e.Flush? {
      s.Flush();
    } else if e.Fetch? {
      out := s.FetchDeep(e.start, e.maxLines, e.outCap, e.room);
    } else {
      EncodeLength(s.log.fmt, s.log.cur);
      if e.CrashInRotation? {
        t := ReopenRotated(s, memLines, fileMax);
      } else if e.cut <= |s.log.curFile + s.log.wbuf| {
        t := ReopenCut(s, e.cut, memLines, fileMax);
      }
    }
  }

  /** The process dies and the store is opened again on what it left: the current log cut, */
  method ReopenCut(s: Store, cut: nat, memLines: nat, fileMax: nat) returns (t: Store)
    requires s.Valid() && cut <= |s.log.curFile + s.log.wbuf|
    ensures t.Valid() && t.Set(s.log.fmt, Mem(memLines), Cap(fileMax)) && t.nextSeq <= old(s.nextSeq)
    ensures t.Abs() == Following(old(s.Abs()), Crash(cut), Cap(fileMax))
    ensures fresh(t) && fresh(t.log) && fresh(t.ring) && fresh(t.ring.slots)
  {
    ghost var m, next := s.Abs(), s.nextSeq;
    EncodeLength(s.log.fmt, m.cur);
    CutModel(m, cut, Cap(fileMax));
    LinkedSuffix(m.prev, m.cur, s.ring.held, m.lines, next, s.ring.slots.Length);
    NoGap(m.prev, m.cur, m.lines, WholeBefore(m.cur, cut));
    s.CrashHolds(cut);
    t := new Store.Open(s.log.fmt, s.CrashDisk(cut), memLines, fileMax, m.prev, m.cur, cut);
    t.Numbered();
  }

  lemma RotationModel(m: Model, cap: nat)
    ensures Following(m, CrashInRotation, cap) == Model(m.cur, [], m.cur + [])
    ensures var none: seq<Rec> := []; none[..WholeBefore(none, 0)] == none
  {
  }

  lemma CutModel(m: Model, cut: nat, cap: nat)
    requires cut <= Offset(m.cur, |m.cur|)
    ensures Following(m, Crash(cut), cap) ==
      Model(m.prev, m.cur[..WholeBefore(m.cur, cut)], m.prev + m.cur[..WholeBefore(m.cur, cut)])
  {
  }

  /** or between renaming it and creating the next. */
  method ReopenRotated(s: Store, memLines: nat, fileMax: nat) returns (t: Store)
    requires s.Valid()
    ensures t.Valid() && t.Set(s.log.fmt, Mem(memLines), Cap(fileMax)) && t.nextSeq <= old(s.nextSeq)
    ensures t.Abs() == Following(old(s.Abs()), CrashInRotation, Cap(fileMax))
    ensures fresh(t) && fresh(t.log) && fresh(t.ring) && fresh(t.ring.slots)
  {
    ghost var m := s.Abs();
    RotationModel(m, Cap(fileMax));
    LinkedSuffix(m.prev, m.cur, s.ring.held, m.lines, s.nextSeq, s.ring.slots.Length);
    NoGap(m.cur, [], m.lines, 0);
    s.RotationCrashHolds();
    t := new Store.Open(s.log.fmt, s.RotationCrashDisk(), memLines, fileMax, m.cur, [], 0);
    t.Numbered();
  }

  lemma LinkedSuffix(prev: seq<Rec>, cur: seq<Rec>, held: seq<Rec>, lines: seq<Rec>, next: nat, mem: nat)
    requires Linked(prev, cur, held, lines, next, mem)
    ensures Contiguous(lines) && IsSuffix(prev + cur, lines) && IsSuffix(cur + [], lines) && next == NextNo(lines)
  {
    assert cur + [] == cur;
  }

  /** Whatever a crash keeps of the lines on disk, numbering goes on at or below where it was. */
  lemma NoGap(prev: seq<Rec>, cur: seq<Rec>, lines: seq<Rec>, k: nat)
    requires Contiguous(lines) && IsSuffix(prev + cur, lines) && k <= |cur|
    ensures NextNo(prev + cur[..k]) <= NextNo(lines)
  {
    var all := prev + cur;
    var kept := prev + cur[..k];
    if kept != [] {
      assert kept[|kept| - 1] == all[|kept| - 1] == lines[|lines| - |all| + |kept| - 1];
      assert lines[|lines| - 1].no == lines[0].no + (|lines| - 1);
    }
  }

  lemma OpenLinked(prev: seq<Rec>, kept: seq<Rec>, mem: nat)
    requires Contiguous(prev + kept)
    ensures Tied(Model(prev, kept, prev + kept), Last(prev + kept, mem), NextNo(prev + kept), mem)
  {
  }

  /** Both logs scanned, the torn tail cut off, the ring refilled. */
  method OpenParts(f: Format, disk: Disk, mem: nat, cap: nat, ghost prev: seq<Rec>, ghost kept: seq<Rec>)
    returns (next: nat, log: LogFiles, ring: Ring)
    requires Faithful(f) && mem > 0 && Contiguous(prev + kept)
    requires if disk.prev.Some? then disk.prev.value == Encode(f, prev) && prev == Scan(f, disk.prev.value, 0)
      else prev == []
    requires if disk.cur.Some? then KeptPart(f, disk.cur.value, kept) else kept == []
    ensures next == NextNo(prev + kept) && fresh(log) && fresh(ring) && fresh(ring.slots)
    ensures log.Valid() && log.fmt == f && log.fileMax == cap && log.prev == prev && log.cur == kept
    ensures ring.Valid() && ring.slots.Length == mem && ring.held == Last(prev + kept, mem)
  {
    var file, tailPrev, tailCur, ixPrev, ixCur;
    next, file, tailPrev, tailCur, ixPrev, ixCur := ScanBoth(f, disk, mem, prev, kept);
    ring := RebuildRing(f, disk, mem, tailPrev, tailCur, prev, kept);
    log := new LogFiles(f, cap, disk.prev, file, ixPrev, ixCur, prev, kept);
  }

  /** The refill of sb_open_pane: the tail windows of both logs, older first, leave the last lines of both together. */
  method RebuildRing(f: Format, disk: Disk, mem: nat, tailPrev: nat, tailCur: nat, ghost prev: seq<Rec>,
      ghost kept: seq<Rec>)
    returns (r: Ring)
    requires Faithful(f) && mem > 0
    requires if disk.prev.Some? then prev == Scan(f, disk.prev.value, 0) else prev == []
    requires if disk.cur.Some? then kept == Scan(f, disk.cur.value, 0) else kept == []
    requires tailPrev == Offset(prev, if |prev| > mem then |prev| - mem else 0)
    requires tailCur == Offset(kept, if |kept| > mem then |kept| - mem else 0)
    ensures fresh(r) && fresh(r.slots) && r.Valid() && r.slots.Length == mem
    ensures r.held == Last(prev + kept, mem)
  {
    RefilledRing(prev, kept, mem);
    r := new Ring(mem);
    if disk.prev.Some? {
      ScanReadsAt(f, disk.prev.value);
      Refill(f, disk.prev.value, tailPrev, r, prev, if |prev| > mem then |prev| - mem else 0);
    }
    if disk.cur.Some? {
      ScanReadsAt(f, disk.cur.value);
      Refill(f, disk.cur.value, tailCur, r, kept, if |kept| > mem then |kept| - mem else 0);
    }
  }

  lemma RefilledRing(a: seq<Rec>, b: seq<Rec>, n: nat)
    requires n > 0
    ensures var i := if |a| > n then |a| - n else 0;
      var j := if |b| > n then |b| - n else 0;
      Last(Last([] + a[i..|a|], n) + b[j..|b|], n) == Last(a + b, n)
      && Last([] + b[j..|b|], n) == Last([] + b, n) && (b == [] ==> Last([] + a[i..|a|], n) == Last(a + b, n))
  {
    var i := if |a| > n then |a| - n else 0;
    var j := if |b| > n then |b| - n else 0;
    assert [] + a[i..|a|] == Last(a, n) && b[j..|b|] == Last(b, n) == [] + b[j..|b|];
    assert [] + b == b && (b == [] ==> a + b == a);
    LastOfTails(a, b, n);
  }

  /** The two scans of sb_open_pane and the truncation of a torn tail. */
  method ScanBoth(f: Format, disk: Disk, mem: nat, ghost prev: seq<Rec>, ghost kept: seq<Rec>)
    returns (next: nat, file: seq<byte>, tailPrev: nat, tailCur: nat, ixPrev: Index, ixCur: Index)
    requires Faithful(f) && mem > 0 && Contiguous(prev + kept)
    requires if disk.prev.Some? then prev == Scan(f, disk.prev.value, 0) else prev == []
    requires if disk.cur.Some? then KeptPart(f, disk.cur.value, kept) else kept == []
    ensures next == NextNo(prev + kept) && file == Encode(f, kept)
    ensures tailPrev == Offset(prev, if |prev| > mem then |prev| - mem else 0)
    ensures tailCur == Offset(kept, if |kept| > mem then |kept| - mem else 0)
    ensures Exact(ixPrev, prev) && ixPrev.have == disk.prev.Some? && Exact(ixCur, kept) && ixCur.have
  {
    var nextPrev, nextCur, valid;
    nextPrev, valid, tailPrev, ixPrev := ScanOne(f, disk.prev, mem, prev);
    nextCur, valid, tailCur, ixCur := ScanOne(f, disk.cur, mem, kept);
    NextNoMax(prev, kept);
    next := if nextCur > nextPrev then nextCur else nextPrev;
    file := if disk.cur.Some? then disk.cur.value[..valid] else [];
    ixCur := ixCur.(have := true);
  }

  method ScanOne(f: Format, file: Option<seq<byte>>, mem: nat, ghost rs: seq<Rec>)
    returns (next: nat, valid: nat, tail: nat, ix: Index)
    requires Faithful(f) && mem > 0 && if file.Some? then rs == Scan(f, file.value, 0) else rs == []
    ensures next == NextNo(rs) && valid == Offset(rs, |rs|)
    ensures tail == Offset(rs, if |rs| > mem then |rs| - mem else 0) && Exact(ix, rs) && ix.have == file.Some?
  {
    next, valid, tail, ix := ScanLog(f, file, mem);
  }

  /** The records a scan keeps are exactly the front of the file. */
  ghost predicate KeptPart(f: Format, file: seq<byte>, kept: seq<Rec>)
    requires Faithful(f)
  {
    && kept == Scan(f, file, 0)
    && Offset(kept, |kept|) <= |file| && file[..Offset(kept, |kept|)] == Encode(f, kept)
  }

  /** What the scans of the two files find: the older log whole, of the current one what lies wholly before the cut. */
  lemma Recovered(f: Format, disk: Disk, prev: seq<Rec>, cur: seq<Rec>, cut: nat)
    requires Faithful(f) && DiskHolds(f, disk, prev, cur, cut)
    ensures var kept := cur[..WholeBefore(cur, cut)];
      && (if disk.prev.Some? then disk.prev.value == Encode(f, prev) && prev == Scan(f, disk.prev.value, 0)
          else prev == [])
      && (if disk.cur.Some? then KeptPart(f, disk.cur.value, kept) else kept == [])
      && Contiguous(prev + kept)
  {
    var k := WholeBefore(cur, cut);
    ScanWhole(f, prev);
    CutKeeps(f, cur, cut);
    assert prev + cur[..k] == (prev + cur)[..|prev| + k];
    assert forall i :: 0 <= i < |prev| + k ==> (prev + cur)[..|prev| + k][i] == (prev + cur)[i];
  }

  lemma CutKeeps(f: Format, cur: seq<Rec>, cut: nat)
    requires Faithful(f) && cut <= |Encode(f, cur)|
    ensures KeptPart(f, Encode(f, cur)[..cut], cur[..WholeBefore(cur, cut)])
  {
    var k := WholeBefore(cur, cut);
    ScanCut(f, cur, cut);
    EncodePrefixLength(f, cur, k);
    EncodeConcat(f, cur[..k], cur[k..]);
    assert cur[..k] + cur[k..] == cur;
    EncodeLength(f, cur[..k]);
    TakeTake(Encode(f, cur[..k]), Encode(f, cur[k..]), cut);
  }

  lemma TakeTake<T>(a: seq<T>, b: seq<T>, cut: nat)
    requires |a| <= cut <= |a| + |b|
    ensures (a + b)[..cut][..|a|] == a
  {
  }
}
