/** The accumulator and the file cursor of the transcript watcher
    (app/tauri/src-tauri/crates/claude-watch/src/lib.rs), changed in place line by line and chunk by chunk. */
module Transcript {
  import opened Bytes
  import opened Usage

  /** The latest usage of every message. */
  ghost function Latest(events: seq<UsageEvent>): map<Id, Tokens> {
    if |events| == 0 then map[]
    else
      var last := events[|events| - 1];
      Latest(events[..|events| - 1])[last.id := last.usage]
  }

  /** What is counted after some events: a usage that repeats leaves the entry, and with it the timestamp it was counted
      under; any other usage is counted under the timestamp it came with. */
  ghost function SeenBy(events: seq<UsageEvent>): map<Id, Counted> {
    if |events| == 0 then map[]
    else
      var seen, last := SeenBy(events[..|events| - 1]), events[|events| - 1];
      if Repeats(seen, last) then seen else seen[last.id := Counted(last.usage, last.timestamp)]
  }

  predicate Repeats(seen: map<Id, Counted>, ev: UsageEvent) {
    ev.id in seen && seen[ev.id].usage == ev.usage
  }

  /** The minutes of the timestamps that events were counted under. */
  ghost function CreditedBy(events: seq<UsageEvent>): set<Stamp> {
    if |events| == 0 then {}
    else
      var before, last := events[..|events| - 1], events[|events| - 1];
      CreditedBy(before) + if Repeats(SeenBy(before), last) then {} else MinuteOf(last.timestamp)
  }

  ghost function MinuteOf(stamp: Stamp): set<Stamp> {
    if |stamp| >= MINUTE then {stamp[..MINUTE]} else {}
  }

  lemma {:induction false} OneMore(events: seq<UsageEvent>, ev: UsageEvent)
    ensures SeenBy(events + [ev]) ==
      if Repeats(SeenBy(events), ev) then SeenBy(events) else SeenBy(events)[ev.id := Counted(ev.usage, ev.timestamp)]
    ensures CreditedBy(events + [ev]) ==
      if Repeats(SeenBy(events), ev) then CreditedBy(events) else CreditedBy(events) + MinuteOf(ev.timestamp)
  {
    assert (events + [ev])[..|events|] == events;
  }

  /** The usage counted for a message is its latest. */
  lemma {:induction false} SeenLatest(events: seq<UsageEvent>)
    ensures SeenBy(events).Keys == Latest(events).Keys
    ensures forall id :: id in SeenBy(events) ==> SeenBy(events)[id].usage == Latest(events)[id]
  {
    if |events| > 0 {
      SeenLatest(events[..|events| - 1]);
    }
  }

  /** It is counted under the timestamp of the event that brought it: event i, before which the message had another
      usage or none, and after which it had no other. */
  lemma {:induction false} SeenSince(events: seq<UsageEvent>, id: Id) returns (i: nat)
    requires id in SeenBy(events)
    ensures i < |events| && events[i].id == id && SeenBy(events)[id] == Counted(events[i].usage, events[i].timestamp)
    ensures !Repeats(SeenBy(events[..i]), events[i])
    ensures forall j :: i < j < |events| && events[j].id == id ==> events[j].usage == events[i].usage
  {
    var n := |events| - 1;
    var before, last := events[..n], events[n];
    if !Repeats(SeenBy(before), last) && last.id == id {
      i := n;
    } else {
      i := SeenSince(before, id);
      assert before[..i] == events[..i];
    }
  }

  lemma PutOld(bs: seq<Bucket>, seen: map<Id, Counted>, id: Id, c: Counted, k: nat, credited: set<Stamp>)
    requires Newest(bs, credited) && Exact(bs, seen - {id}) && k < |bs| && InMinute(c.stamp, bs[k].minute)
    ensures var cs := Changed(bs, k, bs[k].tokens + c.usage.output);
      Newest(cs, credited + {c.stamp[..MINUTE]}) && Exact(cs, seen[id := c])
  {
    AddedTo(bs, seen, id, c, k);
    ChangedNewest(bs, k, bs[k].tokens + c.usage.output, credited);
    assert credited + {c.stamp[..MINUTE]} == credited;
  }

  lemma PutNew(bs: seq<Bucket>, seen: map<Id, Counted>, id: Id, c: Counted, credited: set<Stamp>)
    requires Newest(bs, credited) && Exact(bs, seen - {id}) && Credited(seen - {id}, credited)
    requires |c.stamp| >= MINUTE && !Has(bs, c.stamp[..MINUTE])
    ensures var cs := Grown(bs, Bucket(c.stamp[..MINUTE], c.usage.output));
      Newest(cs, credited + {c.stamp[..MINUTE]}) && Exact(cs, seen[id := c])
  {
    AddedNew(bs, seen, id, c, credited);
    GrownNewest(bs, credited, Bucket(c.stamp[..MINUTE], c.usage.output));
  }

  lemma SizePut(seen: map<Id, Counted>, id: Id, c: Counted)
    ensures |seen[id := c]| == |seen - {id}| + 1
  {
    Smaller(seen[id := c], id);
    assert seen[id := c] - {id} == seen - {id};
  }

  lemma CreditedWith(seen: map<Id, Counted>, id: Id, c: Counted, credited: set<Stamp>)
    requires Credited(seen - {id}, credited)
    ensures Credited(seen[id := c], credited + MinuteOf(c.stamp))
  {
    var put := seen[id := c];
    forall x | x in put && |put[x].stamp| >= MINUTE
      ensures put[x].stamp[..MINUTE] in credited + MinuteOf(c.stamp)
    {
      assert x != id ==> x in seen - {id} && (seen - {id})[x] == put[x];
    }
  }

  class Accumulator {
    var totals: Tokens
    var messages: nat
    var malformed: nat
    var buckets: seq<Bucket>
    var seen: map<Id, Counted>
    /** Every event applied. */
    ghost var applied: seq<UsageEvent>

    /** Totals are sums over what the events count, buckets the newest of the minutes they credit, each exact. */
    ghost predicate Valid()
      reads this
    {
      Tally(totals, messages, buckets, seen, CreditedBy(applied)) && seen == SeenBy(applied)
    }

    constructor ()
      ensures Valid() && applied == [] && malformed == 0
    {
      totals, messages, malformed, buckets, seen := Tokens(0, 0, 0, 0), 0, 0, [], map[];
      applied := [];
    }

    method FindBucket(minute: Stamp) returns (k: int)
      ensures k < 0 ==> !Has(buckets, minute)
      ensures k >= 0 ==> k < |buckets| && buckets[k].minute == minute
    {
      for i := 0 to |buckets|
        invariant forall j :: 0 <= j < i ==> buckets[j].minute != minute
      {
        if buckets[i].minute == minute {
          return i;
        }
      }
      return -1;
    }

    /** bucket_sub: what is taken is always there, so the subtraction never saturates. */
    method BucketSub(id: Id, ghost credited: set<Stamp>)
      requires id in seen && Newest(buckets, credited) && Exact(buckets, seen)
      modifies `buckets
      ensures Newest(buckets, credited) && Exact(buckets, seen - {id})
    {
      var c := seen[id];
      if |c.stamp| < MINUTE {
        RetractedNowhere(buckets, seen, id);
        return;
      }
      var k := FindBucket(c.stamp[..MINUTE]);
      if k >= 0 {
        Retracted(buckets, seen, id, k);
        var left := if buckets[k].tokens >= c.usage.output then buckets[k].tokens - c.usage.output else 0;
        ChangedNewest(buckets, k, left, credited);
        buckets := Changed(buckets, k, left);
      } else {
        RetractedNowhere(buckets, seen, id);
      }
    }

    /** bucket_add */
    method BucketAdd(id: Id, c: Counted, ghost credited: set<Stamp>)
      requires Newest(buckets, credited) && Exact(buckets, seen - {id}) && Credited(seen - {id}, credited)
      modifies `buckets
      ensures Newest(buckets, credited + MinuteOf(c.stamp)) && Exact(buckets, seen[id := c])
      ensures Credited(seen[id := c], credited + MinuteOf(c.stamp))
    {
      CreditedWith(seen, id, c, credited);
      if |c.stamp| < MINUTE {
        AddedNowhere(buckets, seen, id, c);
        assert credited + MinuteOf(c.stamp) == credited;
        return;
      }
      BucketPut(id, c, credited);
    }

    method BucketPut(id: Id, c: Counted, ghost credited: set<Stamp>)
      requires Newest(buckets, credited) && Exact(buckets, seen - {id}) && Credited(seen - {id}, credited) &&
        |c.stamp| >= MINUTE
      modifies `buckets
      ensures Newest(buckets, credited + {c.stamp[..MINUTE]}) && Exact(buckets, seen[id := c])
    {
      var minute := c.stamp[..MINUTE];
      var k := FindBucket(minute);
      if k >= 0 {
        PutOld(buckets, seen, id, c, k, credited);
        buckets := Changed(buckets, k, buckets[k].tokens + c.usage.output);
      } else {
        PutNew(buckets, seen, id, c, credited);
        buckets := Grown(buckets, Bucket(minute, c.usage.output));
      }
    }

    /** apply: a repeat counts nothing, a rewritten usage replaces what it was. */
    method Apply(ev: UsageEvent)
      requires Valid()
      modifies `totals, `messages, `buckets, `seen, `applied
      ensures Valid() && applied == old(applied) + [ev]
    {
      OneMore(applied, ev);
      if !(ev.id in seen && seen[ev.id].usage == ev.usage) {
        Recount(ev, CreditedBy(applied));
      }
      applied := applied + [ev];
    }

    method Recount(ev: UsageEvent, ghost credited: set<Stamp>)
      requires Tally(totals, messages, buckets, seen, credited)
      modifies `totals, `messages, `buckets, `seen
      ensures seen == old(seen)[ev.id := Counted(ev.usage, ev.timestamp)]
      ensures Tally(totals, messages, buckets, seen, credited + MinuteOf(ev.timestamp))
    {
      if ev.id in seen {
        Retract(ev.id, credited);
      } else {
        assert seen - {ev.id} == seen;
      }
      Count(ev, credited);
    }

    /** Everything counted for a message is taken back; nothing underflows. */
    method Retract(id: Id, ghost credited: set<Stamp>)
      requires Tally(totals, messages, buckets, seen, credited) && id in seen
      modifies `totals, `messages, `buckets
      ensures Tally(totals, messages, buckets, seen - {id}, credited)
    {
      SumsWithout(totals, seen, id);
      Smaller(seen, id);
      totals := Minus(totals, seen[id].usage);
      BucketSub(id, credited);
      messages := messages - 1;
    }

    method Count(ev: UsageEvent, ghost credited: set<Stamp>)
      requires Tally(totals, messages, buckets, seen - {ev.id}, credited)
      modifies `totals, `messages, `buckets, `seen
      ensures seen == old(seen)[ev.id := Counted(ev.usage, ev.timestamp)]
      ensures Tally(totals, messages, buckets, seen, credited + MinuteOf(ev.timestamp))
    {
      var c := Counted(ev.usage, ev.timestamp);
      SumsWith(totals, seen, ev.id, c);
      totals := Plus(totals, ev.usage);
      messages := messages + 1;
      BucketAdd(ev.id, c, credited);
      SizePut(seen, ev.id, c);
      seen := seen[ev.id := c];
    }

    /** feed: the transcript format itself is a parameter. */
    method Feed(line: seq<byte>, parse: seq<byte> -> Outcome)
      requires Valid()
      modifies this
      ensures Valid() && applied == old(applied) + EventsOf([line], parse) &&
        malformed == old(malformed) + BadLines([line], parse)
    {
      var outcome := parse(line);
      assert [line][..0] == [];
      assert EventsOf([], parse) == [] && BadLines([], parse) == 0;
      match outcome {
        case Irrelevant =>
        case Malformed => malformed := malformed + 1;
        case Event(ev) => Apply(ev);
      }
    }
  }

  /** The usage events of some lines, and how many of them do not parse. */
  ghost function EventsOf(lines: seq<seq<byte>>, parse: seq<byte> -> Outcome): seq<UsageEvent> {
    if |lines| == 0 then []
    else
      var last := parse(lines[|lines| - 1]);
      EventsOf(lines[..|lines| - 1], parse) + if last.Event? then [last.ev] else []
  }

  ghost function BadLines(lines: seq<seq<byte>>, parse: seq<byte> -> Outcome): nat {
    if |lines| == 0 then 0
    else BadLines(lines[..|lines| - 1], parse) + if parse(lines[|lines| - 1]).Malformed? then 1 else 0
  }

  lemma OneMoreLine(before: seq<seq<byte>>, fed: seq<seq<byte>>, line: seq<byte>, parse: seq<byte> -> Outcome)
    ensures EventsOf(before + (fed + [line]), parse) == EventsOf(before + fed, parse) + EventsOf([line], parse)
    ensures BadLines(before + (fed + [line]), parse) == BadLines(before + fed, parse) + BadLines([line], parse)
  {
    var lines := before + fed;
    assert before + (fed + [line]) == lines + [line];
    assert (lines + [line])[..|lines|] == lines;
    assert [line][..0] == [];
  }

  // ---- lines out of chunks ----

  const NEWLINE: byte := 0x0A

  /** Where the first newline is, or the length. */
  function NewlineAt(s: seq<byte>): (k: nat)
    ensures k <= |s| && (forall i :: 0 <= i < k ==> s[i] != NEWLINE) && (k < |s| ==> s[k] == NEWLINE)
  {
    if |s| == 0 || s[0] == NEWLINE then 0 else 1 + NewlineAt(s[1..])
  }

  /** The whole lines of a text, and the line still unfinished. */
  function Split(s: seq<byte>): (seq<seq<byte>>, seq<byte>)
    decreases |s|
  {
    var k := NewlineAt(s);
    if k == |s| then ([], s)
    else
      var (lines, rest) := Split(s[k + 1..]);
      ([s[..k]] + lines, rest)
  }

  lemma NewlineUnique(s: seq<byte>, k: nat)
    requires k <= |s| && (forall i :: 0 <= i < k ==> s[i] != NEWLINE) && (k < |s| ==> s[k] == NEWLINE)
    ensures NewlineAt(s) == k
  {
    var m := NewlineAt(s);
    assert m <= k <= m;
  }

  lemma OneMoved<T>(a: seq<T>, x: T, b: seq<T>)
    ensures a + ([x] + b) == (a + [x]) + b
  {
  }

  lemma OneFirst<T>(x: T, a: seq<T>, b: seq<T>)
    ensures [x] + (a + b) == ([x] + a) + b
  {
  }

  /** Lines do not depend on where the text was cut into chunks. */
  lemma {:induction false} SplitOn(a: seq<byte>, b: seq<byte>)
    ensures var (lines, rest) := Split(a); var (more, left) := Split(rest + b);
      Split(a + b) == (lines + more, left)
    decreases |a|
  {
    var k := NewlineAt(a);
    if k < |a| {
      NewlineUnique(a + b, k);
      SplitOn(a[k + 1..], b);
      assert (a + b)[k + 1..] == a[k + 1..] + b && (a + b)[..k] == a[..k];
      var (lines, rest) := Split(a[k + 1..]);
      OneFirst(a[..k], lines, Split(rest + b).0);
    } else {
      assert [] + Split(a + b).0 == Split(a + b).0;
    }
  }

  /** The split of a text of which some lines are already taken. */
  function Ahead(taken: seq<seq<byte>>, s: seq<byte>): (seq<seq<byte>>, seq<byte>) {
    (taken + Split(s).0, Split(s).1)
  }

  lemma {:induction false} AheadStep(taken: seq<seq<byte>>, s: seq<byte>)
    ensures var k := NewlineAt(s);
      Ahead(taken, s) == if k == |s| then (taken, s) else Ahead(taken + [s[..k]], s[k + 1..])
  {
    var k := NewlineAt(s);
    if k < |s| {
      var lines := Split(s[k + 1..]).0;
      assert Split(s).0 == [s[..k]] + lines;
      OneMoved(taken, s[..k], lines);
    } else {
      assert Split(s) == ([], s);
      assert taken + [] == taken;
    }
  }

  function Joined(chunks: seq<seq<byte>>): seq<byte> {
    if |chunks| == 0 then [] else Joined(chunks[..|chunks| - 1]) + chunks[|chunks| - 1]
  }

  class Cursor {
    var offset: nat
    var partial: seq<byte>

    constructor ()
      ensures offset == 0 && partial == []
    {
      offset, partial := 0, [];
    }

    method FeedNext(line: seq<byte>, acc: Accumulator, parse: seq<byte> -> Outcome, ghost before: seq<seq<byte>>,
        ghost fed: seq<seq<byte>>)
      requires acc.Valid() && acc.applied == EventsOf(before + fed, parse) &&
        acc.malformed == BadLines(before + fed, parse)
      modifies acc
      ensures acc.Valid() && acc.applied == EventsOf(before + (fed + [line]), parse) &&
        acc.malformed == BadLines(before + (fed + [line]), parse)
    {
      OneMoreLine(before, fed, line, parse);
      acc.Feed(line, parse);
    }

    /** Cursor::feed_chunk: no line is fed before its newline has come. */
    method FeedChunk(chunk: seq<byte>, acc: Accumulator, parse: seq<byte> -> Outcome, ghost before: seq<seq<byte>>)
        returns (ghost fed: seq<seq<byte>>)
      requires acc.Valid() && acc.applied == EventsOf(before, parse) && acc.malformed == BadLines(before, parse)
      modifies this, acc
      ensures acc.Valid() && offset == old(offset) + |chunk|
      ensures (fed, partial) == Split(old(partial) + chunk)
      ensures acc.applied == EventsOf(before + fed, parse) && acc.malformed == BadLines(before + fed, parse)
    {
      offset := offset + |chunk|;
      partial := partial + chunk;
      ghost var all := Split(partial);
      fed := [];
      assert before + fed == before && [] + all.0 == all.0;
      while true
        invariant acc.Valid() && offset == old(offset) + |chunk|
        invariant all == Ahead(fed, partial)
        invariant acc.applied == EventsOf(before + fed, parse) && acc.malformed == BadLines(before + fed, parse)
        decreases |partial|
      {
        var pos := NewlineAt(partial);
        AheadStep(fed, partial);
        if pos == |partial| {
          return;
        }
        var line := partial[..pos];
        partial := partial[pos + 1..];
        FeedNext(line, acc, parse, before, fed);
        fed := fed + [line];
      }
    }
  }

  /** A transcript read in any chunks: totals and buckets are those of the events on its whole lines. */
  method Digest(chunks: seq<seq<byte>>, parse: seq<byte> -> Outcome) returns (acc: Accumulator, cursor: Cursor)
    ensures acc.Valid() && fresh(acc) && cursor.offset == |Joined(chunks)| && cursor.partial == Split(Joined(chunks)).1
    ensures var events := EventsOf(Split(Joined(chunks)).0, parse);
      Tally(acc.totals, acc.messages, acc.buckets, SeenBy(events), CreditedBy(events))
    ensures acc.malformed == BadLines(Split(Joined(chunks)).0, parse)
  {
    acc := new Accumulator();
    cursor := new Cursor();
    ghost var lines: seq<seq<byte>> := [];
    for i := 0 to |chunks|
      invariant acc.Valid() && fresh(acc) && fresh(cursor)
      invariant cursor.offset == |Joined(chunks[..i])| && (lines, cursor.partial) == Split(Joined(chunks[..i]))
      invariant acc.applied == EventsOf(lines, parse) && acc.malformed == BadLines(lines, parse)
    {
      assert chunks[..i + 1][..i] == chunks[..i];
      SplitOn(Joined(chunks[..i]), chunks[i]);
      ghost var more := cursor.FeedChunk(chunks[i], acc, parse, lines);
      lines := lines + more;
    }
    assert chunks[..|chunks|] == chunks;
  }
}
