/** Token accounting over a transcript (app/tauri/src-tauri/crates/claude-watch/src/lib.rs): repeated messages are
    counted once with their latest usage, and minute buckets keep the newest half hour. */
module Usage {
  const BUCKETS_MAX: nat := 30
  const MINUTE: nat := 16

  type Id = string
  type Stamp = string

  datatype Tokens = Tokens(input: nat, output: nat, cacheRead: nat, cacheCreation: nat)

  datatype UsageEvent = UsageEvent(id: Id, timestamp: Stamp, usage: Tokens)

  datatype Outcome = Event(ev: UsageEvent) | Irrelevant | Malformed

  /** What is counted for a message: its usage and the timestamp it was counted under. */
  datatype Counted = Counted(usage: Tokens, stamp: Stamp)

  datatype Bucket = Bucket(minute: Stamp, tokens: nat)

  // ---- minutes in order ----

  predicate Less(a: Stamp, b: Stamp) {
    |b| > 0 && (|a| == 0 || a[0] < b[0] || (a[0] == b[0] && Less(a[1..], b[1..])))
  }

  lemma {:induction false} LessTransitive(a: Stamp, b: Stamp, c: Stamp)
    requires Less(a, b) && Less(b, c)
    ensures Less(a, c)
  {
    if |a| > 0 && a[0] == b[0] == c[0] {
      LessTransitive(a[1..], b[1..], c[1..]);
    }
  }

  lemma {:induction false} LessIrreflexive(a: Stamp)
    ensures !Less(a, a)
  {
    if |a| > 0 {
      LessIrreflexive(a[1..]);
    }
  }

  lemma {:induction false} LessTotal(a: Stamp, b: Stamp)
    ensures a == b || Less(a, b) || Less(b, a)
  {
    if |a| > 0 && |b| > 0 && a[0] == b[0] {
      LessTotal(a[1..], b[1..]);
      assert a[1..] == b[1..] ==> a == [a[0]] + a[1..] == [b[0]] + b[1..] == b;
    }
  }

  // ---- sums over messages ----

  datatype Part = Input | Output | CacheRead | CacheCreation | OutputIn(minute: Stamp)

  predicate InMinute(stamp: Stamp, minute: Stamp) {
    |stamp| >= MINUTE && stamp[..MINUTE] == minute
  }

  function Weigh(c: Counted, p: Part): nat {
    match p
    case Input => c.usage.input
    case Output => c.usage.output
    case CacheRead => c.usage.cacheRead
    case CacheCreation => c.usage.cacheCreation
    case OutputIn(m) => if InMinute(c.stamp, m) then c.usage.output else 0
  }

  /** One figure summed over all messages. */
  ghost function Total(seen: map<Id, Counted>, p: Part): nat
    decreases |seen|
  {
    if seen == map[] then 0
    else
      var id :| id in seen;
      assert |seen - {id}| < |seen| by { Smaller(seen, id); }
      Weigh(seen[id], p) + Total(seen - {id}, p)
  }

  lemma Smaller(seen: map<Id, Counted>, id: Id)
    requires id in seen
    ensures |seen - {id}| == |seen| - 1
  {
    assert (seen - {id}).Keys == seen.Keys - {id};
    assert |(seen - {id}).Keys| == |seen - {id}| && |seen.Keys| == |seen|;
  }

  /** The order of summing does not matter. */
  lemma {:induction false} TotalRemove(seen: map<Id, Counted>, id: Id, p: Part)
    requires id in seen
    ensures Total(seen, p) == Weigh(seen[id], p) + Total(seen - {id}, p)
    decreases |seen|
  {
    var first :| first in seen && Total(seen, p) == Weigh(seen[first], p) + Total(seen - {first}, p);
    if first != id {
      Smaller(seen, first);
      Smaller(seen, id);
      TotalRemove(seen - {first}, id, p);
      TotalRemove(seen - {id}, first, p);
      assert seen - {first} - {id} == seen - {id} - {first};
    }
  }

  lemma TotalPut(seen: map<Id, Counted>, id: Id, c: Counted, p: Part)
    ensures Total(seen[id := c], p) == Weigh(c, p) + Total(seen - {id}, p)
  {
    TotalRemove(seen[id := c], id, p);
    assert seen[id := c] - {id} == seen - {id};
  }

  /** Nothing is summed in a minute no message was counted in. */
  lemma {:induction false} TotalNone(seen: map<Id, Counted>, minute: Stamp)
    requires forall id :: id in seen ==> !InMinute(seen[id].stamp, minute)
    ensures Total(seen, OutputIn(minute)) == 0
    decreases |seen|
  {
    if seen != map[] {
      var id :| id in seen;
      TotalRemove(seen, id, OutputIn(minute));
      Smaller(seen, id);
      TotalNone(seen - {id}, minute);
    }
  }

  // ---- buckets ----

  ghost predicate Sorted(bs: seq<Bucket>) {
    forall i, j :: 0 <= i < j < |bs| ==> Less(bs[i].minute, bs[j].minute)
  }

  ghost predicate Has(bs: seq<Bucket>, m: Stamp) {
    exists i :: 0 <= i < |bs| && bs[i].minute == m
  }

  /** The newest minutes of those ever credited, oldest first. */
  ghost predicate Newest(bs: seq<Bucket>, credited: set<Stamp>) {
    && Sorted(bs) && |bs| <= BUCKETS_MAX
    && (forall i :: 0 <= i < |bs| ==> bs[i].minute in credited)
    && (forall m :: m in credited ==> Has(bs, m) || (|bs| == BUCKETS_MAX && Less(m, bs[0].minute)))
  }

  /** A bucket sorted into place. */
  function Insert(bs: seq<Bucket>, b: Bucket): (r: seq<Bucket>)
    ensures |r| == |bs| + 1
  {
    if |bs| == 0 || Less(b.minute, bs[0].minute) then [b] + bs else [bs[0]] + Insert(bs[1..], b)
  }

  lemma {:induction false} InsertKeeps(bs: seq<Bucket>, b: Bucket)
    ensures multiset(Insert(bs, b)) == multiset(bs + [b])
  {
    if |bs| > 0 && !Less(b.minute, bs[0].minute) {
      InsertKeeps(bs[1..], b);
      assert bs + [b] == [bs[0]] + (bs[1..] + [b]);
    }
  }

  lemma {:induction false} InsertOrdered(bs: seq<Bucket>, b: Bucket)
    requires Sorted(bs) && !Has(bs, b.minute)
    ensures Sorted(Insert(bs, b))
    ensures Insert(bs, b)[0] == if |bs| == 0 || Less(b.minute, bs[0].minute) then b else bs[0]
  {
    if |bs| == 0 {
      return;
    }
    if Less(b.minute, bs[0].minute) {
      Under(b.minute, bs);
    } else {
      assert bs[0].minute != b.minute;
      LessTotal(bs[0].minute, b.minute);
      assert forall i :: 0 <= i < |bs[1..]| ==> bs[1..][i] == bs[i + 1];
      InsertOrdered(bs[1..], b);
      var rest := Insert(bs[1..], b);
      forall j | 0 <= j < |rest|
        ensures Less(bs[0].minute, rest[j].minute)
      {
        InsertFrom(bs[1..], b, rest[j]);
      }
    }
  }

  /** Insert is what sorting the buckets with one more at the end gives: the same buckets, in order. */
  lemma InsertSorts(bs: seq<Bucket>, b: Bucket)
    requires Sorted(bs) && !Has(bs, b.minute)
    ensures Sorted(Insert(bs, b)) && multiset(Insert(bs, b)) == multiset(bs + [b])
    ensures Insert(bs, b)[0] == if |bs| == 0 || Less(b.minute, bs[0].minute) then b else bs[0]
  {
    InsertKeeps(bs, b);
    InsertOrdered(bs, b);
  }

  lemma Under(m: Stamp, bs: seq<Bucket>)
    requires |bs| > 0 && Sorted(bs) && Less(m, bs[0].minute)
    ensures forall j :: 0 <= j < |bs| ==> Less(m, bs[j].minute)
  {
    forall j | 0 <= j < |bs|
      ensures Less(m, bs[j].minute)
    {
      if j > 0 {
        LessTransitive(m, bs[0].minute, bs[j].minute);
      }
    }
  }

  /** The buckets with a new one sorted in, less the oldest if they have become too many. */
  function Grown(bs: seq<Bucket>, b: Bucket): seq<Bucket> {
    var all := Insert(bs, b);
    if |all| > BUCKETS_MAX then all[|all| - BUCKETS_MAX..] else all
  }

  lemma {:induction false} InsertHas(bs: seq<Bucket>, b: Bucket, x: Bucket)
    requires x == b || x in bs
    ensures x in Insert(bs, b)
  {
    if |bs| > 0 && !Less(b.minute, bs[0].minute) && x != bs[0] {
      InsertHas(bs[1..], b, x);
    }
  }

  lemma {:induction false} InsertFrom(bs: seq<Bucket>, b: Bucket, x: Bucket)
    requires x in Insert(bs, b)
    ensures x == b || x in bs
  {
    if |bs| > 0 && !Less(b.minute, bs[0].minute) && x != bs[0] {
      InsertFrom(bs[1..], b, x);
    }
  }

  lemma Still(bs: seq<Bucket>, b: Bucket, m: Stamp)
    requires Sorted(bs) && !Has(bs, b.minute) && |bs| <= BUCKETS_MAX && (Has(bs, m) || m == b.minute)
    ensures Has(Grown(bs, b), m) || (|bs| == BUCKETS_MAX && m == Insert(bs, b)[0].minute)
  {
    var x := b;
    if m != b.minute {
      var i :| 0 <= i < |bs| && bs[i].minute == m;
      x := bs[i];
    }
    InsertHas(bs, b, x);
    var all := Insert(bs, b);
    var k :| 0 <= k < |all| && all[k] == x;
    if |all| > BUCKETS_MAX && k > 0 {
      assert Grown(bs, b)[k - 1] == x;
    } else if |all| <= BUCKETS_MAX {
      assert Grown(bs, b)[k] == x;
    }
  }

  /** Crediting a new minute keeps the newest ones. */
  lemma GrownNewest(bs: seq<Bucket>, credited: set<Stamp>, b: Bucket)
    requires Newest(bs, credited) && !Has(bs, b.minute)
    ensures Newest(Grown(bs, b), credited + {b.minute})
  {
    InsertSorts(bs, b);
    var all, r := Insert(bs, b), Grown(bs, b);
    forall i | 0 <= i < |r|
      ensures r[i].minute in credited + {b.minute}
    {
      assert r[i] in all;
      InsertFrom(bs, b, r[i]);
    }
    forall m | m in credited + {b.minute}
      ensures Has(r, m) || (|r| == BUCKETS_MAX && Less(m, r[0].minute))
    {
      if Has(bs, m) || m == b.minute {
        Still(bs, b, m);
      } else {
        Older(bs, b, m);
      }
    }
  }

  lemma Older(bs: seq<Bucket>, b: Bucket, m: Stamp)
    requires Sorted(bs) && !Has(bs, b.minute) && |bs| == BUCKETS_MAX && Less(m, bs[0].minute) && m != b.minute
    ensures Less(m, Grown(bs, b)[0].minute)
  {
    InsertSorts(bs, b);
    var all := Insert(bs, b);
    assert Grown(bs, b)[0] == all[1];
    if all[0] == bs[0] {
      LessTransitive(m, bs[0].minute, all[1].minute);
    } else {
      assert all == [b] + bs;
    }
  }

  /** Each bucket holds exactly the output tokens counted in its minute. */
  ghost predicate Exact(bs: seq<Bucket>, seen: map<Id, Counted>) {
    forall i :: 0 <= i < |bs| ==> bs[i].tokens == Total(seen, OutputIn(bs[i].minute))
  }

  // ---- the whole tally ----

  ghost predicate Sums(t: Tokens, seen: map<Id, Counted>) {
    && t.input == Total(seen, Input) && t.output == Total(seen, Output)
    && t.cacheRead == Total(seen, CacheRead) && t.cacheCreation == Total(seen, CacheCreation)
  }

  /** Every minute with a message counted in it was credited. */
  ghost predicate Credited(seen: map<Id, Counted>, credited: set<Stamp>) {
    forall id :: id in seen && |seen[id].stamp| >= MINUTE ==> seen[id].stamp[..MINUTE] in credited
  }

  ghost predicate Tally(t: Tokens, messages: nat, bs: seq<Bucket>, seen: map<Id, Counted>, credited: set<Stamp>) {
    Sums(t, seen) && messages == |seen| && Newest(bs, credited) && Exact(bs, seen) && Credited(seen, credited)
  }

  function Plus(t: Tokens, u: Tokens): Tokens {
    Tokens(t.input + u.input, t.output + u.output, t.cacheRead + u.cacheRead, t.cacheCreation + u.cacheCreation)
  }

  predicate AtLeast(t: Tokens, u: Tokens) {
    t.input >= u.input && t.output >= u.output && t.cacheRead >= u.cacheRead && t.cacheCreation >= u.cacheCreation
  }

  function Minus(t: Tokens, u: Tokens): Tokens
    requires AtLeast(t, u)
  {
    Tokens(t.input - u.input, t.output - u.output, t.cacheRead - u.cacheRead, t.cacheCreation - u.cacheCreation)
  }

  lemma SumsWithout(t: Tokens, seen: map<Id, Counted>, id: Id)
    requires Sums(t, seen) && id in seen
    ensures AtLeast(t, seen[id].usage) && Sums(Minus(t, seen[id].usage), seen - {id})
  {
    TotalRemove(seen, id, Input);
    TotalRemove(seen, id, Output);
    TotalRemove(seen, id, CacheRead);
    TotalRemove(seen, id, CacheCreation);
  }

  lemma SumsWith(t: Tokens, seen: map<Id, Counted>, id: Id, c: Counted)
    requires Sums(t, seen - {id})
    ensures Sums(Plus(t, c.usage), seen[id := c])
  {
    TotalPut(seen, id, c, Input);
    TotalPut(seen, id, c, Output);
    TotalPut(seen, id, c, CacheRead);
    TotalPut(seen, id, c, CacheCreation);
  }

  /** The buckets with tokens added to, or taken from, the one of a minute. */
  function Changed(bs: seq<Bucket>, i: nat, tokens: nat): seq<Bucket>
    requires i < |bs|
  {
    bs[i := bs[i].(tokens := tokens)]
  }

  lemma ChangedNewest(bs: seq<Bucket>, i: nat, tokens: nat, credited: set<Stamp>)
    requires i < |bs| && Newest(bs, credited)
    ensures Newest(Changed(bs, i, tokens), credited)
  {
    var cs := Changed(bs, i, tokens);
    assert forall j :: 0 <= j < |cs| ==> cs[j].minute == bs[j].minute;
    forall m | m in credited && Has(bs, m)
      ensures Has(cs, m)
    {
      var j :| 0 <= j < |bs| && bs[j].minute == m;
      assert cs[j].minute == m;
    }
  }

  /** Distinct buckets have distinct minutes. */
  lemma OneEach(bs: seq<Bucket>, i: nat, j: nat)
    requires Sorted(bs) && i < |bs| && j < |bs| && bs[i].minute == bs[j].minute
    ensures i == j
  {
    LessIrreflexive(bs[i].minute);
  }

  lemma ExactWithout(bs: seq<Bucket>, seen: map<Id, Counted>, id: Id)
    requires Exact(bs, seen) && id in seen
    ensures forall i :: 0 <= i < |bs| ==>
      bs[i].tokens == Weigh(seen[id], OutputIn(bs[i].minute)) + Total(seen - {id}, OutputIn(bs[i].minute))
  {
    forall i | 0 <= i < |bs|
      ensures bs[i].tokens == Weigh(seen[id], OutputIn(bs[i].minute)) + Total(seen - {id}, OutputIn(bs[i].minute))
    {
      TotalRemove(seen, id, OutputIn(bs[i].minute));
    }
  }

  /** Retraction hits the bucket the tokens went into, and it holds at least those. */
  lemma Retracted(bs: seq<Bucket>, seen: map<Id, Counted>, id: Id, i: nat)
    requires Sorted(bs) && Exact(bs, seen) && id in seen && i < |bs| && InMinute(seen[id].stamp, bs[i].minute)
    ensures bs[i].tokens >= seen[id].usage.output
    ensures Exact(Changed(bs, i, bs[i].tokens - seen[id].usage.output), seen - {id})
  {
    ExactWithout(bs, seen, id);
    var cs := Changed(bs, i, bs[i].tokens - seen[id].usage.output);
    forall j | 0 <= j < |cs|
      ensures cs[j].tokens == Total(seen - {id}, OutputIn(cs[j].minute))
    {
      if j != i && InMinute(seen[id].stamp, bs[j].minute) {
        OneEach(bs, i, j);
      }
    }
  }

  lemma RetractedNowhere(bs: seq<Bucket>, seen: map<Id, Counted>, id: Id)
    requires Exact(bs, seen) && id in seen && forall i :: 0 <= i < |bs| ==> !InMinute(seen[id].stamp, bs[i].minute)
    ensures Exact(bs, seen - {id})
  {
    ExactWithout(bs, seen, id);
  }

  lemma ExactWith(bs: seq<Bucket>, seen: map<Id, Counted>, id: Id, c: Counted)
    requires forall i :: 0 <= i < |bs| ==>
      bs[i].tokens == Weigh(c, OutputIn(bs[i].minute)) + Total(seen - {id}, OutputIn(bs[i].minute))
    ensures Exact(bs, seen[id := c])
  {
    forall i | 0 <= i < |bs|
      ensures bs[i].tokens == Total(seen[id := c], OutputIn(bs[i].minute))
    {
      TotalPut(seen, id, c, OutputIn(bs[i].minute));
    }
  }

  lemma AddedTo(bs: seq<Bucket>, seen: map<Id, Counted>, id: Id, c: Counted, i: nat)
    requires Sorted(bs) && Exact(bs, seen - {id}) && i < |bs| && InMinute(c.stamp, bs[i].minute)
    ensures Exact(Changed(bs, i, bs[i].tokens + c.usage.output), seen[id := c])
  {
    var cs := Changed(bs, i, bs[i].tokens + c.usage.output);
    forall j | 0 <= j < |cs|
      ensures cs[j].tokens == Weigh(c, OutputIn(cs[j].minute)) + Total(seen - {id}, OutputIn(cs[j].minute))
    {
      if j != i && InMinute(c.stamp, bs[j].minute) {
        OneEach(bs, i, j);
      }
    }
    ExactWith(cs, seen, id, c);
  }

  lemma AddedNowhere(bs: seq<Bucket>, seen: map<Id, Counted>, id: Id, c: Counted)
    requires Exact(bs, seen - {id}) && |c.stamp| < MINUTE
    ensures Exact(bs, seen[id := c])
  {
    ExactWith(bs, seen, id, c);
  }

  /** A new minute: either nothing was ever counted in it, or its bucket is old and goes at once. */
  lemma AddedNew(bs: seq<Bucket>, seen: map<Id, Counted>, id: Id, c: Counted, credited: set<Stamp>)
    requires Newest(bs, credited) && Exact(bs, seen - {id}) && Credited(seen - {id}, credited)
    requires |c.stamp| >= MINUTE && !Has(bs, c.stamp[..MINUTE])
    ensures Exact(Grown(bs, Bucket(c.stamp[..MINUTE], c.usage.output)), seen[id := c])
  {
    var m := c.stamp[..MINUTE];
    var b := Bucket(m, c.usage.output);
    var r := Grown(bs, b);
    if m in credited {
      Evicted(bs, b);
    }
    forall i | 0 <= i < |r|
      ensures r[i].tokens == Weigh(c, OutputIn(r[i].minute)) + Total(seen - {id}, OutputIn(r[i].minute))
    {
      assert r[i] in Insert(bs, b);
      InsertFrom(bs, b, r[i]);
      if r[i] in bs {
        assert r[i].minute != m;
      } else {
        TotalNone(seen - {id}, m);
      }
    }
    ExactWith(r, seen, id, c);
  }

  /** A bucket older than all of a full set does not stay. */
  lemma Evicted(bs: seq<Bucket>, b: Bucket)
    requires |bs| == BUCKETS_MAX && Less(b.minute, bs[0].minute)
    ensures Grown(bs, b) == bs
  {
    assert Insert(bs, b) == [b] + bs;
  }
}
