/** What a scrollback fetch should return, on plain lists of lines, and the exact answer of the two-generation
    disk path (src/common/scrollback.c, sb_fetch_deep) compared with it. */
module History {
  import opened Log

  /** Sequence numbers go up by one from line to line. */
  ghost predicate Contiguous(rs: seq<Rec>) {
    forall i :: 0 <= i < |rs| ==> rs[i].no == rs[0].no + i
  }

  ghost predicate IsSuffix(a: seq<Rec>, b: seq<Rec>) {
    |a| <= |b| && a == b[|b| - |a|..]
  }

  ghost function Last(rs: seq<Rec>, n: nat): seq<Rec> {
    rs[if |rs| <= n then 0 else |rs| - n..]
  }

  /** Index of the first line from i on that is numbered start or later. */
  ghost function Due(rs: seq<Rec>, start: nat, i: nat): (k: nat)
    requires i <= |rs|
    ensures i <= k <= |rs|
    decreases |rs| - i
  {
    if i == |rs| || rs[i].no >= start then i else Due(rs, start, i + 1)
  }

  lemma {:induction false} DueMeaning(rs: seq<Rec>, start: nat, i: nat)
    requires i <= |rs|
    ensures forall j :: i <= j < Due(rs, start, i) ==> rs[j].no < start
    ensures Due(rs, start, i) < |rs| ==> rs[Due(rs, start, i)].no >= start
    decreases |rs| - i
  {
    if i < |rs| && rs[i].no < start {
      DueMeaning(rs, start, i + 1);
    }
  }

  /** Text bytes of lines i to j. */
  ghost function Used(rs: seq<Rec>, i: nat, j: nat): nat
    requires j <= |rs|
    decreases j - i
  {
    if i >= j then 0 else |rs[i].text| + Used(rs, i + 1, j)
  }

  /** Where serving from line i stops: after n lines, or before the first whose text no longer fits in room. */
  ghost function Stop(rs: seq<Rec>, i: nat, n: nat, room: nat): (k: nat)
    requires i <= |rs|
    ensures i <= k <= |rs| && k - i <= n && Used(rs, i, k) <= room
    decreases n
  {
    if i == |rs| || n == 0 || |rs[i].text| > room then i else Stop(rs, i + 1, n - 1, room - |rs[i].text|)
  }

  ghost function TextBytes(rs: seq<Rec>): nat {
    Used(rs, 0, |rs|)
  }

  lemma {:induction false} UsedSlice(rs: seq<Rec>, i: nat, j: nat, k: nat)
    requires i <= j <= k <= |rs|
    ensures Used(rs[i..k], j - i, k - i) == Used(rs, j, k)
    decreases k - j
  {
    if j < k {
      UsedSlice(rs, i, j + 1, k);
    }
  }

  /** The first lines numbered start or later: at most n of them, as far as the buffer holds their text. */
  ghost function Page(rs: seq<Rec>, start: nat, n: nat, room: nat): (p: seq<Rec>)
    ensures |p| <= n && TextBytes(p) <= room
  {
    var i := Due(rs, start, 0);
    var k := Stop(rs, i, n, room);
    UsedSlice(rs, i, i, k);
    rs[i..k]
  }

  /** The first n lines numbered start or later. */
  ghost function PlainPage(rs: seq<Rec>, start: nat, n: nat): seq<Rec> {
    var i := Due(rs, start, 0);
    rs[i..if n <= |rs| - i then i + n else |rs|]
  }

  /** The number to go on from behind the lines served so far. */
  ghost function After(served: seq<Rec>, start: nat): nat {
    if served == [] then start else served[|served| - 1].no + 1
  }

  /** What sb_fetch_deep reads from disk: a page of the older generation, then one of the current generation
      from behind the last line served. */
  ghost function TwoGenerations(prev: seq<Rec>, cur: seq<Rec>, start: nat, n: nat, room: nat): seq<Rec> {
    var older := Page(prev, start, n, room);
    older + Page(cur, After(older, start), n - |older|, room - TextBytes(older))
  }

  /** What sb_fetch_deep returns: the ring's answer for anything the ring still holds, else the disk's. */
  ghost function Deep(prev: seq<Rec>, cur: seq<Rec>, ring: seq<Rec>, start: nat, n: nat, room: nat): seq<Rec> {
    if ring != [] && start >= ring[0].no then PlainPage(ring, start, n)
    else TwoGenerations(prev, cur, start, n, room)
  }

  // ---- Due and Stop over a concatenation ----

  lemma ContiguousPart(a: seq<Rec>, b: seq<Rec>)
    requires Contiguous(a + b)
    ensures Contiguous(a) && Contiguous(b)
    ensures a != [] && b != [] ==> b[0].no == a[0].no + |a|
  {
    assert forall i :: 0 <= i < |a| ==> (a + b)[i] == a[i];
    assert forall i :: 0 <= i < |b| ==> (a + b)[|a| + i] == b[i];
  }

  lemma DueUnique(rs: seq<Rec>, start: nat, k: nat)
    requires Contiguous(rs) && k <= |rs|
    requires k > 0 ==> rs[k - 1].no < start
    requires k < |rs| ==> rs[k].no >= start
    ensures Due(rs, start, 0) == k
  {
    DueMeaning(rs, start, 0);
  }

  lemma DueConcat(a: seq<Rec>, b: seq<Rec>, start: nat)
    requires Contiguous(a + b)
    ensures Due(a + b, start, 0) == if Due(a, start, 0) < |a| then Due(a, start, 0) else |a| + Due(b, start, 0)
  {
    var i := Due(a, start, 0);
    var j := Due(b, start, 0);
    ContiguousPart(a, b);
    DueMeaning(a, start, 0);
    DueMeaning(b, start, 0);
    var k := if i < |a| then i else |a| + j;
    DueAcross(a, b, start, i, j);
    DueUnique(a + b, start, k);
  }

  lemma DueAcross(a: seq<Rec>, b: seq<Rec>, start: nat, i: nat, j: nat)
    requires i <= |a| && j <= |b| && (i > 0 ==> a[i - 1].no < start) && (i < |a| ==> a[i].no >= start)
    requires (j > 0 ==> b[j - 1].no < start) && (j < |b| ==> b[j].no >= start)
    ensures var k := if i < |a| then i else |a| + j;
      (k > 0 ==> (a + b)[k - 1].no < start) && (k < |a + b| ==> (a + b)[k].no >= start)
  {
  }

  lemma {:induction false} StopShift(a: seq<Rec>, b: seq<Rec>, j: nat, n: nat, room: nat)
    requires j <= |b|
    ensures Stop(a + b, |a| + j, n, room) == |a| + Stop(b, j, n, room)
    decreases n
  {
    if j < |b| && n > 0 && |b[j].text| <= room {
      assert (a + b)[|a| + j] == b[j];
      StopShift(a, b, j + 1, n - 1, room - |b[j].text|);
    }
  }

  /** Serving on from a into b happens only once a is served whole. */
  lemma {:induction false} StopConcat(a: seq<Rec>, b: seq<Rec>, i: nat, n: nat, room: nat)
    requires i <= |a|
    ensures var k := Stop(a, i, n, room);
      Stop(a + b, i, n, room) == if k < |a| then k else |a| + Stop(b, 0, n - (k - i), room - Used(a, i, k))
    decreases n
  {
    if i == |a| {
      StopShift(a, b, 0, n, room);
    } else {
      assert (a + b)[i] == a[i];
      if n > 0 && |a[i].text| <= room {
        StopConcat(a, b, i + 1, n - 1, room - |a[i].text|);
      }
    }
  }

  lemma {:induction false} UsedConcat(a: seq<Rec>, b: seq<Rec>, i: nat, j: nat)
    requires j <= |a|
    ensures Used(a + b, i, j) == Used(a, i, j)
    decreases j - i
  {
    if i < j {
      assert (a + b)[i] == a[i];
      UsedConcat(a, b, i + 1, j);
    }
  }

  lemma {:induction false} UsedPart(rs: seq<Rec>, i: nat, k: nat, j: nat)
    requires i <= k <= j <= |rs|
    ensures Used(rs, i, j) == Used(rs, i, k) + Used(rs, k, j)
    decreases k - i
  {
    if i < k {
      UsedPart(rs, i + 1, k, j);
    }
  }

  /** With room for their text, n lines are served. */
  lemma {:induction false} StopWithRoom(rs: seq<Rec>, i: nat, n: nat, j: nat, room: nat)
    requires i <= j <= |rs| && (j == |rs| || j == i + n) && j <= i + n
    requires Used(rs, i, j) <= room
    ensures Stop(rs, i, n, room) == j
    decreases n
  {
    if i < j {
      StopWithRoom(rs, i + 1, n - 1, j, room - |rs[i].text|);
    }
  }

  // ---- the theorems ----

  lemma SliceConcat<T>(a: seq<T>, b: seq<T>, i: nat, m: nat)
    requires i <= |a| && m <= |b|
    ensures (a + b)[i..|a| + m] == a[i..|a|] + b[0..m]
  {
  }

  lemma SliceRight<T>(a: seq<T>, b: seq<T>, j: nat, m: nat)
    requires j <= m <= |b|
    ensures (a + b)[|a| + j..|a| + m] == b[j..m]
  {
  }

  lemma SlicePrefix<T>(a: seq<T>, b: seq<T>, i: nat, k: nat)
    requires i <= k <= |a|
    ensures (a + b)[i..k] == a[i..k]
  {
  }

  lemma AppendsNothing<T>(a: seq<T>, x: seq<T>)
    ensures a + x == a <==> |x| == 0
  {
    assert |a + x| == |a| + |x|;
  }

  /** While the older generation has a line due, every line of the current one is, also behind those served. */
  lemma CurrentDue(prev: seq<Rec>, cur: seq<Rec>, start: nat, n: nat, room: nat)
    requires Contiguous(prev + cur) && Due(prev, start, 0) < |prev|
    ensures Due(cur, After(Page(prev, start, n, room), start), 0) == 0
  {
    var i := Due(prev, start, 0);
    var k := Stop(prev, i, n, room);
    ContiguousPart(prev, cur);
    DueMeaning(prev, start, 0);
    assert k > i ==> prev[i..k][k - i - 1] == prev[k - 1];
    assert k > i ==> prev[k - 1].no == prev[0].no + (k - 1);
    assert prev[i].no == prev[0].no + i;
  }

  /** A page as a slice. */
  lemma PageSlice(rs: seq<Rec>, start: nat, n: nat, room: nat, i: nat, k: nat)
    requires i == Due(rs, start, 0) && k == Stop(rs, i, n, room)
    ensures Page(rs, start, n, room) == rs[i..k] && |rs[i..k]| == k - i && TextBytes(rs[i..k]) == Used(rs, i, k)
  {
    UsedSlice(rs, i, i, k);
  }

  /** The two pages as slices of the two generations. */
  lemma TwoSlices(prev: seq<Rec>, cur: seq<Rec>, start: nat, n: nat, room: nat, i: nat, k: nat, j: nat)
    requires Contiguous(prev + cur) && i == Due(prev, start, 0) && k == Stop(prev, i, n, room)
    requires j == if i < |prev| then 0 else Due(cur, start, 0)
    ensures TwoGenerations(prev, cur, start, n, room)
      == prev[i..k] + cur[j..Stop(cur, j, n - (k - i), room - Used(prev, i, k))]
  {
    PageSlice(prev, start, n, room, i, k);
    var next := After(prev[i..k], start);
    if i < |prev| {
      CurrentDue(prev, cur, start, n, room);
    } else {
      assert next == start;
    }
    PageSlice(cur, next, n - (k - i), room - Used(prev, i, k), j, Stop(cur, j, n - (k - i), room - Used(prev, i, k)));
  }

  /** Nothing of the older generation is due: the page of the whole list is that of the current one. */
  lemma OnlyCurrent(prev: seq<Rec>, cur: seq<Rec>, start: nat, n: nat, room: nat)
    requires Contiguous(prev + cur) && Due(prev, start, 0) == |prev|
    ensures TwoGenerations(prev, cur, start, n, room) == Page(prev + cur, start, n, room)
  {
    var j := Due(cur, start, 0);
    var m := Stop(cur, j, n, room);
    DueConcat(prev, cur, start);
    NoneDue(prev, start, n, room);
    TwoWhenNone(prev, cur, start, n, room);
    ShiftedSlice(prev, cur, start, n, room, j, m);
    SliceRight(prev, cur, j, m);
  }

  lemma NoneDue(rs: seq<Rec>, start: nat, n: nat, room: nat)
    requires Due(rs, start, 0) == |rs|
    ensures Page(rs, start, n, room) == []
  {
  }

  lemma TwoWhenNone(prev: seq<Rec>, cur: seq<Rec>, start: nat, n: nat, room: nat)
    requires Page(prev, start, n, room) == []
    ensures TwoGenerations(prev, cur, start, n, room) == Page(cur, start, n, room)
  {
    assert TextBytes([]) == 0;
  }

  lemma ShiftedSlice(prev: seq<Rec>, cur: seq<Rec>, start: nat, n: nat, room: nat, j: nat, m: nat)
    requires Due(prev + cur, start, 0) == |prev| + j && j <= |cur| && m == Stop(cur, j, n, room)
    ensures Page(prev + cur, start, n, room) == (prev + cur)[|prev| + j..|prev| + m]
  {
    StopShift(prev, cur, j, n, room);
  }

  /** Where the page of the whole list starts and stops when a line of the older generation is due. */
  lemma WholePage(prev: seq<Rec>, cur: seq<Rec>, start: nat, n: nat, room: nat, i: nat, k: nat, m: nat)
    requires Contiguous(prev + cur) && i == Due(prev, start, 0) < |prev| && k == Stop(prev, i, n, room)
    requires m == Stop(cur, 0, n - (k - i), room - Used(prev, i, k))
    ensures Page(prev + cur, start, n, room) == if k < |prev| then (prev + cur)[i..k] else (prev + cur)[i..|prev| + m]
    ensures TwoGenerations(prev, cur, start, n, room) == prev[i..k] + cur[0..m]
  {
    TwoSlices(prev, cur, start, n, room, i, k, 0);
    DueConcat(prev, cur, start);
    StopConcat(prev, cur, i, n, room);
    PageSlice(prev + cur, start, n, room, i, if k < |prev| then k else |prev| + m);
  }

  /** The older generation served to its end: the page goes on with the current one. */
  lemma AcrossGenerations(prev: seq<Rec>, cur: seq<Rec>, start: nat, n: nat, room: nat)
    requires Contiguous(prev + cur) && Due(prev, start, 0) < |prev|
    requires Stop(prev, Due(prev, start, 0), n, room) == |prev|
    ensures TwoGenerations(prev, cur, start, n, room) == Page(prev + cur, start, n, room)
  {
    var i := Due(prev, start, 0);
    var m := Stop(cur, 0, n - (|prev| - i), room - Used(prev, i, |prev|));
    WholePage(prev, cur, start, n, room, i, |prev|, m);
    SliceConcat(prev, cur, i, m);
  }

  /** The older generation cut short: the page ends there, and anything served behind it leaves a gap. */
  lemma CutShort(prev: seq<Rec>, cur: seq<Rec>, start: nat, n: nat, room: nat)
    requires Contiguous(prev + cur) && Stop(prev, Due(prev, start, 0), n, room) < |prev|
    ensures var i := Due(prev, start, 0);
      var k := Stop(prev, i, n, room);
      TwoGenerations(prev, cur, start, n, room) == Page(prev + cur, start, n, room)
      <==> Stop(cur, 0, n - (k - i), room - Used(prev, i, k)) == 0
  {
    var i := Due(prev, start, 0);
    var k := Stop(prev, i, n, room);
    var m := Stop(cur, 0, n - (k - i), room - Used(prev, i, k));
    WholePage(prev, cur, start, n, room, i, k, m);
    GapIffMore(prev, cur, i, k, m);
  }

  lemma GapIffMore(prev: seq<Rec>, cur: seq<Rec>, i: nat, k: nat, m: nat)
    requires i <= k <= |prev| && m <= |cur|
    ensures prev[i..k] + cur[0..m] == (prev + cur)[i..k] <==> m == 0
  {
    SlicePrefix(prev, cur, i, k);
    AppendsNothing(prev[i..k], cur[0..m]);
  }

  /** The disk path returns the page of the whole list exactly unless the text buffer filled inside the older
      generation with a line of the current one still fitting behind it. */
  lemma TwoGenerationsExact(prev: seq<Rec>, cur: seq<Rec>, start: nat, n: nat, room: nat)
    requires Contiguous(prev + cur)
    ensures var i := Due(prev, start, 0);
      var k := Stop(prev, i, n, room);
      TwoGenerations(prev, cur, start, n, room) == Page(prev + cur, start, n, room)
      <==> !(k < |prev| && k - i < n && cur != [] && |cur[0].text| <= room - Used(prev, i, k))
  {
    var i := Due(prev, start, 0);
    if i == |prev| {
      OnlyCurrent(prev, cur, start, n, room);
    } else if Stop(prev, i, n, room) == |prev| {
      AcrossGenerations(prev, cur, start, n, room);
    } else {
      var k := Stop(prev, i, n, room);
      CutShort(prev, cur, start, n, room);
      StopsAtOnce(cur, n - (k - i), room - Used(prev, i, k));
    }
  }

  lemma StopsAtOnce(rs: seq<Rec>, n: nat, room: nat)
    ensures Stop(rs, 0, n, room) == 0 <==> rs == [] || n == 0 || |rs[0].text| > room
  {
  }

  /** Such a page: with two bytes of room, line 0 leaves no room for line 1, the fetch goes on to the current log, and
      line 2 is served right behind line 0. */
  lemma PageWithHole(a: Rec, b: Rec, c: Rec)
    requires a.no == 0 && b.no == 1 && c.no == 2 && |a.text| == 1 && |b.text| == 2 && |c.text| == 1
    ensures TwoGenerations([a, b], [c], 0, 3, 2) == [a, c] && Page([a, b] + [c], 0, 3, 2) == [a]
  {
    var prev, cur, all := [a, b], [c], [a, b] + [c];
    assert all == [a, b, c];
    assert Due(prev, 0, 0) == 0 == Due(all, 0, 0);
    assert Stop(prev, 1, 2, 1) == 1 == Stop(all, 1, 2, 1);
    assert Stop(prev, 0, 3, 2) == 1 == Stop(all, 0, 3, 2);
    assert Page(prev, 0, 3, 2) == prev[0..1] == [a] && Page(all, 0, 3, 2) == all[0..1] == [a];
    assert TextBytes([a]) == 1 by { assert Used([a], 1, 1) == 0; }
    assert Due(cur, 1, 0) == 0 && Stop(cur, 1, 1, 0) == 1 && Stop(cur, 0, 2, 1) == 1;
    assert Page(cur, 1, 2, 1) == cur[0..1] == [c];
  }

  lemma SuffixSlice(a: seq<Rec>, b: seq<Rec>, i: nat, e: nat)
    requires IsSuffix(a, b) && i <= e <= |a|
    ensures a[i..e] == b[|b| - |a| + i..|b| - |a| + e]
  {
  }

  lemma SuffixAt(a: seq<Rec>, b: seq<Rec>, i: nat)
    requires IsSuffix(a, b) && i < |a| && Contiguous(b)
    ensures a[i].no == b[0].no + |b| - |a| + i
  {
    assert a[i] == b[|b| - |a| + i];
  }

  lemma DueInSuffix(a: seq<Rec>, b: seq<Rec>, start: nat)
    requires IsSuffix(a, b) && Contiguous(b) && a != [] && start >= a[0].no
    ensures |b| - |a| + Due(a, start, 0) == Due(b, start, 0)
  {
    var k := Due(a, start, 0);
    var d := |b| - |a|;
    DueMeaning(a, start, 0);
    SuffixAt(a, b, 0);
    if k > 0 { SuffixAt(a, b, k - 1); }
    if k < |a| { SuffixAt(a, b, k); }
    assert d + k > 0 ==> b[d + k - 1].no == b[0].no + (d + k - 1);
    DueUnique(b, start, d + k);
  }

  /** A page that starts within both the ring and the disk list is the same page. */
  lemma RingPage(ring: seq<Rec>, all: seq<Rec>, lines: seq<Rec>, start: nat, n: nat)
    requires Contiguous(lines) && IsSuffix(ring, lines) && IsSuffix(all, lines)
    requires ring != [] && all != [] && ring[0].no <= start && all[0].no <= start
    ensures PlainPage(ring, start, n) == PlainPage(all, start, n)
  {
    DueInSuffix(ring, lines, start);
    DueInSuffix(all, lines, start);
    SamePage(ring, all, lines, start, n);
  }

  /** Suffixes in which the same line is the first due give the same page. */
  lemma SamePage(ring: seq<Rec>, all: seq<Rec>, lines: seq<Rec>, start: nat, n: nat)
    requires IsSuffix(ring, lines) && IsSuffix(all, lines)
    requires |ring| - Due(ring, start, 0) == |all| - Due(all, start, 0)
    ensures PlainPage(ring, start, n) == PlainPage(all, start, n)
  {
    PageOfSuffix(ring, lines, start, n);
    PageOfSuffix(all, lines, start, n);
  }

  lemma PageOfSuffix(a: seq<Rec>, lines: seq<Rec>, start: nat, n: nat)
    requires IsSuffix(a, lines)
    ensures var left := |a| - Due(a, start, 0);
      PlainPage(a, start, n) == lines[|lines| - left..|lines| - left + if n <= left then n else left]
  {
    var i := Due(a, start, 0);
    SuffixSlice(a, lines, i, i + if n <= |a| - i then n else |a| - i);
  }

  /** A page that starts in the ring before the first line on disk begins with the line asked for, which the
      disk list does not have. */
  lemma RingOnlyPage(ring: seq<Rec>, all: seq<Rec>, lines: seq<Rec>, start: nat, n: nat)
    requires Contiguous(lines) && IsSuffix(ring, lines) && IsSuffix(all, lines)
    requires ring != [] && all != [] && ring[0].no <= start < all[0].no
    ensures PlainPage(ring, start, n) == PlainPage(all, start, n) <==> n == 0
  {
    var i := start - ring[0].no;
    SuffixAt(all, lines, 0);
    SuffixAt(ring, lines, 0);
    SuffixAt(ring, lines, i);
    DueInSuffix(ring, lines, start);
    if i > 0 { SuffixAt(ring, lines, i - 1); }
    assert Due(all, start, 0) == 0;
    assert Due(ring, start, 0) == i by {
      assert lines[|lines| - |ring| + i].no == start;
      DueUnique(lines, start, |lines| - |ring| + i);
    }
    if n > 0 {
      assert PlainPage(ring, start, n)[0] == ring[i];
      assert PlainPage(all, start, n)[0] == all[0];
    }
  }

  /** sb_fetch_deep answers from the plain list of all lines on disk or staged: with a buffer large enough for
      the lines due, it returns exactly the first n numbered start or later. The one exception is a request
      that starts at a line the ring still holds and rotation has already dropped from disk. */
  lemma DeepIsHistory(prev: seq<Rec>, cur: seq<Rec>, ring: seq<Rec>, lines: seq<Rec>, start: nat, n: nat, room: nat)
    requires Contiguous(lines) && IsSuffix(ring, lines) && IsSuffix(prev + cur, lines) && prev + cur != []
    requires PageFits(prev + cur, start, n, room)
    ensures Deep(prev, cur, ring, start, n, room) == PlainPage(prev + cur, start, n)
      <==> !(ring != [] && ring[0].no <= start < (prev + cur)[0].no && n > 0)
  {
    var all := prev + cur;
    assert Contiguous(all) by {
      assert forall i :: 0 <= i < |all| ==> all[i] == lines[|lines| - |all| + i];
    }
    if ring != [] && start >= ring[0].no {
      if start < all[0].no {
        RingOnlyPage(ring, all, lines, start, n);
      } else {
        RingPage(ring, all, lines, start, n);
      }
    } else {
      RoomyPage(prev, cur, start, n, room);
    }
  }

  /** The text buffer holds the whole page. */
  ghost predicate PageFits(rs: seq<Rec>, start: nat, n: nat, room: nat) {
    var i := Due(rs, start, 0);
    Used(rs, i, if n <= |rs| - i then i + n else |rs|) <= room
  }

  lemma RoomyPage(prev: seq<Rec>, cur: seq<Rec>, start: nat, n: nat, room: nat)
    requires Contiguous(prev + cur) && PageFits(prev + cur, start, n, room)
    ensures TwoGenerations(prev, cur, start, n, room) == PlainPage(prev + cur, start, n)
  {
    var all := prev + cur;
    var i := Due(all, start, 0);
    var j := if n <= |all| - i then i + n else |all|;
    StopWithRoom(all, i, n, j, room);
    DueConcat(prev, cur, start);
    TwoGenerationsExact(prev, cur, start, n, room);
    if i < |prev| {
      var k := if j <= |prev| then j else |prev|;
      UsedPart(all, i, k, j);
      UsedConcat(prev, cur, i, k);
      StopWithRoom(prev, i, n, k, room);
    }
  }

  // ---- the ring refill ----

  lemma LastSnoc(rs: seq<Rec>, r: Rec, n: nat)
    requires n > 0
    ensures Last(Last(rs, n) + [r], n) == Last(rs + [r], n)
  {
  }

  /** Feeding the last n lines of a and then of b through a ring of n leaves the last n of a + b. */
  lemma LastOfTails(a: seq<Rec>, b: seq<Rec>, n: nat)
    ensures Last(Last(a, n) + Last(b, n), n) == Last(a + b, n)
  {
    if |b| >= n {
      assert Last(Last(a, n) + Last(b, n), n) == Last(b, n);
    }
  }
}
