/** The sparse index of one log generation, the scan that rebuilds it and the page read that uses it
    (src/common/scrollback.c: idx_append, scan_log, idx_seek, fetch_from_gen). */
module LogIndex {
  import opened Bytes
  import opened Log
  import opened History
  import opened Modular

  /** offs[i] stands for record INDEX_STEP * i of the generation. */
  datatype Index = Index(offs: seq<nat>, firstNo: nat, nrec: nat, have: bool)

  const NO_INDEX := Index([], 0, 0, false)

  ghost predicate Exact(ix: Index, rs: seq<Rec>) {
    && ix.nrec == |rs|
    && (rs != [] ==> ix.firstNo == rs[0].no)
    && |ix.offs| == (|rs| + INDEX_STEP - 1) / INDEX_STEP
    && forall i :: 0 <= i < |ix.offs| ==> INDEX_STEP * i < |rs| && ix.offs[i] == Offset(rs, INDEX_STEP * i)
  }

  /** An index good enough to serve from: an entry names the start of some record no later than its own, or
      an offset where no record starts. */
  ghost predicate Usable(f: Format, ix: Index, rs: seq<Rec>) {
    && ix.nrec == |rs|
    && (rs != [] ==> ix.firstNo == rs[0].no && ix.have)
    && forall i :: 0 <= i < |ix.offs| ==> EntryOk(f, ix.offs[i], rs, INDEX_STEP * i)
  }

  ghost predicate EntryOk(f: Format, off: nat, rs: seq<Rec>, limit: nat) {
    f.read(Encode(f, rs), off).None? || exists j :: 0 <= j <= limit && j < |rs| && off == Offset(rs, j)
  }

  lemma ExactIsUsable(f: Format, ix: Index, rs: seq<Rec>)
    requires Exact(ix, rs) && (rs != [] ==> ix.have)
    ensures Usable(f, ix, rs)
  {
    forall i | 0 <= i < |ix.offs| ensures EntryOk(f, ix.offs[i], rs, INDEX_STEP * i) {
      assert ix.offs[i] == Offset(rs, INDEX_STEP * i);
    }
  }

  /** The entry for one more record, appended by the caller of push and by the scan alike. */
  function Extend(ix: Index, no: nat, off: nat): Index {
    var entry := if ix.nrec % INDEX_STEP == 0 then [off] else [];
    Index(ix.offs + entry, if ix.nrec == 0 then no else ix.firstNo, ix.nrec + 1, ix.have)
  }

  lemma EntryCount(n: nat)
    ensures (n + 1 + INDEX_STEP - 1) / INDEX_STEP ==
      (n + INDEX_STEP - 1) / INDEX_STEP + if n % INDEX_STEP == 0 then 1 else 0
    ensures n % INDEX_STEP == 0 ==> INDEX_STEP * ((n + INDEX_STEP - 1) / INDEX_STEP) == n
  {
  }

  lemma ExtendExact(ix: Index, rs: seq<Rec>, r: Rec)
    requires Exact(ix, rs)
    ensures Exact(Extend(ix, r.no, Offset(rs, |rs|)), rs + [r])
  {
    var next := Extend(ix, r.no, Offset(rs, |rs|));
    var ts := rs + [r];
    EntryCount(|rs|);
    forall i | 0 <= i < |next.offs| ensures INDEX_STEP * i < |ts| && next.offs[i] == Offset(ts, INDEX_STEP * i) {
      OffsetPrefix(rs, ts, INDEX_STEP * i);
    }
  }

  /** The rolling ring of offsets holds those of the last |offs| records before k. */
  ghost predicate Window(offs: seq<nat>, rs: seq<Rec>, k: nat)
    requires k <= |rs| && |offs| > 0
  {
    forall j :: 0 <= j < k <= j + |offs| ==> offs[j % |offs|] == Offset(rs, j)
  }

  lemma WindowStep(offs: seq<nat>, rs: seq<Rec>, k: nat)
    requires k < |rs| && |offs| > 0 && Window(offs, rs, k)
    ensures Window(offs[k % |offs| := Offset(rs, k)], rs, k + 1)
  {
    var after := offs[k % |offs| := Offset(rs, k)];
    forall j | 0 <= j < k + 1 <= j + |offs| ensures after[j % |offs|] == Offset(rs, j) {
      if j < k {
        ModDistinct(j, k, |offs|);
      }
    }
  }

  /** What reading at the offset of record k of a scan finds. */
  lemma ScanRead(f: Format, file: seq<byte>, rs: seq<Rec>, k: nat)
    requires Faithful(f) && rs == Scan(f, file, 0) && k <= |rs|
    ensures f.read(file, Offset(rs, k)) == if k < |rs| then Some(rs[k]) else None
  {
    ScanFrom(f, file, k);
    var rest := Scan(f, file, Offset(rs, k));
    assert k < |rs| ==> rest[0] == rs[k];
  }

  lemma ExactStep(ix: Index, rs: seq<Rec>, k: nat)
    requires k < |rs| && Exact(ix, rs[..k])
    ensures Exact(Extend(ix, rs[k].no, Offset(rs, k)), rs[..k + 1])
  {
    OffsetPrefix(rs, rs[..k], k);
    ExtendExact(ix, rs[..k], rs[k]);
    assert rs[..k] + [rs[k]] == rs[..k + 1];
  }

  /** Where a scan stands that has k records behind it and has read the next, if there is one. */
  ghost predicate Scanned(rs: seq<Rec>, k: nat, off: nat, r: Option<Rec>, ix: Index, next: nat)
    requires k <= |rs|
  {
    && off == Offset(rs, k) && r == (if k < |rs| then Some(rs[k]) else None) && ix.have && ix.nrec == k
    && Exact(ix, rs[..k]) && next == if k == 0 then 0 else rs[k - 1].no + 1
  }

  lemma ScannedAll(rs: seq<Rec>, off: nat, ix: Index, next: nat)
    requires Scanned(rs, |rs|, off, None, ix, next)
    ensures Exact(ix, rs) && off == Offset(rs, |rs|) && next == (if rs == [] then 0 else rs[|rs| - 1].no + 1) && ix.have
  {
    assert rs[..|rs|] == rs;
  }

  lemma ScannedStep(rs: seq<Rec>, k: nat, off: nat, ix: Index, next: nat)
    requires k < |rs| && Scanned(rs, k, off, Some(rs[k]), ix, next)
    ensures Scanned(rs, k + 1, off + Size(rs[k]), if k + 1 < |rs| then Some(rs[k + 1]) else None,
      Extend(ix, rs[k].no, off), rs[k].no + 1)
  {
    ExactStep(ix, rs, k);
  }

  /** scan_log: validate a generation record by record. Reports the next sequence number, the size of the valid
      part, where the last want records start, and the index. */
  method ScanLog(f: Format, file: Option<seq<byte>>, want: nat) returns (next: nat, valid: nat, tail: nat, ix: Index)
    requires Faithful(f) && want > 0
    ensures ix.have == file.Some?
    ensures var rs := if file.Some? then Scan(f, file.value, 0) else [];
      && next == (if rs == [] then 0 else rs[|rs| - 1].no + 1)
      && valid == Offset(rs, |rs|)
      && tail == (if |rs| > want then Offset(rs, |rs| - want) else 0)
      && Exact(ix, rs)
  {
    next, valid, tail, ix := 0, 0, 0, NO_INDEX;
    if file.Some? {
      next, valid, tail, ix := ScanFile(f, file.value, want, Scan(f, file.value, 0));
      ScannedAll(Scan(f, file.value, 0), valid, ix, next);
    }
  }

  method ScanFile(f: Format, file: seq<byte>, want: nat, ghost rs: seq<Rec>)
      returns (next: nat, valid: nat, tail: nat, ix: Index)
    requires Faithful(f) && want > 0 && rs == Scan(f, file, 0)
    ensures Scanned(rs, |rs|, valid, None, ix, next) && tail == if |rs| > want then Offset(rs, |rs| - want) else 0
  {
    var offs := new nat[want];
    ghost var k := 0;
    ScanRead(f, file, rs, 0);
    next, valid, tail, ix := 0, 0, 0, NO_INDEX.(have := true);
    var r: Option<Rec> := f.read(file, valid);
    while r.Some?
      invariant k <= |rs| && Scanned(rs, k, valid, r, ix, next) && Window(offs[..], rs, k)
      decreases |rs| - k
    {
      ScannedStep(rs, k, valid, ix, next);
      NoteOffset(offs, ix.nrec, valid, rs);
      next, valid, ix, r := ScanNext(f, file, r.value, valid, ix, rs, k);
      k := k + 1;
    }
    if ix.nrec > want {
      tail := TailOffset(offs, ix.nrec, rs);
    }
  }

  /** On to the next record. */
  method ScanNext(f: Format, file: seq<byte>, r: Rec, off: nat, ix: Index, ghost rs: seq<Rec>, ghost k: nat)
    returns (next: nat, valid: nat, jx: Index, s: Option<Rec>)
    requires Faithful(f) && rs == Scan(f, file, 0) && k < |rs| && r == rs[k] && off == Offset(rs, k)
    ensures next == r.no + 1 && valid == off + Size(r) && jx == Extend(ix, r.no, off)
    ensures s == if k + 1 < |rs| then Some(rs[k + 1]) else None
  {
    ScanRead(f, file, rs, k);
    ScanRead(f, file, rs, k + 1);
    next, valid, jx := r.no + 1, off + Size(r), Extend(ix, r.no, off);
    s := f.read(file, valid);
  }

  /** The offset of record k into the rolling ring. */
  method NoteOffset(offs: array<nat>, k: nat, off: nat, ghost rs: seq<Rec>)
    requires k < |rs| && offs.Length > 0 && Window(offs[..], rs, k) && off == Offset(rs, k)
    modifies offs
    ensures Window(offs[..], rs, k + 1)
  {
    WindowStep(offs[..], rs, k);
    ghost var was := offs[..];
    offs[k % offs.Length] := off;
    assert offs[..] == was[k % offs.Length := off];
  }

  /** The offset of the first of the last records the ring has room for. */
  method TailOffset(offs: array<nat>, k: nat, ghost rs: seq<Rec>) returns (tail: nat)
    requires k <= |rs| && 0 < offs.Length < k && Window(offs[..], rs, k)
    ensures tail == Offset(rs, k - offs.Length)
  {
    ModSub(k - offs.Length, offs.Length);
    tail := offs[k % offs.Length];
    assert offs[..][(k - offs.Length) % offs.Length] == Offset(rs, k - offs.Length);
  }

  /** idx_seek: the offset of the last entry whose derived number is at most want, or of the first. */
  method Seek(ix: Index, want: nat) returns (off: nat, pick: nat)
    ensures ix.offs == [] ==> off == 0 && pick == 0
    ensures ix.offs != [] ==>
      && pick < |ix.offs| && off == ix.offs[pick]
      && (pick > 0 ==> ix.firstNo + INDEX_STEP * pick <= want)
      && (pick + 1 < |ix.offs| ==> want < ix.firstNo + INDEX_STEP * (pick + 1))
  {
    off, pick := 0, 0;
    if ix.offs == [] {
      return;
    }
    var n := |ix.offs|;
    var lo, hi, p := 0, n - 1, 0;
    while lo <= hi
      invariant 0 <= lo <= n && -1 <= hi < n && lo <= hi + 1
      invariant 0 <= p < n && (lo == 0 ==> p == 0) && (lo > 0 ==> p == lo - 1)
      invariant p > 0 ==> ix.firstNo + INDEX_STEP * p <= want
      invariant hi + 1 < n ==> want < ix.firstNo + INDEX_STEP * (hi + 1)
      decreases hi - lo + 1
    {
      var mid := lo + (hi - lo) / 2;
      if ix.firstNo + INDEX_STEP * mid <= want {
        p := mid;
        if mid == n - 1 { break; }
        lo := mid + 1;
      } else {
        if mid == 0 { break; }
        hi := mid - 1;
      }
    }
    off, pick := ix.offs[p], p;
  }

  /** Sweep forward from off to the first record numbered start or later. From the start of record j that is
      the first line due from j on; from an offset where no record starts, nothing. */
  method Sweep(f: Format, file: seq<byte>, off0: nat, start: nat, ghost rs: seq<Rec>, ghost j: nat)
    returns (off: nat, r: Option<Rec>, swept: nat)
    requires Faithful(f) && file == Encode(f, rs)
    ensures f.read(file, off0).None? ==> off == off0 && r == None && swept == 0
    ensures j <= |rs| && off0 == Offset(rs, j) ==>
      var k := Due(rs, start, j);
      off == Offset(rs, k) && r == (if k < |rs| then Some(rs[k]) else None) && swept == k - j
  {
    off, swept := off0, 0;
    r := f.read(file, off);
    ghost var known := j <= |rs| && off0 == Offset(rs, j);
    ghost var k := j;
    if known { ReadRecord(f, rs, j); }
    while r.Some? && r.value.no < start
      invariant r == f.read(file, off)
      invariant f.read(file, off0).None? ==> off == off0 && swept == 0
      invariant known ==> && j <= k <= |rs| && off == Offset(rs, k) && swept == k - j
                          && r == (if k < |rs| then Some(rs[k]) else None)
                          && Due(rs, start, k) == Due(rs, start, j)
      decreases |file| - off
    {
      assert ReadFits(f, file, off);
      swept := swept + 1;
      off := off + Size(r.value);
      if known {
        k := k + 1;
        ReadRecord(f, rs, k);
      }
      r := f.read(file, off);
    }
  }

  lemma ReadRecord(f: Format, rs: seq<Rec>, k: nat)
    requires Faithful(f) && k <= |rs|
    ensures f.read(Encode(f, rs), Offset(rs, k)) == if k < |rs| then Some(rs[k]) else None
  {
    if k < |rs| {
      ReadAt(f, rs, k, []);
      assert Encode(f, rs) + [] == Encode(f, rs);
    } else {
      EncodeLength(f, rs);
      ReadEnd(f, Encode(f, rs));
    }
  }

  /** Sweeping from a record numbered at most start, or from the beginning, finds the first line due. */
  lemma DueFromEarlier(rs: seq<Rec>, start: nat, j: nat)
    requires Contiguous(rs) && j <= |rs|
    requires j > 0 ==> rs[j - 1].no < start
    ensures Due(rs, start, j) == Due(rs, start, 0)
  {
    DueMeaning(rs, start, j);
    DueUnique(rs, start, Due(rs, start, j));
  }

  /** The record the sought offset starts, when it starts one: none of those before it is due. */
  lemma SoughtRecord(f: Format, ix: Index, rs: seq<Rec>, off: nat, pick: nat, start: nat) returns (j: nat)
    requires Faithful(f) && Contiguous(rs) && rs != [] && Usable(f, ix, rs)
    requires if ix.offs == [] then off == 0 else pick < |ix.offs| && off == ix.offs[pick]
    requires pick > 0 ==> ix.firstNo + INDEX_STEP * pick <= start
    ensures f.read(Encode(f, rs), off).Some? ==>
      j < |rs| && off == Offset(rs, j) && Due(rs, start, j) == Due(rs, start, 0)
  {
    j := 0;
    if ix.offs != [] && f.read(Encode(f, rs), off).Some? {
      assert EntryOk(f, off, rs, INDEX_STEP * pick);
      j :| 0 <= j <= INDEX_STEP * pick && j < |rs| && off == Offset(rs, j);
      assert j > 0 ==> rs[j - 1].no == rs[0].no + (j - 1);
      DueFromEarlier(rs, start, j);
    }
  }

  /** With an exact index, at most INDEX_STEP - 1 records lie between the sought offset and the first line due. */
  lemma ShortSweep(f: Format, ix: Index, rs: seq<Rec>, pick: nat, start: nat, j: nat)
    requires Contiguous(rs) && Exact(ix, rs) && rs != [] && rs[0].no <= start < rs[0].no + |rs|
    requires pick < |ix.offs| && j < |rs| && ix.offs[pick] == Offset(rs, j)
    requires pick + 1 < |ix.offs| ==> start < ix.firstNo + INDEX_STEP * (pick + 1)
    ensures Due(rs, start, 0) - j < INDEX_STEP
  {
    var d := Due(rs, start, 0);
    DueUnique(rs, start, start - rs[0].no);
    var e := INDEX_STEP * pick;
    assert ix.offs[pick] == Offset(rs, e);
    if j < e { OffsetMonotone(rs, j, e); } else { OffsetMonotone(rs, e, j); }
  }

  /** With an exact index: fewer than INDEX_STEP records are swept for a start it holds, and none for one before it. */
  ghost predicate FewSwept(ix: Index, rs: seq<Rec>, start: nat, swept: nat) {
    Exact(ix, rs) ==>
      && (rs == [] || start <= rs[0].no ==> swept == 0)
      && (rs != [] && start < rs[0].no + |rs| ==> swept < INDEX_STEP)
  }

  lemma SweptFew(f: Format, ix: Index, rs: seq<Rec>, pick: nat, start: nat, j: nat)
    requires Contiguous(rs) && Exact(ix, rs) && rs != [] && start < rs[0].no + |rs|
    requires pick < |ix.offs| && j < |rs| && ix.offs[pick] == Offset(rs, j)
    requires pick + 1 < |ix.offs| ==> start < ix.firstNo + INDEX_STEP * (pick + 1)
    ensures Due(rs, start, 0) - j < INDEX_STEP && (start <= rs[0].no ==> Due(rs, start, 0) == 0)
  {
    if rs[0].no <= start {
      ShortSweep(f, ix, rs, pick, start, j);
    }
    if start <= rs[0].no {
      DueUnique(rs, start, 0);
    }
  }

  /** fetch_from_gen: seek, sweep to the first line due, emit forward. An index entry that names no record
      costs a sweep from the beginning and changes nothing in what is served. */
  method FetchGen(f: Format, file: Option<seq<byte>>, ix: Index, start: nat, n: nat, out0: seq<Rec>, room0: nat,
      ghost rs: seq<Rec>)
    returns (out: seq<Rec>, room: nat, swept: nat)
    requires Faithful(f) && Contiguous(rs) && Usable(f, ix, rs)
    requires file == Some(Encode(f, rs)) || (file == None && rs == [])
    requires |out0| <= n
    ensures out == out0 + Page(rs, start, n - |out0|, room0)
    ensures room == room0 - TextBytes(Page(rs, start, n - |out0|, room0))
    ensures FewSwept(ix, rs, start, swept)
  {
    out, room, swept := out0, room0, 0;
    ghost var i := Due(rs, start, 0);
    UsedSlice(rs, i, i, Stop(rs, i, n - |out0|, room0));
    if !ix.have || ix.nrec == 0 || file.None? {
      assert rs == [];
      return;
    }
    var off, pick := Seek(ix, start);
    ghost var j := SoughtRecord(f, ix, rs, off, pick, start);
    ReadRecord(f, rs, 0);
    if Exact(ix, rs) { ReadRecord(f, rs, INDEX_STEP * pick); }
    var from := off;
    var r: Option<Rec>;
    off, r, swept := Sweep(f, file.value, from, start, rs, j);
    if f.read(file.value, from).Some? {
      OffsetMonotone(rs, j, Due(rs, start, 0));
      if Exact(ix, rs) && start < rs[0].no + |rs| { SweptFew(f, ix, rs, pick, start, j); }
    }
    if r.None? && off == from && off != 0 {
      off, r, swept := Sweep(f, file.value, 0, start, rs, 0);
    }
    assert off == Offset(rs, i) && r == if i < |rs| then Some(rs[i]) else None;
    room, out := Emit(f, file.value, off, r, n, out0, room0, rs, i);
  }

  /** Records i up to k are served. */
  ghost predicate Served(rs: seq<Rec>, i: nat, k: nat, n: nat, out0: seq<Rec>, room0: nat, out: seq<Rec>, room: int) {
    && i <= k <= |rs| && out == out0 + rs[i..k] && |out| <= n && 0 <= room && room + Used(rs, i, k) == room0
    && |out0| <= n && Stop(rs, k, n - |out|, room) == Stop(rs, i, n - |out0|, room0)
  }

  lemma ServedNext(rs: seq<Rec>, i: nat, k: nat, n: nat, out0: seq<Rec>, room0: nat, out: seq<Rec>, room: int)
    requires Served(rs, i, k, n, out0, room0, out, room) && k < |rs| && |out| < n && |rs[k].text| <= room
    ensures Served(rs, i, k + 1, n, out0, room0, out + [rs[k]], room - |rs[k].text|)
  {
    UsedPart(rs, i, k, k + 1);
    assert Used(rs, k + 1, k + 1) == 0;
    assert out0 + rs[i..k] + [rs[k]] == out0 + rs[i..k + 1];
  }

  lemma ServedAll(rs: seq<Rec>, i: nat, k: nat, n: nat, out0: seq<Rec>, room0: nat, out: seq<Rec>, room: int)
    requires Served(rs, i, k, n, out0, room0, out, room) && (k == |rs| || |out| == n || |rs[k].text| > room)
    ensures i <= |rs| && |out0| <= n
    ensures var j := Stop(rs, i, n - |out0|, room0); out == out0 + rs[i..j] && room == room0 - Used(rs, i, j)
  {
  }

  method Emit(f: Format, file: seq<byte>, off0: nat, r0: Option<Rec>, n: nat, out0: seq<Rec>, room0: nat,
      ghost rs: seq<Rec>, ghost i: nat)
    returns (room: nat, out: seq<Rec>)
    requires Faithful(f) && file == Encode(f, rs) && |out0| <= n && i <= |rs|
    requires off0 == Offset(rs, i) && r0 == if i < |rs| then Some(rs[i]) else None
    ensures var k := Stop(rs, i, n - |out0|, room0);
      out == out0 + rs[i..k] && room == room0 - Used(rs, i, k)
  {
    var off, r := off0, r0;
    out, room := out0, room0;
    ghost var k: nat := i;
    assert out0 + rs[i..i] == out0;
    while r.Some? && |out| < n && |r.value.text| <= room
      invariant Served(rs, i, k, n, out0, room0, out, room)
      invariant off == Offset(rs, k) && r == if k < |rs| then Some(rs[k]) else None
      decreases n - |out|
    {
      ServedNext(rs, i, k, n, out0, room0, out, room);
      ReadRecord(f, rs, k + 1);
      out := out + [r.value];
      room := room - |r.value.text|;
      off := off + Size(r.value);
      k := k + 1;
      r := f.read(file, off);
    }
    ServedAll(rs, i, k, n, out0, room0, out, room);
  }
}
