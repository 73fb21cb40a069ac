/** The disk half of the scrollback store (src/common/scrollback.c: wbuf_drain, maybe_rotate, the disk part of
    sb_push_line and sb_fetch_deep): write buffer, current log, older log, and their sparse indexes.
    Writes succeed; only a crash cuts them. */
module Generations {
  import opened Bytes
  import opened Log
  import opened History
  import opened LogIndex

  const WBUF_MAX: nat := 65536

  lemma EncodeStaged(f: Format, file: seq<byte>, wbuf: seq<byte>, rs: seq<Rec>, r: Rec)
    requires file + wbuf == Encode(f, rs)
    ensures file + (wbuf + f.enc(r)) == Encode(f, rs + [r])
  {
    EncodeSnoc(f, rs, r);
    assert file + (wbuf + f.enc(r)) == file + wbuf + f.enc(r);
  }

  class LogFiles {
    const fmt: Format
    const fileMax: nat
    var prevFile: Option<seq<byte>>
    var curFile: seq<byte>
    var fileSize: nat
    var wbuf: seq<byte>
    var idxPrev: Index
    var idxCur: Index
    var recsSwept: nat
    /** The lines of the older log, and those of the current log followed by the write buffer. */
    ghost var prev: seq<Rec>
    ghost var cur: seq<Rec>

    ghost predicate Valid()
      reads this
    {
      && Faithful(fmt)
      && prevFile == (if idxPrev.have then Some(Encode(fmt, prev)) else None) && (!idxPrev.have ==> prev == [])
      && curFile + wbuf == Encode(fmt, cur) && fileSize == |curFile| && |wbuf| <= WBUF_MAX
      && idxCur.have && Exact(idxPrev, prev) && Exact(idxCur, cur)
    }

    constructor (fmt: Format, fileMax: nat, prevFile: Option<seq<byte>>, curFile: seq<byte>, idxPrev: Index,
        idxCur: Index, ghost prev: seq<Rec>, ghost cur: seq<Rec>)
      requires Faithful(fmt) && idxCur.have && Exact(idxPrev, prev) && Exact(idxCur, cur)
      requires prevFile == (if idxPrev.have then Some(Encode(fmt, prev)) else None) && (!idxPrev.have ==> prev == [])
      requires curFile == Encode(fmt, cur)
      ensures Valid() && this.fmt == fmt && this.fileMax == fileMax && this.prev == prev && this.cur == cur
    {
      this.fmt, this.fileMax, this.prevFile, this.curFile := fmt, fileMax, prevFile, curFile;
      this.fileSize, this.wbuf, this.recsSwept := |curFile|, [], 0;
      this.idxPrev, this.idxCur, this.prev, this.cur := idxPrev, idxCur, prev, cur;
    }

    /** wbuf_drain */
    method Drain()
      requires Valid()
      modifies `curFile, `fileSize, `wbuf
      ensures Valid() && wbuf == [] && curFile == old(curFile + wbuf)
    {
      curFile := curFile + wbuf;
      fileSize := fileSize + |wbuf|;
      wbuf := [];
      assert curFile + wbuf == curFile;
    }

    /** Index the record at the offset it will take, then stage its bytes. */
    method Stage(r: Rec)
      requires Valid()
      modifies `curFile, `fileSize, `wbuf, `idxCur, `cur
      ensures Valid() && cur == old(cur) + [r]
    {
      EncodeLength(fmt, cur);
      ExtendExact(idxCur, cur, r);
      idxCur := Extend(idxCur, r.no, fileSize + |wbuf|);
      if |wbuf| + 16 + |r.text| > WBUF_MAX {
        curFile := curFile + wbuf;
        fileSize := fileSize + |wbuf|;
        wbuf := [];
      }
      assert curFile + wbuf == old(curFile + wbuf);
      EncodeStaged(fmt, curFile, wbuf, cur, r);
      wbuf := wbuf + fmt.enc(r);
      cur := cur + [r];
    }

    /** maybe_rotate: past the cap the current generation becomes the older one, index and all. */
    method MaybeRotate()
      requires Valid()
      modifies `prevFile, `curFile, `fileSize, `wbuf, `idxPrev, `idxCur, `prev, `cur
      ensures Valid()
      ensures if Offset(old(cur), |old(cur)|) < fileMax then prev == old(prev) && cur == old(cur)
              else prev == old(cur) && cur == []
    {
      EncodeLength(fmt, cur);
      if fileSize + |wbuf| < fileMax {
        return;
      }
      Drain();
      prevFile, curFile, fileSize := Some(curFile), [], 0;
      idxPrev, idxCur := idxCur, NO_INDEX.(have := true);
      prev, cur := cur, [];
      assert curFile + wbuf == [];
    }

    /** The disk part of sb_push_line. */
    method Append(r: Rec)
      requires Valid()
      modifies `prevFile, `curFile, `fileSize, `wbuf, `idxPrev, `idxCur, `prev, `cur
      ensures Valid()
      ensures if Offset(old(cur), |old(cur)|) + Size(r) < fileMax then prev == old(prev) && cur == old(cur) + [r]
              else prev == old(cur) + [r] && cur == []
    {
      OffsetPrefix(cur, cur + [r], |cur|);
      Stage(r);
      MaybeRotate();
    }

    /** The disk part of sb_fetch_deep: flush, then a page of the older generation, then of the current one. */
    method Fetch(start: nat, n: nat, room: nat) returns (out: seq<Rec>)
      requires Valid() && Contiguous(prev) && Contiguous(cur)
      modifies `curFile, `fileSize, `wbuf, `recsSwept
      ensures Valid()
      ensures out == TwoGenerations(prev, cur, start, n, room)
      ensures old(recsSwept) <= recsSwept
      ensures Reaches(prev, cur, start) ==> recsSwept < old(recsSwept) + INDEX_STEP
    {
      Drain();
      assert curFile + wbuf == curFile;
      ExactIsUsable(fmt, idxPrev, prev);
      ExactIsUsable(fmt, idxCur, cur);
      var swept;
      out, swept := FetchBoth(fmt, prevFile, curFile, idxPrev, idxCur, start, n, room, prev, cur);
      recsSwept := recsSwept + swept;
    }
  }

  /** Older generation first, so that lines arrive ascending; then the current one from behind the last line served. */
  method FetchBoth(f: Format, prevFile: Option<seq<byte>>, curFile: seq<byte>, idxPrev: Index, idxCur: Index,
                   start: nat, n: nat, room: nat, ghost prev: seq<Rec>, ghost cur: seq<Rec>)
    returns (out: seq<Rec>, swept: nat)
    requires Faithful(f) && Contiguous(prev) && Contiguous(cur)
    requires prevFile == (if idxPrev.have then Some(Encode(f, prev)) else None) && (!idxPrev.have ==> prev == [])
    requires curFile == Encode(f, cur) && idxCur.have && Usable(f, idxPrev, prev) && Usable(f, idxCur, cur)
    ensures out == TwoGenerations(prev, cur, start, n, room)
    ensures Exact(idxPrev, prev) && Exact(idxCur, cur) && Reaches(prev, cur, start) ==> swept < INDEX_STEP
  {
    var older, left, first := FetchOlder(f, prevFile, idxPrev, start, n, room, prev);
    var more;
    out, more := FetchNewer(f, curFile, idxCur, start, n, older, left, cur);
    swept := first + more;
    TwoPages(prev, cur, start, n, room, older, out);
    OneSweep(idxPrev, idxCur, prev, cur, start, n, room, first, more);
  }

  method FetchNewer(f: Format, file: seq<byte>, ix: Index, start: nat, n: nat, older: seq<Rec>, left: nat,
      ghost cur: seq<Rec>)
    returns (out: seq<Rec>, more: nat)
    requires Faithful(f) && Contiguous(cur) && file == Encode(f, cur) && Usable(f, ix, cur) && |older| <= n
    ensures |older| == n ==> out == older && more == 0
    ensures |older| < n ==> out == older + Page(cur, After(older, start), n - |older|, left)
    ensures |older| < n ==> FewSwept(ix, cur, After(older, start), more)
  {
    out, more := older, 0;
    if |older| < n {
      var next := if older == [] then start else older[|older| - 1].no + 1;
      var room;
      out, room, more := FetchGen(f, Some(file), ix, next, n, older, left, cur);
    }
  }

  /** There is a line to be had from start on, or none at all. */
  ghost predicate Reaches(prev: seq<Rec>, cur: seq<Rec>, start: nat) {
    prev + cur == [] ||
    (Contiguous(prev + cur) && start < (prev + cur)[|prev + cur| - 1].no + 1)
  }

  /** Behind the older generation nothing is swept in the current one. */
  lemma OneSweep(idxPrev: Index, idxCur: Index, prev: seq<Rec>, cur: seq<Rec>, start: nat, n: nat, room: nat,
      first: nat, more: nat)
    requires Exact(idxPrev, prev) ==> SweptOlder(idxPrev, prev, start, first)
    requires more == 0 || FewSwept(idxCur, cur, After(Page(prev, start, n, room), start), more)
    ensures Exact(idxPrev, prev) && Exact(idxCur, cur) && Reaches(prev, cur, start) ==> first + more < INDEX_STEP
  {
    if Exact(idxPrev, prev) && Exact(idxCur, cur) && Reaches(prev, cur, start) && cur != [] && more > 0 {
      if prev != [] && start < prev[0].no + |prev| {
        AfterOlder(prev, cur, start, n, room);
      } else {
        AfterNone(prev, cur, start, n, room);
      }
    }
  }

  /** What is swept in the older generation, if it is asked at all. */
  ghost predicate SweptOlder(ix: Index, rs: seq<Rec>, start: nat, swept: nat) {
    if rs != [] && start < rs[0].no + |rs| then FewSwept(ix, rs, start, swept) else swept == 0
  }

  /** Nothing of the older generation: the current one is asked for the start itself, which it holds. */
  lemma AfterNone(prev: seq<Rec>, cur: seq<Rec>, start: nat, n: nat, room: nat)
    requires Reaches(prev, cur, start) && cur != [] && (prev == [] || start >= prev[0].no + |prev|)
    ensures After(Page(prev, start, n, room), start) == start < cur[0].no + |cur|
  {
    ContiguousPart(prev, cur);
    assert (prev + cur)[|prev + cur| - 1] == cur[|cur| - 1];
    DueUnique(prev, start, |prev|);
    NoneDue(prev, start, n, room);
  }

  /** A page of the older generation ends before the current one. */
  lemma AfterOlder(prev: seq<Rec>, cur: seq<Rec>, start: nat, n: nat, room: nat)
    requires Contiguous(prev + cur) && prev != [] && cur != [] && start < prev[0].no + |prev|
    ensures After(Page(prev, start, n, room), start) <= cur[0].no
  {
    var older := Page(prev, start, n, room);
    assert (prev + cur)[|prev|] == cur[0] && (prev + cur)[0] == prev[0];
    if older != [] {
      assert older[|older| - 1] in prev;
      var i :| 0 <= i < |prev| && prev[i] == older[|older| - 1];
      assert (prev + cur)[i] == prev[i];
    }
  }

  lemma TwoPages(prev: seq<Rec>, cur: seq<Rec>, start: nat, n: nat, room: nat, older: seq<Rec>, out: seq<Rec>)
    requires older == Page(prev, start, n, room)
    requires |older| == n ==> out == older
    requires |older| < n ==> out == older + Page(cur, After(older, start), n - |older|, room - TextBytes(older))
    ensures out == TwoGenerations(prev, cur, start, n, room)
  {
    AppendsNothing(older, Page(cur, After(older, start), n - |older|, room - TextBytes(older)));
  }

  method FetchOlder(f: Format, file: Option<seq<byte>>, ix: Index, start: nat, n: nat, room: nat, ghost rs: seq<Rec>)
    returns (out: seq<Rec>, left: nat, swept: nat)
    requires Faithful(f) && Contiguous(rs) && Usable(f, ix, rs)
    requires file == Some(Encode(f, rs)) || (file == None && rs == [])
    ensures out == Page(rs, start, n, room) && left == room - TextBytes(out)
    ensures Exact(ix, rs) ==> SweptOlder(ix, rs, start, swept)
  {
    out, left, swept := [], room, 0;
    if ix.nrec > 0 && start < ix.firstNo + ix.nrec {
      out, left, swept := FetchGen(f, file, ix, start, n, [], room, rs);
    } else {
      DueUnique(rs, start, |rs|);
    }
  }
}
