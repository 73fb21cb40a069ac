/** The in-memory ring of recent lines of src/common/scrollback.c (ring_put, sb_fetch). */
module LineRing {
  import opened Log
  import opened History
  import opened Modular

  /** The slot i places behind head. */
  ghost function Slot(head: nat, i: nat, n: nat): (k: nat)
    requires head < n && i < n
    ensures k < n
  {
    if head + i < n then head + i else head + i - n
  }

  /** The lines of a ring, oldest first. */
  ghost function View(slots: seq<Rec>, head: nat, count: nat): (s: seq<Rec>)
    requires head < |slots| && count <= |slots|
    ensures |s| == count
  {
    seq(count, i requires 0 <= i < count => slots[Slot(head, i, |slots|)])
  }

  lemma PutFree(slots: seq<Rec>, head: nat, count: nat, r: Rec)
    requires head < |slots| && count < |slots|
    ensures View(slots[Slot(head, count, |slots|) := r], head, count + 1) == View(slots, head, count) + [r]
  {
  }

  lemma PutFull(slots: seq<Rec>, head: nat, r: Rec)
    requires head < |slots|
    ensures var next := if head + 1 == |slots| then 0 else head + 1;
      View(slots[head := r], next, |slots|) == View(slots, head, |slots|)[1..] + [r]
  {
  }

  class Ring {
    const slots: array<Rec>
    var head: nat
    var count: nat

    /** The lines held, oldest first. */
    ghost var held: seq<Rec>

    ghost predicate Valid()
      reads this, slots
    {
      slots.Length > 0 && head < slots.Length && count <= slots.Length && held == View(slots[..], head, count)
    }

    constructor (memLines: nat)
      requires memLines > 0
      ensures Valid() && fresh(slots) && slots.Length == memLines && held == []
    {
      slots := new Rec[memLines](_ => Rec(0, []));
      head, count, held := 0, 0, [];
    }

    method Put(r: Rec)
      requires Valid()
      modifies this, slots
      ensures Valid() && held == Last(old(held) + [r], slots.Length)
    {
      if count == slots.Length {
        Overwrite(r);
      } else {
        PutFree(slots[..], head, count, r);
        var slot := Index(count);
        Store(slot, r);
        count := count + 1;
      }
      held := Last(held + [r], slots.Length);
    }

    /** The slot i behind the first. */
    method Index(i: nat) returns (k: nat)
      requires head < slots.Length && (i < slots.Length || i == 1)
      ensures k == if head + i < slots.Length then head + i else head + i - slots.Length
    {
      ModSmall(head + i, slots.Length);
      k := (head + i) % slots.Length;
    }

    method Store(slot: nat, r: Rec)
      requires slot < slots.Length
      modifies slots
      ensures slots[..] == old(slots[..])[slot := r]
    {
      slots[slot] := r;
    }

    /** In a full ring the first line makes room for the new one. */
    method Overwrite(r: Rec)
      requires head < slots.Length
      modifies `head, slots
      ensures head < slots.Length
      ensures View(slots[..], head, slots.Length) == View(old(slots[..]), old(head), slots.Length)[1..] + [r]
    {
      PutFull(slots[..], head, r);
      var next := Index(1);
      Store(head, r);
      head := next;
    }

    method At(i: nat) returns (r: Rec)
      requires Valid() && i < count
      ensures i < |held| && r == held[i]
    {
      var k := Index(i);
      r := slots[k];
    }

    /** sb_fetch: the lines held that are numbered start or later, at most n of them. */
    method Fetch(start: nat, n: nat) returns (out: seq<Rec>)
      requires Valid()
      ensures Contiguous(held) ==> out == PlainPage(held, start, n)
    {
      out := [];
      ghost var d := Due(held, start, 0);
      DueMeaning(held, start, 0);
      var i := 0;
      while i < count && |out| < n
        invariant 0 <= i <= count && |out| <= n
        invariant Contiguous(held) ==> out == if i <= d then [] else held[d..i]
      {
        var r := At(i);
        if r.no >= start {
          out := out + [r];
        }
        i := i + 1;
      }
    }
  }
}
