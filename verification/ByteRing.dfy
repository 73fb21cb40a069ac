/** The byte ring of src/common/ring.c: a power-of-two buffer, masked indices, growth by copying. It behaves as a queue
    exactly when its first allocation is a power of two. */
module ByteRing {
  import opened Bytes

  predicate Pow2(n: nat) {
    n == 1 || (n > 0 && n % 2 == 0 && Pow2(n / 2))
  }

  /** Bitwise and. */
  function And(a: nat, b: nat): nat {
    if a == 0 || b == 0 then 0 else 2 * And(a / 2, b / 2) + if a % 2 == 1 && b % 2 == 1 then 1 else 0
  }

  /** Masking with a power of two less one wraps an index around once. */
  lemma {:induction false} MaskWraps(x: nat, cap: nat)
    requires Pow2(cap) && x < 2 * cap
    ensures And(x, cap - 1) == Wrap(x, cap)
  {
    if cap > 1 {
      MaskWraps(x / 2, cap / 2);
      assert (cap - 1) / 2 == cap / 2 - 1;
      if x > 0 {
        assert And(x, cap - 1) == 2 * And(x / 2, cap / 2 - 1) + x % 2;
      }
    }
  }

  /** Any other size has an index within it that masking sends to the start. */
  lemma {:induction false} MaskSlips(cap: nat) returns (x: nat)
    requires cap > 0 && !Pow2(cap)
    ensures 0 < x < cap && And(x, cap - 1) == 0
  {
    if cap % 2 == 1 {
      x := 1;
      assert And(0, (cap - 1) / 2) == 0;
    } else {
      x := MaskSlips(cap / 2);
      assert (cap - 1) / 2 == cap / 2 - 1;
      x := 2 * x;
      assert And(x, cap - 1) == 2 * And(x / 2, cap / 2 - 1);
    }
  }

  /** next_pow2 */
  function NextPow2From(c: nat, n: nat): (p: nat)
    requires c > 0
    decreases n - c
    ensures p >= n && p >= c && (Pow2(c) ==> Pow2(p))
  {
    if c >= n then c else NextPow2From(2 * c, n)
  }

  function NextPow2(n: nat): (p: nat)
    ensures p >= n && p >= 16 && Pow2(p)
  {
    assert Pow2(1) && Pow2(2) && Pow2(4) && Pow2(8) && Pow2(16);
    NextPow2From(16, n)
  }

  /** No power of two from c on up to n is skipped. */
  lemma {:induction false} NextPow2Least(c: nat, n: nat, m: nat)
    requires Pow2(c) && Pow2(m) && n <= m && c <= m
    ensures NextPow2From(c, n) <= m
    decreases n - c
  {
    if c < n {
      Pow2Gap(c, m);
      NextPow2Least(2 * c, n, m);
    }
  }

  lemma {:induction false} Pow2Gap(c: nat, m: nat)
    requires Pow2(c) && Pow2(m) && c < m
    ensures 2 * c <= m
  {
    if c > 1 {
      Pow2Gap(c / 2, m / 2);
    }
  }

  // ---- contents ----

  /** An index past the end, taken around once. */
  function Wrap(i: nat, cap: nat): nat {
    if i < cap then i else i - cap
  }

  /** The len bytes from head on, around the end of the buffer. */
  function Window(buf: seq<byte>, head: nat, len: nat): (w: seq<byte>)
    requires head <= |buf| && len <= |buf|
    ensures |w| == len && forall i :: 0 <= i < len ==> w[i] == buf[Wrap(head + i, |buf|)]
  {
    seq(len, i requires 0 <= i < len => buf[Wrap(head + i, |buf|)])
  }

  /** A buffer with data laid over it from at on, and wrapped to the start. */
  function Laid(buf: seq<byte>, at: nat, data: seq<byte>): (b: seq<byte>)
    requires at <= |buf| && |data| <= |buf|
    ensures |b| == |buf|
  {
    seq(|buf|, i requires 0 <= i < |buf| =>
      if at <= i < at + |data| then data[i - at]
      else if i + |buf| < at + |data| then data[i + |buf| - at]
      else buf[i])
  }

  lemma LaidBehind(buf: seq<byte>, head: nat, len: nat, data: seq<byte>)
    requires head < |buf| && len + |data| <= |buf|
    ensures Window(Laid(buf, Wrap(head + len, |buf|), data), head, len + |data|) == Window(buf, head, len) + data
  {
    var w, v := Window(Laid(buf, Wrap(head + len, |buf|), data), head, len + |data|), Window(buf, head, len) + data;
    forall i | 0 <= i < |w|
      ensures w[i] == v[i]
    {
    }
  }

  /** Over is under with data over it from at on. */
  ghost predicate Covers(under: seq<byte>, over: seq<byte>, at: nat, data: seq<byte>) {
    |over| == |under| && forall i :: 0 <= i < |over| ==>
      over[i] == if at <= i < at + |data| then data[i - at] else under[i]
  }

  lemma LaidTwice(a: seq<byte>, b: seq<byte>, c: seq<byte>, at: nat, data: seq<byte>, first: nat)
    requires at <= |a| && |data| <= |a| && first == if |a| - at > |data| then |data| else |a| - at
    requires Covers(a, b, at, data[..first]) && Covers(b, c, 0, data[first..])
    ensures c == Laid(a, at, data)
  {
  }

  lemma Straightened(buf: seq<byte>, head: nat, len: nat, first: nat, a: seq<byte>, b: seq<byte>, c: seq<byte>)
    requires head < |buf| && len <= |buf| <= |a| && first == if |buf| - head > len then len else |buf| - head
    requires Covers(a, b, 0, buf[head..head + first]) && Covers(b, c, first, buf[..len - first])
    ensures Window(c, 0, len) == Window(buf, head, len)
  {
  }

  lemma Dropped(buf: seq<byte>, head: nat, len: nat, n: nat)
    requires head < |buf| && len <= |buf| && n <= len
    ensures Window(buf, Wrap(head + n, |buf|), len - n) == Window(buf, head, len)[n..]
  {
  }

  /** The buffer after ring_write of data that fits, by the masked index. */
  function Stored(buf: seq<byte>, head: nat, len: nat, data: seq<byte>): (b: seq<byte>)
    requires |buf| > 0 && And(head + len, |buf| - 1) <= |buf| && |data| <= |buf|
  {
    Laid(buf, And(head + len, |buf| - 1), data)
  }

  lemma {:induction false} AndBounded(a: nat, b: nat)
    ensures And(a, b) <= b
  {
    if a > 0 && b > 0 {
      AndBounded(a / 2, b / 2);
    }
  }

  /** A write of one byte behind n others appends it. */
  ghost predicate Appends(buf: seq<byte>, n: nat, b: byte)
    requires n < |buf|
  {
    AndBounded(n, |buf| - 1);
    Window(Stored(buf, 0, n, [b]), 0, n + 1) == Window(buf, 0, n) + [b]
  }

  ghost predicate Queues(cap: nat) {
    forall buf: seq<byte>, n: nat, b: byte | |buf| == cap && n < |buf| :: Appends(buf, n, b)
  }

  /** Writes append, for every buffer of this size, if and only if the size is a power of two. */
  lemma QueuesIffPow2(cap: nat)
    requires cap > 0
    ensures Queues(cap) <==> Pow2(cap)
  {
    if Pow2(cap) {
      forall buf: seq<byte>, n: nat, b: byte | |buf| == cap && n < |buf|
        ensures Appends(buf, n, b)
      {
        MaskWraps(n, cap);
        LaidBehind(buf, 0, n, [b]);
      }
    } else {
      var x := MaskSlips(cap);
      var buf: seq<byte> := seq(cap, i => 0);
      var after := Stored(buf, 0, x, [1]);
      assert after[0] == 1;
      assert Window(after, 0, x + 1)[0] == 1;
      assert (Window(buf, 0, x) + [1])[0] == Window(buf, 0, x)[0] == buf[0];
      assert !Appends(buf, x, 1);
    }
  }

  /** What ring_init allocates. */
  function FirstCap(initial: nat, max: nat): nat {
    var c := NextPow2(initial);
    if max > 0 && c > max then max else c
  }

  /** A ring starts out sound if and only if its ceiling is absent, above the first allocation, or a power of two; and
      with no ceiling or one that is a power of two it never allocates beyond it. */
  lemma CeilingSound(initial: nat, max: nat)
    ensures Pow2(FirstCap(initial, max)) <==> max == 0 || NextPow2(initial) <= max || Pow2(max)
    ensures max > 0 && Pow2(max) ==> forall need :: FirstCap(initial, max) < need <= max ==> NextPow2(need) <= max
  {
    if max > 0 && Pow2(max) {
      forall need | FirstCap(initial, max) < need <= max
        ensures NextPow2(need) <= max
      {
        assert NextPow2(initial) >= 16 && Pow2(16);
        NextPow2Least(16, need, max);
      }
    }
  }

  method CopyInto(dst: array<byte>, at: nat, data: seq<byte>)
    requires at + |data| <= dst.Length
    modifies dst
    ensures Covers(old(dst[..]), dst[..], at, data)
  {
    for i := 0 to |data|
      invariant forall j :: 0 <= j < dst.Length ==> dst[j] == if at <= j < at + i then data[j - at] else old(dst[j])
    {
      dst[at + i] := data[i];
    }
  }

  /** The two copies of ring_write. */
  method LayDown(dst: array<byte>, tail: nat, data: seq<byte>)
    requires tail < dst.Length && |data| <= dst.Length
    modifies dst
    ensures dst[..] == Laid(old(dst[..]), tail, data)
  {
    var first := if dst.Length - tail > |data| then |data| else dst.Length - tail;
    CopyInto(dst, tail, data[..first]);
    ghost var half := dst[..];
    CopyInto(dst, 0, data[first..]);
    LaidTwice(old(dst[..]), half, dst[..], tail, data, first);
  }

  class Ring {
    var buf: array<byte>
    var head: nat
    var len: nat
    const max: nat

    /** Sound indices, and a ceiling that neither the contents nor the buffer exceed. */
    ghost predicate Valid()
      reads this, buf
    {
      && Pow2(buf.Length) && head < buf.Length && len <= buf.Length
      && (max > 0 ==> Pow2(max) && buf.Length <= max && (buf.Length == max || buf.Length >= 16))
    }

    ghost function Contents(): seq<byte>
      requires Valid()
      reads this, buf
    {
      Window(buf[..], head, len)
    }

    /** ring_init, for the ceilings in use: none, or a power of two. */
    constructor (initial: nat, max: nat)
      requires max > 0 ==> Pow2(max)
      ensures Valid() && fresh(buf) && Contents() == [] && this.max == max
    {
      var cap := NextPow2(initial);
      if max > 0 && cap > max {
        cap := max;
      }
      buf := new byte[cap](i => 0);
      this.max, head, len := max, 0, 0;
    }

    /** ring_grow */
    method Grow(need: nat)
      requires Valid() && need > buf.Length && (max > 0 ==> need <= max)
      modifies this
      ensures Valid() && fresh(buf) && buf.Length >= need && Contents() == old(Contents()) && len == old(len)
    {
      var cap := NextPow2(need);
      if max > 0 {
        assert Pow2(16);
        NextPow2Least(16, need, max);
      }
      var nb := new byte[cap](i => 0);
      var first := if buf.Length - head > len then len else buf.Length - head;
      ghost var empty := nb[..];
      CopyInto(nb, 0, buf[head..head + first]);
      ghost var half := nb[..];
      CopyInto(nb, first, buf[..len - first]);
      Straightened(buf[..], head, len, first, empty, half, nb[..]);
      buf, head := nb, 0;
    }

    /** ring_write: appended whole, or refused with nothing changed. */
    method Write(data: seq<byte>) returns (ok: bool)
      requires Valid()
      modifies this, buf
      ensures Valid() && (buf == old(buf) || fresh(buf))
      ensures ok <==> max == 0 || data == [] || old(len) + |data| <= max
      ensures Contents() == if ok then old(Contents()) + data else old(Contents())
    {
      if |data| == 0 {
        return true;
      }
      var need := len + |data|;
      if max > 0 && need > max {
        return false;
      }
      if need > buf.Length {
        Grow(need);
      }
      Append(data);
      return true;
    }

    method Append(data: seq<byte>)
      requires Valid() && len + |data| <= buf.Length
      modifies `len, buf
      ensures Valid() && Contents() == old(Contents()) + data
    {
      MaskWraps(head + len, buf.Length);
      var tail := And(head + len, buf.Length - 1);
      LaidBehind(buf[..], head, len, data);
      LayDown(buf, tail, data);
      len := len + |data|;
    }

    /** ring_peek */
    method Peek(n: nat) returns (out: seq<byte>)
      requires Valid()
      ensures out == Contents()[..if n > len then len else n]
    {
      var k := if n > len then len else n;
      var first := if buf.Length - head > k then k else buf.Length - head;
      out := buf[head..head + first] + buf[..k - first];
    }

    /** ring_consume */
    method Consume(n: nat)
      requires Valid()
      modifies `head, `len
      ensures Valid() && Contents() == old(Contents())[if n > old(len) then old(len) else n..]
    {
      var k := if n > len then len else n;
      MaskWraps(head + k, buf.Length);
      Dropped(buf[..], head, len, k);
      head, len := And(head + k, buf.Length - 1), len - k;
      if len == 0 {
        head := 0;
      }
    }

    /** ring_read */
    method Read(n: nat) returns (out: seq<byte>)
      requires Valid()
      modifies `head, `len
      ensures Valid() && out + Contents() == old(Contents()) && |out| == if n > old(len) then old(len) else n
    {
      out := Peek(n);
      Consume(|out|);
    }
  }
}
