/** Bytes and the little-endian scalars of the wire protocol and the disk log (src/common/proto.c). */
module Bytes {
  type byte = x: int | 0 <= x < 0x100
  type u32 = x: int | 0 <= x < 0x1_0000_0000
  type u64 = x: int | 0 <= x < 0x1_0000_0000_0000_0000

  datatype Option<+T> = None | Some(value: T)

  function Min(a: int, b: int): int {
    if a <= b then a else b
  }

  /** A number in ASCII digits. */
  function Decimal(n: nat): (s: seq<byte>)
    ensures forall i :: 0 <= i < |s| ==> 0x30 <= s[i] < 0x3A
  {
    if n < 10 then [0x30 + n] else Decimal(n / 10) + [0x30 + n % 10]
  }

  function PutU32(v: u32): (s: seq<byte>)
    ensures |s| == 4
  {
    [v % 0x100, v / 0x100 % 0x100, v / 0x1_0000 % 0x100, v / 0x100_0000]
  }

  function GetU32(s: seq<byte>): u32
    requires |s| >= 4
  {
    (s[0] as int) + (s[1] as int) * 0x100 + (s[2] as int) * 0x1_0000 + (s[3] as int) * 0x100_0000
  }

  function PutU64(v: u64): (s: seq<byte>)
    ensures |s| == 8
  {
    PutU32(v % 0x1_0000_0000) + PutU32(v / 0x1_0000_0000)
  }

  function GetU64(s: seq<byte>): u64
    requires |s| >= 8
  {
    GetU32(s) + GetU32(s[4..]) * 0x1_0000_0000
  }

  /** Reading a stored scalar gives it back, whatever bytes follow it. */
  lemma U32RoundTrip(v: u32, rest: seq<byte>)
    ensures GetU32(PutU32(v) + rest) == v
  {
    var s := PutU32(v) + rest;
    var p, q := v / 0x100, v / 0x1_0000;
    assert s[..4] == PutU32(v);
    assert v == v % 0x100 + p * 0x100;
    assert p == p % 0x100 + q * 0x100 by { assert q == p / 0x100; }
    assert q == q % 0x100 + v / 0x100_0000 * 0x100 by { assert v / 0x100_0000 == q / 0x100; }
  }

  lemma U64RoundTrip(v: u64, rest: seq<byte>)
    ensures GetU64(PutU64(v) + rest) == v
  {
    var lo, hi := v % 0x1_0000_0000, v / 0x1_0000_0000;
    var s := PutU64(v) + rest;
    assert s == PutU32(lo) + (PutU32(hi) + rest);
    U32RoundTrip(lo, PutU32(hi) + rest);
    assert s[4..] == PutU32(hi) + rest;
    U32RoundTrip(hi, rest);
  }

  /** The number bytes stand for when each counts 256 times as much as the one before it. */
  ghost function PlaceValue(bs: seq<byte>): nat {
    if |bs| == 0 then 0 else bs[0] as int + 0x100 * PlaceValue(bs[1..])
  }

  lemma {:induction false} PlaceValueFour(bs: seq<byte>)
    requires |bs| >= 4
    ensures PlaceValue(bs) == GetU32(bs) + 0x1_0000_0000 * PlaceValue(bs[4..])
  {
    assert bs[1..][1..] == bs[2..] && bs[2..][1..] == bs[3..] && bs[3..][1..] == bs[4..];
    assert PlaceValue(bs[2..]) == bs[2] as int + 0x100 * PlaceValue(bs[3..]);
    assert PlaceValue(bs[3..]) == bs[3] as int + 0x100 * PlaceValue(bs[4..]);
  }

  /** Scalars are stored lowest byte first. */
  lemma {:induction false} LittleEndian(v: u32, w: u64)
    ensures PlaceValue(PutU32(v)) == v && PlaceValue(PutU64(w)) == w
  {
    U32RoundTrip(v, []);
    assert PutU32(v) + [] == PutU32(v) && PutU32(v)[4..] == [];
    PlaceValueFour(PutU32(v));
    var s := PutU64(w);
    U64RoundTrip(w, []);
    assert s + [] == s && s[4..][4..] == [];
    PlaceValueFour(s);
    PlaceValueFour(s[4..]);
  }
}
