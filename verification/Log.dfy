/** The append-only log of src/common/scrollback.c as a file of records: byte offsets, the forward scan and
    what survives a cut at any byte. Everything here holds for any record format that reads back what it
    wrote and rejects a torn record; DiskFormat.dfy shows that the on-disk format is one. */
module Log {
  import opened Bytes

  const LINE_MAX: nat := 8192
  const INDEX_STEP: nat := 512

  datatype RawRec = Rec(no: nat, text: seq<byte>)

  /** One stored line: its sequence number and its serialized text. */
  type Rec = r: RawRec | r.no < 0x1_0000_0000_0000_0000 && |r.text| <= LINE_MAX witness Rec(0, [])

  /** Bytes a record takes on disk: a 16-byte header and its text. */
  function Size(r: Rec): nat {
    16 + |r.text|
  }

  datatype Format = Format(enc: Rec -> seq<byte>, read: (seq<byte>, nat) -> Option<Rec>)

  ghost predicate Faithful(f: Format) {
    && (forall r :: |f.enc(r)| == Size(r))
    && (forall pre, r, post :: ReadsBack(f, pre, r, post))
    && (forall pre, r, have | 0 <= have < |f.enc(r)| :: RejectsTorn(f, pre, r, have))
    && (forall file, off :: ReadFits(f, file, off))
  }

  ghost predicate ReadsBack(f: Format, pre: seq<byte>, r: Rec, post: seq<byte>) {
    f.read(pre + f.enc(r) + post, |pre|) == Some(r)
  }

  ghost predicate RejectsTorn(f: Format, pre: seq<byte>, r: Rec, have: nat)
    requires have <= |f.enc(r)|
  {
    f.read(pre + f.enc(r)[..have], |pre|) == None
  }

  /** A record is read only if all of it is there, and never at the end of the file. */
  ghost predicate ReadFits(f: Format, file: seq<byte>, off: nat) {
    match f.read(file, off)
    case Some(r) => off + Size(r) <= |file|
    case None => true
  }

  ghost function Encode(f: Format, rs: seq<Rec>): seq<byte> {
    if rs == [] then [] else Encode(f, rs[..|rs| - 1]) + f.enc(rs[|rs| - 1])
  }

  /** Byte offset at which record k starts; for k == |rs|, the length of the log. */
  ghost function Offset(rs: seq<Rec>, k: nat): nat
    requires k <= |rs|
  {
    if k == 0 then 0 else Offset(rs, k - 1) + Size(rs[k - 1])
  }

  /** Every record readable from off on, up to the first offset where none starts. */
  ghost function Scan(f: Format, file: seq<byte>, off: nat): (rs: seq<Rec>)
    requires Faithful(f)
    decreases |file| - off
  {
    assert ReadFits(f, file, off);
    match f.read(file, off)
    case None => []
    case Some(r) => [r] + Scan(f, file, off + Size(r))
  }

  // ---- offsets ----

  lemma OffsetPrefix(rs: seq<Rec>, ts: seq<Rec>, k: nat)
    requires k <= |rs| && k <= |ts| && rs[..k] == ts[..k]
    ensures Offset(rs, k) == Offset(ts, k)
  {
    if k > 0 {
      assert rs[k - 1] == rs[..k][k - 1] == ts[k - 1];
      assert rs[..k - 1] == rs[..k][..k - 1] == ts[..k - 1];
      OffsetPrefix(rs, ts, k - 1);
    }
  }

  lemma OffsetMonotone(rs: seq<Rec>, j: nat, k: nat)
    requires j <= k <= |rs|
    ensures Offset(rs, j) + 16 * (k - j) <= Offset(rs, k)
    decreases k
  {
    if j < k {
      OffsetMonotone(rs, j, k - 1);
    }
  }

  lemma {:induction false} EncodeLength(f: Format, rs: seq<Rec>)
    requires Faithful(f)
    ensures |Encode(f, rs)| == Offset(rs, |rs|)
  {
    if rs != [] {
      var n := |rs| - 1;
      EncodeLength(f, rs[..n]);
      OffsetPrefix(rs, rs[..n], n);
    }
  }

  lemma {:induction false} EncodeConcat(f: Format, a: seq<Rec>, b: seq<Rec>)
    ensures Encode(f, a + b) == Encode(f, a) + Encode(f, b)
    decreases b
  {
    if b == [] {
      assert a + b == a;
    } else {
      var n := |b| - 1;
      EncodeConcat(f, a, b[..n]);
      assert (a + b)[..|a + b| - 1] == a + b[..n];
    }
  }

  lemma EncodeSnoc(f: Format, a: seq<Rec>, r: Rec)
    ensures Encode(f, a + [r]) == Encode(f, a) + f.enc(r)
  {
    assert (a + [r])[..|a|] == a;
  }

  lemma EncodePieces(f: Format, a: seq<Rec>, r: Rec, b: seq<Rec>)
    ensures Encode(f, a + [r] + b) == Encode(f, a) + f.enc(r) + Encode(f, b)
  {
    EncodeSnoc(f, a, r);
    EncodeConcat(f, a + [r], b);
  }

  /** A log around its record k. */
  lemma EncodeAround(f: Format, rs: seq<Rec>, k: nat)
    requires k < |rs|
    ensures Encode(f, rs) == Encode(f, rs[..k]) + f.enc(rs[k]) + Encode(f, rs[k + 1..])
  {
    assert rs[..k] + [rs[k]] + rs[k + 1..] == rs;
    EncodePieces(f, rs[..k], rs[k], rs[k + 1..]);
  }

  lemma EncodePrefixLength(f: Format, rs: seq<Rec>, k: nat)
    requires Faithful(f) && k <= |rs|
    ensures |Encode(f, rs[..k])| == Offset(rs, k)
  {
    EncodeLength(f, rs[..k]);
    OffsetPrefix(rs, rs[..k], k);
  }

  lemma Regroup<T>(a: seq<T>, b: seq<T>, c: seq<T>, d: seq<T>)
    ensures a + b + (c + d) == a + b + c + d
  {
  }

  // ---- reading and scanning ----

  /** Record k of a log is what a reader finds at its offset, whatever follows the log. */
  lemma ReadAt(f: Format, rs: seq<Rec>, k: nat, post: seq<byte>)
    requires Faithful(f) && k < |rs|
    ensures f.read(Encode(f, rs) + post, Offset(rs, k)) == Some(rs[k])
  {
    EncodeAround(f, rs, k);
    EncodePrefixLength(f, rs, k);
    var a, b := Encode(f, rs[..k]), Encode(f, rs[k + 1..]);
    assert ReadsBack(f, a, rs[k], b + post);
    Regroup(a, f.enc(rs[k]), b, post);
  }

  /** Nothing is readable at the end of a file. */
  lemma ReadEnd(f: Format, file: seq<byte>)
    requires Faithful(f)
    ensures f.read(file, |file|) == None
  {
    assert ReadFits(f, file, |file|);
  }

  /** Scanning on from record k of a scan finds the rest of it. */
  lemma {:induction false} ScanFrom(f: Format, file: seq<byte>, k: nat)
    requires Faithful(f) && k <= |Scan(f, file, 0)|
    ensures Scan(f, file, Offset(Scan(f, file, 0), k)) == Scan(f, file, 0)[k..]
    decreases k
  {
    var rs := Scan(f, file, 0);
    if k > 0 {
      ScanFrom(f, file, k - 1);
      assert rs[k - 1..][1..] == rs[k..];
    }
  }

  /** Records of rs that lie wholly before byte cut. */
  ghost function WholeBefore(rs: seq<Rec>, cut: nat): (k: nat)
    ensures k <= |rs| && Offset(rs, k) <= cut
    ensures k < |rs| ==> cut < Offset(rs, k + 1)
  {
    WholeFrom(rs, cut, 0)
  }

  ghost function WholeFrom(rs: seq<Rec>, cut: nat, k: nat): (m: nat)
    requires k <= |rs| && Offset(rs, k) <= cut
    ensures k <= m <= |rs| && Offset(rs, m) <= cut
    ensures m < |rs| ==> cut < Offset(rs, m + 1)
    decreases |rs| - k
  {
    if k < |rs| && Offset(rs, k + 1) <= cut then WholeFrom(rs, cut, k + 1) else k
  }

  /** A log followed by anything unreadable scans to itself. */
  lemma {:induction false} ScanEncoded(f: Format, rs: seq<Rec>, post: seq<byte>, k: nat)
    requires Faithful(f) && k <= |rs|
    requires f.read(Encode(f, rs) + post, |Encode(f, rs)|).None?
    ensures Scan(f, Encode(f, rs) + post, Offset(rs, k)) == rs[k..]
    decreases |rs| - k
  {
    if k < |rs| {
      ReadAt(f, rs, k, post);
      ScanEncoded(f, rs, post, k + 1);
      assert rs[k..] == [rs[k]] + rs[k + 1..];
    } else {
      EncodeLength(f, rs);
    }
  }

  /** A log cut inside record k is its first k records and a torn piece. */
  lemma CutInside(f: Format, rs: seq<Rec>, k: nat, cut: nat)
    requires Faithful(f) && k < |rs| && Offset(rs, k) <= cut < Offset(rs, k + 1)
    ensures cut <= |Encode(f, rs)|
    ensures Encode(f, rs)[..cut] == Encode(f, rs[..k]) + f.enc(rs[k])[..cut - Offset(rs, k)]
  {
    EncodeAround(f, rs, k);
    EncodePrefixLength(f, rs, k);
    var a, e, b := Encode(f, rs[..k]), f.enc(rs[k]), Encode(f, rs[k + 1..]);
    assert (a + e + b)[..cut] == a + e[..cut - |a|];
  }

  /** Recovery: a log cut at any byte scans to exactly the records wholly before the cut. */
  lemma ScanCut(f: Format, rs: seq<Rec>, cut: nat)
    requires Faithful(f) && cut <= |Encode(f, rs)|
    ensures Scan(f, Encode(f, rs)[..cut], 0) == rs[..WholeBefore(rs, cut)]
  {
    var k := WholeBefore(rs, cut);
    EncodeLength(f, rs);
    if k < |rs| {
      CutInside(f, rs, k, cut);
      assert RejectsTorn(f, Encode(f, rs[..k]), rs[k], cut - Offset(rs, k));
      EncodePrefixLength(f, rs, k);
      ScanEncoded(f, rs[..k], f.enc(rs[k])[..cut - Offset(rs, k)], 0);
    } else {
      assert Encode(f, rs)[..cut] == Encode(f, rs) + [];
      ReadEnd(f, Encode(f, rs) + []);
      ScanEncoded(f, rs, [], 0);
    }
  }

  /** An untouched log scans to itself. */
  lemma ScanWhole(f: Format, rs: seq<Rec>)
    requires Faithful(f)
    ensures Scan(f, Encode(f, rs), 0) == rs
  {
    assert Encode(f, rs) + [] == Encode(f, rs);
    ReadEnd(f, Encode(f, rs));
    ScanEncoded(f, rs, [], 0);
  }
}
