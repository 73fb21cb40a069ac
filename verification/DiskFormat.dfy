/** The on-disk record of src/common/scrollback.c: [u32 length][u32 checksum][u64 number][text], where the
    length counts everything behind itself. The checksum is any function of number and text. */
module DiskFormat {
  import opened Bytes
  import opened Log

  type Checksum = seq<byte> -> u32

  function EncodeRec(crc: Checksum, r: Rec): (s: seq<byte>)
    ensures |s| == Size(r)
  {
    PutU32(12 + |r.text|) + PutU32(crc(PutU64(r.no) + r.text)) + PutU64(r.no) + r.text
  }

  /** A record on disk: lowest byte first, the length of all behind the first four bytes; the checksum of all behind the
      first eight; the number; the text. */
  lemma RecordBytes(crc: Checksum, r: Rec)
    ensures var s := EncodeRec(crc, r);
      && PlaceValue(s[..4]) == |s| - 4 && PlaceValue(s[4..8]) == crc(s[8..]) && PlaceValue(s[8..16]) == r.no
      && s[16..] == r.text
  {
    var s, sum := EncodeRec(crc, r), crc(PutU64(r.no) + r.text);
    assert s[..4] == PutU32(12 + |r.text|) && s[4..8] == PutU32(sum) && s[8..16] == PutU64(r.no);
    assert s[8..] == PutU64(r.no) + r.text;
    LittleEndian(12 + |r.text|, r.no);
    LittleEndian(sum, 0);
  }

  /** The record at byte offset off, or None where no valid record starts. */
  function ReadRec(crc: Checksum, file: seq<byte>, off: nat): (r: Option<Rec>)
    ensures r.Some? ==> off + Size(r.value) <= |file|
  {
    if off + 16 > |file| then None else
    var recLen := GetU32(file[off..]);
    if recLen < 12 || recLen - 12 > LINE_MAX then None else
    var end := off + 16 + (recLen - 12);
    if end > |file| then None else
    var no := GetU64(file[off + 8..]);
    var text := file[off + 16..end];
    if crc(PutU64(no) + text) != GetU32(file[off + 4..]) then None else Some(Rec(no, text))
  }

  function LogFormat(crc: Checksum): Format {
    Format(r => EncodeRec(crc, r), (file, off) => ReadRec(crc, file, off))
  }

  lemma ReadEncoded(crc: Checksum, pre: seq<byte>, r: Rec, post: seq<byte>)
    ensures ReadRec(crc, pre + EncodeRec(crc, r) + post, |pre|) == Some(r)
  {
    var file := pre + EncodeRec(crc, r) + post;
    var off := |pre|;
    var sum := crc(PutU64(r.no) + r.text);
    assert file[off..] == PutU32(12 + |r.text|) + (PutU32(sum) + PutU64(r.no) + r.text + post);
    U32RoundTrip(12 + |r.text|, PutU32(sum) + PutU64(r.no) + r.text + post);
    assert file[off + 4..] == PutU32(sum) + (PutU64(r.no) + r.text + post);
    U32RoundTrip(sum, PutU64(r.no) + r.text + post);
    assert file[off + 8..] == PutU64(r.no) + (r.text + post);
    U64RoundTrip(r.no, r.text + post);
    assert file[off + 16..off + 16 + |r.text|] == r.text;
  }

  /** Nothing is readable where fewer bytes remain than the record that starts there needs. */
  lemma ReadTorn(crc: Checksum, pre: seq<byte>, r: Rec, have: nat)
    requires have < Size(r)
    ensures ReadRec(crc, pre + EncodeRec(crc, r)[..have], |pre|) == None
  {
    var file := pre + EncodeRec(crc, r)[..have];
    if have >= 16 {
      var rest := EncodeRec(crc, r)[4..have];
      assert file[|pre|..] == PutU32(12 + |r.text|) + rest;
      U32RoundTrip(12 + |r.text|, rest);
    }
  }

  lemma LogFormatFaithful(crc: Checksum)
    ensures Faithful(LogFormat(crc))
  {
    var f := LogFormat(crc);
    forall pre, r, post ensures ReadsBack(f, pre, r, post) {
      ReadEncoded(crc, pre, r, post);
    }
    forall pre, r, have | 0 <= have < |f.enc(r)| ensures RejectsTorn(f, pre, r, have) {
      ReadTorn(crc, pre, r, have);
    }
  }
}
