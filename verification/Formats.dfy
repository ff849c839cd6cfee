/** The on-disk formats, byte by byte: where each field of a record or a header
    lies, and which bytes the readers accept. */
module Formats {
  import opened Words
  import opened Chunk
  import opened Index

  /** Digit `i` of `n` to the base 256. */
  function Digit(n: nat, i: nat): byte { (n / Pow256(i)) % 256 }

  /** Byte `i` of a record in chunks.log. */
  function LogByte(r: Record, i: nat): byte {
    if i < 8 then Digit(r.key, i)
    else if i == 8 then (if r.kind.Full? then 0 else if r.kind.Delta? then 1 else 2)
    else if i == 9 then r.workerId
    else if i < 18 then Digit(r.offset, i - 10)
    else if i < 22 then Digit(r.len, i - 18)
    else Digit(r.baseKey, i - 22)
  }

  /** Byte `i` of a record in index.bxdb; the last two are padding. */
  function FixedByte(r: Record, i: nat): byte {
    if i < 8 then Digit(r.key, i)
    else if i < 16 then Digit(r.baseKey, i - 8)
    else if i < 24 then Digit(r.offset, i - 16)
    else if i < 28 then Digit(r.len, i - 24)
    else if i == 28 then (if r.kind.Full? then 0 else if r.kind.Delta? then 1 else 2)
    else if i == 29 then r.workerId
    else 0
  }

  /** Byte `i` of a file header: "BXDBLOG" or "BXDBIDX" and a zero, version 1, the
      greatest snapshot id, and padding. */
  function HeaderByte(forLog: bool, maxSnap: nat, i: nat): byte {
    if i < 4 then [0x42, 0x58, 0x44, 0x42][i]
    else if i < 7 then (if forLog then [0x4C, 0x4F, 0x47] else [0x49, 0x44, 0x58])[i - 4]
    else if i == 8 then 1
    else if 9 <= i < 13 then Digit(maxSnap, i - 9)
    else 0
  }

  /** The PA fills the 45 bits above the 19 of the snapshot. */
  lemma KeyLayout(pa: nat, snap: nat)
    requires pa < 0x2000_0000_0000 && snap < 0x8_0000
    ensures EncodeKey(pa, snap) == pa * 0x8_0000 + snap
    ensures EncodeKey(pa + 0x2000_0000_0000, snap) == EncodeKey(pa, snap)
  {
    assert (pa + 0x2000_0000_0000) * SNAPSHOTS == pa * SNAPSHOTS + U64;
  }

  lemma LogLayout(r: Record, i: nat)
    requires i < |LogBytes(r)|
    ensures LogBytes(r)[i] == LogByte(r, i)
    ensures |LogBytes(r)| == 22 || (r.kind == Delta && |LogBytes(r)| == 30)
  {
    hide LE, Pow256;
    if i < 8 {
      LEDigit(r.key, 8, i);
    } else if 10 <= i < 18 {
      LEDigit(r.offset, 8, i - 10);
    } else if 18 <= i < 22 {
      LEDigit(r.len, 4, i - 18);
    } else if 22 <= i {
      LEDigit(r.baseKey, 8, i - 22);
    }
  }

  lemma FixedLayout(r: Record, i: nat)
    requires i < 32
    ensures FixedBytes(r)[i] == FixedByte(r, i)
  {
    hide LE, Pow256;
    if i < 8 {
      LEDigit(r.key, 8, i);
    } else if i < 16 {
      LEDigit(r.baseKey, 8, i - 8);
    } else if i < 24 {
      LEDigit(r.offset, 8, i - 16);
    } else if i < 28 {
      LEDigit(r.len, 4, i - 24);
    }
  }

  lemma HeaderLayout(forLog: bool, maxSnap: nat, i: nat)
    requires i < 16
    ensures |Header(if forLog then MAGIC_LOG else MAGIC_IDX, maxSnap)| == 16
    ensures Header(if forLog then MAGIC_LOG else MAGIC_IDX, maxSnap)[i] == HeaderByte(forLog, maxSnap, i)
  {
    hide LE, Pow256;
    if 9 <= i < 13 { LEDigit(maxSnap, 4, i - 9); }
  }

  /** Record `k` of an index starts at byte 16 + 32 k. */
  lemma {:induction false} FixedBodyLayout(rs: seq<Record>, k: nat, i: nat)
    requires k < |rs| && i < 32
    ensures FixedBody(rs)[32 * k + i] == FixedByte(rs[k], i)
  {
    hide FixedBytes, FixedByte;
    if k == 0 {
      FixedLayout(rs[0], i);
    } else {
      FixedBodyLayout(rs[1..], k - 1, i);
    }
  }

  lemma IndexFileLayout(maxSnap: nat, rs: seq<Record>, k: nat, i: nat)
    requires k < |rs| && i < 32
    ensures |IndexFile(maxSnap, rs)| == 16 + 32 * |rs|
    ensures IndexFile(maxSnap, rs)[16 + 32 * k + i] == FixedByte(rs[k], i)
  {
    hide FixedBody, FixedByte, Header;
    FixedBodyLayout(rs, k, i);
  }

  /** The first byte of record `k` of a log. */
  function LogStart(rs: seq<Record>, k: nat): (at: nat)
    requires k <= |rs|
  {
    if k == 0 then 16 else LogStart(rs, k - 1) + if rs[k - 1].kind.Delta? then 30 else 22
  }

  lemma {:induction false} LogStartIs(rs: seq<Record>, k: nat)
    requires k <= |rs|
    ensures LogStart(rs, k) == 16 + |LogBody(rs[..k])|
  {
    hide LogBytes;
    if k > 0 {
      LogStartIs(rs, k - 1);
      assert rs[..k] == rs[..k - 1] + [rs[k - 1]];
      LogBodyAppend(rs[..k - 1], [rs[k - 1]]);
      assert LogBody([rs[k - 1]]) == LogBytes(rs[k - 1]);
    }
  }

  /** Records of a log lie one after the other behind the header. */
  lemma LogFileLayout(maxSnap: nat, rs: seq<Record>, k: nat, i: nat)
    requires k < |rs| && i < if rs[k].kind.Delta? then 30 else 22
    ensures |LogFile(maxSnap, rs)| == LogStart(rs, |rs|)
    ensures LogStart(rs, k) + i < |LogFile(maxSnap, rs)|
    ensures LogFile(maxSnap, rs)[LogStart(rs, k) + i] == LogByte(rs[k], i)
  {
    hide LogBody, LogByte, Header, LogStart, LogBytes;
    LogStartIs(rs, k);
    LogStartIs(rs, |rs|);
    LogLayout(rs[k], i);
    assert rs[..|rs|] == rs;
    assert rs == rs[..k] + rs[k..] && rs[k..] == [rs[k]] + rs[k + 1..];
    LogBodyAppend(rs[..k], rs[k..]);
    LogBodyAppend([rs[k]], rs[k + 1..]);
    OneRecord(rs[k]);
  }

  lemma OneRecord(r: Record)
    ensures LogBody([r]) == LogBytes(r) && |LogBytes(r)| == if r.kind.Delta? then 30 else 22
  {
    assert [r][1..] == [];
  }

  /** What one `read_from` accepts, for any bytes. */
  lemma ReadOutcome(s: seq<byte>)
    ensures ReadRecord(s).Eof? <==> |s| < 22
    ensures ReadRecord(s) == Bad(InvalidChunkType) <==> |s| >= 22 && s[8] > 2
    ensures ReadRecord(s) == Bad(UnexpectedEof) <==> 22 <= |s| < 30 && s[8] == 1
    ensures ReadRecord(s).Got? <==> (|s| >= 30 || (|s| >= 22 && s[8] != 1)) && s[8] <= 2
  {
    hide FromLE;
  }

  /** A 32-byte record is accepted exactly when its tag is one of the three, and the
      accepted record is the one written that way, up to the padding. */
  lemma DecodeOutcome(s: seq<byte>)
    requires |s| == 32
    ensures DecodeFixed(s).Err? <==> s[28] > 2
    ensures DecodeFixed(s).Err? ==> DecodeFixed(s).error == InvalidChunkType
    ensures DecodeFixed(s).Ok? ==> FixedBytes(DecodeFixed(s).value)[..30] == s[..30]
  {
    hide FromLE, LE;
    FieldRange(s[0..8]);
    FieldRange(s[8..16]);
    FieldRange(s[16..24]);
    FieldRange(s[24..28]);
    assert s[..30] == s[0..8] + s[8..16] + s[16..24] + s[24..28] + [s[28], s[29]];
  }

  /** The header check on any bytes: length, then magic, then version; the padding is ignored. */
  lemma HeaderOutcome(s: seq<byte>, forLog: bool)
    ensures var r := ReadHeader(s, if forLog then MAGIC_LOG else MAGIC_IDX);
      if |s| < 16 then r == Err(UnexpectedEof)
      else if exists i :: 0 <= i < 8 && s[i] != HeaderByte(forLog, 0, i) then r == Err(BadMagic)
      else if s[8] != 1 then r == Err(BadVersion)
      else r.Ok? && r.value < U32 && forall i :: 0 <= i < 4 ==> s[9 + i] == Digit(r.value, i)
  {
    hide FromLE, LE, Pow256;
    var magic := if forLog then MAGIC_LOG else MAGIC_IDX;
    if |s| >= 16 {
      forall i | 0 <= i < 8 ensures magic[i] == HeaderByte(forLog, 0, i) { HeaderLayout(forLog, 0, i); }
      if s[0..8] == magic {
        forall i | 0 <= i < 8 ensures s[i] == magic[i] { assert s[i] == s[0..8][i]; }
      } else {
        var i :| 0 <= i < 8 && s[0..8][i] != magic[i];
        assert s[i] != HeaderByte(forLog, 0, i);
      }
      var n := FromLE(s[9..13]);
      FieldRange(s[9..13]);
      forall i | 0 <= i < 4 ensures s[9 + i] == Digit(n, i) {
        LEDigit(n, 4, i);
        assert s[9..13][i] == s[9 + i];
      }
    }
  }
}
