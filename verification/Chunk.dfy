/** Chunk records: combined keys, and the log and index encodings of a record. */
module Chunk {
  import opened Words

  const PAGE_SIZE := 4096
  const PAGE_WORDS := 512
  const SNAPSHOTS := 0x8_0000
  const MAX_SNAPSHOT_ID := SNAPSHOTS - 1
  const PA_LIMIT := 0x2000_0000_0000
  const DEFAULT_DELTA_THRESHOLD := 256
  const LOG_RECORD_BASE_SIZE := 22
  const FIXED_RECORD_SIZE := 32

  type Page = p: seq<byte> | |p| == PAGE_SIZE witness seq(PAGE_SIZE, _ => 0)

  datatype Error =
    | UnexpectedEof | InvalidChunkType | BadMagic | BadVersion | Misaligned | NotFound
    | SnapshotTooLarge | SnapshotNotIncreasing | MemoryLength | BitmapTooShort | TooManyDirty
    | WorkerCount | BlobFileMissing | BlobOutOfRange | DecompressFailed | DecompressedSize
    | BaseMissing | BaseNotFull | PatchLength | PatchIndex | OutOfOrder | AddressOutOfRange

  datatype Result<+T> = Ok(value: T) | Err(error: Error)

  /* ---- combined keys ---- */

  /** `(pa << 19) | (snapshot & mask)` on 64 bits: the shift drops the bits of
      `pa` above the 45th, and the two operands share no bit. */
  function EncodeKey(pa: nat, snap: nat): (k: nat)
    ensures k < U64
  {
    (pa * SNAPSHOTS) % U64 + snap % SNAPSHOTS
  }

  function PaOf(key: nat): nat { key / SNAPSHOTS }

  function SnapOf(key: nat): (s: nat)
    ensures s < SNAPSHOTS
  {
    key % SNAPSHOTS
  }

  /** Within 45 + 19 bits a key names one (PA, snapshot) pair, and keys order
      pairs by PA first, then snapshot. */
  lemma KeyPacking(pa: nat, snap: nat, key: nat)
    requires pa < PA_LIMIT && snap < SNAPSHOTS && key < U64
    ensures PaOf(EncodeKey(pa, snap)) == pa && SnapOf(EncodeKey(pa, snap)) == snap
    ensures PaOf(key) < PA_LIMIT && EncodeKey(PaOf(key), SnapOf(key)) == key
    ensures key < EncodeKey(pa, snap) <==> PaOf(key) < pa || (PaOf(key) == pa && SnapOf(key) < snap)
  {
    assert pa * SNAPSHOTS < U64;
    assert PaOf(key) * SNAPSHOTS + SnapOf(key) == key;
  }

  /* ---- records ---- */

  datatype ChunkKind = Full | Delta | Zero

  datatype Record = Record(
    key: nat, kind: ChunkKind, workerId: byte, offset: nat, len: nat, baseKey: nat)

  function NewFull(key: nat, workerId: byte, offset: nat, len: nat): Record {
    Record(key, Full, workerId, offset, len, 0)
  }

  function NewDelta(key: nat, workerId: byte, offset: nat, len: nat, baseKey: nat): Record {
    Record(key, Delta, workerId, offset, len, baseKey)
  }

  function NewZero(key: nat): Record {
    Record(key, Zero, 0, 0, 0, 0)
  }

  /** The fields fit their on-disk widths, and only a Delta names a base. */
  ghost predicate WellFormed(r: Record) {
    && FieldsFit(r)
    && (r.kind != Delta ==> r.baseKey == 0)
  }

  ghost predicate FieldsFit(r: Record) {
    r.key < U64 && r.offset < U64 && r.len < U32 && r.baseKey < U64
  }

  ghost predicate AllWellFormed(rs: seq<Record>) {
    forall r :: r in rs ==> WellFormed(r)
  }

  lemma FittingRecords(rs: seq<Record>)
    ensures AllWellFormed(rs) ==> forall r :: r in rs ==> FieldsFit(r)
    ensures (forall r :: r in rs ==> FieldsFit(r)) ==> forall r :: r in rs ==> r.key < U64
  {
  }

  function KindByte(k: ChunkKind): byte {
    match k case Full => 0 case Delta => 1 case Zero => 2
  }

  function KindOf(b: byte): Option<ChunkKind> {
    if b == 0 then Some(Full) else if b == 1 then Some(Delta) else if b == 2 then Some(Zero) else None
  }

  /** The variable-length form appended to chunks.log. */
  function LogBytes(r: Record): (s: seq<byte>)
    ensures |s| == if r.kind == Delta then 30 else 22
  {
    LE(r.key, 8) + [KindByte(r.kind), r.workerId] + LE(r.offset, 8) + LE(r.len, 4)
    + if r.kind == Delta then LE(r.baseKey, 8) else []
  }

  /** The 32-byte form stored in index.bxdb. */
  function FixedBytes(r: Record): (s: seq<byte>)
    ensures |s| == FIXED_RECORD_SIZE
  {
    LE(r.key, 8) + LE(r.baseKey, 8) + LE(r.offset, 8) + LE(r.len, 4)
    + [KindByte(r.kind), r.workerId] + [0, 0]
  }

  /** One `read_from`: clean end of file, a decoding error, or a record. */
  datatype Read = Eof | Bad(error: Error) | Got(rec: Record, rest: seq<byte>)

  function ReadRecord(s: seq<byte>): (r: Read)
    ensures r.Got? ==> |r.rest| < |s|
  {
    if |s| < LOG_RECORD_BASE_SIZE then Eof
    else
      match KindOf(s[8])
      case None => Bad(InvalidChunkType)
      case Some(kind) =>
        if kind == Delta && |s| < LOG_RECORD_BASE_SIZE + 8 then Bad(UnexpectedEof)
        else
          var base := if kind == Delta then FromLE(s[22..30]) else 0;
          Got(Record(FromLE(s[0..8]), kind, s[9], FromLE(s[10..18]), FromLE(s[18..22]), base),
              s[if kind == Delta then 30 else 22..])
  }

  function DecodeFixed(s: seq<byte>): (r: Result<Record>)
    requires |s| == FIXED_RECORD_SIZE
  {
    match KindOf(s[28])
    case None => Err(InvalidChunkType)
    case Some(kind) =>
      Ok(Record(FromLE(s[0..8]), kind, s[29], FromLE(s[16..24]), FromLE(s[24..28]), FromLE(s[8..16])))
  }

  /** A decoded record fits its fields, whatever the padding bytes were. */
  lemma DecodedFits(s: seq<byte>)
    requires |s| == FIXED_RECORD_SIZE
    ensures DecodeFixed(s).Ok? ==> FieldsFit(DecodeFixed(s).value)
  {
    hide FromLE, LE;
    FieldRange(s[0..8]);
    FieldRange(s[8..16]);
    FieldRange(s[16..24]);
    FieldRange(s[24..28]);
  }

  lemma FixedRoundTrip(r: Record)
    requires FieldsFit(r)
    ensures DecodeFixed(FixedBytes(r)) == Ok(r)
  {
    hide LE, FromLE;
    var s := FixedBytes(r);
    assert s[0..8] == LE(r.key, 8) && s[8..16] == LE(r.baseKey, 8);
    assert s[16..24] == LE(r.offset, 8) && s[24..28] == LE(r.len, 4);
    FieldRoundTrip(r.key);
    FieldRoundTrip(r.baseKey);
    FieldRoundTrip(r.offset);
    FieldRoundTrip(r.len);
  }

  lemma ReadBack(r: Record, rest: seq<byte>)
    requires WellFormed(r)
    ensures ReadRecord(LogBytes(r) + rest) == Got(r, rest)
  {
    hide LE, FromLE;
    var s := LogBytes(r) + rest;
    assert s[0..8] == LE(r.key, 8) && s[10..18] == LE(r.offset, 8) && s[18..22] == LE(r.len, 4);
    assert s[8] == KindByte(r.kind) && s[9] == r.workerId;
    FieldRoundTrip(r.key);
    FieldRoundTrip(r.offset);
    FieldRoundTrip(r.len);
    if r.kind == Delta {
      assert s[22..30] == LE(r.baseKey, 8);
      FieldRoundTrip(r.baseKey);
      assert s[30..] == rest;
    } else {
      assert s[22..] == rest;
    }
  }

  /** A strict prefix of one record's bytes is end of file, unless the cut lies
      in the trailing base key of a Delta. */
  lemma ReadCut(r: Record, n: nat)
    requires n < |LogBytes(r)|
    ensures ReadRecord(LogBytes(r)[..n]) == if n < 22 then Eof else Bad(UnexpectedEof)
  {
    if n >= 22 {
      assert LogBytes(r)[8] == KindByte(r.kind);
    }
  }

  function LogBody(rs: seq<Record>): (s: seq<byte>)
  {
    if rs == [] then [] else LogBytes(rs[0]) + LogBody(rs[1..])
  }

  /** What the read loops over a log body produce. */
  function ParseLog(s: seq<byte>): (r: Result<seq<Record>>)
    decreases |s|
  {
    match ReadRecord(s)
    case Eof => Ok([])
    case Bad(e) => Err(e)
    case Got(rec, rest) =>
      match ParseLog(rest)
      case Err(e) => Err(e)
      case Ok(rs) => Ok([rec] + rs)
  }

  /** The records before the end or the first bad record, and what is wrong there. */
  function Readable(s: seq<byte>): (rs: seq<Record>)
    decreases |s|
  {
    match ReadRecord(s) case Got(rec, rest) => [rec] + Readable(rest) case _ => []
  }

  function ReadEnd(s: seq<byte>): (e: Option<Error>)
    decreases |s|
  {
    match ReadRecord(s) case Got(_, rest) => ReadEnd(rest) case Eof => None case Bad(e) => Some(e)
  }

  lemma {:induction false} ParseSplit(s: seq<byte>)
    ensures ParseLog(s) == if ReadEnd(s).None? then Ok(Readable(s)) else Err(ReadEnd(s).value)
    decreases |s|
  {
    hide ReadRecord;
    if ReadRecord(s).Got? { ParseSplit(ReadRecord(s).rest); }
  }

  /** Number of records that lie entirely within the first `n` bytes. */
  function CompleteRecords(rs: seq<Record>, n: nat): (k: nat)
    ensures k <= |rs|
  {
    if rs == [] || n < |LogBytes(rs[0])| then 0
    else 1 + CompleteRecords(rs[1..], n - |LogBytes(rs[0])|)
  }

  function Prepend(rs: seq<Record>, r: Result<seq<Record>>): Result<seq<Record>> {
    match r case Err(e) => Err(e) case Ok(tail) => Ok(rs + tail)
  }

  lemma ParseStep(r: Record, rest: seq<byte>)
    requires WellFormed(r)
    ensures ParseLog(LogBytes(r) + rest) == Prepend([r], ParseLog(rest))
  {
    ReadBack(r, rest);
  }

  lemma LogBodyPrefix(rs: seq<Record>, k: nat)
    requires 0 < k <= |rs|
    ensures |LogBody(rs[..k])| == |LogBytes(rs[0])| + |LogBody(rs[1..][..k - 1])|
    ensures rs[..k] == [rs[0]] + rs[1..][..k - 1]
  {
    assert rs[..k][1..] == rs[1..][..k - 1];
  }

  lemma PrefixSplit(head: seq<byte>, tail: seq<byte>, n: nat)
    requires |head| <= n <= |head| + |tail|
    ensures (head + tail)[..n] == head + tail[..n - |head|]
  {
  }

  /** The complete records fill the prefix up to a remainder shorter than the next record. */
  lemma {:induction false} CompleteBounds(rs: seq<Record>, n: nat)
    requires n <= |LogBody(rs)|
    ensures var k := CompleteRecords(rs, n);
      |LogBody(rs[..k])| <= n && (k < |rs| ==> n < |LogBody(rs[..k])| + |LogBytes(rs[k])|)
  {
    if rs != [] && n >= |LogBytes(rs[0])| {
      CompleteBounds(rs[1..], n - |LogBytes(rs[0])|);
      LogBodyPrefix(rs, CompleteRecords(rs, n));
    }
  }

  /** The complete records before a cut at byte `n`, or the error of a cut
      inside a Delta's trailing base key. */
  ghost function CutOutcome(rs: seq<Record>, n: nat): Result<seq<Record>> {
    var k := CompleteRecords(rs, n);
    if n - |LogBody(rs[..k])| < 22 then Ok(rs[..k]) else Err(UnexpectedEof)
  }

  lemma CutStep(rs: seq<Record>, n: nat)
    requires rs != [] && n >= |LogBytes(rs[0])|
    ensures CutOutcome(rs, n) == Prepend([rs[0]], CutOutcome(rs[1..], n - |LogBytes(rs[0])|))
  {
    hide LogBytes;
    LogBodyPrefix(rs, CompleteRecords(rs, n));
  }

  lemma CutInFirst(rs: seq<Record>, n: nat)
    requires rs != [] && n < |LogBytes(rs[0])|
    ensures ParseLog(LogBody(rs)[..n]) == CutOutcome(rs, n)
  {
    assert LogBody(rs)[..n] == LogBytes(rs[0])[..n];
    ReadCut(rs[0], n);
  }

  /** Parsing any prefix of a serialised log gives the complete records before
      the cut; only a cut inside a Delta's base key is an error. */
  lemma {:induction false} ParsePrefix(rs: seq<Record>, n: nat)
    requires AllWellFormed(rs) && n <= |LogBody(rs)|
    ensures ParseLog(LogBody(rs)[..n]) == CutOutcome(rs, n)
  {
    if rs == [] {
    } else if n < |LogBytes(rs[0])| {
      CutInFirst(rs, n);
    } else {
      hide LogBytes, ParseLog, CutOutcome;
      var head, tail := LogBytes(rs[0]), rs[1..];
      ParsePrefix(tail, n - |head|);
      PrefixSplit(head, LogBody(tail), n);
      ParseStep(rs[0], LogBody(tail)[..n - |head|]);
      CutStep(rs, n);
    }
  }

  lemma {:induction false} CompleteAtEnd(rs: seq<Record>)
    ensures CompleteRecords(rs, |LogBody(rs)|) == |rs|
  {
    if rs != [] { CompleteAtEnd(rs[1..]); }
  }

  lemma {:induction false} ParseWhole(rs: seq<Record>)
    requires AllWellFormed(rs)
    ensures ParseLog(LogBody(rs)) == Ok(rs)
  {
    hide LogBytes, ParseLog;
    CompleteAtEnd(rs);
    ParsePrefix(rs, |LogBody(rs)|);
    assert LogBody(rs)[..|LogBody(rs)|] == LogBody(rs) && rs[..|rs|] == rs;
  }

  lemma {:induction false} LogBodyAppend(a: seq<Record>, b: seq<Record>)
    ensures LogBody(a + b) == LogBody(a) + LogBody(b)
  {
    hide LogBytes;
    if a == [] {
      assert a + b == b;
    } else {
      LogBodyAppend(a[1..], b);
      assert (a + b)[1..] == a[1..] + b;
      var h, t, e := LogBytes(a[0]), LogBody(a[1..]), LogBody(b);
      assert h + (t + e) == (h + t) + e;
    }
  }

  /* ---- what any bytes that parse look like ---- */

  lemma KindRoundTrip(b: byte)
    ensures KindOf(b).Some? ==> KindByte(KindOf(b).value) == b
  {
  }

  /** A record that was read fits its fields, and its log form is what was read. */
  lemma ReadShape(s: seq<byte>)
    ensures match ReadRecord(s)
      case Got(r, rest) => WellFormed(r) && s == LogBytes(r) + rest
      case Eof => |s| < LOG_RECORD_BASE_SIZE
      case Bad(_) => true
  {
    hide LE, FromLE;
    if ReadRecord(s).Got? {
      KindRoundTrip(s[8]);
      FieldRange(s[0..8]);
      FieldRange(s[10..18]);
      FieldRange(s[18..22]);
      if KindOf(s[8]) == Some(Delta) {
        FieldRange(s[22..30]);
        assert s == s[0..8] + [s[8], s[9]] + s[10..18] + s[18..22] + s[22..30] + s[30..];
      } else {
        assert s == s[0..8] + [s[8], s[9]] + s[10..18] + s[18..22] + [] + s[22..];
      }
    }
  }

  /** Bytes that parse are the log form of the records, then less than one more record. */
  lemma {:induction false} ParseShape(s: seq<byte>, rs: seq<Record>)
    requires ParseLog(s) == Ok(rs)
    ensures AllWellFormed(rs)
    ensures |LogBody(rs)| <= |s| < |LogBody(rs)| + LOG_RECORD_BASE_SIZE && s[..|LogBody(rs)|] == LogBody(rs)
    decreases |s|
  {
    hide LogBytes, WellFormed, ReadRecord;
    ReadShape(s);
    if ReadRecord(s).Got? {
      var Got(r, rest) := ReadRecord(s);
      var tail := ParseLog(rest).value;
      ParseShape(rest, tail);
      assert rs == [r] + tail && rs[1..] == tail;
      PrefixSplit(LogBytes(r), rest, |LogBody(rs)|);
    }
  }

  lemma {:induction false} ParseAfter(rs: seq<Record>, rest: seq<byte>)
    requires AllWellFormed(rs)
    ensures ParseLog(LogBody(rs) + rest) == Prepend(rs, ParseLog(rest))
  {
    hide LogBytes, ParseLog, WellFormed;
    if rs == [] {
      assert LogBody(rs) + rest == rest;
      assert forall tail: seq<Record> :: [] + tail == tail;
    } else {
      ParseAfter(rs[1..], rest);
      ParseStep(rs[0], LogBody(rs[1..]) + rest);
      assert LogBody(rs) + rest == LogBytes(rs[0]) + (LogBody(rs[1..]) + rest);
      assert forall tail: seq<Record> :: rs + tail == [rs[0]] + (rs[1..] + tail);
    }
  }

  /** Records appended to the body, whatever they are, are read back after the old ones. */
  ghost predicate AppendsCleanly(body: seq<byte>, rs: seq<Record>) {
    forall added :: AllWellFormed(added) ==> ParseLog(body + LogBody(added)) == Ok(rs + added)
  }

  /** Appending to a log is sound exactly when it does not end in a partial record,
      which reading silently takes for the end of the file. */
  lemma {:induction false} AppendsCleanlyIff(body: seq<byte>, rs: seq<Record>)
    requires ParseLog(body) == Ok(rs)
    ensures AppendsCleanly(body, rs) <==> |body| == |LogBody(rs)|
  {
    hide ParseLog, LogBody, WellFormed;
    ParseShape(body, rs);
    if |body| == |LogBody(rs)| {
      assert body == LogBody(rs);
      forall added | AllWellFormed(added) ensures ParseLog(body + LogBody(added)) == Ok(rs + added) {
        LogBodyAppend(rs, added);
        ParseWhole(rs + added);
      }
    } else {
      TailSpoils(body, rs);
    }
  }

  /** Behind a partial record, the next record is read from the wrong place. */
  lemma TailSpoils(body: seq<byte>, rs: seq<Record>)
    requires AllWellFormed(rs) && |LogBody(rs)| < |body| && body[..|LogBody(rs)|] == LogBody(rs)
    ensures !AppendsCleanly(body, rs)
  {
    hide ParseLog, LogBody, LogBytes;
    var tail := body[|LogBody(rs)|..];
    var r := NewZero(if tail[0] == 0 then 1 else 0);
    OneRecordFits(r);
    var rest := tail + LogBytes(r);
    assert body + LogBody([r]) == LogBody(rs) + rest;
    ParseAfter(rs, rest);
    TailShifts(rest, r);
    var p := ParseLog(rest);
    if p.Ok? { assert (rs + p.value)[|rs|..] == p.value && (rs + [r])[|rs|..] == [r]; }
  }

  lemma OneRecordFits(r: Record)
    requires WellFormed(r)
    ensures AllWellFormed([r]) && LogBody([r]) == LogBytes(r)
  {
    assert LogBody([r]) == LogBytes(r) + LogBody([r][1..]);
  }

  lemma TailShifts(s: seq<byte>, r: Record)
    requires |s| >= LOG_RECORD_BASE_SIZE && r.key % 256 != s[0]
    ensures ParseLog(s) != Ok([r])
  {
    hide FromLE;
    if ReadRecord(s).Got? {
      var Got(first, rest) := ReadRecord(s);
      LowByte(s[0..8]);
      assert first.key % 256 == s[0];
      if ParseLog(rest).Ok? { assert ([first] + ParseLog(rest).value)[0] == first; }
    }
  }

  lemma LowByte(s: seq<byte>)
    requires s != []
    ensures FromLE(s) % 256 == s[0]
  {
  }

  /** The shared read loop: `while let Some(rec) = read_from(..)? { push }`. */
  method ReadRecords(body: seq<byte>) returns (r: Result<seq<Record>>)
    ensures r == ParseLog(body)
  {
    var rest, records := body, [];
    assert forall rs: seq<Record> :: records + rs == rs;
    while true
      invariant ParseLog(body) == Prepend(records, ParseLog(rest))
      decreases |rest|
    {
      match ReadRecord(rest) {
        case Eof =>
          assert records + [] == records;
          return Ok(records);
        case Bad(e) => return Err(e);
        case Got(rec, tail) =>
          assert forall rs: seq<Record> :: records + ([rec] + rs) == records + [rec] + rs;
          rest, records := tail, records + [rec];
      }
    }
  }

  /** copy_from_slice into a sub-range of a buffer. */
  method CopyInto(buf: array<byte>, at: nat, src: seq<byte>)
    requires at + |src| <= buf.Length
    modifies buf
    ensures buf[..] == old(buf[..at]) + src + old(buf[at + |src|..])
    ensures buf[at..at + |src|] == src
    ensures forall i :: 0 <= i < buf.Length && !(at <= i < at + |src|) ==> buf[i] == old(buf[i])
  {
    forall i | 0 <= i < |src| { buf[at + i] := src[i]; }
  }

  method WriteTo(r: Record) returns (out: seq<byte>)
    ensures out == LogBytes(r)
  {
    hide LE, KindByte;
    var buf := new byte[30](_ => 0);
    CopyInto(buf, 0, LE(r.key, 8));
    buf[8] := KindByte(r.kind);
    buf[9] := r.workerId;
    CopyInto(buf, 10, LE(r.offset, 8));
    CopyInto(buf, 18, LE(r.len, 4));
    assert buf[0..8] == LE(r.key, 8) && buf[10..18] == LE(r.offset, 8);
    ghost var common := LE(r.key, 8) + [KindByte(r.kind), r.workerId] + LE(r.offset, 8) + LE(r.len, 4);
    assert buf[..22] == common;
    if r.kind == Delta {
      CopyInto(buf, 22, LE(r.baseKey, 8));
      assert buf[..22] == common;
      out := buf[..30];
      assert out == common + LE(r.baseKey, 8);
    } else {
      out := buf[..22];
      assert out == common + [];
    }
  }

  method EncodeFixed(r: Record, buf: array<byte>)
    requires buf.Length == FIXED_RECORD_SIZE
    modifies buf
    ensures buf[..] == FixedBytes(r)
  {
    hide LE, KindByte;
    forall i | 0 <= i < buf.Length { buf[i] := 0; }
    assert buf[..] == seq(32, _ => 0);
    CopyInto(buf, 0, LE(r.key, 8));
    assert buf[..] == LE(r.key, 8) + seq(24, _ => 0);
    CopyInto(buf, 8, LE(r.baseKey, 8));
    ghost var keys := LE(r.key, 8) + LE(r.baseKey, 8);
    assert buf[..] == keys + seq(16, _ => 0);
    CopyInto(buf, 16, LE(r.offset, 8));
    assert buf[..] == keys + LE(r.offset, 8) + seq(8, _ => 0);
    CopyInto(buf, 24, LE(r.len, 4));
    ghost var fields := keys + LE(r.offset, 8) + LE(r.len, 4);
    assert buf[..] == fields + seq(4, _ => 0);
    buf[28] := KindByte(r.kind);
    buf[29] := r.workerId;
    assert buf[..] == fields + [KindByte(r.kind), r.workerId] + [0, 0];
  }
}
