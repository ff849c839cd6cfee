/** What loads give in every reachable state, in terms of the saves behind the log:
    with an index that has become stale, and while a handle still buffers blobs. */
module Loads {
  import opened Words
  import opened Chunk
  import opened Patch
  import opened Index
  import opened Store
  import opened Convert
  import opened Purge
  import opened Database
  import opened Refinement
  import opened Sync
  import opened Invariants

  function Min(a: nat, b: nat): nat { if a < b then a else b }

  /* ---- a stale index ---- */

  /** A Delta made after the index: its base is not there. */
  ghost predicate TooLate(d: Disk, r: Record) {
    d.index.Some? && r.kind == Delta && SnapOf(r.key) > d.index.value.header
  }

  /** Through the records a reader goes by, a record of the log resolves as it does
      through the log, over any blob files, except a Delta later than a stale index. */
  lemma {:induction false} ResolveConsulted(c: Codec, ops: seq<Op>, d: Db, blobs: Blobs, r: Record)
    requires CodecOk(c) && Reaches(c, ops, d) && d.disk.log.Some? && r in d.disk.log.value.records
    ensures Resolve(c, Consulted(d.disk), blobs, r) ==
      if TooLate(d.disk, r) then Err(BaseMissing) else Resolve(c, d.disk.log.value.records, blobs, r)
  {
    hide Reaches, First, IndexOf, SnapOf, PaOf, Decompress, ApplyPatch, ReadBlob, Keep, SessionLate;
    var log := d.disk.log.value.records;
    if d.disk.index.Some? {
      IndexLookup(c, ops, d, r.baseKey);
      RunSync(c, ops, d);
      if r.kind == Delta { ReachableDeltas(c, ops, d, r); }
    } else {
      IndexKeepsFirst(log);
      assert First(IndexOf(log), r.baseKey) == First(log, r.baseKey);
    }
  }

  /** `part` finds a key as `whole` does up to a header, and nothing above it. */
  ghost predicate FoundUpTo(part: seq<Record>, whole: seq<Record>, header: nat) {
    forall k: nat :: First(part, k) == if SnapOf(k) <= header then First(whole, k) else None
  }

  lemma {:induction false} FloorUpTo(part: seq<Record>, whole: seq<Record>, header: nat, pa: nat, snap: nat)
    requires FoundUpTo(part, whole, header) && snap < SNAPSHOTS
    ensures FloorRec(part, pa, snap) == FloorRec(whole, pa, Min(snap, header))
    decreases snap
  {
    hide First, SnapOf;
    var k := KeyFor(pa, snap);
    KeyForSnap(pa, snap);
    assert First(part, k) == if snap <= header then First(whole, k) else None;
    if snap > 0 { FloorUpTo(part, whole, header, pa, snap - 1); }
  }

  /** The record a load goes by: the log's floor at the lower of the request and the
      index header, or at the request when there is no index. */
  lemma {:induction false} ConsultedFloor(c: Codec, ops: seq<Op>, d: Db, pa: nat, snap: nat)
    requires CodecOk(c) && Reaches(c, ops, d) && (d.disk.index.Some? || d.disk.log.Some?) && snap < SNAPSHOTS
    ensures d.disk.log.Some?
    ensures FloorRec(Consulted(d.disk), pa, snap) == FloorRec(d.disk.log.value.records, pa, Reach(d.disk, snap))
  {
    hide Reaches, First, FloorRec, SnapOf, IndexOf;
    if d.disk.index.Some? {
      forall k: nat
        ensures d.disk.log.Some?
        ensures First(d.disk.index.value.records, k) ==
          if SnapOf(k) <= d.disk.index.value.header then First(d.disk.log.value.records, k) else None
      {
        IndexLookup(c, ops, d, k);
      }
      IndexLookup(c, ops, d, 0);
      FloorUpTo(d.disk.index.value.records, d.disk.log.value.records, d.disk.index.value.header, pa, snap);
    } else {
      IndexKeepsFirst(d.disk.log.value.records);
      FloorSame(IndexOf(d.disk.log.value.records), d.disk.log.value.records, pa, snap);
    }
  }

  /** How far a load for `snap` sees. */
  function Reach(d: Disk, snap: nat): nat {
    if d.index.Some? then Min(snap, d.index.value.header) else snap
  }

  /** A load goes by the record it should exactly when no record of the page between
      the index header and the request is in the log. */
  lemma {:induction false} LoadsFreshIff(c: Codec, ops: seq<Op>, d: Db, pa: nat, snap: nat)
    requires CodecOk(c) && Reaches(c, ops, d) && (d.disk.index.Some? || d.disk.log.Some?) && snap < SNAPSHOTS
    ensures d.disk.log.Some?
    ensures FloorRec(Consulted(d.disk), pa, snap) == FloorRec(d.disk.log.value.records, pa, snap) <==>
      d.disk.index.None? ||
      forall r :: r in d.disk.log.value.records && Below(r, pa, snap) ==> SnapOf(r.key) <= d.disk.index.value.header
  {
    hide Reaches, First, FloorRec, SnapOf, Consulted;
    ConsultedFloor(c, ops, d, pa, snap);
    if d.disk.index.Some? {
      var log, header := d.disk.log.value.records, d.disk.index.value.header;
      var upto := Min(snap, header);
      FloorIsGreatest(log, pa, snap);
      FloorIsGreatest(log, pa, upto);
      if forall r :: r in log && Below(r, pa, snap) ==> SnapOf(r.key) <= header {
        SameFloor(log, pa, snap, upto);
      }
    }
  }

  lemma SameFloor(rs: seq<Record>, pa: nat, snap: nat, upto: nat)
    requires upto <= snap < SNAPSHOTS && forall r :: r in rs && Below(r, pa, snap) ==> SnapOf(r.key) <= upto
    ensures FloorRec(rs, pa, snap) == FloorRec(rs, pa, upto)
  {
    hide First, FloorRec, SnapOf;
    FloorIsGreatest(rs, pa, upto);
    match FloorRec(rs, pa, upto) {
      case None => FloorNone(rs, pa, snap);
      case Some(r) => FloorUnique(rs, pa, snap, r);
    }
  }

  /** In every reachable state a load gives, of the saves behind the log, the newest
      that had the page dirty, at or below the request and the index header. */
  lemma {:induction false} LoadsFollowLog(c: Codec, ops: seq<Op>, d: Db, pa: nat, snap: nat)
    requires CodecOk(c) && Reaches(c, ops, d) && (d.disk.index.Some? || d.disk.log.Some?) && snap <= MAX_SNAPSHOT_ID
    ensures AbsRun(ops).log.Some?
    ensures ReadPage(c, d.disk, pa, snap) == Ok(Newest(AbsRun(ops).log.value, pa, Reach(d.disk, snap)))
  {
    hide Reaches, First, FloorRec, SnapOf, Consulted, Resolve, SessionOk, IndexOk, LogSorted, SnapshotOrdered,
      NoOverlap,
      Represents, Newest, Increasing;
    RunRefines(c, ops, d);
    ConsultedFloor(c, ops, d, pa, snap);
    var log, h, upto := d.disk.log.value.records, AbsRun(ops).log.value, Reach(d.disk, snap);
    LoadIsNewest(c, log, d.disk.blobs, h, pa, upto);
    FloorIsGreatest(log, pa, upto);
    match FloorRec(log, pa, upto) {
      case None =>
      case Some(r) => ResolveConsulted(c, ops, d, d.disk.blobs, r);
    }
  }

  /** `to_log` gives back the log it replaces, up to order, exactly when no save has
      followed the conversion; otherwise what followed is dropped. */
  lemma {:induction false} ToLogKeepsIff(c: Codec, ops: seq<Op>, d: Db)
    requires CodecOk(c) && Reaches(c, ops, d) && d.disk.index.Some?
    ensures d.disk.log.Some?
    ensures SameRecords(Relogged(d.disk.index.value).records, d.disk.log.value.records) <==>
      d.disk.log.value.header <= d.disk.index.value.header
    ensures SameRecords(Relogged(d.disk.index.value).records,
                        Keep(d.disk.log.value.records, d.disk.index.value.header))
  {
    hide Reaches, Keep, Regroup, LogSorted, Represents, SnapshotOrdered, NoOverlap, HistoryOk, StrictKeys, SessionOk,
      LateBases, SessionLate, SnapOf;
    RunRefines(c, ops, d);
    RunSync(c, ops, d);
    var index, log, a := d.disk.index.value, d.disk.log.value, AbsRun(ops);
    IndexFits(c, index, d.disk.blobs, a.index.value);
    RegroupFacts(index.records);
    KeepMembers(log.records, index.header);
    HighestSnap(log.records, log.header);
  }

  /* ---- blobs still in a writer's buffer ---- */

  ghost predicate RangeWritten(written: Written, r: Record) {
    r.workerId in written && r.offset + r.len <= written[r.workerId]
  }

  /** All that resolving the record reads has been written out. */
  ghost predicate RecordWritten(written: Written, rs: seq<Record>, r: Record) {
    r.kind == Zero ||
    (RangeWritten(written, r) &&
     (r.kind == Delta ==> First(rs, r.baseKey).Some? && RangeWritten(written, First(rs, r.baseKey).value)))
  }

  /** Nothing that a load for (pa, snap) reads is still in a buffer. */
  ghost predicate LoadWritten(d: Db, pa: nat, snap: nat) {
    d.session.None? || (d.disk.index.None? && d.disk.log.None?) || snap > MAX_SNAPSHOT_ID ||
    match FloorRec(Consulted(d.disk), pa, snap)
    case None => true
    case Some(r) => RecordWritten(d.session.value.written, Consulted(d.disk), r)
  }

  lemma CutBlob(blobs: Blobs, written: Written, r: Record)
    requires WrittenOk(written, blobs) && ReadBlob(blobs, r).Ok?
    ensures ReadBlob(CutAt(blobs, written), r) ==
      if RangeWritten(written, r) then ReadBlob(blobs, r) else Err(BlobOutOfRange)
  {
    var file, cut := blobs[r.workerId], CutAt(blobs, written)[r.workerId];
    assert cut == file[..written[r.workerId]];
    if RangeWritten(written, r) {
      assert cut[r.offset..r.offset + r.len] == file[r.offset..r.offset + r.len];
    }
  }

  lemma CutResolve(c: Codec, rs: seq<Record>, blobs: Blobs, written: Written, r: Record)
    requires WrittenOk(written, blobs) && Shape(rs, r) && Resolve(c, rs, blobs, r).Ok?
    ensures Resolve(c, rs, CutAt(blobs, written), r) ==
      if RecordWritten(written, rs, r) then Resolve(c, rs, blobs, r) else Err(BlobOutOfRange)
  {
    hide First, ApplyPatch, CutAt, WrittenOk, ReadBlob;
    ResolvedBlobs(c, rs, blobs, r);
    if r.kind != Zero { CutBlob(blobs, written, r); }
    if r.kind == Delta { CutBlob(blobs, written, First(rs, r.baseKey).value); }
  }

  /** The records a load goes by represent a history over all that was appended. */
  lemma ConsultedGood(c: Codec, d: Db, a: Abs) returns (h: History)
    requires Refines(c, d, a) && (d.disk.index.Some? || d.disk.log.Some?)
    ensures Represents(c, Consulted(d.disk), d.disk.blobs, h)
  {
    hide Represents, SessionOk, LogSorted, SnapshotOrdered, NoOverlap, HistoryOk, StrictKeys, IndexOf, First;
    if d.disk.index.Some? {
      h := a.index.value;
    } else {
      h := a.log.value;
      IndexKeepsFirst(d.disk.log.value.records);
      RepresentsSame(c, d.disk.log.value.records, d.disk.blobs, h, IndexOf(d.disk.log.value.records));
    }
  }

  /** What others find on disk while a handle is open: a load gives what it would once
      everything is written out, if all it reads is; otherwise it runs out of the file. */
  lemma {:induction false} LoadOnDisk(c: Codec, ops: seq<Op>, d: Db, pa: nat, snap: nat)
    requires CodecOk(c) && Reaches(c, ops, d)
    ensures ReadPage(c, OnDisk(d), pa, snap) ==
      if LoadWritten(d, pa, snap) then ReadPage(c, d.disk, pa, snap) else Err(BlobOutOfRange)
    ensures !LoadWritten(d, pa, snap) ==> ReadPage(c, d.disk, pa, snap).Ok? && ReadPage(c, d.disk, pa, snap).value.Some?
  {
    hide Reaches, First, FloorRec, Resolve, LogOk, IndexOk, ShadowOk, ShadowFresh, ShadowNewest, RecordWritten, CutAt,
      Version, IndexOf, WrittenOk;
    if d.session.Some? && (d.disk.index.Some? || d.disk.log.Some?) && snap <= MAX_SNAPSHOT_ID {
      RunRefines(c, ops, d);
      var rs := Consulted(d.disk);
      var h := ConsultedGood(c, d, AbsRun(ops));
      FloorIsGreatest(rs, pa, snap);
      match FloorRec(rs, pa, snap) {
        case None =>
        case Some(r) =>
          assert StoredAs(c, rs, d.disk.blobs, r, Version(h, r.key).value);
          CutResolve(c, rs, d.disk.blobs, d.session.value.written, r);
      }
    }
  }

  /** A load finds what the history promises exactly when all it reads is written out. */
  lemma {:induction false} LoadRightIff(c: Codec, ops: seq<Op>, d: Db, pa: nat, snap: nat)
    requires CodecOk(c) && Reaches(c, ops, d)
    ensures ReadPage(c, OnDisk(d), pa, snap) == AbsRead(AbsRun(ops), pa, snap) <==> LoadWritten(d, pa, snap)
  {
    hide Reaches, ReadPage, LoadWritten, Newest, AbsRun;
    LoadOnDisk(c, ops, d, pa, snap);
    ReadsAreCorrect(c, ops, d, pa, snap);
  }

  /** After `flush`, and whenever no handle is open, the files hold all that was appended. */
  lemma {:induction false} NothingBuffered(c: Codec, ops: seq<Op>, d: Db)
    requires CodecOk(c) && Reaches(c, ops, d) && (d.session.None? || (ops != [] && ops[|ops| - 1] == Flush))
    ensures OnDisk(d) == d.disk
  {
    hide DbStep, OpFits, CutAt, AllWritten;
    if d.session.Some? {
      var d0 :| Reaches(c, ops[..|ops| - 1], d0) && DbStep(c, d0, Flush, d);
      FlushWrites(c, d0, d);
    }
  }

  lemma FlushWrites(c: Codec, d: Db, d': Db)
    requires DbStep(c, d, Flush, d')
    ensures OnDisk(d') == d'.disk
  {
    CutNothing(d.disk.blobs);
  }

  lemma CutNothing(blobs: Blobs)
    ensures CutAt(blobs, AllWritten(blobs)) == blobs
  {
    var cut := CutAt(blobs, AllWritten(blobs));
    assert cut.Keys == blobs.Keys;
    forall w | w in blobs ensures cut[w] == blobs[w] { assert blobs[w][..|blobs[w]|] == blobs[w]; }
  }
}
