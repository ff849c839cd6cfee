/** What every reachable database keeps, beyond the correctness of reads. */
module Invariants {
  import opened Words
  import opened Chunk
  import opened Index
  import opened Store
  import opened SavePhase
  import opened Convert
  import opened Purge
  import opened Database
  import opened SaveStep
  import opened Refinement
  import opened Sync

  lemma {:induction false} DedupOfStrict(rs: seq<Record>)
    requires StrictKeys(rs)
    ensures DedupByKey(rs) == rs
  {
    if |rs| >= 2 {
      DedupOfStrict(rs[1..]);
      assert rs == [rs[0]] + rs[1..];
    }
  }

  /** In every reachable state the log is strictly increasing in (snapshot, PA),
      so its keys are unique and deduplication removes nothing, and the header
      holds the maximum snapshot, 0 for an empty log. */
  lemma {:induction false} ReachableLogOrder(c: Codec, ops: seq<Op>, d: Db)
    requires CodecOk(c) && Reaches(c, ops, d) && d.disk.log.Some?
    ensures var t := d.disk.log.value;
      && LogSorted(t.records) && UniqueKeys(t.records)
      && IndexOf(t.records) == SortByKey(t.records)
      && t.header == MaxSnap(t.records)
  {
    hide Reaches, SessionOk, IndexOk, Represents, SnapOf, DedupByKey, SortByKey, LogSorted, SnapshotOrdered, NoOverlap;
    RunRefines(c, ops, d);
    var t := d.disk.log.value;
    SortedUnique(t.records);
    SortStrict(t.records);
    DedupOfStrict(SortByKey(t.records));
  }

  /** In every reachable state each Delta's base is an earlier Full record of the
      same page in the same worker file, so resolving takes at most one hop. */
  lemma {:induction false} ReachableDeltas(c: Codec, ops: seq<Op>, d: Db, r: Record)
    requires CodecOk(c) && Reaches(c, ops, d) && d.disk.log.Some?
    requires r in d.disk.log.value.records && r.kind == Delta
    ensures var base := First(d.disk.log.value.records, r.baseKey);
      && GoodBase(base, r)
      && base.value in d.disk.log.value.records
      && Decompress(c, d.disk.blobs, base.value).Ok?
  {
    hide Reaches, SessionOk, IndexOk, SnapOf, PaOf, LogSorted, SnapshotOrdered, NoOverlap, Version, First, ReadBlob;
    RunRefines(c, ops, d);
    var rs := d.disk.log.value.records;
    SortedUnique(rs);
    var i :| 0 <= i < |rs| && rs[i] == r;
    FirstOfUnique(rs, i);
    var h := AbsRun(ops).log.value;
    assert StoredAs(c, rs, d.disk.blobs, r, Version(h, r.key).value);
  }

  /** In every reachable state each shadow entry is the newest Full record of its
      page that this session wrote, with exactly the page it decompresses to. */
  lemma {:induction false} ReachableShadow(c: Codec, ops: seq<Op>, d: Db, pa: nat)
    requires CodecOk(c) && Reaches(c, ops, d) && d.session.Some? && pa in d.session.value.shadow
    ensures d.disk.log.Some?
    ensures var rs, sess, e := d.disk.log.value.records, d.session.value, d.session.value.shadow[pa];
      && EntryOk(c, sess.cfg, rs, d.disk.blobs, pa, e)
      && InSession(rs, sess.logStart, e.key)
      && (sess.cfg.useShadow ==>
            forall i :: sess.logStart <= i < |rs| && rs[i].kind == Full && PaOf(rs[i].key) == pa ==>
              SnapOf(rs[i].key) <= SnapOf(e.key))
  {
    hide Reaches, LogOk, IndexOk, EntryOk;
    RunRefines(c, ops, d);
  }

  ghost predicate WroteFull(rs: seq<Record>, logStart: nat, pa: nat) {
    exists i :: logStart <= i < |rs| && rs[i].kind == Full && PaOf(rs[i].key) == pa
  }

  /** With the shadow on, a page has an entry exactly when this session wrote a Full record for it. */
  lemma {:induction false} ShadowKnowsIff(c: Codec, ops: seq<Op>, d: Db, pa: nat)
    requires CodecOk(c) && Reaches(c, ops, d) && d.session.Some? && d.session.value.cfg.useShadow
    ensures d.disk.log.Some?
    ensures pa in d.session.value.shadow <==> WroteFull(d.disk.log.value.records, d.session.value.logStart, pa)
  {
    hide Reaches, TableOk, IndexOk, PaOf, SnapOf, First, Decompress, LogSorted;
    RunRefines(c, ops, d);
    var rs, sess := d.disk.log.value.records, d.session.value;
    if pa in sess.shadow {
      var key := sess.shadow[pa].key;
      assert EntryOk(c, sess.cfg, rs, d.disk.blobs, pa, sess.shadow[pa]);
      var i :| sess.logStart <= i < |rs| && rs[i].key == key;
      SortedUnique(rs);
      FirstOfUnique(rs, i);
    }
  }

  /* ---- blob files of databases that never lost records ---- */

  /** A run without purges, in which `to_log` is only used while the index is as
      new as the log: records are never dropped. */
  ghost predicate KeepsAll(ops: seq<Op>) {
    ops == [] || (
      var before, op := ops[..|ops| - 1], ops[|ops| - 1];
      && KeepsAll(before)
      && !op.PurgeOp?
      && (op.ToLogOp? ==> UpToDate(AbsRun(before))))
  }

  ghost predicate UpToDate(a: Abs) {
    a.index.Some? && a.log.Some? ==> LastId(a.index.value) == LastId(a.log.value)
  }

  ghost function LogRecords(d: Disk): seq<Record> {
    if d.log.Some? then d.log.value.records else []
  }

  /** Every blob file is exactly the blobs of the log's records. */
  ghost predicate Layout(d: Disk) {
    forall w :: w in d.blobs ==> FileTiled(LogRecords(d), d.blobs[w], w)
  }

  lemma TiledFileSame(a: seq<Record>, b: seq<Record>, file: seq<byte>, w: byte)
    requires FileTiled(a, file, w) && SameRecords(a, b)
    ensures FileTiled(b, file, w)
  {
    hide CoversByte;
    forall o: nat ensures HasByte(a, w, o) <==> HasByte(b, w, o) {}
  }

  lemma OpenKeepsTiling(c: Codec, d: Db, a: Abs, workers: nat, threshold: nat, useShadow: bool)
    requires Refines(c, d, a) && Layout(d.disk)
    ensures Layout(OpenDb(d, workers, threshold, useShadow).disk)
  {
    hide SessionOk, IndexOk;
    if d.session.None? && 1 <= workers <= 255 {
      var rs := LogRecords(d.disk);
      var blobs := OpenBlobs(d.disk.blobs, workers);
      forall w | w in blobs ensures FileTiled(rs, blobs[w], w) {
        if w in d.disk.blobs {
          assert FileTiled(rs, d.disk.blobs[w], w);
        } else {
          NoFileNoBytes(c, d, a, w);
        }
      }
    }
  }

  lemma NoFileNoBytes(c: Codec, d: Db, a: Abs, w: byte)
    requires Refines(c, d, a) && w !in d.disk.blobs
    ensures forall o: nat :: !HasByte(LogRecords(d.disk), w, o)
  {
    hide LogOk, IndexOk, SessionOk;
    if d.disk.log.Some? {
      var t := d.disk.log.value;
      LogInFiles(c, t, d.disk.blobs, a.log.value);
      forall o: nat ensures !HasByte(t.records, w, o) {
        forall r | r in t.records ensures !CoversByte(r, w, o) {
          assert r.kind != Zero ==> ReadBlob(d.disk.blobs, r).Ok?;
        }
      }
    }
  }

  lemma SaveTiles(c: Codec, d: Db, a: Abs, req: Request, id: nat, d': Db)
    requires CodecOk(c) && Refines(c, d, a) && RequestFits(req) && SaveNext(c, d, req, id, d')
    requires Layout(d.disk)
    ensures Layout(d'.disk)
  {
    hide JobsOf, PagesOf, LogOk, IndexOk, SessionOk, JobsOk, Runs, FileTiled, SameRecords;
    if d.session.Some? && d.disk.log.Some? && Admit(d.session.value.last, id).None?
       && JobsOf(req).Ok? && JobsOf(req).value != []
    {
      var sess, t := d.session.value, d.disk.log.value;
      JobsAscend(req);
      var x := Context(c, sess.cfg, id, JobsOf(req).value);
      var s, written :| Finishes(x, d.disk.blobs, sess.shadow, s)
        && WritesOn(sess.written, written, s.blobs) && d' == AfterSave(d, id, s, written);
      FinishedSave(x, t, d.disk.blobs, a.log.value, sess, s);
      SameFiles(x, t, d.disk.blobs, a.log.value, sess, s);
      hide Saved;
      forall w | w in s.blobs ensures FileTiled(t.records + Records(s), s.blobs[w], w) {
        SaveKeepsTiling(x, t, d.disk.blobs, a.log.value, sess, s, w);
      }
    }
  }

  lemma SameFiles(x: Context, t: Table, blobs: Blobs, h: History, sess: Session, s: Phase)
    requires Saved(x, t, blobs, h, sess, s)
    ensures s.blobs.Keys == blobs.Keys
  {
  }

  /** An index as new as the log holds the same records. */
  lemma UpToDateSame(c: Codec, d: Db, a: Abs)
    requires Refines(c, d, a) && InSync(d) && UpToDate(a) && d.disk.index.Some?
    ensures d.disk.log.Some? && SameRecords(d.disk.log.value.records, d.disk.index.value.records)
  {
    hide Keep, Represents, SnapshotOrdered, NoOverlap, HistoryOk, LogSorted, StrictKeys, SessionOk, LateBases,
      SessionLate,
      SnapOf, LastId;
    var index, log := d.disk.index.value, d.disk.log.value;
    HeaderIsLast(c, index, d.disk.blobs, a.index.value);
    HeaderIsLast(c, log, d.disk.blobs, a.log.value);
    KeepMembers(log.records, index.header);
  }

  lemma StepTiles(c: Codec, d: Db, a: Abs, op: Op, d': Db)
    requires CodecOk(c) && OpFits(op) && Refines(c, d, a) && DbStep(c, d, op, d') && InSync(d) && Layout(d.disk)
    requires !op.PurgeOp? && (op.ToLogOp? ==> UpToDate(a))
    ensures Layout(d'.disk)
  {
    hide LogOk, IndexOk, SessionOk, SaveNext, OpenDb, IndexOf, Regroup, MaxSnap, FileTiled, InSync, UpToDate;
    match op {
      case Open(workers, threshold, useShadow) => OpenKeepsTiling(c, d, a, workers, threshold, useShadow);
      case Close =>
      case Flush =>
      case SavePages(req, id) => SaveTiles(c, d, a, req, id, d');
      case ToBtreeOp =>
      case ToLogOp =>
        if d.session.None? && d.disk.index.Some? {
          var index := d.disk.index.value;
          IndexFits(c, index, d.disk.blobs, a.index.value);
          RegroupFacts(index.records);
          UpToDateSame(c, d, a);
          forall w | w in d.disk.blobs ensures FileTiled(Regroup(index.records), d.disk.blobs[w], w) {
            TiledFileSame(d.disk.log.value.records, Regroup(index.records), d.disk.blobs[w], w);
          }
        }
    }
  }

  lemma {:induction false} RunTiles(c: Codec, ops: seq<Op>, d: Db)
    requires CodecOk(c) && Reaches(c, ops, d) && KeepsAll(ops)
    ensures Layout(d.disk)
  {
    hide DbStep, OpFits, UpToDate;
    if ops != [] {
      hide Layout;
      var before, op := ops[..|ops| - 1], ops[|ops| - 1];
      var d0 :| Reaches(c, before, d0) && DbStep(c, d0, op, d);
      RunTiles(c, before, d0);
      RunRefines(c, before, d0);
      RunSync(c, before, d0);
      StepTiles(c, d0, AbsRun(before), op, d);
    }
  }

  /** On a database built by saves and conversions, blobs lie in snapshot order
      without overlap, and every worker file is exactly its records' blobs. */
  lemma {:induction false} CleanRunLayout(c: Codec, ops: seq<Op>, d: Db, w: byte)
    requires CodecOk(c) && Reaches(c, ops, d) && KeepsAll(ops) && d.disk.log.Some? && w in d.disk.blobs
    ensures SnapshotOrdered(d.disk.log.value.records) && NoOverlap(d.disk.log.value.records)
    ensures FileTiled(d.disk.log.value.records, d.disk.blobs[w], w)
  {
    hide Reaches, KeepsAll, SessionOk, IndexOk, Represents, SnapshotOrdered, NoOverlap, LogSorted, FileTiled;
    RunTiles(c, ops, d);
    RunRefines(c, ops, d);
  }

  /* ---- purging ---- */

  /** There is a record to remove; otherwise a purge writes nothing. */
  ghost predicate Removes(d: Disk, t: nat) {
    (d.index.Some? || d.log.Some?) && |Keep(Consulted(d), t)| != |Consulted(d)|
  }

  lemma PurgeIdle(d: Disk, t: nat)
    requires !Removes(d, t)
    ensures PurgeDisk(d, t) == d
  {
  }

  /** A purge that removes anything keeps exactly the log's records up to the threshold,
      also when it goes by a stale index. */
  lemma {:induction false} PurgedLog(c: Codec, ops: seq<Op>, d: Db, t: nat)
    requires CodecOk(c) && Reaches(c, ops, d) && d.disk.log.Some? && Removes(d.disk, t)
    ensures var kept, d' := Keep(IndexOf(d.disk.log.value.records), t), PurgeDisk(d.disk, t);
      && d'.log.Some? && SameRecords(kept, d'.log.value.records)
      && d'.blobs == PurgedBlobs(d.disk.blobs, kept)
  {
    hide Reaches, LogOk, TableOk, SessionOk, Keep, IndexOf, StrictKeys, Grouped, PurgedBlobs, MaxSnap;
    RunRefines(c, ops, d);
    var a := AbsRun(ops);
    var log := d.disk.log.value;
    if d.disk.index.Some? {
      HeaderAbove(c, d.disk.index.value, d.disk.blobs, a.index.value, t);
      KeptAlike(c, ops, d, t);
    }
    LogInFiles(c, log, d.disk.blobs, a.log.value);
    IndexKeepsFirst(log.records);
    KeepStrict(IndexOf(log.records), t);
    KeepMembers(IndexOf(log.records), t);
    GroupedSame(Keep(IndexOf(log.records), t));
  }

  /** An index has something to remove exactly when its header is above the threshold. */
  lemma HeaderAbove(c: Codec, index: Table, blobs: Blobs, h: History, t: nat)
    requires IndexOk(c, index, blobs, h)
    ensures |Keep(index.records, t)| != |index.records| <==> index.header > t
    ensures index.header > t <==> exists r :: r in index.records && SnapOf(r.key) > t
  {
    hide Represents, SnapshotOrdered, NoOverlap, HistoryOk, StrictKeys, SnapOf, Keep;
    KeepAll(index.records, t);
    HighestSnap(index.records, index.header);
  }

  /** A record of snapshot at most `t` has its blob in file `w`. */
  ghost predicate KeepsRange(rs: seq<Record>, t: nat, w: byte) {
    exists r :: r in rs && SnapOf(r.key) <= t && OwnsRange(r, w)
  }

  ghost predicate KeepsZero(rs: seq<Record>, t: nat) {
    exists r :: r in rs && SnapOf(r.key) <= t && r.kind == Zero
  }

  /** After a purge of a database built by saves and conversions, with or without
      an index, stale or not: a remaining file is exactly the blobs of the records
      left in the log if and only if nothing is removed, or a kept blob lies in it,
      or it was empty before. */
  lemma {:induction false} PurgeAfterCleanRun(c: Codec, ops: seq<Op>, d: Db, t: nat, w: byte)
    requires CodecOk(c) && Reaches(c, ops, d) && KeepsAll(ops) && d.disk.log.Some?
    requires w in PurgeDisk(d.disk, t).blobs
    ensures var d' := PurgeDisk(d.disk, t);
      && d'.log.Some? && w in d.disk.blobs && NoOverlap(d'.log.value.records)
      && (FileTiled(d'.log.value.records, d'.blobs[w], w) <==>
            !Removes(d.disk, t) || KeepsRange(d.disk.log.value.records, t, w) || d.disk.blobs[w] == [])
  {
    hide Reaches, KeepsAll, SessionOk, IndexOk, LogOk, SnapshotOrdered, NoOverlap, FileTiled, Keep, PurgeDisk,
      PurgedBlobs, IndexOf, HasRange, InFiles, Shape, Removes;
    var d' := PurgeDisk(d.disk, t);
    if !Removes(d.disk, t) {
      PurgeIdle(d.disk, t);
      CleanRunLayout(c, ops, d, w);
    } else {
      RunRefines(c, ops, d);
      var log := d.disk.log.value;
      var rs := IndexOf(log.records);
      PurgedLog(c, ops, d, t);
      PurgedIn(d.disk.blobs, Keep(rs, t), w);
      CleanRunLayout(c, ops, d, w);
      LogInFiles(c, log, d.disk.blobs, AbsRun(ops).log.value);
      IndexOfUnique(log.records);
      InFilesSame(log.records, rs, d.disk.blobs);
      SublistLayout(log.records, rs);
      TiledFileSame(log.records, rs, d.disk.blobs[w], w);
      ZerosAtZero(log.records, rs);
      PurgedFileCleanIff(rs, d.disk.blobs, t, w);
      KeepMembers(rs, t);
      KeptRange(log.records, rs, Keep(rs, t), t, w);
      SublistLayout(rs, d'.log.value.records);
      TiledIffSame(Keep(rs, t), d'.log.value.records, d'.blobs[w], w);
    }
  }

  lemma KeptRange(log: seq<Record>, rs: seq<Record>, kept: seq<Record>, t: nat, w: byte)
    requires SameRecords(rs, log) && forall r :: r in kept <==> r in rs && SnapOf(r.key) <= t
    ensures HasRange(kept, w) <==> KeepsRange(log, t, w)
  {
    hide OwnsRange, SnapOf;
  }

  lemma PurgedIn(blobs: Blobs, kept: seq<Record>, w: byte)
    requires w in PurgedBlobs(blobs, kept)
    ensures w in blobs
  {
  }

  lemma InFilesSame(a: seq<Record>, b: seq<Record>, blobs: Blobs)
    requires InFiles(a, blobs) && forall r :: r in b ==> r in a
    ensures InFiles(b, blobs)
  {
    hide ReadBlob;
  }

  lemma ZerosAtZero(a: seq<Record>, b: seq<Record>)
    requires (forall r :: r in a ==> Shape(a, r)) && forall r :: r in b ==> r in a
    ensures forall r :: r in b && r.kind == Zero ==> r.workerId == 0
  {
    hide First, GoodBase;
  }

  lemma TiledIffSame(a: seq<Record>, b: seq<Record>, file: seq<byte>, w: byte)
    requires SameRecords(a, b)
    ensures FileTiled(a, file, w) <==> FileTiled(b, file, w)
    ensures HasRange(a, w) <==> HasRange(b, w)
  {
    hide CoversByte, OwnsRange;
    if FileTiled(a, file, w) { TiledFileSame(a, b, file, w); }
    if FileTiled(b, file, w) { TiledFileSame(b, a, file, w); }
  }

  /** Whatever came before, also earlier purges and a stale index: a purge cuts
      each file that keeps a blob below every blob it drops from the log. */
  lemma {:induction false} ReachablePurgeErases(c: Codec, ops: seq<Op>, d: Db, t: nat, w: byte, p: Record)
    requires CodecOk(c) && Reaches(c, ops, d) && d.disk.log.Some?
    ensures PurgeDisk(d.disk, t).log.Some?
    ensures var d' := PurgeDisk(d.disk, t);
      p in d.disk.log.value.records && p !in d'.log.value.records && OwnsRange(p, w)
      && HasRange(d'.log.value.records, w) ==>
        w in d'.blobs && |d'.blobs[w]| <= p.offset
  {
    hide Reaches, SessionOk, IndexOk, SnapshotOrdered, NoOverlap, Represents, Keep, PurgeDisk, PurgedBlobs, IndexOf,
      HasRange, InFiles, Shape, OwnsRange, LogSorted, HistoryOk, SnapOf, Removes;
    var d' := PurgeDisk(d.disk, t);
    if !Removes(d.disk, t) {
      PurgeIdle(d.disk, t);
    } else {
      PurgedLog(c, ops, d, t);
      var log := d.disk.log.value;
      var rs := IndexOf(log.records);
      if p in log.records && p !in d'.log.value.records && OwnsRange(p, w) && HasRange(d'.log.value.records, w) {
        RunRefines(c, ops, d);
        LogInFiles(c, log, d.disk.blobs, AbsRun(ops).log.value);
        OldRange(c, log, d.disk.blobs, AbsRun(ops).log.value, p, w);
        IndexOfUnique(log.records);
        InFilesSame(log.records, rs, d.disk.blobs);
        SublistLayout(log.records, rs);
        KeepMembers(rs, t);
        TiledIffSame(Keep(rs, t), d'.log.value.records, [], w);
        PurgedBytesGone(rs, d.disk.blobs, t, w, p);
      }
    }
  }

  /** Exactly when a byte of a removed record stays in the blob files, in every reachable
      state: it lies in worker 0's file, no kept record has a blob there, and a kept
      Zero record, which carries worker id 0, keeps that file in use. */
  lemma {:induction false} PurgedBytesStayIff(c: Codec, ops: seq<Op>, d: Db, t: nat, w: byte, p: Record)
    requires CodecOk(c) && Reaches(c, ops, d) && d.disk.log.Some? && Removes(d.disk, t)
    requires p in d.disk.log.value.records && SnapOf(p.key) > t && OwnsRange(p, w) && p.len > 0
    ensures var d', log := PurgeDisk(d.disk, t), d.disk.log.value.records;
      w in d'.blobs && p.offset < |d'.blobs[w]| <==> w == 0 && !KeepsRange(log, t, 0) && KeepsZero(log, t)
  {
    hide Reaches, SessionOk, IndexOk, LogOk, SnapshotOrdered, NoOverlap, Keep, PurgeDisk, PurgedBlobs, IndexOf,
      HasRange,
      InFiles, Shape, SnapOf, Removes, KeepsRange, KeepsZero;
    RunRefines(c, ops, d);
    var log, blobs := d.disk.log.value, d.disk.blobs;
    var rs := IndexOf(log.records);
    var kept := Keep(rs, t);
    PurgedLog(c, ops, d, t);
    LogInFiles(c, log, blobs, AbsRun(ops).log.value);
    OldRange(c, log, blobs, AbsRun(ops).log.value, p, w);
    IndexOfUnique(log.records);
    KeepMembers(rs, t);
    KeptRange(log.records, rs, kept, t, w);
    ZerosAtZero(log.records, log.records);
    if HasRange(kept, w) {
      ReachablePurgeErases(c, ops, d, t, w, p);
      TiledIffSame(kept, PurgeDisk(d.disk, t).log.value.records, [], w);
    } else {
      UsedByZero(log.records, kept, t, w);
      UncutFile(blobs, kept, w);
    }
  }

  /** A file no kept blob lies in is in use exactly for kept Zero records, as worker 0's. */
  lemma UsedByZero(log: seq<Record>, kept: seq<Record>, t: nat, w: byte)
    requires forall r :: r in kept <==> r in log && SnapOf(r.key) <= t
    requires forall r :: r in log && r.kind == Zero ==> r.workerId == 0
    requires !HasRange(kept, w)
    ensures Used(kept, w) <==> w == 0 && KeepsZero(log, t)
  {
    hide SnapOf;
    if Used(kept, w) {
      var r :| r in kept && r.workerId == w;
      assert !OwnsRange(r, w);
    }
    if w == 0 && KeepsZero(log, t) {
      var r :| r in log && SnapOf(r.key) <= t && r.kind == Zero;
      assert r in kept;
    }
  }

  /** ... and is then left as it was. */
  lemma UncutFile(blobs: Blobs, kept: seq<Record>, w: byte)
    requires w in blobs && !HasRange(kept, w)
    ensures w in PurgedBlobs(blobs, kept) <==> Used(kept, w)
    ensures Used(kept, w) ==> PurgedBlobs(blobs, kept)[w] == blobs[w]
  {
    hide KeptEnd;
    KeptEndBounds(kept, w);
    assert KeptEnd(kept, w).None?;
  }

  /** A purge leaves no record above the threshold in the log exactly when there is
      no index, or the index reaches above the threshold, or the log does not. */
  lemma {:induction false} PurgeReachesLogIff(c: Codec, ops: seq<Op>, d: Db, t: nat)
    requires CodecOk(c) && Reaches(c, ops, d) && d.disk.log.Some?
    ensures PurgeDisk(d.disk, t).log.Some?
    ensures (forall r :: r in PurgeDisk(d.disk, t).log.value.records ==> SnapOf(r.key) <= t) <==>
      d.disk.index.None? || d.disk.index.value.header > t || d.disk.log.value.header <= t
  {
    hide Reaches, SessionOk, LogOk, TableOk, Keep, PurgedBlobs, IndexOf, StrictKeys, Grouped, MaxSnap, SnapOf;
    RunRefines(c, ops, d);
    var a, log, d' := AbsRun(ops), d.disk.log.value, PurgeDisk(d.disk, t);
    if d.disk.index.Some? { HeaderAbove(c, d.disk.index.value, d.disk.blobs, a.index.value, t); }
    ToBtreeGood(c, log, d.disk.blobs, a.log.value);
    HeaderAbove(c, ToTable(IndexOf(log.records)), d.disk.blobs, a.log.value, t);
    LogHeader(c, log, d.disk.blobs, a.log.value);
    if Removes(d.disk, t) {
      PurgedLog(c, ops, d, t);
      KeepMembers(IndexOf(log.records), t);
    }
  }

  lemma LogHeader(c: Codec, t: Table, blobs: Blobs, h: History)
    requires LogOk(c, t, blobs, h)
    ensures SameRecords(IndexOf(t.records), t.records) && t.header == MaxSnap(IndexOf(t.records))
  {
    hide IndexOf, LogSorted, Represents, SnapshotOrdered, NoOverlap, HistoryOk, MaxSnap;
    SortedUnique(t.records);
    IndexOfUnique(t.records);
    MaxSnapSame(IndexOf(t.records), t.records);
  }

  /** In every reachable state: a load after a purge at `t` is the load before it
      at min(snap, t), whichever file readers go by. */
  lemma {:induction false} PurgeThenRead(c: Codec, ops: seq<Op>, d: Db, t: nat, pa: nat, snap: nat)
    requires CodecOk(c) && Reaches(c, ops, d)
    ensures ReadPage(c, PurgeDisk(d.disk, t), pa, snap) ==
      ReadPage(c, d.disk, pa, if snap <= MAX_SNAPSHOT_ID && t < snap then t else snap)
  {
    hide Reaches, LogOk, IndexOk, SessionOk, PurgeDisk, ReadPage, UpTo, HasLater, Newest;
    RunRefines(c, ops, d);
    var a, idle := AbsRun(ops), d.(session := None);
    var still := a.(session := None);
    PurgeRefines(c, idle, still, t);
    ReadRefines(c, idle.(disk := PurgeDisk(d.disk, t)), AbsPurge(still, t), pa, snap);
    ReadRefines(c, d, a, pa, if snap <= MAX_SNAPSHOT_ID && t < snap then t else snap);
    var h := if a.index.Some? then a.index else a.log;
    if h.Some? {
      UpToNewest(h.value, t, pa, snap);
      if !HasLater(h.value, t) && t < snap { NothingLater(h.value, t, pa, snap); }
    }
  }

  lemma {:induction false} NothingLater(h: History, t: nat, pa: nat, snap: nat)
    requires !HasLater(h, t) && t < snap
    ensures Newest(h, pa, snap) == Newest(h, pa, t)
  {
    if h != [] { NothingLater(h[..|h| - 1], t, pa, snap); }
  }

  /** Purging again at the same threshold removes nothing, for any directory whatsoever. */
  lemma PurgeTwice(d: Disk, t: nat)
    ensures PurgeDisk(PurgeDisk(d, t), t) == PurgeDisk(d, t)
  {
    hide Keep, IndexOf, Grouped, PurgedBlobs, MaxSnap;
    var d' := PurgeDisk(d, t);
    if d' != d {
      var kept := Keep(Consulted(d), t);
      KeepMembers(Consulted(d), t);
      GroupedMembers(kept);
      IndexKeepsFirst(Grouped(kept));
      KeepAll(Consulted(d'), t);
    }
  }

  lemma GroupedMembers(rs: seq<Record>)
    ensures forall r :: r in Grouped(rs) ==> r in rs
  {
    GroupsMembers(rs, SNAPSHOTS);
  }

  lemma {:induction false} GroupsMembers(rs: seq<Record>, n: nat)
    ensures forall r :: r in GroupsBelow(rs, n, false) ==> r in rs
    decreases n
  {
    hide OfSnap;
    if n > 0 {
      GroupsMembers(rs, n - 1);
      OfSnapMembers(rs, n - 1);
    }
  }
}
