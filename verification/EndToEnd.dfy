/** From bytes to histories: the files of a reachable database decode to the
    records the machine speaks of, so the reading, converting, purging and
    replaying code is correct on real file contents. */
module EndToEnd {
  import opened Words
  import opened Chunk
  import opened Patch
  import opened Index
  import opened Store
  import opened Bitmap
  import opened SavePhase
  import opened Convert
  import opened Purge
  import opened Database
  import opened SaveStep
  import opened Refinement
  import opened Invariants
  import opened Sessions
  import opened Loads
  import opened Reader
  import opened AppendOnlyDb
  import opened BulkLoad
  import opened RawConvert

  /** The directory contents of a database. */
  ghost function DiskFiles(d: Disk): Files {
    Files(
      if d.index.Some? then Some(IndexFile(d.index.value.header, d.index.value.records)) else None,
      if d.log.Some? then Some(LogFile(d.log.value.header, d.log.value.records)) else None,
      d.blobs)
  }

  /** Blob files are shorter than 2^64 bytes, as file offsets require. */
  predicate FilesFit(blobs: Blobs) {
    forall w :: w in blobs ==> |blobs[w]| < U64
  }

  lemma TableFits(c: Codec, t: Table, blobs: Blobs, h: History)
    requires TableOk(c, t, blobs, h) && UniqueKeys(t.records) && FilesFit(blobs)
    ensures AllWellFormed(t.records) && t.header < U32
  {
    hide SnapshotOrdered, NoOverlap, Version, Resolve, First;
    forall r | r in t.records ensures WellFormed(r) {
      var i :| 0 <= i < |t.records| && t.records[i] == r;
      FirstOfUnique(t.records, i);
      assert StoredAs(c, t.records, blobs, r, Version(h, r.key).value);
      ResolvedBlobs(c, t.records, blobs, r);
      if r.kind == Delta {
        var base := First(t.records, r.baseKey).value;
        assert First(t.records, base.key) == Some(base);
        assert Shape(t.records, base);
      }
    }
  }

  /** The records of a reachable database fit their on-disk fields. */
  lemma {:induction false} ReachableFits(c: Codec, ops: seq<Op>, d: Db)
    requires CodecOk(c) && Reaches(c, ops, d) && FilesFit(d.disk.blobs)
    ensures d.disk.log.Some? ==> AllWellFormed(d.disk.log.value.records) && d.disk.log.value.header < U32
    ensures d.disk.index.Some? ==>
      && AllWellFormed(d.disk.index.value.records) && d.disk.index.value.header < U32
      && StrictKeys(d.disk.index.value.records)
  {
    hide Reaches, TableOk, SessionOk, LogSorted, AllWellFormed, FilesFit;
    RunRefines(c, ops, d);
    var a := AbsRun(ops);
    if d.disk.log.Some? {
      SortedUnique(d.disk.log.value.records);
      TableFits(c, d.disk.log.value, d.disk.blobs, a.log.value);
    }
    if d.disk.index.Some? {
      IndexFits(c, d.disk.index.value, d.disk.blobs, a.index.value);
      TableFits(c, d.disk.index.value, d.disk.blobs, a.index.value);
    }
  }

  /* ---- reading ---- */

  /** Opening the directory's bytes gives a store over the records the machine goes by. */
  lemma {:induction false} OpenedFiles(c: Codec, ops: seq<Op>, d: Db)
    requires CodecOk(c) && Reaches(c, ops, d) && FilesFit(d.disk.blobs)
    ensures var source := Opened(DiskFiles(d.disk).index, DiskFiles(d.disk).log);
      if d.disk.index.None? && d.disk.log.None? then source == Err(NotFound)
      else source.Ok? && Holds(source.value, Consulted(d.disk))
  {
    hide Reaches, LogFile, IndexFile, IndexOf, FilesFit, AllWellFormed, StrictKeys, IsIndexFile, ParseLog, ReadHeader;
    ReachableFits(c, ops, d);
    if d.disk.index.Some? {
      OpenedIndex(d.disk.index.value);
    } else if d.disk.log.Some? {
      LogFileParses(d.disk.log.value.header, d.disk.log.value.records);
    }
  }

  lemma OpenedIndex(t: Table)
    requires AllWellFormed(t.records) && StrictKeys(t.records)
    ensures var idx := IndexFile(t.header, t.records);
      && |idx| == HEADER_SIZE + FIXED_RECORD_SIZE * |t.records| && idx[0..8] == MAGIC_IDX
      && IsIndexFile(idx, t.records)
  {
    hide FixedBody, StrictKeys, AllWellFormed, IsIndexFile, LE;
    FittingRecords(t.records);
    WrittenIndexFile(t.header, t.records);
  }

  /** The whole stack: after any run, opening the bytes found on disk and loading a
      page fills the buffer with what the history of saves promises; a load that
      needs bytes an open handle still buffers fails. */
  method LoadFromDirectory(codec: Codec, index: Option<seq<byte>>, log: Option<seq<byte>>, blobs: Blobs,
                           out: array<byte>, pa: nat, snap: nat, ghost ops: seq<Op>, ghost d: Db)
    returns (r: Result<bool>)
    requires CodecOk(codec) && Reaches(codec, ops, d) && FilesFit(d.disk.blobs) && out.Length == PAGE_SIZE
    requires Files(index, log, blobs) == DiskFiles(OnDisk(d))
    modifies out
    ensures match AbsRead(AbsRun(ops), pa, snap)
      case Ok(Some(p)) => if LoadWritten(d, pa, snap) then r == Ok(true) && out[..] == p else r == Err(BlobOutOfRange)
      case Ok(None) => r == Ok(false) && out[..] == old(out[..])
      case Err(e) => r == Err(e) && out[..] == old(out[..])
    ensures r == Err(NotFound) <==> index.None? && log.None?
    ensures r == Err(SnapshotTooLarge) <==> (index.Some? || log.Some?) && snap >= 0x8_0000
  {
    hide Reaches, AbsRun, IndexFile, LogFile, Opened, Load, AfterLoad, Holds, FilesFit, Consulted, Newest, LoadWritten,
      CutAt;
    OpenedFiles(codec, ops, d);
    SameSource(d);
    ReadsAreCorrect(codec, ops, d, pa, snap);
    ReadErrors(codec, ops, d, pa, snap);
    LoadOnDisk(codec, ops, d, pa, snap);
    var store := OpenStore(codec, blobs, index, log);
    if store.Err? { return Err(store.error); }
    if snap <= MAX_SNAPSHOT_ID { NeverFails(codec, ops, d, pa, snap); }
    LoadFails(codec, Consulted(d.disk), blobs, pa, snap, out[..]);
    r := store.value.LoadPage(out, pa, snap);
  }

  /** What is still buffered are blobs; readers find the same index and log. */
  lemma SameSource(d: Db)
    ensures OnDisk(d).index == d.disk.index && OnDisk(d).log == d.disk.log
    ensures d.disk.index.Some? || d.disk.log.Some? ==> Consulted(OnDisk(d)) == Consulted(d.disk)
  {
    hide CutAt, IndexOf;
  }

  lemma LoadFails(c: Codec, rs: seq<Record>, blobs: Blobs, pa: nat, snap: nat, before: seq<byte>)
    ensures snap > MAX_SNAPSHOT_ID ==> AfterLoad(c, rs, blobs, pa, snap, before) == Some(before)
  {
  }

  /** What the history promises for the i-th page of a request. */
  ghost function Promised(a: Abs, paOffset: nat, snap: nat, i: nat): Result<Option<Page>> {
    AbsRead(a, paOffset + i, snap)
  }

  /** Nothing that loading the i-th page reads is still buffered. */
  ghost predicate PageWritten(d: Db, paOffset: nat, snap: nat, i: nat) {
    LoadWritten(d, paOffset + i, snap)
  }

  /** A bulk load of the bytes found on disk, by any number of workers, succeeds exactly
      when nothing it needs is still buffered by an open handle. It then gives every
      page as the history promises it, and true exactly when it promises all of them. */
  method LoadAllFromDirectory(codec: Codec, index: Option<seq<byte>>, log: Option<seq<byte>>, blobs: Blobs,
                              out: array<seq<byte>>, paOffset: nat, snap: nat, workers: nat,
                              ghost ops: seq<Op>, ghost d: Db) returns (r: Result<bool>)
    requires CodecOk(codec) && Reaches(codec, ops, d) && FilesFit(d.disk.blobs)
    requires Files(index, log, blobs) == DiskFiles(OnDisk(d))
    modifies out
    ensures snap > MAX_SNAPSHOT_ID ==> r == Err(SnapshotTooLarge) && out[..] == old(out[..])
    ensures snap <= MAX_SNAPSHOT_ID && index.None? && log.None? ==> r == Err(NotFound) && out[..] == old(out[..])
    ensures snap <= MAX_SNAPSHOT_ID && (index.Some? || log.Some?) ==>
      && (r.Ok? <==> forall i: nat :: i < out.Length ==> PageWritten(d, paOffset, snap, i))
      && (r.Err? ==> r.error == BlobOutOfRange)
    ensures snap <= MAX_SNAPSHOT_ID && (index.Some? || log.Some?) && r.Ok? ==>
      && (forall i :: 0 <= i < out.Length ==> Filled(Promised(AbsRun(ops), paOffset, snap, i), old(out[i]), out[i]))
      && (r.value <==> forall i :: 0 <= i < out.Length ==> Promised(AbsRun(ops), paOffset, snap, i) != Ok(None))
  {
    hide Reaches, AbsRun, Opened, Load, Holds, FilesFit, Consulted, Promised, LogFile, IndexFile, BulkOutcome, Filled,
      PageWritten, CutAt;
    if snap > MAX_SNAPSHOT_ID { return Err(SnapshotTooLarge); }
    OpenedFiles(codec, ops, d);
    SameSource(d);
    var store := OpenStore(codec, blobs, index, log);
    if store.Err? { return Err(store.error); }
    ghost var before := out[..];
    r := LoadAllPages(store.value, paOffset, snap, workers, out);
    AsPromised(store.value, ops, d, paOffset, snap, before, out[..], r);
  }

  lemma {:induction false} AsPromised(store: PageStore, ops: seq<Op>, d: Db, paOffset: nat, snap: nat,
                                      before: seq<seq<byte>>, now: seq<seq<byte>>, r: Result<bool>)
    requires CodecOk(store.codec) && Reaches(store.codec, ops, d) && (d.disk.index.Some? || d.disk.log.Some?)
    requires store.records == Consulted(d.disk) && store.blobs == OnDisk(d).blobs && snap <= MAX_SNAPSHOT_ID
    requires BulkOutcome(store, paOffset, snap, before, now, r)
    ensures |now| == |before| && (r.Err? ==> r.error == BlobOutOfRange)
    ensures r.Ok? <==> forall i: nat :: i < |now| ==> PageWritten(d, paOffset, snap, i)
    ensures r.Ok? ==> forall i: nat :: i < |now| ==>
      Filled(Promised(AbsRun(ops), paOffset, snap, i), before[i], now[i])
    ensures r.Ok? ==> (r.value <==> forall i: nat :: i < |now| ==> Promised(AbsRun(ops), paOffset, snap, i) != Ok(None))
  {
    hide Reaches, AbsRun, PageLoad, Promised, PageWritten, OnDisk;
    forall i: nat
      ensures PageLoad(store, paOffset, snap, i) ==
        if PageWritten(d, paOffset, snap, i) then Promised(AbsRun(ops), paOffset, snap, i) else Err(BlobOutOfRange)
      ensures Promised(AbsRun(ops), paOffset, snap, i).Ok?
      ensures PageWritten(d, paOffset, snap, i) ==>
        (Missing(store, paOffset, snap, i) <==> Promised(AbsRun(ops), paOffset, snap, i) == Ok(None))
    {
      SamePage(store, ops, d, paOffset, snap, i);
    }
    if r.Ok? {
      forall i: nat | i < |now| ensures PageWritten(d, paOffset, snap, i) {
        assert Filled(PageLoad(store, paOffset, snap, i), before[i], now[i]);
      }
    }
  }

  lemma {:induction false} SamePage(store: PageStore, ops: seq<Op>, d: Db, paOffset: nat, snap: nat, i: nat)
    requires CodecOk(store.codec) && Reaches(store.codec, ops, d) && (d.disk.index.Some? || d.disk.log.Some?)
    requires store.records == Consulted(d.disk) && store.blobs == OnDisk(d).blobs && snap <= MAX_SNAPSHOT_ID
    ensures PageLoad(store, paOffset, snap, i) ==
      if PageWritten(d, paOffset, snap, i) then Promised(AbsRun(ops), paOffset, snap, i) else Err(BlobOutOfRange)
    ensures Promised(AbsRun(ops), paOffset, snap, i).Ok?
  {
    hide Reaches, AbsRun, Load, Consulted, AbsRead, LoadWritten, CutAt;
    ReadsAreCorrect(store.codec, ops, d, paOffset + i, snap);
    LoadOnDisk(store.codec, ops, d, paOffset + i, snap);
    SameSource(d);
    NeverFails(store.codec, ops, d, paOffset + i, snap);
  }

  lemma {:induction false} NeverFails(c: Codec, ops: seq<Op>, d: Db, pa: nat, snap: nat)
    requires CodecOk(c) && Reaches(c, ops, d) && (d.disk.index.Some? || d.disk.log.Some?) && snap <= MAX_SNAPSHOT_ID
    ensures AbsRead(AbsRun(ops), pa, snap).Ok?
  {
    hide Reaches, AbsRun, LogOk, IndexOk, SessionOk;
    RunRefines(c, ops, d);
  }

  lemma {:induction false} ReadErrors(c: Codec, ops: seq<Op>, d: Db, pa: nat, snap: nat)
    requires CodecOk(c) && Reaches(c, ops, d)
    ensures AbsRead(AbsRun(ops), pa, snap) == Err(NotFound) <==> d.disk.index.None? && d.disk.log.None?
    ensures AbsRead(AbsRun(ops), pa, snap) == Err(SnapshotTooLarge) <==>
      (d.disk.index.Some? || d.disk.log.Some?) && snap >= 0x8_0000
  {
    hide Reaches, AbsRun, LogOk, IndexOk, SessionOk;
    RunRefines(c, ops, d);
  }

  /* ---- saving ---- */

  /** Opening the bytes of any reachable directory, saving all pages or the dirty ones
      through the handle and closing it leaves the bytes of the machine's next state. */
  method SaveToDirectory(codec: Codec, log: Option<seq<byte>>, blobs: Blobs, workers: nat, threshold: nat,
                         useShadow: bool, req: Request, id: nat, ghost ops: seq<Op>, ghost d: Db)
    returns (r: Result<()>, log': seq<byte>, blobs': Blobs, ghost d': Db)
    requires CodecOk(codec) && Reaches(codec, ops, d) && d.session.None? && FilesFit(d.disk.blobs)
    requires log == DiskFiles(d.disk).log && blobs == d.disk.blobs
    requires 1 <= workers <= 255 && RequestFits(req)
    ensures Reaches(codec, SavingRun(ops, workers, threshold, useShadow, req, id), d')
    ensures d'.session.None? && DiskFiles(d'.disk) == Files(DiskFiles(d.disk).index, Some(log'), blobs')
    ensures r == SaveOutcome(LastOf(AbsRun(ops)), req, id)
  {
    hide Reaches, AbsRun, LogFile, IndexFile, LogBody, SaveNext, ParseLog, ReadHeader, FilesFit, AllWellFormed, CodecOk,
      SaveOutcome, CutAt;
    LogAsOpened(codec, ops, d);
    var result := OpenHandle(codec, log, blobs, workers, threshold, useShadow, d.disk.index);
    var handle := result.value;
    ghost var d1 := handle.State();
    ReachesStep(codec, ops, d, Open(workers, threshold, useShadow), d1);
    LastIsAbstract(codec, ops, d, d1, workers, threshold, useShadow);
    ghost var base := d1.disk.log.value.records;
    NoRecords();
    assert handle.logStart == |base| && handle.openedBody == LogBody(base);
    match req {
      case AllPages(memory, total) => r := handle.SaveAllPages(memory, total, id);
      case DirtyOnly(memory, bitmap, total) => r := handle.SavePagesWithBitmap(memory, bitmap, total, id);
    }
    ghost var d2 := handle.State();
    SavePrefix(codec, d1, req, id, d2);
    ReachesStep(codec, ops + [Open(workers, threshold, useShadow)], d1, SavePages(req, id), d2);
    handle.FlushAll();
    d' := d2.(session := None);
    ReachesStep(codec, ops + [Open(workers, threshold, useShadow)] + [SavePages(req, id)], d2, Close, d');
    assert handle.table.records[..handle.logStart] == base;
    LogFileExact(handle);
    log', blobs' := handle.logFile, handle.blobs;
  }

  /** What a save call returns on an open handle, from the calls before it and its own
      arguments: the errors in the order of the checks, and success otherwise. */
  lemma {:induction false} SaveReturns(ops: seq<Op>, req: Request, id: nat)
    requires OpenedBy(ops).Some?
    ensures AbsRun(ops).session.Some?
    ensures var r, k := SaveOutcome(AbsRun(ops).session.value, req, id), OpenedBy(ops).value;
      if id >= 0x8_0000 then r == Err(SnapshotTooLarge)
      else if !AboveAll(ops, k, id) then r == Err(SnapshotNotIncreasing)
      else if |req.memory| != 4096 * req.total then r == Err(MemoryLength)
      else if req.DirtyOnly? && 64 * |req.bitmap| < req.total then r == Err(BitmapTooShort)
      else if req.DirtyOnly? && |DirtySet(req.bitmap, req.total)| >= U32 then r == Err(TooManyDirty)
      else r == Ok(())
  {
    hide AbsRun, JobsOf, AboveAll, DirtySet;
    IdAcceptedIff(ops, id);
    JobsRefused(req);
  }

  /** From bytes to bytes and back: the 4096 bytes of memory at 4096 * PA that a save,
      of all pages or by bitmap, was given for a page are the bytes that a load of that
      snapshot puts into the buffer, from the files the save left. */
  method SaveAndLoad(codec: Codec, log: Option<seq<byte>>, blobs: Blobs, workers: nat, threshold: nat, useShadow: bool,
                     req: Request, id: nat, out: array<byte>, pa: nat, ghost ops: seq<Op>, ghost d: Db)
    returns (saved: Result<()>, fits: bool, loaded: Result<bool>)
    requires CodecOk(codec) && Reaches(codec, ops, d) && d.session.None? && FilesFit(d.disk.blobs)
    requires Files(None, log, blobs) == DiskFiles(d.disk) && out.Length == PAGE_SIZE
    requires 1 <= workers <= 255 && RequestFits(req)
    modifies out
    ensures saved == SaveOutcome(LastOf(AbsRun(ops)), req, id)
    ensures saved.Ok? && fits && Includes(req, pa) ==>
      && loaded == Ok(true) && |req.memory| >= 4096 * pa + 4096
      && forall i :: 0 <= i < 4096 ==> out[i] == req.memory[4096 * pa + i]
  {
    hide Reaches, AbsRun, LogFile, IndexFile, FilesFit, CodecOk, SaveOutcome, SavingRun, Includes, LoadWritten, CutAt,
      AbsRead;
    ghost var d' := d;
    var log', blobs';
    saved, log', blobs', d' := SaveToDirectory(codec, log, blobs, workers, threshold, useShadow, req, id, ops, d);
    fits := FilesFit(blobs');
    if !fits { return saved, fits, Ok(false); }
    ghost var run := SavingRun(ops, workers, threshold, useShadow, req, id);
    loaded := LoadFromDirectory(codec, None, Some(log'), blobs', out, pa, id, run, d');
    if saved.Ok? && Includes(req, pa) {
      NotBuffered(d', pa, id);
      IdleAbstract(codec, ops, d);
      SavedPageReads(ops, workers, threshold, useShadow, req, id, pa);
    }
  }

  lemma NotBuffered(d: Db, pa: nat, snap: nat)
    requires d.session.None?
    ensures LoadWritten(d, pa, snap)
  {
  }

  lemma {:induction false} IdleAbstract(c: Codec, ops: seq<Op>, d: Db)
    requires CodecOk(c) && Reaches(c, ops, d) && d.session.None? && d.disk.index.None?
    ensures AbsRun(ops).session.None? && AbsRun(ops).index.None?
  {
    hide Reaches, LogOk, IndexOk, SessionOk;
    RunRefines(c, ops, d);
  }

  /** In the history: a page just saved is the newest at its snapshot, byte for byte. */
  lemma {:induction false} SavedPageReads(ops: seq<Op>, workers: nat, threshold: nat, useShadow: bool,
                                          req: Request, id: nat, pa: nat)
    requires AbsRun(ops).session.None? && AbsRun(ops).index.None? && 1 <= workers <= 255
    requires SaveOutcome(LastOf(AbsRun(ops)), req, id).Ok? && Includes(req, pa)
    ensures var read := AbsRead(AbsRun(SavingRun(ops, workers, threshold, useShadow, req, id)), pa, id);
      && read.Ok? && read.value.Some? && |read.value.value| == 4096 && |req.memory| >= 4096 * pa + 4096
      && forall i :: 0 <= i < 4096 ==> read.value.value[i] == req.memory[4096 * pa + i]
  {
    hide AbsRun, Includes, JobsOf, PagesOf, LastId, Newest;
    var o1, o2 := Open(workers, threshold, useShadow), SavePages(req, id);
    AbsAppend(ops, o1);
    AbsAppend(ops + [o1], o2);
    AbsAppend(ops + [o1] + [o2], Close);
    LogAfterSave(AbsRun(ops + [o1]), req, id, pa, id);
  }

  ghost function SavingRun(ops: seq<Op>, workers: nat, threshold: nat, useShadow: bool, req: Request, id: nat)
    : seq<Op>
  {
    ops + [Open(workers, threshold, useShadow)] + [SavePages(req, id)] + [Close]
  }

  /** The last snapshot id a handle opened now starts from. */
  ghost function LastOf(a: Abs): Option<nat> {
    if a.log.None? then None else Some(LastId(a.log.value))
  }

  lemma {:induction false} LogAsOpened(c: Codec, ops: seq<Op>, d: Db)
    requires CodecOk(c) && Reaches(c, ops, d) && FilesFit(d.disk.blobs)
    ensures d.disk.log.Some? ==>
      var t, file := d.disk.log.value, LogFile(d.disk.log.value.header, d.disk.log.value.records);
      && file != [] && ReadHeader(file, MAGIC_LOG) == Ok(t.header) && file[13..HEADER_SIZE] == [0, 0, 0]
      && file[HEADER_SIZE..] == LogBody(t.records) && ParseLog(LogBody(t.records)) == Ok(t.records)
  {
    hide Reaches, ParseLog, LogBody, FilesFit, AllWellFormed, LE;
    ReachableFits(c, ops, d);
    if d.disk.log.Some? {
      var t := d.disk.log.value;
      HeaderRoundTrip(MAGIC_LOG, t.header, LogBody(t.records));
      ParseWhole(t.records);
    }
  }

  lemma NoRecords()
    ensures LogBody([]) == []
  {
  }

  lemma {:induction false} LastIsAbstract(c: Codec, ops: seq<Op>, d: Db, d': Db, workers: nat, threshold: nat,
                                          useShadow: bool)
    requires CodecOk(c) && Reaches(c, ops, d) && d.session.None? && 1 <= workers <= 255
    requires d' == OpenDb(d, workers, threshold, useShadow)
    ensures d'.session.Some? && d'.disk.log.Some? && d'.session.value.last == LastOf(AbsRun(ops))
  {
    hide Reaches, TableOk, LogSorted, IndexOk, LastId;
    RunRefines(c, ops, d);
    if d.disk.log.Some? { HeaderIsLast(c, d.disk.log.value, d.disk.blobs, AbsRun(ops).log.value); }
  }

  /** A save only adds to the log. */
  lemma SavePrefix(c: Codec, d: Db, req: Request, id: nat, d': Db)
    requires SaveNext(c, d, req, id, d') && d.disk.log.Some?
    ensures d'.disk.log.Some? && |d.disk.log.value.records| <= |d'.disk.log.value.records|
    ensures d'.disk.log.value.records[..|d.disk.log.value.records|] == d.disk.log.value.records
    ensures d'.disk.index == d.disk.index
  {
    hide Finishes, JobsOf, WritesOn;
  }

  /* ---- converting ---- */

  /** On the files of a reachable database, converting to an index and back gives
      the identical log file, header included. */
  lemma {:induction false} ReachableRoundTrip(c: Codec, ops: seq<Op>, d: Db)
    requires CodecOk(c) && Reaches(c, ops, d) && FilesFit(d.disk.blobs) && d.disk.log.Some?
    ensures var log := DiskFiles(d.disk).log.value;
      BtreeOfLog(log).Ok? && LogOfBtree(BtreeOfLog(log).value) == Ok(log)
  {
    hide Reaches, BtreeOfLog, LogOfBtree, LogFile, IndexFile, LogSorted, AllWellFormed, FilesFit;
    ReachableFits(c, ops, d);
    ReachableLogOrder(c, ops, d);
    LogFileRoundTrip(d.disk.log.value.records);
  }

  /** `to_btree` on the log's bytes writes the bytes of the machine's index. */
  lemma {:induction false} ToBtreeOnFiles(c: Codec, ops: seq<Op>, d: Db, d': Db)
    requires CodecOk(c) && Reaches(c, ops, d) && FilesFit(d.disk.blobs)
    requires d.session.None? && d.disk.log.Some? && DbStep(c, d, ToBtreeOp, d')
    ensures BtreeOfLog(DiskFiles(d.disk).log.value) == Ok(DiskFiles(d'.disk).index.value)
  {
    hide Reaches, BtreeOfLog, LogFile, IndexFile, AllWellFormed, FilesFit, IndexOf, MaxSnap;
    ReachableFits(c, ops, d);
    BtreeOfLogFile(d.disk.log.value.header, d.disk.log.value.records);
  }

  /** `to_log` on the index's bytes writes the bytes of the machine's log. */
  lemma {:induction false} ToLogOnFiles(c: Codec, ops: seq<Op>, d: Db, d': Db)
    requires CodecOk(c) && Reaches(c, ops, d) && FilesFit(d.disk.blobs)
    requires d.session.None? && d.disk.index.Some? && DbStep(c, d, ToLogOp, d')
    ensures LogOfBtree(DiskFiles(d.disk).index.value) == Ok(DiskFiles(d'.disk).log.value)
  {
    hide Reaches, LogOfBtree, LogFile, IndexFile, FilesFit, Regroup, MaxSnap;
    ReachableFits(c, ops, d);
    LogOfIndexFile(d.disk.index.value.header, d.disk.index.value.records);
  }

  /* ---- purging ---- */

  /** Purging the directory's bytes gives the bytes of the purged database. */
  lemma {:induction false} PurgeOnFiles(c: Codec, ops: seq<Op>, d: Db, t: nat)
    requires CodecOk(c) && Reaches(c, ops, d) && FilesFit(d.disk.blobs) && d.session.None?
    requires d.disk.index.Some? || d.disk.log.Some?
    ensures PurgeFiles(DiskFiles(d.disk), t).Ok?
    ensures PurgeFiles(DiskFiles(d.disk), t).value.0 == DiskFiles(PurgeDisk(d.disk, t))
    ensures PurgeFiles(DiskFiles(d.disk), t).value.1 == |Later(Consulted(d.disk), t)|
  {
    hide Reaches, LogFile, IndexFile, FilesFit, Grouped, MaxSnap, Keep, PurgedBlobs, SourceRecords, FilesPresent,
      IndexOf,
      AllWellFormed, StrictKeys;
    ReachableFits(c, ops, d);
    SourceOfFiles(d.disk);
    KeptPresent(c, ops, d, t);
    PurgeCount(DiskFiles(d.disk), t);
    ConsultedUnique(c, ops, d);
    LaterCount(Consulted(d.disk), t);
  }

  lemma {:induction false} ConsultedUnique(c: Codec, ops: seq<Op>, d: Db)
    requires CodecOk(c) && Reaches(c, ops, d) && FilesFit(d.disk.blobs)
    requires d.disk.index.Some? || d.disk.log.Some?
    ensures UniqueKeys(Consulted(d.disk))
  {
    hide Reaches, AllWellFormed, FilesFit, IndexOf;
    ReachableFits(c, ops, d);
    if d.disk.index.None? { IndexKeepsFirst(d.disk.log.value.records); }
  }

  lemma SourceOfFiles(d: Disk)
    requires d.index.Some? || d.log.Some?
    requires d.log.Some? ==> AllWellFormed(d.log.value.records) && d.log.value.header < U32
    requires d.index.Some? ==> AllWellFormed(d.index.value.records) && d.index.value.header < U32
    ensures SourceRecords(DiskFiles(d)) == Ok(Consulted(d))
  {
    hide LogFile, FixedBody, Header, ReadHeader, ParseLogFile, ParseFixed, IndexOf, AllWellFormed;
    if d.index.Some? {
      var t := d.index.value;
      HeaderRoundTrip(MAGIC_IDX, t.header, FixedBody(t.records));
      FittingRecords(t.records);
      ParseFixedWhole(t.records);
    } else {
      var t := d.log.value;
      LogFileParses(t.header, t.records);
    }
  }

  lemma {:induction false} KeptPresent(c: Codec, ops: seq<Op>, d: Db, t: nat)
    requires CodecOk(c) && Reaches(c, ops, d) && (d.disk.index.Some? || d.disk.log.Some?)
    ensures FilesPresent(d.disk.blobs, Keep(Consulted(d.disk), t))
  {
    hide Reaches, LogOk, IndexOk, SessionOk, Keep, IndexOf, InFiles;
    RunRefines(c, ops, d);
    var a := AbsRun(ops);
    var source := if d.disk.index.Some? then d.disk.index.value else ToTable(IndexOf(d.disk.log.value.records));
    var h := if a.index.Some? then a.index.value else a.log.value;
    if d.disk.index.None? { ToBtreeGood(c, d.disk.log.value, d.disk.blobs, h); }
    IndexInside(c, source, d.disk.blobs, h);
    KeptInFiles(source.records, d.disk.blobs, t);
  }

  lemma KeptInFiles(rs: seq<Record>, blobs: Blobs, t: nat)
    requires InFiles(rs, blobs)
    ensures FilesPresent(blobs, Keep(rs, t))
  {
    hide Keep;
    KeepMembers(rs, t);
    assert forall r :: r in rs && r.kind != Zero ==> ReadBlob(blobs, r).Ok?;
  }

  lemma IndexInside(c: Codec, t: Table, blobs: Blobs, h: History)
    requires IndexOk(c, t, blobs, h)
    ensures InFiles(t.records, blobs)
  {
    hide TableOk, StrictKeys, LogSorted, Regroup;
    ToLogGood(c, t, blobs, h);
    LogInFiles(c, Table(MaxSnap(t.records), Regroup(t.records)), blobs, h);
    IndexFits(c, t, blobs, h);
    RegroupFacts(t.records);
  }

  /* ---- replaying ---- */

  /** The program can resolve the record: it is not a Delta later than the index that
      bases are looked up in, and nothing it needs is still in an open handle's buffers. */
  ghost predicate Available(d: Db, r: Record)
    requires d.disk.log.Some?
  {
    && !TooLate(d.disk, r)
    && (d.session.Some? ==> RecordWritten(d.session.value.written, d.disk.log.value.records, r))
  }

  ghost function PageOrZero(p: Option<Page>): Page { if p.Some? then p.value else ZeroPage() }

  ghost predicate ReplayedRight(r: Result<Emission>, d: Db, h: History)
    requires d.disk.log.Some?
  {
    && r.Ok?
    && (!r.value.stopped <==> forall x :: x in d.disk.log.value.records ==> Available(d, x))
    && (r.value.stopped ==>
          exists x :: x in d.disk.log.value.records && !Available(d, x) && SnapOf(x.key) == r.value.current)
    && ChainRight(r.value.chain, h, if r.value.stopped then r.value.current else SNAPSHOTS)
    && NamesLast(r.value, h)
  }

  /** At every snapshot below `upto`, the search over the chain gives the newest saved
      page, and the snapshot's own file just the pages saved then. */
  ghost predicate ChainRight(chain: Chain, h: History, upto: nat) {
    forall pa: nat, snap: nat :: snap < upto && snap < SNAPSHOTS ==>
      && ChainLoad(chain, pa, snap) == PageOrZero(Newest(h, pa, snap))
      && FindPage(chain, snap, pa) == SavedAt(h, pa, snap)
  }

  /** The page a file of the chain has: what was saved at exactly that snapshot, but a
      blank page is left out of the first file. */
  ghost function SavedAt(h: History, pa: nat, snap: nat): Option<Page> {
    var v := Version(h, KeyFor(pa, snap));
    if v.Some? && snap == 0 && IsBlank(v.value) then None else v
  }

  ghost function Ids(h: History): set<nat> { set i | 0 <= i < |h| :: h[i].id }

  /** A run to the end names the newest save in raw-meta, 0 when nothing was saved, and
      has a file for each save and for snapshot 0. A run that stopped names the snapshot
      before the one it stopped at, and has no file from there on. */
  ghost predicate NamesLast(e: Emission, h: History) {
    && (!e.stopped ==> e.meta == e.current == LastId(h) && e.chain.Keys == {0} + Ids(h))
    && (e.stopped ==>
          && (forall snap :: snap in e.chain ==> snap < e.current)
          && e.meta == if e.current == 0 then 0 else e.current - 1)
  }

  lemma LastSnapIsId(c: Codec, t: Table, blobs: Blobs, h: History)
    requires LogOk(c, t, blobs, h)
    ensures (if t.records == [] then 0 else SnapOf(t.records[|t.records| - 1].key)) == LastId(h)
    ensures SnapsIn(t.records) == Ids(h)
  {
    hide Represents, SnapshotOrdered, NoOverlap, SnapOf, PaOf, MaxSnap, Increasing, LastId;
    var rs := t.records;
    HeaderIsLast(c, t, blobs, h);
    if rs != [] {
      var last := rs[|rs| - 1];
      forall r | r in rs ensures SnapOf(r.key) <= SnapOf(last.key) {
        var i :| 0 <= i < |rs| && rs[i] == r;
        if i < |rs| - 1 { assert LogBefore(rs[i].key, last.key); }
      }
    }
    forall id: nat ensures id in SnapsIn(rs) <==> id in Ids(h) { SnapsAreIds(c, t, blobs, h, id); }
  }

  lemma SavedPages(c: Codec, rs: seq<Record>, blobs: Blobs, h: History, chain: Chain, upto: nat, pa: nat, snap: nat)
    requires Represents(c, rs, blobs, h) && ChainOk(c, rs, blobs, chain, upto) && snap < upto && snap < SNAPSHOTS
    ensures FindPage(chain, snap, pa) == SavedAt(h, pa, snap)
  {
    hide Version, First, Resolve, FindPage;
    var k := KeyFor(pa, snap);
    assert FindPage(chain, snap, pa) == Expected(c, rs, blobs, snap, pa, upto);
    assert First(rs, k).None? <==> Version(h, k).None?;
    if First(rs, k).Some? { assert StoredAs(c, rs, blobs, First(rs, k).value, Version(h, k).value); }
  }

  /** The raw converter on any reachable directory whose image is large enough: it
      never panics; it runs to the end exactly when every record of the log is
      available; and for every page, at every snapshot up to the end, or below the
      one at which it stopped, the chain gives the newest saved page. */
  lemma {:induction false} ReachableReplay(c: Codec, ops: seq<Op>, d: Db, pages: nat)
    requires CodecOk(c) && Reaches(c, ops, d) && d.disk.log.Some?
    requires forall r :: r in d.disk.log.value.records ==> PaOf(r.key) < pages
    ensures AbsRun(ops).log.Some?
    ensures ReplayedRight(Emitted(c, Consulted(d.disk), OnDisk(d).blobs, pages, d.disk.log.value.records), d,
                          AbsRun(ops).log.value)
  {
    hide Reaches, SessionOk, IndexOk, Represents, LogSorted, SnapshotOrdered, NoOverlap, Emitted, ChainRight, PaOf,
      Increasing, Resolve, Consulted, Available, ChainOk, SnapOf, OnDisk, Replayable, PartialView, NamesLast;
    RunRefines(c, ops, d);
    var t, h := d.disk.log.value, AbsRun(ops).log.value;
    var v := Sight(c, Consulted(d.disk), OnDisk(d).blobs);
    SightOf(c, ops, d, pages, v);
    PartialReplay(v, t.records, d.disk.blobs, pages);
    var e := Emitted(c, v.look, v.blobs, pages, t.records).value;
    OkChainRight(c, t.records, d.disk.blobs, h, e.chain, if e.stopped then e.current else SNAPSHOTS);
    LastNamed(v, t, d.disk.blobs, h, pages);
  }

  lemma LastNamed(v: Sight, t: Table, blobs: Blobs, h: History, pages: nat)
    requires LogOk(v.codec, t, blobs, h) && Emitted(v.codec, v.look, v.blobs, pages, t.records).Ok?
    ensures NamesLast(Emitted(v.codec, v.look, v.blobs, pages, t.records).value, h)
  {
    hide LogOk, Emitted, SnapsIn, Ids, SnapOf, RawRun, LastId;
    EmittedFiles(v.codec, v.look, v.blobs, pages, t.records);
    LastSnapIsId(v.codec, t, blobs, h);
  }

  /** What the converter sees of the log's records is exactly what is available. */
  lemma {:induction false} SightOf(c: Codec, ops: seq<Op>, d: Db, pages: nat, v: Sight)
    requires CodecOk(c) && Reaches(c, ops, d) && d.disk.log.Some?
    requires forall r :: r in d.disk.log.value.records ==> PaOf(r.key) < pages
    requires v == Sight(c, Consulted(d.disk), OnDisk(d).blobs)
    ensures Replayable(c, d.disk.log.value.records, d.disk.blobs, pages)
    ensures PartialView(v, d.disk.log.value.records, d.disk.blobs)
    ensures forall r :: r in d.disk.log.value.records ==> (See(v, r).Ok? <==> Available(d, r))
  {
    hide Reaches, SessionOk, IndexOk, Represents, LogSorted, SnapshotOrdered, NoOverlap, PaOf, Increasing, Resolve,
      Consulted, Available, SnapOf, OnDisk;
    RunRefines(c, ops, d);
    var t, h := d.disk.log.value, AbsRun(ops).log.value;
    LogInFiles(c, t, d.disk.blobs, h);
    AllResolve(c, t.records, d.disk.blobs, h);
    forall r | r in t.records
      ensures See(v, r).Err? || See(v, r) == Resolve(c, t.records, d.disk.blobs, r)
      ensures See(v, r).Ok? <==> Available(d, r)
    {
      SeenIff(c, ops, d, r);
    }
  }

  lemma OkChainRight(c: Codec, rs: seq<Record>, blobs: Blobs, h: History, chain: Chain, upto: nat)
    requires Represents(c, rs, blobs, h) && Increasing(h) && ChainOk(c, rs, blobs, chain, upto)
    ensures ChainRight(chain, h, upto)
  {
    hide Represents, Increasing, ChainOk, ChainLoad, FindPage, SavedAt, Newest, FloorRec, Content;
    forall pa: nat, snap: nat | snap < upto && snap < SNAPSHOTS
      ensures ChainLoad(chain, pa, snap) == PageOrZero(Newest(h, pa, snap))
      ensures FindPage(chain, snap, pa) == SavedAt(h, pa, snap)
    {
      SavedPages(c, rs, blobs, h, chain, upto, pa, snap);
      ChainBelow(c, rs, blobs, chain, upto, pa, snap);
      FloorContent(c, rs, blobs, h, pa, snap);
    }
  }

  lemma FloorContent(c: Codec, rs: seq<Record>, blobs: Blobs, h: History, pa: nat, snap: nat)
    requires Represents(c, rs, blobs, h) && Increasing(h) && snap < SNAPSHOTS
    ensures Content(c, rs, blobs, FloorRec(rs, pa, snap)) == PageOrZero(Newest(h, pa, snap))
  {
    hide Represents, FloorRec, Newest, Resolve, FloorVersion;
    LoadIsFloor(c, rs, blobs, h, pa, snap);
    FloorIsNewest(h, pa, snap);
  }

  /** A record of the log is resolved, to what it stands for, exactly when it is available. */
  lemma {:induction false} SeenIff(c: Codec, ops: seq<Op>, d: Db, r: Record)
    requires CodecOk(c) && Reaches(c, ops, d) && d.disk.log.Some? && r in d.disk.log.value.records
    requires Resolve(c, d.disk.log.value.records, d.disk.blobs, r).Ok?
    ensures var seen := Resolve(c, Consulted(d.disk), OnDisk(d).blobs, r);
      if Available(d, r) then seen == Resolve(c, d.disk.log.value.records, d.disk.blobs, r) else seen.Err?
  {
    hide Reaches, Resolve, Consulted, SnapOf, TooLate, LogOk, IndexOk, ShadowOk, ShadowFresh, ShadowNewest,
      RecordWritten,
      CutAt, WrittenOk, Shape;
    RunRefines(c, ops, d);
    ResolveConsulted(c, ops, d, OnDisk(d).blobs, r);
    LogInFiles(c, d.disk.log.value, d.disk.blobs, AbsRun(ops).log.value);
    if d.session.Some? { CutResolve(c, d.disk.log.value.records, d.disk.blobs, d.session.value.written, r); }
  }

  /** The converter on the bytes found on disk: opening the store prefers the index, the
      records come from the log, and the outcome is as stated above. */
  method ReplayDirectory(codec: Codec, index: Option<seq<byte>>, log: seq<byte>, blobs: Blobs, pages: nat,
                         ghost ops: seq<Op>, ghost d: Db) returns (r: Result<Emission>)
    requires CodecOk(codec) && Reaches(codec, ops, d) && FilesFit(d.disk.blobs) && d.disk.log.Some?
    requires Files(index, Some(log), blobs) == DiskFiles(OnDisk(d))
    requires forall x :: x in d.disk.log.value.records ==> PaOf(x.key) < pages
    ensures AbsRun(ops).log.Some? && ReplayedRight(r, d, AbsRun(ops).log.value)
  {
    hide Reaches, AbsRun, Opened, Holds, FilesFit, Consulted, IndexFile, Emitted, ReplayedRight, AllWellFormed, LogFile,
      PaOf, Readable, ReadEnd, CutAt;
    OpenedFiles(codec, ops, d);
    SameSource(d);
    ReachableReplay(codec, ops, d, pages);
    ReachableFits(codec, ops, d);
    RawReads(d.disk.log.value.header, d.disk.log.value.records);
    var store := OpenStore(codec, blobs, index, Some(log));
    r := ConvertToRaw(store.value, log, pages);
  }

  lemma RawReads(header: nat, rs: seq<Record>)
    requires AllWellFormed(rs) && header < U32
    ensures var log := LogFile(header, rs);
      && |log| >= HEADER_SIZE && log[0..8] == MAGIC_LOG
      && Readable(log[HEADER_SIZE..]) == rs && ReadEnd(log[HEADER_SIZE..]) == None
  {
    hide LogBody, LE, ParseLog, Readable, ReadEnd;
    LogFileParses(header, rs);
    ParseSplit(LogFile(header, rs)[HEADER_SIZE..]);
  }
}
