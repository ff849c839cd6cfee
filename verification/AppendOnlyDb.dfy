/** The write handle as code: its buffers, the stages of one page job run in
    any order by the worker pool, and the two save calls. */
module AppendOnlyDb {
  import opened Words
  import opened Chunk
  import opened Patch
  import opened Index
  import opened Store
  import opened Bitmap
  import opened SavePhase
  import opened Database

  class Handle {
    const codec: Codec
    const cfg: Config
    var logFile: seq<byte>
    /** All that was appended to the blob files, and how far their writers have got. */
    var blobs: Blobs
    var written: Written
    var shadow: Shadow
    var lastSnapshot: Option<nat>
    var stages: seq<Pc>
    var recordsBuf: seq<Option<Record>>
    var offsetsBuf: array<nat>
    var activeGroups: seq<nat>
    /** The header and records of `logFile`, the header padding and body it had when
        opened, which may end in a partial record, and the part of the directory a
        handle does not touch. */
    ghost var table: Table
    ghost const padding: seq<byte>
    ghost const openedBody: seq<byte>
    ghost const logStart: nat
    ghost const index: Option<Table>

    ghost predicate Valid()
      reads this
    {
      && 1 <= cfg.workers <= 255
      && (forall w: byte :: w < cfg.workers ==> w in blobs)
      && WrittenOk(written, blobs)
      && logStart <= |table.records| && table.header < U32 && |padding| == 3
      && logFile == PaddedHeader(table.header, padding) + (openedBody + LogBody(table.records[logStart..]))
    }

    ghost function State(): Db
      reads this
    {
      Db(Disk(Some(table), index, blobs), Some(Session(cfg, shadow, lastSnapshot, logStart, written)))
    }

    ghost function Current(): Phase
      reads this
    {
      Phase(stages, blobs, shadow, recordsBuf)
    }

    constructor (codec: Codec, cfg: Config, logFile: seq<byte>, last: Option<nat>, blobFiles: Blobs, ghost t: Table,
                 ghost index: Option<Table>)
      requires 1 <= cfg.workers <= 255 && ReadHeader(logFile, MAGIC_LOG) == Ok(t.header)
      ensures Valid() && this.codec == codec
      ensures openedBody == logFile[HEADER_SIZE..] && padding == logFile[13..HEADER_SIZE]
      ensures var files := OpenBlobs(blobFiles, cfg.workers);
        State() == Db(Disk(Some(t), index, files), Some(Session(cfg, map[], last, |t.records|, AllWritten(files))))
    {
      hide LogBody, ReadHeader, PaddedHeader;
      this.codec, this.cfg, this.logFile := codec, cfg, logFile;
      blobs, written := OpenBlobs(blobFiles, cfg.workers), AllWritten(OpenBlobs(blobFiles, cfg.workers));
      shadow := map[];
      lastSnapshot := last;
      stages, recordsBuf, activeGroups := [], [], [];
      offsetsBuf := new nat[0];
      table, openedBody, logStart, this.index := t, logFile[HEADER_SIZE..], |t.records|, index;
      padding := logFile[13..HEADER_SIZE];
      HeaderShape(logFile);
      NothingAdded(t.records);
    }

    /** `append_blob`: one critical section of the file's mutex. The buffered writer
        may write out any part of what it holds by then. */
    method AppendBlob(w: byte, data: seq<byte>) returns (offset: nat, len: nat)
      requires w in blobs && WrittenOk(written, blobs)
      modifies this`blobs, this`written
      ensures offset == |old(blobs)[w]| && len == |data|
      ensures blobs == old(blobs)[w := old(blobs)[w] + data]
      ensures WritesOn(old(written), written, blobs)
    {
      offset, len := |blobs[w]|, |data|;
      blobs := blobs[w := blobs[w] + data];
      var upto: nat :| written[w] <= upto <= |blobs[w]|;
      written := written[w := upto];
    }

    /** `flush`: every writer is emptied. */
    method FlushAll()
      requires Valid()
      modifies this`written
      ensures Valid() && State() == Flushed(old(State()))
    {
      written := AllWritten(blobs);
    }

    method InsertShadow(pa: nat, key: nat, page: Page)
      modifies this`shadow
      ensures shadow == InsertIfNewer(old(shadow), pa, ShadowEntry(key, page))
    {
      var install := if pa in shadow then key > shadow[pa].key else true;
      if install { shadow := shadow[pa := ShadowEntry(key, page)]; }
    }

    /** The choice between Zero, Delta and Full for one page. */
    method Choose(job: Job) returns (plan: Plan)
      ensures plan == MakePlan(codec, cfg, shadow, job)
      ensures PlanKind(plan) == RightKind(cfg, shadow, job)
    {
      PlanIsRight(codec, cfg, shadow, job);
      if AllZero(job.page) { return PlanZero; }
      if cfg.useShadow && job.pa in shadow {
        var patch := ComputeXorPatch(job.page, shadow[job.pa].page);
        if |patch| <= cfg.threshold {
          var data := EncodeDeltaPatch(patch);
          return PlanDelta(shadow[job.pa].key, data);
        }
      }
      return PlanFull(codec.compress(job.page));
    }

    /** One stage of one job of `process_one`, on the shared buffers. */
    method Advance(x: Context, t: Step)
      requires x.codec == codec && x.cfg == cfg && Enabled(x, Current(), t) && WrittenOk(written, blobs)
      modifies this`blobs, this`written, this`shadow, this`stages, this`recordsBuf
      ensures Current() == Next(x, old(Current()), t)
      ensures WritesOn(old(written), written, blobs)
    {
      var i := t.job;
      var job := x.jobs[i];
      var key := EncodeKey(job.pa, x.id);
      var w := WorkerOf(cfg, job.pa);
      match t.action {
        case Decide =>
          var plan := Choose(job);
          stages := stages[i := Planned(plan)];
        case Append =>
          var plan := stages[i].plan;
          var rec := NewZero(key);
          if !plan.PlanZero? {
            var offset, len := AppendBlob(w, plan.data);
            rec := match plan
              case PlanDelta(base, _) => NewDelta(key, w, offset, len, base)
              case _ => NewFull(key, w, offset, len);
          }
          stages := stages[i := Appended(plan, rec)];
        case Publish =>
          var Appended(plan, rec) := stages[i];
          if plan.PlanFull? && cfg.useShadow { InsertShadow(job.pa, key, job.page); }
          stages := stages[i := Published(rec)];
        case Write =>
          var rec := stages[i].rec;
          recordsBuf := recordsBuf[i := Some(rec)];
          stages := stages[i := Done(rec)];
      }
    }

    /** The worker pool: any unfinished job may take the next step, until all are done. */
    method RunJobs(x: Context)
      requires x.codec == codec && x.cfg == cfg && Ready(x, blobs) && WrittenOk(written, blobs)
      modifies this`blobs, this`written, this`shadow, this`stages, this`recordsBuf
      ensures Finishes(x, old(blobs), old(shadow), Current())
      ensures WritesOn(old(written), written, blobs)
      ensures blobs.Keys == old(blobs).Keys
    {
      hide Inv, Next, Enabled;
      stages, recordsBuf := seq(|x.jobs|, _ => Todo), seq(|x.jobs|, _ => None);
      ghost var s0 := Start(x, blobs, shadow);
      ghost var schedule: seq<Step> := [];
      StartInv(x, blobs, shadow);
      assert Current() == s0;
      while exists i :: 0 <= i < |stages| && !stages[i].Done?
        invariant |stages| == |x.jobs|
        invariant Runs(x, s0, schedule, Current()) && Inv(x, s0, Current())
        invariant WritesOn(old(written), written, blobs) && written.Keys == old(written).Keys
        decreases Remaining(stages)
      {
        var i: nat :| i < |stages| && !stages[i].Done?;
        var t := Step(NextAction(stages[i]), i);
        ghost var enabled := Progress(x, s0, Current(), i);
        ghost var before := Current();
        RunsAppend(x, s0, schedule, before, t);
        StepInv(x, s0, before, t);
        StepRanks(x, before, t);
        ghost var was := written;
        Advance(x, t);
        JobCount(x, s0, Current());
        WritesOnTwice(old(written), was, written, blobs);
        schedule := schedule + [t];
      }
      CompletedSlots(x, s0, Current());
      JobCount(x, s0, Current());
    }

    /** `write_to` for every buffered record. */
    method WriteRecords(ghost all: seq<Record>)
      requires |recordsBuf| == |all| && forall i :: 0 <= i < |all| ==> recordsBuf[i] == Some(all[i])
      modifies this`logFile
      ensures logFile == old(logFile) + LogBody(all)
    {
      hide LogBytes;
      assert LogBody(all[..0]) == [];
      for i := 0 to |recordsBuf|
        invariant logFile == old(logFile) + LogBody(all[..i])
      {
        var bytes := WriteTo(recordsBuf[i].value);
        assert all[..i + 1] == all[..i] + [all[i]];
        LogBodyAppend(all[..i], [all[i]]);
        assert LogBody([all[i]]) == LogBytes(all[i]);
        logFile := logFile + bytes;
      }
      assert all[..|all|] == all;
    }

    /** Writes the buffered records to the log and the new maximum to its header. */
    method AppendRecords(id: nat, ghost s: Phase)
      requires Valid() && recordsBuf == s.slots && forall i :: 0 <= i < |s.slots| ==> s.slots[i].Some?
      requires id < SNAPSHOTS
      modifies this`logFile, this`table
      ensures Valid() && table == Table(id, old(table.records) + Records(s))
    {
      hide PaddedHeader, LogBody, LE;
      ghost var all, added := Records(s), table.records[logStart..];
      ghost var header := PaddedHeader(table.header, padding);
      WriteRecords(all);
      assert logFile == header + (openedBody + (LogBody(added) + LogBody(all)));
      LogBodyAppend(added, all);
      PatchHeader(table.header, padding, openedBody + LogBody(added + all), id);
      logFile := logFile[..9] + LE(id, 4) + logFile[13..];
      assert (table.records + all)[logStart..] == added + all;
      table := Table(id, table.records + all);
    }

    method SaveAllPages(memory: seq<byte>, total: nat, id: nat) returns (r: Result<()>)
      requires Valid() && CodecOk(codec) && total <= PA_LIMIT
      modifies this
      ensures Valid() && SaveNext(codec, old(State()), AllPages(memory, total), id, State())
      ensures r == SaveOutcome(old(lastSnapshot), AllPages(memory, total), id)
    {
      hide Start, Inv, Records, CodecOk;
      ghost var req := AllPages(memory, total);
      var refused := Admit(lastSnapshot, id);
      if refused.Some? { return Err(refused.value); }
      lastSnapshot := Some(id);
      if |memory| != total * PAGE_SIZE { return Err(MemoryLength); }
      if total == 0 { return Ok(()); }
      var jobs := JobsFor(memory, seq(total, i => i));
      JobsAscend(req);
      Commit(Context(codec, cfg, id, jobs));
      return Ok(());
    }

    method SavePagesWithBitmap(memory: seq<byte>, bitmap: seq<u64>, total: nat, id: nat) returns (r: Result<()>)
      requires Valid() && CodecOk(codec) && total <= PA_LIMIT / 2
      modifies this
      ensures Valid() && SaveNext(codec, old(State()), DirtyOnly(memory, bitmap, total), id, State())
      ensures r == SaveOutcome(old(lastSnapshot), DirtyOnly(memory, bitmap, total), id)
    {
      hide Start, Inv, Records, CodecOk, DirtyPages, DirtyBefore, HoldsOffsets, HoldsCounts, ListsActive, GroupCount,
        WordCount;
      ghost var req := DirtyOnly(memory, bitmap, total);
      var refused := Admit(lastSnapshot, id);
      if refused.Some? { return Err(refused.value); }
      lastSnapshot := Some(id);
      if |memory| != total * PAGE_SIZE { return Err(MemoryLength); }
      if |bitmap| < WordCount(total) { return Err(BitmapTooShort); }
      GroupsFit(total);
      var offsets := new nat[GroupCount(total) + 1](_ => 0);
      offsetsBuf := offsets;
      CountGroups(bitmap, total, offsets);
      var ok, active := PrefixSums(bitmap, total, offsets);
      activeGroups := active;
      if !ok { return Err(TooManyDirty); }
      var pages := VisitAll(bitmap, total, offsets, active);
      if pages == [] { return Ok(()); }
      DirtyPagesExact(bitmap, total);
      var jobs := JobsFor(memory, pages);
      JobsAscend(req);
      Commit(Context(codec, cfg, id, jobs));
      return Ok(());
    }

    /** Runs the jobs and appends their records. */
    method Commit(x: Context)
      requires Valid() && x.codec == codec && x.cfg == cfg && CodecOk(codec) && x.id < SNAPSHOTS && JobsOk(x.jobs)
      modifies this`blobs, this`written, this`shadow, this`stages, this`recordsBuf, this`logFile, this`table
      ensures Valid()
      ensures Finishes(x, old(blobs), old(shadow), Current()) && WritesOn(old(written), written, blobs)
      ensures table == Table(x.id, old(table.records) + Records(Current()))
    {
      hide Start, Inv, Records, CodecOk, Runs;
      RunJobs(x);
      AppendRecords(x.id, Current());
    }
  }

  function SaveOutcome(last: Option<nat>, req: Request, id: nat): Result<()> {
    match Admit(last, id)
    case Some(e) => Err(e)
    case None => match JobsOf(req) case Err(e) => Err(e) case Ok(_) => Ok(())
  }

  lemma WritesOnTwice(a: Written, b: Written, c: Written, blobs: Blobs)
    requires a.Keys == b.Keys && (forall w :: w in a ==> a[w] <= b[w]) && WritesOn(b, c, blobs)
    ensures WritesOn(a, c, blobs)
  {
  }

  /* ---- the bytes of the log file ---- */

  /** A log header with any padding: `Header` has three zeros there. */
  function PaddedHeader(maxSnap: nat, padding: seq<byte>): seq<byte> {
    MAGIC_LOG + [FORMAT_VERSION] + LE(maxSnap, 4) + padding
  }

  lemma HeaderShape(file: seq<byte>)
    ensures match ReadHeader(file, MAGIC_LOG)
      case Ok(maxSnap) =>
        maxSnap < U32 && file == PaddedHeader(maxSnap, file[13..HEADER_SIZE]) + file[HEADER_SIZE..]
      case Err(_) => true
  {
    hide LE, FromLE;
    if ReadHeader(file, MAGIC_LOG).Ok? {
      FieldRange(file[9..13]);
      assert file == file[0..8] + [file[8]] + file[9..13] + file[13..16] + file[16..];
    }
  }

  lemma PatchHeader(was: nat, padding: seq<byte>, body: seq<byte>, id: nat)
    ensures var file := PaddedHeader(was, padding) + body;
      |file| >= 13 && file[..9] + LE(id, 4) + file[13..] == PaddedHeader(id, padding) + body
  {
    hide LE;
  }

  lemma NothingAdded(rs: seq<Record>)
    ensures forall body: seq<byte> :: body + LogBody(rs[|rs|..]) == body
  {
    assert rs[|rs|..] == [];
  }

  /** As long as the log did not end in a partial record when it was opened, its file
      reads back, at any time, as the handle's records. */
  lemma LogReadsBack(h: Handle)
    requires h.Valid() && ParseLog(h.openedBody) == Ok(h.table.records[..h.logStart])
    requires |h.openedBody| == |LogBody(h.table.records[..h.logStart])| && AllWellFormed(h.table.records[h.logStart..])
    ensures ParseLogFile(h.logFile) == Ok(h.table.records)
  {
    hide ParseLog, LogBody, AllWellFormed, LE, FromLE;
    var base, added := h.table.records[..h.logStart], h.table.records[h.logStart..];
    AppendsCleanlyIff(h.openedBody, base);
    assert ParseLog(h.openedBody + LogBody(added)) == Ok(base + added);
    assert base + added == h.table.records;
    assert h.logFile[HEADER_SIZE..] == h.openedBody + LogBody(added) && h.logFile[0..8] == MAGIC_LOG;
  }

  /** A handle on a file as the writers of logs leave it keeps it so, byte for byte. */
  lemma LogFileExact(h: Handle)
    requires h.Valid() && h.padding == [0, 0, 0] && h.openedBody == LogBody(h.table.records[..h.logStart])
    ensures h.logFile == LogFile(h.table.header, h.table.records)
  {
    hide LogBody, LE;
    var base, added := h.table.records[..h.logStart], h.table.records[h.logStart..];
    LogBodyAppend(base, added);
    assert base + added == h.table.records;
  }

  /* ---- opening ---- */

  /** There is no log yet, or an empty file. */
  predicate NoLog(log: Option<seq<byte>>) { log.None? || log.value == [] }

  /** `open`: a fresh log gets an empty header; an existing one gives its header as
      the last snapshot. The body is not read, so a bad record in it, or a partial
      one at its end, goes unnoticed. */
  method OpenHandle(codec: Codec, log: Option<seq<byte>>, blobFiles: Blobs, workers: nat, threshold: nat,
                    useShadow: bool, ghost index: Option<Table>) returns (r: Result<Handle>)
    ensures !(1 <= workers <= 255) ==> r == Err(WorkerCount)
    ensures 1 <= workers <= 255 && !NoLog(log) && ReadHeader(log.value, MAGIC_LOG).Err? ==>
      r == Err(ReadHeader(log.value, MAGIC_LOG).error)
    ensures 1 <= workers <= 255 && NoLog(log) ==>
      && r.Ok? && fresh(r.value) && r.value.Valid() && r.value.codec == codec
      && r.value.openedBody == [] && r.value.padding == [0, 0, 0]
      && r.value.State() == OpenDb(Db(Disk(None, index, blobFiles), None), workers, threshold, useShadow)
    ensures 1 <= workers <= 255 && !NoLog(log) && ReadHeader(log.value, MAGIC_LOG).Ok? ==>
      var header := ReadHeader(log.value, MAGIC_LOG).value;
      && r.Ok? && fresh(r.value) && r.value.Valid() && r.value.codec == codec
      && r.value.openedBody == log.value[HEADER_SIZE..] && r.value.padding == log.value[13..HEADER_SIZE]
      && r.value.lastSnapshot == Some(header) && r.value.table.header == header
      && forall rs :: ParseLog(log.value[HEADER_SIZE..]) == Ok(rs) ==>
           r.value.State() ==
             OpenDb(Db(Disk(Some(Table(header, rs)), index, blobFiles), None), workers, threshold, useShadow)
  {
    hide Header, ReadHeader, ParseLog;
    if workers == 0 || workers > 255 { return Err(WorkerCount); }
    var cfg := Config(workers, if threshold == 0 then DEFAULT_DELTA_THRESHOLD else threshold, useShadow);
    var handle: Handle;
    if NoLog(log) {
      FreshHeader();
      handle := new Handle(codec, cfg, Header(MAGIC_LOG, 0), None, blobFiles, Table(0, []), index);
    } else {
      var header := ReadHeader(log.value, MAGIC_LOG);
      if header.Err? { return Err(header.error); }
      ghost var rs: seq<Record> := *;
      if ParseLog(log.value[HEADER_SIZE..]).Ok? { rs := ParseLog(log.value[HEADER_SIZE..]).value; }
      handle := new Handle(codec, cfg, log.value, Some(header.value), blobFiles, Table(header.value, rs), index);
    }
    return Ok(handle);
  }

  lemma FreshHeader()
    ensures var file := Header(MAGIC_LOG, 0);
      ReadHeader(file, MAGIC_LOG) == Ok(0) && file[HEADER_SIZE..] == [] && file[13..HEADER_SIZE] == [0, 0, 0]
  {
    HeaderRoundTrip(MAGIC_LOG, 0, []);
    assert Header(MAGIC_LOG, 0) + [] == Header(MAGIC_LOG, 0);
  }

  lemma GroupsFit(total: nat)
    requires total <= PA_LIMIT / 2
    ensures GroupCount(total) <= U32
  {
  }
}
