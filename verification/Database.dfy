/** The database as a state machine: what is on disk, what an open write handle
    holds, and the abstract machine of save histories it refines. */
module Database {
  import opened Words
  import opened Chunk
  import opened Index
  import opened Store
  import opened Bitmap
  import opened SavePhase
  import opened Convert
  import opened Purge

  /* ---- save requests ---- */

  type u64 = x: nat | x < U64

  /** The arguments of `save_all_pages` and `save_pages_with_bitmap`. */
  datatype Request =
    | AllPages(memory: seq<byte>, total: nat)
    | DirtyOnly(memory: seq<byte>, bitmap: seq<u64>, total: nat)

  function PageAt(memory: seq<byte>, pa: nat): Page
    requires PAGE_SIZE * (pa + 1) <= |memory|
  {
    memory[PAGE_SIZE * pa..PAGE_SIZE * (pa + 1)]
  }

  function JobsFor(memory: seq<byte>, pages: seq<nat>): (jobs: seq<Job>)
    requires forall i :: 0 <= i < |pages| ==> PAGE_SIZE * (pages[i] + 1) <= |memory|
    ensures |jobs| == |pages|
    ensures forall i :: 0 <= i < |pages| ==> jobs[i] == Job(pages[i], PageAt(memory, pages[i]))
  {
    seq(|pages|, i requires 0 <= i < |pages| => Job(pages[i], PageAt(memory, pages[i])))
  }

  /** The argument checks that follow the snapshot check, and the page jobs. */
  function JobsOf(req: Request): Result<seq<Job>> {
    if |req.memory| != req.total * PAGE_SIZE then Err(MemoryLength)
    else match req
      case AllPages(memory, total) => Ok(JobsFor(memory, seq(total, i => i)))
      case DirtyOnly(memory, bitmap, total) =>
        if |bitmap| < WordCount(total) then Err(BitmapTooShort)
        else
          DirtyPagesExact(bitmap, total);
          var dirty := DirtyPages(bitmap, total);
          if |dirty| >= U32 then Err(TooManyDirty) else Ok(JobsFor(memory, dirty))
  }

  /** Address bounds: a PA has 45 bits, and bitmap group indices 32. */
  ghost predicate RequestFits(req: Request) {
    req.total <= if req.AllPages? then PA_LIMIT else PA_LIMIT / 2
  }

  ghost predicate JobsOk(jobs: seq<Job>) {
    && (forall i :: 0 <= i < |jobs| ==> jobs[i].pa < PA_LIMIT)
    && (forall i, j :: 0 <= i < j < |jobs| ==> jobs[i].pa < jobs[j].pa)
  }

  /** Jobs come in strictly ascending PA order, within the address bound. */
  lemma JobsAscend(req: Request)
    requires RequestFits(req) && JobsOf(req).Ok?
    ensures JobsOk(JobsOf(req).value)
  {
    match req {
      case AllPages(_, _) =>
      case DirtyOnly(memory, bitmap, total) =>
        DirtyPagesExact(bitmap, total);
    }
  }

  /** The pages a request asks to save. */
  ghost predicate Includes(req: Request, pa: nat) {
    match req
    case AllPages(_, total) => pa < total
    case DirtyOnly(_, bitmap, total) => IsDirty(bitmap, total, pa)
  }

  /** A job hands over the page's 4096 bytes, which start at 4096 * PA. */
  ghost predicate HandsOver(memory: seq<byte>, job: Job) {
    && 4096 * job.pa + 4096 <= |memory| && |job.page| == 4096
    && forall i :: 0 <= i < 4096 ==> job.page[i] == memory[4096 * job.pa + i]
  }

  ghost predicate HasJob(jobs: seq<Job>, pa: nat) {
    exists i :: 0 <= i < |jobs| && jobs[i].pa == pa
  }

  /** Of either kind of request, the jobs are the pages asked for, each once and in
      ascending order, and each with its own bytes of the memory. */
  lemma JobsExact(req: Request)
    requires JobsOf(req).Ok?
    ensures var jobs := JobsOf(req).value;
      && (forall i, j :: 0 <= i < j < |jobs| ==> jobs[i].pa < jobs[j].pa)
      && (forall pa: nat :: HasJob(jobs, pa) <==> Includes(req, pa))
      && (forall i :: 0 <= i < |jobs| ==> HandsOver(req.memory, jobs[i]))
  {
    hide JobsOf, Includes, HandsOver, HasJob;
    var pages := PagesAsked(req);
    forall pa: nat ensures HasJob(JobsOf(req).value, pa) <==> Includes(req, pa) {
      HasJobIff(req.memory, pages, pa);
    }
    forall i | 0 <= i < |pages| ensures HandsOver(req.memory, JobsOf(req).value[i]) {
      HandsOverPage(req.memory, pages[i]);
    }
  }

  /** The jobs are those of an ascending list of the pages asked for. */
  lemma PagesAsked(req: Request) returns (pages: seq<nat>)
    requires JobsOf(req).Ok?
    ensures forall i :: 0 <= i < |pages| ==> PAGE_SIZE * (pages[i] + 1) <= |req.memory|
    ensures JobsOf(req).value == JobsFor(req.memory, pages)
    ensures forall i, j :: 0 <= i < j < |pages| ==> pages[i] < pages[j]
    ensures forall pa: nat :: pa in pages <==> Includes(req, pa)
  {
    hide DirtyPages, IsDirty;
    match req {
      case AllPages(_, total) =>
        pages := seq(total, i => i);
        forall pa: nat ensures pa in pages <==> pa < total { if pa < total { assert pages[pa] == pa; } }
      case DirtyOnly(_, bitmap, total) =>
        pages := DirtyPages(bitmap, total);
        DirtyPagesExact(bitmap, total);
    }
  }

  lemma HasJobIff(memory: seq<byte>, pages: seq<nat>, pa: nat)
    requires forall i :: 0 <= i < |pages| ==> PAGE_SIZE * (pages[i] + 1) <= |memory|
    ensures HasJob(JobsFor(memory, pages), pa) <==> pa in pages
  {
    if pa in pages {
      var i :| 0 <= i < |pages| && pages[i] == pa;
      assert JobsFor(memory, pages)[i].pa == pa;
    }
  }

  lemma HandsOverPage(memory: seq<byte>, pa: nat)
    requires PAGE_SIZE * (pa + 1) <= |memory|
    ensures HandsOver(memory, Job(pa, PageAt(memory, pa)))
  {
  }

  /** Exactly when a request is refused, and why: the checks come in this order. */
  lemma JobsRefused(req: Request)
    ensures JobsOf(req).Err? ==> JobsOf(req).error in {MemoryLength, BitmapTooShort, TooManyDirty}
    ensures JobsOf(req) == Err(MemoryLength) <==> |req.memory| != 4096 * req.total
    ensures JobsOf(req) == Err(BitmapTooShort) <==>
      |req.memory| == 4096 * req.total && req.DirtyOnly? && 64 * |req.bitmap| < req.total
    ensures JobsOf(req) == Err(TooManyDirty) <==>
      && |req.memory| == 4096 * req.total && req.DirtyOnly? && 64 * |req.bitmap| >= req.total
      && |DirtySet(req.bitmap, req.total)| >= U32
  {
    hide DirtyPages, IsDirty;
    if req.DirtyOnly? && |req.bitmap| >= WordCount(req.total) {
      DirtyPagesExact(req.bitmap, req.total);
      DirtyCount(req.bitmap, req.total);
    }
  }

  ghost function DirtySet(bitmap: seq<u64>, total: nat): set<nat> {
    set pa: nat | pa < total && IsDirty(bitmap, total, pa)
  }

  lemma DirtyCount(bitmap: seq<u64>, total: nat)
    requires WordCount(total) <= |bitmap|
    ensures |DirtyPages(bitmap, total)| == |DirtySet(bitmap, total)|
  {
    hide DirtyPages, WordCount;
    DirtyPagesExact(bitmap, total);
    forall pa: nat ensures IsDirty(bitmap, total, pa) ==> pa < total {}
    hide IsDirty;
    CountDistinct(DirtyPages(bitmap, total), DirtySet(bitmap, total));
  }

  /** `snapshot_id` must fit 19 bits and exceed the last one. */
  function Admit(last: Option<nat>, id: nat): Option<Error> {
    if id > MAX_SNAPSHOT_ID then Some(SnapshotTooLarge)
    else if last.Some? && id <= last.value then Some(SnapshotNotIncreasing)
    else None
  }

  datatype Op =
    | Open(workers: nat, threshold: nat, useShadow: bool)
    | Close
    | Flush
    | SavePages(req: Request, id: nat)
    | ToBtreeOp
    | ToLogOp
    | PurgeOp(threshold: nat)

  ghost predicate OpFits(op: Op) {
    op.SavePages? ==> RequestFits(op.req)
  }

  /* ---- the abstract machine: histories of saves ---- */

  /** Histories behind chunks.log and index.bxdb, and the last snapshot id of
      the open write handle. */
  datatype Abs = Abs(log: Option<History>, index: Option<History>, session: Option<Option<nat>>)

  function LastId(h: History): nat { if h == [] then 0 else h[|h| - 1].id }

  function PagesOf(jobs: seq<Job>): map<nat, Page> {
    if jobs == [] then map[]
    else PagesOf(jobs[..|jobs| - 1])[jobs[|jobs| - 1].pa := jobs[|jobs| - 1].page]
  }

  function AbsSave(a: Abs, req: Request, id: nat): Abs {
    if a.session.None? || a.log.None? || Admit(a.session.value, id).Some? then a
    else
      var b := a.(session := Some(Some(id)));
      match JobsOf(req)
      case Err(_) => b
      case Ok(jobs) => if jobs == [] then b else b.(log := Some(a.log.value + [Save(id, PagesOf(jobs))]))
  }

  predicate HasLater(h: History, t: nat) { exists i :: 0 <= i < |h| && h[i].id > t }

  function AbsPurge(a: Abs, t: nat): Abs {
    var source := if a.index.Some? then a.index else a.log;
    if source.None? || !HasLater(source.value, t) then a
    else
      var h := Some(UpTo(source.value, t));
      a.(log := if a.log.Some? then h else None, index := if a.index.Some? then h else None)
  }

  function AbsStep(a: Abs, op: Op): Abs {
    match op
    case Open(workers, _, _) =>
      if a.session.Some? || workers == 0 || workers > 255 then a
      else if a.log.None? then a.(log := Some([]), session := Some(None))
      else a.(session := Some(Some(LastId(a.log.value))))
    case Close => a.(session := None)
    case Flush => a
    case SavePages(req, id) => AbsSave(a, req, id)
    case ToBtreeOp => if a.session.None? && a.log.Some? then a.(index := a.log) else a
    case ToLogOp => if a.session.None? && a.index.Some? then a.(log := a.index) else a
    case PurgeOp(t) => if a.session.None? then AbsPurge(a, t) else a
  }

  function AbsRun(ops: seq<Op>): Abs {
    if ops == [] then Abs(None, None, None) else AbsStep(AbsRun(ops[..|ops| - 1]), ops[|ops| - 1])
  }

  /** What a reader is promised: the index's history if there is one, else the log's. */
  function AbsRead(a: Abs, pa: nat, snap: nat): Result<Option<Page>> {
    if a.index.None? && a.log.None? then Err(NotFound)
    else if snap > MAX_SNAPSHOT_ID then Err(SnapshotTooLarge)
    else Ok(Newest(if a.index.Some? then a.index.value else a.log.value, pa, snap))
  }

  /* ---- the concrete machine ---- */

  datatype Table = Table(header: nat, records: seq<Record>)

  datatype Disk = Disk(log: Option<Table>, index: Option<Table>, blobs: Blobs)

  /** How much of each blob file has left its writer's buffer. */
  type Written = map<byte, nat>

  function AllWritten(blobs: Blobs): Written { map w | w in blobs :: |blobs[w]| }

  ghost predicate WrittenOk(written: Written, blobs: Blobs) {
    written.Keys == blobs.Keys && forall w :: w in blobs ==> written[w] <= |blobs[w]|
  }

  /** A buffered writer may write out any part of what it was given, and takes nothing back. */
  ghost predicate WritesOn(before: Written, after: Written, blobs: Blobs) {
    WrittenOk(after, blobs) && forall w :: w in before && w in after ==> before[w] <= after[w]
  }

  /** An open write handle; `logStart` is the number of records the log had then. */
  datatype Session = Session(cfg: Config, shadow: Shadow, last: Option<nat>, logStart: nat, written: Written)

  /** `disk.blobs` holds all that was appended, also what an open handle still buffers. */
  datatype Db = Db(disk: Disk, session: Option<Session>)

  /** The files as others find them: blob files end where their writers have got to. */
  function OnDisk(d: Db): Disk {
    match d.session
    case None => d.disk
    case Some(s) => d.disk.(blobs := CutAt(d.disk.blobs, s.written))
  }

  function CutAt(blobs: Blobs, written: Written): Blobs {
    map w | w in blobs ::
      if w in written && written[w] <= |blobs[w]| then blobs[w][..written[w]] else blobs[w]
  }

  function OpenBlobs(blobs: Blobs, workers: nat): Blobs
    requires workers <= 255
  {
    blobs + map w: byte | w < workers && w !in blobs :: []
  }

  function OpenDb(d: Db, workers: nat, threshold: nat, useShadow: bool): Db {
    if d.session.Some? || workers == 0 || workers > 255 then d
    else
      var cfg := Config(workers, if threshold == 0 then DEFAULT_DELTA_THRESHOLD else threshold, useShadow);
      var blobs := OpenBlobs(d.disk.blobs, workers);
      match d.disk.log
      case None =>
        Db(d.disk.(log := Some(Table(0, [])), blobs := blobs), Some(Session(cfg, map[], None, 0, AllWritten(blobs))))
      case Some(t) =>
        Db(d.disk.(blobs := blobs), Some(Session(cfg, map[], Some(t.header), |t.records|, AllWritten(blobs))))
  }

  /** The state after the parallel phase of a save has finished in `s`. The log is
      written out, since seeking to its header empties its buffer; the blobs need not be. */
  ghost function AfterSave(d: Db, id: nat, s: Phase, written: Written): Db
    requires d.session.Some? && d.disk.log.Some?
    requires forall i :: 0 <= i < |s.slots| ==> s.slots[i].Some?
  {
    Db(d.disk.(log := Some(Table(id, d.disk.log.value.records + Records(s))), blobs := s.blobs),
       Some(d.session.value.(shadow := s.shadow, last := Some(id), written := written)))
  }

  ghost predicate Finishes(x: Context, blobs: Blobs, shadow: Shadow, s: Phase) {
    && (exists schedule :: Runs(x, Start(x, blobs, shadow), schedule, s))
    && Complete(s)
    && forall i :: 0 <= i < |s.slots| ==> s.slots[i].Some?
  }

  /** Any outcome a save may have; the page jobs may interleave in any way. */
  ghost predicate SaveNext(c: Codec, d: Db, req: Request, id: nat, d': Db) {
    if d.session.None? || d.disk.log.None? || Admit(d.session.value.last, id).Some? then d' == d
    else
      var sess := d.session.value;
      match JobsOf(req)
      case Err(_) => d' == d.(session := Some(sess.(last := Some(id))))
      case Ok(jobs) =>
        if jobs == [] then d' == d.(session := Some(sess.(last := Some(id))))
        else exists s, written ::
          && Finishes(Context(c, sess.cfg, id, jobs), d.disk.blobs, sess.shadow, s)
          && WritesOn(sess.written, written, s.blobs)
          && d' == AfterSave(d, id, s, written)
  }

  /** The log `to_log` writes for an index. */
  function Relogged(index: Table): Table { Table(MaxSnap(index.records), Regroup(index.records)) }

  function ToTable(rs: seq<Record>): Table { Table(MaxSnap(rs), rs) }

  /** The records that readers, purges and the raw converter go by: the index if
      there is one, else the sorted log. */
  function Consulted(d: Disk): seq<Record>
    requires d.index.Some? || d.log.Some?
  {
    if d.index.Some? then d.index.value.records else IndexOf(d.log.value.records)
  }

  function PurgeDisk(d: Disk, t: nat): Disk {
    if d.index.None? && d.log.None? then d
    else
      var rs := Consulted(d);
      var kept := Keep(rs, t);
      if |kept| == |rs| then d
      else Disk(
        if d.log.Some? then Some(Table(MaxSnap(kept), Grouped(kept))) else None,
        if d.index.Some? then Some(ToTable(kept)) else None,
        PurgedBlobs(d.blobs, kept))
  }

  /** `flush`: every writer's buffer is written out, as closing a handle does, too. */
  function Flushed(d: Db): Db {
    match d.session
    case None => d
    case Some(s) => d.(session := Some(s.(written := AllWritten(d.disk.blobs))))
  }

  ghost predicate DbStep(c: Codec, d: Db, op: Op, d': Db) {
    match op
    case Open(workers, threshold, useShadow) => d' == OpenDb(d, workers, threshold, useShadow)
    case Close => d' == d.(session := None)
    case Flush => d' == Flushed(d)
    case SavePages(req, id) => SaveNext(c, d, req, id, d')
    case ToBtreeOp =>
      d' == if d.session.None? && d.disk.log.Some?
            then d.(disk := d.disk.(index := Some(ToTable(IndexOf(d.disk.log.value.records))))) else d
    case ToLogOp =>
      d' == if d.session.None? && d.disk.index.Some?
            then d.(disk := d.disk.(log := Some(Relogged(d.disk.index.value)))) else d
    case PurgeOp(t) => d' == if d.session.None? then d.(disk := PurgeDisk(d.disk, t)) else d
  }

  /** `d` is reachable from an empty directory by the operations `ops`. */
  ghost predicate Reaches(c: Codec, ops: seq<Op>, d: Db) {
    if ops == [] then d == Db(Disk(None, None, map[]), None)
    else
      var before, op := ops[..|ops| - 1], ops[|ops| - 1];
      OpFits(op) && exists d0 :: Reaches(c, before, d0) && DbStep(c, d0, op, d)
  }

  /** Opening a reader and loading one page. */
  function ReadPage(c: Codec, d: Disk, pa: nat, snap: nat): Result<Option<Page>> {
    if d.index.None? && d.log.None? then Err(NotFound)
    else Load(c, Consulted(d), d.blobs, pa, snap)
  }

  /* ---- the refinement relation ---- */

  ghost predicate HistoryOk(h: History) {
    Increasing(h) && forall i :: 0 <= i < |h| ==> h[i].pages != map[]
  }

  /** What holds of a record list however it is ordered. */
  ghost predicate TableOk(c: Codec, t: Table, blobs: Blobs, h: History) {
    && HistoryOk(h)
    && Represents(c, t.records, blobs, h)
    && t.header == MaxSnap(t.records)
    && SnapshotOrdered(t.records)
    && NoOverlap(t.records)
  }

  ghost predicate LogOk(c: Codec, t: Table, blobs: Blobs, h: History) {
    TableOk(c, t, blobs, h) && LogSorted(t.records)
  }

  ghost predicate IndexOk(c: Codec, t: Table, blobs: Blobs, h: History) {
    TableOk(c, t, blobs, h) && StrictKeys(t.records)
  }

  /** A shadow entry names a Full record of its page, in its worker's file, and
      holds exactly the page that record decompresses to. */
  ghost predicate EntryOk(c: Codec, cfg: Config, rs: seq<Record>, blobs: Blobs, pa: nat, e: ShadowEntry) {
    match First(rs, e.key)
    case None => false
    case Some(r) =>
      r.kind == Full && PaOf(e.key) == pa && r.workerId == WorkerOf(cfg, pa) && Decompress(c, blobs, r) == Ok(e.page)
  }

  ghost predicate ShadowOk(c: Codec, cfg: Config, rs: seq<Record>, blobs: Blobs, shadow: Shadow) {
    forall pa :: pa in shadow ==> EntryOk(c, cfg, rs, blobs, pa, shadow[pa])
  }

  /** A record written by the session that opened a log of `logStart` records. */
  ghost predicate InSession(rs: seq<Record>, logStart: nat, key: nat) {
    exists i :: logStart <= i < |rs| && rs[i].key == key
  }

  /** The shadow starts empty, so what it holds was written by this session. */
  ghost predicate ShadowFresh(rs: seq<Record>, logStart: nat, shadow: Shadow) {
    forall pa :: pa in shadow ==> InSession(rs, logStart, shadow[pa].key)
  }

  /** With the shadow on, it knows the newest Full record this session wrote for each page. */
  ghost predicate ShadowNewest(rs: seq<Record>, logStart: nat, shadow: Shadow) {
    forall i :: logStart <= i < |rs| && rs[i].kind == Full ==>
      PaOf(rs[i].key) in shadow && SnapOf(rs[i].key) <= SnapOf(shadow[PaOf(rs[i].key)].key)
  }

  ghost predicate LastOk(rs: seq<Record>, last: Option<nat>) {
    match last
    case None => rs == []
    case Some(l) => l < SNAPSHOTS && forall r :: r in rs ==> SnapOf(r.key) <= l
  }

  ghost predicate SessionOk(c: Codec, s: Session, rs: seq<Record>, blobs: Blobs) {
    && 1 <= s.cfg.workers <= 255
    && (forall w: byte :: w < s.cfg.workers ==> w in blobs)
    && s.logStart <= |rs|
    && LastOk(rs, s.last)
    && WrittenOk(s.written, blobs)
    && ShadowOk(c, s.cfg, rs, blobs, s.shadow)
    && ShadowFresh(rs, s.logStart, s.shadow)
    && (s.cfg.useShadow ==> ShadowNewest(rs, s.logStart, s.shadow))
  }

  ghost predicate Refines(c: Codec, d: Db, a: Abs) {
    && (d.disk.log.Some? <==> a.log.Some?)
    && (d.disk.log.Some? ==> LogOk(c, d.disk.log.value, d.disk.blobs, a.log.value))
    && (d.disk.index.Some? <==> a.index.Some?)
    && (d.disk.index.Some? ==> IndexOk(c, d.disk.index.value, d.disk.blobs, a.index.value))
    && (d.session.Some? <==> a.session.Some?)
    && (d.session.Some? ==>
          && d.disk.log.Some?
          && d.session.value.last == a.session.value
          && SessionOk(c, d.session.value, d.disk.log.value.records, d.disk.blobs))
  }
}
