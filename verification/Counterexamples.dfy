/** Concrete runs on which a promise of the documentation fails. */
module Counterexamples {
  import opened Words
  import opened Chunk
  import opened Patch
  import opened Index
  import opened Store
  import opened SavePhase
  import opened Convert
  import opened Purge
  import opened Database
  import opened SaveStep
  import opened Refinement
  import opened Invariants
  import opened Sessions
  import opened RawConvert
  import opened Loads
  import opened EndToEnd

  /** A page that is not all zero. */
  function SomePage(): (p: Page)
    ensures p[0] == 1
  {
    seq(PAGE_SIZE, i => if i == 0 then 1 else 0)
  }

  const ONE_HANDLE := Open(1, 0, true)

  function SaveOnly(page: Page, id: nat): Op { SavePages(AllPages(page, 1), id) }

  lemma OneJob(page: Page)
    ensures JobsOf(AllPages(page, 1)) == Ok([Job(0, page)])
  {
    assert page[PAGE_SIZE * 0..PAGE_SIZE * 1] == page;
    var jobs := JobsFor(page, seq(1, i => i));
    assert jobs == [Job(0, page)];
  }

  lemma SamePatch(page: Page)
    ensures XorPatch(page, page) == []
  {
    PatchListsDifferences(page, page, 0);
    if XorPatch(page, page) != [] { assert HasIndex(XorPatch(page, page), XorPatch(page, page)[0].0); }
  }

  /** One more save of page 0 in a session: what is stored, and what the shadow then
      holds. The blob writers write out everything or nothing of it. */
  lemma {:induction false} SaveOnePage(c: Codec, ops: seq<Op>, d: Db, page: Page, id: nat,
                                       flushed: bool) returns (d': Db, r: Record)
    requires CodecOk(c) && Reaches(c, ops, d) && d.session.Some? && Admit(d.session.value.last, id).None?
    requires d.session.value.cfg.useShadow
    ensures d.disk.log.Some? && Reaches(c, ops + [SaveOnly(page, id)], d')
    ensures d'.disk.log == Some(Table(id, d.disk.log.value.records + [r])) && d'.disk.index == d.disk.index
    ensures d'.session.Some? && d'.session.value.cfg == d.session.value.cfg && d'.session.value.last == Some(id)
    ensures !flushed ==> d'.session.value.written == d.session.value.written
    ensures PaOf(r.key) == 0 && SnapOf(r.key) == id
    ensures r.workerId == 0 && (r.kind == Full ==> r.len > 0)
    ensures AllZero(page) <==> r.kind == Zero
    ensures !AllZero(page) ==>
      match Find(d.session.value.shadow, 0)
      case None => r.kind == Full && Find(d'.session.value.shadow, 0) == Some(ShadowEntry(r.key, page))
      case Some(e) => e.page == page ==> r.kind == Delta
    ensures AllZero(page) ==> Find(d'.session.value.shadow, 0) == Find(d.session.value.shadow, 0)
  {
    hide Reaches, LogOk, IndexOk, SessionOk, Runs, Complete, XorPatch, EncodePatch, AllZero, PaOf, SnapOf, CodecOk,
      Refines, JobsOk;
    RunRefines(c, ops, d);
    var a, sess := AbsRun(ops), d.session.value;
    OneJob(page);
    JobsAscend(AllPages(page, 1));
    SessionLog(c, d, a);
    var x := Context(c, sess.cfg, id, [Job(0, page)]);
    var s := PhaseOf(x, d, a);
    FinishedSave(x, d.disk.log.value, d.disk.blobs, a.log.value, sess, s);
    var written := if flushed then AllWritten(s.blobs) else sess.written;
    NothingTakenBack(c, d, a, x, s);
    d' := AfterSave(d, id, s, written);
    ReachesStep(c, ops, d, SaveOnly(page, id), d');
    r := OneRecord(x, d.disk.log.value, d.disk.blobs, a.log.value, sess, s, page);
  }

  lemma PhaseOf(x: Context, d: Db, a: Abs) returns (s: Phase)
    requires Refines(x.codec, d, a) && d.session.Some? && x.cfg == d.session.value.cfg && CodecOk(x.codec)
    requires x.id < SNAPSHOTS && JobsOk(x.jobs)
    ensures Finishes(x, d.disk.blobs, d.session.value.shadow, s) && ContextOk(x)
  {
    hide LogOk, IndexOk, ShadowOk, ShadowFresh, ShadowNewest, Finishes;
    s := PhaseHappens(x, d.disk.blobs, d.session.value.shadow);
  }

  lemma NothingTakenBack(c: Codec, d: Db, a: Abs, x: Context, s: Phase)
    requires Refines(c, d, a) && d.session.Some? && Finishes(x, d.disk.blobs, d.session.value.shadow, s) && ContextOk(x)
    ensures WritesOn(d.session.value.written, d.session.value.written, s.blobs)
    ensures WritesOn(d.session.value.written, AllWritten(s.blobs), s.blobs)
  {
    hide LogOk, IndexOk, ShadowOk, ShadowFresh, ShadowNewest, Runs, JobOk, Tiles, Complete;
    WritersGrow(c, d, a, x, s);
    var schedule :| Runs(x, Start(x, d.disk.blobs, d.session.value.shadow), schedule, s);
    ScheduleInv(x, d.disk.blobs, d.session.value.shadow, schedule, s);
    FilesOnlyGrow(d.disk.blobs, s.blobs);
  }

  lemma SessionLog(c: Codec, d: Db, a: Abs)
    requires Refines(c, d, a) && d.session.Some?
    ensures d.disk.log.Some? && a.log.Some? && LogOk(c, d.disk.log.value, d.disk.blobs, a.log.value)
    ensures SessionOk(c, d.session.value, d.disk.log.value.records, d.disk.blobs)
  {
  }

  lemma OneRecord(x: Context, t: Table, blobs: Blobs, h: History, sess: Session, s: Phase,
                  page: Page) returns (r: Record)
    requires Saved(x, t, blobs, h, sess, s) && x.jobs == [Job(0, page)] && x.cfg.useShadow
    ensures Records(s) == [r] && PaOf(r.key) == 0 && SnapOf(r.key) == x.id
    ensures r.workerId == 0 && (r.kind == Full ==> r.len > 0)
    ensures AllZero(page) <==> r.kind == Zero
    ensures !AllZero(page) ==>
      match Find(sess.shadow, 0)
      case None => r.kind == Full && Find(s.shadow, 0) == Some(ShadowEntry(r.key, page))
      case Some(e) => e.page == page ==> r.kind == Delta
    ensures AllZero(page) ==> Find(s.shadow, 0) == Find(sess.shadow, 0)
  {
    hide LogOk, SessionOk, Inv, Complete, XorPatch, EncodePatch, AllZero, PaOf, SnapOf, Records, ReadBlob, JobsOk;
    SamePatch(page);
    NewRecords(x, t, blobs, h, sess, s);
    EntryAfter(x, t, blobs, h, sess, s, 0);
    r := Records(s)[0];
    assert Records(s) == [r];
    assert Placed(x, Start(x, blobs, sess.shadow), s.blobs, 0, r);
    assert 0 < |x.codec.compress(page)|;
  }

  /* ---- a stale index ---- */

  const EMPTY_DIR := Db(Disk(None, None, map[]), None)

  /** An empty log is indexed, and the database opened again for writing. */
  lemma Reindexed(c: Codec) returns (d: Db)
    ensures Reaches(c, [ONE_HANDLE, Close, ToBtreeOp, ONE_HANDLE], d)
    ensures d.disk.log == Some(Table(0, [])) && d.disk.index == Some(Table(0, []))
    ensures d.session.Some? && d.session.value.cfg == Config(1, 256, true)
    ensures d.session.value.shadow == map[] && d.session.value.last == Some(0)
  {
    hide Reaches;
    assert Reaches(c, [], EMPTY_DIR) by { NoSteps(c); }
    var d1 := OpenDb(EMPTY_DIR, 1, 0, true);
    ReachesStep(c, [], EMPTY_DIR, ONE_HANDLE, d1);
    var d2 := d1.(session := None);
    assert [] + [ONE_HANDLE] == [ONE_HANDLE] && [ONE_HANDLE] + [Close] == [ONE_HANDLE, Close];
    ReachesStep(c, [ONE_HANDLE], d1, Close, d2);
    var d3 := d2.(disk := d2.disk.(index := Some(Table(0, []))));
    assert IndexOf([]) == [];
    assert [ONE_HANDLE, Close] + [ToBtreeOp] == [ONE_HANDLE, Close, ToBtreeOp];
    ReachesStep(c, [ONE_HANDLE, Close], d2, ToBtreeOp, d3);
    d := OpenDb(d3, 1, 0, true);
    ReachesStep(c, [ONE_HANDLE, Close, ToBtreeOp], d3, ONE_HANDLE, d);
    assert [ONE_HANDLE, Close, ToBtreeOp] + [ONE_HANDLE] == [ONE_HANDLE, Close, ToBtreeOp, ONE_HANDLE];
  }

  lemma NoSteps(c: Codec)
    ensures Reaches(c, [], EMPTY_DIR)
  {
  }

  /** The raw converter stops short: a page is saved twice after an index was made,
      so the second save is a Delta whose base the index does not have. */
  lemma {:induction false} StaleIndexStopsReplay(c: Codec) returns (ops: seq<Op>, d: Db)
    requires CodecOk(c)
    ensures Reaches(c, ops, d) && d.session.None? && d.disk.log.Some? && KeepsAll(ops)
    ensures forall r :: r in d.disk.log.value.records ==> PaOf(r.key) < 1
    ensures var e := Emitted(c, Consulted(d.disk), d.disk.blobs, 1, d.disk.log.value.records);
      e.Ok? && e.value.stopped
  {
    hide Reaches, AllZero, KeepsAll, Emitted, ChainLoad, PaOf, SnapOf, Consulted, RecordWritten;
    var d0 := Reindexed(c);
    var page, before := SomePage(), [ONE_HANDLE, Close, ToBtreeOp, ONE_HANDLE];
    NotZero();
    var d1, r1 := SaveOnePage(c, before, d0, page, 1, true);
    var d2, r2 := SaveOnePage(c, before + [SaveOnly(page, 1)], d1, page, 2, true);
    d := d2.(session := None);
    var run := before + [SaveOnly(page, 1)] + [SaveOnly(page, 2)];
    ReachesStep(c, run, d2, Close, d);
    ops := run + [Close];
    var rs := d.disk.log.value.records;
    assert rs == [r1, r2] && r2 in rs;
    KeepsSimple(ops);
    ReachableReplay(c, ops, d, 1);
    assert !Available(d, r2);
  }

  lemma NotZero()
    ensures !AllZero(SomePage()) && AllZero(ZeroPage())
  {
    assert SomePage()[0] == 1;
  }

  lemma {:induction false} KeepsSimple(ops: seq<Op>)
    requires forall i :: 0 <= i < |ops| ==> !ops[i].PurgeOp? && !ops[i].ToLogOp?
    ensures KeepsAll(ops)
  {
    if ops != [] { KeepsSimple(ops[..|ops| - 1]); }
  }

  /* ---- the same runs in the history ---- */

  lemma {:induction false} AbsReindexed()
    ensures AbsRun([ONE_HANDLE, Close, ToBtreeOp, ONE_HANDLE]) == Abs(Some([]), Some([]), Some(Some(0)))
  {
    hide AbsRun;
    NoAbsSteps();
    AbsAppend([], ONE_HANDLE);
    assert [] + [ONE_HANDLE] == [ONE_HANDLE] && [ONE_HANDLE] + [Close] == [ONE_HANDLE, Close];
    AbsAppend([ONE_HANDLE], Close);
    assert [ONE_HANDLE, Close] + [ToBtreeOp] == [ONE_HANDLE, Close, ToBtreeOp];
    AbsAppend([ONE_HANDLE, Close], ToBtreeOp);
    assert [ONE_HANDLE, Close, ToBtreeOp] + [ONE_HANDLE] == [ONE_HANDLE, Close, ToBtreeOp, ONE_HANDLE];
    AbsAppend([ONE_HANDLE, Close, ToBtreeOp], ONE_HANDLE);
  }

  lemma NoAbsSteps()
    ensures AbsRun([]) == Abs(None, None, None)
  {
  }

  /** A save of page 0 that is admitted adds exactly that page. */
  lemma {:induction false} AbsSaveOnly(ops: seq<Op>, page: Page, id: nat)
    requires AbsRun(ops).session.Some? && AbsRun(ops).log.Some? && Admit(AbsRun(ops).session.value, id).None?
    ensures AbsRun(ops + [SaveOnly(page, id)]) ==
      AbsRun(ops).(log := Some(AbsRun(ops).log.value + [Save(id, map[0 := page])]), session := Some(Some(id)))
  {
    hide AbsRun;
    AbsAppend(ops, SaveOnly(page, id));
    OneJob(page);
    OnePage(page);
  }

  lemma OnePage(page: Page)
    ensures PagesOf([Job(0, page)]) == map[0 := page]
  {
    assert [Job(0, page)][..0] == [];
    assert PagesOf([]) == map[];
  }

  /** A load misses a save: it goes by the index, made before. */
  lemma {:induction false} StaleIndexHidesSave(c: Codec) returns (ops: seq<Op>, d: Db)
    requires CodecOk(c)
    ensures Reaches(c, ops, d) && d.session.None? && d.disk.index.Some? && KeepsAll(ops) && AbsRun(ops).log.Some?
    ensures Newest(AbsRun(ops).log.value, 0, 1) == Some(SomePage()) && ReadPage(c, d.disk, 0, 1) == Ok(None)
    ensures d.disk.log.Some? && d.disk.log.value.records != [] && d.disk.index == Some(Table(0, []))
  {
    hide Reaches, AllZero, KeepsAll, PaOf, SnapOf, AbsRun, ReadPage;
    var d0 := Reindexed(c);
    var page, before := SomePage(), [ONE_HANDLE, Close, ToBtreeOp, ONE_HANDLE];
    var d1, r1 := SaveOnePage(c, before, d0, page, 1, true);
    d := d1.(session := None);
    var run := before + [SaveOnly(page, 1)];
    ReachesStep(c, run, d1, Close, d);
    ops := run + [Close];
    KeepsSimple(ops);
    AbsReindexed();
    AbsSaveOnly(before, page, 1);
    AbsAppend(run, Close);
    assert [] + [Save(1, map[0 := page])] == [Save(1, map[0 := page])];
    NewestAfter([], Save(1, map[0 := page]), 0, 1);
    ReadsAreCorrect(c, ops, d, 0, 1);
  }

  /** `to_log` loses a save: it rewrites the log from the index, made before. */
  lemma {:induction false} ToLogDropsSave(c: Codec) returns (ops: seq<Op>, d: Db, d': Db)
    requires CodecOk(c)
    ensures Reaches(c, ops, d) && DbStep(c, d, ToLogOp, d') && Reaches(c, ops + [ToLogOp], d')
    ensures AbsRun(ops).log.Some? && Newest(AbsRun(ops).log.value, 0, 1) == Some(SomePage())
    ensures d.disk.log.Some? && d.disk.log.value.records != [] && d'.disk.log == Some(Table(0, []))
  {
    hide Reaches, KeepsAll, AbsRun, ReadPage, Regroup;
    ops, d := StaleIndexHidesSave(c);
    NothingToLog();
    d' := d.(disk := d.disk.(log := Some(Table(0, []))));
    ReachesStep(c, ops, d, ToLogOp, d');
  }

  lemma NothingToLog()
    ensures Regroup([]) == []
  {
    hide LogSorted;
    RegroupFacts([]);
    HeadIsMember(Regroup([]));
  }

  /* ---- a handle that still buffers ---- */

  /** A load on an open handle fails: the save's record is in the log, its blob is not
      in the file yet. */
  lemma {:induction false} UnflushedLoadFails(c: Codec) returns (ops: seq<Op>, d: Db)
    requires CodecOk(c)
    ensures Reaches(c, ops, d) && d.session.Some? && ops == [ONE_HANDLE, SaveOnly(SomePage(), 1)]
    ensures AbsRead(AbsRun(ops), 0, 1) == Ok(Some(SomePage())) && ReadPage(c, OnDisk(d), 0, 1) == Err(BlobOutOfRange)
  {
    hide Reaches, AllZero, PaOf, SnapOf, AbsRun, ReadPage, CutAt;
    NoSteps(c);
    NotZero();
    var d0 := OpenDb(EMPTY_DIR, 1, 0, true);
    ReachesStep(c, [], EMPTY_DIR, ONE_HANDLE, d0);
    assert [] + [ONE_HANDLE] == [ONE_HANDLE];
    var r;
    d, r := SaveOnePage(c, [ONE_HANDLE], d0, SomePage(), 1, false);
    ops := [ONE_HANDLE] + [SaveOnly(SomePage(), 1)];
    NoAbsSteps();
    AbsAppend([], ONE_HANDLE);
    AbsSaveOnly([ONE_HANDLE], SomePage(), 1);
    assert [] + [Save(1, map[0 := SomePage()])] == [Save(1, map[0 := SomePage()])];
    NewestAfter([], Save(1, map[0 := SomePage()]), 0, 1);
    LoadOnDisk(c, ops, d, 0, 1);
    ConsultedFloor(c, ops, d, 0, 1);
    assert d.disk.log.value.records == [r];
    OneFloor(r);
    assert !RangeWritten(d.session.value.written, r);
  }

  lemma OneFloor(r: Record)
    requires PaOf(r.key) == 0 && SnapOf(r.key) == 1
    ensures FloorRec([r], 0, 1) == Some(r)
  {
    hide FloorRec, PaOf, SnapOf;
    FloorUnique([r], 0, 1, r);
  }

  /** A purge leaves later records: it goes by the index, which holds none of them. */
  lemma {:induction false} StaleIndexHidesPurge(c: Codec) returns (ops: seq<Op>, d: Db, r: Record)
    requires CodecOk(c)
    ensures Reaches(c, ops, d) && d.session.None? && d.disk.log.Some? && KeepsAll(ops)
    ensures PurgeDisk(d.disk, 0) == d.disk && r in d.disk.log.value.records && SnapOf(r.key) > 0
  {
    hide Reaches, AllZero, KeepsAll, PaOf, SnapOf;
    var d0 := Reindexed(c);
    var page, before := SomePage(), [ONE_HANDLE, Close, ToBtreeOp, ONE_HANDLE];
    var d1, r1 := SaveOnePage(c, before, d0, page, 1, true);
    d, r := d1.(session := None), r1;
    var run := before + [SaveOnly(page, 1)];
    ReachesStep(c, run, d1, Close, d);
    ops := run + [Close];
    KeepsSimple(ops);
    assert Keep([], 0) == [];
    assert d.disk.log.value.records == [r1];
  }

  /* ---- Zero records and worker 0 ---- */

  /** A purged blob stays: page 0 is saved as zeros and then with content; purging the
      second save keeps only a Zero record, which keeps worker 0's file as it was. */
  lemma {:induction false} ZeroRecordsKeepGarbage(c: Codec) returns (ops: seq<Op>, d: Db)
    requires CodecOk(c)
    ensures Reaches(c, ops, d) && d.session.None? && d.disk.log.Some? && KeepsAll(ops)
    ensures var d' := PurgeDisk(d.disk, 1);
      && d'.log.Some? && 0 in d'.blobs && d'.blobs[0] != []
      && (forall r :: r in d'.log.value.records ==> r.kind == Zero)
      && !FileTiled(d'.log.value.records, d'.blobs[0], 0)
  {
    hide Reaches, AllZero, KeepsAll, PaOf, SnapOf, PurgeDisk, FileTiled;
    NoSteps(c);
    NotZero();
    var d0 := OpenDb(EMPTY_DIR, 1, 0, true);
    ReachesStep(c, [], EMPTY_DIR, ONE_HANDLE, d0);
    assert [] + [ONE_HANDLE] == [ONE_HANDLE];
    var d1, z := SaveOnePage(c, [ONE_HANDLE], d0, ZeroPage(), 1, true);
    var d2, f := SaveOnePage(c, [ONE_HANDLE] + [SaveOnly(ZeroPage(), 1)], d1, SomePage(), 2, true);
    d := d2.(session := None);
    var run := [ONE_HANDLE] + [SaveOnly(ZeroPage(), 1)] + [SaveOnly(SomePage(), 2)];
    ReachesStep(c, run, d2, Close, d);
    ops := run + [Close];
    KeepsSimple(ops);
    assert d.disk.log.value.records == [z, f];
    OnlyZeroLeft(c, ops, d, z, f);
  }

  lemma {:induction false} OnlyZeroLeft(c: Codec, ops: seq<Op>, d: Db, z: Record, f: Record)
    requires CodecOk(c) && Reaches(c, ops, d) && KeepsAll(ops) && d.disk.index.None?
    requires d.disk.log.Some? && d.disk.log.value.records == [z, f]
    requires z.kind == Zero && SnapOf(z.key) == 1
    requires f.kind == Full && SnapOf(f.key) == 2 && f.workerId == 0 && f.len > 0
    ensures var d' := PurgeDisk(d.disk, 1);
      && d'.log.Some? && 0 in d'.blobs && d'.blobs[0] != []
      && (forall r :: r in d'.log.value.records ==> r.kind == Zero)
      && !FileTiled(d'.log.value.records, d'.blobs[0], 0)
  {
    hide Reaches, KeepsAll, LogOk, IndexOk, SessionOk, SnapOf, Keep, IndexOf, FileTiled, PurgeDisk, NoOverlap,
      PurgedBlobs;
    RunRefines(c, ops, d);
    var rs := IndexOf([z, f]);
    LogInFiles(c, d.disk.log.value, d.disk.blobs, AbsRun(ops).log.value);
    assert z in [z, f] && f in [z, f];
    IndexOfUnique([z, f]);
    KeepMembers(rs, 1);
    KeepAll(rs, 1);
    PurgedLog(c, ops, d, 1);
    assert ReadBlob(d.disk.blobs, f).Ok? && OwnsRange(f, 0);
    PurgedBytesStayIff(c, ops, d, 1, 0, f);
    PurgeAfterCleanRun(c, ops, d, 1, 0);
  }
}
