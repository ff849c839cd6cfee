/** Every run of the database refines the abstract machine of save histories:
    what a reader gets is what the history promises. */
module Refinement {
  import opened Words
  import opened Chunk
  import opened Index
  import opened Store
  import opened SavePhase
  import opened Convert
  import opened Purge
  import opened Database
  import opened SaveStep

  /* ---- histories and headers ---- */

  lemma {:induction false} VersionHasSave(h: History, k: nat)
    requires Version(h, k).Some?
    ensures exists i :: 0 <= i < |h| && h[i].id == SnapOf(k)
  {
    var front, last := h[..|h| - 1], h[|h| - 1];
    if !(last.id == SnapOf(k) && PaOf(k) in last.pages) {
      VersionHasSave(front, k);
      var i :| 0 <= i < |front| && front[i].id == SnapOf(k);
      assert h[i] == front[i];
    }
  }

  lemma {:induction false} SaveHasVersion(h: History, i: nat, pa: nat)
    requires Increasing(h) && i < |h| && pa in h[i].pages
    ensures Version(h, KeyFor(pa, h[i].id)).Some?
  {
    var k := KeyFor(pa, h[i].id);
    assert SnapOf(k) == h[i].id && PaOf(k) == pa;
    if i < |h| - 1 { SaveHasVersion(h[..|h| - 1], i, pa); }
  }

  ghost predicate HasId(h: History, id: nat) { exists i :: 0 <= i < |h| && h[i].id == id }

  ghost predicate HasSnap(rs: seq<Record>, snap: nat) { exists r :: r in rs && SnapOf(r.key) == snap }

  /** The snapshots in a table are exactly the ids of its history. */
  lemma SnapsAreIds(c: Codec, t: Table, blobs: Blobs, h: History, id: nat)
    requires TableOk(c, t, blobs, h)
    ensures HasSnap(t.records, id) <==> HasId(h, id)
  {
    hide StoredAs, Version, SnapOf, SnapshotOrdered, NoOverlap;
    if HasSnap(t.records, id) {
      var r :| r in t.records && SnapOf(r.key) == id;
      assert First(t.records, r.key).Some?;
      VersionHasSave(h, r.key);
    }
    if HasId(h, id) {
      var i :| 0 <= i < |h| && h[i].id == id;
      var pa :| pa in h[i].pages;
      SaveHasVersion(h, i, pa);
      var k := KeyFor(pa, h[i].id);
      assert First(t.records, k).Some?;
      KeyForSnap(pa, h[i].id);
      assert First(t.records, k).value in t.records;
    }
  }

  lemma KeyForSnap(pa: nat, snap: nat)
    requires snap < SNAPSHOTS
    ensures SnapOf(KeyFor(pa, snap)) == snap
  {
  }

  /** The header is the id of the newest save, or 0 when there is none. */
  lemma HeaderIsLast(c: Codec, t: Table, blobs: Blobs, h: History)
    requires TableOk(c, t, blobs, h)
    ensures t.header == LastId(h)
  {
    hide Represents, SnapshotOrdered, NoOverlap, HasId, HasSnap, SnapOf;
    SnapsAreIds(c, t, blobs, h, LastId(h));
    SnapsAreIds(c, t, blobs, h, t.header);
    HighestSnap(t.records, LastId(h));
    HighestId(h, t.header);
  }

  lemma HighestSnap(rs: seq<Record>, s: nat)
    ensures HasSnap(rs, s) ==> s <= MaxSnap(rs)
    ensures MaxSnap(rs) > 0 ==> HasSnap(rs, MaxSnap(rs))
  {
  }

  lemma HighestId(h: History, s: nat)
    requires Increasing(h)
    ensures HasId(h, s) ==> s <= LastId(h)
    ensures h != [] ==> HasId(h, LastId(h))
  {
    if h != [] { assert h[|h| - 1].id == LastId(h); }
  }

  /* ---- opening ---- */

  lemma TableGrow(c: Codec, t: Table, a: Blobs, b: Blobs, h: History)
    requires TableOk(c, t, a, h) && Grows(a, b)
    ensures TableOk(c, t, b, h)
  {
    hide Represents, SnapshotOrdered, NoOverlap, Grows;
    RepresentsGrow(c, t.records, a, b, h);
  }

  lemma EmptyTable(c: Codec, blobs: Blobs)
    ensures LogOk(c, Table(0, []), blobs, [])
  {
  }

  lemma OpenRefines(c: Codec, d: Db, a: Abs, workers: nat, threshold: nat, useShadow: bool)
    requires Refines(c, d, a)
    ensures Refines(c, OpenDb(d, workers, threshold, useShadow), AbsStep(a, Open(workers, threshold, useShadow)))
  {
    hide TableOk, LogSorted, StrictKeys, SessionOk, AllWritten;
    if d.session.None? && 1 <= workers <= 255 {
      var blobs := OpenBlobs(d.disk.blobs, workers);
      assert Grows(d.disk.blobs, blobs);
      var d' := OpenDb(d, workers, threshold, useShadow);
      if d.disk.index.Some? { TableGrow(c, d.disk.index.value, d.disk.blobs, blobs, a.index.value); }
      if d.disk.log.Some? {
        TableGrow(c, d.disk.log.value, d.disk.blobs, blobs, a.log.value);
        HeaderIsLast(c, d.disk.log.value, d.disk.blobs, a.log.value);
        HeaderBounds(c, d.disk.log.value, blobs, a.log.value);
      } else {
        EmptyTable(c, blobs);
      }
      FreshSession(c, d'.session.value, d'.disk.log.value.records, blobs);
    }
  }

  lemma FreshSession(c: Codec, s: Session, rs: seq<Record>, blobs: Blobs)
    requires 1 <= s.cfg.workers <= 255 && (forall w: byte :: w < s.cfg.workers ==> w in blobs)
    requires s.logStart == |rs| && LastOk(rs, s.last) && s.shadow == map[] && s.written == AllWritten(blobs)
    ensures SessionOk(c, s, rs, blobs)
  {
  }

  lemma HeaderBounds(c: Codec, t: Table, blobs: Blobs, h: History)
    requires TableOk(c, t, blobs, h)
    ensures LastOk(t.records, Some(t.header))
  {
  }

  /* ---- saving ---- */

  lemma SaveRefines(c: Codec, d: Db, a: Abs, req: Request, id: nat, d': Db)
    requires CodecOk(c) && Refines(c, d, a) && RequestFits(req) && SaveNext(c, d, req, id, d')
    ensures Refines(c, d', AbsSave(a, req, id))
  {
    hide JobsOf, PagesOf, LogOk, IndexOk, SessionOk, JobsOk, Runs;
    if d.session.Some? && d.disk.log.Some? && Admit(d.session.value.last, id).None? {
      var sess, t := d.session.value, d.disk.log.value;
      SessionAdvances(c, sess, t.records, d.disk.blobs, id);
      if JobsOf(req).Ok? && JobsOf(req).value != [] {
        JobsAscend(req);
        var x := Context(c, sess.cfg, id, JobsOf(req).value);
        var s, written :| Finishes(x, d.disk.blobs, sess.shadow, s)
        && WritesOn(sess.written, written, s.blobs) && d' == AfterSave(d, id, s, written);
        FinishedSave(x, t, d.disk.blobs, a.log.value, sess, s);
        hide Saved;
        SaveKeepsLog(x, t, d.disk.blobs, a.log.value, sess, s);
        SaveKeepsSession(x, t, d.disk.blobs, a.log.value, sess, s, written);
        if d.disk.index.Some? { IndexGrow(c, d.disk.index.value, d.disk.blobs, s.blobs, a.index.value); }
      }
    }
  }

  lemma IndexGrow(c: Codec, t: Table, a: Blobs, b: Blobs, h: History)
    requires IndexOk(c, t, a, h) && Grows(a, b)
    ensures IndexOk(c, t, b, h)
  {
    TableGrow(c, t, a, b, h);
  }

  /** Writing out buffers changes nothing that was appended. */
  lemma FlushRefines(c: Codec, d: Db, a: Abs)
    requires Refines(c, d, a)
    ensures Refines(c, Flushed(d), a)
  {
    hide LogOk, IndexOk, ShadowOk, ShadowFresh, ShadowNewest;
  }

  /** A rejected or empty save only advances the last snapshot id. */
  lemma SessionAdvances(c: Codec, sess: Session, rs: seq<Record>, blobs: Blobs, id: nat)
    requires SessionOk(c, sess, rs, blobs) && Admit(sess.last, id).None?
    ensures SessionOk(c, sess.(last := Some(id)), rs, blobs)
  {
  }

  lemma FinishedSave(x: Context, t: Table, blobs: Blobs, h: History, sess: Session, s: Phase)
    requires CodecOk(x.codec) && JobsOk(x.jobs) && x.jobs != [] && x.cfg == sess.cfg
    requires LogOk(x.codec, t, blobs, h) && SessionOk(x.codec, sess, t.records, blobs)
    requires Admit(sess.last, x.id).None? && Finishes(x, blobs, sess.shadow, s)
    ensures Saved(x, t, blobs, h, sess, s) && Grows(blobs, s.blobs)
  {
    hide LogOk, ShadowOk, ShadowFresh, ShadowNewest, JobOk, Tiles, LastOk;
    var s0 := Start(x, blobs, sess.shadow);
    var schedule :| Runs(x, s0, schedule, s);
    StartInv(x, blobs, sess.shadow);
    RunInv(x, s0, s0, schedule, s);
  }

  /* ---- conversions ---- */

  /** Layout facts pass to any list drawn from the same records. */
  lemma SublistLayout(rs: seq<Record>, sub: seq<Record>)
    requires SnapshotOrdered(rs) && NoOverlap(rs) && forall r :: r in sub ==> r in rs
    ensures SnapshotOrdered(sub) && NoOverlap(sub)
  {
    hide OwnsRange, CoversByte, SnapOf;
  }

  lemma ToBtreeGood(c: Codec, t: Table, blobs: Blobs, h: History)
    requires LogOk(c, t, blobs, h)
    ensures IndexOk(c, ToTable(IndexOf(t.records)), blobs, h)
  {
    hide IndexOf, Represents, SnapshotOrdered, NoOverlap, First, HistoryOk;
    IndexKeepsFirst(t.records);
    RepresentsSame(c, t.records, blobs, h, IndexOf(t.records));
    SublistLayout(t.records, IndexOf(t.records));
  }

  lemma IndexFits(c: Codec, t: Table, blobs: Blobs, h: History)
    requires IndexOk(c, t, blobs, h)
    ensures KeysFit(t.records) && UniqueKeys(t.records)
  {
    hide Version, Resolve, SnapshotOrdered, NoOverlap;
    forall r | r in t.records ensures r.key < U64 {
      assert First(t.records, r.key).Some?;
      assert Shape(t.records, First(t.records, r.key).value);
    }
  }

  lemma ToLogGood(c: Codec, t: Table, blobs: Blobs, h: History)
    requires IndexOk(c, t, blobs, h)
    ensures LogOk(c, Table(MaxSnap(t.records), Regroup(t.records)), blobs, h)
  {
    hide Regroup, Represents, SnapshotOrdered, NoOverlap, First, HistoryOk, SnapOf, LogSorted;
    IndexFits(c, t, blobs, h);
    RegroupFacts(t.records);
    RepresentsSame(c, t.records, blobs, h, Regroup(t.records));
    SublistLayout(t.records, Regroup(t.records));
    MaxSnapSame(t.records, Regroup(t.records));
  }

  /* ---- purging ---- */

  lemma PurgeGood(c: Codec, t: Table, blobs: Blobs, h: History, threshold: nat)
    requires IndexOk(c, t, blobs, h)
    ensures IndexOk(c, ToTable(Keep(t.records, threshold)), PurgedBlobs(blobs, Keep(t.records, threshold)),
                    UpTo(h, threshold))
    ensures |Keep(t.records, threshold)| == |t.records| <==> !HasLater(h, threshold)
  {
    hide Keep, UpTo, PurgedBlobs, Represents, SnapshotOrdered, NoOverlap, SnapOf, StrictKeys, Increasing;
    var kept := Keep(t.records, threshold);
    PurgeRepresents(c, t.records, blobs, h, threshold);
    UpToIncreasing(h, threshold);
    UpToMembers(h, threshold);
    forall i | 0 <= i < |UpTo(h, threshold)| ensures UpTo(h, threshold)[i].pages != map[] {
      assert UpTo(h, threshold)[i] in h;
    }
    KeepStrict(t.records, threshold);
    KeepMembers(t.records, threshold);
    SublistLayout(t.records, kept);
    KeepAll(t.records, threshold);
    RemovedIff(c, t, blobs, h, threshold);
  }

  lemma RemovedIff(c: Codec, t: Table, blobs: Blobs, h: History, threshold: nat)
    requires TableOk(c, t, blobs, h)
    ensures HasLater(h, threshold) <==> exists r :: r in t.records && SnapOf(r.key) > threshold
  {
    hide Represents, SnapshotOrdered, NoOverlap, SnapOf;
    if HasLater(h, threshold) {
      var i :| 0 <= i < |h| && h[i].id > threshold;
      SnapsAreIds(c, t, blobs, h, h[i].id);
      assert HasId(h, h[i].id);
    }
    if r :| r in t.records && SnapOf(r.key) > threshold {
      SnapsAreIds(c, t, blobs, h, SnapOf(r.key));
      assert HasSnap(t.records, SnapOf(r.key));
    }
  }

  lemma GroupedGood(c: Codec, t: Table, blobs: Blobs, h: History)
    requires IndexOk(c, t, blobs, h)
    ensures LogOk(c, Table(MaxSnap(t.records), Grouped(t.records)), blobs, h)
  {
    hide GroupsBelow, TableOk, LogSorted, MaxSnap, StrictKeys;
    GroupsNeedNoSort(t.records, SNAPSHOTS);
    ToLogGood(c, t, blobs, h);
  }

  lemma PurgeRefines(c: Codec, d: Db, a: Abs, t: nat)
    requires Refines(c, d, a) && d.session.None?
    ensures Refines(c, d.(disk := PurgeDisk(d.disk, t)), AbsPurge(a, t))
  {
    hide IndexOk, LogOk, Keep, PurgedBlobs, UpTo, HasLater, Grouped, MaxSnap, IndexOf;
    if d.disk.index.Some? || d.disk.log.Some? {
      var h := if a.index.Some? then a.index.value else a.log.value;
      var source := if d.disk.index.Some? then d.disk.index.value else ToTable(IndexOf(d.disk.log.value.records));
      if d.disk.index.None? { ToBtreeGood(c, d.disk.log.value, d.disk.blobs, h); }
      PurgeGood(c, source, d.disk.blobs, h, t);
      var kept := Keep(source.records, t);
      GroupedGood(c, ToTable(kept), PurgedBlobs(d.disk.blobs, kept), UpTo(h, t));
    }
  }

  /* ---- every operation, every run ---- */

  lemma StepRefines(c: Codec, d: Db, a: Abs, op: Op, d': Db)
    requires CodecOk(c) && OpFits(op) && Refines(c, d, a) && DbStep(c, d, op, d')
    ensures Refines(c, d', AbsStep(a, op))
  {
    hide LogOk, IndexOk, SessionOk, AbsSave, AbsPurge, SaveNext, PurgeDisk, OpenDb, IndexOf, Regroup, MaxSnap;
    match op {
      case Open(workers, threshold, useShadow) => OpenRefines(c, d, a, workers, threshold, useShadow);
      case Close =>
      case Flush => FlushRefines(c, d, a);
      case SavePages(req, id) => SaveRefines(c, d, a, req, id, d');
      case ToBtreeOp =>
        if d.session.None? && d.disk.log.Some? { ToBtreeGood(c, d.disk.log.value, d.disk.blobs, a.log.value); }
      case ToLogOp =>
        if d.session.None? && d.disk.index.Some? { ToLogGood(c, d.disk.index.value, d.disk.blobs, a.index.value); }
      case PurgeOp(t) =>
        if d.session.None? { PurgeRefines(c, d, a, t); }
    }
  }

  lemma {:induction false} RunRefines(c: Codec, ops: seq<Op>, d: Db)
    requires CodecOk(c) && Reaches(c, ops, d)
    ensures Refines(c, d, AbsRun(ops))
  {
    hide DbStep, AbsStep, OpFits;
    if ops != [] {
      hide Refines;
      var before, op := ops[..|ops| - 1], ops[|ops| - 1];
      var d0 :| Reaches(c, before, d0) && DbStep(c, d0, op, d);
      RunRefines(c, before, d0);
      StepRefines(c, d0, AbsRun(before), op, d);
    }
  }

  /* ---- every run happens ---- */

  /** A save always has an outcome: its page jobs can be carried to their end. */
  lemma SaveHappens(c: Codec, d: Db, a: Abs, req: Request, id: nat) returns (d': Db)
    requires CodecOk(c) && Refines(c, d, a) && RequestFits(req)
    ensures SaveNext(c, d, req, id, d')
  {
    hide JobsOf, LogOk, IndexOk, ShadowOk, ShadowFresh, ShadowNewest, Runs, Inv, Complete, WorkerOf;
    d' := d;
    if d.session.Some? && d.disk.log.Some? && Admit(d.session.value.last, id).None? {
      var sess := d.session.value;
      d' := d.(session := Some(sess.(last := Some(id))));
      if JobsOf(req).Ok? && JobsOf(req).value != [] {
        JobsAscend(req);
        var x := Context(c, sess.cfg, id, JobsOf(req).value);
        var s := PhaseHappens(x, d.disk.blobs, sess.shadow);
        WritersGrow(c, d, a, x, s);
        d' := AfterSave(d, id, s, AllWritten(s.blobs));
      }
    }
  }

  /** Everything written out is one of the outcomes. */
  lemma WritersGrow(c: Codec, d: Db, a: Abs, x: Context, s: Phase)
    requires Refines(c, d, a) && d.session.Some? && Finishes(x, d.disk.blobs, d.session.value.shadow, s) && ContextOk(x)
    ensures WritesOn(d.session.value.written, AllWritten(s.blobs), s.blobs)
  {
    hide LogOk, IndexOk, ShadowOk, ShadowFresh, ShadowNewest, Runs, JobOk, Tiles, Complete;
    var schedule :| Runs(x, Start(x, d.disk.blobs, d.session.value.shadow), schedule, s);
    ScheduleInv(x, d.disk.blobs, d.session.value.shadow, schedule, s);
    FilesOnlyGrow(d.disk.blobs, s.blobs);
  }

  lemma FilesOnlyGrow(a: Blobs, b: Blobs)
    requires Grows(a, b)
    ensures forall w :: w in a ==> w in b && |a[w]| <= |b[w]|
  {
  }

  lemma PhaseHappens(x: Context, blobs: Blobs, shadow: Shadow) returns (s: Phase)
    requires ContextOk(x) && forall w: byte :: w < x.cfg.workers ==> w in blobs
    ensures Finishes(x, blobs, shadow, s)
  {
    hide Inv, Runs, Complete;
    var s0 := Start(x, blobs, shadow);
    StartInv(x, blobs, shadow);
    assert Runs(x, s0, [], s0) by { EmptyRun(x, s0); }
    var schedule, end := CanFinish(x, s0, [], s0);
    CompletedSlots(x, s0, end);
    s := end;
  }

  lemma EmptyRun(x: Context, s: Phase)
    ensures Runs(x, s, [], s)
  {
  }

  lemma ReachesStep(c: Codec, ops: seq<Op>, d: Db, op: Op, d': Db)
    requires Reaches(c, ops, d) && OpFits(op) && DbStep(c, d, op, d')
    ensures Reaches(c, ops + [op], d')
  {
    hide DbStep, OpFits;
    assert (ops + [op])[..|ops|] == ops;
  }

  /** No sequence of operations is ruled out: each leads to some database. */
  lemma {:induction false} EveryRunHappens(c: Codec, ops: seq<Op>) returns (d: Db)
    requires CodecOk(c) && forall i :: 0 <= i < |ops| ==> OpFits(ops[i])
    ensures Reaches(c, ops, d)
  {
    hide Refines, SaveNext, OpFits, CodecOk, OpenDb, PurgeDisk;
    if ops == [] {
      d := Db(Disk(None, None, map[]), None);
    } else {
      var before, op := ops[..|ops| - 1], ops[|ops| - 1];
      var d0 := EveryRunHappens(c, before);
      RunRefines(c, before, d0);
      d := StepHappens(c, d0, AbsRun(before), op);
      ReachesStep(c, before, d0, op, d);
      assert ops == before + [op];
    }
  }

  lemma StepHappens(c: Codec, d: Db, a: Abs, op: Op) returns (d': Db)
    requires CodecOk(c) && Refines(c, d, a) && OpFits(op)
    ensures DbStep(c, d, op, d')
  {
    hide Refines, SaveNext, OpenDb, PurgeDisk, Regroup, IndexOf, MaxSnap;
    match op {
      case Open(workers, threshold, useShadow) => d' := OpenDb(d, workers, threshold, useShadow);
      case Close => d' := d.(session := None);
      case Flush => d' := Flushed(d);
      case SavePages(req, id) => d' := SaveHappens(c, d, a, req, id);
      case ToBtreeOp =>
        d' := if d.session.None? && d.disk.log.Some?
              then d.(disk := d.disk.(index := Some(ToTable(IndexOf(d.disk.log.value.records))))) else d;
      case ToLogOp =>
        d' := if d.session.None? && d.disk.index.Some?
              then d.(disk := d.disk.(log := Some(Relogged(d.disk.index.value)))) else d;
      case PurgeOp(t) => d' := if d.session.None? then d.(disk := PurgeDisk(d.disk, t)) else d;
    }
  }

  lemma ReadRefines(c: Codec, d: Db, a: Abs, pa: nat, snap: nat)
    requires Refines(c, d, a)
    ensures ReadPage(c, d.disk, pa, snap) == AbsRead(a, pa, snap)
  {
    hide Load, Newest, Represents, SnapshotOrdered, NoOverlap, LogSorted, StrictKeys, IndexOf, SessionOk, First;
    var blobs := d.disk.blobs;
    if d.disk.index.Some? {
      LoadIsNewest(c, d.disk.index.value.records, blobs, a.index.value, pa, snap);
    } else if d.disk.log.Some? {
      var rs := d.disk.log.value.records;
      IndexKeepsFirst(rs);
      RepresentsSame(c, rs, blobs, a.log.value, IndexOf(rs));
      LoadIsNewest(c, IndexOf(rs), blobs, a.log.value, pa, snap);
    }
  }

  /** For every run of opens, flushes, closes, saves of either kind in any interleaving,
      conversions and purges: over all that was appended, loading a page returns
      exactly what the history behind the file readers go by promises, finds nothing
      exactly when it promises nothing, and never fails otherwise. What that means in
      terms of the log's history, and while a handle buffers, is in `Loads`. */
  lemma {:induction false} ReadsAreCorrect(c: Codec, ops: seq<Op>, d: Db, pa: nat, snap: nat)
    requires CodecOk(c) && Reaches(c, ops, d)
    ensures ReadPage(c, d.disk, pa, snap) == AbsRead(AbsRun(ops), pa, snap)
  {
    hide Refines, ReadPage, AbsRead;
    RunRefines(c, ops, d);
    ReadRefines(c, d, AbsRun(ops), pa, snap);
  }
}
