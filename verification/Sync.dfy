/** How the index and the log of a database relate in every reachable state: the
    index holds exactly the log's records up to its header, also when it is stale. */
module Sync {
  import opened Words
  import opened Chunk
  import opened Index
  import opened Store
  import opened SavePhase
  import opened Convert
  import opened Purge
  import opened Database
  import opened SaveStep
  import opened Refinement

  ghost predicate SameRecords(a: seq<Record>, b: seq<Record>) {
    forall r :: r in a <==> r in b
  }

  /** A Delta above the header has its base above it, too. */
  ghost predicate LateBases(rs: seq<Record>, header: nat) {
    forall r :: r in rs && r.kind == Delta && SnapOf(r.key) > header ==> SnapOf(r.baseKey) > header
  }

  ghost predicate LateFrom(rs: seq<Record>, start: nat, header: nat) {
    forall i :: start <= i < |rs| ==> SnapOf(rs[i].key) > header
  }

  ghost predicate SessionLate(s: Session, rs: seq<Record>, header: nat) {
    s.last.Some? && s.last.value >= header && LateFrom(rs, s.logStart, header)
  }

  ghost predicate InSync(d: Db) {
    d.disk.index.Some? ==>
      && d.disk.log.Some?
      && SameRecords(d.disk.index.value.records, Keep(d.disk.log.value.records, d.disk.index.value.header))
      && LateBases(d.disk.log.value.records, d.disk.index.value.header)
      && (d.session.Some? ==> SessionLate(d.session.value, d.disk.log.value.records, d.disk.index.value.header))
  }

  /* ---- every operation keeps it ---- */

  lemma MaxSnapSub(a: seq<Record>, b: seq<Record>)
    requires forall r :: r in a ==> r in b
    ensures MaxSnap(a) <= MaxSnap(b)
  {
    var m := MaxSnap(a);
    if a != [] { assert exists r :: r in a && SnapOf(r.key) == m; }
  }

  lemma HeadersOrdered(c: Codec, d: Db, a: Abs)
    requires Refines(c, d, a) && InSync(d) && d.disk.index.Some?
    ensures d.disk.index.value.header <= d.disk.log.value.header
  {
    hide SessionOk, Represents, SnapshotOrdered, NoOverlap, LogSorted, StrictKeys, LateBases, SessionLate, HistoryOk,
      Keep,
      MaxSnap;
    var index, log := d.disk.index.value, d.disk.log.value;
    KeepMembers(log.records, index.header);
    MaxSnapSub(index.records, log.records);
  }

  lemma OpenSync(c: Codec, d: Db, a: Abs, workers: nat, threshold: nat, useShadow: bool)
    requires Refines(c, d, a) && InSync(d)
    ensures InSync(OpenDb(d, workers, threshold, useShadow))
  {
    hide Refines, Keep, LateBases;
    if d.disk.index.Some? { HeadersOrdered(c, d, a); }
  }

  lemma SaveSync(c: Codec, d: Db, a: Abs, req: Request, id: nat, d': Db)
    requires CodecOk(c) && Refines(c, d, a) && RequestFits(req) && SaveNext(c, d, req, id, d') && InSync(d)
    ensures InSync(d')
  {
    hide JobsOf, LogOk, IndexOk, SessionOk, JobsOk, Runs, Keep, LateBases, LateFrom, SameRecords, Complete, Start;
    if d.session.Some? && d.disk.log.Some? && Admit(d.session.value.last, id).None?
       && JobsOf(req).Ok? && JobsOf(req).value != []
    {
      var sess, t := d.session.value, d.disk.log.value;
      JobsAscend(req);
      var x := Context(c, sess.cfg, id, JobsOf(req).value);
      var s, written :| Finishes(x, d.disk.blobs, sess.shadow, s)
        && WritesOn(sess.written, written, s.blobs) && d' == AfterSave(d, id, s, written);
      FinishedSave(x, t, d.disk.blobs, a.log.value, sess, s);
      hide Saved;
      if d.disk.index.Some? {
        var index := d.disk.index.value;
        AppendLate(x, t, d.disk.blobs, a.log.value, sess, s, index.header);
        SameKept(index.records, t.records, t.records + Records(s), index.header);
      }
    }
  }

  lemma SameKept(index: seq<Record>, a: seq<Record>, b: seq<Record>, header: nat)
    requires SameRecords(index, Keep(a, header)) && SameRecords(Keep(a, header), Keep(b, header))
    ensures SameRecords(index, Keep(b, header))
  {
    hide Keep;
  }

  /** What a save adds lies above the header: the records and the bases of its Deltas. */
  lemma AppendLate(x: Context, t: Table, blobs: Blobs, h: History, sess: Session, s: Phase, header: nat)
    requires Saved(x, t, blobs, h, sess, s)
    requires LateBases(t.records, header) && SessionLate(sess, t.records, header)
    ensures SameRecords(Keep(t.records, header), Keep(t.records + Records(s), header))
    ensures LateBases(t.records + Records(s), header) && LateFrom(t.records + Records(s), sess.logStart, header)
    ensures x.id >= header
  {
    hide Inv, LogOk, SessionOk, Keep, Records, SnapOf, PaOf, KeyOf, Placed, Start, Complete;
    NewRecords(x, t, blobs, h, sess, s);
    var rs, added := t.records, Records(s);
    KeepMembers(rs, header);
    KeepMembers(rs + added, header);
    forall r | r in added ensures SnapOf(r.key) > header && (r.kind == Delta ==> SnapOf(r.baseKey) > header) {
      var i :| 0 <= i < |x.jobs| && added[i] == r;
      if r.kind == Delta {
        NewDeltaBase(x, t, blobs, h, sess, s, i);
        var n :| sess.logStart <= n < |rs| && rs[n].key == r.baseKey;
        assert SnapOf(rs[n].key) > header;
      }
    }
    forall i | sess.logStart <= i < |rs + added| ensures SnapOf((rs + added)[i].key) > header {
      if i >= |rs| { assert (rs + added)[i] in added; }
    }
  }

  lemma AllBelow(rs: seq<Record>, sorted: seq<Record>)
    requires SameRecords(rs, sorted)
    ensures SameRecords(sorted, Keep(rs, MaxSnap(sorted))) && LateBases(rs, MaxSnap(sorted))
  {
    hide Keep, MaxSnap, SnapOf;
    KeepMembers(rs, MaxSnap(sorted));
  }

  lemma PurgeSync(c: Codec, d: Db, a: Abs, t: nat)
    requires Refines(c, d, a) && InSync(d) && d.session.None?
    ensures InSync(d.(disk := PurgeDisk(d.disk, t)))
  {
    hide LogOk, Keep, Grouped, MaxSnap, PurgedBlobs, LateBases, SameRecords, IndexOf, TableOk, StrictKeys;
    if d.disk.index.Some? {
      var index := d.disk.index.value;
      var kept := Keep(index.records, t);
      KeepStrict(index.records, t);
      KeepMembers(index.records, t);
      IndexFits(c, index, d.disk.blobs, a.index.value);
      GroupedSame(kept);
      AllBelow(Grouped(kept), kept);
    }
  }

  lemma GroupedSame(rs: seq<Record>)
    requires StrictKeys(rs) && KeysFit(rs)
    ensures SameRecords(Grouped(rs), rs)
  {
    hide GroupsBelow, LogSorted;
    GroupsNeedNoSort(rs, SNAPSHOTS);
    RegroupFacts(rs);
  }

  lemma FlushSync(d: Db)
    requires InSync(d)
    ensures InSync(Flushed(d))
  {
    hide Keep, LateBases, SameRecords;
  }

  lemma StepSync(c: Codec, d: Db, a: Abs, op: Op, d': Db)
    requires CodecOk(c) && OpFits(op) && Refines(c, d, a) && DbStep(c, d, op, d') && InSync(d)
    ensures InSync(d')
  {
    hide LogOk, IndexOk, SessionOk, SaveNext, PurgeDisk, OpenDb, IndexOf, Regroup, MaxSnap, Keep, LateBases,
      SessionLate,
      SameRecords;
    match op {
      case Open(workers, threshold, useShadow) => OpenSync(c, d, a, workers, threshold, useShadow);
      case Close =>
      case Flush => FlushSync(d);
      case SavePages(req, id) => SaveSync(c, d, a, req, id, d');
      case ToBtreeOp =>
        if d.session.None? && d.disk.log.Some? { ToBtreeSync(c, d.disk.log.value, d.disk.blobs, a.log.value); }
      case ToLogOp =>
        if d.session.None? && d.disk.index.Some? { ToLogSync(c, d.disk.index.value, d.disk.blobs, a.index.value); }
      case PurgeOp(t) =>
        if d.session.None? { PurgeSync(c, d, a, t); }
    }
  }

  lemma ToBtreeSync(c: Codec, t: Table, blobs: Blobs, h: History)
    requires LogOk(c, t, blobs, h)
    ensures var index := ToTable(IndexOf(t.records));
      SameRecords(index.records, Keep(t.records, index.header)) && LateBases(t.records, index.header)
  {
    hide LogOk, IndexOf, Keep, MaxSnap, LateBases;
    LogInFiles(c, t, blobs, h);
    IndexOfUnique(t.records);
    AllBelow(t.records, IndexOf(t.records));
  }

  lemma ToLogSync(c: Codec, t: Table, blobs: Blobs, h: History)
    requires IndexOk(c, t, blobs, h)
    ensures var log := Relogged(t);
      SameRecords(t.records, Keep(log.records, t.header)) && LateBases(log.records, t.header)
  {
    hide Represents, SnapshotOrdered, NoOverlap, HistoryOk, Regroup, Keep, MaxSnap, LateBases, LogSorted, StrictKeys;
    IndexFits(c, t, blobs, h);
    RegroupFacts(t.records);
    AllBelow(Regroup(t.records), t.records);
  }

  lemma {:induction false} RunSync(c: Codec, ops: seq<Op>, d: Db)
    requires CodecOk(c) && Reaches(c, ops, d)
    ensures InSync(d)
  {
    hide DbStep, OpFits;
    if ops != [] {
      hide InSync;
      var before, op := ops[..|ops| - 1], ops[|ops| - 1];
      var d0 :| Reaches(c, before, d0) && DbStep(c, d0, op, d);
      RunSync(c, before, d0);
      RunRefines(c, before, d0);
      StepSync(c, d0, AbsRun(before), op, d);
    }
  }

  /* ---- what it gives ---- */

  /** In every reachable state, a key is found in the index exactly as in the log if
      its snapshot is at most the index header, and not at all otherwise. */
  lemma {:induction false} IndexLookup(c: Codec, ops: seq<Op>, d: Db, key: nat)
    requires CodecOk(c) && Reaches(c, ops, d) && d.disk.index.Some?
    ensures d.disk.log.Some?
    ensures First(d.disk.index.value.records, key) ==
      if SnapOf(key) <= d.disk.index.value.header then First(d.disk.log.value.records, key) else None
  {
    hide Reaches, LogOk, IndexOk, SessionOk, Keep, LateBases, SessionLate, SnapOf, First;
    RunRefines(c, ops, d);
    RunSync(c, ops, d);
    var a, index, log := AbsRun(ops), d.disk.index.value, d.disk.log.value;
    IndexFits(c, index, d.disk.blobs, a.index.value);
    LogInFiles(c, log, d.disk.blobs, a.log.value);
    KeepUnique(log.records, index.header);
    SameMembersSameLookup(index.records, Keep(log.records, index.header));
    assert First(index.records, key) == First(Keep(log.records, index.header), key);
    KeepFirst(log.records, index.header, key);
  }

  lemma {:induction false} KeepUnique(rs: seq<Record>, t: nat)
    requires UniqueKeys(rs)
    ensures UniqueKeys(Keep(rs, t))
  {
    if rs != [] {
      KeepUnique(rs[1..], t);
      KeepMembers(rs[1..], t);
      assert forall r :: r in rs[1..] ==> r.key != rs[0].key;
    }
  }

  /** Below the index header, purging by the index keeps what purging by the log would. */
  lemma {:induction false} KeptAlike(c: Codec, ops: seq<Op>, d: Db, t: nat)
    requires CodecOk(c) && Reaches(c, ops, d) && d.disk.index.Some? && t < d.disk.index.value.header
    ensures d.disk.log.Some? && Keep(d.disk.index.value.records, t) == Keep(IndexOf(d.disk.log.value.records), t)
  {
    hide Reaches, LogOk, IndexOk, SessionOk, Keep, LateBases, SessionLate, SnapOf, IndexOf, StrictKeys;
    RunRefines(c, ops, d);
    RunSync(c, ops, d);
    var a, index, log := AbsRun(ops), d.disk.index.value, d.disk.log.value;
    LogInFiles(c, log, d.disk.blobs, a.log.value);
    IndexOfUnique(log.records);
    IndexKeepsFirst(log.records);
    KeepMembers(log.records, index.header);
    KeepMembers(index.records, t);
    KeepMembers(IndexOf(log.records), t);
    IndexStrict(c, index, d.disk.blobs, a.index.value);
    KeepStrict(index.records, t);
    KeepStrict(IndexOf(log.records), t);
    SameStrict(Keep(index.records, t), Keep(IndexOf(log.records), t));
  }

  lemma IndexStrict(c: Codec, t: Table, blobs: Blobs, h: History)
    requires IndexOk(c, t, blobs, h)
    ensures StrictKeys(t.records) && t.header == MaxSnap(t.records)
  {
  }

  lemma SameStrict(a: seq<Record>, b: seq<Record>)
    requires StrictKeys(a) && StrictKeys(b) && SameRecords(a, b)
    ensures a == b
  {
    StrictUnique(a, b, k => k);
  }
}
