/** What the calls made so far decide, told from the calls themselves: which
    snapshot ids a handle takes, what a save adds to what readers are promised, and
    which kind of record each saved page gets. */
module Sessions {
  import opened Words
  import opened Chunk
  import opened Patch
  import opened Index
  import opened Store
  import opened Bitmap
  import opened SavePhase
  import opened Purge
  import opened Database
  import opened SaveStep
  import opened Refinement

  lemma {:induction false} AbsAppend(ops: seq<Op>, op: Op)
    ensures AbsRun(ops + [op]) == AbsStep(AbsRun(ops), op)
  {
    hide AbsStep;
    assert (ops + [op])[..|ops|] == ops;
  }

  /* ---- the snapshot ids a handle takes ---- */

  /** The position of the call that opened the handle that is open after `ops`. */
  function OpenedBy(ops: seq<Op>): (k: Option<nat>)
    ensures k.Some? ==> k.value < |ops| && ops[k.value].Open? && 1 <= ops[k.value].workers <= 255
  {
    if ops == [] then None
    else
      var before := OpenedBy(ops[..|ops| - 1]);
      match ops[|ops| - 1]
      case Open(workers, _, _) => if before.None? && 1 <= workers <= 255 then Some(|ops| - 1) else before
      case Close => None
      case _ => before
  }

  /** `id` is above every save of a history; a log without saves has 0 in its header. */
  ghost predicate Above(h: History, id: nat) {
    id > 0 && forall i :: 0 <= i < |h| ==> h[i].id < id
  }

  /** Above every id offered to a save call since position `k`, but for those too large to take. */
  ghost predicate AboveOffered(ops: seq<Op>, k: nat, id: nat) {
    forall i :: k < i < |ops| && ops[i].SavePages? && ops[i].id < 0x8_0000 ==> ops[i].id < id
  }

  /** The id was above all that the log held when the handle was opened, if there was
      a log, and is above all ids offered to the handle. */
  ghost predicate AboveAll(ops: seq<Op>, k: nat, id: nat)
    requires k <= |ops|
  {
    (AbsRun(ops[..k]).log.Some? ==> Above(AbsRun(ops[..k]).log.value, id)) && AboveOffered(ops, k, id)
  }

  ghost predicate InOrder(a: Abs) {
    && (a.log.Some? ==> Increasing(a.log.value))
    && (a.index.Some? ==> Increasing(a.index.value))
    && (a.session.Some? ==>
          && a.log.Some?
          && (a.session.value.None? ==> a.log.value == [])
          && (a.session.value.Some? ==>
                a.session.value.value < SNAPSHOTS && LastId(a.log.value) <= a.session.value.value))
  }

  lemma {:induction false} RunInOrder(ops: seq<Op>)
    ensures InOrder(AbsRun(ops))
  {
    if ops != [] {
      hide InOrder;
      RunInOrder(ops[..|ops| - 1]);
      StepInOrder(AbsRun(ops[..|ops| - 1]), ops[|ops| - 1]);
    }
  }

  lemma StepInOrder(a: Abs, op: Op)
    requires InOrder(a)
    ensures InOrder(AbsStep(a, op))
  {
    hide JobsOf, PagesOf, UpTo;
    match op {
      case PurgeOp(t) =>
        if a.log.Some? { UpToIncreasing(a.log.value, t); }
        if a.index.Some? { UpToIncreasing(a.index.value, t); }
      case _ =>
    }
  }

  lemma LastIsAbove(h: History, id: nat)
    requires Increasing(h)
    ensures Above(h, id) <==> id > LastId(h)
  {
    if h != [] && id > LastId(h) {
      forall i | 0 <= i < |h| ensures h[i].id < id { if i < |h| - 1 { assert h[i].id < h[|h| - 1].id; } }
    }
  }

  /** In every run: a handle takes an id if and only if it fits 19 bits and is above
      every id of the log it opened and every id offered to it before. */
  lemma {:induction false} IdAcceptedIff(ops: seq<Op>, id: nat)
    ensures AbsRun(ops).session.Some? <==> OpenedBy(ops).Some?
    ensures OpenedBy(ops).Some? ==>
      var refused := Admit(AbsRun(ops).session.value, id);
      && (refused == Some(SnapshotTooLarge) <==> id >= 0x8_0000)
      && (refused.None? <==> id < 0x8_0000 && AboveAll(ops, OpenedBy(ops).value, id))
      && (refused.Some? && id < 0x8_0000 ==> refused == Some(SnapshotNotIncreasing))
  {
    hide AbsRun;
    LastIsHighest(ops);
    if OpenedBy(ops).Some? && id < SNAPSHOTS { assert Admit(AbsRun(ops).session.value, id).None? <==> Fits(ops, id); }
  }

  /** The handle's last id, as the calls decide it. */
  ghost predicate Fits(ops: seq<Op>, id: nat)
    requires OpenedBy(ops).Some?
  {
    AboveAll(ops, OpenedBy(ops).value, id)
  }

  ghost predicate Exceeds(last: Option<nat>, id: nat) { last.Some? ==> last.value < id }

  lemma {:induction false} LastIsHighest(ops: seq<Op>)
    ensures AbsRun(ops).session.Some? <==> OpenedBy(ops).Some?
    ensures OpenedBy(ops).Some? ==>
      forall id: nat :: Exceeds(AbsRun(ops).session.value, id) <==> Fits(ops, id)
  {
    hide AbsStep, Fits, Exceeds;
    if ops == [] {
      NothingOpen();
    } else {
      var front, op := ops[..|ops| - 1], ops[|ops| - 1];
      LastIsHighest(front);
      RunInOrder(front);
      assert ops == front + [op];
      AbsAppend(front, op);
      LastStep(front, op);
    }
  }

  lemma NothingOpen()
    ensures AbsRun([]).session.None? && OpenedBy([]).None?
  {
  }

  lemma LastStep(front: seq<Op>, op: Op)
    requires AbsRun(front).session.Some? <==> OpenedBy(front).Some?
    requires OpenedBy(front).Some? ==> forall id: nat :: Exceeds(AbsRun(front).session.value, id) <==> Fits(front, id)
    requires InOrder(AbsRun(front))
    ensures var ops, a := front + [op], AbsStep(AbsRun(front), op);
      && (a.session.Some? <==> OpenedBy(ops).Some?)
      && (OpenedBy(ops).Some? ==> forall id: nat :: Exceeds(a.session.value, id) <==> Fits(ops, id))
  {
    hide AbsRun, JobsOf, PagesOf, Increasing, LastId, Above;
    var ops, a, b := front + [op], AbsRun(front), AbsStep(AbsRun(front), op);
    assert ops[..|front|] == front;
    if OpenedBy(ops).Some? {
      var k := OpenedBy(ops).value;
      assert k < |front| ==> ops[..k] == front[..k];
      forall id: nat ensures Exceeds(b.session.value, id) <==> Fits(ops, id) {
        if k == |front| {
          if a.log.Some? { LastIsAbove(a.log.value, id); }
        } else {
          assert Exceeds(a.session.value, id) <==> Fits(front, id);
          OfferedStep(front, op, k, id);
          if op.SavePages? { assert Exceeds(a.session.value, op.id) <==> Fits(front, op.id); }
        }
      }
    }
  }

  lemma OfferedStep(front: seq<Op>, op: Op, k: nat, id: nat)
    requires k < |front|
    ensures AboveOffered(front + [op], k, id) <==>
      AboveOffered(front, k, id) && (op.SavePages? && op.id < 0x8_0000 ==> op.id < id)
  {
    var ops := front + [op];
    assert ops[|front|] == op;
    if AboveOffered(ops, k, id) {
      forall i | k < i < |front| && front[i].SavePages? && front[i].id < 0x8_0000 ensures front[i].id < id {
        assert ops[i] == front[i];
      }
    }
  }

  /* ---- what a save adds ---- */

  /** The call's arguments are accepted: the snapshot check, then those of the pages. */
  ghost predicate Accepted(a: Abs, req: Request, id: nat)
    requires a.session.Some?
  {
    Admit(a.session.value, id).None? && JobsOf(req).Ok?
  }

  /** After a save call, from the history behind the log: a page the request includes
      is, from the save's id on, its 4096 bytes of the memory at 4096 * PA; every other
      page and every earlier snapshot is as before, and so is all of it after a refusal. */
  lemma LogAfterSave(a: Abs, req: Request, id: nat, pa: nat, snap: nat)
    requires a.session.Some? && a.log.Some?
    ensures var b := AbsSave(a, req, id);
      && b.log.Some? && b.index == a.index && b.session.Some?
      && var now := Newest(b.log.value, pa, snap);
         if Accepted(a, req, id) && Includes(req, pa) && id <= snap
         then now.Some? && HandsOver(req.memory, Job(pa, now.value))
         else now == Newest(a.log.value, pa, snap)
  {
    hide JobsOf, PagesOf, Includes, Newest, HandsOver;
    if Accepted(a, req, id) {
      JobsExact(req);
      var jobs := JobsOf(req).value;
      PagesExact(jobs, pa);
      if jobs == [] {
        assert !HasJob(jobs, pa);
      } else {
        NewestAfter(a.log.value, Save(id, PagesOf(jobs)), pa, snap);
      }
    }
  }

  lemma NewestAfter(h: History, save: Save, pa: nat, snap: nat)
    ensures Newest(h + [save], pa, snap) ==
      if save.id <= snap && pa in save.pages then Some(save.pages[pa]) else Newest(h, pa, snap)
  {
    assert (h + [save])[..|h|] == h;
  }

  lemma {:induction false} PagesExact(jobs: seq<Job>, pa: nat)
    requires forall i, j :: 0 <= i < j < |jobs| ==> jobs[i].pa < jobs[j].pa
    ensures pa in PagesOf(jobs) <==> HasJob(jobs, pa)
    ensures pa in PagesOf(jobs) ==> Job(pa, PagesOf(jobs)[pa]) in jobs
  {
    if jobs != [] {
      var front := jobs[..|jobs| - 1];
      PagesExact(front, pa);
      assert forall i :: 0 <= i < |front| ==> front[i] == jobs[i];
      if HasJob(front, pa) {
        var i :| 0 <= i < |front| && front[i].pa == pa;
        assert jobs[i].pa == pa;
      }
    }
  }

  /* ---- the kinds of the records saved ---- */

  /** A handle keeps the worker count, delta threshold and shadow flag it was opened
      with; a threshold of 0 stands for 256. */
  ghost predicate Configured(cfg: Config, call: Op) {
    && call.Open? && cfg.workers == call.workers && cfg.useShadow == call.useShadow
    && cfg.threshold == if call.threshold == 0 then 256 else call.threshold
  }

  lemma {:induction false} HandleConfig(c: Codec, ops: seq<Op>, d: Db)
    requires Reaches(c, ops, d)
    ensures d.session.Some? <==> OpenedBy(ops).Some?
    ensures d.session.Some? ==> Configured(d.session.value.cfg, ops[OpenedBy(ops).value])
  {
    hide DbStep, OpFits, Configured;
    if ops != [] {
      var front, op := ops[..|ops| - 1], ops[|ops| - 1];
      var d0 :| Reaches(c, front, d0) && DbStep(c, d0, op, d);
      HandleConfig(c, front, d0);
      hide Reaches;
      ConfigStep(c, d0, op, d);
    }
  }

  lemma ConfigStep(c: Codec, d: Db, op: Op, d': Db)
    requires DbStep(c, d, op, d')
    ensures d'.session.Some? <==>
      if op.Close? then false else d.session.Some? || (op.Open? && 1 <= op.workers <= 255)
    ensures d'.session.Some? && d.session.Some? ==> d'.session.value.cfg == d.session.value.cfg
    ensures d'.session.Some? && d.session.None? ==> Configured(d'.session.value.cfg, op)
  {
    hide JobsOf, Finishes, WritesOn, PurgeDisk, OpenBlobs, AllWritten, ToTable, IndexOf, Relogged;
  }

  /** In every reachable state with an open handle, after an accepted save of any
      interleaving, the log has grown by one record per page asked for. Each record is
      Zero for a blank page; otherwise Delta when the handle was opened with the shadow
      and the page differs from its shadow entry in at most the threshold of words;
      otherwise Full. Its blob lies in file PA modulo the workers the handle was given. */
  lemma {:induction false} SavedKinds(c: Codec, ops: seq<Op>, d: Db, req: Request, id: nat, d': Db)
    requires CodecOk(c) && Reaches(c, ops, d) && RequestFits(req) && SaveNext(c, d, req, id, d')
    requires AbsRun(ops).session.Some? && Accepted(AbsRun(ops), req, id)
    ensures OpenedBy(ops).Some? && d.session.Some? && d.disk.log.Some? && d'.disk.log.Some?
    ensures var jobs, call, sess := JobsOf(req).value, ops[OpenedBy(ops).value], d.session.value;
      var old', new' := d.disk.log.value.records, d'.disk.log.value.records;
      && Configured(sess.cfg, call)
      && |new'| == |old'| + |jobs| && new'[..|old'|] == old'
      && forall i :: 0 <= i < |jobs| ==>
           && PaOf(new'[|old'| + i].key) == jobs[i].pa && SnapOf(new'[|old'| + i].key) == id
           && IsRight(sess.cfg, sess.shadow, jobs[i], new'[|old'| + i])
  {
    hide Reaches, LogOk, IndexOk, SessionOk, JobsOf, Configured, IsRight, PaOf, SnapOf, Runs, JobsOk, OpenedBy, AbsRun;
    HandleConfig(c, ops, d);
    RunRefines(c, ops, d);
    var sess, t, jobs := d.session.value, d.disk.log.value, JobsOf(req).value;
    if jobs != [] {
      JobsAscend(req);
      var x := Context(c, sess.cfg, id, jobs);
      var s, written :| Finishes(x, d.disk.blobs, sess.shadow, s)
      && WritesOn(sess.written, written, s.blobs) && d' == AfterSave(d, id, s, written);
      FinishedSave(x, t, d.disk.blobs, AbsRun(ops).log.value, sess, s);
      SavedRight(x, t, d.disk.blobs, AbsRun(ops).log.value, sess, s);
    }
  }

  lemma SavedRight(x: Context, t: Table, blobs: Blobs, h: History, sess: Session, s: Phase)
    requires Saved(x, t, blobs, h, sess, s) && Finishes(x, blobs, sess.shadow, s)
    ensures |Records(s)| == |x.jobs|
    ensures forall i :: 0 <= i < |x.jobs| ==>
      && PaOf(Records(s)[i].key) == x.jobs[i].pa && SnapOf(Records(s)[i].key) == x.id
      && IsRight(x.cfg, sess.shadow, x.jobs[i], Records(s)[i])
  {
    hide Inv, LogOk, SessionOk, IsRight, PaOf, SnapOf, Runs, Complete, Placed;
    NewRecords(x, t, blobs, h, sess, s);
    var schedule :| Runs(x, Start(x, blobs, sess.shadow), schedule, s);
    forall i | 0 <= i < |x.jobs| ensures IsRight(x.cfg, sess.shadow, x.jobs[i], Records(s)[i]) {
      RecordsAreRight(x, blobs, sess.shadow, schedule, s, i);
    }
  }
}
