/** The parallel phase of a save: one job per dirty page, interleaved in any
    order, sharing the blob files, the shadow and the record buffer. */
module SavePhase {
  import opened Words
  import opened Chunk
  import opened Patch
  import opened Store

  datatype Config = Config(workers: nat, threshold: nat, useShadow: bool)

  datatype Job = Job(pa: nat, page: Page)

  datatype ShadowEntry = ShadowEntry(key: nat, page: Page)

  type Shadow = map<nat, ShadowEntry>

  /** What all jobs of one save read but never change. */
  datatype Context = Context(codec: Codec, cfg: Config, id: nat, jobs: seq<Job>)

  ghost predicate ContextOk(x: Context) {
    && 1 <= x.cfg.workers <= 255
    && CodecOk(x.codec)
    && x.id < SNAPSHOTS
    && (forall i :: 0 <= i < |x.jobs| ==> x.jobs[i].pa < PA_LIMIT)
    && (forall i, j :: 0 <= i < j < |x.jobs| ==> x.jobs[i].pa != x.jobs[j].pa)
  }

  /* ---- one page: the choice made by process_one ---- */

  datatype Plan = PlanZero | PlanDelta(base: nat, data: seq<byte>) | PlanFull(data: seq<byte>)

  function MakePlan(c: Codec, cfg: Config, shadow: Shadow, job: Job): Plan {
    if AllZero(job.page) then PlanZero
    else if cfg.useShadow && job.pa in shadow
         && |XorPatch(job.page, shadow[job.pa].page)| <= cfg.threshold
    then PlanDelta(shadow[job.pa].key, EncodePatch(XorPatch(job.page, shadow[job.pa].page)))
    else PlanFull(c.compress(job.page))
  }

  /** A page is near its shadow entry if at most `threshold` of its 8-byte words differ. */
  ghost predicate IsNear(cfg: Config, shadow: Shadow, job: Job) {
    && cfg.useShadow && job.pa in shadow
    && |set w: nat | w < 512 && job.page[8 * w..8 * w + 8] != shadow[job.pa].page[8 * w..8 * w + 8]| <= cfg.threshold
  }

  ghost predicate IsBlank(page: Page) { forall b :: 0 <= b < 4096 ==> page[b] == 0 }

  /** Zero for a blank page, Delta for one near its shadow entry, Full otherwise. */
  ghost function RightKind(cfg: Config, shadow: Shadow, job: Job): ChunkKind {
    if IsBlank(job.page) then Zero else if IsNear(cfg, shadow, job) then Delta else Full
  }

  ghost function PlanKind(p: Plan): ChunkKind {
    match p case PlanZero => Zero case PlanDelta(_, _) => Delta case PlanFull(_) => Full
  }

  /** Which kind is chosen, over the bytes of the page and of its shadow entry. */
  lemma PlanIsRight(c: Codec, cfg: Config, shadow: Shadow, job: Job)
    ensures var plan := MakePlan(c, cfg, shadow, job);
      && PlanKind(plan) == RightKind(cfg, shadow, job)
      && (plan.PlanDelta? ==>
            && job.pa in shadow && plan.base == shadow[job.pa].key
            && ApplyPatch(plan.data, shadow[job.pa].page) == Ok(job.page))
      && (plan.PlanFull? ==> plan.data == c.compress(job.page))
  {
    hide XorPatch, EncodePatch, ApplyPatch;
    if job.pa in shadow {
      PatchCount(job.page, shadow[job.pa].page);
      PatchRoundTrip(job.page, shadow[job.pa].page);
      assert DifferingWords(job.page, shadow[job.pa].page) ==
        set w: nat | w < 512 && job.page[8 * w..8 * w + 8] != shadow[job.pa].page[8 * w..8 * w + 8];
    }
  }

  function PlanRecord(p: Plan, key: nat, w: byte, offset: nat): Record {
    match p
    case PlanZero => NewZero(key)
    case PlanDelta(base, data) => NewDelta(key, w, offset, |data|, base)
    case PlanFull(data) => NewFull(key, w, offset, |data|)
  }

  function WorkerOf(cfg: Config, pa: nat): (w: byte)
  {
    if 1 <= cfg.workers <= 255 then pa % cfg.workers else 0
  }

  function Find(shadow: Shadow, pa: nat): Option<ShadowEntry> {
    if pa in shadow then Some(shadow[pa]) else None
  }

  /** `insert_if_newer`. */
  function InsertIfNewer(shadow: Shadow, pa: nat, e: ShadowEntry): Shadow {
    if pa !in shadow || e.key > shadow[pa].key then shadow[pa := e] else shadow
  }

  /** Of any two entries the one with the greater key stays, in whichever order they
      come, and other pages keep theirs. */
  lemma GreaterKeyStays(shadow: Shadow, pa: nat, a: ShadowEntry, b: ShadowEntry, other: nat)
    requires a.key != b.key
    ensures InsertIfNewer(InsertIfNewer(shadow, pa, a), pa, b) == InsertIfNewer(InsertIfNewer(shadow, pa, b), pa, a)
    ensures pa in InsertIfNewer(shadow, pa, a) && a.key <= InsertIfNewer(shadow, pa, a)[pa].key
    ensures Find(InsertIfNewer(shadow, pa, a), pa) in {Some(a), Find(shadow, pa)}
    ensures other != pa ==> Find(InsertIfNewer(shadow, pa, a), other) == Find(shadow, other)
  {
    var x, y := InsertIfNewer(shadow, pa, a), InsertIfNewer(shadow, pa, b);
    assert InsertIfNewer(x, pa, b) == InsertIfNewer(y, pa, a);
  }

  /* ---- all pages: the interleaving ---- */

  /** Where a job stands: it reads the shadow, appends its blob (one critical
      section), installs a Full page in the shadow, and stores its record. */
  datatype Pc =
    | Todo
    | Planned(plan: Plan)
    | Appended(plan: Plan, rec: Record)
    | Published(rec: Record)
    | Done(rec: Record)

  datatype Phase = Phase(pc: seq<Pc>, blobs: Blobs, shadow: Shadow, slots: seq<Option<Record>>)

  datatype Action = Decide | Append | Publish | Write

  datatype Step = Step(action: Action, job: nat)

  function Start(x: Context, blobs: Blobs, shadow: Shadow): Phase {
    Phase(seq(|x.jobs|, _ => Todo), blobs, shadow, seq(|x.jobs|, _ => None))
  }

  predicate Enabled(x: Context, s: Phase, t: Step) {
    && t.job < |x.jobs| == |s.pc| == |s.slots|
    && WorkerOf(x.cfg, x.jobs[t.job].pa) in s.blobs
    && match t.action
       case Decide => s.pc[t.job].Todo?
       case Append => s.pc[t.job].Planned?
       case Publish => s.pc[t.job].Appended?
       case Write => s.pc[t.job].Published?
  }

  function Next(x: Context, s: Phase, t: Step): Phase
    requires Enabled(x, s, t)
  {
    var i := t.job;
    var job := x.jobs[i];
    var key := EncodeKey(job.pa, x.id);
    match t.action
    case Decide => s.(pc := s.pc[i := Planned(MakePlan(x.codec, x.cfg, s.shadow, job))])
    case Append =>
      var plan := s.pc[i].plan;
      var w := WorkerOf(x.cfg, job.pa);
      var rec := PlanRecord(plan, key, w, |s.blobs[w]|);
      s.(pc := s.pc[i := Appended(plan, rec)],
         blobs := if plan.PlanZero? then s.blobs else s.blobs[w := s.blobs[w] + plan.data])
    case Publish =>
      var Appended(plan, rec) := s.pc[i];
      s.(pc := s.pc[i := Published(rec)],
         shadow := if plan.PlanFull? && x.cfg.useShadow
                   then InsertIfNewer(s.shadow, job.pa, ShadowEntry(key, job.page)) else s.shadow)
    case Write =>
      s.(pc := s.pc[i := Done(s.pc[i].rec)], slots := s.slots[i := Some(s.pc[i].rec)])
  }

  /** `schedule` is one interleaving leading from `s` to `s'`. */
  ghost predicate Runs(x: Context, s: Phase, schedule: seq<Step>, s': Phase)
    decreases |schedule|
  {
    if schedule == [] then s == s'
    else Enabled(x, s, schedule[0]) && Runs(x, Next(x, s, schedule[0]), schedule[1..], s')
  }

  ghost predicate Complete(s: Phase) {
    forall i :: 0 <= i < |s.pc| ==> s.pc[i].Done?
  }

  /* ---- what every interleaving keeps ---- */

  ghost function PlanOf(x: Context, s0: Phase, i: nat): Plan
    requires i < |x.jobs|
  {
    MakePlan(x.codec, x.cfg, s0.shadow, x.jobs[i])
  }

  ghost function KeyOf(x: Context, i: nat): nat
    requires i < |x.jobs|
  {
    EncodeKey(x.jobs[i].pa, x.id)
  }

  ghost function JobWorker(x: Context, i: nat): byte
    requires i < |x.jobs|
  {
    WorkerOf(x.cfg, x.jobs[i].pa)
  }

  /** The job's bytes lie at the record's range, in the part this save added. */
  ghost predicate Placed(x: Context, s0: Phase, blobs: Blobs, i: nat, r: Record)
    requires i < |x.jobs|
  {
    var plan, w := PlanOf(x, s0, i), JobWorker(x, i);
    && r == PlanRecord(plan, KeyOf(x, i), w, r.offset)
    && (!plan.PlanZero? ==>
          && w in s0.blobs
          && |s0.blobs[w]| <= r.offset
          && ReadBlob(blobs, r) == Ok(plan.data))
  }

  /** The shadow entry of the job's page once the job has published. */
  ghost function ShadowAfter(x: Context, s0: Phase, i: nat): Option<ShadowEntry>
    requires i < |x.jobs|
  {
    var pa := x.jobs[i].pa;
    if PlanOf(x, s0, i).PlanFull? && x.cfg.useShadow
    then Find(InsertIfNewer(s0.shadow, pa, ShadowEntry(KeyOf(x, i), x.jobs[i].page)), pa)
    else Find(s0.shadow, pa)
  }

  ghost predicate JobOk(x: Context, s0: Phase, s: Phase, i: nat)
    requires i < |x.jobs| == |s.pc| == |s.slots|
  {
    var now := Find(s.shadow, x.jobs[i].pa);
    match s.pc[i]
    case Todo => s.slots[i] == None && now == Find(s0.shadow, x.jobs[i].pa)
    case Planned(p) => s.slots[i] == None && p == PlanOf(x, s0, i) && now == Find(s0.shadow, x.jobs[i].pa)
    case Appended(p, r) =>
      && s.slots[i] == None && p == PlanOf(x, s0, i) && now == Find(s0.shadow, x.jobs[i].pa)
      && Placed(x, s0, s.blobs, i, r)
    case Published(r) => s.slots[i] == None && Placed(x, s0, s.blobs, i, r) && now == ShadowAfter(x, s0, i)
    case Done(r) => s.slots[i] == Some(r) && Placed(x, s0, s.blobs, i, r) && now == ShadowAfter(x, s0, i)
  }

  /** The record a job has placed so far, if it owns a blob range. */
  ghost function Owned(s: Phase, i: nat): Option<Record>
    requires i < |s.pc|
  {
    match s.pc[i]
    case Todo => None
    case Planned(_) => None
    case Appended(_, r) => if r.kind == Zero then None else Some(r)
    case Published(r) => if r.kind == Zero then None else Some(r)
    case Done(r) => if r.kind == Zero then None else Some(r)
  }

  ghost predicate OwnedAt(s: Phase, i: nat, w: byte, o: nat) {
    i < |s.pc| && Owned(s, i).Some? && CoversByte(Owned(s, i).value, w, o)
  }

  ghost predicate Claimed(s: Phase, w: byte, o: nat) {
    exists i: nat :: OwnedAt(s, i, w, o)
  }

  ghost predicate Added(a: Blobs, b: Blobs, w: byte, o: nat) {
    w in a && w in b && |a[w]| <= o < |b[w]|
  }

  /** Each byte this save added to a file belongs to exactly one job. */
  ghost predicate Tiles(s0: Phase, s: Phase) {
    && (forall w, o: nat :: Added(s0.blobs, s.blobs, w, o) <==> Claimed(s, w, o))
    && (forall i: nat, j: nat, w, o: nat :: OwnedAt(s, i, w, o) && OwnedAt(s, j, w, o) ==> i == j)
  }

  ghost predicate IsJob(x: Context, pa: nat) {
    exists i :: 0 <= i < |x.jobs| && x.jobs[i].pa == pa
  }

  ghost predicate Inv(x: Context, s0: Phase, s: Phase) {
    && |x.jobs| == |s.pc| == |s.slots|
    && s.blobs.Keys == s0.blobs.Keys
    && Grows(s0.blobs, s.blobs)
    && (forall i :: 0 <= i < |x.jobs| ==> JobOk(x, s0, s, i))
    && (forall pa: nat :: !IsJob(x, pa) ==> Find(s.shadow, pa) == Find(s0.shadow, pa))
    && Tiles(s0, s)
  }

  ghost predicate Ready(x: Context, blobs: Blobs) {
    ContextOk(x) && forall i :: 0 <= i < |x.jobs| ==> JobWorker(x, i) in blobs
  }

  lemma StartInv(x: Context, blobs: Blobs, shadow: Shadow)
    ensures Inv(x, Start(x, blobs, shadow), Start(x, blobs, shadow))
  {
  }

  /** Another job's step leaves this job's facts alone. */
  lemma OtherJob(x: Context, s0: Phase, s: Phase, t: Step, j: nat)
    requires ContextOk(x) && Inv(x, s0, s) && Enabled(x, s, t) && j < |x.jobs| && j != t.job
    ensures JobOk(x, s0, Next(x, s, t), j)
  {
    var s' := Next(x, s, t);
    assert JobOk(x, s0, s, j);
    assert x.jobs[j].pa != x.jobs[t.job].pa;
    assert Find(s'.shadow, x.jobs[j].pa) == Find(s.shadow, x.jobs[j].pa);
    assert Grows(s.blobs, s'.blobs);
    match s.pc[j] {
      case Todo =>
      case Planned(_) =>
      case Appended(_, r) => PlacedGrows(x, s0, s.blobs, s'.blobs, j, r);
      case Published(r) => PlacedGrows(x, s0, s.blobs, s'.blobs, j, r);
      case Done(r) => PlacedGrows(x, s0, s.blobs, s'.blobs, j, r);
    }
  }

  lemma PlacedGrows(x: Context, s0: Phase, a: Blobs, b: Blobs, i: nat, r: Record)
    requires i < |x.jobs| && Placed(x, s0, a, i, r) && Grows(a, b)
    ensures Placed(x, s0, b, i, r)
  {
    if !PlanOf(x, s0, i).PlanZero? { GrowsKeeps(a, b, r); }
  }

  lemma OwnJob(x: Context, s0: Phase, s: Phase, t: Step)
    requires ContextOk(x) && Inv(x, s0, s) && Enabled(x, s, t)
    ensures JobOk(x, s0, Next(x, s, t), t.job)
  {
    assert JobOk(x, s0, s, t.job);
    if t.action == Append {
      AppendPlaces(x, s0, s, t);
    }
  }

  lemma AppendPlaces(x: Context, s0: Phase, s: Phase, t: Step)
    requires ContextOk(x) && Inv(x, s0, s) && Enabled(x, s, t) && t.action == Append
    ensures Placed(x, s0, Next(x, s, t).blobs, t.job, Next(x, s, t).pc[t.job].rec)
  {
    assert JobOk(x, s0, s, t.job);
    var plan, w := s.pc[t.job].plan, JobWorker(x, t.job);
    if !plan.PlanZero? {
      var file := s.blobs[w];
      assert (file + plan.data)[|file|..|file| + |plan.data|] == plan.data;
    }
  }

  ghost predicate Extends(s: Phase, t: Step) {
    t.action == Append && t.job < |s.pc| && s.pc[t.job].Planned? && !s.pc[t.job].plan.PlanZero?
  }

  lemma OwnedStep(x: Context, s0: Phase, s: Phase, t: Step, j: nat)
    requires Inv(x, s0, s) && Enabled(x, s, t) && j < |x.jobs|
    requires j != t.job || !Extends(s, t)
    ensures Owned(Next(x, s, t), j) == Owned(s, j)
  {
    assert JobOk(x, s0, s, j);
  }

  lemma OwnedAppend(x: Context, s0: Phase, s: Phase, t: Step, w: byte, o: nat)
    requires Inv(x, s0, s) && Enabled(x, s, t) && Extends(s, t)
    ensures Owned(s, t.job) == None && Owned(Next(x, s, t), t.job).Some?
    ensures OwnedAt(Next(x, s, t), t.job, w, o) <==> Added(s.blobs, Next(x, s, t).blobs, w, o)
  {
    var s' := Next(x, s, t);
    assert JobOk(x, s0, s, t.job);
    var v := JobWorker(x, t.job);
    assert s'.blobs[v] == s.blobs[v] + s.pc[t.job].plan.data;
    assert forall u :: u in s.blobs && u != v ==> s'.blobs[u] == s.blobs[u];
  }

  lemma TilesStep(x: Context, s0: Phase, s: Phase, t: Step)
    requires Inv(x, s0, s) && Enabled(x, s, t)
    ensures Tiles(s0, Next(x, s, t))
  {
    hide Next, JobOk, CoversByte;
    var s' := Next(x, s, t);
    assert |s'.pc| == |s.pc| && (!Extends(s, t) ==> s'.blobs == s.blobs) by { NextShape(x, s, t); }
    forall j: nat, w, o: nat
      ensures OwnedAt(s', j, w, o) <==>
        OwnedAt(s, j, w, o) || (Extends(s, t) && j == t.job && Added(s.blobs, s'.blobs, w, o))
    {
      if j < |x.jobs| {
        if Extends(s, t) && j == t.job { OwnedAppend(x, s0, s, t, w, o); } else { OwnedStep(x, s0, s, t, j); }
      }
    }
    NextShape(x, s, t);
    TilesCombine(s0, s, s', t);
  }

  lemma NextShape(x: Context, s: Phase, t: Step)
    requires Enabled(x, s, t)
    ensures var s' := Next(x, s, t);
      && |s'.pc| == |s.pc| && |s'.slots| == |s.slots| && s'.blobs.Keys == s.blobs.Keys
      && Grows(s.blobs, s'.blobs) && (!Extends(s, t) ==> s'.blobs == s.blobs)
      && forall pa: nat :: pa != x.jobs[t.job].pa ==> Find(s'.shadow, pa) == Find(s.shadow, pa)
  {
  }

  /** If one step's new bytes go to its job and nothing else changes hands, the tiling extends. */
  lemma TilesCombine(s0: Phase, s: Phase, s': Phase, t: Step)
    requires Tiles(s0, s) && Grows(s0.blobs, s.blobs) && Grows(s.blobs, s'.blobs)
    requires s.blobs.Keys == s'.blobs.Keys == s0.blobs.Keys
    requires !Extends(s, t) ==> s'.blobs == s.blobs
    requires forall j: nat, w, o: nat :: OwnedAt(s', j, w, o) <==>
        OwnedAt(s, j, w, o) || (Extends(s, t) && j == t.job && Added(s.blobs, s'.blobs, w, o))
    ensures Tiles(s0, s')
  {
    hide Extends, OwnedAt;
    forall w, o: nat ensures Added(s0.blobs, s'.blobs, w, o) <==> Claimed(s', w, o) {
      assert Added(s0.blobs, s'.blobs, w, o) <==> Added(s0.blobs, s.blobs, w, o) || Added(s.blobs, s'.blobs, w, o);
      if Claimed(s, w, o) {
        var j: nat :| OwnedAt(s, j, w, o);
        assert OwnedAt(s', j, w, o);
      } else if Added(s.blobs, s'.blobs, w, o) {
        assert OwnedAt(s', t.job, w, o);
      }
    }
    forall i: nat, j: nat, w, o: nat | OwnedAt(s', i, w, o) && OwnedAt(s', j, w, o) ensures i == j {
      assert OwnedAt(s, i, w, o) || OwnedAt(s, j, w, o) ==> Claimed(s, w, o);
      assert Claimed(s, w, o) ==> Added(s0.blobs, s.blobs, w, o);
    }
  }

  /** One step of any job keeps the invariant. */
  lemma StepInv(x: Context, s0: Phase, s: Phase, t: Step)
    requires ContextOk(x) && Inv(x, s0, s) && Enabled(x, s, t)
    ensures Inv(x, s0, Next(x, s, t))
  {
    hide JobOk, Next, Tiles;
    var s' := Next(x, s, t);
    NextShape(x, s, t);
    forall j | 0 <= j < |x.jobs| ensures JobOk(x, s0, s', j) {
      if j == t.job { OwnJob(x, s0, s, t); } else { OtherJob(x, s0, s, t, j); }
    }
    TilesStep(x, s0, s, t);
    forall pa: nat | !IsJob(x, pa) ensures Find(s'.shadow, pa) == Find(s0.shadow, pa) {
      assert pa != x.jobs[t.job].pa;
    }
  }

  lemma {:induction false} RunInv(x: Context, s0: Phase, s: Phase, schedule: seq<Step>, s': Phase)
    requires ContextOk(x) && Inv(x, s0, s) && Runs(x, s, schedule, s')
    ensures Inv(x, s0, s')
    decreases |schedule|
  {
    if schedule != [] {
      hide Inv, Next, Enabled;
      StepInv(x, s0, s, schedule[0]);
      RunInv(x, s0, Next(x, s, schedule[0]), schedule[1..], s');
    }
  }

  /* ---- consequences for whole schedules ---- */

  function Rank(p: Pc): nat {
    match p case Todo => 0 case Planned(_) => 1 case Appended(_, _) => 2 case Published(_) => 3 case Done(_) => 4
  }

  function ActionRank(a: Action): nat {
    match a case Decide => 0 case Append => 1 case Publish => 2 case Write => 3
  }

  /** In any schedule a job performs each of its actions at most once, in order:
      an action occurs exactly when the job moved past it. */
  lemma {:induction false} ActionsOnce(x: Context, s: Phase, schedule: seq<Step>, s': Phase, a: Action, i: nat)
    requires Runs(x, s, schedule, s') && i < |s.pc| == |x.jobs| == |s.slots|
    ensures |s'.pc| == |s.pc|
    ensures multiset(schedule)[Step(a, i)] == if Rank(s.pc[i]) <= ActionRank(a) < Rank(s'.pc[i]) then 1 else 0
    ensures Rank(s.pc[i]) <= Rank(s'.pc[i])
    decreases |schedule|
  {
    if schedule != [] {
      var t, rest := schedule[0], schedule[1..];
      assert schedule == [t] + rest;
      var mid := Next(x, s, t);
      NextRank(x, s, t, i);
      hide Next;
      ActionsOnce(x, mid, rest, s', a, i);
    }
  }

  lemma NextRank(x: Context, s: Phase, t: Step, i: nat)
    requires Enabled(x, s, t) && i < |s.pc|
    ensures var s' := Next(x, s, t);
      && |s'.pc| == |s.pc| && |s'.slots| == |s.slots|
      && Rank(s'.pc[i]) == Rank(s.pc[i]) + (if t.job == i then 1 else 0)
      && (t.job == i ==> ActionRank(t.action) == Rank(s.pc[i]))
  {
  }

  /** A complete schedule writes every record slot exactly once. */
  lemma WritesOnce(x: Context, blobs: Blobs, shadow: Shadow, schedule: seq<Step>, s': Phase, i: nat)
    requires Runs(x, Start(x, blobs, shadow), schedule, s') && Complete(s') && i < |x.jobs|
    ensures multiset(schedule)[Step(Write, i)] == 1
  {
    ActionsOnce(x, Start(x, blobs, shadow), schedule, s', Write, i);
  }

  /** The records of a completed phase, in slot order. */
  ghost function Records(s: Phase): seq<Record>
    requires forall i :: 0 <= i < |s.slots| ==> s.slots[i].Some?
  {
    seq(|s.slots|, i requires 0 <= i < |s.slots| => s.slots[i].value)
  }

  /** Slot i of a completed phase holds the record of the i-th dirty page. */
  lemma CompletedSlots(x: Context, s0: Phase, s: Phase)
    requires Inv(x, s0, s) && Complete(s)
    ensures forall i :: 0 <= i < |s.slots| ==> s.slots[i].Some?
    ensures |Records(s)| == |x.jobs|
    ensures forall i :: 0 <= i < |x.jobs| ==> Placed(x, s0, s.blobs, i, Records(s)[i])
    ensures forall i :: 0 <= i < |x.jobs| ==> Records(s)[i].key == KeyOf(x, i)
    ensures forall i :: 0 <= i < |x.jobs| ==> Find(s.shadow, x.jobs[i].pa) == ShadowAfter(x, s0, i)
  {
    hide Placed, ShadowAfter;
    forall i | 0 <= i < |x.jobs|
      ensures s.slots[i].Some? && Placed(x, s0, s.blobs, i, s.slots[i].value)
      ensures Find(s.shadow, x.jobs[i].pa) == ShadowAfter(x, s0, i)
    {
      assert JobOk(x, s0, s, i);
    }
    forall i | 0 <= i < |x.jobs| ensures Records(s)[i].key == KeyOf(x, i) {
      PlacedKey(x, s0, s.blobs, i, s.slots[i].value);
    }
  }

  lemma PlacedKey(x: Context, s0: Phase, blobs: Blobs, i: nat, r: Record)
    requires i < |x.jobs| && Placed(x, s0, blobs, i, r)
    ensures r.key == KeyOf(x, i)
  {
  }

  lemma PhasesAgree(x: Context, s0: Phase, s1: Phase, s2: Phase)
    requires Inv(x, s0, s1) && Complete(s1) && Inv(x, s0, s2) && Complete(s2)
    ensures |s1.slots| == |s2.slots| == |x.jobs| && s1.shadow == s2.shadow
    ensures forall i :: 0 <= i < |x.jobs| ==>
      && s1.slots[i].Some? && s2.slots[i].Some?
      && s1.slots[i].value.(offset := 0) == s2.slots[i].value.(offset := 0)
      && (s1.slots[i].value.kind != Zero ==>
            ReadBlob(s1.blobs, s1.slots[i].value) == ReadBlob(s2.blobs, s2.slots[i].value))
  {
    hide ReadBlob, MakePlan;
    CompletedSlots(x, s0, s1);
    CompletedSlots(x, s0, s2);
    forall i | 0 <= i < |x.jobs|
      ensures s1.slots[i].value.(offset := 0) == s2.slots[i].value.(offset := 0)
      ensures s1.slots[i].value.kind != Zero ==>
            ReadBlob(s1.blobs, s1.slots[i].value) == ReadBlob(s2.blobs, s2.slots[i].value)
    {
      assert Placed(x, s0, s1.blobs, i, Records(s1)[i]) && Placed(x, s0, s2.blobs, i, Records(s2)[i]);
    }
    ShadowsAgree(x, s0, s1, s2);
  }

  lemma ShadowsAgree(x: Context, s0: Phase, s1: Phase, s2: Phase)
    requires Inv(x, s0, s1) && Complete(s1) && Inv(x, s0, s2) && Complete(s2)
    ensures s1.shadow == s2.shadow
  {
    hide Placed, ShadowAfter, Tiles, Grows;
    forall pa: nat ensures Find(s1.shadow, pa) == Find(s2.shadow, pa) {
      if IsJob(x, pa) {
        var i :| 0 <= i < |x.jobs| && x.jobs[i].pa == pa;
        assert JobOk(x, s0, s1, i) && JobOk(x, s0, s2, i);
      }
    }
    forall pa: nat ensures pa in s1.shadow <==> pa in s2.shadow {
      assert Find(s1.shadow, pa) == Find(s2.shadow, pa);
    }
    assert forall pa: nat :: pa in s1.shadow ==> Find(s1.shadow, pa) == Find(s2.shadow, pa);
  }

  /** Every complete schedule leaves in slot i the record of the i-th dirty page, with
      its bytes at the recorded range, and the shadow as the jobs decided. */
  lemma {:induction false} RunFillsSlots(x: Context, blobs: Blobs, shadow: Shadow, schedule: seq<Step>, s: Phase,
                                         i: nat)
    requires ContextOk(x) && Runs(x, Start(x, blobs, shadow), schedule, s) && Complete(s) && i < |x.jobs|
    ensures |s.slots| == |x.jobs| && s.slots[i].Some? && s.slots[i].value.key == KeyOf(x, i)
    ensures Placed(x, Start(x, blobs, shadow), s.blobs, i, s.slots[i].value)
    ensures Find(s.shadow, x.jobs[i].pa) == ShadowAfter(x, Start(x, blobs, shadow), i)
  {
    hide Placed, ShadowAfter, Inv, Complete, Runs;
    ScheduleInv(x, blobs, shadow, schedule, s);
    CompletedSlots(x, Start(x, blobs, shadow), s);
  }

  /** In every finished save, whatever its interleaving: each record has the kind its
      page calls for, a Delta names the shadow entry's record, and a stored blob lies in
      the file numbered PA modulo the worker count. */
  lemma {:induction false} RecordsAreRight(x: Context, blobs: Blobs, shadow: Shadow, schedule: seq<Step>, s: Phase,
                                           i: nat)
    requires ContextOk(x) && Runs(x, Start(x, blobs, shadow), schedule, s) && Complete(s) && i < |x.jobs|
    ensures |s.slots| == |x.jobs| && s.slots[i].Some? && IsRight(x.cfg, shadow, x.jobs[i], s.slots[i].value)
  {
    hide Runs, Complete, MakePlan, RightKind;
    RunFillsSlots(x, blobs, shadow, schedule, s, i);
    PlanIsRight(x.codec, x.cfg, shadow, x.jobs[i]);
  }

  ghost predicate IsRight(cfg: Config, shadow: Shadow, job: Job, r: Record) {
    && r.kind == RightKind(cfg, shadow, job)
    && (r.kind == Delta ==> job.pa in shadow && r.baseKey == shadow[job.pa].key)
    && (r.kind != Zero ==> cfg.workers > 0 && r.workerId == job.pa % cfg.workers)
  }

  lemma ScheduleInv(x: Context, blobs: Blobs, shadow: Shadow, schedule: seq<Step>, s: Phase)
    requires ContextOk(x) && Runs(x, Start(x, blobs, shadow), schedule, s)
    ensures Inv(x, Start(x, blobs, shadow), s)
  {
    hide Inv, Runs;
    StartInv(x, blobs, shadow);
    RunInv(x, Start(x, blobs, shadow), Start(x, blobs, shadow), schedule, s);
  }

  /** Any two complete schedules of one save produce the same records up to blob
      offsets, over the same stored bytes, and the same shadow. */
  lemma {:induction false} SchedulesAgree(x: Context, blobs: Blobs, shadow: Shadow, schedule1: seq<Step>, s1: Phase,
                                          schedule2: seq<Step>, s2: Phase)
    requires ContextOk(x)
    requires Runs(x, Start(x, blobs, shadow), schedule1, s1) && Complete(s1)
    requires Runs(x, Start(x, blobs, shadow), schedule2, s2) && Complete(s2)
    ensures |s1.slots| == |s2.slots| == |x.jobs| && s1.shadow == s2.shadow
    ensures forall i :: 0 <= i < |x.jobs| ==>
      && s1.slots[i].Some? && s2.slots[i].Some?
      && s1.slots[i].value.(offset := 0) == s2.slots[i].value.(offset := 0)
      && (s1.slots[i].value.kind != Zero ==>
            ReadBlob(s1.blobs, s1.slots[i].value) == ReadBlob(s2.blobs, s2.slots[i].value))
  {
    hide Inv, Complete, Runs, ReadBlob;
    ScheduleInv(x, blobs, shadow, schedule1, s1);
    ScheduleInv(x, blobs, shadow, schedule2, s2);
    PhasesAgree(x, Start(x, blobs, shadow), s1, s2);
  }

  /* ---- every save finishes ---- */

  function NextAction(p: Pc): Action {
    match p case Todo => Decide case Planned(_) => Append case Appended(_, _) => Publish case _ => Write
  }

  /** No interleaving gets stuck: an unfinished phase has an enabled step. */
  lemma Progress(x: Context, s0: Phase, s: Phase, i: nat) returns (t: Step)
    requires Inv(x, s0, s) && Ready(x, s0.blobs) && i < |x.jobs| && !s.pc[i].Done?
    ensures Enabled(x, s, t) && t == Step(NextAction(s.pc[i]), i)
  {
    t := Step(NextAction(s.pc[i]), i);
    assert JobWorker(x, i) in s0.blobs;
  }

  /** Steps still to be taken by all jobs. */
  ghost function Remaining(pc: seq<Pc>): nat {
    if pc == [] then 0 else (4 - Rank(pc[0])) + Remaining(pc[1..])
  }

  lemma {:induction false} RemainingStep(pc: seq<Pc>, i: nat, p: Pc)
    requires i < |pc| && Rank(p) == Rank(pc[i]) + 1
    ensures Remaining(pc[i := p]) == Remaining(pc) - 1
  {
    if i > 0 {
      RemainingStep(pc[1..], i - 1, p);
      assert pc[i := p][1..] == pc[1..][i - 1 := p];
    }
  }

  /** Every step of any job brings the end of the phase nearer. */
  lemma StepRanks(x: Context, s: Phase, t: Step)
    requires Enabled(x, s, t)
    ensures var s' := Next(x, s, t);
      && |s'.pc| == |s.pc| && Remaining(s'.pc) < Remaining(s.pc)
      && |s'.slots| == |s.slots|
  {
    var s' := Next(x, s, t);
    assert s'.pc == s.pc[t.job := s'.pc[t.job]];
    RemainingStep(s.pc, t.job, s'.pc[t.job]);
  }

  lemma {:induction false} RunsAppend(x: Context, s: Phase, schedule: seq<Step>, mid: Phase, t: Step)
    requires Runs(x, s, schedule, mid) && Enabled(x, mid, t)
    ensures Runs(x, s, schedule + [t], Next(x, mid, t))
    decreases |schedule|
  {
    hide Enabled, Next;
    if schedule == [] {
      assert [t][1..] == [];
    } else {
      RunsAppend(x, Next(x, s, schedule[0]), schedule[1..], mid, t);
      assert (schedule + [t])[1..] == schedule[1..] + [t];
    }
  }

  /** Whatever has been done so far, the save can be carried to its end. */
  lemma {:induction false} CanFinish(x: Context, s0: Phase, schedule: seq<Step>, s: Phase)
    returns (whole: seq<Step>, end: Phase)
    requires Ready(x, s0.blobs) && Inv(x, s0, s) && Runs(x, s0, schedule, s)
    ensures Runs(x, s0, whole, end) && Inv(x, s0, end) && Complete(end)
    decreases Remaining(s.pc)
  {
    hide Inv, Next, Enabled, Runs;
    if Complete(s) {
      whole, end := schedule, s;
    } else {
      var i: nat :| i < |s.pc| && !s.pc[i].Done?;
      JobCount(x, s0, s);
      var t := Progress(x, s0, s, i);
      StepInv(x, s0, s, t);
      StepRanks(x, s, t);
      RunsAppend(x, s0, schedule, s, t);
      whole, end := CanFinish(x, s0, schedule + [t], Next(x, s, t));
    }
  }

  lemma JobCount(x: Context, s0: Phase, s: Phase)
    requires Inv(x, s0, s)
    ensures |s.pc| == |x.jobs| == |s.slots| && s.blobs.Keys == s0.blobs.Keys
  {
  }
}
