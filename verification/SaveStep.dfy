/** A finished save, whatever its interleaving, extends the represented history
    by exactly that save. */
module SaveStep {
  import opened Words
  import opened Chunk
  import opened Patch
  import opened Index
  import opened Store
  import opened SavePhase
  import opened Convert
  import opened Purge
  import opened Database

  /** A save of `x` finished in `s`, over a good log and an open handle. */
  ghost predicate Saved(x: Context, t: Table, blobs: Blobs, h: History, sess: Session, s: Phase) {
    && ContextOk(x) && JobsOk(x.jobs) && x.jobs != [] && x.cfg == sess.cfg
    && LogOk(x.codec, t, blobs, h)
    && SessionOk(x.codec, sess, t.records, blobs)
    && Admit(sess.last, x.id).None?
    && Inv(x, Start(x, blobs, sess.shadow), s) && Complete(s)
    && (forall i :: 0 <= i < |s.slots| ==> s.slots[i].Some?)
  }

  ghost predicate Before(rs: seq<Record>, id: nat) {
    forall r :: r in rs ==> SnapOf(r.key) < id
  }

  lemma AllBefore(rs: seq<Record>, last: Option<nat>, id: nat)
    requires LastOk(rs, last) && Admit(last, id).None?
    ensures Before(rs, id) && id < SNAPSHOTS
  {
  }

  lemma JobKey(x: Context, i: nat)
    requires ContextOk(x) && i < |x.jobs|
    ensures KeyOf(x, i) < U64 && KeyOf(x, i) == KeyFor(x.jobs[i].pa, x.id)
    ensures PaOf(KeyOf(x, i)) == x.jobs[i].pa && SnapOf(KeyOf(x, i)) == x.id
  {
    KeyPacking(x.jobs[i].pa, x.id, 0);
  }

  /** The new records are keyed by the jobs, in ascending PA order. */
  lemma NewRecords(x: Context, t: Table, blobs: Blobs, h: History, sess: Session, s: Phase)
    requires Saved(x, t, blobs, h, sess, s)
    ensures |Records(s)| == |x.jobs|
    ensures forall i :: 0 <= i < |x.jobs| ==>
      && Records(s)[i].key == KeyOf(x, i) < U64
      && PaOf(Records(s)[i].key) == x.jobs[i].pa && SnapOf(Records(s)[i].key) == x.id
      && Placed(x, Start(x, blobs, sess.shadow), s.blobs, i, Records(s)[i])
    ensures LogSorted(Records(s))
  {
    hide Placed, Inv, LogOk, SessionOk, PaOf, SnapOf, KeyOf;
    CompletedSlots(x, Start(x, blobs, sess.shadow), s);
    forall i | 0 <= i < |x.jobs|
      ensures Records(s)[i].key == KeyOf(x, i) < U64
      ensures PaOf(Records(s)[i].key) == x.jobs[i].pa && SnapOf(Records(s)[i].key) == x.id
    {
      JobKey(x, i);
    }
  }

  /* ---- log order ---- */

  lemma AppendSorted(rs: seq<Record>, added: seq<Record>, id: nat)
    requires LogSorted(rs) && LogSorted(added) && Before(rs, id)
    requires forall r :: r in added ==> SnapOf(r.key) == id
    ensures LogSorted(rs + added)
  {
    var all := rs + added;
    forall i, j | 0 <= i < j < |all| ensures LogBefore(all[i].key, all[j].key) {
      if i < |rs| <= j { assert all[i] in rs && all[j] in added; }
    }
  }

  lemma {:induction false} SaveKeepsOrder(x: Context, t: Table, blobs: Blobs, h: History, sess: Session, s: Phase)
    requires Saved(x, t, blobs, h, sess, s)
    ensures LogSorted(t.records + Records(s)) && MaxSnap(t.records + Records(s)) == x.id
    ensures Before(t.records, x.id)
  {
    hide Inv, Placed, Represents, ShadowOk, ShadowFresh, ShadowNewest, LogSorted, SnapOf;
    NewRecords(x, t, blobs, h, sess, s);
    AllBefore(t.records, sess.last, x.id);
    var all := t.records + Records(s);
    forall r | r in Records(s) ensures SnapOf(r.key) == x.id {}
    AppendSorted(t.records, Records(s), x.id);
    assert Records(s)[0] in all;
  }

  /* ---- contents ---- */

  lemma {:induction false} PagesOfJobs(jobs: seq<Job>, pa: nat)
    requires JobsOk(jobs)
    ensures pa in PagesOf(jobs) <==> exists i :: 0 <= i < |jobs| && jobs[i].pa == pa
    ensures forall i :: 0 <= i < |jobs| && jobs[i].pa == pa ==> pa in PagesOf(jobs) && PagesOf(jobs)[pa] == jobs[i].page
  {
    if jobs != [] {
      var front := jobs[..|jobs| - 1];
      PagesOfJobs(front, pa);
      assert forall i :: 0 <= i < |front| ==> front[i] == jobs[i];
    }
  }

  /** Lookup in the new history: the new save's pages at its id, the old history elsewhere. */
  lemma VersionAfter(h: History, id: nat, jobs: seq<Job>, k: nat)
    ensures Version(h + [Save(id, PagesOf(jobs))], k) ==
      if SnapOf(k) == id && PaOf(k) in PagesOf(jobs) then Some(PagesOf(jobs)[PaOf(k)]) else Version(h, k)
  {
    hide PagesOf;
    var h' := h + [Save(id, PagesOf(jobs))];
    assert h'[..|h'| - 1] == h;
  }

  /** The record of each new page resolves to that page. */
  lemma NewStored(x: Context, t: Table, blobs: Blobs, h: History, sess: Session, s: Phase, i: nat)
    requires Saved(x, t, blobs, h, sess, s) && i < |x.jobs|
    ensures |Records(s)| == |x.jobs|
    ensures StoredAs(x.codec, t.records + Records(s), s.blobs, Records(s)[i], x.jobs[i].page)
  {
    hide Inv, LogOk, SessionOk, StoredAs;
    NewRecords(x, t, blobs, h, sess, s);
    var s0 := Start(x, blobs, sess.shadow);
    match PlanOf(x, s0, i) {
      case PlanZero => StoredZero(x, s0, t.records + Records(s), s.blobs, i, Records(s)[i]);
      case PlanFull(_) => StoredFull(x, s0, t.records + Records(s), s.blobs, i, Records(s)[i]);
      case PlanDelta(_, _) => StoredDelta(x, t, blobs, h, sess, s, i);
    }
  }

  lemma StoredZero(x: Context, s0: Phase, rs: seq<Record>, blobs: Blobs, i: nat, r: Record)
    requires ContextOk(x) && i < |x.jobs| && PlanOf(x, s0, i).PlanZero? && Placed(x, s0, blobs, i, r)
    ensures StoredAs(x.codec, rs, blobs, r, x.jobs[i].page)
  {
    JobKey(x, i);
    AllZeroIsZeroPage(x.jobs[i].page);
  }

  lemma StoredFull(x: Context, s0: Phase, rs: seq<Record>, blobs: Blobs, i: nat, r: Record)
    requires ContextOk(x) && i < |x.jobs| && PlanOf(x, s0, i).PlanFull? && Placed(x, s0, blobs, i, r)
    ensures StoredAs(x.codec, rs, blobs, r, x.jobs[i].page)
    ensures r.kind == Full && Decompress(x.codec, blobs, r) == Ok(x.jobs[i].page)
  {
    hide ReadBlob;
    JobKey(x, i);
    var page := x.jobs[i].page;
    assert 0 < |x.codec.compress(page)| < U32 && x.codec.decompress(x.codec.compress(page)) == Some(page);
  }

  /** A good shadow entry stays good as records are appended and files grow. */
  lemma EntryGrows(c: Codec, cfg: Config, rs: seq<Record>, a: Blobs, added: seq<Record>, b: Blobs, pa: nat,
                   e: ShadowEntry)
    requires EntryOk(c, cfg, rs, a, pa, e) && Grows(a, b)
    ensures EntryOk(c, cfg, rs + added, b, pa, e)
    ensures First(rs, e.key).Some? && First(rs + added, e.key) == First(rs, e.key)
  {
    hide First, PaOf, WorkerOf;
    FirstAppend(rs, added, e.key);
    var r := First(rs, e.key).value;
    assert ReadBlob(a, r).Ok?;
    GrowsKeeps(a, b, r);
  }

  lemma StoredDelta(x: Context, t: Table, blobs: Blobs, h: History, sess: Session, s: Phase, i: nat)
    requires Saved(x, t, blobs, h, sess, s) && i < |x.jobs| && |Records(s)| == |x.jobs|
    requires PlanOf(x, Start(x, blobs, sess.shadow), i).PlanDelta?
    requires Placed(x, Start(x, blobs, sess.shadow), s.blobs, i, Records(s)[i])
    ensures StoredAs(x.codec, t.records + Records(s), s.blobs, Records(s)[i], x.jobs[i].page)
  {
    hide JobOk, Tiles, Complete, ReadBlob, Records, First, XorPatch, EncodePatch, ApplyPatch,
      Represents, ShadowFresh, ShadowNewest, LogSorted, EntryOk, PaOf, SnapOf, Decompress, GoodBase, StoredAs;
    var pa, page, r := x.jobs[i].pa, x.jobs[i].page, Records(s)[i];
    var e := sess.shadow[pa];
    EntryGrows(x.codec, x.cfg, t.records, blobs, Records(s), s.blobs, pa, e);
    AllBefore(t.records, sess.last, x.id);
    JobKey(x, i);
    DeltaResolves(x.codec, x.cfg, t.records + Records(s), s.blobs, r, e, page);
  }

  lemma DeltaResolves(c: Codec, cfg: Config, rs: seq<Record>, blobs: Blobs, r: Record, e: ShadowEntry, page: Page)
    requires r.kind == Delta && r.key < U64 && r.baseKey == e.key && r.len == |EncodePatch(XorPatch(page, e.page))|
    requires EntryOk(c, cfg, rs, blobs, PaOf(r.key), e) && r.workerId == WorkerOf(cfg, PaOf(r.key))
    requires SnapOf(e.key) < SnapOf(r.key)
    requires ReadBlob(blobs, r) == Ok(EncodePatch(XorPatch(page, e.page)))
    ensures StoredAs(c, rs, blobs, r, page)
  {
    hide ReadBlob, First, XorPatch, EncodePatch, ApplyPatch, Decompress, PaOf, SnapOf;
    PatchRoundTrip(page, e.page);
    PatchSmall(page, e.page);
  }

  lemma PatchSmall(page: Page, basePage: Page)
    ensures |XorPatch(page, basePage)| <= PAGE_WORDS
  {
  }

  lemma OldStored(x: Context, t: Table, blobs: Blobs, h: History, sess: Session, s: Phase, k: nat)
    requires Saved(x, t, blobs, h, sess, s) && First(t.records, k).Some?
    ensures Version(h, k).Some?
    ensures StoredAs(x.codec, t.records + Records(s), s.blobs, First(t.records, k).value, Version(h, k).value)
  {
    hide Records, ReadBlob, Resolve, Version, First, Complete, JobOk, Tiles, SessionOk;
    var r := First(t.records, k).value;
    assert StoredAs(x.codec, t.records, blobs, r, Version(h, k).value);
    FirstAppend(t.records, Records(s), r.baseKey);
    ResolveGrow(x.codec, t.records, blobs, s.blobs, t.records + Records(s), r);
  }

  /** After the save, the log represents the history extended by the save. */
  lemma {:induction false} SaveRepresents(x: Context, t: Table, blobs: Blobs, h: History, sess: Session, s: Phase)
    requires Saved(x, t, blobs, h, sess, s)
    ensures Represents(x.codec, t.records + Records(s), s.blobs, h + [Save(x.id, PagesOf(x.jobs))])
  {
    var rs, h' := t.records + Records(s), h + [Save(x.id, PagesOf(x.jobs))];
    forall k: nat
      ensures match First(rs, k)
        case None => Version(h', k) == None
        case Some(r) => Version(h', k).Some? && StoredAs(x.codec, rs, s.blobs, r, Version(h', k).value)
    {
      SavedVersion(x, t, blobs, h, sess, s, k);
    }
  }

  lemma SavedVersion(x: Context, t: Table, blobs: Blobs, h: History, sess: Session, s: Phase, k: nat)
    requires Saved(x, t, blobs, h, sess, s)
    ensures match First(t.records + Records(s), k)
      case None => Version(h + [Save(x.id, PagesOf(x.jobs))], k) == None
      case Some(r) =>
        && Version(h + [Save(x.id, PagesOf(x.jobs))], k).Some?
        && StoredAs(x.codec, t.records + Records(s), s.blobs, r, Version(h + [Save(x.id, PagesOf(x.jobs))], k).value)
  {
    hide PagesOf, Version, First, StoredAs, SessionOk, Inv, Complete, PaOf, SnapOf, Placed;
    FirstAppend(t.records, Records(s), k);
    VersionAfter(h, x.id, x.jobs, k);
    PagesOfJobs(x.jobs, PaOf(k));
    SaveKeepsOrder(x, t, blobs, h, sess, s);
    NewRecords(x, t, blobs, h, sess, s);
    if First(t.records, k).Some? {
      OldStored(x, t, blobs, h, sess, s, k);
      assert SnapOf(k) < x.id;
    } else if SnapOf(k) == x.id && PaOf(k) in PagesOf(x.jobs) {
      var i :| 0 <= i < |x.jobs| && x.jobs[i].pa == PaOf(k);
      NewAt(x, s, i, k);
      NewStored(x, t, blobs, h, sess, s, i);
    } else {
      NotNew(x, s, k);
      assert Version(h, k) == None;
    }
  }

  lemma NewAt(x: Context, s: Phase, i: nat, k: nat)
    requires ContextOk(x) && (forall j :: 0 <= j < |s.slots| ==> s.slots[j].Some?)
    requires |Records(s)| == |x.jobs| && forall j :: 0 <= j < |x.jobs| ==> Records(s)[j].key == KeyOf(x, j)
    requires LogSorted(Records(s)) && i < |x.jobs| && PaOf(k) == x.jobs[i].pa && SnapOf(k) == x.id
    ensures First(Records(s), k) == Some(Records(s)[i])
  {
    JobKey(x, i);
    assert k == KeyFor(PaOf(k), SnapOf(k));
    forall j | 0 <= j < |x.jobs| ensures Records(s)[j].key < U64 { JobKey(x, j); }
    LogSortedIsStrict(Records(s));
    FirstOfUnique(Records(s), i);
  }

  lemma NotNew(x: Context, s: Phase, k: nat)
    requires ContextOk(x) && JobsOk(x.jobs) && (forall j :: 0 <= j < |s.slots| ==> s.slots[j].Some?)
    requires |Records(s)| == |x.jobs| && forall j :: 0 <= j < |x.jobs| ==> Records(s)[j].key == KeyOf(x, j)
    requires !(SnapOf(k) == x.id && PaOf(k) in PagesOf(x.jobs))
    ensures First(Records(s), k) == None
  {
    hide PagesOf, KeyOf, PaOf, SnapOf;
    forall j | 0 <= j < |x.jobs| ensures Records(s)[j].key != k {
      JobKey(x, j);
      PagesOfJobs(x.jobs, x.jobs[j].pa);
    }
  }

  /* ---- blob layout ---- */

  lemma LogInFiles(c: Codec, t: Table, blobs: Blobs, h: History)
    requires LogOk(c, t, blobs, h)
    ensures InFiles(t.records, blobs) && KeysFit(t.records) && UniqueKeys(t.records)
    ensures forall r :: r in t.records ==> Shape(t.records, r)
  {
    hide Resolve, Version, ReadBlob, Shape, SnapshotOrdered, NoOverlap, SnapOf, PaOf;
    SortedUnique(t.records);
    forall r | r in t.records
      ensures Shape(t.records, r) && r.key < U64 && (r.kind != Zero ==> ReadBlob(blobs, r).Ok?)
    {
      var i :| 0 <= i < |t.records| && t.records[i] == r;
      FirstOfUnique(t.records, i);
      assert StoredAs(c, t.records, blobs, r, Version(h, r.key).value);
      ResolvedBlobs(c, t.records, blobs, r);
      ShapeKey(t.records, r);
    }
  }

  lemma ShapeKey(rs: seq<Record>, r: Record)
    requires Shape(rs, r)
    ensures r.key < U64
  {
  }

  lemma SortedUnique(rs: seq<Record>)
    requires LogSorted(rs)
    ensures UniqueKeys(rs)
  {
    hide SnapOf, PaOf;
    forall i, j | 0 <= i < j < |rs| ensures rs[i].key != rs[j].key {
      assert LogBefore(rs[i].key, rs[j].key);
    }
  }

  lemma NewRange(x: Context, t: Table, blobs: Blobs, h: History, sess: Session, s: Phase, r: Record, w: byte)
    requires Saved(x, t, blobs, h, sess, s) && r in Records(s) && OwnsRange(r, w)
    ensures w in blobs && |blobs[w]| <= r.offset && SnapOf(r.key) == x.id
  {
    hide Inv, LogOk, SessionOk, ReadBlob, SnapOf;
    NewRecords(x, t, blobs, h, sess, s);
    var i :| 0 <= i < |x.jobs| && Records(s)[i] == r;
    assert Placed(x, Start(x, blobs, sess.shadow), s.blobs, i, r);
  }

  lemma OldRange(c: Codec, t: Table, blobs: Blobs, h: History, r: Record, w: byte)
    requires LogOk(c, t, blobs, h) && r in t.records && OwnsRange(r, w)
    ensures w in blobs && r.offset + r.len <= |blobs[w]|
  {
    hide LogOk;
    LogInFiles(c, t, blobs, h);
  }

  /** New blobs go above all old ones and share no byte with each other. */
  lemma SaveKeepsLayout(x: Context, t: Table, blobs: Blobs, h: History, sess: Session, s: Phase)
    requires Saved(x, t, blobs, h, sess, s)
    ensures SnapshotOrdered(t.records + Records(s)) && NoOverlap(t.records + Records(s))
  {
    var rs, added := t.records, Records(s);
    forall a, b, w | a in rs + added && b in rs + added && OwnsRange(a, w)
                   && OwnsRange(b, w) && SnapOf(a.key) < SnapOf(b.key)
      ensures a.offset + a.len <= b.offset
    {
      OrderedPair(x, t, blobs, h, sess, s, a, b, w);
    }
    forall a, b, w, o: nat | a in rs + added && b in rs + added && CoversByte(a, w, o) && CoversByte(b, w, o)
      ensures a == b
    {
      DisjointPair(x, t, blobs, h, sess, s, a, b, w, o);
    }
  }

  lemma OrderedPair(x: Context, t: Table, blobs: Blobs, h: History, sess: Session, s: Phase, a: Record, b: Record,
                    w: byte)
    requires Saved(x, t, blobs, h, sess, s) && a in t.records + Records(s) && b in t.records + Records(s)
    requires OwnsRange(a, w) && OwnsRange(b, w) && SnapOf(a.key) < SnapOf(b.key)
    ensures a.offset + a.len <= b.offset
  {
    hide Inv, SessionOk, Represents, Complete, Records, SnapOf, OwnsRange;
    SaveKeepsOrder(x, t, blobs, h, sess, s);
    if a in Records(s) { NewRange(x, t, blobs, h, sess, s, a, w); } else { OldRange(x.codec, t, blobs, h, a, w); }
    if b in Records(s) {
      NewRange(x, t, blobs, h, sess, s, b, w);
    } else {
      assert SnapOf(b.key) < x.id;
    }
  }

  lemma DisjointPair(x: Context, t: Table, blobs: Blobs, h: History, sess: Session, s: Phase, a: Record, b: Record,
                     w: byte, o: nat)
    requires Saved(x, t, blobs, h, sess, s) && a in t.records + Records(s) && b in t.records + Records(s)
    requires CoversByte(a, w, o) && CoversByte(b, w, o)
    ensures a == b
  {
    hide Inv, SessionOk, Represents, Complete, Records, OwnsRange;
    if a in Records(s) { NewRange(x, t, blobs, h, sess, s, a, w); } else { OldRange(x.codec, t, blobs, h, a, w); }
    if b in Records(s) { NewRange(x, t, blobs, h, sess, s, b, w); } else { OldRange(x.codec, t, blobs, h, b, w); }
    if a in Records(s) && b in Records(s) { NewDisjoint(x, t, blobs, h, sess, s, a, b, w, o); }
  }

  lemma NewDisjoint(x: Context, t: Table, blobs: Blobs, h: History, sess: Session, s: Phase, a: Record, b: Record,
                    w: byte, o: nat)
    requires Saved(x, t, blobs, h, sess, s) && a in Records(s) && b in Records(s)
    requires CoversByte(a, w, o) && CoversByte(b, w, o)
    ensures a == b
  {
    hide LogOk, SessionOk, Placed, ShadowAfter, Grows;
    var i :| 0 <= i < |s.slots| && Records(s)[i] == a;
    var j :| 0 <= j < |s.slots| && Records(s)[j] == b;
    var s0 := Start(x, blobs, sess.shadow);
    assert JobOk(x, s0, s, i) && JobOk(x, s0, s, j);
    assert s.pc[i] == Done(a) && s.pc[j] == Done(b);
    assert OwnedAt(s, i, w, o) && OwnedAt(s, j, w, o);
  }

  /** Old files tiled by old records stay tiled once the new records are added. */
  lemma SaveKeepsTiling(x: Context, t: Table, blobs: Blobs, h: History, sess: Session, s: Phase, w: byte)
    requires Saved(x, t, blobs, h, sess, s) && w in blobs && FileTiled(t.records, blobs[w], w)
    ensures w in s.blobs && FileTiled(t.records + Records(s), s.blobs[w], w)
  {
    hide LogOk, SessionOk, Placed, ShadowAfter, JobOk, Records;
    assert w in s.blobs && blobs[w] <= s.blobs[w];
    forall o: nat ensures o < |s.blobs[w]| <==> HasByte(t.records + Records(s), w, o) {
      NewBytes(x, t, blobs, h, sess, s, w, o);
      assert HasByte(t.records + Records(s), w, o) <==> HasByte(t.records, w, o) || HasByte(Records(s), w, o) by {
        HasByteAppend(t.records, Records(s), w, o);
      }
    }
  }

  lemma HasByteAppend(a: seq<Record>, b: seq<Record>, w: byte, o: nat)
    ensures HasByte(a + b, w, o) <==> HasByte(a, w, o) || HasByte(b, w, o)
  {
    hide CoversByte;
    if HasByte(a, w, o) { var r :| r in a && CoversByte(r, w, o); assert r in a + b; }
    if HasByte(b, w, o) { var r :| r in b && CoversByte(r, w, o); assert r in a + b; }
  }

  lemma NewBytes(x: Context, t: Table, blobs: Blobs, h: History, sess: Session, s: Phase, w: byte, o: nat)
    requires Saved(x, t, blobs, h, sess, s) && w in blobs && w in s.blobs
    ensures HasByte(Records(s), w, o) <==> |blobs[w]| <= o < |s.blobs[w]|
  {
    hide LogOk, SessionOk, Placed, ShadowAfter, Grows;
    var s0 := Start(x, blobs, sess.shadow);
    assert Added(s0.blobs, s.blobs, w, o) <==> Claimed(s, w, o);
    if Claimed(s, w, o) {
      var i: nat :| OwnedAt(s, i, w, o);
      assert JobOk(x, s0, s, i);
      assert Records(s)[i] in Records(s) && CoversByte(Records(s)[i], w, o);
    }
    if HasByte(Records(s), w, o) {
      var r :| r in Records(s) && CoversByte(r, w, o);
      var i :| 0 <= i < |s.slots| && Records(s)[i] == r;
      assert JobOk(x, s0, s, i);
      assert OwnedAt(s, i, w, o);
    }
  }

  /* ---- the shadow ---- */

  /** A later snapshot of the same page has the greater key, so it is installed. */
  lemma LaterKey(a: nat, b: nat)
    requires PaOf(a) == PaOf(b) && SnapOf(a) < SnapOf(b)
    ensures a < b
  {
  }

  /** The shadow entry of a saved page: the page itself if it was stored Full,
      otherwise what the shadow held before. */
  lemma EntryAfter(x: Context, t: Table, blobs: Blobs, h: History, sess: Session, s: Phase, i: nat)
    requires Saved(x, t, blobs, h, sess, s) && i < |x.jobs| && |Records(s)| == |x.jobs|
    ensures Find(s.shadow, x.jobs[i].pa) ==
      if Records(s)[i].kind == Full && x.cfg.useShadow then Some(ShadowEntry(KeyOf(x, i), x.jobs[i].page))
      else Find(sess.shadow, x.jobs[i].pa)
  {
    hide Inv, LogOk, Complete, KeyOf, ReadBlob, SnapOf, PaOf, MakePlan;
    var s0, pa := Start(x, blobs, sess.shadow), x.jobs[i].pa;
    CompletedSlots(x, s0, s);
    assert Placed(x, s0, s.blobs, i, Records(s)[i]);
    assert Find(s.shadow, pa) == ShadowAfter(x, s0, i);
    JobKey(x, i);
    if pa in sess.shadow {
      assert EntryOk(x.codec, x.cfg, t.records, blobs, pa, sess.shadow[pa]);
      AllBefore(t.records, sess.last, x.id);
      LaterKey(sess.shadow[pa].key, KeyOf(x, i));
    }
  }

  lemma SaveKeepsShadow(x: Context, t: Table, blobs: Blobs, h: History, sess: Session, s: Phase)
    requires Saved(x, t, blobs, h, sess, s)
    ensures ShadowOk(x.codec, x.cfg, t.records + Records(s), s.blobs, s.shadow)
  {
    forall pa | pa in s.shadow
      ensures EntryOk(x.codec, x.cfg, t.records + Records(s), s.blobs, pa, s.shadow[pa])
    {
      ShadowEntryOk(x, t, blobs, h, sess, s, pa);
    }
  }

  lemma ShadowEntryOk(x: Context, t: Table, blobs: Blobs, h: History, sess: Session, s: Phase, pa: nat)
    requires Saved(x, t, blobs, h, sess, s) && pa in s.shadow
    ensures EntryOk(x.codec, x.cfg, t.records + Records(s), s.blobs, pa, s.shadow[pa])
  {
    hide JobOk, Tiles, Complete, EntryOk, Represents, LogSorted, KeyOf, Records, Grows, ShadowFresh, ShadowNewest;
    assert Find(s.shadow, pa) == Some(s.shadow[pa]);
    if IsJob(x, pa) {
      NewRecords(x, t, blobs, h, sess, s);
      var i :| 0 <= i < |x.jobs| && x.jobs[i].pa == pa;
      EntryAfter(x, t, blobs, h, sess, s, i);
      if Records(s)[i].kind == Full && x.cfg.useShadow {
        NewEntryOk(x, t, blobs, h, sess, s, i);
      } else {
        EntryGrows(x.codec, x.cfg, t.records, blobs, Records(s), s.blobs, pa, s.shadow[pa]);
      }
    } else {
      EntryGrows(x.codec, x.cfg, t.records, blobs, Records(s), s.blobs, pa, s.shadow[pa]);
    }
  }

  lemma NewEntryOk(x: Context, t: Table, blobs: Blobs, h: History, sess: Session, s: Phase, i: nat)
    requires Saved(x, t, blobs, h, sess, s) && i < |x.jobs| && |Records(s)| == |x.jobs| && Records(s)[i].kind == Full
    ensures EntryOk(x.codec, x.cfg, t.records + Records(s), s.blobs, x.jobs[i].pa,
                    ShadowEntry(KeyOf(x, i), x.jobs[i].page))
  {
    hide Inv, LogOk, Complete, KeyOf, ReadBlob, SnapOf, PaOf, SessionOk, MakePlan, First, Decompress, Records;
    var s0 := Start(x, blobs, sess.shadow);
    NewRecords(x, t, blobs, h, sess, s);
    SaveKeepsOrder(x, t, blobs, h, sess, s);
    StoredFull(x, s0, t.records, s.blobs, i, Records(s)[i]);
    JobKey(x, i);
    NewAt(x, s, i, KeyOf(x, i));
    FirstAppend(t.records, Records(s), KeyOf(x, i));
  }

  /** The shadow still holds only what this session wrote. */
  lemma SaveKeepsFresh(x: Context, t: Table, blobs: Blobs, h: History, sess: Session, s: Phase)
    requires Saved(x, t, blobs, h, sess, s)
    ensures ShadowFresh(t.records + Records(s), sess.logStart, s.shadow)
  {
    forall pa | pa in s.shadow ensures InSession(t.records + Records(s), sess.logStart, s.shadow[pa].key) {
      EntryFresh(x, t, blobs, h, sess, s, pa);
    }
  }

  lemma EntryFresh(x: Context, t: Table, blobs: Blobs, h: History, sess: Session, s: Phase, pa: nat)
    requires Saved(x, t, blobs, h, sess, s) && pa in s.shadow
    ensures InSession(t.records + Records(s), sess.logStart, s.shadow[pa].key)
  {
    hide JobOk, Tiles, Complete, EntryOk, LogOk, KeyOf, Records, Grows, ShadowOk, ShadowNewest, PaOf, SnapOf, Placed;
    assert Find(s.shadow, pa) == Some(s.shadow[pa]);
    var all := t.records + Records(s);
    if IsJob(x, pa) {
      NewRecords(x, t, blobs, h, sess, s);
      var i :| 0 <= i < |x.jobs| && x.jobs[i].pa == pa;
      EntryAfter(x, t, blobs, h, sess, s, i);
      if s.shadow[pa].key == KeyOf(x, i) { assert all[|t.records| + i].key == s.shadow[pa].key; }
    }
    if Find(s.shadow, pa) == Find(sess.shadow, pa) {
      assert InSession(t.records, sess.logStart, sess.shadow[pa].key);
      var n :| sess.logStart <= n < |t.records| && t.records[n].key == s.shadow[pa].key;
      assert all[n] == t.records[n];
    }
  }

  /** The base of a new Delta is a record this session wrote before this save. */
  lemma NewDeltaBase(x: Context, t: Table, blobs: Blobs, h: History, sess: Session, s: Phase, i: nat)
    requires Saved(x, t, blobs, h, sess, s) && i < |x.jobs| && |Records(s)| == |x.jobs| && Records(s)[i].kind == Delta
    ensures InSession(t.records, sess.logStart, Records(s)[i].baseKey)
  {
    hide Inv, LogOk, Complete, KeyOf, ReadBlob, SnapOf, PaOf, Records, InSession, ShadowOk, ShadowNewest, XorPatch,
      EncodePatch;
    NewRecords(x, t, blobs, h, sess, s);
    assert Placed(x, Start(x, blobs, sess.shadow), s.blobs, i, Records(s)[i]);
  }

  lemma SaveKeepsNewest(x: Context, t: Table, blobs: Blobs, h: History, sess: Session, s: Phase)
    requires Saved(x, t, blobs, h, sess, s) && x.cfg.useShadow
    ensures ShadowNewest(t.records + Records(s), sess.logStart, s.shadow)
  {
    var rs := t.records + Records(s);
    forall n | sess.logStart <= n < |rs| && rs[n].kind == Full
      ensures PaOf(rs[n].key) in s.shadow && SnapOf(rs[n].key) <= SnapOf(s.shadow[PaOf(rs[n].key)].key)
    {
      if n < |t.records| {
        OldFullKnown(x, t, blobs, h, sess, s, n);
      } else {
        NewFullKnown(x, t, blobs, h, sess, s, n - |t.records|);
      }
    }
  }

  lemma NewFullKnown(x: Context, t: Table, blobs: Blobs, h: History, sess: Session, s: Phase, i: nat)
    requires Saved(x, t, blobs, h, sess, s) && x.cfg.useShadow && i < |Records(s)| && Records(s)[i].kind == Full
    ensures var r := Records(s)[i]; PaOf(r.key) in s.shadow && SnapOf(r.key) <= SnapOf(s.shadow[PaOf(r.key)].key)
  {
    hide Inv, LogOk, Complete, KeyOf, SnapOf, PaOf, SessionOk, Records, Placed;
    NewRecords(x, t, blobs, h, sess, s);
    EntryAfter(x, t, blobs, h, sess, s, i);
  }

  lemma OldFullKnown(x: Context, t: Table, blobs: Blobs, h: History, sess: Session, s: Phase, n: nat)
    requires Saved(x, t, blobs, h, sess, s) && x.cfg.useShadow
    requires sess.logStart <= n < |t.records| && t.records[n].kind == Full
    ensures var r := t.records[n]; PaOf(r.key) in s.shadow && SnapOf(r.key) <= SnapOf(s.shadow[PaOf(r.key)].key)
  {
    hide JobOk, Tiles, Complete, EntryOk, Represents, LogSorted, KeyOf, Records, Grows, SnapOf, PaOf, Placed;
    var r := t.records[n];
    var pa := PaOf(r.key);
    assert pa in sess.shadow && SnapOf(r.key) <= SnapOf(sess.shadow[pa].key);
    if IsJob(x, pa) {
      NewRecords(x, t, blobs, h, sess, s);
      var i :| 0 <= i < |x.jobs| && x.jobs[i].pa == pa;
      EntryAfter(x, t, blobs, h, sess, s, i);
      AllBefore(t.records, sess.last, x.id);
      JobKey(x, i);
      assert r in t.records;
    } else {
      assert Find(s.shadow, pa) == Find(sess.shadow, pa);
    }
  }

  /* ---- the whole save ---- */

  /** Every finished save keeps the log good, and the log then represents the
      history with exactly this save added. */
  lemma SaveKeepsLog(x: Context, t: Table, blobs: Blobs, h: History, sess: Session, s: Phase)
    requires Saved(x, t, blobs, h, sess, s)
    ensures LogOk(x.codec, Table(x.id, t.records + Records(s)), s.blobs, h + [Save(x.id, PagesOf(x.jobs))])
  {
    hide Inv, Complete, Represents, LogSorted, SnapshotOrdered, NoOverlap, SessionOk, Records, PagesOf, SnapOf,
      HistoryOk;
    SaveKeepsOrder(x, t, blobs, h, sess, s);
    SaveRepresents(x, t, blobs, h, sess, s);
    SaveKeepsLayout(x, t, blobs, h, sess, s);
    HistoryGrows(x.codec, t, blobs, h, x.id, x.jobs);
  }

  /** ... and keeps the write handle good. */
  lemma SaveKeepsSession(x: Context, t: Table, blobs: Blobs, h: History, sess: Session, s: Phase, written: Written)
    requires Saved(x, t, blobs, h, sess, s) && WritesOn(sess.written, written, s.blobs)
    ensures SessionOk(x.codec, sess.(shadow := s.shadow, last := Some(x.id), written := written),
                      t.records + Records(s), s.blobs)
  {
    hide Inv, Complete, LogOk, ShadowOk, ShadowFresh, ShadowNewest, Records, SnapOf, LogSorted, WrittenOk;
    JobCount(x, Start(x, blobs, sess.shadow), s);
    SaveKeepsOrder(x, t, blobs, h, sess, s);
    SaveKeepsShadow(x, t, blobs, h, sess, s);
    SaveKeepsFresh(x, t, blobs, h, sess, s);
    if x.cfg.useShadow { SaveKeepsNewest(x, t, blobs, h, sess, s); }
  }

  lemma HistoryGrows(c: Codec, t: Table, blobs: Blobs, h: History, id: nat, jobs: seq<Job>)
    requires LogOk(c, t, blobs, h) && Before(t.records, id) && id < SNAPSHOTS && jobs != []
    ensures HistoryOk(h + [Save(id, PagesOf(jobs))])
  {
    var h' := h + [Save(id, PagesOf(jobs))];
    if h != [] {
      LastSaveStored(c, t, blobs, h);
    }
    assert jobs[|jobs| - 1].pa in PagesOf(jobs);
  }

  /** The last save of the history left a record, so its id is in the log. */
  lemma LastSaveStored(c: Codec, t: Table, blobs: Blobs, h: History)
    requires TableOk(c, t, blobs, h) && h != []
    ensures exists r :: r in t.records && SnapOf(r.key) == h[|h| - 1].id
  {
    var last := h[|h| - 1];
    var pa :| pa in last.pages;
    var k := KeyFor(pa, last.id);
    assert SnapOf(k) == last.id && PaOf(k) == pa;
    assert Version(h, k).Some?;
    assert First(t.records, k).Some?;
  }
}
