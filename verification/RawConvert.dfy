/** The raw converter: replaying a log into a memory image, emitting one file of
    touched pages per snapshot, and the backward search over the emitted chain. */
module RawConvert {
  import opened Words
  import opened Chunk
  import opened Patch
  import opened Index
  import opened Store
  import opened Convert
  import opened Reader

  /** Each emitted file: the pages it stores, by PA. */
  type Chain = map<nat, map<nat, Page>>

  datatype Raw = Raw(buf: seq<Page>, current: nat, lastPa: nat, dirty: set<nat>, chain: Chain)

  function StartRaw(pages: nat): Raw {
    Raw(seq(pages, _ => ZeroPage()), 0, 0, {}, map[])
  }

  /** `flush_snapshot`: snapshot 0 leaves out zero pages, later ones keep them. */
  function FileFor(snap: nat, buf: seq<Page>, dirty: set<nat>): map<nat, Page> {
    map pa | pa in dirty && pa < |buf| && !(snap == 0 && AllZero(buf[pa])) :: buf[pa]
  }

  function Flush(st: Raw): Chain {
    st.chain[st.current := FileFor(st.current, st.buf, st.dirty)]
  }

  /** The ordering checks and the flush at a snapshot boundary. */
  function Arrive(st: Raw, pa: nat, snap: nat): Result<Raw> {
    if snap < st.current then Err(OutOfOrder)
    else if snap != st.current then Ok(Raw(st.buf, snap, pa, {}, Flush(st)))
    else if pa < st.lastPa then Err(OutOfOrder)
    else Ok(st.(lastPa := pa))
  }

  /** One record of the log; the base of a Delta is looked up in the store's `rs`. */
  function RawStep(c: Codec, rs: seq<Record>, blobs: Blobs, st: Raw, rec: Record): Result<Raw> {
    var pa := PaOf(rec.key);
    match Arrive(st, pa, SnapOf(rec.key))
    case Err(e) => Err(e)
    case Ok(next) =>
      if pa >= |next.buf| then Err(AddressOutOfRange)
      else match Resolve(c, rs, blobs, rec)
        case Err(e) => Err(e)
        case Ok(page) => Ok(next.(dirty := next.dirty + {pa}, buf := next.buf[pa := page]))
  }

  function RawRun(c: Codec, rs: seq<Record>, blobs: Blobs, pages: nat, todo: seq<Record>): Result<Raw> {
    if todo == [] then Ok(StartRaw(pages))
    else match RawRun(c, rs, blobs, pages, todo[..|todo| - 1])
      case Err(e) => Err(e)
      case Ok(st) => RawStep(c, rs, blobs, st, todo[|todo| - 1])
  }

  /** A loader's search: this snapshot's file, then earlier ones; nothing means zeros. */
  function ChainLoad(chain: Chain, pa: nat, snap: nat): Page
    decreases snap
  {
    if snap in chain && pa in chain[snap] then chain[snap][pa]
    else if snap == 0 then ZeroPage()
    else ChainLoad(chain, pa, snap - 1)
  }

  /* ---- what the replay maintains ---- */

  /** The page a record stands for; a page never stored is zero. */
  ghost function Content(c: Codec, rs: seq<Record>, blobs: Blobs, r: Option<Record>): Page {
    match r
    case None => ZeroPage()
    case Some(x) => match Resolve(c, rs, blobs, x) case Ok(p) => p case Err(_) => ZeroPage()
  }

  /** What a chain file must hold for (snap, pa), among snapshots below `upto`. */
  ghost function Expected(c: Codec, rs: seq<Record>, blobs: Blobs, snap: nat, pa: nat, upto: nat): Option<Page> {
    var r := First(rs, KeyFor(pa, snap));
    if snap < upto && snap < SNAPSHOTS && r.Some? && !(snap == 0 && AllZero(Content(c, rs, blobs, r)))
    then Some(Content(c, rs, blobs, r)) else None
  }

  function FindPage(chain: Chain, snap: nat, pa: nat): Option<Page> {
    if snap in chain && pa in chain[snap] then Some(chain[snap][pa]) else None
  }

  ghost predicate ChainOk(c: Codec, rs: seq<Record>, blobs: Blobs, chain: Chain, upto: nat) {
    forall snap: nat, pa: nat :: FindPage(chain, snap, pa) == Expected(c, rs, blobs, snap, pa, upto)
  }

  /** All records fit the image and resolve. */
  ghost predicate Replayable(c: Codec, rs: seq<Record>, blobs: Blobs, pages: nat) {
    && LogSorted(rs) && KeysFit(rs)
    && (forall r :: r in rs ==> PaOf(r.key) < pages && Resolve(c, rs, blobs, r).Ok?)
  }

  ghost predicate RawOk(c: Codec, rs: seq<Record>, blobs: Blobs, pages: nat, k: nat, st: Raw)
    requires k <= |rs|
  {
    && |st.buf| == pages
    && (k == 0 ==> st.current == 0 && st.lastPa == 0)
    && (k > 0 ==> st.current == SnapOf(rs[k - 1].key) && st.lastPa == PaOf(rs[k - 1].key))
    && (forall pa: nat :: pa < pages ==> st.buf[pa] == Content(c, rs, blobs, FloorRec(rs[..k], pa, MAX_SNAPSHOT_ID)))
    && (forall pa: nat :: pa in st.dirty <==> First(rs[..k], KeyFor(pa, st.current)).Some?)
    && ChainOk(c, rs, blobs, st.chain, st.current)
  }

  /** In log order, the newest record of a page in a prefix is the last one seen. */
  lemma FloorOfPrefix(rs: seq<Record>, k: nat, pa: nat)
    requires LogSorted(rs) && k < |rs|
    ensures FloorRec(rs[..k + 1], pa, MAX_SNAPSHOT_ID) ==
      if PaOf(rs[k].key) == pa then Some(rs[k]) else FloorRec(rs[..k], pa, MAX_SNAPSHOT_ID)
  {
    hide FloorRec, SnapOf, PaOf;
    var r := rs[k];
    assert rs[..k + 1] == rs[..k] + [r];
    FloorAppend(rs[..k], r, pa, MAX_SNAPSHOT_ID);
    FloorIsGreatest(rs[..k], pa, MAX_SNAPSHOT_ID);
    match FloorRec(rs[..k], pa, MAX_SNAPSHOT_ID) {
      case None =>
      case Some(p) =>
        var i :| 0 <= i < k && rs[i] == p;
        assert LogBefore(rs[i].key, rs[k].key);
    }
  }

  lemma FirstOfPrefix(rs: seq<Record>, k: nat, key: nat)
    requires k < |rs|
    ensures First(rs[..k + 1], key).Some? <==> First(rs[..k], key).Some? || rs[k].key == key
  {
    hide First;
    assert rs[..k + 1] == rs[..k] + [rs[k]];
    FirstAppend(rs[..k], [rs[k]], key);
    SingleFirst(rs[k], key);
  }

  lemma SingleFirst(r: Record, key: nat)
    ensures First([r], key).Some? <==> r.key == key
  {
    assert [r][1..] == [];
  }

  /** Keys of an earlier snapshot, or beyond the prefix, split cleanly at a boundary. */
  lemma {:induction false} PrefixHolds(rs: seq<Record>, k: nat, snap: nat, pa: nat)
    requires LogSorted(rs) && k <= |rs| && snap < SNAPSHOTS
    requires k < |rs| ==> snap < SnapOf(rs[k].key)
    ensures First(rs, KeyFor(pa, snap)) == First(rs[..k], KeyFor(pa, snap))
  {
    hide First;
    var key := KeyFor(pa, snap);
    assert SnapOf(key) == snap;
    assert rs == rs[..k] + rs[k..];
    FirstAppend(rs[..k], rs[k..], key);
    forall x | x in rs[k..] ensures x.key != key {
      var i :| k <= i < |rs| && rs[i] == x;
      if i > k { assert LogBefore(rs[k].key, rs[i].key); }
    }
  }

  lemma NoneBetween(rs: seq<Record>, k: nat, snap: nat, pa: nat)
    requires LogSorted(rs) && k < |rs| && snap < SnapOf(rs[k].key)
    requires k > 0 ==> SnapOf(rs[k - 1].key) < snap
    ensures First(rs, KeyFor(pa, snap)) == None
  {
    hide First;
    PrefixHolds(rs, k, snap, pa);
    var key := KeyFor(pa, snap);
    assert SnapOf(key) == snap;
    forall x | x in rs[..k] ensures x.key != key {
      var i :| 0 <= i < k && rs[i] == x;
      if i < k - 1 { assert LogBefore(rs[i].key, rs[k - 1].key); }
    }
  }

  /** At the end of a snapshot, a dirty page's buffer holds that snapshot's record. */
  lemma DirtyIsCurrent(rs: seq<Record>, k: nat, snap: nat, pa: nat)
    requires LogSorted(rs) && 0 < k <= |rs| && snap == SnapOf(rs[k - 1].key) && First(rs[..k], KeyFor(pa, snap)).Some?
    ensures FloorRec(rs[..k], pa, MAX_SNAPSHOT_ID) == First(rs[..k], KeyFor(pa, snap))
  {
    hide First, FloorRec;
    var key := KeyFor(pa, snap);
    assert SnapOf(key) == snap && PaOf(key) == pa;
    var r := First(rs[..k], key).value;
    forall x | x in rs[..k] && Below(x, pa, MAX_SNAPSHOT_ID) ensures SnapOf(x.key) <= snap {
      var i :| 0 <= i < k && rs[i] == x;
      if i < k - 1 { assert LogBefore(rs[i].key, rs[k - 1].key); }
    }
    FloorUnique(rs[..k], pa, MAX_SNAPSHOT_ID, r);
  }

  /** Flushing at the end of the current snapshot makes the chain right up to the next one. */
  lemma FlushGood(c: Codec, rs: seq<Record>, blobs: Blobs, pages: nat, k: nat, st: Raw, next: nat)
    requires Replayable(c, rs, blobs, pages) && k <= |rs| && RawOk(c, rs, blobs, pages, k, st)
    requires st.current < next <= SNAPSHOTS && (k < |rs| ==> next == SnapOf(rs[k].key))
    ensures ChainOk(c, rs, blobs, Flush(st), if k < |rs| then next else SNAPSHOTS)
  {
    var upto := if k < |rs| then next else SNAPSHOTS;
    forall snap: nat, pa: nat
      ensures FindPage(Flush(st), snap, pa) == Expected(c, rs, blobs, snap, pa, upto)
    {
      if snap == st.current {
        FlushedFile(c, rs, blobs, pages, k, st, pa, next);
      } else {
        assert FindPage(Flush(st), snap, pa) == FindPage(st.chain, snap, pa);
        assert FindPage(st.chain, snap, pa) == Expected(c, rs, blobs, snap, pa, st.current);
        if st.current < snap < upto { GapIsEmpty(rs, k, st.current, snap, pa); }
      }
    }
  }

  lemma GapIsEmpty(rs: seq<Record>, k: nat, current: nat, snap: nat, pa: nat)
    requires LogSorted(rs) && k <= |rs| && current < snap < SNAPSHOTS && (k > 0 ==> current == SnapOf(rs[k - 1].key))
    requires k < |rs| ==> snap < SnapOf(rs[k].key)
    ensures First(rs, KeyFor(pa, snap)) == None
  {
    hide First;
    if k < |rs| {
      NoneBetween(rs, k, snap, pa);
    } else {
      var key := KeyFor(pa, snap);
      assert SnapOf(key) == snap;
      forall x | x in rs ensures x.key != key {
        var i :| 0 <= i < |rs| && rs[i] == x;
        if i < k - 1 { assert LogBefore(rs[i].key, rs[k - 1].key); }
      }
    }
  }

  lemma FlushedFile(c: Codec, rs: seq<Record>, blobs: Blobs, pages: nat, k: nat, st: Raw, pa: nat, next: nat)
    requires Replayable(c, rs, blobs, pages) && k <= |rs| && RawOk(c, rs, blobs, pages, k, st)
    requires st.current < next <= SNAPSHOTS && (k < |rs| ==> next == SnapOf(rs[k].key))
    ensures FindPage(Flush(st), st.current, pa) == Expected(c, rs, blobs, st.current, pa, next)
  {
    hide First, FloorRec, ChainOk, Resolve, AllZero, SnapOf, PaOf;
    PrefixHolds(rs, k, st.current, pa);
    var r := First(rs[..k], KeyFor(pa, st.current));
    if pa in st.dirty {
      NonEmptyPrefix(rs[..k], KeyFor(pa, st.current));
      DirtyIsCurrent(rs, k, st.current, pa);
      KeyPa(r.value, pa, st.current);
    }
  }

  lemma NonEmptyPrefix(rs: seq<Record>, key: nat)
    requires First(rs, key).Some?
    ensures |rs| > 0
  {
  }

  lemma KeyPa(r: Record, pa: nat, snap: nat)
    requires snap < SNAPSHOTS && r.key == KeyFor(pa, snap)
    ensures PaOf(r.key) == pa
  {
  }

  lemma StartOk(c: Codec, rs: seq<Record>, blobs: Blobs, pages: nat)
    ensures RawOk(c, rs, blobs, pages, 0, StartRaw(pages))
  {
    hide FloorRec;
    forall pa: nat | pa < pages ensures FloorRec(rs[..0], pa, MAX_SNAPSHOT_ID) == None {
      FloorNone(rs[..0], pa, MAX_SNAPSHOT_ID);
    }
  }

  /** The ordering checks pass, and flush exactly the finished snapshot. */
  lemma ArriveOk(c: Codec, rs: seq<Record>, blobs: Blobs, pages: nat, k: nat, st: Raw)
    requires Replayable(c, rs, blobs, pages) && k < |rs| && RawOk(c, rs, blobs, pages, k, st)
    ensures var pa, snap := PaOf(rs[k].key), SnapOf(rs[k].key);
      var a := Arrive(st, pa, snap);
      && a.Ok? && a.value.buf == st.buf && a.value.current == snap && a.value.lastPa == pa
      && a.value.dirty == (if snap == st.current then st.dirty else {})
      && ChainOk(c, rs, blobs, a.value.chain, snap)
  {
    hide ChainOk, FloorRec, First, Content;
    if k > 0 { assert LogBefore(rs[k - 1].key, rs[k].key); }
    if SnapOf(rs[k].key) != st.current {
      FlushGood(c, rs, blobs, pages, k, st, SnapOf(rs[k].key));
    }
  }

  lemma StepOk(c: Codec, rs: seq<Record>, blobs: Blobs, pages: nat, k: nat, st: Raw)
    requires Replayable(c, rs, blobs, pages) && k < |rs| && RawOk(c, rs, blobs, pages, k, st)
    ensures RawStep(c, rs, blobs, st, rs[k]).Ok?
    ensures RawOk(c, rs, blobs, pages, k + 1, RawStep(c, rs, blobs, st, rs[k]).value)
  {
    hide ChainOk, FloorRec, First, Resolve, SnapOf, PaOf, Arrive;
    ArriveOk(c, rs, blobs, pages, k, st);
    assert rs[k] in rs;
    var st' := RawStep(c, rs, blobs, st, rs[k]).value;
    forall pa: nat | pa < pages
      ensures st'.buf[pa] == Content(c, rs, blobs, FloorRec(rs[..k + 1], pa, MAX_SNAPSHOT_ID))
    {
      FloorOfPrefix(rs, k, pa);
    }
    forall pa: nat ensures pa in st'.dirty <==> First(rs[..k + 1], KeyFor(pa, st'.current)).Some? {
      FirstOfPrefix(rs, k, KeyFor(pa, st'.current));
      KeyIs(rs[k].key, pa);
      if SnapOf(rs[k].key) != st.current { FreshSnapshot(rs, k, st.current, pa); }
    }
  }

  lemma KeyIs(key: nat, pa: nat)
    ensures key == KeyFor(pa, SnapOf(key)) <==> PaOf(key) == pa
  {
  }

  /** A snapshot that just began has no record in the prefix. */
  lemma FreshSnapshot(rs: seq<Record>, k: nat, current: nat, pa: nat)
    requires LogSorted(rs) && k < |rs| && SnapOf(rs[k].key) != current
    requires k > 0 ==> current == SnapOf(rs[k - 1].key)
    ensures First(rs[..k], KeyFor(pa, SnapOf(rs[k].key))) == None
  {
    hide First;
    var key := KeyFor(pa, SnapOf(rs[k].key));
    assert SnapOf(key) == SnapOf(rs[k].key);
    forall x | x in rs[..k] ensures x.key != key {
      var i :| 0 <= i < k && rs[i] == x;
      if i < k - 1 { assert LogBefore(rs[i].key, rs[k - 1].key); }
      assert LogBefore(rs[k - 1].key, rs[k].key);
    }
  }

  lemma {:induction false} ReplayOk(c: Codec, rs: seq<Record>, blobs: Blobs, pages: nat, k: nat)
    requires Replayable(c, rs, blobs, pages) && k <= |rs|
    ensures RawRun(c, rs, blobs, pages, rs[..k]).Ok?
    ensures RawOk(c, rs, blobs, pages, k, RawRun(c, rs, blobs, pages, rs[..k]).value)
  {
    hide RawOk, RawStep, Replayable;
    if k == 0 {
      StartOk(c, rs, blobs, pages);
    } else {
      ReplayOk(c, rs, blobs, pages, k - 1);
      assert rs[..k][..k - 1] == rs[..k - 1] && rs[..k][k - 1] == rs[k - 1];
      StepOk(c, rs, blobs, pages, k - 1, RawRun(c, rs, blobs, pages, rs[..k - 1]).value);
    }
  }

  /** After the last record of a snapshot, the buffer is the floor load of every
      page at that snapshot, with missing pages zero. */
  lemma BufferIsFloor(c: Codec, rs: seq<Record>, blobs: Blobs, pages: nat, k: nat, pa: nat)
    requires Replayable(c, rs, blobs, pages) && 0 < k <= |rs| && pa < pages
    requires k < |rs| ==> SnapOf(rs[k - 1].key) < SnapOf(rs[k].key)
    ensures RawRun(c, rs, blobs, pages, rs[..k]).Ok?
    ensures pa < |RawRun(c, rs, blobs, pages, rs[..k]).value.buf|
    ensures RawRun(c, rs, blobs, pages, rs[..k]).value.buf[pa] ==
      Content(c, rs, blobs, FloorRec(rs, pa, SnapOf(rs[k - 1].key)))
  {
    hide RawRun, FloorRec, Resolve, ChainOk, First;
    ReplayOk(c, rs, blobs, pages, k);
    PrefixFloor(rs, k, pa);
  }

  lemma PrefixFloor(rs: seq<Record>, k: nat, pa: nat)
    requires LogSorted(rs) && KeysFit(rs) && 0 < k <= |rs|
    requires k < |rs| ==> SnapOf(rs[k - 1].key) < SnapOf(rs[k].key)
    ensures FloorRec(rs[..k], pa, MAX_SNAPSHOT_ID) == FloorRec(rs, pa, SnapOf(rs[k - 1].key))
  {
    hide FloorRec, First, SnapOf, PaOf;
    var snap := SnapOf(rs[k - 1].key);
    assert rs == rs[..k] + rs[k..];
    forall x | x in rs ensures x in rs[..k] <==> SnapOf(x.key) <= snap {
      InPrefixIff(rs, k, x);
    }
    FloorIsGreatest(rs[..k], pa, MAX_SNAPSHOT_ID);
    match FloorRec(rs[..k], pa, MAX_SNAPSHOT_ID) {
      case None => FloorNone(rs, pa, snap);
      case Some(r) =>
        FirstAppend(rs[..k], rs[k..], r.key);
        FloorUnique(rs, pa, snap, r);
    }
  }

  lemma InPrefixIff(rs: seq<Record>, k: nat, x: Record)
    requires LogSorted(rs) && 0 < k <= |rs| && x in rs
    requires k < |rs| ==> SnapOf(rs[k - 1].key) < SnapOf(rs[k].key)
    ensures x in rs[..k] <==> SnapOf(x.key) <= SnapOf(rs[k - 1].key)
  {
    hide SnapOf, PaOf;
    forall i | 0 <= i < |rs| ensures (SnapOf(rs[i].key) <= SnapOf(rs[k - 1].key)) == (i < k) {
      if i < k - 1 { assert LogBefore(rs[i].key, rs[k - 1].key); }
      if i > k { assert LogBefore(rs[k].key, rs[i].key); }
    }
    var i :| 0 <= i < |rs| && rs[i] == x;
  }

  /* ---- the emitted chain ---- */

  /** A chain that is right below `upto` gives the floor load there. */
  lemma {:induction false} ChainBelow(c: Codec, rs: seq<Record>, blobs: Blobs, chain: Chain, upto: nat, pa: nat,
                                      snap: nat)
    requires ChainOk(c, rs, blobs, chain, upto) && snap < upto && snap < SNAPSHOTS
    ensures ChainLoad(chain, pa, snap) == Content(c, rs, blobs, FloorRec(rs, pa, snap))
    decreases snap
  {
    hide First, Resolve;
    assert FindPage(chain, snap, pa) == Expected(c, rs, blobs, snap, pa, upto);
    var r := First(rs, KeyFor(pa, snap));
    if snap == 0 {
      if r.Some? && AllZero(Content(c, rs, blobs, r)) { AllZeroIsZeroPage(Content(c, rs, blobs, r)); }
    } else {
      ChainBelow(c, rs, blobs, chain, upto, pa, snap - 1);
    }
  }

  /** Replaying a log in log order never trips an ordering check, and a backward
      search over the finished chain finds, for every page and snapshot, the
      floor load, although snapshot 0 omits zero pages. */
  lemma {:induction false} ConversionIsFaithful(c: Codec, rs: seq<Record>, blobs: Blobs, pages: nat, pa: nat, snap: nat)
    requires Replayable(c, rs, blobs, pages) && snap < SNAPSHOTS
    ensures RawRun(c, rs, blobs, pages, rs).Ok?
    ensures ChainLoad(Flush(RawRun(c, rs, blobs, pages, rs).value), pa, snap) ==
      Content(c, rs, blobs, FloorRec(rs, pa, snap))
  {
    hide RawRun, ChainOk, FloorRec, Content, ChainLoad, Flush;
    ReplayOk(c, rs, blobs, pages, |rs|);
    assert rs[..|rs|] == rs;
    var st := RawRun(c, rs, blobs, pages, rs).value;
    FlushGood(c, rs, blobs, pages, |rs|, st, SNAPSHOTS);
    ChainBelow(c, rs, blobs, Flush(st), SNAPSHOTS, pa, snap);
  }

  /** On a log that represents a history, the chain gives every reader the newest
      saved page, and zeros where none was saved. */
  lemma {:induction false} ChainHoldsHistory(c: Codec, rs: seq<Record>, blobs: Blobs, h: History, pages: nat, pa: nat,
                                             snap: nat)
    requires Represents(c, rs, blobs, h) && Increasing(h) && LogSorted(rs) && KeysFit(rs) && snap < SNAPSHOTS
    requires forall r :: r in rs ==> PaOf(r.key) < pages
    ensures RawRun(c, rs, blobs, pages, rs).Ok?
    ensures ChainLoad(Flush(RawRun(c, rs, blobs, pages, rs).value), pa, snap) ==
      match Newest(h, pa, snap) case None => ZeroPage() case Some(p) => p
  {
    hide RawRun, FloorRec, ChainLoad, Flush, Newest, Resolve, Version, SnapOf, PaOf, Shape;
    AllResolve(c, rs, blobs, h);
    ConversionIsFaithful(c, rs, blobs, pages, pa, snap);
    LoadIsFloor(c, rs, blobs, h, pa, snap);
    FloorIsNewest(h, pa, snap);
  }

  lemma AllResolve(c: Codec, rs: seq<Record>, blobs: Blobs, h: History)
    requires Represents(c, rs, blobs, h) && LogSorted(rs) && KeysFit(rs)
    ensures forall r :: r in rs ==> Resolve(c, rs, blobs, r).Ok?
  {
    hide Resolve, Version, Shape, SnapOf, PaOf;
    LogSortedIsStrict(rs);
    forall r | r in rs ensures Resolve(c, rs, blobs, r).Ok? {
      var i :| 0 <= i < |rs| && rs[i] == r;
      FirstOfUnique(rs, i);
      assert StoredAs(c, rs, blobs, r, Version(h, r.key).value);
    }
  }

  /* ---- bases from the store, records from the log ---- */

  /** The replay only depends on how the log's records resolve. */
  lemma {:induction false} ReplaySame(c: Codec, a: seq<Record>, aBlobs: Blobs, b: seq<Record>, bBlobs: Blobs,
                                      pages: nat,
                                      todo: seq<Record>)
    requires forall r :: r in todo ==> Resolve(c, a, aBlobs, r) == Resolve(c, b, bBlobs, r)
    ensures RawRun(c, a, aBlobs, pages, todo) == RawRun(c, b, bBlobs, pages, todo)
  {
    hide Resolve, Arrive;
    if todo != [] { ReplaySame(c, a, aBlobs, b, bBlobs, pages, todo[..|todo| - 1]); }
  }

  /** The emitted files, the snapshot reached, whether the program stopped early with a
      warning, leaving out the snapshot it was at, and the snapshot raw-meta names. */
  datatype Emission = Emission(chain: Chain, current: nat, stopped: bool, meta: nat)

  function Ended(st: Raw): Emission { Emission(Flush(st), st.current, false, st.current) }

  function Broken(next: Raw): Emission {
    Emission(next.chain, next.current, true, if next.current == 0 then 0 else next.current - 1)
  }

  /** A record that does not resolve ends the conversion early; a record out of order
      or outside the image is a panic, here `Err`. */
  function Emitted(c: Codec, rs: seq<Record>, blobs: Blobs, pages: nat, todo: seq<Record>): Result<Emission>
    decreases |todo|
  {
    match RawRun(c, rs, blobs, pages, todo)
    case Ok(st) => Ok(Ended(st))
    case Err(_) =>
      if todo == [] then Err(OutOfOrder)
      else
        var front, rec := todo[..|todo| - 1], todo[|todo| - 1];
        match RawRun(c, rs, blobs, pages, front)
        case Err(_) => Emitted(c, rs, blobs, pages, front)
        case Ok(st) => StoppedAt(st, rec)
  }

  /** The outcome when `rec` is the first record that could not be replayed. */
  function StoppedAt(st: Raw, rec: Record): Result<Emission> {
    match Arrive(st, PaOf(rec.key), SnapOf(rec.key))
    case Err(e) => Err(e)
    case Ok(next) =>
      if PaOf(rec.key) >= |next.buf| then Err(AddressOutOfRange)
      else Ok(Broken(next))
  }

  ghost function SnapsIn(rs: seq<Record>): set<nat> { set r | r in rs :: SnapOf(r.key) }

  /** The ordering checks, between neighbours in any list. */
  ghost predicate InOrderAt(todo: seq<Record>, i: nat)
    requires 0 < i < |todo|
  {
    var a, b := todo[i - 1].key, todo[i].key;
    SnapOf(a) < SnapOf(b) || (SnapOf(a) == SnapOf(b) && PaOf(a) <= PaOf(b))
  }

  ghost predicate Processes(c: Codec, rs: seq<Record>, blobs: Blobs, pages: nat, todo: seq<Record>) {
    && (forall i :: 0 < i < |todo| ==> InOrderAt(todo, i))
    && (forall i :: 0 <= i < |todo| ==> PaOf(todo[i].key) < pages && Resolve(c, rs, blobs, todo[i]).Ok?)
  }

  /** After a replay of any records: the snapshot and PA of the last one, and a file for
      each snapshot before, 0 included. */
  ghost predicate TracksLast(pages: nat, todo: seq<Record>, st: Raw) {
    && |st.buf| == pages
    && st.current == (if todo == [] then 0 else SnapOf(todo[|todo| - 1].key))
    && st.lastPa == (if todo == [] then 0 else PaOf(todo[|todo| - 1].key))
    && st.chain.Keys + {st.current} == {0} + SnapsIn(todo)
    && forall snap :: snap in st.chain ==> snap < st.current
  }

  /** Any list of records, in whatever order: it is replayed to the end exactly when all
      neighbours are in order, all addresses lie in the image and all records resolve. */
  lemma {:induction false} ReplaysIff(c: Codec, rs: seq<Record>, blobs: Blobs, pages: nat, todo: seq<Record>)
    ensures RawRun(c, rs, blobs, pages, todo).Ok? <==> Processes(c, rs, blobs, pages, todo)
    ensures RawRun(c, rs, blobs, pages, todo).Ok? ==> TracksLast(pages, todo, RawRun(c, rs, blobs, pages, todo).value)
  {
    hide Resolve, SnapOf, PaOf, FileFor;
    if todo != [] {
      var n, front := |todo| - 1, todo[..|todo| - 1];
      ReplaysIff(c, rs, blobs, pages, front);
      assert todo == front + [todo[n]];
      OneMore(c, rs, blobs, pages, todo);
      if RawRun(c, rs, blobs, pages, front).Ok? {
        TrackStep(c, rs, blobs, pages, front, todo[n], RawRun(c, rs, blobs, pages, front).value);
      }
    }
  }

  lemma OneMore(c: Codec, rs: seq<Record>, blobs: Blobs, pages: nat, todo: seq<Record>)
    requires todo != []
    ensures var n := |todo| - 1;
      Processes(c, rs, blobs, pages, todo) <==>
        && Processes(c, rs, blobs, pages, todo[..n]) && (n > 0 ==> InOrderAt(todo, n))
        && PaOf(todo[n].key) < pages && Resolve(c, rs, blobs, todo[n]).Ok?
  {
    hide Resolve, SnapOf, PaOf;
    var n := |todo| - 1;
    assert forall i :: 0 < i < n ==> (InOrderAt(todo, i) <==> InOrderAt(todo[..n], i));
  }

  lemma TrackStep(c: Codec, rs: seq<Record>, blobs: Blobs, pages: nat, front: seq<Record>, r: Record, st: Raw)
    requires TracksLast(pages, front, st)
    ensures var next, n := RawStep(c, rs, blobs, st, r), |front|;
      && (next.Ok? <==>
            (n > 0 ==> InOrderAt(front + [r], n)) && PaOf(r.key) < pages && Resolve(c, rs, blobs, r).Ok?)
      && (next.Ok? ==> TracksLast(pages, front + [r], next.value))
  {
    hide Resolve, FileFor;
    var todo := front + [r];
    assert SnapsIn(todo) == SnapsIn(front) + {SnapOf(r.key)};
  }

  /** What is emitted for any records: a run to the end has a file for snapshot 0 and for
      each snapshot of a record; one that stops has none for the snapshot of the record
      it stopped at, nor for any later one. */
  lemma {:induction false} EmittedFiles(c: Codec, rs: seq<Record>, blobs: Blobs, pages: nat, todo: seq<Record>)
    requires Emitted(c, rs, blobs, pages, todo).Ok?
    ensures var e := Emitted(c, rs, blobs, pages, todo).value;
      && (!e.stopped <==> RawRun(c, rs, blobs, pages, todo).Ok?)
      && (!e.stopped ==>
            && e.chain.Keys == {0} + SnapsIn(todo) && e.meta == e.current
            && e.current == if todo == [] then 0 else SnapOf(todo[|todo| - 1].key))
      && (e.stopped ==>
            && (forall snap :: snap in e.chain ==> snap < e.current)
            && e.meta == if e.current == 0 then 0 else e.current - 1)
  {
    hide Resolve, SnapOf, PaOf, RawRun, FileFor;
    ReplaysIff(c, rs, blobs, pages, todo);
    if RawRun(c, rs, blobs, pages, todo).Err? && todo != [] {
      var front := todo[..|todo| - 1];
      if RawRun(c, rs, blobs, pages, front).Err? {
        EmittedFiles(c, rs, blobs, pages, front);
      } else {
        ReplaysIff(c, rs, blobs, pages, front);
      }
    }
  }

  /** Where a replay ends early, what follows in the log no longer matters. */
  lemma {:induction false} EmittedPrefix(c: Codec, rs: seq<Record>, blobs: Blobs, pages: nat, todo: seq<Record>, k: nat)
    requires k <= |todo| && RawRun(c, rs, blobs, pages, todo[..k]).Err?
    ensures RawRun(c, rs, blobs, pages, todo).Err?
    ensures Emitted(c, rs, blobs, pages, todo) == Emitted(c, rs, blobs, pages, todo[..k])
  {
    hide RawStep, StoppedAt;
    if k == |todo| {
      assert todo[..k] == todo;
    } else {
      var front := todo[..|todo| - 1];
      assert front[..k] == todo[..k];
      EmittedPrefix(c, rs, blobs, pages, front, k);
    }
  }

  /** What the program sees when it resolves the log's records: the records of the
      store it opened, and the blob files as they are. */
  datatype Sight = Sight(codec: Codec, look: seq<Record>, blobs: Blobs)

  function See(v: Sight, r: Record): Result<Page> { Resolve(v.codec, v.look, v.blobs, r) }

  /** What is seen fails or is what the log's records stand for, over all that was appended. */
  ghost predicate PartialView(v: Sight, rs: seq<Record>, blobs: Blobs) {
    forall r :: r in rs ==> See(v, r).Err? || See(v, r) == Resolve(v.codec, rs, blobs, r)
  }

  ghost predicate AllSeen(v: Sight, rs: seq<Record>) {
    forall r :: r in rs ==> See(v, r).Ok?
  }

  /** When the program may miss some records or blobs: it runs to the end exactly when
      every record resolves; it never panics, and below the snapshot at which it
      stopped the chain is right for every page. */
  lemma {:induction false} PartialReplay(v: Sight, rs: seq<Record>, blobs: Blobs, pages: nat)
    requires Replayable(v.codec, rs, blobs, pages) && PartialView(v, rs, blobs)
    ensures var e := Emitted(v.codec, v.look, v.blobs, pages, rs);
      && e.Ok? && (!e.value.stopped <==> AllSeen(v, rs))
      && ChainOk(v.codec, rs, blobs, e.value.chain, if !e.value.stopped then SNAPSHOTS else e.value.current)
      && (e.value.stopped ==> exists r :: r in rs && See(v, r).Err? && SnapOf(r.key) == e.value.current)
  {
    hide Resolve, ChainOk, RawRun, SnapOf, Emitted;
    if AllSeen(v, rs) {
      ReplayAll(v, rs, blobs, pages);
    } else {
      assert rs[..|rs|] == rs;
      var j := FirstUnseen(v, rs, |rs|);
      ReplayStops(v, rs, blobs, pages, j);
      assert rs[j] in rs;
    }
  }

  lemma {:induction false} ReplayAll(v: Sight, rs: seq<Record>, blobs: Blobs, pages: nat)
    requires Replayable(v.codec, rs, blobs, pages) && PartialView(v, rs, blobs) && AllSeen(v, rs)
    ensures var e := Emitted(v.codec, v.look, v.blobs, pages, rs);
      e.Ok? && !e.value.stopped && ChainOk(v.codec, rs, blobs, e.value.chain, SNAPSHOTS)
  {
    hide Resolve, ChainOk, RawRun, SnapOf, PaOf, FloorRec, First, Flush;
    ReplaySame(v.codec, v.look, v.blobs, rs, blobs, pages, rs);
    ReplayOk(v.codec, rs, blobs, pages, |rs|);
    assert rs[..|rs|] == rs;
    FlushGood(v.codec, rs, blobs, pages, |rs|, RawRun(v.codec, rs, blobs, pages, rs).value, SNAPSHOTS);
  }

  lemma {:induction false} FirstUnseen(v: Sight, rs: seq<Record>, k: nat) returns (j: nat)
    requires k <= |rs| && !AllSeen(v, rs[..k])
    ensures j < k && See(v, rs[j]).Err? && AllSeen(v, rs[..j])
  {
    hide See;
    assert k > 0;
    if AllSeen(v, rs[..k - 1]) {
      assert forall r :: r in rs[..k] ==> r in rs[..k - 1] || r == rs[k - 1];
      j := k - 1;
    } else {
      j := FirstUnseen(v, rs, k - 1);
    }
  }

  lemma ReplayStops(v: Sight, rs: seq<Record>, blobs: Blobs, pages: nat, j: nat)
    requires Replayable(v.codec, rs, blobs, pages) && PartialView(v, rs, blobs)
    requires j < |rs| && See(v, rs[j]).Err? && AllSeen(v, rs[..j])
    ensures var e := Emitted(v.codec, v.look, v.blobs, pages, rs);
      && e.Ok? && e.value.stopped && e.value.current == SnapOf(rs[j].key)
      && ChainOk(v.codec, rs, blobs, e.value.chain, SnapOf(rs[j].key))
  {
    hide Resolve, ChainOk, SnapOf, PaOf, FloorRec, First, Flush, Arrive, RawRun, Emitted, RawOk, Content;
    var c, front := v.codec, rs[..j];
    SeenAlike(v, rs, blobs, j);
    ReplaySame(c, v.look, v.blobs, rs, blobs, pages, front);
    ReplayOk(c, rs, blobs, pages, j);
    var st := RawRun(c, rs, blobs, pages, front).value;
    ArriveOk(c, rs, blobs, pages, j, st);
    ImageKept(c, rs, blobs, pages, j, st);
    EndsAt(v, rs, pages, j, st);
  }

  lemma SeenAlike(v: Sight, rs: seq<Record>, blobs: Blobs, j: nat)
    requires PartialView(v, rs, blobs) && j < |rs| && AllSeen(v, rs[..j])
    ensures forall r :: r in rs[..j] ==> Resolve(v.codec, v.look, v.blobs, r) == Resolve(v.codec, rs, blobs, r)
  {
    hide Resolve;
    forall r | r in rs[..j] ensures Resolve(v.codec, v.look, v.blobs, r) == Resolve(v.codec, rs, blobs, r) {
      assert r in rs && See(v, r).Ok?;
    }
  }

  lemma ImageKept(c: Codec, rs: seq<Record>, blobs: Blobs, pages: nat, j: nat, st: Raw)
    requires Replayable(c, rs, blobs, pages) && j < |rs| && RawOk(c, rs, blobs, pages, j, st)
    ensures PaOf(rs[j].key) < |st.buf|
  {
    hide Resolve, ChainOk, PaOf, SnapOf, FloorRec, First, Content;
    assert rs[j] in rs;
  }

  /** The run over a prefix is fine and its next record is not resolved: it ends there. */
  lemma EndsAt(v: Sight, rs: seq<Record>, pages: nat, j: nat, st: Raw)
    requires j < |rs| && RawRun(v.codec, v.look, v.blobs, pages, rs[..j]) == Ok(st) && See(v, rs[j]).Err?
    requires Arrive(st, PaOf(rs[j].key), SnapOf(rs[j].key)).Ok? && PaOf(rs[j].key) < |st.buf|
    requires Arrive(st, PaOf(rs[j].key), SnapOf(rs[j].key)).value.buf == st.buf
    ensures var next := Arrive(st, PaOf(rs[j].key), SnapOf(rs[j].key)).value;
      Emitted(v.codec, v.look, v.blobs, pages, rs) == Ok(Broken(next))
  {
    hide Resolve, SnapOf, PaOf, Flush, Arrive;
    var todo := rs[..j + 1];
    assert todo[..j] == rs[..j] && todo[j] == rs[j];
    assert Emitted(v.codec, v.look, v.blobs, pages, todo) == StoppedAt(st, rs[j]);
    EmittedPrefix(v.codec, v.look, v.blobs, pages, rs, j + 1);
  }

  /* ---- the streaming loop ---- */

  /** A bad record in the log ends the program there, unless it has ended before. */
  function EmittedFrom(c: Codec, rs: seq<Record>, blobs: Blobs, pages: nat, body: seq<byte>): Result<Emission> {
    var e := Emitted(c, rs, blobs, pages, Readable(body));
    if e.Ok? && !e.value.stopped && ReadEnd(body).Some? then Err(ReadEnd(body).value) else e
  }

  /** The header check looks at the magic alone. */
  method ConvertToRaw(store: PageStore, log: seq<byte>, pages: nat) returns (r: Result<Emission>)
    requires store.Valid()
    modifies store`lazyIndex
    ensures store.Valid()
    ensures r ==
      if |log| < HEADER_SIZE then Err(UnexpectedEof)
      else if log[0..8] != MAGIC_LOG then Err(BadMagic)
      else EmittedFrom(store.codec, store.records, store.blobs, pages, log[HEADER_SIZE..])
  {
    hide SnapOf, PaOf, Resolve, AfterResolve, Arrive, Flush, First, ReadRecord, Leaves, Holds, ReadLogFile, RawRun,
      Emitted;
    if |log| < HEADER_SIZE { return Err(UnexpectedEof); }
    if log[0..8] != MAGIC_LOG { return Err(BadMagic); }
    var rest := log[HEADER_SIZE..];
    var st := StartRaw(pages);
    ghost var read: seq<Record> := [];
    assert [] + Readable(rest) == Readable(rest);
    RunStart(store.codec, store.records, store.blobs, pages);
    while true
      invariant Readable(log[HEADER_SIZE..]) == read + Readable(rest) && ReadEnd(log[HEADER_SIZE..]) == ReadEnd(rest)
      invariant store.Valid()
      invariant RawRun(store.codec, store.records, store.blobs, pages, read) == Ok(st)
      decreases |rest|
    {
      match ReadRecord(rest) {
        case Eof =>
          assert read + [] == read;
          RunEnd(store.codec, store.records, store.blobs, pages, read, st);
          break;
        case Bad(e) =>
          assert read + [] == read;
          RunEnd(store.codec, store.records, store.blobs, pages, read, st);
          return Err(e);
        case Got(rec, tail) =>
          assert read + ([rec] + Readable(tail)) == read + [rec] + Readable(tail);
          RunNext(store.codec, store.records, store.blobs, pages, read, st, rec, Readable(tail));
          var pa := PaOf(rec.key);
          var next := Arrive(st, pa, SnapOf(rec.key));
          if next.Err? { return Err(next.error); }
          if pa >= |next.value.buf| { return Err(AddressOutOfRange); }
          var cell := new byte[PAGE_SIZE](_ => 0);
          var e := store.ResolveUncached(rec, cell);
          if e.Some? {
            var current := next.value.current;
            return Ok(Emission(next.value.chain, current, true, if current == 0 then 0 else current - 1));
          }
          st := next.value.(dirty := next.value.dirty + {pa}, buf := next.value.buf[pa := cell[..]]);
          rest := tail;
          read := read + [rec];
      }
    }
    return Ok(Emission(Flush(st), st.current, false, st.current));
  }

  lemma RunStart(c: Codec, rs: seq<Record>, blobs: Blobs, pages: nat)
    ensures RawRun(c, rs, blobs, pages, []) == Ok(StartRaw(pages))
  {
  }

  lemma RunEnd(c: Codec, rs: seq<Record>, blobs: Blobs, pages: nat, read: seq<Record>, st: Raw)
    requires RawRun(c, rs, blobs, pages, read) == Ok(st)
    ensures Emitted(c, rs, blobs, pages, read) == Ok(Ended(st))
  {
    hide RawRun;
  }

  /** One record further, or the end there. */
  lemma RunNext(c: Codec, rs: seq<Record>, blobs: Blobs, pages: nat, read: seq<Record>, st: Raw, rec: Record,
                rest: seq<Record>)
    requires RawRun(c, rs, blobs, pages, read) == Ok(st)
    ensures RawRun(c, rs, blobs, pages, read + [rec]) == RawStep(c, rs, blobs, st, rec)
    ensures RawStep(c, rs, blobs, st, rec).Err? ==>
      Emitted(c, rs, blobs, pages, read + [rec] + rest) == StoppedAt(st, rec)
  {
    hide RawStep, StoppedAt;
    assert (read + [rec])[..|read|] == read;
    PrefixFails(c, rs, blobs, pages, read + [rec], rest);
  }

  lemma {:induction false} PrefixFails(c: Codec, rs: seq<Record>, blobs: Blobs, pages: nat, read: seq<Record>,
                                       rest: seq<Record>)
    ensures RawRun(c, rs, blobs, pages, read).Err? ==>
      Emitted(c, rs, blobs, pages, read + rest) == Emitted(c, rs, blobs, pages, read)
  {
    hide RawRun, Emitted;
    if RawRun(c, rs, blobs, pages, read).Err? {
      assert (read + rest)[..|read|] == read;
      EmittedPrefix(c, rs, blobs, pages, read + rest, |read|);
    }
  }
}
