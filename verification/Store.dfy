/** Chunk resolution over the blob files, and what it means for a record list
    and its blobs to represent a history of saves. */
module Store {
  import opened Words
  import opened Chunk
  import opened Patch
  import opened Index

  type Blobs = map<byte, seq<byte>>

  /** The page compressor, a parameter of the whole model. */
  datatype Codec = Codec(compress: Page -> seq<byte>, decompress: seq<byte> -> Option<seq<byte>>)

  ghost predicate CodecOk(c: Codec) {
    forall p: Page :: 0 < |c.compress(p)| < U32 && c.decompress(c.compress(p)) == Some(p)
  }

  /* ---- resolution (btree.rs) ---- */

  function ReadBlob(blobs: Blobs, r: Record): (b: Result<seq<byte>>)
    ensures b.Ok? ==> |b.value| == r.len
  {
    if r.workerId !in blobs then Err(BlobFileMissing)
    else if r.offset + r.len > |blobs[r.workerId]| then Err(BlobOutOfRange)
    else Ok(blobs[r.workerId][r.offset..r.offset + r.len])
  }

  predicate OwnsRange(r: Record, w: byte) { r.kind != Zero && r.workerId == w }

  ghost predicate CoversByte(r: Record, w: byte, o: nat) {
    OwnsRange(r, w) && r.offset <= o < r.offset + r.len
  }

  function Decompress(c: Codec, blobs: Blobs, r: Record): Result<Page> {
    match ReadBlob(blobs, r)
    case Err(e) => Err(e)
    case Ok(b) =>
      match c.decompress(b)
      case None => Err(DecompressFailed)
      case Some(p) => if |p| == PAGE_SIZE then Ok(p) else Err(DecompressedSize)
  }

  /** The Full record a Delta is applied over. */
  function BasePage(c: Codec, rs: seq<Record>, blobs: Blobs, key: nat): Result<Page> {
    match First(rs, key)
    case None => Err(BaseMissing)
    case Some(b) => if b.kind != Full then Err(BaseNotFull) else Decompress(c, blobs, b)
  }

  function PatchOver(blobs: Blobs, r: Record, base: Result<Page>): Result<Page> {
    match base
    case Err(e) => Err(e)
    case Ok(p) =>
      match ReadBlob(blobs, r)
      case Err(e) => Err(e)
      case Ok(b) => ApplyPatch(b, p)
  }

  /** `resolve_uncached`: any chunk kind to a page. */
  function Resolve(c: Codec, rs: seq<Record>, blobs: Blobs, r: Record): Result<Page> {
    match r.kind
    case Zero => Ok(ZeroPage())
    case Full => Decompress(c, blobs, r)
    case Delta => PatchOver(blobs, r, BasePage(c, rs, blobs, r.baseKey))
  }

  /** The record's bytes, where its offset and length say. */
  ghost predicate StoredBytes(blobs: Blobs, r: Record, b: seq<byte>) {
    && r.workerId in blobs && r.offset + r.len <= |blobs[r.workerId]| && |b| == r.len
    && forall i :: 0 <= i < r.len ==> b[i] == blobs[r.workerId][r.offset + i]
  }

  lemma BlobOutcome(blobs: Blobs, r: Record, b: seq<byte>)
    ensures ReadBlob(blobs, r) == Ok(b) <==> StoredBytes(blobs, r, b)
    ensures ReadBlob(blobs, r) == Err(BlobFileMissing) <==> r.workerId !in blobs
    ensures ReadBlob(blobs, r) == Err(BlobOutOfRange) <==>
      r.workerId in blobs && r.offset + r.len > |blobs[r.workerId]|
  {
    if StoredBytes(blobs, r, b) { assert b == blobs[r.workerId][r.offset..r.offset + r.len]; }
  }

  ghost predicate Unpacks(c: Codec, blobs: Blobs, r: Record, p: Page) {
    exists b :: StoredBytes(blobs, r, b) && c.decompress(b) == Some(p)
  }

  lemma UnpacksIff(c: Codec, blobs: Blobs, r: Record, p: Page)
    ensures Decompress(c, blobs, r) == Ok(p) <==> Unpacks(c, blobs, r, p)
  {
    hide StoredBytes, ReadBlob;
    if ReadBlob(blobs, r).Ok? { BlobOutcome(blobs, r, ReadBlob(blobs, r).value); }
    if Unpacks(c, blobs, r, p) {
      var b :| StoredBytes(blobs, r, b) && c.decompress(b) == Some(p);
      BlobOutcome(blobs, r, b);
    }
  }

  /** `p` is `base` with each word changed by the entries of the blob that name it. */
  ghost predicate PatchedBy(b: seq<byte>, base: Page, p: Page) {
    && |b| % 10 == 0 && IndicesOk(b)
    && forall w: nat :: w < PAGE_WORDS ==> WordAt(p, w) == WordAfter(b, |b| / 10, w, WordAt(base, w))
  }

  lemma PatchedIff(b: seq<byte>, base: Page, p: Page)
    ensures ApplyPatch(b, base) == Ok(p) <==> PatchedBy(b, base, p)
  {
    hide ApplyXor, IndicesOk, WordAt, WordAfter;
    var q := ApplyXor(b, base).0;
    forall w: nat | w < PAGE_WORDS
      ensures ApplyXor(b, base).1 <==> IndicesOk(b)
      ensures IndicesOk(b) ==> WordAt(q, w) == WordAfter(b, |b| / 10, w, WordAt(base, w))
    {
      AppliedWords(b, base, w);
    }
    AppliedWords(b, base, 0);
    if PatchedBy(b, base, p) { WordsDetermine(p, q); }
  }

  ghost predicate Rebuilds(c: Codec, rs: seq<Record>, blobs: Blobs, r: Record, p: Page) {
    exists base: Page, b ::
      && First(rs, r.baseKey).Some? && First(rs, r.baseKey).value.kind == Full
      && Unpacks(c, blobs, First(rs, r.baseKey).value, base)
      && StoredBytes(blobs, r, b) && PatchedBy(b, base, p)
  }

  /** What a record of each kind stands for, for any records and blob files: zeros; what
      its bytes decompress to; or its base's page, the base being the first record under
      the base key and a Full one, changed word by word as its bytes say. */
  lemma ResolvesIff(c: Codec, rs: seq<Record>, blobs: Blobs, r: Record, p: Page)
    ensures Resolve(c, rs, blobs, r) == Ok(p) <==>
      match r.kind
      case Zero => forall i :: 0 <= i < 4096 ==> p[i] == 0
      case Full => Unpacks(c, blobs, r, p)
      case Delta => Rebuilds(c, rs, blobs, r, p)
    ensures Resolve(c, rs, blobs, r) == Err(BaseMissing) <==>
      r.kind == Delta && forall x :: x in rs ==> x.key != r.baseKey
    ensures Resolve(c, rs, blobs, r) == Err(BaseNotFull) <==>
      r.kind == Delta && First(rs, r.baseKey).Some? && First(rs, r.baseKey).value.kind != Full
  {
    hide First, Decompress, ApplyPatch, Unpacks, StoredBytes, PatchedBy, ReadBlob;
    match r.kind {
      case Zero => if AllZero(p) { AllZeroIsZeroPage(p); }
      case Full =>
        UnpacksIff(c, blobs, r, p);
        NoBaseError(c, blobs, r);
      case Delta => DeltaRebuilds(c, rs, blobs, r, p);
    }
  }

  lemma NoBaseError(c: Codec, blobs: Blobs, r: Record)
    ensures Decompress(c, blobs, r) != Err(BaseMissing) && Decompress(c, blobs, r) != Err(BaseNotFull)
  {
  }

  lemma DeltaRebuilds(c: Codec, rs: seq<Record>, blobs: Blobs, r: Record, p: Page)
    requires r.kind == Delta
    ensures Resolve(c, rs, blobs, r) == Ok(p) <==> Rebuilds(c, rs, blobs, r, p)
    ensures Resolve(c, rs, blobs, r) == Err(BaseMissing) <==> First(rs, r.baseKey).None?
    ensures Resolve(c, rs, blobs, r) == Err(BaseNotFull) <==>
      First(rs, r.baseKey).Some? && First(rs, r.baseKey).value.kind != Full
  {
    hide First, Decompress, ApplyXor, Unpacks, StoredBytes, PatchedBy;
    if First(rs, r.baseKey).Some? {
      var x := First(rs, r.baseKey).value;
      NoBaseError(c, blobs, x);
      if Resolve(c, rs, blobs, r) == Ok(p) {
        var base, b := Decompress(c, blobs, x).value, ReadBlob(blobs, r).value;
        UnpacksIff(c, blobs, x, base);
        BlobOutcome(blobs, r, b);
        PatchedIff(b, base, p);
      }
      if Rebuilds(c, rs, blobs, r, p) {
        var base: Page, b :| Unpacks(c, blobs, x, base) && StoredBytes(blobs, r, b) && PatchedBy(b, base, p);
        UnpacksIff(c, blobs, x, base);
        BlobOutcome(blobs, r, b);
        PatchedIff(b, base, p);
      }
    }
  }

  /** `load_page` over a record list. */
  function Load(c: Codec, rs: seq<Record>, blobs: Blobs, pa: nat, snap: nat): Result<Option<Page>> {
    if snap > MAX_SNAPSHOT_ID then Err(SnapshotTooLarge)
    else match FloorRec(rs, pa, snap)
      case None => Ok(None)
      case Some(r) =>
        match Resolve(c, rs, blobs, r)
        case Err(e) => Err(e)
        case Ok(p) => Ok(Some(p))
  }

  /* ---- what a failed load leaves in the caller's buffer ---- */

  /** `None` once the decompressor has failed: it may have written anything. */
  type Buffer = Option<seq<byte>>

  function AfterDecompress(c: Codec, blobs: Blobs, r: Record, before: seq<byte>): Buffer {
    match Decompress(c, blobs, r)
    case Ok(p) => Some(p)
    case Err(_) => if ReadBlob(blobs, r).Ok? then None else Some(before)
  }

  function AfterBase(c: Codec, rs: seq<Record>, blobs: Blobs, key: nat, before: seq<byte>): Buffer {
    match First(rs, key)
    case None => Some(before)
    case Some(b) => if b.kind != Full then Some(before) else AfterDecompress(c, blobs, b, before)
  }

  /** The words before a bad index stay patched. */
  function AfterPatch(blobs: Blobs, r: Record, base: Page): Page {
    match ReadBlob(blobs, r)
    case Err(_) => base
    case Ok(b) => if |b| % 10 != 0 then base else ApplyXor(b, base).0
  }

  function AfterResolve(c: Codec, rs: seq<Record>, blobs: Blobs, r: Record, before: seq<byte>): Buffer {
    match r.kind
    case Zero => Some(ZeroPage())
    case Full => AfterDecompress(c, blobs, r, before)
    case Delta =>
      match BasePage(c, rs, blobs, r.baseKey)
      case Err(_) => AfterBase(c, rs, blobs, r.baseKey, before)
      case Ok(base) => Some(AfterPatch(blobs, r, base))
  }

  function AfterLoad(c: Codec, rs: seq<Record>, blobs: Blobs, pa: nat, snap: nat, before: seq<byte>): Buffer {
    if snap > MAX_SNAPSHOT_ID || FloorRec(rs, pa, snap).None? then Some(before)
    else AfterResolve(c, rs, blobs, FloorRec(rs, pa, snap).value, before)
  }

  /** The buffer is as predicted, where anything is predicted. */
  ghost predicate Leaves(now: seq<byte>, after: Buffer) {
    after.Some? ==> now == after.value
  }

  /** A load that succeeds leaves its page, or the buffer alone when there is none. */
  lemma LoadLeaves(c: Codec, rs: seq<Record>, blobs: Blobs, pa: nat, snap: nat, before: seq<byte>)
    ensures match Load(c, rs, blobs, pa, snap)
      case Ok(Some(p)) => AfterLoad(c, rs, blobs, pa, snap, before) == Some(p)
      case Ok(None) => AfterLoad(c, rs, blobs, pa, snap, before) == Some(before)
      case Err(_) => true
  {
    hide FloorRec, Decompress, ApplyXor, First;
  }

  /* ---- histories of saves ---- */

  /** One successful save: its snapshot id and the dirty pages it was given. */
  datatype Save = Save(id: nat, pages: map<nat, Page>)

  type History = seq<Save>

  ghost predicate Increasing(h: History) {
    && (forall i :: 0 <= i < |h| ==> h[i].id < SNAPSHOTS)
    && (forall i, j :: 0 <= i < j < |h| ==> h[i].id < h[j].id)
  }

  /** What a reader is promised: the page given to the newest save with id at
      most `snap` that had `pa` dirty. */
  function Newest(h: History, pa: nat, snap: nat): Option<Page> {
    if h == [] then None
    else
      var last := h[|h| - 1];
      if last.id <= snap && pa in last.pages then Some(last.pages[pa])
      else Newest(h[..|h| - 1], pa, snap)
  }

  /** The page saved for exactly the (PA, snapshot) of a key. */
  function Version(h: History, key: nat): Option<Page> {
    if h == [] then None
    else
      var last := h[|h| - 1];
      if last.id == SnapOf(key) && PaOf(key) in last.pages then Some(last.pages[PaOf(key)])
      else Version(h[..|h| - 1], key)
  }

  function FloorVersion(h: History, pa: nat, snap: nat): Option<Page>
    decreases snap
  {
    match Version(h, KeyFor(pa, snap))
    case Some(p) => Some(p)
    case None => if snap == 0 then None else FloorVersion(h, pa, snap - 1)
  }

  lemma {:induction false} VersionBelow(h: History, key: nat)
    requires Increasing(h)
    ensures Version(h, key).Some? ==> h != [] && SnapOf(key) <= h[|h| - 1].id
  {
    if h != [] { VersionBelow(h[..|h| - 1], key); }
  }

  lemma {:induction false} FloorVersionStep(h: History, pa: nat, snap: nat)
    requires h != [] && Increasing(h) && snap < SNAPSHOTS
    ensures FloorVersion(h, pa, snap) ==
      var last := h[|h| - 1];
      if last.id <= snap && pa in last.pages then Some(last.pages[pa])
      else FloorVersion(h[..|h| - 1], pa, snap)
    decreases snap
  {
    var key := KeyFor(pa, snap);
    assert SnapOf(key) == snap && PaOf(key) == pa;
    VersionBelow(h[..|h| - 1], key);
    if snap > 0 { FloorVersionStep(h, pa, snap - 1); }
  }

  /** Searching snapshots downwards and searching saves backwards agree. */
  lemma {:induction false} FloorIsNewest(h: History, pa: nat, snap: nat)
    requires Increasing(h) && snap < SNAPSHOTS
    ensures FloorVersion(h, pa, snap) == Newest(h, pa, snap)
  {
    if h == [] {
      EmptyHistory(pa, snap);
    } else {
      FloorVersionStep(h, pa, snap);
      FloorIsNewest(h[..|h| - 1], pa, snap);
    }
  }

  lemma {:induction false} EmptyHistory(pa: nat, snap: nat)
    ensures FloorVersion([], pa, snap) == None
  {
    if snap > 0 { EmptyHistory(pa, snap - 1); }
  }

  /* ---- representation ---- */

  /** The form every stored record has. A Delta names an earlier Full record of
      the same page, in the same worker file, so one hop always suffices. */
  ghost predicate Shape(rs: seq<Record>, r: Record) {
    && r.key < U64 && r.len < U32
    && (r.kind == Zero ==> r == NewZero(r.key))
    && (r.kind != Delta ==> r.baseKey == 0)
    && (r.kind == Delta ==> GoodBase(First(rs, r.baseKey), r))
  }

  ghost predicate GoodBase(base: Option<Record>, r: Record) {
    && base.Some?
    && base.value.kind == Full
    && PaOf(base.value.key) == PaOf(r.key)
    && SnapOf(base.value.key) < SnapOf(r.key)
    && base.value.workerId == r.workerId
  }

  ghost predicate StoredAs(c: Codec, rs: seq<Record>, blobs: Blobs, r: Record, page: Page) {
    Shape(rs, r) && Resolve(c, rs, blobs, r) == Ok(page)
  }

  /** The records and blobs hold exactly the versions of the history. */
  ghost predicate Represents(c: Codec, rs: seq<Record>, blobs: Blobs, h: History) {
    forall k: nat :: match First(rs, k)
      case None => Version(h, k) == None
      case Some(r) => Version(h, k).Some? && StoredAs(c, rs, blobs, r, Version(h, k).value)
  }

  /** Loading returns exactly what the history promises, and never fails. */
  lemma {:induction false} LoadIsFloor(c: Codec, rs: seq<Record>, blobs: Blobs, h: History, pa: nat, snap: nat)
    requires Represents(c, rs, blobs, h)
    ensures match FloorRec(rs, pa, snap)
      case None => FloorVersion(h, pa, snap) == None
      case Some(r) => FloorVersion(h, pa, snap).Some? && Resolve(c, rs, blobs, r) == Ok(FloorVersion(h, pa, snap).value)
    decreases snap
  {
    assert First(rs, KeyFor(pa, snap)).Some? <==> Version(h, KeyFor(pa, snap)).Some?;
    if snap > 0 { LoadIsFloor(c, rs, blobs, h, pa, snap - 1); }
  }

  lemma LoadIsNewest(c: Codec, rs: seq<Record>, blobs: Blobs, h: History, pa: nat, snap: nat)
    requires Represents(c, rs, blobs, h) && Increasing(h)
    ensures Load(c, rs, blobs, pa, snap) ==
      if snap > MAX_SNAPSHOT_ID then Err(SnapshotTooLarge) else Ok(Newest(h, pa, snap))
  {
    if snap <= MAX_SNAPSHOT_ID {
      LoadIsFloor(c, rs, blobs, h, pa, snap);
      FloorIsNewest(h, pa, snap);
    }
  }

  /* ---- changes that keep the representation ---- */

  ghost predicate SameBlob(a: Blobs, b: Blobs, r: Record) {
    ReadBlob(a, r) == ReadBlob(b, r)
  }

  /** A record resolves alike wherever it, and the base it names, are found alike. */
  lemma ResolveFrame(c: Codec, rs: seq<Record>, a: Blobs, rs': seq<Record>, b: Blobs, r: Record)
    requires Shape(rs, r) && Resolve(c, rs, a, r).Ok?
    requires r.kind != Zero ==> SameBlob(a, b, r)
    requires r.kind == Delta ==> First(rs, r.baseKey) == First(rs', r.baseKey)
    requires r.kind == Delta ==> SameBlob(a, b, First(rs, r.baseKey).value)
    ensures Shape(rs', r) && Resolve(c, rs', b, r) == Resolve(c, rs, a, r)
  {
    hide ReadBlob;
  }

  lemma RepresentsSame(c: Codec, rs: seq<Record>, blobs: Blobs, h: History, rs': seq<Record>)
    requires Represents(c, rs, blobs, h) && SameLookup(rs, rs')
    ensures Represents(c, rs', blobs, h)
  {
    hide Version, Shape, Resolve, First;
    forall k: nat
      ensures match First(rs', k)
        case None => Version(h, k) == None
        case Some(r) => Version(h, k).Some? && StoredAs(c, rs', blobs, r, Version(h, k).value)
    {
      assert First(rs, k) == First(rs', k);
      if First(rs, k).Some? {
        var r := First(rs, k).value;
        assert StoredAs(c, rs, blobs, r, Version(h, k).value);
        assert First(rs, r.baseKey) == First(rs', r.baseKey);
        ResolveFrame(c, rs, blobs, rs', blobs, r);
      }
    }
  }

  /** Blob files only grow: every old file is a prefix of the new one. */
  ghost predicate Grows(a: Blobs, b: Blobs) {
    forall w :: w in a ==> w in b && a[w] <= b[w]
  }

  lemma GrowsKeeps(a: Blobs, b: Blobs, r: Record)
    requires Grows(a, b) && ReadBlob(a, r).Ok?
    ensures SameBlob(a, b, r)
  {
    var small, big := a[r.workerId], b[r.workerId];
    assert small == big[..|small|];
    assert big[r.offset..r.offset + r.len] == small[r.offset..r.offset + r.len];
  }

  lemma ResolvedBlobs(c: Codec, rs: seq<Record>, blobs: Blobs, r: Record)
    requires Shape(rs, r) && Resolve(c, rs, blobs, r).Ok?
    ensures r.kind != Zero ==> ReadBlob(blobs, r).Ok?
    ensures r.kind == Delta ==> ReadBlob(blobs, First(rs, r.baseKey).value).Ok?
  {
  }

  lemma ResolveGrow(c: Codec, rs: seq<Record>, a: Blobs, b: Blobs, rs': seq<Record>, r: Record)
    requires Shape(rs, r) && Resolve(c, rs, a, r).Ok? && Grows(a, b)
    requires r.kind == Delta ==> First(rs, r.baseKey) == First(rs', r.baseKey)
    ensures Shape(rs', r) && Resolve(c, rs', b, r) == Resolve(c, rs, a, r)
  {
    hide Resolve;
    ResolvedBlobs(c, rs, a, r);
    if r.kind != Zero { GrowsKeeps(a, b, r); }
    if r.kind == Delta { GrowsKeeps(a, b, First(rs, r.baseKey).value); }
    ResolveFrame(c, rs, a, rs', b, r);
  }

  lemma RepresentsGrow(c: Codec, rs: seq<Record>, a: Blobs, b: Blobs, h: History)
    requires Represents(c, rs, a, h) && Grows(a, b)
    ensures Represents(c, rs, b, h)
  {
    hide Version, Shape, Resolve, First, Grows;
    forall k: nat | First(rs, k).Some?
      ensures StoredAs(c, rs, b, First(rs, k).value, Version(h, k).value)
    {
      assert StoredAs(c, rs, a, First(rs, k).value, Version(h, k).value);
      ResolveGrow(c, rs, a, b, rs, First(rs, k).value);
    }
  }
}
