/** File formats and the floor query: the reference definition, the sorted
    index, the linear scan and the byte-level binary search. */
module Index {
  import opened Words
  import opened Chunk

  const HEADER_SIZE := 16
  const FORMAT_VERSION: byte := 1
  const MAGIC_LOG: seq<byte> := [0x42, 0x58, 0x44, 0x42, 0x4C, 0x4F, 0x47, 0]
  const MAGIC_IDX: seq<byte> := [0x42, 0x58, 0x44, 0x42, 0x49, 0x44, 0x58, 0]

  /* ---- file headers (format.rs) ---- */

  function Header(magic: seq<byte>, maxSnap: nat): (s: seq<byte>)
    requires |magic| == 8
    ensures |s| == HEADER_SIZE
  {
    magic + [FORMAT_VERSION] + LE(maxSnap, 4) + [0, 0, 0]
  }

  function ReadHeader(s: seq<byte>, magic: seq<byte>): (r: Result<nat>)
    ensures r.Ok? ==> |s| >= HEADER_SIZE
  {
    if |s| < HEADER_SIZE then Err(UnexpectedEof)
    else if s[0..8] != magic then Err(BadMagic)
    else if s[8] != FORMAT_VERSION then Err(BadVersion)
    else Ok(FromLE(s[9..13]))
  }

  lemma HeaderRoundTrip(magic: seq<byte>, maxSnap: nat, rest: seq<byte>)
    requires |magic| == 8 && maxSnap < U32
    ensures ReadHeader(Header(magic, maxSnap) + rest, magic) == Ok(maxSnap)
    ensures (Header(magic, maxSnap) + rest)[HEADER_SIZE..] == rest
  {
    var s := Header(magic, maxSnap) + rest;
    assert s[0..8] == magic && s[9..13] == LE(maxSnap, 4);
    FieldRoundTrip(maxSnap);
  }

  function LogFile(maxSnap: nat, rs: seq<Record>): seq<byte> {
    Header(MAGIC_LOG, maxSnap) + LogBody(rs)
  }

  /** Header and records of a log file; a partial record at the end is not read. */
  function ParseLogFile(log: seq<byte>): Result<seq<Record>> {
    match ReadHeader(log, MAGIC_LOG)
    case Err(e) => Err(e)
    case Ok(_) => ParseLog(log[HEADER_SIZE..])
  }

  lemma LogFileParses(maxSnap: nat, rs: seq<Record>)
    requires AllWellFormed(rs) && maxSnap < U32
    ensures ParseLogFile(LogFile(maxSnap, rs)) == Ok(rs)
  {
    hide Header, ReadHeader, LogBody, ParseLog;
    HeaderRoundTrip(MAGIC_LOG, maxSnap, LogBody(rs));
    ParseWhole(rs);
  }

  lemma ParsedFileFits(log: seq<byte>, rs: seq<Record>)
    requires ParseLogFile(log) == Ok(rs)
    ensures AllWellFormed(rs)
  {
    hide ParseLog, ReadHeader;
    ParseShape(log[HEADER_SIZE..], rs);
  }

  function FixedBody(rs: seq<Record>): (s: seq<byte>)
    ensures |s| == FIXED_RECORD_SIZE * |rs|
  {
    if rs == [] then [] else FixedBytes(rs[0]) + FixedBody(rs[1..])
  }

  function IndexFile(maxSnap: nat, rs: seq<Record>): seq<byte> {
    Header(MAGIC_IDX, maxSnap) + FixedBody(rs)
  }

  lemma {:induction false} FixedBodyAt(rs: seq<Record>, i: nat)
    requires i < |rs|
    ensures FixedBody(rs)[32 * i..32 * i + 32] == FixedBytes(rs[i])
  {
    hide FixedBytes;
    if i > 0 {
      FixedBodyAt(rs[1..], i - 1);
      assert FixedBody(rs)[32..] == FixedBody(rs[1..]);
      assert FixedBody(rs)[32 * i..32 * i + 32] == FixedBody(rs[1..])[32 * (i - 1)..32 * (i - 1) + 32];
    }
  }

  lemma {:induction false} FixedBodyAppend(a: seq<Record>, b: seq<Record>)
    ensures FixedBody(a + b) == FixedBody(a) + FixedBody(b)
  {
    hide FixedBytes;
    if a == [] {
      assert a + b == b;
    } else {
      FixedBodyAppend(a[1..], b);
      assert (a + b)[1..] == a[1..] + b;
      var h, t, e := FixedBytes(a[0]), FixedBody(a[1..]), FixedBody(b);
      assert h + (t + e) == (h + t) + e;
    }
  }

  /* ---- lookup by key ---- */

  /** The first record stored under `key`. */
  function First(rs: seq<Record>, key: nat): (r: Option<Record>)
    ensures r.Some? ==> r.value in rs && r.value.key == key
    ensures r.None? ==> forall x :: x in rs ==> x.key != key
  {
    if rs == [] then None
    else if rs[0].key == key then Some(rs[0])
    else First(rs[1..], key)
  }

  /** Of several records under one key, the one that comes first. */
  lemma {:induction false} FirstIsFirst(rs: seq<Record>, i: nat)
    requires i < |rs| && forall j :: 0 <= j < i ==> rs[j].key != rs[i].key
    ensures First(rs, rs[i].key) == Some(rs[i])
  {
    if i > 0 { FirstIsFirst(rs[1..], i - 1); }
  }

  ghost predicate SameLookup(a: seq<Record>, b: seq<Record>) {
    forall k: nat :: First(a, k) == First(b, k)
  }

  lemma {:induction false} FirstAppend(a: seq<Record>, b: seq<Record>, key: nat)
    ensures First(a + b, key) == if First(a, key).Some? then First(a, key) else First(b, key)
  {
    if a == [] {
      assert a + b == b;
    } else {
      FirstAppend(a[1..], b, key);
      assert (a + b)[1..] == a[1..] + b;
    }
  }

  ghost predicate StrictKeys(rs: seq<Record>) {
    forall i, j :: 0 <= i < j < |rs| ==> rs[i].key < rs[j].key
  }

  ghost predicate UniqueKeys(rs: seq<Record>) {
    forall i, j :: 0 <= i < j < |rs| ==> rs[i].key != rs[j].key
  }

  lemma {:induction false} FirstOfUnique(rs: seq<Record>, i: nat)
    requires UniqueKeys(rs) && i < |rs|
    ensures First(rs, rs[i].key) == Some(rs[i])
  {
    if i > 0 {
      assert rs[0].key != rs[i].key;
      assert rs[1..][i - 1] == rs[i];
      FirstOfUnique(rs[1..], i - 1);
    }
  }

  /* ---- the floor query ---- */

  /** The key of (pa, snap) before truncation to 64 bits. */
  function KeyFor(pa: nat, snap: nat): nat { pa * SNAPSHOTS + snap }

  /** Reference definition: look for exactly `snap`, then one snapshot earlier. */
  function FloorRec(rs: seq<Record>, pa: nat, snap: nat): (r: Option<Record>)
    decreases snap
  {
    match First(rs, KeyFor(pa, snap))
    case Some(r) => Some(r)
    case None => if snap == 0 then None else FloorRec(rs, pa, snap - 1)
  }

  ghost predicate Below(r: Record, pa: nat, snap: nat) {
    PaOf(r.key) == pa && SnapOf(r.key) <= snap
  }

  /** The reference is the floor: a stored version of the page, no later than
      asked, and no stored version lies strictly between. */
  lemma {:induction false} FloorIsGreatest(rs: seq<Record>, pa: nat, snap: nat)
    requires snap < SNAPSHOTS
    ensures match FloorRec(rs, pa, snap)
      case Some(r) =>
        && Below(r, pa, snap)
        && First(rs, r.key) == Some(r)
        && forall x :: x in rs && Below(x, pa, snap) ==> SnapOf(x.key) <= SnapOf(r.key)
      case None => forall x :: x in rs ==> !Below(x, pa, snap)
    decreases snap
  {
    forall x | x in rs && Below(x, pa, snap) && SnapOf(x.key) == snap
      ensures x.key == KeyFor(pa, snap)
    {
    }
    if First(rs, KeyFor(pa, snap)).None? && snap > 0 {
      FloorIsGreatest(rs, pa, snap - 1);
    }
  }

  lemma FloorUnique(rs: seq<Record>, pa: nat, snap: nat, r: Record)
    requires snap < SNAPSHOTS && Below(r, pa, snap) && First(rs, r.key) == Some(r)
    requires forall x :: x in rs && Below(x, pa, snap) ==> SnapOf(x.key) <= SnapOf(r.key)
    ensures FloorRec(rs, pa, snap) == Some(r)
  {
    FloorIsGreatest(rs, pa, snap);
    assert r in rs;
    var f := FloorRec(rs, pa, snap).value;
    assert f in rs && SnapOf(f.key) == SnapOf(r.key);
    assert f.key == KeyFor(pa, SnapOf(f.key)) && r.key == KeyFor(pa, SnapOf(r.key));
  }

  lemma FloorNone(rs: seq<Record>, pa: nat, snap: nat)
    requires snap < SNAPSHOTS
    requires forall x :: x in rs ==> !Below(x, pa, snap)
    ensures FloorRec(rs, pa, snap) == None
  {
    FloorIsGreatest(rs, pa, snap);
  }

  lemma {:induction false} FloorSame(a: seq<Record>, b: seq<Record>, pa: nat, snap: nat)
    requires SameLookup(a, b)
    ensures FloorRec(a, pa, snap) == FloorRec(b, pa, snap)
    decreases snap
  {
    assert First(a, KeyFor(pa, snap)) == First(b, KeyFor(pa, snap));
    if snap > 0 { FloorSame(a, b, pa, snap - 1); }
  }

  /* ---- the sorted index: sort_by_key, then dedup_by_key ---- */

  /** Stable insertion: `x` goes before every record of the same key. */
  function Insert(x: Record, ys: seq<Record>): seq<Record> {
    if ys == [] || x.key <= ys[0].key then [x] + ys else [ys[0]] + Insert(x, ys[1..])
  }

  function SortByKey(xs: seq<Record>): seq<Record> {
    if xs == [] then [] else Insert(xs[0], SortByKey(xs[1..]))
  }

  /** Removes all but the first of each run of equal keys. */
  function DedupByKey(xs: seq<Record>): (ys: seq<Record>)
    ensures |ys| <= |xs|
    decreases |xs|
  {
    if |xs| < 2 then xs
    else if xs[0].key == xs[1].key then DedupByKey([xs[0]] + xs[2..])
    else [xs[0]] + DedupByKey(xs[1..])
  }

  function IndexOf(rs: seq<Record>): seq<Record> {
    DedupByKey(SortByKey(rs))
  }

  /** What every reader of a log goes by: its records sorted, first of each key. */
  function ReadLogFile(log: seq<byte>): Result<seq<Record>> {
    match ParseLogFile(log) case Err(e) => Err(e) case Ok(rs) => Ok(IndexOf(rs))
  }

  ghost predicate KeySorted(rs: seq<Record>) {
    forall i, j :: 0 <= i < j < |rs| ==> rs[i].key <= rs[j].key
  }

  lemma {:induction false} InsertSorted(x: Record, ys: seq<Record>)
    requires KeySorted(ys)
    ensures KeySorted(Insert(x, ys))
    ensures forall r :: r in Insert(x, ys) <==> r == x || r in ys
  {
    if !(ys == [] || x.key <= ys[0].key) {
      var rest := Insert(x, ys[1..]);
      InsertSorted(x, ys[1..]);
      assert ys == [ys[0]] + ys[1..];
      forall i | 0 <= i < |rest| ensures ys[0].key <= rest[i].key { assert rest[i] in rest; }
    }
  }

  lemma {:induction false} InsertFirst(x: Record, ys: seq<Record>, key: nat)
    ensures First(Insert(x, ys), key) == if x.key == key then Some(x) else First(ys, key)
  {
    if ys == [] || x.key <= ys[0].key {
      assert ([x] + ys)[1..] == ys;
    } else {
      InsertFirst(x, ys[1..], key);
      assert ([ys[0]] + Insert(x, ys[1..]))[1..] == Insert(x, ys[1..]);
    }
  }

  /** Sorting is stable: every key keeps its first occurrence. */
  lemma {:induction false} SortFacts(xs: seq<Record>, key: nat)
    ensures KeySorted(SortByKey(xs))
    ensures forall r :: r in SortByKey(xs) <==> r in xs
    ensures First(SortByKey(xs), key) == First(xs, key)
  {
    if xs != [] {
      SortFacts(xs[1..], key);
      InsertSorted(xs[0], SortByKey(xs[1..]));
      InsertFirst(xs[0], SortByKey(xs[1..]), key);
      assert xs == [xs[0]] + xs[1..];
    }
  }

  lemma {:induction false} DedupFacts(xs: seq<Record>, key: nat)
    requires KeySorted(xs)
    ensures StrictKeys(DedupByKey(xs))
    ensures xs != [] ==> DedupByKey(xs) != [] && DedupByKey(xs)[0] == xs[0]
    ensures First(DedupByKey(xs), key) == First(xs, key)
    decreases |xs|
  {
    if |xs| >= 2 {
      if xs[0].key == xs[1].key {
        var ys := [xs[0]] + xs[2..];
        DedupFacts(ys, key);
        assert ys[1..] == xs[1..][1..];
      } else {
        DedupFacts(xs[1..], key);
        var rest := DedupByKey(xs[1..]);
        assert ([xs[0]] + rest)[1..] == rest;
        assert rest[0] == xs[1];
      }
    }
  }

  /** The index is strictly sorted and keeps, for every key, the first record of the log. */
  lemma IndexKeepsFirst(rs: seq<Record>)
    ensures StrictKeys(IndexOf(rs)) && SameLookup(IndexOf(rs), rs)
    ensures forall r :: r in IndexOf(rs) ==> r in rs
  {
    SortFacts(rs, 0);
    DedupFacts(SortByKey(rs), 0);
    forall k: nat ensures First(IndexOf(rs), k) == First(rs, k) {
      SortFacts(rs, k);
      DedupFacts(SortByKey(rs), k);
    }
    forall r | r in IndexOf(rs) ensures r in rs {
      var i :| 0 <= i < |IndexOf(rs)| && IndexOf(rs)[i] == r;
      FirstOfUnique(IndexOf(rs), i);
      assert First(rs, r.key) == Some(r);
    }
  }

  /** On records without repeated keys, the index holds exactly the same records. */
  lemma IndexOfUnique(rs: seq<Record>)
    requires UniqueKeys(rs)
    ensures forall r :: r in IndexOf(rs) <==> r in rs
  {
    IndexKeepsFirst(rs);
    forall r | r in rs ensures r in IndexOf(rs) {
      var i :| 0 <= i < |rs| && rs[i] == r;
      FirstOfUnique(rs, i);
      assert First(IndexOf(rs), r.key) == Some(r);
    }
  }

  lemma HeadIsMember(rs: seq<Record>)
    ensures rs != [] ==> rs[0] in rs
  {
  }

  /** Strictly increasing under a ranking of keys. */
  ghost predicate StrictBy(rs: seq<Record>, rank: nat -> nat) {
    forall i, j :: 0 <= i < j < |rs| ==> rank(rs[i].key) < rank(rs[j].key)
  }

  lemma StrictHeads(a: seq<Record>, b: seq<Record>, rank: nat -> nat)
    requires StrictBy(a, rank) && StrictBy(b, rank) && a != [] && b != []
    requires forall r :: r in a <==> r in b
    ensures a[0] == b[0]
    ensures forall r :: r in a[1..] <==> r in b[1..]
  {
    assert a[0] in b;
    assert b[0] in a;
    var i :| 0 <= i < |b| && b[i] == a[0];
    var j :| 0 <= j < |a| && a[j] == b[0];
    assert a == [a[0]] + a[1..] && b == [b[0]] + b[1..];
    forall r ensures r in a[1..] <==> r in b[1..] {
      assert r in a[1..] ==> r in b && rank(r.key) != rank(a[0].key);
      assert r in b[1..] ==> r in a && rank(r.key) != rank(a[0].key);
    }
  }

  /** A strictly ranked sequence is determined by its elements. */
  lemma {:induction false} StrictUnique(a: seq<Record>, b: seq<Record>, rank: nat -> nat)
    requires StrictBy(a, rank) && StrictBy(b, rank)
    requires forall r :: r in a <==> r in b
    ensures a == b
  {
    HeadIsMember(a);
    HeadIsMember(b);
    if a != [] && b != [] {
      StrictHeads(a, b, rank);
      StrictUnique(a[1..], b[1..], rank);
      assert a == [a[0]] + a[1..] && b == [b[0]] + b[1..];
    }
  }

  /* ---- lookups in a sorted index ---- */

  /** `idx` splits the keys into those at most `key` and those above it. */
  ghost predicate Splits(rs: seq<Record>, key: nat, idx: nat) {
    && idx <= |rs|
    && (forall i :: 0 <= i < idx ==> rs[i].key <= key)
    && (forall i :: idx <= i < |rs| ==> key < rs[i].key)
  }

  function SelectAt(rs: seq<Record>, idx: nat, pa: nat): Option<Record>
    requires idx <= |rs|
  {
    if idx > 0 && PaOf(rs[idx - 1].key) == pa then Some(rs[idx - 1]) else None
  }

  lemma KeyBelow(key: nat, pa: nat, snap: nat)
    requires pa < PA_LIMIT && snap < SNAPSHOTS && key < U64 && PaOf(key) == pa
    ensures key <= EncodeKey(pa, snap) <==> SnapOf(key) <= snap
  {
    KeyPacking(pa, snap, key);
    if key == EncodeKey(pa, snap) { assert SnapOf(key) == snap; }
  }

  lemma KeyBetween(low: nat, high: nat, pa: nat, snap: nat)
    requires pa < PA_LIMIT && snap < SNAPSHOTS
    requires low <= high <= EncodeKey(pa, snap) && PaOf(low) == pa
    ensures PaOf(high) == pa && SnapOf(low) <= SnapOf(high)
  {
    KeyPacking(pa, snap, high);
  }

  /** Anything at or below the request lies at or before the split, and not above its record. */
  lemma SplitCovers(rs: seq<Record>, pa: nat, snap: nat, idx: nat, x: Record)
    requires StrictKeys(rs) && snap < SNAPSHOTS && pa < PA_LIMIT && x in rs && x.key < U64
    requires Splits(rs, EncodeKey(pa, snap), idx) && Below(x, pa, snap)
    ensures idx > 0 && PaOf(rs[idx - 1].key) == pa && SnapOf(x.key) <= SnapOf(rs[idx - 1].key)
  {
    hide PaOf, SnapOf, EncodeKey;
    KeyBelow(x.key, pa, snap);
    var i :| 0 <= i < |rs| && rs[i] == x;
    assert i < idx;
    KeyBetween(x.key, rs[idx - 1].key, pa, snap);
  }

  /** For every PA, including those the 45-bit field cannot hold: the record
      before the split point is the floor, once its PA is compared. */
  lemma {:induction false} SelectIsFloor(rs: seq<Record>, pa: nat, snap: nat, idx: nat)
    requires StrictKeys(rs) && snap < SNAPSHOTS
    requires forall r :: r in rs ==> r.key < U64
    requires Splits(rs, EncodeKey(pa, snap), idx)
    ensures SelectAt(rs, idx, pa) == FloorRec(rs, pa, snap)
  {
    hide FloorRec, First, PaOf, SnapOf, EncodeKey;
    if pa >= PA_LIMIT {
      forall x | x in rs ensures PaOf(x.key) < PA_LIMIT { KeyPacking(0, 0, x.key); }
      FloorNone(rs, pa, snap);
    } else {
      forall x | x in rs && Below(x, pa, snap)
        ensures idx > 0 && PaOf(rs[idx - 1].key) == pa && SnapOf(x.key) <= SnapOf(rs[idx - 1].key)
      {
        SplitCovers(rs, pa, snap, idx, x);
      }
      if idx > 0 && PaOf(rs[idx - 1].key) == pa {
        var r := rs[idx - 1];
        KeyBelow(r.key, pa, snap);
        FirstOfUnique(rs, idx - 1);
        FloorUnique(rs, pa, snap, r);
      } else {
        FloorNone(rs, pa, snap);
      }
    }
  }

  /** `keys.partition_point(|k| k <= key)`. */
  function PartitionPointLe(rs: seq<Record>, key: nat): (idx: nat)
    ensures idx <= |rs|
  {
    if rs == [] || rs[0].key > key then 0 else 1 + PartitionPointLe(rs[1..], key)
  }

  lemma {:induction false} PartitionSplits(rs: seq<Record>, key: nat)
    requires StrictKeys(rs)
    ensures Splits(rs, key, PartitionPointLe(rs, key))
  {
    if rs != [] && rs[0].key <= key { PartitionSplits(rs[1..], key); }
  }

  /** `floor_sorted` over the lazily built index. */
  function FloorSorted(rs: seq<Record>, pa: nat, snap: nat): Option<Record> {
    SelectAt(rs, PartitionPointLe(rs, EncodeKey(pa, snap)), pa)
  }

  /* ---- the linear scan of load_all_scan ---- */

  /** What the scan keeps for one PA after one more record. */
  function ScanStep(prev: Option<Record>, r: Record, pa: nat, snap: nat): Option<Record> {
    if PaOf(r.key) != pa || SnapOf(r.key) > snap then prev
    else match prev
      case None => Some(r)
      case Some(p) => if SnapOf(p.key) < SnapOf(r.key) then Some(r) else prev
  }

  function ScanLatest(rs: seq<Record>, pa: nat, snap: nat): Option<Record> {
    if rs == [] then None
    else ScanStep(ScanLatest(rs[..|rs| - 1], pa, snap), rs[|rs| - 1], pa, snap)
  }

  lemma FloorAppend(rs: seq<Record>, r: Record, pa: nat, snap: nat)
    requires snap < SNAPSHOTS
    ensures FloorRec(rs + [r], pa, snap) == ScanStep(FloorRec(rs, pa, snap), r, pa, snap)
  {
    FloorIsGreatest(rs, pa, snap);
    var prev := FloorRec(rs, pa, snap);
    var next := ScanStep(prev, r, pa, snap);
    assert forall x :: x in rs + [r] <==> x in rs || x == r;
    match next {
      case None => FloorNone(rs + [r], pa, snap);
      case Some(x) =>
        FirstAppend(rs, [r], x.key);
        if next != prev {
          assert forall y :: y in rs && Below(y, pa, snap) ==> SnapOf(y.key) < SnapOf(r.key);
        }
        FloorUnique(rs + [r], pa, snap, x);
    }
  }

  lemma {:induction false} ScanIsFloor(rs: seq<Record>, pa: nat, snap: nat)
    requires snap < SNAPSHOTS
    ensures ScanLatest(rs, pa, snap) == FloorRec(rs, pa, snap)
  {
    if rs == [] {
      FloorNone(rs, pa, snap);
    } else {
      var front, r := rs[..|rs| - 1], rs[|rs| - 1];
      ScanIsFloor(front, pa, snap);
      FloorAppend(front, r, pa, snap);
      assert rs == front + [r];
    }
  }

  /** For any log whatsoever - out of order, with repeated keys - the linear
      scan, the floor over the lazy index and the reference pick the same record. */
  lemma FloorsAgree(rs: seq<Record>, pa: nat, snap: nat)
    requires snap < SNAPSHOTS
    requires forall r :: r in rs ==> r.key < U64
    ensures ScanLatest(rs, pa, snap) == FloorRec(rs, pa, snap)
    ensures FloorSorted(IndexOf(rs), pa, snap) == FloorRec(rs, pa, snap)
    ensures FloorRec(IndexOf(rs), pa, snap) == FloorRec(rs, pa, snap)
  {
    ScanIsFloor(rs, pa, snap);
    IndexKeepsFirst(rs);
    FloorSame(IndexOf(rs), rs, pa, snap);
    PartitionSplits(IndexOf(rs), EncodeKey(pa, snap));
    SelectIsFloor(IndexOf(rs), pa, snap, PartitionPointLe(IndexOf(rs), EncodeKey(pa, snap)));
  }

  /* ---- binary search over the bytes of index.bxdb ---- */

  function KeyAt(bytes: seq<byte>, i: nat): nat
    requires |bytes| >= HEADER_SIZE + FIXED_RECORD_SIZE * (i + 1)
  {
    FromLE(bytes[HEADER_SIZE..][32 * i..32 * i + 8])
  }

  function RecordAt(bytes: seq<byte>, i: nat): Result<Record>
    requires |bytes| >= HEADER_SIZE + FIXED_RECORD_SIZE * (i + 1)
  {
    DecodeFixed(bytes[HEADER_SIZE..][32 * i..32 * i + 32])
  }

  /** The bytes decode to `rs`, sorted by key as the format demands; header and
      padding may hold anything. */
  ghost predicate IsIndexFile(bytes: seq<byte>, rs: seq<Record>) {
    && StrictKeys(rs)
    && |bytes| == HEADER_SIZE + FIXED_RECORD_SIZE * |rs|
    && forall i :: 0 <= i < |rs| ==> RecordAt(bytes, i) == Ok(rs[i])
  }

  lemma IndexFileAt(bytes: seq<byte>, rs: seq<Record>, i: nat)
    requires IsIndexFile(bytes, rs) && i < |rs|
    ensures KeyAt(bytes, i) == rs[i].key && RecordAt(bytes, i) == Ok(rs[i]) && FieldsFit(rs[i])
  {
    hide FromLE;
    var body := bytes[HEADER_SIZE..];
    assert RecordAt(bytes, i) == Ok(rs[i]);
    assert body[32 * i..32 * i + 32][0..8] == body[32 * i..32 * i + 8];
    DecodedFits(body[32 * i..32 * i + 32]);
  }

  lemma IndexFileFits(bytes: seq<byte>, rs: seq<Record>)
    requires IsIndexFile(bytes, rs)
    ensures forall r :: r in rs ==> FieldsFit(r)
  {
    forall r | r in rs ensures FieldsFit(r) {
      var i :| 0 <= i < |rs| && rs[i] == r;
      IndexFileAt(bytes, rs, i);
    }
  }

  lemma IndexSize(bytes: seq<byte>, rs: seq<Record>)
    requires IsIndexFile(bytes, rs)
    ensures |bytes| == HEADER_SIZE + FIXED_RECORD_SIZE * |rs| && StrictKeys(rs)
  {
  }

  /** What the writers of index.bxdb produce is such a file. */
  lemma WrittenIndexFile(maxSnap: nat, rs: seq<Record>)
    requires StrictKeys(rs) && forall r :: r in rs ==> FieldsFit(r)
    ensures IsIndexFile(IndexFile(maxSnap, rs), rs)
  {
    hide FixedBytes, DecodeFixed, FixedBody, Header, FieldsFit;
    var bytes := IndexFile(maxSnap, rs);
    assert bytes[HEADER_SIZE..] == FixedBody(rs);
    forall i | 0 <= i < |rs| ensures RecordAt(bytes, i) == Ok(rs[i]) {
      FixedBodyAt(rs, i);
      FixedRoundTrip(rs[i]);
    }
  }

  /** `floor_mmap` on any index file returns the floor record. */
  method FloorMmap(bytes: seq<byte>, n: nat, pa: nat, snap: nat, ghost rs: seq<Record>)
    returns (r: Option<Record>)
    requires IsIndexFile(bytes, rs) && n == |rs| && snap < SNAPSHOTS
    ensures r == FloorRec(rs, pa, snap)
  {
    hide FloorRec, EncodeKey, PaOf, FromLE, DecodeFixed, FieldsFit, IsIndexFile, KeyAt, RecordAt;
    IndexSize(bytes, rs);
    var key := EncodeKey(pa, snap);
    var lo, hi := 0, n;
    while lo < hi
      invariant 0 <= lo <= hi <= n
      invariant forall i :: 0 <= i < lo ==> rs[i].key <= key
      invariant forall i :: hi <= i < n ==> key < rs[i].key
    {
      var mid := lo + (hi - lo) / 2;
      IndexFileAt(bytes, rs, mid);
      if KeyAt(bytes, mid) <= key {
        lo := mid + 1;
      } else {
        hi := mid;
      }
    }
    IndexFileFits(bytes, rs);
    FittingRecords(rs);
    assert Splits(rs, key, lo);
    SelectIsFloor(rs, pa, snap, lo);
    if lo == 0 { return None; }
    IndexFileAt(bytes, rs, lo - 1);
    var rec := RecordAt(bytes, lo - 1);
    if rec.Ok? && PaOf(rec.value.key) == pa { return Some(rec.value); }
    return None;
  }

  /** `exact_mmap` finds the record stored under the key, if there is one. */
  method ExactMmap(bytes: seq<byte>, n: nat, key: nat, ghost rs: seq<Record>)
    returns (r: Option<Record>)
    requires IsIndexFile(bytes, rs) && n == |rs|
    ensures r == First(rs, key)
  {
    var lo, hi := 0, n;
    while lo < hi
      invariant 0 <= lo <= hi <= n
      invariant forall i :: 0 <= i < lo ==> rs[i].key < key
      invariant forall i :: hi <= i < n ==> key < rs[i].key
    {
      var mid := lo + (hi - lo) / 2;
      IndexFileAt(bytes, rs, mid);
      var k := KeyAt(bytes, mid);
      if k == key {
        FirstOfUnique(rs, mid);
        return Some(RecordAt(bytes, mid).value);
      } else if k < key {
        lo := mid + 1;
      } else {
        hi := mid;
      }
    }
    assert forall x :: x in rs ==> x.key != key;
    return None;
  }
}
