/** Conversion between chunks.log and index.bxdb. */
module Convert {
  import opened Words
  import opened Chunk
  import opened Index

  /* ---- the order of a log ---- */

  function Max(a: nat, b: nat): nat { if a < b then b else a }

  /** Ranks keys by snapshot first, then PA: the order of a log. */
  function LogRank(key: nat): nat { SnapOf(key) * PA_LIMIT + PaOf(key) }

  ghost predicate LogSorted(rs: seq<Record>) {
    forall i, j :: 0 <= i < j < |rs| ==> LogBefore(rs[i].key, rs[j].key)
  }

  ghost predicate LogBefore(a: nat, b: nat) {
    SnapOf(a) < SnapOf(b) || (SnapOf(a) == SnapOf(b) && PaOf(a) < PaOf(b))
  }

  ghost predicate KeysFit(rs: seq<Record>) {
    forall r :: r in rs ==> r.key < U64
  }

  lemma LogRankOrder(a: nat, b: nat)
    requires a < U64 && b < U64
    ensures LogRank(a) < LogRank(b) <==> LogBefore(a, b)
  {
    assert PaOf(a) < PA_LIMIT && PaOf(b) < PA_LIMIT;
  }

  lemma LogSortedIsStrict(rs: seq<Record>)
    requires KeysFit(rs)
    ensures LogSorted(rs) <==> StrictBy(rs, LogRank)
    ensures LogSorted(rs) ==> UniqueKeys(rs)
  {
    hide LogRank, LogBefore;
    forall i, j | 0 <= i < j < |rs|
      ensures LogRank(rs[i].key) < LogRank(rs[j].key) <==> LogBefore(rs[i].key, rs[j].key)
    {
      LogRankOrder(rs[i].key, rs[j].key);
    }
  }

  /** `records.iter().map(snapshot).max().unwrap_or(0)`. */
  function MaxSnap(rs: seq<Record>): (m: nat)
    ensures m < SNAPSHOTS
    ensures forall r :: r in rs ==> SnapOf(r.key) <= m
    ensures rs == [] ==> m == 0
    ensures rs != [] ==> exists r :: r in rs && SnapOf(r.key) == m
  {
    if rs == [] then 0
    else
      var m := Max(SnapOf(rs[0].key), MaxSnap(rs[1..]));
      assert rs == [rs[0]] + rs[1..];
      assert rs[0] in rs;
      m
  }

  lemma MaxSnapSame(a: seq<Record>, b: seq<Record>)
    requires forall r :: r in a <==> r in b
    ensures MaxSnap(a) == MaxSnap(b)
  {
    HeadIsMember(a);
    HeadIsMember(b);
  }

  /* ---- regrouping by snapshot ---- */

  function OfSnap(rs: seq<Record>, snap: nat): seq<Record> {
    if rs == [] then []
    else if SnapOf(rs[0].key) == snap then [rs[0]] + OfSnap(rs[1..], snap)
    else OfSnap(rs[1..], snap)
  }

  lemma {:induction false} OfSnapMembers(rs: seq<Record>, snap: nat)
    ensures forall r :: r in OfSnap(rs, snap) <==> r in rs && SnapOf(r.key) == snap
  {
    if rs != [] {
      OfSnapMembers(rs[1..], snap);
      assert rs == [rs[0]] + rs[1..];
    }
  }

  lemma {:induction false} OfSnapAppend(rs: seq<Record>, r: Record, snap: nat)
    ensures OfSnap(rs + [r], snap) == OfSnap(rs, snap) + if SnapOf(r.key) == snap then [r] else []
  {
    hide SnapOf;
    if rs == [] {
      assert rs + [r] == [r];
      assert [r][1..] == [];
    } else {
      OfSnapAppend(rs[1..], r, snap);
      assert (rs + [r])[1..] == rs[1..] + [r];
      var h, t := if SnapOf(rs[0].key) == snap then [rs[0]] else [], OfSnap(rs[1..], snap);
      var e := if SnapOf(r.key) == snap then [r] else [];
      assert h + (t + e) == (h + t) + e;
    }
  }

  lemma {:induction false} OfSnapKeepsOrder(rs: seq<Record>, snap: nat)
    requires StrictKeys(rs)
    ensures StrictKeys(OfSnap(rs, snap))
  {
    if rs != [] {
      OfSnapKeepsOrder(rs[1..], snap);
      OfSnapMembers(rs[1..], snap);
      var rest := OfSnap(rs[1..], snap);
      forall i | 0 <= i < |rest| ensures rs[0].key < rest[i].key { assert rest[i] in rest; }
    }
  }

  /** One snapshot's records: `to_log` sorts them by key, purge leaves them as read. */
  function Group(rs: seq<Record>, snap: nat, sorted: bool): seq<Record> {
    if sorted then SortByKey(OfSnap(rs, snap)) else OfSnap(rs, snap)
  }

  /** The groups of the snapshots below `n`, in snapshot order. */
  function GroupsBelow(rs: seq<Record>, n: nat, sorted: bool): seq<Record>
    decreases n, rs
  {
    if n == 0 then [] else GroupsBelow(rs, n - 1, sorted) + Group(rs, n - 1, sorted)
  }

  function Regroup(rs: seq<Record>): seq<Record> {
    GroupsBelow(rs, SNAPSHOTS, true)
  }

  /** Regrouping without sorting the groups. */
  function Grouped(rs: seq<Record>): seq<Record> {
    GroupsBelow(rs, SNAPSHOTS, false)
  }

  /** On key-sorted input the per-group sort changes nothing. */
  lemma {:induction false} GroupsNeedNoSort(rs: seq<Record>, n: nat)
    requires StrictKeys(rs)
    ensures GroupsBelow(rs, n, false) == GroupsBelow(rs, n, true)
    decreases n
  {
    if n > 0 {
      GroupsNeedNoSort(rs, n - 1);
      OfSnapKeepsOrder(rs, n - 1);
      SortStrict(OfSnap(rs, n - 1));
    }
  }

  lemma SortStrict(rs: seq<Record>)
    requires UniqueKeys(rs)
    ensures StrictKeys(SortByKey(rs)) && forall r :: r in SortByKey(rs) <==> r in rs
    ensures StrictKeys(rs) ==> SortByKey(rs) == rs
  {
    SortFacts(rs, 0);
    SortUnique(rs);
    if StrictKeys(rs) {
      StrictUnique(rs, SortByKey(rs), k => k);
    }
  }

  lemma {:induction false} SortUnique(rs: seq<Record>)
    requires UniqueKeys(rs)
    ensures UniqueKeys(SortByKey(rs))
  {
    if rs != [] {
      SortUnique(rs[1..]);
      SortFacts(rs[1..], 0);
      forall r | r in SortByKey(rs[1..]) ensures r.key != rs[0].key {
        assert r in rs[1..];
      }
      InsertUnique(rs[0], SortByKey(rs[1..]));
    }
  }

  lemma {:induction false} InsertUnique(x: Record, ys: seq<Record>)
    requires UniqueKeys(ys) && forall r :: r in ys ==> r.key != x.key
    ensures UniqueKeys(Insert(x, ys)) && forall r :: r in Insert(x, ys) <==> r == x || r in ys
  {
    if !(ys == [] || x.key <= ys[0].key) {
      InsertUnique(x, ys[1..]);
      var rest := Insert(x, ys[1..]);
      assert ys == [ys[0]] + ys[1..];
      forall i | 0 <= i < |rest| ensures rest[i].key != ys[0].key { assert rest[i] in rest; }
    }
  }

  lemma {:induction false} OfSnapUnique(rs: seq<Record>, snap: nat)
    requires UniqueKeys(rs)
    ensures UniqueKeys(OfSnap(rs, snap))
  {
    if rs != [] {
      OfSnapUnique(rs[1..], snap);
      OfSnapMembers(rs[1..], snap);
      var rest := OfSnap(rs[1..], snap);
      forall i | 0 <= i < |rest| ensures rest[i].key != rs[0].key { assert rest[i] in rest; }
    }
  }

  /** Regrouping unique records puts them in log order and keeps exactly them. */
  lemma {:induction false} RegroupFactsBelow(rs: seq<Record>, n: nat)
    requires UniqueKeys(rs) && KeysFit(rs)
    ensures LogSorted(GroupsBelow(rs, n, true))
    ensures forall r :: r in GroupsBelow(rs, n, true) <==> r in rs && SnapOf(r.key) < n
    decreases n
  {
    hide SortByKey, OfSnap, UniqueKeys, StrictKeys, SnapOf, LogBefore;
    if n > 0 {
      RegroupFactsBelow(rs, n - 1);
      GroupFacts(rs, n - 1);
      JoinGroups(GroupsBelow(rs, n - 1, true), SortByKey(OfSnap(rs, n - 1)), n - 1);
    }
  }

  lemma GroupFacts(rs: seq<Record>, snap: nat)
    requires UniqueKeys(rs)
    ensures StrictKeys(SortByKey(OfSnap(rs, snap)))
    ensures forall r :: r in SortByKey(OfSnap(rs, snap)) <==> r in rs && SnapOf(r.key) == snap
  {
    hide SortByKey, OfSnap;
    OfSnapMembers(rs, snap);
    OfSnapUnique(rs, snap);
    SortStrict(OfSnap(rs, snap));
  }

  lemma JoinGroups(front: seq<Record>, group: seq<Record>, snap: nat)
    requires LogSorted(front) && StrictKeys(group) && KeysFit(group)
    requires forall r :: r in front ==> SnapOf(r.key) < snap
    requires forall r :: r in group ==> SnapOf(r.key) == snap
    ensures LogSorted(front + group)
  {
    var all := front + group;
    forall i, j | 0 <= i < j < |all| ensures LogBefore(all[i].key, all[j].key) {
      if i < |front| {
        assert all[i] in front;
        if j >= |front| { assert all[j] in group; }
      } else {
        assert all[i] in group && all[j] in group;
      }
    }
  }

  lemma RegroupFacts(rs: seq<Record>)
    requires UniqueKeys(rs) && KeysFit(rs)
    ensures LogSorted(Regroup(rs)) && KeysFit(Regroup(rs))
    ensures forall r :: r in Regroup(rs) <==> r in rs
    ensures SameLookup(Regroup(rs), rs)
  {
    hide GroupsBelow, LogBefore;
    RegroupFactsBelow(rs, SNAPSHOTS);
    LogSortedIsStrict(Regroup(rs));
    SameMembersSameLookup(Regroup(rs), rs);
  }

  lemma SameMembersSameLookup(a: seq<Record>, b: seq<Record>)
    requires UniqueKeys(a) && UniqueKeys(b) && forall r :: r in a <==> r in b
    ensures SameLookup(a, b)
  {
    forall k: nat ensures First(a, k) == First(b, k) {
      match First(a, k) {
        case None =>
        case Some(r) =>
          var i :| 0 <= i < |b| && b[i] == r;
          FirstOfUnique(b, i);
      }
    }
  }

  /** A log in log order survives conversion to an index and back. */
  lemma LogRoundTrip(rs: seq<Record>)
    requires LogSorted(rs) && KeysFit(rs)
    ensures Regroup(IndexOf(rs)) == rs && MaxSnap(IndexOf(rs)) == MaxSnap(rs)
  {
    hide Regroup, IndexOf, LogBefore;
    LogSortedIsStrict(rs);
    IndexOfUnique(rs);
    IndexKeepsFirst(rs);
    RegroupFacts(IndexOf(rs));
    LogSortedIsStrict(Regroup(IndexOf(rs)));
    StrictUnique(Regroup(IndexOf(rs)), rs, LogRank);
    MaxSnapSame(IndexOf(rs), rs);
  }

  /** A strictly sorted index survives conversion to a log and back. */
  lemma IndexRoundTrip(rs: seq<Record>)
    requires StrictKeys(rs) && KeysFit(rs)
    ensures IndexOf(Regroup(rs)) == rs && MaxSnap(Regroup(rs)) == MaxSnap(rs)
  {
    hide Regroup, IndexOf, LogBefore;
    RegroupFacts(rs);
    LogSortedIsStrict(Regroup(rs));
    IndexOfUnique(Regroup(rs));
    IndexKeepsFirst(Regroup(rs));
    StrictUnique(IndexOf(Regroup(rs)), rs, k => k);
    MaxSnapSame(Regroup(rs), rs);
  }

  /* ---- to_btree and to_log on file contents ---- */

  function ParseFixed(body: seq<byte>): Result<seq<Record>> {
    if |body| < FIXED_RECORD_SIZE then Ok([])
    else match DecodeFixed(body[..32])
      case Err(e) => Err(e)
      case Ok(r) => Prepend([r], ParseFixed(body[32..]))
  }

  lemma {:induction false} ParseFixedWhole(rs: seq<Record>)
    requires forall r :: r in rs ==> FieldsFit(r)
    ensures ParseFixed(FixedBody(rs)) == Ok(rs)
  {
    if rs != [] {
      hide FixedBytes, DecodeFixed, FieldsFit;
      var body := FixedBody(rs);
      assert body[..32] == FixedBytes(rs[0]) && body[32..] == FixedBody(rs[1..]);
      FixedRoundTrip(rs[0]);
      ParseFixedWhole(rs[1..]);
      assert rs == [rs[0]] + rs[1..];
    }
  }

  function BtreeOfLog(log: seq<byte>): Result<seq<byte>> {
    match ParseLogFile(log)
    case Err(e) => Err(e)
    case Ok(rs) => Ok(IndexFile(MaxSnap(IndexOf(rs)), IndexOf(rs)))
  }

  function LogOfBtree(idx: seq<byte>): Result<seq<byte>> {
    match ReadHeader(idx, MAGIC_IDX)
    case Err(e) => Err(e)
    case Ok(_) =>
      match ParseFixed(idx[HEADER_SIZE..])
      case Err(e) => Err(e)
      case Ok(rs) => Ok(LogFile(MaxSnap(rs), Regroup(rs)))
  }

  lemma BtreeOfLogFile(maxSnap: nat, rs: seq<Record>)
    requires AllWellFormed(rs) && maxSnap < U32
    ensures BtreeOfLog(LogFile(maxSnap, rs)) == Ok(IndexFile(MaxSnap(IndexOf(rs)), IndexOf(rs)))
  {
    hide LogFile, ParseLogFile, IndexOf, IndexFile;
    LogFileParses(maxSnap, rs);
  }

  /** For any log bytes that parse - out of order, with repeated keys, cut at the
      end - the converted file is an index of the first record of every key. */
  lemma BtreeIsIndex(log: seq<byte>, rs: seq<Record>)
    requires ParseLogFile(log) == Ok(rs)
    ensures BtreeOfLog(log).Ok? && IsIndexFile(BtreeOfLog(log).value, IndexOf(rs))
  {
    hide ParseLogFile, IndexOf, IndexFile, IsIndexFile, MaxSnap;
    ParsedFileFits(log, rs);
    FittingRecords(rs);
    IndexKeepsFirst(rs);
    WrittenIndexFile(MaxSnap(IndexOf(rs)), IndexOf(rs));
  }

  lemma LogOfIndexFile(maxSnap: nat, rs: seq<Record>)
    requires (forall r :: r in rs ==> FieldsFit(r)) && maxSnap < U32
    ensures LogOfBtree(IndexFile(maxSnap, rs)) == Ok(LogFile(MaxSnap(rs), Regroup(rs)))
  {
    hide FixedBody, Header, ReadHeader, ParseFixed, Regroup, LogFile;
    HeaderRoundTrip(MAGIC_IDX, maxSnap, FixedBody(rs));
    ParseFixedWhole(rs);
  }

  /** The log file of any well-formed log in log order comes back identical,
      header included. */
  lemma LogFileRoundTrip(rs: seq<Record>)
    requires AllWellFormed(rs) && LogSorted(rs)
    ensures var log := LogFile(MaxSnap(rs), rs);
      BtreeOfLog(log).Ok? && LogOfBtree(BtreeOfLog(log).value) == Ok(log)
  {
    hide LogFile, IndexFile, BtreeOfLog, LogOfBtree, Regroup, IndexOf, LogSorted;
    BtreeOfLogFile(MaxSnap(rs), rs);
    IndexKeepsFirst(rs);
    LogRoundTrip(rs);
    LogOfIndexFile(MaxSnap(rs), IndexOf(rs));
  }

  /** The index file of any strictly sorted well-formed index comes back identical. */
  lemma IndexFileRoundTrip(rs: seq<Record>)
    requires AllWellFormed(rs) && StrictKeys(rs)
    ensures var idx := IndexFile(MaxSnap(rs), rs);
      LogOfBtree(idx).Ok? && BtreeOfLog(LogOfBtree(idx).value) == Ok(idx)
  {
    hide LogFile, IndexFile, BtreeOfLog, LogOfBtree, Regroup, IndexOf;
    LogOfIndexFile(MaxSnap(rs), rs);
    RegroupFacts(rs);
    IndexRoundTrip(rs);
    BtreeOfLogFile(MaxSnap(rs), Regroup(rs));
  }

  /* ---- the loops of convert.rs ---- */

  method WriteIndex(records: seq<Record>, maxSnap: nat) returns (out: seq<byte>)
    ensures out == IndexFile(maxSnap, records)
  {
    hide FixedBytes, Header;
    out := Header(MAGIC_IDX, maxSnap);
    var buf := new byte[FIXED_RECORD_SIZE](_ => 0);
    for i := 0 to |records|
      invariant out == Header(MAGIC_IDX, maxSnap) + FixedBody(records[..i])
      invariant fresh(buf)
    {
      EncodeFixed(records[i], buf);
      assert records[..i + 1] == records[..i] + [records[i]];
      FixedBodyAppend(records[..i], [records[i]]);
      assert FixedBody([records[i]]) == FixedBytes(records[i]);
      out := out + buf[..];
    }
    assert records[..|records|] == records;
  }

  method ToBtree(log: seq<byte>) returns (r: Result<seq<byte>>)
    ensures r == BtreeOfLog(log)
  {
    var header := ReadHeader(log, MAGIC_LOG);
    if header.Err? { return Err(header.error); }
    var read := ReadRecords(log[HEADER_SIZE..]);
    if read.Err? { return Err(read.error); }
    var records := DedupByKey(SortByKey(read.value));
    var out := WriteIndex(records, MaxSnap(records));
    return Ok(out);
  }

  /** The byte-level search over what `to_btree` writes selects, for any log, the
      record the linear scan of that log selects. */
  method FloorAfterConversion(log: seq<byte>, pa: nat, snap: nat) returns (r: Result<Option<Record>>)
    requires snap < SNAPSHOTS
    ensures ParseLogFile(log).Err? ==> r == Err(ParseLogFile(log).error)
    ensures ParseLogFile(log).Ok? ==> r == Ok(ScanLatest(ParseLogFile(log).value, pa, snap))
  {
    hide ParseLogFile, IndexOf, IndexFile, IsIndexFile, ScanLatest, FloorRec, MaxSnap;
    var converted := ToBtree(log);
    if converted.Err? { return Err(converted.error); }
    ghost var rs := ParseLogFile(log).value;
    BtreeIsIndex(log, rs);
    ParsedFileFits(log, rs);
    FittingRecords(rs);
    FloorsAgree(rs, pa, snap);
    IndexSize(converted.value, IndexOf(rs));
    var idx := converted.value;
    var found := FloorMmap(idx, (|idx| - HEADER_SIZE) / FIXED_RECORD_SIZE, pa, snap, IndexOf(rs));
    return Ok(found);
  }

  method ReadFixed(body: seq<byte>) returns (r: Result<seq<Record>>)
    ensures r == ParseFixed(body)
  {
    hide DecodeFixed;
    var rest, records := body, [];
    assert forall rs: seq<Record> :: records + rs == rs;
    while |rest| >= FIXED_RECORD_SIZE
      invariant ParseFixed(body) == Prepend(records, ParseFixed(rest))
      decreases |rest|
    {
      var rec := DecodeFixed(rest[..32]);
      if rec.Err? { return Err(rec.error); }
      assert forall rs: seq<Record> :: records + ([rec.value] + rs) == records + [rec.value] + rs;
      rest, records := rest[32..], records + [rec.value];
    }
    assert records + [] == records;
    return Ok(records);
  }

  /** `by_snap.entry(..).push(..)` over all records. */
  method GroupBySnap(records: seq<Record>) returns (bySnap: map<nat, seq<Record>>)
    ensures forall s: nat :: s in bySnap <==> OfSnap(records, s) != []
    ensures forall s :: s in bySnap ==> bySnap[s] == OfSnap(records, s)
  {
    bySnap := map[];
    for i := 0 to |records|
      invariant forall s: nat :: s in bySnap <==> OfSnap(records[..i], s) != []
      invariant forall s :: s in bySnap ==> bySnap[s] == OfSnap(records[..i], s)
    {
      var snap := SnapOf(records[i].key);
      assert records[..i + 1] == records[..i] + [records[i]];
      forall s: nat
        ensures OfSnap(records[..i + 1], s) == OfSnap(records[..i], s) + if snap == s then [records[i]] else []
      {
        OfSnapAppend(records[..i], records[i], s);
      }
      bySnap := bySnap[snap := (if snap in bySnap then bySnap[snap] else []) + [records[i]]];
    }
    assert records[..|records|] == records;
  }

  ghost predicate Rising(snaps: seq<nat>) {
    forall i, j :: 0 <= i < j < |snaps| ==> snaps[i] < snaps[j]
  }

  method InsertSnap(snaps: seq<nat>, x: nat) returns (out: seq<nat>)
    requires Rising(snaps) && x !in snaps
    ensures Rising(out) && forall s: nat :: s in out <==> s in snaps || s == x
  {
    var k := 0;
    while k < |snaps| && snaps[k] < x
      invariant 0 <= k <= |snaps|
      invariant forall i :: 0 <= i < k ==> snaps[i] < x
    {
      k := k + 1;
    }
    assert forall i :: k <= i < |snaps| ==> x < snaps[i];
    out := snaps[..k] + [x] + snaps[k..];
    assert snaps == snaps[..k] + snaps[k..];
  }

  /** The keys collected and sorted. */
  method SortedSnaps(keys: set<nat>) returns (snaps: seq<nat>)
    ensures Rising(snaps) && forall s: nat :: s in snaps <==> s in keys
  {
    hide Rising;
    var left := keys;
    snaps := [];
    NoneRising();
    while left != {}
      invariant left <= keys && Rising(snaps)
      invariant forall s: nat :: s in snaps <==> s in keys && s !in left
      decreases |left|
    {
      var x :| x in left;
      snaps := InsertSnap(snaps, x);
      left := left - {x};
    }
  }

  lemma NoneRising()
    ensures Rising([])
  {
  }

  lemma {:induction false} GroupsGap(rs: seq<Record>, a: nat, b: nat, sorted: bool)
    requires a <= b && forall s: nat :: a <= s < b ==> OfSnap(rs, s) == []
    ensures GroupsBelow(rs, b, sorted) == GroupsBelow(rs, a, sorted)
    decreases b
  {
    if a < b {
      GroupsGap(rs, a, b - 1, sorted);
      assert SortByKey([]) == [];
    }
  }

  /** Groups written in ascending snapshot order give the whole regrouped log. */
  method EmitGroups(records: seq<Record>, bySnap: map<nat, seq<Record>>, snaps: seq<nat>, ghost sorted: bool)
    returns (out: seq<Record>)
    requires forall s: nat :: s in bySnap <==> OfSnap(records, s) != []
    requires forall s :: s in bySnap ==> bySnap[s] == Group(records, s, sorted)
    requires Rising(snaps)
    requires forall s: nat :: s in snaps <==> s in bySnap
    ensures out == GroupsBelow(records, SNAPSHOTS, sorted)
  {
    hide OfSnap, SortByKey, Group;
    out := [];
    ghost var done: nat := 0;
    assert GroupsBelow(records, 0, sorted) == [];
    for i := 0 to |snaps|
      invariant out == GroupsBelow(records, done, sorted)
      invariant done == (if i == 0 then 0 else snaps[i - 1] + 1) <= SNAPSHOTS
    {
      var snap := snaps[i];
      assert snap in snaps;
      assert forall j :: 0 <= j < |snaps| ==> snaps[j] < done || snap <= snaps[j];
      assert forall s: nat :: done <= s < snap ==> s !in snaps;
      GroupsGap(records, done, snap, sorted);
      SnapBound(records, snap);
      out := out + bySnap[snap];
      done := snap + 1;
    }
    assert forall j :: 0 <= j < |snaps| ==> snaps[j] < done;
    assert forall s: nat :: done <= s < SNAPSHOTS ==> s !in snaps;
    GroupsGap(records, done, SNAPSHOTS, sorted);
  }

  lemma SnapBound(rs: seq<Record>, snap: nat)
    requires OfSnap(rs, snap) != []
    ensures snap < SNAPSHOTS
  {
    OfSnapMembers(rs, snap);
    assert OfSnap(rs, snap)[0] in OfSnap(rs, snap);
  }

  method WriteLog(records: seq<Record>, maxSnap: nat) returns (out: seq<byte>)
    ensures out == LogFile(maxSnap, records)
  {
    hide LogBytes, Header;
    out := Header(MAGIC_LOG, maxSnap);
    for i := 0 to |records|
      invariant out == Header(MAGIC_LOG, maxSnap) + LogBody(records[..i])
    {
      var bytes := WriteTo(records[i]);
      assert records[..i + 1] == records[..i] + [records[i]];
      LogBodyAppend(records[..i], [records[i]]);
      assert LogBody([records[i]]) == LogBytes(records[i]);
      out := out + bytes;
    }
    assert records[..|records|] == records;
  }

  method ToLog(idx: seq<byte>) returns (r: Result<seq<byte>>)
    ensures r == LogOfBtree(idx)
  {
    hide OfSnap, SortByKey, GroupsBelow, LogFile;
    var header := ReadHeader(idx, MAGIC_IDX);
    if header.Err? { return Err(header.error); }
    var read := ReadFixed(idx[HEADER_SIZE..]);
    if read.Err? { return Err(read.error); }
    var records := read.value;
    var maxSnap := MaxSnap(records);
    var bySnap := GroupBySnap(records);
    var snaps := SortedSnaps(bySnap.Keys);
    var sorted := map s | s in bySnap :: SortByKey(bySnap[s]);
    var ordered := EmitGroups(records, sorted, snaps, true);
    var out := WriteLog(ordered, maxSnap);
    return Ok(out);
  }
}
