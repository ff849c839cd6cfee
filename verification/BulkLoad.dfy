/** Bulk loads: the split of pages over workers, the scan table, and the workers
    filling the output in any interleaving. */
module BulkLoad {
  import opened Words
  import opened Chunk
  import opened Index
  import opened Store
  import opened Reader

  /* ---- which worker fills which page ---- */

  datatype Part = Part(start: nat, take: nat)

  ghost predicate InPart(p: Part, i: nat) { p.start <= i < p.start + p.take }

  /** Consecutive non-empty ranges covering exactly [0, end). */
  ghost predicate Consecutive(parts: seq<Part>, end: nat) {
    if parts == [] then end == 0
    else
      var last := parts[|parts| - 1];
      last.take > 0 && last.start + last.take == end && Consecutive(parts[..|parts| - 1], last.start)
  }

  /** Every page belongs to exactly one worker. */
  lemma {:induction false} OneWorker(parts: seq<Part>, end: nat, i: nat)
    requires Consecutive(parts, end)
    ensures i < end ==> exists k :: 0 <= k < |parts| && InPart(parts[k], i)
    ensures i >= end ==> forall k :: 0 <= k < |parts| ==> !InPart(parts[k], i)
    ensures forall k, l :: 0 <= k < l < |parts| ==> !(InPart(parts[k], i) && InPart(parts[l], i))
  {
    if parts != [] {
      var front, last := parts[..|parts| - 1], parts[|parts| - 1];
      OneWorker(front, last.start, i);
      assert forall k :: 0 <= k < |front| ==> front[k] == parts[k];
      if i < last.start {
        var k :| 0 <= k < |front| && InPart(front[k], i);
        assert InPart(parts[k], i);
      } else if i < end {
        assert InPart(parts[|parts| - 1], i);
      }
    }
  }

  lemma {:induction false} PartsOrdered(parts: seq<Part>, end: nat, k: nat, l: nat)
    requires Consecutive(parts, end) && k < l < |parts|
    ensures parts[k].start + parts[k].take <= parts[l].start
  {
    var front, last := parts[..|parts| - 1], parts[|parts| - 1];
    if l < |front| { PartsOrdered(front, last.start, k, l); } else { PartEnds(front, last.start, k); }
  }

  lemma {:induction false} PartEnds(parts: seq<Part>, end: nat, k: nat)
    requires Consecutive(parts, end) && k < |parts|
    ensures parts[k].take > 0 && parts[k].start + parts[k].take <= end
  {
    if k < |parts| - 1 { PartEnds(parts[..|parts| - 1], parts[|parts| - 1].start, k); }
  }

  /** The loop that hands out `pages_per_worker` pages at a time. */
  method SplitPages(total: nat, workers: nat) returns (parts: seq<Part>)
    requires workers >= 1
    ensures Consecutive(parts, total) && |parts| <= workers
  {
    var perWorker := (total + workers - 1) / workers;
    assert perWorker * workers >= total;
    var cursor: nat := 0;
    parts := [];
    for k := 0 to workers
      invariant Consecutive(parts, cursor) && |parts| <= k && cursor <= total
      invariant cursor == total || cursor == perWorker * k
    {
      if cursor >= total { return; }
      var take := if perWorker < total - cursor then perWorker else total - cursor;
      assert perWorker * (k + 1) == perWorker * k + perWorker;
      assert (parts + [Part(cursor, take)])[..|parts|] == parts;
      parts := parts + [Part(cursor, take)];
      cursor := cursor + take;
    }
  }

  /* ---- the scan table ---- */

  /** One linear pass over the log keeps, per page, the floor record. */
  method ScanTable(log: seq<byte>, paOffset: nat, total: nat, snap: nat) returns (r: Result<seq<Option<Record>>>)
    requires snap < SNAPSHOTS
    ensures ReadLogFile(log).Err? ==> r == Err(ReadLogFile(log).error)
    ensures ReadLogFile(log).Ok? ==>
      && r.Ok? && |r.value| == total
      && forall i :: 0 <= i < total ==> r.value[i] == FloorRec(ReadLogFile(log).value, paOffset + i, snap)
  {
    hide ReadHeader, IndexOf, FloorRec, SnapOf, PaOf, SlotScan, ScanStep, ReadRecord;
    var header := ReadHeader(log, MAGIC_LOG);
    if header.Err? { return Err(header.error); }
    var table := new Option<Record>[total](_ => None);
    var rest := log[HEADER_SIZE..];
    ghost var read: seq<Record> := [];
    SlotStart(paOffset, snap);
    assert forall rs: seq<Record> :: read + rs == rs;
    while true
      invariant ParseLog(log[HEADER_SIZE..]) == Prepend(read, ParseLog(rest))
      invariant forall i :: 0 <= i < total ==> table[i] == SlotScan(read, paOffset, snap, i)
      decreases |rest|
    {
      match ReadRecord(rest) {
        case Eof =>
          assert read + [] == read;
          break;
        case Bad(e) =>
          return Err(e);
        case Got(rec, tail) =>
          assert forall rs: seq<Record> :: read + ([rec] + rs) == read + [rec] + rs;
          SlotExtends(read, rec, paOffset, snap);
          var pa := PaOf(rec.key);
          if paOffset <= pa < paOffset + total {
            var slot := pa - paOffset;
            table[slot] := ScanStep(table[slot], rec, pa, snap);
          }
          rest := tail;
          read := read + [rec];
      }
    }
    SlotEnd(log, read, paOffset, snap);
    return Ok(table[..]);
  }

  /** The scan's table entry for slot `i` after the records read so far. */
  ghost function SlotScan(read: seq<Record>, paOffset: nat, snap: nat, i: nat): Option<Record> {
    ScanLatest(read, paOffset + i, snap)
  }

  lemma SlotStart(paOffset: nat, snap: nat)
    ensures forall i: nat :: SlotScan([], paOffset, snap, i) == None
  {
  }

  lemma SlotExtends(read: seq<Record>, rec: Record, paOffset: nat, snap: nat)
    ensures forall i: nat ::
              SlotScan(read + [rec], paOffset, snap, i) ==
              if PaOf(rec.key) == paOffset + i
              then ScanStep(SlotScan(read, paOffset, snap, i), rec, paOffset + i, snap)
              else SlotScan(read, paOffset, snap, i)
  {
    assert (read + [rec])[..|read|] == read;
  }

  lemma SlotEnd(log: seq<byte>, rs: seq<Record>, paOffset: nat, snap: nat)
    requires ParseLogFile(log) == Ok(rs) && snap < SNAPSHOTS
    ensures forall i: nat :: SlotScan(rs, paOffset, snap, i) == FloorRec(IndexOf(rs), paOffset + i, snap)
  {
    hide ParseLogFile, ScanLatest, FloorRec, IndexOf;
    ParsedFileFits(log, rs);
    FittingRecords(rs);
    forall i: nat ensures SlotScan(rs, paOffset, snap, i) == FloorRec(IndexOf(rs), paOffset + i, snap) {
      FloorsAgree(rs, paOffset + i, snap);
    }
  }

  /* ---- the workers ---- */

  ghost predicate Reached(parts: seq<Part>, pos: seq<nat>, i: nat) {
    exists k :: 0 <= k < |parts| == |pos| && parts[k].start <= i < parts[k].start + pos[k]
  }

  /** Page cell `now` is what loading gives, given it was `before`. */
  ghost predicate Filled(load: Result<Option<Page>>, before: seq<byte>, now: seq<byte>) {
    match load
    case Ok(Some(p)) => now == p
    case Ok(None) => now == before
    case Err(_) => false
  }

  /** What `load_page` gives for the i-th page of the request. */
  ghost function PageLoad(store: PageStore, paOffset: nat, snap: nat, i: nat): Result<Option<Page>>
  {
    Load(store.codec, store.records, store.blobs, paOffset + i, snap)
  }

  /** One page of one worker: its record comes from the table or from a floor query. */
  method LoadOne(store: PageStore, latest: Option<seq<Option<Record>>>, i: nat, paOffset: nat, snap: nat,
                 cell: array<byte>) returns (r: Result<bool>)
    requires store.Valid() && store.Trouble().None? && snap < SNAPSHOTS && cell.Length == PAGE_SIZE
    requires latest.Some? ==> i < |latest.value| && latest.value[i] == FloorRec(store.records, paOffset + i, snap)
    modifies store`lazyIndex, cell
    ensures store.Valid()
    ensures match PageLoad(store, paOffset, snap, i)
      case Ok(Some(p)) => r == Ok(true) && cell[..] == p
      case Ok(None) => r == Ok(false) && cell[..] == old(cell[..])
      case Err(x) => r == Err(x)
  {
    hide FloorRec, Resolve, AfterResolve, Holds;
    var rec: Option<Record>;
    if latest.Some? {
      rec := latest.value[i];
    } else {
      var found := store.Floor(paOffset + i, snap);
      rec := found.value;
    }
    if rec.None? { return Ok(false); }
    var e := store.ResolveUncached(rec.value, cell);
    return if e.Some? then Err(e.value) else Ok(true);
  }

  /** Pages reached are as loading gives them; other pages that can be loaded are untouched. */
  ghost predicate AllFilled(store: PageStore, paOffset: nat, snap: nat, parts: seq<Part>, pos: seq<nat>,
                            before: seq<seq<byte>>, now: seq<seq<byte>>)
  {
    && |now| == |before|
    && (forall i: nat :: i < |now| && Reached(parts, pos, i) ==>
          Filled(PageLoad(store, paOffset, snap, i), before[i], now[i]))
    && (forall i: nat :: i < |now| && !Reached(parts, pos, i) && PageLoad(store, paOffset, snap, i).Ok? ==>
          now[i] == before[i])
  }

  ghost predicate Missing(store: PageStore, paOffset: nat, snap: nat, i: nat)
  {
    PageLoad(store, paOffset, snap, i) == Ok(None)
  }

  lemma ReachedStep(parts: seq<Part>, pos: seq<nat>, k: nat, i: nat)
    requires k < |parts| == |pos|
    ensures Reached(parts, pos[k := pos[k] + 1], i) <==> Reached(parts, pos, i) || i == parts[k].start + pos[k]
  {
    var next := pos[k := pos[k] + 1];
    if Reached(parts, pos, i) {
      var l :| 0 <= l < |parts| == |pos| && parts[l].start <= i < parts[l].start + pos[l];
      assert parts[l].start <= i < parts[l].start + next[l];
    }
    if i == parts[k].start + pos[k] { assert parts[k].start <= i < parts[k].start + next[k]; }
  }

  /** Once worker k and all before it have come as far as page `i`, all pages below are reached. */
  lemma ReachedBelow(parts: seq<Part>, pos: seq<nat>, total: nat, k: nat, i: nat)
    requires Consecutive(parts, total) && k < |parts| == |pos| && i < parts[k].start + pos[k] && pos[k] <= parts[k].take
    requires forall l :: 0 <= l < k ==> pos[l] == parts[l].take
    ensures i < total && Reached(parts, pos, i)
  {
    hide Consecutive;
    PartEnds(parts, total, k);
    OneWorker(parts, total, i);
    var l :| 0 <= l < |parts| && InPart(parts[l], i);
    if k < l { PartsOrdered(parts, total, k, l); }
    assert parts[l].start <= i < parts[l].start + pos[l];
  }

  ghost function Left(parts: seq<Part>, pos: seq<nat>): nat
    requires |pos| == |parts| && forall k :: 0 <= k < |parts| ==> pos[k] <= parts[k].take
  {
    if parts == [] then 0 else parts[0].take - pos[0] + Left(parts[1..], pos[1..])
  }

  lemma {:induction false} LeftStep(parts: seq<Part>, pos: seq<nat>, k: nat)
    requires |pos| == |parts| && forall j :: 0 <= j < |parts| ==> pos[j] <= parts[j].take
    requires k < |parts| && pos[k] < parts[k].take
    ensures Left(parts, pos[k := pos[k] + 1]) == Left(parts, pos) - 1
  {
    if k > 0 {
      LeftStep(parts[1..], pos[1..], k - 1);
      assert pos[k := pos[k] + 1][1..] == pos[1..][k - 1 := pos[1..][k - 1] + 1];
    }
  }

  lemma FilledStep(store: PageStore, paOffset: nat, snap: nat, parts: seq<Part>, pos: seq<nat>, k: nat,
                   before: seq<seq<byte>>, now: seq<seq<byte>>, cell: seq<byte>)
    requires AllFilled(store, paOffset, snap, parts, pos, before, now)
    requires k < |parts| == |pos| && parts[k].start + pos[k] < |now|
    requires var i := parts[k].start + pos[k];
      PageLoad(store, paOffset, snap, i).Ok? && cell ==
        match PageLoad(store, paOffset, snap, i).value case Some(p) => p case None => now[i]
    ensures AllFilled(store, paOffset, snap, parts, pos[k := pos[k] + 1], before, now[parts[k].start + pos[k] := cell])
  {
    hide PageLoad, Reached;
    var at := parts[k].start + pos[k];
    forall i: nat | i < |now|
      ensures Reached(parts, pos[k := pos[k] + 1], i) <==> Reached(parts, pos, i) || i == at
    {
      ReachedStep(parts, pos, k, i);
    }
    var was := now[at];
    assert Reached(parts, pos, at) ==> Filled(PageLoad(store, paOffset, snap, at), before[at], was);
  }

  /** One worker loads its next page into the output. A page that cannot be
      loaded may be left half written; no other page changes. */
  method TakePage(store: PageStore, latest: Option<seq<Option<Record>>>, paOffset: nat, snap: nat, parts: seq<Part>,
                  pos: seq<nat>, k: nat, out: array<seq<byte>>, ghost before: seq<seq<byte>>)
    returns (found: Result<bool>)
    requires store.Valid() && store.Trouble().None? && snap < SNAPSHOTS
    requires k < |parts| == |pos| && parts[k].start + pos[k] < out.Length
    requires latest.Some? ==> |latest.value| == out.Length
    requires latest.Some? ==>
      forall i :: 0 <= i < out.Length ==> latest.value[i] == FloorRec(store.records, paOffset + i, snap)
    requires AllFilled(store, paOffset, snap, parts, pos, before, out[..])
    requires !Reached(parts, pos, parts[k].start + pos[k])
    modifies store`lazyIndex, out
    ensures store.Valid()
    ensures forall i :: 0 <= i < out.Length && i != parts[k].start + pos[k] ==> out[i] == old(out[i])
    ensures match PageLoad(store, paOffset, snap, parts[k].start + pos[k])
      case Ok(p) => found == Ok(p.Some?)
      case Err(e) => found == Err(e)
    ensures AllFilled(store, paOffset, snap, parts, if found.Ok? then pos[k := pos[k] + 1] else pos, before, out[..])
  {
    hide Reached, FloorRec, Load;
    var i := parts[k].start + pos[k];
    ghost var was := out[..];
    var cell := new byte[PAGE_SIZE](_ => 0);
    found := LoadOne(store, latest, i, paOffset, snap, cell);
    if found.Ok? {
      hide AllFilled;
      FilledStep(store, paOffset, snap, parts, pos, k, before, was, if found.value then cell[..] else was[i]);
    }
    if found != Ok(false) { out[i] := cell[..]; }
    assert out[..] == was[i := if found != Ok(false) then cell[..] else was[i]];
  }

  /** Each worker is running, has filled its part, or has stopped at a page that fails. */
  ghost predicate WorkersOk(store: PageStore, paOffset: nat, snap: nat, parts: seq<Part>, pos: seq<nat>,
                            running: set<nat>, failed: map<nat, Error>)
  {
    && |pos| == |parts| && (forall k :: 0 <= k < |parts| ==> pos[k] <= parts[k].take)
    && (forall k :: k in running ==> k < |parts| && k !in failed)
    && (forall k :: 0 <= k < |parts| && k !in running && k !in failed ==> pos[k] == parts[k].take)
    && (forall k :: k in failed ==>
          && k < |parts| && pos[k] < parts[k].take
          && PageLoad(store, paOffset, snap, parts[k].start + pos[k]) == Err(failed[k]))
  }

  /** The shared flag is down exactly when a missing page has been met. */
  ghost predicate FlagOk(store: PageStore, paOffset: nat, snap: nat, parts: seq<Part>, pos: seq<nat>, total: nat,
                         success: bool)
  {
    success <==> forall i: nat :: i < total && Reached(parts, pos, i) ==> !Missing(store, paOffset, snap, i)
  }

  lemma FlagStep(store: PageStore, paOffset: nat, snap: nat, parts: seq<Part>, pos: seq<nat>, k: nat, total: nat,
                 success: bool)
    requires k < |parts| == |pos| && parts[k].start + pos[k] < total
    requires PageLoad(store, paOffset, snap, parts[k].start + pos[k]).Ok?
    requires FlagOk(store, paOffset, snap, parts, pos, total, success)
    ensures FlagOk(store, paOffset, snap, parts, pos[k := pos[k] + 1], total,
                   success && PageLoad(store, paOffset, snap, parts[k].start + pos[k]).value.Some?)
  {
    hide PageLoad, Reached;
    forall j: nat
      ensures Reached(parts, pos[k := pos[k] + 1], j) <==> Reached(parts, pos, j) || j == parts[k].start + pos[k]
    {
      ReachedStep(parts, pos, k, j);
    }
    var at := parts[k].start + pos[k];
    assert Missing(store, paOffset, snap, at) <==> PageLoad(store, paOffset, snap, at).value.None?;
  }

  lemma WorkerStops(store: PageStore, paOffset: nat, snap: nat, parts: seq<Part>, pos: seq<nat>, running: set<nat>,
                    failed: map<nat, Error>, k: nat)
    requires WorkersOk(store, paOffset, snap, parts, pos, running, failed) && k in running
    ensures k < |parts|
    ensures pos[k] == parts[k].take ==> WorkersOk(store, paOffset, snap, parts, pos, running - {k}, failed)
    ensures pos[k] < parts[k].take ==> forall e ::
      PageLoad(store, paOffset, snap, parts[k].start + pos[k]) == Err(e) ==>
        WorkersOk(store, paOffset, snap, parts, pos, running - {k}, failed[k := e])
  {
    hide PageLoad;
  }

  lemma WorkerMoves(store: PageStore, paOffset: nat, snap: nat, parts: seq<Part>, pos: seq<nat>, running: set<nat>,
                    failed: map<nat, Error>, k: nat)
    requires WorkersOk(store, paOffset, snap, parts, pos, running, failed)
    requires k in running && k < |parts| && pos[k] < parts[k].take
    ensures WorkersOk(store, paOffset, snap, parts, pos[k := pos[k] + 1], running, failed)
  {
    hide PageLoad;
    var next := pos[k := pos[k] + 1];
    forall l | l in failed ensures next[l] == pos[l] {}
    forall l | 0 <= l < |parts| && l !in running && l !in failed ensures next[l] == pos[l] {}
  }

  /** Workers fill their parts in any interleaving, each until its first page that cannot be loaded. */
  method RunWorkers(store: PageStore, parts: seq<Part>, latest: Option<seq<Option<Record>>>, paOffset: nat, snap: nat,
                    out: array<seq<byte>>) returns (ghost pos: seq<nat>, failed: map<nat, Error>, success: bool)
    requires store.Valid() && store.Trouble().None? && snap < SNAPSHOTS && Consecutive(parts, out.Length)
    requires latest.Some? ==> |latest.value| == out.Length
    requires latest.Some? ==>
      forall i :: 0 <= i < out.Length ==> latest.value[i] == FloorRec(store.records, paOffset + i, snap)
    modifies store`lazyIndex, out
    ensures store.Valid() && WorkersOk(store, paOffset, snap, parts, pos, {}, failed)
    ensures AllFilled(store, paOffset, snap, parts, pos, old(out[..]), out[..])
    ensures FlagOk(store, paOffset, snap, parts, pos, out.Length, success)
  {
    hide PageLoad, Reached, AllFilled, Consecutive, FloorRec, Holds, FlagOk, Left, Load, WorkersOk, Missing,
      InPart, Leaves;
    ghost var before := out[..];
    var at: seq<nat> := seq(|parts|, _ => 0);
    var running: set<nat> := {};
    for k := 0 to |parts|
      invariant forall j :: j in running <==> 0 <= j < k
    {
      running := running + {k};
    }
    failed, success := map[], true;
    NothingReached(store, parts, at, running, out[..], paOffset, snap);
    while running != {}
      invariant |at| == |parts| && forall k :: 0 <= k < |parts| ==> at[k] <= parts[k].take
      invariant WorkersOk(store, paOffset, snap, parts, at, running, failed)
      invariant store.Valid() && AllFilled(store, paOffset, snap, parts, at, before, out[..])
      invariant FlagOk(store, paOffset, snap, parts, at, out.Length, success)
      decreases Left(parts, at), running
    {
      var k: nat :| k in running;
      WorkerStops(store, paOffset, snap, parts, at, running, failed, k);
      if at[k] == parts[k].take {
        running := running - {k};
      } else {
        PartInside(parts, out.Length, k, parts[k].start + at[k]);
        NotYetReached(parts, at, out.Length, k);
        var found := TakePage(store, latest, paOffset, snap, parts, at, k, out, before);
        if found.Err? {
          failed := failed[k := found.error];
          running := running - {k};
        } else {
          LeftStep(parts, at, k);
          WorkerMoves(store, paOffset, snap, parts, at, running, failed, k);
          FlagStep(store, paOffset, snap, parts, at, k, out.Length, success);
          success := success && found.value;
          at := at[k := at[k] + 1];
        }
      }
    }
    pos := at;
  }

  /** The threads are joined in order, so the error reported is that of the lowest
      page that fails, and all pages below it are done. Without one, page i ends
      as `load_page` gives it, pages without a version keep their content, and
      the result is true exactly when there is no such page. */
  method FillPages(store: PageStore, parts: seq<Part>, latest: Option<seq<Option<Record>>>, paOffset: nat, snap: nat,
                   out: array<seq<byte>>) returns (r: Result<bool>)
    requires store.Valid() && store.Trouble().None? && snap < SNAPSHOTS && Consecutive(parts, out.Length)
    requires latest.Some? ==> |latest.value| == out.Length
    requires latest.Some? ==>
      forall i :: 0 <= i < out.Length ==> latest.value[i] == FloorRec(store.records, paOffset + i, snap)
    modifies store`lazyIndex, out
    ensures store.Valid() && BulkOutcome(store, paOffset, snap, old(out[..]), out[..], r)
  {
    hide PageLoad, Reached, AllFilled, Consecutive, FloorRec, Filled, Holds;
    ghost var before := out[..];
    ghost var pos;
    var failed, success;
    pos, failed, success := RunWorkers(store, parts, latest, paOffset, snap, out);
    for k := 0 to |parts|
      invariant forall l :: 0 <= l < k ==> l !in failed
    {
      if k in failed {
        FailedBulk(store, parts, pos, before, out[..], paOffset, snap, k, failed[k]);
        return Err(failed[k]);
      }
    }
    FinalPages(store, parts, pos, before, out[..], paOffset, snap);
    return Ok(success);
  }

  /** What a bulk load leaves behind and reports. */
  ghost predicate BulkOutcome(store: PageStore, paOffset: nat, snap: nat, before: seq<seq<byte>>, now: seq<seq<byte>>,
                              r: Result<bool>)
  {
    && |now| == |before|
    && match r
       case Ok(all) =>
         && (forall i: nat :: i < |now| ==> Filled(PageLoad(store, paOffset, snap, i), before[i], now[i]))
         && (all <==> forall i: nat :: i < |now| ==> !Missing(store, paOffset, snap, i))
       case Err(e) => exists f: nat :: LowestFailure(store, paOffset, snap, before, now, f, e)
  }

  /** Page `f` fails with `e`, all pages below are loaded, and those above are loaded,
      untouched or fail themselves. */
  ghost predicate LowestFailure(store: PageStore, paOffset: nat, snap: nat, before: seq<seq<byte>>, now: seq<seq<byte>>,
                                f: nat, e: Error)
  {
    && f < |now| == |before|
    && PageLoad(store, paOffset, snap, f) == Err(e)
    && (forall i: nat :: i < f ==> Filled(PageLoad(store, paOffset, snap, i), before[i], now[i]))
    && (forall i: nat :: f < i < |now| && PageLoad(store, paOffset, snap, i).Ok? ==>
          now[i] == before[i] || Filled(PageLoad(store, paOffset, snap, i), before[i], now[i]))
  }

  lemma FailedBulk(store: PageStore, parts: seq<Part>, pos: seq<nat>, before: seq<seq<byte>>, now: seq<seq<byte>>,
                   paOffset: nat, snap: nat, k: nat, e: Error)
    requires Consecutive(parts, |now|) && k < |parts| == |pos| && pos[k] < parts[k].take
    requires forall l :: 0 <= l < k ==> pos[l] == parts[l].take
    requires AllFilled(store, paOffset, snap, parts, pos, before, now)
    requires PageLoad(store, paOffset, snap, parts[k].start + pos[k]) == Err(e)
    ensures LowestFailure(store, paOffset, snap, before, now, parts[k].start + pos[k], e)
  {
    hide PageLoad, Reached, Consecutive, Filled;
    var f := parts[k].start + pos[k];
    PartInside(parts, |now|, k, f);
    forall i: nat | i < f ensures Reached(parts, pos, i) { ReachedBelow(parts, pos, |now|, k, i); }
  }

  lemma NotYetReached(parts: seq<Part>, pos: seq<nat>, total: nat, k: nat)
    requires Consecutive(parts, total) && k < |parts| == |pos| && pos[k] < parts[k].take
    requires forall l :: 0 <= l < |parts| ==> pos[l] <= parts[l].take
    ensures !Reached(parts, pos, parts[k].start + pos[k])
  {
    hide Consecutive;
    OneWorker(parts, total, parts[k].start + pos[k]);
    assert InPart(parts[k], parts[k].start + pos[k]);
    forall l | 0 <= l < |parts| && l != k ensures !InPart(parts[l], parts[k].start + pos[k]) {}
  }

  lemma NothingReached(store: PageStore, parts: seq<Part>, pos: seq<nat>, running: set<nat>, before: seq<seq<byte>>,
                       paOffset: nat, snap: nat)
    requires |pos| == |parts| && forall k :: 0 <= k < |pos| ==> pos[k] == 0
    requires forall k :: k in running <==> 0 <= k < |parts|
    ensures WorkersOk(store, paOffset, snap, parts, pos, running, map[])
    ensures AllFilled(store, paOffset, snap, parts, pos, before, before)
    ensures FlagOk(store, paOffset, snap, parts, pos, |before|, true)
  {
  }

  lemma PartInside(parts: seq<Part>, total: nat, k: nat, i: nat)
    requires Consecutive(parts, total) && k < |parts| && InPart(parts[k], i)
    ensures i < total
  {
    OneWorker(parts, total, i);
  }

  lemma FinalPages(store: PageStore, parts: seq<Part>, pos: seq<nat>, before: seq<seq<byte>>, now: seq<seq<byte>>,
                   paOffset: nat, snap: nat)
    requires Consecutive(parts, |now|) && |pos| == |parts| && forall k :: 0 <= k < |parts| ==> pos[k] == parts[k].take
    requires AllFilled(store, paOffset, snap, parts, pos, before, now)
    ensures |before| == |now|
    ensures forall i: nat :: i < |now| ==>
      Reached(parts, pos, i) && Filled(PageLoad(store, paOffset, snap, i), before[i], now[i])
  {
    hide PageLoad, Consecutive, Filled;
    forall i: nat | i < |now| ensures Reached(parts, pos, i) {
      OneWorker(parts, |now|, i);
      var k :| 0 <= k < |parts| && InPart(parts[k], i);
      assert parts[k].start <= i < parts[k].start + pos[k];
    }
  }

  /** `load_all_pages` in either mode: a table from the log, or a floor query per page. */
  method LoadAllPages(store: PageStore, paOffset: nat, snap: nat, workers: nat, out: array<seq<byte>>)
    returns (r: Result<bool>)
    requires store.Valid()
    modifies store`lazyIndex, out
    ensures store.Valid()
    ensures snap > MAX_SNAPSHOT_ID ==> r == Err(SnapshotTooLarge) && out[..] == old(out[..])
    ensures snap <= MAX_SNAPSHOT_ID && store.Trouble().Some? ==>
      r == Err(store.Trouble().value) && out[..] == old(out[..])
    ensures snap <= MAX_SNAPSHOT_ID && store.Trouble().None? ==>
      BulkOutcome(store, paOffset, snap, old(out[..]), out[..], r)
  {
    hide BulkOutcome, Consecutive, FloorRec, ReadLogFile, IsIndexFile;
    if snap > MAX_SNAPSHOT_ID { return Err(SnapshotTooLarge); }
    var parts := SplitPages(out.Length, if workers < 1 then 1 else workers);
    match store.source {
      case BTree(_, _) =>
        r := FillPages(store, parts, None, paOffset, snap, out);
      case AppendOnly(log) =>
        var latest := ScanTable(log, paOffset, out.Length, snap);
        if latest.Err? { return Err(latest.error); }
        r := FillPages(store, parts, Some(latest.value), paOffset, snap, out);
    }
  }
}
