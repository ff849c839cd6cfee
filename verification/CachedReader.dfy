/** Loading through the shared cache: any number of readers, interleaved at
    every cache access, get what an uncached load would give. */
module CachedReader {
  import opened Words
  import opened Chunk
  import opened Patch
  import opened Index
  import opened Store
  import opened Cache
  import opened SharedCache
  import opened Reader

  /** An unchanging store, as all readers see it. */
  datatype View = View(codec: Codec, records: seq<Record>, blobs: Blobs)

  /** Where one reader stands in resolving a record. */
  datatype Progress =
    | Idle
    | Wanting(rec: Record)
    | Missed(rec: Record)
    | Fetched(rec: Record, buf: Page)
    | HasPage(rec: Record, buf: Page)
    | Finished(rec: Record, result: Result<Page>)

  datatype World = World(cache: Sets, readers: seq<Progress>)

  datatype Move = Begin(rec: Record) | Lookup | Fetch | Insert | Finish

  /** The key a record needs from the cache: its own if Full, its base's if Delta. */
  function CacheKey(r: Record): nat { if r.kind == Delta then r.baseKey else r.key }

  /** The Full page behind that key, straight from the store. */
  function FetchPage(v: View, r: Record): Result<Page> {
    if r.kind == Delta then BasePage(v.codec, v.records, v.blobs, r.baseKey) else Decompress(v.codec, v.blobs, r)
  }

  function Complete(v: View, r: Record, buf: Page): Result<Page> {
    if r.kind == Delta then PatchOver(v.blobs, r, Ok(buf)) else Ok(buf)
  }

  ghost predicate CanMove(v: View, w: World, i: nat, m: Move) {
    && i < |w.readers|
    && match m
       case Begin(rec) => First(v.records, rec.key) == Some(rec)
       case Lookup => w.readers[i].Wanting?
       case Fetch => w.readers[i].Missed?
       case Insert => w.readers[i].Fetched?
       case Finish => w.readers[i].HasPage?
  }

  /** One move of reader `i`; `Lookup` and `Insert` are the cache's critical sections. */
  ghost function MoveTo(v: View, w: World, i: nat, m: Move): World
    requires CanMove(v, w, i, m)
  {
    var p := w.readers[i];
    match m
    case Begin(rec) =>
      w.(readers := w.readers[i := if rec.kind == Zero then Finished(rec, Ok(ZeroPage())) else Wanting(rec)])
    case Lookup =>
      var (hit, cache) := CacheGet(w.cache, CacheKey(p.rec));
      World(cache, w.readers[i := match hit
        case Some(page) => if |page| == PAGE_SIZE then HasPage(p.rec, page) else Missed(p.rec)
        case None => Missed(p.rec)])
    case Fetch =>
      w.(readers := w.readers[i := match FetchPage(v, p.rec)
        case Ok(page) => Fetched(p.rec, page)
        case Err(e) => Finished(p.rec, Err(e))])
    case Insert => World(CachePut(w.cache, CacheKey(p.rec), p.buf), w.readers[i := HasPage(p.rec, p.buf)])
    case Finish => w.(readers := w.readers[i := Finished(p.rec, Complete(v, p.rec, p.buf))])
  }

  ghost predicate WorldRuns(v: View, w: World, moves: seq<(nat, Move)>, w': World)
    decreases |moves|
  {
    if moves == [] then w == w'
    else CanMove(v, w, moves[0].0, moves[0].1) && WorldRuns(v, MoveTo(v, w, moves[0].0, moves[0].1), moves[1..], w')
  }

  /* ---- what every interleaving keeps ---- */

  /** The tag names a Full record and the page is that record decompressed. */
  ghost predicate GoodPage(v: View, key: nat, page: seq<byte>) {
    match First(v.records, key)
    case None => false
    case Some(r) => r.kind == Full && Decompress(v.codec, v.blobs, r) == Ok(page)
  }

  ghost predicate CacheGood(v: View, c: Sets) {
    forall i, w :: 0 <= i < TOTAL_SETS && 0 <= w < WAYS && c[i].ids[w] != EMPTY_KEY ==>
      GoodPage(v, c[i].ids[w], c[i].pages[w])
  }

  ghost predicate ReaderGood(v: View, p: Progress) {
    match p
    case Idle => true
    case Wanting(rec) => rec.kind != Zero && First(v.records, rec.key) == Some(rec)
    case Missed(rec) => rec.kind != Zero && First(v.records, rec.key) == Some(rec)
    case Fetched(rec, buf) =>
      rec.kind != Zero && First(v.records, rec.key) == Some(rec) && GoodPage(v, CacheKey(rec), buf)
    case HasPage(rec, buf) =>
      rec.kind != Zero && First(v.records, rec.key) == Some(rec) && GoodPage(v, CacheKey(rec), buf)
    case Finished(rec, result) => result == Resolve(v.codec, v.records, v.blobs, rec)
  }

  ghost predicate WorldGood(v: View, w: World) {
    CacheGood(v, w.cache) && forall i :: 0 <= i < |w.readers| ==> ReaderGood(v, w.readers[i])
  }

  lemma GetIsGood(v: View, c: Sets, key: nat)
    requires CacheGood(v, c)
    ensures CacheGood(v, CacheGet(c, key).1)
    ensures CacheGet(c, key).0.Some? ==> GoodPage(v, key, CacheGet(c, key).0.value)
  {
    hide GoodPage, SetIndex;
  }

  lemma PutIsGood(v: View, c: Sets, key: nat, page: seq<byte>)
    requires CacheGood(v, c) && (key != EMPTY_KEY ==> GoodPage(v, key, page))
    ensures CacheGood(v, CachePut(c, key, page))
  {
    hide GoodPage, SetIndex, Target;
  }

  /** What the store gives for the cache key is a good page, or the load's own error. */
  lemma FetchIsGood(v: View, r: Record)
    requires r.kind != Zero && First(v.records, r.key) == Some(r)
    ensures match FetchPage(v, r)
      case Ok(page) => GoodPage(v, CacheKey(r), page)
      case Err(e) => Resolve(v.codec, v.records, v.blobs, r) == Err(e)
  {
    hide First, Decompress;
  }

  lemma FinishIsGood(v: View, r: Record, buf: Page)
    requires r.kind != Zero && First(v.records, r.key) == Some(r) && GoodPage(v, CacheKey(r), buf)
    ensures Complete(v, r, buf) == Resolve(v.codec, v.records, v.blobs, r)
  {
    hide First, Decompress, ReadBlob;
  }

  lemma MoveGood(v: View, w: World, i: nat, m: Move)
    requires WorldGood(v, w) && CanMove(v, w, i, m)
    ensures WorldGood(v, MoveTo(v, w, i, m))
  {
    hide CacheGood, CacheGet, CachePut, GoodPage, FetchPage, Complete, Resolve, First;
    var p := w.readers[i];
    assert ReaderGood(v, p);
    match m {
      case Begin(_) => ZeroResolves(v, m.rec);
      case Lookup => GetIsGood(v, w.cache, CacheKey(p.rec));
      case Fetch => FetchIsGood(v, p.rec);
      case Insert => PutIsGood(v, w.cache, CacheKey(p.rec), p.buf);
      case Finish => FinishIsGood(v, p.rec, p.buf);
    }
  }

  lemma ZeroResolves(v: View, r: Record)
    ensures r.kind == Zero ==> Resolve(v.codec, v.records, v.blobs, r) == Ok(ZeroPage())
  {
  }

  lemma {:induction false} RunGood(v: View, w: World, moves: seq<(nat, Move)>, w': World)
    requires WorldGood(v, w) && WorldRuns(v, w, moves, w')
    ensures WorldGood(v, w')
    decreases |moves|
  {
    hide WorldGood, MoveTo, CanMove;
    if moves != [] {
      MoveGood(v, w, moves[0].0, moves[0].1);
      RunGood(v, MoveTo(v, w, moves[0].0, moves[0].1), moves[1..], w');
    }
  }

  /** From an empty cache, under every interleaving of any number of readers:
      each finished load gave exactly what an uncached load gives. */
  lemma CacheIsInvisible(v: View, w: World, moves: seq<(nat, Move)>, w': World, i: nat)
    requires IsFresh(w.cache) && (forall j :: 0 <= j < |w.readers| ==> w.readers[j].Idle?)
    requires WorldRuns(v, w, moves, w') && i < |w'.readers| && w'.readers[i].Finished?
    ensures w'.readers[i].result == Resolve(v.codec, v.records, v.blobs, w'.readers[i].rec)
  {
    hide Resolve;
    FreshIsGood(v, w.cache);
    RunGood(v, w, moves, w');
    assert ReaderGood(v, w'.readers[i]);
  }

  lemma FreshIsGood(v: View, c: Sets)
    requires IsFresh(c)
    ensures CacheGood(v, c)
  {
    hide GoodPage;
    forall i, w | 0 <= i < TOTAL_SETS && 0 <= w < WAYS ensures c[i].ids[w] == EMPTY_KEY {
      assert c[i] == EmptySet(c[i].pages);
    }
  }

  /* ---- what the cache is for ---- */

  /** A get of the key would hit. */
  ghost predicate Held(c: Sets, key: nat) { CacheGet(c, key).0.Some? }

  lemma HeldAfterGet(c: Sets, key: nat)
    ensures Held(CacheGet(c, key).1, key) <==> Held(c, key)
  {
    hide SetIndex, UpdateLru;
  }

  lemma HeldAfterPut(c: Sets, key: nat, page: seq<byte>)
    ensures Held(CachePut(c, key, page), key) <==> key != EMPTY_KEY
  {
    hide SetIndex, SetPut, SetGet;
    if key != EMPTY_KEY { SetPutThenGet(c[SetIndex(key)], key, page); }
  }

  /* ---- the code's critical sections are the cache's moves ---- */

  lemma ShowsAfter(region: Region, c: Sets, c': Sets, key: nat, s': CacheSet)
    requires region.Valid() && Sized(s') && c' == c[SetIndex(key) := s']
    requires region.SetAt(Locate(key).0, Locate(key).1) == s'
    requires forall m: nat, s: nat :: m < METADATA_PAGES && s < SETS_PER_META && (m, s) != Locate(key) ==>
      c[SetNumber(m, s)] == region.SetAt(m, s)
    ensures region.Shows(c')
  {
    hide Locate, SetNumber;
    forall m: nat, s: nat | m < METADATA_PAGES && s < SETS_PER_META ensures c'[SetNumber(m, s)] == region.SetAt(m, s) {
      if SetNumber(m, s) == SetIndex(key) { SetNumberUnique(m, s, Locate(key).0, Locate(key).1); }
    }
  }

  /** `cache.get` on the region is `CacheGet` on the sets it holds. */
  method Recall(region: Region, key: nat, out: array<byte>, ghost c: Sets) returns (hit: bool, ghost c': Sets)
    requires region.Shows(c) && out.Length == PAGE_SIZE
    modifies region.meta, out
    ensures region.Shows(c') && (if hit then Some(out[..]) else None, c') == CacheGet(c, key)
    ensures !hit ==> out[..] == old(out[..])
  {
    hide Locate, SetNumber, FindWay;
    hit := region.GetPage(key, out);
    c' := CacheGet(c, key).1;
    if key != EMPTY_KEY {
      ShowsAfter(region, c, c', key, SetGet(c[SetIndex(key)], key).1);
    }
  }

  /** `cache.put` on the region is `CachePut` on the sets it holds. */
  method Remember(region: Region, key: nat, page: Page, ghost c: Sets) returns (ghost c': Sets)
    requires region.Shows(c)
    modifies region.meta, region.data
    ensures region.Shows(c') && c' == CachePut(c, key, page)
  {
    hide Locate, SetNumber, Target;
    region.PutPage(key, page);
    c' := CachePut(c, key, page);
    if key != EMPTY_KEY {
      ShowsAfter(region, c, c', key, SetPut(c[SetIndex(key)], key, page));
    }
  }

  /** Reader `i`, and no other, has made these moves. */
  ghost predicate Ran(v: View, w: World, moves: seq<(nat, Move)>, w': World, i: nat) {
    && WorldRuns(v, w, moves, w') && |w'.readers| == |w.readers|
    && forall j :: 0 <= j < |w.readers| && j != i ==> w'.readers[j] == w.readers[j]
  }

  lemma {:induction false} WorldRunsAppend(v: View, w: World, moves: seq<(nat, Move)>, mid: World, i: nat, m: Move)
    requires WorldRuns(v, w, moves, mid) && CanMove(v, mid, i, m)
    ensures WorldRuns(v, w, moves + [(i, m)], MoveTo(v, mid, i, m))
    decreases |moves|
  {
    hide CanMove, MoveTo;
    if moves == [] {
      assert [(i, m)][1..] == [];
    } else {
      WorldRunsAppend(v, MoveTo(v, w, moves[0].0, moves[0].1), moves[1..], mid, i, m);
      assert (moves + [(i, m)])[1..] == moves[1..] + [(i, m)];
    }
  }

  /** One more move of reader `i`. */
  lemma OneMove(v: View, w: World, moves: seq<(nat, Move)>, mid: World, i: nat, m: Move)
    requires Ran(v, w, moves, mid, i) && CanMove(v, mid, i, m)
    ensures Ran(v, w, moves + [(i, m)], MoveTo(v, mid, i, m), i)
  {
    hide WorldRuns, CacheGet, CachePut, FetchPage, Complete;
    WorldRunsAppend(v, w, moves, mid, i, m);
  }

  ghost function ViewOf(store: PageStore): View {
    View(store.codec, store.records, store.blobs)
  }

  /** After a miss: the page behind the cache key is fetched from the store, and inserted. */
  method Refill(store: PageStore, region: Region, key: nat, e: Option<Error>, out: array<byte>,
                ghost rec: Record, ghost w: World, ghost moves: seq<(nat, Move)>, ghost mid: World, ghost i: nat)
    returns (ghost moves': seq<(nat, Move)>, ghost w': World)
    requires region.Shows(mid.cache) && CacheGood(ViewOf(store), mid.cache) && out.Length == PAGE_SIZE
    requires Ran(ViewOf(store), w, moves, mid, i) && i < |mid.readers| && mid.readers[i] == Missed(rec)
    requires rec.kind != Zero && First(store.records, rec.key) == Some(rec) && key == CacheKey(rec)
    requires FetchPage(ViewOf(store), rec) == if e.None? then Ok(out[..]) else Err(e.value)
    modifies region.meta, region.data
    ensures region.Shows(w'.cache) && CacheGood(ViewOf(store), w'.cache)
    ensures Ran(ViewOf(store), w, moves', w', i)
    ensures w'.readers[i] == if e.None? then HasPage(rec, out[..]) else Finished(rec, Err(e.value))
    ensures e.None? && key != EMPTY_KEY ==> Held(w'.cache, key)
  {
    hide WorldRuns, CacheGood, CachePut, FetchPage, First, GoodPage, Complete, Held;
    ghost var v := ViewOf(store);
    FetchIsGood(v, rec);
    OneMove(v, w, moves, mid, i, Fetch);
    moves', w' := moves + [(i, Fetch)], MoveTo(v, mid, i, Fetch);
    if e.None? {
      ghost var c := Remember(region, key, out[..], w'.cache);
      PutIsGood(v, w'.cache, key, out[..]);
      HeldAfterPut(w'.cache, key, out[..]);
      OneMove(v, w, moves', w', i, Insert);
      moves', w' := moves' + [(i, Insert)], MoveTo(v, w', i, Insert);
    }
  }

  /** `load_full_cached`: the Full base of a Delta, by way of the cache. */
  method LoadFullCached(store: PageStore, region: Region, key: nat, out: array<byte>, ghost rec: Record, ghost w: World,
                        ghost moves: seq<(nat, Move)>, ghost mid: World, ghost i: nat)
    returns (e: Option<Error>, ghost moves': seq<(nat, Move)>, ghost w': World)
    requires store.Valid() && region.Shows(mid.cache) && CacheGood(ViewOf(store), mid.cache) && out.Length == PAGE_SIZE
    requires Ran(ViewOf(store), w, moves, mid, i) && i < |mid.readers| && mid.readers[i] == Wanting(rec)
    requires rec.kind == Delta && First(store.records, rec.key) == Some(rec) && key == rec.baseKey
    modifies store`lazyIndex, region.meta, region.data, out
    ensures store.Valid() && region.Shows(w'.cache) && CacheGood(ViewOf(store), w'.cache)
    ensures Ran(ViewOf(store), w, moves', w', i)
    ensures w'.readers[i] == if e.None? then HasPage(rec, out[..]) else Finished(rec, Err(e.value))
    ensures match BasePage(store.codec, store.records, store.blobs, key)
      case Ok(p) => e == None && out[..] == p
      case Err(x) => e == Some(x)
    ensures Leaves(out[..], AfterBase(store.codec, store.records, store.blobs, key, old(out[..])))
    ensures e.None? && key != EMPTY_KEY ==> Held(w'.cache, key)
    ensures Held(mid.cache, key) ==> e == None && moves' == moves + [(i, Lookup)]
  {
    hide First, Decompress, CacheGood, CacheGet, Holds, WorldRuns, CachePut, Complete;
    ghost var v := ViewOf(store);
    GetIsGood(v, mid.cache, key);
    HeldAfterGet(mid.cache, key);
    ghost var c;
    var hit;
    hit, c := Recall(region, key, out, mid.cache);
    OneMove(v, w, moves, mid, i, Lookup);
    moves', w' := moves + [(i, Lookup)], MoveTo(v, mid, i, Lookup);
    if hit { return None, moves', w'; }
    RecordsNoTrouble(store, rec.key);
    var looked := store.ExactLookup(key);
    var base := looked.value;
    if base.None? {
      e := Some(BaseMissing);
    } else if base.value.kind != Full {
      e := Some(BaseNotFull);
    } else {
      e := store.DecompressInto(base.value, out);
    }
    moves', w' := Refill(store, region, key, e, out, rec, w, moves', w', i);
  }

  /** The cached resolution equals the uncached one, although the patch of a Delta is
      applied in place to the buffer that was just cached; and what the code does to
      the region are moves of reader `i`. */
  method ResolveCached(store: PageStore, region: Region, rec: Record, out: array<byte>, ghost w: World, ghost i: nat)
    returns (e: Option<Error>, ghost moves: seq<(nat, Move)>, ghost w': World)
    requires store.Valid() && region.Shows(w.cache) && CacheGood(ViewOf(store), w.cache) && out.Length == PAGE_SIZE
    requires First(store.records, rec.key) == Some(rec) && i < |w.readers|
    modifies store`lazyIndex, region.meta, region.data, out
    ensures store.Valid() && region.Shows(w'.cache) && CacheGood(ViewOf(store), w'.cache)
    ensures Ran(ViewOf(store), w, moves, w', i)
    ensures w'.readers[i] == Finished(rec, if e.None? then Ok(out[..]) else Err(e.value))
    ensures match Resolve(store.codec, store.records, store.blobs, rec)
      case Ok(p) => e == None && out[..] == p
      case Err(x) => e == Some(x)
    ensures Leaves(out[..], AfterResolve(store.codec, store.records, store.blobs, rec, old(out[..])))
    ensures e.None? && rec.kind != Zero && CacheKey(rec) != EMPTY_KEY ==> Held(w'.cache, CacheKey(rec))
    ensures rec.kind != Zero && Held(w.cache, CacheKey(rec)) ==> moves == [(i, Begin(rec)), (i, Lookup), (i, Finish)]
  {
    hide First, Decompress, CacheGood, CacheGet, Holds, WorldRuns, CachePut, ApplyXor;
    HeldAfterGet(w.cache, CacheKey(rec));
    ghost var v := ViewOf(store);
    NoMoves(v, w, i);
    OneMove(v, w, [], w, i, Begin(rec));
    moves, w' := [] + [(i, Begin(rec))], MoveTo(v, w, i, Begin(rec));
    match rec.kind {
      case Zero =>
        forall k | 0 <= k < out.Length { out[k] := 0; }
        AllZeroIsZeroPage(out[..]);
        return None, moves, w';
      case Full =>
        GetIsGood(v, w'.cache, rec.key);
        ghost var c;
        var hit;
        hit, c := Recall(region, rec.key, out, w'.cache);
        OneMove(v, w, moves, w', i, Lookup);
        moves, w' := moves + [(i, Lookup)], MoveTo(v, w', i, Lookup);
        if hit {
          e := None;
        } else {
          e := store.DecompressInto(rec, out);
          moves, w' := Refill(store, region, rec.key, e, out, rec, w, moves, w', i);
        }
      case Delta =>
        e, moves, w' := LoadFullCached(store, region, rec.baseKey, out, rec, w, moves, w', i);
    }
    if e.Some? { return; }
    OneMove(v, w, moves, w', i, Finish);
    moves, w' := moves + [(i, Finish)], MoveTo(v, w', i, Finish);
    if rec.kind == Delta { e := store.PatchInPlace(rec, out); }
  }

  lemma RecordsNoTrouble(store: PageStore, key: nat)
    requires store.Valid() && First(store.records, key).Some?
    ensures store.Trouble().None?
  {
  }

  lemma NoMoves(v: View, w: World, i: nat)
    ensures Ran(v, w, [], w, i)
  {
  }

  /** `load_page` with a cache gives what it gives without, whatever good pages the cache holds. */
  method LoadPageCached(store: PageStore, region: Region, out: array<byte>, pa: nat, snap: nat, ghost w: World,
                        ghost i: nat) returns (r: Result<bool>, ghost moves: seq<(nat, Move)>, ghost w': World)
    requires store.Valid() && region.Shows(w.cache) && CacheGood(ViewOf(store), w.cache) && out.Length == PAGE_SIZE
    requires i < |w.readers|
    modifies store`lazyIndex, region.meta, region.data, out
    ensures store.Valid() && region.Shows(w'.cache) && CacheGood(ViewOf(store), w'.cache)
    ensures Ran(ViewOf(store), w, moves, w', i)
    ensures store.Trouble().None? ==> match Load(store.codec, store.records, store.blobs, pa, snap)
      case Ok(Some(p)) => r == Ok(true) && out[..] == p
      case Ok(None) => r == Ok(false) && out[..] == old(out[..])
      case Err(x) => r == Err(x)
    ensures store.Trouble().Some? ==>
      && r == Err(if snap > MAX_SNAPSHOT_ID then SnapshotTooLarge else store.Trouble().value)
      && out[..] == old(out[..])
    ensures Leaves(out[..], AfterLoad(store.codec, store.records, store.blobs, pa, snap, old(out[..])))
  {
    hide FloorRec, First, Resolve, AfterResolve, CacheGood, Holds, WorldRuns;
    moves, w' := [], w;
    NoMoves(ViewOf(store), w, i);
    if snap > MAX_SNAPSHOT_ID { return Err(SnapshotTooLarge), moves, w'; }
    FloorIsGreatest(store.records, pa, snap);
    var found := store.Floor(pa, snap);
    if found.Err? {
      NoFloor(pa, snap);
      return Err(found.error), moves, w';
    }
    var rec := found.value;
    if rec.None? { return Ok(false), moves, w'; }
    var e;
    e, moves, w' := ResolveCached(store, region, rec.value, out, w, i);
    r := if e.Some? then Err(e.value) else Ok(true);
  }
}
