/** The read path as code: choosing the index or the lazily sorted log, floor and
    exact lookups, and resolution in place into the caller's buffer. */
module Reader {
  import opened Words
  import opened Chunk
  import opened Patch
  import opened Index
  import opened Store

  datatype Source = BTree(mmap: seq<byte>, numRecords: nat) | AppendOnly(log: seq<byte>)

  /** `build_lazy_index`: read every record, sort by key, keep the first of each. */
  method BuildLazyIndex(log: seq<byte>) returns (r: Result<seq<Record>>)
    ensures r == ReadLogFile(log)
  {
    hide ReadHeader, ParseLog, IndexOf;
    var header := ReadHeader(log, MAGIC_LOG);
    if header.Err? { return Err(header.error); }
    var read := ReadRecords(log[HEADER_SIZE..]);
    if read.Err? { return Err(read.error); }
    return Ok(IndexOf(read.value));
  }

  /** The records behind a source are sorted, one for each key, and fit their fields. */
  lemma ReadLogFacts(log: seq<byte>)
    ensures ReadLogFile(log).Ok? ==>
      StrictKeys(ReadLogFile(log).value) && forall r :: r in ReadLogFile(log).value ==> FieldsFit(r)
  {
    hide ParseLogFile, IndexOf, FieldsFit, StrictKeys;
    if ParseLogFile(log).Ok? {
      var rs := ParseLogFile(log).value;
      ParsedFileFits(log, rs);
      FittingRecords(rs);
      IndexKeepsFirst(rs);
    }
  }

  /** The source holds `rs`: an index file in key order, or a log that parses. */
  ghost predicate Holds(source: Source, rs: seq<Record>) {
    match source
    case BTree(mmap, n) => IsIndexFile(mmap, rs) && n == |rs|
    case AppendOnly(log) => ReadLogFile(log) == Ok(rs)
  }

  lemma HoldsOne(source: Source, a: seq<Record>, b: seq<Record>)
    requires Holds(source, a) && Holds(source, b)
    ensures a == b
  {
    hide DecodeFixed, StrictKeys, ReadLogFile;
    if source.BTree? {
      forall i | 0 <= i < |a| ensures a[i] == b[i] {
        assert RecordAt(source.mmap, i) == Ok(a[i]) && RecordAt(source.mmap, i) == Ok(b[i]);
      }
    }
  }

  lemma HeldRecords(source: Source, rs: seq<Record>)
    requires Holds(source, rs)
    ensures StrictKeys(rs) && forall r :: r in rs ==> FieldsFit(r)
  {
    hide DecodeFixed, StrictKeys, FieldsFit, ReadLogFile;
    match source {
      case BTree(mmap, _) => IndexFileFits(mmap, rs);
      case AppendOnly(log) => ReadLogFacts(log);
    }
  }

  /** `PageStore::open`: the index is preferred; its version byte is not looked at. */
  function Opened(index: Option<seq<byte>>, log: Option<seq<byte>>): Result<Source> {
    match (index, log)
    case (Some(idx), _) =>
      if |idx| < HEADER_SIZE then Err(UnexpectedEof)
      else if idx[0..8] != MAGIC_IDX then Err(BadMagic)
      else if (|idx| - HEADER_SIZE) % FIXED_RECORD_SIZE != 0 then Err(Misaligned)
      else Ok(BTree(idx, (|idx| - HEADER_SIZE) / FIXED_RECORD_SIZE))
    case (None, Some(bytes)) =>
      (match ReadHeader(bytes, MAGIC_LOG) case Err(e) => Err(e) case Ok(_) => Ok(AppendOnly(bytes)))
    case (None, None) => Err(NotFound)
  }

  /** Whatever records the chosen file holds, the opened store answers from exactly them. */
  method OpenStore(codec: Codec, blobs: Blobs, index: Option<seq<byte>>, log: Option<seq<byte>>)
    returns (r: Result<PageStore>)
    ensures match Opened(index, log)
      case Err(e) => r == Err(e)
      case Ok(source) =>
        && r.Ok? && fresh(r.value) && r.value.codec == codec && r.value.blobs == blobs
        && r.value.source == source && (source.AppendOnly? ==> r.value.Valid())
        && forall rs :: Holds(source, rs) ==> r.value.Valid() && r.value.Trouble().None? && r.value.records == rs
  {
    hide ReadHeader, Holds;
    if index.Some? {
      var idx := index.value;
      if |idx| < HEADER_SIZE { return Err(UnexpectedEof); }
      if idx[0..8] != MAGIC_IDX { return Err(BadMagic); }
      var bodyLen := |idx| - HEADER_SIZE;
      if bodyLen % FIXED_RECORD_SIZE != 0 { return Err(Misaligned); }
      var store := new PageStore(codec, blobs, BTree(idx, bodyLen / FIXED_RECORD_SIZE));
      return Ok(store);
    }
    if log.Some? {
      var header := ReadHeader(log.value, MAGIC_LOG);
      if header.Err? { return Err(header.error); }
      var store := new PageStore(codec, blobs, AppendOnly(log.value));
      return Ok(store);
    }
    return Err(NotFound);
  }

  class PageStore {
    const codec: Codec
    const blobs: Blobs
    const source: Source
    var lazyIndex: Option<seq<Record>>
    /** The records behind the source, sorted by key, first of each. */
    ghost const records: seq<Record>

    /** A log with a bad record: every lookup fails with its error. */
    ghost function Trouble(): Option<Error> {
      match source
      case BTree(_, _) => None
      case AppendOnly(log) => (match ReadLogFile(log) case Ok(_) => None case Err(e) => Some(e))
    }

    ghost predicate Valid()
      reads this
    {
      && (if Trouble().None? then Holds(source, records) else records == [] && lazyIndex.None?)
      && (source.AppendOnly? && lazyIndex.Some? ==> lazyIndex.value == records)
    }

    constructor (codec: Codec, blobs: Blobs, source: Source)
      ensures this.codec == codec && this.blobs == blobs && this.source == source
      ensures source.AppendOnly? ==> Valid()
      ensures forall rs :: Holds(source, rs) ==> Valid() && Trouble().None? && records == rs
    {
      this.codec, this.blobs, this.source := codec, blobs, source;
      lazyIndex := None;
      ghost var held: seq<Record> := [];
      assert source.AppendOnly? && ReadLogFile(source.log).Ok? ==> Holds(source, ReadLogFile(source.log).value);
      if rs :| Holds(source, rs) { held := rs; }
      records := held;
      new;
      forall rs | Holds(source, rs) ensures records == rs { HoldsOne(source, records, rs); }
    }

    method EnsureLazyIndex() returns (r: Result<seq<Record>>)
      requires Valid() && source.AppendOnly?
      modifies this`lazyIndex
      ensures Valid() && r == if Trouble().None? then Ok(records) else Err(Trouble().value)
    {
      if lazyIndex.Some? { return Ok(lazyIndex.value); }
      r := BuildLazyIndex(source.log);
      if r.Ok? { lazyIndex := Some(r.value); }
    }

    method Floor(pa: nat, snap: nat) returns (r: Result<Option<Record>>)
      requires Valid() && snap < SNAPSHOTS
      modifies this`lazyIndex
      ensures Valid() && r == if Trouble().None? then Ok(FloorRec(records, pa, snap)) else Err(Trouble().value)
    {
      hide ReadLogFile, FloorRec, FieldsFit, StrictKeys;
      match source {
        case BTree(mmap, n) =>
          var found := FloorMmap(mmap, n, pa, snap, records);
          return Ok(found);
        case AppendOnly(_) =>
          var built := EnsureLazyIndex();
          if built.Err? { return Err(built.error); }
          var rs := built.value;
          HeldRecords(source, rs);
          FittingRecords(rs);
          PartitionSplits(rs, EncodeKey(pa, snap));
          SelectIsFloor(rs, pa, snap, PartitionPointLe(rs, EncodeKey(pa, snap)));
          return Ok(FloorSorted(rs, pa, snap));
      }
    }

    method ExactLookup(key: nat) returns (r: Result<Option<Record>>)
      requires Valid()
      modifies this`lazyIndex
      ensures Valid() && r == if Trouble().None? then Ok(First(records, key)) else Err(Trouble().value)
    {
      hide ReadLogFile, First;
      match source {
        case BTree(mmap, n) =>
          var found := ExactMmap(mmap, n, key, records);
          return Ok(found);
        case AppendOnly(_) =>
          var built := EnsureLazyIndex();
          if built.Err? { return Err(built.error); }
          return Ok(First(built.value, key));
      }
    }

    method DecompressInto(rec: Record, out: array<byte>) returns (e: Option<Error>)
      requires out.Length == PAGE_SIZE
      modifies out
      ensures e == match Decompress(codec, blobs, rec) case Ok(_) => None case Err(x) => Some(x)
      ensures Leaves(out[..], AfterDecompress(codec, blobs, rec, old(out[..])))
    {
      if rec.workerId !in blobs { return Some(BlobFileMissing); }
      var file := blobs[rec.workerId];
      if rec.offset + rec.len > |file| { return Some(BlobOutOfRange); }
      var page := codec.decompress(file[rec.offset..rec.offset + rec.len]);
      if page.None? { return Some(DecompressFailed); }
      if |page.value| != PAGE_SIZE { return Some(DecompressedSize); }
      CopyInto(out, 0, page.value);
      return None;
    }

    /** Applies the Delta's patch over the base already in the buffer. */
    method PatchInPlace(rec: Record, out: array<byte>) returns (e: Option<Error>)
      requires out.Length == PAGE_SIZE
      modifies out
      ensures match PatchOver(blobs, rec, Ok(old(out[..])))
        case Ok(p) => e == None && out[..] == p
        case Err(x) => e == Some(x)
      ensures out[..] == AfterPatch(blobs, rec, old(out[..]))
    {
      if rec.workerId !in blobs { return Some(BlobFileMissing); }
      var file := blobs[rec.workerId];
      if rec.offset + rec.len > |file| { return Some(BlobOutOfRange); }
      var blob := file[rec.offset..rec.offset + rec.len];
      if |blob| % 10 != 0 { return Some(PatchLength); }
      var ok := ApplyDeltaXor(blob, out);
      return if ok then None else Some(PatchIndex);
    }

    method ResolveUncached(rec: Record, out: array<byte>) returns (e: Option<Error>)
      requires Valid() && out.Length == PAGE_SIZE
      modifies this`lazyIndex, out
      ensures Valid()
      ensures match Resolve(codec, records, blobs, rec)
        case Ok(p) => e == None && out[..] == p
        case Err(x) => e == if rec.kind == Delta && Trouble().Some? then Trouble() else Some(x)
      ensures Leaves(out[..], AfterResolve(codec, records, blobs, rec, old(out[..])))
    {
      hide First, Decompress, FieldsFit, StrictKeys, IsIndexFile, ReadLogFile, ApplyXor;
      match rec.kind {
        case Zero =>
          forall i | 0 <= i < out.Length { out[i] := 0; }
          return None;
        case Full =>
          e := DecompressInto(rec, out);
        case Delta =>
          var looked := ExactLookup(rec.baseKey);
          if looked.Err? {
            NoneInTrouble(this, rec.baseKey);
            return Some(looked.error);
          }
          var base := looked.value;
          if base.None? { return Some(BaseMissing); }
          if base.value.kind != Full { return Some(BaseNotFull); }
          e := DecompressInto(base.value, out);
          if e.Some? { return e; }
          e := PatchInPlace(rec, out);
      }
    }

    /** `load_page` without a cache. */
    method LoadPage(out: array<byte>, pa: nat, snap: nat) returns (r: Result<bool>)
      requires Valid() && out.Length == PAGE_SIZE
      modifies this`lazyIndex, out
      ensures Valid()
      ensures Trouble().None? ==> match Load(codec, records, blobs, pa, snap)
        case Ok(Some(p)) => r == Ok(true) && out[..] == p
        case Ok(None) => r == Ok(false) && out[..] == old(out[..])
        case Err(x) => r == Err(x)
      ensures Trouble().Some? ==>
        && r == Err(if snap > MAX_SNAPSHOT_ID then SnapshotTooLarge else Trouble().value)
        && out[..] == old(out[..])
      ensures Leaves(out[..], AfterLoad(codec, records, blobs, pa, snap, old(out[..])))
    {
      hide FloorRec, Resolve, AfterResolve, FieldsFit, StrictKeys, IsIndexFile, ReadLogFile;
      if snap > MAX_SNAPSHOT_ID { return Err(SnapshotTooLarge); }
      var found := Floor(pa, snap);
      if found.Err? {
        NoFloor(pa, snap);
        return Err(found.error);
      }
      var rec := found.value;
      if rec.None? { return Ok(false); }
      var e := ResolveUncached(rec.value, out);
      return if e.Some? then Err(e.value) else Ok(true);
    }
  }

  lemma NoneInTrouble(store: PageStore, key: nat)
    requires store.Valid() && store.Trouble().Some?
    ensures First(store.records, key) == None
  {
  }

  lemma {:induction false} NoFloor(pa: nat, snap: nat)
    ensures FloorRec([], pa, snap) == None
    decreases snap
  {
    if snap > 0 { NoFloor(pa, snap - 1); }
  }
}
