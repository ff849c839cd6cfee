/** Purging every record above a snapshot threshold: what is kept, how the blob
    files are cut, and why every remaining load is unchanged. */
module Purge {
  import opened Words
  import opened Chunk
  import opened Index
  import opened Store
  import opened Convert

  /* ---- the kept records and the cut files ---- */

  /** `records.retain(|r| snapshot_of(r.key) <= threshold)`. */
  function Keep(rs: seq<Record>, t: nat): (kept: seq<Record>)
    ensures |kept| <= |rs|
  {
    if rs == [] then []
    else if SnapOf(rs[0].key) <= t then [rs[0]] + Keep(rs[1..], t)
    else Keep(rs[1..], t)
  }

  /** Highest byte of file `w` still referenced by a kept record. */
  function KeptEnd(kept: seq<Record>, w: byte): (e: Option<nat>)
  {
    if kept == [] then None
    else
      var rest := KeptEnd(kept[..|kept| - 1], w);
      var r := kept[|kept| - 1];
      if !OwnsRange(r, w) then rest
      else match rest
        case None => Some(r.offset + r.len)
        case Some(e) => Some(Max(e, r.offset + r.len))
  }

  function SetLen(file: seq<byte>, n: nat): seq<byte> {
    if n <= |file| then file[..n] else file + seq(n - |file|, _ => 0)
  }

  function Truncated(blobs: Blobs, kept: seq<Record>): Blobs {
    map w | w in blobs :: match KeptEnd(kept, w) case None => blobs[w] case Some(e) => SetLen(blobs[w], e)
  }

  predicate Used(kept: seq<Record>, w: byte) { exists r :: r in kept && r.workerId == w }

  function Cleaned(blobs: Blobs, kept: seq<Record>): Blobs {
    map w | w in blobs && Used(kept, w) :: blobs[w]
  }

  function PurgedBlobs(blobs: Blobs, kept: seq<Record>): Blobs {
    Cleaned(Truncated(blobs, kept), kept)
  }

  lemma {:induction false} KeepAppend(rs: seq<Record>, r: Record, t: nat)
    ensures Keep(rs + [r], t) == Keep(rs, t) + if SnapOf(r.key) <= t then [r] else []
  {
    hide SnapOf;
    if rs != [] {
      KeepAppend(rs[1..], r, t);
      assert (rs + [r])[1..] == rs[1..] + [r];
    }
  }

  /** The positions of the records later than the threshold. */
  ghost function LaterAt(rs: seq<Record>, t: nat): set<nat> {
    set i: nat | i < |rs| && SnapOf(rs[i].key) > t
  }

  /** As many records go as are later than the threshold. */
  lemma {:induction false} RemovedCount(rs: seq<Record>, t: nat)
    ensures |rs| - |Keep(rs, t)| == |LaterAt(rs, t)|
  {
    hide Keep, SnapOf;
    if rs == [] {
      KeepNothing(t);
      assert LaterAt(rs, t) == {};
    } else {
      hide LaterAt;
      var front, last := rs[..|rs| - 1], rs[|rs| - 1];
      RemovedCount(front, t);
      assert rs == front + [last];
      KeepAppend(front, last, t);
      LaterAtGrows(front, last, t);
    }
  }

  ghost function Later(rs: seq<Record>, t: nat): set<Record> { set r | r in rs && SnapOf(r.key) > t }

  /** Without repetition, positions count records. */
  lemma {:induction false} LaterCount(rs: seq<Record>, t: nat)
    requires UniqueKeys(rs)
    ensures |LaterAt(rs, t)| == |Later(rs, t)|
  {
    if rs == [] {
      assert LaterAt(rs, t) == {} && Later(rs, t) == {};
    } else {
      hide SnapOf;
      var front, last := rs[..|rs| - 1], rs[|rs| - 1];
      LaterCount(front, t);
      assert rs == front + [last] && last !in front;
      LaterGrows(front, last, t);
      LaterAtGrows(front, last, t);
    }
  }

  lemma LaterAtGrows(front: seq<Record>, last: Record, t: nat)
    ensures |LaterAt(front + [last], t)| == |LaterAt(front, t)| + if SnapOf(last.key) > t then 1 else 0
  {
    hide SnapOf;
    var rs, n := front + [last], |front|;
    if SnapOf(last.key) > t {
      assert LaterAt(rs, t) == LaterAt(front, t) + {n};
    } else {
      assert LaterAt(rs, t) == LaterAt(front, t);
    }
  }

  lemma LaterGrows(front: seq<Record>, last: Record, t: nat)
    requires last !in front
    ensures |Later(front + [last], t)| == |Later(front, t)| + if SnapOf(last.key) > t then 1 else 0
  {
    hide SnapOf;
    var rs := front + [last];
    if SnapOf(last.key) > t {
      assert Later(rs, t) == Later(front, t) + {last};
    } else {
      assert Later(rs, t) == Later(front, t);
    }
  }

  lemma KeepNothing(t: nat)
    ensures Keep([], t) == []
  {
  }

  lemma {:induction false} KeepMembers(rs: seq<Record>, t: nat)
    ensures forall r :: r in Keep(rs, t) <==> r in rs && SnapOf(r.key) <= t
  {
    if rs != [] {
      KeepMembers(rs[1..], t);
      assert rs == [rs[0]] + rs[1..];
    }
  }

  lemma {:induction false} KeepFirst(rs: seq<Record>, t: nat, k: nat)
    ensures First(Keep(rs, t), k) == if SnapOf(k) <= t then First(rs, k) else None
  {
    if rs != [] {
      KeepFirst(rs[1..], t, k);
      assert ([rs[0]] + Keep(rs[1..], t))[1..] == Keep(rs[1..], t);
    }
  }

  lemma {:induction false} KeepStrict(rs: seq<Record>, t: nat)
    requires StrictKeys(rs)
    ensures StrictKeys(Keep(rs, t))
  {
    if rs != [] {
      KeepStrict(rs[1..], t);
      KeepMembers(rs[1..], t);
      var rest := Keep(rs[1..], t);
      forall i | 0 <= i < |rest| ensures rs[0].key < rest[i].key { assert rest[i] in rest; }
    }
  }

  lemma {:induction false} KeepAll(rs: seq<Record>, t: nat)
    ensures |Keep(rs, t)| == |rs| <==> forall r :: r in rs ==> SnapOf(r.key) <= t
    ensures |Keep(rs, t)| == |rs| ==> Keep(rs, t) == rs
  {
    if rs != [] {
      KeepAll(rs[1..], t);
      assert rs == [rs[0]] + rs[1..];
    }
  }

  lemma {:induction false} KeptEndBounds(kept: seq<Record>, w: byte)
    ensures KeptEnd(kept, w).None? <==> forall r :: r in kept ==> !OwnsRange(r, w)
    ensures forall r :: r in kept && OwnsRange(r, w) ==> r.offset + r.len <= KeptEnd(kept, w).value
    ensures KeptEnd(kept, w).Some? ==>
      exists r :: r in kept && OwnsRange(r, w) && r.offset + r.len == KeptEnd(kept, w).value
  {
    if kept != [] {
      var front, r := kept[..|kept| - 1], kept[|kept| - 1];
      KeptEndBounds(front, w);
      assert kept == front + [r];
      if KeptEnd(kept, w).Some? {
        if OwnsRange(r, w) && KeptEnd(kept, w).value == r.offset + r.len {
          assert r in kept;
        } else {
          var x :| x in front && OwnsRange(x, w) && x.offset + x.len == KeptEnd(front, w).value;
          assert x in kept;
        }
      }
    }
  }

  /** The blob of a kept record survives truncation and file removal. */
  lemma KeptBlobSurvives(blobs: Blobs, kept: seq<Record>, r: Record)
    requires r in kept && r.kind != Zero && ReadBlob(blobs, r).Ok?
    ensures SameBlob(blobs, PurgedBlobs(blobs, kept), r)
  {
    hide KeptEnd;
    KeptEndBounds(kept, r.workerId);
    assert OwnsRange(r, r.workerId);
    assert Used(kept, r.workerId);
    var file, e := blobs[r.workerId], KeptEnd(kept, r.workerId).value;
    assert PurgedBlobs(blobs, kept)[r.workerId] == SetLen(file, e);
    SetLenKeeps(file, e, r.offset, r.offset + r.len);
  }

  lemma SetLenKeeps(file: seq<byte>, n: nat, a: nat, b: nat)
    requires a <= b <= n && b <= |file|
    ensures |SetLen(file, n)| == n && SetLen(file, n)[a..b] == file[a..b]
  {
  }

  /* ---- the history after a purge ---- */

  /** The saves with id at most `t`. */
  function UpTo(h: History, t: nat): History {
    if h == [] then []
    else if h[|h| - 1].id <= t then UpTo(h[..|h| - 1], t) + [h[|h| - 1]]
    else UpTo(h[..|h| - 1], t)
  }

  lemma {:induction false} UpToMembers(h: History, t: nat)
    ensures forall s :: s in UpTo(h, t) <==> s in h && s.id <= t
  {
    if h != [] {
      UpToMembers(h[..|h| - 1], t);
      assert h == h[..|h| - 1] + [h[|h| - 1]];
    }
  }

  lemma {:induction false} UpToIncreasing(h: History, t: nat)
    requires Increasing(h)
    ensures Increasing(UpTo(h, t))
  {
    if h != [] {
      var front := h[..|h| - 1];
      UpToIncreasing(front, t);
      UpToMembers(front, t);
      var kept := UpTo(front, t);
      forall i | 0 <= i < |kept| ensures kept[i].id < h[|h| - 1].id {
        assert kept[i] in front;
      }
    }
  }

  lemma {:induction false} UpToVersion(h: History, t: nat, k: nat)
    ensures Version(UpTo(h, t), k) == if SnapOf(k) <= t then Version(h, k) else None
  {
    if h != [] {
      var front, last := h[..|h| - 1], h[|h| - 1];
      UpToVersion(front, t, k);
      if last.id <= t {
        assert (UpTo(front, t) + [last])[..|UpTo(front, t)|] == UpTo(front, t);
      }
    }
  }

  /** Purging the history at `t` is the same as asking for nothing later than `t`. */
  lemma {:induction false} UpToNewest(h: History, t: nat, pa: nat, snap: nat)
    ensures Newest(UpTo(h, t), pa, snap) == Newest(h, pa, if snap < t then snap else t)
  {
    if h != [] {
      var front, last := h[..|h| - 1], h[|h| - 1];
      UpToNewest(front, t, pa, snap);
      if last.id <= t {
        assert (UpTo(front, t) + [last])[..|UpTo(front, t)|] == UpTo(front, t);
      }
    }
  }

  /** Every kept record keeps its base and its bytes, so the kept records and
      the cut files hold exactly the saves up to the threshold. */
  lemma PurgeRepresents(c: Codec, rs: seq<Record>, blobs: Blobs, h: History, t: nat)
    requires Represents(c, rs, blobs, h)
    ensures Represents(c, Keep(rs, t), PurgedBlobs(blobs, Keep(rs, t)), UpTo(h, t))
  {
    hide First, Version, StoredAs, Keep, PurgedBlobs, UpTo, SnapOf;
    var kept := Keep(rs, t);
    var cut := PurgedBlobs(blobs, kept);
    forall k: nat
      ensures match First(kept, k)
        case None => Version(UpTo(h, t), k) == None
        case Some(r) => Version(UpTo(h, t), k).Some? && StoredAs(c, kept, cut, r, Version(UpTo(h, t), k).value)
    {
      KeepFirst(rs, t, k);
      UpToVersion(h, t, k);
      if First(kept, k).Some? {
        PurgeKeepsRecord(c, rs, blobs, h, t, k);
      }
    }
  }

  lemma {:induction false} PurgeKeepsRecord(c: Codec, rs: seq<Record>, blobs: Blobs, h: History, t: nat, k: nat)
    requires Represents(c, rs, blobs, h) && SnapOf(k) <= t && First(rs, k).Some? && Version(h, k).Some?
    ensures StoredAs(c, Keep(rs, t), PurgedBlobs(blobs, Keep(rs, t)), First(rs, k).value, Version(h, k).value)
  {
    hide Version, Resolve, PurgedBlobs, Keep, SnapOf;
    var kept := Keep(rs, t);
    var r := First(rs, k).value;
    assert StoredAs(c, rs, blobs, r, Version(h, k).value);
    KeepMembers(rs, t);
    ResolvedBlobs(c, rs, blobs, r);
    if r.kind != Zero { KeptBlobSurvives(blobs, kept, r); }
    if r.kind == Delta {
      var base := First(rs, r.baseKey).value;
      KeepFirst(rs, t, r.baseKey);
      KeptBlobSurvives(blobs, kept, base);
    }
    ResolveFrame(c, rs, blobs, kept, PurgedBlobs(blobs, kept), r);
  }

  /** A load after the purge equals the load before it at min(snap, t). */
  lemma {:induction false} PurgePreservesLoads(c: Codec, rs: seq<Record>, blobs: Blobs, h: History, t: nat, pa: nat,
                                               snap: nat)
    requires Represents(c, rs, blobs, h) && Increasing(h) && snap <= MAX_SNAPSHOT_ID
    ensures Load(c, Keep(rs, t), PurgedBlobs(blobs, Keep(rs, t)), pa, snap)
         == Load(c, rs, blobs, pa, if snap < t then snap else t)
  {
    hide Represents, Load, Increasing;
    PurgeRepresents(c, rs, blobs, h, t);
    UpToIncreasing(h, t);
    LoadIsNewest(c, Keep(rs, t), PurgedBlobs(blobs, Keep(rs, t)), UpTo(h, t), pa, snap);
    UpToNewest(h, t, pa, snap);
    LoadIsNewest(c, rs, blobs, h, pa, if snap < t then snap else t);
  }

  /* ---- the layout of blob files ---- */

  ghost predicate HasByte(rs: seq<Record>, w: byte, o: nat) {
    exists r :: r in rs && CoversByte(r, w, o)
  }

  /** Blobs of a later snapshot lie above those of an earlier one. */
  ghost predicate SnapshotOrdered(rs: seq<Record>) {
    forall a, b, w :: a in rs && b in rs && OwnsRange(a, w) && OwnsRange(b, w) && SnapOf(a.key) < SnapOf(b.key)
      ==> a.offset + a.len <= b.offset
  }

  /** No two records share a byte. */
  ghost predicate NoOverlap(rs: seq<Record>) {
    forall a, b, w, o: nat :: a in rs && b in rs && CoversByte(a, w, o) && CoversByte(b, w, o) ==> a == b
  }

  ghost predicate InFiles(rs: seq<Record>, blobs: Blobs) {
    forall r :: r in rs && r.kind != Zero ==> ReadBlob(blobs, r).Ok?
  }

  /** The file consists of exactly the blobs of the records: with NoOverlap, it
      is their concatenation in offset order. */
  ghost predicate FileTiled(rs: seq<Record>, file: seq<byte>, w: byte) {
    forall o: nat :: o < |file| <==> HasByte(rs, w, o)
  }

  ghost predicate HasRange(rs: seq<Record>, w: byte) {
    exists r :: r in rs && OwnsRange(r, w)
  }

  lemma PurgedFile(blobs: Blobs, kept: seq<Record>, w: byte)
    requires w in blobs && HasRange(kept, w) && InFiles(kept, blobs)
    ensures var cut := PurgedBlobs(blobs, kept);
      && w in cut && |cut[w]| <= |blobs[w]|
      && (forall r :: r in kept && OwnsRange(r, w) ==> r.offset + r.len <= |cut[w]|)
      && (exists r :: r in kept && OwnsRange(r, w) && r.offset + r.len == |cut[w]|)
  {
    hide KeptEnd;
    KeptEndBounds(kept, w);
    var r :| r in kept && OwnsRange(r, w);
    assert Used(kept, w);
    var x :| x in kept && OwnsRange(x, w) && x.offset + x.len == KeptEnd(kept, w).value;
    assert ReadBlob(blobs, x).Ok?;
    assert PurgedBlobs(blobs, kept)[w] == SetLen(blobs[w], KeptEnd(kept, w).value);
  }

  /** With blobs in snapshot order, no byte of a purged record is left in a file
      that still has a kept blob. */
  lemma {:induction false} PurgedBytesGone(rs: seq<Record>, blobs: Blobs, t: nat, w: byte, p: Record)
    requires SnapshotOrdered(rs) && InFiles(rs, blobs) && w in blobs && HasRange(Keep(rs, t), w)
    requires p in rs && OwnsRange(p, w) && SnapOf(p.key) > t
    ensures var cut := PurgedBlobs(blobs, Keep(rs, t)); w in cut && |cut[w]| <= p.offset
  {
    hide Keep, PurgedBlobs, ReadBlob, SnapOf, OwnsRange;
    KeepMembers(rs, t);
    PurgedFile(blobs, Keep(rs, t), w);
    var r :| r in Keep(rs, t) && OwnsRange(r, w) && r.offset + r.len == |PurgedBlobs(blobs, Keep(rs, t))[w]|;
  }

  /** Such a file is then exactly the concatenation of its kept blobs. */
  lemma PurgedFileTiled(rs: seq<Record>, blobs: Blobs, t: nat, w: byte)
    requires SnapshotOrdered(rs) && InFiles(rs, blobs) && w in blobs && FileTiled(rs, blobs[w], w)
    requires HasRange(Keep(rs, t), w)
    ensures w in PurgedBlobs(blobs, Keep(rs, t))
    ensures FileTiled(Keep(rs, t), PurgedBlobs(blobs, Keep(rs, t))[w], w)
  {
    hide Keep, PurgedBlobs, ReadBlob, SnapOf, SnapshotOrdered;
    var kept := Keep(rs, t);
    KeepMembers(rs, t);
    PurgedFile(blobs, kept, w);
    var file := PurgedBlobs(blobs, kept)[w];
    forall o: nat ensures o < |file| <==> HasByte(kept, w, o) {
      if o < |file| {
        assert HasByte(rs, w, o);
        var r :| r in rs && CoversByte(r, w, o);
        if SnapOf(r.key) > t { PurgedBytesGone(rs, blobs, t, w, r); }
        assert r in kept;
      }
    }
  }

  /** Exactly when a remaining file is clean: a file survives without a kept
      blob only if Zero records, which carry worker id 0, keep worker 0's file
      in use; then it is left as it was. */
  lemma PurgedFileCleanIff(rs: seq<Record>, blobs: Blobs, t: nat, w: byte)
    requires SnapshotOrdered(rs) && InFiles(rs, blobs) && w in blobs && FileTiled(rs, blobs[w], w)
    requires forall r :: r in rs && r.kind == Zero ==> r.workerId == 0
    requires w in PurgedBlobs(blobs, Keep(rs, t))
    ensures FileTiled(Keep(rs, t), PurgedBlobs(blobs, Keep(rs, t))[w], w) <==>
      HasRange(Keep(rs, t), w) || blobs[w] == []
    ensures !HasRange(Keep(rs, t), w) ==> w == 0 && PurgedBlobs(blobs, Keep(rs, t))[w] == blobs[w]
  {
    hide Keep, KeptEnd, SnapshotOrdered, InFiles;
    var kept := Keep(rs, t);
    if HasRange(kept, w) {
      PurgedFileTiled(rs, blobs, t, w);
    } else {
      KeepMembers(rs, t);
      KeptEndBounds(kept, w);
      assert Used(kept, w);
      assert KeptEnd(kept, w).None?;
      assert PurgedBlobs(blobs, kept)[w] == blobs[w];
      if blobs[w] != [] { assert 0 < |blobs[w]| && !HasByte(kept, w, 0); }
    }
  }

  /* ---- the files before and after, and the loops of purge.rs ---- */

  datatype Files = Files(index: Option<seq<byte>>, log: Option<seq<byte>>, blobs: Blobs)

  function ReadIndexFile(idx: seq<byte>): Result<seq<Record>> {
    match ReadHeader(idx, MAGIC_IDX)
    case Err(e) => Err(e)
    case Ok(_) =>
      if (|idx| - HEADER_SIZE) % FIXED_RECORD_SIZE != 0 then Err(Misaligned)
      else ParseFixed(idx[HEADER_SIZE..])
  }

  /** The index is read if there is one, otherwise the log, sorted and deduplicated. */
  function SourceRecords(f: Files): Result<seq<Record>> {
    match f.index
    case Some(idx) => ReadIndexFile(idx)
    case None => match f.log case None => Err(NotFound) case Some(log) => ReadLogFile(log)
  }

  predicate FilesPresent(blobs: Blobs, kept: seq<Record>) {
    forall r :: r in kept && r.kind != Zero ==> r.workerId in blobs
  }

  function Rewritten(f: Files, kept: seq<Record>): Files {
    Files(
      if f.index.Some? then Some(IndexFile(MaxSnap(kept), kept)) else None,
      if f.log.Some? then Some(LogFile(MaxSnap(kept), Grouped(kept))) else None,
      PurgedBlobs(f.blobs, kept))
  }

  /** The files after a purge and the number of records removed. */
  function PurgeFiles(f: Files, t: nat): Result<(Files, nat)> {
    match SourceRecords(f)
    case Err(e) => Err(e)
    case Ok(rs) =>
      var kept := Keep(rs, t);
      if |kept| == |rs| then Ok((f, 0))
      else if !FilesPresent(f.blobs, kept) then Err(NotFound)
      else Ok((Rewritten(f, kept), |rs| - |kept|))
  }

  /** The count a purge returns, for any files: the number of records of the source
      later than the threshold. Without any, nothing is written. */
  lemma PurgeCount(f: Files, t: nat)
    ensures PurgeFiles(f, t).Ok? ==>
      && SourceRecords(f).Ok?
      && PurgeFiles(f, t).value.1 == |LaterAt(SourceRecords(f).value, t)|
      && (PurgeFiles(f, t).value.1 == 0 ==> PurgeFiles(f, t).value.0 == f)
  {
    hide Keep, FilesPresent, LaterAt, SourceRecords;
    if SourceRecords(f).Ok? { RemovedCount(SourceRecords(f).value, t); }
  }

  /** The `worker_max_end` map. */
  method MaxEnds(kept: seq<Record>) returns (ends: map<byte, nat>)
    ensures forall w: byte :: w in ends <==> KeptEnd(kept, w).Some?
    ensures forall w :: w in ends ==> ends[w] == KeptEnd(kept, w).value
  {
    ends := map[];
    for i := 0 to |kept|
      invariant forall w: byte :: w in ends <==> KeptEnd(kept[..i], w).Some?
      invariant forall w :: w in ends ==> ends[w] == KeptEnd(kept[..i], w).value
    {
      var r := kept[i];
      assert kept[..i + 1][..i] == kept[..i];
      if r.kind != Zero {
        var end := r.offset + r.len;
        ends := ends[r.workerId := if r.workerId in ends then Max(ends[r.workerId], end) else end];
      }
    }
    assert kept[..|kept|] == kept;
  }

  lemma EndsPresent(blobs: Blobs, kept: seq<Record>)
    ensures FilesPresent(blobs, kept) <==> forall w: byte :: KeptEnd(kept, w).Some? ==> w in blobs
  {
    hide KeptEnd;
    forall w: byte ensures KeptEnd(kept, w).Some? <==> exists x :: x in kept && OwnsRange(x, w) {
      KeptEndBounds(kept, w);
    }
    forall x | x in kept && x.kind != Zero ensures KeptEnd(kept, x.workerId).Some? {
      assert OwnsRange(x, x.workerId);
    }
  }

  /** `set_len` on every file that has a kept end, in any order. */
  method TruncateBlobs(blobs: Blobs, kept: seq<Record>) returns (r: Result<Blobs>)
    ensures r == if FilesPresent(blobs, kept) then Ok(Truncated(blobs, kept)) else Err(NotFound)
  {
    hide KeptEnd, FilesPresent, SetLen;
    EndsPresent(blobs, kept);
    var ends := MaxEnds(kept);
    var left, out := ends.Keys, blobs;
    while left != {}
      invariant left <= ends.Keys && ends.Keys - left <= blobs.Keys
      invariant out.Keys == blobs.Keys
      invariant forall w :: w in blobs ==>
        out[w] == if w in ends && w !in left then SetLen(blobs[w], ends[w]) else blobs[w]
      decreases |left|
    {
      var w :| w in left;
      if w !in blobs { return Err(NotFound); }
      out := out[w := SetLen(out[w], ends[w])];
      left := left - {w};
    }
    assert out == Truncated(blobs, kept);
    return Ok(out);
  }

  /** Removes every file whose worker id no kept record carries. */
  method CleanupUnused(blobs: Blobs, kept: seq<Record>) returns (out: Blobs)
    ensures out == Cleaned(blobs, kept)
  {
    var used := set i | 0 <= i < |kept| :: kept[i].workerId;
    var left := blobs.Keys;
    out := blobs;
    while left != {}
      invariant left <= blobs.Keys
      invariant out == map w | w in blobs && (w in used || w in left) :: blobs[w]
      decreases |left|
    {
      var w :| w in left;
      left := left - {w};
      if w !in used { out := out - {w}; }
    }
    forall w: byte ensures w in used <==> Used(kept, w) {
      if Used(kept, w) { var r :| r in kept && r.workerId == w; }
    }
  }

  method PurgeDir(f: Files, t: nat) returns (r: Result<(Files, nat)>)
    ensures r == PurgeFiles(f, t)
  {
    hide Keep, Truncated, Cleaned, FilesPresent, IndexFile, LogFile, GroupsBelow, OfSnap, MaxSnap;
    var source := SourceRecords(f);
    if source.Err? { return Err(source.error); }
    var kept := Keep(source.value, t);
    var removed := |source.value| - |kept|;
    if removed == 0 { return Ok((f, 0)); }
    var maxSnap := MaxSnap(kept);
    var truncated := TruncateBlobs(f.blobs, kept);
    if truncated.Err? { return Err(truncated.error); }
    var blobs := CleanupUnused(truncated.value, kept);
    var index, log := None, None;
    if f.index.Some? {
      var bytes := WriteIndex(kept, maxSnap);
      index := Some(bytes);
    }
    if f.log.Some? {
      var bySnap := GroupBySnap(kept);
      var snaps := SortedSnaps(bySnap.Keys);
      var ordered := EmitGroups(kept, bySnap, snaps, false);
      var bytes := WriteLog(ordered, maxSnap);
      log := Some(bytes);
    }
    return Ok((Files(index, log, blobs), removed));
  }
}
