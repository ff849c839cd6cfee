/** The whole cache: sets addressed by key, and the shared-memory region as code. */
module SharedCache {
  import opened Words
  import opened Chunk
  import opened Patch
  import opened Cache

  /* ---- all sets together ---- */

  type Sets = c: seq<CacheSet> | |c| == TOTAL_SETS && forall i :: 0 <= i < |c| ==> Sized(c[i])
    witness seq(TOTAL_SETS, _ => EmptySet(seq(WAYS, _ => [])))

  predicate Sized(s: CacheSet) { |s.ids| == |s.stamps| == |s.pages| == WAYS }

  /** Sets are numbered through all metadata pages. */
  function SetNumber(m: nat, s: nat): (i: nat)
    ensures m < METADATA_PAGES && s < SETS_PER_META ==> i < TOTAL_SETS
  {
    m * SETS_PER_META + s
  }

  function SetIndex(key: nat): (i: nat)
    ensures i < TOTAL_SETS
  {
    SetNumber(Locate(key).0, Locate(key).1)
  }

  lemma SetNumberUnique(m: nat, s: nat, m': nat, s': nat)
    requires s < SETS_PER_META && s' < SETS_PER_META && SetNumber(m, s) == SetNumber(m', s')
    ensures m == m' && s == s'
  {
  }

  /** The low bits of the product depend on the low bits of the key alone, which hold the
      snapshot: all pages of one snapshot compete for the sixteen ways of one set, and
      two snapshots share a set exactly when they agree modulo 8192. */
  lemma SetOfSnapshot(pa: nat, snap: nat, pa': nat, snap': nat)
    requires snap < SNAPSHOTS && snap' < SNAPSHOTS
    ensures SetIndex(EncodeKey(pa, snap)) == SetIndex(EncodeKey(pa', snap')) <==> snap % 8192 == snap' % 8192
  {
    hide Locate;
    var a, b := EncodeKey(pa, snap), EncodeKey(pa', snap');
    SameSetIff(a, b);
    LowKey(pa, snap);
    LowKey(pa', snap');
    if SetIndex(a) == SetIndex(b) {
      SetNumberUnique(Locate(a).0, Locate(a).1, Locate(b).0, Locate(b).1);
    }
  }

  lemma LowKey(pa: nat, snap: nat)
    requires snap < SNAPSHOTS
    ensures EncodeKey(pa, snap) % TOTAL_SETS == snap % TOTAL_SETS
  {
    LowBits(pa * SNAPSHOTS);
    var p := (pa * SNAPSHOTS) % U64;
    assert (pa * SNAPSHOTS) % TOTAL_SETS == 0 by { ModMultiple(0, pa * 64, TOTAL_SETS); }
    assert p == (p / TOTAL_SETS) * TOTAL_SETS;
    ModMultiple(snap, p / TOTAL_SETS, TOTAL_SETS);
  }

  /** `get` and `put` as one critical section each; the empty tag is never looked up or stored. */
  function CacheGet(c: Sets, key: nat): (Option<seq<byte>>, Sets) {
    if key == EMPTY_KEY then (None, c)
    else
      var (hit, s) := SetGet(c[SetIndex(key)], key);
      (hit, c[SetIndex(key) := s])
  }

  function CachePut(c: Sets, key: nat, page: seq<byte>): Sets {
    if key == EMPTY_KEY then c else c[SetIndex(key) := SetPut(c[SetIndex(key)], key, page)]
  }

  function CacheRun(start: Sets, ops: seq<CacheOp>): Sets {
    if ops == [] then start
    else
      var c := CacheRun(start, ops[..|ops| - 1]);
      match ops[|ops| - 1]
      case Get(key) => CacheGet(c, key).1
      case Put(key, page) => CachePut(c, key, page)
  }

  /** The operations that reach set `i`. */
  function Project(ops: seq<CacheOp>, i: nat): seq<CacheOp> {
    if ops == [] then []
    else
      var op := ops[|ops| - 1];
      Project(ops[..|ops| - 1], i) + if op.key != EMPTY_KEY && SetIndex(op.key) == i then [op] else []
  }

  ghost predicate IsFresh(c: Sets) {
    forall i :: 0 <= i < TOTAL_SETS ==> c[i] == EmptySet(c[i].pages)
  }

  function FreshSets(): (c: Sets)
    ensures IsFresh(c)
  {
    seq(TOTAL_SETS, _ => EmptySet(seq(WAYS, _ => ZeroPage())))
  }

  /** Each set evolves by its own operations alone. */
  lemma {:induction false} SetsAreIndependent(start: Sets, ops: seq<CacheOp>, i: nat)
    requires i < TOTAL_SETS
    ensures CacheRun(start, ops)[i] == SetRun(start[i], Project(ops, i))
  {
    if ops != [] {
      hide SetIndex, SetGet, SetPut;
      var front, op := ops[..|ops| - 1], ops[|ops| - 1];
      SetsAreIndependent(start, front, i);
      assert (Project(front, i) + [op])[..|Project(front, i)|] == Project(front, i);
      assert Project(front, i) + [] == Project(front, i);
    }
  }

  lemma {:induction false} ProjectOk(ops: seq<CacheOp>, i: nat)
    ensures OpsOk(Project(ops, i))
  {
    hide SetIndex;
    if ops != [] { ProjectOk(ops[..|ops| - 1], i); }
  }

  lemma LastPutAppend(ops: seq<CacheOp>, op: CacheOp, key: nat)
    ensures LastPut(ops + [op], key) == if op.Put? && op.key == key then Some(op.page) else LastPut(ops, key)
  {
    assert (ops + [op])[..|ops|] == ops;
  }

  lemma {:induction false} ProjectLastPut(ops: seq<CacheOp>, i: nat, key: nat)
    ensures LastPut(Project(ops, i), key) == if key != EMPTY_KEY && SetIndex(key) == i then LastPut(ops, key) else None
  {
    hide SetIndex;
    if ops != [] {
      hide LastPut;
      var front, op := ops[..|ops| - 1], ops[|ops| - 1];
      ProjectLastPut(front, i, key);
      assert ops == front + [op];
      LastPutAppend(front, op, key);
      LastPutAppend(Project(front, i), op, key);
      assert Project(front, i) + [] == Project(front, i);
    }
  }

  /** A key other than the empty tag sits in at most one way of the whole cache,
      only in the set `locate` gives, and with the page of its last put. */
  lemma {:induction false} KeysSitOnce(start: Sets, ops: seq<CacheOp>, i: nat, w: nat)
    requires IsFresh(start) && i < TOTAL_SETS && w < WAYS && CacheRun(start, ops)[i].ids[w] != EMPTY_KEY
    ensures var c, key := CacheRun(start, ops), CacheRun(start, ops)[i].ids[w];
      && SetIndex(key) == i
      && LastPut(ops, key) == Some(c[i].pages[w])
      && forall j, v :: 0 <= j < TOTAL_SETS && 0 <= v < WAYS && c[j].ids[v] == key ==> j == i && v == w
  {
    hide CacheRun, SetRun, LastPut, SetIndex, Project;
    var c, key := CacheRun(start, ops), CacheRun(start, ops)[i].ids[w];
    SetFaithful(start, ops, i);
    ProjectLastPut(ops, i, key);
    forall j, v | 0 <= j < TOTAL_SETS && 0 <= v < WAYS && c[j].ids[v] == key ensures j == i && v == w {
      SetFaithful(start, ops, j);
      ProjectLastPut(ops, j, key);
    }
  }

  lemma {:induction false} SetFaithful(start: Sets, ops: seq<CacheOp>, i: nat)
    requires IsFresh(start) && i < TOTAL_SETS
    ensures Faithful(CacheRun(start, ops)[i], Project(ops, i))
  {
    hide CacheRun, SetRun, Project, Faithful, SetIndex;
    SetsAreIndependent(start, ops, i);
    ProjectOk(ops, i);
    RunFaithful(start[i].pages, Project(ops, i));
  }

  /** After any operations by any number of users, a hit returns the last put page. */
  lemma CacheHit(start: Sets, ops: seq<CacheOp>, key: nat)
    requires IsFresh(start)
    ensures var hit := CacheGet(CacheRun(start, ops), key).0; hit.Some? ==> hit == LastPut(ops, key)
  {
    hide CacheRun, SetRun, LastPut, Project, SetIndex;
    if key != EMPTY_KEY {
      var i := SetIndex(key);
      SetsAreIndependent(start, ops, i);
      ProjectOk(ops, i);
      ProjectLastPut(ops, i, key);
      HitIsLastPut(start[i].pages, Project(ops, i), key);
    }
  }

  /** The way a put of `key` writes. */
  function WayFor(c: Sets, key: nat): nat { Target(c[SetIndex(key)], key) }

  /** The put at position `j` wrote its key's page to way `w`, and no later put of another
      key that reached the set chose that way. */
  ghost predicate StillThere(start: Sets, ops: seq<CacheOp>, key: nat, j: nat, w: nat) {
    && j < |ops| && ops[j].Put? && ops[j].key == key && WayFor(CacheRun(start, ops[..j]), key) == w
    && forall l :: j < l < |ops| && Displaces(ops[l], key) ==> WayFor(CacheRun(start, ops[..l]), ops[l].key) != w
  }

  /** A put of another key into the key's set. */
  ghost predicate Displaces(op: CacheOp, key: nat) {
    op.Put? && op.key != key && op.key != EMPTY_KEY && SetIndex(op.key) == SetIndex(key)
  }

  /** A get right after a put of its key returns the page put, whatever came before. */
  lemma PutThenGet(start: Sets, ops: seq<CacheOp>, key: nat, page: seq<byte>)
    requires key != EMPTY_KEY
    ensures CacheGet(CacheRun(start, ops + [Put(key, page)]), key).0 == Some(page)
  {
    hide SetIndex, SetPut, SetGet;
    assert (ops + [Put(key, page)])[..|ops|] == ops;
    SetPutThenGet(CacheRun(start, ops)[SetIndex(key)], key, page);
  }

  /** In every run: a get hits if and only if its key was put and no later put of
      another key has been given that key's way. */
  lemma {:induction false} HitsIff(start: Sets, ops: seq<CacheOp>, key: nat)
    requires IsFresh(start)
    ensures CacheGet(CacheRun(start, ops), key).0.Some? <==>
      key != EMPTY_KEY && exists j: nat, w: nat :: StillThere(start, ops, key, j, w)
  {
    hide CacheRun, SetIndex, StillThere, IsFresh;
    if key != EMPTY_KEY {
      var s := CacheRun(start, ops)[SetIndex(key)];
      if FindWay(s.ids, key).Some? {
        var w := FindWay(s.ids, key).value;
        SitsIff(start, ops, key, w);
        var j: nat :| StillThere(start, ops, key, j, w);
      }
      if exists j: nat, w: nat :: StillThere(start, ops, key, j, w) {
        var j: nat, w: nat :| StillThere(start, ops, key, j, w);
        SitsIff(start, ops, key, w);
      }
    }
  }

  lemma {:induction false} SitsIff(start: Sets, ops: seq<CacheOp>, key: nat, w: nat)
    requires IsFresh(start) && key != EMPTY_KEY
    ensures FindWay(CacheRun(start, ops)[SetIndex(key)].ids, key) == Some(w) <==>
      exists j: nat :: StillThere(start, ops, key, j, w)
  {
    hide SetIndex, FindWay, CacheRun, IsFresh;
    if ops == [] {
      NotYetThere(start, key);
    } else {
      var front, op := ops[..|ops| - 1], ops[|ops| - 1];
      SitsIff(start, front, key, w);
      assert ops == front + [op];
      StayStep(start, front, op, key, w);
      SitStep(start, front, op, key, w);
    }
  }

  lemma NotYetThere(start: Sets, key: nat)
    requires IsFresh(start) && key != EMPTY_KEY
    ensures FindWay(CacheRun(start, [])[SetIndex(key)].ids, key).None?
  {
    hide SetIndex;
    assert start[SetIndex(key)] == EmptySet(start[SetIndex(key)].pages);
  }

  /** One more operation, told from the positions of puts. */
  lemma StayStep(start: Sets, front: seq<CacheOp>, op: CacheOp, key: nat, w: nat)
    ensures (exists j: nat :: StillThere(start, front + [op], key, j, w)) <==>
      if op.Put? && op.key == key
      then WayFor(CacheRun(start, front), key) == w || exists j: nat :: StillThere(start, front, key, j, w)
      else (exists j: nat :: StillThere(start, front, key, j, w))
           && (Displaces(op, key) ==> WayFor(CacheRun(start, front), op.key) != w)
  {
    hide SetIndex, CacheRun, WayFor, Displaces;
    var ops, n := front + [op], |front|;
    assert ops[..n] == front && ops[n] == op;
    assert forall l :: 0 <= l < n ==> ops[l] == front[l] && ops[..l] == front[..l];
    if op.key == key { SelfNever(op, key); }
    if exists j: nat :: StillThere(start, ops, key, j, w) {
      var j: nat :| StillThere(start, ops, key, j, w);
      if j < n {
        assert StillThere(start, front, key, j, w);
        if Displaces(op, key) { assert WayFor(CacheRun(start, ops[..n]), ops[n].key) != w; }
      }
    }
    if exists j: nat :: StillThere(start, front, key, j, w) {
      var j: nat :| StillThere(start, front, key, j, w);
      if Displaces(op, key) ==> WayFor(CacheRun(start, front), op.key) != w {
        assert StillThere(start, ops, key, j, w);
      }
    }
    if op.Put? && op.key == key && WayFor(CacheRun(start, front), key) == w {
      assert StillThere(start, ops, key, n, w);
    }
  }

  lemma SelfNever(op: CacheOp, key: nat)
    requires op.key == key
    ensures !Displaces(op, key)
  {
  }

  /** One more operation, told from the tags of the set. */
  lemma SitStep(start: Sets, front: seq<CacheOp>, op: CacheOp, key: nat, w: nat)
    requires IsFresh(start) && key != EMPTY_KEY
    ensures var was := FindWay(CacheRun(start, front)[SetIndex(key)].ids, key) == Some(w);
      FindWay(CacheRun(start, front + [op])[SetIndex(key)].ids, key) == Some(w) <==>
        if op.Put? && op.key == key then WayFor(CacheRun(start, front), key) == w || was
        else was && (Displaces(op, key) ==> WayFor(CacheRun(start, front), op.key) != w)
  {
    hide SetIndex, IsFresh, UpdateLru, Target, FindWay, LastPut;
    assert (front + [op])[..|front|] == front;
    SetFaithful(start, front, SetIndex(key));
    if op.Put? && op.key != EMPTY_KEY && SetIndex(op.key) == SetIndex(key) {
      TagsAfterPut(CacheRun(start, front)[SetIndex(key)], op.key, op.page, key, w);
    }
  }

  /** Whatever the cache holds, it holds at most sixteen pages of one snapshot. */
  lemma SixteenPerSnapshot(c: Sets, snap: nat, pas: set<nat>)
    requires snap < SNAPSHOTS
    requires forall pa :: pa in pas ==> pa < PA_LIMIT && CacheGet(c, EncodeKey(pa, snap)).0.Some?
    ensures |pas| <= WAYS
  {
    hide SetIndex, EncodeKey, PaOf;
    var ids := c[SetIndex(EncodeKey(0, snap))].ids;
    var held := seq(WAYS, w requires 0 <= w < WAYS => PaOf(ids[w]));
    forall pa | pa in pas ensures pa in held {
      SetOfSnapshot(pa, snap, 0, snap);
      KeyPacking(pa, snap, 0);
      var w := FindWay(ids, EncodeKey(pa, snap)).value;
      assert held[w] == pa;
    }
    AtMostLength(pas, held);
  }

  /** Whenever a put has to evict, in any set, after any operations: the victim is
      the exact least recently used way of that set, or one untouched for at
      least 255 of its updates, and never the most recently used. */
  lemma CacheEvictsLru(start: Sets, ops: seq<CacheOp>, key: nat)
    requires IsFresh(start)
    requires var s := CacheRun(start, ops)[SetIndex(key)];
      FindWay(s.ids, key).None? && FindWay(s.ids, EMPTY_KEY).None?
    ensures var i := SetIndex(key);
      var h, v := Touches(start[i], Project(ops, i)), Target(CacheRun(start, ops)[i], key);
      && h != [] && v != h[|h| - 1]
      && (Age(h, v) >= 255 || forall w :: 0 <= w < WAYS && w != v ==> Age(h, w) < Age(h, v))
  {
    hide CacheRun, SetRun, Touches, Project, SetIndex, Target, Age;
    var i := SetIndex(key);
    SetsAreIndependent(start, ops, i);
    assert start[i] == EmptySet(start[i].pages);
    EvictionIsLru(start[i].pages, Project(ops, i), key);
  }

  /* ---- the shared-memory region ---- */

  /** Way `w` carries the key, and holds the page. */
  ghost predicate Serves(s: CacheSet, w: nat, key: nat, page: seq<byte>) {
    w < |s.ids| == |s.pages| && s.ids[w] == key && s.pages[w] == page
  }

  datatype SetMetadata = SetMetadata(pageIds: seq<nat>, timestamps: seq<nat>)

  class Region {
    const meta: array2<SetMetadata>
    const data: array<Page>

    ghost predicate Valid()
      reads meta
    {
      && meta.Length0 == METADATA_PAGES && meta.Length1 == SETS_PER_META && data.Length == TOTAL_SLOTS
      && forall m, s :: 0 <= m < METADATA_PAGES && 0 <= s < SETS_PER_META ==>
           |meta[m, s].pageIds| == |meta[m, s].timestamps| == WAYS
    }

    /** The set at (m, s): its metadata, and the data slots addressed for it. */
    ghost function SetAt(m: nat, s: nat): CacheSet
      requires Valid() && m < METADATA_PAGES && s < SETS_PER_META
      reads meta, data
    {
      SlotRange(m, s);
      CacheSet(meta[m, s].pageIds, meta[m, s].timestamps, data[SlotOf(m, s, 0)..SlotOf(m, s, 0) + WAYS])
    }

    /** The region holds exactly these sets. */
    ghost predicate Shows(c: Sets)
      reads meta, data
    {
      Valid() && forall m: nat, s: nat :: m < METADATA_PAGES && s < SETS_PER_META ==> c[SetNumber(m, s)] == SetAt(m, s)
    }

    /** `init_metadata`: every set empty with zero stamps. */
    constructor ()
      ensures Shows(FreshSets()) && fresh(meta) && fresh(data)
    {
      var empty := SetMetadata(seq(WAYS, _ => EMPTY_KEY), seq(WAYS, _ => 0));
      meta := new SetMetadata[METADATA_PAGES, SETS_PER_META]((_, _) => empty);
      data := new Page[TOTAL_SLOTS](_ => ZeroPage());
      new;
      forall m: nat, s: nat | m < METADATA_PAGES && s < SETS_PER_META
        ensures FreshSets()[SetNumber(m, s)] == SetAt(m, s)
      {
        SlotRange(m, s);
        assert data[SlotOf(m, s, 0)..SlotOf(m, s, 0) + WAYS] == seq(WAYS, _ => ZeroPage());
      }
    }

    method GetPage(key: nat, out: array<byte>) returns (hit: bool)
      requires Valid() && out.Length == PAGE_SIZE
      modifies meta, out
      ensures Valid()
      ensures !hit ==> out[..] == old(out[..])
      ensures hit <==> key != EMPTY_KEY && key in old(SetAt(Locate(key).0, Locate(key).1)).ids
      ensures hit ==> exists w :: 0 <= w < WAYS && Serves(old(SetAt(Locate(key).0, Locate(key).1)), w, key, out[..])
      ensures key != EMPTY_KEY ==>
        (if hit then Some(out[..]) else None, SetAt(Locate(key).0, Locate(key).1)) ==
          SetGet(old(SetAt(Locate(key).0, Locate(key).1)), key)
      ensures forall m: nat, s: nat ::
        m < METADATA_PAGES && s < SETS_PER_META && (key == EMPTY_KEY || (m, s) != Locate(key)) ==>
        SetAt(m, s) == old(SetAt(m, s))
    {
      hide Locate, SlotOf, FindWay, UpdateLru;
      if key == EMPTY_KEY { return false; }
      var (m, s) := Locate(key);
      SlotRange(m, s);
      var way := FindWaySimd(meta[m, s].pageIds, key);
      if way.None? { return false; }
      var w := way.value;
      ghost var before := SetAt(m, s);
      var page := data[SlotOf(m, s, w)];
      assert page == before.pages[w];
      CopyInto(out, 0, page);
      assert out[..] == page;
      var stamps := RefreshStamps(meta[m, s].timestamps, w);
      meta[m, s] := meta[m, s].(timestamps := stamps);
      assert Serves(before, w, key, out[..]);
      return true;
    }

    method PutPage(key: nat, page: Page)
      requires Valid()
      modifies meta, data
      ensures Valid()
      ensures key != EMPTY_KEY ==>
        SetAt(Locate(key).0, Locate(key).1) == SetPut(old(SetAt(Locate(key).0, Locate(key).1)), key, page)
      ensures forall m: nat, s: nat ::
        m < METADATA_PAGES && s < SETS_PER_META && (key == EMPTY_KEY || (m, s) != Locate(key)) ==>
        SetAt(m, s) == old(SetAt(m, s))
    {
      hide Locate, SlotOf, UpdateLru;
      if key == EMPTY_KEY { return; }
      var (m, s) := Locate(key);
      ghost var before := SetAt(m, s);
      var way := FindWaySimd(meta[m, s].pageIds, key);
      if way.None? { way := FindWaySimd(meta[m, s].pageIds, EMPTY_KEY); }
      var w: nat;
      if way.Some? { w := way.value; } else { w := FindVictim(meta[m, s].timestamps); }
      assert w == Target(before, key);
      WriteWay(m, s, w, key, page);
    }

    /** Copies the page into its slot, sets the tag and refreshes the stamp. */
    method WriteWay(m: nat, s: nat, w: nat, key: nat, page: Page)
      requires Valid() && m < METADATA_PAGES && s < SETS_PER_META && w < WAYS
      modifies meta, data
      ensures Valid()
      ensures SetAt(m, s) ==
        CacheSet(old(SetAt(m, s)).ids[w := key], UpdateLru(old(SetAt(m, s)).stamps, w),
                 old(SetAt(m, s)).pages[w := page])
      ensures forall m': nat, s': nat :: m' < METADATA_PAGES && s' < SETS_PER_META && (m', s') != (m, s) ==>
        SetAt(m', s') == old(SetAt(m', s'))
    {
      hide SlotOf, UpdateLru;
      SlotRange(m, s);
      data[SlotOf(m, s, w)] := page;
      var stamps := RefreshStamps(meta[m, s].timestamps, w);
      meta[m, s] := SetMetadata(meta[m, s].pageIds[w := key], stamps);
      forall m': nat, s': nat | m' < METADATA_PAGES && s' < SETS_PER_META && (m', s') != (m, s)
        ensures SetAt(m', s') == old(SetAt(m', s'))
      {
        SlotsApart(m, s, w, m', s');
        SlotRange(m', s');
        var base := SlotOf(m', s', 0);
        assert data[base..base + WAYS] == old(data[base..base + WAYS]);
      }
    }
  }

  /** The eviction loop. */
  method FindVictim(stamps: seq<nat>) returns (minW: nat)
    requires |stamps| == WAYS
    ensures minW == Victim(stamps)
  {
    var minTs := 255;
    minW := 0;
    for w := 0 to WAYS
      invariant 0 <= minTs && minW < |stamps| && VictimFrom(stamps, w, minTs, minW) == Victim(stamps)
    {
      if stamps[w] < minTs { minTs, minW := stamps[w], w; }
    }
  }

  lemma SlotRange(m: nat, s: nat)
    requires m < METADATA_PAGES && s < SETS_PER_META
    ensures SlotOf(m, s, 0) + WAYS <= TOTAL_SLOTS
    ensures forall w: nat :: SlotOf(m, s, w) == SlotOf(m, s, 0) + w
  {
  }

  /** A slot of one set lies outside the slots of every other set. */
  lemma SlotsApart(m: nat, s: nat, w: nat, m': nat, s': nat)
    requires m < METADATA_PAGES && s < SETS_PER_META && w < WAYS && m' < METADATA_PAGES && s' < SETS_PER_META
    requires (m, s) != (m', s')
    ensures !(SlotOf(m', s', 0) <= SlotOf(m, s, w) < SlotOf(m', s', 0) + WAYS)
  {
  }
}
