/** The set-associative page cache: lookup, recency stamps, eviction, and the
    addressing of its shared memory. */
module Cache {
  import opened Words

  const METADATA_PAGES := 512
  const SETS_PER_META := 16
  const WAYS := 16
  const TOTAL_SETS := METADATA_PAGES * SETS_PER_META
  const TOTAL_SLOTS := TOTAL_SETS * WAYS
  const EMPTY_KEY := U64 - 1
  const FIB_MUL := 0x9e3779b97f4a7c15

  /* ---- addressing ---- */

  /** `locate`: metadata page and set of a key. */
  function Locate(key: nat): (l: (nat, nat))
    ensures l.0 < METADATA_PAGES && l.1 < SETS_PER_META
  {
    var hash := (key * FIB_MUL) % U64;
    ((hash / 16) % METADATA_PAGES, hash % SETS_PER_META)
  }

  /** The inverse of the multiplier modulo 2^64. */
  const FIB_INVERSE := 0xf1de83e19937733d

  lemma InverseWorks(x: nat)
    ensures (x * FIB_MUL * FIB_INVERSE) % TOTAL_SETS == x % TOTAL_SETS
  {
    assert FIB_MUL * FIB_INVERSE == 1 + (FIB_MUL * FIB_INVERSE / U64) * U64;
    var q := FIB_MUL * FIB_INVERSE / U64;
    var r := q * (U64 / TOTAL_SETS);
    Unfold(x, FIB_MUL, FIB_INVERSE, r, TOTAL_SETS);
    ModMultiple(x, x * r, TOTAL_SETS);
  }

  lemma Unfold(x: nat, a: nat, b: nat, q: nat, n: nat)
    requires a * b == 1 + q * n
    ensures x * a * b == x + (x * q) * n
  {
    assert x * a * b == x * (a * b);
    assert x * (1 + q * n) == x + x * (q * n);
    assert x * (q * n) == (x * q) * n;
  }

  lemma LowBits(p: nat)
    ensures (p % U64) % TOTAL_SETS == p % TOTAL_SETS
  {
    var q, r := p / U64, p % U64;
    assert p == r + (q * 0x8_0000_0000_0000) * TOTAL_SETS;
    ModMultiple(r, q * 0x8_0000_0000_0000, TOTAL_SETS);
  }

  lemma SplitBits(h: nat)
    ensures (h / 16) % METADATA_PAGES * SETS_PER_META + h % SETS_PER_META == h % TOTAL_SETS
  {
    var q, r := h / 8192, h % 8192;
    assert h == 8192 * q + r && r < 8192;
    assert h / 16 == 512 * q + r / 16 && h % 16 == r % 16;
    assert (512 * q + r / 16) % 512 == r / 16;
  }

  /** The number of the set is the product's remainder. */
  lemma LocateIs(key: nat)
    ensures Locate(key).0 * SETS_PER_META + Locate(key).1 == (key * FIB_MUL) % TOTAL_SETS
  {
    LowBits(key * FIB_MUL);
    SplitBits((key * FIB_MUL) % U64);
  }

  /** Two keys share a set exactly when they agree modulo the number of sets. */
  lemma SameSetIff(a: nat, b: nat)
    ensures Locate(a) == Locate(b) <==> a % TOTAL_SETS == b % TOTAL_SETS
  {
    hide Locate;
    LocateIs(a);
    LocateIs(b);
    ModProduct(a, FIB_MUL, TOTAL_SETS);
    ModProduct(b, FIB_MUL, TOTAL_SETS);
    ModProduct(a * FIB_MUL, FIB_INVERSE, TOTAL_SETS);
    ModProduct(b * FIB_MUL, FIB_INVERSE, TOTAL_SETS);
    InverseWorks(a);
    InverseWorks(b);
  }

  /** Every set of every metadata page is the set of some key that can be stored. */
  lemma LocateIsOnto(m: nat, s: nat) returns (key: nat)
    requires m < METADATA_PAGES && s < SETS_PER_META
    ensures key < EMPTY_KEY && Locate(key) == (m, s)
  {
    hide Locate;
    var n := m * SETS_PER_META + s;
    key := Undone(n);
    LocateIs(key);
  }

  lemma Undone(n: nat) returns (key: nat)
    requires n < TOTAL_SETS
    ensures key < TOTAL_SETS && (key * FIB_MUL) % TOTAL_SETS == n
  {
    key := (n * FIB_INVERSE) % TOTAL_SETS;
    ModProduct(n * FIB_INVERSE, FIB_MUL, TOTAL_SETS);
    Commute(n);
    InverseWorks(n);
  }

  lemma Commute(n: nat)
    ensures n * FIB_INVERSE * FIB_MUL == n * FIB_MUL * FIB_INVERSE
  {
  }

  function SlotOf(meta: nat, set': nat, way: nat): nat {
    meta * (SETS_PER_META * WAYS) + set' * WAYS + way
  }

  /** The decomposition `slot_key` uses. */
  function SlotParts(slot: nat): (nat, nat, nat) {
    var inPage := slot % (SETS_PER_META * WAYS);
    (slot / (SETS_PER_META * WAYS), inPage / WAYS, inPage % WAYS)
  }

  /** Slots and (metadata page, set, way) triples correspond one to one. */
  lemma SlotBijection(meta: nat, set': nat, way: nat, slot: nat)
    requires meta < METADATA_PAGES && set' < SETS_PER_META && way < WAYS && slot < TOTAL_SLOTS
    ensures SlotOf(meta, set', way) < TOTAL_SLOTS && SlotParts(SlotOf(meta, set', way)) == (meta, set', way)
    ensures var p := SlotParts(slot);
      p.0 < METADATA_PAGES && p.1 < SETS_PER_META && p.2 < WAYS && SlotOf(p.0, p.1, p.2) == slot
  {
    assert SlotOf(meta, set', way) == 256 * meta + (16 * set' + way) && 16 * set' + way < 256;
  }

  /* ---- find_way ---- */

  /** The scalar form: the lowest way holding `key`. */
  function FindWay(ids: seq<nat>, key: nat): (w: Option<nat>)
    ensures w.Some? ==> w.value < |ids| && ids[w.value] == key && forall i :: 0 <= i < w.value ==> ids[i] != key
    ensures w.None? ==> forall i :: 0 <= i < |ids| ==> ids[i] != key
  {
    if ids == [] then None
    else if ids[0] == key then Some(0)
    else match FindWay(ids[1..], key) case None => None case Some(w) => Some(w + 1)
  }

  function Or(a: nat, b: nat): nat
    decreases a + b
  {
    if a + b == 0 then 0
    else (if a % 2 == 1 || b % 2 == 1 then 1 else 0) + 2 * Or(a / 2, b / 2)
  }

  lemma {:induction false} OrShifted(a: nat, m: nat, k: nat)
    requires a < Pow2(k)
    ensures Or(a, m * Pow2(k)) == a + m * Pow2(k)
    decreases k
  {
    if k == 0 {
      OrZero(m);
    } else {
      var b := m * Pow2(k - 1);
      assert m * Pow2(k) == 2 * b;
      OrShifted(a / 2, m, k - 1);
      OrStep(a, b);
    }
  }

  lemma OrStep(a: nat, b: nat)
    ensures Or(a, 2 * b) == a % 2 + 2 * Or(a / 2, b)
  {
    assert (2 * b) / 2 == b && (2 * b) % 2 == 0;
  }

  lemma {:induction false} OrZero(m: nat)
    ensures Or(0, m) == m
  {
    if m > 0 { OrZero(m / 2); }
  }

  /** One bit per way, set where the way holds `key`. */
  ghost function MaskUpTo(ids: seq<nat>, key: nat, n: nat): nat
    requires n <= |ids|
  {
    if n == 0 then 0 else MaskUpTo(ids, key, n - 1) + if ids[n - 1] == key then Pow2(n - 1) else 0
  }

  lemma {:induction false} MaskFacts(ids: seq<nat>, key: nat, n: nat)
    requires n <= |ids|
    ensures MaskUpTo(ids, key, n) < Pow2(n)
    ensures MaskUpTo(ids, key, n) == 0 <==> forall i :: 0 <= i < n ==> ids[i] != key
  {
    if n > 0 { MaskFacts(ids, key, n - 1); }
  }

  /** The mask is an odd multiple of the bit of its lowest matching way. */
  lemma {:induction false} MaskLowest(ids: seq<nat>, key: nat, n: nat, f: nat) returns (x: nat)
    requires f < n <= |ids| && ids[f] == key && forall i :: 0 <= i < f ==> ids[i] != key
    ensures MaskUpTo(ids, key, n) == Pow2(f) * (2 * x + 1)
  {
    if n == f + 1 {
      MaskFacts(ids, key, f);
      x := 0;
    } else {
      var y := MaskLowest(ids, key, n - 1, f);
      if ids[n - 1] == key {
        var d := Pow2(n - 2 - f);
        Pow2Add(f, n - 1 - f);
        Gather(Pow2(f), y, d);
        x := y + d;
      } else {
        x := y;
      }
    }
  }

  lemma Gather(p: nat, y: nat, d: nat)
    ensures p * (2 * y + 1) + p * (2 * d) == p * (2 * (y + d) + 1)
  {
  }

  lemma {:induction false} TrailingZerosOf(f: nat, q: nat)
    requires q % 2 == 1
    ensures Pow2(f) * q > 0 && TrailingZeros(Pow2(f) * q) == f
  {
    if f == 0 {
      assert Pow2(0) * q == q;
    } else {
      TrailingZerosOf(f - 1, q);
      Pow2Step(f);
      TwiceProduct(Pow2(f), Pow2(f - 1), q);
      TrailingZerosTwice(Pow2(f - 1) * q);
    }
  }

  lemma TwiceProduct(x: nat, y: nat, q: nat)
    requires x == 2 * y
    ensures x * q == 2 * (y * q)
  {
  }

  lemma TrailingZerosTwice(h: nat)
    requires h > 0
    ensures TrailingZeros(2 * h) == 1 + TrailingZeros(h)
  {
    assert (2 * h) % 2 == 0 && (2 * h) / 2 == h;
  }

  /** The SIMD form: two lanes per step into a mask, then its lowest bit. */
  method FindWaySimd(ids: seq<nat>, key: nat) returns (w: Option<nat>)
    requires |ids| == WAYS
    ensures w == FindWay(ids, key)
  {
    hide Or, TrailingZeros, MaskUpTo, Pow2;
    var mask := 0;
    MaskStart(ids, key);
    for i := 0 to 8
      invariant mask == MaskUpTo(ids, key, 2 * i)
    {
      var m := (if ids[2 * i] == key then 1 else 0) + (if ids[2 * i + 1] == key then 2 else 0);
      MaskFacts(ids, key, 2 * i);
      OrShifted(mask, m, 2 * i);
      MaskLanes(ids, key, i, m);
      mask := Or(mask, m * Pow2(2 * i));
    }
    MaskFacts(ids, key, WAYS);
    if mask == 0 { return None; }
    ghost var f := FindWay(ids, key).value;
    ghost var x := MaskLowest(ids, key, WAYS, f);
    TrailingZerosOf(f, 2 * x + 1);
    return Some(TrailingZeros(mask));
  }

  lemma MaskStart(ids: seq<nat>, key: nat)
    ensures MaskUpTo(ids, key, 0) == 0
  {
  }

  lemma MaskLanes(ids: seq<nat>, key: nat, i: nat, m: nat)
    requires 2 * i + 2 <= |ids|
    requires m == (if ids[2 * i] == key then 1 else 0) + (if ids[2 * i + 1] == key then 2 else 0)
    ensures MaskUpTo(ids, key, 2 * i + 2) == MaskUpTo(ids, key, 2 * i) + m * Pow2(2 * i)
  {
    assert Pow2(2 * i + 1) == 2 * Pow2(2 * i);
  }

  /* ---- one set ---- */

  /** Tags, recency stamps and pages of the sixteen ways of a set. */
  datatype CacheSet = CacheSet(ids: seq<nat>, stamps: seq<nat>, pages: seq<seq<byte>>)

  function EmptySet(pages: seq<seq<byte>>): CacheSet {
    CacheSet(seq(WAYS, _ => EMPTY_KEY), seq(WAYS, _ => 0), pages)
  }

  /** Saturating decrement of all stamps, then 255 for the accessed way. */
  function UpdateLru(stamps: seq<nat>, way: nat): (r: seq<nat>)
    requires way < |stamps|
    ensures |r| == |stamps|
  {
    seq(|stamps|, i requires 0 <= i < |stamps| => if i == way then 255 else Lowered(stamps[i]))
  }

  function Lowered(stamp: nat): nat { if stamp == 0 then 0 else stamp - 1 }

  /** The portable form: a loop over the stamps, which also lowers the accessed one, and then its refresh. */
  method RefreshStamps(stamps: seq<nat>, way: nat) returns (r: seq<nat>)
    requires way < |stamps|
    ensures r == UpdateLru(stamps, way)
  {
    r := stamps;
    for w := 0 to |stamps|
      invariant |r| == |stamps|
      invariant forall i :: 0 <= i < w ==> r[i] == Lowered(stamps[i])
      invariant forall i :: w <= i < |r| ==> r[i] == stamps[i]
    {
      r := r[w := if r[w] == 0 then 0 else r[w] - 1];
    }
    r := r[way := 255];
  }

  /** The eviction loop from way `w` on, with the minimum found so far. */
  function VictimFrom(stamps: seq<nat>, w: nat, minTs: nat, minW: nat): (v: nat)
    requires w <= |stamps| && minW < |stamps|
    ensures v < |stamps|
    decreases |stamps| - w, stamps
  {
    if w == |stamps| then minW
    else if stamps[w] < minTs then VictimFrom(stamps, w + 1, stamps[w], w)
    else VictimFrom(stamps, w + 1, minTs, minW)
  }

  function Victim(stamps: seq<nat>): (v: nat)
    requires |stamps| > 0
    ensures v < |stamps|
  {
    VictimFrom(stamps, 0, 255, 0)
  }

  /** The way `put` writes: the key's own, else an empty one, else the victim. */
  function Target(s: CacheSet, key: nat): (w: nat)
    requires |s.ids| == |s.stamps| > 0
    ensures w < |s.ids|
  {
    match FindWay(s.ids, key)
    case Some(w) => w
    case None => match FindWay(s.ids, EMPTY_KEY) case Some(w) => w case None => Victim(s.stamps)
  }

  function SetGet(s: CacheSet, key: nat): (Option<seq<byte>>, CacheSet)
    requires |s.ids| == |s.stamps| == |s.pages| > 0
  {
    match FindWay(s.ids, key)
    case None => (None, s)
    case Some(w) => (Some(s.pages[w]), s.(stamps := UpdateLru(s.stamps, w)))
  }

  function SetPut(s: CacheSet, key: nat, page: seq<byte>): CacheSet
    requires |s.ids| == |s.stamps| == |s.pages| > 0
  {
    var w := Target(s, key);
    CacheSet(s.ids[w := key], UpdateLru(s.stamps, w), s.pages[w := page])
  }

  lemma SetPutThenGet(s: CacheSet, key: nat, page: seq<byte>)
    requires |s.ids| == |s.stamps| == |s.pages| > 0
    ensures SetGet(SetPut(s, key, page), key).0 == Some(page)
  {
    hide UpdateLru, Victim;
    var t, w := SetPut(s, key, page), Target(s, key);
    assert t.ids[w] == key;
  }

  /** A put drops the tag of another key only if its own key is absent and no way is
      empty; all ways but the one it writes keep their tag and page. */
  lemma PutKeepsOthers(s: CacheSet, key: nat, page: seq<byte>)
    requires |s.ids| == |s.stamps| == |s.pages| > 0
    ensures var t, w := SetPut(s, key, page), Target(s, key);
      && |t.ids| == |s.ids| && |t.pages| == |s.pages|
      && t.ids[w] == key && t.pages[w] == page
      && (forall v :: 0 <= v < |s.ids| && v != w ==> t.ids[v] == s.ids[v] && t.pages[v] == s.pages[v])
      && (key in s.ids || EMPTY_KEY in s.ids ==> s.ids[w] == key || s.ids[w] == EMPTY_KEY)
      && (key in s.ids ==> s.ids[w] == key)
  {
    hide UpdateLru, Victim;
  }

  lemma TagsAfterPut(s: CacheSet, other: nat, page: seq<byte>, key: nat, w: nat)
    requires |s.ids| == |s.stamps| == |s.pages| > 0 && key != EMPTY_KEY
    requires forall u, v :: 0 <= u < v < |s.ids| && s.ids[u] != EMPTY_KEY ==> s.ids[u] != s.ids[v]
    ensures FindWay(SetPut(s, other, page).ids, key) == Some(w) <==>
      if other == key then Target(s, key) == w || FindWay(s.ids, key) == Some(w)
      else FindWay(s.ids, key) == Some(w) && Target(s, other) != w
  {
    hide UpdateLru, Victim;
    PutKeepsOthers(s, other, page);
  }

  /* ---- histories of one set ---- */

  datatype CacheOp = Get(key: nat) | Put(key: nat, page: seq<byte>)

  /** Operations reach a set only for keys other than the empty tag. */
  ghost predicate OpsOk(ops: seq<CacheOp>) {
    forall i :: 0 <= i < |ops| ==> ops[i].key != EMPTY_KEY
  }

  function SetRun(start: CacheSet, ops: seq<CacheOp>): (s: CacheSet)
    requires |start.ids| == |start.stamps| == |start.pages| == WAYS
    ensures |s.ids| == |s.stamps| == |s.pages| == WAYS
  {
    if ops == [] then start
    else
      var s := SetRun(start, ops[..|ops| - 1]);
      match ops[|ops| - 1]
      case Get(key) => SetGet(s, key).1
      case Put(key, page) => SetPut(s, key, page)
  }

  /** The page of the last put of a key. */
  function LastPut(ops: seq<CacheOp>, key: nat): Option<seq<byte>> {
    if ops == [] then None
    else if ops[|ops| - 1].Put? && ops[|ops| - 1].key == key then Some(ops[|ops| - 1].page)
    else LastPut(ops[..|ops| - 1], key)
  }

  /** Tags other than the empty one are unique, and each way holds its key's last put. */
  ghost predicate Faithful(s: CacheSet, ops: seq<CacheOp>)
    requires |s.ids| == |s.pages|
  {
    && (forall v, w :: 0 <= v < w < |s.ids| && s.ids[v] != EMPTY_KEY ==> s.ids[v] != s.ids[w])
    && (forall w :: 0 <= w < |s.ids| && s.ids[w] != EMPTY_KEY ==> LastPut(ops, s.ids[w]) == Some(s.pages[w]))
  }

  lemma {:induction false} RunFaithful(pages: seq<seq<byte>>, ops: seq<CacheOp>)
    requires |pages| == WAYS && OpsOk(ops)
    ensures Faithful(SetRun(EmptySet(pages), ops), ops)
  {
    if ops != [] {
      var front, op := ops[..|ops| - 1], ops[|ops| - 1];
      RunFaithful(pages, front);
      var s := SetRun(EmptySet(pages), front);
      hide SetRun;
      StepFaithful(s, front, op);
      assert ops == front + [op];
    }
  }

  lemma StepFaithful(s: CacheSet, ops: seq<CacheOp>, op: CacheOp)
    requires |s.ids| == |s.stamps| == |s.pages| == WAYS && Faithful(s, ops) && op.key != EMPTY_KEY
    ensures Faithful(match op case Get(key) => SetGet(s, key).1 case Put(key, page) => SetPut(s, key, page), ops + [op])
  {
    assert (ops + [op])[..|ops|] == ops;
  }

  /** After any history, a hit returns the page of the last put of that key. */
  lemma HitIsLastPut(pages: seq<seq<byte>>, ops: seq<CacheOp>, key: nat)
    requires |pages| == WAYS && OpsOk(ops) && key != EMPTY_KEY
    ensures var hit := SetGet(SetRun(EmptySet(pages), ops), key).0;
      hit.Some? ==> LastPut(ops, key) == hit
  {
    hide SetRun;
    RunFaithful(pages, ops);
  }

  /* ---- recency ---- */

  /** The ways whose stamps were refreshed, in order. */
  function Touches(start: CacheSet, ops: seq<CacheOp>): (h: seq<nat>)
    requires |start.ids| == |start.stamps| == |start.pages| == WAYS
    ensures forall i :: 0 <= i < |h| ==> h[i] < WAYS
  {
    if ops == [] then []
    else
      var front, s := Touches(start, ops[..|ops| - 1]), SetRun(start, ops[..|ops| - 1]);
      match ops[|ops| - 1]
      case Get(key) => (match FindWay(s.ids, key) case None => front case Some(w) => front + [w])
      case Put(key, _) => front + [Target(s, key)]
  }

  /** Updates of the set since way `w` was last refreshed. */
  function Age(h: seq<nat>, w: nat): nat {
    if h == [] || h[|h| - 1] == w then 0 else 1 + Age(h[..|h| - 1], w)
  }

  function StampAfter(h: seq<nat>, w: nat): nat {
    if h == [] then 0
    else if h[|h| - 1] == w then 255
    else var t := StampAfter(h[..|h| - 1], w); if t == 0 then 0 else t - 1
  }

  lemma {:induction false} StampOfAge(h: seq<nat>, w: nat)
    requires w in h
    ensures StampAfter(h, w) == if Age(h, w) >= 255 then 0 else 255 - Age(h, w)
  {
    if h[|h| - 1] != w {
      assert h == h[..|h| - 1] + [h[|h| - 1]];
      StampOfAge(h[..|h| - 1], w);
    }
  }

  lemma {:induction false} AgeFinds(h: seq<nat>, w: nat)
    requires w in h
    ensures Age(h, w) < |h| && h[|h| - 1 - Age(h, w)] == w
  {
    if h[|h| - 1] != w {
      assert h == h[..|h| - 1] + [h[|h| - 1]];
      AgeFinds(h[..|h| - 1], w);
    }
  }

  lemma {:induction false} StampsFollowTouches(pages: seq<seq<byte>>, ops: seq<CacheOp>)
    requires |pages| == WAYS
    ensures forall w :: 0 <= w < WAYS ==>
      SetRun(EmptySet(pages), ops).stamps[w] == StampAfter(Touches(EmptySet(pages), ops), w)
  {
    if ops != [] {
      hide Target, FindWay;
      var start := EmptySet(pages);
      StampsFollowTouches(pages, ops[..|ops| - 1]);
      var h := Touches(start, ops[..|ops| - 1]);
      assert forall x :: (h + [x])[..|h|] == h;
    }
  }

  /** A way with a tag has been refreshed at least once. */
  lemma {:induction false} TaggedWasTouched(pages: seq<seq<byte>>, ops: seq<CacheOp>, w: nat)
    requires |pages| == WAYS && w < WAYS && SetRun(EmptySet(pages), ops).ids[w] != EMPTY_KEY
    ensures w in Touches(EmptySet(pages), ops)
  {
    if ops != [] {
      hide Target, FindWay;
      var front := ops[..|ops| - 1];
      if SetRun(EmptySet(pages), front).ids[w] != EMPTY_KEY { TaggedWasTouched(pages, front, w); }
    }
  }

  lemma {:induction false} VictimIsLeast(stamps: seq<nat>, w: nat, minTs: nat, minW: nat)
    requires w <= |stamps| && minW < |stamps| && (minTs < 255 ==> stamps[minW] == minTs)
    requires forall i :: 0 <= i < w ==> minTs <= stamps[i]
    ensures var v := VictimFrom(stamps, w, minTs, minW);
      (exists i :: 0 <= i < |stamps| && stamps[i] < 255) && (minTs <= 255) ==>
        forall i :: 0 <= i < |stamps| ==> stamps[v] <= stamps[i]
    decreases |stamps| - w
  {
    if w < |stamps| {
      if stamps[w] < minTs {
        VictimIsLeast(stamps, w + 1, stamps[w], w);
      } else {
        VictimIsLeast(stamps, w + 1, minTs, minW);
      }
    }
  }

  /** After any history that filled the set, the evicted way is the exact least
      recently used one, or has not been used for at least 255 updates; and it
      is never the most recently used. */
  lemma EvictionIsLru(pages: seq<seq<byte>>, ops: seq<CacheOp>, key: nat)
    requires |pages| == WAYS
    requires var s := SetRun(EmptySet(pages), ops);
      FindWay(s.ids, key).None? && FindWay(s.ids, EMPTY_KEY).None?
    ensures var h, v := Touches(EmptySet(pages), ops), Target(SetRun(EmptySet(pages), ops), key);
      && h != [] && v != h[|h| - 1]
      && (Age(h, v) >= 255 || forall w :: 0 <= w < WAYS && w != v ==> Age(h, w) < Age(h, v))
  {
    hide SetRun, Touches, VictimFrom;
    var s, h := SetRun(EmptySet(pages), ops), Touches(EmptySet(pages), ops);
    var v := Target(s, key);
    forall w: nat | w < WAYS
      ensures w in h && s.stamps[w] == (if Age(h, w) >= 255 then 0 else 255 - Age(h, w))
    {
      TaggedWasTouched(pages, ops, w);
      StampsFollowTouches(pages, ops);
      StampOfAge(h, w);
    }
    assert 0 in h && 1 in h;
    DistinctAges(h, 0, 1);
    VictimIsLeast(s.stamps, 0, 255, 0);
    forall w: nat | w < WAYS && w != v ensures Age(h, w) != Age(h, v) { DistinctAges(h, w, v); }
  }

  lemma DistinctAges(h: seq<nat>, v: nat, w: nat)
    requires v in h && w in h && v != w
    ensures Age(h, v) != Age(h, w)
  {
    AgeFinds(h, v);
    AgeFinds(h, w);
  }
}
