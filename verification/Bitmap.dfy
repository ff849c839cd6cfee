/** The dirty bitmap of a save: per-group population counts, their exclusive
    prefix sum, and the clear-lowest-bit loop that visits the dirty pages. */
module Bitmap {
  import opened Words

  const WORDS_PER_GROUP := 64

  function WordCount(total: nat): nat { (total + 63) / 64 }

  function GroupCount(total: nat): nat { (WordCount(total) + WORDS_PER_GROUP - 1) / WORDS_PER_GROUP }

  function Min(a: nat, b: nat): nat { if a < b then a else b }

  /** Drops the bits of the last word that lie past the last page. */
  function MaskLastWord(w: nat, wi: nat, total: nat): nat
    requires wi < WordCount(total)
  {
    if wi + 1 == WordCount(total) && total - wi * 64 < 64
    then And(w, Pow2(total - wi * 64) - 1)
    else w
  }

  ghost predicate BitmapFits(bitmap: seq<nat>, total: nat) {
    WordCount(total) <= |bitmap| && forall i :: 0 <= i < |bitmap| ==> bitmap[i] < U64
  }

  /** The dirty pages of one word, ascending. */
  function WordPages(bitmap: seq<nat>, total: nat, wi: nat): seq<nat>
    requires wi < WordCount(total) <= |bitmap|
  {
    BitsFrom(MaskLastWord(bitmap[wi], wi, total), wi * 64)
  }

  /** The dirty pages of the words in [a, b). */
  function PagesIn(bitmap: seq<nat>, total: nat, a: nat, b: nat): seq<nat>
    requires b <= WordCount(total) <= |bitmap|
    decreases b
  {
    if b <= a then [] else PagesIn(bitmap, total, a, b - 1) + WordPages(bitmap, total, b - 1)
  }

  function DirtyPages(bitmap: seq<nat>, total: nat): seq<nat>
    requires WordCount(total) <= |bitmap|
  {
    PagesIn(bitmap, total, 0, WordCount(total))
  }

  /* ---- what the bitmap means ---- */

  ghost predicate IsDirty(bitmap: seq<nat>, total: nat, p: nat) {
    p < total && p / 64 < |bitmap| && Bit(bitmap[p / 64], p % 64)
  }

  lemma {:induction false} HighBitsClear(w: nat, n: nat, i: nat)
    requires w < Pow2(n) && n <= i
    ensures !Bit(w, i)
  {
    if n == 0 { ZeroHasNoBits(i); } else { HighBitsClear(w / 2, n - 1, i - 1); }
  }

  lemma WordPagesExact(bitmap: seq<nat>, total: nat, wi: nat, p: nat)
    requires BitmapFits(bitmap, total) && wi < WordCount(total)
    ensures p in WordPages(bitmap, total, wi) <==> p / 64 == wi && IsDirty(bitmap, total, p)
  {
    hide BitsFrom, Bit;
    var w := bitmap[wi];
    BitsAreTheSetBits(MaskLastWord(w, wi, total), wi * 64);
    if p >= wi * 64 {
      var i := p - wi * 64;
      Pow2Of64();
      if i >= 64 { HighBitsClear(w, 64, i); }
      if wi + 1 == WordCount(total) && total - wi * 64 < 64 {
        MaskBits(w, total - wi * 64, i);
      }
      if i < 64 { assert p / 64 == wi && p % 64 == i; }
    }
  }

  lemma {:induction false} PagesInExact(bitmap: seq<nat>, total: nat, a: nat, b: nat, p: nat)
    requires BitmapFits(bitmap, total) && b <= WordCount(total)
    ensures p in PagesIn(bitmap, total, a, b) <==> a <= p / 64 < b && IsDirty(bitmap, total, p)
    decreases b
  {
    if a < b {
      hide WordPages, IsDirty;
      PagesInExact(bitmap, total, a, b - 1, p);
      WordPagesExact(bitmap, total, b - 1, p);
    }
  }

  ghost predicate Ascending(s: seq<nat>) {
    forall i, j :: 0 <= i < j < |s| ==> s[i] < s[j]
  }

  lemma {:induction false} PagesInAscending(bitmap: seq<nat>, total: nat, a: nat, b: nat)
    requires BitmapFits(bitmap, total) && b <= WordCount(total)
    ensures Ascending(PagesIn(bitmap, total, a, b))
    decreases b
  {
    if a < b {
      PagesInAscending(bitmap, total, a, b - 1);
      var front, back := PagesIn(bitmap, total, a, b - 1), WordPages(bitmap, total, b - 1);
      BitsAreTheSetBits(MaskLastWord(bitmap[b - 1], b - 1, total), (b - 1) * 64);
      hide WordPages;
      forall i, j | 0 <= i < |front| && 0 <= j < |back| ensures front[i] < back[j] {
        PagesInExact(bitmap, total, a, b - 1, front[i]);
        WordPagesExact(bitmap, total, b - 1, back[j]);
        assert front[i] in front && back[j] in back;
      }
    }
  }

  /** Exactly the set bits below the page count, each once, in ascending order;
      stray bits past the end of the last word are ignored. */
  lemma DirtyPagesExact(bitmap: seq<nat>, total: nat)
    requires BitmapFits(bitmap, total)
    ensures Ascending(DirtyPages(bitmap, total))
    ensures forall p: nat :: p in DirtyPages(bitmap, total) <==> IsDirty(bitmap, total, p)
    ensures forall i :: 0 <= i < |DirtyPages(bitmap, total)| ==> DirtyPages(bitmap, total)[i] < total
  {
    PagesInAscending(bitmap, total, 0, WordCount(total));
    forall p: nat ensures p in DirtyPages(bitmap, total) <==> IsDirty(bitmap, total, p) {
      PagesInExact(bitmap, total, 0, WordCount(total), p);
    }
    forall i | 0 <= i < |DirtyPages(bitmap, total)| ensures DirtyPages(bitmap, total)[i] < total {
      var p := DirtyPages(bitmap, total)[i];
      assert p in DirtyPages(bitmap, total);
      assert IsDirty(bitmap, total, p);
    }
  }

  lemma {:induction false} PagesInSplit(bitmap: seq<nat>, total: nat, a: nat, b: nat, c: nat)
    requires a <= b <= c <= WordCount(total) <= |bitmap|
    ensures PagesIn(bitmap, total, a, c) == PagesIn(bitmap, total, a, b) + PagesIn(bitmap, total, b, c)
    decreases c
  {
    hide WordPages;
    if b == c {
      assert PagesIn(bitmap, total, b, c) == [];
    } else {
      PagesInSplit(bitmap, total, a, b, c - 1);
      var x, y, z := PagesIn(bitmap, total, a, b), PagesIn(bitmap, total, b, c - 1), WordPages(bitmap, total, c - 1);
      assert (x + y) + z == x + (y + z);
    }
  }

  /* ---- pass 1: counts and their exclusive prefix sum ---- */

  function GroupStart(g: nat): nat { g * WORDS_PER_GROUP }

  function GroupEnd(g: nat, total: nat): nat { Min((g + 1) * WORDS_PER_GROUP, WordCount(total)) }

  /** Number of dirty pages before group `g`. */
  function DirtyBefore(bitmap: seq<nat>, total: nat, g: nat): nat
    requires WordCount(total) <= |bitmap|
  {
    |PagesIn(bitmap, total, 0, Min(GroupStart(g), WordCount(total)))|
  }

  lemma GroupBounds(total: nat, g: nat)
    requires g < GroupCount(total)
    ensures GroupStart(g) < GroupEnd(g, total) <= WordCount(total)
    ensures GroupEnd(g, total) == Min(GroupStart(g + 1), WordCount(total))
    ensures g + 1 == GroupCount(total) ==> GroupEnd(g, total) == WordCount(total)
  {
  }

  method CountGroup(bitmap: seq<nat>, total: nat, g: nat) returns (count: nat)
    requires WordCount(total) <= |bitmap| && g < GroupCount(total)
    ensures count == |PagesIn(bitmap, total, GroupStart(g), GroupEnd(g, total))|
    ensures count == DirtyBefore(bitmap, total, g + 1) - DirtyBefore(bitmap, total, g)
  {
    GroupBounds(total, g);
    var start, end := GroupStart(g), GroupEnd(g, total);
    count := 0;
    for wi := start to end
      invariant count == |PagesIn(bitmap, total, start, wi)|
    {
      var w := MaskLastWord(bitmap[wi], wi, total);
      BitsCount(w, wi * 64);
      count := count + PopCount(w);
    }
    PagesInSplit(bitmap, total, 0, start, end);
  }

  ghost predicate HoldsCounts(bitmap: seq<nat>, total: nat, offsets: seq<nat>, lo: nat, hi: nat)
    requires WordCount(total) <= |bitmap| && hi <= |offsets|
  {
    forall j: nat :: lo <= j < hi ==> offsets[j] == DirtyBefore(bitmap, total, j + 1) - DirtyBefore(bitmap, total, j)
  }

  ghost predicate HoldsOffsets(bitmap: seq<nat>, total: nat, offsets: seq<nat>, hi: nat)
    requires WordCount(total) <= |bitmap| && hi <= |offsets|
  {
    forall j: nat :: j < hi ==> offsets[j] == DirtyBefore(bitmap, total, j)
  }

  ghost predicate IsActive(bitmap: seq<nat>, total: nat, g: nat)
    requires WordCount(total) <= |bitmap|
  {
    DirtyBefore(bitmap, total, g) < DirtyBefore(bitmap, total, g + 1)
  }

  /** The groups below `hi` that hold a dirty page, ascending. */
  ghost predicate ListsActive(bitmap: seq<nat>, total: nat, active: seq<nat>, hi: nat)
    requires WordCount(total) <= |bitmap|
  {
    && Ascending(active)
    && (forall k :: 0 <= k < |active| ==> active[k] < hi && IsActive(bitmap, total, active[k]))
    && (forall j: nat :: j < hi && IsActive(bitmap, total, j) ==> j in active)
  }

  /** Pass 1a: one count per group. */
  method CountGroups(bitmap: seq<nat>, total: nat, offsets: array<nat>)
    requires WordCount(total) <= |bitmap| && offsets.Length == GroupCount(total) + 1
    modifies offsets
    ensures HoldsCounts(bitmap, total, offsets[..], 0, GroupCount(total))
  {
    hide DirtyBefore;
    for g := 0 to GroupCount(total)
      invariant HoldsCounts(bitmap, total, offsets[..], 0, g)
    {
      var count := CountGroup(bitmap, total, g);
      offsets[g] := count;
    }
  }

  /** Pass 1b: counts become offsets in place; the last slot is the total. Fails
      exactly when the total does not fit 32 bits. */
  method PrefixSums(bitmap: seq<nat>, total: nat, offsets: array<nat>)
    returns (ok: bool, active: seq<nat>)
    requires WordCount(total) <= |bitmap| && GroupCount(total) <= U32
    requires offsets.Length == GroupCount(total) + 1
    requires HoldsCounts(bitmap, total, offsets[..], 0, GroupCount(total))
    modifies offsets
    ensures ok <==> |DirtyPages(bitmap, total)| < U32
    ensures ok ==> HoldsOffsets(bitmap, total, offsets[..], offsets.Length)
    ensures ok ==> ListsActive(bitmap, total, active, GroupCount(total))
  {
    hide DirtyBefore, ListsActive, HoldsOffsets, HoldsCounts, GroupCount, WordCount, DirtyPages;
    var groups := GroupCount(total);
    DirtyBeforeAll(bitmap, total);
    StartSums(bitmap, total, offsets[..]);
    var acc: nat := 0;
    active := [];
    for g := 0 to groups
      invariant acc == DirtyBefore(bitmap, total, g) && acc < U32
      invariant HoldsOffsets(bitmap, total, offsets[..], g)
      invariant HoldsCounts(bitmap, total, offsets[..], g, groups)
      invariant ListsActive(bitmap, total, active, g)
    {
      ExtendActive(bitmap, total, active, g);
      var c := TakeCount(bitmap, total, offsets, g, acc);
      if c > 0 { active := active + [g % U32]; }
      if acc + c >= U32 {
        DirtyBeforeMonotone(bitmap, total, g + 1, groups);
        return false, active;
      }
      acc := acc + c;
    }
    var _ := TakeCount(bitmap, total, offsets, groups, acc);
    return true, active;
  }

  /** Reads the count in slot `g` and stores the running sum there instead. */
  method TakeCount(bitmap: seq<nat>, total: nat, offsets: array<nat>, g: nat, acc: nat) returns (c: nat)
    requires WordCount(total) <= |bitmap| && offsets.Length == GroupCount(total) + 1 && g < offsets.Length
    requires acc == DirtyBefore(bitmap, total, g)
    requires HoldsOffsets(bitmap, total, offsets[..], g)
    requires HoldsCounts(bitmap, total, offsets[..], g, GroupCount(total))
    modifies offsets
    ensures g < GroupCount(total) ==> acc + c == DirtyBefore(bitmap, total, g + 1)
    ensures HoldsOffsets(bitmap, total, offsets[..], g + 1)
    ensures g < GroupCount(total) ==> HoldsCounts(bitmap, total, offsets[..], g + 1, GroupCount(total))
  {
    hide DirtyBefore, HoldsOffsets, HoldsCounts, GroupCount;
    StepSums(bitmap, total, offsets[..], g, GroupCount(total));
    ghost var before: seq<nat> := offsets[..];
    c := offsets[g];
    offsets[g] := acc;
    assert offsets[..] == before[g := acc];
  }

  lemma StartSums(bitmap: seq<nat>, total: nat, o: seq<nat>)
    requires WordCount(total) <= |bitmap|
    ensures HoldsOffsets(bitmap, total, o, 0) && ListsActive(bitmap, total, [], 0)
  {
  }

  /** One turn of the in-place sum: the count at `g` is replaced by its offset. */
  lemma StepSums(bitmap: seq<nat>, total: nat, o: seq<nat>, g: nat, groups: nat)
    requires WordCount(total) <= |bitmap| && g <= groups < |o|
    requires HoldsOffsets(bitmap, total, o, g) && HoldsCounts(bitmap, total, o, g, groups)
    ensures g < groups ==> o[g] == DirtyBefore(bitmap, total, g + 1) - DirtyBefore(bitmap, total, g)
    ensures var o' := o[g := DirtyBefore(bitmap, total, g)];
      HoldsOffsets(bitmap, total, o', g + 1) && HoldsCounts(bitmap, total, o', g + 1, groups)
  {
    hide DirtyBefore;
  }

  lemma ExtendActive(bitmap: seq<nat>, total: nat, active: seq<nat>, g: nat)
    requires WordCount(total) <= |bitmap| && ListsActive(bitmap, total, active, g)
    ensures ListsActive(bitmap, total, if IsActive(bitmap, total, g) then active + [g] else active, g + 1)
  {
    hide IsActive;
  }

  /** Before the first group there is nothing; after the last, everything. */
  lemma DirtyBeforeAll(bitmap: seq<nat>, total: nat)
    requires WordCount(total) <= |bitmap|
    ensures DirtyBefore(bitmap, total, 0) == 0
    ensures DirtyBefore(bitmap, total, GroupCount(total)) == |DirtyPages(bitmap, total)|
  {
    assert Min(GroupStart(GroupCount(total)), WordCount(total)) == WordCount(total);
  }

  lemma DirtyBeforeMonotone(bitmap: seq<nat>, total: nat, g: nat, h: nat)
    requires WordCount(total) <= |bitmap| && g <= h
    ensures DirtyBefore(bitmap, total, g) <= DirtyBefore(bitmap, total, h)
  {
    PagesInSplit(bitmap, total, 0, Min(GroupStart(g), WordCount(total)), Min(GroupStart(h), WordCount(total)));
  }

  /* ---- pass 2: the visit order ---- */

  /** Group g owns the slice of the dirty list between its offset and the next. */
  lemma GroupSlice(bitmap: seq<nat>, total: nat, g: nat)
    requires WordCount(total) <= |bitmap| && g < GroupCount(total)
    ensures DirtyBefore(bitmap, total, g) <= DirtyBefore(bitmap, total, g + 1) <= |DirtyPages(bitmap, total)|
    ensures DirtyPages(bitmap, total)[DirtyBefore(bitmap, total, g)..DirtyBefore(bitmap, total, g + 1)]
         == PagesIn(bitmap, total, GroupStart(g), GroupEnd(g, total))
  {
    hide PagesIn, WordCount, GroupCount;
    GroupBounds(total, g);
    var start, end := GroupStart(g), GroupEnd(g, total);
    PagesInSplit(bitmap, total, 0, start, end);
    PagesInSplit(bitmap, total, 0, end, WordCount(total));
    var a, b, c := PagesIn(bitmap, total, 0, start), PagesIn(bitmap, total, start, end),
      PagesIn(bitmap, total, end, WordCount(total));
    assert ((a + b) + c)[|a|..|a + b|] == b;
  }

  /** The clear-lowest-bit loop over one word lists its set bits. */
  method VisitWord(word: nat, base: nat) returns (pages: seq<nat>)
    ensures pages == BitsFrom(word, base)
  {
    var w := word;
    pages := [];
    assert pages + BitsFrom(w, base) == BitsFrom(word, base);
    while w != 0
      invariant pages + BitsFrom(w, base) == BitsFrom(word, base)
      decreases w
    {
      ClearLowestBit(w, base);
      var pa := base + TrailingZeros(w);
      var next := And(w, w - 1);
      assert pages + ([pa] + BitsFrom(next, base)) == (pages + [pa]) + BitsFrom(next, base);
      pages, w := pages + [pa], next;
    }
    assert pages + [] == pages;
  }

  /** The loop of one group: the slots and pages it visits, in order. The group
      fills exactly its own slots and ends where the next group begins. */
  method VisitGroup(bitmap: seq<nat>, total: nat, g: nat, offset: nat) returns (slots: seq<nat>, pages: seq<nat>)
    requires WordCount(total) <= |bitmap| && g < GroupCount(total)
    requires offset == DirtyBefore(bitmap, total, g)
    ensures offset <= DirtyBefore(bitmap, total, g + 1) <= |DirtyPages(bitmap, total)|
    ensures pages == DirtyPages(bitmap, total)[offset..DirtyBefore(bitmap, total, g + 1)]
    ensures |slots| == |pages| && forall k :: 0 <= k < |slots| ==> slots[k] == offset + k
  {
    hide WordCount, GroupCount, DirtyBefore, MaskLastWord;
    GroupBounds(total, g);
    var start, end := GroupStart(g), GroupEnd(g, total);
    slots, pages := [], [];
    var writeIdx := offset;
    for wi := start to end
      invariant pages == PagesIn(bitmap, total, start, wi)
      invariant writeIdx == offset + |pages|
      invariant |slots| == |pages| && forall k :: 0 <= k < |slots| ==> slots[k] == offset + k
    {
      var visited := VisitWord(MaskLastWord(bitmap[wi], wi, total), wi * 64);
      slots := slots + seq(|visited|, i => writeIdx + i);
      pages := pages + visited;
      writeIdx := writeIdx + |visited|;
    }
    GroupSlice(bitmap, total, g);
  }

  lemma {:induction false} InactiveGap(bitmap: seq<nat>, total: nat, active: seq<nat>, a: nat, b: nat)
    requires WordCount(total) <= |bitmap| && a <= b <= GroupCount(total)
    requires ListsActive(bitmap, total, active, GroupCount(total)) && forall j: nat :: a <= j < b ==> j !in active
    ensures DirtyBefore(bitmap, total, a) == DirtyBefore(bitmap, total, b)
    decreases b
  {
    hide DirtyBefore, GroupCount, WordCount;
    if a < b {
      InactiveGap(bitmap, total, active, a, b - 1);
      DirtyBeforeMonotone(bitmap, total, b - 1, b);
      assert !IsActive(bitmap, total, b - 1);
    }
  }

  /** Pass 2 over all active groups: together their slots are filled, each once,
      with exactly the dirty pages in ascending order. */
  method VisitAll(bitmap: seq<nat>, total: nat, offsets: array<nat>, active: seq<nat>) returns (pages: seq<nat>)
    requires WordCount(total) <= |bitmap| && offsets.Length == GroupCount(total) + 1
    requires HoldsOffsets(bitmap, total, offsets[..], offsets.Length)
    requires ListsActive(bitmap, total, active, GroupCount(total))
    ensures pages == DirtyPages(bitmap, total)
  {
    hide DirtyBefore, GroupCount, WordCount, DirtyPages, IsActive;
    DirtyBeforeAll(bitmap, total);
    ghost var all: seq<nat> := DirtyPages(bitmap, total);
    ghost var done: nat := 0;
    pages := [];
    for k := 0 to |active|
      invariant done == (if k == 0 then 0 else active[k - 1] + 1) <= GroupCount(total)
      invariant DirtyBefore(bitmap, total, done) <= |all| && pages == all[..DirtyBefore(bitmap, total, done)]
    {
      var g := active[k];
      assert forall j :: 0 <= j < |active| ==> active[j] < done || g <= active[j];
      InactiveGap(bitmap, total, active, done, g);
      assert offsets[..][g] == DirtyBefore(bitmap, total, g);
      var slots, visited := VisitGroup(bitmap, total, g, offsets[g]);
      assert |slots| > 0 ==> slots[0] == |pages|;
      pages := pages + visited;
      done := g + 1;
    }
    assert forall j :: 0 <= j < |active| ==> active[j] < done;
    InactiveGap(bitmap, total, active, done, GroupCount(total));
    assert all[..|all|] == all;
  }
}
