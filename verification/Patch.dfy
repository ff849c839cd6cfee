/** XOR patches: a Delta stores the 64-bit words in which a page differs from
    its base, and the reader applies them in place over the base. */
module Patch {
  import opened Words
  import opened Chunk

  type PatchEntry = (nat, nat)

  function WordAt(p: seq<byte>, i: nat): (w: nat)
    requires 8 * i + 8 <= |p|
  {
    FromLE(p[8 * i..8 * i + 8])
  }

  function SetWord(p: seq<byte>, i: nat, w: nat): (q: seq<byte>)
    requires 8 * i + 8 <= |p|
    ensures |q| == |p|
  {
    p[..8 * i] + LE(w, 8) + p[8 * i + 8..]
  }

  predicate AllZero(p: seq<byte>) { forall i :: 0 <= i < |p| ==> p[i] == 0 }

  function ZeroPage(): (p: Page)
    ensures AllZero(p)
  {
    seq(PAGE_SIZE, _ => 0)
  }

  lemma AllZeroIsZeroPage(p: Page)
    requires AllZero(p)
    ensures p == ZeroPage()
  {
  }

  /** The patch entry for word `i`, if the two pages differ there. */
  function EntryAt(page: Page, base: Page, i: nat): (e: seq<PatchEntry>)
    requires i < PAGE_WORDS
  {
    var x := Xor64(WordAt(page, i), WordAt(base, i));
    if x != 0 then [(i, x)] else []
  }

  /** The differing words from index `i` on, ascending. */
  function PatchFrom(page: Page, base: Page, i: nat): (patch: seq<PatchEntry>)
    requires i <= PAGE_WORDS
    ensures |patch| <= PAGE_WORDS - i
    decreases PAGE_WORDS - i, page, base
  {
    if i == PAGE_WORDS then [] else EntryAt(page, base, i) + PatchFrom(page, base, i + 1)
  }

  lemma PatchStep(page: Page, base: Page, i: nat)
    requires i <= PAGE_WORDS
    ensures PatchFrom(page, base, i) ==
      if i == PAGE_WORDS then [] else EntryAt(page, base, i) + PatchFrom(page, base, i + 1)
  {
  }

  function XorPatch(page: Page, base: Page): seq<PatchEntry> {
    PatchFrom(page, base, 0)
  }

  function EncodeEntry(e: PatchEntry): (s: seq<byte>)
    ensures |s| == 10
  {
    LE(e.0, 2) + LE(e.1, 8)
  }

  function EncodePatch(patch: seq<PatchEntry>): (s: seq<byte>)
    ensures |s| == 10 * |patch|
  {
    if patch == [] then [] else EncodeEntry(patch[0]) + EncodePatch(patch[1..])
  }

  /** `apply_delta_xor`: the page as the loop leaves it, and whether every word
      index was in range (the loop stops at the first that is not). */
  function ApplyXor(blob: seq<byte>, out: Page): (r: (Page, bool))
  {
    if |blob| < 10 then (out, true)
    else
      var idx := FromLE(blob[0..2]);
      if idx >= PAGE_WORDS then (out, false)
      else ApplyXor(blob[10..], SetWord(out, idx, Xor64(WordAt(out, idx), FromLE(blob[2..10]))))
  }

  function ApplyPatch(blob: seq<byte>, base: Page): (r: Result<Page>) {
    if |blob| % 10 != 0 then Err(PatchLength)
    else
      var (page, ok) := ApplyXor(blob, base);
      if ok then Ok(page) else Err(PatchIndex)
  }

  /* ---- the round trip ---- */

  lemma WordRange(p: seq<byte>, i: nat)
    requires 8 * i + 8 <= |p|
    ensures WordAt(p, i) < U64
    ensures LE(WordAt(p, i), 8) == p[8 * i..8 * i + 8]
  {
    FieldRange(p[8 * i..8 * i + 8]);
  }

  /** Words below `i` from `page`, the others still from `base`. */
  ghost function Mixed(page: Page, base: Page, i: nat): Page
    requires i <= PAGE_WORDS
  {
    page[..8 * i] + base[8 * i..]
  }

  lemma MixedStep(page: Page, base: Page, i: nat)
    requires i < PAGE_WORDS
    ensures WordAt(Mixed(page, base, i), i) == WordAt(base, i)
    ensures SetWord(Mixed(page, base, i), i, WordAt(page, i)) == Mixed(page, base, i + 1)
    ensures WordAt(page, i) == WordAt(base, i) ==> Mixed(page, base, i) == Mixed(page, base, i + 1)
  {
    hide LE, FromLE;
    var m := Mixed(page, base, i);
    assert m[8 * i..8 * i + 8] == base[8 * i..8 * i + 8];
    WordRange(page, i);
    WordRange(base, i);
    SpliceWord(page, base, i);
  }

  lemma SpliceWord(page: Page, base: Page, i: nat)
    requires i < PAGE_WORDS
    ensures Mixed(page, base, i)[..8 * i] + page[8 * i..8 * i + 8] + Mixed(page, base, i)[8 * i + 8..]
         == Mixed(page, base, i + 1)
    ensures page[8 * i..8 * i + 8] == base[8 * i..8 * i + 8] ==> Mixed(page, base, i) == Mixed(page, base, i + 1)
  {
    var m := Mixed(page, base, i);
    assert m[..8 * i] == page[..8 * i] && m[8 * i + 8..] == base[8 * i + 8..];
    assert page[..8 * i] + page[8 * i..8 * i + 8] == page[..8 * i + 8];
    assert base[8 * i..] == base[8 * i..8 * i + 8] + base[8 * i + 8..];
  }

  lemma EntryStep(e: PatchEntry, rest: seq<byte>, out: Page)
    requires e.0 < PAGE_WORDS && e.1 < U64
    ensures ApplyXor(EncodeEntry(e) + rest, out)
         == ApplyXor(rest, SetWord(out, e.0, Xor64(WordAt(out, e.0), e.1)))
  {
    var blob := EncodeEntry(e) + rest;
    assert blob[0..2] == LE(e.0, 2) && blob[2..10] == LE(e.1, 8) && blob[10..] == rest;
    FieldRoundTrip(e.0);
    FieldRoundTrip(e.1);
  }

  lemma ApplyEntry(page: Page, base: Page, i: nat, rest: seq<byte>)
    requires i < PAGE_WORDS
    ensures ApplyXor(EncodePatch(EntryAt(page, base, i)) + rest, Mixed(page, base, i))
         == ApplyXor(rest, Mixed(page, base, i + 1))
  {
    MixedStep(page, base, i);
    WordRange(page, i);
    WordRange(base, i);
    Xor64Laws(WordAt(page, i), WordAt(base, i));
    var x := Xor64(WordAt(page, i), WordAt(base, i));
    if x != 0 {
      var e: PatchEntry := (i, x);
      assert EncodePatch([e]) == EncodeEntry(e);
      EntryStep(e, rest, Mixed(page, base, i));
    } else {
      assert [] + rest == rest;
    }
  }

  lemma {:induction false} EncodeAppend(a: seq<PatchEntry>, b: seq<PatchEntry>)
    ensures EncodePatch(a + b) == EncodePatch(a) + EncodePatch(b)
  {
    hide EncodeEntry;
    if a == [] {
      assert a + b == b;
    } else {
      EncodeAppend(a[1..], b);
      assert (a + b)[1..] == a[1..] + b;
      var h, t, e := EncodeEntry(a[0]), EncodePatch(a[1..]), EncodePatch(b);
      assert h + (t + e) == (h + t) + e;
    }
  }

  lemma {:induction false} ApplyFrom(page: Page, base: Page, i: nat)
    requires i <= PAGE_WORDS
    ensures ApplyXor(EncodePatch(PatchFrom(page, base, i)), Mixed(page, base, i)) == (page, true)
    decreases PAGE_WORDS - i
  {
    if i == PAGE_WORDS {
      assert Mixed(page, base, i) == page;
    } else {
      var rest := PatchFrom(page, base, i + 1);
      ApplyFrom(page, base, i + 1);
      EncodeAppend(EntryAt(page, base, i), rest);
      ApplyEntry(page, base, i, EncodePatch(rest));
    }
  }

  /** For every pair of pages, the encoded patch applied over the base is the page. */
  lemma PatchRoundTrip(page: Page, base: Page)
    ensures ApplyPatch(EncodePatch(XorPatch(page, base)), base) == Ok(page)
    ensures |EncodePatch(XorPatch(page, base))| == 10 * |XorPatch(page, base)|
  {
    hide PatchFrom, ApplyXor, EncodePatch;
    ApplyFrom(page, base, 0);
    assert Mixed(page, base, 0) == base;
  }

  ghost predicate HasIndex(patch: seq<PatchEntry>, w: nat) {
    exists a :: 0 <= a < |patch| && patch[a].0 == w
  }

  /** Indices in [lo, 512), strictly increasing, and exactly the indices of the
      words from `lo` on in which the pages differ. */
  ghost predicate ListsDifferences(patch: seq<PatchEntry>, page: Page, base: Page, lo: nat) {
    && (forall a :: 0 <= a < |patch| ==> lo <= patch[a].0 < PAGE_WORDS && 0 < patch[a].1 < U64)
    && (forall a, b :: 0 <= a < b < |patch| ==> patch[a].0 < patch[b].0)
    && (forall w: nat :: lo <= w < PAGE_WORDS ==> (HasIndex(patch, w) <==> WordAt(page, w) != WordAt(base, w)))
  }

  lemma ListsStep(rest: seq<PatchEntry>, page: Page, base: Page, i: nat)
    requires i < PAGE_WORDS && ListsDifferences(rest, page, base, i + 1)
    ensures ListsDifferences(EntryAt(page, base, i) + rest, page, base, i)
  {
    hide WordAt, Xor64;
    WordRange(page, i);
    WordRange(base, i);
    Xor64Laws(WordAt(page, i), WordAt(base, i));
    var e := EntryAt(page, base, i);
    var patch := e + rest;
    assert forall a :: |e| <= a < |patch| ==> patch[a] == rest[a - |e|];
    forall w: nat | i <= w < PAGE_WORDS
      ensures HasIndex(patch, w) <==> WordAt(page, w) != WordAt(base, w)
    {
      if w > i && HasIndex(rest, w) {
        var a :| 0 <= a < |rest| && rest[a].0 == w;
        assert patch[a + |e|].0 == w;
      } else if w == i && |e| == 1 {
        assert patch[0].0 == i;
      }
    }
  }

  lemma {:induction false} PatchListsDifferences(page: Page, base: Page, i: nat)
    requires i <= PAGE_WORDS
    ensures ListsDifferences(PatchFrom(page, base, i), page, base, i)
    decreases PAGE_WORDS - i
  {
    if i < PAGE_WORDS {
      PatchListsDifferences(page, base, i + 1);
      ListsStep(PatchFrom(page, base, i + 1), page, base, i);
    }
  }

  /** Each entry carries the difference of its word. */
  lemma {:induction false} PatchValues(page: Page, base: Page, i: nat)
    requires i <= PAGE_WORDS
    ensures forall e :: e in PatchFrom(page, base, i) ==>
      e.0 < PAGE_WORDS && e.1 == Xor64(WordAt(page, e.0), WordAt(base, e.0))
    decreases PAGE_WORDS - i
  {
    hide WordAt, Xor64;
    if i < PAGE_WORDS { PatchValues(page, base, i + 1); }
  }

  /** Entry `k` of an encoded patch: two bytes of word index, eight of difference. */
  lemma {:induction false} PatchLayout(patch: seq<PatchEntry>, k: nat)
    requires k < |patch|
    ensures EncodePatch(patch)[10 * k..10 * k + 2] == LE(patch[k].0, 2)
    ensures EncodePatch(patch)[10 * k + 2..10 * k + 10] == LE(patch[k].1, 8)
  {
    hide LE;
    var head, tail := EncodeEntry(patch[0]), EncodePatch(patch[1..]);
    if k > 0 {
      PatchLayout(patch[1..], k - 1);
      SliceAfter(head, tail, 10 * k - 10, 10 * k - 8);
      SliceAfter(head, tail, 10 * k - 8, 10 * k);
    }
  }

  lemma SliceAfter(head: seq<byte>, tail: seq<byte>, a: nat, b: nat)
    requires a <= b <= |tail|
    ensures (head + tail)[|head| + a..|head| + b] == tail[a..b]
  {
  }

  /** The word index and the difference in entry `k` of any blob. */
  ghost function IndexIn(blob: seq<byte>, k: nat): nat
    requires 10 * k + 10 <= |blob|
  {
    FromLE(blob[10 * k..10 * k + 2])
  }

  ghost function WordIn(blob: seq<byte>, k: nat): nat
    requires 10 * k + 10 <= |blob|
  {
    FromLE(blob[10 * k + 2..10 * k + 10])
  }

  /** Word `w` after the first `n` entries: changed by each entry that names it. */
  ghost function WordAfter(blob: seq<byte>, n: nat, w: nat, x: nat): nat
    requires 10 * n <= |blob|
  {
    if n == 0 then x
    else
      var y := WordAfter(blob, n - 1, w, x);
      if IndexIn(blob, n - 1) == w then Xor64(y, WordIn(blob, n - 1)) else y
  }

  ghost predicate IndicesOk(blob: seq<byte>) {
    forall k: nat :: 10 * k + 10 <= |blob| ==> IndexIn(blob, k) < PAGE_WORDS
  }

  lemma EntryShift(blob: seq<byte>, k: nat)
    requires 10 * k + 20 <= |blob|
    ensures IndexIn(blob[10..], k) == IndexIn(blob, k + 1) && WordIn(blob[10..], k) == WordIn(blob, k + 1)
  {
    hide FromLE;
    SliceAfter(blob[..10], blob[10..], 10 * k, 10 * k + 2);
    SliceAfter(blob[..10], blob[10..], 10 * k + 2, 10 * k + 10);
    assert blob == blob[..10] + blob[10..];
  }

  lemma {:induction false} WordAfterShift(blob: seq<byte>, n: nat, w: nat, x: nat)
    requires 10 * n + 10 <= |blob|
    ensures WordAfter(blob, n + 1, w, x) == WordAfter(blob[10..], n, w, WordAfter(blob, 1, w, x))
  {
    hide IndexIn, WordIn, Xor64;
    if n > 0 {
      WordAfterShift(blob, n - 1, w, x);
      EntryShift(blob, n - 1);
    }
  }

  lemma SetWordAt(out: Page, idx: nat, x: nat, w: nat)
    requires idx < PAGE_WORDS && w < PAGE_WORDS && x < U64
    ensures WordAt(SetWord(out, idx, x), w) == if w == idx then x else WordAt(out, w)
  {
    hide LE, FromLE;
    var q := SetWord(out, idx, x);
    FieldRoundTrip(x);
    assert q[8 * w..8 * w + 8] == if w == idx then LE(x, 8) else out[8 * w..8 * w + 8];
  }

  lemma IndicesShift(blob: seq<byte>)
    requires |blob| >= 10
    ensures IndicesOk(blob) <==> IndexIn(blob, 0) < PAGE_WORDS && IndicesOk(blob[10..])
  {
    hide IndexIn;
    forall k: nat | 10 * k + 20 <= |blob| ensures IndexIn(blob[10..], k) == IndexIn(blob, k + 1) {
      EntryShift(blob, k);
    }
    if IndexIn(blob, 0) < PAGE_WORDS && IndicesOk(blob[10..]) {
      forall k: nat | 10 * k + 10 <= |blob| ensures IndexIn(blob, k) < PAGE_WORDS {
        if k > 0 { assert IndexIn(blob[10..], k - 1) < PAGE_WORDS; }
      }
    }
  }

  lemma EntryFits(blob: seq<byte>, k: nat, out: Page, w: nat)
    requires 10 * k + 10 <= |blob| && w < PAGE_WORDS
    ensures Xor64(WordAt(out, w), WordIn(blob, k)) < U64
  {
    hide LE, FromLE;
    FieldRange(blob[10 * k + 2..10 * k + 10]);
    WordRange(out, w);
    Xor64Laws(WordAt(out, w), WordIn(blob, k));
  }

  /** Any blob over any page: accepted exactly when all word indices are in range, and
      then each word is changed by the entries that name it, and no other word. */
  lemma {:induction false} AppliedWords(blob: seq<byte>, out: Page, w: nat)
    requires w < PAGE_WORDS
    ensures ApplyXor(blob, out).1 <==> IndicesOk(blob)
    ensures IndicesOk(blob) ==> WordAt(ApplyXor(blob, out).0, w) == WordAfter(blob, |blob| / 10, w, WordAt(out, w))
  {
    hide Xor64, WordAt, SetWord, FromLE, IndicesOk;
    if |blob| < 10 {
      NoEntries(blob);
    } else {
      var idx := IndexIn(blob, 0);
      IndicesShift(blob);
      assert blob[10 * 0..10 * 0 + 2] == blob[0..2] && blob[10 * 0 + 2..10 * 0 + 10] == blob[2..10];
      if idx < PAGE_WORDS {
        var x := Xor64(WordAt(out, idx), WordIn(blob, 0));
        EntryFits(blob, 0, out, idx);
        AppliedWords(blob[10..], SetWord(out, idx, x), w);
        SetWordAt(out, idx, x, w);
        WordAfterShift(blob, |blob| / 10 - 1, w, WordAt(out, w));
        WordAfterOne(blob, w, WordAt(out, w));
      }
    }
  }

  lemma NoEntries(blob: seq<byte>)
    requires |blob| < 10
    ensures IndicesOk(blob)
  {
  }

  lemma WordAfterOne(blob: seq<byte>, w: nat, x: nat)
    requires |blob| >= 10
    ensures WordAfter(blob, 1, w, x) == if IndexIn(blob, 0) == w then Xor64(x, WordIn(blob, 0)) else x
  {
    hide Xor64, FromLE;
    assert WordAfter(blob, 0, w, x) == x;
  }

  /** A bad index ends the patch there: the entries before it stay applied. */
  lemma {:induction false} AppliedUpTo(blob: seq<byte>, out: Page, k: nat)
    requires 10 * k + 10 <= |blob| && IndexIn(blob, k) >= PAGE_WORDS
    requires forall j: nat :: j < k ==> IndexIn(blob, j) < PAGE_WORDS
    ensures ApplyXor(blob, out) == (ApplyXor(blob[..10 * k], out).0, false)
  {
    hide Xor64, WordAt, SetWord, FromLE;
    if k == 0 {
      assert blob[10 * 0..10 * 0 + 2] == blob[0..2];
    } else {
      var rest := blob[10..];
      forall j: nat | j < k ensures IndexIn(rest, j) == IndexIn(blob, j + 1) { EntryShift(blob, j); }
      assert IndexIn(blob, 0) < PAGE_WORDS && blob[10 * 0..10 * 0 + 2] == blob[0..2];
      var head := blob[..10 * k];
      assert head[0..2] == blob[0..2] && head[2..10] == blob[2..10] && head[10..] == rest[..10 * (k - 1)];
      var idx := IndexIn(blob, 0);
      AppliedUpTo(rest, SetWord(out, idx, Xor64(WordAt(out, idx), FromLE(blob[2..10]))), k - 1);
    }
  }

  /** A page is determined by its words. */
  lemma WordsDetermine(p: Page, q: Page)
    requires forall w: nat :: w < PAGE_WORDS ==> WordAt(p, w) == WordAt(q, w)
    ensures p == q
  {
    hide WordAt;
    forall j | 0 <= j < PAGE_SIZE ensures p[j] == q[j] {
      var w := j / 8;
      SameWord(p, q, w);
      assert p[8 * w..8 * w + 8][j % 8] == p[j] && q[8 * w..8 * w + 8][j % 8] == q[j];
    }
  }

  /** The reader accepts a patch of whole entries with word indices in range, and no other. */
  lemma PatchAcceptedIff(blob: seq<byte>, base: Page)
    ensures ApplyPatch(blob, base).Ok? <==> |blob| % 10 == 0 && IndicesOk(blob)
    ensures ApplyPatch(blob, base) == Err(PatchLength) <==> |blob| % 10 != 0
  {
    hide ApplyXor, IndicesOk;
    AppliedWords(blob, base, 0);
  }

  /** The 8-byte words in which two pages differ. */
  ghost function DifferingWords(page: Page, base: Page): set<nat> {
    set w: nat | w < PAGE_WORDS && page[8 * w..8 * w + 8] != base[8 * w..8 * w + 8]
  }

  lemma SameWord(page: Page, base: Page, w: nat)
    requires w < PAGE_WORDS
    ensures WordAt(page, w) == WordAt(base, w) <==> page[8 * w..8 * w + 8] == base[8 * w..8 * w + 8]
  {
    hide LE, FromLE;
    WordRange(page, w);
    WordRange(base, w);
  }

  /** A patch has one entry for each 8-byte word in which the pages differ. */
  lemma PatchCount(page: Page, base: Page)
    ensures |XorPatch(page, base)| == |DifferingWords(page, base)|
  {
    hide PatchFrom, WordAt;
    var patch := XorPatch(page, base);
    PatchListsDifferences(page, base, 0);
    var words := seq(|patch|, i requires 0 <= i < |patch| => patch[i].0);
    forall w: nat ensures w in words <==> w in DifferingWords(page, base) {
      assert w in words <==> HasIndex(patch, w) by {
        if HasIndex(patch, w) {
          var a :| 0 <= a < |patch| && patch[a].0 == w;
          assert words[a] == w;
        }
      }
      if w < PAGE_WORDS { SameWord(page, base, w); }
    }
    CountDistinct(words, DifferingWords(page, base));
  }

  /* ---- the loops of chunk.rs ---- */

  method ComputeXorPatch(page: Page, base: Page) returns (out: seq<PatchEntry>)
    ensures out == XorPatch(page, base)
  {
    hide WordAt, Xor64, PatchFrom;
    out := [];
    for i := 0 to PAGE_WORDS
      invariant out + PatchFrom(page, base, i) == XorPatch(page, base)
    {
      PatchStep(page, base, i);
      ghost var rest := PatchFrom(page, base, i + 1);
      assert out + (EntryAt(page, base, i) + rest) == out + EntryAt(page, base, i) + rest;
      var x := Xor64(WordAt(page, i), WordAt(base, i));
      if x != 0 {
        out := out + [(i, x)];
      }
    }
    PatchStep(page, base, PAGE_WORDS);
  }

  method EncodeDeltaPatch(patch: seq<PatchEntry>) returns (out: seq<byte>)
    ensures out == EncodePatch(patch)
  {
    out := [];
    for i := 0 to |patch|
      invariant out + EncodePatch(patch[i..]) == EncodePatch(patch)
    {
      assert patch[i..][1..] == patch[i + 1..];
      ghost var rest := EncodePatch(patch[i + 1..]);
      assert out + (EncodeEntry(patch[i]) + rest) == out + LE(patch[i].0, 2) + LE(patch[i].1, 8) + rest;
      out := out + LE(patch[i].0, 2);
      out := out + LE(patch[i].1, 8);
    }
  }

  /** In place, including the words already changed when an index is rejected. */
  method ApplyDeltaXor(blob: seq<byte>, out: array<byte>) returns (ok: bool)
    requires out.Length == PAGE_SIZE
    modifies out
    ensures (out[..], ok) == ApplyXor(blob, old(out[..]))
  {
    hide LE, FromLE, Xor64;
    var pos := 0;
    while pos + 10 <= |blob|
      invariant pos <= |blob|
      invariant ApplyXor(blob[pos..], out[..]) == ApplyXor(blob, old(out[..]))
    {
      var chunk := blob[pos..pos + 10];
      var idx := FromLE(chunk[0..2]);
      assert blob[pos..][..10] == chunk;
      assert blob[pos..][0..2] == chunk[0..2];
      assert blob[pos..][2..10] == chunk[2..10];
      if idx >= PAGE_WORDS {
        return false;
      }
      var cur := FromLE(out[8 * idx..8 * idx + 8]);
      assert out[..][8 * idx..8 * idx + 8] == out[8 * idx..8 * idx + 8];
      ghost var before := out[..];
      CopyInto(out, 8 * idx, LE(Xor64(cur, FromLE(chunk[2..10])), 8));
      assert out[..] == SetWord(before, idx, Xor64(WordAt(before, idx), FromLE(chunk[2..10])));
      assert blob[pos..][10..] == blob[pos + 10..];
      pos := pos + 10;
    }
    return true;
  }
}
