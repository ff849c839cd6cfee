/** Machine words as bounded naturals: little-endian bytes, bitwise operators,
    trailing zeros and population counts, each defined by halving so that the
    laws the store relies on follow by induction on the width. */
module Words {
  const U16 := 0x1_0000
  const U32 := 0x1_0000_0000
  const U64 := 0x1_0000_0000_0000_0000

  type byte = x: int | 0 <= x < 256

  datatype Option<+T> = None | Some(value: T)

  /** A list without repetition is as long as its elements are many. */
  lemma {:induction false} CountDistinct(s: seq<nat>, x: set<nat>)
    requires (forall i, j :: 0 <= i < j < |s| ==> s[i] != s[j]) && forall e: nat :: e in s <==> e in x
    ensures |s| == |x|
  {
    if s == [] {
      assert x == {};
    } else {
      var e, front := s[|s| - 1], s[..|s| - 1];
      assert s == front + [e] && e in x;
      CountDistinct(front, x - {e});
    }
  }

  lemma {:induction false} AtMostLength(x: set<nat>, s: seq<nat>)
    requires forall e :: e in x ==> e in s
    ensures |x| <= |s|
  {
    if s == [] {
      assert x == {};
    } else {
      var e, front := s[|s| - 1], s[..|s| - 1];
      assert s == front + [e];
      AtMostLength(x - {e}, front);
    }
  }

  /* ---- little-endian byte strings (to_le_bytes, from_le_bytes) ---- */

  /** The low `width` bytes of `n`, least significant first. */
  function LE(n: nat, width: nat): (s: seq<byte>)
    ensures |s| == width
  {
    if width == 0 then [] else [n % 256] + LE(n / 256, width - 1)
  }

  function FromLE(s: seq<byte>): (n: nat)
  {
    if s == [] then 0 else s[0] + 256 * FromLE(s[1..])
  }

  function Pow256(w: nat): (p: nat)
    ensures p > 0
  {
    if w == 0 then 1 else 256 * Pow256(w - 1)
  }

  lemma Pow256Values()
    ensures Pow256(2) == U16 && Pow256(4) == U32 && Pow256(8) == U64
  {
    assert Pow256(1) == 256;
    assert Pow256(2) == U16;
    assert Pow256(3) == 0x100_0000;
    assert Pow256(4) == U32;
    assert Pow256(5) == 0x100_0000_0000;
    assert Pow256(6) == 0x1_0000_0000_0000;
    assert Pow256(7) == 0x100_0000_0000_0000;
  }

  lemma {:induction false} FromToLE(n: nat, width: nat)
    requires n < Pow256(width)
    ensures FromLE(LE(n, width)) == n
  {
    if width == 0 {
    } else {
      FromToLE(n / 256, width - 1);
      assert LE(n, width)[1..] == LE(n / 256, width - 1);
    }
  }

  lemma {:induction false} ToFromLE(s: seq<byte>)
    ensures LE(FromLE(s), |s|) == s
    ensures FromLE(s) < Pow256(|s|)
  {
    if s == [] {
    } else {
      ToFromLE(s[1..]);
      assert FromLE(s) / 256 == FromLE(s[1..]) && FromLE(s) % 256 == s[0];
      assert s == [s[0]] + s[1..];
    }
  }

  /** Byte `i` of a little-endian field is its i-th digit to the base 256. */
  lemma {:induction false} LEDigit(n: nat, width: nat, i: nat)
    requires i < width
    ensures LE(n, width)[i] == (n / Pow256(i)) % 256
  {
    if i > 0 {
      LEDigit(n / 256, width - 1, i - 1);
      DivTwice(n, 256, Pow256(i - 1));
    }
  }

  lemma DivTwice(n: nat, a: nat, b: nat)
    requires a > 0 && b > 0
    ensures a * b > 0 && (n / a) / b == n / (a * b)
  {
    DivParts(n, a);
    DivParts(n / a, b);
    TwiceParts(n, a, b, (n / a) / b, (n / a) % b, n % a);
  }

  lemma DivParts(n: nat, d: nat)
    requires d > 0
    ensures n == (n / d) * d + n % d && n % d < d
  {
  }

  lemma TwiceParts(n: nat, a: nat, b: nat, q: nat, r: nat, s: nat)
    requires a > 0 && b > 0 && n == (q * b + r) * a + s && r < b && s < a
    ensures a * b > 0 && n / (a * b) == q
  {
    Regroup3(q, b, r, a, s);
    SmallProduct(r, b, a, s);
    DivUnique(n, a * b, q, r * a + s);
  }

  lemma Regroup3(q: nat, b: nat, r: nat, a: nat, s: nat)
    ensures (q * b + r) * a + s == q * (a * b) + (r * a + s)
  {
    assert (q * b + r) * a == q * b * a + r * a;
    assert q * b * a == q * (a * b);
  }

  lemma SmallProduct(r: nat, b: nat, a: nat, s: nat)
    requires r < b && s < a
    ensures r * a + s < a * b
  {
    assert (r + 1) * a <= b * a;
    assert (r + 1) * a == r * a + a;
  }

  lemma DivUnique(n: nat, d: nat, q: nat, r: nat)
    requires d > 0 && n == q * d + r && r < d
    ensures n / d == q && n % d == r
  {
    var q' := n / d;
    assert n == q' * d + n % d;
    MulStrict(q', q, d);
    MulStrict(q, q', d);
  }

  lemma {:induction false} MulStrict(a: nat, b: nat, d: nat)
    ensures a < b ==> a * d + d <= b * d
    decreases b
  {
    if a + 1 < b { MulStrict(a, b - 1, d); }
  }

  lemma ModMultiple(x: nat, y: nat, n: nat)
    requires n > 0
    ensures (x + y * n) % n == x % n
  {
    DivParts(x, n);
    assert (x / n + y) * n == (x / n) * n + y * n;
    DivUnique(x + y * n, n, x / n + y, x % n);
  }

  lemma ModProduct(a: nat, b: nat, n: nat)
    requires n > 0
    ensures ((a % n) * b) % n == (a * b) % n
  {
    DivParts(a, n);
    Regroup3(a / n, n, a % n, b, 0);
    assert (a / n) * (b * n) == ((a / n) * b) * n;
    ModMultiple((a % n) * b, (a / n) * b, n);
  }

  /** A u64 field survives its eight bytes; so do the narrower fields. */
  lemma FieldRoundTrip(n: nat)
    ensures n < U64 ==> FromLE(LE(n, 8)) == n
    ensures n < U32 ==> FromLE(LE(n, 4)) == n
    ensures n < U16 ==> FromLE(LE(n, 2)) == n
  {
    Pow256Values();
    if n < U64 { FromToLE(n, 8); }
    if n < U32 { FromToLE(n, 4); }
    if n < U16 { FromToLE(n, 2); }
  }

  lemma FieldRange(s: seq<byte>)
    ensures |s| == 8 ==> FromLE(s) < U64 && LE(FromLE(s), 8) == s
    ensures |s| == 4 ==> FromLE(s) < U32 && LE(FromLE(s), 4) == s
  {
    Pow256Values();
    ToFromLE(s);
  }

  /* ---- bitwise operators on 64-bit words ---- */

  function Pow2(n: nat): (p: nat)
    ensures p > 0
  {
    if n == 0 then 1 else 2 * Pow2(n - 1)
  }

  lemma Pow2Of64()
    ensures Pow2(64) == U64
  {
    hide Pow2;
    Pow2Of8();
    Pow2Add(8, 8);
    Pow2Add(16, 16);
    Pow2Add(32, 32);
  }

  lemma Pow2Of8()
    ensures Pow2(8) == 256
  {
    assert Pow2(4) == 16;
  }

  lemma {:induction false} Pow2Add(a: nat, b: nat)
    ensures Pow2(a + b) == Pow2(a) * Pow2(b)
  {
    if b > 0 {
      Pow2Add(a, b - 1);
      Pow2Step(b);
      Pow2Step(a + b);
      hide Pow2;
      MulDouble(Pow2(a), Pow2(b - 1));
    }
  }

  lemma Pow2Step(n: nat)
    requires n > 0
    ensures Pow2(n) == 2 * Pow2(n - 1)
  {
  }

  lemma MulDouble(x: nat, y: nat)
    ensures x * (2 * y) == 2 * (x * y)
  {
  }

  /** Exclusive or of the low `n` bits. */
  function Xor(a: nat, b: nat, n: nat): (x: nat)
  {
    if n == 0 then 0
    else (a % 2 + b % 2) % 2 + 2 * Xor(a / 2, b / 2, n - 1)
  }

  /** Xor stays in range, cancels itself, and is zero exactly on equal words. */
  lemma {:induction false} XorLaws(a: nat, b: nat, n: nat)
    requires a < Pow2(n) && b < Pow2(n)
    ensures Xor(a, b, n) < Pow2(n)
    ensures Xor(b, Xor(a, b, n), n) == a
    ensures Xor(a, b, n) == 0 <==> a == b
  {
    if n > 0 {
      hide Xor;
      XorLaws(a / 2, b / 2, n - 1);
      XorStep(a, b, n);
      XorStep(b, Xor(a, b, n), n);
      BitCancel(a % 2, b % 2);
      EqualHalves(Xor(b, Xor(a, b, n), n), a);
      EqualHalves(a, b);
      EqualHalves(Xor(a, b, n), 0);
    }
  }

  lemma BitCancel(p: nat, q: nat)
    requires p < 2 && q < 2
    ensures (q + (p + q) % 2) % 2 == p
    ensures (p + q) % 2 == 0 <==> p == q
  {
  }

  lemma EqualHalves(a: nat, b: nat)
    ensures a == b <==> a / 2 == b / 2 && a % 2 == b % 2
  {
  }

  lemma XorStep(a: nat, b: nat, n: nat)
    requires n > 0
    ensures Xor(a, b, n) / 2 == Xor(a / 2, b / 2, n - 1)
    ensures Xor(a, b, n) % 2 == (a % 2 + b % 2) % 2
  {
    var h := Xor(a / 2, b / 2, n - 1);
    assert Xor(a, b, n) == (a % 2 + b % 2) % 2 + 2 * h;
  }

  function Xor64(a: nat, b: nat): nat { Xor(a, b, 64) }

  lemma Xor64Laws(a: nat, b: nat)
    requires a < U64 && b < U64
    ensures Xor64(a, b) < U64
    ensures Xor64(b, Xor64(a, b)) == a
    ensures Xor64(a, b) == 0 <==> a == b
  {
    Pow2Of64();
    XorLaws(a, b, 64);
  }

  /** Bitwise and; `w & (w - 1)` is And(w, w - 1). */
  function And(a: nat, b: nat): (x: nat)
    decreases a
  {
    if a == 0 then 0
    else (if a % 2 == 1 && b % 2 == 1 then 1 else 0) + 2 * And(a / 2, b / 2)
  }

  predicate Bit(w: nat, i: nat)
  {
    if i == 0 then w % 2 == 1 else Bit(w / 2, i - 1)
  }

  /** Bit `i` is the i-th binary digit. */
  lemma {:induction false} BitIsDigit(w: nat, i: nat)
    ensures Bit(w, i) <==> (w / Pow2(i)) % 2 == 1
  {
    if i > 0 {
      BitIsDigit(w / 2, i - 1);
      DivTwice(w, 2, Pow2(i - 1));
    }
  }

  /** Exclusive or and conjunction, bit by bit. */
  lemma {:induction false} XorBits(a: nat, b: nat, n: nat, i: nat)
    requires i < n
    ensures Bit(Xor(a, b, n), i) <==> Bit(a, i) != Bit(b, i)
  {
    XorStep(a, b, n);
    if i > 0 { XorBits(a / 2, b / 2, n - 1, i - 1); }
  }

  lemma {:induction false} AndBits(a: nat, b: nat, i: nat)
    ensures Bit(And(a, b), i) <==> Bit(a, i) && Bit(b, i)
    decreases a
  {
    if a == 0 {
      ZeroHasNoBits(i);
    } else if i > 0 {
      AndBits(a / 2, b / 2, i - 1);
    }
  }

  function TrailingZeros(w: nat): (z: nat)
    requires w > 0
  {
    if w % 2 == 1 then 0 else 1 + TrailingZeros(w / 2)
  }

  function PopCount(w: nat): (c: nat)
  {
    if w == 0 then 0 else w % 2 + PopCount(w / 2)
  }

  /** The positions of the set bits of `w`, ascending, shifted by `base`. */
  function BitsFrom(w: nat, base: nat): (s: seq<nat>)
    decreases w
  {
    if w == 0 then []
    else (if w % 2 == 1 then [base] else []) + BitsFrom(w / 2, base + 1)
  }

  lemma {:induction false} BitsCount(w: nat, base: nat)
    ensures |BitsFrom(w, base)| == PopCount(w)
    decreases w
  {
    if w != 0 { BitsCount(w / 2, base + 1); }
  }

  /** Bits are listed once, in ascending order, and exactly those that are set. */
  lemma {:induction false} BitsAreTheSetBits(w: nat, base: nat)
    ensures forall i, j :: 0 <= i < j < |BitsFrom(w, base)| ==> BitsFrom(w, base)[i] < BitsFrom(w, base)[j]
    ensures forall p: nat :: p in BitsFrom(w, base) <==> p >= base && Bit(w, p - base)
    decreases w
  {
    if w == 0 {
      forall p: nat ensures p in BitsFrom(w, base) <==> p >= base && Bit(w, p - base) {
        if p >= base { ZeroHasNoBits(p - base); }
      }
    } else {
      BitsAreTheSetBits(w / 2, base + 1);
      var rest := BitsFrom(w / 2, base + 1);
      forall p: nat
        ensures p in BitsFrom(w, base) <==> p >= base && Bit(w, p - base)
      {
        assert p in rest <==> p >= base + 1 && Bit(w / 2, p - (base + 1));
      }
      forall i | 0 <= i < |rest| ensures rest[i] >= base + 1 { assert rest[i] in rest; }
    }
  }

  lemma {:induction false} ZeroHasNoBits(i: nat)
    ensures !Bit(0, i)
  {
    if i > 0 { ZeroHasNoBits(i - 1); }
  }

  /** One turn of the clear-lowest-bit loop: the lowest set bit is the first of
      the list, and `w & (w - 1)` keeps exactly the others. */
  lemma {:induction false} ClearLowestBit(w: nat, base: nat)
    requires w > 0
    ensures BitsFrom(w, base) == [base + TrailingZeros(w)] + BitsFrom(And(w, w - 1), base)
    ensures And(w, w - 1) < w
    decreases w
  {
    hide And, BitsFrom;
    var h := w / 2;
    BitsStep(w, base);
    if w % 2 == 1 {
      AndOdd(h);
      BitsTwice(h, base);
    } else {
      ClearLowestBit(h, base + 1);
      AndEven(h);
      BitsTwice(And(h, h - 1), base);
    }
  }

  lemma BitsStep(w: nat, base: nat)
    requires w > 0
    ensures BitsFrom(w, base) == (if w % 2 == 1 then [base] else []) + BitsFrom(w / 2, base + 1)
  {
  }

  lemma {:induction false} AndOdd(h: nat)
    ensures And(2 * h + 1, 2 * h) == 2 * h
  {
    AndSelf(h);
    assert (2 * h + 1) / 2 == h && (2 * h) / 2 == h;
  }

  lemma AndEven(h: nat)
    requires h > 0
    ensures And(2 * h, 2 * h - 1) == 2 * And(h, h - 1)
  {
    assert (2 * h) / 2 == h && (2 * h - 1) / 2 == h - 1;
  }

  lemma BitsTwice(h: nat, base: nat)
    ensures BitsFrom(2 * h, base) == BitsFrom(h, base + 1)
  {
    assert (2 * h) / 2 == h;
  }

  lemma {:induction false} AndSelf(w: nat)
    ensures And(w, w) == w
  {
    if w > 0 { AndSelf(w / 2); }
  }

  /** Masking with `(1 << v) - 1` keeps exactly the bits below `v`. */
  lemma {:induction false} MaskBits(w: nat, v: nat, i: nat)
    ensures Bit(And(w, Pow2(v) - 1), i) <==> i < v && Bit(w, i)
    decreases v, i
  {
    if w == 0 {
      ZeroHasNoBits(i);
    } else if v == 0 {
      AndZero(w);
      ZeroHasNoBits(i);
    } else {
      AndMask(w, v);
      if i > 0 { MaskBits(w / 2, v - 1, i - 1); }
    }
  }

  lemma AndMask(w: nat, v: nat)
    requires v > 0
    ensures And(w, Pow2(v) - 1) % 2 == w % 2
    ensures And(w, Pow2(v) - 1) / 2 == And(w / 2, Pow2(v - 1) - 1)
  {
    var m := Pow2(v) - 1;
    assert m % 2 == 1 && m / 2 == Pow2(v - 1) - 1;
  }

  lemma {:induction false} AndZero(w: nat)
    ensures And(w, 0) == 0
  {
    if w > 0 { AndZero(w / 2); }
  }
}
