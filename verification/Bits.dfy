/**
 Unsigned machine words as natural numbers, with the bit macros of include/bitops.h and
 include/mm.h written over them.  Every operator is defined one bit at a time, so that a
 statement about a macro is proved bit by bit and then read back as arithmetic.
 */
module Bits {

  const W32: nat := 32 // bits in a C unsigned int
  const W64: nat := 64 // bits in a C uint64_t

  function Pow2(n: nat): (r: nat)
    ensures r > 0
  {
    if n == 0 then 1 else 2 * Pow2(n - 1)
  }

  /** Bit k of v. */
  predicate Bit(v: nat, k: nat)
    decreases k
  {
    if k == 0 then v % 2 == 1 else Bit(v / 2, k - 1)
  }

  function And(a: nat, b: nat): nat
    decreases a
  {
    if a == 0 || b == 0 then 0
    else (if a % 2 == 1 && b % 2 == 1 then 1 else 0) + 2 * And(a / 2, b / 2)
  }

  function Or(a: nat, b: nat): nat
    decreases a + b
  {
    if a == 0 && b == 0 then 0
    else (if a % 2 == 1 || b % 2 == 1 then 1 else 0) + 2 * Or(a / 2, b / 2)
  }

  /** The complement of v as a word of the given width. */
  function Not(v: nat, width: nat): nat
    decreases width
  {
    if width == 0 then 0 else (1 - v % 2) + 2 * Not(v / 2, width - 1)
  }

  /** What a word of the given width keeps of v. */
  function Trunc(v: nat, width: nat): nat
    decreases width
  {
    if width == 0 then 0 else v % 2 + 2 * Trunc(v / 2, width - 1)
  }

  function Shr(v: nat, n: nat): nat
    decreases n
  {
    if n == 0 then v else Shr(v / 2, n - 1)
  }

  function Shl(v: nat, n: nat): nat
    decreases n
  {
    if n == 0 then v else 2 * Shl(v, n - 1)
  }

  // ----- The macros -----

  /** GENMASK for width 32, GENMASK64 for width 64: ones at bits l..h. */
  function GenMask(h: nat, l: nat, width: nat): nat
    requires l <= h < width
  {
    And(Trunc(Shl(Not(0, width), l), width), Shr(Not(0, width), width - h - 1))
  }

  /** BIT(n). */
  function BitMask(n: nat): nat {
    Shl(1, n)
  }

  function SetBit(v: nat, mask: nat): nat {
    Or(v, mask)
  }

  /** The complement of a 32-bit mask, which has no bits from 32 up. */
  function Complement(mask: nat): nat {
    0xFFFF_FFFF - mask % 0x1_0000_0000
  }

  /** The masks are 32-bit words, so the complement also drops bits 32 and up of a 64-bit v. */
  function ClrBit(v: nat, mask: nat): nat {
    And(v, Complement(mask))
  }

  function SetVal(v: nat, value: nat, mask: nat, offst: nat): nat {
    Or(And(v, Complement(mask)), And(Shl(value, offst) % 0x1_0000_0000_0000_0000, mask))
  }

  function GetVal(v: nat, mask: nat, offst: nat): nat {
    Shr(And(v, mask), offst)
  }

  // ----- Bit by bit -----

  lemma {:induction false} BitZero(k: nat)
    ensures !Bit(0, k)
    decreases k
  {
    if k > 0 { BitZero(k - 1); }
  }

  lemma {:induction false} BitAnd(a: nat, b: nat, k: nat)
    ensures Bit(And(a, b), k) <==> Bit(a, k) && Bit(b, k)
    decreases k
  {
    if a == 0 || b == 0 {
      BitZero(k);
    } else if k > 0 {
      BitAnd(a / 2, b / 2, k - 1);
    }
  }

  lemma {:induction false} BitOr(a: nat, b: nat, k: nat)
    ensures Bit(Or(a, b), k) <==> Bit(a, k) || Bit(b, k)
    decreases k
  {
    if a == 0 && b == 0 {
      BitZero(k);
    } else if k > 0 {
      BitOr(a / 2, b / 2, k - 1);
    }
  }

  lemma {:induction false} BitNot(v: nat, width: nat, k: nat)
    ensures Bit(Not(v, width), k) <==> k < width && !Bit(v, k)
    decreases k
  {
    if width == 0 {
      BitZero(k);
    } else if k > 0 {
      BitNot(v / 2, width - 1, k - 1);
    }
  }

  lemma {:induction false} BitTrunc(v: nat, width: nat, k: nat)
    ensures Bit(Trunc(v, width), k) <==> k < width && Bit(v, k)
    decreases k
  {
    if width == 0 {
      BitZero(k);
    } else if k > 0 {
      BitTrunc(v / 2, width - 1, k - 1);
    }
  }

  lemma {:induction false} BitShr(v: nat, n: nat, k: nat)
    ensures Bit(Shr(v, n), k) <==> Bit(v, n + k)
    decreases n
  {
    if n > 0 { BitShr(v / 2, n - 1, k); }
  }

  lemma {:induction false} BitShl(v: nat, n: nat, k: nat)
    ensures Bit(Shl(v, n), k) <==> n <= k && Bit(v, k - n)
    decreases n
  {
    if n > 0 && k > 0 { BitShl(v, n - 1, k - 1); }
  }

  lemma {:induction false} BitGenMask(h: nat, l: nat, width: nat, k: nat)
    requires l <= h < width
    ensures Bit(GenMask(h, l, width), k) <==> l <= k <= h
  {
    var ones := Not(0, width);
    BitAnd(Trunc(Shl(ones, l), width), Shr(ones, width - h - 1), k);
    BitTrunc(Shl(ones, l), width, k);
    BitShl(ones, l, k);
    if l <= k {
      BitNot(0, width, k - l);
      BitZero(k - l);
    }
    BitShr(ones, width - h - 1, k);
    BitNot(0, width, width - h - 1 + k);
    BitZero(width - h - 1 + k);
  }

  lemma {:induction false} BitBitMask(n: nat, k: nat)
    ensures Bit(BitMask(n), k) <==> k == n
  {
    BitShl(1, n, k);
    if n < k { BitZero(k - n - 1); }
  }

  /** Two words with the same bits are the same word. */
  lemma {:induction false} SameBits(a: nat, b: nat)
    requires forall k: nat :: Bit(a, k) <==> Bit(b, k)
    ensures a == b
    decreases a + b
  {
    assert Bit(a, 0) <==> Bit(b, 0);
    if a + b > 0 {
      forall k: nat
        ensures Bit(a / 2, k) <==> Bit(b / 2, k)
      {
        assert Bit(a, k + 1) <==> Bit(b, k + 1);
      }
      SameBits(a / 2, b / 2);
    }
  }

  /** A word is non-zero after masking with BIT(n) exactly when its bit n is set. */
  lemma {:induction false} TestBit(v: nat, n: nat)
    ensures And(v, BitMask(n)) != 0 <==> Bit(v, n)
  {
    BitAnd(v, BitMask(n), n);
    BitBitMask(n, n);
    BitZero(n);
    if !Bit(v, n) {
      forall k: nat
        ensures Bit(And(v, BitMask(n)), k) <==> Bit(0, k)
      {
        BitAnd(v, BitMask(n), k);
        BitBitMask(n, k);
        BitZero(k);
      }
      SameBits(And(v, BitMask(n)), 0);
    }
  }

  // ----- What the macros mean -----

  /** GETVAL under GENMASK(h, l) reads exactly the bits l..h, shifted down. */
  lemma {:induction false} GetValField(v: nat, h: nat, l: nat, width: nat)
    requires l <= h < width
    ensures GetVal(v, GenMask(h, l, width), l) == Trunc(Shr(v, l), h - l + 1)
  {
    var mask := GenMask(h, l, width);
    forall k: nat
      ensures Bit(GetVal(v, mask, l), k) <==> Bit(Trunc(Shr(v, l), h - l + 1), k)
    {
      BitShr(And(v, mask), l, k);
      BitAnd(v, mask, l + k);
      BitGenMask(h, l, width, l + k);
      BitTrunc(Shr(v, l), h - l + 1, k);
      BitShr(v, l, k);
    }
    SameBits(GetVal(v, mask, l), Trunc(Shr(v, l), h - l + 1));
  }

  /** SETVAL writes the value into bits l..h, keeps the other bits below 32 and drops the rest. */
  lemma {:induction false} SetValBits(v: nat, value: nat, h: nat, l: nat, k: nat)
    requires l <= h < W32
    ensures Bit(SetVal(v, value, GenMask(h, l, W32), l), k)
            <==> if l <= k <= h then Bit(value, k - l) else k < W32 && Bit(v, k)
  {
    var mask := GenMask(h, l, W32);
    hide And, Or, Not, Trunc, Shl, GenMask, Pow2;
    ComplementIsNot(mask);
    Word64IsTrunc(Shl(value, l));
    BitOr(And(v, Not(mask, W32)), And(Trunc(Shl(value, l), W64), mask), k);
    BitAnd(v, Not(mask, W32), k);
    BitNot(mask, W32, k);
    BitGenMask(h, l, W32, k);
    BitAnd(Trunc(Shl(value, l), W64), mask, k);
    BitTrunc(Shl(value, l), W64, k);
    BitShl(value, l, k);
  }

  lemma {:induction false} ClrBitBits(v: nat, n: nat, k: nat)
    requires n < W32
    ensures Bit(ClrBit(v, BitMask(n)), k) <==> k < W32 && k != n && Bit(v, k)
  {
    hide And, Not, Shl, Pow2;
    ComplementIsNot(BitMask(n));
    BitAnd(v, Not(BitMask(n), W32), k);
    BitNot(BitMask(n), W32, k);
    BitBitMask(n, k);
  }

  lemma {:induction false} SetBitBits(v: nat, n: nat, k: nat)
    ensures Bit(SetBit(v, BitMask(n)), k) <==> k == n || Bit(v, k)
  {
    BitOr(v, BitMask(n), k);
    BitBitMask(n, k);
  }

  /** A word whose bits l..h are those of a value holds that value in the field, cut to its width. */
  lemma {:induction false} FieldHolds(w: nat, value: nat, h: nat, l: nat)
    requires l <= h < W32
    requires forall k: nat :: l <= k <= h ==> (Bit(w, k) <==> Bit(value, k - l))
    ensures GetVal(w, GenMask(h, l, W32), l) == Trunc(value, h - l + 1)
  {
    hide And, Shr, Trunc, GenMask, GetVal;
    GetValField(w, h, l, W32);
    var got, want := Trunc(Shr(w, l), h - l + 1), Trunc(value, h - l + 1);
    forall k: nat
      ensures Bit(got, k) <==> Bit(want, k)
    {
      BitTrunc(Shr(w, l), h - l + 1, k);
      BitShr(w, l, k);
      BitTrunc(value, h - l + 1, k);
    }
    SameBits(got, want);
  }

  /** Reading a field back after SETVAL gives the value, cut to the field's width. */
  lemma {:induction false} GetAfterSet(v: nat, value: nat, h: nat, l: nat)
    requires l <= h < W32
    ensures GetVal(SetVal(v, value, GenMask(h, l, W32), l), GenMask(h, l, W32), l) == Trunc(value, h - l + 1)
  {
    forall k: nat | l <= k <= h
      ensures Bit(SetVal(v, value, GenMask(h, l, W32), l), k) <==> Bit(value, k - l)
    {
      SetValBits(v, value, h, l, k);
    }
    FieldHolds(SetVal(v, value, GenMask(h, l, W32), l), value, h, l);
  }

  // ----- Read back as arithmetic -----

  /** Halving first and dividing after is dividing by twice as much. */
  lemma HalveThenDivide(v: nat, m: nat)
    requires m > 0
    ensures (v / 2) / m == v / (2 * m)
    ensures v % (2 * m) == v % 2 + 2 * ((v / 2) % m)
  {
    var q, s := (v / 2) / m, (v / 2) % m;
    assert v / 2 == m * q + s;
    assert v == (2 * m) * q + (2 * s + v % 2);
    DivModUnique(v, 2 * m, q, 2 * s + v % 2);
  }

  lemma DivModUnique(v: nat, d: nat, q: nat, r: nat)
    requires r < d && v == d * q + r
    ensures v / d == q && v % d == r
  {
    var q', r' := v / d, v % d;
    assert v == d * q' + r';
    if q' < q {
      MulAtLeast(q - q', d);
    } else if q < q' {
      MulAtLeast(q' - q, d);
    }
  }

  lemma MulAtLeast(x: nat, d: nat)
    requires x > 0
    ensures d * x >= d
  {
  }

  lemma {:induction false} ShrIsDiv(v: nat, n: nat)
    ensures Shr(v, n) == v / Pow2(n)
    decreases n
  {
    if n > 0 {
      ShrIsDiv(v / 2, n - 1);
      HalveThenDivide(v, Pow2(n - 1));
    }
  }

  lemma {:induction false} TruncIsMod(v: nat, width: nat)
    ensures Trunc(v, width) == v % Pow2(width)
    decreases width
  {
    if width > 0 {
      TruncIsMod(v / 2, width - 1);
      HalveThenDivide(v, Pow2(width - 1));
    }
  }

  lemma {:induction false} ShlIsMul(v: nat, n: nat)
    ensures Shl(v, n) == v * Pow2(n)
    decreases n
  {
    if n > 0 { ShlIsMul(v, n - 1); }
  }

  /** The field that GETVAL reads, as a quotient and a remainder. */
  lemma {:induction false} GetValArith(v: nat, h: nat, l: nat, width: nat)
    requires l <= h < width
    ensures GetVal(v, GenMask(h, l, width), l) == (v / Pow2(l)) % Pow2(h - l + 1)
  {
    GetValField(v, h, l, width);
    ShrIsDiv(v, l);
    TruncIsMod(v / Pow2(l), h - l + 1);
  }

  lemma {:induction false} Pow2Add(m: nat, n: nat)
    ensures Pow2(m + n) == Pow2(m) * Pow2(n)
    decreases m
  {
    if m > 0 { Pow2Add(m - 1, n); }
  }

  /** The powers that the layout constants use. */
  lemma Pow2Values()
    ensures Pow2(0) == 1 && Pow2(5) == 32 && Pow2(8) == 256 && Pow2(9) == 512
    ensures Pow2(12) == 4096 && Pow2(13) == 8192 && Pow2(14) == 16384
    ensures Pow2(21) == 0x20_0000 && Pow2(30) == 0x4000_0000 && Pow2(39) == 0x80_0000_0000
    ensures Pow2(48) == 0x1_0000_0000_0000 && Pow2(64) == 0x1_0000_0000_0000_0000
  {
    assert Pow2(9) == 512;
    Pow2Add(9, 12);
    Pow2Add(9, 21);
    Pow2Add(9, 30);
    Pow2Add(9, 39);
    assert Pow2(16) == 0x1_0000;
    Pow2Add(16, 48);
  }

  lemma Pow2Words()
    ensures Pow2(31) == 0x8000_0000 && Pow2(W32) == 0x1_0000_0000
  {
    Pow2Values();
    Pow2Add(1, 30);
    Pow2Add(2, 30);
  }

  lemma {:induction false} NotArith(v: nat, width: nat)
    ensures Not(v, width) == Pow2(width) - 1 - v % Pow2(width)
    decreases width
  {
    if width > 0 {
      NotArith(v / 2, width - 1);
      HalveThenDivide(v, Pow2(width - 1));
    }
  }

  lemma ComplementIsNot(mask: nat)
    ensures Complement(mask) == Not(mask, W32)
  {
    hide Not, Pow2;
    NotArith(mask, W32);
    Pow2Words();
  }

  lemma Word64IsTrunc(v: nat)
    ensures v % 0x1_0000_0000_0000_0000 == Trunc(v, W64)
  {
    hide Trunc, Pow2;
    TruncIsMod(v, W64);
    Pow2Values();
  }

  lemma {:induction false} OnesAre(width: nat)
    ensures Not(0, width) == Pow2(width) - 1
  {
    if width > 0 { OnesAre(width - 1); }
  }

  /** The value of GENMASK(h, l). */
  lemma {:induction false} GenMaskValue(h: nat, l: nat, width: nat)
    requires l <= h < width
    ensures GenMask(h, l, width) == (Pow2(h - l + 1) - 1) * Pow2(l)
  {
    hide GenMask;
    var ones := Not(0, h - l + 1);
    forall k: nat
      ensures Bit(GenMask(h, l, width), k) <==> Bit(Shl(ones, l), k)
    {
      BitGenMask(h, l, width, k);
      BitShl(ones, l, k);
      if l <= k {
        BitNot(0, h - l + 1, k - l);
        BitZero(k - l);
      }
    }
    SameBits(GenMask(h, l, width), Shl(ones, l));
    OnesAre(h - l + 1);
    ShlIsMul(ones, l);
  }

  // ----- Two fields side by side -----

  /** The low n bits of one number below all the bits of another. */
  function Join(low: nat, high: nat, n: nat): nat
    decreases n
  {
    if n == 0 then high else low % 2 + 2 * Join(low / 2, high, n - 1)
  }

  lemma {:induction false} BitJoin(low: nat, high: nat, n: nat, k: nat)
    ensures Bit(Join(low, high, n), k) <==> if k < n then Bit(low, k) else Bit(high, k - n)
    decreases n
  {
    if n > 0 && k > 0 { BitJoin(low / 2, high, n - 1, k - 1); }
  }

  lemma {:induction false} JoinArith(low: nat, high: nat, n: nat)
    ensures Join(low, high, n) == low % Pow2(n) + Pow2(n) * high
    decreases n
  {
    if n > 0 {
      JoinArith(low / 2, high, n - 1);
      HalveThenDivide(low, Pow2(n - 1));
    }
  }
}
