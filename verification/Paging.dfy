/**
 The paging layout: fields of a page-table entry (include/mm.h), the two page sizes, the byte
 address split used by loads and stores, and the five table indices (include/mm64.h).
 */
module Paging {
  import opened Bits

  const PAGESZ: nat := 256          // frames, and pages as loads and stores see them
  const PAGESZ64: nat := 4096       // pages as the mapping path sees them
  const WORD64: nat := 0x1_0000_0000_0000_0000
  const FPN_LIMIT: nat := 8192      // values of the 13-bit frame field
  const ENTRIES: nat := 512         // words in one table
  const PAGES: nat := 0x2000_0000_0000 // 2^45, page numbers that five indices of nine bits tell apart
  const BUS_SPACE: nat := 0x40_0000 // 2^22, bytes a 22-bit bus tells apart

  const PRESENT: nat := 31
  const SWAPPED: nat := 30
  const FPN_LOBIT: nat := 0
  const FPN_HIBIT: nat := 12
  const SWPTYP_LOBIT: nat := 0
  const SWPTYP_HIBIT: nat := 4
  const SWPOFF_LOBIT: nat := 5
  const SWPOFF_HIBIT: nat := 25

  const OFFST_LOBIT: nat := 0
  const OFFST_HIBIT: nat := 7
  const PGN_LOBIT: nat := 8
  const PGN_HIBIT: nat := 21

  const PT_LOBIT: nat := 12
  const PT_HIBIT: nat := 20
  const PMD_LOBIT: nat := 21
  const PMD_HIBIT: nat := 29
  const PUD_LOBIT: nat := 30
  const PUD_HIBIT: nat := 38
  const P4D_LOBIT: nat := 39
  const P4D_HIBIT: nat := 47
  const PGD_LOBIT: nat := 48
  const PGD_HIBIT: nat := 56

  // The masks as the preprocessor leaves them; each is the macro's value, bit by bit.
  const PRESENT_MASK: nat := 0x8000_0000 // BIT(31)
  const SWAPPED_MASK: nat := 0x4000_0000 // BIT(30)
  const FPN_MASK: nat := 0x1FFF          // GENMASK(12, 0)
  const SWPTYP_MASK: nat := 0x1F         // GENMASK(4, 0)
  const SWPOFF_MASK: nat := 0x3FF_FFE0   // GENMASK(25, 5)
  const OFFST_MASK: nat := 0xFF          // GENMASK(7, 0)
  const PGN_MASK: nat := 0x3F_FF00       // GENMASK(21, 8)

  /** The two flag masks are BIT(31) and BIT(30). */
  lemma {:induction false} FlagMasks()
    ensures BitMask(PRESENT) == PRESENT_MASK && BitMask(SWAPPED) == SWAPPED_MASK
  {
    hide Bits.Shl, Bits.Pow2;
    ShlIsMul(1, PRESENT);
    ShlIsMul(1, SWAPPED);
    Pow2Values();
    Pow2Words();
  }

  /** The field masks are the GENMASKs of their bounds. */
  lemma {:induction false} FieldMasks()
    ensures GenMask(FPN_HIBIT, FPN_LOBIT, W32) == FPN_MASK
    ensures GenMask(SWPTYP_HIBIT, SWPTYP_LOBIT, W32) == SWPTYP_MASK
    ensures GenMask(SWPOFF_HIBIT, SWPOFF_LOBIT, W32) == SWPOFF_MASK
    ensures GenMask(OFFST_HIBIT, OFFST_LOBIT, W32) == OFFST_MASK
    ensures GenMask(PGN_HIBIT, PGN_LOBIT, W32) == PGN_MASK
  {
    hide Bits.GenMask, Bits.Pow2;
    Pow2Values();
    GenMaskValue(FPN_HIBIT, FPN_LOBIT, W32);
    GenMaskValue(SWPTYP_HIBIT, SWPTYP_LOBIT, W32);
    GenMaskValue(SWPOFF_HIBIT, SWPOFF_LOBIT, W32);
    GenMaskValue(OFFST_HIBIT, OFFST_LOBIT, W32);
    GenMaskValue(PGN_HIBIT, PGN_LOBIT, W32);
  }

  // ----- Page-table entries -----

  predicate PagePresent(pte: nat) {
    And(pte, PRESENT_MASK) != 0
  }

  predicate PageSwapped(pte: nat) {
    And(pte, SWAPPED_MASK) != 0
  }

  function PteFpn(pte: nat): nat {
    GetVal(pte, FPN_MASK, FPN_LOBIT)
  }

  function PteSwpTyp(pte: nat): nat {
    GetVal(pte, SWPTYP_MASK, SWPTYP_LOBIT)
  }

  function PteSwpOff(pte: nat): nat {
    GetVal(pte, SWPOFF_MASK, SWPOFF_LOBIT)
  }

  /** What pte_set_fpn leaves in the word. */
  function WithFpn(pte: nat, fpn: nat): nat {
    SetVal(ClrBit(SetBit(pte, PRESENT_MASK), SWAPPED_MASK), fpn, FPN_MASK, FPN_LOBIT)
  }

  /** What pte_set_swap leaves in the word. */
  function WithSwap(pte: nat, swptyp: nat, swpoff: nat): nat {
    SetVal(SetVal(Flagged(pte), swptyp, SWPTYP_MASK, SWPTYP_LOBIT), swpoff, SWPOFF_MASK, SWPOFF_LOBIT)
  }

  /** Conversion to a 32-bit word. */
  function Low32(v: nat): nat {
    v % 0x1_0000_0000
  }

  lemma Low32IsTrunc(v: nat)
    ensures Low32(v) == Trunc(v, W32)
  {
    hide Bits.Trunc, Bits.Pow2;
    TruncIsMod(v, W32);
    Pow2Words();
  }

  lemma WithFpnBits(pte: nat, fpn: nat, k: nat)
    ensures Bit(WithFpn(pte, fpn), k)
            <==> if k <= FPN_HIBIT then Bit(fpn, k) else k < W32 && k != SWAPPED && (k == PRESENT || Bit(pte, k))
  {
    hide Bits.And, Bits.Or, Bits.Not, Bits.Trunc, Bits.Shr, Bits.Shl, Bits.GenMask, Bits.Pow2;
    FlagMasks();
    FieldMasks();
    var p := SetBit(pte, BitMask(PRESENT));
    SetValBits(ClrBit(p, BitMask(SWAPPED)), fpn, FPN_HIBIT, FPN_LOBIT, k);
    ClrBitBits(p, SWAPPED, k);
    SetBitBits(pte, PRESENT, k);
  }

  lemma WithFpnFlags(pte: nat, fpn: nat)
    ensures PagePresent(WithFpn(pte, fpn)) && !PageSwapped(WithFpn(pte, fpn))
  {
    hide Bits.And, Bits.Or, Bits.Not, Bits.Trunc, Bits.Shr, Bits.Shl, Bits.GenMask, Bits.Pow2;
    FlagMasks();
    TestBit(WithFpn(pte, fpn), PRESENT);
    WithFpnBits(pte, fpn, PRESENT);
    TestBit(WithFpn(pte, fpn), SWAPPED);
    WithFpnBits(pte, fpn, SWAPPED);
  }

  lemma WithFpnFrame(pte: nat, fpn: nat)
    ensures PteFpn(WithFpn(pte, fpn)) == fpn % FPN_LIMIT
  {
    hide Bits.And, Bits.Or, Bits.Not, Bits.Trunc, Bits.Shr, Bits.Shl, Bits.GenMask, Bits.Pow2;
    FlagMasks();
    FieldMasks();
    GetAfterSet(ClrBit(SetBit(pte, BitMask(PRESENT)), BitMask(SWAPPED)), fpn, FPN_HIBIT, FPN_LOBIT);
    TruncIsMod(fpn, FPN_HIBIT - FPN_LOBIT + 1);
    Pow2Values();
  }

  lemma WithFpnFits(pte: nat, fpn: nat)
    ensures Low32(WithFpn(pte, fpn)) == WithFpn(pte, fpn)
  {
    hide Bits.Trunc, WithFpn;
    var w := WithFpn(pte, fpn);
    var t := Trunc(w, W32);
    Low32IsTrunc(w);
    forall k: nat
      ensures Bit(t, k) <==> Bit(w, k)
    {
      BitTrunc(w, W32, k);
      WithFpnBits(pte, fpn, k);
    }
    SameBits(t, w);
  }

  /**
   Whatever the word held before, in either format, after pte_set_fpn it decodes as a present,
   unswapped page on the frame modulo 2^13; the word fits 32 bits, and bits 13..29 are those of
   the old word.
   */
  lemma {:induction false} DecodeAfterSetFpn(pte: nat, fpn: nat)
    ensures var w := WithFpn(pte, fpn);
      && PagePresent(w) && !PageSwapped(w)
      && PteFpn(w) == fpn % FPN_LIMIT
      && Low32(w) == w
      && (forall k: nat :: FPN_HIBIT < k < SWAPPED ==> (Bit(w, k) <==> Bit(pte, k)))
  {
    hide WithFpn, WithSwap, PagePresent, PageSwapped, PteFpn, PteSwpTyp, PteSwpOff, Bits.Trunc;
    WithFpnFlags(pte, fpn);
    WithFpnFrame(pte, fpn);
    WithFpnFits(pte, fpn);
    forall k: nat | FPN_HIBIT < k < SWAPPED
      ensures Bit(WithFpn(pte, fpn), k) <==> Bit(pte, k)
    {
      WithFpnBits(pte, fpn, k);
    }
  }

  /** The two flags as pte_set_swap raises them. */
  function Flagged(pte: nat): nat {
    SetBit(SetBit(pte, PRESENT_MASK), SWAPPED_MASK)
  }

  lemma FlaggedBits(pte: nat, k: nat)
    ensures Bit(Flagged(pte), k) <==> k == PRESENT || k == SWAPPED || Bit(pte, k)
  {
    hide Bits.And, Bits.Or, Bits.Shl, SetBit, BitMask;
    FlagMasks();
    SetBitBits(SetBit(pte, BitMask(PRESENT)), SWAPPED, k);
    SetBitBits(pte, PRESENT, k);
  }

  lemma WithSwapBits(pte: nat, swptyp: nat, swpoff: nat, k: nat)
    ensures Bit(WithSwap(pte, swptyp, swpoff), k)
            <==> if k <= SWPTYP_HIBIT then Bit(swptyp, k)
                 else if k <= SWPOFF_HIBIT then Bit(swpoff, k - SWPOFF_LOBIT)
                 else k < W32 && (k == PRESENT || k == SWAPPED || Bit(pte, k))
  {
    hide Bits.And, Bits.Or, Bits.Not, Bits.Trunc, Bits.Shr, Bits.Shl, Bits.GenMask, Bits.Pow2;
    FieldMasks();
    var q := Flagged(pte);
    FlaggedBits(pte, k);
    SetValBits(q, swptyp, SWPTYP_HIBIT, SWPTYP_LOBIT, k);
    SetValBits(SetVal(q, swptyp, SWPTYP_MASK, SWPTYP_LOBIT), swpoff, SWPOFF_HIBIT, SWPOFF_LOBIT, k);
  }

  lemma WithSwapFlags(pte: nat, swptyp: nat, swpoff: nat)
    ensures PagePresent(WithSwap(pte, swptyp, swpoff)) && PageSwapped(WithSwap(pte, swptyp, swpoff))
  {
    hide Bits.And, Bits.Or, Bits.Not, Bits.Trunc, Bits.Shr, Bits.Shl, Bits.GenMask, Bits.Pow2;
    FlagMasks();
    TestBit(WithSwap(pte, swptyp, swpoff), PRESENT);
    WithSwapBits(pte, swptyp, swpoff, PRESENT);
    TestBit(WithSwap(pte, swptyp, swpoff), SWAPPED);
    WithSwapBits(pte, swptyp, swpoff, SWAPPED);
  }

  lemma WithSwapType(pte: nat, swptyp: nat, swpoff: nat)
    ensures PteSwpTyp(WithSwap(pte, swptyp, swpoff)) == swptyp % 32
  {
    hide Bits.And, Bits.Or, Bits.Not, Bits.Trunc, Bits.Shr, Bits.Shl, Bits.GenMask, Bits.Pow2;
    FieldMasks();
    forall k: nat | SWPTYP_LOBIT <= k <= SWPTYP_HIBIT
      ensures Bit(WithSwap(pte, swptyp, swpoff), k) <==> Bit(swptyp, k - SWPTYP_LOBIT)
    {
      WithSwapBits(pte, swptyp, swpoff, k);
    }
    FieldHolds(WithSwap(pte, swptyp, swpoff), swptyp, SWPTYP_HIBIT, SWPTYP_LOBIT);
    TruncIsMod(swptyp, SWPTYP_HIBIT - SWPTYP_LOBIT + 1);
    Pow2Values();
  }

  lemma WithSwapOffset(pte: nat, swptyp: nat, swpoff: nat)
    ensures PteSwpOff(WithSwap(pte, swptyp, swpoff)) == swpoff % 0x20_0000
  {
    hide Bits.And, Bits.Or, Bits.Not, Bits.Trunc, Bits.Shr, Bits.Shl, Bits.GenMask, Bits.Pow2;
    FieldMasks();
    forall k: nat | SWPOFF_LOBIT <= k <= SWPOFF_HIBIT
      ensures Bit(WithSwap(pte, swptyp, swpoff), k) <==> Bit(swpoff, k - SWPOFF_LOBIT)
    {
      WithSwapBits(pte, swptyp, swpoff, k);
    }
    FieldHolds(WithSwap(pte, swptyp, swpoff), swpoff, SWPOFF_HIBIT, SWPOFF_LOBIT);
    TruncIsMod(swpoff, SWPOFF_HIBIT - SWPOFF_LOBIT + 1);
    Pow2Values();
  }

  /**
   After pte_set_swap the word decodes to the given type (5 bits) and offset (21 bits), over any
   stale contents; it still counts as present, as the source leaves it.
   */
  lemma {:induction false} DecodeAfterSetSwap(pte: nat, swptyp: nat, swpoff: nat)
    ensures var w := WithSwap(pte, swptyp, swpoff);
      && PagePresent(w) && PageSwapped(w)
      && PteSwpTyp(w) == swptyp % 32
      && PteSwpOff(w) == swpoff % 0x20_0000
  {
    hide WithFpn, WithSwap, PagePresent, PageSwapped, PteFpn, PteSwpTyp, PteSwpOff, Bits.Trunc;
    WithSwapFlags(pte, swptyp, swpoff);
    WithSwapType(pte, swptyp, swpoff);
    WithSwapOffset(pte, swptyp, swpoff);
  }

  lemma SwpOffArith(pte: nat)
    ensures PteSwpOff(pte) == pte / 32 % 0x20_0000
  {
    hide Bits.And, Bits.Trunc, Bits.Shr, Bits.Shl, Bits.GenMask, Bits.Pow2, Bits.GetVal;
    FieldMasks();
    GetValArith(pte, SWPOFF_HIBIT, SWPOFF_LOBIT, W32);
    Pow2Values();
  }

  lemma FrameFits(pte: nat)
    ensures PteFpn(pte) < FPN_LIMIT
  {
    hide Bits.And, Bits.Trunc, Bits.Shr, Bits.Shl, Bits.GenMask, Bits.Pow2, Bits.GetVal;
    FieldMasks();
    GetValArith(pte, FPN_HIBIT, FPN_LOBIT, W32);
    Pow2Values();
  }

  /**
   The frame field of a swapped entry overlaps type and offset: it reads as the type plus 32
   times the low eight bits of the offset.
   */
  lemma {:induction false} SwapReadsAsFrame(pte: nat, swptyp: nat, swpoff: nat)
    ensures PteFpn(WithSwap(pte, swptyp, swpoff)) == swptyp % 32 + 32 * (swpoff % 256)
  {
    hide Bits.And, Bits.Or, Bits.Not, Bits.Trunc, Bits.Shr, Bits.Shl, Bits.GenMask, Bits.Pow2, Bits.Join, WithSwap;
    FieldMasks();
    var w, v := WithSwap(pte, swptyp, swpoff), Join(swptyp, swpoff, SWPOFF_LOBIT);
    forall k: nat | FPN_LOBIT <= k <= FPN_HIBIT
      ensures Bit(w, k) <==> Bit(v, k - FPN_LOBIT)
    {
      WithSwapBits(pte, swptyp, swpoff, k);
      BitJoin(swptyp, swpoff, SWPOFF_LOBIT, k);
    }
    FieldHolds(w, v, FPN_HIBIT, FPN_LOBIT);
    JoinArith(swptyp, swpoff, SWPOFF_LOBIT);
    TruncIsMod(v, FPN_HIBIT - FPN_LOBIT + 1);
    Pow2Values();
    SplitField(swptyp % 32, swpoff);
  }

  lemma SplitField(t: nat, off: nat)
    requires t < 32
    ensures (t + 32 * off) % FPN_LIMIT == t + 32 * (off % 256)
  {
    DivModUnique(t + 32 * off, FPN_LIMIT, off / 256, t + 32 * (off % 256));
  }

  /** The frame written is the frame read back exactly when it fits the 13-bit field. */
  lemma {:induction false} FrameRoundTripIff(pte: nat, fpn: nat)
    ensures PteFpn(WithFpn(pte, fpn)) == fpn <==> fpn < FPN_LIMIT
  {
    hide WithFpn, PteFpn;
    WithFpnFrame(pte, fpn);
  }

  /** Reading an entry as a 32-bit word loses nothing that is ever decoded from it. */
  lemma {:induction false} LowWordDecodes(pte: nat)
    ensures PagePresent(Low32(pte)) <==> PagePresent(pte)
    ensures PteFpn(Low32(pte)) == PteFpn(pte)
  {
    hide Bits.And, Bits.Trunc, Bits.GenMask, Bits.Shl, Bits.Pow2, Bits.GetVal;
    FlagMasks();
    FieldMasks();
    Low32IsTrunc(pte);
    var low := Trunc(pte, W32);
    TestBit(low, PRESENT);
    TestBit(pte, PRESENT);
    BitTrunc(pte, W32, PRESENT);
    forall k: nat | FPN_LOBIT <= k <= FPN_HIBIT
      ensures Bit(low, k) <==> Bit(pte, k - FPN_LOBIT)
    {
      BitTrunc(pte, W32, k);
    }
    FieldHolds(low, pte, FPN_HIBIT, FPN_LOBIT);
    FieldHolds(pte, pte, FPN_HIBIT, FPN_LOBIT);
  }

  // ----- Byte addresses -----

  /** PAGING_PGN. */
  function Pgn(addr: nat): nat {
    GetVal(addr, PGN_MASK, PGN_LOBIT)
  }

  /** PAGING_OFFST. */
  function Offst(addr: nat): nat {
    GetVal(addr, OFFST_MASK, OFFST_LOBIT)
  }

  /** The physical address that pg_getval and pg_setval form from a frame and an address. */
  function PhysAddr(fpn: nat, addr: nat): nat {
    Shl(fpn, PGN_LOBIT) + Offst(addr)
  }

  lemma PgnArith(addr: nat)
    ensures Pgn(addr) == addr / PAGESZ % 16384
  {
    hide Bits.And, Bits.Or, Bits.Not, Bits.Trunc, Bits.Shr, Bits.Shl, Bits.GenMask, Bits.Pow2;
    FieldMasks();
    GetValArith(addr, PGN_HIBIT, PGN_LOBIT, W32);
    Pow2Values();
  }

  lemma OffstArith(addr: nat)
    ensures Offst(addr) == addr % PAGESZ
  {
    hide Bits.And, Bits.Or, Bits.Not, Bits.Trunc, Bits.Shr, Bits.Shl, Bits.GenMask, Bits.Pow2;
    FieldMasks();
    GetValArith(addr, OFFST_HIBIT, OFFST_LOBIT, W32);
    Pow2Values();
  }

  /** Page and offset are the two digits, base 256, of the address modulo 2^22. */
  lemma {:induction false} AddressSplit(addr: nat)
    ensures Pgn(addr) < BUS_SPACE / PAGESZ && Offst(addr) < PAGESZ
    ensures Pgn(addr) * PAGESZ + Offst(addr) == addr % BUS_SPACE
  {
    hide Pgn, Offst;
    PgnArith(addr);
    OffstArith(addr);
    BusDigits(addr);
  }

  /** An address, modulo 2^22, is its page and its offset. */
  lemma SplitIff(a: nat, b: nat)
    ensures a % BUS_SPACE == b % BUS_SPACE <==> Pgn(a) == Pgn(b) && Offst(a) == Offst(b)
  {
    hide Pgn, Offst;
    AddressSplit(a);
    AddressSplit(b);
    TwoDigits(Pgn(a), Offst(a), Pgn(b), Offst(b));
  }

  lemma TwoDigits(p: nat, o: nat, p': nat, o': nat)
    requires o < PAGESZ && o' < PAGESZ
    ensures p * PAGESZ + o == p' * PAGESZ + o' <==> p == p' && o == o'
  {
  }

  lemma BusDigits(addr: nat)
    ensures addr / 256 % 16384 * 256 + addr % 256 == addr % BUS_SPACE
  {
    var q, r := addr / BUS_SPACE, addr % BUS_SPACE;
    assert addr / 256 == q * 16384 + r / 256;
    DivModUnique(addr / 256, 16384, q, r / 256);
  }

  lemma PhysAddrArith(fpn: nat, addr: nat)
    ensures PhysAddr(fpn, addr) == fpn * PAGESZ + Offst(addr)
    ensures Offst(addr) < PAGESZ
  {
    hide Bits.And, Bits.Or, Bits.Not, Bits.Trunc, Bits.Shr, Bits.Shl, Bits.GenMask, Bits.Pow2;
    ShlIsMul(fpn, PGN_LOBIT);
    Pow2Values();
    OffstArith(addr);
  }

  /** Two accesses meet in physical memory exactly when frame and offset are the same. */
  lemma {:induction false} PhysAddrInjective(f: nat, a: nat, g: nat, b: nat)
    ensures PhysAddr(f, a) == PhysAddr(g, b) <==> f == g && Offst(a) == Offst(b)
  {
    hide PhysAddr, Offst;
    PhysAddrArith(f, a);
    PhysAddrArith(g, b);
  }

  // ----- Table indices -----

  datatype Indices = Indices(pgd: nat, p4d: nat, pud: nat, pmd: nat, pt: nat)

  /** get_pd_from_address. */
  function PdFromAddress(addr: nat): Indices {
    Indices(GetVal(addr, GenMask(PGD_HIBIT, PGD_LOBIT, W64), PGD_LOBIT), GetVal(addr, GenMask(P4D_HIBIT, P4D_LOBIT, W64), P4D_LOBIT),
            GetVal(addr, GenMask(PUD_HIBIT, PUD_LOBIT, W64), PUD_LOBIT), GetVal(addr, GenMask(PMD_HIBIT, PMD_LOBIT, W64), PMD_LOBIT),
            GetVal(addr, GenMask(PT_HIBIT, PT_LOBIT, W64), PT_LOBIT))
  }

  /** get_pd_from_pagenum: the page number is shifted into a 64-bit address first. */
  function PdFromPagenum(pgn: nat): Indices {
    PdFromAddress(Trunc(Shl(pgn, PT_LOBIT), W64))
  }

  lemma PagenumAddress(pgn: nat)
    ensures Trunc(Shl(pgn, PT_LOBIT), W64) == (pgn * 4096) % WORD64
  {
    hide Bits.And, Bits.Or, Bits.Not, Bits.Trunc, Bits.Shr, Bits.Shl, Bits.GenMask, Bits.Pow2;
    ShlIsMul(pgn, PT_LOBIT);
    TruncIsMod(pgn * Pow2(PT_LOBIT), W64);
    Pow2Values();
  }

  lemma IndexArith(addr: nat, h: nat, l: nat)
    requires h == l + 8 && h < W64
    ensures GetVal(addr, GenMask(h, l, W64), l) == addr / Pow2(l) % ENTRIES
  {
    hide Bits.And, Bits.Or, Bits.Not, Bits.Trunc, Bits.Shr, Bits.Shl, Bits.GenMask, Bits.Pow2;
    GetValArith(addr, h, l, W64);
    Pow2Values();
  }

  lemma PdFromAddressArith(addr: nat)
    ensures PdFromAddress(addr)
         == Indices(addr / 0x1_0000_0000_0000 % ENTRIES, addr / 0x80_0000_0000 % ENTRIES,
                    addr / 0x4000_0000 % ENTRIES, addr / 0x20_0000 % ENTRIES, addr / 4096 % ENTRIES)
  {
    Pow2Values();
    IndexArith(addr, PGD_HIBIT, PGD_LOBIT);
    IndexArith(addr, P4D_HIBIT, P4D_LOBIT);
    IndexArith(addr, PUD_HIBIT, PUD_LOBIT);
    IndexArith(addr, PMD_HIBIT, PMD_LOBIT);
    IndexArith(addr, PT_HIBIT, PT_LOBIT);
  }

  /** The five indices are the base-512 digits of the page number modulo 2^45. */
  lemma {:induction false} IndexDigits(pgn: nat)
    ensures var ix := PdFromPagenum(pgn);
      && ix.pgd < ENTRIES && ix.p4d < ENTRIES && ix.pud < ENTRIES && ix.pmd < ENTRIES && ix.pt < ENTRIES
      && (((ix.pgd * ENTRIES + ix.p4d) * ENTRIES + ix.pud) * ENTRIES + ix.pmd) * ENTRIES + ix.pt == pgn % PAGES
  {
    hide PdFromAddress, Bits.Trunc, Bits.Shl;
    PagenumAddress(pgn);
    var p := LowPagenum(pgn);
    PdFromAddressArith(p * 4096);
    Digits(p);
  }

  /** The shift to a 64-bit address keeps the low 52 bits of the page number. */
  lemma LowPagenum(pgn: nat) returns (p: nat)
    ensures (pgn * 4096) % WORD64 == p * 4096 && pgn % PAGES == p % PAGES
  {
    p := pgn % 0x10_0000_0000_0000;
    var q := pgn / 0x10_0000_0000_0000;
    DivModUnique(pgn * 4096, WORD64, q, p * 4096);
    DivModUnique(pgn, PAGES, q * 128 + p / PAGES, p % PAGES);
  }

  lemma Digits(p: nat)
    ensures ((((p * 4096 / 0x1_0000_0000_0000 % 512 * 512 + p * 4096 / 0x80_0000_0000 % 512) * 512
             + p * 4096 / 0x4000_0000 % 512) * 512 + p * 4096 / 0x20_0000 % 512) * 512
             + p * 4096 / 4096 % 512) == p % PAGES
  {
    var (p1, d0) := (p / 512, p % 512);
    var (p2, d1) := (p1 / 512, p1 % 512);
    var (p3, d2) := (p2 / 512, p2 % 512);
    var (p4, d3) := (p3 / 512, p3 % 512);
    var (p5, d4) := (p4 / 512, p4 % 512);
    DivModUnique(p * 4096, 0x20_0000, p1, d0 * 4096);
    DivModUnique(p * 4096, 0x4000_0000, p2, (d1 * 512 + d0) * 4096);
    DivModUnique(p * 4096, 0x80_0000_0000, p3, ((d2 * 512 + d1) * 512 + d0) * 4096);
    DivModUnique(p * 4096, 0x1_0000_0000_0000, p4, (((d3 * 512 + d2) * 512 + d1) * 512 + d0) * 4096);
    DivModUnique(p, PAGES, p5, (((d4 * 512 + d3) * 512 + d2) * 512 + d1) * 512 + d0);
  }
}
