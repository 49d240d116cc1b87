/** The address-translation constants and the 32-bit words page tables are made of
    (include/mmu.h). A word is kept split into its page-frame number and its twelve flag
    bits; the split loses nothing (`WordRoundTrip`, `NumberRoundTrip`). */
module Mmu {
  const NPAGE: nat := 16384     // pages of physical memory: 64 MB / 4 KB
  const NWORD: nat := 1024      // words in a page, entries in a table
  const UTOPX: nat := 509       // PDX(UTOP): directory slots below this belong to the user
  const UVPTX: nat := 511       // PDX(UVPT): the slot that maps the tables onto themselves
  const VPTX: nat := 513        // PDX(VPT)

  type Frame = n: nat | n < 0x10_0000
  type Spare = n: nat | n < 32

  /** The low twelve bits: PTE_COW 1, PTE_D 2, PTE_LIBRARY 4, five unused bits from 8,
      PTE_G 0x100, PTE_V 0x200, PTE_R 0x400, PTE_UC 0x800. */
  datatype Flags = Flags(cow: bool, d: bool, lib: bool, spare: Spare, g: bool, v: bool, r: bool, uc: bool)

  datatype Word = Word(pfn: Frame, fl: Flags)

  const NOFLAGS := Flags(false, false, false, 0, false, false, false, false)
  const ZERO := Word(0, NOFLAGS)
  const V := NOFLAGS.(v := true)
  const VR := V.(r := true)

  /** A page after bzero. */
  function ZeroPage(): (p: seq<Word>)
    ensures |p| == NWORD && forall i :: 0 <= i < NWORD ==> p[i] == ZERO
  {
    seq(NWORD, i => ZERO)
  }

  function Bit(b: bool): nat { if b then 1 else 0 }

  /** PTE_G, PTE_V, PTE_R and PTE_UC as the number in bits 8 to 11. */
  function HighBits(f: Flags): (n: nat)
    ensures n < 16
  {
    Bit(f.g) + 2 * Bit(f.v) + 4 * Bit(f.r) + 8 * Bit(f.uc)
  }

  function LowBits(f: Flags): (n: nat)
    ensures n < 256
  {
    Bit(f.cow) + 2 * Bit(f.d) + 4 * Bit(f.lib) + 8 * f.spare
  }

  function FlagBits(f: Flags): (n: nat)
    ensures n < 4096
  {
    LowBits(f) + 256 * HighBits(f)
  }

  function BitsFlag(n: nat): Flags
    requires n < 4096
  {
    var l := n % 256;
    var h := n / 256;
    Flags(l % 2 == 1, l / 2 % 2 == 1, l / 4 % 2 == 1, l / 8,
          h % 2 == 1, h / 2 % 2 == 1, h / 4 % 2 == 1, h / 8 == 1)
  }

  function Number(w: Word): (n: nat)
    ensures n < 0x1_0000_0000
  {
    w.pfn * 4096 + FlagBits(w.fl)
  }

  function FromNumber(n: nat): Word
    requires n < 0x1_0000_0000
  {
    Word(n / 4096, BitsFlag(n % 4096))
  }

  lemma FlagsRoundTrip(f: Flags)
    ensures BitsFlag(FlagBits(f)) == f
  {
    var l, h := LowBits(f), HighBits(f);
    assert FlagBits(f) / 256 == h && FlagBits(f) % 256 == l;
    assert l / 2 == Bit(f.d) + 2 * Bit(f.lib) + 4 * f.spare && l / 4 == Bit(f.lib) + 2 * f.spare;
    assert h / 2 == Bit(f.v) + 2 * Bit(f.r) + 4 * Bit(f.uc) && h / 4 == Bit(f.r) + 2 * Bit(f.uc);
  }

  /** Where each flag is in the number: PTE_COW, PTE_D, PTE_LIBRARY, PTE_G, PTE_V, PTE_R and PTE_UC. */
  lemma FlagValues(f: Flags)
    ensures FlagBits(f) == 0x001 * Bit(f.cow) + 0x002 * Bit(f.d) + 0x004 * Bit(f.lib) + 8 * f.spare
                           + 0x100 * Bit(f.g) + 0x200 * Bit(f.v) + 0x400 * Bit(f.r) + 0x800 * Bit(f.uc)
  {
    hide Bit;
  }

  /** Splitting a word into frame and flags loses nothing, and neither does joining. */
  lemma WordRoundTrip(w: Word)
    ensures FromNumber(Number(w)) == w
  {
    FlagsRoundTrip(w.fl);
    assert Number(w) / 4096 == w.pfn && Number(w) % 4096 == FlagBits(w.fl);
  }

  lemma HighRoundTrip(h: nat)
    requires h < 16
    ensures Bit(h % 2 == 1) + 2 * Bit(h / 2 % 2 == 1) + 4 * Bit(h / 4 % 2 == 1) + 8 * Bit(h / 8 == 1) == h
  {}

  lemma LowRoundTrip(l: nat)
    ensures Bit(l % 2 == 1) + 2 * Bit(l / 2 % 2 == 1) + 4 * Bit(l / 4 % 2 == 1) + 8 * (l / 8) == l
  {
    var a := l / 2;
    var b := a / 2;
    assert l / 4 == b && l / 8 == b / 2;
    assert l == 2 * a + Bit(l % 2 == 1) && a == 2 * b + Bit(a % 2 == 1) && b == 2 * (b / 2) + Bit(b % 2 == 1);
  }

  lemma BitsRoundTrip(m: nat)
    requires m < 4096
    ensures FlagBits(BitsFlag(m)) == m
  {
    assert LowBits(BitsFlag(m)) == m % 256 by { LowRoundTrip(m % 256); }
    assert HighBits(BitsFlag(m)) == m / 256 by { HighRoundTrip(m / 256); }
  }

  lemma NumberRoundTrip(n: nat)
    requires n < 0x1_0000_0000
    ensures Number(FromNumber(n)) == n
  {
    BitsRoundTrip(n % 4096);
  }

  // ---------- the frame number in a perm argument ----------

  function Pow2(k: nat): nat { if k == 0 then 1 else 2 * Pow2(k - 1) }

  /** Bitwise or of two numbers of k bits. */
  function OrBits(a: nat, b: nat, k: nat): (r: nat)
    requires a < Pow2(k) && b < Pow2(k)
    ensures r < Pow2(k)
  {
    if k == 0 then 0
    else (if a % 2 == 1 || b % 2 == 1 then 1 else 0) + 2 * OrBits(a / 2, b / 2, k - 1)
  }

  lemma {:induction false} OrZero(a: nat, k: nat)
    requires a < Pow2(k)
    ensures 0 < Pow2(k) && OrBits(a, 0, k) == a
  {
    if k > 0 { OrZero(a / 2, k - 1); }
  }

  function Or(p: Frame, h: Frame): Frame {
    FrameBits();
    OrBits(p, h, 20)
  }

  lemma FrameBits()
    ensures Pow2(20) == 0x10_0000
  {
    assert Pow2(5) == 32;
    assert Pow2(10) == 1024;
    assert Pow2(15) == 32768;
  }

  predicate BitAt(n: nat, j: nat) { if j == 0 then n % 2 == 1 else BitAt(n / 2, j - 1) }

  lemma {:induction false} OrBitsAt(a: nat, b: nat, k: nat, j: nat)
    requires a < Pow2(k) && b < Pow2(k) && j < k
    ensures BitAt(OrBits(a, b, k), j) <==> BitAt(a, j) || BitAt(b, j)
  {
    var low := if a % 2 == 1 || b % 2 == 1 then 1 else 0;
    Halves(low, OrBits(a / 2, b / 2, k - 1));
    assert BitAt(OrBits(a, b, k), j) == if j == 0 then low == 1 else BitAt(OrBits(a / 2, b / 2, k - 1), j - 1);
    if j > 0 { OrBitsAt(a / 2, b / 2, k - 1, j - 1); }
    hide OrBits, Pow2;
  }

  lemma Halves(low: nat, rest: nat)
    requires low < 2
    ensures (low + 2 * rest) / 2 == rest && (low + 2 * rest) % 2 == low
  {}

  /** A bit is set in the stored frame number if it is set in the page's or in perm. */
  lemma OrAt(p: Frame, h: Frame, j: nat)
    requires j < 20
    ensures BitAt(Or(p, h), j) <==> BitAt(p, j) || BitAt(h, j)
  {
    FrameBits();
    OrBitsAt(p, h, 20, j);
  }

  /** With no bits above the low twelve, the frame is the page's. */
  lemma OrNothing(p: Frame)
    ensures Or(p, 0) == p
  {
    FrameBits();
    OrZero(p, 20);
  }

  /** With bit 12 set, an even page becomes the odd one after it. */
  lemma OrOne(p: Frame)
    requires p % 2 == 0
    ensures Or(p, 1) == p + 1
  {
    FrameBits();
    OrZero(p / 2, 19);
  }
}
