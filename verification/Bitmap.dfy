/** The free bitmap as the file server keeps it: one bit to a block in 32-bit words. */
module Bitmap {
  /** 1 << k. */
  function Mask(k: nat): (m: bv32)
    requires k < 32
    ensures m != 0
  {
    match k
    case 0 => 0x1 case 1 => 0x2 case 2 => 0x4 case 3 => 0x8
    case 4 => 0x10 case 5 => 0x20 case 6 => 0x40 case 7 => 0x80
    case 8 => 0x100 case 9 => 0x200 case 10 => 0x400 case 11 => 0x800
    case 12 => 0x1000 case 13 => 0x2000 case 14 => 0x4000 case 15 => 0x8000
    case 16 => 0x1_0000 case 17 => 0x2_0000 case 18 => 0x4_0000 case 19 => 0x8_0000
    case 20 => 0x10_0000 case 21 => 0x20_0000 case 22 => 0x40_0000 case 23 => 0x80_0000
    case 24 => 0x100_0000 case 25 => 0x200_0000 case 26 => 0x400_0000 case 27 => 0x800_0000
    case 28 => 0x1000_0000 case 29 => 0x2000_0000 case 30 => 0x4000_0000 case _ => 0x8000_0000
  }

  predicate Apart(m: bv32, n: bv32) { m & n == 0 }

  predicate OneHot(m: bv32) { m & (m - 1) == 0 }

  predicate Less(m: bv32, n: bv32) { m < n }

  lemma MaskOneHot(k: nat)
    requires k < 32
    ensures OneHot(Mask(k))
  {}

  lemma MaskGrowsLow(k: nat)
    requires k < 16
    ensures Less(Mask(k), Mask(k + 1))
  {}

  lemma MaskGrowsHigh(k: nat)
    requires 16 <= k < 31
    ensures Less(Mask(k), Mask(k + 1))
  {}

  lemma LessTransitive(a: bv32, b: bv32, c: bv32)
    requires Less(a, b) && Less(b, c)
    ensures Less(a, c)
  {}

  lemma {:induction false} MasksOrdered(j: nat, k: nat)
    requires j < k < 32
    ensures Less(Mask(j), Mask(k))
  {
    hide Mask, Less;
    if k - 1 < 16 { MaskGrowsLow(k - 1); } else { MaskGrowsHigh(k - 1); }
    if j < k - 1 {
      MasksOrdered(j, k - 1);
      LessTransitive(Mask(j), Mask(k - 1), Mask(k));
    }
  }

  /** A smaller power of two has no bit in common with a larger one. */
  lemma PowersApart(m: bv32, n: bv32)
    requires Less(m, n) && OneHot(m) && OneHot(n)
    ensures Apart(m, n) && Apart(n, m)
  {}

  lemma MasksApart(j: nat, k: nat)
    requires j < 32 && k < 32 && j != k
    ensures Apart(Mask(j), Mask(k))
  {
    hide Mask, Less, OneHot, Apart;
    MaskOneHot(j);
    MaskOneHot(k);
    if j < k {
      MasksOrdered(j, k);
      PowersApart(Mask(j), Mask(k));
    } else {
      MasksOrdered(k, j);
      PowersApart(Mask(k), Mask(j));
    }
  }

  predicate Has(w: bv32, m: bv32) { w & m != 0 }

  function With(w: bv32, m: bv32): bv32 { w | m }

  function Without(w: bv32, m: bv32): bv32 { w & !m }

  predicate Bit(w: bv32, k: nat)
    requires k < 32
  {
    Has(w, Mask(k))
  }

  lemma WithAnd(w: bv32, m: bv32, n: bv32)
    requires Apart(m, n)
    ensures With(w, m) & n == w & n
  {}

  lemma WithoutAnd(w: bv32, m: bv32, n: bv32)
    requires Apart(m, n)
    ensures Without(w, m) & n == w & n
  {}

  lemma SameHas(v: bv32, w: bv32, n: bv32)
    requires v & n == w & n
    ensures Has(v, n) == Has(w, n)
  {}

  lemma OtherWith(w: bv32, m: bv32, n: bv32)
    requires Apart(m, n)
    ensures Has(With(w, m), n) == Has(w, n)
  {
    hide Has, With, Apart;
    WithAnd(w, m, n);
    SameHas(With(w, m), w, n);
  }

  lemma OtherWithout(w: bv32, m: bv32, n: bv32)
    requires Apart(m, n)
    ensures Has(Without(w, m), n) == Has(w, n)
  {
    hide Has, Without, Apart;
    WithoutAnd(w, m, n);
    SameHas(Without(w, m), w, n);
  }

  lemma OwnMask(w: bv32, m: bv32)
    requires m != 0
    ensures Has(With(w, m), m) && !Has(Without(w, m), m)
  {}

  /** Setting or clearing one bit of a word changes that bit only. */
  lemma OneBit(w: bv32, k: nat, j: nat)
    requires k < 32 && j < 32
    ensures Bit(With(w, Mask(k)), j) == (j == k || Bit(w, j))
    ensures Bit(Without(w, Mask(k)), j) == (j != k && Bit(w, j))
  {
    hide Mask, Has, With, Without, Apart;
    if j == k {
      OwnMask(w, Mask(k));
    } else {
      MasksApart(k, j);
      OtherWith(w, Mask(k), Mask(j));
      OtherWithout(w, Mask(k), Mask(j));
    }
  }

  /** The first n bits of the bitmap, 32 to a word, lowest first. */
  function Bits(ws: seq<bv32>, n: nat): (r: seq<bool>)
    requires n <= 32 * |ws|
    ensures |r| == n && forall b :: 0 <= b < n ==> r[b] == Bit(ws[b / 32], b % 32)
  {
    seq(n, b requires 0 <= b < n => Bit(ws[b / 32], b % 32))
  }

  lemma BitsSet(ws: seq<bv32>, n: nat, b: nat)
    requires n <= 32 * |ws| && b < n
    ensures Bits(ws[b / 32 := With(ws[b / 32], Mask(b % 32))], n) == Bits(ws, n)[b := true]
  {
    hide Mask, Has, With, Without, Bit, Bits;
    var vs := ws[b / 32 := With(ws[b / 32], Mask(b % 32))];
    forall c | 0 <= c < n ensures Bits(vs, n)[c] == Bits(ws, n)[b := true][c] {
      if c / 32 == b / 32 { OneBit(ws[b / 32], b % 32, c % 32); }
    }
  }

  lemma BitsUnset(ws: seq<bv32>, n: nat, b: nat)
    requires n <= 32 * |ws| && b < n
    ensures Bits(ws[b / 32 := Without(ws[b / 32], Mask(b % 32))], n) == Bits(ws, n)[b := false]
  {
    hide Mask, Has, With, Without, Bit, Bits;
    var vs := ws[b / 32 := Without(ws[b / 32], Mask(b % 32))];
    forall c | 0 <= c < n ensures Bits(vs, n)[c] == Bits(ws, n)[b := false][c] {
      if c / 32 == b / 32 { OneBit(ws[b / 32], b % 32, c % 32); }
    }
  }
}
