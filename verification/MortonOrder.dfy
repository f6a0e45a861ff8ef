/** Morton codes as numbers: what the order of codes says about the order of coordinates. */
module MortonOrder {
  import opened Morton

  // ----- words and numbers -----

  function Number(a: bv64): nat
    decreases a
  {
    if a == 0 then 0 else 2 * Number(a >> 1) + if a & 1 == 1 then 1 else 0
  }

  function Append(a: bv64, bit: bool): bv64 {
    if bit then (a << 1) | 1 else a << 1
  }

  function Digit(bit: bool): nat {
    if bit then 1 else 0
  }

  /** The low `k` bits of a number as a word. */
  function Word(n: nat, k: nat): bv64 {
    if k == 0 then 0 else Append(Word(n / 2, k - 1), n % 2 == 1)
  }

  ghost predicate IsAnd(a: bv64, b: bv64, c: bv64) {
    c == a & b
  }

  ghost predicate Within(a: bv64, mask: bv64) {
    a & mask == a
  }

  lemma AppendBits(a: bv64, bit: bool)
    requires Within(a, 0x7FFF_FFFF_FFFF_FFFF)
    ensures Append(a, bit) >> 1 == a && (Append(a, bit) & 1 == 1 <==> bit)
    ensures Append(a, bit) == 0 ==> a == 0 && !bit
  {
  }

  lemma AppendNumber(a: bv64, bit: bool)
    requires Within(a, 0x7FFF_FFFF_FFFF_FFFF)
    ensures Number(Append(a, bit)) == 2 * Number(a) + Digit(bit)
  {
    AppendBits(a, bit);
  }

  function Mask(k: nat): bv64 {
    if k == 0 then 0 else Append(Mask(k - 1), true)
  }

  function FiveOnes(a: bv64): bv64 {
    Append(Append(Append(Append(Append(a, true), true), true), true), true)
  }

  lemma Mask5(k: nat)
    ensures Mask(k + 5) == FiveOnes(Mask(k))
  {
    assert Mask(k + 1) == Append(Mask(k), true);
    assert Mask(k + 2) == Append(Mask(k + 1), true);
    assert Mask(k + 3) == Append(Mask(k + 2), true);
    assert Mask(k + 4) == Append(Mask(k + 3), true);
  }

  lemma FiveOnesIs(a: bv64)
    ensures FiveOnes(a) == (a << 5) | 0x1f
  {
  }

  lemma Mask20()
    ensures Mask(20) == 0xf_ffff && Mask(21) == 0x1f_ffff
  {
    Mask5(0);
    FiveOnesIs(0);
    Mask5(5);
    FiveOnesIs(0x1f);
    Mask5(10);
    FiveOnesIs(0x3ff);
    Mask5(15);
    FiveOnesIs(0x7fff);
  }

  lemma AppendWord(a: bv64, bit: bool)
    ensures Append(a, bit) == (a << 1) | Append(0, bit)
    ensures Append(0, bit) & 1 == Append(0, bit)
  {
  }

  lemma AndWords(a: bv64, b: bv64, w: bv64)
    ensures ((a << 1) | (w & 1)) & ((b << 1) | 1) == ((a & b) << 1) | (w & 1)
  {
  }

  lemma AppendAnd(a: bv64, b: bv64, c: bv64, bit: bool)
    requires IsAnd(a, b, c)
    ensures IsAnd(Append(a, bit), Append(b, true), Append(c, bit))
  {
    AppendWord(a, bit);
    AppendWord(c, bit);
    AndWords(a, b, Append(0, bit));
  }

  /** Masking a word keeps the low bits of the number. */
  lemma {:induction false} WordMask(n: nat, k: nat, j: nat)
    requires j <= k
    ensures IsAnd(Word(n, k), Mask(j), Word(n, j))
  {
    if j > 0 {
      WordMask(n / 2, k - 1, j - 1);
      AppendAnd(Word(n / 2, k - 1), Mask(j - 1), Word(n / 2, j - 1), n % 2 == 1);
    } else {
      AndZero(Word(n, k));
    }
  }

  lemma AndZero(a: bv64)
    ensures IsAnd(a, 0, 0)
  {
  }

  lemma {:induction false} MaskBelow(j: nat, k: nat)
    requires j <= k
    ensures IsAnd(Mask(j), Mask(k), Mask(j))
  {
    if j > 0 {
      MaskBelow(j - 1, k - 1);
      AppendAnd(Mask(j - 1), Mask(k - 1), Mask(j - 1), true);
    } else {
      AndZero(Mask(k));
      AndSwap(0, Mask(k), 0);
    }
  }

  lemma AndSwap(a: bv64, b: bv64, c: bv64)
    requires IsAnd(b, a, c)
    ensures IsAnd(a, b, c)
  {
  }

  lemma WordNarrow(n: nat, k: nat)
    requires k <= 20
    ensures Within(Word(n, k), 0xf_ffff)
  {
    WordMask(n, k, k);
    MaskBelow(k, 20);
    Mask20();
    AndTrans(Word(n, k), Mask(k), Mask(20), 0xf_ffff);
  }

  lemma AndTrans(a: bv64, b: bv64, c: bv64, mask: bv64)
    requires IsAnd(a, b, a) && IsAnd(b, c, b) && c == mask
    ensures Within(a, mask)
  {
  }

  // ----- codes -----

  /** What `Encode` of three grid coordinates is as a number; coordinates are cut to 21 bits by the
      first mask of `SplitBy2`. */
  function MortonCode(x: nat, y: nat, z: nat): nat {
    Number(Encode(Word(x, 64), Word(y, 64), Word(z, 64)))
  }

  /** Every third binary digit is one of `n`. */
  function Spread(n: nat, k: nat): nat {
    if k == 0 then 0 else 8 * Spread(n / 2, k - 1) + Digit(n % 2 == 1)
  }

  /** A lane one digit longer. */
  function Grow(lane: bv64, bit: bool): bv64 {
    (lane << 3) | Append(0, bit)
  }

  lemma SplitAppend(a: bv64, bit: bool)
    requires Within(a, 0xf_ffff)
    ensures SplitBy2(Append(a, bit)) == Grow(SplitBy2(a), bit)
    ensures Within(SplitBy2(a), 0x249_2492_4924_9249)
  {
    SplitWords(a, Append(0, bit));
    SplitWithin(a);
    AppendWord(a, bit);
  }

  lemma SplitWords(a: bv64, w: bv64)
    ensures SplitBy2(((a & 0xf_ffff) << 1) | (w & 1)) == (SplitBy2(a & 0xf_ffff) << 3) | (w & 1)
  {
  }

  lemma SplitWithin(a: bv64)
    ensures Within(SplitBy2(a & 0xf_ffff), 0x249_2492_4924_9249)
  {
  }

  function Join(x: bv64, y: bv64, z: bv64): bv64 {
    (x << 2) | (y << 1) | z
  }

  lemma JoinAppend(x: bv64, y: bv64, z: bv64, a: bool, b: bool, c: bool)
    ensures Join(Grow(x, a), Grow(y, b), Grow(z, c)) == Append(Append(Append(Join(x, y, z), a), b), c)
  {
    var e := Join(x, y, z);
    AppendWord(e, a);
    AppendWord(Append(e, a), b);
    AppendWord(Append(Append(e, a), b), c);
    JoinWords(x, y, z, Append(0, a), Append(0, b), Append(0, c));
  }

  lemma JoinWords(x: bv64, y: bv64, z: bv64, a: bv64, b: bv64, c: bv64)
    ensures Join((x << 3) | a, (y << 3) | b, (z << 3) | c) == (((((Join(x, y, z) << 1) | a) << 1) | b) << 1) | c
  {
  }

  lemma JoinBound(x: bv64, y: bv64, z: bv64)
    ensures Within(Join(x & 0x249_2492_4924_9249, y & 0x249_2492_4924_9249, z & 0x249_2492_4924_9249), 0x0FFF_FFFF_FFFF_FFFF)
  {
  }

  lemma EncodeJoins(x: bv64, y: bv64, z: bv64)
    ensures Encode(x, y, z) == Join(SplitBy2(x), SplitBy2(y), SplitBy2(z))
  {
  }

  lemma EncodeAppend(x: bv64, y: bv64, z: bv64, a: bool, b: bool, c: bool)
    requires Within(x, 0xf_ffff) && Within(y, 0xf_ffff) && Within(z, 0xf_ffff)
    ensures Encode(Append(x, a), Append(y, b), Append(z, c)) == Append(Append(Append(Encode(x, y, z), a), b), c)
    ensures Within(Encode(x, y, z), 0x0FFF_FFFF_FFFF_FFFF)
  {
    SplitAppend(x, a);
    SplitAppend(y, b);
    SplitAppend(z, c);
    EncodeJoins(x, y, z);
    EncodeJoins(Append(x, a), Append(y, b), Append(z, c));
    JoinAppend(SplitBy2(x), SplitBy2(y), SplitBy2(z), a, b, c);
    JoinBound(SplitBy2(x), SplitBy2(y), SplitBy2(z));
  }

  lemma ThreeMore(e: bv64, a: bool, b: bool, c: bool)
    requires Within(e, 0x0FFF_FFFF_FFFF_FFFF)
    ensures Number(Append(Append(Append(e, a), b), c)) == 8 * Number(e) + 4 * Digit(a) + 2 * Digit(b) + Digit(c)
  {
    TopBits(e, a, b);
    AppendNumber(e, a);
    AppendNumber(Append(e, a), b);
    AppendNumber(Append(Append(e, a), b), c);
  }

  lemma TopBits(e: bv64, a: bool, b: bool)
    requires Within(e, 0x0FFF_FFFF_FFFF_FFFF)
    ensures Within(e, 0x7FFF_FFFF_FFFF_FFFF)
    ensures Within(Append(e, a), 0x7FFF_FFFF_FFFF_FFFF)
    ensures Within(Append(Append(e, a), b), 0x7FFF_FFFF_FFFF_FFFF)
  {
    TopBitsMasked(e, a, b);
  }

  lemma TopBitsMasked(e: bv64, a: bool, b: bool)
    ensures Within(e & 0x0FFF_FFFF_FFFF_FFFF, 0x7FFF_FFFF_FFFF_FFFF)
    ensures Within(Append(e & 0x0FFF_FFFF_FFFF_FFFF, a), 0x7FFF_FFFF_FFFF_FFFF)
    ensures Within(Append(Append(e & 0x0FFF_FFFF_FFFF_FFFF, a), b), 0x7FFF_FFFF_FFFF_FFFF)
  {
  }

  lemma {:induction false} EncodeNumber(x: nat, y: nat, z: nat, k: nat)
    requires k <= 21
    ensures Number(Encode(Word(x, k), Word(y, k), Word(z, k))) == 4 * Spread(x, k) + 2 * Spread(y, k) + Spread(z, k)
  {
    if k > 0 {
      EncodeNumber(x / 2, y / 2, z / 2, k - 1);
      WordNarrow(x / 2, k - 1);
      WordNarrow(y / 2, k - 1);
      WordNarrow(z / 2, k - 1);
      NumberStep(Word(x / 2, k - 1), Word(y / 2, k - 1), Word(z / 2, k - 1), x % 2 == 1, y % 2 == 1, z % 2 == 1);
    } else {
      ZeroCode();
    }
  }

  lemma ZeroCode()
    ensures Number(Encode(0, 0, 0)) == 0
  {
  }

  lemma NumberStep(x: bv64, y: bv64, z: bv64, a: bool, b: bool, c: bool)
    requires Within(x, 0xf_ffff) && Within(y, 0xf_ffff) && Within(z, 0xf_ffff)
    ensures Number(Encode(Append(x, a), Append(y, b), Append(z, c))) ==
      8 * Number(Encode(x, y, z)) + 4 * Digit(a) + 2 * Digit(b) + Digit(c)
  {
    EncodeAppend(x, y, z, a, b, c);
    ThreeMore(Encode(x, y, z), a, b, c);
  }

  lemma EncodeMasked(x: bv64, y: bv64, z: bv64)
    ensures Encode(x, y, z) == Encode(x & 0x1f_ffff, y & 0x1f_ffff, z & 0x1f_ffff)
  {
  }

  /** The code interleaves the binary digits of the coordinates. */
  lemma CodeInterleaves(x: nat, y: nat, z: nat)
    ensures MortonCode(x, y, z) == 4 * Spread(x, 21) + 2 * Spread(y, 21) + Spread(z, 21)
  {
    Mask20();
    WordMask(x, 64, 21);
    WordMask(y, 64, 21);
    WordMask(z, 64, 21);
    EncodeMasked(Word(x, 64), Word(y, 64), Word(z, 64));
    EncodeNumber(x, y, z, 21);
  }

  function Pow2(k: nat): (p: nat)
    ensures p > 0
  {
    if k == 0 then 1 else 2 * Pow2(k - 1)
  }

  lemma {:induction false} SpreadMonotone(m: nat, n: nat, k: nat)
    requires m < n < Pow2(k)
    ensures Spread(m, k) < Spread(n, k)
  {
    if m / 2 < n / 2 {
      SpreadMonotone(m / 2, n / 2, k - 1);
    }
  }

  lemma Grid21()
    ensures Pow2(21) == 0x20_0000
  {
    assert Pow2(4) == 16;
    assert Pow2(8) == 256;
    assert Pow2(12) == 0x1000;
    assert Pow2(16) == 0x1_0000;
    assert Pow2(20) == 0x10_0000;
  }

  /** On 21-bit coordinates the code grows with every coordinate. */
  lemma CodeMonotone(x: nat, y: nat, z: nat, x': nat, y': nat, z': nat)
    requires x <= x' < 0x20_0000 && y <= y' < 0x20_0000 && z <= z' < 0x20_0000
    ensures MortonCode(x, y, z) <= MortonCode(x', y', z')
    ensures (x, y, z) != (x', y', z') ==> MortonCode(x, y, z) < MortonCode(x', y', z')
  {
    Grid21();
    CodeInterleaves(x, y, z);
    CodeInterleaves(x', y', z');
    if x < x' { SpreadMonotone(x, x', 21); }
    if y < y' { SpreadMonotone(y, y', 21); }
    if z < z' { SpreadMonotone(z, z', 21); }
  }

  lemma {:induction false} SpreadBound(n: nat, k: nat)
    ensures 7 * Spread(n, k) < Pow2(3 * k)
  {
    if k > 0 {
      SpreadBound(n / 2, k - 1);
      assert Pow2(3 * k) == 2 * Pow2(3 * k - 1) == 4 * Pow2(3 * k - 2) == 8 * Pow2(3 * (k - 1));
    }
  }

  /** Codes use 63 bits. */
  lemma CodeBound(x: nat, y: nat, z: nat)
    ensures MortonCode(x, y, z) < 0x8000_0000_0000_0000
  {
    CodeInterleaves(x, y, z);
    SpreadBound(x, 21);
    SpreadBound(y, 21);
    SpreadBound(z, 21);
    Grid21();
    Pow2Sum(21, 21);
    Pow2Sum(42, 21);
  }

  lemma {:induction false} Pow2Sum(j: nat, k: nat)
    ensures Pow2(j + k) == Pow2(j) * Pow2(k)
  {
    if k > 0 { Pow2Sum(j, k - 1); }
  }
}
