/** Polynomials over the two-element field, as sets of exponents. */
module Polynomials {
  type Polynomial = set<nat>

  /** Equal terms cancel. */
  function Add(a: Polynomial, b: Polynomial): (c: Polynomial)
    ensures forall e :: e in c <==> (e in a) != (e in b)
  {
    (a - b) + (b - a)
  }

  /** Times x to the power k. */
  function Shift(a: Polynomial, k: nat): (c: Polynomial)
    ensures forall e {:trigger e in c} :: e in c <==> e >= k && e - k in a
  {
    var c := set e | e in a :: e + k;
    assert forall e {:trigger e in c} :: e in c <==> e >= k && e - k in a by {
      forall e | e >= k && e - k in a ensures e in c {
        var f := e - k;
        assert f in a && f + k == e;
      }
    }
    c
  }

  /** The generator of CRC-32. */
  const GENERATOR: Polynomial := {32, 26, 23, 22, 16, 12, 11, 10, 8, 7, 5, 4, 2, 1, 0}

  /** The generator times the polynomial with these coefficients, lowest first. */
  function Multiple(q: seq<bool>): Polynomial {
    if q == [] then {} else Add(if q[0] then GENERATOR else {}, Shift(Multiple(q[1..]), 1))
  }

  ghost predicate DifferBy(a: Polynomial, b: Polynomial, q: seq<bool>) {
    Add(a, b) == Multiple(q)
  }

  ghost predicate Congruent(a: Polynomial, b: Polynomial) {
    exists q :: DifferBy(a, b, q)
  }

  /** `r` is what dividing `p` by the generator leaves. */
  ghost predicate IsRemainder(r: Polynomial, p: Polynomial) {
    (forall e :: e in r ==> e < 32) && Congruent(r, p)
  }

  // ----- congruence -----

  function Sum(p: seq<bool>, q: seq<bool>): seq<bool> {
    if p == [] then q else if q == [] then p else [p[0] != q[0]] + Sum(p[1..], q[1..])
  }

  lemma AddFour(a: Polynomial, b: Polynomial, c: Polynomial, d: Polynomial)
    ensures Add(Add(a, b), Add(c, d)) == Add(Add(a, c), Add(b, d))
  {
  }

  lemma ShiftAdd(a: Polynomial, b: Polynomial, k: nat)
    ensures Shift(Add(a, b), k) == Add(Shift(a, k), Shift(b, k))
  {
  }

  lemma ShiftTwice(a: Polynomial, j: nat, k: nat)
    ensures Shift(Shift(a, j), k) == Shift(a, j + k)
  {
  }

  lemma {:induction false} MultipleSum(p: seq<bool>, q: seq<bool>)
    ensures Multiple(Sum(p, q)) == Add(Multiple(p), Multiple(q))
  {
    if p == [] || q == [] {
    } else {
      MultipleSum(p[1..], q[1..]);
      var g, h := if p[0] then GENERATOR else {}, if q[0] then GENERATOR else {};
      assert Sum(p, q)[1..] == Sum(p[1..], q[1..]);
      assert (if p[0] != q[0] then GENERATOR else {}) == Add(g, h);
      ShiftAdd(Multiple(p[1..]), Multiple(q[1..]), 1);
      AddFour(g, h, Shift(Multiple(p[1..]), 1), Shift(Multiple(q[1..]), 1));
    }
  }

  lemma CongruentSame(a: Polynomial)
    ensures Congruent(a, a)
  {
    assert DifferBy(a, a, []);
  }

  lemma AddMiddle(a: Polynomial, b: Polynomial, c: Polynomial)
    ensures Add(Add(a, b), Add(b, c)) == Add(a, c)
  {
  }

  lemma CongruentTrans(a: Polynomial, b: Polynomial, c: Polynomial)
    requires Congruent(a, b) && Congruent(b, c)
    ensures Congruent(a, c)
  {
    var p :| DifferBy(a, b, p);
    var q :| DifferBy(b, c, q);
    MultipleSum(p, q);
    AddMiddle(a, b, c);
    assert DifferBy(a, c, Sum(p, q));
  }

  lemma CongruentSwap(a: Polynomial, b: Polynomial)
    requires Congruent(a, b)
    ensures Congruent(b, a)
  {
    var q :| DifferBy(a, b, q);
    assert Add(b, a) == Add(a, b);
    assert DifferBy(b, a, q);
  }

  lemma CongruentAdd(a: Polynomial, b: Polynomial, c: Polynomial)
    requires Congruent(a, b)
    ensures Congruent(Add(a, c), Add(b, c))
  {
    var q :| DifferBy(a, b, q);
    assert Add(Add(a, c), Add(b, c)) == Add(a, b);
    assert DifferBy(Add(a, c), Add(b, c), q);
  }

  lemma MultipleTimesX(q: seq<bool>)
    ensures Multiple([false] + q) == Shift(Multiple(q), 1)
  {
    assert ([false] + q)[1..] == q;
    assert Add({}, Shift(Multiple(q), 1)) == Shift(Multiple(q), 1);
  }

  lemma CongruentTimesX(a: Polynomial, b: Polynomial)
    requires Congruent(a, b)
    ensures Congruent(Shift(a, 1), Shift(b, 1))
  {
    var q :| DifferBy(a, b, q);
    ShiftAdd(a, b, 1);
    MultipleTimesX(q);
    assert DifferBy(Shift(a, 1), Shift(b, 1), [false] + q);
  }

  lemma CongruentOnce(a: Polynomial, b: Polynomial, k: nat)
    requires Congruent(Shift(a, k), Shift(b, k))
    ensures Congruent(Shift(a, k + 1), Shift(b, k + 1))
  {
    CongruentTimesX(Shift(a, k), Shift(b, k));
    ShiftTwice(a, k, 1);
    ShiftTwice(b, k, 1);
  }

  lemma ShiftNone(a: Polynomial)
    ensures Shift(a, 0) == a
  {
  }

  lemma {:induction false} CongruentShift(a: Polynomial, b: Polynomial, k: nat)
    requires Congruent(a, b)
    ensures Congruent(Shift(a, k), Shift(b, k))
    decreases k
  {
    if k == 0 {
      ShiftNone(a);
      ShiftNone(b);
    } else {
      CongruentShift(a, b, k - 1);
      CongruentOnce(a, b, k - 1);
    }
  }

  // ----- the remainder is unique -----

  ghost predicate Top(a: Polynomial, e: nat) {
    e in a && forall f :: f in a ==> f <= e
  }

  lemma GeneratorTop()
    ensures Top(GENERATOR, 32)
  {
  }

  lemma TopShifted(g: Polynomial, rest: Polynomial, e: nat)
    requires e >= 32 && Top(rest, e) && forall f :: f in g ==> f <= 32
    ensures Top(Add(g, Shift(rest, 1)), e + 1)
  {
  }

  lemma AddNothing(g: Polynomial)
    ensures Add(g, Shift({}, 1)) == g
  {
  }

  /** A multiple of the generator is zero or has degree 32 at least. */
  lemma {:induction false} MultipleDegree(q: seq<bool>)
    ensures Multiple(q) == {} || exists e :: e >= 32 && Top(Multiple(q), e)
  {
    if q != [] {
      MultipleDegree(q[1..]);
      GeneratorTop();
      var rest, g := Multiple(q[1..]), if q[0] then GENERATOR else {};
      if rest == {} {
        AddNothing(g);
      } else {
        var e :| e >= 32 && Top(rest, e);
        TopShifted(g, rest, e);
      }
    }
  }

  lemma RemainderUnique(r: Polynomial, s: Polynomial, p: Polynomial)
    requires IsRemainder(r, p) && IsRemainder(s, p)
    ensures r == s
  {
    CongruentSwap(s, p);
    CongruentTrans(r, p, s);
    var q :| DifferBy(r, s, q);
    MultipleDegree(q);
    assert Add(r, s) == {};
  }
}

/** The register of the checksum is the remainder of the message modulo the generator of CRC-32. */
module Crc32Remainder {
  import opened ByteStrings
  import opened Octets
  import opened Polynomials
  import Crc32

  // ----- registers and bytes as polynomials -----

  /** The bit of a register that stands for x to the power j: the highest power is in the lowest bit. */
  function Weight(j: nat): bv32
    decreases 31 - j
  {
    if j >= 31 then 1 else Weight(j + 1) << 1
  }

  predicate Marked(c: bv32, m: bv32) {
    c & m != 0
  }

  predicate Coefficient(c: bv32, j: nat) {
    Marked(c, Weight(j))
  }

  function Terms(c: bv32): Polynomial {
    set j: nat | j < 32 && Coefficient(c, j)
  }

  /** The binary digit of value 2^k. */
  function Digit(b: nat, k: nat): bool {
    if k == 0 then b % 2 == 1 else Digit(b / 2, k - 1)
  }

  /** A byte is sent lowest bit first. */
  predicate Sent(b: byte, e: nat)
    requires e < 8
  {
    Digit(b, 7 - e)
  }

  function ByteTerms(b: byte): Polynomial {
    set e: nat | e < 8 && Sent(b, e)
  }

  /** The first bit sent is the highest coefficient. */
  function Message(data: Bytes): Polynomial {
    if data == [] then {} else Add(Shift(ByteTerms(data[0]), 8 * (|data| - 1)), Message(data[1..]))
  }

  // ----- bits of registers -----

  lemma Weights24()
    ensures Weight(31) == 1 && Weight(30) == 2 && Weight(29) == 4 && Weight(28) == 8
    ensures Weight(27) == 0x10 && Weight(26) == 0x20 && Weight(25) == 0x40 && Weight(24) == 0x80
  {
  }

  lemma Weights16()
    ensures Weight(23) == 0x100 && Weight(22) == 0x200 && Weight(21) == 0x400 && Weight(20) == 0x800
    ensures Weight(19) == 0x1000 && Weight(18) == 0x2000 && Weight(17) == 0x4000 && Weight(16) == 0x8000
  {
    Weights24();
  }

  lemma Weights8()
    ensures Weight(15) == 0x1_0000 && Weight(14) == 0x2_0000 && Weight(13) == 0x4_0000 && Weight(12) == 0x8_0000
    ensures Weight(11) == 0x10_0000 && Weight(10) == 0x20_0000 && Weight(9) == 0x40_0000 && Weight(8) == 0x80_0000
  {
    Weights16();
  }

  lemma Weights0()
    ensures Weight(7) == 0x100_0000 && Weight(6) == 0x200_0000 && Weight(5) == 0x400_0000 && Weight(4) == 0x800_0000
    ensures Weight(3) == 0x1000_0000 && Weight(2) == 0x2000_0000 && Weight(1) == 0x4000_0000 && Weight(0) == 0x8000_0000
  {
    Weights8();
  }

  ghost predicate OneBit(m: bv32) {
    m & (m - 1) == 0
  }

  ghost predicate Doubles(m: bv32, n: bv32) {
    n == m << 1 && n >> 1 == m
  }

  lemma WeightFacts(j: nat)
    requires j < 32
    ensures OneBit(Weight(j)) && (j < 31 ==> Doubles(Weight(j + 1), Weight(j)))
  {
    Weights24();
    Weights16();
    Weights8();
    Weights0();
    if j < 8 {
      assert j == 0 || j == 1 || j == 2 || j == 3 || j == 4 || j == 5 || j == 6 || j == 7;
    } else if j < 16 {
      assert j == 8 || j == 9 || j == 10 || j == 11 || j == 12 || j == 13 || j == 14 || j == 15;
    } else if j < 24 {
      assert j == 16 || j == 17 || j == 18 || j == 19 || j == 20 || j == 21 || j == 22 || j == 23;
    } else {
      assert j == 24 || j == 25 || j == 26 || j == 27 || j == 28 || j == 29 || j == 30 || j == 31;
    }
  }

  lemma XorMarked(c: bv32, d: bv32, m: bv32)
    requires m & (m - 1) == 0
    ensures ((c ^ d) & m != 0) <==> ((c & m != 0) != (d & m != 0))
  {
  }

  lemma XorBit(c: bv32, d: bv32, e: bv32, m: bv32)
    requires Crc32.Sum(c, d, e) && OneBit(m)
    ensures Marked(e, m) == (Marked(c, m) != Marked(d, m))
  {
    XorMarked(c, d, m);
  }

  lemma ShiftBit(c: bv32, d: bv32, m: bv32, n: bv32)
    requires d == c >> 1 && Doubles(m, n)
    ensures Marked(d, m) == Marked(c, n)
  {
  }

  lemma XorAt(c: bv32, d: bv32, e: bv32, j: nat, m: bv32)
    requires Crc32.Sum(c, d, e) && OneBit(m) && m == Weight(j)
    ensures Coefficient(e, j) == (Coefficient(c, j) != Coefficient(d, j))
  {
    XorBit(c, d, e, m);
  }

  lemma XorCoefficient(c: bv32, d: bv32, e: bv32, j: nat)
    requires Crc32.Sum(c, d, e) && j < 32
    ensures Coefficient(e, j) == (Coefficient(c, j) != Coefficient(d, j))
  {
    WeightFacts(j);
    XorAt(c, d, e, j, Weight(j));
  }

  lemma TopGone(c: bv32, d: bv32)
    requires d == c >> 1
    ensures !Coefficient(d, 0) && (Coefficient(c, 31) == (c & 1 == 1))
  {
    Weights24();
    Weights0();
    HighBit(c);
  }

  lemma HighBit(c: bv32)
    ensures (c >> 1) & 0x8000_0000 == 0 && (c & 1 == 0 || c & 1 == 1)
  {
  }

  lemma ShiftAt(c: bv32, d: bv32, j: nat, m: bv32, n: bv32)
    requires d == c >> 1 && j > 0 && m == Weight(j) && n == Weight(j - 1) && Doubles(m, n)
    ensures Coefficient(d, j) == Coefficient(c, j - 1)
  {
    ShiftBit(c, d, m, n);
  }

  lemma ShiftCoefficient(c: bv32, d: bv32, j: nat)
    requires d == c >> 1 && j < 32
    ensures Coefficient(d, j) == (j > 0 && Coefficient(c, j - 1))
  {
    if j == 0 {
      TopGone(c, d);
    } else {
      WeightFacts(j - 1);
      ShiftAt(c, d, j, Weight(j), Weight(j - 1));
    }
  }

  /** The constant of the source is the generator without its highest term. */
  lemma PolynomialTerms(j: nat)
    requires j < 32
    ensures Coefficient(Crc32.POLYNOMIAL, j) == (j in GENERATOR)
  {
    Weights24();
    Weights16();
    Weights8();
    Weights0();
    if j < 8 {
      assert j == 0 || j == 1 || j == 2 || j == 3 || j == 4 || j == 5 || j == 6 || j == 7;
    } else if j < 16 {
      assert j == 8 || j == 9 || j == 10 || j == 11 || j == 12 || j == 13 || j == 14 || j == 15;
    } else if j < 24 {
      assert j == 16 || j == 17 || j == 18 || j == 19 || j == 20 || j == 21 || j == 22 || j == 23;
    } else {
      assert j == 24 || j == 25 || j == 26 || j == 27 || j == 28 || j == 29 || j == 30 || j == 31;
    }
  }

  lemma BitCases(c: bv32, d: bv32, f: bv32)
    requires d == c >> 1 && f == Crc32.Bit(c)
    ensures if c & 1 == 1 then Crc32.Sum(Crc32.POLYNOMIAL, d, f) else f == d
  {
  }

  lemma BitCoefficient(c: bv32, f: bv32, j: nat)
    requires j < 32 && f == Crc32.Bit(c)
    ensures Coefficient(f, j) == ((j > 0 && Coefficient(c, j - 1)) != (Coefficient(c, 31) && j in GENERATOR))
  {
    var d := c >> 1;
    TopGone(c, d);
    ShiftCoefficient(c, d, j);
    BitCases(c, d, f);
    PolynomialTerms(j);
    if c & 1 == 1 { XorCoefficient(Crc32.POLYNOMIAL, d, f, j); } else { SameCoefficient(d, f, j); }
  }

  lemma SameCoefficient(c: bv32, d: bv32, j: nat)
    requires c == d
    ensures Coefficient(c, j) == Coefficient(d, j)
  {
  }

  ghost predicate TimesX(a: Polynomial, b: Polynomial) {
    (forall j :: j in a || j in b ==> j < 32) &&
    forall j: nat :: j < 32 ==> (j in b <==> ((j > 0 && j - 1 in a) != (31 in a && j in GENERATOR)))
  }

  lemma TimesXCongruent(a: Polynomial, b: Polynomial)
    requires TimesX(a, b)
    ensures Congruent(b, Shift(a, 1))
  {
    GeneratorTop();
    if 31 in a {
      assert Add(b, Shift(a, 1)) == GENERATOR;
      OneGenerator();
      assert DifferBy(b, Shift(a, 1), [true]);
    } else {
      assert Add(b, Shift(a, 1)) == {} == Multiple([]);
      assert DifferBy(b, Shift(a, 1), []);
    }
  }

  lemma OneGenerator()
    ensures Multiple([true]) == GENERATOR
  {
    assert [true][1..] == [];
    AddNothing(GENERATOR);
  }

  /** One bit step multiplies by x. */
  lemma BitTimesX(c: bv32, f: bv32)
    requires f == Crc32.Bit(c)
    ensures Congruent(Terms(f), Shift(Terms(c), 1))
  {
    forall j: nat | j < 32 ensures j in Terms(f) <==> ((j > 0 && j - 1 in Terms(c)) != (31 in Terms(c) && j in GENERATOR)) {
      BitCoefficient(c, f, j);
    }
    TimesXCongruent(Terms(c), Terms(f));
  }

  lemma NoTimesX(c: bv32, f: bv32)
    requires f == c
    ensures Congruent(Terms(f), Shift(Terms(c), 0))
  {
    ShiftNone(Terms(c));
    CongruentSame(Terms(c));
  }

  lemma OneMoreBit(c: bv32, e: bv32, f: bv32, n: nat)
    requires f == Crc32.Bit(e) && Congruent(Terms(e), Shift(Terms(c), n))
    ensures Congruent(Terms(f), Shift(Terms(c), n + 1))
  {
    BitTimesX(e, f);
    NextTimesX(Terms(c), Terms(e), Terms(f), n);
  }

  lemma {:induction false} BitsTimesX(c: bv32, n: nat)
    ensures Congruent(Terms(Crc32.Bits(c, n)), Shift(Terms(c), n))
    decreases n
  {
    if n == 0 {
      NoTimesX(c, Crc32.Bits(c, 0));
    } else {
      BitsTimesX(c, n - 1);
      OneMoreBit(c, Crc32.Bits(c, n - 1), Crc32.Bits(c, n), n - 1);
    }
  }

  lemma NextTimesX(a: Polynomial, b: Polynomial, c: Polynomial, n: nat)
    requires Congruent(b, Shift(a, n)) && Congruent(c, Shift(b, 1))
    ensures Congruent(c, Shift(a, n + 1))
  {
    CongruentTimesX(b, Shift(a, n));
    ShiftTwice(a, n, 1);
    CongruentTrans(c, Shift(b, 1), Shift(a, n + 1));
  }

  // ----- bytes -----

  lemma HalfShift(v: bv8)
    ensures (v >> 1) as int == v as int / 2 && ((v & 1 == 1) == (v as int % 2 == 1))
  {
  }

  lemma HalfBits(b: byte)
    ensures ToBits(b) >> 1 == ToBits(b / 2) && ((ToBits(b) & 1 == 1) == (b % 2 == 1))
  {
    ByteOf(b);
    HalfShift(ToBits(b));
    BitsOf(ToBits(b) >> 1);
  }

  lemma HalfWide(v: bv8, u: bv8)
    requires u == v >> 1
    ensures (v as bv32) >> 1 == u as bv32 && (((v as bv32) & 1 != 0) == (v & 1 == 1))
  {
  }

  lemma {:induction false} ByteDigit(b: byte, j: nat)
    requires j < 32
    ensures Coefficient(ToBits(b) as bv32, j) == Digit(b, 31 - j)
    decreases 31 - j
  {
    HalfBits(b);
    HalfWide(ToBits(b), ToBits(b / 2));
    if j < 31 {
      ByteDigit(b / 2, j + 1);
      WeightFacts(j);
      ShiftBit(ToBits(b) as bv32, ToBits(b / 2) as bv32, Weight(j + 1), Weight(j));
    }
  }

  ghost predicate IsPower(p: nat, n: nat) {
    if n == 0 then p == 1 else p % 2 == 0 && IsPower(p / 2, n - 1)
  }

  lemma {:induction false} DigitHigh(b: nat, k: nat, n: nat, p: nat)
    requires n <= k && b < p && IsPower(p, n)
    ensures !Digit(b, k)
  {
    if n == 0 {
      DigitZero(k);
    } else {
      DigitHigh(b / 2, k - 1, n - 1, p / 2);
    }
  }

  lemma DigitSmall(b: byte, k: nat)
    requires k >= 8
    ensures !Digit(b, k)
  {
    assert IsPower(1, 0) && IsPower(2, 1) && IsPower(4, 2) && IsPower(8, 3) && IsPower(16, 4);
    assert IsPower(32, 5) && IsPower(64, 6) && IsPower(128, 7) && IsPower(256, 8);
    DigitHigh(b, k, 8, 256);
  }

  lemma {:induction false} DigitZero(k: nat)
    ensures !Digit(0, k)
  {
    if k > 0 { DigitZero(k - 1); }
  }

  lemma MixIs(c: bv32, b: byte)
    ensures Crc32.Sum(c, ToBits(b) as bv32, Crc32.Mix(c, b))
  {
  }

  lemma MixCoefficient(c: bv32, b: byte, j: nat)
    requires j < 32
    ensures Coefficient(Crc32.Mix(c, b), j) == (Coefficient(c, j) != (j >= 24 && Sent(b, j - 24)))
  {
    MixIs(c, b);
    XorCoefficient(c, ToBits(b) as bv32, Crc32.Mix(c, b), j);
    ByteDigit(b, j);
    if j < 24 { DigitSmall(b, 31 - j); }
  }

  lemma MixTerms(c: bv32, b: byte)
    ensures Terms(Crc32.Mix(c, b)) == Add(Terms(c), Shift(ByteTerms(b), 24))
  {
    forall j ensures j in Terms(Crc32.Mix(c, b)) <==> j in Add(Terms(c), Shift(ByteTerms(b), 24)) {
      if j < 32 { MixCoefficient(c, b, j); }
    }
  }

  /** One byte step multiplies by x to the power 8 and adds the byte times x to the power 32. */
  lemma StepRemainder(c: bv32, b: byte)
    ensures Congruent(Terms(Crc32.Step(c, b)), Add(Shift(Terms(c), 8), Shift(ByteTerms(b), 32)))
  {
    BitsTimesX(Crc32.Mix(c, b), 8);
    MixTerms(c, b);
    ShiftAdd(Terms(c), Shift(ByteTerms(b), 24), 8);
    ShiftTwice(ByteTerms(b), 24, 8);
  }

  // ----- whole messages -----

  lemma MessageStep(a: Polynomial, s: Polynomial, b: Polynomial, m: Polynomial, r: Polynomial, n: nat)
    requires Congruent(s, Add(Shift(a, 8), Shift(b, 32))) && Congruent(r, Add(Shift(s, 8 * n), Shift(m, 32)))
    ensures Congruent(r, Add(Shift(a, 8 * (n + 1)), Shift(Add(Shift(b, 8 * n), m), 32)))
  {
    var k := 8 * n;
    CongruentShift(s, Add(Shift(a, 8), Shift(b, 32)), k);
    CongruentAdd(Shift(s, k), Shift(Add(Shift(a, 8), Shift(b, 32)), k), Shift(m, 32));
    CongruentTrans(r, Add(Shift(s, k), Shift(m, 32)), Add(Shift(Add(Shift(a, 8), Shift(b, 32)), k), Shift(m, 32)));
    ShiftAdd(Shift(a, 8), Shift(b, 32), k);
    ShiftTwice(a, 8, k);
    ShiftTwice(b, 32, k);
    ShiftTwice(b, k, 32);
    ShiftAdd(Shift(b, k), m, 32);
    AddThree(Shift(a, 8 + k), Shift(b, 32 + k), Shift(m, 32));
  }

  lemma AddThree(a: Polynomial, b: Polynomial, c: Polynomial)
    ensures Add(Add(a, b), c) == Add(a, Add(b, c))
  {
  }

  /** The register after a message is the remainder of the message, with the register it started from in
      front of it, times x to the power 32. */
  lemma {:induction false} RegisterRemainder(c: bv32, data: Bytes)
    ensures IsRemainder(Terms(Crc32.Register(c, data)), Add(Shift(Terms(c), 8 * |data|), Shift(Message(data), 32)))
    decreases |data|
  {
    if data == [] {
      EmptyMessage(Terms(c));
      CongruentSame(Terms(c));
    } else {
      var s := Crc32.Step(c, data[0]);
      RegisterRemainder(s, data[1..]);
      StepRemainder(c, data[0]);
      OneMoreByte(Terms(c), Terms(s), Terms(Crc32.Register(s, data[1..])), data);
      SameRegister(Crc32.Register(s, data[1..]), Crc32.Register(c, data));
    }
  }

  lemma SameRegister(c: bv32, d: bv32)
    requires c == d
    ensures Terms(c) == Terms(d)
  {
  }

  lemma OneMoreByte(a: Polynomial, s: Polynomial, r: Polynomial, data: Bytes)
    requires data != [] && Congruent(s, Add(Shift(a, 8), Shift(ByteTerms(data[0]), 32)))
    requires Congruent(r, Add(Shift(s, 8 * |data[1..]|), Shift(Message(data[1..]), 32)))
    ensures Congruent(r, Add(Shift(a, 8 * |data|), Shift(Message(data), 32)))
  {
    MessageStep(a, s, ByteTerms(data[0]), Message(data[1..]), r, |data| - 1);
  }

  lemma EmptyMessage(a: Polynomial)
    ensures Add(Shift(a, 0), Shift({}, 32)) == a
  {
  }

  /** The terms determine the register. */
  lemma TermsInjective(c: bv32, d: bv32)
    requires Terms(c) == Terms(d)
    ensures c == d
  {
    forall j: nat | j < 32 ensures Alike(c, d, j) {
      assert j in Terms(c) <==> j in Terms(d);
    }
    Byte24(c, d);
    Byte16(c, d);
    Byte8(c, d);
    Byte0(c, d);
    FourBytes(c, d);
  }

  lemma FourBytes(c: bv32, d: bv32)
    requires c & 0xFF == d & 0xFF && c & 0xFF00 == d & 0xFF00
    requires c & 0xFF_0000 == d & 0xFF_0000 && c & 0xFF00_0000 == d & 0xFF00_0000
    ensures c == d
  {
  }

  ghost predicate Alike(c: bv32, d: bv32, j: nat) {
    Coefficient(c, j) == Coefficient(d, j)
  }

  lemma Byte24(c: bv32, d: bv32)
    requires forall j: nat :: 24 <= j < 32 ==> Alike(c, d, j)
    ensures c & 0xFF == d & 0xFF
  {
    Weights24();
    assert Alike(c, d, 24) && Alike(c, d, 25) && Alike(c, d, 26) && Alike(c, d, 27);
    assert Alike(c, d, 28) && Alike(c, d, 29) && Alike(c, d, 30) && Alike(c, d, 31);
  }

  lemma Byte16(c: bv32, d: bv32)
    requires forall j: nat :: 16 <= j < 24 ==> Alike(c, d, j)
    ensures c & 0xFF00 == d & 0xFF00
  {
    Weights16();
    assert Alike(c, d, 16) && Alike(c, d, 17) && Alike(c, d, 18) && Alike(c, d, 19);
    assert Alike(c, d, 20) && Alike(c, d, 21) && Alike(c, d, 22) && Alike(c, d, 23);
  }

  lemma Byte8(c: bv32, d: bv32)
    requires forall j: nat :: 8 <= j < 16 ==> Alike(c, d, j)
    ensures c & 0xFF_0000 == d & 0xFF_0000
  {
    Weights8();
    assert Alike(c, d, 8) && Alike(c, d, 9) && Alike(c, d, 10) && Alike(c, d, 11);
    assert Alike(c, d, 12) && Alike(c, d, 13) && Alike(c, d, 14) && Alike(c, d, 15);
  }

  lemma Byte0(c: bv32, d: bv32)
    requires forall j: nat :: j < 8 ==> Alike(c, d, j)
    ensures c & 0xFF00_0000 == d & 0xFF00_0000
  {
    Weights0();
    assert Alike(c, d, 0) && Alike(c, d, 1) && Alike(c, d, 2) && Alike(c, d, 3);
    assert Alike(c, d, 4) && Alike(c, d, 5) && Alike(c, d, 6) && Alike(c, d, 7);
  }
}
