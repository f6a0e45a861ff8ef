/** Bytes as bit vectors. */
module Octets {
  import opened ByteStrings

  lemma ByteOf(b: byte)
    ensures (b as bv8) as int == b
  {
  }

  lemma BitsOf(v: bv8)
    ensures (v as int) as bv8 == v
  {
  }

  function ToBits(b: byte): bv8 {
    b as bv8
  }

  function FromBits(v: bv8): (b: byte)
    ensures ToBits(b) == v
  {
    BitsOf(v);
    v as int
  }
}

/** The checksum of log records: reflected CRC-32 as in section 8 of RFC 1952. */
module Crc32 {
  import opened ByteStrings
  import opened Octets

  const POLYNOMIAL: bv32 := 0xEDB8_8320

  /** One bit of the RFC's sample code. */
  function Bit(c: bv32): bv32 {
    if c & 1 == 1 then POLYNOMIAL ^ (c >> 1) else c >> 1
  }

  function Bits(c: bv32, n: nat): bv32 {
    if n == 0 then c else Bit(Bits(c, n - 1))
  }

  function MixBits(c: bv32, b: bv8): bv32 {
    c ^ (b as bv32)
  }

  function Mix(c: bv32, b: byte): bv32 {
    MixBits(c, ToBits(b))
  }

  /** The checksum register after the next byte, one bit at a time. */
  function Step(c: bv32, b: byte): bv32 {
    Bits(Mix(c, b), 8)
  }

  function Register(c: bv32, data: Bytes): bv32
    decreases |data|
  {
    if data == [] then c else Register(Step(c, data[0]), data[1..])
  }

  /** Checksumming piece by piece is checksumming the concatenation. */
  lemma {:induction false} RegisterConcat(c: bv32, a: Bytes, b: Bytes)
    ensures Register(c, a + b) == Register(Register(c, a), b)
    decreases |a|
  {
    if a == [] {
      assert a + b == b;
    } else {
      assert (a + b)[1..] == a[1..] + b;
      RegisterConcat(Step(c, a[0]), a[1..], b);
    }
  }

  // ----- the step is linear and invertible -----

  lemma ShiftLinear(c: bv32, d: bv32)
    ensures (c ^ d) >> 1 == (c >> 1) ^ (d >> 1)
    ensures (c ^ d) & 1 == (c & 1) ^ (d & 1)
    ensures c & 1 == 0 || c & 1 == 1
  {
  }

  lemma XorPolynomial(c: bv32, d: bv32)
    ensures (POLYNOMIAL ^ c) ^ (POLYNOMIAL ^ d) == c ^ d
    ensures (POLYNOMIAL ^ c) ^ d == POLYNOMIAL ^ (c ^ d) && c ^ (POLYNOMIAL ^ d) == POLYNOMIAL ^ (c ^ d)
  {
  }

  ghost predicate Sum(c: bv32, d: bv32, e: bv32) {
    e == c ^ d
  }

  lemma BitLinear(c: bv32, d: bv32, e: bv32)
    requires Sum(c, d, e)
    ensures Sum(Bit(c), Bit(d), Bit(e))
  {
    ShiftLinear(c, d);
    ShiftLinear(d, c);
    XorPolynomial(c >> 1, d >> 1);
  }

  lemma {:induction false} BitsLinear(c: bv32, d: bv32, e: bv32, n: nat)
    requires Sum(c, d, e)
    ensures Sum(Bits(c, n), Bits(d, n), Bits(e, n))
  {
    if n > 0 {
      BitsLinear(c, d, e, n - 1);
      BitLinear(Bits(c, n - 1), Bits(d, n - 1), Bits(e, n - 1));
    }
  }

  /** The polynomial has its top bit set, so the top bit of the result tells what was shifted out. */
  lemma BitInjective(c: bv32, d: bv32)
    requires Bit(c) == Bit(d)
    ensures c == d
  {
  }

  lemma {:induction false} BitsInjective(c: bv32, d: bv32, n: nat)
    requires Bits(c, n) == Bits(d, n)
    ensures c == d
  {
    if n > 0 {
      BitInjective(Bits(c, n - 1), Bits(d, n - 1));
      BitsInjective(c, d, n - 1);
    }
  }

  lemma MixInjective(c: bv32, d: bv32, b: byte)
    requires Mix(c, b) == Mix(d, b)
    ensures c == d
  {
  }

  lemma StepInjective(c: bv32, d: bv32, b: byte)
    requires Step(c, b) == Step(d, b)
    ensures c == d
  {
    BitsInjective(Mix(c, b), Mix(d, b), 8);
    MixInjective(c, d, b);
  }

  lemma {:induction false} RegisterInjective(c: bv32, d: bv32, data: Bytes)
    requires Register(c, data) == Register(d, data)
    ensures c == d
    decreases |data|
  {
    if data != [] {
      RegisterInjective(Step(c, data[0]), Step(d, data[0]), data[1..]);
      StepInjective(c, d, data[0]);
    }
  }

  // ----- the table -----

  lemma Eight(c: bv32)
    ensures Bits(c, 8) == Bit(Bit(Bit(Bit(Bit(Bit(Bit(Bit(c))))))))
  {
    assert Bits(c, 1) == Bit(c);
    assert Bits(c, 2) == Bit(Bits(c, 1));
    assert Bits(c, 4) == Bit(Bit(Bits(c, 2)));
    assert Bits(c, 6) == Bit(Bit(Bits(c, 4)));
  }

  /** With a zero low byte eight steps only shift. */
  lemma HighBits(c: bv32)
    requires c & 0xFF == 0
    ensures Bits(c, 8) == c >> 8
  {
    Eight(c);
  }

  /** Eight bit steps are one shift by a byte and one table entry. */
  lemma TableStep(c: bv32)
    ensures Sum(c >> 8, Bits(c & 0xFF, 8), Bits(c, 8))
  {
    var high, low := c & 0xFFFF_FF00, c & 0xFF;
    BitsLinear(high, low, c, 8);
    HighBits(high);
  }

  // ----- a window of four bytes -----

  /** Below 2 to the power 8n. */
  predicate Below(d: bv32, n: nat)
    requires n <= 3
  {
    if n == 0 then d == 0 else if n == 1 then d < 0x100 else if n == 2 then d < 0x1_0000 else d < 0x100_0000
  }

  lemma Back(d: bv32, n: nat)
    requires n <= 2 && Below(Bits(d, 8), n)
    ensures Below(d, n + 1)
  {
    Eight(d);
  }

  /** Distinct bytes leave a difference in the top byte. */
  lemma TopByte(d: bv32)
    requires 0 < d < 0x100
    ensures !Below(Bits(d, 8), 3)
  {
    Eight(d);
  }

  /** Mixing a byte into each register changes only the low byte of their difference. */
  lemma MixSum(x: bv32, y: bv32, d: bv32, b: byte, c: byte) returns (m: bv32)
    requires Sum(x, y, d)
    ensures Sum(Mix(x, b), Mix(y, c), m)
    ensures Below(m, 1) ==> Below(d, 1)
    ensures Below(m, 2) ==> Below(d, 2)
    ensures Below(m, 3) ==> Below(d, 3)
    ensures d == 0 && b != c ==> 0 < m < 0x100
  {
    m := MixBitsSum(x, y, d, ToBits(b), ToBits(c));
    ToBitsInjective(b, c);
  }

  lemma ToBitsInjective(a: byte, b: byte)
    ensures a != b ==> ToBits(a) != ToBits(b)
  {
    ByteOf(a);
    ByteOf(b);
  }

  function Xor(c: bv32, d: bv32): (e: bv32)
    ensures Sum(c, d, e)
  {
    c ^ d
  }

  lemma MixBitsSum(x: bv32, y: bv32, d: bv32, b: bv8, c: bv8) returns (m: bv32)
    requires Sum(x, y, d)
    ensures Sum(MixBits(x, b), MixBits(y, c), m)
    ensures Below(m, 1) ==> Below(d, 1)
    ensures Below(m, 2) ==> Below(d, 2)
    ensures Below(m, 3) ==> Below(d, 3)
    ensures d == 0 && b != c ==> 0 < m < 0x100
  {
    var e := Xor(b as bv32, c as bv32);
    ByteXor(b, c, e);
    m := Xor(d, e);
    LowChange(d, e, m);
    XorSwap(x, y, d, b as bv32, c as bv32, e, m);
  }

  lemma XorSwap(x: bv32, y: bv32, d: bv32, b: bv32, c: bv32, e: bv32, m: bv32)
    requires Sum(x, y, d) && Sum(b, c, e) && Sum(d, e, m)
    ensures Sum(x ^ b, y ^ c, m)
  {
  }

  lemma ByteXor(b: bv8, c: bv8, e: bv32)
    requires Sum(b as bv32, c as bv32, e)
    ensures e < 0x100 && (b != c ==> 0 < e)
  {
  }

  lemma LowChange(d: bv32, e: bv32, m: bv32)
    requires e < 0x100 && Sum(d, e, m)
    ensures Below(m, 1) ==> Below(d, 1)
    ensures Below(m, 2) ==> Below(d, 2)
    ensures Below(m, 3) ==> Below(d, 3)
    ensures d == 0 && 0 < e ==> 0 < m < 0x100
  {
  }

  lemma StepSum(x: bv32, y: bv32, b: byte, c: byte, m: bv32)
    requires Sum(Mix(x, b), Mix(y, c), m)
    ensures Sum(Step(x, b), Step(y, c), Bits(m, 8))
  {
    BitsLinear(Mix(x, b), Mix(y, c), m, 8);
  }

  /** If two registers agree again after `n` more bytes, their difference was in the low `n` bytes. */
  lemma {:induction false} Meets(x: bv32, y: bv32, d: bv32, v: Bytes, w: Bytes)
    requires |v| == |w| <= 3 && Register(x, v) == Register(y, w) && Sum(x, y, d)
    ensures Below(d, |v|)
    decreases |v|
  {
    if v != [] {
      var m := MixSum(x, y, d, v[0], w[0]);
      StepSum(x, y, v[0], w[0], m);
      Meets(Step(x, v[0]), Step(y, w[0]), Bits(m, 8), v[1..], w[1..]);
      Back(m, |v| - 1);
      SmallerToo(m, d, |v|);
    } else {
      SumSelf(x, d);
    }
  }

  lemma SmallerToo(m: bv32, d: bv32, n: nat)
    requires Below(m, 1) ==> Below(d, 1)
    requires Below(m, 2) ==> Below(d, 2)
    requires Below(m, 3) ==> Below(d, 3)
    requires 1 <= n <= 3 && Below(m, n)
    ensures Below(d, n)
  {
  }

  lemma SumSelf(x: bv32, d: bv32)
    requires Sum(x, x, d)
    ensures d == 0
  {
  }

  /** Distinct strings of at most four bytes never lead one register to the same value. */
  lemma {:induction false} WindowDiffers(x: bv32, v: Bytes, w: Bytes)
    requires |v| == |w| <= 4 && v != w
    ensures Register(x, v) != Register(x, w)
    decreases |v|
  {
    if v[0] == w[0] {
      assert v == [v[0]] + v[1..] && w == [w[0]] + w[1..];
      WindowDiffers(Step(x, v[0]), v[1..], w[1..]);
    } else if Register(x, v) == Register(x, w) {
      var m := MixSum(x, x, 0, v[0], w[0]);
      StepSum(x, x, v[0], w[0], m);
      Meets(Step(x, v[0]), Step(x, w[0]), Bits(m, 8), v[1..], w[1..]);
      BelowMore(Bits(m, 8), |v| - 1);
      TopByte(m);
    }
  }

  lemma BelowMore(d: bv32, n: nat)
    requires n <= 3 && Below(d, n)
    ensures Below(d, 3)
  {
  }

  /** A change confined to four consecutive bytes always changes the checksum. */
  lemma BurstDetected(x: bv32, before: Bytes, v: Bytes, w: Bytes, after: Bytes)
    requires |v| == |w| <= 4 && v != w
    ensures Register(x, before + v + after) != Register(x, before + w + after)
  {
    RegisterConcat(x, before, v);
    RegisterConcat(x, before, w);
    RegisterConcat(x, before + v, after);
    RegisterConcat(x, before + w, after);
    WindowDiffers(Register(x, before), v, w);
    if Register(x, before + v + after) == Register(x, before + w + after) {
      RegisterInjective(Register(x, before + v), Register(x, before + w), after);
    }
  }

  // ----- the table-driven form -----

  class Crc32Table {
    const entries: array<bv32>
    var initialized: bool

    ghost predicate Valid()
      reads this, entries
    {
      entries.Length == 256 && (initialized ==> forall i :: 0 <= i < 256 ==> IsEntry(i, entries[i]))
    }

    constructor ()
      ensures Valid() && !initialized && fresh(entries)
    {
      entries := new bv32[256];
      initialized := false;
    }

    method Init()
      requires Valid()
      modifies this, entries
      ensures Valid() && initialized
    {
      if initialized {
        return;
      }
      for i := 0 to 256
        invariant entries.Length == 256
        invariant forall j :: 0 <= j < i ==> IsEntry(j, entries[j])
      {
        var entry := TableEntry(i);
        entries[i] := entry;
      }
      initialized := true;
    }

    static method TableEntry(i: byte) returns (crc: bv32)
      ensures IsEntry(i, crc)
    {
      crc := ToBits(i) as bv32;
      for j := 0 to 8
        invariant crc == Bits(ToBits(i) as bv32, j)
      {
        MaskedBit(crc);
        crc := (crc >> 1) ^ (POLYNOMIAL & (0 - (crc & 1)));
      }
    }

    /** One table entry per byte computes the bit-at-a-time checksum. */
    method Compute(data: Bytes, previous: bv32) returns (crc: bv32)
      requires Valid()
      modifies this, entries
      ensures Valid() && initialized && crc == Register(previous, data)
    {
      Init();
      crc := previous;
      assert data[0..] == data;
      for i := 0 to |data|
        invariant Valid() && initialized && Register(crc, data[i..]) == Register(previous, data)
      {
        assert data[i..][1..] == data[i + 1..];
        crc := NextRegister(crc, data[i]);
      }
    }

    method NextRegister(crc: bv32, b: byte) returns (next: bv32)
      requires Valid() && initialized
      ensures next == Step(crc, b)
    {
      var entry := entries[LowByte(Mix(crc, b))];
      next := Shifted(crc, entry);
      TableLookup(crc, b, entry);
    }
  }

  predicate IsEntry(i: byte, entry: bv32) {
    entry == Bits(ToBits(i) as bv32, 8)
  }

  function LowByte(c: bv32): byte {
    FromBits((c & 0xFF) as bv8)
  }

  function Shifted(crc: bv32, entry: bv32): bv32 {
    (crc >> 8) ^ entry
  }

  lemma TableLookup(crc: bv32, b: byte, entry: bv32)
    requires IsEntry(LowByte(Mix(crc, b)), entry)
    ensures Shifted(crc, entry) == Step(crc, b)
  {
    StepIs(crc, b, entry, Mix(crc, b));
  }

  lemma StepIs(crc: bv32, b: byte, entry: bv32, mixed: bv32)
    requires IsEntry(LowByte(mixed), entry) && mixed == Mix(crc, b)
    ensures Shifted(crc, entry) == Bits(mixed, 8)
  {
    EntryIs(mixed, entry);
    HighBytes(crc, ToBits(b), entry, mixed);
    SumUnique(mixed >> 8, entry, Shifted(crc, entry), Bits(mixed, 8));
  }

  lemma EntryIs(mixed: bv32, entry: bv32)
    requires IsEntry(LowByte(mixed), entry)
    ensures Sum(mixed >> 8, entry, Bits(mixed, 8))
  {
    TableStep(mixed);
    LowByteIs(mixed);
  }

  lemma SumUnique(a: bv32, b: bv32, c: bv32, d: bv32)
    requires Sum(a, b, c) && Sum(a, b, d)
    ensures c == d
  {
  }

  lemma HighBytes(crc: bv32, b: bv8, entry: bv32, mixed: bv32)
    requires mixed == MixBits(crc, b)
    ensures Sum(mixed >> 8, entry, Shifted(crc, entry))
  {
  }

  lemma LowByteIs(c: bv32)
    ensures ToBits(LowByte(c)) as bv32 == c & 0xFF
  {
  }

  /** The original's branch-free bit step. */
  lemma MaskedBit(c: bv32)
    ensures (c >> 1) ^ (POLYNOMIAL & (0 - (c & 1))) == Bit(c)
  {
    LowBit(c);
    if c & 1 == 1 {
      assert 0 - (c & 1) == 0xFFFF_FFFF;
    } else {
      assert 0 - (c & 1) == 0;
    }
    Selected(c >> 1);
  }

  lemma LowBit(c: bv32)
    ensures c & 1 == 0 || c & 1 == 1
  {
  }

  lemma Selected(c: bv32)
    ensures c ^ (POLYNOMIAL & 0xFFFF_FFFF) == POLYNOMIAL ^ c && c ^ (POLYNOMIAL & 0) == c
  {
  }
}
