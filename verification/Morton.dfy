/** Morton codes: the 64-bit word operations of `SplitBy2`, `Encode` and `Decode`, and the numbers they
    stand for.  Grid coordinates are what rounding leaves; codes compare as unsigned numbers.

    Facts about words are stated bit by bit; order is argued on numbers. */
module Morton {
  function SplitBy2(a: bv64): bv64 {
    var a0 := a & 0x1f_ffff;
    var a1 := (a0 | (a0 << 32)) & 0x1f_0000_0000_ffff;
    var a2 := (a1 | (a1 << 16)) & 0x1f_0000_ff00_00ff;
    var a3 := (a2 | (a2 << 8)) & 0x100f_00f0_0f00_f00f;
    var a4 := (a3 | (a3 << 4)) & 0x10c3_0c30_c30c_30c3;
    (a4 | (a4 << 2)) & 0x1249_2492_4924_9249
  }

  /** x goes to lane 2, y to lane 1, z to lane 0. */
  function Encode(x: bv64, y: bv64, z: bv64): bv64 {
    (SplitBy2(x) << 2) | (SplitBy2(y) << 1) | SplitBy2(z)
  }

  // ----- lanes -----

  predicate Bit(a: bv64, i: bv64)
    requires i < 64
  {
    (a >> i) & 1 == 1
  }

  /** Bit `i` of a coordinate becomes bit `3 * i`, and nothing else is set. */
  lemma SplitBits(a: bv64, i: bv64)
    requires i < 21
    ensures Bit(SplitBy2(a), 3 * i) <==> Bit(a, i)
    ensures SplitBy2(a) & 0x1249_2492_4924_9249 == SplitBy2(a)
  {
    SplitShifted(a, i);
    SplitOnly(a);
  }

  lemma SplitShifted(a: bv64, i: bv64)
    requires i < 21
    ensures (SplitBy2(a) >> (3 * i)) & 1 == (a >> i) & 1
  {
    if i < 7 {
      assert i == 0 || i == 1 || i == 2 || i == 3 || i == 4 || i == 5 || i == 6;
    } else if i < 14 {
      assert i == 7 || i == 8 || i == 9 || i == 10 || i == 11 || i == 12 || i == 13;
    } else {
      assert i == 14 || i == 15 || i == 16 || i == 17 || i == 18 || i == 19 || i == 20;
    }
  }

  lemma SplitOnly(a: bv64)
    ensures SplitBy2(a) & 0x1249_2492_4924_9249 == SplitBy2(a)
  {
  }

  /** Coordinates are recoverable from the code, so different triples of 21 bits have different codes. */
  lemma EncodeInjective(x: bv64, y: bv64, z: bv64, x': bv64, y': bv64, z': bv64)
    requires Encode(x, y, z) == Encode(x', y', z')
    ensures x & 0x1f_ffff == x' & 0x1f_ffff && y & 0x1f_ffff == y' & 0x1f_ffff && z & 0x1f_ffff == z' & 0x1f_ffff
  {
    LanesApart(x, y, z);
    LanesApart(x', y', z');
    SplitInjective(x, x');
    SplitInjective(y, y');
    SplitInjective(z, z');
  }

  lemma LanesApart(x: bv64, y: bv64, z: bv64)
    ensures Encode(x, y, z) & 0x1249_2492_4924_9249 == SplitBy2(z)
    ensures (Encode(x, y, z) >> 1) & 0x1249_2492_4924_9249 == SplitBy2(y)
    ensures (Encode(x, y, z) >> 2) & 0x1249_2492_4924_9249 == SplitBy2(x)
  {
  }

  lemma SplitInjective(a: bv64, b: bv64)
    ensures SplitBy2(a) == SplitBy2(b) ==> a & 0x1f_ffff == b & 0x1f_ffff
  {
  }

  // ----- decoding -----

  /** Lane 0 of a code, closed up. */
  function Compact(code: bv64): bv64 {
    var c0 := code & 0x1249_2492_4924_9249;
    var c1 := (c0 | (c0 >> 2)) & 0x10c3_0c30_c30c_30c3;
    var c2 := (c1 | (c1 >> 4)) & 0x100f_00f0_0f00_f00f;
    var c3 := (c2 | (c2 >> 8)) & 0x1f_0000_ff00_00ff;
    var c4 := (c3 | (c3 >> 16)) & 0x1f_0000_0000_ffff;
    (c4 | (c4 >> 32)) & 0x1f_ffff
  }

  lemma CompactBits(code: bv64, i: bv64)
    requires i < 21
    ensures Bit(Compact(code), i) <==> Bit(code, 3 * i)
  {
    CompactInverse(code);
    SplitBits(Compact(code), i);
    LaneBit(code, i);
  }

  lemma LaneBit(code: bv64, i: bv64)
    requires i < 21
    ensures Bit(code & 0x1249_2492_4924_9249, 3 * i) <==> Bit(code, 3 * i)
  {
  }

  lemma CompactInverse(a: bv64)
    ensures Compact(SplitBy2(a)) == a & 0x1f_ffff
    ensures SplitBy2(Compact(a)) == a & 0x1249_2492_4924_9249
    ensures Compact(a & 0x1249_2492_4924_9249) == Compact(a)
  {
  }

  /** The low `i` bits. */
  function Low(c: bv64, i: bv64): bv64
    requires i <= 21
  {
    c & !(0xFFFF_FFFF_FFFF_FFFF << i)
  }

  /** One turn of the decoding loop, for one coordinate. */
  function Gather(c: bv64, code: bv64, at: bv64, i: bv64): bv64
    requires i < 64 && at < 64
  {
    c | (((code >> at) & 1) << i)
  }

  lemma LowStep(c: bv64, code: bv64, at: bv64, i: bv64)
    requires i < 21 && at < 64 && (Bit(c, i) <==> Bit(code, at))
    ensures Gather(Low(c, i), code, at, i) == Low(c, i + 1)
  {
  }

  lemma LowEnds(code: bv64)
    ensures Low(Compact(code), 0) == 0 && Low(Compact(code), 21) == Compact(code)
  {
  }

  /** Gathers lane 0 into the first coordinate and lane 2 into the last. */
  method Decode(code: bv64) returns (x: bv64, y: bv64, z: bv64)
    ensures x == Compact(code) && y == Compact(code >> 1) && z == Compact(code >> 2)
  {
    x, y, z := 0, 0, 0;
    var i: bv64 := 0;
    LowEnds(code);
    LowEnds(code >> 1);
    LowEnds(code >> 2);
    while i < 21
      invariant i <= 21
      invariant x == Low(Compact(code), i) && y == Low(Compact(code >> 1), i) && z == Low(Compact(code >> 2), i)
      decreases 21 - i
    {
      x, y, z := GatherTurn(code, i, x, y, z);
      i := i + 1;
    }
  }

  method GatherTurn(code: bv64, i: bv64, x: bv64, y: bv64, z: bv64) returns (x': bv64, y': bv64, z': bv64)
    requires i < 21
    requires x == Low(Compact(code), i) && y == Low(Compact(code >> 1), i) && z == Low(Compact(code >> 2), i)
    ensures x' == Low(Compact(code), i + 1)
    ensures y' == Low(Compact(code >> 1), i + 1)
    ensures z' == Low(Compact(code >> 2), i + 1)
  {
    x' := GatherLane(x, code, code, 3 * i + 0, i);
    SecondLane(code, i);
    y' := GatherLane(y, code >> 1, code, 3 * i + 1, i);
    ThirdLane(code, i);
    z' := GatherLane(z, code >> 2, code, 3 * i + 2, i);
  }

  method GatherLane(c: bv64, lane: bv64, code: bv64, at: bv64, i: bv64) returns (c': bv64)
    requires i < 21 && at < 64 && c == Low(Compact(lane), i) && (Bit(lane, 3 * i) <==> Bit(code, at))
    ensures c' == Low(Compact(lane), i + 1)
  {
    CompactBits(lane, i);
    LowStep(Compact(lane), code, at, i);
    c' := Gather(c, code, at, i);
  }

  lemma SecondLane(code: bv64, i: bv64)
    requires i < 21
    ensures Bit(code >> 1, 3 * i) <==> Bit(code, 3 * i + 1)
  {
  }

  lemma ThirdLane(code: bv64, i: bv64)
    requires i < 21
    ensures Bit(code >> 2, 3 * i) <==> Bit(code, 3 * i + 2)
  {
  }

  /** Decoding an encoded triple exchanges its first and last coordinate. */
  lemma DecodeExchanges(x: bv64, y: bv64, z: bv64)
    ensures Compact(Encode(x, y, z)) == z & 0x1f_ffff
    ensures Compact(Encode(x, y, z) >> 1) == y & 0x1f_ffff
    ensures Compact(Encode(x, y, z) >> 2) == x & 0x1f_ffff
  {
    LanesApart(x, y, z);
    CompactInverse(x);
    CompactInverse(y);
    CompactInverse(z);
    CompactInverse(Encode(x, y, z));
    CompactInverse(Encode(x, y, z) >> 1);
    CompactInverse(Encode(x, y, z) >> 2);
  }

  /** Every code of 63 bits is the code of the triple it decodes to, taken in the encoder's order. */
  lemma EncodeDecoded(code: bv64)
    ensures Encode(Compact(code >> 2), Compact(code >> 1), Compact(code)) == code & 0x7FFF_FFFF_FFFF_FFFF
  {
    CompactInverse(code);
    CompactInverse(code >> 1);
    CompactInverse(code >> 2);
    JoinLanes(code);
  }

  lemma JoinLanes(code: bv64)
    ensures (((code >> 2) & 0x1249_2492_4924_9249) << 2) | (((code >> 1) & 0x1249_2492_4924_9249) << 1)
      | (code & 0x1249_2492_4924_9249) == code & 0x7FFF_FFFF_FFFF_FFFF
  {
  }
}
