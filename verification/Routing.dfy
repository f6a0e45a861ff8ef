/** Spatial keys and the two ways a key finds its shard: by dividing its code, and by the table of key
    ranges. */
module Routing {
  import opened ByteStrings
  import opened Numerals

  const MAX: nat := 0xFFFF_FFFF_FFFF_FFFF
  const KEY_SIZE: nat := 18

  // ----- spatial keys -----

  datatype SpatialKey3D = SpatialKey3D(layerType: byte, lodLevel: byte, mortonCode: nat, timestampUs: nat)

  ghost predicate Fits(k: SpatialKey3D) {
    k.mortonCode <= MAX && k.timestampUs <= MAX
  }

  function ToBytes(k: SpatialKey3D): (s: Bytes)
    ensures |s| == KEY_SIZE
  {
    [k.layerType, k.lodLevel] + BigEndian(8, k.mortonCode) + BigEndian(8, k.timestampUs)
  }

  function FromSlice(s: Bytes): SpatialKey3D
    requires |s| >= KEY_SIZE
  {
    SpatialKey3D(s[0], s[1], FromBigEndian(s[2..10]), FromBigEndian(s[10..18]))
  }

  lemma KeyRoundTrip(k: SpatialKey3D)
    requires Fits(k)
    ensures FromSlice(ToBytes(k)) == k
  {
    Pow256Values();
    assert ToBytes(k)[2..10] == BigEndian(8, k.mortonCode) && ToBytes(k)[10..18] == BigEndian(8, k.timestampUs);
    BigEndianRoundTrip(8, k.mortonCode);
    BigEndianRoundTrip(8, k.timestampUs);
  }

  predicate FieldsBelow(a: SpatialKey3D, b: SpatialKey3D) {
    a.layerType < b.layerType || (a.layerType == b.layerType &&
    (a.lodLevel < b.lodLevel || (a.lodLevel == b.lodLevel &&
    (a.mortonCode < b.mortonCode || (a.mortonCode == b.mortonCode && a.timestampUs < b.timestampUs)))))
  }

  /** Bytewise key order is the order of the fields as numbers. */
  lemma KeyOrder(a: SpatialKey3D, b: SpatialKey3D)
    requires Fits(a) && Fits(b)
    ensures Rank(ToBytes(a)) < Rank(ToBytes(b)) <==> FieldsBelow(a, b)
  {
    Pow256Values();
    var ta, tb := BigEndian(8, a.timestampUs), BigEndian(8, b.timestampUs);
    var ma, mb := BigEndian(8, a.mortonCode) + ta, BigEndian(8, b.mortonCode) + tb;
    assert ta + [] == ta && tb + [] == tb;
    BigEndianOrder(8, a.timestampUs, b.timestampUs, [], []);
    BigEndianOrder(8, a.mortonCode, b.mortonCode, ta, tb);
    TwoBytesOrder(a.layerType, a.lodLevel, ma, b.layerType, b.lodLevel, mb);
    assert ToBytes(a) == [a.layerType, a.lodLevel] + ma && ToBytes(b) == [b.layerType, b.lodLevel] + mb;
  }

  lemma TwoBytesOrder(a: byte, b: byte, u: Bytes, c: byte, d: byte, v: Bytes)
    ensures Rank([a, b] + u) < Rank([c, d] + v) <==>
      a < c || (a == c && (b < d || (b == d && Rank(u) < Rank(v))))
  {
    assert [a, b] + u == [a] + ([b] + u) && [c, d] + v == [c] + ([d] + v);
    FirstByteOrder(a, c, [b] + u, [d] + v);
    FirstByteOrder(c, a, [d] + v, [b] + u);
    FirstByteOrder(b, d, u, v);
    FirstByteOrder(d, b, v, u);
  }

  // ----- the router -----

  function Step(n: nat): nat
    requires n >= 1
  {
    MAX / n
  }

  /** The division of `GetShard`, its clamp included. */
  function Route(code: nat, n: nat): (i: nat)
    requires n >= 2
    ensures i < n
  {
    var i := code / (Step(n) + 1);
    if i >= n then n - 1 else i
  }

  /** The table cuts at multiples of the step; the last range takes what is left over. */
  function TableIndex(code: nat, n: nat): nat
    requires 2 <= n <= MAX
  {
    var i := code / Step(n);
    if i > n - 1 then n - 1 else i
  }

  lemma StepBounds(n: nat)
    requires 2 <= n <= MAX
    ensures Step(n) >= 1 && n * Step(n) <= MAX < n * (Step(n) + 1)
  {
    assert MAX == n * (MAX / n) + MAX % n;
    if MAX / n == 0 { assert false; }
  }

  /** The clamp never fires. */
  lemma RouteInRange(code: nat, n: nat)
    requires 2 <= n <= MAX && code <= MAX
    ensures code / (Step(n) + 1) < n && Route(code, n) == code / (Step(n) + 1)
  {
    StepBounds(n);
    DivBelow(code, n, Step(n) + 1);
  }

  lemma DivBelow(x: nat, q: nat, d: nat)
    requires d > 0 && x < q * d
    ensures x / d < q
  {
    assert x == (x / d) * d + x % d;
    if x / d >= q { MulMonotone(q, x / d, d); }
  }

  lemma DivAtLeast(x: nat, q: nat, d: nat)
    requires d > 0 && x >= q * d
    ensures x / d >= q
  {
    assert x == (x / d) * d + x % d;
    if x / d < q { MulMonotone(x / d + 1, q, d); }
  }

  lemma MulMonotone(a: nat, b: nat, d: nat)
    requires a <= b
    ensures a * d <= b * d
  {
  }

  /** Dividing by one more than the step never overshoots the table, and hits its range exactly if the
      code has passed that many multiples of step plus one. */
  lemma RouteAgrees(code: nat, n: nat)
    requires 2 <= n <= MAX && code <= MAX
    ensures var i := TableIndex(code, n); Route(code, n) <= i && (Route(code, n) == i <==> code >= i * (Step(n) + 1))
  {
    var s, i := Step(n), TableIndex(code, n);
    StepBounds(n);
    RouteInRange(code, n);
    var q := code / (s + 1);
    assert q * (s + 1) <= code;
    MulMonotone(s, s + 1, q);
    assert q * s <= code;
    DivAtLeast(code, q, s);
    assert q <= i;
    if code >= i * (s + 1) { DivAtLeast(code, i, s + 1); }
    if q == i { assert code >= i * (s + 1); }
  }

  /** With at most 2^32 shards router and table are at most one apart. */
  lemma RouteClose(code: nat, n: nat)
    requires 2 <= n <= 0x1_0000_0000 && code <= MAX
    ensures TableIndex(code, n) - 1 <= Route(code, n) <= TableIndex(code, n)
  {
    var s, i := Step(n), TableIndex(code, n);
    RouteAgrees(code, n);
    RouteInRange(code, n);
    StepLarge(n);
    if i > 0 {
      TableBelow(code, n);
      OneLess(i, s, code);
      DivAtLeast(code, i - 1, s + 1);
    }
  }

  lemma StepLarge(n: nat)
    requires 2 <= n <= 0x1_0000_0000
    ensures Step(n) >= 0xFFFF_FFFF
  {
    DivAtLeast(MAX, 0xFFFF_FFFF, n);
  }

  lemma TableBelow(code: nat, n: nat)
    requires 2 <= n <= MAX && code <= MAX
    ensures TableIndex(code, n) * Step(n) <= code
  {
    StepBounds(n);
    assert code == (code / Step(n)) * Step(n) + code % Step(n);
    MulMonotone(TableIndex(code, n), code / Step(n), Step(n));
  }

  lemma OneLess(i: nat, s: nat, code: nat)
    requires 1 <= i <= s + 1 && i * s <= code
    ensures (i - 1) * (s + 1) <= code
  {
    assert (i - 1) * (s + 1) == i * s + i - s - 1;
  }

  // ----- the range table -----

  /** An empty start means minus infinity, an empty end plus infinity. */
  datatype ShardRange = ShardRange(startKey: Bytes, endKey: Bytes, shardIndex: nat)

  /** Boundaries are keys of layer 1 and level 0. */
  function Bound(i: nat, n: nat): Bytes
    requires n >= 1
  {
    ToBytes(SpatialKey3D(1, 0, i * Step(n), 0))
  }

  function RangeAt(i: nat, n: nat): ShardRange
    requires n >= 1
  {
    ShardRange(if i == 0 then [] else Bound(i, n), if i == n - 1 then [] else Bound(i + 1, n), i)
  }

  predicate InRange(r: ShardRange, key: Bytes) {
    (r.startKey == [] || !Less(key, r.startKey)) && (r.endKey == [] || Less(key, r.endKey))
  }

  lemma BoundsIncrease(i: nat, j: nat, n: nat)
    requires 2 <= n <= MAX && i < j < n
    ensures Rank(Bound(i, n)) < Rank(Bound(j, n))
  {
    StepBounds(n);
    MultiplesIncrease(i, j, n, Step(n));
    CodesIncrease(i * Step(n), j * Step(n));
  }

  lemma MultiplesIncrease(i: nat, j: nat, n: nat, s: nat)
    requires i < j < n && s >= 1
    ensures i * s < j * s <= n * s
  {
    MulMonotone(i + 1, j, s);
    MulMonotone(j, n, s);
    assert (i + 1) * s == i * s + s;
  }

  lemma CodesIncrease(a: nat, b: nat)
    requires a < b <= MAX
    ensures Rank(ToBytes(SpatialKey3D(1, 0, a, 0))) < Rank(ToBytes(SpatialKey3D(1, 0, b, 0)))
  {
    KeyOrder(SpatialKey3D(1, 0, a, 0), SpatialKey3D(1, 0, b, 0));
  }

  /** The last boundary not above the key, counted down from `i`. */
  function LastBound(key: Bytes, n: nat, i: nat): (r: nat)
    requires n >= 1
    ensures r <= i && (r > 0 ==> Rank(Bound(r, n)) <= Rank(key))
    ensures r < i ==> Rank(key) < Rank(Bound(r + 1, n))
  {
    if i == 0 || !Less(key, Bound(i, n)) then i else LastBound(key, n, i - 1)
  }

  function RangeFor(key: Bytes, n: nat): (i: nat)
    requires n >= 1
    ensures i < n
  {
    LastBound(key, n, n - 1)
  }

  /** The table is a partition of all keys: each lies in exactly one range. */
  lemma OneRange(key: Bytes, n: nat, i: nat)
    requires 2 <= n <= MAX && i < n
    ensures InRange(RangeAt(i, n), key) <==> i == RangeFor(key, n)
  {
    var r := RangeFor(key, n);
    if i < r && i + 1 < r { BoundsIncrease(i + 1, r, n); }
    if r < i && r + 1 < i { BoundsIncrease(r + 1, i, n); }
  }

  // ----- which keys the two agree on -----

  function CodeOf(key: Bytes): nat
    requires |key| >= KEY_SIZE
  {
    FromBigEndian(key[2..10])
  }

  /** `GetShard`: full keys by division, shorter ones by scanning the table. */
  function Shard(key: Bytes, n: nat): (i: nat)
    requires n >= 2
    ensures i < n
  {
    if |key| >= KEY_SIZE then Route(CodeOf(key), n) else RangeFor(key, n)
  }

  lemma {:induction false} FromBigEndianInverse(s: Bytes)
    ensures BigEndian(|s|, FromBigEndian(s)) == s && FromBigEndian(s) < Pow256(|s|)
  {
    if s != [] {
      FromBigEndianInverse(s[..|s| - 1]);
      assert s == s[..|s| - 1] + [s[|s| - 1]];
    }
  }

  lemma {:induction false} ZerosBelow(n: nat, s: Bytes)
    requires |s| >= n
    ensures Rank(BigEndian(n, 0)) <= Rank(s)
  {
    if n > 0 {
      BigEndianZero(n);
      ZerosBelow(n - 1, s[1..]);
      assert s == [s[0]] + s[1..];
      FirstByteOrder(0, s[0], BigEndian(n - 1, 0), s[1..]);
      FirstByteOrder(s[0], 0, s[1..], BigEndian(n - 1, 0));
    }
  }

  lemma {:induction false} BigEndianZero(n: nat)
    requires n > 0
    ensures BigEndian(n, 0) == [0] + BigEndian(n - 1, 0)
  {
    if n > 1 { BigEndianZero(n - 1); }
  }

  /** A full key against a boundary: layer and level decide first, then the code. */
  lemma AgainstBound(key: Bytes, i: nat, n: nat)
    requires 2 <= n <= MAX && i < n && |key| >= KEY_SIZE
    ensures Rank(key) < Rank(Bound(i, n)) <==>
      key[0] < 1 || (key[0] == 1 && key[1] == 0 && CodeOf(key) < i * Step(n))
  {
    StepBounds(n);
    MulMonotone(i, n, Step(n));
    Pow256Values();
    var code, rest, zeros := CodeOf(key), key[10..], BigEndian(8, 0);
    FromBigEndianInverse(key[2..10]);
    assert key == [key[0], key[1]] + (BigEndian(8, code) + rest);
    assert Bound(i, n) == [1, 0] + (BigEndian(8, i * Step(n)) + zeros);
    TwoBytesOrder(key[0], key[1], BigEndian(8, code) + rest, 1, 0, BigEndian(8, i * Step(n)) + zeros);
    BigEndianOrder(8, code, i * Step(n), rest, zeros);
    ZerosBelow(8, rest);
  }

  lemma CodeBounded(key: Bytes)
    requires |key| >= KEY_SIZE
    ensures CodeOf(key) <= MAX
  {
    FromBigEndianInverse(key[2..10]);
    Pow256Values();
  }

  /** Where the table puts a full key. */
  lemma RangeForCode(key: Bytes, n: nat)
    requires 2 <= n <= MAX && |key| >= KEY_SIZE
    ensures RangeFor(key, n) ==
      if key[0] < 1 then 0 else if key[0] == 1 && key[1] == 0 then TableIndex(CodeOf(key), n) else n - 1
  {
    var code, r, s := CodeOf(key), RangeFor(key, n), Step(n);
    CodeBounded(key);
    StepBounds(n);
    if r > 0 { AgainstBound(key, r, n); }
    if r < n - 1 { AgainstBound(key, r + 1, n); }
    if key[0] == 1 && key[1] == 0 {
      if r > 0 { DivAtLeast(code, r, s); }
      if r < n - 1 { DivBelow(code, r + 1, s); }
    }
  }

  /** Router and table agree on every short key, and on a full key exactly if the code has passed enough
      multiples of step plus one, or, off layer 1 and level 0, if it routes to the end its prefix puts it. */
  lemma AgreeExactly(key: Bytes, n: nat)
    requires 2 <= n <= MAX
    ensures |key| < KEY_SIZE ==> Shard(key, n) == RangeFor(key, n)
    ensures |key| >= KEY_SIZE && key[0] == 1 && key[1] == 0 ==>
      (Shard(key, n) == RangeFor(key, n) <==> CodeOf(key) >= TableIndex(CodeOf(key), n) * (Step(n) + 1))
    ensures |key| >= KEY_SIZE && (key[0] != 1 || key[1] != 0) ==>
      (Shard(key, n) == RangeFor(key, n) <==> Route(CodeOf(key), n) == if key[0] < 1 then 0 else n - 1)
  {
    if |key| >= KEY_SIZE {
      CodeBounded(key);
      RangeForCode(key, n);
      RouteAgrees(CodeOf(key), n);
    }
  }

  /** A code on which they differ, whatever the number of shards: the first boundary itself. */
  lemma BoundaryDisagrees(key: Bytes, n: nat)
    requires 2 <= n <= MAX && key == Bound(1, n)
    ensures Shard(key, n) == 0 && RangeFor(key, n) == 1
  {
    StepBounds(n);
    KeyRoundTrip(SpatialKey3D(1, 0, Step(n), 0));
    assert 1 * Step(n) == Step(n);
    assert CodeOf(key) == Step(n);
    RangeForCode(key, n);
    RouteInRange(Step(n), n);
    DivBelow(Step(n), 1, Step(n) + 1);
    DivAtLeast(Step(n), 1, Step(n));
    DivBelow(Step(n), 2, Step(n));
  }

  // ----- pruning -----

  predicate NoOverlap(r: ShardRange, startKey: Bytes, endKey: Bytes) {
    (r.endKey != [] && !Less(startKey, r.endKey)) || (r.startKey != [] && Less(endKey, r.startKey))
  }

  /** Pruning keeps the shard of every wanted key on which router and table agree. */
  lemma NotPruned(key: Bytes, n: nat, startKey: Bytes, endKey: Bytes)
    requires 2 <= n <= MAX && Shard(key, n) == RangeFor(key, n)
    requires Rank(startKey) <= Rank(key) <= Rank(endKey)
    ensures !NoOverlap(RangeAt(Shard(key, n), n), startKey, endKey)
  {
    OneRange(key, n, Shard(key, n));
    RangeOverlaps(RangeAt(Shard(key, n), n), key, startKey, endKey);
  }

  lemma RangeOverlaps(r: ShardRange, key: Bytes, startKey: Bytes, endKey: Bytes)
    requires InRange(r, key) && Rank(startKey) <= Rank(key) <= Rank(endKey)
    ensures !NoOverlap(r, startKey, endKey)
  {
  }

  /** A query for a single key looks into the key's shard exactly if they agree. */
  lemma PointQuery(key: Bytes, n: nat)
    requires 2 <= n <= MAX
    ensures Shard(key, n) < n
    ensures !NoOverlap(RangeAt(Shard(key, n), n), key, key) <==> Shard(key, n) == RangeFor(key, n)
  {
    OneRange(key, n, Shard(key, n));
  }

  /** A key lies at or behind the boundaries up to its range's. */
  lemma KeyBehindBound(key: Bytes, i: nat, n: nat)
    requires 2 <= n <= MAX && 0 < i <= RangeFor(key, n)
    ensures Rank(Bound(i, n)) <= Rank(key)
  {
    if i < RangeFor(key, n) { BoundsIncrease(i, RangeFor(key, n), n); }
  }

  lemma LessRank(a: Bytes, b: Bytes)
    requires Less(a, b)
    ensures Rank(a) < Rank(b)
  {
  }

  lemma {:induction false} LaterBound(key: Bytes, n: nat, i: nat, k: nat, r: nat)
    requires n >= 1 && r < k <= i && r == LastBound(key, n, i)
    ensures Less(key, Bound(k, n))
    decreases i
  {
    if k < i { LaterBound(key, n, i - 1, k, r); }
  }

  lemma LastOfAll(key: Bytes, n: nat, last: nat)
    requires n >= 1 && last == n - 1
    ensures RangeFor(key, n) == LastBound(key, n, last)
  {
  }

  /** And before the later ones. */
  lemma KeyBeforeBound(key: Bytes, i: nat, n: nat)
    requires n >= 1 && RangeFor(key, n) < i < n
    ensures Less(key, Bound(i, n))
  {
    LastOfAll(key, n, n - 1);
    LaterBound(key, n, n - 1, i, RangeFor(key, n));
  }

  lemma PrunedByBounds(i: nat, n: nat, startKey: Bytes, endKey: Bytes)
    requires i < n
    ensures NoOverlap(RangeAt(i, n), startKey, endKey) <==>
      (i + 1 < n && Rank(startKey) >= Rank(Bound(i + 1, n))) || (i > 0 && Rank(endKey) < Rank(Bound(i, n)))
  {
  }

  /** For any query and any wanted key: its shard is pruned, and the key missed, exactly if the router sends it
      below its range and the query starts at or behind the end of the shard's range, or above its range and
      the query ends before that range. */
  lemma PrunedExactly(key: Bytes, n: nat, startKey: Bytes, endKey: Bytes)
    requires 2 <= n <= MAX && Rank(startKey) <= Rank(key) <= Rank(endKey)
    ensures var i, j := Shard(key, n), RangeFor(key, n);
      NoOverlap(RangeAt(i, n), startKey, endKey) <==>
      (i < j && Rank(startKey) >= Rank(Bound(i + 1, n))) || (i > j && Rank(endKey) < Rank(Bound(i, n)))
  {
    var i, j := Shard(key, n), RangeFor(key, n);
    PrunedByBounds(i, n, startKey, endKey);
    if 0 < i <= j { KeyBehindBound(key, i, n); }
    if i + 1 <= j { KeyBehindBound(key, i + 1, n); }
    if i > j {
      KeyBeforeBound(key, i, n);
      LessRank(key, Bound(i, n));
    }
    if j < i + 1 < n {
      KeyBeforeBound(key, i + 1, n);
      LessRank(key, Bound(i + 1, n));
    }
  }

  // ----- keys and shards, stated on bytes and numbers -----

  /** Eight bytes, the highest first. */
  function HighFirst(s: Bytes, at: nat): nat
    requires at + 8 <= |s|
  {
    72057594037927936 * (s[at] as nat) + 281474976710656 * (s[at + 1] as nat) + 1099511627776 * (s[at + 2] as nat) +
    4294967296 * (s[at + 3] as nat) + 16777216 * (s[at + 4] as nat) + 65536 * (s[at + 5] as nat) +
    256 * (s[at + 6] as nat) + s[at + 7] as nat
  }

  lemma LastByte(s: Bytes)
    requires s != []
    ensures FromBigEndian(s) == 256 * FromBigEndian(s[..|s| - 1]) + s[|s| - 1]
  {
  }

  lemma LastFour(s: Bytes)
    requires |s| >= 4
    ensures var n := |s|;
      FromBigEndian(s) == 4294967296 * FromBigEndian(s[..n - 4]) +
        16777216 * (s[n - 4] as nat) + 65536 * (s[n - 3] as nat) + 256 * (s[n - 2] as nat) + s[n - 1] as nat
  {
    var n := |s|;
    LastByte(s);
    LastByte(s[..n - 1]);
    assert s[..n - 1][..n - 2] == s[..n - 2];
    LastByte(s[..n - 2]);
    assert s[..n - 2][..n - 3] == s[..n - 3];
    LastByte(s[..n - 3]);
    assert s[..n - 3][..n - 4] == s[..n - 4];
  }

  lemma HighFirstIs(s: Bytes)
    requires |s| == 8
    ensures FromBigEndian(s) == HighFirst(s, 0)
  {
    LastFour(s);
    LastFour(s[..4]);
    assert s[..4][..0] == [];
  }

  lemma HighFirstAt(s: Bytes, at: nat)
    requires at + 8 <= |s|
    ensures HighFirst(s[at..at + 8], 0) == HighFirst(s, at)
  {
  }

  /** The eighteen bytes of a key: layer, level, then code and timestamp, highest byte first. */
  lemma KeyBytes(k: SpatialKey3D)
    requires Fits(k)
    ensures var s := ToBytes(k);
      s[0] == k.layerType && s[1] == k.lodLevel && HighFirst(s, 2) == k.mortonCode && HighFirst(s, 10) == k.timestampUs
  {
    var s := ToBytes(k);
    KeyRoundTrip(k);
    HighFirstIs(s[2..10]);
    HighFirstIs(s[10..18]);
    HighFirstAt(s, 2);
    HighFirstAt(s, 10);
  }

  /** Where a full key goes, and which range of the table it lies in. */
  lemma FullKeyRouted(key: Bytes, n: nat)
    requires 2 <= n <= 0xFFFF_FFFF_FFFF_FFFF && |key| >= 18
    ensures Shard(key, n) == HighFirst(key, 2) / (0xFFFF_FFFF_FFFF_FFFF / n + 1)
    ensures key[0] == 1 && key[1] == 0 ==>
      RangeFor(key, n) ==
      var i := HighFirst(key, 2) / (0xFFFF_FFFF_FFFF_FFFF / n); if i > n - 1 then n - 1 else i
  {
    HighFirstIs(key[2..10]);
    HighFirstAt(key, 2);
    CodeBounded(key);
    RouteInRange(CodeOf(key), n);
    RangeForCode(key, n);
    StepBounds(n);
  }
}
