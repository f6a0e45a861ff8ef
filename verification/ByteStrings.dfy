/** Byte strings and their order.

    Keys are byte strings compared by `Slice::compare` and `std::string`: first the bytes of the
    common prefix as unsigned numbers, then the lengths.  `Rank` embeds that order in the reals,
    so that in the other modules transitivity and trichotomy are linear arithmetic. */
module ByteStrings {
  type byte = x: int | 0 <= x < 256
  type Bytes = seq<byte>

  datatype Option<+T> = None | Some(value: T)

  /** The sign `memcmp` returns for the first `n` bytes. */
  function Memcmp(a: Bytes, b: Bytes, n: nat): int
    requires n <= |a| && n <= |b|
  {
    if n == 0 then 0
    else if a[0] < b[0] then -1
    else if a[0] > b[0] then 1
    else Memcmp(a[1..], b[1..], n - 1)
  }

  function Compare(a: Bytes, b: Bytes): int {
    var minLen := if |a| < |b| then |a| else |b|;
    var r := Memcmp(a, b, minLen);
    if r == 0 then
      if |a| < |b| then -1 else if |a| > |b| then 1 else 0
    else r
  }

  /** A base-257 fraction: digit 0 is "no byte here", so a proper prefix ranks below its extensions. */
  function Rank(a: Bytes): (r: real)
    ensures 0.0 <= r < 1.0
  {
    if a == [] then 0.0 else (a[0] as real + 1.0 + Rank(a[1..])) / 257.0
  }

  /** The embedding is exact: rank order is the order `Compare` computes, and only equal strings
      share a rank. */
  lemma {:induction false} CompareIsRankOrder(a: Bytes, b: Bytes)
    ensures Compare(a, b) < 0 <==> Rank(a) < Rank(b)
    ensures Compare(a, b) > 0 <==> Rank(a) > Rank(b)
    ensures Compare(a, b) == 0 <==> a == b
    ensures Rank(a) == Rank(b) <==> a == b
  {
    if a == [] || b == [] {
      assert a != [] ==> Rank(a) > 0.0;
      assert b != [] ==> Rank(b) > 0.0;
    } else {
      CompareIsRankOrder(a[1..], b[1..]);
      assert a == [a[0]] + a[1..] && b == [b[0]] + b[1..];
      assert a[0] == b[0] ==> Compare(a, b) == Compare(a[1..], b[1..]);
      assert a[0] < b[0] ==> a[0] as real + 1.0 <= b[0] as real;
      assert a[0] > b[0] ==> b[0] as real + 1.0 <= a[0] as real;
    }
  }

  predicate Less(a: Bytes, b: Bytes): (r: bool)
    ensures r <==> Rank(a) < Rank(b)
  {
    CompareIsRankOrder(a, b);
    Compare(a, b) < 0
  }

  lemma SameRank(a: Bytes, b: Bytes)
    requires Rank(a) == Rank(b)
    ensures a == b
  {
    CompareIsRankOrder(a, b);
  }

  lemma RankInjective()
    ensures forall a: Bytes, b: Bytes {:trigger Rank(a), Rank(b)} :: Rank(a) == Rank(b) ==> a == b
  {
    forall a: Bytes, b: Bytes | Rank(a) == Rank(b) ensures a == b {
      CompareIsRankOrder(a, b);
    }
  }

  // ----- fixed-width integers -----

  function Pow256(n: nat): (p: nat)
    ensures p > 0
  {
    if n == 0 then 1 else 256 * Pow256(n - 1)
  }

  lemma Pow256Values()
    ensures Pow256(4) == 0x1_0000_0000 && Pow256(8) == 0x1_0000_0000_0000_0000
  {
    assert Pow256(3) == 256 * Pow256(2) && Pow256(2) == 256 * Pow256(1) && Pow256(1) == 256 * Pow256(0);
    assert Pow256(4) == 256 * Pow256(3) && Pow256(5) == 256 * Pow256(4) && Pow256(6) == 256 * Pow256(5);
    assert Pow256(7) == 256 * Pow256(6) && Pow256(8) == 256 * Pow256(7);
  }

  /** `n` bytes, least significant first: the host order in which headers and lengths are written. */
  function LittleEndian(n: nat, x: nat): (s: Bytes)
    ensures |s| == n
  {
    if n == 0 then [] else [x % 256] + LittleEndian(n - 1, x / 256)
  }

  function FromLittleEndian(s: Bytes): (x: nat)
    ensures x < Pow256(|s|)
  {
    if s == [] then 0 else s[0] + 256 * FromLittleEndian(s[1..])
  }

  /** Writing keeps the value modulo the width, exactly as a narrowing cast does. */
  lemma {:induction false} LittleEndianRoundTrip(n: nat, x: nat)
    requires x < Pow256(n)
    ensures FromLittleEndian(LittleEndian(n, x)) == x
  {
    if n > 0 {
      LittleEndianRoundTrip(n - 1, x / 256);
      assert LittleEndian(n, x)[1..] == LittleEndian(n - 1, x / 256);
    }
  }

  lemma Behind(head: Bytes, tail: Bytes)
    ensures (head + tail)[|head|..] == tail
  {
  }

  lemma SliceTwice(s: Bytes, i: nat, j: nat)
    requires i + j <= |s|
    ensures s[i..][j..] == s[i + j..]
  {
  }

  lemma DigitApart(digit: byte, rest: nat)
    ensures (digit + 256 * rest) % 256 == digit && (digit + 256 * rest) / 256 == rest
  {
  }

  lemma HeadAndTail(s: Bytes)
    requires s != []
    ensures [s[0]] + s[1..] == s
  {
  }

  lemma {:induction false} LittleEndianInverse(s: Bytes)
    ensures LittleEndian(|s|, FromLittleEndian(s)) == s
  {
    if s != [] {
      LittleEndianInverse(s[1..]);
      DigitApart(s[0], FromLittleEndian(s[1..]));
      HeadAndTail(s);
    }
  }
}
