/** Fixed-width numerals, most significant digit first, and the order of strings that start with one. */
module Numerals {
  import opened ByteStrings

  /** Strings that agree up to a point compare by what follows. */
  lemma FirstByteOrder(c: byte, d: byte, u: Bytes, v: Bytes)
    ensures c < d ==> Rank([c] + u) < Rank([d] + v)
    ensures c == d ==> (Rank([c] + u) < Rank([d] + v) <==> Rank(u) < Rank(v))
  {
    assert ([c] + u)[1..] == u && ([d] + v)[1..] == v;
    assert c < d ==> c as real + 1.0 <= d as real;
  }

  // ----- 64-bit integers in network order -----

  /** The order `htobe64` produces. */
  function BigEndian(n: nat, x: nat): (s: Bytes)
    ensures |s| == n
  {
    if n == 0 then [] else BigEndian(n - 1, x / 256) + [x % 256]
  }

  function FromBigEndian(s: Bytes): nat {
    if s == [] then 0 else 256 * FromBigEndian(s[..|s| - 1]) + s[|s| - 1]
  }

  lemma {:induction false} BigEndianRoundTrip(n: nat, x: nat)
    requires x < Pow256(n)
    ensures FromBigEndian(BigEndian(n, x)) == x
  {
    if n > 0 {
      BigEndianRoundTrip(n - 1, x / 256);
      assert BigEndian(n, x)[..n - 1] == BigEndian(n - 1, x / 256);
    }
  }

  /** Numerals of one width sort as their numbers, and equal numbers leave it to what follows. */
  lemma {:induction false} BigEndianOrder(n: nat, x: nat, y: nat, u: Bytes, v: Bytes)
    requires x < Pow256(n) && y < Pow256(n)
    ensures Rank(BigEndian(n, x) + u) < Rank(BigEndian(n, y) + v) <==> x < y || (x == y && Rank(u) < Rank(v))
  {
    if n == 0 {
      assert BigEndian(n, x) + u == u && BigEndian(n, y) + v == v;
    } else {
      var c: byte, d: byte := x % 256, y % 256;
      BigEndianOrder(n - 1, x / 256, y / 256, [c] + u, [d] + v);
      assert BigEndian(n, x) + u == BigEndian(n - 1, x / 256) + ([c] + u);
      assert BigEndian(n, y) + v == BigEndian(n - 1, y / 256) + ([d] + v);
      FirstByteOrder(c, d, u, v);
      FirstByteOrder(d, c, v, u);
    }
  }

  // ----- decimal file numbers -----

  function Pow10(n: nat): (p: nat)
    ensures p > 0
  {
    if n == 0 then 1 else 10 * Pow10(n - 1)
  }

  /** The last `n` decimal digits of `x`. */
  function Decimal(n: nat, x: nat): (s: Bytes)
    ensures |s| == n
  {
    if n == 0 then [] else Decimal(n - 1, x / 10) + [48 + x % 10]
  }

  lemma {:induction false} DecimalOrder(n: nat, x: nat, y: nat, u: Bytes, v: Bytes)
    requires x < Pow10(n) && y < Pow10(n)
    ensures Rank(Decimal(n, x) + u) < Rank(Decimal(n, y) + v) <==> x < y || (x == y && Rank(u) < Rank(v))
  {
    if n == 0 {
      assert Decimal(n, x) + u == u && Decimal(n, y) + v == v;
    } else {
      var c: byte, d: byte := 48 + x % 10, 48 + y % 10;
      DecimalOrder(n - 1, x / 10, y / 10, [c] + u, [d] + v);
      assert Decimal(n, x) + u == Decimal(n - 1, x / 10) + ([c] + u);
      assert Decimal(n, y) + v == Decimal(n - 1, y / 10) + ([d] + v);
      FirstByteOrder(c, d, u, v);
      FirstByteOrder(d, c, v, u);
    }
  }

  /** The number of decimal digits. */
  function Width(x: nat): (w: nat)
    ensures w >= 1
  {
    if x < 10 then 1 else 1 + Width(x / 10)
  }

  /** `setw(6)` with fill '0': at least six digits, more if the number needs them. */
  function Padding(x: nat): nat {
    if Width(x) < 6 then 6 else Width(x)
  }

  /** The name `GetSstPath` builds (the directory, common to all, left off); names of logs differ only
      in a common prefix and the extension. */
  function FileName(x: nat, extension: Bytes): Bytes {
    Decimal(Padding(x), x) + ([46] + extension)
  }

  lemma {:induction false} WidthBound(x: nat)
    ensures x < Pow10(Width(x)) && (Width(x) > 1 ==> x >= Pow10(Width(x) - 1))
  {
    if x >= 10 { WidthBound(x / 10); }
  }

  lemma {:induction false} Pow10Monotone(m: nat, n: nat)
    requires m <= n
    ensures Pow10(m) <= Pow10(n)
  {
    if m < n { Pow10Monotone(m, n - 1); }
  }

  /** `x` with its last `k` digits dropped. */
  function Shift(x: nat, k: nat): nat {
    if k == 0 then x else Shift(x / 10, k - 1)
  }

  /** The dropped digits. */
  function Tail(x: nat, k: nat): (s: Bytes)
    ensures |s| == k && (k > 0 ==> s[0] >= 48)
  {
    if k == 0 then [] else Tail(x / 10, k - 1) + [48 + x % 10]
  }

  lemma {:induction false} DecimalSplit(n: nat, k: nat, x: nat)
    ensures Decimal(n + k, x) == Decimal(n, Shift(x, k)) + Tail(x, k)
    ensures x < Pow10(n + k) ==> Shift(x, k) < Pow10(n)
  {
    if k > 0 { DecimalSplit(n, k - 1, x / 10); }
  }

  /** Names sort as numbers exactly if padding makes them equally long, or the longer number's leading
      digits are not below the shorter number. */
  lemma FileNameOrder(a: nat, b: nat, extension: Bytes)
    requires a < b
    ensures Padding(a) <= Padding(b)
    ensures Rank(FileName(a, extension)) < Rank(FileName(b, extension)) <==> a <= Shift(b, Padding(b) - Padding(a))
  {
    WidthBound(a);
    WidthBound(b);
    var w := Padding(a);
    Pow10Monotone(Width(a), w);
    Pow10Monotone(Width(b), Padding(b));
    if Width(b) < Width(a) { Pow10Monotone(Width(b), Width(a) - 1); }
    var k := Padding(b) - w;
    DecimalSplit(w, k, b);
    var u: Bytes, t := [46] + extension, Tail(b, k);
    DecimalOrder(w, a, Shift(b, k), u, t + u);
    assert Decimal(w + k, b) + u == Decimal(w, Shift(b, k)) + (t + u) by { Regroup(Decimal(w, Shift(b, k)), t, u); }
    DotBelowDigits(extension, t);
  }

  lemma Regroup(a: Bytes, b: Bytes, c: Bytes)
    ensures (a + b) + c == a + (b + c)
  {
  }

  /** The dot before the extension sorts below every digit. */
  lemma DotBelowDigits(extension: Bytes, digits: Bytes)
    requires digits != [] ==> digits[0] >= 48
    ensures Rank([46] + extension) < Rank(digits + ([46] + extension)) <==> digits != []
  {
    var u: Bytes := [46] + extension;
    if digits != [] {
      assert digits + u == [digits[0]] + (digits[1..] + u);
      FirstByteOrder(46, digits[0], extension, digits[1..] + u);
    } else {
      assert digits + u == u;
    }
  }

  lemma PaddingBelowMillion(a: nat)
    requires a < 1_000_000
    ensures Padding(a) == 6
  {
    WidthBound(a);
    if Width(a) > 6 { Pow10Monotone(6, Width(a) - 1); }
    assert Pow10(6) == 1_000_000;
  }

  /** The number three digits stand for. */
  function Digits(s: Bytes, at: nat): int
    requires at + 3 <= |s|
  {
    100 * ((s[at] as int) - '0' as int) + 10 * ((s[at + 1] as int) - '0' as int) + ((s[at + 2] as int) - '0' as int)
  }

  lemma LastThree(n: nat, x: nat)
    requires n >= 3
    ensures var s := Decimal(n, x);
      s[..n - 3] == Decimal(n - 3, x / 1000) &&
      48 <= s[n - 3] < 58 && 48 <= s[n - 2] < 58 && 48 <= s[n - 1] < 58 &&
      Digits(s, n - 3) == x - 1000 * (x / 1000)
  {
    assert x / 10 / 10 / 10 == x / 1000;
    assert Decimal(n, x) == Decimal(n - 1, x / 10) + [48 + x % 10];
    assert Decimal(n - 1, x / 10) == Decimal(n - 2, x / 10 / 10) + [48 + x / 10 % 10];
    assert Decimal(n - 2, x / 10 / 10) == Decimal(n - 3, x / 1000) + [48 + x / 10 / 10 % 10];
  }

  lemma SixDigits(n: nat, x: nat)
    requires n == 6 && x < 1_000_000
    ensures var s := Decimal(n, x);
      (forall i :: 0 <= i < n ==> 48 <= s[i] < 58) && x == 1000 * Digits(s, 0) + Digits(s, 3)
  {
    LastThree(n, x);
    LastThree(n - 3, x / 1000);
    var s := Decimal(n, x);
    forall i | 0 <= i < 3 ensures s[i] == s[..3][i] {}
    assert Digits(s, 0) == Digits(s[..3], 0);
  }

  /** The name of a file below a million: six digits, the highest first, a dot and the extension. */
  lemma NameDigits(x: nat, extension: Bytes)
    requires x < 1_000_000
    ensures var s := FileName(x, extension);
      |s| == 7 + |extension| && (forall i :: 0 <= i < 6 ==> '0' as int <= s[i] <= '9' as int) &&
      s[6] == '.' as int && s[7..] == extension &&
      x == 1000 * Digits(s, 0) + Digits(s, 3)
  {
    PaddingBelowMillion(x);
    SixDigits(6, x);
  }

  /** Below a million the names sort as the numbers do. */
  lemma NamesBelowMillion(a: nat, b: nat, extension: Bytes)
    requires a < 1_000_000 && b < 1_000_000
    ensures Rank(FileName(a, extension)) < Rank(FileName(b, extension)) <==> a < b
  {
    PaddingBelowMillion(a);
    PaddingBelowMillion(b);
    if a < b { FileNameOrder(a, b, extension); }
    if b < a { FileNameOrder(b, a, extension); }
  }

  /** From a million on they do not: file 1000000 sorts before file 999999. */
  lemma NamesAtMillion(extension: Bytes)
    ensures Rank(FileName(1_000_000, extension)) < Rank(FileName(999_999, extension))
  {
    PaddingBelowMillion(999_999);
    var a, b := FileName(999_999, extension), FileName(1_000_000, extension);
    assert Width(1_000_000) == 7;
    FileNameOrder(999_999, 1_000_000, extension);
    assert Shift(1_000_000, 1) == 100_000;
    assert |a| != |b|;
    if Rank(a) == Rank(b) { SameRank(a, b); }
  }
}
