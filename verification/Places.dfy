/** Bytes at given places: numbers of four and eight bytes, and parts of longer strings. */
module Places {
  import opened ByteStrings

  /** Four bytes with place values 1, 256, 65536 and 16777216. */
  function Four(s: Bytes, at: nat): nat
    requires at + 4 <= |s|
  {
    s[at] as nat + 256 * (s[at + 1] as nat) + 65536 * (s[at + 2] as nat) + 16777216 * (s[at + 3] as nat)
  }

  /** Eight bytes: the low four, and the high four at place value 4294967296. */
  function Eight(s: Bytes, at: nat): nat
    requires at + 8 <= |s|
  {
    Four(s, at) + 4294967296 * Four(s, at + 4)
  }

  lemma FourIs(s: Bytes)
    requires |s| == 4
    ensures FromLittleEndian(s) == Four(s, 0)
  {
    assert FromLittleEndian(s[1..]) == s[1] + 256 * FromLittleEndian(s[1..][1..]);
    assert s[1..][1..] == s[2..] && s[2..][1..] == s[3..] && s[3..][1..] == [];
    assert FromLittleEndian(s[2..]) == s[2] + 256 * FromLittleEndian(s[3..]);
    assert FromLittleEndian(s[3..]) == s[3] + 256 * FromLittleEndian([]);
  }

  lemma {:induction false} LittleEndianJoin(a: Bytes, b: Bytes)
    ensures FromLittleEndian(a + b) == FromLittleEndian(a) + Pow256(|a|) * FromLittleEndian(b)
  {
    if a == [] {
      assert a + b == b;
    } else {
      assert (a + b)[1..] == a[1..] + b;
      LittleEndianJoin(a[1..], b);
      Distribute(a[0], FromLittleEndian(a[1..]), Pow256(|a| - 1), FromLittleEndian(b));
    }
  }

  lemma Distribute(d: nat, x: nat, p: nat, y: nat)
    ensures d + 256 * (x + p * y) == (d + 256 * x) + (256 * p) * y
  {
  }

  lemma EightIs(s: Bytes)
    requires |s| == 8
    ensures FromLittleEndian(s) == Eight(s, 0)
  {
    assert s == s[..4] + s[4..];
    LittleEndianJoin(s[..4], s[4..]);
    Pow256Values();
    FourIs(s[..4]);
    FourIs(s[4..]);
  }

  lemma FourWritten(x: nat)
    requires x < 0x1_0000_0000
    ensures Four(LittleEndian(4, x), 0) == x
  {
    Pow256Values();
    LittleEndianRoundTrip(4, x);
    FourIs(LittleEndian(4, x));
  }

  lemma EightWritten(x: nat)
    requires x < 0x1_0000_0000_0000_0000
    ensures Eight(LittleEndian(8, x), 0) == x
  {
    Pow256Values();
    LittleEndianRoundTrip(8, x);
    EightIs(LittleEndian(8, x));
  }

  /** `part` stands in `s` at `at`. */
  ghost predicate Stands(s: Bytes, at: nat, part: Bytes) {
    at + |part| <= |s| && s[at..at + |part|] == part
  }

  lemma SliceOfSlice(s: Bytes, at: nat, n: nat, i: nat, m: nat)
    requires at + n <= |s| && i + m <= n
    ensures s[at..at + n][i..i + m] == s[at + i..at + i + m]
  {
    var part := s[at..at + n];
    var a, b := part[i..i + m], s[at + i..at + i + m];
    forall k | 0 <= k < m ensures a[k] == b[k] {
      assert part[i + k] == s[at + (i + k)];
    }
  }

  lemma StandsIn(s: Bytes, at: nat, part: Bytes, i: nat, sub: Bytes)
    requires Stands(s, at, part) && Stands(part, i, sub)
    ensures Stands(s, at + i, sub)
  {
    SliceOfSlice(s, at, |part|, i, |sub|);
  }

  lemma FourAt(s: Bytes, at: nat, part: Bytes)
    requires Stands(s, at, part) && |part| == 4
    ensures Four(s, at) == Four(part, 0)
  {
    var p := s[at..at + 4];
    assert p[0] == s[at] && p[1] == s[at + 1] && p[2] == s[at + 2] && p[3] == s[at + 3];
  }

  lemma EightAt(s: Bytes, at: nat, part: Bytes)
    requires Stands(s, at, part) && |part| == 8
    ensures Eight(s, at) == Eight(part, 0)
  {
    assert Stands(part, 0, part[..4]) && Stands(part, 4, part[4..]);
    StandsIn(s, at, part, 0, part[..4]);
    StandsIn(s, at, part, 4, part[4..]);
    FourAt(s, at, part[..4]);
    FourAt(s, at + 4, part[4..]);
  }

  lemma FourStands(s: Bytes, at: nat, x: nat)
    requires x < 0x1_0000_0000 && Stands(s, at, LittleEndian(4, x))
    ensures at + 4 <= |s| && Four(s, at) == x
  {
    FourAt(s, at, LittleEndian(4, x));
    FourWritten(x);
  }

  lemma EightStands(s: Bytes, at: nat, x: nat)
    requires x < 0x1_0000_0000_0000_0000 && Stands(s, at, LittleEndian(8, x))
    ensures at + 8 <= |s| && Eight(s, at) == x
  {
    EightAt(s, at, LittleEndian(8, x));
    EightWritten(x);
  }

  lemma FourIn(s: Bytes, at: nat)
    requires at + 4 <= |s|
    ensures FromLittleEndian(s[at..at + 4]) == Four(s, at)
  {
    FourIs(s[at..at + 4]);
    FourAt(s, at, s[at..at + 4]);
  }

  lemma EightIn(s: Bytes, at: nat)
    requires at + 8 <= |s|
    ensures FromLittleEndian(s[at..at + 8]) == Eight(s, at)
  {
    EightIs(s[at..at + 8]);
    EightAt(s, at, s[at..at + 8]);
  }

  lemma Pieces(a: Bytes, b: Bytes, c: Bytes, d: Bytes, e: Bytes)
    ensures var s := a + b + c + d + e;
      Stands(s, |a|, b) && Stands(s, |a| + |b|, c) && Stands(s, |a| + |b| + |c|, d) &&
      Stands(s, |a| + |b| + |c| + |d|, e)
  {
    var s := a + b + c + d + e;
    assert s[|a|..|a| + |b|] == b;
    assert s[|a| + |b|..|a| + |b| + |c|] == c;
    assert s[|a| + |b| + |c|..|a| + |b| + |c| + |d|] == d;
    assert s[|a| + |b| + |c| + |d|..] == e;
  }

  lemma PartStands(a: Bytes, b: Bytes, c: Bytes)
    ensures Stands(a + (b + c), |a|, b)
  {
  }

  lemma PrefixStands(s: Bytes, rest: Bytes, at: nat, part: Bytes)
    requires Stands(s, at, part)
    ensures Stands(s + rest, at, part)
  {
    assert (s + rest)[at..at + |part|] == s[at..at + |part|];
  }

  lemma SuffixStands(before: Bytes, s: Bytes, at: nat, part: Bytes)
    requires Stands(s, at, part)
    ensures Stands(before + s, |before| + at, part)
  {
    assert (before + s)[|before| + at..|before| + at + |part|] == s[at..at + |part|];
  }

  lemma MiddleStands(before: Bytes, s: Bytes, after: Bytes, at: nat, part: Bytes)
    requires Stands(s, at, part)
    ensures Stands(before + s + after, |before| + at, part)
  {
    SuffixStands(before, s, at, part);
    PrefixStands(before + s, after, |before| + at, part);
  }

  lemma CutApart<T>(s: seq<T>, j: nat)
    requires j < |s|
    ensures s == s[..j] + s[j..] && s[j..] != [] && s[j..][0] == s[j] && s[j..][1..] == s[j + 1..]
  {
  }
}
