/** The bytes of a log, stated place by place and without the functions that write them. */
module LogLayout {
  import opened ByteStrings
  import opened Octets
  import opened LogFormat
  import opened Places
  import opened WalLoggers
  import Crc32
  import EngineSpec

  /** Key length, value length, operation (1 puts, 2 erases), key, value; erases have no value. */
  ghost predicate RecordAt(s: Bytes, at: nat, r: EngineSpec.Record) {
    var value: Bytes := if r.PutRecord? then r.value else [];
    var n := at + 13 + |r.key| + |value|;
    n <= |s| && Four(s, at + 4) == |r.key| && Four(s, at + 8) == |value| &&
    s[at + 12] == (if r.PutRecord? then 1 else 2) && s[at + 13..at + 13 + |r.key|] == r.key && s[at + 13 + |r.key|..n] == value
  }

  function Size(r: EngineSpec.Record): nat {
    13 + |r.key| + if r.PutRecord? then |r.value| else 0
  }

  function Sizes(log: seq<EngineSpec.Record>): nat {
    if log == [] then 0 else Size(log[0]) + Sizes(log[1..])
  }

  /** Four bytes, lowest first, are the checksum of some data. */
  ghost predicate Checks(b0: byte, b1: byte, b2: byte, b3: byte, data: Bytes) {
    Joined(ToBits(b0), ToBits(b1), ToBits(b2), ToBits(b3)) == Inverted(Crc32.Register(INITIAL, data))
  }

  /** The first four of the `n` bytes from `at` on are the checksum of the others with four zeros in front. */
  ghost predicate CheckedAt(s: Bytes, at: nat, n: nat)
    requires n >= 4 && at + n <= |s|
  {
    Checks(s[at], s[at + 1], s[at + 2], s[at + 3], [0, 0, 0, 0] + s[at + 4..at + n])
  }

  lemma RecordPieces(r: LogRecord)
    requires Fits(r)
    ensures var s := Encode(r, Stored);
      |s| == 13 + |r.key| + |r.value| && Stands(s, 0, Stored(r)) &&
      Stands(s, 4, LittleEndian(4, |r.key|)) && Stands(s, 8, LittleEndian(4, |r.value|)) &&
      s[12] == r.op && Stands(s, 13, r.key) && Stands(s, 13 + |r.key|, r.value)
  {
    var s := Encode(r, Stored);
    Regrouped(Stored(r), LittleEndian(4, |r.key|), LittleEndian(4, |r.value|), [r.op], r.key, r.value);
    Pieces(Stored(r), LittleEndian(4, |r.key|), LittleEndian(4, |r.value|), [r.op], r.key + r.value);
    LastTwo(Stored(r) + LittleEndian(4, |r.key|) + LittleEndian(4, |r.value|) + [r.op], r.key, r.value);
  }

  lemma Regrouped(a: Bytes, b: Bytes, c: Bytes, d: Bytes, e: Bytes, f: Bytes)
    ensures a + (b + c) + (d + e + f) == a + b + c + d + (e + f)
  {
  }

  lemma LastTwo(a: Bytes, b: Bytes, c: Bytes)
    ensures Stands(a + (b + c), |a|, b) && Stands(a + (b + c), |a| + |b|, c)
  {
  }

  lemma EncodedRecordAt(s: Bytes, at: nat, r: EngineSpec.Record)
    requires Fits(ToLog(r)) && Stands(s, at, Encode(ToLog(r), Stored))
    ensures RecordAt(s, at, r)
  {
    var l := ToLog(r);
    var part := Encode(l, Stored);
    RecordPieces(l);
    StandsIn(s, at, part, 4, LittleEndian(4, |l.key|));
    StandsIn(s, at, part, 8, LittleEndian(4, |l.value|));
    StandsIn(s, at, part, 13, l.key);
    StandsIn(s, at, part, 13 + |l.key|, l.value);
    FourStands(s, at + 4, |l.key|);
    FourStands(s, at + 8, |l.value|);
    assert s[at..at + |part|][12] == s[at + 12];
  }

  lemma RestIs(r: LogRecord)
    requires Fits(r)
    ensures Encode(r, Stored)[4..] == Lengths(r) + Body(r) && Encode(r, Stored)[..4] == Stored(r)
    ensures [0, 0, 0, 0] + Encode(r, Stored)[4..] == Checked(r)
  {
    var s := Encode(r, Stored);
    assert s == Stored(r) + (Lengths(r) + Body(r));
    assert s[4..] == Lengths(r) + Body(r) && s[..4] == Stored(r);
    assert [0, 0, 0, 0] + (Lengths(r) + Body(r)) == Checked(r);
  }

  lemma FieldChecks(r: LogRecord)
    ensures var f := Stored(r); Checks(f[0], f[1], f[2], f[3], Checked(r))
  {
    var f, c := Stored(r), Checksum(r);
    JoinedBytes(c, ToBits(f[0]), ToBits(f[1]), ToBits(f[2]), ToBits(f[3]));
  }

  lemma FourSame(s: Bytes, at: nat, f: Bytes)
    requires |f| == 4 && Stands(s, at, f)
    ensures s[at] == f[0] && s[at + 1] == f[1] && s[at + 2] == f[2] && s[at + 3] == f[3]
  {
    var p := s[at..at + 4];
    assert p[0] == s[at] && p[1] == s[at + 1] && p[2] == s[at + 2] && p[3] == s[at + 3];
  }

  lemma RestAt(s: Bytes, at: nat, r: LogRecord)
    requires Fits(r) && Stands(s, at, Encode(r, Stored))
    ensures var n := 13 + |r.key| + |r.value|;
      at + n <= |s| && [0, 0, 0, 0] + s[at + 4..at + n] == Checked(r) && Stands(s, at, Stored(r))
  {
    var part, n := Encode(r, Stored), 13 + |r.key| + |r.value|;
    RecordPieces(r);
    RestIs(r);
    StandsIn(s, at, part, 0, Stored(r));
    SliceOfSlice(s, at, n, 4, n - 4);
    assert part[4..4 + (n - 4)] == part[4..];
  }

  lemma EncodedCheckedAt(s: Bytes, at: nat, r: LogRecord)
    requires Fits(r) && Stands(s, at, Encode(r, Stored))
    ensures var n := 13 + |r.key| + |r.value|; at + n <= |s| && CheckedAt(s, at, n)
  {
    RestAt(s, at, r);
    FieldChecks(r);
    FourSame(s, at, Stored(r));
  }

  lemma LogSplit(records: seq<LogRecord>, i: nat)
    requires i < |records|
    ensures EncodeAll(records, Stored) ==
      EncodeAll(records[..i], Stored) + (Encode(records[i], Stored) + EncodeAll(records[i + 1..], Stored))
  {
    CutApart(records, i);
    EncodeAllConcat(records[..i], records[i..]);
  }

  lemma {:induction false} EncodeAllConcat(a: seq<LogRecord>, b: seq<LogRecord>)
    ensures EncodeAll(a + b, Stored) == EncodeAll(a, Stored) + EncodeAll(b, Stored)
    decreases |a|
  {
    if a == [] {
      assert a + b == b;
    } else {
      assert (a + b)[1..] == a[1..] + b;
      EncodeAllConcat(a[1..], b);
    }
  }

  lemma {:induction false} LogSize(log: seq<EngineSpec.Record>)
    requires AllFit(ToLogs(log))
    ensures |EncodeAll(ToLogs(log), Stored)| == Sizes(log)
  {
    if log != [] {
      assert ToLogs(log)[1..] == ToLogs(log[1..]);
      RecordPieces(ToLogs(log)[0]);
      LogSize(log[1..]);
    }
  }

  lemma RecordStands(log: seq<EngineSpec.Record>, i: nat)
    requires AllFit(ToLogs(log)) && i < |log|
    ensures Stands(EncodeAll(ToLogs(log), Stored), Sizes(log[..i]), Encode(ToLog(log[i]), Stored))
  {
    var records := ToLogs(log);
    LogSplit(records, i);
    assert records[..i] == ToLogs(log[..i]);
    LogSize(log[..i]);
    PartStands(EncodeAll(records[..i], Stored), Encode(records[i], Stored), EncodeAll(records[i + 1..], Stored));
  }

  /** Every record of the engine's log stands right behind the ones before it, and its first four bytes check
      the others. */
  lemma LoggedAt(log: seq<EngineSpec.Record>, i: nat)
    requires AllFit(ToLogs(log)) && i < |log|
    ensures var s, at := EncodeAll(ToLogs(log), Stored), Sizes(log[..i]);
      RecordAt(s, at, log[i]) && CheckedAt(s, at, Size(log[i]))
  {
    RecordStands(log, i);
    assert Fits(ToLogs(log)[i]);
    BothAt(EncodeAll(ToLogs(log), Stored), Sizes(log[..i]), log[i]);
  }

  lemma BothAt(s: Bytes, at: nat, r: EngineSpec.Record)
    requires Fits(ToLog(r)) && Stands(s, at, Encode(ToLog(r), Stored))
    ensures RecordAt(s, at, r) && CheckedAt(s, at, Size(r))
  {
    EncodedRecordAt(s, at, r);
    EncodedCheckedAt(s, at, ToLog(r));
  }
}
