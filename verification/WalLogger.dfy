/** The log with its CRC-32 checksum. */
module WalLoggers {
  import opened ByteStrings
  import opened Octets
  import opened Crc32
  import opened LogFormat
  import EngineSpec

  // ----- the checksum field -----

  /** A 32-bit field, least significant byte first. */
  function Field(c: bv32): (s: Bytes)
    ensures |s| == 4
  {
    [FromBits((c & 0xFF) as bv8), FromBits(((c >> 8) & 0xFF) as bv8),
     FromBits(((c >> 16) & 0xFF) as bv8), FromBits(((c >> 24) & 0xFF) as bv8)]
  }

  function Joined(b0: bv8, b1: bv8, b2: bv8, b3: bv8): bv32 {
    (b0 as bv32) | ((b1 as bv32) << 8) | ((b2 as bv32) << 16) | ((b3 as bv32) << 24)
  }

  lemma JoinedBytes(c: bv32, b0: bv8, b1: bv8, b2: bv8, b3: bv8)
    requires (c & 0xFF) as bv8 == b0 && ((c >> 8) & 0xFF) as bv8 == b1
    requires ((c >> 16) & 0xFF) as bv8 == b2 && ((c >> 24) & 0xFF) as bv8 == b3
    ensures c == Joined(b0, b1, b2, b3)
  {
  }

  lemma FieldInjective(c: bv32, d: bv32)
    requires Field(c) == Field(d)
    ensures c == d
  {
    var s, t := Field(c), Field(d);
    assert s[0] == t[0] && s[1] == t[1] && s[2] == t[2] && s[3] == t[3];
    JoinedBytes(c, ToBits(s[0]), ToBits(s[1]), ToBits(s[2]), ToBits(s[3]));
    JoinedBytes(d, ToBits(t[0]), ToBits(t[1]), ToBits(t[2]), ToBits(t[3]));
  }

  const INITIAL: bv32 := 0xFFFF_FFFF

  function Inverted(c: bv32): bv32 {
    c ^ 0xFFFF_FFFF
  }

  lemma InvertedInjective(c: bv32, d: bv32)
    requires Inverted(c) == Inverted(d)
    ensures c == d
  {
  }

  /** What the checksum covers: the header with its checksum field zeroed, the key, the value. */
  function Checked(r: LogRecord): Bytes {
    [0, 0, 0, 0] + Lengths(r) + Body(r)
  }

  function Checksum(r: LogRecord): bv32 {
    Inverted(Register(INITIAL, Checked(r)))
  }

  // ----- the check value -----

  lemma Eighth(m: bv32, d: bv32)
    requires Bit(Bit(Bit(Bit(Bit(Bit(Bit(Bit(m)))))))) == d
    ensures Bits(m, 8) == d
  {
    Eight(m);
  }

  lemma SameBits(c: bv32, d: bv32, n: nat)
    requires c == d
    ensures Bits(c, n) == Bits(d, n)
  {
  }

  lemma SameRegister(c: bv32, d: bv32, rest: Bytes)
    requires c == d
    ensures Register(c, rest) == Register(d, rest)
  {
  }

  lemma CheckByte(c: bv32, b: byte, v: bv8, m: bv32, d: bv32)
    requires b == v as int && m == MixBits(c, v) && d == Bit(Bit(Bit(Bit(Bit(Bit(Bit(Bit(m))))))))
    ensures Step(c, b) == d
  {
    BitsOf(v);
    Eighth(m, d);
    SameBits(Mix(c, b), m, 8);
  }

  lemma NextByte(c: bv32, data: Bytes, d: bv32)
    requires data != [] && Step(c, data[0]) == d
    ensures Register(c, data) == Register(d, data[1..])
  {
    SameRegister(Step(c, data[0]), d, data[1..]);
  }

  lemma CheckFirst(c: bv32, data: Bytes)
    requires c == 0xFFFF_FFFF && |data| >= 3 && data[0] == 49 && data[1] == 50 && data[2] == 51
    ensures Register(c, data) == Register(0x77B7_9C2D, data[3..])
  {
    CheckByte(c, 49, 49, 0xFFFF_FFCE, 0x7C23_1048);
    CheckByte(0x7C23_1048, 50, 50, 0x7C23_107A, 0xB0AC_BB32);
    CheckByte(0xB0AC_BB32, 51, 51, 0xB0AC_BB01, 0x77B7_9C2D);
    NextByte(c, data, 0x7C23_1048);
    NextByte(0x7C23_1048, data[1..], 0xB0AC_BB32);
    assert data[1..][1..] == data[2..] && data[2..][1..] == data[3..];
    NextByte(0xB0AC_BB32, data[2..], 0x77B7_9C2D);
  }

  lemma CheckSecond(c: bv32, data: Bytes)
    requires c == 0x77B7_9C2D && |data| >= 3 && data[0] == 52 && data[1] == 53 && data[2] == 54
    ensures Register(c, data) == Register(0xF68D_2C9E, data[3..])
  {
    CheckByte(c, 52, 52, 0x77B7_9C19, 0x641C_1F5C);
    CheckByte(0x641C_1F5C, 53, 53, 0x641C_1F69, 0x340A_C5E3);
    CheckByte(0x340A_C5E3, 54, 54, 0x340A_C5D5, 0xF68D_2C9E);
    NextByte(c, data, 0x641C_1F5C);
    NextByte(0x641C_1F5C, data[1..], 0x340A_C5E3);
    assert data[1..][1..] == data[2..] && data[2..][1..] == data[3..];
    NextByte(0x340A_C5E3, data[2..], 0xF68D_2C9E);
  }

  lemma CheckThird(c: bv32, data: Bytes)
    requires c == 0xF68D_2C9E && |data| >= 3 && data[0] == 55 && data[1] == 56 && data[2] == 57
    ensures Register(c, data) == Register(0x340B_C6D9, data[3..])
  {
    CheckByte(c, 55, 55, 0xF68D_2CA9, 0xAFFC_9660);
    CheckByte(0xAFFC_9660, 56, 56, 0xAFFC_9658, 0x651F_2550);
    CheckByte(0x651F_2550, 57, 57, 0x651F_2569, 0x340B_C6D9);
    NextByte(c, data, 0xAFFC_9660);
    NextByte(0xAFFC_9660, data[1..], 0x651F_2550);
    assert data[1..][1..] == data[2..] && data[2..][1..] == data[3..];
    NextByte(0x651F_2550, data[2..], 0x340B_C6D9);
  }

  /** The checksum of the nine digits "123456789", by which implementations of CRC-32 are compared. */
  lemma CheckValue(data: Bytes)
    requires data == [49, 50, 51, 52, 53, 54, 55, 56, 57]
    ensures Inverted(Register(INITIAL, data)) == 0xCBF4_3926
  {
    CheckFirst(INITIAL, data);
    CheckSecond(0x77B7_9C2D, data[3..]);
    CheckThird(0xF68D_2C9E, data[3..][3..]);
    assert data[3..][3..][3..] == [];
  }

  function Stored(r: LogRecord): (s: Bytes)
    ensures |s| == 4
  {
    Field(Checksum(r))
  }

  lemma StoredInjective(r: LogRecord, s: LogRecord)
    requires Stored(r) == Stored(s)
    ensures Register(INITIAL, Checked(r)) == Register(INITIAL, Checked(s))
  {
    FieldInjective(Checksum(r), Checksum(s));
    InvertedInjective(Register(INITIAL, Checked(r)), Register(INITIAL, Checked(s)));
  }

  // ----- the logger -----

  class WalLogger {
    const crc: Crc32Table
    var file: Bytes
    var open: bool

    ghost predicate Valid()
      reads this, crc, crc.entries
    {
      crc.Valid()
    }

    /** Opening for appending keeps what the file holds. */
    constructor (file: Bytes)
      ensures Valid() && fresh(crc) && fresh(crc.entries) && this.file == file && open
    {
      crc := new Crc32Table();
      this.file := file;
      open := true;
    }

    method Close()
      modifies `open
      ensures !open
    {
      open := false;
    }

    /** The checksum is taken piece by piece; empty pieces are skipped. */
    method CalculateChecksum(r: LogRecord) returns (field: Bytes)
      requires Valid()
      modifies crc, crc.entries
      ensures Valid() && field == Stored(r)
    {
      var header := [0, 0, 0, 0] + Lengths(r) + [r.op];
      var c := crc.Compute(header, INITIAL);
      if r.key != [] {
        c := crc.Compute(r.key, c);
      }
      if r.value != [] {
        c := crc.Compute(r.value, c);
      }
      PieceByPiece(r, header);
      field := Field(Inverted(c));
    }

    method Append(r: LogRecord) returns (ok: bool)
      requires Valid()
      modifies this, crc, crc.entries
      ensures Valid() && ok == open == old(open)
      ensures file == if ok then old(file) + Encode(r, Stored) else old(file)
    {
      if !open {
        return false;
      }
      var checksum := CalculateChecksum(r);
      WriteRecord(checksum, r);
      return true;
    }

    method WriteRecord(checksum: Bytes, r: LogRecord)
      modifies `file
      ensures file == old(file) + (checksum + Lengths(r) + Body(r))
    {
      file := file + (checksum + LittleEndian(4, |r.key|) + LittleEndian(4, |r.value|) + [r.op]);
      if r.key != [] {
        file := file + r.key;
      }
      if r.value != [] {
        file := file + r.value;
      }
    }

    method Recover() returns (records: seq<LogRecord>)
      requires Valid()
      modifies crc, crc.entries
      ensures Valid() && records == RecoverFrom(file, Stored)
    {
      records := ReadRecords(Stored);
    }

    method ReadRecords(ghost check: LogRecord -> Bytes) returns (records: seq<LogRecord>)
      requires Valid() && check == Stored
      modifies crc, crc.entries
      ensures Valid() && records == RecoverFrom(file, check)
    {
      records := [];
      var rest := file;
      while rest != []
        invariant Valid() && records + RecoverFrom(rest, check) == RecoverFrom(file, check)
        decreases |rest|
      {
        if |rest| < HEADER_SIZE {
          break;
        }
        var r := ReadRecord(rest, check);
        if r.None? {
          break;
        }
        Reassociate(records, r.value.0, RecoverFrom(r.value.1, check));
        records := records + [r.value.0];
        rest := r.value.1;
      }
    }

    /** One turn of the loop. */
    method ReadRecord(rest: Bytes, ghost check: LogRecord -> Bytes) returns (r: Option<(LogRecord, Bytes)>)
      requires Valid() && check == Stored && |rest| >= HEADER_SIZE
      modifies crc, crc.entries
      ensures Valid() && r == Turn(rest, check)
    {
      var record := ParseRecord(rest);
      var expected := Expected(record, check);
      if rest[..4] != expected {
        return None;
      }
      return Some((record, Drop(rest, HEADER_SIZE + |record.key| + |record.value|)));
    }

    method Expected(r: LogRecord, ghost check: LogRecord -> Bytes) returns (field: Bytes)
      requires Valid() && check == Stored
      modifies crc, crc.entries
      ensures Valid() && field == check(r)
    {
      field := CalculateChecksum(r);
    }
  }

  lemma Reassociate(records: seq<LogRecord>, r: LogRecord, pending: seq<LogRecord>)
    ensures records + ([r] + pending) == (records + [r]) + pending
  {
  }

  lemma PieceByPiece(r: LogRecord, header: Bytes)
    requires header == [0, 0, 0, 0] + Lengths(r) + [r.op]
    ensures Register(Register(Register(INITIAL, header), r.key), r.value) == Register(INITIAL, Checked(r))
    ensures Register(INITIAL, []) == INITIAL
  {
    RegisterConcat(INITIAL, header, r.key);
    RegisterConcat(INITIAL, header + r.key, r.value);
    Regroup(r);
  }

  lemma Regroup(r: LogRecord)
    ensures [0, 0, 0, 0] + Lengths(r) + [r.op] + r.key + r.value == Checked(r)
  {
  }

  // ----- damage -----

  lemma FrontMoved(r: LogRecord, before: Bytes, v: Bytes, after: Bytes)
    requires Body(r) == before + v + after
    ensures Checked(r) == [0, 0, 0, 0] + Lengths(r) + before + v + after
  {
  }

  /** A change of operation, key or value bytes confined to four consecutive bytes changes the checksum. */
  lemma BurstChangesChecksum(r: LogRecord, s: LogRecord, before: Bytes, v: Bytes, w: Bytes, after: Bytes)
    requires Lengths(r) == Lengths(s) && |v| == |w| <= 4 && v != w
    requires Body(r) == before + v + after && Body(s) == before + w + after
    ensures Stored(r) != Stored(s)
  {
    var front := [0, 0, 0, 0] + Lengths(r) + before;
    FrontMoved(r, before, v, after);
    FrontMoved(s, before, w, after);
    BurstDetected(INITIAL, front, v, w, after);
    if Stored(r) == Stored(s) { StoredInjective(r, s); }
  }

  /** A stored record damaged that way is rejected: recovery returns exactly the records before it,
      whatever follows. */
  lemma BurstRejected(records: seq<LogRecord>, r: LogRecord, before: Bytes, v: Bytes, w: Bytes, after: Bytes, tail: Bytes)
    requires AllFit(records) && Fits(r) && |v| == |w| <= 4 && v != w && Body(r) == before + v + after
    ensures RecoverFrom(EncodeAll(records, Stored) + (Stored(r) + Lengths(r) + (before + w + after) + tail), Stored) == records
  {
    var body := before + w + after;
    var s := Damaged(r, body);
    BurstChangesChecksum(r, s, before, v, w, after);
    RejectedRecord(r, s, Stored, tail);
    RecoverAppended(records, Stored, Stored(r) + Lengths(r) + body + tail);
    assert records + [] == records;
  }

  lemma RejectedRecord(r: LogRecord, s: LogRecord, check: LogRecord -> Bytes, tail: Bytes)
    requires FourBytes(check) && Fits(r) && |s.key| == |r.key| && |s.value| == |r.value| && check(r) != check(s)
    ensures RecoverFrom(check(r) + Lengths(r) + Body(s) + tail, check) == []
  {
    var data := check(r) + Lengths(s) + (Body(s) + tail);
    assert check(r) + Lengths(r) + Body(s) + tail == data;
    ParseEncoded(s, check(r), tail);
    assert Turn(data, check) == None;
  }

  /** A log cut within the last four bytes of a record yields that record only if what was lost was zeros. */
  lemma ShortCut(r: LogRecord, n: nat)
    requires Fits(r) && HEADER_SIZE <= n < 12 + |Body(r)| <= n + 4
    ensures RecoverFrom(Encode(r, Stored)[..n], Stored) == if ZeroFilled(r, n) == r then [r] else []
  {
    RecoverTorn(r, Stored, n);
    if ZeroFilled(r, n) != r {
      var before, v, w := TornParts(r, n);
      BurstChangesChecksum(r, ZeroFilled(r, n), before, v, w, []);
    }
  }

  lemma Halves(body: Bytes, m: nat)
    requires m <= |body|
    ensures body == body[..m] + body[m..] + []
  {
  }

  lemma NothingBehind(a: Bytes, b: Bytes)
    ensures a + b == a + b + []
  {
  }

  lemma FilledChecksum(r: LogRecord, n: nat, tail: Bytes)
    requires HEADER_SIZE <= n < 12 + |Body(r)| <= n + 4
    ensures var same := Padded(tail, 12 + |Body(r)| - n) == Body(r)[n - 12..];
      (Stored(Filled(r, n, tail)) == Stored(r) <==> same) && (same ==> Filled(r, n, tail) == r)
  {
    var s, torn, v, w := Filled(r, n, tail), Body(r)[..n - 12], Body(r)[n - 12..], Padded(tail, 12 + |Body(r)| - n);
    Halves(Body(r), n - 12);
    NothingBehind(torn, w);
    if v == w {
      SameBody(s, r);
    } else {
      BurstChangesChecksum(r, s, torn, v, w, []);
    }
  }

  lemma BehindOne(r: LogRecord, n: nat, tail: Bytes)
    requires Fits(r) && HEADER_SIZE <= n < 12 + |Body(r)| <= n + 4
    ensures RecoverFrom(Encode(r, Stored)[..n] + tail, Stored) ==
      if Padded(tail, 12 + |Body(r)| - n) == Body(r)[n - 12..]
      then [r] + RecoverFrom(Drop(tail, 12 + |Body(r)| - n), Stored) else []
  {
    RecoverBehindTorn(r, Stored, n, tail);
    FilledChecksum(r, n, tail);
  }

  /** Records appended behind one that lost at most its last four bytes are read into the gap: unless they
      begin with the very bytes lost, they are lost too. */
  lemma BehindShortCut(records: seq<LogRecord>, r: LogRecord, n: nat, tail: Bytes)
    requires AllFit(records) && Fits(r) && HEADER_SIZE <= n < 12 + |Body(r)| <= n + 4
    ensures RecoverFrom(EncodeAll(records, Stored) + (Encode(r, Stored)[..n] + tail), Stored) == records +
      if Padded(tail, 12 + |Body(r)| - n) == Body(r)[n - 12..]
      then [r] + RecoverFrom(Drop(tail, 12 + |Body(r)| - n), Stored) else []
  {
    RecoverAppended(records, Stored, Encode(r, Stored)[..n] + tail);
    BehindOne(r, n, tail);
  }

  // ----- the engine's log -----

  function ToLog(r: EngineSpec.Record): LogRecord {
    match r
    case PutRecord(key, value) => LogRecord(PUT, key, value)
    case EraseRecord(key) => LogRecord(ERASE, key, [])
  }

  function ToLogs(log: seq<EngineSpec.Record>): (records: seq<LogRecord>)
    ensures |records| == |log|
    ensures forall i :: 0 <= i < |log| ==> records[i] == ToLog(log[i])
  {
    seq(|log|, i requires 0 <= i < |log| => ToLog(log[i]))
  }

  /** What the engine replays of recovered records; operations it does not know are skipped. */
  function Replayed(records: seq<LogRecord>): seq<EngineSpec.Record> {
    if records == [] then []
    else
      (if records[0].op == PUT then [EngineSpec.PutRecord(records[0].key, records[0].value)]
       else if records[0].op == ERASE then [EngineSpec.EraseRecord(records[0].key)]
       else []) + Replayed(records[1..])
  }

  /** What the engine logged is what it replays. */
  lemma {:induction false} LogReplayed(log: seq<EngineSpec.Record>)
    requires AllFit(ToLogs(log))
    ensures Replayed(RecoverFrom(EncodeAll(ToLogs(log), Stored), Stored)) == log
  {
    var records := ToLogs(log);
    assert EncodeAll(records, Stored) + [] == EncodeAll(records, Stored);
    RecoverAppended(records, Stored, []);
    assert records + [] == records;
    ReplayedIs(log);
  }

  lemma {:induction false} ReplayedIs(log: seq<EngineSpec.Record>)
    ensures Replayed(ToLogs(log)) == log
  {
    if log != [] {
      assert ToLogs(log)[1..] == ToLogs(log[1..]);
      ReplayedIs(log[1..]);
    }
  }
}
