/** The write-ahead log at byte level: what appending writes, and what `Recover` makes of a log that is
    whole, cut short, or damaged.

    Everything that does not depend on the checksum being CRC-32 is stated for any function `check` that
    fills the four-byte checksum field. */
module LogFormat {
  import opened ByteStrings

  const PUT: byte := 1
  const ERASE: byte := 2
  const HEADER_SIZE: nat := 13

  datatype LogRecord = LogRecord(op: byte, key: Bytes, value: Bytes)

  ghost predicate FourBytes(check: LogRecord -> Bytes) {
    forall r :: |check(r)| == 4
  }

  // ----- the format -----

  function Lengths(r: LogRecord): (s: Bytes)
    ensures |s| == 8
  {
    LittleEndian(4, |r.key|) + LittleEndian(4, |r.value|)
  }

  function Body(r: LogRecord): Bytes {
    [r.op] + r.key + r.value
  }

  /** Checksum, key length, value length, operation; key; value. */
  function Encode(r: LogRecord, check: LogRecord -> Bytes): Bytes {
    check(r) + Lengths(r) + Body(r)
  }

  function EncodeAll(records: seq<LogRecord>, check: LogRecord -> Bytes): Bytes {
    if records == [] then [] else Encode(records[0], check) + EncodeAll(records[1..], check)
  }

  ghost predicate Fits(r: LogRecord) {
    |r.key| < 0x1_0000_0000 && |r.value| < 0x1_0000_0000
  }

  ghost predicate AllFit(records: seq<LogRecord>) {
    forall i :: 0 <= i < |records| ==> Fits(records[i])
  }

  // ----- recovery -----

  /** A zero-filled buffer of `n` bytes read over with what there is. */
  function Padded(s: Bytes, n: nat): (t: Bytes)
    ensures |t| == n
  {
    if |s| >= n then s[..n] else s + seq(n - |s|, _ => 0)
  }

  function Drop(s: Bytes, n: nat): Bytes {
    if n >= |s| then [] else s[n..]
  }

  /** The record whose header is at the start of `data`. */
  function ParseRecord(data: Bytes): LogRecord
    requires |data| >= HEADER_SIZE
  {
    var keyLen, valueLen := FromLittleEndian(data[4..8]), FromLittleEndian(data[8..12]);
    LogRecord(data[12], Padded(data[13..], keyLen), Padded(Drop(data, 13 + keyLen), valueLen))
  }

  /** The first record and the bytes behind it, unless the header is partial or the checksum fails. */
  function Turn(data: Bytes, check: LogRecord -> Bytes): (r: Option<(LogRecord, Bytes)>)
    ensures r.Some? ==> |r.value.1| < |data|
  {
    if |data| < HEADER_SIZE then None
    else
      var r := ParseRecord(data);
      if data[..4] != check(r) then None else Some((r, Drop(data, HEADER_SIZE + |r.key| + |r.value|)))
  }

  /** Records up to the first partial header or failed checksum. */
  function RecoverFrom(data: Bytes, check: LogRecord -> Bytes): seq<LogRecord>
    decreases |data|
  {
    var r := Turn(data, check);
    if r.None? then [] else [r.value.0] + RecoverFrom(r.value.1, check)
  }

  lemma FourByteLength(n: nat)
    requires n < 0x1_0000_0000
    ensures FromLittleEndian(LittleEndian(4, n)) == n
  {
    Pow256Values();
    LittleEndianRoundTrip(4, n);
  }

  /** Header fields with any payload behind them. */
  lemma ParsePieces(field: Bytes, r: LogRecord, payload: Bytes)
    requires |field| == 4 && Fits(r) && |payload| >= 1
    ensures var data := field + Lengths(r) + payload;
      |data| >= HEADER_SIZE && data[..4] == field && ParseRecord(data) ==
      LogRecord(payload[0], Padded(payload[1..], |r.key|), Padded(Drop(payload, 1 + |r.key|), |r.value|))
  {
    var data := field + Lengths(r) + payload;
    assert data[4..8] == LittleEndian(4, |r.key|) && data[8..12] == LittleEndian(4, |r.value|);
    FourByteLength(|r.key|);
    FourByteLength(|r.value|);
    assert data[12] == payload[0] && data[13..] == payload[1..];
    assert Drop(data, 13 + |r.key|) == Drop(payload, 1 + |r.key|);
  }

  // ----- whole logs -----

  lemma PaddedWhole(s: Bytes, t: Bytes)
    ensures Padded(s + t, |s|) == s
  {
  }

  lemma ParseEncoded(r: LogRecord, field: Bytes, tail: Bytes)
    requires |field| == 4 && Fits(r)
    ensures var data := field + Lengths(r) + (Body(r) + tail);
      |data| >= HEADER_SIZE && data[..4] == field && ParseRecord(data) == r
  {
    PayloadPieces(r, tail);
    ParsePieces(field, r, Body(r) + tail);
  }

  lemma PayloadPieces(r: LogRecord, tail: Bytes)
    ensures var payload := Body(r) + tail;
      payload[0] == r.op && Padded(payload[1..], |r.key|) == r.key &&
      Padded(Drop(payload, 1 + |r.key|), |r.value|) == r.value
  {
    var payload := Body(r) + tail;
    assert payload[1..] == r.key + (r.value + tail);
    PaddedWhole(r.key, r.value + tail);
    assert Drop(payload, 1 + |r.key|) == r.value + tail;
    PaddedWhole(r.value, tail);
  }

  lemma DropPrefix(a: Bytes, tail: Bytes)
    ensures Drop(a + tail, |a|) == tail
  {
  }

  lemma RecoverOne(r: LogRecord, check: LogRecord -> Bytes, tail: Bytes)
    requires FourBytes(check) && Fits(r)
    ensures RecoverFrom(Encode(r, check) + tail, check) == [r] + RecoverFrom(tail, check)
  {
    var data := check(r) + Lengths(r) + (Body(r) + tail);
    assert Encode(r, check) + tail == data;
    ParseEncoded(r, check(r), tail);
    DropPrefix(Encode(r, check), tail);
    assert Turn(data, check) == Some((r, tail));
  }

  /** Recovery of appended records followed by anything is those records and the recovery of the rest. */
  lemma {:induction false} RecoverAppended(records: seq<LogRecord>, check: LogRecord -> Bytes, tail: Bytes)
    requires FourBytes(check) && AllFit(records)
    ensures RecoverFrom(EncodeAll(records, check) + tail, check) == records + RecoverFrom(tail, check)
    decreases |records|
  {
    if records == [] {
      assert EncodeAll(records, check) + tail == tail;
    } else {
      var rest := EncodeAll(records[1..], check) + tail;
      assert EncodeAll(records, check) + tail == Encode(records[0], check) + rest;
      RecoverOne(records[0], check, rest);
      RecoverAppended(records[1..], check, tail);
      Cons(records, RecoverFrom(tail, check));
    }
  }

  lemma Cons(a: seq<LogRecord>, b: seq<LogRecord>)
    requires a != []
    ensures [a[0]] + (a[1..] + b) == a + b
  {
  }

  // ----- cut logs -----

  /** How many records lie wholly within the first `n` bytes. */
  function Whole(records: seq<LogRecord>, check: LogRecord -> Bytes, n: nat): (k: nat)
    ensures k <= |records|
  {
    if records == [] || n < |Encode(records[0], check)| then 0
    else 1 + Whole(records[1..], check, n - |Encode(records[0], check)|)
  }

  /** What is left of the record the cut went through. */
  function Torn(records: seq<LogRecord>, check: LogRecord -> Bytes, n: nat): (torn: Bytes)
    ensures var k := Whole(records, check, n); k < |records| ==> torn <= Encode(records[k], check)
  {
    if records == [] then []
    else if n < |Encode(records[0], check)| then Encode(records[0], check)[..n]
    else Torn(records[1..], check, n - |Encode(records[0], check)|)
  }

  lemma {:induction false} CutSplits(records: seq<LogRecord>, check: LogRecord -> Bytes, n: nat)
    requires n <= |EncodeAll(records, check)|
    ensures EncodeAll(records, check)[..n] ==
      EncodeAll(records[..Whole(records, check, n)], check) + Torn(records, check, n)
    ensures Whole(records, check, n) == |records| ==> Torn(records, check, n) == []
    decreases |records|
  {
    if records != [] {
      var head, tail, k := Encode(records[0], check), EncodeAll(records[1..], check), Whole(records, check, n);
      if n < |head| {
        assert (head + tail)[..n] == head[..n];
      } else {
        CutSplits(records[1..], check, n - |head|);
        var before, torn := EncodeAll(records[1..][..k - 1], check), Torn(records, check, n);
        assert (head + tail)[..n] == head + (before + torn);
        assert records[..k][0] == records[0] && records[..k][1..] == records[1..][..k - 1];
        assert EncodeAll(records[..k], check) == head + before;
      }
    }
  }

  /** The torn record with its missing bytes read as zeros. */
  function ZeroFilled(r: LogRecord, n: nat): LogRecord
    requires n >= HEADER_SIZE
  {
    var payload := n - HEADER_SIZE;
    LogRecord(r.op, Padded(if payload < |r.key| then r.key[..payload] else r.key, |r.key|),
              Padded(if payload < |r.key| then [] else if payload - |r.key| < |r.value| then r.value[..payload - |r.key|] else r.value, |r.value|))
  }

  /** A torn record is recovered exactly if its header survived and the zero-filled record passes the
      stored checksum; nothing follows it. */
  lemma RecoverTorn(r: LogRecord, check: LogRecord -> Bytes, n: nat)
    requires FourBytes(check) && Fits(r) && n < |Encode(r, check)|
    ensures RecoverFrom(Encode(r, check)[..n], check) ==
      if n >= HEADER_SIZE && check(ZeroFilled(r, n)) == check(r) then [ZeroFilled(r, n)] else []
  {
    if n >= HEADER_SIZE {
      TornTurn(r, check(r), n);
      assert check(r) + Lengths(r) + Body(r)[..n - 12] == Encode(r, check)[..n];
      assert RecoverFrom([], check) == [];
    }
  }

  lemma TornTurn(r: LogRecord, field: Bytes, n: nat)
    requires |field| == 4 && Fits(r) && HEADER_SIZE <= n < 12 + |Body(r)|
    ensures var torn := field + Lengths(r) + Body(r)[..n - 12];
      |torn| == n && torn[..4] == field && ParseRecord(torn) == ZeroFilled(r, n) &&
      Drop(torn, HEADER_SIZE + |r.key| + |r.value|) == []
  {
    ParsePieces(field, r, Body(r)[..n - 12]);
    TornPayload(r, n - 12);
  }

  lemma TornPayload(r: LogRecord, m: nat)
    requires 1 <= m < |Body(r)|
    ensures Body(r)[..m][0] == r.op
    ensures Padded(Body(r)[..m][1..], |r.key|) == ZeroFilled(r, 12 + m).key
    ensures Padded(Drop(Body(r)[..m], 1 + |r.key|), |r.value|) == ZeroFilled(r, 12 + m).value
  {
    var s := Body(r)[..m][1..];
    assert s == (r.key + r.value)[..m - 1];
    if m - 1 < |r.key| {
      assert s == r.key[..m - 1];
    } else {
      assert s == r.key + r.value[..m - 1 - |r.key|];
      assert Drop(Body(r)[..m], 1 + |r.key|) == r.value[..m - 1 - |r.key|];
    }
  }

  /** Of a log cut at any byte, recovery returns every record wholly before the cut and at most one
      more: the torn record, zero-filled, if its header survived and it passes its checksum. */
  lemma RecoverCut(records: seq<LogRecord>, check: LogRecord -> Bytes, n: nat)
    requires FourBytes(check) && AllFit(records) && n <= |EncodeAll(records, check)|
    ensures var k, torn := Whole(records, check, n), |Torn(records, check, n)|;
      RecoverFrom(EncodeAll(records, check)[..n], check) == records[..k] +
        if k < |records| && torn >= HEADER_SIZE && check(ZeroFilled(records[k], torn)) == check(records[k])
        then [ZeroFilled(records[k], torn)] else []
  {
    var k, torn := Whole(records, check, n), Torn(records, check, n);
    CutSplits(records, check, n);
    RecoverAppended(records[..k], check, torn);
    RecoverRest(records, check, n, k, torn);
  }

  lemma RecoverRest(records: seq<LogRecord>, check: LogRecord -> Bytes, n: nat, k: nat, torn: Bytes)
    requires FourBytes(check) && AllFit(records) && n <= |EncodeAll(records, check)|
    requires k == Whole(records, check, n) && torn == Torn(records, check, n)
    ensures RecoverFrom(torn, check) ==
      if k < |records| && |torn| >= HEADER_SIZE && check(ZeroFilled(records[k], |torn|)) == check(records[k])
      then [ZeroFilled(records[k], |torn|)] else []
  {
    if k < |records| {
      TornIsShort(records, check, n);
      RecoverTorn(records[k], check, |torn|);
      assert torn == Encode(records[k], check)[..|torn|];
    } else {
      CutSplits(records, check, n);
    }
  }

  lemma {:induction false} TornIsShort(records: seq<LogRecord>, check: LogRecord -> Bytes, n: nat)
    requires Whole(records, check, n) < |records|
    ensures |Torn(records, check, n)| < |Encode(records[Whole(records, check, n)], check)|
    decreases |records|
  {
    if n >= |Encode(records[0], check)| {
      TornIsShort(records[1..], check, n - |Encode(records[0], check)|);
    }
  }

  /** A torn record and its zero-filled reading differ only in the bytes that were lost. */
  lemma TornParts(r: LogRecord, n: nat) returns (before: Bytes, v: Bytes, w: Bytes)
    requires HEADER_SIZE <= n < 12 + |Body(r)| && ZeroFilled(r, n) != r
    ensures Lengths(ZeroFilled(r, n)) == Lengths(r)
    ensures Body(r) == before + v + [] && Body(ZeroFilled(r, n)) == before + w + []
    ensures |v| == |w| == 12 + |Body(r)| - n && v != w
  {
    var z, m := ZeroFilled(r, n), n - 12;
    before, v, w := Body(r)[..m], Body(r)[m..], Body(z)[m..];
    SamePrefix(r, n);
    assert Body(z) == before + w;
    if v == w { SameBody(r, z); }
  }

  lemma SamePrefix(r: LogRecord, n: nat)
    requires HEADER_SIZE <= n <= 12 + |Body(r)|
    ensures |Body(ZeroFilled(r, n))| == |Body(r)| && Body(ZeroFilled(r, n))[..n - 12] == Body(r)[..n - 12]
    ensures Lengths(ZeroFilled(r, n)) == Lengths(r)
  {
  }

  lemma SameBody(r: LogRecord, s: LogRecord)
    requires Body(r) == Body(s) && |r.key| == |s.key|
    ensures r == s
  {
    assert Body(r)[0] == r.op && Body(s)[0] == s.op;
    assert Body(r)[1..1 + |r.key|] == r.key && Body(s)[1..1 + |s.key|] == s.key;
    assert Body(r)[1 + |r.key|..] == r.value && Body(s)[1 + |s.key|..] == s.value;
  }

  // ----- appending behind a torn record -----

  /** The record with other bytes where its operation, key and value were. */
  function Damaged(r: LogRecord, body: Bytes): (s: LogRecord)
    requires |body| == |Body(r)|
    ensures Body(s) == body && |s.key| == |r.key| && |s.value| == |r.value|
  {
    LogRecord(body[0], body[1..1 + |r.key|], body[1 + |r.key|..])
  }

  /** The torn record with the bytes behind it, and zeros if they run out, where the lost ones were. */
  function Filled(r: LogRecord, n: nat, tail: Bytes): (s: LogRecord)
    requires HEADER_SIZE <= n < 12 + |Body(r)|
    ensures Body(s) == Body(r)[..n - 12] + Padded(tail, 12 + |Body(r)| - n)
    ensures |s.key| == |r.key| && |s.value| == |r.value|
  {
    Damaged(r, Body(r)[..n - 12] + Padded(tail, 12 + |Body(r)| - n))
  }

  lemma GapSplit(torn: Bytes, tail: Bytes, gap: nat)
    requires gap <= |tail|
    ensures torn + tail == (torn + Padded(tail, gap)) + tail[gap..]
  {
  }

  lemma GapFull(r: LogRecord, field: Bytes, n: nat, tail: Bytes)
    requires |field| == 4 && Fits(r) && HEADER_SIZE <= n < 12 + |Body(r)| <= n + |tail|
    ensures var data := field + Lengths(r) + (Body(r)[..n - 12] + tail);
      |data| >= HEADER_SIZE && data[..4] == field && ParseRecord(data) == Filled(r, n, tail)
  {
    var gap, s := 12 + |Body(r)| - n, Filled(r, n, tail);
    GapSplit(Body(r)[..n - 12], tail, gap);
    ParseEncoded(s, field, tail[gap..]);
  }

  lemma ShortTail(torn: Bytes, tail: Bytes, gap: nat)
    requires |tail| < gap
    ensures (torn + Padded(tail, gap))[..|torn| + |tail|] == torn + tail
  {
  }

  lemma TornReadAs(s: LogRecord, field: Bytes, m: nat, data: Bytes)
    requires |field| == 4 && Fits(s) && HEADER_SIZE <= m < 12 + |Body(s)| && ZeroFilled(s, m) == s
    requires data == field + Lengths(s) + Body(s)[..m - 12]
    ensures |data| >= HEADER_SIZE && data[..4] == field && ParseRecord(data) == s
  {
    TornTurn(s, field, m);
  }

  lemma GapLeft(r: LogRecord, field: Bytes, n: nat, tail: Bytes)
    requires |field| == 4 && Fits(r) && HEADER_SIZE <= n && n + |tail| < 12 + |Body(r)|
    ensures var data := field + Lengths(r) + (Body(r)[..n - 12] + tail);
      |data| >= HEADER_SIZE && data[..4] == field && ParseRecord(data) == Filled(r, n, tail)
  {
    ShortTail(Body(r)[..n - 12], tail, 12 + |Body(r)| - n);
    ZerosLost(r, n, tail);
    TornReadAs(Filled(r, n, tail), field, n + |tail|, field + Lengths(r) + (Body(r)[..n - 12] + tail));
  }

  lemma DropBehind(head: Bytes, torn: Bytes, tail: Bytes, gap: nat)
    ensures Drop(head + (torn + tail), |head| + |torn| + gap) == Drop(tail, gap)
  {
  }

  lemma ZerosLost(r: LogRecord, n: nat, tail: Bytes)
    requires HEADER_SIZE <= n && n + |tail| < 12 + |Body(r)|
    ensures ZeroFilled(Filled(r, n, tail), n + |tail|) == Filled(r, n, tail)
  {
    var s, m := Filled(r, n, tail), n + |tail|;
    SamePrefix(s, m);
    ZerosBehind(s, m);
    assert Body(ZeroFilled(s, m)) == Body(s);
    SameBody(ZeroFilled(s, m), s);
  }

  lemma ZerosBehind(s: LogRecord, m: nat)
    requires HEADER_SIZE <= m < 12 + |Body(s)| && forall i :: m - 12 <= i < |Body(s)| ==> Body(s)[i] == 0
    ensures |Body(ZeroFilled(s, m))| == |Body(s)|
    ensures forall i :: m - 12 <= i < |Body(s)| ==> Body(ZeroFilled(s, m))[i] == 0
  {
  }

  lemma FilledTurn(r: LogRecord, field: Bytes, n: nat, tail: Bytes, data: Bytes)
    requires |field| == 4 && Fits(r) && HEADER_SIZE <= n < 12 + |Body(r)|
    requires data == field + Lengths(r) + (Body(r)[..n - 12] + tail)
    ensures |data| >= HEADER_SIZE && data[..4] == field && ParseRecord(data) == Filled(r, n, tail)
    ensures Drop(data, HEADER_SIZE + |r.key| + |r.value|) == Drop(tail, 12 + |Body(r)| - n)
  {
    var gap := 12 + |Body(r)| - n;
    if |tail| >= gap { GapFull(r, field, n, tail); } else { GapLeft(r, field, n, tail); }
    DropBehind(field + Lengths(r), Body(r)[..n - 12], tail, gap);
  }

  lemma RecoverFilled(r: LogRecord, check: LogRecord -> Bytes, field: Bytes, n: nat, tail: Bytes, data: Bytes)
    requires |field| == 4 && Fits(r) && HEADER_SIZE <= n < 12 + |Body(r)|
    requires data == field + Lengths(r) + (Body(r)[..n - 12] + tail)
    ensures RecoverFrom(data, check) ==
      if check(Filled(r, n, tail)) == field
      then [Filled(r, n, tail)] + RecoverFrom(Drop(tail, 12 + |Body(r)| - n), check) else []
  {
    FilledTurn(r, field, n, tail, data);
    TurnDecides(data, check, field, Filled(r, n, tail), Drop(tail, 12 + |Body(r)| - n));
  }

  /** Bytes appended behind a torn record whose header survived are read into its gap.  It is recovered
      exactly if it then passes the stored checksum, and only then is anything behind it. */
  lemma RecoverBehindTorn(r: LogRecord, check: LogRecord -> Bytes, n: nat, tail: Bytes)
    requires FourBytes(check) && Fits(r) && HEADER_SIZE <= n < |Encode(r, check)|
    ensures var s := Filled(r, n, tail);
      RecoverFrom(Encode(r, check)[..n] + tail, check) ==
      if check(s) == check(r) then [s] + RecoverFrom(Drop(tail, 12 + |Body(r)| - n), check) else []
  {
    TornJoined(check(r) + Lengths(r), Body(r), n - 12, tail);
    RecoverFilled(r, check, check(r), n, tail, Encode(r, check)[..n] + tail);
  }

  lemma TurnIs(data: Bytes, check: LogRecord -> Bytes, s: LogRecord, rest: Bytes)
    requires |data| >= HEADER_SIZE && ParseRecord(data) == s
    requires Drop(data, HEADER_SIZE + |s.key| + |s.value|) == rest
    ensures Turn(data, check) == if data[..4] == check(s) then Some((s, rest)) else None
  {
  }

  lemma RecoverTurn(data: Bytes, check: LogRecord -> Bytes, r: Option<(LogRecord, Bytes)>)
    requires Turn(data, check) == r
    ensures RecoverFrom(data, check) == if r.Some? then [r.value.0] + RecoverFrom(r.value.1, check) else []
  {
  }

  lemma TurnDecides(data: Bytes, check: LogRecord -> Bytes, field: Bytes, s: LogRecord, rest: Bytes)
    requires |data| >= HEADER_SIZE && data[..4] == field && ParseRecord(data) == s
    requires Drop(data, HEADER_SIZE + |s.key| + |s.value|) == rest
    ensures RecoverFrom(data, check) == if check(s) == field then [s] + RecoverFrom(rest, check) else []
  {
    TurnIs(data, check, s, rest);
    if check(s) == field {
      RecoverTurn(data, check, Some((s, rest)));
    } else {
      RecoverTurn(data, check, None);
    }
  }

  lemma TornJoined(head: Bytes, body: Bytes, m: nat, tail: Bytes)
    requires m <= |body|
    ensures (head + body)[..|head| + m] + tail == head + (body[..m] + tail)
  {
  }
}
