/** The bytes of a table file, stated place by place and without the functions that write them. */
module TableLayout {
  import opened ByteStrings
  import opened Entries
  import opened TableRows
  import opened TableFormat
  import opened Places

  // ----- rows -----

  function RowSize(row: Row): nat {
    9 + |row.0| + |row.1.value|
  }

  function RowsSize(rows: seq<Row>): nat {
    if rows == [] then 0 else RowSize(rows[0]) + RowsSize(rows[1..])
  }

  /** One byte that tells values (1) from tombstones (0), the length of the key, the length of the value, the
      key, the value. */
  ghost predicate RowAt(s: Bytes, at: nat, row: Row) {
    at + RowSize(row) <= |s| &&
    s[at] == (if row.1.kind.Value? then 1 else 0) &&
    Four(s, at + 1) == |row.0| && Four(s, at + 5) == |row.1.value| &&
    s[at + 9..at + 9 + |row.0|] == row.0 &&
    s[at + 9 + |row.0|..at + 9 + |row.0| + |row.1.value|] == row.1.value
  }

  lemma RowPieces(row: Row)
    requires Fits(row)
    ensures var s := EncodeRow(row);
      |s| == RowSize(row) && s[0] == (if row.1.kind.Value? then 1 else 0) &&
      Stands(s, 1, LittleEndian(4, |row.0|)) && Stands(s, 5, LittleEndian(4, |row.1.value|)) &&
      Stands(s, 9, row.0) && Stands(s, 9 + |row.0|, row.1.value)
  {
    assert row.1.value[..|row.1.value|] == row.1.value;
    Pieces([KindByte(row.1.kind)], LittleEndian(4, |row.0|), LittleEndian(4, |row.1.value|), row.0, row.1.value);
  }

  lemma EncodedRowAt(s: Bytes, at: nat, row: Row)
    requires Fits(row) && Stands(s, at, EncodeRow(row))
    ensures RowAt(s, at, row)
  {
    var part, keyLen, valueLen := EncodeRow(row), LittleEndian(4, |row.0|), LittleEndian(4, |row.1.value|);
    RowPieces(row);
    assert s[at] == s[at..at + |part|][0];
    StandsIn(s, at, part, 1, keyLen);
    StandsIn(s, at, part, 5, valueLen);
    StandsIn(s, at, part, 9, row.0);
    StandsIn(s, at, part, 9 + |row.0|, row.1.value);
    FourStands(s, at + 1, |row.0|);
    FourStands(s, at + 5, |row.1.value|);
  }

  // ----- whole files -----

  lemma {:induction false} EncodedSize(rows: seq<Row>)
    requires AllFit(rows)
    ensures |EncodeRows(rows)| == RowsSize(rows)
  {
    if rows != [] {
      RowPieces(rows[0]);
      EncodedSize(rows[1..]);
    }
  }

  lemma {:induction false} BlocksJoin(blocks: seq<seq<Row>>)
    ensures EncodeBlocks(blocks) == EncodeRows(Flat(blocks))
  {
    if blocks != [] {
      BlocksJoin(blocks[1..]);
      EncodeRowsConcat(blocks[0], Flat(blocks[1..]));
    }
  }

  lemma RowStands(rows: seq<Row>, j: nat)
    requires j < |rows| && AllFit(rows)
    ensures Stands(EncodeRows(rows), RowsSize(rows[..j]), EncodeRow(rows[j]))
  {
    RowsSplit(rows, j);
    EncodedSize(rows[..j]);
    PartStands(EncodeRows(rows[..j]), EncodeRow(rows[j]), EncodeRows(rows[j + 1..]));
  }

  lemma RowsSplit(rows: seq<Row>, j: nat)
    requires j < |rows|
    ensures EncodeRows(rows) == EncodeRows(rows[..j]) + (EncodeRow(rows[j]) + EncodeRows(rows[j + 1..]))
  {
    CutApart(rows, j);
    EncodeRowsConcat(rows[..j], rows[j..]);
  }

  lemma DataStands(rows: seq<Row>, blockSize: nat, j: nat)
    requires j < |rows| && AllFit(rows)
    ensures Stands(TableFile(Blocks(rows, blockSize)), RowsSize(rows[..j]), EncodeRow(rows[j]))
  {
    var blocks := Blocks(rows, blockSize);
    var data, index := EncodeBlocks(blocks), EncodeIndex(IndexOf(blocks));
    SplitFlat(rows, blockSize);
    BlocksJoin(blocks);
    RowStands(rows, j);
    PrefixStands(data, index, RowsSize(rows[..j]), EncodeRow(rows[j]));
    PrefixStands(data + index, EncodeFooter(|data|, |index|), RowsSize(rows[..j]), EncodeRow(rows[j]));
  }

  /** In a finished file every row stands, byte by byte, right behind the rows before it. */
  lemma FileRowAt(rows: seq<Row>, blockSize: nat, j: nat)
    requires j < |rows| && AllFit(rows)
    ensures RowAt(TableFile(Blocks(rows, blockSize)), RowsSize(rows[..j]), rows[j])
  {
    DataStands(rows, blockSize, j);
    EncodedRowAt(TableFile(Blocks(rows, blockSize)), RowsSize(rows[..j]), rows[j]);
  }

  // ----- blocks -----

  /** Every block ends with the row that makes it reach the block size; the last one may not reach it. */
  ghost predicate CutAt(blocks: seq<seq<Row>>, blockSize: nat) {
    forall i :: 0 <= i < |blocks| ==>
      blocks[i] != [] && (i < |blocks| - 1 ==> RowsSize(blocks[i]) >= blockSize) && Unfilled(blocks[i], blockSize)
  }

  /** Without its last row the block is below the block size. */
  ghost predicate Unfilled(block: seq<Row>, blockSize: nat)
    requires block != []
  {
    |block| == 1 || RowsSize(block[..|block| - 1]) < blockSize
  }

  ghost predicate Pending(pending: seq<Row>, blockSize: nat) {
    pending == [] || RowsSize(pending) < blockSize
  }

  ghost predicate Full(blocks: seq<seq<Row>>, blockSize: nat) {
    forall i :: 0 <= i < |blocks| ==> blocks[i] != [] && RowsSize(blocks[i]) >= blockSize && Unfilled(blocks[i], blockSize)
  }

  lemma LastUnfilled(pending: seq<Row>, row: Row, blockSize: nat)
    requires Pending(pending, blockSize)
    ensures Unfilled(pending + [row], blockSize)
  {
    assert (pending + [row])[..|pending|] == pending;
  }

  lemma {:induction false} SplitCuts(rows: seq<Row>, blockSize: nat)
    requires AllFit(rows)
    ensures Full(Split(rows, blockSize).0, blockSize) && Pending(Split(rows, blockSize).1, blockSize)
    ensures Split(rows, blockSize).1 != [] ==> Unfilled(Split(rows, blockSize).1, blockSize)
    ensures AllFit(Split(rows, blockSize).1)
  {
    if rows != [] {
      var n := |rows| - 1;
      SplitCuts(rows[..n], blockSize);
      var before := Split(rows[..n], blockSize);
      LastUnfilled(before.1, rows[n], blockSize);
      EncodedSize(before.1 + [rows[n]]);
    }
  }

  lemma BlocksCut(rows: seq<Row>, blockSize: nat)
    requires AllFit(rows)
    ensures CutAt(Blocks(rows, blockSize), blockSize)
  {
    SplitCuts(rows, blockSize);
  }

  // ----- index and footer -----

  function EntrySize(block: seq<Row>): nat
    requires block != []
  {
    20 + |block[|block| - 1].0|
  }

  function IndexSize(blocks: seq<seq<Row>>): nat
    requires NoEmptyBlock(blocks)
  {
    if blocks == [] then 0 else EntrySize(blocks[0]) + IndexSize(blocks[1..])
  }

  /** The length of the key, the key, the offset of the block, its size. */
  ghost predicate EntryAt(s: Bytes, at: nat, key: Bytes, offset: nat, size: nat) {
    at + 20 + |key| <= |s| && Four(s, at) == |key| && s[at + 4..at + 4 + |key|] == key &&
    Eight(s, at + 4 + |key|) == offset && Eight(s, at + 12 + |key|) == size
  }

  lemma EntryPieces(e: IndexEntry)
    requires EntryFits(e)
    ensures var s, n := EncodeEntry(e), |e.maxKey|;
      |s| == 20 + n && Stands(s, 0, LittleEndian(4, n)) && Stands(s, 4, e.maxKey) &&
      Stands(s, 4 + n, LittleEndian(8, e.offset)) && Stands(s, 12 + n, LittleEndian(8, e.size))
  {
    assert e.maxKey[..|e.maxKey|] == e.maxKey;
  }

  lemma EntryKeyAt(s: Bytes, at: nat, e: IndexEntry)
    requires EntryFits(e) && Stands(s, at, EncodeEntry(e))
    ensures at + 20 + |e.maxKey| <= |s| && Four(s, at) == |e.maxKey| && s[at + 4..at + 4 + |e.maxKey|] == e.maxKey
  {
    var part, n := EncodeEntry(e), |e.maxKey|;
    EntryPieces(e);
    StandsIn(s, at, part, 0, LittleEndian(4, n));
    StandsIn(s, at, part, 4, e.maxKey);
    FourStands(s, at, n);
  }

  lemma EntryNumbersAt(s: Bytes, at: nat, e: IndexEntry)
    requires EntryFits(e) && Stands(s, at, EncodeEntry(e))
    ensures var n := |e.maxKey|;
      at + 20 + n <= |s| && Eight(s, at + 4 + n) == e.offset && Eight(s, at + 12 + n) == e.size
  {
    var part, n := EncodeEntry(e), |e.maxKey|;
    EntryPieces(e);
    StandsIn(s, at, part, 4 + n, LittleEndian(8, e.offset));
    StandsIn(s, at, part, 12 + n, LittleEndian(8, e.size));
    EightStands(s, at + 4 + n, e.offset);
    EightStands(s, at + 12 + n, e.size);
  }

  lemma EncodedEntryAt(s: Bytes, at: nat, e: IndexEntry)
    requires EntryFits(e) && Stands(s, at, EncodeEntry(e))
    ensures EntryAt(s, at, e.maxKey, e.offset, e.size)
  {
    EntryKeyAt(s, at, e);
    EntryNumbersAt(s, at, e);
  }

  /** Keys as long as the entries say. */
  ghost predicate KeysAre(index: seq<IndexEntry>, blocks: seq<seq<Row>>)
    requires NoEmptyBlock(blocks)
  {
    |index| == |blocks| && forall i :: 0 <= i < |index| ==> index[i].maxKey == blocks[i][|blocks[i]| - 1].0
  }

  lemma {:induction false} IndexLength(index: seq<IndexEntry>, blocks: seq<seq<Row>>)
    requires NoEmptyBlock(blocks) && IndexFits(index) && KeysAre(index, blocks)
    ensures |EncodeIndex(index)| == IndexSize(blocks)
  {
    if index != [] {
      EntryPieces(index[0]);
      IndexLength(index[1..], blocks[1..]);
    }
  }

  lemma PrefixLength(index: seq<IndexEntry>, blocks: seq<seq<Row>>, i: nat)
    requires NoEmptyBlock(blocks) && IndexFits(index) && KeysAre(index, blocks) && i < |index|
    ensures |EncodeIndex(index[..i])| == IndexSize(blocks[..i])
  {
    IndexLength(index[..i], blocks[..i]);
  }

  lemma IndexSplit(index: seq<IndexEntry>, i: nat)
    requires i < |index|
    ensures EncodeIndex(index) == EncodeIndex(index[..i]) + (EncodeEntry(index[i]) + EncodeIndex(index[i + 1..]))
  {
    CutApart(index, i);
    EncodeIndexConcat(index[..i], index[i..]);
  }

  lemma EntryStands(index: seq<IndexEntry>, blocks: seq<seq<Row>>, i: nat)
    requires NoEmptyBlock(blocks) && IndexFits(index) && KeysAre(index, blocks) && i < |index|
    ensures Stands(EncodeIndex(index), IndexSize(blocks[..i]), EncodeEntry(index[i]))
  {
    IndexSplit(index, i);
    PrefixLength(index, blocks, i);
    PartStands(EncodeIndex(index[..i]), EncodeEntry(index[i]), EncodeIndex(index[i + 1..]));
  }

  lemma {:induction false} FlatSizes(blocks: seq<seq<Row>>)
    requires AllFit(Flat(blocks))
    ensures |EncodeBlocks(blocks)| == RowsSize(Flat(blocks))
  {
    BlocksJoin(blocks);
    EncodedSize(Flat(blocks));
  }

  lemma PartsFit(a: seq<Row>, b: seq<Row>, c: seq<Row>)
    requires AllFit(a + (b + c))
    ensures AllFit(a) && AllFit(b)
  {
    var all := a + (b + c);
    assert forall j :: 0 <= j < |a| ==> a[j] == all[j];
    assert forall j :: 0 <= j < |b| ==> b[j] == all[|a| + j];
  }

  lemma PrefixFits(blocks: seq<seq<Row>>, i: nat)
    requires i < |blocks| && AllFit(Flat(blocks))
    ensures AllFit(Flat(blocks[..i])) && AllFit(blocks[i])
  {
    CutApart(blocks, i);
    FlatConcat(blocks[..i], blocks[i..]);
    PartsFit(Flat(blocks[..i]), blocks[i], Flat(blocks[i..][1..]));
  }

  lemma AllBlocksFit(blocks: seq<seq<Row>>)
    requires AllFit(Flat(blocks))
    ensures forall i :: 0 <= i < |blocks| ==> AllFit(blocks[i])
  {
    forall i | 0 <= i < |blocks| ensures AllFit(blocks[i]) { PrefixFits(blocks, i); }
  }

  lemma EntryIs(blocks: seq<seq<Row>>, i: nat)
    requires NoEmptyBlock(blocks) && AllFit(Flat(blocks)) && i < |blocks|
    ensures IndexOf(blocks)[i] ==
      IndexEntry(blocks[i][|blocks[i]| - 1].0, RowsSize(Flat(blocks[..i])), RowsSize(blocks[i]))
  {
    PrefixFits(blocks, i);
    FlatSizes(blocks[..i]);
    EncodedSize(blocks[i]);
  }

  lemma BlocksKnown(rows: seq<Row>, blockSize: nat)
    requires AllFit(rows) && |TableFile(Blocks(rows, blockSize))| < 0x1_0000_0000_0000_0000
    ensures var blocks := Blocks(rows, blockSize);
      Flat(blocks) == rows && |EncodeBlocks(blocks)| == RowsSize(rows) && IndexFits(IndexOf(blocks)) &&
      KeysAre(IndexOf(blocks), blocks)
  {
    var blocks := Blocks(rows, blockSize);
    SplitFlat(rows, blockSize);
    FlatSizes(blocks);
    AllBlocksFit(blocks);
    IndexOfFits(blocks);
  }

  lemma FileEntryStands(rows: seq<Row>, blockSize: nat, i: nat)
    requires AllFit(rows) && i < |Blocks(rows, blockSize)|
    requires |TableFile(Blocks(rows, blockSize))| < 0x1_0000_0000_0000_0000
    ensures var blocks := Blocks(rows, blockSize);
      Stands(TableFile(blocks), RowsSize(rows) + IndexSize(blocks[..i]), EncodeEntry(IndexOf(blocks)[i])) &&
      EntryFits(IndexOf(blocks)[i]) && AllFit(Flat(blocks))
  {
    var blocks := Blocks(rows, blockSize);
    BlocksKnown(rows, blockSize);
    EntryInFile(EncodeBlocks(blocks), IndexOf(blocks), blocks, i);
  }

  /** Behind the rows of a finished file stands, for every block in turn, its last key, where its bytes begin,
      and how many they are. */
  lemma FileEntryAt(rows: seq<Row>, blockSize: nat, i: nat)
    requires AllFit(rows) && i < |Blocks(rows, blockSize)|
    requires |TableFile(Blocks(rows, blockSize))| < 0x1_0000_0000_0000_0000
    ensures var blocks := Blocks(rows, blockSize);
      EntryAt(TableFile(blocks), RowsSize(rows) + IndexSize(blocks[..i]),
              blocks[i][|blocks[i]| - 1].0, RowsSize(Flat(blocks[..i])), RowsSize(blocks[i]))
  {
    var blocks := Blocks(rows, blockSize);
    FileEntryStands(rows, blockSize, i);
    EntryIs(blocks, i);
    GivenEntryAt(TableFile(blocks), RowsSize(rows) + IndexSize(blocks[..i]), IndexOf(blocks)[i],
                 blocks[i][|blocks[i]| - 1].0, RowsSize(Flat(blocks[..i])), RowsSize(blocks[i]));
  }

  lemma GivenEntryAt(s: Bytes, at: nat, e: IndexEntry, key: Bytes, offset: nat, size: nat)
    requires e == IndexEntry(key, offset, size) && EntryFits(e) && Stands(s, at, EncodeEntry(e))
    ensures EntryAt(s, at, key, offset, size)
  {
    EncodedEntryAt(s, at, e);
  }

  lemma EntryInFile(data: Bytes, index: seq<IndexEntry>, blocks: seq<seq<Row>>, i: nat)
    requires NoEmptyBlock(blocks) && IndexFits(index) && KeysAre(index, blocks) && i < |index|
    ensures var footer := EncodeFooter(|data|, |EncodeIndex(index)|);
      Stands(data + EncodeIndex(index) + footer, |data| + IndexSize(blocks[..i]), EncodeEntry(index[i]))
  {
    EntryStands(index, blocks, i);
    MiddleStands(data, EncodeIndex(index), EncodeFooter(|data|, |EncodeIndex(index)|),
                 IndexSize(blocks[..i]), EncodeEntry(index[i]));
  }

  /** The last 24 bytes: where the index begins, how long it is, and eight fixed bytes. */
  ghost predicate FooterAt(s: Bytes, offset: nat, size: nat) {
    |s| >= 24 && Eight(s, |s| - 24) == offset && Eight(s, |s| - 16) == size &&
    s[|s| - 8..] == [0x57, 0xfb, 0x80, 0x8b, 0x24, 0x75, 0x47, 0xdb]
  }

  lemma MagicBytes()
    ensures LittleEndian(8, MAGIC) == [0x57, 0xfb, 0x80, 0x8b, 0x24, 0x75, 0x47, 0xdb]
  {
    var s: Bytes := [0x57, 0xfb, 0x80, 0x8b, 0x24, 0x75, 0x47, 0xdb];
    EightIs(s);
    LittleEndianInverse(s);
  }

  lemma FooterPieces(body: Bytes, offset: nat, size: nat)
    requires offset < 0x1_0000_0000_0000_0000 && size < 0x1_0000_0000_0000_0000
    ensures FooterAt(body + EncodeFooter(offset, size), offset, size)
  {
    var s, a, b, c := body + EncodeFooter(offset, size), LittleEndian(8, offset), LittleEndian(8, size), LittleEndian(8, MAGIC);
    assert Stands(s, |body|, a) && Stands(s, |body| + 8, b) && Stands(s, |body| + 16, c);
    EightStands(s, |body|, offset);
    EightStands(s, |body| + 8, size);
    MagicBytes();
  }

  /** The footer of a finished file says how long the rows are and how long the index is. */
  lemma FileFooter(rows: seq<Row>, blockSize: nat)
    requires AllFit(rows) && |TableFile(Blocks(rows, blockSize))| < 0x1_0000_0000_0000_0000
    ensures var blocks := Blocks(rows, blockSize);
      FooterAt(TableFile(blocks), RowsSize(rows), IndexSize(blocks)) &&
      |TableFile(blocks)| == RowsSize(rows) + IndexSize(blocks) + 24
  {
    var blocks := Blocks(rows, blockSize);
    var data, index := EncodeBlocks(blocks), EncodeIndex(IndexOf(blocks));
    BlocksKnown(rows, blockSize);
    IndexLength(IndexOf(blocks), blocks);
    FooterPieces(data + index, |data|, |index|);
  }

  // ----- reading -----

  /** What is read off given bytes: a row if the lengths in the header leave it room, a tombstone exactly if the
      first byte is 0. */
  lemma RowRead(s: Bytes)
    ensures ParseRow(s).Some? <==> |s| >= 9 && 9 + Four(s, 1) + Four(s, 5) <= |s|
    ensures ParseRow(s).Some? ==>
      var (row, n) := ParseRow(s).value; var k, v := Four(s, 1), Four(s, 5);
      n == 9 + k + v && row.0 == s[9..9 + k] && row.1.value == s[9 + k..n] && (row.1.kind.Deletion? <==> s[0] == 0)
  {
    if |s| >= 9 {
      FourIn(s, 1);
      FourIn(s, 5);
    }
  }

  /** The entry read off given bytes. */
  lemma EntryRead(s: Bytes)
    ensures ParseEntry(s).Some? <==> |s| >= 4 && 20 + Four(s, 0) <= |s|
    ensures ParseEntry(s).Some? ==>
      var (e, n) := ParseEntry(s).value;
      n == 20 + Four(s, 0) && EntryAt(s, 0, e.maxKey, e.offset, e.size)
  {
    if |s| >= 4 {
      FourIn(s, 0);
      var k := Four(s, 0);
      if 20 + k <= |s| {
        EightIn(s, 4 + k);
        EightIn(s, 12 + k);
      }
    }
  }

  /** The footer read off given bytes. */
  lemma FooterRead(s: Bytes, offset: nat, size: nat)
    ensures ReadFooter(s) == Some((offset, size)) <==> FooterAt(s, offset, size)
  {
    if |s| >= 24 {
      var footer := s[|s| - 24..];
      EightIn(footer, 0);
      EightIn(footer, 8);
      EightAt(s, |s| - 24, footer[..8]);
      EightAt(s, |s| - 16, footer[8..16]);
      MagicRead(footer[16..24]);
      assert footer[16..24] == s[|s| - 8..];
    }
  }

  lemma MagicRead(s: Bytes)
    requires |s| == 8
    ensures FromLittleEndian(s) == MAGIC <==> s == [0x57, 0xfb, 0x80, 0x8b, 0x24, 0x75, 0x47, 0xdb]
  {
    MagicBytes();
    Pow256Values();
    LittleEndianRoundTrip(8, MAGIC);
    if FromLittleEndian(s) == MAGIC { LittleEndianInverse(s); }
  }
}
