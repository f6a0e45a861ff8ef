/** The table file, byte by byte: data blocks of rows, an index of the blocks, a 24-byte footer. */
module TableFormat {
  import opened ByteStrings
  import opened Entries
  import opened TableRows

  const MAGIC: nat := 0xdb47_7524_8b80_fb57
  const FOOTER_SIZE: nat := 24

  datatype IndexEntry = IndexEntry(maxKey: Bytes, offset: nat, size: nat)

  // ----- rows -----

  function KindByte(kind: ValueType): byte {
    match kind
    case Deletion => 0
    case Value => 1
  }

  /** A tombstone's value is not written. */
  function ValueLength(v: TableValue): nat {
    if v.kind.Deletion? then 0 else |v.value| % 0x1_0000_0000
  }

  /** Type byte, two 32-bit lengths, key, value. */
  function EncodeRow(row: Row): (s: Bytes)
    ensures |s| >= 9
  {
    [KindByte(row.1.kind)] + LittleEndian(4, |row.0|) + LittleEndian(4, ValueLength(row.1))
    + row.0 + row.1.value[..ValueLength(row.1)]
  }

  function EncodeRows(rows: seq<Row>): Bytes {
    if rows == [] then [] else EncodeRow(rows[0]) + EncodeRows(rows[1..])
  }

  /** Rows whose lengths the 32-bit fields can hold, tombstones with the empty value the engine gives them. */
  ghost predicate Fits(row: Row) {
    |row.0| < 0x1_0000_0000 && |row.1.value| < 0x1_0000_0000 && (row.1.kind.Deletion? ==> row.1.value == [])
  }

  ghost predicate AllFit(rows: seq<Row>) {
    forall i :: 0 <= i < |rows| ==> Fits(rows[i])
  }

  /** The row at the start of `s` and the number of bytes it takes, if `s` holds all of it. */
  function ParseRow(s: Bytes): (r: Option<(Row, nat)>)
    ensures r.Some? ==> 9 <= r.value.1 <= |s|
  {
    if |s| < 9 then None
    else
      var keyLen := FromLittleEndian(s[1..5]);
      var valueLen := FromLittleEndian(s[5..9]);
      if 9 + keyLen + valueLen > |s| then None
      else
        var kind := if s[0] == 0 then Deletion else Value;
        Some(((s[9..9 + keyLen], TableValue(kind, s[9 + keyLen..9 + keyLen + valueLen])), 9 + keyLen + valueLen))
  }

  lemma ParseEncodedRow(row: Row, rest: Bytes)
    requires Fits(row)
    ensures ParseRow(EncodeRow(row) + rest) == Some((row, |EncodeRow(row)|))
  {
    var head := [KindByte(row.1.kind)] + LittleEndian(4, |row.0|) + LittleEndian(4, |row.1.value|);
    var s := head + (row.0 + (row.1.value + rest));
    assert EncodeRow(row) + rest == s;
    ParseHeader(row.1.kind, |row.0|, |row.1.value|, row.0 + (row.1.value + rest));
    assert s[9..9 + |row.0|] == row.0;
    assert s[9 + |row.0|..9 + |row.0| + |row.1.value|] == row.1.value;
  }

  lemma ParseHeader(kind: ValueType, keyLen: nat, valueLen: nat, payload: Bytes)
    requires keyLen < 0x1_0000_0000 && valueLen < 0x1_0000_0000
    ensures var s := [KindByte(kind)] + LittleEndian(4, keyLen) + LittleEndian(4, valueLen) + payload;
      FromLittleEndian(s[1..5]) == keyLen && FromLittleEndian(s[5..9]) == valueLen
  {
    var s := [KindByte(kind)] + LittleEndian(4, keyLen) + LittleEndian(4, valueLen) + payload;
    Pow256Values();
    assert s[1..5] == LittleEndian(4, keyLen) && s[5..9] == LittleEndian(4, valueLen);
    LittleEndianRoundTrip(4, keyLen);
    LittleEndianRoundTrip(4, valueLen);
  }

  lemma {:induction false} EncodeRowsConcat(a: seq<Row>, b: seq<Row>)
    ensures EncodeRows(a + b) == EncodeRows(a) + EncodeRows(b)
  {
    if a == [] {
      assert a + b == b;
    } else {
      assert (a + b)[1..] == a[1..] + b;
      EncodeRowsConcat(a[1..], b);
    }
  }

  // ----- blocks -----

  function Flat(blocks: seq<seq<Row>>): seq<Row> {
    if blocks == [] then [] else blocks[0] + Flat(blocks[1..])
  }

  function EncodeBlocks(blocks: seq<seq<Row>>): Bytes {
    if blocks == [] then [] else EncodeRows(blocks[0]) + EncodeBlocks(blocks[1..])
  }

  ghost predicate NoEmptyBlock(blocks: seq<seq<Row>>) {
    forall i :: 0 <= i < |blocks| ==> blocks[i] != []
  }

  /** One entry a block: its last key, and where its bytes lie. */
  function IndexOf(blocks: seq<seq<Row>>): (index: seq<IndexEntry>)
    requires NoEmptyBlock(blocks)
    ensures |index| == |blocks|
    ensures forall i :: 0 <= i < |blocks| ==> index[i] == EntryFor(blocks[i], |EncodeBlocks(blocks[..i])|)
  {
    seq(|blocks|, i requires 0 <= i < |blocks| => EntryFor(blocks[i], |EncodeBlocks(blocks[..i])|))
  }

  function EntryFor(block: seq<Row>, offset: nat): IndexEntry
    requires block != []
  {
    IndexEntry(block[|block| - 1].0, offset, |EncodeRows(block)|)
  }

  lemma {:induction false} FlatConcat(a: seq<seq<Row>>, b: seq<seq<Row>>)
    ensures Flat(a + b) == Flat(a) + Flat(b)
  {
    if a == [] {
      assert a + b == b;
    } else {
      assert (a + b)[1..] == a[1..] + b;
      FlatConcat(a[1..], b);
    }
  }

  /** A block flushed at the end of the file extends file and index as the builder extends them. */
  lemma {:induction false} OneMoreBlock(blocks: seq<seq<Row>>, block: seq<Row>)
    ensures EncodeBlocks(blocks + [block]) == EncodeBlocks(blocks) + EncodeRows(block)
    ensures Flat(blocks + [block]) == Flat(blocks) + block
  {
    if blocks == [] {
      assert blocks + [block] == [block] && [block][1..] == [];
    } else {
      assert (blocks + [block])[1..] == blocks[1..] + [block];
      OneMoreBlock(blocks[1..], block);
    }
  }

  lemma OneMoreEntry(blocks: seq<seq<Row>>, block: seq<Row>)
    requires NoEmptyBlock(blocks) && block != []
    ensures NoEmptyBlock(blocks + [block])
    ensures IndexOf(blocks + [block]) == IndexOf(blocks) + [EntryFor(block, |EncodeBlocks(blocks)|)]
  {
    var all := blocks + [block];
    assert forall i :: 0 <= i <= |blocks| ==> all[..i] == blocks[..i];
    assert blocks[..|blocks|] == blocks;
  }

  /** How the builder cuts rows into blocks: a block ends with the row that makes it reach the block
      size.  The second part is what is still buffered. */
  function Split(rows: seq<Row>, blockSize: nat): (r: (seq<seq<Row>>, seq<Row>))
    ensures NoEmptyBlock(r.0)
  {
    if rows == [] then ([], [])
    else
      var n := |rows| - 1;
      var before := Split(rows[..n], blockSize);
      var pending := before.1 + [rows[n]];
      if |EncodeRows(pending)| >= blockSize then (before.0 + [pending], []) else (before.0, pending)
  }

  function Blocks(rows: seq<Row>, blockSize: nat): (blocks: seq<seq<Row>>)
    ensures NoEmptyBlock(blocks)
  {
    var split := Split(rows, blockSize);
    if split.1 == [] then split.0 else split.0 + [split.1]
  }

  lemma LastRegrouped(a: seq<Row>, b: seq<Row>, rows: seq<Row>)
    requires rows != [] && a + b == rows[..|rows| - 1]
    ensures a + (b + [rows[|rows| - 1]]) == rows
  {
  }

  /** Cutting into blocks loses, repeats and reorders nothing. */
  lemma {:induction false} SplitFlat(rows: seq<Row>, blockSize: nat)
    ensures Flat(Split(rows, blockSize).0) + Split(rows, blockSize).1 == rows
    ensures Flat(Blocks(rows, blockSize)) == rows
  {
    if rows != [] {
      var n := |rows| - 1;
      SplitFlat(rows[..n], blockSize);
      var before := Split(rows[..n], blockSize);
      LastRegrouped(Flat(before.0), before.1, rows);
      OneMoreBlock(before.0, before.1 + [rows[n]]);
    }
    var split := Split(rows, blockSize);
    if split.1 != [] {
      OneMoreBlock(split.0, split.1);
    }
  }

  // ----- index and footer -----

  /** A length, the key, the offset and the size of the block. */
  function EncodeEntry(e: IndexEntry): (s: Bytes)
    ensures |s| == 20 + |e.maxKey| % 0x1_0000_0000
  {
    LittleEndian(4, |e.maxKey|) + e.maxKey[..|e.maxKey| % 0x1_0000_0000] + LittleEndian(8, e.offset) + LittleEndian(8, e.size)
  }

  function EncodeIndex(index: seq<IndexEntry>): Bytes {
    if index == [] then [] else EncodeEntry(index[0]) + EncodeIndex(index[1..])
  }

  ghost predicate EntryFits(e: IndexEntry) {
    |e.maxKey| < 0x1_0000_0000 && e.offset < 0x1_0000_0000_0000_0000 && e.size < 0x1_0000_0000_0000_0000
  }

  ghost predicate IndexFits(index: seq<IndexEntry>) {
    forall i :: 0 <= i < |index| ==> EntryFits(index[i])
  }

  function ParseEntry(s: Bytes): (r: Option<(IndexEntry, nat)>)
    ensures r.Some? ==> 20 <= r.value.1 <= |s|
  {
    if |s| < 4 then None
    else
      var keyLen := FromLittleEndian(s[..4]);
      if 20 + keyLen > |s| then None
      else
        Some((IndexEntry(s[4..4 + keyLen], FromLittleEndian(s[4 + keyLen..12 + keyLen]),
                         FromLittleEndian(s[12 + keyLen..20 + keyLen])), 20 + keyLen))
  }

  function ParseIndex(s: Bytes): Option<seq<IndexEntry>>
    decreases |s|
  {
    if s == [] then Some([])
    else
      var r := ParseEntry(s);
      if r.None? then None
      else
        var rest := ParseIndex(s[r.value.1..]);
        if rest.None? then None else Some([r.value.0] + rest.value)
  }

  lemma ParseEncodedEntry(e: IndexEntry, rest: Bytes)
    requires EntryFits(e)
    ensures ParseEntry(EncodeEntry(e) + rest) == Some((e, |EncodeEntry(e)|))
  {
    var s, n := EncodeEntry(e) + rest, |e.maxKey|;
    assert s == LittleEndian(4, n) + e.maxKey + LittleEndian(8, e.offset) + LittleEndian(8, e.size) + rest;
    Pow256Values();
    assert s[..4] == LittleEndian(4, n);
    LittleEndianRoundTrip(4, n);
    assert s[4..4 + n] == e.maxKey;
    assert s[4 + n..12 + n] == LittleEndian(8, e.offset) && s[12 + n..20 + n] == LittleEndian(8, e.size);
    LittleEndianRoundTrip(8, e.offset);
    LittleEndianRoundTrip(8, e.size);
  }

  lemma ParseCons(s: Bytes, index: seq<IndexEntry>, n: nat)
    requires index != [] && s != [] && n <= |s|
    requires ParseEntry(s) == Some((index[0], n)) && ParseIndex(s[n..]) == Some(index[1..])
    ensures ParseIndex(s) == Some(index)
  {
    assert [index[0]] + index[1..] == index;
  }

  lemma {:induction false} ParseEncodedIndex(index: seq<IndexEntry>)
    requires IndexFits(index)
    ensures ParseIndex(EncodeIndex(index)) == Some(index)
  {
    if index != [] {
      var head, tail := EncodeEntry(index[0]), EncodeIndex(index[1..]);
      ParseEncodedEntry(index[0], tail);
      ParseEncodedIndex(index[1..]);
      Behind(head, tail);
      ParseCons(head + tail, index, |head|);
    }
  }

  lemma {:induction false} EncodeIndexConcat(a: seq<IndexEntry>, b: seq<IndexEntry>)
    ensures EncodeIndex(a + b) == EncodeIndex(a) + EncodeIndex(b)
  {
    if a == [] {
      assert a + b == b;
    } else {
      assert (a + b)[1..] == a[1..] + b;
      EncodeIndexConcat(a[1..], b);
    }
  }

  function EncodeFooter(indexOffset: nat, indexSize: nat): (s: Bytes)
    ensures |s| == FOOTER_SIZE
  {
    LittleEndian(8, indexOffset) + LittleEndian(8, indexSize) + LittleEndian(8, MAGIC)
  }

  function TableFile(blocks: seq<seq<Row>>): Bytes
    requires NoEmptyBlock(blocks)
  {
    var data, index := EncodeBlocks(blocks), EncodeIndex(IndexOf(blocks));
    data + index + EncodeFooter(|data|, |index|)
  }

  // ----- reading -----

  /** `pread`: as much of the range as the file has. */
  function Pread(file: Bytes, offset: nat, size: nat): (s: Bytes)
    ensures |s| <= size
  {
    if offset > |file| then []
    else if offset + size > |file| then file[offset..]
    else file[offset..offset + size]
  }

  /** The offset and size of the index, if the footer carries the magic number. */
  function ReadFooter(file: Bytes): Option<(nat, nat)> {
    if |file| < FOOTER_SIZE then None
    else
      var footer := file[|file| - FOOTER_SIZE..];
      if FromLittleEndian(footer[16..24]) != MAGIC then None
      else Some((FromLittleEndian(footer[..8]), FromLittleEndian(footer[8..16])))
  }

  function ReadIndex(file: Bytes, offset: nat, size: nat): Option<seq<IndexEntry>> {
    var s := Pread(file, offset, size);
    if |s| != size then None else ParseIndex(s)
  }

  /** The index `Open` loads; no index means the file is rejected. */
  function OpenIndex(file: Bytes): Option<seq<IndexEntry>> {
    var footer := ReadFooter(file);
    if footer.None? then None else ReadIndex(file, footer.value.0, footer.value.1)
  }

  function BlockData(file: Bytes, index: seq<IndexEntry>, i: nat): Bytes {
    if i >= |index| then []
    else
      var s := Pread(file, index[i].offset, index[i].size);
      if |s| != index[i].size then [] else s
  }

  /** The file and index hold these blocks. */
  ghost predicate Holds(file: Bytes, index: seq<IndexEntry>, blocks: seq<seq<Row>>) {
    NoEmptyBlock(blocks) && index == IndexOf(blocks) &&
    (forall i :: 0 <= i < |blocks| ==> AllFit(blocks[i])) &&
    EncodeBlocks(blocks) <= file
  }

  lemma IndexOfFits(blocks: seq<seq<Row>>)
    requires NoEmptyBlock(blocks) && forall i :: 0 <= i < |blocks| ==> AllFit(blocks[i])
    requires |EncodeBlocks(blocks)| < 0x1_0000_0000_0000_0000
    ensures IndexFits(IndexOf(blocks))
  {
    forall i | 0 <= i < |blocks| ensures EntryFits(IndexOf(blocks)[i]) {
      BytesAt(blocks, i);
      assert Fits(blocks[i][|blocks[i]| - 1]);
    }
  }

  /** A finished file opens with the index it was written with. */
  lemma OpenFinished(blocks: seq<seq<Row>>)
    requires NoEmptyBlock(blocks) && forall i :: 0 <= i < |blocks| ==> AllFit(blocks[i])
    requires |TableFile(blocks)| < 0x1_0000_0000_0000_0000
    ensures OpenIndex(TableFile(blocks)) == Some(IndexOf(blocks))
    ensures Holds(TableFile(blocks), IndexOf(blocks), blocks)
  {
    var file, data, index := TableFile(blocks), EncodeBlocks(blocks), EncodeIndex(IndexOf(blocks));
    IndexOfFits(blocks);
    ReadEncodedFooter(data + index, |data|, |index|);
    assert Pread(file, |data|, |index|) == index;
    ParseEncodedIndex(IndexOf(blocks));
  }

  lemma ReadEncodedFooter(body: Bytes, offset: nat, size: nat)
    requires offset < 0x1_0000_0000_0000_0000 && size < 0x1_0000_0000_0000_0000
    ensures ReadFooter(body + EncodeFooter(offset, size)) == Some((offset, size))
  {
    var footer := EncodeFooter(offset, size);
    assert (body + footer)[|body|..] == footer;
    Pow256Values();
    assert footer[..8] == LittleEndian(8, offset) && footer[8..16] == LittleEndian(8, size);
    assert footer[16..24] == LittleEndian(8, MAGIC);
    LittleEndianRoundTrip(8, offset);
    LittleEndianRoundTrip(8, size);
    LittleEndianRoundTrip(8, MAGIC);
  }

  /** Reading block `i` gives back its bytes. */
  lemma BlockHeld(file: Bytes, index: seq<IndexEntry>, blocks: seq<seq<Row>>, i: nat)
    requires Holds(file, index, blocks) && i < |blocks|
    ensures BlockData(file, index, i) == EncodeRows(blocks[i])
    ensures index[i].maxKey == blocks[i][|blocks[i]| - 1].0
  {
    BytesAt(blocks, i);
    var before, block := EncodeBlocks(blocks[..i]), EncodeRows(blocks[i]);
    assert before + block <= file;
    assert file[|before|..|before| + |block|] == block;
  }

  lemma {:induction false} BytesAt(blocks: seq<seq<Row>>, i: nat)
    requires i < |blocks|
    ensures EncodeBlocks(blocks[..i]) + EncodeRows(blocks[i]) <= EncodeBlocks(blocks)
  {
    if i > 0 {
      assert blocks[..i][0] == blocks[0] && blocks[..i][1..] == blocks[1..][..i - 1];
      BytesAt(blocks[1..], i - 1);
    }
  }
}
