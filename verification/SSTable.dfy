/** Builder, reader and iterator of table files. */
module SSTables {
  import opened ByteStrings
  import opened Entries
  import opened TableRows
  import opened TableFormat

  // ----- writing -----

  class SSTableBuilder {
    const blockSize: nat
    var file: Bytes
    var currentOffset: nat
    var blockBuffer: Bytes
    var lastKeyInBlock: Bytes
    var indexEntries: seq<IndexEntry>
    var finished: bool
    /** The rows added before `Finish`. */
    ghost var rows: seq<Row>

    /** Until it finishes, file and index hold the full blocks and the buffer the rest. */
    ghost predicate Valid()
      reads this
    {
      !finished ==>
        Written(file, currentOffset, indexEntries, Split(rows, blockSize).0) &&
        Buffered(blockBuffer, lastKeyInBlock, Split(rows, blockSize).1)
    }

    constructor (blockSize: nat)
      ensures Valid() && !finished && rows == [] && this.blockSize == blockSize
    {
      this.blockSize := blockSize;
      file, currentOffset, blockBuffer, lastKeyInBlock, indexEntries, finished := [], 0, [], [], [], false;
      rows := [];
    }

    method Add(key: Bytes, value: Bytes, kind: ValueType)
      requires Valid()
      modifies this
      ensures Valid() && finished == old(finished)
      ensures rows == old(rows) + if finished then [] else [(key, TableValue(kind, value))]
      ensures finished ==> file == old(file)
    {
      if finished {
        return;
      }
      AppendRow(key, value, kind);
      lastKeyInBlock := key;
      RowAdded(file, currentOffset, indexEntries, blockBuffer, rows, (key, TableValue(kind, value)), blockSize);
      rows := rows + [(key, TableValue(kind, value))];
      if |blockBuffer| >= blockSize {
        FlushBlock();
      }
    }

    method AppendRow(key: Bytes, value: Bytes, kind: ValueType)
      modifies `blockBuffer
      ensures blockBuffer == old(blockBuffer) + EncodeRow((key, TableValue(kind, value)))
    {
      var valueLength := if kind.Deletion? then 0 else |value| % 0x1_0000_0000;
      blockBuffer := blockBuffer + [KindByte(kind)];
      blockBuffer := blockBuffer + LittleEndian(4, |key|);
      blockBuffer := blockBuffer + LittleEndian(4, valueLength);
      blockBuffer := blockBuffer + key;
      if valueLength > 0 {
        blockBuffer := blockBuffer + value[..valueLength];
      }
    }

    method FlushBlock()
      modifies `file, `currentOffset, `blockBuffer, `indexEntries
      ensures blockBuffer == [] && file == old(file) + old(blockBuffer)
      ensures currentOffset == old(currentOffset) + |old(blockBuffer)|
      ensures indexEntries == old(indexEntries) +
        if old(blockBuffer) == [] then [] else [IndexEntry(lastKeyInBlock, old(currentOffset), |old(blockBuffer)|)]
    {
      if blockBuffer == [] {
        return;
      }
      indexEntries := indexEntries + [IndexEntry(lastKeyInBlock, currentOffset, |blockBuffer|)];
      file := file + blockBuffer;
      currentOffset := currentOffset + |blockBuffer|;
      blockBuffer := [];
    }

    method FlushLast()
      requires Valid() && !finished
      modifies `file, `currentOffset, `blockBuffer, `indexEntries
      ensures Written(file, currentOffset, indexEntries, Blocks(rows, blockSize))
      ensures rows == [] ==> file == old(file)
    {
      ghost var split := Split(rows, blockSize);
      if blockBuffer != [] {
        BlockWritten(file, currentOffset, indexEntries, split.0, blockBuffer, lastKeyInBlock, split.1);
        FlushBlock();
      }
    }

    /** Writes the last block, the index and the footer; a table without rows gets no footer. */
    method Finish() returns (ok: bool)
      requires Valid()
      modifies this
      ensures Valid() && finished && rows == old(rows)
      ensures ok <==> !old(finished) && rows != []
      ensures ok ==> file == TableFile(Blocks(rows, blockSize))
      ensures !ok ==> file == old(file)
    {
      if finished {
        return false;
      }
      FlushLast();
      FileFinished(file, currentOffset, indexEntries, rows, blockSize, |EncodeIndex(indexEntries)|);
      finished := true;
      if indexEntries == [] {
        return false;
      }
      var indexOffset := currentOffset;
      WriteIndex();
      var indexSize := currentOffset - indexOffset;
      file := file + EncodeFooter(indexOffset, indexSize);
      return true;
    }

    method WriteIndex()
      modifies `file, `currentOffset
      ensures file == old(file) + EncodeIndex(indexEntries)
      ensures currentOffset == old(currentOffset) + |EncodeIndex(indexEntries)|
    {
      for i := 0 to |indexEntries|
        invariant file == old(file) + EncodeIndex(indexEntries[..i])
        invariant currentOffset == old(currentOffset) + |EncodeIndex(indexEntries[..i])|
      {
        var entry := indexEntries[i];
        var keyLen := |entry.maxKey| % 0x1_0000_0000;
        OneMoreIndexEntry(indexEntries, i);
        file := file + EncodeEntry(entry);
        currentOffset := currentOffset + (4 + keyLen + 8 + 8);
      }
      assert indexEntries[..|indexEntries|] == indexEntries;
    }
  }

  lemma OneMoreIndexEntry(index: seq<IndexEntry>, i: nat)
    requires i < |index|
    ensures EncodeIndex(index[..i + 1]) == EncodeIndex(index[..i]) + EncodeEntry(index[i])
  {
    assert index[..i + 1] == index[..i] + [index[i]];
    EncodeIndexConcat(index[..i], [index[i]]);
    assert [index[i]][1..] == [];
  }

  ghost predicate Written(file: Bytes, offset: nat, index: seq<IndexEntry>, blocks: seq<seq<Row>>) {
    NoEmptyBlock(blocks) && file == EncodeBlocks(blocks) && offset == |file| && index == IndexOf(blocks)
  }

  ghost predicate Buffered(buffer: Bytes, lastKey: Bytes, pending: seq<Row>) {
    buffer == EncodeRows(pending) && (pending != [] ==> lastKey == pending[|pending| - 1].0)
  }

  lemma BlockWritten(file: Bytes, offset: nat, index: seq<IndexEntry>, blocks: seq<seq<Row>>,
                     buffer: Bytes, lastKey: Bytes, block: seq<Row>)
    requires Written(file, offset, index, blocks) && Buffered(buffer, lastKey, block) && block != []
    ensures Written(file + buffer, offset + |buffer|, index + [IndexEntry(lastKey, offset, |buffer|)], blocks + [block])
    ensures |buffer| > 0
  {
    OneMoreBlock(blocks, block);
    OneMoreEntry(blocks, block);
  }

  lemma RowBuffered(pending: seq<Row>, row: Row, buffer: Bytes)
    requires buffer == EncodeRows(pending) + EncodeRow(row)
    ensures Buffered(buffer, row.0, pending + [row])
  {
    EncodeRowsConcat(pending, [row]);
    assert [row][1..] == [];
  }

  lemma RowAdded(file: Bytes, offset: nat, index: seq<IndexEntry>, buffer: Bytes, rows: seq<Row>, row: Row, blockSize: nat)
    requires Written(file, offset, index, Split(rows, blockSize).0)
    requires buffer == EncodeRows(Split(rows, blockSize).1) + EncodeRow(row)
    ensures var split := Split(rows + [row], blockSize);
      if |buffer| >= blockSize then
        buffer != [] && split.1 == [] &&
        Written(file + buffer, offset + |buffer|, index + [IndexEntry(row.0, offset, |buffer|)], split.0)
      else Written(file, offset, index, split.0) && Buffered(buffer, row.0, split.1)
  {
    var split := Split(rows, blockSize);
    RowBuffered(split.1, row, buffer);
    SplitStep(rows, row, blockSize);
    BlockWritten(file, offset, index, split.0, buffer, row.0, split.1 + [row]);
  }

  lemma FileFinished(file: Bytes, offset: nat, index: seq<IndexEntry>, rows: seq<Row>, blockSize: nat, size: nat)
    requires Written(file, offset, index, Blocks(rows, blockSize)) && size == |EncodeIndex(index)|
    ensures file + EncodeIndex(index) + EncodeFooter(offset, size) == TableFile(Blocks(rows, blockSize))
    ensures index == [] <==> rows == []
  {
    var blocks := Blocks(rows, blockSize);
    SplitFlat(rows, blockSize);
    if blocks != [] { assert blocks[0] != []; }
  }

  lemma SplitStep(rows: seq<Row>, row: Row, blockSize: nat)
    ensures var split, pending := Split(rows, blockSize), Split(rows, blockSize).1 + [row];
      Split(rows + [row], blockSize) ==
      if |EncodeRows(pending)| >= blockSize then (split.0 + [pending], []) else (split.0, pending)
  {
    assert (rows + [row])[..|rows|] == rows;
  }

  // ----- point lookup -----

  /** `std::lower_bound` over the index: the first block whose greatest key is not below `key`. */
  function BlockFor(index: seq<IndexEntry>, key: Bytes): (i: nat)
    ensures i <= |index|
    ensures forall j :: 0 <= j < i ==> Rank(index[j].maxKey) < Rank(key)
    ensures i < |index| ==> Rank(index[i].maxKey) >= Rank(key)
  {
    if index == [] || !Less(index[0].maxKey, key) then 0 else 1 + BlockFor(index[1..], key)
  }

  /** The scan of one block; keys ascend, so it stops at the first greater one. */
  function Search(data: Bytes, key: Bytes): Option<TableValue>
    decreases |data|
  {
    if data == [] then None
    else
      var r := ParseRow(data);
      if r.None? then None
      else if r.value.0.0 == key then Some(r.value.0.1)
      else if Less(key, r.value.0.0) then None
      else Search(data[r.value.1..], key)
  }

  function GetIn(file: Bytes, index: seq<IndexEntry>, key: Bytes): Option<TableValue> {
    var i := BlockFor(index, key);
    if i == |index| then None
    else
      var data := Pread(file, index[i].offset, index[i].size);
      if |data| != index[i].size then None else Search(data, key)
  }

  lemma {:induction false} SearchIsLookup(rows: seq<Row>, key: Bytes)
    requires SortedRows(rows) && AllFit(rows)
    ensures Search(EncodeRows(rows), key) == Lookup(rows, key)
  {
    if rows == [] {
    } else {
      var head, tail := EncodeRow(rows[0]), EncodeRows(rows[1..]);
      ParseEncodedRow(rows[0], tail);
      assert (head + tail)[|head|..] == tail;
      SearchIsLookup(rows[1..], key);
      LookupCons(rows, key);
      if rows[0].0 != key && Less(key, rows[0].0) {
        LookupAbove(rows[1..], key);
      }
    }
  }

  lemma LookupCons(rows: seq<Row>, key: Bytes)
    requires rows != []
    ensures Lookup(rows, key) == if rows[0].0 == key then Some(rows[0].1) else Lookup(rows[1..], key)
  {
    assert Stamp(rows, 0)[1..] == Stamp(rows[1..], 0);
  }

  lemma LookupAbove(rows: seq<Row>, key: Bytes)
    requires RowsAbove(rows, key)
    ensures Lookup(rows, key).None?
  {
  }

  lemma LookupBelow(rows: seq<Row>, key: Bytes)
    requires RowsBelow(rows, key)
    ensures Lookup(rows, key).None?
  {
  }

  lemma LookupConcat(a: seq<Row>, b: seq<Row>, key: Bytes)
    ensures Lookup(a + b, key) == if Lookup(a, key).Some? then Lookup(a, key) else Lookup(b, key)
  {
    assert Stamp(a + b, 0) == Stamp(a, 0) + Stamp(b, 0);
    FindConcat(Stamp(a, 0), Stamp(b, 0), key);
  }

  lemma FlatAt(blocks: seq<seq<Row>>, i: nat)
    requires i < |blocks|
    ensures Flat(blocks) == Flat(blocks[..i]) + (blocks[i] + Flat(blocks[i + 1..]))
  {
    assert blocks == blocks[..i] + blocks[i..];
    FlatConcat(blocks[..i], blocks[i..]);
  }

  ghost predicate RowsBelow(rows: seq<Row>, key: Bytes) {
    forall j :: 0 <= j < |rows| ==> Rank(rows[j].0) < Rank(key)
  }

  ghost predicate RowsAbove(rows: seq<Row>, key: Bytes) {
    forall j :: 0 <= j < |rows| ==> Rank(rows[j].0) > Rank(key)
  }

  /** Everything before block `i` is below `key` if the greatest key of the block before it is. */
  lemma BlocksBelow(blocks: seq<seq<Row>>, i: nat, key: Bytes)
    requires NoEmptyBlock(blocks) && SortedRows(Flat(blocks)) && i <= |blocks|
    requires i > 0 ==> Rank(blocks[i - 1][|blocks[i - 1]| - 1].0) < Rank(key)
    ensures RowsBelow(Flat(blocks[..i]), key)
  {
    if i > 0 {
      var before := Flat(blocks[..i]);
      assert blocks[..i] == blocks[..i - 1] + [blocks[i - 1]];
      OneMoreBlock(blocks[..i - 1], blocks[i - 1]);
      assert before[|before| - 1] == blocks[i - 1][|blocks[i - 1]| - 1];
      assert blocks == blocks[..i] + blocks[i..];
      FlatConcat(blocks[..i], blocks[i..]);
      LastGreatest(before, Flat(blocks[i..]), key);
    }
  }

  lemma LastGreatest(before: seq<Row>, after: seq<Row>, key: Bytes)
    requires SortedRows(before + after) && before != [] && Rank(before[|before| - 1].0) < Rank(key)
    ensures RowsBelow(before, key)
  {
    var all := before + after;
    assert forall j :: 0 <= j < |before| ==> before[j] == all[j];
  }

  /** Everything after block `i` is above `key` if the block's greatest key is not below it. */
  lemma BlocksAbove(blocks: seq<seq<Row>>, i: nat, key: Bytes)
    requires NoEmptyBlock(blocks) && SortedRows(Flat(blocks)) && i < |blocks|
    requires Rank(blocks[i][|blocks[i]| - 1].0) >= Rank(key)
    ensures RowsAbove(Flat(blocks[i + 1..]), key)
  {
    FlatAt(blocks, i);
    var all, n, after := Flat(blocks), |Flat(blocks[..i])| + |blocks[i]|, Flat(blocks[i + 1..]);
    assert all[n - 1] == blocks[i][|blocks[i]| - 1];
    forall j | 0 <= j < |after| ensures Rank(after[j].0) > Rank(key) {
      assert after[j] == all[n + j];
    }
  }

  lemma BlockSorted(blocks: seq<seq<Row>>, i: nat)
    requires SortedRows(Flat(blocks)) && i < |blocks|
    ensures SortedRows(blocks[i])
  {
    FlatAt(blocks, i);
    MiddleSorted(Flat(blocks[..i]), blocks[i], Flat(blocks[i + 1..]));
  }

  lemma MiddleSorted(before: seq<Row>, block: seq<Row>, after: seq<Row>)
    requires SortedRows(before + (block + after))
    ensures SortedRows(block)
  {
    var all := before + (block + after);
    assert forall j :: 0 <= j < |block| ==> block[j] == all[|before| + j];
  }

  /** Index search and block scan together are linear lookup over the whole table. */
  lemma GetIsLookup(file: Bytes, index: seq<IndexEntry>, blocks: seq<seq<Row>>, key: Bytes)
    requires Holds(file, index, blocks) && SortedRows(Flat(blocks))
    ensures GetIn(file, index, key) == Lookup(Flat(blocks), key)
  {
    var i := BlockFor(index, key);
    if i > 0 { BlockHeld(file, index, blocks, i - 1); }
    BlocksBelow(blocks, i, key);
    LookupBelow(Flat(blocks[..i]), key);
    if i == |index| {
      assert blocks[..i] == blocks;
    } else {
      BlockHeld(file, index, blocks, i);
      BlockSorted(blocks, i);
      SearchIsLookup(blocks[i], key);
      BlocksAbove(blocks, i, key);
      LookupAbove(Flat(blocks[i + 1..]), key);
      FlatAt(blocks, i);
      LookupConcat(blocks[i], Flat(blocks[i + 1..]), key);
      LookupConcat(Flat(blocks[..i]), blocks[i] + Flat(blocks[i + 1..]), key);
      PreadBlock(file, index, blocks, i);
    }
  }

  lemma PreadBlock(file: Bytes, index: seq<IndexEntry>, blocks: seq<seq<Row>>, i: nat)
    requires Holds(file, index, blocks) && i < |blocks|
    ensures Pread(file, index[i].offset, index[i].size) == EncodeRows(blocks[i])
    ensures index[i].size == |EncodeRows(blocks[i])|
  {
    BlockHeld(file, index, blocks, i);
    assert |EncodeRows(blocks[i])| > 0;
  }

  // ----- reading -----

  class SSTableReader {
    const file: Bytes
    const sequence: nat
    var indexEntries: seq<IndexEntry>

    constructor (file: Bytes, sequence: nat)
      ensures this.file == file && this.sequence == sequence && indexEntries == []
    {
      this.file := file;
      this.sequence := sequence;
      indexEntries := [];
    }

    /** A file without footer, magic number or readable index yields no reader. */
    static method Open(file: Bytes, sequence: nat) returns (r: Option<SSTableReader>)
      ensures r.Some? <==> OpenIndex(file).Some?
      ensures r.Some? ==> fresh(r.value) && r.value.file == file && r.value.sequence == sequence
      ensures r.Some? ==> r.value.indexEntries == OpenIndex(file).value
    {
      var reader := new SSTableReader(file, sequence);
      var footer := ReadFooter(file);
      if footer.None? {
        return None;
      }
      var ok := reader.LoadIndexBlock(footer.value.0, footer.value.1);
      if !ok {
        return None;
      }
      return Some(reader);
    }

    method LoadIndexBlock(indexOffset: nat, indexSize: nat) returns (ok: bool)
      requires indexEntries == []
      modifies this
      ensures ok <==> ReadIndex(file, indexOffset, indexSize).Some?
      ensures ok ==> indexEntries == ReadIndex(file, indexOffset, indexSize).value
    {
      var buffer := Pread(file, indexOffset, indexSize);
      if |buffer| != indexSize {
        return false;
      }
      var cursor: nat := 0;
      assert buffer[0..] == buffer && (ParseIndex(buffer).Some? ==> [] + ParseIndex(buffer).value == ParseIndex(buffer).value);
      while cursor < |buffer|
        invariant cursor <= |buffer|
        invariant ParseIndex(buffer) == Prepend(indexEntries, ParseIndex(buffer[cursor..]))
      {
        ghost var s := buffer[cursor..];
        var r := ParseEntry(buffer[cursor..]);
        if r.None? {
          return false;
        }
        assert s[r.value.1..] == buffer[cursor + r.value.1..];
        PrependOne(indexEntries, r.value.0, ParseIndex(s[r.value.1..]));
        indexEntries := indexEntries + [r.value.0];
        cursor := cursor + r.value.1;
      }
      return true;
    }

    function BlockCount(): nat
      reads this
    {
      |indexEntries|
    }

    function ReadDataBlock(i: nat): Bytes
      reads this
    {
      BlockData(file, indexEntries, i)
    }

    method Get(key: Bytes) returns (r: Option<TableValue>)
      ensures r == GetIn(file, indexEntries, key)
    {
      if indexEntries == [] {
        return None;
      }
      var i := BlockFor(indexEntries, key);
      if i == |indexEntries| {
        return None;
      }
      var data := Pread(file, indexEntries[i].offset, indexEntries[i].size);
      if |data| != indexEntries[i].size {
        return None;
      }
      r := SearchInDataBlock(data, key);
    }

    method SearchInDataBlock(data: Bytes, key: Bytes) returns (r: Option<TableValue>)
      ensures r == Search(data, key)
    {
      var cursor: nat := 0;
      while cursor < |data|
        invariant cursor <= |data| && Search(data, key) == Search(data[cursor..], key)
      {
        var row := ParseRow(data[cursor..]);
        if row.None? {
          return None;
        }
        SliceTwice(data, cursor, row.value.1);
        cursor := cursor + row.value.1;
        if row.value.0.0 == key {
          return Some(row.value.0.1);
        }
        if Less(key, row.value.0.0) {
          return None;
        }
      }
      return None;
    }
  }

  function Prepend(index: seq<IndexEntry>, rest: Option<seq<IndexEntry>>): Option<seq<IndexEntry>> {
    if rest.Some? then Some(index + rest.value) else None
  }

  lemma PrependOne(index: seq<IndexEntry>, e: IndexEntry, rest: Option<seq<IndexEntry>>)
    ensures Prepend(index, Prepend([e], rest)) == Prepend(index + [e], rest)
  {
    if rest.Some? { assert index + ([e] + rest.value) == (index + [e]) + rest.value; }
  }

  // ----- iterating -----

  /** Where an iterator stands: its block, the bytes it loaded, how many of them are consumed. */
  datatype Place = Place(block: nat, data: Bytes, offset: nat)

  datatype Parsed =
    | Read(row: Row, place: Place)
    | Stop(place: Place)

  /** Past exhausted blocks to the next unread byte, or to the end of the table. */
  function Skip(file: Bytes, index: seq<IndexEntry>, p: Place): (q: Place)
    ensures q.block >= p.block && (q.block == p.block ==> q == p)
    ensures q.offset < |q.data| || q.block >= |index|
    ensures q.offset < |q.data| && q.block > p.block ==> q.block < |index|
    decreases |index| - p.block
  {
    if p.offset < |p.data| then p
    else if p.block + 1 >= |index| then p.(block := p.block + 1)
    else Skip(file, index, Place(p.block + 1, BlockData(file, index, p.block + 1), 0))
  }

  /** The next row, unless the table ends or what follows does not hold a whole row. */
  function NextRow(file: Bytes, index: seq<IndexEntry>, p: Place): (r: Parsed)
    ensures r.place.block >= p.block
    ensures r.Read? && r.place.block == p.block ==> r.place.data == p.data && p.offset < r.place.offset
    ensures r.Read? ==> r.place.offset <= |r.place.data| && (r.place.block == p.block || r.place.block < |index|)
  {
    var q := Skip(file, index, p);
    if q.offset >= |q.data| then Stop(q)
    else
      var r := ParseRow(q.data[q.offset..]);
      if r.None? then Stop(q) else Read(r.value.0, q.(offset := q.offset + r.value.1))
  }

  /** Every row from a place on. */
  function Remaining(file: Bytes, index: seq<IndexEntry>, p: Place): seq<Row>
    decreases |index| - p.block, |p.data| - p.offset
  {
    var r := NextRow(file, index, p);
    if r.Read? then [r.row] + Remaining(file, index, r.place) else []
  }

  /** What an iterator finds when it loads block after block until one yields a row. */
  function FirstRow(file: Bytes, index: seq<IndexEntry>, p: Place): (r: Parsed)
    decreases |index| - p.block
  {
    if p.block >= |index| then Stop(p)
    else
      var q := Place(p.block, BlockData(file, index, p.block), 0);
      var r := if q.data == [] then Stop(q) else NextRow(file, index, q);
      if r.Read? then r else FirstRow(file, index, r.place.(block := r.place.block + 1))
  }

  lemma FirstRowStep(file: Bytes, index: seq<IndexEntry>, p: Place, q: Place)
    requires p.block < |index| && p == Place(p.block, BlockData(file, index, p.block), 0)
    requires if p.data == [] then q == p else NextRow(file, index, p) == Stop(q)
    ensures FirstRow(file, index, p) == FirstRow(file, index, q.(block := q.block + 1))
  {
  }

  /** The rows an iterator walks through from its construction on. */
  function RowsIn(file: Bytes, index: seq<IndexEntry>): seq<Row> {
    var r := FirstRow(file, index, Place(0, [], 0));
    if r.Read? then [r.row] + Remaining(file, index, r.place) else []
  }

  function DropBelow(rows: seq<Row>, target: Bytes): seq<Row> {
    if rows != [] && Less(rows[0].0, target) then DropBelow(rows[1..], target) else rows
  }

  /** The rows an iterator walks through after `Seek`. */
  function RowsFromTarget(file: Bytes, index: seq<IndexEntry>, target: Bytes): seq<Row> {
    var i := BlockFor(index, target);
    if i == |index| then [] else DropBelow(Remaining(file, index, Place(i, BlockData(file, index, i), 0)), target)
  }

  lemma RemainingStep(file: Bytes, index: seq<IndexEntry>, p: Place)
    ensures var r, rows := NextRow(file, index, p), Remaining(file, index, p);
      if r.Read? then rows != [] && rows[0] == r.row && rows[1..] == Remaining(file, index, r.place) else rows == []
  {
  }

  lemma StampCons(rows: seq<Row>, sequence: nat)
    requires rows != []
    ensures Stamp(rows, sequence) == [Entry(rows[0].0, rows[0].1, sequence)] + Stamp(rows[1..], sequence)
  {
  }

  class SSTableIterator {
    const reader: SSTableReader
    const sequence: nat
    var currentBlockIdx: nat
    var currentOffset: nat
    var currentBlockData: Bytes
    var currentEntry: Entry
    var valid: bool

    ghost function Here(): Place
      reads this
    {
      Place(currentBlockIdx, currentBlockData, currentOffset)
    }

    /** What is still to be shown.  The bytes of the entry on show are already consumed. */
    ghost function View(): seq<Entry>
      reads this, reader
    {
      if valid then [currentEntry] + Stamp(Remaining(reader.file, reader.indexEntries, Here()), sequence) else []
    }

    constructor (reader: SSTableReader, sequence: nat)
      ensures this.reader == reader && this.sequence == sequence
      ensures View() == Stamp(RowsIn(reader.file, reader.indexEntries), sequence)
    {
      this.reader := reader;
      this.sequence := sequence;
      currentBlockIdx, currentOffset, currentBlockData := 0, 0, [];
      currentEntry := Entry([], TableValue(Value, []), 0);
      valid := false;
      new;
      if reader.BlockCount() > 0 {
        ParseCurrentBlock();
      }
      assert View() == Stamp(RowsIn(reader.file, reader.indexEntries), sequence);
    }

    method ParseCurrentBlock()
      modifies this
      ensures var r := FirstRow(reader.file, reader.indexEntries, old(Here()));
        Here() == r.place && valid == r.Read? && (r.Read? ==> currentEntry == Entry(r.row.0, r.row.1, sequence))
    {
      valid := false;
      ghost var first := FirstRow(reader.file, reader.indexEntries, Here());
      while currentBlockIdx < reader.BlockCount()
        invariant !valid && FirstRow(reader.file, reader.indexEntries, Here()) == first
        decreases reader.BlockCount() - currentBlockIdx
      {
        TryBlock(first);
        if valid {
          return;
        }
        currentBlockIdx := currentBlockIdx + 1;
      }
    }

    /** Loads a block and reads its first row, if it has one. */
    method TryBlock(ghost first: Parsed)
      requires !valid && currentBlockIdx < reader.BlockCount()
      requires FirstRow(reader.file, reader.indexEntries, Here()) == first
      modifies this
      ensures currentBlockIdx >= old(currentBlockIdx)
      ensures valid ==> first.Read? && first.place == Here()
      ensures valid ==> currentEntry == Entry(first.row.0, first.row.1, sequence)
      ensures !valid ==> FirstRow(reader.file, reader.indexEntries, Here().(block := currentBlockIdx + 1)) == first
    {
      currentBlockData := reader.ReadDataBlock(currentBlockIdx);
      currentOffset := 0;
      ghost var start := Here();
      if currentBlockData != [] {
        ParseNextEntry();
      }
      if !valid {
        FirstRowStep(reader.file, reader.indexEntries, start, Here());
      }
    }

    method Next()
      modifies this
      ensures View() == if old(View()) == [] then [] else old(View())[1..]
    {
      if !valid {
        return;
      }
      ParseNextEntry();
    }

    method ParseNextEntry()
      modifies this
      ensures var r := NextRow(reader.file, reader.indexEntries, old(Here()));
        Here() == r.place && valid == r.Read? && (r.Read? ==> currentEntry == Entry(r.row.0, r.row.1, sequence))
    {
      while currentOffset >= |currentBlockData|
        invariant Skip(reader.file, reader.indexEntries, Here()) == Skip(reader.file, reader.indexEntries, old(Here()))
        decreases reader.BlockCount() - currentBlockIdx
      {
        currentBlockIdx := currentBlockIdx + 1;
        if currentBlockIdx >= reader.BlockCount() {
          valid := false;
          return;
        }
        currentBlockData := reader.ReadDataBlock(currentBlockIdx);
        currentOffset := 0;
      }
      var r := ParseRow(currentBlockData[currentOffset..]);
      if r.None? {
        valid := false;
        return;
      }
      currentEntry := Entry(r.value.0.0, r.value.0.1, sequence);
      currentOffset := currentOffset + r.value.1;
      valid := true;
    }

    method Seek(target: Bytes)
      modifies this
      ensures View() == Stamp(RowsFromTarget(reader.file, reader.indexEntries, target), sequence)
    {
      if reader.BlockCount() == 0 {
        valid := false;
        return;
      }
      var i := BlockFor(reader.indexEntries, target);
      if i >= reader.BlockCount() {
        valid := false;
        return;
      }
      currentBlockIdx := i;
      currentBlockData := reader.ReadDataBlock(i);
      currentOffset := 0;
      valid := true;
      ghost var file, index := reader.file, reader.indexEntries;
      ghost var rows := Remaining(file, index, Here());
      ghost var wanted := DropBelow(rows, target);
      while true
        invariant rows == Remaining(file, index, Here()) && DropBelow(rows, target) == wanted
        decreases |rows|
      {
        RemainingStep(file, index, Here());
        ParseNextEntry();
        if !valid {
          return;
        }
        if !Less(currentEntry.key, target) {
          StampCons(rows, sequence);
          return;
        }
        rows := rows[1..];
      }
    }
  }

  // ----- what was written is what is read -----

  lemma ReadsRow(file: Bytes, index: seq<IndexEntry>, p: Place, tail: seq<Row>) returns (q: Place)
    requires p.offset <= |p.data| && p.data[p.offset..] == EncodeRows(tail) && AllFit(tail) && tail != []
    ensures NextRow(file, index, p) == Read(tail[0], q) && q.block == p.block && q.data == p.data
    ensures q.offset <= |p.data| && p.data[q.offset..] == EncodeRows(tail[1..])
  {
    var row, rest := EncodeRow(tail[0]), EncodeRows(tail[1..]);
    ParseEncodedRow(tail[0], rest);
    SliceBehind(p.data, p.offset, row, rest);
    q := Place(p.block, p.data, p.offset + |row|);
  }

  lemma SliceBehind(data: Bytes, offset: nat, row: Bytes, rest: Bytes)
    requires offset <= |data| && data[offset..] == row + rest
    ensures offset + |row| <= |data| && data[offset + |row|..] == rest
  {
    assert data[offset + |row|..] == data[offset..][|row|..];
  }

  lemma CrossesBlock(file: Bytes, index: seq<IndexEntry>, p: Place)
    requires p.offset == |p.data|
    ensures Remaining(file, index, p) ==
      if p.block + 1 < |index| then Remaining(file, index, Place(p.block + 1, BlockData(file, index, p.block + 1), 0)) else []
  {
    if p.block + 1 < |index| {
      var q := Place(p.block + 1, BlockData(file, index, p.block + 1), 0);
      assert Skip(file, index, p) == Skip(file, index, q);
      SameRemaining(file, index, p, q);
    }
  }

  lemma SameRemaining(file: Bytes, index: seq<IndexEntry>, p: Place, q: Place)
    requires Skip(file, index, p) == Skip(file, index, q)
    ensures Remaining(file, index, p) == Remaining(file, index, q)
  {
    assert NextRow(file, index, p) == NextRow(file, index, q);
  }

  /** Within one block. */
  lemma {:induction false} ReadsRows(file: Bytes, index: seq<IndexEntry>, p: Place, tail: seq<Row>)
    requires AllFit(tail) && p.offset <= |p.data| && p.data[p.offset..] == EncodeRows(tail)
    ensures Remaining(file, index, p) == tail + Remaining(file, index, Place(p.block, p.data, |p.data|))
    decreases |tail|
  {
    if tail != [] {
      var q := ReadsRow(file, index, p, tail);
      RemainingStep(file, index, p);
      ReadsRows(file, index, q, tail[1..]);
      ConsConcat(Remaining(file, index, p), tail, Remaining(file, index, Place(p.block, p.data, |p.data|)));
    } else {
      assert p == Place(p.block, p.data, |p.data|);
    }
  }

  lemma ConsConcat(rows: seq<Row>, tail: seq<Row>, end: seq<Row>)
    requires rows != [] && tail != [] && rows[0] == tail[0] && rows[1..] == tail[1..] + end
    ensures rows == tail + end
  {
    assert rows == [rows[0]] + rows[1..];
  }

  /** From the start of a block on. */
  lemma {:induction false} RemainingIs(file: Bytes, index: seq<IndexEntry>, blocks: seq<seq<Row>>, i: nat)
    requires Holds(file, index, blocks) && i < |blocks|
    ensures Remaining(file, index, Place(i, BlockData(file, index, i), 0)) == blocks[i] + Flat(blocks[i + 1..])
    decreases |blocks| - i
  {
    RemainingBlock(file, index, blocks, i);
    if i + 1 < |blocks| { RemainingIs(file, index, blocks, i + 1); }
    FlatFrom(blocks, i + 1);
  }

  lemma RemainingBlock(file: Bytes, index: seq<IndexEntry>, blocks: seq<seq<Row>>, i: nat)
    requires Holds(file, index, blocks) && i < |blocks|
    ensures Remaining(file, index, Place(i, BlockData(file, index, i), 0)) == blocks[i] +
      if i + 1 < |blocks| then Remaining(file, index, Place(i + 1, BlockData(file, index, i + 1), 0)) else []
  {
    var data := EncodeRows(blocks[i]);
    BlockHeld(file, index, blocks, i);
    assert data[0..] == data;
    ReadsRows(file, index, Place(i, data, 0), blocks[i]);
    CrossesBlock(file, index, Place(i, data, |data|));
  }

  lemma FlatFrom(blocks: seq<seq<Row>>, i: nat)
    requires i <= |blocks|
    ensures Flat(blocks[i..]) == if i < |blocks| then blocks[i] + Flat(blocks[i + 1..]) else []
  {
    if i < |blocks| { assert blocks[i..][1..] == blocks[i + 1..]; }
  }

  lemma RowsInIs(file: Bytes, index: seq<IndexEntry>, blocks: seq<seq<Row>>)
    requires Holds(file, index, blocks)
    ensures RowsIn(file, index) == Flat(blocks)
  {
    if blocks != [] {
      BlockHeld(file, index, blocks, 0);
      var q := Place(0, BlockData(file, index, 0), 0);
      RemainingIs(file, index, blocks, 0);
      RemainingStep(file, index, q);
      assert q.data != [];
    }
  }

  lemma {:induction false} DropBelowConcat(a: seq<Row>, b: seq<Row>, target: Bytes)
    requires RowsBelow(a, target)
    ensures DropBelow(a + b, target) == DropBelow(b, target)
  {
    if a == [] {
      assert a + b == b;
    } else {
      assert (a + b)[1..] == a[1..] + b;
      DropBelowConcat(a[1..], b, target);
    }
  }

  lemma {:induction false} DropBelowIsFrom(rows: seq<Row>, sequence: nat, target: Bytes)
    ensures Stamp(DropBelow(rows, target), sequence) == From(Stamp(rows, sequence), target)
  {
    if rows != [] && Less(rows[0].0, target) {
      DropBelowIsFrom(rows[1..], sequence, target);
      StampCons(rows, sequence);
      assert Stamp(rows, sequence)[1..] == Stamp(rows[1..], sequence);
    }
  }

  lemma RowsFromTargetIs(file: Bytes, index: seq<IndexEntry>, blocks: seq<seq<Row>>, target: Bytes)
    requires Holds(file, index, blocks) && SortedRows(Flat(blocks))
    ensures RowsFromTarget(file, index, target) == DropBelow(Flat(blocks), target)
  {
    var i := BlockFor(index, target);
    if i > 0 { BlockHeld(file, index, blocks, i - 1); }
    BlocksBelow(blocks, i, target);
    if i == |index| {
      assert blocks[..i] == blocks && Flat(blocks) + [] == Flat(blocks);
      DropBelowConcat(Flat(blocks), [], target);
    } else {
      BlockHeld(file, index, blocks, i);
      RemainingIs(file, index, blocks, i);
      FlatAt(blocks, i);
      DropBelowConcat(Flat(blocks[..i]), blocks[i] + Flat(blocks[i + 1..]), target);
    }
  }

  lemma BlocksFit(blocks: seq<seq<Row>>)
    requires AllFit(Flat(blocks))
    ensures forall i :: 0 <= i < |blocks| ==> AllFit(blocks[i])
  {
    forall i | 0 <= i < |blocks| ensures AllFit(blocks[i]) {
      FlatAt(blocks, i);
      MiddleFits(Flat(blocks[..i]), blocks[i], Flat(blocks[i + 1..]));
    }
  }

  lemma MiddleFits(before: seq<Row>, block: seq<Row>, after: seq<Row>)
    requires AllFit(before + (block + after))
    ensures AllFit(block)
  {
    var all := before + (block + after);
    assert forall j :: 0 <= j < |block| ==> block[j] == all[|before| + j];
  }

  /** Any list of rows that fits the fields survives the file format, whatever the block size: the
      file opens and iterating gives back the list. */
  lemma FileRoundTrip(rows: seq<Row>, blockSize: nat)
    requires AllFit(rows)
    requires |TableFile(Blocks(rows, blockSize))| < 0x1_0000_0000_0000_0000
    ensures var file := TableFile(Blocks(rows, blockSize));
      OpenIndex(file).Some? && RowsIn(file, OpenIndex(file).value) == rows &&
      Holds(file, OpenIndex(file).value, Blocks(rows, blockSize)) && Flat(Blocks(rows, blockSize)) == rows
  {
    var blocks := Blocks(rows, blockSize);
    SplitFlat(rows, blockSize);
    BlocksFit(blocks);
    OpenFinished(blocks);
    RowsInIs(TableFile(blocks), IndexOf(blocks), blocks);
  }

  /** If the list is sorted, looking a key up in the file is looking it up in the list, tombstones
      included, and a seek lands on the first row whose key is not below the target. */
  lemma FileLookups(rows: seq<Row>, blockSize: nat, key: Bytes, sequence: nat)
    requires AllFit(rows) && SortedRows(rows)
    requires |TableFile(Blocks(rows, blockSize))| < 0x1_0000_0000_0000_0000
    ensures var file := TableFile(Blocks(rows, blockSize));
      OpenIndex(file).Some? && GetIn(file, OpenIndex(file).value, key) == Lookup(rows, key) &&
      Stamp(RowsFromTarget(file, OpenIndex(file).value, key), sequence) == From(Stamp(rows, sequence), key)
  {
    var blocks := Blocks(rows, blockSize);
    var file := TableFile(blocks);
    FileRoundTrip(rows, blockSize);
    GetIsLookup(file, OpenIndex(file).value, blocks, key);
    RowsFromTargetIs(file, OpenIndex(file).value, blocks, key);
    DropBelowIsFrom(rows, sequence, key);
  }

  lemma FileServes(rows: seq<Row>, blockSize: nat)
    requires AllFit(rows) && SortedRows(rows)
    requires |TableFile(Blocks(rows, blockSize))| < 0x1_0000_0000_0000_0000
    ensures var file := TableFile(Blocks(rows, blockSize));
      OpenIndex(file).Some? && RowsIn(file, OpenIndex(file).value) == rows &&
      forall key :: GetIn(file, OpenIndex(file).value, key) == Lookup(rows, key)
  {
    var file := TableFile(Blocks(rows, blockSize));
    FileRoundTrip(rows, blockSize);
    forall key ensures GetIn(file, OpenIndex(file).value, key) == Lookup(rows, key) {
      FileLookups(rows, blockSize, key, 0);
    }
  }

  lemma RowEndsInValue(row: Row) returns (head: Bytes)
    requires Fits(row)
    ensures EncodeRows([row]) == head + row.1.value
  {
    head := [KindByte(row.1.kind)] + LittleEndian(4, |row.0|) + LittleEndian(4, ValueLength(row.1)) + row.0;
    assert EncodeRow(row) == head + row.1.value;
    EncodeRowsConcat([row], []);
    assert EncodeRows([row]) == EncodeRow(row) + EncodeRows([row][1..]);
  }

  /** A file that was never finished is rejected unless its last bytes happen to look like a footer:
      one whose last value ends in one opens, as a table without rows. */
  lemma TornFileOpens(row: Row, prefix: Bytes)
    requires Fits(row) && row.1.value == prefix + EncodeFooter(0, 0)
    ensures OpenIndex(EncodeRows([row])) == Some([])
  {
    var head := RowEndsInValue(row);
    assert head + row.1.value == (head + prefix) + EncodeFooter(0, 0);
    ReadEncodedFooter(head + prefix, 0, 0);
  }

  lemma OneMoreRow(rows: seq<Row>, i: nat)
    requires i < |rows|
    ensures rows[..i] + [(rows[i].0, TableValue(rows[i].1.kind, rows[i].1.value))] == rows[..i + 1]
  {
  }

  /** The whole of building: every row handed to `Add`, then `Finish`. */
  method BuildFile(rows: seq<Row>, blockSize: nat) returns (file: Bytes)
    requires AllFit(rows) && SortedRows(rows)
    requires |TableFile(Blocks(rows, blockSize))| < 0x1_0000_0000_0000_0000
    ensures file == if rows == [] then [] else TableFile(Blocks(rows, blockSize))
  {
    var builder := new SSTableBuilder(blockSize);
    for i := 0 to |rows|
      invariant fresh(builder) && builder.Valid() && !builder.finished
      invariant builder.blockSize == blockSize && builder.rows == rows[..i]
    {
      builder.Add(rows[i].0, rows[i].1.value, rows[i].1.kind);
      OneMoreRow(rows, i);
    }
    assert rows[..|rows|] == rows;
    var ok := builder.Finish();
    file := builder.file;
  }

  /** The part of a flush that writes the table and opens it again. */
  method WriteAndOpen(rows: seq<Row>, blockSize: nat, sequence: nat) returns (reader: Option<SSTableReader>)
    requires AllFit(rows) && SortedRows(rows)
    requires |TableFile(Blocks(rows, blockSize))| < 0x1_0000_0000_0000_0000
    ensures rows != [] ==> reader.Some? && fresh(reader.value) && reader.value.sequence == sequence
    ensures rows != [] ==>
      RowsIn(reader.value.file, reader.value.indexEntries) == rows &&
      forall key :: GetIn(reader.value.file, reader.value.indexEntries, key) == Lookup(rows, key)
    ensures rows == [] ==> reader.None?
  {
    var file := BuildFile(rows, blockSize);
    FileServes(rows, blockSize);
    reader := SSTableReader.Open(file, sequence);
  }
}
