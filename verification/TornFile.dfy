/** Table files whose writer did not finish: which byte strings `Open` accepts, exactly. */
module TornFiles {
  import opened ByteStrings
  import opened Entries
  import opened TableRows
  import opened TableFormat
  import opened SSTables

  // ----- parsing is the inverse of writing -----

  lemma FieldInverse(s: Bytes, n: nat)
    requires |s| == n && (n == 4 || n == 8)
    ensures LittleEndian(n, FromLittleEndian(s)) == s
    ensures FromLittleEndian(s) < if n == 4 then 0x1_0000_0000 else 0x1_0000_0000_0000_0000
  {
    Pow256Values();
    LittleEndianInverse(s);
  }

  lemma WholeKey(e: IndexEntry)
    requires EntryFits(e)
    ensures EncodeEntry(e) ==
      LittleEndian(4, |e.maxKey|) + e.maxKey + LittleEndian(8, e.offset) + LittleEndian(8, e.size)
  {
    assert e.maxKey[..|e.maxKey|] == e.maxKey;
  }

  lemma EntryParts(a: Bytes, b: Bytes, c: Bytes, d: Bytes)
    requires |a| == 4 && |c| == |d| == 8 && FromLittleEndian(a) == |b|
    ensures var e := IndexEntry(b, FromLittleEndian(c), FromLittleEndian(d));
      EntryFits(e) && EncodeEntry(e) == a + b + c + d
  {
    FieldInverse(a, 4);
    FieldInverse(c, 8);
    FieldInverse(d, 8);
    WholeKey(IndexEntry(b, FromLittleEndian(c), FromLittleEndian(d)));
  }

  lemma ParseEntryInverse(s: Bytes)
    requires ParseEntry(s).Some?
    ensures var (e, n) := ParseEntry(s).value; EntryFits(e) && s[..n] == EncodeEntry(e)
  {
    var n := FromLittleEndian(s[..4]);
    FourParts(s, 4, 4 + n, 12 + n, 20 + n);
    EntryParts(s[..4], s[4..4 + n], s[4 + n..12 + n], s[12 + n..20 + n]);
  }

  lemma FourParts(s: Bytes, i: nat, j: nat, k: nat, n: nat)
    requires i <= j <= k <= n <= |s|
    ensures s[..n] == s[..i] + s[i..j] + s[j..k] + s[k..n]
  {
  }

  lemma {:induction false} ParseIndexInverse(s: Bytes)
    requires ParseIndex(s).Some?
    ensures IndexFits(ParseIndex(s).value) && EncodeIndex(ParseIndex(s).value) == s
    decreases |s|
  {
    if s != [] {
      var (e, n) := ParseEntry(s).value;
      ParseEntryInverse(s);
      ParseIndexInverse(s[n..]);
      IndexCons(s, n, e, ParseIndex(s[n..]).value);
    }
  }

  lemma IndexCons(s: Bytes, n: nat, e: IndexEntry, rest: seq<IndexEntry>)
    requires n <= |s| && EntryFits(e) && s[..n] == EncodeEntry(e) && IndexFits(rest) && s[n..] == EncodeIndex(rest)
    ensures IndexFits([e] + rest) && EncodeIndex([e] + rest) == s
  {
    assert ([e] + rest)[1..] == rest;
    assert s == s[..n] + s[n..];
  }

  // ----- what opens -----

  /** The file ends in a footer, and the footer points at the bytes of this index. */
  ghost predicate PointsTo(file: Bytes, offset: nat, index: seq<IndexEntry>) {
    var s := EncodeIndex(index);
    offset < 0x1_0000_0000_0000_0000 && |s| < 0x1_0000_0000_0000_0000 && IndexFits(index) &&
    |file| >= FOOTER_SIZE && file[|file| - FOOTER_SIZE..] == EncodeFooter(offset, |s|) && Pread(file, offset, |s|) == s
  }

  lemma FooterParts(a: Bytes, b: Bytes, c: Bytes)
    requires |a| == |b| == |c| == 8 && FromLittleEndian(c) == MAGIC
    ensures FromLittleEndian(a) < 0x1_0000_0000_0000_0000 && FromLittleEndian(b) < 0x1_0000_0000_0000_0000
    ensures a + b + c == EncodeFooter(FromLittleEndian(a), FromLittleEndian(b))
  {
    FieldInverse(a, 8);
    FieldInverse(b, 8);
    FieldInverse(c, 8);
  }

  lemma ThreeParts(s: Bytes)
    requires |s| == 24
    ensures s == s[..8] + s[8..16] + s[16..24]
  {
  }

  lemma FooterInverse(file: Bytes)
    requires ReadFooter(file).Some?
    ensures var (offset, size) := ReadFooter(file).value;
      offset < 0x1_0000_0000_0000_0000 && size < 0x1_0000_0000_0000_0000 &&
      file[|file| - FOOTER_SIZE..] == EncodeFooter(offset, size)
  {
    var footer := file[|file| - FOOTER_SIZE..];
    ThreeParts(footer);
    FooterParts(footer[..8], footer[8..16], footer[16..24]);
  }

  lemma OpenedPoints(file: Bytes)
    requires OpenIndex(file).Some?
    ensures PointsTo(file, ReadFooter(file).value.0, OpenIndex(file).value)
  {
    var (offset, size) := ReadFooter(file).value;
    FooterInverse(file);
    ParseIndexInverse(Pread(file, offset, size));
  }

  lemma PointedOpens(file: Bytes, offset: nat, index: seq<IndexEntry>)
    requires PointsTo(file, offset, index)
    ensures OpenIndex(file) == Some(index)
  {
    var body, s := file[..|file| - FOOTER_SIZE], EncodeIndex(index);
    assert file == body + EncodeFooter(offset, |s|);
    ReadEncodedFooter(body, offset, |s|);
    ParseEncodedIndex(index);
  }

  /** Whatever its history, a file opens with an index exactly if it ends in a footer that points at the
      bytes of that index. */
  lemma OpensExactly(file: Bytes, index: seq<IndexEntry>)
    ensures OpenIndex(file) == Some(index) <==> exists offset :: PointsTo(file, offset, index)
  {
    if OpenIndex(file) == Some(index) { OpenedPoints(file); }
    forall offset | PointsTo(file, offset, index) ensures OpenIndex(file) == Some(index) {
      PointedOpens(file, offset, index);
    }
  }

  /** A file cut off at any byte of a table is rejected unless its last eight bytes are, by chance, the
      magic number. */
  lemma CutRejected(blocks: seq<seq<Row>>, n: nat)
    requires NoEmptyBlock(blocks) && n < |TableFile(blocks)|
    ensures var file := TableFile(blocks)[..n];
      n < 8 || file[n - 8..] != LittleEndian(8, MAGIC) ==> OpenIndex(file).None?
  {
    var file := TableFile(blocks)[..n];
    if OpenIndex(file).Some? {
      var (offset, size) := ReadFooter(file).value;
      FooterInverse(file);
      assert file[n - 8..] == EncodeFooter(offset, size)[16..];
    }
  }

  // ----- a planted table -----

  function PlantedEntry(at: nat, row: Row): IndexEntry {
    IndexEntry(row.0, at, |EncodeRow(row)|)
  }

  /** A row, an index entry for it and a footer, as bytes that will stand at `at`. */
  function Planted(at: nat, row: Row): Bytes {
    EncodeRow(row) + EncodeEntry(PlantedEntry(at, row)) +
    EncodeFooter(at + |EncodeRow(row)|, |EncodeEntry(PlantedEntry(at, row))|)
  }

  lemma PlantedPoints(before: Bytes, row: Row)
    requires Fits(row) && |before + Planted(|before|, row)| < 0x1_0000_0000_0000_0000
    ensures var at := |before|;
      PointsTo(before + Planted(at, row), at + |EncodeRow(row)|, [PlantedEntry(at, row)]) &&
      Pread(before + Planted(at, row), at, |EncodeRow(row)|) == EncodeRow(row)
  {
    var at, e := |before|, PlantedEntry(|before|, row);
    var file, data, entry := before + Planted(at, row), EncodeRow(row), EncodeEntry(e);
    var footer := EncodeFooter(at + |data|, |entry|);
    OneEntry(e);
    FourJoined(before, data, entry, footer);
    PiecesAt(before, data, entry, footer);
  }

  lemma OneEntry(e: IndexEntry)
    ensures EncodeIndex([e]) == EncodeEntry(e)
  {
    assert [e][1..] == [];
  }

  lemma FourJoined(a: Bytes, b: Bytes, c: Bytes, d: Bytes)
    ensures a + (b + c + d) == a + b + c + d
  {
  }

  lemma PiecesAt(a: Bytes, b: Bytes, c: Bytes, d: Bytes)
    ensures var s := a + b + c + d;
      Pread(s, |a|, |b|) == b && Pread(s, |a| + |b|, |c|) == c && s[|s| - |d|..] == d
  {
  }

  lemma SearchOne(row: Row)
    requires Fits(row)
    ensures Search(EncodeRow(row), row.0) == Some(row.1)
  {
    ParseEncodedRow(row, []);
    assert EncodeRow(row) + [] == EncodeRow(row);
  }

  ghost predicate Serves(file: Bytes, row: Row) {
    OpenIndex(file).Some? && GetIn(file, OpenIndex(file).value, row.0) == Some(row.1)
  }

  lemma PlantedOpens(file: Bytes, before: Bytes, row: Row)
    requires Fits(row) && file == before + Planted(|before|, row) && |file| < 0x1_0000_0000_0000_0000
    ensures Serves(file, row)
  {
    var index := [PlantedEntry(|before|, row)];
    PlantedPoints(before, row);
    PointedOpens(file, |before| + |EncodeRow(row)|, index);
    SearchOne(row);
    assert BlockFor(index, row.0) == 0;
  }

  lemma LastValue(rows: seq<Row>, last: Row) returns (before: Bytes)
    requires Fits(last)
    ensures EncodeRows(rows + [last]) == before + last.1.value && |before| == |EncodeRows(rows)| + 9 + |last.0|
  {
    var head := RowEndsInValue(last);
    EncodeRowsConcat(rows, [last]);
    Reassociated(EncodeRows(rows), head, last.1.value);
    before := EncodeRows(rows) + head;
    OneRow(last);
  }

  lemma Reassociated(a: Bytes, b: Bytes, c: Bytes)
    ensures a + (b + c) == (a + b) + c
  {
  }

  lemma OneRow(row: Row)
    requires Fits(row)
    ensures |EncodeRows([row])| == 9 + |row.0| + |row.1.value|
  {
    assert [row][1..] == [];
  }

  /** Rows were written, the last of them with a planted table for its value, and the writer stopped
      before the index: the torn file opens and serves the planted row, whether its key was written or
      not. */
  lemma TornServes(rows: seq<Row>, last: Row, planted: Row)
    requires Fits(last) && Fits(planted)
    requires last.1.value == Planted(|EncodeRows(rows)| + 9 + |last.0|, planted)
    requires |EncodeRows(rows + [last])| < 0x1_0000_0000_0000_0000
    ensures Serves(EncodeRows(rows + [last]), planted)
  {
    var before := LastValue(rows, last);
    PlantedOpens(EncodeRows(rows + [last]), before, planted);
  }
}
