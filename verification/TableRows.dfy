/** Sorted rows, the form tables take in files and iterators, against the finite maps of the engine
    specification. */
module TableRows {
  import opened ByteStrings
  import opened Entries
  import opened EngineSpec
  import EngineView

  type Row = (Bytes, TableValue)

  ghost predicate SortedRows(rows: seq<Row>) {
    forall i, j :: 0 <= i < j < |rows| ==> Rank(rows[i].0) < Rank(rows[j].0)
  }

  function TableOf(rows: seq<Row>): Table {
    if rows == [] then map[] else TableOf(rows[..|rows| - 1])[rows[|rows| - 1].0 := rows[|rows| - 1].1]
  }

  /** The entries an iterator over the rows of one table shows: each stamped with its sequence number. */
  function Stamp(rows: seq<Row>, sequence: nat): (run: seq<Entry>)
    ensures |run| == |rows|
    ensures forall i :: 0 <= i < |rows| ==> run[i] == Entry(rows[i].0, rows[i].1, sequence)
  {
    seq(|rows|, i requires 0 <= i < |rows| => Entry(rows[i].0, rows[i].1, sequence))
  }

  lemma {:induction false} TableOfHas(rows: seq<Row>, i: nat)
    requires SortedRows(rows) && i < |rows|
    ensures rows[i].0 in TableOf(rows) && TableOf(rows)[rows[i].0] == rows[i].1
  {
    var n := |rows| - 1;
    if i < n {
      TableOfHas(rows[..n], i);
      assert Rank(rows[i].0) < Rank(rows[n].0);
    }
  }

  lemma {:induction false} TableOfOnly(rows: seq<Row>, key: Bytes)
    requires key in TableOf(rows)
    ensures exists i :: 0 <= i < |rows| && rows[i].0 == key
  {
    var n := |rows| - 1;
    if key != rows[n].0 {
      TableOfOnly(rows[..n], key);
      var i :| 0 <= i < |rows[..n]| && rows[..n][i].0 == key;
      assert rows[i].0 == key;
    }
  }

  lemma StampSorted(rows: seq<Row>, sequence: nat)
    requires SortedRows(rows)
    ensures Sorted(Stamp(rows, sequence))
  {
  }

  lemma StampFinds(rows: seq<Row>, sequence: nat, key: Bytes)
    requires SortedRows(rows)
    ensures Find(Stamp(rows, sequence), key) ==
      if key in TableOf(rows) then Some(Entry(key, TableOf(rows)[key], sequence)) else None
  {
    var run := Stamp(rows, sequence);
    StampSorted(rows, sequence);
    if key in TableOf(rows) {
      TableOfOnly(rows, key);
      var i :| 0 <= i < |rows| && rows[i].0 == key;
      TableOfHas(rows, i);
      FindAt(run, i);
    } else if Find(run, key).Some? {
      var i :| 0 <= i < |run| && run[i] == Find(run, key).value;
      TableOfHas(rows, i);
    }
  }

  /** Linear lookup in one table; the table format's own lookup is proved equal to it. */
  function Lookup(rows: seq<Row>, key: Bytes): Option<TableValue> {
    var e := Find(Stamp(rows, 0), key);
    if e.Some? then Some(e.value.val) else None
  }

  lemma LookupIs(rows: seq<Row>, key: Bytes)
    requires SortedRows(rows)
    ensures Lookup(rows, key) == if key in TableOf(rows) then Some(TableOf(rows)[key]) else None
  {
    StampFinds(rows, 0, key);
  }

  /** Rows that list a map are that map. */
  lemma TableOfListing(rows: seq<Row>, m: Table)
    requires SortedRows(rows)
    requires forall i :: 0 <= i < |rows| ==> rows[i].0 in m && m[rows[i].0] == rows[i].1
    requires forall key :: key in m ==> exists i :: 0 <= i < |rows| && rows[i].0 == key
    ensures TableOf(rows) == m
  {
    forall key | key in m ensures key in TableOf(rows) && TableOf(rows)[key] == m[key] {
      var i :| 0 <= i < |rows| && rows[i].0 == key;
      TableOfHas(rows, i);
    }
    forall key | key in TableOf(rows) ensures key in m {
      TableOfOnly(rows, key);
    }
  }

  /** An open table in the engine object. */
  datatype SSTable = SSTable(file: nat, sequence: nat, rows: seq<Row>)

  function ToReader(t: SSTable): Reader {
    Reader(t.file, t.sequence, TableOf(t.rows))
  }

  function ToReaders(tables: seq<SSTable>): (rs: seq<Reader>)
    ensures |rs| == |tables|
    ensures forall i :: 0 <= i < |rs| ==> rs[i] == ToReader(tables[i])
  {
    seq(|tables|, i requires 0 <= i < |tables| => ToReader(tables[i]))
  }

  ghost predicate AllRowsSorted(tables: seq<SSTable>) {
    forall i :: 0 <= i < |tables| ==> SortedRows(tables[i].rows)
  }

  function Runs(tables: seq<SSTable>): (runs: seq<seq<Entry>>)
    ensures |runs| == |tables|
    ensures forall i :: 0 <= i < |runs| ==> runs[i] == Stamp(tables[i].rows, tables[i].sequence)
  {
    seq(|tables|, i requires 0 <= i < |tables| => Stamp(tables[i].rows, tables[i].sequence))
  }

  function Versioned(r: Option<Reader>, key: Bytes): Option<Entry>
    requires r.Some? ==> key in r.value.table
  {
    if r.Some? then Some(Entry(key, r.value.table[key], r.value.sequence)) else None
  }

  /** The newest version among the runs is the one the specification looks up by sequence. */
  lemma {:induction false} RunsNewest(tables: seq<SSTable>, key: Bytes)
    requires AllRowsSorted(tables)
    ensures Newest(Runs(tables), key) == Versioned(Latest(ToReaders(tables), key), key)
  {
    if tables != [] {
      RunsNewest(tables[1..], key);
      assert Runs(tables)[1..] == Runs(tables[1..]);
      assert ToReaders(tables)[1..] == ToReaders(tables[1..]);
      StampFinds(tables[0].rows, tables[0].sequence, key);
    }
  }

  lemma RunsDistinct(tables: seq<SSTable>)
    requires EngineView.Unique(ToReaders(tables))
    ensures Distinct(Runs(tables))
  {
    var runs: seq<seq<Entry>> := Runs(tables);
    var rs := ToReaders(tables);
    forall i, j, k, l | 0 <= i < j < |runs| && 0 <= k < |runs[i]| && 0 <= l < |runs[j]|
      ensures runs[i][k].sequence != runs[j][l].sequence
    {
      assert rs[i].sequence != rs[j].sequence;
    }
  }

  // ----- what a compaction writes -----

  /** The loop of `Compact`: the first entry of every key, unless it is a tombstone. */
  function Survivors(run: seq<Entry>, last: Option<Bytes>): seq<Row> {
    if run == [] then []
    else if last == Some(run[0].key) then Survivors(run[1..], last)
    else
      (if run[0].val.kind.Value? then [(run[0].key, run[0].val)] else [])
      + Survivors(run[1..], Some(run[0].key))
  }

  ghost predicate RowsFrom(rows: seq<Row>, key: Bytes) {
    forall i :: 0 <= i < |rows| ==> Rank(rows[i].0) >= Rank(key)
  }

  ghost predicate Follows(run: seq<Entry>, last: Option<Bytes>) {
    last.Some? && run != [] ==> Rank(last.value) < Rank(run[0].key)
  }

  lemma {:induction false} SurvivorsSorted(run: seq<Entry>, last: Option<Bytes>)
    requires Sorted(run) && Follows(run, last)
    ensures SortedRows(Survivors(run, last))
    ensures run != [] ==> RowsFrom(Survivors(run, last), run[0].key)
  {
    if run != [] {
      var rest, tail := run[1..], Survivors(run[1..], Some(run[0].key));
      assert rest != [] ==> Rank(run[0].key) < Rank(rest[0].key);
      SurvivorsSorted(rest, Some(run[0].key));
      RowInFront((run[0].key, run[0].val), tail);
      assert Survivors(run, last) == tail || Survivors(run, last) == [(run[0].key, run[0].val)] + tail;
    }
  }

  lemma RowInFront(row: Row, tail: seq<Row>)
    requires SortedRows(tail) && forall i :: 0 <= i < |tail| ==> Rank(tail[i].0) > Rank(row.0)
    ensures SortedRows([row] + tail) && RowsFrom([row] + tail, row.0) && RowsFrom(tail, row.0)
  {
  }

  lemma {:induction false} SurvivorsAre(run: seq<Entry>, last: Option<Bytes>, key: Bytes, v: TableValue)
    requires Sorted(run) && Follows(run, last)
    ensures (key, v) in Survivors(run, last) <==>
      Find(run, key).Some? && Find(run, key).value.val == v && v.kind.Value?
  {
    if run != [] {
      assert run[1..] != [] ==> Rank(run[0].key) < Rank(run[1..][0].key);
      SurvivorsAre(run[1..], Some(run[0].key), key, v);
      var tail := Survivors(run[1..], Some(run[0].key));
      if key == run[0].key {
        assert Find(run[1..], key).None?;
      }
    }
  }

  /** On a merge of a compaction's inputs the loop writes exactly the compacted table. */
  lemma SurvivorsCompacted(tables: seq<SSTable>, run: seq<Entry>)
    requires AllRowsSorted(tables) && Sorted(run) && forall key :: Find(run, key) == Newest(Runs(tables), key)
    ensures SortedRows(Survivors(run, None))
    ensures TableOf(Survivors(run, None)) == Compacted(ToReaders(tables))
  {
    var rows, m := Survivors(run, None), Compacted(ToReaders(tables));
    SurvivorsSorted(run, None);
    forall key, v: TableValue ensures (key, v) in rows <==> key in m && m[key] == v {
      SurvivorsAre(run, None, key, v);
      RunsNewest(tables, key);
      EngineView.CompactedFinds(ToReaders(tables), key);
    }
    forall i | 0 <= i < |rows| ensures rows[i].0 in m && m[rows[i].0] == rows[i].1 {
      assert (rows[i].0, rows[i].1) in rows;
    }
    forall key | key in m ensures exists i :: 0 <= i < |rows| && rows[i].0 == key {
      assert (key, m[key]) in rows;
      var i :| 0 <= i < |rows| && rows[i] == (key, m[key]);
    }
    TableOfListing(rows, m);
  }
}
