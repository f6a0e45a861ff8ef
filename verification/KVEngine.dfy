/** The engine object, method by method against the state machine. */
module KVEngines {
  import opened ByteStrings
  import opened Entries
  import opened EngineSpec
  import opened EngineView
  import opened TableRows
  import opened EngineRecovery
  import opened EngineRuns
  import opened EngineWrites
  import opened Numerals
  import opened SkipLists
  import Merging

  /** A table file: what the builder has written so far has no footer until it finishes. */
  datatype File = Torn | Whole(rows: seq<Row>)

  function ToFile(f: File): SstFile {
    match f
    case Torn => Partial
    case Whole(rows) => Complete(TableOf(rows))
  }

  function ToFiles(ssts: map<nat, File>): (files: map<nat, SstFile>)
    ensures files.Keys == ssts.Keys
    ensures forall n :: n in ssts ==> files[n] == ToFile(ssts[n])
  {
    map n | n in ssts :: ToFile(ssts[n])
  }

  lemma OneFile(ssts: map<nat, File>, n: nat, f: File)
    ensures ToFiles(ssts[n := f]) == ToFiles(ssts)[n := ToFile(f)]
  {
  }

  function ToJob(job: Job<SSTable>): Job<Reader> {
    match job
    case Idle => Idle
    case Snapped(inputs) => Snapped(ToReaders(inputs))
    case Numbered(inputs, n) => Numbered(ToReaders(inputs), n)
    case Built(inputs, n) => Built(ToReaders(inputs), n)
    case Removing(inputs, n, k) => Removing(ToReaders(inputs), n, k)
  }

  ghost predicate FilesSorted(ssts: map<nat, File>) {
    forall n :: n in ssts && ssts[n].Whole? ==> SortedRows(ssts[n].rows)
  }

  /** The iterator over the memtable outranks every table. */
  const SIZE_MAX: nat := 0xFFFF_FFFF_FFFF_FFFF

  class KVEngine {
    const maxMemNodes: nat
    const skiplist: SkipList<TableValue>
    var sstables: seq<SSTable>
    var sstCounter: nat
    var currentWal: nat
    /** The files of the directory, by number. */
    var ssts: map<nat, File>
    var wals: map<nat, seq<Record>>
    var job: Job<SSTable>

    ghost function State(): EngineSpec.State
      reads this, skiplist
    {
      EngineSpec.State(skiplist.model, ToReaders(sstables), sstCounter, currentWal, Disk(ToFiles(ssts), wals), ToJob(job))
    }

    ghost predicate FilesOk()
      reads this
    {
      AllRowsSorted(sstables) && currentWal in wals && currentWal <= sstCounter + 1 &&
      FilesSorted(ssts) &&
      (!job.Idle? ==> AllRowsSorted(job.inputs)) &&
      (job.Built? ==> job.file <= sstCounter && job.file in ssts) &&
      (job.Built? ==> ToFile(ssts[job.file]) == Complete(Compacted(ToReaders(job.inputs))))
    }

    ghost predicate Valid()
      reads this, skiplist, skiplist.Nodes()
    {
      skiplist.Valid() && FilesOk()
    }

    // ----- opening -----

    /** Open a directory: load the tables newest first, replay the logs oldest first, start the log
        after the last table. */
    constructor (maxMemNodes: nat, maxLevel: nat, files: map<nat, File>, logs: map<nat, seq<Record>>)
      requires maxLevel >= 1
      requires FilesSorted(files)
      ensures Valid() && fresh(skiplist) && fresh(skiplist.Nodes())
      ensures IsOpened(State(), sstables, files, logs)
      ensures BelowMillion(files.Keys) && BelowMillion(logs.Keys) ==> State() == Reopen(Disk(ToFiles(files), logs))
    {
      this.maxMemNodes := maxMemNodes;
      skiplist := new SkipList(maxLevel);
      sstables := [];
      sstCounter := 0;
      currentWal := 0;
      ssts := files;
      wals := logs;
      job := Idle;
      new;
      Open();
      if BelowMillion(files.Keys) && BelowMillion(logs.Keys) { OpenedState(State(), sstables, files, logs); }
    }

    method Open()
      requires skiplist.Valid() && skiplist.model == map[] && sstables == [] && sstCounter == 0 && job == Idle
      requires FilesSorted(ssts)
      modifies this, skiplist, skiplist.Nodes()
      ensures Valid() && fresh(skiplist.Nodes() - old(skiplist.Nodes())) && job == Idle
      ensures ssts == old(ssts) && sstCounter == Max(ssts.Keys) && currentWal == sstCounter + 1
      ensures wals == Touch(old(wals), currentWal)
      ensures TablesByName(sstables, ssts) && LogsByName(skiplist.model, old(wals))
    {
      Load();
      OpenLog();
    }

    method Load()
      requires skiplist.Valid() && skiplist.model == map[] && sstables == [] && sstCounter == 0 && FilesSorted(ssts)
      modifies `sstables, `sstCounter, skiplist, skiplist.Nodes()
      ensures skiplist.Valid() && fresh(skiplist.Nodes() - old(skiplist.Nodes()))
      ensures sstCounter == Max(ssts.Keys) && AllRowsSorted(sstables)
      ensures TablesByName(sstables, ssts) && LogsByName(skiplist.model, wals)
    {
      LoadExistingSSTables();
      RecoverAllWals();
    }

    /** Opening a log for appending creates it if it is missing. */
    method OpenLog()
      modifies `currentWal, `wals
      ensures currentWal == sstCounter + 1 && wals == Touch(old(wals), currentWal)
    {
      currentWal := sstCounter + 1;
      if currentWal !in wals {
        wals := wals[currentWal := []];
      }
    }

    method LoadExistingSSTables()
      requires sstables == [] && sstCounter == 0
      requires FilesSorted(ssts)
      modifies `sstables, `sstCounter
      ensures sstCounter == Max(ssts.Keys)
      ensures AllRowsSorted(sstables) && TablesByName(sstables, ssts)
      ensures BelowMillion(ssts.Keys) ==> ToReaders(sstables) == ReadersBelow(ToFiles(ssts), sstCounter + 1)
    {
      var order: seq<nat> := SortedByName(ssts.Keys, SST);
      var counter := Highest(order, ssts.Keys);
      var tables := OpenNewestFirst(ssts, order);
      OpenAllSorted(ssts, order);
      NamedTables(tables, ssts, order);
      sstCounter := counter;
      sstables := tables;
    }

    method RecoverAllWals()
      requires skiplist.Valid() && skiplist.model == map[]
      modifies skiplist, skiplist.Nodes()
      ensures skiplist.Valid() && fresh(skiplist.Nodes() - old(skiplist.Nodes()))
      ensures LogsByName(skiplist.model, wals)
      ensures BelowMillion(wals.Keys) ==> skiplist.model == ReplayBelow(wals, Max(wals.Keys) + 1)
    {
      var order: seq<nat> := SortedByName(wals.Keys, LOG);
      ReplayLogs(order);
      NamedLogs(skiplist.model, wals, order);
    }

    method ReplayLogs(order: seq<nat>)
      requires skiplist.Valid() && skiplist.model == map[] && forall n :: n in order ==> n in wals
      modifies skiplist, skiplist.Nodes()
      ensures skiplist.Valid() && fresh(skiplist.Nodes() - old(skiplist.Nodes()))
      ensures skiplist.model == ReplayAll(wals, order)
    {
      for i := 0 to |order|
        invariant skiplist.Valid() && fresh(skiplist.Nodes() - old(skiplist.Nodes()))
        invariant skiplist.model == ReplayAll(wals, order[..i])
      {
        assert order[..i + 1][..i] == order[..i];
        ReplayLog(wals[order[i]]);
      }
      assert order[..|order|] == order;
    }

    method ReplayLog(log: seq<Record>)
      requires skiplist.Valid()
      modifies skiplist, skiplist.Nodes()
      ensures skiplist.Valid() && fresh(skiplist.Nodes() - old(skiplist.Nodes()))
      ensures skiplist.model == Replay(old(skiplist.model), log)
    {
      for j := 0 to |log|
        invariant skiplist.Valid() && fresh(skiplist.Nodes() - old(skiplist.Nodes()))
        invariant skiplist.model == Replay(old(skiplist.model), log[..j])
      {
        assert log[..j + 1][..j] == log[..j];
        match log[j]
        case PutRecord(key, value) => skiplist.Put(key, TableValue(Value, value));
        case EraseRecord(key) => skiplist.Put(key, TableValue(Deletion, []));
      }
      assert log[..|log|] == log;
    }

    // ----- writing -----

    method Put(key: Bytes, value: Bytes)
      requires Valid()
      modifies this, skiplist, skiplist.Nodes()
      ensures Valid() && fresh(skiplist.Nodes() - old(skiplist.Nodes()))
      ensures State() == EngineSpec.Put(old(State()), key, value, maxMemNodes)
      ensures HasPut(old(State()), State(), key, value, maxMemNodes)
    {
      PutEffect(State(), key, value, maxMemNodes);
      wals := wals[currentWal := wals[currentWal] + [PutRecord(key, value)]];
      skiplist.Put(key, TableValue(Value, value));
      var n := skiplist.Size();
      if n >= maxMemNodes {
        FlushMemTable();
      }
    }

    method Erase(key: Bytes) returns (ok: bool)
      requires Valid()
      modifies this, skiplist, skiplist.Nodes()
      ensures Valid() && fresh(skiplist.Nodes() - old(skiplist.Nodes()))
      ensures ok && State() == EngineSpec.Erase(old(State()), key)
      ensures OnlyLogged(old(State()), State(), old(skiplist.model)[key := TableValue(Deletion, [])], EraseRecord(key))
    {
      EraseEffect(State(), key, maxMemNodes);
      wals := wals[currentWal := wals[currentWal] + [EraseRecord(key)]];
      skiplist.Put(key, TableValue(Deletion, []));
      ok := true;
    }

    method FlushMemTable()
      requires Valid()
      modifies this, skiplist, skiplist.head
      ensures Valid() && skiplist.Nodes() <= old(skiplist.Nodes())
      ensures State() == Flush(old(State()))
      ensures if old(skiplist.model) == map[] then State() == old(State())
              else HasFlushed(old(State()), State(), old(skiplist.model))
    {
      FlushEffect(State(), maxMemNodes);
      var n := skiplist.Size();
      if n == 0 {
        return;
      }
      var rows := skiplist.DumpAll();
      ListingRows(rows, skiplist.model);
      WriteTable(rows);
      skiplist.Clear();
    }

    // ----- reading -----

    /** The memtable, then the tables in list order; the first that knows the key answers. */
    method Get(key: Bytes) returns (value: Option<Bytes>)
      requires Valid()
      ensures value == EngineSpec.Get(State(), key)
    {
      var inMemory := skiplist.Get(key);
      if inMemory.Some? {
        return Live(inMemory.value);
      }
      assert sstables[0..] == sstables;
      for i := 0 to |sstables|
        invariant First(ToReaders(sstables), key) == First(ToReaders(sstables[i..]), key)
      {
        FirstSkips(sstables, i, key);
        LookupIs(sstables[i].rows, key);
        var found := Lookup(sstables[i].rows, key);
        if found.Some? {
          return Live(found.value);
        }
      }
      return None;
    }

    /** A merge of the memtable, at sequence SIZE_MAX, and every table. */
    method NewIterator() returns (it: Merging.MergingIterator)
      requires Valid() && Inv(State()) && sstCounter < SIZE_MAX
      ensures fresh(it) && it.Ok() && Sorted(it.View())
      ensures forall key :: Shown(it.View(), key) == EngineSpec.View(State(), key)
      ensures forall key :: Find(it.View(), key).Some? <==> EngineSpec.Stored(State(), key)
    {
      var rows := skiplist.ListFrom([]);
      ListingRows(rows, skiplist.model);
      var runs := [Stamp(rows, SIZE_MAX)] + Runs(sstables);
      MemDistinct(rows, sstables);
      IteratorShows(rows, skiplist.model, sstables, []);
      CursorsAre(runs);
      it := new Merging.MergingIterator(Cursors(runs));
      Merging.MergedCorrect(runs);
      forall key
        ensures Shown(it.View(), key) == EngineSpec.View(State(), key) && (Find(it.View(), key).Some? <==> EngineSpec.Stored(State(), key))
      {
        IteratorShows(rows, skiplist.model, sstables, key);
      }
    }

    // ----- compaction -----

    /** Phase 1, under the read lock: remember the open tables. */
    method CompactSnapshot()
      requires Valid() && job.Idle?
      modifies `job
      ensures Valid() && State() == Snapshot(old(State()))
    {
      if |sstables| <= 1 {
        return;
      }
      job := Snapped(sstables);
    }

    /** Phase 2, without a lock: take the next file number ... */
    method CompactNumber()
      requires Valid() && job.Snapped?
      modifies `sstCounter, `ssts, `job
      ensures Valid() && State() == Number(old(State()))
      ensures job == Numbered(old(job.inputs), sstCounter)
    {
      sstCounter := sstCounter + 1;
      ssts := ssts[sstCounter := Torn];
      job := Numbered(job.inputs, sstCounter);
    }

    /** ... and write the merge of the inputs into it. */
    method CompactMerge()
      requires Valid() && job.Numbered? && Unique(ToReaders(job.inputs)) && job.file <= sstCounter
      modifies `ssts, `job
      ensures Valid() && State() == Merge(old(State()))
      ensures job == Idle || job == Built(old(job.inputs), old(job.file))
    {
      var rows := MergeInputs(job.inputs);
      if rows == [] {
        job := Idle;
        return;
      }
      assert Compacted(ToReaders(job.inputs)) != map[] by { assert rows[|rows| - 1].0 in TableOf(rows); }
      FinishTable(rows);
    }

    method FinishTable(rows: seq<Row>)
      requires Valid() && job.Numbered? && job.file <= sstCounter && SortedRows(rows)
      requires TableOf(rows) == Compacted(ToReaders(job.inputs)) != map[]
      modifies `ssts, `job
      ensures Valid() && State() == Merge(old(State())) && job == Built(old(job.inputs), old(job.file))
    {
      OneFile(ssts, job.file, Whole(rows));
      ssts := ssts[job.file := Whole(rows)];
      job := Built(job.inputs, job.file);
    }

    /** Phase 3, under the write lock: put the new table in front, take its inputs out. */
    method CompactSwap()
      requires Valid() && job.Built?
      modifies `sstables, `job
      ensures Valid() && State() == Swap(old(State()))
    {
      var paths := set t | t in job.inputs :: t.file;
      var remaining := Remaining(sstables, paths);
      InputFiles(job.inputs);
      var t := SSTable(job.file, 0, ssts[job.file].rows);
      NewFront(remaining, t);
      sstables := [t] + remaining;
      job := Removing(job.inputs, job.file, 0);
    }

    /** Phase 4, without a lock: delete the input files one by one, newest first. */
    method CompactRemove()
      requires Valid() && job.Removing?
      modifies `ssts, `job
      ensures Valid() && State() == Remove(old(State()))
      ensures job == if old(job).removed >= |old(job).inputs| then Idle else old(job).(removed := old(job).removed + 1)
    {
      if job.removed >= |job.inputs| {
        job := Idle;
        return;
      }
      ssts := ssts - {job.inputs[job.removed].file};
      job := job.(removed := job.removed + 1);
    }

    /** All phases with nothing in between. */
    method Compact()
      requires Valid() && Inv(State()) && job.Idle?
      modifies `job, `sstables, `sstCounter, `ssts
      ensures Valid() && job.Idle?
      ensures IsCompaction(old(State()), State()) && HasCompacted(old(State()), State())
      ensures Durable(old(State())) ==> Durable(State()) && Reopens(old(State()), State())
    {
      ghost var s := State();
      RunPhases();
      if Durable(s) { CompactionReopens(s, State()); }
    }

    method RunPhases()
      requires Valid() && Inv(State()) && job.Idle?
      modifies `job, `sstables, `sstCounter, `ssts
      ensures Valid() && job.Idle?
      ensures IsCompaction(old(State()), State()) && HasCompacted(old(State()), State())
    {
      ghost var s := State();
      CompactSnapshot();
      if job.Idle? {
        return;
      }
      MergedState(s);
      BuildTable();
      if job.Built? {
        InstallTable();
      }
      OneCompaction(s, State());
    }

    method InstallTable()
      requires Valid() && Inv(State()) && job.Built? && |sstables| == |job.inputs|
      modifies `sstables, `ssts, `job
      ensures Valid() && job.Idle?
      ensures IsInstalled(old(State()), State())
    {
      ghost var s := State();
      CompactSwap();
      RemoveInputs();
      WholeSwap(s, State());
    }

    method BuildTable()
      requires Valid() && job.Snapped? && Unique(ToReaders(job.inputs))
      modifies `sstCounter, `ssts, `job
      ensures Valid() && State() == Merge(Number(old(State())))
      ensures job == Idle || job == Built(old(job.inputs), sstCounter)
    {
      CompactNumber();
      CompactMerge();
    }

    method RemoveInputs()
      requires Valid() && job.Removing? && job.removed == 0
      modifies `ssts, `job
      ensures Valid() && job == Idle
      ensures State() == AllRemoved(old(State()))
    {
      while job.Removing?
        invariant Valid() && (job.Removing? || job.Idle?)
        invariant job.Removing? ==> job.removed <= |job.inputs| && AllRemoved(State()) == AllRemoved(old(State()))
        invariant job.Idle? ==> State() == AllRemoved(old(State()))
        decreases if job.Removing? then 1 + |job.inputs| - job.removed else 0
      {
        RemovalTurn(State());
        CompactRemove();
      }
    }

    /** The disk side of a flush.  A crash after any of the four steps finds the directory as `FlushDisk` says. */
    method WriteTable(rows: seq<Row>)
      requires FilesOk() && SortedRows(rows) && TableOf(rows) == skiplist.model && rows != []
      modifies this
      ensures FilesOk() && State() == Flush(old(State())).(mem := skiplist.model)
    {
      assert rows[|rows| - 1].0 in TableOf(rows);
      ghost var s := State();
      CreateTable(rows, s);
      RotateLog(s);
    }

    method CreateTable(rows: seq<Row>, ghost s: EngineSpec.State)
      requires FilesOk() && SortedRows(rows) && s == State() && TableOf(rows) == s.mem
      modifies `sstCounter, `ssts, `sstables
      ensures AllRowsSorted(sstables) && FilesSorted(ssts)
      ensures job.Built? ==> job.file <= sstCounter && job.file in ssts && ssts[job.file] == old(ssts)[job.file]
      ensures sstCounter == s.counter + 1 && Directory() == FlushDisk(s, 2)
      ensures ToReaders(sstables) == [NewReader(s.counter, s.mem)] + s.readers
    {
      BeginFile();
      CompleteFile(rows, s);
      OpenFlushed(rows);
    }

    method RotateLog(ghost s: EngineSpec.State)
      requires Directory() == FlushDisk(s, 2) && sstCounter == s.counter + 1
      requires currentWal == s.wal && s.wal in wals && s.wal <= s.counter + 1
      modifies `currentWal, `wals
      ensures currentWal == sstCounter + 1 && currentWal in wals && Directory() == FlushDisk(s, 4)
    {
      var oldWal := currentWal;
      OpenNextLog(s);
      RemoveOldLog(oldWal, s);
    }

    ghost function Directory(): Disk
      reads this
    {
      Disk(ToFiles(ssts), wals)
    }

    /** Step 1: the file exists without its footer. */
    method BeginFile()
      modifies `sstCounter, `ssts
      ensures sstCounter == old(sstCounter) + 1 && ssts == old(ssts)[sstCounter := Torn]
      ensures Directory() == FlushDisk(old(State()), 1)
    {
      sstCounter := sstCounter + 1;
      OneFile(ssts, sstCounter, Torn);
      ssts := ssts[sstCounter := Torn];
    }

    /** Step 2: the file is complete. */
    method CompleteFile(rows: seq<Row>, ghost s: EngineSpec.State)
      requires Directory() == FlushDisk(s, 1) && sstCounter == s.counter + 1 && TableOf(rows) == s.mem
      modifies `ssts
      ensures ssts == old(ssts)[sstCounter := Whole(rows)] && Directory() == FlushDisk(s, 2)
    {
      OneFile(ssts, sstCounter, Whole(rows));
      ssts := ssts[sstCounter := Whole(rows)];
      assert s.disk.ssts[sstCounter := Partial][sstCounter := Complete(s.mem)] == s.disk.ssts[sstCounter := Complete(s.mem)];
    }

    /** The new table is opened with its file number as sequence and goes to the front. */
    method OpenFlushed(rows: seq<Row>)
      requires AllRowsSorted(sstables) && SortedRows(rows)
      modifies `sstables
      ensures AllRowsSorted(sstables)
      ensures ToReaders(sstables) == [Reader(sstCounter, sstCounter, TableOf(rows))] + old(ToReaders(sstables))
    {
      var t := SSTable(sstCounter, sstCounter, rows);
      NewFront(sstables, t);
      sstables := [t] + sstables;
    }

    /** Step 3: the next log exists. */
    method OpenNextLog(ghost s: EngineSpec.State)
      requires Directory() == FlushDisk(s, 2) && sstCounter == s.counter + 1
      modifies `currentWal, `wals
      ensures currentWal == sstCounter + 1 && wals == Touch(old(wals), currentWal)
      ensures Directory() == FlushDisk(s, 3)
    {
      OpenLog();
    }

    /** Step 4: the old log is gone. */
    method RemoveOldLog(oldWal: nat, ghost s: EngineSpec.State)
      requires Directory() == FlushDisk(s, 3) && oldWal == s.wal
      modifies `wals
      ensures wals == old(wals) - {oldWal} && Directory() == FlushDisk(s, 4)
    {
      wals := wals - {oldWal};
    }
  }

  lemma NewFront(tables: seq<SSTable>, t: SSTable)
    requires AllRowsSorted(tables) && SortedRows(t.rows)
    ensures AllRowsSorted([t] + tables) && ToReaders([t] + tables) == [ToReader(t)] + ToReaders(tables)
  {
    assert ToReaders([t] + tables)[1..] == ToReaders(tables);
  }

  lemma FirstSkips(tables: seq<SSTable>, i: nat, key: Bytes)
    requires i < |tables|
    ensures First(ToReaders(tables[i..]), key) ==
      if key in TableOf(tables[i].rows) then Some(ToReader(tables[i])) else First(ToReaders(tables[i + 1..]), key)
  {
    var rs := ToReaders(tables[i..]);
    assert rs[1..] == ToReaders(tables[i + 1..]);
  }

  ghost predicate SameView(s: EngineSpec.State, t: EngineSpec.State) {
    forall key :: EngineSpec.View(t, key) == EngineSpec.View(s, key)
  }

  /** The phases of a compaction change no answer of an iterator. */
  lemma KeepsView(s: EngineSpec.State, a: Action)
    requires Inv(s) && Enabled(s, a) && !a.Restart? && !a.DoPut? && !a.DoErase?
    ensures Inv(Step(s, a, 0)) && SameView(s, Step(s, a, 0))
  {
    StepView(s, a, 0, []);
    forall key ensures EngineSpec.View(Step(s, a, 0), key) == EngineSpec.View(s, key) {
      StepView(s, a, 0, key);
    }
  }

  /** What a whole compaction does: no answer changes, the list stays newest first, and unless nothing
      survives the merge one table is left, holding it. */
  ghost predicate IsCompaction(s: EngineSpec.State, t: EngineSpec.State) {
    Inv(t) && SameView(s, t) && (Ordered(s.readers) ==> Ordered(t.readers)) &&
    (|s.readers| > 1 && Compacted(s.readers) != map[] ==> t.readers == [Reader(t.counter, 0, Compacted(s.readers))])
  }

  ghost predicate IsInstalled(s: EngineSpec.State, t: EngineSpec.State)
    requires s.job.Built?
  {
    Inv(t) && SameView(s, t) &&
    t == s.(readers := [Output(s)], job := Idle, disk := s.disk.(ssts := s.disk.ssts - Files(s.job.inputs)))
  }

  lemma RemovalTurn(s: EngineSpec.State)
    requires s.job.Removing? && s.job.removed <= |s.job.inputs|
    ensures if s.job.removed < |s.job.inputs| then AllRemoved(Remove(s)) == AllRemoved(s) else Remove(s) == AllRemoved(s)
  {
    if s.job.removed < |s.job.inputs| { NextRemoved(s); } else { NoneLeft(s); }
  }

  /** What reopening shows afterwards is what the engine showed before, for every settled key. */
  ghost predicate Reopens(s: EngineSpec.State, t: EngineSpec.State)
    requires Durable(s)
  {
    forall key :: Settled(s, key) ==> EngineSpec.View(Reopen(t.disk), key) == EngineSpec.View(s, key)
  }

  lemma CompactionReopens(s: EngineSpec.State, t: EngineSpec.State)
    requires Durable(s) && s.job.Idle? && HasCompacted(s, t) && SameView(s, t)
    ensures Durable(t) && Reopens(s, t)
  {
    CompactedReopens(s, t, []);
    forall key | Settled(s, key) ensures EngineSpec.View(Reopen(t.disk), key) == EngineSpec.View(s, key) {
      CompactedReopens(s, t, key);
    }
  }

  lemma MergedState(s: EngineSpec.State)
    requires Inv(s) && s.job.Idle? && |s.readers| > 1
    ensures var t := Merge(Number(Snapshot(s)));
      Inv(t) && SameView(s, t) && t.readers == s.readers && t.counter == s.counter + 1 &&
      t.job == if Compacted(s.readers) == map[] then Idle else Built(s.readers, s.counter + 1)
  {
    KeepsView(s, StartCompaction);
    KeepsView(Snapshot(s), NumberTable);
    KeepsView(Number(Snapshot(s)), MergeTables);
  }

  lemma OneCompaction(s: EngineSpec.State, t: EngineSpec.State)
    requires Inv(s) && s.job.Idle? && |s.readers| > 1
    requires var m := Merge(Number(Snapshot(s))); if m.job.Built? then IsInstalled(m, t) else t == m
    ensures IsCompaction(s, t) && HasCompacted(s, t)
  {
    MergedState(s);
    MergedIs(s);
  }

  /** A swap with nothing flushed since the snapshot leaves one table. */
  lemma WholeSwap(s: EngineSpec.State, t: EngineSpec.State)
    requires Inv(s) && s.job.Built? && |s.readers| == |s.job.inputs| && t == AllRemoved(Swap(s))
    ensures IsInstalled(s, t)
  {
    KeepsView(s, SwapTables);
    SwappedIs(s);
  }

  // ----- iterators over tables -----

  function Cursors(runs: seq<seq<Entry>>): (children: seq<Merging.Cursor>)
    ensures |children| == |runs|
    ensures forall i :: 0 <= i < |runs| ==> children[i] == Merging.Cursor(runs[i], 0)
  {
    seq(|runs|, i requires 0 <= i < |runs| => Merging.Cursor(runs[i], 0))
  }

  lemma CursorsAre(runs: seq<seq<Entry>>)
    requires AllSorted(runs)
    ensures Merging.AllOk(Cursors(runs)) && Merging.Runs(Cursors(runs)) == runs
    ensures Merging.Rests(Cursors(runs)) == runs
  {
  }

  lemma RunsSorted(tables: seq<SSTable>)
    requires AllRowsSorted(tables)
    ensures AllSorted(Runs(tables))
  {
    forall i | 0 <= i < |tables| ensures Sorted(Runs(tables)[i]) {
      StampSorted(tables[i].rows, tables[i].sequence);
    }
  }

  /** The live value a merged stream shows for a key. */
  function Shown(run: seq<Entry>, key: Bytes): Option<Bytes> {
    var e := Find(run, key);
    if e.Some? then Live(e.value.val) else None
  }

  /** With the memtable above every table, merging by sequence number is the specification's view. */
  lemma IteratorShows(mem: seq<Row>, m: Table, tables: seq<SSTable>, key: Bytes)
    requires SortedRows(mem) && TableOf(mem) == m && AllRowsSorted(tables)
    requires Bounded(ToReaders(tables), SIZE_MAX - 1)
    ensures var runs := [Stamp(mem, SIZE_MAX)] + Runs(tables);
      AllSorted(runs) && Shown(Merging.Merged(runs), key) == Answer(m, Latest(ToReaders(tables), key), key) &&
      (Find(Merging.Merged(runs), key).Some? <==> key in m || Latest(ToReaders(tables), key).Some?)
  {
    var runs := [Stamp(mem, SIZE_MAX)] + Runs(tables);
    StampSorted(mem, SIZE_MAX);
    RunsSorted(tables);
    Merging.MergedCorrect(runs);
    StampFinds(mem, SIZE_MAX, key);
    RunsNewest(tables, key);
    NewestCons(Stamp(mem, SIZE_MAX), Runs(tables), key);
    var r := Latest(ToReaders(tables), key);
    if r.Some? {
      var i :| 0 <= i < |ToReaders(tables)| && ToReaders(tables)[i] == r.value;
    }
  }

  lemma MemDistinct(mem: seq<Row>, tables: seq<SSTable>)
    requires Unique(ToReaders(tables)) && Bounded(ToReaders(tables), SIZE_MAX - 1)
    ensures Distinct([Stamp(mem, SIZE_MAX)] + Runs(tables))
  {
    RunsDistinct(tables);
    forall j, l | 0 <= j < |tables| && 0 <= l < |Runs(tables)[j]| ensures Runs(tables)[j][l].sequence < SIZE_MAX {
      assert ToReaders(tables)[j].sequence < SIZE_MAX;
    }
    FrontDistinct(Stamp(mem, SIZE_MAX), Runs(tables));
  }

  lemma FrontDistinct(front: seq<Entry>, runs: seq<seq<Entry>>)
    requires Distinct(runs) && forall k :: 0 <= k < |front| ==> front[k].sequence == SIZE_MAX
    requires forall j, l :: 0 <= j < |runs| && 0 <= l < |runs[j]| ==> runs[j][l].sequence < SIZE_MAX
    ensures Distinct([front] + runs)
  {
    var all := [front] + runs;
    assert forall i :: 0 < i < |all| ==> all[i] == runs[i - 1];
  }

  /** The merge loop of a compaction. */
  method MergeInputs(inputs: seq<SSTable>) returns (rows: seq<Row>)
    requires AllRowsSorted(inputs) && Unique(ToReaders(inputs))
    ensures SortedRows(rows) && TableOf(rows) == Compacted(ToReaders(inputs))
  {
    var runs := Runs(inputs);
    RunsSorted(inputs);
    RunsDistinct(inputs);
    CursorsAre(runs);
    var it := new Merging.MergingIterator(Cursors(runs));
    assert Sorted(Merging.Merged(runs)) && forall key :: Find(Merging.Merged(runs), key) == Newest(runs, key) by {
      Merging.MergedCorrect(runs);
    }
    rows := WriteSurvivors(it);
    SurvivorsCompacted(inputs, Merging.Merged(runs));
  }

  method WriteSurvivors(it: Merging.MergingIterator) returns (rows: seq<Row>)
    requires it.Ok()
    modifies it
    ensures rows == Survivors(old(it.View()), None)
  {
    rows := [];
    var last: Option<Bytes> := None;
    ghost var run := it.View();
    ghost var all := Survivors(run, None);
    ghost var rest := all;
    while it.valid
      invariant it.Ok() && run == it.View() && rest == Survivors(run, last) && rows + rest == all
      decreases |run|
    {
      var entry := it.current;
      assert run[0] == entry;
      SurvivorsStep(run, last);
      if last != Some(entry.key) {
        last := Some(entry.key);
        if !entry.val.kind.Deletion? {
          rows := rows + [(entry.key, entry.val)];
        }
      }
      run := run[1..];
      rest := Survivors(run, last);
      assert rows + rest == all;
      it.Next();
    }
  }

  lemma SurvivorsStep(run: seq<Entry>, last: Option<Bytes>)
    requires run != []
    ensures Survivors(run, last) ==
      (if last != Some(run[0].key) && !run[0].val.kind.Deletion? then [(run[0].key, run[0].val)] else [])
      + Survivors(run[1..], Some(run[0].key))
  {
  }

  /** The open tables whose paths are not among the inputs', in order. */
  method Remaining(tables: seq<SSTable>, paths: set<nat>) returns (remaining: seq<SSTable>)
    requires AllRowsSorted(tables)
    ensures AllRowsSorted(remaining) && ToReaders(remaining) == Without(ToReaders(tables), paths)
  {
    remaining := [];
    assert tables[0..] == tables;
    for i := 0 to |tables|
      invariant AllRowsSorted(remaining)
      invariant ToReaders(remaining) + Without(ToReaders(tables[i..]), paths) == Without(ToReaders(tables), paths)
    {
      assert ToReaders(tables[i..])[1..] == ToReaders(tables[i + 1..]);
      if tables[i].file !in paths {
        assert ToReaders(remaining + [tables[i]]) == ToReaders(remaining) + [ToReader(tables[i])];
        remaining := remaining + [tables[i]];
      }
    }
    assert ToReaders(tables[|tables|..]) == [];
  }

  lemma InputFiles(inputs: seq<SSTable>)
    ensures (set t | t in inputs :: t.file) == Files(ToReaders(inputs))
  {
    forall t | t in inputs ensures t.file in Files(ToReaders(inputs)) {
      var i :| 0 <= i < |inputs| && inputs[i] == t;
      assert ToReaders(inputs)[i] in ToReaders(inputs);
    }
    forall r | r in ToReaders(inputs) ensures r.file in set t | t in inputs :: t.file {
      var i :| 0 <= i < |inputs| && ToReaders(inputs)[i] == r;
      assert inputs[i] in inputs;
    }
  }

  // ----- the order of names -----

  ghost predicate BelowMillion(numbers: set<nat>) {
    forall n :: n in numbers ==> n < 1_000_000
  }

  /** `order` lists the numbers, none before one whose name sorts before its own. */
  ghost predicate ByName(order: seq<nat>, numbers: set<nat>, extension: Bytes) {
    (forall i, j :: 0 <= i < j < |order| ==>
      order[i] != order[j] && !Less(FileName(order[j], extension), FileName(order[i], extension))) &&
    (forall n :: n in order <==> n in numbers)
  }

  lemma NamesAreNumbers(order: seq<nat>, numbers: set<nat>, extension: Bytes)
    requires ByName(order, numbers, extension) && BelowMillion(numbers)
    ensures Lists(order, numbers)
  {
    forall i, j | 0 <= i < j < |order| ensures order[i] < order[j] {
      assert order[i] in numbers && order[j] in numbers;
      if order[j] < order[i] { NamesBelowMillion(order[j], order[i], extension); }
    }
  }

  ghost predicate OpenedBy(tables: seq<SSTable>, ssts: map<nat, File>, order: seq<nat>) {
    ByName(order, ssts.Keys, SST) && tables == OpenAll(ssts, order)
  }

  /** The tables are open in the descending order of their names. */
  ghost predicate TablesByName(tables: seq<SSTable>, ssts: map<nat, File>) {
    exists order :: OpenedBy(tables, ssts, order)
  }

  ghost predicate ReplayedBy(mem: Table, wals: map<nat, seq<Record>>, order: seq<nat>) {
    ByName(order, wals.Keys, LOG) && mem == ReplayAll(wals, order)
  }

  /** The memtable is the replay of the logs in the ascending order of their names. */
  ghost predicate LogsByName(mem: Table, wals: map<nat, seq<Record>>) {
    exists order :: ReplayedBy(mem, wals, order)
  }

  /** What opening a directory makes of it, whatever its numbers. */
  ghost predicate IsOpened(s: EngineSpec.State, tables: seq<SSTable>, files: map<nat, File>, logs: map<nat, seq<Record>>) {
    s.readers == ToReaders(tables) && TablesByName(tables, files) && LogsByName(s.mem, logs) &&
    s.counter == Max(files.Keys) && s.wal == s.counter + 1 &&
    s.disk == Disk(ToFiles(files), Touch(logs, s.wal)) && s.job == Idle
  }

  lemma OpenedState(s: EngineSpec.State, tables: seq<SSTable>, files: map<nat, File>, logs: map<nat, seq<Record>>)
    requires IsOpened(s, tables, files, logs) && BelowMillion(files.Keys) && BelowMillion(logs.Keys)
    ensures s == Reopen(Disk(ToFiles(files), logs))
  {
    TablesInOrder(tables, files);
    LogsInOrder(s.mem, logs);
    assert ToFiles(files).Keys == files.Keys;
  }

  lemma NamedTables(tables: seq<SSTable>, ssts: map<nat, File>, order: seq<nat>)
    requires OpenedBy(tables, ssts, order)
    ensures TablesByName(tables, ssts)
    ensures BelowMillion(ssts.Keys) ==> ToReaders(tables) == ReadersBelow(ToFiles(ssts), Max(ssts.Keys) + 1)
  {
    if BelowMillion(ssts.Keys) {
      NamesAreNumbers(order, ssts.Keys, SST);
      OrderOpened(ssts, order);
    }
  }

  lemma OrderOpened(ssts: map<nat, File>, order: seq<nat>)
    requires Lists(order, ssts.Keys)
    ensures ToReaders(OpenAll(ssts, order)) == ReadersBelow(ToFiles(ssts), Max(ssts.Keys) + 1)
  {
    AllBelow(order, ssts.Keys);
    OpenedAre(ssts, order, |order|, Max(ssts.Keys) + 1);
    assert order[..|order|] == order;
  }

  lemma TablesInOrder(tables: seq<SSTable>, ssts: map<nat, File>)
    requires TablesByName(tables, ssts) && BelowMillion(ssts.Keys)
    ensures ToReaders(tables) == ReadersBelow(ToFiles(ssts), Max(ssts.Keys) + 1)
  {
    var order :| OpenedBy(tables, ssts, order);
    NamedTables(tables, ssts, order);
  }

  lemma NamedLogs(mem: Table, wals: map<nat, seq<Record>>, order: seq<nat>)
    requires ReplayedBy(mem, wals, order)
    ensures LogsByName(mem, wals)
    ensures BelowMillion(wals.Keys) ==> mem == ReplayBelow(wals, Max(wals.Keys) + 1)
  {
    if BelowMillion(wals.Keys) {
      NamesAreNumbers(order, wals.Keys, LOG);
      OrderReplayed(wals, order);
    }
  }

  lemma OrderReplayed(wals: map<nat, seq<Record>>, order: seq<nat>)
    requires Lists(order, wals.Keys)
    ensures ReplayAll(wals, order) == ReplayBelow(wals, Max(wals.Keys) + 1)
  {
    AllBelow(order, wals.Keys);
    ReplayedAre(wals, order, |order|, Max(wals.Keys) + 1);
    assert order[..|order|] == order;
  }

  lemma LogsInOrder(mem: Table, wals: map<nat, seq<Record>>)
    requires LogsByName(mem, wals) && BelowMillion(wals.Keys)
    ensures mem == ReplayBelow(wals, Max(wals.Keys) + 1)
  {
    var order :| ReplayedBy(mem, wals, order);
    NamedLogs(mem, wals, order);
  }

  /** The highest number of a listing, 0 if there is none. */
  method Highest(order: seq<nat>, ghost numbers: set<nat>) returns (counter: nat)
    requires forall n :: n in order <==> n in numbers
    ensures counter == Max(numbers)
  {
    counter := 0;
    for i := 0 to |order|
      invariant forall j :: 0 <= j < i ==> order[j] <= counter
      invariant counter == 0 || counter in numbers
    {
      if order[i] > counter {
        counter := order[i];
      }
    }
    MaxIs(numbers, counter);
  }

  lemma AllBelow(order: seq<nat>, numbers: set<nat>)
    requires Lists(order, numbers)
    ensures Cut(order, |order|, Max(numbers) + 1)
  {
    assert forall j :: 0 <= j < |order| ==> order[j] in numbers;
  }

  /** The numbers below a bound are a prefix of the sorted directory. */
  ghost predicate Cut(order: seq<nat>, i: nat, bound: nat) {
    i <= |order| && forall j :: 0 <= j < |order| ==> (j < i <==> order[j] < bound)
  }

  ghost predicate Lists(order: seq<nat>, numbers: set<nat>) {
    (forall i, j :: 0 <= i < j < |order| ==> order[i] < order[j]) &&
    (forall n :: n in order <==> n in numbers)
  }

  /** The reader of a file, unless the file is rejected. */
  function OpenOne(f: File, n: nat): seq<SSTable> {
    if f.Whole? then [SSTable(n, n, f.rows)] else []
  }

  /** Files opened from the last of a list to the first, rejected ones left out. */
  function OpenAll(ssts: map<nat, File>, order: seq<nat>): seq<SSTable>
    requires forall n :: n in order ==> n in ssts
  {
    if order == [] then []
    else
      var n := |order| - 1;
      OpenOne(ssts[order[n]], order[n]) + OpenAll(ssts, order[..n])
  }

  lemma {:induction false} OpenAllSorted(ssts: map<nat, File>, order: seq<nat>)
    requires forall n :: n in order ==> n in ssts
    requires FilesSorted(ssts)
    ensures AllRowsSorted(OpenAll(ssts, order))
  {
    if order != [] { OpenAllSorted(ssts, order[..|order| - 1]); }
  }

  /** Logs replayed from the first of a list to the last. */
  function ReplayAll(wals: map<nat, seq<Record>>, order: seq<nat>): Table
    requires forall n :: n in order ==> n in wals
  {
    if order == [] then map[]
    else
      var n := |order| - 1;
      Replay(ReplayAll(wals, order[..n]), wals[order[n]])
  }

  method OpenNewestFirst(ssts: map<nat, File>, order: seq<nat>) returns (tables: seq<SSTable>)
    requires forall n :: n in order ==> n in ssts
    ensures tables == OpenAll(ssts, order)
  {
    tables := [];
    assert order[..|order|] == order;
    for i := |order| downto 0
      invariant tables + OpenAll(ssts, order[..i]) == OpenAll(ssts, order)
    {
      OpenTurn(ssts, order, i, tables);
      tables := tables + OpenOne(ssts[order[i]], order[i]);
    }
    assert tables + [] == tables;
  }

  lemma OpenTurn(ssts: map<nat, File>, order: seq<nat>, i: nat, tables: seq<SSTable>)
    requires i < |order| && forall n :: n in order ==> n in ssts
    ensures tables + OpenAll(ssts, order[..i + 1]) == (tables + OpenOne(ssts[order[i]], order[i])) + OpenAll(ssts, order[..i])
  {
    assert order[..i + 1][..i] == order[..i];
    Regrouped(tables, OpenOne(ssts[order[i]], order[i]), OpenAll(ssts, order[..i]));
  }

  lemma Regrouped(a: seq<SSTable>, b: seq<SSTable>, c: seq<SSTable>)
    ensures a + (b + c) == (a + b) + c
  {
  }

  lemma NoneOpened(ssts: map<nat, File>, order: seq<nat>, bound: nat)
    requires Lists(order, ssts.Keys) && Cut(order, 0, bound)
    ensures ReadersBelow(ToFiles(ssts), bound) == []
  {
    NoneBelow(order, ssts.Keys, bound);
    ReadersBelowSkip(ToFiles(ssts), 0, bound);
  }

  lemma NoneSkipped(ssts: map<nat, File>, order: seq<nat>, i: nat, bound: nat)
    requires Lists(order, ssts.Keys) && i < |order| && Cut(order, i + 1, bound)
    ensures order[i] in ssts && Cut(order, i, order[i])
    ensures ReadersBelow(ToFiles(ssts), bound) == ReadersBelow(ToFiles(ssts), order[i] + 1)
  {
    NoneFrom(order, ssts.Keys, i, bound);
    ReadersBelowSkip(ToFiles(ssts), order[i] + 1, bound);
  }

  lemma {:induction false} OpenedAre(ssts: map<nat, File>, order: seq<nat>, i: nat, bound: nat)
    requires Lists(order, ssts.Keys) && Cut(order, i, bound)
    ensures ToReaders(OpenAll(ssts, order[..i])) == ReadersBelow(ToFiles(ssts), bound)
  {
    if i == 0 {
      NoneOpened(ssts, order, bound);
    } else {
      NoneSkipped(ssts, order, i - 1, bound);
      OpenedAre(ssts, order, i - 1, order[i - 1]);
      OneMoreOpened(ssts, order, i - 1, order[i - 1]);
    }
  }

  lemma OneMoreOpened(ssts: map<nat, File>, order: seq<nat>, i: nat, n: nat)
    requires i < |order| && order[i] == n && forall m :: m in order ==> m in ssts
    requires ToReaders(OpenAll(ssts, order[..i])) == ReadersBelow(ToFiles(ssts), n)
    ensures ToReaders(OpenAll(ssts, order[..i + 1])) == ReadersBelow(ToFiles(ssts), n + 1)
  {
    assert order[..i + 1][..i] == order[..i];
    ReadersJoin(OpenOne(ssts[n], n), OpenAll(ssts, order[..i]));
    OneOpened(ssts[n], n);
  }

  lemma ReadersJoin(a: seq<SSTable>, b: seq<SSTable>)
    ensures ToReaders(a + b) == ToReaders(a) + ToReaders(b)
  {
  }

  lemma OneOpened(f: File, n: nat)
    ensures ToReaders(OpenOne(f, n)) == if f.Whole? then [Reader(n, n, TableOf(f.rows))] else []
  {
  }

  lemma {:induction false} ReplayedAre(wals: map<nat, seq<Record>>, order: seq<nat>, i: nat, bound: nat)
    requires Lists(order, wals.Keys) && Cut(order, i, bound)
    ensures ReplayAll(wals, order[..i]) == ReplayBelow(wals, bound)
  {
    if i == 0 {
      NoneBelow(order, wals.Keys, bound);
      ReplayBelowBeyond(wals, 0, bound);
    } else {
      var n := order[i - 1];
      NoneFrom(order, wals.Keys, i - 1, bound);
      ReplayBelowBeyond(wals, n + 1, bound);
      ReplayedAre(wals, order, i - 1, n);
      assert order[..i][..i - 1] == order[..i - 1];
    }
  }

  lemma NoneFrom(order: seq<nat>, numbers: set<nat>, i: nat, bound: nat)
    requires Lists(order, numbers) && i < |order| && Cut(order, i + 1, bound)
    ensures order[i] < bound && order[i] in numbers
    ensures forall w :: order[i] < w < bound ==> w !in numbers
    ensures Cut(order, i, order[i])
  {
    forall w | w in numbers ensures w <= order[i] || w >= bound {
      var j :| 0 <= j < |order| && order[j] == w;
    }
  }

  lemma NoneBelow(order: seq<nat>, numbers: set<nat>, bound: nat)
    requires Lists(order, numbers) && Cut(order, 0, bound)
    ensures forall w :: w < bound ==> w !in numbers
  {
    forall w | w in numbers ensures w >= bound {
      var j :| 0 <= j < |order| && order[j] == w;
    }
  }

  lemma ListingRows(rows: seq<Row>, m: Table)
    requires Listing(rows, m, [])
    ensures SortedRows(rows) && TableOf(rows) == m
  {
    forall key | key in m ensures exists i :: 0 <= i < |rows| && rows[i].0 == key {
      assert Listed(rows, key);
    }
    TableOfListing(rows, m);
  }

  /** The extensions ".sst" and ".log" without the dot. */
  const SST: Bytes := [115, 115, 116]
  const LOG: Bytes := [108, 111, 103]

  /** The directory listing as `std::sort` leaves it: by file name. */
  method SortedByName(numbers: set<nat>, extension: Bytes) returns (order: seq<nat>)
    ensures ByName(order, numbers, extension)
    ensures BelowMillion(numbers) ==> Lists(order, numbers)
  {
    order := [];
    var rest := numbers;
    ghost var listed: set<nat> := {};
    while rest != {}
      invariant Sorting(order, listed, rest, numbers, extension)
      decreases |rest|
    {
      assert exists first :: first in rest && IsFirstName(rest, extension, first) by {
        var first := FirstName(rest, extension);
      }
      var first :| first in rest && IsFirstName(rest, extension, first);
      OneMoreName(order, listed, rest, numbers, extension, first);
      order, listed := order + [first], listed + {first};
      rest := rest - {first};
    }
    AllNamed(order, listed, rest, numbers, extension);
    if BelowMillion(numbers) { NamesAreNumbers(order, numbers, extension); }
  }

  /** Part of the names sorted, the rest behind them. */
  ghost predicate Sorting(order: seq<nat>, listed: set<nat>, rest: set<nat>, numbers: set<nat>, extension: Bytes) {
    listed !! rest && listed + rest == numbers && ByName(order, listed, extension) && NamesBefore(order, rest, extension)
  }

  lemma AllNamed(order: seq<nat>, listed: set<nat>, rest: set<nat>, numbers: set<nat>, extension: Bytes)
    requires Sorting(order, listed, rest, numbers, extension) && rest == {}
    ensures ByName(order, numbers, extension)
  {
    assert listed == numbers;
  }

  ghost predicate NamesBefore(order: seq<nat>, rest: set<nat>, extension: Bytes) {
    forall i, n :: 0 <= i < |order| && n in rest ==> !Less(FileName(n, extension), FileName(order[i], extension))
  }

  lemma OneMoreName(order: seq<nat>, listed: set<nat>, rest: set<nat>, numbers: set<nat>, extension: Bytes, first: nat)
    requires Sorting(order, listed, rest, numbers, extension)
    requires first in rest && IsFirstName(rest, extension, first)
    ensures Sorting(order + [first], listed + {first}, rest - {first}, numbers, extension)
  {
    forall i | 0 <= i < |order| ensures order[i] != first { assert order[i] in listed; }
  }

  predicate IsFirstName(numbers: set<nat>, extension: Bytes, first: nat) {
    forall n :: n in numbers ==> !Less(FileName(n, extension), FileName(first, extension))
  }

  lemma {:induction false} FirstName(numbers: set<nat>, extension: Bytes) returns (first: nat)
    requires numbers != {}
    ensures first in numbers && IsFirstName(numbers, extension, first)
    decreases |numbers|
  {
    first :| first in numbers;
    var rest := numbers - {first};
    if rest != {} {
      var other := FirstName(rest, extension);
      assert forall n :: n in numbers ==> n in rest || n == first;
      if Less(FileName(other, extension), FileName(first, extension)) { first := other; }
    } else {
      assert numbers == {first};
    }
  }

  lemma MaxIs(numbers: set<nat>, m: nat)
    requires (forall n :: n in numbers ==> n <= m) && (m == 0 || m in numbers)
    ensures Max(numbers) == m
  {
  }

  lemma {:induction false} ReadersBelowSkip(ssts: map<nat, SstFile>, n: nat, m: nat)
    requires n <= m && forall k :: n <= k < m ==> k !in ssts
    ensures ReadersBelow(ssts, m) == ReadersBelow(ssts, n)
  {
    if n < m { ReadersBelowSkip(ssts, n, m - 1); }
  }
}
