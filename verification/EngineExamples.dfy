/** Concrete runs on which the guards of the recovery theorems matter. */
module EngineExamples {
  import opened ByteStrings
  import opened Entries
  import opened EngineSpec
  import opened EngineView
  import opened EngineRecovery
  import opened EngineRuns

  lemma SafeOne(s: State, a: Action)
    requires Durable(s) && Enabled(s, a) && Safe(s, a, 100)
    ensures CanRun(s, [a], 100) && Run(s, [a], 100) == Step(s, a, 100) && Durable(Step(s, a, 100))
  {
    StepDurable(s, a, 100, []);
    assert Run(Step(s, a, 100), [], 100) == Step(s, a, 100);
  }

  /** A small write that does not fill the memtable. */
  lemma SafeWrite(s: State, a: Action)
    requires Durable(s) && |s.mem| < 99 && (a.DoPut? || a.DoErase?)
    ensures CanRun(s, [a], 100) && Run(s, [a], 100) == Step(s, a, 100) && Durable(Step(s, a, 100))
    ensures Step(s, a, 100) == Log(s, if a.DoPut? then PutRecord(a.key, a.value) else EraseRecord(a.key))
    ensures SoleLog(s) ==> SoleLog(Step(s, a, 100))
  {
    SafeOne(s, a);
  }

  lemma SafeFlushStep(s: State)
    requires Durable(s) && SoleLog(s) && s.mem != map[]
    ensures CanRun(s, [ForceFlush], 100) && Run(s, [ForceFlush], 100) == Flush(s) && Durable(Flush(s))
    ensures SoleLog(Flush(s)) && Flush(s).wal == Flush(s).counter + 1
  {
    SafeOne(s, ForceFlush);
    FlushKeepsLog(s);
  }

  /** The log of before the reopening is what a later flush leaves behind. */
  lemma LeftBehind(a: State, r: Record)
    requires LogInv(a) && a.wal < Max(a.disk.ssts.Keys) + 1
    ensures var c := Log(Reopen(a.disk), r);
      ReplayBelow(c.disk.wals - {c.wal}, c.wal) == a.mem && forall w :: w in c.disk.wals ==> w <= c.wal
  {
    var c := Log(Reopen(a.disk), r);
    ReplayBelowSame(c.disk.wals - {c.wal}, a.disk.wals, c.wal);
    ReplayBelowBeyond(a.disk.wals, a.wal + 1, c.wal);
  }

  /** Once a compaction has moved the counter past the current log, a put, a reopening, a second put,
      a flush and another reopening bring the first value back. */
  lemma SecondPutLost(s: State, k: Bytes, v2: Bytes, v3: Bytes)
    requires Durable(s) && SoleLog(s) && s.mem == map[] && Recoverable(s) && s.wal <= s.counter
    ensures var actions := [DoPut(k, v2)] + ([Restart] + ([DoPut(k, v3)] + ([ForceFlush] + [Restart])));
      CanRun(s, actions, 100) && View(Run(s, actions, 100), k) == Some(v2)
  {
    SafeWrite(s, DoPut(k, v2));
    var a := Log(s, PutRecord(k, v2));
    SafeOne(a, Restart);
    var b := Reopen(a.disk);
    RestartLog(a);
    RestartSettled(a.disk, k);
    LogSettled(b, PutRecord(k, v3), k);
    SafeWrite(b, DoPut(k, v3));
    var c := Log(b, PutRecord(k, v3));
    LeftBehind(a, PutRecord(k, v3));
    ReopenFlushed(c, k);
    StepView(c, ForceFlush, 100, k);
    var d := Flush(c);
    RunTwo(c, ForceFlush, Restart);
    RunAppend(b, [DoPut(k, v3)], [ForceFlush] + [Restart], 100);
    RunAppend(a, [Restart], [DoPut(k, v3)] + ([ForceFlush] + [Restart]), 100);
    RunAppend(s, [DoPut(k, v2)], [Restart] + ([DoPut(k, v3)] + ([ForceFlush] + [Restart])), 100);
  }

  lemma RunTwo(s: State, a: Action, b: Action)
    requires Enabled(s, a) && Enabled(Step(s, a, 100), b)
    ensures CanRun(s, [a] + [b], 100) && Run(s, [a] + [b], 100) == Step(Step(s, a, 100), b, 100)
  {
    var t := Step(s, a, 100);
    RunCons(t, b, [], 100);
    RunCons(s, a, [b], 100);
    assert [b] + [] == [b];
  }

  lemma DurablePutAndFlush(s: State, k: Bytes, v: Bytes)
    requires Durable(s) && SoleLog(s) && s.mem == map[]
    ensures CanRun(s, [DoPut(k, v), ForceFlush], 100)
    ensures var t := Run(s, [DoPut(k, v), ForceFlush], 100);
      Durable(t) && SoleLog(t) && t.mem == map[] && t.counter == s.counter + 1 && t.wal == t.counter + 1 &&
      t.job == s.job && t.readers == [Reader(t.counter, t.counter, map[k := TableValue(Value, v)])] + s.readers
  {
    PutAndFlush(s, k, v);
    SafeWrite(s, DoPut(k, v));
    var p := Log(s, PutRecord(k, v));
    SafeFlushStep(p);
    assert [DoPut(k, v), ForceFlush][1..] == [ForceFlush];
  }

  lemma PhasesDurable(s: State, key: Bytes)
    requires Durable(s) && s.job.Snapped? && Compacted(s.job.inputs) != map[]
    ensures Durable(Swap(Merge(Number(s))))
    ensures Settled(s, key) ==> Settled(Swap(Merge(Number(s))), key)
  {
    StepDurable(s, NumberTable, 100, key);
    StepDurable(Number(s), MergeTables, 100, key);
    StepDurable(Merge(Number(s)), SwapTables, 100, key);
  }

  lemma FinishDurable(s: State, key: Bytes)
    requires Durable(s) && s.job.Snapped? && Compacted(s.job.inputs) != map[]
    ensures CanRun(s, FINISH, 100)
    ensures var t := Run(s, FINISH, 100);
      Durable(t) && (Settled(s, key) ==> Settled(t, key)) && t.mem == s.mem && t.counter == s.counter + 1 &&
      t.wal == s.wal && t.disk.wals == s.disk.wals && t.job == Removing(s.job.inputs, t.counter, 0) &&
      t.readers == [Reader(t.counter, 0, Compacted(s.job.inputs))] + SinceSnapshot(s)
  {
    FinishCompaction(s);
    PhasesDurable(s, key);
  }

  lemma DurableCompaction(s: State, key: Bytes)
    requires Durable(s) && s.job.Idle? && |s.readers| > 1 && Compacted(s.readers) != map[]
    ensures CanRun(s, [StartCompaction] + FINISH, 100)
    ensures var t := Run(s, [StartCompaction] + FINISH, 100);
      Durable(t) && (Settled(s, key) ==> Settled(t, key)) && t.mem == s.mem && t.counter == s.counter + 1 &&
      t.wal == s.wal && t.disk.wals == s.disk.wals && t.job == Removing(s.readers, t.counter, 0) &&
      t.readers == [Reader(t.counter, 0, Compacted(s.readers))]
  {
    SafeOne(s, StartCompaction);
    if Settled(s, key) { SnapshotSettled(s, key); }
    FinishDurable(Snapshot(s), key);
    RunAppend(s, [StartCompaction], FINISH, 100);
  }

  lemma TwoFlushed(k: Bytes, j: Bytes, v: Bytes) returns (s: State)
    requires k != j
    ensures var actions := [DoPut(k, v), ForceFlush] + [DoPut(j, v), ForceFlush];
      CanRun(Fresh(), actions, 100) && Run(Fresh(), actions, 100) == s
    ensures Durable(s) && SoleLog(s) && s.mem == map[] && s.job.Idle? && s.wal == s.counter + 1 && |s.readers| == 2
    ensures k in Compacted(s.readers) && Compacted(s.readers)[k] == TableValue(Value, v)
  {
    FreshIsDurable(k);
    DurablePutAndFlush(Fresh(), k, v);
    var s2 := Run(Fresh(), [DoPut(k, v), ForceFlush], 100);
    DurablePutAndFlush(s2, j, v);
    s := Run(s2, [DoPut(j, v), ForceFlush], 100);
    OlderHolds(s.readers[0], s.readers[1], k, v);
    assert s.readers == [s.readers[0], s.readers[1]];
    RunAppend(Fresh(), [DoPut(k, v), ForceFlush], [DoPut(j, v), ForceFlush], 100);
  }

  /** From an empty directory: the log a compaction leaves behind undoes a flushed put. */
  lemma LostPut(k: Bytes, j: Bytes, v1: Bytes, v2: Bytes, v3: Bytes)
    requires k != j && v2 != v3
    ensures var actions := ([DoPut(k, v1), ForceFlush] + [DoPut(j, v1), ForceFlush]) + (([StartCompaction] + FINISH) +
              ([DoPut(k, v2)] + ([Restart] + ([DoPut(k, v3)] + ([ForceFlush] + [Restart])))));
      CanRun(Fresh(), actions, 100) && View(Run(Fresh(), actions, 100), k) == Some(v2)
  {
    var s := TwoFlushed(k, j, v1);
    DurableCompaction(s, k);
    var t := Run(s, [StartCompaction] + FINISH, 100);
    assert SoleLog(t);
    SecondPutLost(t, k, v2, v3);
    var tail := [DoPut(k, v2)] + ([Restart] + ([DoPut(k, v3)] + ([ForceFlush] + [Restart])));
    RunAppend(s, [StartCompaction] + FINISH, tail, 100);
    RunAppend(Fresh(), [DoPut(k, v1), ForceFlush] + [DoPut(j, v1), ForceFlush], ([StartCompaction] + FINISH) + tail, 100);
  }

  lemma DurableEraseAndFlush(s: State, k: Bytes, j: Bytes, v: Bytes)
    requires Durable(s) && SoleLog(s) && s.mem == map[] && s.job.Idle? && k != j
    ensures CanRun(s, [DoErase(k)] + ([DoPut(j, v)] + [ForceFlush]), 100)
    ensures var t := Run(s, [DoErase(k)] + ([DoPut(j, v)] + [ForceFlush]), 100);
      Durable(t) && t.mem == map[] && t.job.Idle? && t.counter == s.counter + 1 &&
      t.readers == [Reader(t.counter, t.counter, map[k := TableValue(Deletion, []), j := TableValue(Value, v)])] + s.readers
  {
    SafeWrite(s, DoErase(k));
    var a := Erase(s, k);
    SafeWrite(a, DoPut(j, v));
    var b := Log(a, PutRecord(j, v));
    SafeFlushStep(b);
    RunAppend(a, [DoPut(j, v)], [ForceFlush], 100);
    RunAppend(s, [DoErase(k)], [DoPut(j, v)] + [ForceFlush], 100);
  }

  lemma FirstRemoved(t: State, c: Reader, newer: Reader, older: Reader, k: Bytes, v: Bytes)
    requires Durable(t) && Settled(t, k) && t.mem == map[] && t.readers == [c] && k !in c.table
    requires k in older.table && older.table[k] == TableValue(Value, v)
    requires t.job.Removing? && t.job.removed == 0 && t.job.inputs == [newer, older]
    ensures Durable(Remove(t)) && View(Reopen(Remove(t).disk), k) == Some(v)
  {
    StepDurable(t, RemoveInput, 100, k);
    FirstRemovedAnswer(Remove(t), c, newer, older, k, v);
  }

  lemma FirstRemovedAnswer(u: State, c: Reader, newer: Reader, older: Reader, k: Bytes, v: Bytes)
    requires Durable(u) && Settled(u, k) && u.mem == map[] && u.readers == [c] && k !in c.table
    requires k in older.table && older.table[k] == TableValue(Value, v)
    requires u.job.Removing? && u.job.inputs == [newer, older] && u.job.removed == 1
    ensures View(Reopen(u.disk), k) == Some(v)
  {
    OldVersionLeft(c, newer, older, k);
    RemovalReopen(u, k);
  }

  lemma OldVersionLeft(c: Reader, newer: Reader, older: Reader, k: Bytes)
    requires k !in c.table && k in older.table
    ensures Latest([c], k) == None && Latest([newer, older][1..], k) == Some(older)
  {
    assert [c][1..] == [] && [newer, older][1..] == [older] && [older][1..] == [];
  }

  lemma TwoSettled(s: State, newer: Reader, older: Reader, key: Bytes)
    requires JobFiles(s) && s.job.Idle? && s.readers == [newer] + [older]
    requires newer.sequence == newer.file > older.file == older.sequence
    ensures Settled(s, key)
  {
  }

  /** A compaction of a table holding a key under one holding its tombstone, its newer input already
      removed when the engine goes down. */
  lemma TombstoneGone(s: State, newer: Reader, older: Reader, k: Bytes, v: Bytes)
    requires Durable(s) && Settled(s, k) && s.mem == map[] && s.job.Idle? && s.readers == [newer, older]
    requires k !in Compacted([newer, older]) && Compacted([newer, older]) != map[]
    requires k in older.table && older.table[k] == TableValue(Value, v)
    ensures var actions := ([StartCompaction] + FINISH) + ([RemoveInput] + [Restart]);
      CanRun(s, actions, 100) && View(Run(s, actions, 100), k) == Some(v)
  {
    DurableCompaction(s, k);
    var t := Run(s, [StartCompaction] + FINISH, 100);
    FirstRemoved(t, Reader(t.counter, 0, Compacted([newer, older])), newer, older, k, v);
    RunTwo(t, RemoveInput, Restart);
    RunAppend(s, [StartCompaction] + FINISH, [RemoveInput] + [Restart], 100);
  }

  lemma TombstoneDropped(newer: Reader, older: Reader, k: Bytes, j: Bytes, v: Bytes)
    requires k != j && newer.sequence > older.sequence
    requires newer.table == map[k := TableValue(Deletion, []), j := TableValue(Value, v)]
    requires older.table == map[k := TableValue(Value, v)]
    ensures k !in Compacted([newer, older]) && j in Compacted([newer, older])
  {
    assert [newer, older][1..] == [older] && Latest([older], k) == Some(older) && Latest([older], j) == None;
    CompactedFinds([newer, older], k);
    CompactedFinds([newer, older], j);
  }

  lemma FirstTable(k: Bytes, v: Bytes) returns (s: State)
    ensures CanRun(Fresh(), [DoPut(k, v), ForceFlush], 100) && Run(Fresh(), [DoPut(k, v), ForceFlush], 100) == s
    ensures Durable(s) && SoleLog(s) && s.mem == map[] && s.job.Idle? && s.counter == 1
    ensures s.readers == [Reader(1, 1, map[k := TableValue(Value, v)])]
  {
    FreshIsDurable(k);
    DurablePutAndFlush(Fresh(), k, v);
    s := Run(Fresh(), [DoPut(k, v), ForceFlush], 100);
    NothingBehind(Reader(1, 1, map[k := TableValue(Value, v)]));
  }

  /** A table that holds a key, and above it one that holds its tombstone. */
  lemma ErasedTables(k: Bytes, j: Bytes, v: Bytes) returns (s: State)
    requires k != j
    ensures var actions := [DoPut(k, v), ForceFlush] + ([DoErase(k)] + ([DoPut(j, v)] + [ForceFlush]));
      CanRun(Fresh(), actions, 100) && Run(Fresh(), actions, 100) == s
    ensures Durable(s) && s.mem == map[] && s.job.Idle?
    ensures s.readers == [Reader(2, 2, map[k := TableValue(Deletion, []), j := TableValue(Value, v)])] +
      [Reader(1, 1, map[k := TableValue(Value, v)])]
  {
    var first := FirstTable(k, v);
    DurableEraseAndFlush(first, k, j, v);
    s := Run(first, [DoErase(k)] + ([DoPut(j, v)] + [ForceFlush]), 100);
    RunAppend(Fresh(), [DoPut(k, v), ForceFlush], [DoErase(k)] + ([DoPut(j, v)] + [ForceFlush]), 100);
  }

  /** From an empty directory: a crash after the first removal brings an erased key back. */
  lemma ErasedKeyReturns(k: Bytes, j: Bytes, v: Bytes)
    requires k != j
    ensures var actions := ([DoPut(k, v), ForceFlush] + ([DoErase(k)] + ([DoPut(j, v)] + [ForceFlush]))) +
              (([StartCompaction] + FINISH) + ([RemoveInput] + [Restart]));
      CanRun(Fresh(), actions, 100) && View(Run(Fresh(), actions, 100), k) == Some(v)
  {
    var s := ErasedTables(k, j, v);
    TwoSettled(s, s.readers[0], s.readers[1], k);
    TombstoneDropped(s.readers[0], s.readers[1], k, j, v);
    assert s.readers == [s.readers[0], s.readers[1]];
    TombstoneGone(s, s.readers[0], s.readers[1], k, v);
    var first := [DoPut(k, v), ForceFlush] + ([DoErase(k)] + ([DoPut(j, v)] + [ForceFlush]));
    RunAppend(Fresh(), first, ([StartCompaction] + FINISH) + ([RemoveInput] + [Restart]), 100);
  }

  // ----- a flush between snapshot and numbering -----

  lemma RemoveBoth(s: State)
    requires Durable(s) && s.job.Removing? && s.job.removed == 0 && |s.job.inputs| == 2
    ensures CanRun(s, [RemoveInput, RemoveInput, RemoveInput], 100)
    ensures var t := Run(s, [RemoveInput, RemoveInput, RemoveInput], 100);
      Durable(t) && t.job.Idle? && t.mem == s.mem && t.readers == s.readers
  {
    StepDurable(s, RemoveInput, 100, []);
    StepDurable(Remove(s), RemoveInput, 100, []);
    StepDurable(Remove(Remove(s)), RemoveInput, 100, []);
    RunThree(s, RemoveInput, RemoveInput, RemoveInput);
  }

  lemma RaceDecided(s: State, c: Reader, raced: Reader, k: Bytes, v1: Bytes, v2: Bytes)
    requires Durable(s) && s.job.Idle? && s.mem == map[] && s.readers == [c] + [raced]
    requires c.sequence == 0 && raced.sequence == raced.file < c.file
    requires k in c.table && c.table[k] == TableValue(Value, v1)
    requires k in raced.table && raced.table[k] == TableValue(Value, v2)
    ensures View(s, k) == Some(v2) && View(Reopen(s.disk), k) == Some(v1)
  {
    assert s.readers[1..] == [raced] && [raced][1..] == [];
    FrontLatest(c, [raced], k);
    WinnerReopened(s, k);
  }

  /** The compaction of tables that hold the old value, once a new value has been flushed inside its window. */
  lemma RaceRuns(s: State, k: Bytes, v1: Bytes, v2: Bytes)
    requires Durable(s) && SoleLog(s) && s.mem == map[] && s.job.Snapped? && |s.job.inputs| == 2 && s.readers == s.job.inputs
    requires k in Compacted(s.job.inputs) && Compacted(s.job.inputs)[k] == TableValue(Value, v1)
    ensures var actions := [DoPut(k, v2), ForceFlush] + (FINISH + [RemoveInput, RemoveInput, RemoveInput]);
      CanRun(s, actions, 100) && Enabled(Run(s, actions, 100), Restart) &&
      View(Run(s, actions, 100), k) == Some(v2) && View(Reopen(Run(s, actions, 100).disk), k) == Some(v1)
  {
    DurablePutAndFlush(s, k, v2);
    var u := Run(s, [DoPut(k, v2), ForceFlush], 100);
    var raced := Reader(u.counter, u.counter, map[k := TableValue(Value, v2)]);
    assert SinceSnapshot(u) == [raced];
    RacedCompaction(u, raced, k, v1, v2);
    RunAppend(s, [DoPut(k, v2), ForceFlush], FINISH + [RemoveInput, RemoveInput, RemoveInput], 100);
  }

  lemma RacedCompaction(u: State, raced: Reader, k: Bytes, v1: Bytes, v2: Bytes)
    requires Durable(u) && u.mem == map[] && u.job.Snapped? && |u.job.inputs| == 2 && SinceSnapshot(u) == [raced]
    requires k in Compacted(u.job.inputs) && Compacted(u.job.inputs)[k] == TableValue(Value, v1)
    requires raced.sequence == raced.file == u.counter > 0 && k in raced.table && raced.table[k] == TableValue(Value, v2)
    ensures var actions := FINISH + [RemoveInput, RemoveInput, RemoveInput];
      CanRun(u, actions, 100) && Enabled(Run(u, actions, 100), Restart) &&
      View(Run(u, actions, 100), k) == Some(v2) && View(Reopen(Run(u, actions, 100).disk), k) == Some(v1)
  {
    FinishDurable(u, k);
    var x := Run(u, FINISH, 100);
    RemoveBoth(x);
    RunAppend(u, FINISH, [RemoveInput, RemoveInput, RemoveInput], 100);
    RaceDecided(Run(x, [RemoveInput, RemoveInput, RemoveInput], 100),
                Reader(x.counter, 0, Compacted(u.job.inputs)), raced, k, v1, v2);
  }

  /** From an empty directory: a value flushed between the snapshot and the numbering of a compaction is
      shown by iterators until the engine is reopened, which brings the overwritten value back for good. */
  lemma LostUpdate(k: Bytes, j: Bytes, v1: Bytes, v2: Bytes)
    requires k != j && v1 != v2
    ensures var actions := ([DoPut(k, v1), ForceFlush] + [DoPut(j, v1), ForceFlush]) + ([StartCompaction] +
              ([DoPut(k, v2), ForceFlush] + (FINISH + [RemoveInput, RemoveInput, RemoveInput])));
      CanRun(Fresh(), actions, 100) && CanRun(Fresh(), actions + [Restart], 100) &&
      View(Run(Fresh(), actions, 100), k) == Some(v2) && View(Run(Fresh(), actions + [Restart], 100), k) == Some(v1)
  {
    var s := TwoFlushed(k, j, v1);
    SafeOne(s, StartCompaction);
    var race := [DoPut(k, v2), ForceFlush] + (FINISH + [RemoveInput, RemoveInput, RemoveInput]);
    RaceRuns(Snapshot(s), k, v1, v2);
    RunAppend(s, [StartCompaction], race, 100);
    var first := [DoPut(k, v1), ForceFlush] + [DoPut(j, v1), ForceFlush];
    RunAppend(Fresh(), first, [StartCompaction] + race, 100);
    RestartAppended(first + ([StartCompaction] + race));
  }

  lemma RestartAppended(actions: seq<Action>)
    requires CanRun(Fresh(), actions, 100) && Enabled(Run(Fresh(), actions, 100), Restart)
    ensures CanRun(Fresh(), actions + [Restart], 100)
    ensures Run(Fresh(), actions + [Restart], 100) == Reopen(Run(Fresh(), actions, 100).disk)
  {
    var t := Run(Fresh(), actions, 100);
    RunCons(t, Restart, [], 100);
    assert [Restart] + [] == [Restart];
    RunAppend(Fresh(), actions, [Restart], 100);
  }
}
