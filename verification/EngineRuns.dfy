/** Runs with reopenings: the race a compaction can lose to a flush, the discipline that keeps one log,
    `get` after a reopening, and going on after a crash inside a flush. */
module EngineRuns {
  import opened ByteStrings
  import opened Entries
  import opened EngineSpec
  import opened EngineView
  import opened EngineRecovery

  // ----- a flush between snapshot and numbering -----

  /** Which of a compaction's output and the newest table flushed meanwhile a reopened engine asks. */
  function Winner(c: Reader, raced: Option<Reader>, key: Bytes): (w: Option<Reader>)
    requires raced.Some? ==> key in raced.value.table
    ensures w.Some? ==> key in w.value.table
  {
    if key in c.table && (raced.None? || raced.value.file < c.file) then Some(c) else raced
  }

  /** Flushed tables are in the same order by sequence and by file. */
  lemma FlushedLeads(newer: seq<Reader>, key: Bytes)
    requires Unique(newer) && Flushed(newer)
    ensures BestOf(Elements(newer), key, Latest(newer, key))
  {
    var l := Latest(newer, key);
    if l.Some? {
      forall r | r in Elements(newer) && key in r.table ensures r.file <= l.value.file {
        var i :| 0 <= i < |newer| && newer[i] == r;
        var k :| 0 <= k < |newer| && newer[k] == l.value;
      }
    }
  }

  lemma WinnerBest(newer: seq<Reader>, c: Reader, key: Bytes)
    requires Unique(newer) && Flushed(newer)
    ensures BestOf(Elements(newer) + {c}, key, Winner(c, Latest(newer, key), key))
  {
    FlushedLeads(newer, key);
  }

  /** Once a compaction is over, its output stands in front with sequence 0.  A reopened engine gives
      it its file number. */
  lemma WinnerReopened(s: State, key: Bytes)
    requires Durable(s) && Extra(s) == [] && s.readers != [] && Flushed(s.readers[1..])
    ensures View(Reopen(s.disk), key) == Answer(s.mem, Winner(s.readers[0], Latest(s.readers[1..], key), key), key)
  {
    var c, newer := s.readers[0], s.readers[1..];
    assert s.readers == [c] + newer;
    assert forall i :: 0 <= i < |newer| ==> newer[i] == s.readers[i + 1];
    WinnerBest(newer, c, key);
    ElementsConcat([c], newer);
    assert Pool(s) == Elements(newer) + {c};
    ReopenFrom(s, key, Winner(c, Latest(newer, key), key));
  }

  lemma FrontLatest(c: Reader, newer: seq<Reader>, key: Bytes)
    requires c.sequence == 0 && Unique([c] + newer)
    ensures Latest([c] + newer, key) ==
      if Latest(newer, key).Some? then Latest(newer, key) else if key in c.table then Some(c) else None
  {
    assert ([c] + newer)[1..] == newer;
    var l := Latest(newer, key);
    if l.Some? {
      var k :| 0 <= k < |newer| && newer[k] == l.value;
      assert ([c] + newer)[k + 1].sequence != ([c] + newer)[0].sequence;
    }
  }

  /** A race lost for good: after a compaction whose window saw flushes, a reopening answers a key as
      before exactly if the memtable holds it, or the output does not, or no table flushed meanwhile
      does, or the newest of these was numbered after the output or answers alike. */
  lemma RaceReopened(s: State, key: Bytes)
    requires Durable(s) && Extra(s) == [] && s.readers != [] && s.readers[0].sequence == 0 && Flushed(s.readers[1..])
    ensures var c, raced := s.readers[0], Latest(s.readers[1..], key);
      View(Reopen(s.disk), key) == View(s, key) <==>
      key in s.mem || key !in c.table || raced.None? || c.file < raced.value.file ||
      Live(raced.value.table[key]) == Live(c.table[key])
  {
    var c, newer := s.readers[0], s.readers[1..];
    assert s.readers == [c] + newer;
    FrontLatest(c, newer, key);
    WinnerReopened(s, key);
    var raced := Latest(newer, key);
    if raced.Some? { RacedApart(s.readers, newer, raced.value); }
  }

  lemma RacedApart(readers: seq<Reader>, newer: seq<Reader>, raced: Reader)
    requires readers != [] && Unique(readers) && newer == readers[1..] && raced in newer
    ensures raced.file != readers[0].file
  {
    var k :| 0 <= k < |newer| && newer[k] == raced;
    assert readers[k + 1] == raced;
  }

  lemma BestWithInputs(newer: seq<Reader>, inputs: seq<Reader>, c: Reader, key: Bytes) returns (b: Option<Reader>)
    requires Unique(newer) && Flushed(newer) && FilesOver(newer, inputs) && FilesBelow(inputs, c.file)
    requires Unique(inputs) && OrderAgrees(inputs, key) && c.table == Compacted(inputs)
    ensures BestOf(Elements(newer) + {c} + Elements(inputs), key, b)
    ensures SameAnswer(b, Winner(c, Latest(newer, key), key), key)
  {
    WinnerBest(newer, c, key);
    b := Winner(c, Latest(newer, key), key);
    if b.None? {
      CompactedFinds(inputs, key);
      b := FindBest(inputs, key);
      LatestLeads(inputs, key);
      BestLeads(Elements(inputs), key, b, Latest(inputs, key));
    } else {
      InputsLower(newer, inputs, c, b.value);
    }
  }

  lemma InputsLower(newer: seq<Reader>, inputs: seq<Reader>, c: Reader, w: Reader)
    requires FilesOver(newer, inputs) && FilesBelow(inputs, c.file) && (w == c || w in newer)
    ensures forall r :: r in Elements(inputs) ==> r.file < w.file
  {
    forall r | r in Elements(inputs) ensures r.file < w.file {
      var j :| 0 <= j < |inputs| && inputs[j] == r;
      if w != c { var i :| 0 <= i < |newer| && newer[i] == w; }
    }
  }

  lemma BuiltPool(s: State, newer: seq<Reader>, inputs: seq<Reader>, c: Reader)
    requires s.readers == newer + inputs && Extra(s) == [c]
    ensures Pool(s) == Elements(newer) + {c} + Elements(inputs)
  {
    ElementsConcat(newer, inputs);
  }

  lemma BuiltReopened(s: State, key: Bytes)
    requires Durable(s) && s.job.Built? && OrderAgrees(s.job.inputs, key)
    ensures View(Reopen(s.disk), key) ==
      Answer(s.mem, Winner(Output(s), Latest(SinceSnapshot(s), key), key), key)
  {
    var newer, inputs, c := SinceSnapshot(s), s.job.inputs, Output(s);
    WindowSplit(s.readers, inputs);
    var b := BestWithInputs(newer, inputs, c, key);
    BuiltPool(s, newer, inputs, c);
    ReopenFrom(s, key, b);
  }

  lemma BuiltView(s: State, key: Bytes)
    requires Inv(s) && JobFiles(s) && s.job.Built?
    ensures var raced := Latest(SinceSnapshot(s), key);
      View(s, key) == Answer(s.mem, if raced.Some? then raced else if key in Output(s).table then Some(Output(s)) else None, key)
  {
    WindowSplit(s.readers, s.job.inputs);
    LatestConcat(SinceSnapshot(s), s.job.inputs, key);
    CompactedFinds(s.job.inputs, key);
  }

  lemma NotOutput(s: State, raced: Reader)
    requires Inv(s) && JobFiles(s) && s.job.Built? && raced in SinceSnapshot(s)
    ensures raced.file != s.job.file
  {
    var k :| 0 <= k < |SinceSnapshot(s)| && SinceSnapshot(s)[k] == raced;
    assert s.readers[k] == raced;
  }

  /** Already with the output on disk beside its inputs: a table flushed before the output was numbered
      loses to it at the next reopening.  The answer stays right exactly if the memtable holds the key,
      or the output does not, or nothing flushed since the snapshot does, or the newest of that was
      numbered after the output or answers alike. */
  lemma RaceOnDisk(s: State, key: Bytes)
    requires Durable(s) && s.job.Built? && OrderAgrees(s.job.inputs, key)
    ensures var c, raced := Output(s), Latest(SinceSnapshot(s), key);
      View(Reopen(s.disk), key) == View(s, key) <==>
      key in s.mem || key !in c.table || raced.None? || c.file < raced.value.file ||
      Live(raced.value.table[key]) == Live(c.table[key])
  {
    BuiltReopened(s, key);
    BuiltView(s, key);
    var raced := Latest(SinceSnapshot(s), key);
    if raced.Some? { NotOutput(s, raced.value); }
  }

  // ----- the discipline that keeps one log -----

  /** Reopen only between compactions' removals and only if the current log is the next one or empty,
      as it is once a flush has followed the last numbering of a compaction. */
  predicate Disciplined(s: State, a: Action)
    requires Enabled(s, a)
  {
    a.Restart? ==> Recoverable(s) && (s.wal == s.counter + 1 || s.disk.wals[s.wal] == [])
  }

  ghost predicate DisciplinedRun(s: State, actions: seq<Action>, maxMemNodes: nat)
    requires CanRun(s, actions, maxMemNodes)
    decreases |actions|
  {
    actions == [] ||
    (Disciplined(s, actions[0]) && DisciplinedRun(Step(s, actions[0], maxMemNodes), actions[1..], maxMemNodes))
  }

  lemma FlushSole(s: State)
    requires LogInv(s) && SoleLog(s) && s.wal <= s.counter + 1
    ensures SoleLog(Flush(s))
  {
    FlushKeepsLog(s);
  }

  lemma PutSole(s: State, k: Bytes, v: Bytes, maxMemNodes: nat)
    requires LogInv(s) && SoleLog(s) && s.wal <= s.counter + 1
    ensures Safe(s, DoPut(k, v), maxMemNodes) && SoleLog(Put(s, k, v, maxMemNodes))
  {
    LogKept(s, PutRecord(k, v));
    FlushSole(Log(s, PutRecord(k, v)));
  }

  lemma StepSole(s: State, a: Action, maxMemNodes: nat)
    requires Durable(s) && SoleLog(s) && Enabled(s, a) && Disciplined(s, a)
    ensures Safe(s, a, maxMemNodes) && SoleLog(Step(s, a, maxMemNodes))
  {
    match a
    case DoPut(k, v) => PutSole(s, k, v, maxMemNodes);
    case ForceFlush => FlushSole(s);
    case Restart => SecondLog(s);
    case _ =>
  }

  /** A disciplined step is safe and leaves one log with records. */
  lemma StepDisciplined(s: State, a: Action, maxMemNodes: nat)
    requires Durable(s) && SoleLog(s) && Enabled(s, a) && Disciplined(s, a)
    ensures Safe(s, a, maxMemNodes) && Durable(Step(s, a, maxMemNodes)) && SoleLog(Step(s, a, maxMemNodes))
  {
    StepSole(s, a, maxMemNodes);
    StepDurable(s, a, maxMemNodes, []);
  }

  /** The discipline is enough for `RunDurable`. */
  lemma {:induction false} DisciplineIsSafe(s: State, actions: seq<Action>, maxMemNodes: nat)
    requires Durable(s) && SoleLog(s) && CanRun(s, actions, maxMemNodes) && DisciplinedRun(s, actions, maxMemNodes)
    ensures SafeRun(s, actions, maxMemNodes)
    ensures Durable(Run(s, actions, maxMemNodes)) && SoleLog(Run(s, actions, maxMemNodes))
    decreases |actions|
  {
    if actions != [] {
      StepDisciplined(s, actions[0], maxMemNodes);
      DisciplineIsSafe(Step(s, actions[0], maxMemNodes), actions[1..], maxMemNodes);
    }
  }

  lemma OneLogReplayed(s: State)
    requires LogInv(s) && SoleLog(s)
    ensures s.mem == Replay(map[], s.disk.wals[s.wal])
  {
    ReplayBelowBeyond(s.disk.wals, 0, s.wal);
  }

  /** Over every disciplined run from a state with one log, with any number of reopenings, the memtable
      is the replay of the one log that has records, and the engine stays the finite map on every key
      that no flush harms. */
  lemma RunDisciplined(s: State, m: map<Bytes, Bytes>, actions: seq<Action>, maxMemNodes: nat, key: Bytes)
    requires Durable(s) && SoleLog(s) && Settled(s, key) && View(s, key) == At(m, key)
    requires CanRun(s, actions, maxMemNodes) && DisciplinedRun(s, actions, maxMemNodes)
    requires HarmlessRun(s, actions, maxMemNodes, key)
    ensures var t := Run(s, actions, maxMemNodes);
      t.wal in t.disk.wals && SoleLog(t) && t.mem == Replay(map[], t.disk.wals[t.wal]) &&
      View(t, key) == At(Effects(m, actions), key)
    ensures var t := Run(s, actions, maxMemNodes);
      Recoverable(t) ==> View(Reopen(t.disk), key) == At(Effects(m, actions), key)
  {
    DisciplineIsSafe(s, actions, maxMemNodes);
    RunDurable(s, m, actions, maxMemNodes, key);
    OneLogReplayed(Run(s, actions, maxMemNodes));
  }

  // ----- get -----

  /** What `get` answers after a reopening is what an iterator showed before. */
  lemma ReopenGet(s: State, key: Bytes)
    requires Durable(s) && Settled(s, key) && Recoverable(s)
    ensures Get(Reopen(s.disk), key) == View(s, key)
  {
    ReopenView(s, key);
    ReopenInv(s.disk);
    OrderedFirst(Reopen(s.disk).readers, key);
  }

  lemma {:induction false} RunOrdered(s: State, actions: seq<Action>, maxMemNodes: nat)
    requires Inv(s) && Ordered(s.readers) && CanRun(s, actions, maxMemNodes) && QuietRun(s, actions, maxMemNodes)
    ensures Ordered(Run(s, actions, maxMemNodes).readers)
    decreases |actions|
  {
    if actions != [] {
      if actions[0].Restart? {
        ReopenInv(s.disk);
      } else {
        StepView(s, actions[0], maxMemNodes, []);
        StepOrdered(s, actions[0], maxMemNodes);
      }
      RunOrdered(Step(s, actions[0], maxMemNodes), actions[1..], maxMemNodes);
    }
  }

  /** Reopenings included: if nothing is flushed between a snapshot and its swap, `get` answers as the
      finite map does. */
  lemma RunGetDurable(s: State, m: map<Bytes, Bytes>, actions: seq<Action>, maxMemNodes: nat, key: Bytes)
    requires Durable(s) && Settled(s, key) && Ordered(s.readers) && View(s, key) == At(m, key)
    requires CanRun(s, actions, maxMemNodes) && SafeRun(s, actions, maxMemNodes)
    requires HarmlessRun(s, actions, maxMemNodes, key) && QuietRun(s, actions, maxMemNodes)
    ensures Get(Run(s, actions, maxMemNodes), key) == At(Effects(m, actions), key)
  {
    RunDurable(s, m, actions, maxMemNodes, key);
    RunOrdered(s, actions, maxMemNodes);
    OrderedFirst(Run(s, actions, maxMemNodes).readers, key);
  }

  // ----- going on after a crash -----

  /** Any directory whose logs are no further than one past its tables opens to a durable state. */
  lemma ReopenDurable(disk: Disk, key: Bytes)
    requires forall w :: w in disk.wals ==> w <= Max(disk.ssts.Keys) + 1
    ensures Durable(Reopen(disk)) && Settled(Reopen(disk), key)
  {
    ReopenInv(disk);
    ReopenOnDisk(disk);
    var w := Max(disk.wals.Keys);
    TouchedReplay(disk.wals, Max(disk.ssts.Keys) + 1, w);
  }

  lemma CrashedMax(s: State, step: nat)
    requires Durable(s) && step <= 3
    ensures var d := FlushDisk(s, step);
      Max(d.ssts.Keys) == s.counter + (if step == 0 then 0 else 1) &&
      forall w :: w in d.wals ==> w <= Max(d.ssts.Keys) + 1
  {
    var d, n := FlushDisk(s, step), s.counter + 1;
    assert step > 0 ==> n in d.ssts;
    assert IsMax(d.ssts.Keys, if step == 0 then s.counter else n);
  }

  /** After a crash at any step of a flush the run goes on from a durable state; the old log stays a
      second log unless it is empty or the crash came before the table file. */
  lemma FlushCrashDurable(s: State, step: nat, key: Bytes)
    requires Durable(s) && SoleLog(s) && step <= 3
    ensures var t := Reopen(FlushDisk(s, step));
      Durable(t) && Settled(t, key) &&
      (SoleLog(t) <==> s.disk.wals[s.wal] == [] || (step == 0 && s.wal == s.counter + 1))
  {
    CrashedMax(s, step);
    ReopenDurable(FlushDisk(s, step), key);
    var t := Reopen(FlushDisk(s, step));
    assert s.wal in t.disk.wals && t.disk.wals[s.wal] == s.disk.wals[s.wal];
  }

  // ----- a whole compaction -----

  /** What a compaction with nothing in between leaves in memory and on disk: nothing if there was one table
      or none; an unfinished file if nothing survives the merge; otherwise one table, in place of its inputs. */
  ghost predicate HasCompacted(s: State, t: State) {
    var n, c := s.counter + 1, Compacted(s.readers);
    if |s.readers| <= 1 then t == s
    else
      t.mem == s.mem && t.counter == n && t.wal == s.wal && t.disk.wals == s.disk.wals && t.job == Idle &&
      if c == map[] then t.readers == s.readers && t.disk.ssts == s.disk.ssts[n := Partial]
      else t.readers == [Reader(n, 0, c)] && t.disk.ssts == s.disk.ssts[n := Complete(c)] - Files(s.readers)
  }

  ghost function AllRemoved(s: State): State
    requires s.job.Removing? && s.job.removed <= |s.job.inputs|
  {
    s.(disk := s.disk.(ssts := s.disk.ssts - Files(s.job.inputs[s.job.removed..])), job := Idle)
  }

  lemma NextRemoved(s: State)
    requires s.job.Removing? && s.job.removed < |s.job.inputs|
    ensures AllRemoved(Remove(s)) == AllRemoved(s)
  {
    var inputs, k := s.job.inputs, s.job.removed;
    assert inputs[k..] == [inputs[k]] + inputs[k + 1..];
    assert Files(inputs[k..]) == {inputs[k].file} + Files(inputs[k + 1..]);
  }

  lemma NoneLeft(s: State)
    requires s.job.Removing? && s.job.removed == |s.job.inputs|
    ensures AllRemoved(s) == Remove(s)
  {
    assert s.job.inputs[s.job.removed..] == [] && Files([]) == {};
    assert s.disk.ssts - {} == s.disk.ssts;
  }

  lemma {:induction false} RemovalsDurable(s: State, key: Bytes)
    requires Durable(s) && s.job.Removing? && s.job.removed <= |s.job.inputs|
    ensures Durable(AllRemoved(s)) && (Settled(s, key) ==> Settled(AllRemoved(s), key))
    decreases |s.job.inputs| - s.job.removed
  {
    StepDurable(s, RemoveInput, 0, key);
    if s.job.removed < |s.job.inputs| {
      RemovalsDurable(Remove(s), key);
      NextRemoved(s);
    } else {
      NoneLeft(s);
    }
  }

  lemma MergedDurable(s: State, key: Bytes)
    requires Durable(s) && s.job.Idle? && |s.readers| > 1
    ensures var t := Merge(Number(Snapshot(s)));
      Durable(t) && (Settled(s, key) ==> Settled(t, key))
  {
    StepDurable(s, StartCompaction, 0, key);
    StepDurable(Snapshot(s), NumberTable, 0, key);
    StepDurable(Number(Snapshot(s)), MergeTables, 0, key);
  }

  lemma MergedIs(s: State)
    requires s.job.Idle? && |s.readers| > 1
    ensures var n, c, t := s.counter + 1, Compacted(s.readers), Merge(Number(Snapshot(s)));
      t == s.(counter := n, job := if c == map[] then Idle else Built(s.readers, n),
              disk := s.disk.(ssts := s.disk.ssts[n := if c == map[] then Partial else Complete(c)]))
  {
    var n, c := s.counter + 1, Compacted(s.readers);
    assert s.disk.ssts[n := Partial][n := Complete(c)] == s.disk.ssts[n := Complete(c)];
  }

  lemma SwappedIs(s: State)
    requires Inv(s) && s.job.Built? && |s.readers| == |s.job.inputs|
    ensures Swap(s) == s.(readers := [Output(s)], job := Removing(s.job.inputs, s.job.file, 0))
    ensures AllRemoved(Swap(s)) ==
      s.(readers := [Output(s)], job := Idle, disk := s.disk.(ssts := s.disk.ssts - Files(s.job.inputs)))
  {
    SwapInv(s);
    assert s.job.inputs[0..] == s.job.inputs;
  }

  lemma SwappedDurable(s: State, key: Bytes)
    requires Durable(s) && s.job.Built? && |s.readers| == |s.job.inputs|
    ensures Durable(AllRemoved(Swap(s))) && (Settled(s, key) ==> Settled(AllRemoved(Swap(s)), key))
  {
    StepDurable(s, SwapTables, 0, key);
    RemovalsDurable(Swap(s), key);
  }

  lemma WindowIsAll(readers: seq<Reader>, inputs: seq<Reader>)
    requires Window(readers, inputs) && |readers| == |inputs|
    ensures readers == inputs
  {
    assert readers[0..] == readers;
  }

  lemma CompactedIs(s: State, t: State)
    requires s.job.Idle? && |s.readers| > 1 && Compacted(s.readers) != map[] && HasCompacted(s, t)
    ensures var m := Merge(Number(Snapshot(s)));
      t == m.(readers := [Output(m)], job := Idle, disk := m.disk.(ssts := m.disk.ssts - Files(m.job.inputs)))
  {
    MergedIs(s);
  }

  lemma BuiltKept(s: State, t: State, m: State, key: Bytes)
    requires Durable(m) && m.job.Built? && |m.readers| == |m.job.inputs|
    requires t == m.(readers := [Output(m)], job := Idle, disk := m.disk.(ssts := m.disk.ssts - Files(m.job.inputs)))
    ensures Durable(t) && (Settled(m, key) ==> Settled(t, key))
  {
    SwappedDurable(m, key);
    SwappedIs(m);
  }

  lemma CompactedKept(s: State, t: State, key: Bytes)
    requires Durable(s) && s.job.Idle? && HasCompacted(s, t)
    ensures Durable(t) && (Settled(s, key) ==> Settled(t, key))
  {
    if |s.readers| > 1 {
      MergedDurable(s, key);
      MergedIs(s);
      var m := Merge(Number(Snapshot(s)));
      if m.job.Built? {
        CompactedIs(s, t);
        BuiltKept(s, t, m, key);
      } else {
        assert t == m;
      }
    }
  }

  /** A compaction leaves a directory that is worth reopening, and reopening it gives the answers from before
      the compaction. */
  lemma CompactedReopens(s: State, t: State, key: Bytes)
    requires Durable(s) && s.job.Idle? && HasCompacted(s, t) && View(t, key) == View(s, key)
    ensures Durable(t) && (Settled(s, key) ==> Settled(t, key) && View(Reopen(t.disk), key) == View(s, key))
  {
    CompactedKept(s, t, key);
    if Settled(s, key) { ReopenView(t, key); }
  }
}
