/** Runs of the sharded store: whichever shard does what in whatever order, reopenings included, the shards
    together stay one finite map. */
module ShardedRuns {
  import opened ByteStrings
  import opened Entries
  import opened EngineSpec
  import opened EngineView
  import opened EngineRecovery
  import Routing
  import Sharding

  // ----- what a shard has of a key, in memory or on disk -----

  ghost predicate InTables(pool: set<Reader>, key: Bytes) {
    exists r :: r in pool && key in r.table
  }

  predicate Concerns(r: Record, key: Bytes) {
    r.key == key
  }

  ghost predicate InLog(log: seq<Record>, key: Bytes) {
    exists i :: 0 <= i < |log| && Concerns(log[i], key)
  }

  ghost predicate InLogs(wals: map<nat, seq<Record>>, key: Bytes) {
    exists w :: w in wals && InLog(wals[w], key)
  }

  ghost predicate Keeps(s: State, key: Bytes) {
    key in s.mem || InTables(Pool(s), key) || InLogs(s.disk.wals, key)
  }

  lemma {:induction false} ReplayKeys(mem: Table, log: seq<Record>, key: Bytes)
    requires key in Replay(mem, log)
    ensures key in mem || InLog(log, key)
  {
    if log != [] {
      var n := |log| - 1;
      if Concerns(log[n], key) { return; }
      ReplayKeys(mem, log[..n], key);
      if InLog(log[..n], key) {
        var i :| 0 <= i < n && Concerns(log[..n][i], key);
        assert Concerns(log[i], key);
      }
    }
  }

  lemma {:induction false} ReplayBelowKeys(wals: map<nat, seq<Record>>, n: nat, key: Bytes)
    requires key in ReplayBelow(wals, n)
    ensures InLogs(wals, key)
  {
    if n > 0 {
      if key in ReplayBelow(wals, n - 1) {
        ReplayBelowKeys(wals, n - 1, key);
      } else {
        ReplayKeys(ReplayBelow(wals, n - 1), wals[n - 1], key);
      }
    }
  }

  lemma InLogsLess(wals: map<nat, seq<Record>>, fewer: map<nat, seq<Record>>, key: Bytes)
    requires InLogs(fewer, key) && forall w :: w in fewer ==> fewer[w] == [] || (w in wals && wals[w] == fewer[w])
    ensures InLogs(wals, key)
  {
    var w :| w in fewer && InLog(fewer[w], key);
    assert w in wals && InLog(wals[w], key);
  }

  lemma KeepsLog(s: State, r: Record, key: Bytes)
    requires s.wal in s.disk.wals && Keeps(Log(s, r), key)
    ensures Keeps(s, key) || Concerns(r, key)
  {
    var t := Log(s, r);
    assert Pool(t) == Pool(s);
    if !Concerns(r, key) && InLogs(t.disk.wals, key) {
      var w :| w in t.disk.wals && InLog(t.disk.wals[w], key);
      var i :| 0 <= i < |t.disk.wals[w]| && Concerns(t.disk.wals[w][i], key);
      assert Concerns(s.disk.wals[w][i], key);
      assert InLog(s.disk.wals[w], key);
    }
  }

  predicate Writes(a: Action, key: Bytes) {
    (a.DoPut? || a.DoErase?) && a.key == key
  }

  lemma KeepsFlush(s: State, key: Bytes)
    requires Keeps(Flush(s), key)
    ensures Keeps(s, key)
  {
    if s.mem != map[] {
      if InLogs(Flush(s).disk.wals, key) {
        InLogsLess(s.disk.wals, Flush(s).disk.wals, key);
      } else {
        var r :| r in Pool(Flush(s)) && key in r.table;
        if r in Pool(s) { assert InTables(Pool(s), key); }
      }
    }
  }

  lemma InputKept(s: State, key: Bytes)
    requires Inv(s) && s.job.Numbered? && key in Compacted(s.job.inputs)
    ensures InTables(Pool(s), key)
  {
    CompactedFinds(s.job.inputs, key);
    var q := Latest(s.job.inputs, key).value;
    WindowSplit(s.readers, s.job.inputs);
    assert q in s.readers && q in Pool(s);
  }

  lemma MergedPool(s: State, r: Reader)
    requires s.job.Numbered? && r in Pool(Merge(s))
    ensures r in Pool(s) || r.table == Compacted(s.job.inputs)
  {
  }

  lemma KeepsMerge(s: State, key: Bytes)
    requires Inv(s) && s.job.Numbered? && Keeps(Merge(s), key)
    ensures Keeps(s, key)
  {
    if key !in s.mem && !InLogs(s.disk.wals, key) {
      var r :| r in Pool(Merge(s)) && key in r.table;
      MergedPool(s, r);
      if r !in Pool(s) { InputKept(s, key); }
    }
  }

  lemma KeepsSwap(s: State, key: Bytes)
    requires Inv(s) && JobFiles(s) && s.job.Built? && Keeps(Swap(s), key)
    ensures Keeps(s, key)
  {
    WindowSplit(s.readers, s.job.inputs);
    SwapPool(s, SinceSnapshot(s));
  }

  lemma KeepsRemove(s: State, key: Bytes)
    requires Filed(s) && s.job.Removing? && Keeps(Remove(s), key)
    ensures Keeps(s, key)
  {
    if s.job.removed < |s.job.inputs| {
      RemovePool(s);
    } else {
      assert Pool(Remove(s)) == Pool(s);
    }
  }

  lemma KeepsRestart(s: State, key: Bytes)
    requires Filed(s) && Keeps(Reopen(s.disk), key)
    ensures Keeps(s, key)
  {
    var t := Reopen(s.disk);
    if InLogs(t.disk.wals, key) {
      InLogsLess(s.disk.wals, t.disk.wals, key);
    } else if key in t.mem {
      ReplayBelowKeys(s.disk.wals, Max(s.disk.wals.Keys) + 1, key);
    } else {
      var r :| r in Pool(t) && key in r.table;
      assert r in t.readers;
      ReadersBelowAre(s.disk.ssts, t.counter + 1, r);
      var q := PoolHolds(s.disk.ssts, Pool(s), r.file);
    }
  }

  /** No step, safe or not, brings anything of a key that it does not write. */
  lemma KeepsStep(s: State, a: Action, maxMemNodes: nat, key: Bytes)
    requires Filed(s) && Enabled(s, a) && Keeps(Step(s, a, maxMemNodes), key)
    ensures Keeps(s, key) || Writes(a, key)
  {
    match a
    case DoPut(k, v) =>
      var t := Log(s, PutRecord(k, v));
      if |t.mem| >= maxMemNodes { KeepsFlush(t, key); }
      KeepsLog(s, PutRecord(k, v), key);
    case DoErase(k) => KeepsLog(s, EraseRecord(k), key);
    case ForceFlush => KeepsFlush(s, key);
    case StartCompaction => assert Pool(Snapshot(s)) == Pool(s);
    case NumberTable => assert Pool(Number(s)) == Pool(s);
    case MergeTables => KeepsMerge(s, key);
    case SwapTables => KeepsSwap(s, key);
    case RemoveInput => KeepsRemove(s, key);
    case Restart => KeepsRestart(s, key);
  }

  lemma StoredKept(s: State, key: Bytes)
    ensures Stored(s, key) ==> Keeps(s, key)
    ensures View(s, key).Some? ==> Stored(s, key)
  {
    var l := Latest(s.readers, key);
    if l.Some? { assert l.value in Pool(s); }
  }

  // ----- the store -----

  datatype Work = Work(shard: nat, action: Action)

  /** A key is written in the shard the router sends it to. */
  predicate CanWork(states: seq<State>, w: Work) {
    2 <= |states| && w.shard < |states| && Enabled(states[w.shard], w.action) &&
    (w.action.DoPut? || w.action.DoErase? ==> Routing.Shard(w.action.key, |states|) == w.shard)
  }

  ghost function DoWork(states: seq<State>, w: Work, maxMemNodes: nat): seq<State>
    requires CanWork(states, w)
  {
    states[w.shard := Step(states[w.shard], w.action, maxMemNodes)]
  }

  /** Shards whose files are right and hold only keys that route to them. */
  ghost predicate Housed(states: seq<State>) {
    2 <= |states| && forall i :: 0 <= i < |states| ==> Filed(states[i]) && HomeOnly(states[i], i, |states|)
  }

  /** ... and whose logs are right. */
  ghost predicate Sound(states: seq<State>) {
    Housed(states) && forall i :: 0 <= i < |states| ==> Durable(states[i])
  }

  ghost predicate HomeOnly(s: State, i: nat, n: nat)
    requires n >= 2
  {
    forall key :: Keeps(s, key) ==> Routing.Shard(key, n) == i
  }

  ghost predicate Careful(states: seq<State>, w: Work, maxMemNodes: nat, key: Bytes)
    requires CanWork(states, w)
  {
    Safe(states[w.shard], w.action, maxMemNodes) &&
    (w.shard == Routing.Shard(key, |states|) ==> Harmless(states[w.shard], w.action, maxMemNodes, key))
  }

  /** The store answers for `key` from its shard. */
  ghost predicate Answers(states: seq<State>, key: Bytes, m: map<Bytes, Bytes>)
    requires Sound(states)
  {
    var home := Routing.Shard(key, |states|);
    home < |states| && Settled(states[home], key) && View(states[home], key) == At(m, key)
  }

  /** Whatever any shard does, reopening included, shards go on holding only keys that route to them. */
  lemma WorkHoused(states: seq<State>, w: Work, maxMemNodes: nat)
    requires Housed(states) && CanWork(states, w)
    ensures Housed(DoWork(states, w, maxMemNodes))
  {
    var s := states[w.shard];
    var t := Step(s, w.action, maxMemNodes);
    StepFiled(s, w.action, maxMemNodes);
    forall key | Keeps(t, key) ensures Routing.Shard(key, |states|) == w.shard {
      KeepsStep(s, w.action, maxMemNodes, key);
    }
  }

  lemma WorkAnswers(states: seq<State>, w: Work, maxMemNodes: nat, key: Bytes, m: map<Bytes, Bytes>)
    requires Sound(states) && CanWork(states, w) && Careful(states, w, maxMemNodes, key) && Answers(states, key, m)
    ensures Sound(DoWork(states, w, maxMemNodes))
    ensures Answers(DoWork(states, w, maxMemNodes), key, Effect(m, w.action))
  {
    WorkHoused(states, w, maxMemNodes);
    StepDurable(states[w.shard], w.action, maxMemNodes, key);
  }

  ghost predicate CanRunWork(states: seq<State>, work: seq<Work>, maxMemNodes: nat)
    decreases |work|
  {
    work == [] ||
    (CanWork(states, work[0]) && CanRunWork(DoWork(states, work[0], maxMemNodes), work[1..], maxMemNodes))
  }

  ghost function RunWork(states: seq<State>, work: seq<Work>, maxMemNodes: nat): seq<State>
    requires CanRunWork(states, work, maxMemNodes)
    decreases |work|
  {
    if work == [] then states else RunWork(DoWork(states, work[0], maxMemNodes), work[1..], maxMemNodes)
  }

  ghost predicate CarefulRun(states: seq<State>, work: seq<Work>, maxMemNodes: nat, key: Bytes)
    requires CanRunWork(states, work, maxMemNodes)
    decreases |work|
  {
    work == [] ||
    (Careful(states, work[0], maxMemNodes, key) &&
     CarefulRun(DoWork(states, work[0], maxMemNodes), work[1..], maxMemNodes, key))
  }

  function WorkEffects(m: map<Bytes, Bytes>, work: seq<Work>): map<Bytes, Bytes>
    decreases |work|
  {
    if work == [] then m else WorkEffects(Effect(m, work[0].action), work[1..])
  }

  /** Over every run of the sharded store, shards reopened at will, the shard a key routes to answers as
      one finite map of the whole store does, and no other shard has anything of the key. */
  lemma {:induction false} RunSharded(states: seq<State>, work: seq<Work>, maxMemNodes: nat, key: Bytes, m: map<Bytes, Bytes>)
    requires Sound(states) && Answers(states, key, m)
    requires CanRunWork(states, work, maxMemNodes) && CarefulRun(states, work, maxMemNodes, key)
    ensures var t := RunWork(states, work, maxMemNodes);
      |t| == |states| && Sound(t) && Answers(t, key, WorkEffects(m, work)) &&
      forall i :: 0 <= i < |t| ==> View(t[i], key) == if i == Routing.Shard(key, |t|) then At(WorkEffects(m, work), key) else None
    decreases |work|
  {
    if work == [] {
      forall i | 0 <= i < |states| && i != Routing.Shard(key, |states|) ensures View(states[i], key) == None {
        assert HomeOnly(states[i], i, |states|);
        StoredKept(states[i], key);
      }
    } else {
      WorkAnswers(states, work[0], maxMemNodes, key, m);
      RunSharded(DoWork(states, work[0], maxMemNodes), work[1..], maxMemNodes, key, Effect(m, work[0].action));
    }
  }

  /** What range queries rely on. */
  lemma HousedRouted(states: seq<State>)
    requires Housed(states)
    ensures Sharding.Routed(states)
  {
    forall i, key | 0 <= i < |states| && Stored(states[i], key) ensures Routing.Shard(key, |states|) == i {
      StoredKept(states[i], key);
      assert HomeOnly(states[i], i, |states|);
    }
  }
}
