/** Runs of the engine: what iterators and `get` answer in every reachable state. */
module EngineView {
  import opened ByteStrings
  import opened Entries
  import opened EngineSpec

  // ----- runs -----

  datatype Action =
    | DoPut(key: Bytes, value: Bytes)
    | DoErase(key: Bytes)
    | ForceFlush
    | StartCompaction
    | NumberTable
    | MergeTables
    | SwapTables
    | RemoveInput
    | Restart

  /** A phase of a compaction follows the one before it; everything else can happen at any time. */
  predicate Enabled(s: State, a: Action) {
    s.wal in s.disk.wals &&
    match a
    case NumberTable => s.job.Snapped?
    case MergeTables => s.job.Numbered?
    case SwapTables => s.job.Built?
    case RemoveInput => s.job.Removing?
    case _ => true
  }

  ghost function Step(s: State, a: Action, maxMemNodes: nat): State
    requires Enabled(s, a)
  {
    match a
    case DoPut(k, v) => Put(s, k, v, maxMemNodes)
    case DoErase(k) => Erase(s, k)
    case ForceFlush => Flush(s)
    case StartCompaction => Snapshot(s)
    case NumberTable => Number(s)
    case MergeTables => Merge(s)
    case SwapTables => Swap(s)
    case RemoveInput => Remove(s)
    case Restart => Reopen(s.disk)
  }

  /** The finite map the engine stands for. */
  function Effect(m: map<Bytes, Bytes>, a: Action): map<Bytes, Bytes> {
    match a
    case DoPut(k, v) => m[k := v]
    case DoErase(k) => m - {k}
    case _ => m
  }

  function At(m: map<Bytes, Bytes>, key: Bytes): Option<Bytes> {
    if key in m then Some(m[key]) else None
  }

  // ----- the invariant behind the sequence order -----

  ghost predicate Unique(readers: seq<Reader>) {
    forall i, j :: 0 <= i < j < |readers| ==>
      readers[i].sequence != readers[j].sequence && readers[i].file != readers[j].file
  }

  /** The inputs are still the oldest readers; what was flushed since the snapshot is newer. */
  ghost predicate Window(readers: seq<Reader>, inputs: seq<Reader>) {
    0 < |inputs| <= |readers| && readers[|readers| - |inputs|..] == inputs &&
    forall i, j :: 0 <= i < |readers| - |inputs| <= j < |readers| ==> readers[i].sequence > readers[j].sequence
  }

  ghost predicate Bounded(readers: seq<Reader>, counter: nat) {
    forall i :: 0 <= i < |readers| ==> readers[i].sequence <= counter && readers[i].file <= counter
  }

  ghost predicate Avoids(readers: seq<Reader>, file: nat) {
    forall i :: 0 <= i < |readers| ==> readers[i].file != file
  }

  ghost predicate JobOk(s: State) {
    (s.job.Snapped? || s.job.Numbered? || s.job.Built? ==> Window(s.readers, s.job.inputs)) &&
    (s.job.Numbered? || s.job.Built? ==> s.job.file <= s.counter && Avoids(s.readers, s.job.file))
  }

  ghost predicate Inv(s: State) {
    Unique(s.readers) && JobOk(s) &&
    Bounded(s.readers, s.counter) &&
    s.wal in s.disk.wals && s.wal <= s.counter + 1
  }

  // ----- lookup by sequence -----

  /** Among newer and older readers the newer ones decide. */
  lemma {:induction false} LatestConcat(newer: seq<Reader>, older: seq<Reader>, key: Bytes)
    requires forall i, j :: 0 <= i < |newer| && 0 <= j < |older| ==> newer[i].sequence > older[j].sequence
    ensures Latest(newer + older, key) == if Latest(newer, key).Some? then Latest(newer, key) else Latest(older, key)
  {
    if newer == [] {
      assert newer + older == older;
    } else {
      assert (newer + older)[1..] == newer[1..] + older;
      LatestConcat(newer[1..], older, key);
      if Latest(newer[1..], key).None? && Latest(older, key).Some? && key in newer[0].table {
        var j :| 0 <= j < |older| && older[j] == Latest(older, key).value;
        assert newer[0].sequence > older[j].sequence;
      }
    }
  }

  lemma CompactedFinds(inputs: seq<Reader>, key: Bytes)
    ensures key in Compacted(inputs) <==>
      Latest(inputs, key).Some? && Live(Latest(inputs, key).value.table[key]).Some?
    ensures key in Compacted(inputs) ==> Compacted(inputs)[key] == Latest(inputs, key).value.table[key]
  {
    KeysAre(inputs, key);
  }

  lemma {:induction false} WithoutAll(readers: seq<Reader>, files: set<nat>)
    requires forall i :: 0 <= i < |readers| ==> readers[i].file in files
    ensures Without(readers, files) == []
  {
    if readers != [] { WithoutAll(readers[1..], files); }
  }

  lemma {:induction false} WithoutWindow(newer: seq<Reader>, inputs: seq<Reader>, files: set<nat>)
    requires Unique(newer + inputs) && files == Files(inputs)
    ensures Without(newer + inputs, files) == newer
  {
    if newer == [] {
      assert newer + inputs == inputs;
      WithoutAll(inputs, files);
    } else {
      var all := newer + inputs;
      assert all[1..] == newer[1..] + inputs;
      forall r | r in inputs ensures r.file != newer[0].file {
        var j :| 0 <= j < |inputs| && inputs[j] == r;
        assert all[0].file != all[|newer| + j].file;
      }
      assert Unique(newer[1..] + inputs) by {
        forall i, j | 0 <= i < j < |all[1..]|
          ensures all[1..][i].sequence != all[1..][j].sequence && all[1..][i].file != all[1..][j].file
        {
          assert all[1..][i] == all[i + 1] && all[1..][j] == all[j + 1];
        }
      }
      WithoutWindow(newer[1..], inputs, files);
    }
  }

  // ----- every step -----

  function NewReader(counter: nat, table: Table): Reader {
    Reader(counter + 1, counter + 1, table)
  }

  lemma NewReaderUnique(readers: seq<Reader>, counter: nat, table: Table)
    requires Unique(readers) && Bounded(readers, counter)
    ensures Unique([NewReader(counter, table)] + readers) && Bounded([NewReader(counter, table)] + readers, counter + 1)
  {
    var rs := [NewReader(counter, table)] + readers;
    assert forall i :: 0 < i < |rs| ==> rs[i] == readers[i - 1];
  }

  lemma NewReaderWindow(readers: seq<Reader>, counter: nat, table: Table, inputs: seq<Reader>)
    requires Bounded(readers, counter) && Window(readers, inputs)
    ensures Window([NewReader(counter, table)] + readers, inputs)
  {
    var rs, cut := [NewReader(counter, table)] + readers, |readers| - |inputs|;
    assert rs[cut + 1..] == readers[cut..];
    assert forall i :: 0 < i < |rs| ==> rs[i] == readers[i - 1];
  }

  lemma FlushJobOk(s: State)
    requires Bounded(s.readers, s.counter) && JobOk(s)
    ensures JobOk(Flush(s))
  {
    if s.mem != map[] && (s.job.Snapped? || s.job.Numbered? || s.job.Built?) {
      NewReaderWindow(s.readers, s.counter, s.mem, s.job.inputs);
      assert Flush(s).readers == [NewReader(s.counter, s.mem)] + s.readers && Flush(s).job == s.job;
      assert s.job.Snapped? || Avoids(Flush(s).readers, s.job.file);
    }
  }

  lemma FlushInv(s: State)
    requires Inv(s)
    ensures Inv(Flush(s))
  {
    NewReaderUnique(s.readers, s.counter, s.mem);
    FlushJobOk(s);
  }

  lemma FlushView(s: State, key: Bytes)
    requires Inv(s)
    ensures Inv(Flush(s)) && View(Flush(s), key) == View(s, key)
  {
    FlushInv(s);
    assert ([NewReader(s.counter, s.mem)] + s.readers)[1..] == s.readers;
  }

  lemma WindowSplit(readers: seq<Reader>, inputs: seq<Reader>)
    requires Unique(readers) && Window(readers, inputs)
    ensures var newer := readers[..|readers| - |inputs|];
      readers == newer + inputs && Unique(newer) && Unique(inputs) && Without(readers, Files(inputs)) == newer &&
      (forall i :: 0 <= i < |newer| ==> newer[i].sequence > 0) &&
      forall i, j :: 0 <= i < |newer| && 0 <= j < |inputs| ==> newer[i].sequence > inputs[j].sequence
  {
    var cut := |readers| - |inputs|;
    assert readers == readers[..cut] + inputs;
    WithoutWindow(readers[..cut], inputs, Files(inputs));
    forall i | 0 <= i < cut ensures readers[i].sequence > 0 {
      assert readers[i].sequence > readers[cut].sequence;
    }
  }

  lemma SwapInv(s: State)
    requires Inv(s) && s.job.Built?
    ensures Inv(Swap(s))
    ensures Swap(s).readers ==
      [Reader(s.job.file, 0, Compacted(s.job.inputs))] + s.readers[..|s.readers| - |s.job.inputs|]
  {
    WindowSplit(s.readers, s.job.inputs);
  }

  /** The swap: readers flushed since the snapshot keep deciding, and where none holds the key the
      compacted table answers as its inputs did, a dropped tombstone like no entry at all. */
  lemma SwapView(s: State, key: Bytes)
    requires Inv(s) && s.job.Built?
    ensures Inv(Swap(s)) && View(Swap(s), key) == View(s, key)
  {
    SwapInv(s);
    WindowSplit(s.readers, s.job.inputs);
    SwapLatest(s.readers[..|s.readers| - |s.job.inputs|], s.job.inputs, s.job.file, s.mem, key);
  }

  lemma SwapLatest(newer: seq<Reader>, inputs: seq<Reader>, file: nat, mem: Table, key: Bytes)
    requires forall i :: 0 <= i < |newer| ==> newer[i].sequence > 0
    requires forall i, j :: 0 <= i < |newer| && 0 <= j < |inputs| ==> newer[i].sequence > inputs[j].sequence
    ensures Answer(mem, Latest([Reader(file, 0, Compacted(inputs))] + newer, key), key)
      == Answer(mem, Latest(newer + inputs, key), key)
  {
    assert ([Reader(file, 0, Compacted(inputs))] + newer)[1..] == newer;
    LatestConcat(newer, inputs, key);
    CompactedFinds(inputs, key);
  }

  /** What an action makes of the answer for a key. */
  function After(a: Action, key: Bytes, before: Option<Bytes>): Option<Bytes> {
    match a
    case DoPut(k, v) => if key == k then Some(v) else before
    case DoErase(k) => if key == k then None else before
    case _ => before
  }

  lemma StepView(s: State, a: Action, maxMemNodes: nat, key: Bytes)
    requires Inv(s) && Enabled(s, a) && !a.Restart?
    ensures Inv(Step(s, a, maxMemNodes))
    ensures View(Step(s, a, maxMemNodes), key) == After(a, key, View(s, key))
  {
    match a
    case DoPut(k, v) =>
      FlushView(Log(s, PutRecord(k, v)), key);
    case ForceFlush =>
      FlushView(s, key);
    case SwapTables =>
      SwapView(s, key);
    case _ =>
  }

  // ----- whole runs -----

  ghost predicate Agrees(s: State, m: map<Bytes, Bytes>) {
    forall key :: View(s, key) == At(m, key)
  }

  ghost predicate CanRun(s: State, actions: seq<Action>, maxMemNodes: nat)
    decreases |actions|
  {
    actions == [] ||
    (Enabled(s, actions[0]) && CanRun(Step(s, actions[0], maxMemNodes), actions[1..], maxMemNodes))
  }

  ghost function Run(s: State, actions: seq<Action>, maxMemNodes: nat): State
    requires CanRun(s, actions, maxMemNodes)
    decreases |actions|
  {
    if actions == [] then s else Run(Step(s, actions[0], maxMemNodes), actions[1..], maxMemNodes)
  }

  function Effects(m: map<Bytes, Bytes>, actions: seq<Action>): map<Bytes, Bytes>
    decreases |actions|
  {
    if actions == [] then m else Effects(Effect(m, actions[0]), actions[1..])
  }

  /** However puts, erases, flushes and the phases of compactions interleave, in every reachable
      state an iterator shows exactly the finite map. */
  lemma {:induction false} RunView(s: State, m: map<Bytes, Bytes>, actions: seq<Action>, maxMemNodes: nat)
    requires Inv(s) && Agrees(s, m) && CanRun(s, actions, maxMemNodes) && Restart !in actions
    ensures Inv(Run(s, actions, maxMemNodes))
    ensures Agrees(Run(s, actions, maxMemNodes), Effects(m, actions))
    decreases |actions|
  {
    if actions != [] {
      var t := Step(s, actions[0], maxMemNodes);
      forall key ensures Inv(t) && View(t, key) == At(Effect(m, actions[0]), key) {
        StepView(s, actions[0], maxMemNodes, key);
      }
      StepView(s, actions[0], maxMemNodes, []);
      RunView(t, Effect(m, actions[0]), actions[1..], maxMemNodes);
    }
  }

  // ----- get -----

  /** Newest first: the order `get` relies on. */
  ghost predicate Ordered(readers: seq<Reader>) {
    forall i, j :: 0 <= i < j < |readers| ==> readers[i].sequence > readers[j].sequence
  }

  lemma {:induction false} OrderedFirst(readers: seq<Reader>, key: Bytes)
    requires Ordered(readers)
    ensures First(readers, key) == Latest(readers, key)
  {
    if readers != [] {
      OrderedFirst(readers[1..], key);
      if key in readers[0].table && Latest(readers[1..], key).Some? {
        var j :| 0 <= j < |readers[1..]| && readers[1..][j] == Latest(readers[1..], key).value;
        assert readers[0].sequence > readers[j + 1].sequence;
      }
    }
  }

  /** A swap leaves the list newest first exactly if nothing was flushed since the snapshot. */
  lemma SwapOrdered(s: State)
    requires Inv(s) && s.job.Built? && Ordered(s.readers)
    ensures Ordered(Swap(s).readers) <==> |s.readers| == |s.job.inputs|
  {
    SwapInv(s);
    WindowSplit(s.readers, s.job.inputs);
    var rs := Swap(s).readers;
    if |s.readers| > |s.job.inputs| {
      assert rs[1] == s.readers[0] && rs[0].sequence < rs[1].sequence;
    }
  }

  /** No table was flushed inside the window of a compaction that is swapping. */
  predicate QuietSwap(s: State, a: Action) {
    a.SwapTables? && s.job.Built? ==> |s.readers| == |s.job.inputs|
  }

  lemma StepOrdered(s: State, a: Action, maxMemNodes: nat)
    requires Inv(s) && Ordered(s.readers) && Enabled(s, a) && !a.Restart? && QuietSwap(s, a)
    ensures Ordered(Step(s, a, maxMemNodes).readers)
  {
    if a.SwapTables? { SwapOrdered(s); }
  }

  ghost predicate QuietRun(s: State, actions: seq<Action>, maxMemNodes: nat)
    requires CanRun(s, actions, maxMemNodes)
    decreases |actions|
  {
    actions == [] ||
    (QuietSwap(s, actions[0]) && QuietRun(Step(s, actions[0], maxMemNodes), actions[1..], maxMemNodes))
  }

  /** If no table is flushed between a snapshot and its swap, `get` answers as the finite map does. */
  lemma {:induction false} RunGet(s: State, m: map<Bytes, Bytes>, actions: seq<Action>, maxMemNodes: nat, key: Bytes)
    requires Inv(s) && Ordered(s.readers) && Agrees(s, m)
    requires CanRun(s, actions, maxMemNodes) && QuietRun(s, actions, maxMemNodes) && Restart !in actions
    ensures Get(Run(s, actions, maxMemNodes), key) == At(Effects(m, actions), key)
    decreases |actions|
  {
    if actions == [] {
      OrderedFirst(s.readers, key);
    } else {
      var t := Step(s, actions[0], maxMemNodes);
      StepOrdered(s, actions[0], maxMemNodes);
      forall k ensures Inv(t) && View(t, k) == At(Effect(m, actions[0]), k) {
        StepView(s, actions[0], maxMemNodes, k);
      }
      StepView(s, actions[0], maxMemNodes, []);
      RunGet(t, Effect(m, actions[0]), actions[1..], maxMemNodes, key);
    }
  }

  /** A table of sequence 0 in front of newer ones: `get` stops at it, an iterator prefers the others. */
  lemma FrontTable(c: Reader, newer: seq<Reader>, key: Bytes)
    requires Ordered(newer) && c.sequence == 0 && forall i :: 0 <= i < |newer| ==> newer[i].sequence > 0
    ensures First([c] + newer, key) == if key in c.table then Some(c) else First(newer, key)
    ensures Latest([c] + newer, key) ==
      if First(newer, key).Some? then First(newer, key) else if key in c.table then Some(c) else None
  {
    assert ([c] + newer)[1..] == newer;
    OrderedFirst(newer, key);
  }

  /** After a swap that raced with flushes, `get` is right about a key exactly if the memtable holds
      it, or the compacted table does not, or no raced table does, or the newest raced table answers
      as the compacted one does. */
  lemma RacedGet(s: State, key: Bytes)
    requires Inv(s) && s.job.Built? && Ordered(s.readers)
    ensures var raced := First(s.readers[..|s.readers| - |s.job.inputs|], key);
      var c := Compacted(s.job.inputs);
      Get(Swap(s), key) == View(s, key) <==>
      key in s.mem || key !in c || raced.None? || Live(raced.value.table[key]) == Live(c[key])
  {
    var c, newer := Reader(s.job.file, 0, Compacted(s.job.inputs)), s.readers[..|s.readers| - |s.job.inputs|];
    assert Ordered(newer) && forall i :: 0 <= i < |newer| ==> newer[i].sequence > 0 by {
      WindowSplit(s.readers, s.job.inputs);
    }
    assert Swap(s).readers == [c] + newer by { SwapInv(s); }
    SwapView(s, key);
    FrontTable(c, newer, key);
  }

  lemma RunCons(s: State, a: Action, rest: seq<Action>, maxMemNodes: nat)
    requires Enabled(s, a) && CanRun(Step(s, a, maxMemNodes), rest, maxMemNodes)
    ensures CanRun(s, [a] + rest, maxMemNodes)
    ensures Run(s, [a] + rest, maxMemNodes) == Run(Step(s, a, maxMemNodes), rest, maxMemNodes)
  {
    assert ([a] + rest)[1..] == rest;
  }

  lemma {:induction false} RunAppend(s: State, a: seq<Action>, b: seq<Action>, maxMemNodes: nat)
    requires CanRun(s, a, maxMemNodes) && CanRun(Run(s, a, maxMemNodes), b, maxMemNodes)
    ensures CanRun(s, a + b, maxMemNodes)
    ensures Run(s, a + b, maxMemNodes) == Run(Run(s, a, maxMemNodes), b, maxMemNodes)
    decreases |a|
  {
    if a == [] {
      assert a + b == b;
    } else {
      RunAppend(Step(s, a[0], maxMemNodes), a[1..], b, maxMemNodes);
      RunCons(s, a[0], a[1..] + b, maxMemNodes);
      ConsAppend(a, b);
    }
  }

  lemma ConsAppend<T>(a: seq<T>, b: seq<T>)
    requires a != []
    ensures a + b == [a[0]] + (a[1..] + b)
  {
  }

  /** A put and a flush on an empty memtable. */
  lemma PutAndFlush(s: State, k: Bytes, v: Bytes)
    requires Inv(s) && s.mem == map[]
    ensures CanRun(s, [DoPut(k, v), ForceFlush], 100)
    ensures var t := Run(s, [DoPut(k, v), ForceFlush], 100);
      Inv(t) && t.mem == map[] && t.counter == s.counter + 1 && t.job == s.job &&
      t.readers == [Reader(t.counter, t.counter, map[k := TableValue(Value, v)])] + s.readers
  {
    var p := Step(s, DoPut(k, v), 100);
    StepView(s, DoPut(k, v), 100, k);
    var t := Step(p, ForceFlush, 100);
    StepView(p, ForceFlush, 100, k);
    assert Run(p, [ForceFlush], 100) == t;
    assert [DoPut(k, v), ForceFlush][1..] == [ForceFlush];
  }

  lemma RunOne(s: State, a: Action)
    requires Inv(s) && Enabled(s, a) && !a.Restart?
    ensures CanRun(s, [a], 100) && Run(s, [a], 100) == Step(s, a, 100) && Inv(Step(s, a, 100))
  {
    StepView(s, a, 100, []);
    assert Run(Step(s, a, 100), [], 100) == Step(s, a, 100);
  }

  lemma RunThree(s: State, a: Action, b: Action, c: Action)
    requires Inv(s) && Enabled(s, a) && !a.Restart?
    requires var t := Step(s, a, 100); Enabled(t, b) && !b.Restart?
    requires var t := Step(Step(s, a, 100), b, 100); Enabled(t, c) && !c.Restart?
    ensures CanRun(s, [a, b, c], 100)
    ensures Run(s, [a, b, c], 100) == Step(Step(Step(s, a, 100), b, 100), c, 100) && Inv(Run(s, [a, b, c], 100))
  {
    RunOne(s, a);
    RunOne(Step(s, a, 100), b);
    RunOne(Step(Step(s, a, 100), b, 100), c);
    RunCons(Step(s, a, 100), b, [c], 100);
    RunCons(s, a, [b] + [c], 100);
    assert [a, b, c] == [a] + ([b] + [c]);
  }

  const FINISH := [NumberTable, MergeTables, SwapTables]

  /** A compaction from its snapshot through its swap. */
  lemma FinishCompaction(s: State)
    requires Inv(s) && s.job.Snapped? && Compacted(s.job.inputs) != map[]
    ensures CanRun(s, FINISH, 100)
    ensures var t := Run(s, FINISH, 100);
      t == Swap(Merge(Number(s))) && Inv(t) && t.mem == s.mem && t.counter == s.counter + 1 &&
      t.readers == [Reader(t.counter, 0, Compacted(s.job.inputs))] + s.readers[..|s.readers| - |s.job.inputs|]
  {
    RunThree(s, NumberTable, MergeTables, SwapTables);
    RunOne(s, NumberTable);
    RunOne(Number(s), MergeTables);
    SwapInv(Merge(Number(s)));
  }

  /** An engine opened on an empty directory. */
  function Fresh(): State {
    State(map[], [], 0, 1, Disk(map[], map[1 := []]), Idle)
  }

  lemma FreshIsOpened()
    ensures Reopen(Disk(map[], map[])) == Fresh() && Inv(Fresh()) && Ordered(Fresh().readers) && Agrees(Fresh(), map[])
  {
    var d := Disk(map[], map[]);
    assert d.ssts.Keys == {} && d.wals.Keys == {};
    assert Max(d.ssts.Keys) == 0;
    assert ReadersBelow(d.ssts, 1) == [] && ReplayBelow(d.wals, 1) == map[];
  }

  lemma OlderHolds(newer: Reader, older: Reader, k: Bytes, v: Bytes)
    requires k !in newer.table && k in older.table && older.table[k] == TableValue(Value, v)
    ensures k in Compacted([newer, older]) && Compacted([newer, older])[k] == TableValue(Value, v)
  {
    assert [newer, older][1..] == [older] && Latest([older], k) == Some(older);
    CompactedFinds([newer, older], k);
  }

  lemma NothingBehind(r: Reader)
    ensures [r] + [] == [r]
  {
  }

  /** Two tables, of which only the older holds `k`, and a compaction that has taken its snapshot. */
  lemma TwoTables(k: Bytes, j: Bytes, v: Bytes) returns (actions: seq<Action>, s: State)
    requires k != j
    ensures actions == [DoPut(k, v), ForceFlush] + ([DoPut(j, v), ForceFlush] + [StartCompaction])
    ensures CanRun(Fresh(), actions, 100) && Run(Fresh(), actions, 100) == s && Inv(s) && s.mem == map[]
    ensures s.counter == 2 && s.job == Snapped(s.readers) && |s.readers| == 2
    ensures s.readers == [Reader(2, 2, map[j := TableValue(Value, v)])] + [Reader(1, 1, map[k := TableValue(Value, v)])]
  {
    FreshIsOpened();
    PutAndFlush(Fresh(), k, v);
    var first := [DoPut(k, v), ForceFlush];
    var s2 := Run(Fresh(), first, 100);
    NothingBehind(Reader(1, 1, map[k := TableValue(Value, v)]));
    s := SecondTable(s2, j, v);
    RunAppend(Fresh(), first, [DoPut(j, v), ForceFlush] + [StartCompaction], 100);
    actions := first + ([DoPut(j, v), ForceFlush] + [StartCompaction]);
  }

  lemma SecondTable(s: State, j: Bytes, v: Bytes) returns (t: State)
    requires Inv(s) && s.mem == map[] && s.job.Idle? && |s.readers| == 1
    ensures CanRun(s, [DoPut(j, v), ForceFlush] + [StartCompaction], 100)
    ensures Run(s, [DoPut(j, v), ForceFlush] + [StartCompaction], 100) == t && Inv(t) && t.mem == map[]
    ensures t.counter == s.counter + 1 && t.job == Snapped(t.readers)
    ensures t.readers == [Reader(t.counter, t.counter, map[j := TableValue(Value, v)])] + s.readers
  {
    PutAndFlush(s, j, v);
    var u := Run(s, [DoPut(j, v), ForceFlush], 100);
    RunOne(u, StartCompaction);
    t := Snapshot(u);
    RunAppend(s, [DoPut(j, v), ForceFlush], [StartCompaction], 100);
  }

  lemma RacedAnswers(s: State, c: Reader, raced: Reader, k: Bytes, v1: Bytes, v2: Bytes)
    requires s.readers == [c] + [raced] && k !in s.mem && c.sequence == 0 < raced.sequence
    requires k in c.table && c.table[k] == TableValue(Value, v1)
    requires k in raced.table && raced.table[k] == TableValue(Value, v2)
    ensures Get(s, k) == Some(v1) && View(s, k) == Some(v2)
  {
    FrontTable(c, [raced], k);
  }

  /** The race on a concrete run: with two tables on disk, a key overwritten and flushed while the
      compaction runs reads back its old value, although an iterator shows the new one. */
  lemma StaleGet(k: Bytes, j: Bytes, v1: Bytes, v2: Bytes)
    requires k != j && v1 != v2
    ensures var actions := ([DoPut(k, v1), ForceFlush] + ([DoPut(j, v1), ForceFlush] + [StartCompaction])) +
                           ([DoPut(k, v2), ForceFlush] + FINISH);
      CanRun(Fresh(), actions, 100) &&
      Get(Run(Fresh(), actions, 100), k) == Some(v1) && View(Run(Fresh(), actions, 100), k) == Some(v2)
  {
    var before, s5 := TwoTables(k, j, v1);
    OlderHolds(s5.readers[0], s5.readers[1], k, v1);
    assert s5.readers == [s5.readers[0], s5.readers[1]];
    PutAndFlush(s5, k, v2);
    var s7 := Run(s5, [DoPut(k, v2), ForceFlush], 100);
    FinishCompaction(s7);
    RunAppend(s5, [DoPut(k, v2), ForceFlush], FINISH, 100);
    RunAppend(Fresh(), before, [DoPut(k, v2), ForceFlush] + FINISH, 100);
    var s10 := Run(s7, FINISH, 100);
    var raced := Reader(3, 3, map[k := TableValue(Value, v2)]);
    assert s7.readers[..1] == [raced];
    RacedAnswers(s10, Reader(4, 0, Compacted(s5.readers)), raced, k, v1, v2);
  }
}
