/** Crashes and reopenings: what the files on disk are worth at every point of a run. */
module EngineRecovery {
  import opened ByteStrings
  import opened Entries
  import opened EngineSpec
  import opened EngineView

  // ----- lookup by file number -----

  /** The complete tables on disk are exactly those of `pool`. */
  ghost predicate DiskIs(ssts: map<nat, SstFile>, pool: set<Reader>) {
    (forall r :: r in pool ==> r.file in ssts && ssts[r.file] == Complete(r.table)) &&
    (forall f {:trigger InPool(pool, f)} :: f in ssts && ssts[f].Complete? ==> InPool(pool, f))
  }

  ghost predicate InPool(pool: set<Reader>, f: nat) {
    exists r :: r in pool && r.file == f
  }

  /** No table of the pool that holds `key` has a higher file number than `b`. */
  ghost predicate Best(pool: set<Reader>, key: Bytes, b: Reader) {
    b in pool && key in b.table && forall r :: r in pool && key in r.table ==> r.file <= b.file
  }

  ghost predicate OpenedFrom(ssts: map<nat, SstFile>, r: Reader) {
    r.sequence == r.file && r.file in ssts && ssts[r.file] == Complete(r.table)
  }

  lemma {:induction false} ReadersBelowAre(ssts: map<nat, SstFile>, n: nat, r: Reader)
    requires r in ReadersBelow(ssts, n)
    ensures OpenedFrom(ssts, r) && r.file < n
  {
    if r in ReadersBelow(ssts, n - 1) { ReadersBelowAre(ssts, n - 1, r); }
  }

  lemma {:induction false} ReadersBelowOrdered(ssts: map<nat, SstFile>, n: nat)
    ensures Ordered(ReadersBelow(ssts, n))
  {
    if n > 0 {
      ReadersBelowOrdered(ssts, n - 1);
      var older := ReadersBelow(ssts, n - 1);
      forall i | 0 <= i < |older| ensures older[i].sequence < n - 1 {
        ReadersBelowAre(ssts, n - 1, older[i]);
      }
    }
  }

  lemma {:induction false} ReadersBelowHas(ssts: map<nat, SstFile>, n: nat, f: nat)
    requires f < n && f in ssts && ssts[f].Complete?
    ensures Reader(f, f, ssts[f].table) in ReadersBelow(ssts, n)
  {
    if f < n - 1 { ReadersBelowHas(ssts, n - 1, f); }
  }

  lemma PoolHolds(ssts: map<nat, SstFile>, pool: set<Reader>, f: nat) returns (r: Reader)
    requires DiskIs(ssts, pool) && f in ssts && ssts[f].Complete?
    ensures r in pool && r.file == f && r.table == ssts[f].table
  {
    assert InPool(pool, f);
    r :| r in pool && r.file == f;
  }

  lemma LatestBounds(readers: seq<Reader>, key: Bytes, r: Reader)
    requires r in readers && key in r.table
    ensures Latest(readers, key).Some? && Latest(readers, key).value.sequence >= r.sequence
  {
    var i :| 0 <= i < |readers| && readers[i] == r;
  }

  /** A reopened engine answers from the complete table with the highest file number. */
  lemma BelowLatest(ssts: map<nat, SstFile>, n: nat, pool: set<Reader>, key: Bytes, b: Reader)
    requires DiskIs(ssts, pool) && Best(pool, key, b) && b.file < n
    ensures var r := Latest(ReadersBelow(ssts, n), key); r.Some? && r.value.table == b.table
  {
    ReadersBelowHas(ssts, n, b.file);
    var readers := ReadersBelow(ssts, n);
    LatestBounds(readers, key, Reader(b.file, b.file, b.table));
    var r := Latest(readers, key).value;
    assert OpenedFrom(ssts, r) by { ReadersBelowAre(ssts, n, r); }
    SameBest(ssts, pool, key, b, r);
  }

  lemma SameBest(ssts: map<nat, SstFile>, pool: set<Reader>, key: Bytes, b: Reader, r: Reader)
    requires DiskIs(ssts, pool) && Best(pool, key, b) && OpenedFrom(ssts, r) && key in r.table && r.sequence >= b.file
    ensures r.table == b.table
  {
    var p := PoolHolds(ssts, pool, r.file);
  }

  lemma BelowNone(ssts: map<nat, SstFile>, n: nat, pool: set<Reader>, key: Bytes)
    requires DiskIs(ssts, pool) && forall r :: r in pool ==> key !in r.table
    ensures Latest(ReadersBelow(ssts, n), key).None?
  {
    forall r | r in ReadersBelow(ssts, n) ensures key !in r.table {
      ReadersBelowAre(ssts, n, r);
      var p := PoolHolds(ssts, pool, r.file);
    }
  }

  // ----- replaying logs -----

  lemma {:induction false} ReplayBelowSame(a: map<nat, seq<Record>>, b: map<nat, seq<Record>>, n: nat)
    requires forall w :: w < n ==> (w in a <==> w in b) && (w in a ==> a[w] == b[w])
    ensures ReplayBelow(a, n) == ReplayBelow(b, n)
  {
    if n > 0 { ReplayBelowSame(a, b, n - 1); }
  }

  lemma {:induction false} ReplayBelowBeyond(wals: map<nat, seq<Record>>, n: nat, m: nat)
    requires n <= m && forall w :: n <= w < m && w in wals ==> wals[w] == []
    ensures ReplayBelow(wals, m) == ReplayBelow(wals, n)
  {
    if n < m { ReplayBelowBeyond(wals, n, m - 1); }
  }

  lemma ReplayAppended(wals: map<nat, seq<Record>>, n: nat, r: Record)
    requires n in wals
    ensures ReplayBelow(wals[n := wals[n] + [r]], n + 1) == Apply(ReplayBelow(wals, n + 1), r)
  {
    var log := wals[n] + [r];
    assert log[..|log| - 1] == wals[n];
    ReplayBelowSame(wals, wals[n := log], n);
  }

  /** The memtable is what replaying the logs gives, the current log last. */
  ghost predicate LogInv(s: State) {
    s.wal in s.disk.wals && (forall w :: w in s.disk.wals ==> w <= s.wal) &&
    s.mem == ReplayBelow(s.disk.wals, s.wal + 1)
  }

  /** Every log but the current one is empty. */
  ghost predicate SoleLog(s: State) {
    forall w :: w in s.disk.wals && w != s.wal ==> s.disk.wals[w] == []
  }

  lemma TouchedReplay(wals: map<nat, seq<Record>>, n: nat, w: nat)
    requires w <= n && forall k :: k in wals ==> k <= w
    ensures ReplayBelow(Touch(wals, n), n + 1) == ReplayBelow(wals, w + 1)
    ensures forall k :: k in Touch(wals, n) ==> k <= n
  {
    if n in wals {
      assert n == w;
    } else {
      ReplayBelowSame(wals, Touch(wals, n), n);
      ReplayBelowBeyond(wals, w + 1, if w < n then n else w + 1);
      if w == n { ReplayBelowBeyond(wals, n, n + 1); }
    }
  }

  lemma LogKept(s: State, r: Record)
    requires LogInv(s)
    ensures LogInv(Log(s, r))
  {
    ReplayAppended(s.disk.wals, s.wal, r);
  }

  /** A flush may drop the current log only because the other logs hold nothing. */
  lemma FlushKeepsLog(s: State)
    requires LogInv(s) && SoleLog(s) && s.wal <= s.counter + 1
    ensures LogInv(Flush(s))
    ensures s.mem != map[] ==> SoleLog(Flush(s)) && Flush(s).wal == Flush(s).counter + 1
  {
    var n := s.counter + 2;
    ReplayBelowBeyond(Touch(s.disk.wals, n) - {s.wal}, 0, n + 1);
  }

  // ----- what is on disk -----

  /** Complete tables on disk that no reader has open. */
  function Extra(s: State): seq<Reader> {
    match s.job
    case Built(inputs, n) => [Reader(n, 0, Compacted(inputs))]
    case Removing(inputs, n, k) => if k <= |inputs| then inputs[k..] else []
    case _ => []
  }

  ghost function Elements(readers: seq<Reader>): set<Reader> {
    set r | r in readers
  }

  ghost function Pool(s: State): set<Reader> {
    Elements(s.readers) + Elements(Extra(s))
  }

  /** Of two tables that hold `key`, `r` has the higher file number, or both give the same answer. */
  ghost predicate Outlasts(r: Reader, other: Reader, key: Bytes) {
    key in r.table && key in other.table ==> other.file < r.file || Live(other.table[key]) == Live(r.table[key])
  }

  /** About `key`, sequence numbers and file numbers order the tables alike, or it makes no difference. */
  ghost predicate OrderAgrees(readers: seq<Reader>, key: Bytes) {
    forall i, j :: 0 <= i < |readers| && 0 <= j < |readers| && readers[i].sequence < readers[j].sequence ==>
      Outlasts(readers[j], readers[i], key)
  }

  ghost predicate FilesBelow(readers: seq<Reader>, n: nat) {
    forall i :: 0 <= i < |readers| ==> readers[i].file < n
  }

  ghost predicate FilesOver(newer: seq<Reader>, older: seq<Reader>) {
    forall i, j :: 0 <= i < |newer| && 0 <= j < |older| ==> older[j].file < newer[i].file
  }

  /** As a flush opens tables: the sequence number is the file number. */
  ghost predicate Flushed(readers: seq<Reader>) {
    forall i :: 0 <= i < |readers| ==> readers[i].sequence == readers[i].file
  }

  /** The readers flushed since the snapshot. */
  function SinceSnapshot(s: State): seq<Reader>
    requires !s.job.Idle? && |s.job.inputs| <= |s.readers|
  {
    s.readers[..|s.readers| - |s.job.inputs|]
  }

  /** Between its snapshot and its swap. */
  predicate InWindow(s: State) {
    s.job.Snapped? || s.job.Numbered? || s.job.Built?
  }

  /** Where the files of a compaction stand: the inputs below the output and below all flushed since. */
  ghost predicate JobFiles(s: State) {
    (InWindow(s) ==>
      |s.job.inputs| <= |s.readers| && FilesOver(SinceSnapshot(s), s.job.inputs) && Flushed(SinceSnapshot(s))) &&
    (s.job.Numbered? || s.job.Built? ==> FilesBelow(s.job.inputs, s.job.file)) &&
    (s.job.Removing? ==>
      s.job.removed <= |s.job.inputs| && Reader(s.job.file, 0, Compacted(s.job.inputs)) in s.readers &&
      FilesOver(s.readers, s.job.inputs) && Unique(s.job.inputs))
  }

  /** The table a compaction will write; until it is numbered the next number is a lower bound. */
  function Output(s: State): Reader
    requires InWindow(s)
  {
    Reader(if s.job.Snapped? then s.counter + 1 else s.job.file, 0, Compacted(s.job.inputs))
  }

  /** About `key`, nothing flushed during a compaction is outnumbered by its output. */
  ghost predicate JobAgrees(s: State, key: Bytes)
    requires JobFiles(s)
  {
    (InWindow(s) ==> forall i :: 0 <= i < |SinceSnapshot(s)| ==> Outlasts(SinceSnapshot(s)[i], Output(s), key)) &&
    (s.job.Removing? ==> OrderAgrees(s.job.inputs, key))
  }

  ghost predicate OnDisk(s: State) {
    DiskIs(s.disk.ssts, Pool(s))
  }

  /** The counter is the highest number any table file has. */
  ghost predicate CounterOk(s: State) {
    (forall f :: f in s.disk.ssts ==> f <= s.counter) && (s.counter == 0 || s.counter in s.disk.ssts)
  }

  /** The tables on disk are right ... */
  ghost predicate Filed(s: State) {
    Inv(s) && OnDisk(s) && JobFiles(s) && CounterOk(s)
  }

  /** ... and so are the logs. */
  ghost predicate Durable(s: State) {
    Filed(s) && LogInv(s)
  }

  /** File numbers, which are all a reopened engine goes by, answer for `key` as sequence numbers do. */
  ghost predicate Settled(s: State, key: Bytes)
    requires JobFiles(s)
  {
    OrderAgrees(s.readers, key) && JobAgrees(s, key)
  }

  /** No input of a compaction has been removed yet, or all have. */
  predicate Recoverable(s: State) {
    s.job.Removing? ==> s.job.removed == 0 || s.job.removed >= |s.job.inputs|
  }

  // ----- the three orders agree -----

  ghost predicate SameAnswer(a: Option<Reader>, b: Option<Reader>, key: Bytes) {
    (a.Some? ==> key in a.value.table) && (b.Some? ==> key in b.value.table) &&
    Answer(map[], a, key) == Answer(map[], b, key)
  }

  ghost predicate BestOf(pool: set<Reader>, key: Bytes, b: Option<Reader>) {
    match b
    case None => forall r :: r in pool ==> key !in r.table
    case Some(r) => Best(pool, key, r)
  }

  /** No table that answers otherwise has a file number as high. */
  ghost predicate Leads(pool: set<Reader>, key: Bytes, l: Option<Reader>) {
    match l
    case None => forall r :: r in pool ==> key !in r.table
    case Some(r) => r in pool && key in r.table && forall q :: q in pool ==> q == r || Outlasts(r, q, key)
  }

  lemma {:induction false} FindBest(readers: seq<Reader>, key: Bytes) returns (b: Option<Reader>)
    ensures BestOf(Elements(readers), key, b)
  {
    b := None;
    if readers != [] {
      b := FindBest(readers[1..], key);
      assert Elements(readers) == {readers[0]} + Elements(readers[1..]);
      if key in readers[0].table && (b.None? || readers[0].file > b.value.file) { b := Some(readers[0]); }
    }
  }

  lemma BestLeads(pool: set<Reader>, key: Bytes, b: Option<Reader>, l: Option<Reader>)
    requires BestOf(pool, key, b) && Leads(pool, key, l)
    ensures SameAnswer(b, l, key)
  {
    if b.Some? && l.Some? { assert b.value in pool; }
  }

  /** The newest open table, or else the newest input not yet removed. */
  function Leader(s: State, key: Bytes): (l: Option<Reader>)
    ensures l.Some? ==> key in l.value.table
  {
    var open := Latest(s.readers, key);
    if open.Some? then open else Latest(Extra(s), key)
  }

  lemma LatestLeads(readers: seq<Reader>, key: Bytes)
    requires Unique(readers) && OrderAgrees(readers, key)
    ensures Leads(Elements(readers), key, Latest(readers, key))
  {
    var l := Latest(readers, key);
    if l.Some? {
      var k :| 0 <= k < |readers| && readers[k] == l.value;
      forall r | r in Elements(readers) ensures r == l.value || Outlasts(l.value, r, key) {
        var i :| 0 <= i < |readers| && readers[i] == r;
        if i != k { assert readers[i].sequence != readers[k].sequence; }
      }
    }
  }

  lemma LeadsJoin(pool: set<Reader>, extra: set<Reader>, key: Bytes, l: Option<Reader>)
    requires Leads(pool, key, l)
    requires forall r :: r in extra ==> if l.Some? then Outlasts(l.value, r, key) else key !in r.table
    ensures Leads(pool + extra, key, l)
  {
  }

  /** A compaction's output beside its inputs. */
  lemma OutputOutlasted(s: State, key: Bytes)
    requires Inv(s) && JobFiles(s) && s.job.Built? && JobAgrees(s, key)
    ensures var l := Latest(s.readers, key);
      if l.Some? then Outlasts(l.value, Output(s), key) else key !in Output(s).table
  {
    var newer, inputs := SinceSnapshot(s), s.job.inputs;
    WindowSplit(s.readers, inputs);
    LatestConcat(newer, inputs, key);
    CompactedFinds(inputs, key);
    var n := Latest(newer, key);
    if n.Some? { var i :| 0 <= i < |newer| && newer[i] == n.value; }
  }

  lemma InputsOutlasted(s: State, r: Reader, other: Reader)
    requires JobFiles(s) && s.job.Removing? && r in s.readers && other in s.job.inputs
    ensures other.file < r.file
  {
    var i :| 0 <= i < |s.readers| && s.readers[i] == r;
    var j :| 0 <= j < |s.job.inputs| && s.job.inputs[j] == other;
  }

  lemma LeaderLeads(s: State, key: Bytes)
    requires Filed(s) && Settled(s, key)
    ensures Leads(Pool(s), key, Leader(s, key))
  {
    LatestLeads(s.readers, key);
    if s.job.Built? {
      OutputOutlasted(s, key);
      assert Extra(s) == [Output(s)] && [Output(s)][1..] == [];
      LeadsJoin(Elements(s.readers), Elements(Extra(s)), key, Latest(s.readers, key));
    } else if s.job.Removing? {
      LeaderRemoving(s, key);
    } else {
      assert Pool(s) == Elements(s.readers);
    }
  }

  lemma LeaderRemoving(s: State, key: Bytes)
    requires Filed(s) && Settled(s, key) && s.job.Removing?
    ensures Leads(Pool(s), key, Leader(s, key))
  {
    var l, left := Latest(s.readers, key), s.job.inputs[s.job.removed..];
    LatestLeads(s.readers, key);
    if l.Some? {
      forall r | r in Elements(left) ensures Outlasts(l.value, r, key) { InputsOutlasted(s, l.value, r); }
      LeadsJoin(Elements(s.readers), Elements(left), key, l);
    } else {
      SuffixOrder(s.job.inputs, s.job.removed, key);
      LatestLeads(left, key);
      LeadsJoin(Elements(left), Elements(s.readers), key, Latest(left, key));
      assert Pool(s) == Elements(left) + Elements(s.readers);
    }
  }

  lemma SuffixOrder(readers: seq<Reader>, k: nat, key: Bytes)
    requires k <= |readers| && Unique(readers) && OrderAgrees(readers, key)
    ensures Unique(readers[k..]) && OrderAgrees(readers[k..], key)
  {
    assert forall i :: 0 <= i < |readers[k..]| ==> readers[k..][i] == readers[k + i];
  }

  lemma PoolBest(s: State, key: Bytes) returns (b: Option<Reader>)
    ensures BestOf(Pool(s), key, b)
  {
    b := FindBest(s.readers + Extra(s), key);
    ElementsConcat(s.readers, Extra(s));
  }

  lemma OutputLacks(readers: seq<Reader>, inputs: seq<Reader>, c: Reader, key: Bytes)
    requires Unique(readers) && Window(readers, inputs) && c.table == Compacted(inputs) && Latest(readers, key).None?
    ensures Latest([c], key).None?
  {
    WindowSplit(readers, inputs);
    LatestConcat(readers[..|readers| - |inputs|], inputs, key);
    CompactedFinds(inputs, key);
  }

  lemma InputsSilent(readers: seq<Reader>, inputs: seq<Reader>, c: Reader, key: Bytes)
    requires c in readers && c.table == Compacted(inputs) && Latest(readers, key).None?
    ensures SameAnswer(Latest(inputs, key), None, key)
  {
    CompactedFinds(inputs, key);
    var k :| 0 <= k < |readers| && readers[k] == c;
    assert key !in readers[k].table;
  }

  /** With no input removed, or all, the inputs have nothing to add to the open tables. */
  lemma LeaderIsLatest(s: State, key: Bytes)
    requires Filed(s) && Recoverable(s)
    ensures SameAnswer(Leader(s, key), Latest(s.readers, key), key)
  {
    if Latest(s.readers, key).None? {
      if s.job.Built? {
        OutputLacks(s.readers, s.job.inputs, Output(s), key);
      } else if s.job.Removing? && s.job.removed == 0 {
        InputsSilent(s.readers, s.job.inputs, Reader(s.job.file, 0, Compacted(s.job.inputs)), key);
        assert s.job.inputs[0..] == s.job.inputs;
      } else {
        assert Extra(s) == [];
      }
    }
  }

  /** Reopening a disk whose complete tables are `pool`. */
  lemma ReopenAnswers(disk: Disk, pool: set<Reader>, mem: Table, key: Bytes, b: Option<Reader>)
    requires DiskIs(disk.ssts, pool) && ReplayBelow(disk.wals, Max(disk.wals.Keys) + 1) == mem
    requires key in mem || BestOf(pool, key, b)
    requires b.Some? ==> key in b.value.table
    ensures View(Reopen(disk), key) == Answer(mem, b, key)
  {
    if key !in mem {
      match b
      case None => BelowNone(disk.ssts, Max(disk.ssts.Keys) + 1, pool, key);
      case Some(r) => BelowLatest(disk.ssts, Max(disk.ssts.Keys) + 1, pool, key, r);
    }
  }

  /** The current log is the last one. */
  lemma LastLog(s: State)
    requires LogInv(s)
    ensures ReplayBelow(s.disk.wals, Max(s.disk.wals.Keys) + 1) == s.mem
  {
    assert Max(s.disk.wals.Keys) == s.wal;
  }

  lemma ReopenFrom(s: State, key: Bytes, b: Option<Reader>)
    requires LogInv(s) && OnDisk(s) && BestOf(Pool(s), key, b)
    requires b.Some? ==> key in b.value.table
    ensures View(Reopen(s.disk), key) == Answer(s.mem, b, key)
  {
    LastLog(s);
    ReopenAnswers(s.disk, Pool(s), s.mem, key, b);
  }

  /** Whatever the logs hold, reopening replays it over tables that answer as the newest table left. */
  lemma ReopenLeader(s: State, key: Bytes)
    requires Filed(s) && Settled(s, key)
    ensures View(Reopen(s.disk), key) ==
      Answer(ReplayBelow(s.disk.wals, Max(s.disk.wals.Keys) + 1), Leader(s, key), key)
  {
    var b := PoolBest(s, key);
    LeaderLeads(s, key);
    BestLeads(Pool(s), key, b, Leader(s, key));
    ReopenAnswers(s.disk, Pool(s), ReplayBelow(s.disk.wals, Max(s.disk.wals.Keys) + 1), key, b);
  }

  lemma ReopenFiled(s: State, key: Bytes)
    requires Filed(s) && Settled(s, key) && Recoverable(s)
    ensures View(Reopen(s.disk), key) ==
      Answer(ReplayBelow(s.disk.wals, Max(s.disk.wals.Keys) + 1), Latest(s.readers, key), key)
  {
    ReopenLeader(s, key);
    LeaderIsLatest(s, key);
  }

  /** A crash in any durable state, other than in the middle of removing a compaction's inputs, loses
      nothing that is settled: the reopened engine answers as the crashed one did. */
  lemma ReopenView(s: State, key: Bytes)
    requires Durable(s) && Settled(s, key) && Recoverable(s)
    ensures View(Reopen(s.disk), key) == View(s, key)
  {
    LastLog(s);
    ReopenFiled(s, key);
  }

  lemma DiskPartial(ssts: map<nat, SstFile>, pool: set<Reader>, n: nat)
    requires DiskIs(ssts, pool) && (n in ssts ==> ssts[n].Partial?)
    ensures DiskIs(ssts[n := Partial], pool)
  {
  }

  lemma DiskCons(ssts: map<nat, SstFile>, pool: set<Reader>, r: Reader)
    requires DiskIs(ssts, pool) && (r.file in ssts ==> ssts[r.file].Partial?)
    ensures DiskIs(ssts[r.file := Complete(r.table)], pool + {r})
  {
    var more, ssts' := pool + {r}, ssts[r.file := Complete(r.table)];
    forall f | f in ssts' && ssts'[f].Complete? ensures InPool(more, f) {
      if f == r.file {
        assert r in more;
      } else {
        var p := PoolHolds(ssts, pool, f);
        assert p in more;
      }
    }
  }

  lemma BestCons(pool: set<Reader>, r: Reader, key: Bytes, b: Option<Reader>)
    requires BestOf(pool, key, b) && key !in r.table
    ensures BestOf(pool + {r}, key, b)
  {
  }

  /** The disk in the middle of a flush still holds the old log, and with it every binding the new
      table has. */
  lemma FlushCrash(s: State, step: nat, key: Bytes)
    requires Durable(s) && Settled(s, key) && Recoverable(s) && step <= 3
    ensures View(Reopen(FlushDisk(s, step)), key) == View(s, key)
  {
    var b := PoolBest(s, key);
    LeaderLeads(s, key);
    BestLeads(Pool(s), key, b, Leader(s, key));
    LeaderIsLatest(s, key);
    FlushCrashFrom(s, step, key, b);
  }

  lemma FlushCrashFrom(s: State, step: nat, key: Bytes, b: Option<Reader>)
    requires LogInv(s) && s.wal <= s.counter + 1 && DiskIs(s.disk.ssts, Pool(s)) && step <= 3
    requires s.counter + 1 !in s.disk.ssts
    requires BestOf(Pool(s), key, b) && SameAnswer(b, Latest(s.readers, key), key)
    ensures View(Reopen(FlushDisk(s, step)), key) == View(s, key)
  {
    var d, n := FlushDisk(s, step), s.counter + 1;
    LastLog(s);
    TouchedReplay(s.disk.wals, n + 1, s.wal);
    assert step == 3 ==> n + 1 in d.wals && Max(d.wals.Keys) == n + 1;
    if step == 0 {
      ReopenAnswers(d, Pool(s), s.mem, key, b);
    } else if step == 1 {
      DiskPartial(s.disk.ssts, Pool(s), n);
      ReopenAnswers(d, Pool(s), s.mem, key, b);
    } else {
      var r := Reader(n, n, s.mem);
      DiskCons(s.disk.ssts, Pool(s), r);
      if key !in s.mem { BestCons(Pool(s), r, key, b); }
      ReopenAnswers(d, Pool(s) + {r}, s.mem, key, b);
    }
  }

  // ----- every step keeps the disk worth reopening -----

  /** A flush is safe while no other log holds records. */
  ghost predicate SafeFlush(s: State) {
    s.mem != map[] ==> SoleLog(s)
  }

  ghost predicate Safe(s: State, a: Action, maxMemNodes: nat)
    requires Enabled(s, a)
  {
    match a
    case DoPut(k, v) =>
      var t := Log(s, PutRecord(k, v)); |t.mem| >= maxMemNodes ==> SafeFlush(t)
    case ForceFlush => SafeFlush(s)
    case Restart => Recoverable(s)
    case _ => true
  }

  /** A table flushed after a compaction's snapshot and before its numbering gets the lower number.
      That harms a key exactly if the compaction keeps it and the flush changes its answer. */
  ghost predicate HarmlessFlush(s: State, key: Bytes) {
    s.mem != map[] && s.job.Snapped? && key in s.mem && key in Compacted(s.job.inputs) ==>
      Live(Compacted(s.job.inputs)[key]) == Live(s.mem[key])
  }

  ghost predicate Harmless(s: State, a: Action, maxMemNodes: nat, key: Bytes)
    requires Enabled(s, a)
  {
    match a
    case DoPut(k, v) =>
      var t := Log(s, PutRecord(k, v)); |t.mem| >= maxMemNodes ==> HarmlessFlush(t, key)
    case ForceFlush => HarmlessFlush(s, key)
    case _ => true
  }

  lemma FlushOnDisk(s: State)
    requires OnDisk(s) && CounterOk(s)
    ensures OnDisk(Flush(s)) && CounterOk(Flush(s))
  {
    if s.mem != map[] {
      var r := Reader(s.counter + 1, s.counter + 1, s.mem);
      DiskCons(s.disk.ssts, Pool(s), r);
      assert Pool(Flush(s)) == Pool(s) + {r};
    }
  }

  lemma MergeOnDisk(s: State)
    requires OnDisk(s) && s.job.Numbered? && Avoids(s.readers, s.job.file)
    ensures OnDisk(Merge(s))
  {
    assert Extra(s) == [] && Pool(s) == Elements(s.readers);
    var c := Reader(s.job.file, 0, Compacted(s.job.inputs));
    assert s.job.file in s.disk.ssts && s.disk.ssts[s.job.file].Complete? ==> InPool(Pool(s), s.job.file);
    if Compacted(s.job.inputs) != map[] {
      DiskCons(s.disk.ssts, Pool(s), c);
      assert Pool(Merge(s)) == Pool(s) + {c};
    }
  }

  lemma ElementsConcat(a: seq<Reader>, b: seq<Reader>)
    ensures Elements(a + b) == Elements(a) + Elements(b)
  {
  }

  lemma SwapPool(s: State, newer: seq<Reader>)
    requires s.job.Built? && s.readers == newer + s.job.inputs && Without(s.readers, Files(s.job.inputs)) == newer
    ensures Pool(Swap(s)) == Pool(s)
  {
    var inputs, c := s.job.inputs, Reader(s.job.file, 0, Compacted(s.job.inputs));
    ElementsConcat(newer, inputs);
    ElementsConcat([c], newer);
    assert inputs[0..] == inputs;
  }

  lemma SwapOnDisk(s: State)
    requires OnDisk(s) && s.job.Built?
    requires Unique(s.readers) && Window(s.readers, s.job.inputs)
    ensures OnDisk(Swap(s))
  {
    WindowSplit(s.readers, s.job.inputs);
    SwapPool(s, SinceSnapshot(s));
  }

  lemma DiskRemove(ssts: map<nat, SstFile>, pool: set<Reader>, gone: Reader)
    requires DiskIs(ssts, pool + {gone}) && forall r :: r in pool ==> r.file != gone.file
    ensures DiskIs(ssts - {gone.file}, pool)
  {
    forall f | f in ssts - {gone.file} && ssts[f].Complete? ensures InPool(pool, f) {
      var p := PoolHolds(ssts, pool + {gone}, f);
    }
  }

  lemma OtherFiles(inputs: seq<Reader>, k: nat)
    requires Unique(inputs) && k < |inputs|
    ensures forall r :: r in inputs[k + 1..] ==> r.file != inputs[k].file
  {
    forall r | r in inputs[k + 1..] ensures r.file != inputs[k].file {
      var i :| 0 <= i < |inputs[k + 1..]| && inputs[k + 1..][i] == r;
      assert inputs[k + 1 + i] == r;
    }
  }

  lemma RemovePool(s: State)
    requires s.job.Removing? && JobFiles(s) && s.job.removed < |s.job.inputs|
    ensures var gone := s.job.inputs[s.job.removed];
      Pool(s) == Pool(Remove(s)) + {gone} && forall r :: r in Pool(Remove(s)) ==> r.file != gone.file
  {
    var inputs, k := s.job.inputs, s.job.removed;
    assert inputs[k..] == [inputs[k]] + inputs[k + 1..];
    ElementsConcat([inputs[k]], inputs[k + 1..]);
    OtherFiles(inputs, k);
    forall r | r in s.readers ensures r.file != inputs[k].file {
      var i :| 0 <= i < |s.readers| && s.readers[i] == r;
    }
  }

  lemma RemoveOnDisk(s: State)
    requires OnDisk(s) && s.job.Removing? && JobFiles(s)
    ensures OnDisk(Remove(s))
  {
    if s.job.removed < |s.job.inputs| {
      RemovePool(s);
      DiskRemove(s.disk.ssts, Pool(Remove(s)), s.job.inputs[s.job.removed]);
    } else {
      assert Pool(Remove(s)) == Pool(s);
    }
  }

  lemma ReopenOnDisk(disk: Disk)
    ensures OnDisk(Reopen(disk)) && CounterOk(Reopen(disk))
  {
    var t := Reopen(disk);
    var pool := Elements(t.readers);
    assert Pool(t) == pool;
    forall r | r in pool ensures OpenedFrom(disk.ssts, r) {
      ReadersBelowAre(disk.ssts, t.counter + 1, r);
    }
    forall f | f in disk.ssts && disk.ssts[f].Complete? ensures InPool(pool, f) {
      ReadersBelowHas(disk.ssts, t.counter + 1, f);
      assert Reader(f, f, disk.ssts[f].table) in pool;
    }
  }

  lemma WriteOnDisk(s: State, r: Record)
    requires OnDisk(s) && CounterOk(s) && s.wal in s.disk.wals
    ensures OnDisk(Log(s, r)) && CounterOk(Log(s, r))
  {
    assert Pool(Log(s, r)) == Pool(s);
  }

  lemma PutOnDisk(s: State, k: Bytes, v: Bytes, maxMemNodes: nat)
    requires OnDisk(s) && CounterOk(s) && s.wal in s.disk.wals
    ensures OnDisk(Put(s, k, v, maxMemNodes)) && CounterOk(Put(s, k, v, maxMemNodes))
  {
    WriteOnDisk(s, PutRecord(k, v));
    FlushOnDisk(Log(s, PutRecord(k, v)));
  }

  lemma NumberOnDisk(s: State)
    requires OnDisk(s) && CounterOk(s) && s.job.Snapped?
    ensures OnDisk(Number(s)) && CounterOk(Number(s))
  {
    DiskPartial(s.disk.ssts, Pool(s), s.counter + 1);
    assert Pool(Number(s)) == Pool(s);
  }

  lemma SnapshotOnDisk(s: State)
    requires OnDisk(s) && CounterOk(s)
    ensures OnDisk(Snapshot(s)) && CounterOk(Snapshot(s))
  {
    assert Pool(Snapshot(s)) == Pool(s);
  }

  lemma StepOnDisk(s: State, a: Action, maxMemNodes: nat)
    requires Filed(s) && Enabled(s, a)
    ensures OnDisk(Step(s, a, maxMemNodes)) && CounterOk(Step(s, a, maxMemNodes))
  {
    match a
    case DoPut(k, v) => PutOnDisk(s, k, v, maxMemNodes);
    case DoErase(k) => WriteOnDisk(s, EraseRecord(k));
    case ForceFlush => FlushOnDisk(s);
    case StartCompaction => SnapshotOnDisk(s);
    case NumberTable => NumberOnDisk(s);
    case MergeTables => MergeOnDisk(s);
    case SwapTables => SwapOnDisk(s);
    case RemoveInput => RemoveOnDisk(s);
    case Restart => ReopenOnDisk(s.disk);
  }

  // ----- where files stand -----

  lemma InputsBelow(readers: seq<Reader>, inputs: seq<Reader>, counter: nat)
    requires Window(readers, inputs) && Bounded(readers, counter)
    ensures FilesBelow(inputs, counter + 1)
  {
    var cut := |readers| - |inputs|;
    forall j | 0 <= j < |inputs| ensures inputs[j].file <= counter {
      assert readers[cut..][j] == readers[cut + j];
    }
  }

  lemma FrontFlushed(newer: seq<Reader>, inputs: seq<Reader>, r: Reader)
    requires FilesOver(newer, inputs) && FilesBelow(inputs, r.file) && Flushed(newer) && r.sequence == r.file
    ensures FilesOver([r] + newer, inputs) && Flushed([r] + newer)
  {
    assert forall i :: 0 < i < |[r] + newer| ==> ([r] + newer)[i] == newer[i - 1];
  }

  lemma FlushInWindow(s: State)
    requires Inv(s) && JobFiles(s) && InWindow(s) && s.mem != map[]
    ensures JobFiles(Flush(s)) && SinceSnapshot(Flush(s)) == [NewReader(s.counter, s.mem)] + SinceSnapshot(s)
  {
    InputsBelow(s.readers, s.job.inputs, s.counter);
    FrontFlushed(SinceSnapshot(s), s.job.inputs, NewReader(s.counter, s.mem));
    assert SinceSnapshot(Flush(s)) == [NewReader(s.counter, s.mem)] + SinceSnapshot(s);
  }

  lemma FlushFiles(s: State)
    requires Inv(s) && JobFiles(s)
    ensures JobFiles(Flush(s))
  {
    if s.mem != map[] {
      if InWindow(s) {
        FlushInWindow(s);
      } else if s.job.Removing? {
        FrontOver(s.readers, s.job.inputs, NewReader(s.counter, s.mem), Reader(s.job.file, 0, Compacted(s.job.inputs)));
      }
    }
  }

  lemma FrontOver(readers: seq<Reader>, inputs: seq<Reader>, r: Reader, c: Reader)
    requires c in readers && FilesOver(readers, inputs) && FilesBelow(readers, r.file)
    ensures c in [r] + readers && FilesOver([r] + readers, inputs)
  {
    var k :| 0 <= k < |readers| && readers[k] == c;
    assert ([r] + readers)[k + 1] == c;
    assert forall i :: 0 < i < |[r] + readers| ==> ([r] + readers)[i] == readers[i - 1];
  }

  lemma NumberFiles(s: State)
    requires Inv(s) && JobFiles(s) && s.job.Snapped?
    ensures JobFiles(Number(s))
  {
    InputsBelow(s.readers, s.job.inputs, s.counter);
  }

  lemma OutputOver(newer: seq<Reader>, inputs: seq<Reader>, c: Reader)
    requires FilesOver(newer, inputs) && FilesBelow(inputs, c.file)
    ensures c in [c] + newer && FilesOver([c] + newer, inputs)
  {
    assert ([c] + newer)[0] == c;
    assert forall i :: 0 < i < |[c] + newer| ==> ([c] + newer)[i] == newer[i - 1];
  }

  lemma SwapFiles(s: State)
    requires Inv(s) && JobFiles(s) && s.job.Built?
    ensures JobFiles(Swap(s))
  {
    SwapInv(s);
    assert Unique(s.job.inputs) by { WindowSplit(s.readers, s.job.inputs); }
    OutputOver(SinceSnapshot(s), s.job.inputs, Output(s));
  }

  lemma PutFiles(s: State, k: Bytes, v: Bytes, maxMemNodes: nat)
    requires Inv(s) && JobFiles(s)
    ensures JobFiles(Put(s, k, v, maxMemNodes))
  {
    FlushFiles(Log(s, PutRecord(k, v)));
  }

  lemma RemoveFiles(s: State)
    requires JobFiles(s) && s.job.Removing?
    ensures JobFiles(Remove(s))
  {
  }

  lemma MergeFiles(s: State)
    requires JobFiles(s) && s.job.Numbered?
    ensures JobFiles(Merge(s))
    ensures Merge(s).job.Built? ==> SinceSnapshot(Merge(s)) == SinceSnapshot(s) && Output(Merge(s)) == Output(s)
  {
  }

  lemma SnapshotFiles(s: State)
    requires JobFiles(s)
    ensures JobFiles(Snapshot(s))
  {
  }

  lemma StepFiles(s: State, a: Action, maxMemNodes: nat)
    requires Inv(s) && JobFiles(s) && Enabled(s, a)
    ensures JobFiles(Step(s, a, maxMemNodes))
  {
    match a
    case DoPut(k, v) => PutFiles(s, k, v, maxMemNodes);
    case DoErase(k) =>
    case ForceFlush => FlushFiles(s);
    case StartCompaction => SnapshotFiles(s);
    case NumberTable => NumberFiles(s);
    case MergeTables => MergeFiles(s);
    case SwapTables => SwapFiles(s);
    case RemoveInput => RemoveFiles(s);
    case Restart =>
  }

  lemma ReopenInv(disk: Disk)
    ensures Inv(Reopen(disk)) && Ordered(Reopen(disk).readers) && Flushed(Reopen(disk).readers)
  {
    var t := Reopen(disk);
    ReadersBelowOrdered(disk.ssts, t.counter + 1);
    forall i | 0 <= i < |t.readers| ensures OpenedFrom(disk.ssts, t.readers[i]) && t.readers[i].file <= t.counter {
      ReadersBelowAre(disk.ssts, t.counter + 1, t.readers[i]);
    }
  }

  /** Whatever happens in whatever order, the complete files are the open tables and those of the
      compaction at work, and its inputs have lower numbers than its output and all flushed since. */
  lemma StepFiled(s: State, a: Action, maxMemNodes: nat)
    requires Filed(s) && Enabled(s, a)
    ensures Filed(Step(s, a, maxMemNodes))
  {
    StepOnDisk(s, a, maxMemNodes);
    StepFiles(s, a, maxMemNodes);
    if a.Restart? {
      ReopenInv(s.disk);
    } else {
      StepView(s, a, maxMemNodes, []);
    }
  }

  // ----- file order and sequence order, key by key -----

  lemma FrontAgrees(r: Reader, readers: seq<Reader>, key: Bytes)
    requires OrderAgrees(readers, key)
    requires forall i :: 0 <= i < |readers| ==>
      (readers[i].sequence < r.sequence && readers[i].file < r.file) ||
      (r.sequence < readers[i].sequence && Outlasts(readers[i], r, key))
    ensures OrderAgrees([r] + readers, key)
  {
    var rs := [r] + readers;
    assert forall i :: 0 < i < |rs| ==> rs[i] == readers[i - 1];
  }

  lemma FlushSettled(s: State, key: Bytes)
    requires Inv(s) && JobFiles(s) && Settled(s, key) && HarmlessFlush(s, key)
    ensures JobFiles(Flush(s)) && Settled(Flush(s), key)
  {
    FlushFiles(s);
    if s.mem != map[] {
      var r := NewReader(s.counter, s.mem);
      FrontAgrees(r, s.readers, key);
      if InWindow(s) { FlushAgrees(s, r, key); }
    }
  }

  lemma FlushAgrees(s: State, r: Reader, key: Bytes)
    requires Inv(s) && JobFiles(s) && JobAgrees(s, key) && HarmlessFlush(s, key) && InWindow(s)
    requires s.mem != map[] && r == NewReader(s.counter, s.mem) && JobFiles(Flush(s))
    ensures JobAgrees(Flush(s), key)
  {
    var newer, out := SinceSnapshot(s), Output(Flush(s));
    FlushInWindow(s);
    forall i | 0 <= i < |[r] + newer| ensures Outlasts(([r] + newer)[i], out, key) {
      if i > 0 {
        assert ([r] + newer)[i] == newer[i - 1] == s.readers[i - 1];
        assert Outlasts(newer[i - 1], Output(s), key);
      }
    }
  }

  lemma PartsAgree(readers: seq<Reader>, newer: seq<Reader>, inputs: seq<Reader>, key: Bytes)
    requires readers == newer + inputs && OrderAgrees(readers, key)
    ensures OrderAgrees(newer, key) && OrderAgrees(inputs, key)
  {
    assert forall i :: 0 <= i < |newer| ==> newer[i] == readers[i];
    assert forall i :: 0 <= i < |inputs| ==> inputs[i] == readers[|newer| + i];
  }

  lemma SwapSettled(s: State, key: Bytes)
    requires Inv(s) && JobFiles(s) && Settled(s, key) && s.job.Built?
    ensures JobFiles(Swap(s)) && Settled(Swap(s), key)
  {
    SwapFiles(s);
    SwapInv(s);
    var newer := SinceSnapshot(s);
    assert s.readers == newer + s.job.inputs && forall i :: 0 <= i < |newer| ==> newer[i].sequence > 0 by {
      WindowSplit(s.readers, s.job.inputs);
    }
    PartsAgree(s.readers, newer, s.job.inputs, key);
    FrontAgrees(Output(s), newer, key);
  }

  lemma RestartSettled(disk: Disk, key: Bytes)
    ensures JobFiles(Reopen(disk)) && Settled(Reopen(disk), key)
  {
    ReopenInv(disk);
  }

  lemma LogSettled(s: State, r: Record, key: Bytes)
    requires Inv(s) && JobFiles(s) && Settled(s, key)
    ensures JobFiles(Log(s, r)) && Settled(Log(s, r), key)
  {
    if InWindow(s) { assert SinceSnapshot(Log(s, r)) == SinceSnapshot(s) && Output(Log(s, r)) == Output(s); }
  }

  lemma PutSettled(s: State, k: Bytes, v: Bytes, maxMemNodes: nat, key: Bytes)
    requires Inv(s) && JobFiles(s) && Settled(s, key) && Harmless(s, DoPut(k, v), maxMemNodes, key)
    ensures JobFiles(Put(s, k, v, maxMemNodes)) && Settled(Put(s, k, v, maxMemNodes), key)
  {
    var t := Log(s, PutRecord(k, v));
    LogSettled(s, PutRecord(k, v), key);
    if |t.mem| >= maxMemNodes { FlushSettled(t, key); }
  }

  lemma SnapshotSettled(s: State, key: Bytes)
    requires Inv(s) && JobFiles(s) && Settled(s, key)
    ensures JobFiles(Snapshot(s)) && Settled(Snapshot(s), key)
  {
  }

  lemma MergeSettled(s: State, key: Bytes)
    requires Inv(s) && JobFiles(s) && Settled(s, key) && s.job.Numbered?
    ensures JobFiles(Merge(s)) && Settled(Merge(s), key)
  {
    MergeFiles(s);
  }

  lemma RemoveSettled(s: State, key: Bytes)
    requires Inv(s) && JobFiles(s) && Settled(s, key) && s.job.Removing?
    ensures JobFiles(Remove(s)) && Settled(Remove(s), key)
  {
  }

  lemma NumberSettled(s: State, key: Bytes)
    requires Inv(s) && JobFiles(s) && Settled(s, key) && s.job.Snapped?
    ensures JobFiles(Number(s)) && Settled(Number(s), key)
  {
    NumberFiles(s);
    var newer := SinceSnapshot(Number(s));
    forall i | 0 <= i < |newer| ensures Outlasts(newer[i], Output(Number(s)), key) {
      assert Outlasts(SinceSnapshot(s)[i], Output(s), key);
    }
  }

  /** A harmless step keeps file numbers and sequence numbers in agreement about a key. */
  lemma StepSettled(s: State, a: Action, maxMemNodes: nat, key: Bytes)
    requires Inv(s) && JobFiles(s) && Settled(s, key) && Enabled(s, a) && Harmless(s, a, maxMemNodes, key)
    ensures JobFiles(Step(s, a, maxMemNodes)) && Settled(Step(s, a, maxMemNodes), key)
  {
    match a
    case DoPut(k, v) => PutSettled(s, k, v, maxMemNodes, key);
    case DoErase(k) => LogSettled(s, EraseRecord(k), key);
    case ForceFlush => FlushSettled(s, key);
    case StartCompaction => SnapshotSettled(s, key);
    case NumberTable => NumberSettled(s, key);
    case MergeTables => MergeSettled(s, key);
    case SwapTables => SwapSettled(s, key);
    case RemoveInput => RemoveSettled(s, key);
    case Restart => RestartSettled(s.disk, key);
  }

  // ----- logs -----

  lemma RestartLog(s: State)
    requires LogInv(s) && CounterOk(s) && s.wal <= s.counter + 1
    ensures LogInv(Reopen(s.disk)) && Reopen(s.disk).mem == s.mem
  {
    LastLog(s);
    assert Max(s.disk.ssts.Keys) == s.counter;
    TouchedReplay(s.disk.wals, s.counter + 1, s.wal);
  }

  lemma PutLog(s: State, k: Bytes, v: Bytes, maxMemNodes: nat)
    requires LogInv(s) && s.wal <= s.counter + 1 && Safe(s, DoPut(k, v), maxMemNodes)
    ensures LogInv(Put(s, k, v, maxMemNodes))
  {
    LogKept(s, PutRecord(k, v));
    var t := Log(s, PutRecord(k, v));
    if |t.mem| >= maxMemNodes { FlushKeepsLog(t); }
  }

  lemma StepLog(s: State, a: Action, maxMemNodes: nat)
    requires LogInv(s) && CounterOk(s) && s.wal <= s.counter + 1 && Enabled(s, a) && Safe(s, a, maxMemNodes)
    ensures LogInv(Step(s, a, maxMemNodes))
  {
    match a
    case DoPut(k, v) => PutLog(s, k, v, maxMemNodes);
    case DoErase(k) => LogKept(s, EraseRecord(k));
    case ForceFlush => if s.mem != map[] { FlushKeepsLog(s); }
    case Restart => RestartLog(s);
    case _ =>
  }

  /** Every safe step keeps a state durable and, if harmless to a key, does to its answer what it does
      to the map. */
  lemma StepDurable(s: State, a: Action, maxMemNodes: nat, key: Bytes)
    requires Durable(s) && Enabled(s, a) && Safe(s, a, maxMemNodes)
    ensures Durable(Step(s, a, maxMemNodes))
    ensures Settled(s, key) && Harmless(s, a, maxMemNodes, key) ==> Settled(Step(s, a, maxMemNodes), key)
    ensures Settled(s, key) || !a.Restart? ==> View(Step(s, a, maxMemNodes), key) == After(a, key, View(s, key))
  {
    StepFiled(s, a, maxMemNodes);
    StepLog(s, a, maxMemNodes);
    if Settled(s, key) && Harmless(s, a, maxMemNodes, key) { StepSettled(s, a, maxMemNodes, key); }
    if !a.Restart? {
      StepView(s, a, maxMemNodes, key);
    } else if Settled(s, key) {
      ReopenView(s, key);
    }
  }

  // ----- runs with reopenings -----

  ghost predicate SafeRun(s: State, actions: seq<Action>, maxMemNodes: nat)
    requires CanRun(s, actions, maxMemNodes)
    decreases |actions|
  {
    actions == [] ||
    (Safe(s, actions[0], maxMemNodes) && SafeRun(Step(s, actions[0], maxMemNodes), actions[1..], maxMemNodes))
  }

  ghost predicate HarmlessRun(s: State, actions: seq<Action>, maxMemNodes: nat, key: Bytes)
    requires CanRun(s, actions, maxMemNodes)
    decreases |actions|
  {
    actions == [] ||
    (Harmless(s, actions[0], maxMemNodes, key) &&
     HarmlessRun(Step(s, actions[0], maxMemNodes), actions[1..], maxMemNodes, key))
  }

  /** Over every safe run, with any number of reopenings, a key that no flush harms is answered as by
      the finite map, and a crash at the end, unless it falls among a compaction's removals, is
      survived. */
  lemma {:induction false} RunDurable(s: State, m: map<Bytes, Bytes>, actions: seq<Action>, maxMemNodes: nat, key: Bytes)
    requires Durable(s) && Settled(s, key) && View(s, key) == At(m, key)
    requires CanRun(s, actions, maxMemNodes) && SafeRun(s, actions, maxMemNodes)
    requires HarmlessRun(s, actions, maxMemNodes, key)
    ensures var t := Run(s, actions, maxMemNodes);
      Durable(t) && Settled(t, key) && View(t, key) == At(Effects(m, actions), key) &&
      (Recoverable(t) ==> View(Reopen(t.disk), key) == At(Effects(m, actions), key))
    decreases |actions|
  {
    if actions == [] {
      if Recoverable(s) { ReopenView(s, key); }
    } else {
      StepDurable(s, actions[0], maxMemNodes, key);
      RunDurable(Step(s, actions[0], maxMemNodes), Effect(m, actions[0]), actions[1..], maxMemNodes, key);
    }
  }

  lemma FreshIsDurable(key: Bytes)
    ensures Durable(Fresh()) && SoleLog(Fresh()) && Settled(Fresh(), key) && View(Fresh(), key) == None
  {
    FreshIsOpened();
    assert Pool(Fresh()) == {};
    assert ReplayBelow(map[1 := []], 2) == ReplayBelow(map[1 := []], 1) == ReplayBelow(map[1 := []], 0);
  }

  // ----- where the guards come from -----

  /** A reopening leaves a second log with records exactly if the counter had moved on without the
      log, as a compaction does, and that log is not empty. */
  lemma SecondLog(s: State)
    requires Durable(s) && SoleLog(s)
    ensures SoleLog(Reopen(s.disk)) <==> s.wal == s.counter + 1 || s.disk.wals[s.wal] == []
  {
    assert Max(s.disk.ssts.Keys) == s.counter;
    assert s.wal in Reopen(s.disk).disk.wals;
  }

  lemma LeftoverReplay(s: State)
    requires s.mem != map[] && s.wal <= s.counter + 1 && forall w :: w in s.disk.wals ==> w <= s.wal
    ensures var wals := Flush(s).disk.wals;
      ReplayBelow(wals, Max(wals.Keys) + 1) == ReplayBelow(s.disk.wals - {s.wal}, s.wal)
  {
    var wals, n := Flush(s).disk.wals, s.counter + 2;
    assert n in wals && forall w :: w in wals ==> w <= n;
    assert Max(wals.Keys) == n;
    ReplayBelowSame(wals, s.disk.wals - {s.wal}, s.wal);
    ReplayBelowBeyond(wals, s.wal, n + 1);
  }

  lemma ReopenFlushed(s: State, key: Bytes)
    requires Filed(s) && Settled(s, key) && HarmlessFlush(s, key) && Recoverable(s) && s.mem != map[]
    requires forall w :: w in s.disk.wals ==> w <= s.wal
    ensures View(Reopen(Flush(s).disk), key) ==
      Answer(ReplayBelow(s.disk.wals - {s.wal}, s.wal), Latest(Flush(s).readers, key), key)
  {
    StepFiled(s, ForceFlush, 0);
    FlushSettled(s, key);
    ReopenFiled(Flush(s), key);
    LeftoverReplay(s);
  }

  /** A flush removes only the current log.  What any other log still holds comes back at the next
      reopening, in front of the tables: a key is then answered rightly exactly if no leftover log
      holds it, or it holds the current answer. */
  lemma LeftoverLog(s: State, key: Bytes)
    requires Filed(s) && Settled(s, key) && HarmlessFlush(s, key) && Recoverable(s) && s.mem != map[]
    requires forall w :: w in s.disk.wals ==> w <= s.wal
    ensures var leftover := ReplayBelow(s.disk.wals - {s.wal}, s.wal);
      View(Reopen(Flush(s).disk), key) == View(s, key) <==>
      key !in leftover || Live(leftover[key]) == View(s, key)
  {
    ReopenFlushed(s, key);
    assert Answer(map[], Latest(Flush(s).readers, key), key) == View(s, key) by { FlushView(s, key); }
  }

  lemma RemovalReopen(s: State, key: Bytes)
    requires Durable(s) && Settled(s, key) && s.job.Removing?
    ensures View(Reopen(s.disk), key) ==
      Answer(s.mem, if Latest(s.readers, key).Some? then Latest(s.readers, key)
                    else Latest(s.job.inputs[s.job.removed..], key), key)
  {
    LastLog(s);
    ReopenLeader(s, key);
  }

  /** Inputs are removed newest first, so between removals an old version can outlive the tombstone
      that hid it: a key is answered rightly after a crash there exactly if the memtable or an open
      table holds it, or the newest version still on disk is no value. */
  lemma RemovalCrash(s: State, key: Bytes)
    requires Durable(s) && Settled(s, key) && s.job.Removing?
    ensures var left := Latest(s.job.inputs[s.job.removed..], key);
      View(Reopen(s.disk), key) == View(s, key) <==>
      key in s.mem || Latest(s.readers, key).Some? || left.None? || Live(left.value.table[key]).None?
  {
    RemovalReopen(s, key);
  }
}
