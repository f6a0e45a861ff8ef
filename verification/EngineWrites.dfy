/** Writing, stated on what a caller can see: when a put flushes and what is there afterwards. */
module EngineWrites {
  import opened ByteStrings
  import opened Entries
  import opened EngineSpec
  import opened EngineView
  import opened EngineRecovery

  /** Nothing but the memtable and the current log has changed: the log ends in the new record. */
  ghost predicate OnlyLogged(s: State, t: State, mem: Table, r: Record) {
    s.wal in s.disk.wals && t.mem == mem && t.readers == s.readers && t.counter == s.counter && t.wal == s.wal &&
    t.job == s.job && t.disk.ssts == s.disk.ssts && t.disk.wals == s.disk.wals[s.wal := s.disk.wals[s.wal] + [r]]
  }

  /** The memtable `mem` has become the table with the next number, in front of the others and complete on
      disk, and an empty log with the number after that has replaced the current one. */
  ghost predicate HasFlushed(s: State, t: State, mem: Table) {
    var n := s.counter + 1;
    t.mem == map[] && t.readers == [Reader(n, n, mem)] + s.readers && t.counter == n && t.wal == n + 1 && t.job == s.job &&
    (forall f :: f in t.disk.ssts <==> f == n || f in s.disk.ssts) &&
    (forall f :: f in t.disk.ssts ==> t.disk.ssts[f] == if f == n then Complete(mem) else s.disk.ssts[f]) &&
    (forall w :: w in t.disk.wals <==> w == n + 1 || (w in s.disk.wals && w != s.wal)) &&
    (forall w :: w in t.disk.wals && w in s.disk.wals && w != s.wal ==> t.disk.wals[w] == s.disk.wals[w]) &&
    (n + 1 !in s.disk.wals ==> t.disk.wals[n + 1] == [])
  }

  /** A put leaves the new binding in the memtable as long as that stays below the threshold; otherwise the
      memtable with the new binding has been flushed. */
  ghost predicate HasPut(s: State, t: State, k: Bytes, v: Bytes, maxMemNodes: nat) {
    var mem := s.mem[k := TableValue(Value, v)];
    if |mem| < maxMemNodes then OnlyLogged(s, t, mem, PutRecord(k, v)) else HasFlushed(s, t, mem)
  }

  lemma FlushIs(s: State)
    requires s.mem != map[] && s.wal <= s.counter + 1
    ensures HasFlushed(s, Flush(s), s.mem)
  {
  }

  /** What the log held when it was replaced does not matter. */
  lemma LoggedFlush(s: State, r: Record, t: State)
    requires s.wal in s.disk.wals && s.wal <= s.counter + 1 && HasFlushed(Log(s, r), t, Apply(s.mem, r))
    ensures HasFlushed(s, t, Apply(s.mem, r))
  {
  }

  lemma PutEffect(s: State, k: Bytes, v: Bytes, maxMemNodes: nat)
    requires s.wal in s.disk.wals && s.wal <= s.counter + 1
    ensures HasPut(s, Step(s, DoPut(k, v), maxMemNodes), k, v, maxMemNodes)
  {
    var r := PutRecord(k, v);
    if |Apply(s.mem, r)| >= maxMemNodes {
      assert k in Apply(s.mem, r);
      FlushIs(Log(s, r));
      LoggedFlush(s, r, Flush(Log(s, r)));
    }
  }

  /** An erase leaves a tombstone in the memtable and never flushes. */
  lemma EraseEffect(s: State, k: Bytes, maxMemNodes: nat)
    requires s.wal in s.disk.wals
    ensures OnlyLogged(s, Step(s, DoErase(k), maxMemNodes), s.mem[k := TableValue(Deletion, [])], EraseRecord(k))
  {
  }

  /** A flush on demand flushes unless there is nothing to flush. */
  lemma FlushEffect(s: State, maxMemNodes: nat)
    requires s.wal in s.disk.wals && s.wal <= s.counter + 1
    ensures if s.mem == map[] then Step(s, ForceFlush, maxMemNodes) == s else HasFlushed(s, Step(s, ForceFlush, maxMemNodes), s.mem)
  {
    if s.mem != map[] { FlushIs(s); }
  }

  // ----- the size of the memtable -----

  /** Erases since the last put or flush of a run; `n` counts those before it. */
  function Erases(actions: seq<Action>, n: nat): nat
    decreases |actions|
  {
    if actions == [] then n
    else
      match actions[0]
      case DoPut(_, _) => Erases(actions[1..], 0)
      case ForceFlush => Erases(actions[1..], 0)
      case DoErase(_) => Erases(actions[1..], n + 1)
      case _ => Erases(actions[1..], n)
  }

  lemma OneMoreBinding(mem: Table, k: Bytes, v: TableValue)
    ensures |mem[k := v]| <= |mem| + 1
  {
    assert mem[k := v].Keys == mem.Keys + {k};
    assert |mem.Keys| == |mem| && |mem[k := v].Keys| == |mem[k := v]|;
  }

  lemma StepSize(s: State, a: Action, maxMemNodes: nat)
    requires Durable(s) && Enabled(s, a) && Safe(s, a, maxMemNodes)
    ensures var t := Step(s, a, maxMemNodes);
      match a
      case DoPut(_, _) => |t.mem| < maxMemNodes || t.mem == map[]
      case ForceFlush => t.mem == map[]
      case DoErase(_) => |t.mem| <= |s.mem| + 1
      case _ => t.mem == s.mem
  {
    match a
    case DoPut(k, v) => PutEffect(s, k, v, maxMemNodes);
    case DoErase(k) => OneMoreBinding(s.mem, k, TableValue(Deletion, []));
    case ForceFlush => FlushEffect(s, maxMemNodes);
    case Restart => RestartLog(s);
    case _ =>
  }

  /** Over every safe run, reopenings included, the memtable stays below the threshold but for the erases
      since the last put or flush. */
  lemma {:induction false} RunBounded(s: State, actions: seq<Action>, maxMemNodes: nat, n: nat)
    requires Durable(s) && maxMemNodes >= 1 && |s.mem| < maxMemNodes + n
    requires CanRun(s, actions, maxMemNodes) && SafeRun(s, actions, maxMemNodes)
    ensures |Run(s, actions, maxMemNodes).mem| < maxMemNodes + Erases(actions, n)
    decreases |actions|
  {
    if actions != [] {
      var a := actions[0];
      StepSize(s, a, maxMemNodes);
      StepDurable(s, a, maxMemNodes, []);
      RunBounded(Step(s, a, maxMemNodes), actions[1..], maxMemNodes,
                 if a.DoPut? || a.ForceFlush? then 0 else if a.DoErase? then n + 1 else n);
    }
  }
}
