/** The sharded front end: routing keys to engines, and range queries across them. */
module Sharding {
  import opened ByteStrings
  import opened Entries
  import opened Routing
  import opened KVEngines
  import EngineSpec
  import EngineView
  import Merging

  // ----- every key stays in its shard -----

  /** Shards hold only keys that route to them. */
  ghost predicate Routed(states: seq<EngineSpec.State>)
    requires |states| >= 2
  {
    forall i, key :: 0 <= i < |states| && EngineSpec.Stored(states[i], key) ==> Shard(key, |states|) == i
  }

  // ----- merging the kept shards -----

  lemma {:induction false} OnlyRun(runs: seq<seq<Entry>>, j: nat, key: Bytes)
    requires j < |runs| && forall i :: 0 <= i < |runs| && i != j ==> Find(runs[i], key).None?
    ensures Newest(runs, key) == Find(runs[j], key)
  {
    if j == 0 {
      NewestNone(runs[1..], key);
    } else {
      OnlyRun(runs[1..], j - 1, key);
    }
  }

  /** The loop of `RangeQuery`: up to the end key, tombstones skipped. */
  function Collect(run: seq<Entry>, endKey: Bytes): seq<Entry> {
    if run == [] || Less(endKey, run[0].key) then []
    else (if run[0].val.kind.Deletion? then [] else [run[0]]) + Collect(run[1..], endKey)
  }

  lemma {:induction false} CollectedFrom(run: seq<Entry>, endKey: Bytes, i: nat)
    requires i < |Collect(run, endKey)|
    ensures Collect(run, endKey)[i] in run && Collect(run, endKey)[i].val.kind.Value?
  {
    var skipped := if run[0].val.kind.Deletion? then 0 else 1;
    if i >= skipped {
      CollectedFrom(run[1..], endKey, i - skipped);
    }
  }

  lemma {:induction false} CollectSorted(run: seq<Entry>, endKey: Bytes)
    requires Sorted(run)
    ensures Sorted(Collect(run, endKey))
  {
    if run != [] && !Less(endKey, run[0].key) {
      CollectSorted(run[1..], endKey);
      var tail := Collect(run[1..], endKey);
      forall i | 0 <= i < |tail| ensures Rank(tail[i].key) > Rank(run[0].key) {
        CollectedFrom(run[1..], endKey, i);
        var j :| 0 <= j < |run[1..]| && run[1..][j] == tail[i];
        assert run[j + 1] == tail[i];
      }
    }
  }

  lemma {:induction false} CollectShows(run: seq<Entry>, endKey: Bytes, key: Bytes)
    requires Sorted(run)
    ensures Shown(Collect(run, endKey), key) == if Rank(key) <= Rank(endKey) then Shown(run, key) else None
  {
    if run != [] {
      if Less(endKey, run[0].key) {
        if Find(run, key).Some? {
          var j :| 0 <= j < |run| && run[j] == Find(run, key).value;
          assert Rank(run[0].key) <= Rank(run[j].key);
        }
      } else {
        CollectShows(run[1..], endKey, key);
        var tail := Collect(run[1..], endKey);
        forall i | 0 <= i < |tail| ensures tail[i] in run[1..] { CollectedFrom(run[1..], endKey, i); }
        assert ([run[0]] + tail)[1..] == tail && [] + tail == tail;
        if key == run[0].key {
          AbsentAfterHead(run, tail);
        }
      }
    }
  }

  lemma AbsentAfterHead(run: seq<Entry>, tail: seq<Entry>)
    requires Sorted(run) && run != [] && forall i :: 0 <= i < |tail| ==> tail[i] in run[1..]
    ensures Find(tail, run[0].key).None? && Find(run[1..], run[0].key).None?
  {
    forall i | 0 <= i < |tail| ensures tail[i].key != run[0].key {
      var j :| 0 <= j < |run[1..]| && run[1..][j] == tail[i];
      assert Rank(run[0].key) < Rank(run[j + 1].key);
    }
  }

  // ----- the engine -----

  /** What an engine's iterator shows, and which keys it passes. */
  ghost predicate Scan(run: seq<Entry>, s: EngineSpec.State) {
    Sorted(run) &&
    forall key :: Shown(run, key) == EngineSpec.View(s, key) && (Find(run, key).Some? <==> EngineSpec.Stored(s, key))
  }

  ghost predicate Uniform(ranges: seq<ShardRange>, n: nat) {
    |ranges| <= n && forall i :: 0 <= i < |ranges| ==> ranges[i] == RangeAt(i, n)
  }

  lemma OneMoreRange(ranges: seq<ShardRange>, n: nat, range: ShardRange)
    requires Uniform(ranges, n) && |ranges| < n && range == RangeAt(|ranges|, n)
    ensures Uniform(ranges + [range], n)
  {
  }

  class ShardedKVEngine {
    const shards: seq<KVEngine>
    var ranges: seq<ShardRange>

    ghost predicate Ready(states: seq<EngineSpec.State>)
      reads this, shards, set s | s in shards :: s.skiplist, set s, o | s in shards && o in s.skiplist.Nodes() :: o
    {
      2 <= |shards| <= MAX && |states| == |shards| && |ranges| == |shards| &&
      (forall i :: 0 <= i < |ranges| ==> ranges[i] == RangeAt(i, |shards|)) &&
      forall i :: 0 <= i < |shards| ==> ShardReady(shards[i], states[i])
    }

    constructor (shards: seq<KVEngine>)
      requires 2 <= |shards| <= MAX
      ensures this.shards == shards && |ranges| == |shards|
      ensures forall i :: 0 <= i < |ranges| ==> ranges[i] == RangeAt(i, |shards|)
    {
      this.shards := shards;
      ranges := [];
      new;
      InitUniformRanges();
    }

    method InitUniformRanges()
      requires 2 <= |shards| <= MAX
      modifies `ranges
      ensures |ranges| == |shards| && forall i :: 0 <= i < |ranges| ==> ranges[i] == RangeAt(i, |shards|)
    {
      ranges := [];
      var shardNum := |shards|;
      var step := MAX / shardNum;
      for i := 0 to shardNum
        invariant |ranges| == i && Uniform(ranges, shardNum)
      {
        var range := UniformRange(i, shardNum, step);
        OneMoreRange(ranges, shardNum, range);
        ranges := ranges + [range];
      }
    }

    static method UniformRange(i: nat, shardNum: nat, step: nat) returns (range: ShardRange)
      requires i < shardNum && step == Step(shardNum)
      ensures range == RangeAt(i, shardNum)
    {
      var startCode := i * step;
      var endCode := if i == shardNum - 1 then MAX else (i + 1) * step;
      var startKey := if i == 0 then [] else ToBytes(SpatialKey3D(1, 0, startCode, 0));
      var endKey := if i == shardNum - 1 then [] else ToBytes(SpatialKey3D(1, 0, endCode, 0));
      range := ShardRange(startKey, endKey, i);
    }

    method GetShard(key: Bytes) returns (i: nat)
      requires 2 <= |shards| <= MAX && |ranges| == |shards|
      requires forall j :: 0 <= j < |ranges| ==> ranges[j] == RangeAt(j, |shards|)
      ensures i == Shard(key, |shards|) < |shards|
    {
      if |key| >= KEY_SIZE {
        var step := MAX / |shards|;
        i := CodeOf(key) / (step + 1);
        if i >= |shards| {
          i := |shards| - 1;
        }
        return;
      }
      i := |shards| - 1;
      for j := 0 to |ranges|
        invariant i == |shards| - 1 && j <= RangeFor(key, |shards|)
      {
        OneRange(key, |shards|, j);
        if InRange(ranges[j], key) {
          i := ranges[j].shardIndex;
          return;
        }
      }
    }

    /** Exactly the live entries between the two keys whose own shard's range overlaps the query, sorted,
        each once. */
    method RangeQuery(startKey: Bytes, endKey: Bytes, ghost states: seq<EngineSpec.State>) returns (results: seq<Entry>)
      requires Ready(states) && Routed(states)
      ensures Sorted(results) && forall i :: 0 <= i < |results| ==> results[i].val.kind.Value?
      ensures forall key :: Shown(results, key) == Wanted(states, key, startKey, endKey)
    {
      var runs: seq<seq<Entry>> := [];
      ghost var kept: seq<nat> := [];
      for i := 0 to |ranges|
        invariant KeptRuns(runs, kept, states, i, startKey, endKey)
      {
        assert old(ShardReady(shards[i], states[i]));
        runs, kept := ScanRange(ranges[i], shards[ranges[i].shardIndex], runs, kept, states, i, startKey, endKey);
      }
      if runs == [] {
        NothingKept(kept, states, startKey, endKey);
        return [];
      }
      results := MergeShards(runs, startKey, endKey, kept, states);
    }
  }

  ghost predicate ShardReady(shard: KVEngine, s: EngineSpec.State)
    reads shard, shard.skiplist, shard.skiplist.Nodes()
  {
    shard.Valid() && shard.State() == s && EngineView.Inv(s) && s.counter < SIZE_MAX
  }

  ghost predicate Kept(key: Bytes, n: nat, startKey: Bytes, endKey: Bytes)
    requires n >= 2
  {
    !NoOverlap(RangeAt(Shard(key, n), n), startKey, endKey)
  }

  /** What a range query shows for a key: the answer of its shard, if the shard was not pruned. */
  ghost function Wanted(states: seq<EngineSpec.State>, key: Bytes, startKey: Bytes, endKey: Bytes): Option<Bytes>
    requires |states| >= 2
  {
    if Rank(startKey) <= Rank(key) <= Rank(endKey) && Kept(key, |states|, startKey, endKey)
    then EngineSpec.View(states[Shard(key, |states|)], key)
    else None
  }

  /** The scans collected from the first `i` ranges. */
  ghost predicate KeptRuns(runs: seq<seq<Entry>>, kept: seq<nat>, states: seq<EngineSpec.State>, i: nat,
                           startKey: Bytes, endKey: Bytes)
  {
    |runs| == |kept| && i <= |states| && (forall j, k :: 0 <= j < k < |kept| ==> kept[j] < kept[k]) &&
    (forall j :: 0 <= j < |kept| ==> kept[j] < i && Scan(runs[j], states[kept[j]])) &&
    forall k :: 0 <= k < i ==> (k in kept <==> !NoOverlap(RangeAt(k, |states|), startKey, endKey))
  }

  /** Adds the scan of a shard whose range overlaps the query. */
  method ScanRange(range: ShardRange, shard: KVEngine, runs: seq<seq<Entry>>, ghost kept: seq<nat>,
                   ghost states: seq<EngineSpec.State>, ghost i: nat, startKey: Bytes, endKey: Bytes)
    returns (runs': seq<seq<Entry>>, ghost kept': seq<nat>)
    requires i < |states| && range == RangeAt(i, |states|) && ShardReady(shard, states[i])
    requires KeptRuns(runs, kept, states, i, startKey, endKey)
    ensures KeptRuns(runs', kept', states, i + 1, startKey, endKey)
  {
    if NoOverlap(range, startKey, endKey) {
      SkipRun(runs, kept, states, i, startKey, endKey);
      runs', kept' := runs, kept;
    } else {
      var run := ScanShard(shard, states[i]);
      KeepRun(runs, kept, states, i, startKey, endKey, run);
      runs', kept' := runs + [run], kept + [i];
    }
  }

  lemma SkipRun(runs: seq<seq<Entry>>, kept: seq<nat>, states: seq<EngineSpec.State>, i: nat, startKey: Bytes, endKey: Bytes)
    requires i < |states| && KeptRuns(runs, kept, states, i, startKey, endKey)
    requires NoOverlap(RangeAt(i, |states|), startKey, endKey)
    ensures KeptRuns(runs, kept, states, i + 1, startKey, endKey)
  {
  }

  lemma KeepRun(runs: seq<seq<Entry>>, kept: seq<nat>, states: seq<EngineSpec.State>, i: nat, startKey: Bytes, endKey: Bytes,
                run: seq<Entry>)
    requires i < |states| && KeptRuns(runs, kept, states, i, startKey, endKey) && Scan(run, states[i])
    requires !NoOverlap(RangeAt(i, |states|), startKey, endKey)
    ensures KeptRuns(runs + [run], kept + [i], states, i + 1, startKey, endKey)
  {
  }

  lemma NothingKept(kept: seq<nat>, states: seq<EngineSpec.State>, startKey: Bytes, endKey: Bytes)
    requires |states| >= 2 && KeptRuns([], kept, states, |states|, startKey, endKey)
    ensures forall key :: Wanted(states, key, startKey, endKey) == None && Shown([], key) == None
  {
    forall key ensures !Kept(key, |states|, startKey, endKey) {
      assert Shard(key, |states|) !in kept;
    }
  }

  method ScanShard(shard: KVEngine, ghost s: EngineSpec.State) returns (run: seq<Entry>)
    requires ShardReady(shard, s)
    ensures Scan(run, s)
  {
    var it := shard.NewIterator();
    run := Drain(it);
  }

  /** Walks an iterator to its end. */
  method Drain(it: Merging.MergingIterator) returns (run: seq<Entry>)
    requires it.Ok()
    modifies it
    ensures run == old(it.View())
  {
    run := [];
    ghost var all, rest := it.View(), it.View();
    while it.valid
      invariant it.Ok() && rest == it.View() && run + rest == all
      decreases |rest|
    {
      OneMoreEntry(run, rest, it.current);
      run := run + [it.current];
      rest := rest[1..];
      it.Next();
    }
  }

  lemma OneMoreEntry(run: seq<Entry>, rest: seq<Entry>, e: Entry)
    requires rest != [] && rest[0] == e
    ensures (run + [e]) + rest[1..] == run + rest
  {
  }

  method MergeShards(runs: seq<seq<Entry>>, startKey: Bytes, endKey: Bytes, ghost kept: seq<nat>,
                     ghost states: seq<EngineSpec.State>) returns (results: seq<Entry>)
    requires |states| >= 2 && Routed(states) && KeptRuns(runs, kept, states, |states|, startKey, endKey)
    ensures Sorted(results) && forall i :: 0 <= i < |results| ==> results[i].val.kind.Value?
    ensures forall key :: Shown(results, key) == Wanted(states, key, startKey, endKey)
  {
    RunsApart(runs, kept, states, startKey, endKey);
    CursorsAre(runs);
    var it := new Merging.MergingIterator(Cursors(runs));
    it.Seek(startKey);
    ghost var run := it.View();
    assert run == From(Merging.Merged(runs), startKey);
    results := CollectFrom(it, endKey);
    Merging.MergedCorrect(runs);
    FromFinds(Merging.Merged(runs), startKey, []);
    CollectSorted(run, endKey);
    forall i | 0 <= i < |results| ensures results[i].val.kind.Value? { CollectedFrom(run, endKey, i); }
    forall key ensures Shown(results, key) == Wanted(states, key, startKey, endKey) {
      CollectShows(run, endKey, key);
      FromFinds(Merging.Merged(runs), startKey, key);
      ShownByShard(runs, kept, states, startKey, endKey, key);
    }
  }

  method CollectFrom(it: Merging.MergingIterator, endKey: Bytes) returns (results: seq<Entry>)
    requires it.Ok()
    modifies it
    ensures results == Collect(old(it.View()), endKey)
  {
    results := [];
    ghost var run := it.View();
    ghost var rest := Collect(run, endKey);
    ghost var all := rest;
    while it.valid
      invariant it.Ok() && run == it.View() && rest == Collect(run, endKey) && results + rest == all
      decreases |run|
    {
      var entry := it.current;
      assert run[0] == entry;
      if Less(endKey, entry.key) {
        break;
      }
      CollectStep(results, run, endKey);
      if !entry.val.kind.Deletion? {
        results := results + [entry];
      }
      run := run[1..];
      rest := Collect(run, endKey);
      it.Next();
    }
  }

  lemma CollectStep(results: seq<Entry>, run: seq<Entry>, endKey: Bytes)
    requires run != [] && !Less(endKey, run[0].key)
    ensures results + Collect(run, endKey) ==
      (if run[0].val.kind.Deletion? then results else results + [run[0]]) + Collect(run[1..], endKey)
  {
  }

  lemma RunsApart(runs: seq<seq<Entry>>, kept: seq<nat>, states: seq<EngineSpec.State>, startKey: Bytes, endKey: Bytes)
    requires |states| >= 2 && Routed(states) && KeptRuns(runs, kept, states, |states|, startKey, endKey)
    ensures AllSorted(runs) && Distinct(runs)
  {
    forall i, j, k, l | 0 <= i < j < |runs| && 0 <= k < |runs[i]| && 0 <= l < |runs[j]|
      ensures runs[i][k].key != runs[j][l].key
    {
      FindAt(runs[i], k);
      FindAt(runs[j], l);
      assert kept[i] < kept[j];
      assert EngineSpec.Stored(states[kept[i]], runs[i][k].key) && EngineSpec.Stored(states[kept[j]], runs[j][l].key);
      assert Shard(runs[i][k].key, |states|) == kept[i] && Shard(runs[j][l].key, |states|) == kept[j];
    }
  }

  /** The merge shows a key as its shard does, if the shard was kept, and not at all otherwise. */
  lemma ShownByShard(runs: seq<seq<Entry>>, kept: seq<nat>, states: seq<EngineSpec.State>, startKey: Bytes, endKey: Bytes,
                     key: Bytes)
    requires |states| >= 2 && Routed(states) && KeptRuns(runs, kept, states, |states|, startKey, endKey)
    requires AllSorted(runs)
    ensures Shown(Merging.Merged(runs), key) ==
      if Kept(key, |states|, startKey, endKey) then EngineSpec.View(states[Shard(key, |states|)], key) else None
  {
    Merging.MergedCorrect(runs);
    var i := Shard(key, |states|);
    forall j | 0 <= j < |runs| && kept[j] != i ensures Find(runs[j], key).None? {
      assert !EngineSpec.Stored(states[kept[j]], key);
    }
    if i in kept {
      var j :| 0 <= j < |kept| && kept[j] == i;
      forall k | 0 <= k < |runs| && k != j ensures kept[k] != i {
        if k < j { assert kept[k] < kept[j]; }
      }
      OnlyRun(runs, j, key);
      assert Shown(runs[j], key) == EngineSpec.View(states[i], key);
    } else {
      NewestNone(runs, key);
    }
  }

  // ----- what a range query leaves out -----

  /** Of the keys on which router and table agree a range query misses none: it shows the whole map
      between its two keys. */
  lemma QueryComplete(states: seq<EngineSpec.State>, key: Bytes, startKey: Bytes, endKey: Bytes)
    requires 2 <= |states| <= MAX && Shard(key, |states|) == RangeFor(key, |states|)
    ensures Wanted(states, key, startKey, endKey) ==
      if Rank(startKey) <= Rank(key) <= Rank(endKey) then EngineSpec.View(states[Shard(key, |states|)], key) else None
  {
    if Rank(startKey) <= Rank(key) <= Rank(endKey) {
      NotPruned(key, |states|, startKey, endKey);
    }
  }

  /** A range query for one key finds it exactly if they agree; otherwise it misses a key that a point
      lookup, which goes by the router alone, returns. */
  lemma QueryForOneKey(states: seq<EngineSpec.State>, key: Bytes)
    requires 2 <= |states| <= MAX
    ensures Wanted(states, key, key, key) ==
      if Shard(key, |states|) == RangeFor(key, |states|) then EngineSpec.View(states[Shard(key, |states|)], key) else None
  {
    PointQuery(key, |states|);
  }

  /** What any range query shows of a key between its bounds: the answer of the key's shard, except where
      the shard was pruned because the key lies behind or before the range of that shard. */
  lemma QueryMisses(states: seq<EngineSpec.State>, key: Bytes, startKey: Bytes, endKey: Bytes)
    requires 2 <= |states| <= MAX && Rank(startKey) <= Rank(key) <= Rank(endKey)
    ensures var i, j := Shard(key, |states|), RangeFor(key, |states|);
      Wanted(states, key, startKey, endKey) ==
      if (i < j && Rank(startKey) >= Rank(Bound(i + 1, |states|))) || (i > j && Rank(endKey) < Rank(Bound(i, |states|)))
      then None else EngineSpec.View(states[i], key)
  {
    PrunedExactly(key, |states|, startKey, endKey);
  }
}
