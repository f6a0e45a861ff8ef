/** Entries, sorted runs of entries, and lookup in one run or in several. */
module Entries {
  import opened ByteStrings

  /** One byte on disk: 0 is a tombstone, 1 a value. */
  datatype ValueType = Deletion | Value

  datatype TableValue = TableValue(kind: ValueType, value: Bytes)

  datatype Entry = Entry(key: Bytes, val: TableValue, sequence: nat)

  ghost predicate Sorted(run: seq<Entry>) {
    forall i, j :: 0 <= i < j < |run| ==> Rank(run[i].key) < Rank(run[j].key)
  }

  /** Linear lookup. */
  function Find(run: seq<Entry>, key: Bytes): (r: Option<Entry>)
    ensures r.Some? ==> r.value in run && r.value.key == key
    ensures r.None? ==> forall i :: 0 <= i < |run| ==> run[i].key != key
  {
    if run == [] then None
    else if run[0].key == key then Some(run[0])
    else Find(run[1..], key)
  }

  /** In a sorted run an entry is what looking its key up finds. */
  lemma {:induction false} FindAt(run: seq<Entry>, i: nat)
    requires Sorted(run) && i < |run|
    ensures Find(run, run[i].key) == Some(run[i])
  {
    if i > 0 {
      assert Rank(run[0].key) < Rank(run[i].key);
      FindAt(run[1..], i - 1);
    }
  }

  lemma {:induction false} FindConcat(a: seq<Entry>, b: seq<Entry>, key: Bytes)
    ensures Find(a + b, key) == if Find(a, key).Some? then Find(a, key) else Find(b, key)
  {
    if a == [] {
      assert a + b == b;
    } else {
      assert (a + b)[1..] == a[1..] + b;
      FindConcat(a[1..], b, key);
    }
  }

  /** Two sorted runs that answer every lookup alike are the same run. */
  lemma {:induction false} RunsEqual(a: seq<Entry>, b: seq<Entry>)
    requires Sorted(a) && Sorted(b)
    requires forall key :: Find(a, key) == Find(b, key)
    ensures a == b
  {
    assert a != [] ==> Find(b, a[0].key) == Some(a[0]);
    assert b != [] ==> Find(a, b[0].key) == Some(b[0]);
    if a != [] && b != [] {
      var j :| 0 <= j < |b| && b[j] == a[0];
      var i :| 0 <= i < |a| && a[i] == b[0];
      assert i == 0 && j == 0;
      forall key ensures Find(a[1..], key) == Find(b[1..], key) {
        assert Find(a, key) == Find(b, key);
        if key == a[0].key {
          assert Find(a[1..], key).None?;
          assert Find(b[1..], key).None?;
        }
      }
      RunsEqual(a[1..], b[1..]);
    }
  }

  // ----- the part of a run from a key on -----

  /** `std::lower_bound`: how many keys of the run lie below `target`. */
  function LowerBound(run: seq<Entry>, target: Bytes): (n: nat)
    ensures n <= |run|
    ensures forall i :: 0 <= i < n ==> Rank(run[i].key) < Rank(target)
    ensures n < |run| ==> Rank(run[n].key) >= Rank(target)
  {
    if run == [] || !Less(run[0].key, target) then 0 else 1 + LowerBound(run[1..], target)
  }

  function From(run: seq<Entry>, target: Bytes): seq<Entry> {
    run[LowerBound(run, target)..]
  }

  lemma FromFinds(run: seq<Entry>, target: Bytes, key: Bytes)
    requires Sorted(run)
    ensures Sorted(From(run, target))
    ensures Find(From(run, target), key) == if Rank(key) < Rank(target) then None else Find(run, key)
  {
    var n := LowerBound(run, target);
    var below, above := run[..n], run[n..];
    assert run == below + above;
    FindConcat(below, above, key);
    FoundNotBelow(above, target, key);
    FoundBelow(below, target, key);
  }

  lemma FoundNotBelow(run: seq<Entry>, target: Bytes, key: Bytes)
    requires Sorted(run) && (run != [] ==> Rank(run[0].key) >= Rank(target))
    ensures Find(run, key).Some? ==> Rank(key) >= Rank(target)
  {
    if Find(run, key).Some? {
      var i :| 0 <= i < |run| && run[i] == Find(run, key).value;
      assert Rank(run[0].key) <= Rank(run[i].key);
    }
  }

  lemma FoundBelow(run: seq<Entry>, target: Bytes, key: Bytes)
    requires forall i :: 0 <= i < |run| ==> Rank(run[i].key) < Rank(target)
    ensures Find(run, key).Some? ==> Rank(key) < Rank(target)
  {
  }

  // ----- several runs: the newest version wins -----

  /** Of two versions of one key the one with the higher sequence number is newer. */
  function Newer(a: Option<Entry>, b: Option<Entry>): Option<Entry> {
    if a.None? then b
    else if b.None? || a.value.sequence >= b.value.sequence then a
    else b
  }

  /** The version of `key` with the highest sequence number in any of the runs. */
  function Newest(runs: seq<seq<Entry>>, key: Bytes): (r: Option<Entry>)
    ensures r.Some? ==> r.value.key == key
  {
    if runs == [] then None else Newer(Find(runs[0], key), Newest(runs[1..], key))
  }

  lemma NewestCons(run: seq<Entry>, runs: seq<seq<Entry>>, key: Bytes)
    ensures Newest([run] + runs, key) == Newer(Find(run, key), Newest(runs, key))
  {
    assert ([run] + runs)[1..] == runs;
  }

  /** Equal keys in different runs carry different sequence numbers. */
  ghost predicate Distinct(runs: seq<seq<Entry>>) {
    forall i, j, k, l :: 0 <= i < j < |runs| && 0 <= k < |runs[i]| && 0 <= l < |runs[j]| ==>
      runs[i][k].key == runs[j][l].key ==> runs[i][k].sequence != runs[j][l].sequence
  }

  ghost predicate AllSorted(runs: seq<seq<Entry>>) {
    forall i :: 0 <= i < |runs| ==> Sorted(runs[i])
  }

  /** What `Newest` means: some run holds the version, and every other version is not newer. */
  lemma {:induction false} NewestIsMaximum(runs: seq<seq<Entry>>, key: Bytes)
    ensures Newest(runs, key).Some? ==> exists i :: 0 <= i < |runs| && Find(runs[i], key) == Newest(runs, key)
    ensures forall i :: 0 <= i < |runs| && Find(runs[i], key).Some? ==>
              Newest(runs, key).Some? && Find(runs[i], key).value.sequence <= Newest(runs, key).value.sequence
  {
    if runs != [] {
      NewestIsMaximum(runs[1..], key);
      var rest := Newest(runs[1..], key);
      if rest.Some? {
        var i :| 0 <= i < |runs[1..]| && Find(runs[1..][i], key) == rest;
        assert runs[i + 1] == runs[1..][i];
      }
      forall i | 0 <= i < |runs| && Find(runs[i], key).Some?
        ensures Newest(runs, key).Some? && Find(runs[i], key).value.sequence <= Newest(runs, key).value.sequence
      {
        if i > 0 { assert runs[i] == runs[1..][i - 1]; }
      }
      assert Newest(runs, key) == Find(runs[0], key) || Newest(runs, key) == rest;
    }
  }

  /** Runs that agree on a key run by run agree on its newest version. */
  lemma {:induction false} NewestExt(a: seq<seq<Entry>>, b: seq<seq<Entry>>, key: Bytes)
    requires |a| == |b|
    requires forall i :: 0 <= i < |a| ==> Find(a[i], key) == Find(b[i], key)
    ensures Newest(a, key) == Newest(b, key)
  {
    if a != [] {
      NewestExt(a[1..], b[1..], key);
    }
  }

  lemma {:induction false} NewestNone(runs: seq<seq<Entry>>, key: Bytes)
    requires forall i :: 0 <= i < |runs| ==> Find(runs[i], key).None?
    ensures Newest(runs, key).None?
  {
    if runs != [] { NewestNone(runs[1..], key); }
  }
}
