/** K-way merge: a two-way reference merge, and the heap-driven iterator proved against it. */
module Merging {
  import opened ByteStrings
  import opened Entries

  // ----- the reference -----

  function MergeTwo(a: seq<Entry>, b: seq<Entry>): seq<Entry>
    decreases |a| + |b|
  {
    if a == [] then b
    else if b == [] then a
    else if Less(a[0].key, b[0].key) then [a[0]] + MergeTwo(a[1..], b)
    else if Less(b[0].key, a[0].key) then [b[0]] + MergeTwo(a, b[1..])
    else [if a[0].sequence >= b[0].sequence then a[0] else b[0]] + MergeTwo(a[1..], b[1..])
  }

  function Merged(runs: seq<seq<Entry>>): seq<Entry> {
    if runs == [] then [] else MergeTwo(runs[0], Merged(runs[1..]))
  }

  ghost predicate AllAbove(run: seq<Entry>, key: Bytes) {
    forall i :: 0 <= i < |run| ==> Rank(run[i].key) > Rank(key)
  }

  lemma SortedTail(run: seq<Entry>)
    requires Sorted(run) && run != []
    ensures Sorted(run[1..]) && AllAbove(run[1..], run[0].key)
  {
  }

  lemma SortedCons(e: Entry, run: seq<Entry>)
    requires Sorted(run) && AllAbove(run, e.key)
    ensures Sorted([e] + run)
  {
  }

  lemma {:induction false} MergeTwoAbove(a: seq<Entry>, b: seq<Entry>, key: Bytes)
    requires AllAbove(a, key) && AllAbove(b, key)
    ensures AllAbove(MergeTwo(a, b), key)
    decreases |a| + |b|
  {
    if a != [] && b != [] {
      if Less(a[0].key, b[0].key) { MergeTwoAbove(a[1..], b, key); }
      else if Less(b[0].key, a[0].key) { MergeTwoAbove(a, b[1..], key); }
      else { MergeTwoAbove(a[1..], b[1..], key); }
    }
  }

  lemma AboveFindsNone(run: seq<Entry>, key: Bytes)
    requires AllAbove(run, key)
    ensures Find(run, key).None?
  {
  }

  lemma {:induction false} MergeTwoSorted(a: seq<Entry>, b: seq<Entry>)
    requires Sorted(a) && Sorted(b)
    ensures Sorted(MergeTwo(a, b))
    decreases |a| + |b|
  {
    if a != [] && b != [] {
      SortedTail(a);
      SortedTail(b);
      var e := MergeTwo(a, b)[0];
      var a', b' := a, b;
      if Less(a[0].key, b[0].key) {
        a' := a[1..];
      } else if Less(b[0].key, a[0].key) {
        b' := b[1..];
      } else {
        a', b' := a[1..], b[1..];
      }
      MergeTwoSorted(a', b');
      MergeTwoAbove(a', b', e.key);
      SortedCons(e, MergeTwo(a', b'));
      assert MergeTwo(a, b) == [e] + MergeTwo(a', b');
    }
  }

  lemma FindCons(e: Entry, run: seq<Entry>, key: Bytes)
    ensures Find([e] + run, key) == if e.key == key then Some(e) else Find(run, key)
  {
    assert ([e] + run)[1..] == run;
  }

  lemma HeadBelow(a: seq<Entry>, b: seq<Entry>)
    requires Sorted(b) && a != [] && b != [] && Less(a[0].key, b[0].key)
    ensures Find(b, a[0].key).None?
  {
    AboveFindsNone(b, a[0].key);
  }

  lemma {:induction false} MergeTwoFinds(a: seq<Entry>, b: seq<Entry>, key: Bytes)
    requires Sorted(a) && Sorted(b)
    ensures Find(MergeTwo(a, b), key) == Newer(Find(a, key), Find(b, key))
    decreases |a| + |b|
  {
    if a != [] && b != [] {
      if Less(a[0].key, b[0].key) {
        MergeTwoFinds(a[1..], b, key);
        FindCons(a[0], MergeTwo(a[1..], b), key);
        HeadBelow(a, b);
      } else if Less(b[0].key, a[0].key) {
        MergeTwoFinds(a, b[1..], key);
        FindCons(b[0], MergeTwo(a, b[1..]), key);
        HeadBelow(b, a);
      } else {
        SameRank(a[0].key, b[0].key);
        MergeTwoFinds(a[1..], b[1..], key);
        FindCons(MergeTwo(a, b)[0], MergeTwo(a[1..], b[1..]), key);
      }
    }
  }

  lemma MergeTwoCorrect(a: seq<Entry>, b: seq<Entry>)
    requires Sorted(a) && Sorted(b)
    ensures Sorted(MergeTwo(a, b))
    ensures forall key :: Find(MergeTwo(a, b), key) == Newer(Find(a, key), Find(b, key))
  {
    MergeTwoSorted(a, b);
    forall key ensures Find(MergeTwo(a, b), key) == Newer(Find(a, key), Find(b, key)) {
      MergeTwoFinds(a, b, key);
    }
  }

  /** The merged run is strictly sorted and shows, for every key any run holds and for no other,
      the version with the highest sequence number. */
  lemma {:induction false} MergedCorrect(runs: seq<seq<Entry>>)
    requires AllSorted(runs)
    ensures Sorted(Merged(runs))
    ensures forall key :: Find(Merged(runs), key) == Newest(runs, key)
  {
    if runs != [] {
      MergedCorrect(runs[1..]);
      MergeTwoCorrect(runs[0], Merged(runs[1..]));
      forall key ensures Find(Merged(runs), key) == Newest(runs, key) {
        assert Find(Merged(runs[1..]), key) == Newest(runs[1..], key);
      }
    }
  }

  /** Any run with those two properties is the merge: they leave no freedom. */
  lemma MergedUnique(runs: seq<seq<Entry>>, out: seq<Entry>)
    requires AllSorted(runs) && Sorted(out)
    requires forall key :: Find(out, key) == Newest(runs, key)
    ensures out == Merged(runs)
  {
    MergedCorrect(runs);
    RunsEqual(out, Merged(runs));
  }

  /** Seeking every run to `target` and merging is seeking in the merge. */
  lemma MergedFrom(runs: seq<seq<Entry>>, tails: seq<seq<Entry>>, target: Bytes)
    requires AllSorted(runs) && |tails| == |runs|
    requires forall i :: 0 <= i < |runs| ==> tails[i] == From(runs[i], target)
    ensures Merged(tails) == From(Merged(runs), target)
  {
    MergedCorrect(runs);
    forall i | 0 <= i < |runs| ensures Sorted(tails[i]) { FromFinds(runs[i], target, []); }
    FromFinds(Merged(runs), target, []);
    forall key ensures Find(From(Merged(runs), target), key) == Newest(tails, key) {
      FromFinds(Merged(runs), target, key);
      forall i | 0 <= i < |runs|
        ensures Find(tails[i], key) == if Rank(key) < Rank(target) then None else Find(runs[i], key)
      {
        FromFinds(runs[i], target, key);
      }
      if Rank(key) < Rank(target) { NewestNone(tails, key); } else { NewestExt(tails, runs, key); }
    }
    MergedUnique(tails, From(Merged(runs), target));
  }

  // ----- child iterators -----

  /** The `Iterator` interface over a sorted snapshot: `SkipListIterator` is literally this, and
      the table and merging iterators are proved to move through their entries the same way. */
  datatype Cursor = Cursor(entries: seq<Entry>, index: nat) {
    ghost predicate Ok() { index <= |entries| && Sorted(entries) }

    predicate Valid() { index < |entries| }

    function Entry(): Entry
      requires Valid()
    {
      entries[index]
    }

    function Next(): Cursor { if Valid() then this.(index := index + 1) else this }

    function Seek(target: Bytes): Cursor { this.(index := LowerBound(entries, target)) }

    ghost function Rest(): seq<Entry>
      requires Ok()
    {
      entries[index..]
    }
  }

  datatype HeapItem = HeapItem(child: nat, entry: Entry) {
    /** `operator>`: the smallest item has the least key and, among equal keys, the highest sequence. */
    predicate Greater(other: HeapItem) {
      if entry.key != other.entry.key then Less(other.entry.key, entry.key)
      else entry.sequence < other.entry.sequence
    }
  }

  ghost predicate AllOk(children: seq<Cursor>) {
    forall i :: 0 <= i < |children| ==> children[i].Ok()
  }

  ghost function Rests(children: seq<Cursor>): (r: seq<seq<Entry>>)
    requires AllOk(children)
    ensures |r| == |children|
    ensures forall i :: 0 <= i < |children| ==> r[i] == children[i].Rest()
    ensures AllSorted(r)
  {
    seq(|children|, i requires 0 <= i < |children| => children[i].Rest())
  }

  ghost function Runs(children: seq<Cursor>): (r: seq<seq<Entry>>)
    ensures |r| == |children|
    ensures forall i :: 0 <= i < |children| ==> r[i] == children[i].entries
  {
    seq(|children|, i requires 0 <= i < |children| => children[i].entries)
  }

  /** A heap always has a top: an item no other item is smaller than. */
  lemma {:induction false} TopExists(heap: multiset<HeapItem>) returns (top: HeapItem)
    requires heap != multiset{}
    ensures top in heap && forall h :: h in heap ==> !top.Greater(h)
    decreases |heap|
  {
    top :| top in heap;
    var rest := heap - multiset{top};
    if rest != multiset{} {
      var t := TopExists(rest);
      RankInjective();
      if top.Greater(t) {
        assert forall h :: h in heap ==> h in rest || h == top;
        top := t;
      } else {
        assert forall h :: h in heap ==> h in rest || h == top;
      }
    }
  }

  lemma {:induction false} MergedAbove(runs: seq<seq<Entry>>, key: Bytes)
    requires forall i :: 0 <= i < |runs| ==> AllAbove(runs[i], key)
    ensures AllAbove(Merged(runs), key)
  {
    if runs != [] {
      MergedAbove(runs[1..], key);
      MergeTwoAbove(runs[0], Merged(runs[1..]), key);
    }
  }

  /** The child moved past `key` if it stood on it. */
  function Past(c: Cursor, key: Bytes): Cursor {
    if c.Valid() && c.Entry().key == key then c.Next() else c
  }

  /** Part-way through skipping a key: some children have moved past it. */
  ghost predicate Skipping(before: seq<Cursor>, children: seq<Cursor>, key: Bytes) {
    |children| == |before| &&
    (forall i :: 0 <= i < |children| ==> children[i] == before[i] || children[i] == Past(before[i], key)) &&
    forall i :: 0 <= i < |children| && children[i].Valid() ==> Rank(children[i].Entry().key) >= Rank(key)
  }

  lemma PastMoves(c: Cursor, key: Bytes)
    requires c.Ok()
    ensures Past(c, key).Valid() && Past(c, key).Entry().key == key ==> Past(c, key) == c
  {
    if c.Valid() && c.Entry().key == key && c.Next().Valid() {
      assert Rank(c.entries[c.index].key) < Rank(c.entries[c.index + 1].key);
    }
  }

  lemma SkipStep(before: seq<Cursor>, children: seq<Cursor>, key: Bytes, c: nat)
    requires AllOk(children) && AllOk(before) && Skipping(before, children, key) && c < |children|
    requires children[c].Valid() && children[c].Entry().key == key
    ensures children[c] == before[c] && children[c].Next() != before[c]
    ensures Skipping(before, children[c := children[c].Next()], key)
  {
    PastMoves(before[c], key);
    PastIsAbove(children[c], key);
    NextHead(children[c].Next(), key);
  }

  /** Once the top is past the key every child is. */
  lemma NoneLeft(children: seq<Cursor>, key: Bytes, c: nat)
    requires IsTop(children, c) && children[c].Entry().key != key
    requires forall i :: 0 <= i < |children| && children[i].Valid() ==> Rank(children[i].Entry().key) >= Rank(key)
    ensures forall i :: 0 <= i < |children| ==> Past(children[i], key) == children[i]
  {
    CompareIsRankOrder(children[c].Entry().key, key);
    forall i | 0 <= i < |children| && children[i].Valid() ensures children[i].Entry().key != key {
      assert !HeapItem(c, children[c].Entry()).Greater(HeapItem(i, children[i].Entry()));
    }
  }

  ghost predicate IsTop(children: seq<Cursor>, c: nat) {
    c < |children| && children[c].Valid() &&
    forall i :: 0 <= i < |children| && children[i].Valid() ==>
      !HeapItem(c, children[c].Entry()).Greater(HeapItem(i, children[i].Entry()))
  }

  lemma PastRuns(before: seq<Cursor>, after: seq<Cursor>, key: Bytes)
    requires |after| == |before| && forall i :: 0 <= i < |after| ==> after[i] == Past(before[i], key)
    ensures Runs(after) == Runs(before)
  {
  }

  lemma PastIsAbove(c: Cursor, key: Bytes)
    requires c.Ok() && (c.Valid() ==> Rank(c.Entry().key) >= Rank(key))
    ensures Past(c, key).Ok() && AllAbove(Past(c, key).Rest(), key)
    ensures forall k :: k != key ==> Find(Past(c, key).Rest(), k) == Find(c.Rest(), k)
  {
    if c.Valid() {
      SortedTail(c.Rest());
      assert c.Rest()[0] == c.Entry();
      if c.Entry().key == key {
        assert Past(c, key).Rest() == c.Rest()[1..];
      } else {
        CompareIsRankOrder(c.Entry().key, key);
        assert Past(c, key) == c;
      }
    }
  }

  lemma NextHead(c: Cursor, key: Bytes)
    requires c.Ok() && AllAbove(c.Rest(), key)
    ensures c.Valid() ==> Rank(c.Entry().key) > Rank(key)
  {
    assert c.Valid() ==> c.Rest()[0] == c.Entry();
  }

  /** Once the top's child has moved on, every head is still at or above the popped key, and that
      child's own head is strictly above it. */
  lemma PoppedHeads(before: seq<Cursor>, after: seq<Cursor>, c: nat)
    requires AllOk(before) && IsTop(before, c)
    requires after == before[c := before[c].Next()]
    ensures forall i :: 0 <= i < |after| && after[i].Valid() ==> Rank(after[i].Entry().key) >= Rank(before[c].Entry().key)
    ensures forall i :: 0 <= i < |after| ==> Past(after[i], before[c].Entry().key) == Past(before[i], before[c].Entry().key)
  {
    var key := before[c].Entry().key;
    PastIsAbove(before[c], key);
    NextHead(after[c], key);
    forall i | 0 <= i < |after| && after[i].Valid() ensures Rank(after[i].Entry().key) >= Rank(key) {
      if i != c { assert !HeapItem(c, before[c].Entry()).Greater(HeapItem(i, before[i].Entry())); }
    }
  }

  lemma {:induction false} MergedEmpty(runs: seq<seq<Entry>>)
    requires forall i :: 0 <= i < |runs| ==> runs[i] == []
    ensures Merged(runs) == []
  {
    if runs != [] { MergedEmpty(runs[1..]); }
  }

  /** The heap top is the head of the merge, and stripping its key from every child leaves the
      merge's tail. */
  lemma TopIsHead(before: seq<Cursor>, after: seq<Cursor>, c: nat)
    requires AllOk(before) && Distinct(Runs(before)) && IsTop(before, c)
    requires |after| == |before|
    requires forall i :: 0 <= i < |before| ==> after[i] == Past(before[i], before[c].Entry().key)
    ensures AllOk(after)
    ensures forall i :: 0 <= i < |after| ==> AllAbove(after[i].Rest(), before[c].Entry().key)
    ensures Merged(Rests(before)) == [before[c].Entry()] + Merged(Rests(after))
  {
    var e := before[c].Entry();
    forall i | 0 <= i < |before|
      ensures after[i].Ok() && AllAbove(after[i].Rest(), e.key)
      ensures before[i].Valid() ==> Rank(before[i].Entry().key) >= Rank(e.key)
      ensures forall k :: k != e.key ==> Find(after[i].Rest(), k) == Find(before[i].Rest(), k)
    {
      PastIsAbove(before[i], e.key);
    }
    var tail := Merged(Rests(after));
    MergedCorrect(Rests(after));
    MergedAbove(Rests(after), e.key);
    SortedCons(e, tail);
    forall key ensures Find([e] + tail, key) == Newest(Rests(before), key) {
      assert ([e] + tail)[1..] == tail;
      if key == e.key {
        DistinctTop(before, c);
        TopIsNewest(before, c);
      } else {
        NewestExt(Rests(before), Rests(after), key);
      }
    }
    MergedUnique(Rests(before), [e] + tail);
  }

  /** A run whose head is not below `key` finds `key` at its head or not at all. */
  lemma FoundAtHead(run: seq<Entry>, key: Bytes)
    requires Sorted(run) && run != [] && Rank(run[0].key) >= Rank(key)
    requires Find(run, key).Some?
    ensures Find(run, key) == Some(run[0])
  {
    var k :| 0 <= k < |run| && run[k] == Find(run, key).value;
    assert Rank(run[0].key) <= Rank(run[k].key);
  }

  /** No other child stands on the top's key with the top's sequence number. */
  ghost predicate UniqueTop(children: seq<Cursor>, c: nat)
    requires c < |children| && children[c].Valid()
  {
    forall i :: 0 <= i < |children| && i != c && children[i].Valid() ==>
      children[i].Entry().key == children[c].Entry().key ==>
      children[i].Entry().sequence != children[c].Entry().sequence
  }

  lemma DistinctTop(children: seq<Cursor>, c: nat)
    requires AllOk(children) && Distinct(Runs(children))
    requires c < |children| && children[c].Valid()
    ensures UniqueTop(children, c)
  {
    var runs := Runs(children);
    forall i | 0 <= i < |children| && i != c && children[i].Valid() && children[i].Entry().key == children[c].Entry().key
      ensures children[i].Entry().sequence != children[c].Entry().sequence
    {
      assert runs[c][children[c].index] == children[c].Entry() && runs[i][children[i].index] == children[i].Entry();
    }
  }

  lemma TopIsNewest(children: seq<Cursor>, c: nat)
    requires AllOk(children) && IsTop(children, c) && UniqueTop(children, c)
    ensures Newest(Rests(children), children[c].Entry().key) == Some(children[c].Entry())
  {
    var e := children[c].Entry();
    var rests := Rests(children);
    assert rests[c][0] == e;
    FindAt(rests[c], 0);
    NewestIsMaximum(rests, e.key);
    var i :| 0 <= i < |rests| && Find(rests[i], e.key) == Newest(rests, e.key);
    HeadOfNewest(children, c, i, rests[i]);
  }

  lemma HeadOfNewest(children: seq<Cursor>, c: nat, i: nat, rest: seq<Entry>)
    requires AllOk(children) && IsTop(children, c) && UniqueTop(children, c)
    requires i < |children| && rest == children[i].Rest()
    requires Find(rest, children[c].Entry().key).Some?
    requires Find(rest, children[c].Entry().key).value.sequence >= children[c].Entry().sequence
    ensures Find(rest, children[c].Entry().key) == Some(children[c].Entry())
  {
    var head := children[i].Entry();
    assert rest[0] == head;
    assert !HeapItem(c, children[c].Entry()).Greater(HeapItem(i, head));
    FoundAtHead(rest, children[c].Entry().key);
  }

  // ----- the heap-driven iterator -----

  class MergingIterator {
    var children: seq<Cursor>
    var heap: multiset<HeapItem>
    var valid: bool
    var current: Entry

    /** The heap holds exactly one item for each child that is not exhausted: its current entry. */
    ghost predicate HeapOk()
      reads this
    {
      AllOk(children) &&
      forall h :: heap[h] == if InHeap(children, h) then 1 else 0
    }

    /** The children have already moved past the entry on show. */
    ghost predicate Ok()
      reads this
    {
      HeapOk() && Distinct(Runs(children)) &&
      (valid ==> forall i :: 0 <= i < |children| ==> AllAbove(children[i].Rest(), current.key))
    }

    /** What is still to be shown: the current entry and then the merge of what the children hold. */
    ghost function View(): seq<Entry>
      requires AllOk(children)
      reads this
    {
      if valid then [current] + Merged(Rests(children)) else []
    }

    constructor (children: seq<Cursor>)
      requires AllOk(children) && Distinct(Runs(children))
      ensures Ok() && Runs(this.children) == Runs(children)
      ensures View() == Merged(Rests(children))
    {
      this.children := children;
      heap := multiset{};
      valid := false;
      current := Entry([], TableValue(Value, []), 0);
      new;
      for i := 0 to |children|
        invariant this.children == children && HeapBelow(children, heap, i)
      {
        PushChild(i);
      }
      FindMin();
    }

    /** The heap gets the current entry of a child that has one. */
    method PushChild(i: nat)
      requires i < |children| && HeapBelow(children, heap, i)
      modifies `heap
      ensures HeapBelow(children, heap, i + 1)
    {
      if children[i].Valid() {
        heap := heap + multiset{HeapItem(i, children[i].Entry())};
      }
    }

    method Top() returns (top: HeapItem)
      requires HeapOk() && heap != multiset{}
      ensures InHeap(children, top) && IsTop(children, top.child)
      ensures top.entry == children[top.child].Entry()
    {
      ghost var t := TopExists(heap);
      top :| top in heap && forall h :: h in heap ==> !top.Greater(h);
      assert heap[top] == 1;
      forall i | 0 <= i < |children| && children[i].Valid()
        ensures !top.Greater(HeapItem(i, children[i].Entry()))
      {
        assert heap[HeapItem(i, children[i].Entry())] == 1;
      }
    }

    /** Pop the top, advance its child, push the child's next entry if it has one. */
    method PopAndAdvance(top: HeapItem)
      requires HeapOk() && InHeap(children, top)
      modifies `children, `heap
      ensures HeapOk()
      ensures children == old(children)[top.child := old(children[top.child]).Next()]
    {
      heap := heap - multiset{top};
      var c := children[top.child].Next();
      children := children[top.child := c];
      if c.Valid() {
        heap := heap + multiset{HeapItem(top.child, c.Entry())};
      }
    }

    /** Pop every item whose key is `key`. */
    method SkipKey(key: Bytes)
      requires HeapOk()
      requires forall i :: 0 <= i < |children| && children[i].Valid() ==> Rank(children[i].Entry().key) >= Rank(key)
      modifies `children, `heap
      ensures HeapOk() && |children| == |old(children)|
      ensures forall i :: 0 <= i < |children| ==> children[i] == Past(old(children[i]), key)
    {
      ghost var before := children;
      ghost var pending := set i | 0 <= i < |children| && children[i] == before[i];
      while heap != multiset{}
        invariant HeapOk() && Skipping(before, children, key)
        invariant forall i :: 0 <= i < |children| && children[i] == before[i] ==> i in pending
        decreases pending
      {
        var top := Top();
        if top.entry.key != key {
          NoneLeft(children, key, top.child);
          break;
        }
        SkipStep(before, children, key, top.child);
        PopAndAdvance(top);
        pending := pending - {top.child};
      }
      EmptyHeap();
    }

    lemma EmptyHeap()
      requires HeapOk()
      ensures heap == multiset{} ==> forall i :: 0 <= i < |children| ==> !children[i].Valid()
      ensures heap == multiset{} ==> Merged(Rests(children)) == []
    {
      if heap == multiset{} {
        forall i | 0 <= i < |children| ensures !children[i].Valid() {
          assert children[i].Valid() ==> heap[HeapItem(i, children[i].Entry())] == 1;
        }
        MergedEmpty(Rests(children));
      }
    }

    method FindMin()
      requires HeapOk() && Distinct(Runs(children))
      modifies this
      ensures Ok() && Runs(children) == Runs(old(children))
      ensures View() == Merged(Rests(old(children)))
    {
      ghost var before := children;
      EmptyHeap();
      if heap == multiset{} {
        valid := false;
        return;
      }
      var top := Top();
      current := top.entry;
      valid := true;
      var currentKey := current.key;
      PopAndAdvance(top);
      PoppedHeads(before, children, top.child);
      SkipKey(currentKey);
      TopIsHead(before, children, top.child);
      PastRuns(before, children, currentKey);
    }

    method Next()
      requires Ok()
      modifies this
      ensures Ok() && Runs(children) == Runs(old(children))
      ensures View() == if old(View()) == [] then [] else old(View())[1..]
    {
      EmptyHeap();
      if !valid || heap == multiset{} {
        valid := false;
        return;
      }
      var lastKey := current.key;
      forall i | 0 <= i < |children| ensures Past(children[i], lastKey) == children[i] {
        NextHead(children[i], lastKey);
      }
      SkipKey(lastKey);
      assert children == old(children);
      FindMin();
    }

    method Seek(target: Bytes)
      requires Ok()
      modifies this
      ensures Ok() && Runs(children) == Runs(old(children))
      ensures View() == From(Merged(Runs(old(children))), target)
    {
      ghost var runs := Runs(children);
      heap := multiset{};
      for i := 0 to |children|
        invariant |children| == |runs|
        invariant forall j :: 0 <= j < |children| ==> children[j].Ok() && children[j].entries == runs[j]
        invariant forall j :: 0 <= j < i ==> children[j].index == LowerBound(runs[j], target)
        invariant HeapBelow(children, heap, i)
      {
        ghost var before := children;
        children := children[i := children[i].Seek(target)];
        assert HeapBelow(children, heap, i) by { SoughtHeap(before, heap, i, children[i]); }
        PushChild(i);
      }
      assert HeapOk() by { FullHeap(children, heap); }
      assert Runs(children) == runs;
      MergedFrom(runs, Rests(children), target);
      FindMin();
    }
  }

  /** The heap holds the current entries of the first `n` children. */
  ghost predicate HeapBelow(children: seq<Cursor>, heap: multiset<HeapItem>, n: nat) {
    forall h :: heap[h] == if h.child < n && InHeap(children, h) then 1 else 0
  }

  lemma SoughtHeap(children: seq<Cursor>, heap: multiset<HeapItem>, i: nat, c: Cursor)
    requires i < |children| && HeapBelow(children, heap, i)
    ensures HeapBelow(children[i := c], heap, i)
  {
  }

  lemma FullHeap(children: seq<Cursor>, heap: multiset<HeapItem>)
    requires HeapBelow(children, heap, |children|)
    ensures forall h :: heap[h] == if InHeap(children, h) then 1 else 0
  {
  }

  ghost predicate InHeap(children: seq<Cursor>, h: HeapItem) {
    h.child < |children| && children[h.child].Valid() && h.entry == children[h.child].Entry()
  }
}
