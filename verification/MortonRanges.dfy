/** Boxes of voxels to ranges of Morton codes: the explicit-stack octree split and the merging of ranges.

    Coordinates and codes are numbers of 64 bits; products and sums wrap as the original's do. */
module MortonRanges {
  import opened MortonOrder

  const TWO64: nat := 0x1_0000_0000_0000_0000
  const GRID: nat := 0x20_0000

  datatype Voxel = Voxel(x: nat, y: nat, z: nat)

  datatype BoxNode = BoxNode(x1: nat, y1: nat, z1: nat, x2: nat, y2: nat, z2: nat)

  datatype MortonRange = MortonRange(startCode: nat, endCode: nat)

  // ----- boxes -----

  predicate In(b: BoxNode, v: Voxel) {
    b.x1 <= v.x <= b.x2 && b.y1 <= v.y <= b.y2 && b.z1 <= v.z <= b.z2
  }

  function One(b: BoxNode, v: Voxel): nat {
    if In(b, v) then 1 else 0
  }

  /** How many of the boxes hold the voxel. */
  function Count(boxes: seq<BoxNode>, v: Voxel): nat {
    if boxes == [] then 0 else Count(boxes[..|boxes| - 1], v) + One(boxes[|boxes| - 1], v)
  }

  predicate Proper(b: BoxNode) {
    b.x1 <= b.x2 && b.y1 <= b.y2 && b.z1 <= b.z2
  }

  predicate Inside(b: BoxNode, outer: BoxNode) {
    outer.x1 <= b.x1 && b.x2 <= outer.x2 && outer.y1 <= b.y1 && b.y2 <= outer.y2 && outer.z1 <= b.z1 && b.z2 <= outer.z2
  }

  ghost predicate AllInside(boxes: seq<BoxNode>, outer: BoxNode) {
    forall i :: 0 <= i < |boxes| ==> Inside(boxes[i], outer)
  }

  /** The split stops at boxes this small; a box that is flat in some direction is one of them. */
  predicate IsLeaf(b: BoxNode)
    requires Proper(b)
  {
    var dx, dy, dz := b.x2 - b.x1, b.y2 - b.y1, b.z2 - b.z1;
    (dx * dy * dz) % TWO64 < 64 || (dx == 0 && dy == 0 && dz == 0)
  }

  lemma FlatIsLeaf(b: BoxNode)
    requires Proper(b) && (b.x1 == b.x2 || b.y1 == b.y2 || b.z1 == b.z2)
    ensures IsLeaf(b)
  {
    var dx, dy, dz := b.x2 - b.x1, b.y2 - b.y1, b.z2 - b.z1;
    assert dx * dy * dz == 0;
  }

  function RangeOf(b: BoxNode): MortonRange {
    MortonRange(MortonCode(b.x1, b.y1, b.z1), MortonCode(b.x2, b.y2, b.z2))
  }

  // ----- termination: a box weighs more than the eight it splits into -----

  function Pow9(n: nat): (p: nat)
    ensures p > 0
  {
    if n == 0 then 1 else 9 * Pow9(n - 1)
  }

  lemma {:induction false} Pow9Monotone(m: nat, n: nat)
    requires m <= n
    ensures Pow9(m) <= Pow9(n)
  {
    if m < n { Pow9Monotone(m, n - 1); }
  }

  function Weight(b: BoxNode): (w: nat)
    ensures w > 0
  {
    if b.x1 <= b.x2 then Pow9(b.x2 - b.x1) else 1
  }

  function Total(boxes: seq<BoxNode>): nat {
    if boxes == [] then 0 else Total(boxes[..|boxes| - 1]) + Weight(boxes[|boxes| - 1])
  }

  lemma Pushed(boxes: seq<BoxNode>, b: BoxNode)
    ensures Total(boxes + [b]) == Total(boxes) + Weight(b)
    ensures forall v :: Count(boxes + [b], v) == Count(boxes, v) + One(b, v)
  {
    assert (boxes + [b])[..|boxes|] == boxes;
  }

  // ----- the split -----

  /** Pushes a child if the split left room for it. */
  method Push(stack: seq<BoxNode>, room: bool, b: BoxNode, ghost limit: nat, ghost outer: BoxNode)
    returns (stack': seq<BoxNode>)
    requires AllInside(stack, outer) && (room ==> Inside(b, outer) && Weight(b) <= limit)
    ensures AllInside(stack', outer) && Total(stack) <= Total(stack') <= Total(stack) + limit
    ensures forall v :: Count(stack', v) == Count(stack, v) + if room then One(b, v) else 0
  {
    if room {
      Pushed(stack, b);
      stack' := stack + [b];
    } else {
      stack' := stack;
    }
  }

  /** In how many octants of a box cut at a point a voxel is. */
  function OctantCount(b: BoxNode, mx: nat, my: nat, mz: nat, v: Voxel): nat {
    One(BoxNode(b.x1, b.y1, b.z1, mx, my, mz), v) + One(BoxNode(mx + 1, b.y1, b.z1, b.x2, my, mz), v)
    + One(BoxNode(b.x1, my + 1, b.z1, mx, b.y2, mz), v) + One(BoxNode(mx + 1, my + 1, b.z1, b.x2, b.y2, mz), v)
    + One(BoxNode(b.x1, b.y1, mz + 1, mx, my, b.z2), v) + One(BoxNode(mx + 1, b.y1, mz + 1, b.x2, my, b.z2), v)
    + One(BoxNode(b.x1, my + 1, mz + 1, mx, b.y2, b.z2), v) + One(BoxNode(mx + 1, my + 1, mz + 1, b.x2, b.y2, b.z2), v)
  }

  /** Every voxel of the box is in exactly one octant, no other voxel is in any. */
  lemma OneOctant(b: BoxNode, mx: nat, my: nat, mz: nat, v: Voxel)
    requires b.x1 <= mx < b.x2 && b.y1 <= my < b.y2 && b.z1 <= mz < b.z2
    ensures OctantCount(b, mx, my, mz, v) == One(b, v)
  {
  }

  method PushChildren(stack: seq<BoxNode>, node: BoxNode, ghost outer: BoxNode) returns (stack': seq<BoxNode>)
    requires AllInside(stack, outer) && Inside(node, outer) && Proper(node) && !IsLeaf(node)
    ensures AllInside(stack', outer) && Total(stack') < Total(stack) + Weight(node)
    ensures forall v :: Count(stack', v) == Count(stack, v) + One(node, v)
  {
    if node.x1 == node.x2 || node.y1 == node.y2 || node.z1 == node.z2 { FlatIsLeaf(node); }
    var dx, dy, dz := node.x2 - node.x1, node.y2 - node.y1, node.z2 - node.z1;
    var mx, my, mz := node.x1 + dx / 2, node.y1 + dy / 2, node.z1 + dz / 2;
    Pow9Monotone(mx - node.x1, dx - 1);
    Pow9Monotone(node.x2 - mx - 1, dx - 1);
    stack' := PushOctants(stack, node, mx, my, mz, Pow9(dx - 1), outer);
    forall v ensures Count(stack', v) == Count(stack, v) + One(node, v) {
      OneOctant(node, mx, my, mz, v);
    }
  }

  method PushOctants(stack: seq<BoxNode>, node: BoxNode, mx: nat, my: nat, mz: nat, ghost limit: nat, ghost outer: BoxNode)
    returns (stack': seq<BoxNode>)
    requires AllInside(stack, outer) && Inside(node, outer)
    requires node.x1 <= mx < node.x2 && node.y1 <= my < node.y2 && node.z1 <= mz < node.z2
    requires Pow9(mx - node.x1) <= limit && Pow9(node.x2 - mx - 1) <= limit
    ensures AllInside(stack', outer) && Total(stack') <= Total(stack) + 8 * limit
    ensures forall v :: Count(stack', v) == Count(stack, v) + OctantCount(node, mx, my, mz, v)
  {
    var s := Push(stack, true, BoxNode(node.x1, node.y1, node.z1, mx, my, mz), limit, outer);
    s := Push(s, mx < node.x2, BoxNode(mx + 1, node.y1, node.z1, node.x2, my, mz), limit, outer);
    s := Push(s, my < node.y2, BoxNode(node.x1, my + 1, node.z1, mx, node.y2, mz), limit, outer);
    s := Push(s, mx < node.x2 && my < node.y2, BoxNode(mx + 1, my + 1, node.z1, node.x2, node.y2, mz), limit, outer);
    s := Push(s, mz < node.z2, BoxNode(node.x1, node.y1, mz + 1, mx, my, node.z2), limit, outer);
    s := Push(s, mx < node.x2 && mz < node.z2, BoxNode(mx + 1, node.y1, mz + 1, node.x2, my, node.z2), limit, outer);
    s := Push(s, my < node.y2 && mz < node.z2, BoxNode(node.x1, my + 1, mz + 1, mx, node.y2, node.z2), limit, outer);
    s := Push(s, mx < node.x2 && my < node.y2 && mz < node.z2,
              BoxNode(mx + 1, my + 1, mz + 1, node.x2, node.y2, node.z2), limit, outer);
    stack' := s;
  }

  /** Each leaf has given its range. */
  ghost predicate Collected(box: BoxNode, leaves: seq<BoxNode>, ranges: seq<MortonRange>) {
    |ranges| == |leaves| && AllInside(leaves, box) &&
    forall i :: 0 <= i < |leaves| ==> ranges[i] == RangeOf(leaves[i]) && Proper(leaves[i]) && IsLeaf(leaves[i])
  }

  lemma OneMoreLeaf(box: BoxNode, leaves: seq<BoxNode>, ranges: seq<MortonRange>, node: BoxNode)
    requires Collected(box, leaves, ranges) && Inside(node, box) && Proper(node) && IsLeaf(node)
    ensures Collected(box, leaves + [node], ranges + [RangeOf(node)])
  {
  }

  /** The leaves partition the box. */
  ghost predicate Partition(box: BoxNode, leaves: seq<BoxNode>, ranges: seq<MortonRange>) {
    Collected(box, leaves, ranges) && forall v :: Count(leaves, v) == One(box, v)
  }

  /** A box that is a leaf is taken as it is. */
  ghost predicate TakenWhole(whole: bool, box: BoxNode, stack: seq<BoxNode>, ranges: seq<MortonRange>) {
    whole ==> if stack == [] then ranges == [RangeOf(box)] else stack == [box] && ranges == []
  }

  /** Splits a box into leaves; stack and leaves together partition it at every turn. */
  method SplitBox(box: BoxNode) returns (ranges: seq<MortonRange>)
    ensures exists leaves :: Partition(box, leaves, ranges)
    ensures Proper(box) && IsLeaf(box) ==> ranges == [RangeOf(box)]
  {
    var stack := [box];
    ranges := [];
    ghost var leaves: seq<BoxNode> := [];
    ghost var whole := Proper(box) && IsLeaf(box);
    assert [box] == [] + [box];
    Pushed([], box);
    while stack != []
      invariant Collected(box, leaves, ranges) && AllInside(stack, box) && TakenWhole(whole, box, stack, ranges)
      invariant forall v :: Count(stack, v) + Count(leaves, v) == One(box, v)
      decreases Total(stack)
    {
      var node := stack[|stack| - 1];
      stack := stack[..|stack| - 1];
      if node.x1 > node.x2 || node.y1 > node.y2 || node.z1 > node.z2 {
        continue;
      }
      if IsLeaf(node) {
        Pushed(leaves, node);
        OneMoreLeaf(box, leaves, ranges, node);
        ranges, leaves := ranges + [RangeOf(node)], leaves + [node];
        continue;
      }
      stack := PushChildren(stack, node, box);
    }
    assert Partition(box, leaves, ranges);
  }

  lemma {:induction false} SomeBox(boxes: seq<BoxNode>, v: Voxel)
    requires Count(boxes, v) > 0
    ensures exists i :: 0 <= i < |boxes| && In(boxes[i], v)
  {
    var n := |boxes| - 1;
    if !In(boxes[n], v) {
      SomeBox(boxes[..n], v);
      var i :| 0 <= i < n && In(boxes[..n][i], v);
      assert In(boxes[i], v);
    }
  }

  // ----- merging -----

  predicate Hit(r: MortonRange, c: nat) {
    r.startCode <= c <= r.endCode
  }

  ghost predicate Covered(rs: seq<MortonRange>, c: nat) {
    exists i :: 0 <= i < |rs| && Hit(rs[i], c)
  }

  ghost predicate SortedRanges(rs: seq<MortonRange>) {
    forall i, j :: 0 <= i < j < |rs| ==> rs[i].startCode <= rs[j].startCode
  }

  /** A range's successor code, in 64 bits. */
  function After(r: MortonRange): nat {
    (r.endCode + 1) % TWO64
  }

  function Later(a: MortonRange, b: MortonRange): MortonRange {
    a.(endCode := if a.endCode >= b.endCode then a.endCode else b.endCode)
  }

  /** The merging loop over ranges sorted by start. */
  function MergeSorted(current: MortonRange, rest: seq<MortonRange>): (merged: seq<MortonRange>)
    ensures merged != [] && merged[0].startCode == current.startCode
    decreases |rest|
  {
    if rest == [] then [current]
    else if rest[0].startCode <= After(current) then MergeSorted(Later(current, rest[0]), rest[1..])
    else [current] + MergeSorted(rest[0], rest[1..])
  }

  lemma CoveredConcat(a: seq<MortonRange>, b: seq<MortonRange>, c: nat)
    ensures Covered(a + b, c) <==> Covered(a, c) || Covered(b, c)
  {
    var rs := a + b;
    if Covered(a, c) {
      var i :| 0 <= i < |a| && Hit(a[i], c);
      assert Hit(rs[i], c);
    }
    if Covered(b, c) {
      var i :| 0 <= i < |b| && Hit(b[i], c);
      assert Hit(rs[|a| + i], c);
    }
    if Covered(rs, c) {
      var i :| 0 <= i < |rs| && Hit(rs[i], c);
      assert i < |a| ==> Hit(a[i], c);
      assert i >= |a| ==> Hit(b[i - |a|], c);
    }
  }

  lemma CoveredOne(r: MortonRange, c: nat)
    ensures Covered([r], c) <==> Hit(r, c)
  {
    assert Hit([r][0], c) == Hit(r, c);
  }

  /** Merging covers exactly the codes its input covers, even where the successor wraps. */
  lemma {:induction false} MergeCovers(current: MortonRange, rest: seq<MortonRange>, c: nat)
    requires SortedRanges([current] + rest) && forall i :: 0 <= i < |rest| ==> rest[i].endCode < TWO64
    requires current.endCode < TWO64
    ensures Covered(MergeSorted(current, rest), c) <==> Covered([current] + rest, c)
    decreases |rest|
  {
    var all := [current] + rest;
    if rest == [] {
      assert all == [current];
    } else {
      var next := if rest[0].startCode <= After(current) then Later(current, rest[0]) else rest[0];
      assert all[0] == current && all[1] == rest[0];
      forall i, j | 0 <= i < j < |[next] + rest[1..]|
        ensures ([next] + rest[1..])[i].startCode <= ([next] + rest[1..])[j].startCode
      {
        assert i > 0 ==> ([next] + rest[1..])[i] == all[i + 1];
        assert ([next] + rest[1..])[j] == all[j + 1];
        assert all[0].startCode <= all[j + 1].startCode && all[1].startCode <= all[j + 1].startCode;
      }
      MergeCovers(next, rest[1..], c);
      assert rest == [rest[0]] + rest[1..];
      CoveredConcat([current], rest, c);
      CoveredConcat([rest[0]], rest[1..], c);
      CoveredConcat([next], rest[1..], c);
      CoveredOne(current, c);
      CoveredOne(rest[0], c);
      CoveredOne(next, c);
      if rest[0].startCode > After(current) {
        CoveredConcat([current], MergeSorted(rest[0], rest[1..]), c);
      }
    }
  }

  /** Neighbours leave at least one code between them. */
  ghost predicate Separated(rs: seq<MortonRange>)
    decreases |rs|
  {
    |rs| <= 1 || (rs[0].endCode + 1 < rs[1].startCode && Separated(rs[1..]))
  }

  ghost predicate WellFormed(rs: seq<MortonRange>) {
    forall i :: 0 <= i < |rs| ==> rs[i].startCode <= rs[i].endCode < TWO64
  }

  /** No range up to the greatest code stands before one that starts above 0. */
  ghost predicate NoWrap(rs: seq<MortonRange>) {
    forall i, j :: 0 <= i < j < |rs| && rs[i].endCode == TWO64 - 1 ==> rs[j].startCode == 0
  }

  /** The successor of the greatest code wraps to 0, and that is exactly when merging leaves overlaps. */
  lemma {:induction false} MergeSeparates(current: MortonRange, rest: seq<MortonRange>)
    requires SortedRanges([current] + rest) && WellFormed([current] + rest)
    ensures Separated(MergeSorted(current, rest)) <==> NoWrap([current] + rest)
    decreases |rest|
  {
    if rest != [] {
      var all := [current] + rest;
      var joined := rest[0].startCode <= After(current);
      var next := if joined then Later(current, rest[0]) else rest[0];
      var tail := [next] + rest[1..];
      assert all[0] == current && all[1] == rest[0] && forall i :: 1 <= i < |tail| ==> tail[i] == all[i + 1];
      assert SortedRanges(tail) && WellFormed(tail) by {
        forall i, j | 0 <= i < j < |tail| ensures tail[i].startCode <= tail[j].startCode {
          assert all[0].startCode <= all[j + 1].startCode && all[1].startCode <= all[j + 1].startCode;
        }
      }
      MergeSeparates(next, rest[1..]);
      WrapStep(all, tail, joined);
      if !joined {
        var merged := MergeSorted(rest[0], rest[1..]);
        assert ([current] + merged)[1..] == merged;
      }
    }
  }

  lemma WrapStep(all: seq<MortonRange>, tail: seq<MortonRange>, joined: bool)
    requires SortedRanges(all) && WellFormed(all) && |all| >= 2 && |tail| == |all| - 1
    requires joined <==> all[1].startCode <= After(all[0])
    requires tail[0] == if joined then Later(all[0], all[1]) else all[1]
    requires forall i :: 1 <= i < |tail| ==> tail[i] == all[i + 1]
    ensures NoWrap(all) <==> NoWrap(tail) && (joined || all[0].endCode < TWO64 - 1)
  {
    if NoWrap(all) {
      forall i, j | 0 <= i < j < |tail| && tail[i].endCode == TWO64 - 1 ensures tail[j].startCode == 0 {
        assert i > 0 ==> tail[i] == all[i + 1];
        assert tail[j] == all[j + 1];
        assert i == 0 ==> all[0].endCode == TWO64 - 1 || all[1].endCode == TWO64 - 1;
      }
      if all[0].endCode == TWO64 - 1 { assert all[1].startCode == 0; }
    }
    if NoWrap(tail) && (joined || all[0].endCode < TWO64 - 1) {
      forall i, j | 0 <= i < j < |all| && all[i].endCode == TWO64 - 1 ensures all[j].startCode == 0 {
        assert j > 1 ==> all[j] == tail[j - 1];
        assert i > 1 ==> all[i] == tail[i - 1];
        assert i <= 1 && joined ==> tail[0].endCode == TWO64 - 1;
      }
    }
  }

  lemma InsertedSorted(a: seq<MortonRange>, r: MortonRange, b: seq<MortonRange>)
    requires SortedRanges(a + b) && (a != [] ==> a[|a| - 1].startCode <= r.startCode)
    requires forall j :: 0 <= j < |b| ==> b[j].startCode > r.startCode
    ensures SortedRanges(a + [r] + b)
  {
    var rs, all := a + b, a + [r] + b;
    assert a != [] ==> rs[|a| - 1] == a[|a| - 1];
    forall i, j | 0 <= i < j < |all| ensures all[i].startCode <= all[j].startCode {
      assert i < |a| ==> all[i] == rs[i] && rs[i].startCode <= rs[|a| - 1].startCode;
      assert j == |a| ==> all[j] == r;
      assert j < |a| ==> all[j] == rs[j];
      assert i == |a| ==> all[i] == r && all[j] == b[j - |a| - 1];
      assert i > |a| ==> all[i] == rs[i - 1];
      assert j > |a| ==> all[j] == rs[j - 1];
    }
  }

  function InsertAt(rs: seq<MortonRange>, at: nat, r: MortonRange): (all: seq<MortonRange>)
    requires at <= |rs|
    ensures multiset(all) == multiset(rs) + multiset{r} && |all| == |rs| + 1
  {
    assert rs == rs[..at] + rs[at..];
    rs[..at] + [r] + rs[at..]
  }

  lemma InsertAtSorted(rs: seq<MortonRange>, at: nat, r: MortonRange)
    requires SortedRanges(rs) && at <= |rs| && (at > 0 ==> rs[at - 1].startCode <= r.startCode)
    requires forall j :: at <= j < |rs| ==> rs[j].startCode > r.startCode
    ensures SortedRanges(InsertAt(rs, at, r))
  {
    assert rs == rs[..at] + rs[at..];
    InsertedSorted(rs[..at], r, rs[at..]);
  }

  method Insert(rs: seq<MortonRange>, r: MortonRange) returns (all: seq<MortonRange>)
    requires SortedRanges(rs)
    ensures SortedRanges(all) && multiset(all) == multiset(rs) + multiset{r} && |all| == |rs| + 1
  {
    var at := |rs|;
    while at > 0 && rs[at - 1].startCode > r.startCode
      invariant 0 <= at <= |rs|
      invariant forall j :: at <= j < |rs| ==> rs[j].startCode > r.startCode
    {
      at := at - 1;
    }
    InsertAtSorted(rs, at, r);
    all := InsertAt(rs, at, r);
  }

  /** Any order by start that `std::sort` may leave. */
  method SortByStart(raw: seq<MortonRange>) returns (sorted: seq<MortonRange>)
    ensures SortedRanges(sorted) && multiset(sorted) == multiset(raw) && |sorted| == |raw|
  {
    sorted := [];
    for i := 0 to |raw|
      invariant SortedRanges(sorted) && multiset(sorted) == multiset(raw[..i]) && |sorted| == i
    {
      assert raw[..i + 1] == raw[..i] + [raw[i]];
      sorted := Insert(sorted, raw[i]);
    }
    assert raw[..|raw|] == raw;
  }

  /** What the loop makes of the ranges in one of the orders sorting may give. */
  ghost predicate IsMerge(raw: seq<MortonRange>, merged: seq<MortonRange>) {
    exists sorted :: SortedRanges(sorted) && multiset(sorted) == multiset(raw) && merged == MergeOf(sorted)
  }

  function MergeOf(sorted: seq<MortonRange>): seq<MortonRange> {
    if sorted == [] then [] else MergeSorted(sorted[0], sorted[1..])
  }

  /** Merging changes no covered code and leaves a gap between neighbours, up to the greatest code. */
  method MergeRanges(raw: seq<MortonRange>) returns (merged: seq<MortonRange>)
    requires forall i :: 0 <= i < |raw| ==> raw[i].endCode < TWO64
    ensures IsMerge(raw, merged)
    ensures forall c :: Covered(merged, c) <==> Covered(raw, c)
    ensures WellFormed(raw) && BelowGreatest(raw) ==> Separated(merged)
  {
    var order := SortByStart(raw);
    merged := MergeInOrder(order);
    assert IsMerge(raw, merged);
    forall c ensures Covered(merged, c) <==> Covered(raw, c) {
      MergedCovers(raw, merged, c);
    }
    if WellFormed(raw) && BelowGreatest(raw) {
      MergedSeparated(raw, merged);
    }
  }

  method MergeInOrder(order: seq<MortonRange>) returns (merged: seq<MortonRange>)
    ensures merged == MergeOf(order)
  {
    if order == [] {
      return [];
    }
    merged := [];
    var current := order[0];
    for i := 1 to |order|
      invariant merged + MergeSorted(current, order[i..]) == MergeSorted(order[0], order[1..])
    {
      if order[i].startCode <= After(current) {
        current := Later(current, order[i]);
      } else {
        merged := merged + [current];
        current := order[i];
      }
    }
    merged := merged + [current];
  }

  ghost predicate BelowGreatest(rs: seq<MortonRange>) {
    forall i :: 0 <= i < |rs| ==> rs[i].endCode < TWO64 - 1
  }

  lemma SameRanges(a: seq<MortonRange>, b: seq<MortonRange>, c: nat)
    requires multiset(a) == multiset(b)
    ensures Covered(a, c) <==> Covered(b, c)
    ensures WellFormed(a) <==> WellFormed(b)
  {
    assert forall r :: r in a <==> r in b by {
      forall r ensures r in a <==> r in b {
        assert r in a <==> r in multiset(a);
        assert r in b <==> r in multiset(b);
      }
    }
    SomeRange(a, b, c);
    SomeRange(b, a, c);
  }

  lemma SomeRange(a: seq<MortonRange>, b: seq<MortonRange>, c: nat)
    requires forall r :: r in a ==> r in b
    ensures Covered(a, c) ==> Covered(b, c)
    ensures WellFormed(b) ==> WellFormed(a)
  {
    if Covered(a, c) {
      var i :| 0 <= i < |a| && Hit(a[i], c);
      assert a[i] in b;
      var j :| 0 <= j < |b| && b[j] == a[i];
      assert Hit(b[j], c);
    }
    forall i | 0 <= i < |a| && WellFormed(b) ensures a[i].startCode <= a[i].endCode < TWO64 {
      assert a[i] in b;
    }
  }

  // ----- the whole generator -----

  /** Corners in either order, as rounding leaves them. */
  function Ordered(a: BoxNode): BoxNode {
    BoxNode(if a.x1 > a.x2 then a.x2 else a.x1, if a.y1 > a.y2 then a.y2 else a.y1, if a.z1 > a.z2 then a.z2 else a.z1,
            if a.x1 > a.x2 then a.x1 else a.x2, if a.y1 > a.y2 then a.y1 else a.y2, if a.z1 > a.z2 then a.z1 else a.z2)
  }

  // ----- blocks of 21 bits -----

  /** Codes see coordinates modulo 2 to the power 21.  Between these two coordinates the residues run
      from the first one's to the last one's. */
  predicate AxisFits(lo: nat, hi: nat) {
    lo / GRID == hi / GRID || (lo % GRID == 0 && hi % GRID == GRID - 1)
  }

  predicate AxesFit(b: BoxNode) {
    AxisFits(b.x1, b.x2) && AxisFits(b.y1, b.y2) && AxisFits(b.z1, b.z2)
  }

  /** On every axis both corners lie in one block of 2 to the power 21. */
  predicate OneBlock(b: BoxNode) {
    b.x1 / GRID == b.x2 / GRID && b.y1 / GRID == b.y2 / GRID && b.z1 / GRID == b.z2 / GRID
  }

  lemma {:induction false} SpreadPlus(n: nat, q: nat, k: nat)
    ensures Spread(n + Pow2(k) * q, k) == Spread(n, k)
  {
    if k > 0 {
      var p := Pow2(k - 1);
      HalfPlus(n, p * q);
      assert Pow2(k) * q == 2 * (p * q);
      SpreadPlus(n / 2, q, k - 1);
    }
  }

  lemma HalfPlus(n: nat, m: nat)
    ensures (n + 2 * m) / 2 == n / 2 + m && (n + 2 * m) % 2 == n % 2
  {
  }

  lemma SpreadResidue(n: nat)
    ensures Spread(n, 21) == Spread(n % GRID, 21)
  {
    Grid21();
    SpreadPlus(n % GRID, n / GRID, 21);
  }

  lemma CodeResidue(x: nat, y: nat, z: nat)
    ensures MortonCode(x, y, z) == MortonCode(x % GRID, y % GRID, z % GRID)
  {
    CodeInterleaves(x, y, z);
    CodeInterleaves(x % GRID, y % GRID, z % GRID);
    SpreadResidue(x);
    SpreadResidue(y);
    SpreadResidue(z);
  }

  /** The code grows with every residue. */
  lemma ResidueMonotone(x: nat, y: nat, z: nat, x': nat, y': nat, z': nat)
    requires x % GRID <= x' % GRID && y % GRID <= y' % GRID && z % GRID <= z' % GRID
    ensures MortonCode(x, y, z) <= MortonCode(x', y', z')
    ensures x % GRID < x' % GRID || y % GRID < y' % GRID || z % GRID < z' % GRID ==>
      MortonCode(x, y, z) < MortonCode(x', y', z')
  {
    CodeResidue(x, y, z);
    CodeResidue(x', y', z');
    CodeMonotone(x % GRID, y % GRID, z % GRID, x' % GRID, y' % GRID, z' % GRID);
  }

  lemma AxisBetween(lo: nat, v: nat, hi: nat)
    requires lo <= v <= hi && AxisFits(lo, hi)
    ensures lo % GRID <= v % GRID <= hi % GRID
  {
    if lo / GRID == hi / GRID { assert v / GRID == lo / GRID; }
  }

  /** Where an axis does not fit, some coordinate between has a residue below the first or above the last. */
  lemma AxisMisfit(lo: nat, hi: nat) returns (v: nat)
    requires lo <= hi && !AxisFits(lo, hi)
    ensures lo <= v <= hi && (v % GRID < lo % GRID || hi % GRID < v % GRID)
  {
    if lo % GRID > 0 {
      v := (lo / GRID + 1) * GRID;
      assert v % GRID == 0;
    } else {
      v := hi / GRID * GRID - 1;
      BelowBlock(hi / GRID);
    }
  }

  lemma BelowBlock(q: nat)
    requires q > 0
    ensures (q * GRID - 1) % GRID == GRID - 1
  {
    assert q * GRID - 1 == (q - 1) * GRID + (GRID - 1);
  }

  lemma FitHits(b: BoxNode, v: Voxel)
    requires AxesFit(b) && In(b, v)
    ensures Hit(RangeOf(b), MortonCode(v.x, v.y, v.z))
  {
    AxisBetween(b.x1, v.x, b.x2);
    AxisBetween(b.y1, v.y, b.y2);
    AxisBetween(b.z1, v.z, b.z2);
    ResidueMonotone(b.x1, b.y1, b.z1, v.x, v.y, v.z);
    ResidueMonotone(v.x, v.y, v.z, b.x2, b.y2, b.z2);
  }

  lemma MisfitLosesX(b: BoxNode) returns (v: Voxel)
    requires Proper(b) && !AxisFits(b.x1, b.x2)
    ensures In(b, v) && !Hit(RangeOf(b), MortonCode(v.x, v.y, v.z))
  {
    var w := AxisMisfit(b.x1, b.x2);
    v := if w % GRID < b.x1 % GRID then Voxel(w, b.y1, b.z1) else Voxel(w, b.y2, b.z2);
    if w % GRID < b.x1 % GRID {
      ResidueMonotone(v.x, v.y, v.z, b.x1, b.y1, b.z1);
    } else {
      ResidueMonotone(b.x2, b.y2, b.z2, v.x, v.y, v.z);
    }
  }

  lemma MisfitLosesY(b: BoxNode) returns (v: Voxel)
    requires Proper(b) && !AxisFits(b.y1, b.y2)
    ensures In(b, v) && !Hit(RangeOf(b), MortonCode(v.x, v.y, v.z))
  {
    var w := AxisMisfit(b.y1, b.y2);
    v := if w % GRID < b.y1 % GRID then Voxel(b.x1, w, b.z1) else Voxel(b.x2, w, b.z2);
    if w % GRID < b.y1 % GRID {
      ResidueMonotone(v.x, v.y, v.z, b.x1, b.y1, b.z1);
    } else {
      ResidueMonotone(b.x2, b.y2, b.z2, v.x, v.y, v.z);
    }
  }

  lemma MisfitLosesZ(b: BoxNode) returns (v: Voxel)
    requires Proper(b) && !AxisFits(b.z1, b.z2)
    ensures In(b, v) && !Hit(RangeOf(b), MortonCode(v.x, v.y, v.z))
  {
    var w := AxisMisfit(b.z1, b.z2);
    v := if w % GRID < b.z1 % GRID then Voxel(b.x1, b.y1, w) else Voxel(b.x2, b.y2, w);
    if w % GRID < b.z1 % GRID {
      ResidueMonotone(v.x, v.y, v.z, b.x1, b.y1, b.z1);
    } else {
      ResidueMonotone(b.x2, b.y2, b.z2, v.x, v.y, v.z);
    }
  }

  ghost predicate HoldsAll(rs: seq<MortonRange>, b: BoxNode) {
    forall v :: In(b, v) ==> Covered(rs, MortonCode(v.x, v.y, v.z))
  }

  /** The range between the codes of a box's corners holds the code of every voxel of the box exactly if
      on each axis the corners lie in one block, or the first starts its block and the last ends its. */
  lemma RangeHoldsBox(b: BoxNode)
    requires Proper(b)
    ensures HoldsAll([RangeOf(b)], b) <==> AxesFit(b)
  {
    if AxesFit(b) {
      forall v | In(b, v) ensures Covered([RangeOf(b)], MortonCode(v.x, v.y, v.z)) {
        FitHits(b, v);
        CoveredOne(RangeOf(b), MortonCode(v.x, v.y, v.z));
      }
    } else {
      var v := Misfit(b);
      CoveredOne(RangeOf(b), MortonCode(v.x, v.y, v.z));
    }
  }

  lemma Misfit(b: BoxNode) returns (v: Voxel)
    requires Proper(b) && !AxesFit(b)
    ensures In(b, v) && !Hit(RangeOf(b), MortonCode(v.x, v.y, v.z))
  {
    if !AxisFits(b.x1, b.x2) {
      v := MisfitLosesX(b);
    } else if !AxisFits(b.y1, b.y2) {
      v := MisfitLosesY(b);
    } else {
      v := MisfitLosesZ(b);
    }
  }

  // ----- the generator, stated on the corners it is given -----

  /** Between two coordinates, whichever is the lower one. */
  predicate Between(a: nat, b: nat, v: nat) {
    a <= v <= b || b <= v <= a
  }

  predicate InCorners(c: BoxNode, v: Voxel) {
    Between(c.x1, c.x2, v.x) && Between(c.y1, c.y2, v.y) && Between(c.z1, c.z2, v.z)
  }

  /** The codes of all voxels between the corners are covered. */
  ghost predicate HoldsCorners(rs: seq<MortonRange>, c: BoxNode) {
    forall v :: InCorners(c, v) ==> Covered(rs, MortonCode(v.x, v.y, v.z))
  }

  /** Every covered code lies between the corner codes of a box inside the corners whose extents multiply,
      in 64 bits, to less than 64. */
  ghost predicate Tight(rs: seq<MortonRange>, c: BoxNode) {
    forall code :: Covered(rs, code) ==> exists b :: SmallBetween(b, c, code)
  }

  predicate SmallBetween(b: BoxNode, c: BoxNode, code: nat) {
    b.x1 <= b.x2 && b.y1 <= b.y2 && b.z1 <= b.z2 &&
    InCorners(c, Voxel(b.x1, b.y1, b.z1)) && InCorners(c, Voxel(b.x2, b.y2, b.z2)) &&
    ((b.x2 - b.x1) * (b.y2 - b.y1) * (b.z2 - b.z1)) % 0x1_0000_0000_0000_0000 < 64 &&
    MortonCode(b.x1, b.y1, b.z1) <= code <= MortonCode(b.x2, b.y2, b.z2)
  }

  function Gap(a: nat, b: nat): nat {
    if a <= b then b - a else a - b
  }

  /** Corners so close that the box is not split. */
  predicate SmallCorners(c: BoxNode) {
    (Gap(c.x1, c.x2) * Gap(c.y1, c.y2) * Gap(c.z1, c.z2)) % 0x1_0000_0000_0000_0000 < 64
  }

  /** On one axis: in one block, or from the start of a block to the end of one. */
  predicate EndsFit(a: nat, b: nat) {
    a / GRID == b / GRID ||
    (a <= b && a % GRID == 0 && b % GRID == GRID - 1) || (b <= a && b % GRID == 0 && a % GRID == GRID - 1)
  }

  predicate CornersFit(c: BoxNode) {
    EndsFit(c.x1, c.x2) && EndsFit(c.y1, c.y2) && EndsFit(c.z1, c.z2)
  }

  lemma OrderedHolds(c: BoxNode, v: Voxel)
    ensures In(Ordered(c), v) <==> InCorners(c, v)
  {
  }

  lemma OrderedFits(c: BoxNode)
    ensures Proper(Ordered(c)) && (OneBlock(c) <==> OneBlock(Ordered(c))) && (CornersFit(c) <==> AxesFit(Ordered(c)))
  {
  }

  lemma OrderedSmall(c: BoxNode)
    ensures SmallCorners(c) <==> IsLeaf(Ordered(c))
  {
    var b := Ordered(c);
    assert b.x2 - b.x1 == Gap(c.x1, c.x2) && b.y2 - b.y1 == Gap(c.y1, c.y2) && b.z2 - b.z1 == Gap(c.z1, c.z2);
    if b.x2 - b.x1 == 0 && b.y2 - b.y1 == 0 && b.z2 - b.z1 == 0 { assert 0 * 0 * 0 == 0; }
  }

  lemma HoldsOrdered(rs: seq<MortonRange>, c: BoxNode)
    ensures HoldsAll(rs, Ordered(c)) <==> HoldsCorners(rs, c)
  {
    forall v ensures In(Ordered(c), v) <==> InCorners(c, v) { OrderedHolds(c, v); }
  }

  lemma LeafSmall(b: BoxNode, c: BoxNode, code: nat)
    requires Proper(b) && IsLeaf(b) && Inside(b, Ordered(c)) && Hit(RangeOf(b), code)
    ensures SmallBetween(b, c, code)
  {
    var dx, dy, dz := b.x2 - b.x1, b.y2 - b.y1, b.z2 - b.z1;
    if dx == 0 && dy == 0 && dz == 0 { assert dx * dy * dz == 0; }
    OrderedHolds(c, Voxel(b.x1, b.y1, b.z1));
    OrderedHolds(c, Voxel(b.x2, b.y2, b.z2));
  }

  lemma LeavesTight(c: BoxNode, leaves: seq<BoxNode>, raw: seq<MortonRange>, code: nat)
    requires Collected(Ordered(c), leaves, raw) && Covered(raw, code)
    ensures exists b :: SmallBetween(b, c, code)
  {
    var i :| 0 <= i < |raw| && Hit(raw[i], code);
    LeafSmall(leaves[i], c, code);
  }

  /** If on every axis both corners lie in one block of 2 to the power 21, the code of every voxel between the
      corners lies in some returned range, and the ranges are sorted with gaps between them.  If the corners
      are so close that nothing is split, every code is covered exactly if the corners fit the blocks.  In
      any case nothing is covered that does not lie between the corner codes of some small box inside. */
  method GenerateRanges(corners: BoxNode) returns (ranges: seq<MortonRange>)
    ensures OneBlock(corners) ==> HoldsCorners(ranges, corners) && Separated(ranges)
    ensures SmallCorners(corners) ==> (HoldsCorners(ranges, corners) <==> CornersFit(corners))
    ensures Tight(ranges, corners)
  {
    var box := Ordered(corners);
    var raw := SplitBox(box);
    ghost var leaves: seq<BoxNode> :| Partition(box, leaves, raw);
    CodesBelow(box, leaves, raw);
    ranges := MergeRanges(raw);
    OrderedFits(corners);
    HoldsOrdered(ranges, corners);
    if OneBlock(corners) {
      LeavesWellFormed(box, leaves, raw);
      forall v | In(box, v) ensures Covered(ranges, MortonCode(v.x, v.y, v.z)) {
        LeavesCover(box, leaves, raw, v);
      }
    }
    OrderedSmall(corners);
    if SmallCorners(corners) { RangeHoldsBox(box); }
    forall code | Covered(ranges, code) ensures exists b :: SmallBetween(b, corners, code) {
      LeavesTight(corners, leaves, raw, code);
    }
  }

  lemma CodesBelow(box: BoxNode, leaves: seq<BoxNode>, raw: seq<MortonRange>)
    requires Collected(box, leaves, raw)
    ensures BelowGreatest(raw)
  {
    forall i | 0 <= i < |raw| ensures raw[i].endCode < TWO64 - 1 {
      CodeBound(leaves[i].x2, leaves[i].y2, leaves[i].z2);
    }
  }

  lemma InBlock(b: BoxNode, outer: BoxNode)
    requires Proper(b) && Inside(b, outer) && OneBlock(outer)
    ensures AxesFit(b)
  {
  }

  lemma LeavesWellFormed(box: BoxNode, leaves: seq<BoxNode>, raw: seq<MortonRange>)
    requires OneBlock(box) && Partition(box, leaves, raw)
    ensures WellFormed(raw)
  {
    forall i | 0 <= i < |raw| ensures raw[i].startCode <= raw[i].endCode < TWO64 {
      var b := leaves[i];
      InBlock(b, box);
      FitHits(b, Voxel(b.x1, b.y1, b.z1));
      CodeBound(b.x2, b.y2, b.z2);
    }
  }

  lemma LeavesCover(box: BoxNode, leaves: seq<BoxNode>, raw: seq<MortonRange>, v: Voxel)
    requires OneBlock(box) && In(box, v) && Partition(box, leaves, raw)
    ensures Covered(raw, MortonCode(v.x, v.y, v.z))
  {
    SomeBox(leaves, v);
    var i :| 0 <= i < |leaves| && In(leaves[i], v);
    InBlock(leaves[i], box);
    FitHits(leaves[i], v);
    assert Hit(raw[i], MortonCode(v.x, v.y, v.z));
  }

  /** Sorting and merging keep the covered codes. */
  lemma MergedCovers(raw: seq<MortonRange>, merged: seq<MortonRange>, c: nat)
    requires IsMerge(raw, merged) && forall i :: 0 <= i < |raw| ==> raw[i].endCode < TWO64
    ensures Covered(merged, c) <==> Covered(raw, c)
  {
    var sorted: seq<MortonRange> :| SortedRanges(sorted) && multiset(sorted) == multiset(raw) && merged == MergeOf(sorted);
    SameRanges(sorted, raw, c);
    if sorted != [] {
      forall i | 0 <= i < |sorted| ensures sorted[i].endCode < TWO64 {
        assert sorted[i] in multiset(raw);
        assert sorted[i] in raw;
      }
      assert sorted == [sorted[0]] + sorted[1..];
      MergeCovers(sorted[0], sorted[1..], c);
    }
  }

  lemma MergedSeparated(raw: seq<MortonRange>, merged: seq<MortonRange>)
    requires IsMerge(raw, merged) && WellFormed(raw) && BelowGreatest(raw)
    ensures Separated(merged)
  {
    var sorted: seq<MortonRange> :| SortedRanges(sorted) && multiset(sorted) == multiset(raw) && merged == MergeOf(sorted);
    SameRanges(sorted, raw, 0);
    if sorted != [] {
      forall i | 0 <= i < |sorted| ensures sorted[i].endCode < TWO64 - 1 {
        assert sorted[i] in multiset(raw);
        assert sorted[i] in raw;
      }
      assert sorted == [sorted[0]] + sorted[1..];
      MergeSeparates(sorted[0], sorted[1..]);
    }
  }

  /** Reaching beyond 21 bits loses a code or not, depending on where the blocks begin: of two boxes of
      two voxels each, one across a boundary and one behind it, only the first loses one. */
  lemma BeyondGrid(g: nat)
    requires g == GRID
    ensures var b := BoxNode(g - 1, 0, 0, g, 0, 0); IsLeaf(b) && !HoldsAll([RangeOf(b)], b)
    ensures var b := BoxNode(g, 0, 0, g + 1, 0, 0); IsLeaf(b) && HoldsAll([RangeOf(b)], b)
  {
    FlatIsLeaf(BoxNode(g - 1, 0, 0, g, 0, 0));
    FlatIsLeaf(BoxNode(g, 0, 0, g + 1, 0, 0));
    RangeHoldsBox(BoxNode(g - 1, 0, 0, g, 0, 0));
    RangeHoldsBox(BoxNode(g, 0, 0, g + 1, 0, 0));
  }
}
