/** The memtable: a skip list of linked nodes whose towers are chosen at random. */
module SkipLists {
  import opened ByteStrings

  class Node<V> {
    const key: Bytes
    var value: V
    var forward: seq<Node?<V>>

    constructor (key: Bytes, value: V, level: nat)
      ensures this.key == key && this.value == value
      ensures forward == seq(level, _ => null)
    {
      this.key := key;
      this.value := value;
      forward := seq(level, _ => null);
    }
  }

  // ----- the shape, on values: `spine` lists the nodes in bottom-level order with the head at
  // position 0, and `h[p]` is the height of the tower of node p -----

  /** The next position after `p` whose tower reaches level `i`, or the end. */
  ghost function NextAt(h: seq<nat>, p: nat, i: nat): (q: nat)
    requires p < |h|
    ensures p < q <= |h|
    ensures q < |h| ==> h[q] > i
    ensures forall j :: p < j < q ==> h[j] <= i
    decreases |h| - p
  {
    if p + 1 == |h| || h[p + 1] > i then p + 1 else NextAt(h, p + 1, i)
  }

  ghost predicate IsNext(h: seq<nat>, p: nat, i: nat, q: nat) {
    p < q <= |h| && (q < |h| ==> h[q] > i) && forall j :: p < j < q ==> h[j] <= i
  }

  lemma NextUnique(h: seq<nat>, p: nat, i: nat, q: nat)
    requires IsNext(h, p, i, q)
    ensures NextAt(h, p, i) == q
  {
  }

  /** `p` is the last position before `k` whose tower reaches level `i`. */
  ghost predicate Before(h: seq<nat>, k: nat, i: nat, p: nat) {
    p < k <= |h| && h[p] > i && forall j :: p < j < k ==> h[j] <= i
  }

  lemma BeforeUnique(h: seq<nat>, k: nat, i: nat, p: nat, q: nat)
    requires Before(h, k, i, p) && Before(h, k, i, q)
    ensures p == q
  {
  }

  lemma LastIsPrevious(h: seq<nat>, k: nat, p: nat)
    requires Before(h, k, 0, p)
    requires forall q :: 1 <= q < |h| ==> h[q] > 0
    ensures p == k - 1
  {
    var next := if p + 1 < |h| then h[p + 1] else 1;
    assert next > 0;
  }

  ghost function Spliced<T>(s: seq<T>, k: nat, x: T): seq<T>
    requires k <= |s|
  {
    s[..k] + [x] + s[k..]
  }

  ghost function Dropped<T>(s: seq<T>, k: nat): seq<T>
    requires k < |s|
  {
    s[..k] + s[k + 1..]
  }

  lemma SplicedAt<T>(s: seq<T>, k: nat, x: T)
    requires k <= |s|
    ensures |Spliced(s, k, x)| == |s| + 1 && Spliced(s, k, x)[k] == x
    ensures forall j :: 0 <= j < k ==> Spliced(s, k, x)[j] == s[j]
    ensures forall j :: k <= j < |s| ==> Spliced(s, k, x)[j + 1] == s[j]
    ensures forall j :: k < j <= |s| ==> Spliced(s, k, x)[j] == s[j - 1]
  {
  }

  /** Where the links lead after a tower of height `level` is spliced in at position `k`: links from
      below `k` that passed over it now stop at it if it is tall enough, and its own links take over. */
  lemma NextSpliced(h: seq<nat>, h': seq<nat>, k: nat, level: nat, p: nat, i: nat)
    requires 1 <= k <= |h| && p < |h| && h[p] > i && h' == Spliced(h, k, level)
    ensures p >= k ==> NextAt(h', p + 1, i) == NextAt(h, p, i) + 1
    ensures p < k && NextAt(h, p, i) < k ==> NextAt(h', p, i) == NextAt(h, p, i)
    ensures p < k <= NextAt(h, p, i) && i < level ==> NextAt(h', p, i) == k && NextAt(h', k, i) == NextAt(h, p, i) + 1
    ensures p < k <= NextAt(h, p, i) && i >= level ==> NextAt(h', p, i) == NextAt(h, p, i) + 1
  {
    var q := NextAt(h, p, i);
    SplicedNext(h, h', k, level, p, i, q);
    if p >= k {
      NextUnique(h', p + 1, i, q + 1);
    } else if q < k {
      NextUnique(h', p, i, q);
    } else if i < level {
      NextUnique(h', p, i, k);
      NextUnique(h', k, i, q + 1);
    } else {
      NextUnique(h', p, i, q + 1);
    }
  }

  lemma SplicedNext(h: seq<nat>, h': seq<nat>, k: nat, level: nat, p: nat, i: nat, q: nat)
    requires 1 <= k <= |h| && p < |h| && h' == Spliced(h, k, level) && IsNext(h, p, i, q)
    ensures p >= k ==> IsNext(h', p + 1, i, q + 1)
    ensures p < k && q < k ==> IsNext(h', p, i, q)
    ensures p < k <= q && i < level ==> IsNext(h', p, i, k) && IsNext(h', k, i, q + 1)
    ensures p < k <= q && i >= level ==> IsNext(h', p, i, q + 1)
  {
    SplicedAt(h, k, level);
  }

  /** Where the links lead after the tower at position `k` is taken out. */
  lemma NextDropped(h: seq<nat>, k: nat, p: nat, i: nat)
    requires 1 <= k < |h| && p < |h| && h[p] > i && p != k
    ensures p < k && NextAt(h, p, i) < k ==> NextAt(Dropped(h, k), p, i) == NextAt(h, p, i)
    ensures p < k && NextAt(h, p, i) == k ==> NextAt(Dropped(h, k), p, i) == NextAt(h, k, i) - 1
    ensures p < k && NextAt(h, p, i) > k ==> NextAt(Dropped(h, k), p, i) == NextAt(h, p, i) - 1
    ensures p > k ==> NextAt(Dropped(h, k), p - 1, i) == NextAt(h, p, i) - 1
  {
    var h', q := Dropped(h, k), NextAt(h, p, i);
    if p > k {
      NextUnique(h', p - 1, i, q - 1);
    } else if q < k {
      NextUnique(h', p, i, q);
    } else if q == k {
      NextUnique(h', p, i, NextAt(h, k, i) - 1);
    } else {
      NextUnique(h', p, i, q - 1);
    }
  }

  // ----- the nodes -----

  ghost function Heights<T>(links: seq<seq<T>>): (h: seq<nat>)
    ensures |h| == |links|
    ensures forall p :: 0 <= p < |h| ==> h[p] == |links[p]|
  {
    seq(|links|, p requires 0 <= p < |links| => |links[p]|)
  }

  ghost function Target<V>(spine: seq<Node<V>>, q: nat): Node?<V>
    requires q <= |spine|
  {
    if q == |spine| then null else spine[q]
  }

  /** Every level is the subchain of the spine made of the towers that reach it. */
  ghost predicate Linked<V>(spine: seq<Node<V>>, links: seq<seq<Node?<V>>>) {
    |links| == |spine| &&
    forall p, i {:trigger LinkOk(spine, links, p, i)} ::
      0 <= p < |links| && 0 <= i < |links[p]| ==> LinkOk(spine, links, p, i)
  }

  ghost predicate LinkOk<V>(spine: seq<Node<V>>, links: seq<seq<Node?<V>>>, p: nat, i: nat)
    requires p < |links| == |spine| && i < |links[p]|
  {
    links[p][i] == Target(spine, NextAt(Heights(links), p, i))
  }

  ghost predicate SortedSpine<V>(spine: seq<Node<V>>) {
    forall p, q :: 1 <= p < q < |spine| ==> Rank(spine[p].key) < Rank(spine[q].key)
  }

  /** The first position after the head whose key is not below `key`. */
  ghost function Position<V>(spine: seq<Node<V>>, key: Bytes, from: nat := 1): (k: nat)
    requires 1 <= from <= |spine|
    ensures from <= k <= |spine|
    ensures forall p :: from <= p < k ==> Rank(spine[p].key) < Rank(key)
    ensures k < |spine| ==> Rank(spine[k].key) >= Rank(key)
    decreases |spine| - from
  {
    if from == |spine| || Rank(spine[from].key) >= Rank(key) then from else Position(spine, key, from + 1)
  }

  ghost predicate OnSpine<V>(spine: seq<Node<V>>, key: Bytes) {
    exists p :: 1 <= p < |spine| && spine[p].key == key
  }

  lemma SortedUpTo<V>(spine: seq<Node<V>>, p: nat, q: nat)
    requires SortedSpine(spine) && 1 <= p <= q < |spine|
    ensures Rank(spine[p].key) <= Rank(spine[q].key)
  {
  }

  lemma NotBelowFrom<V>(spine: seq<Node<V>>, key: Bytes)
    requires |spine| > 0 && SortedSpine(spine)
    ensures forall p :: Position(spine, key) <= p < |spine| ==> Rank(spine[p].key) >= Rank(key)
  {
    var k := Position(spine, key);
    forall p | k <= p < |spine| ensures Rank(spine[p].key) >= Rank(key) {
      if k < p { assert Rank(spine[k].key) < Rank(spine[p].key); }
    }
  }

  /** `relinked` is `links` with level `i` of node `at[i]` redirected to `to[i]`. */
  ghost predicate Redirected<T>(links: seq<seq<T>>, relinked: seq<seq<T>>, at: seq<nat>, to: seq<T>)
    requires |to| <= |at|
  {
    |relinked| == |links| &&
    (forall p :: 0 <= p < |links| ==> |relinked[p]| == |links[p]|) &&
    forall p, i :: 0 <= p < |links| && 0 <= i < |links[p]| ==>
      relinked[p][i] == if i < |to| && p == at[i] then to[i] else links[p][i]
  }

  lemma RedirectedAt<T>(links: seq<seq<T>>, relinked: seq<seq<T>>, at: seq<nat>, to: seq<T>, p: nat, i: nat)
    requires |to| <= |at| && Redirected(links, relinked, at, to) && p < |links| && i < |links[p]|
    ensures relinked[p][i] == if i < |to| && p == at[i] then to[i] else links[p][i]
  {
  }

  lemma SameHeights<T>(links: seq<seq<T>>, relinked: seq<seq<T>>, at: seq<nat>, to: seq<T>)
    requires |to| <= |at| && Redirected(links, relinked, at, to)
    ensures Heights(relinked) == Heights(links)
  {
  }

  lemma RedirectNext<T>(links: seq<seq<T>>, relinked: seq<seq<T>>, at: seq<nat>, to: seq<T>, x: T)
    requires |to| < |at| && Redirected(links, relinked, at, to)
    requires at[|to|] < |links| && |to| < |links[at[|to|]]|
    ensures Redirected(links, relinked[at[|to|] := relinked[at[|to|]][|to| := x]], at, to + [x])
  {
  }

  ghost predicate NoRepeats<V>(spine: seq<Node<V>>) {
    forall p, q :: 0 <= p < q < |spine| ==> spine[p] != spine[q]
  }

  lemma NodesDistinct<V>(spine: seq<Node<V>>)
    requires SortedSpine(spine) && forall p :: 1 <= p < |spine| ==> spine[p] != spine[0]
    ensures NoRepeats(spine)
  {
    forall p, q | 0 <= p < q < |spine| ensures spine[p] != spine[q] {
      if p > 0 { assert Rank(spine[p].key) < Rank(spine[q].key); }
    }
  }

  lemma SpliceSorted<V>(spine: seq<Node<V>>, n: Node<V>)
    requires |spine| > 0 && SortedSpine(spine) && !OnSpine(spine, n.key)
    ensures SortedSpine(Spliced(spine, Position(spine, n.key), n))
  {
    var k := Position(spine, n.key);
    NotBelowFrom(spine, n.key);
    SplicedAt(spine, k, n);
    if k < |spine| && Rank(spine[k].key) == Rank(n.key) { SameRank(spine[k].key, n.key); }
    forall p | k <= p < |spine| ensures Rank(n.key) < Rank(spine[p].key) {
      SortedUpTo(spine, k, p);
    }
  }

  /** One link, before and after a tower of height `level` is spliced in at `k`. */
  lemma SpliceLink<V>(spine: seq<Node<V>>, k: nat, n: Node<V>, h: seq<nat>, h': seq<nat>, level: nat,
                      p: nat, i: nat, last: nat, link: Node?<V>, link': Node?<V>)
    requires 1 <= k <= |spine| == |h| && h' == Spliced(h, k, level)
    requires p < |h| && h[p] > i && link == Target(spine, NextAt(h, p, i))
    requires i < level ==> Before(h, k, i, last)
    requires link' == if i < level && p == last then n else link
    ensures p >= k ==> link' == Target(Spliced(spine, k, n), NextAt(h', p + 1, i))
    ensures p < k ==> link' == Target(Spliced(spine, k, n), NextAt(h', p, i))
    ensures i < level && p == last ==> link == Target(Spliced(spine, k, n), NextAt(h', k, i))
  {
    SplicedAt(spine, k, n);
    NextSpliced(h, h', k, level, p, i);
    if p < k && i < level && NextAt(h, p, i) >= k {
      BeforeUnique(h, k, i, p, last);
    }
  }

  lemma SpliceLinked<V>(spine: seq<Node<V>>, links: seq<seq<Node?<V>>>, at: seq<nat>, k: nat, n: Node<V>,
                        tower: seq<Node?<V>>, to: seq<Node?<V>>, relinked: seq<seq<Node?<V>>>)
    requires Linked(spine, links) && 1 <= k <= |spine|
    requires |to| == |tower| <= |at|
    requires forall i :: 0 <= i < |to| ==> Before(Heights(links), k, i, at[i]) && to[i] == n
    requires forall i :: 0 <= i < |to| ==> at[i] < |links| && i < |links[at[i]]| && tower[i] == links[at[i]][i]
    requires Redirected(links, relinked, at, to)
    ensures Linked(Spliced(spine, k, n), Spliced(relinked, k, tower))
  {
    var spine', links' := Spliced(spine, k, n), Spliced(relinked, k, tower);
    var h, h' := Heights(links), Heights(links');
    SplicedAt(relinked, k, tower);
    assert h' == Spliced(h, k, |tower|);
    forall p, i | 0 <= p < |links| && 0 <= i < |links[p]|
      ensures p >= k ==> relinked[p][i] == Target(spine', NextAt(h', p + 1, i))
      ensures p < k ==> relinked[p][i] == Target(spine', NextAt(h', p, i))
      ensures i < |to| && p == at[i] ==> tower[i] == Target(spine', NextAt(h', k, i))
    {
      assert LinkOk(spine, links, p, i);
      RedirectedAt(links, relinked, at, to, p, i);
      SpliceLink(spine, k, n, h, h', |tower|, p, i, if i < |to| then at[i] else 0, links[p][i], relinked[p][i]);
    }
    forall p', i | 0 <= p' < |links'| && 0 <= i < |links'[p']|
      ensures LinkOk(spine', links', p', i)
    {
      if p' < k {
        assert links'[p'] == relinked[p'];
        assert links'[p'][i] == Target(spine', NextAt(h', p', i));
      } else if p' == k {
        assert links'[p'][i] == tower[i] == links[at[i]][i];
        assert relinked[at[i]][i] == to[i];
        assert links'[p'][i] == Target(spine', NextAt(h', p', i));
      } else {
        assert links'[p'] == relinked[p' - 1];
        assert links'[p'][i] == Target(spine', NextAt(h', p', i));
      }
    }
  }

  lemma DropLink<V>(spine: seq<Node<V>>, k: nat, h: seq<nat>, h': seq<nat>,
                    p: nat, i: nat, last: nat, link: Node?<V>, bypass: Node?<V>, link': Node?<V>)
    requires 1 <= k < |spine| == |h| && h' == Dropped(h, k)
    requires p < |h| && h[p] > i && p != k && link == Target(spine, NextAt(h, p, i))
    requires i < h[k] ==> Before(h, k, i, last) && bypass == Target(spine, NextAt(h, k, i))
    requires link' == if i < h[k] && p == last then bypass else link
    ensures link' == Target(Dropped(spine, k), NextAt(h', if p < k then p else p - 1, i))
  {
    NextDropped(h, k, p, i);
    if p < k && NextAt(h, p, i) == k {
      BeforeUnique(h, k, i, p, last);
    }
  }

  lemma DroppedAt<T>(s: seq<T>, k: nat, q: nat)
    requires k < |s| && q < |Dropped(s, k)|
    ensures Dropped(s, k)[q] == s[if q < k then q else q + 1]
  {
  }

  lemma HeightsDropped<T>(links: seq<seq<T>>, k: nat)
    requires k < |links|
    ensures Heights(Dropped(links, k)) == Dropped(Heights(links), k)
  {
  }

  lemma Holds<V>(spine: seq<Node<V>>, links: seq<seq<Node?<V>>>, p: nat, i: nat, h: seq<nat>, link: Node?<V>)
    requires p < |links| == |spine| && i < |links[p]| && h == Heights(links)
    requires links[p][i] == link == Target(spine, NextAt(h, p, i))
    ensures LinkOk(spine, links, p, i)
  {
  }

  lemma DropOne<V>(spine: seq<Node<V>>, links: seq<seq<Node?<V>>>, k: nat,
                   relinked: seq<seq<Node?<V>>>, last: nat, p: nat, i: nat)
    requires 1 <= k < |spine| == |links| == |relinked| && Heights(relinked) == Heights(links)
    requires p != k && p < |spine| && i < |relinked[p]| == |links[p]| && LinkOk(spine, links, p, i)
    requires i < |links[k]| ==> LinkOk(spine, links, k, i) && Before(Heights(links), k, i, last)
    requires relinked[p][i] == if i < |links[k]| && p == last then links[k][i] else links[p][i]
    ensures LinkOk(Dropped(spine, k), Dropped(relinked, k), if p < k then p else p - 1, i)
  {
    var h := Heights(links);
    HeightsDropped(relinked, k);
    DroppedAt(relinked, k, if p < k then p else p - 1);
    DropLink(spine, k, h, Dropped(h, k), p, i, last, links[p][i],
             if i < |links[k]| then links[k][i] else null, relinked[p][i]);
    Holds(Dropped(spine, k), Dropped(relinked, k), if p < k then p else p - 1, i, Dropped(h, k), relinked[p][i]);
  }

  lemma DropAt<V>(spine: seq<Node<V>>, links: seq<seq<Node?<V>>>, at: seq<nat>, k: nat,
                  relinked: seq<seq<Node?<V>>>, p: nat, i: nat)
    requires Linked(spine, links) && 1 <= k < |spine| && |links[k]| <= |at|
    requires forall i :: 0 <= i < |links[k]| ==> Before(Heights(links), k, i, at[i])
    requires Redirected(links, relinked, at, links[k])
    requires p != k && p < |spine| && i < |relinked[p]|
    ensures LinkOk(Dropped(spine, k), Dropped(relinked, k), if p < k then p else p - 1, i)
  {
    SameHeights(links, relinked, at, links[k]);
    RedirectedAt(links, relinked, at, links[k], p, i);
    DropOne(spine, links, k, relinked, if i < |links[k]| then at[i] else 0, p, i);
  }

  lemma DropLinked<V>(spine: seq<Node<V>>, links: seq<seq<Node?<V>>>, at: seq<nat>, k: nat,
                      relinked: seq<seq<Node?<V>>>)
    requires Linked(spine, links) && 1 <= k < |spine| && |links[k]| <= |at|
    requires forall i :: 0 <= i < |links[k]| ==> Before(Heights(links), k, i, at[i])
    requires Redirected(links, relinked, at, links[k])
    ensures Linked(Dropped(spine, k), Dropped(relinked, k))
  {
    forall p', i | 0 <= p' < |Dropped(relinked, k)| && 0 <= i < |Dropped(relinked, k)[p']|
      ensures LinkOk(Dropped(spine, k), Dropped(relinked, k), p', i)
    {
      DroppedAt(relinked, k, p');
      DropAt(spine, links, at, k, relinked, if p' < k then p' else p' + 1, i);
    }
  }

  /** The towers: each level a sorted subchain of the one below, and none taller than `level`. */
  ghost predicate Towers<V>(spine: seq<Node<V>>, links: seq<seq<Node?<V>>>, maxLevel: nat, level: nat) {
    1 <= level <= maxLevel && |spine| == |links| >= 1 && |links[0]| == maxLevel &&
    (forall p :: 1 <= p < |spine| ==> spine[p] != spine[0] && 1 <= |links[p]| <= level) &&
    Linked(spine, links) && SortedSpine(spine)
  }

  /** ... and some tower reaches it. */
  ghost predicate Shape<V>(spine: seq<Node<V>>, links: seq<seq<Node?<V>>>, maxLevel: nat, level: nat) {
    Towers(spine, links, maxLevel, level) && (level > 1 ==> links[0][level - 1] != null)
  }

  /** The nodes after the head hold exactly the bindings of `model`. */
  ghost predicate Contents<V>(spine: seq<Node<V>>, values: seq<V>, model: map<Bytes, V>) {
    |spine| == |values| == |model| + 1 &&
    (forall p :: 1 <= p < |spine| ==> spine[p].key in model && model[spine[p].key] == values[p]) &&
    (forall key {:trigger OnSpine(spine, key)} :: key in model ==> OnSpine(spine, key))
  }

  lemma SpliceShape<V>(spine: seq<Node<V>>, links: seq<seq<Node?<V>>>, maxLevel: nat, level: nat,
                       at: seq<nat>, n: Node<V>, tower: seq<Node?<V>>, to: seq<Node?<V>>, relinked: seq<seq<Node?<V>>>)
    requires Shape(spine, links, maxLevel, level) && n !in spine && !OnSpine(spine, n.key)
    requires 1 <= |to| == |tower| <= |at| && |tower| <= maxLevel
    requires forall i :: 0 <= i < |to| ==> Before(Heights(links), Position(spine, n.key), i, at[i]) && to[i] == n
    requires forall i :: 0 <= i < |to| ==> at[i] < |links| && i < |links[at[i]]| && tower[i] == links[at[i]][i]
    requires Redirected(links, relinked, at, to)
    ensures var k := Position(spine, n.key);
      Shape(Spliced(spine, k, n), Spliced(relinked, k, tower), maxLevel, if |tower| > level then |tower| else level)
  {
    var k := Position(spine, n.key);
    SpliceLinked(spine, links, at, k, n, tower, to, relinked);
    SpliceSorted(spine, n);
    SpliceHeights(spine, links, maxLevel, level, k, n, tower, relinked);
    if |tower| > level {
      assert Heights(links)[at[|tower| - 1]] > level;
      assert at[|tower| - 1] == 0;
      RedirectedAt(links, relinked, at, to, 0, |tower| - 1);
    } else if level > 1 {
      RedirectedAt(links, relinked, at, to, 0, level - 1);
    }
    SplicedHead(relinked, k, tower);
  }

  lemma SpliceHeights<V>(spine: seq<Node<V>>, links: seq<seq<Node?<V>>>, maxLevel: nat, level: nat, k: nat,
                         n: Node<V>, tower: seq<Node?<V>>, relinked: seq<seq<Node?<V>>>)
    requires Towers(spine, links, maxLevel, level) && n !in spine && 1 <= k <= |spine| && 1 <= |tower| <= maxLevel
    requires |relinked| == |links| && forall p :: 0 <= p < |links| ==> |relinked[p]| == |links[p]|
    ensures var spine', links' := Spliced(spine, k, n), Spliced(relinked, k, tower);
      |spine'| == |links'| >= 1 && |links'[0]| == maxLevel &&
      forall p :: 1 <= p < |spine'| ==>
        spine'[p] != spine'[0] && 1 <= |links'[p]| <= if |tower| > level then |tower| else level
  {
    var spine', links' := Spliced(spine, k, n), Spliced(relinked, k, tower);
    forall p | 1 <= p < |spine'|
      ensures spine'[p] != spine'[0] && 1 <= |links'[p]| <= if |tower| > level then |tower| else level
    {
      if p < k {
        assert spine'[p] == spine[p] && links'[p] == relinked[p];
      } else if p > k {
        assert spine'[p] == spine[p - 1] && links'[p] == relinked[p - 1];
      }
    }
  }

  lemma SplicedHead<T>(s: seq<T>, k: nat, x: T)
    requires 1 <= k <= |s|
    ensures Spliced(s, k, x)[0] == s[0]
  {
  }

  lemma SpliceContents<V>(spine: seq<Node<V>>, values: seq<V>, model: map<Bytes, V>, n: Node<V>, value: V)
    requires Contents(spine, values, model) && n.key !in model
    ensures var k := Position(spine, n.key);
      Contents(Spliced(spine, k, n), Spliced(values, k, value), model[n.key := value])
  {
    var k := Position(spine, n.key);
    var spine' := Spliced(spine, k, n);
    SplicedAt(spine, k, n);
    SplicedAt(values, k, value);
    assert spine'[k].key == n.key;
    forall key | key in model[n.key := value] ensures OnSpine(spine', key) {
      if key != n.key {
        assert OnSpine(spine, key);
        var p :| 1 <= p < |spine| && spine[p].key == key;
        assert spine'[if p < k then p else p + 1].key == key;
      }
    }
  }

  /** The nodes in the heap have those towers and values. */
  ghost predicate Stored<V>(spine: seq<Node<V>>, links: seq<seq<Node?<V>>>, values: seq<V>)
    reads spine
  {
    |spine| == |links| == |values| &&
    forall p :: 0 <= p < |spine| ==> spine[p].forward == links[p] && spine[p].value == values[p]
  }

  lemma SpliceStored<V>(spine: seq<Node<V>>, links: seq<seq<Node?<V>>>, values: seq<V>, k: nat, n: Node<V>)
    requires Stored(spine, links, values) && 1 <= k <= |spine|
    ensures Stored(Spliced(spine, k, n), Spliced(links, k, n.forward), Spliced(values, k, n.value))
    ensures Spliced(spine, k, n)[0] == spine[0]
    ensures forall m :: m in Spliced(spine, k, n) ==> m == n || m in spine
  {
    SplicedAt(spine, k, n);
    SplicedAt(links, k, n.forward);
    SplicedAt(values, k, n.value);
  }

  ghost predicate LeadsTo<V>(spine: seq<Node<V>>, links: seq<seq<Node?<V>>>, p: nat, i: nat, q: nat)
    requires p < q < |links| == |spine| && i < |links[p]|
  {
    links[p][i] == spine[q] && |links[q]| > i &&
    (forall j :: p < j < q ==> |links[j]| <= i) &&
    (p > 0 ==> Rank(spine[p].key) < Rank(spine[q].key))
  }

  /** A link on level `i` leads to the nearest later node tall enough for it, past only shorter
      towers and to a greater key: the chain of a level is what the chain of the level below becomes
      when the towers that end there are left out. */
  lemma LevelIsSortedSubchain<V>(spine: seq<Node<V>>, links: seq<seq<Node?<V>>>, maxLevel: nat, level: nat, p: nat, i: nat)
    requires Shape(spine, links, maxLevel, level) && p < |spine| && i < |links[p]|
    ensures links[p][i] == null ==> forall q :: p < q < |spine| ==> |links[q]| <= i
    ensures links[p][i] != null ==> exists q :: p < q < |spine| && LeadsTo(spine, links, p, i, q)
  {
    assert LinkOk(spine, links, p, i);
    var h := Heights(links);
    var q := NextAt(h, p, i);
    forall j | p < j < q ensures |links[j]| <= i { assert h[j] <= i; }
    if q < |spine| {
      assert h[q] > i;
      assert LeadsTo(spine, links, p, i, q);
    }
  }

  lemma DropTowers<V>(spine: seq<Node<V>>, links: seq<seq<Node?<V>>>, maxLevel: nat, level: nat,
                      at: seq<nat>, k: nat, relinked: seq<seq<Node?<V>>>)
    requires Shape(spine, links, maxLevel, level) && 1 <= k < |spine| && |links[k]| <= |at|
    requires forall i :: 0 <= i < |links[k]| ==> Before(Heights(links), k, i, at[i])
    requires Redirected(links, relinked, at, links[k])
    ensures Towers(Dropped(spine, k), Dropped(relinked, k), maxLevel, level)
  {
    DropLinked(spine, links, at, k, relinked);
  }

  /** A level the head does not link into has no tower. */
  lemma TopEmpty<V>(spine: seq<Node<V>>, links: seq<seq<Node?<V>>>, maxLevel: nat, level: nat)
    requires Towers(spine, links, maxLevel, level) && level > 1 && links[0][level - 1] == null
    ensures Towers(spine, links, maxLevel, level - 1)
  {
    assert LinkOk(spine, links, 0, level - 1);
    var h := Heights(links);
    forall p | 1 <= p < |spine| ensures |links[p]| <= level - 1 {
      assert h[p] <= level - 1;
    }
  }

  lemma DropContents<V>(spine: seq<Node<V>>, values: seq<V>, model: map<Bytes, V>, k: nat)
    requires Contents(spine, values, model) && SortedSpine(spine) && 1 <= k < |spine|
    ensures Contents(Dropped(spine, k), Dropped(values, k), model - {spine[k].key})
  {
    var spine', model' := Dropped(spine, k), model - {spine[k].key};
    assert |model'| == |model| - 1 by { OneFewer(model, spine[k].key); }
    forall p | 1 <= p < |spine| && p != k ensures spine[p].key != spine[k].key {
      assert Rank(spine[p].key) != Rank(spine[k].key);
    }
    forall key | key in model' ensures OnSpine(spine', key) {
      assert OnSpine(spine, key);
      var p :| 1 <= p < |spine| && spine[p].key == key;
      assert spine'[if p < k then p else p - 1].key == key;
    }
  }

  lemma OneFewer<V>(model: map<Bytes, V>, key: Bytes)
    requires key in model
    ensures |model - {key}| == |model| - 1
  {
    assert model.Keys == (model - {key}).Keys + {key};
  }

  lemma DropStored<V>(spine: seq<Node<V>>, links: seq<seq<Node?<V>>>, values: seq<V>, k: nat)
    requires Stored(spine, links, values) && 1 <= k < |spine|
    ensures Stored(Dropped(spine, k), Dropped(links, k), Dropped(values, k))
  {
  }

  /** The bindings of `model` with keys from `lower` on, in key order. */
  ghost predicate Listing<V>(list: seq<(Bytes, V)>, model: map<Bytes, V>, lower: Bytes) {
    (forall i, j :: 0 <= i < j < |list| ==> Rank(list[i].0) < Rank(list[j].0)) &&
    (forall i :: 0 <= i < |list| ==>
      list[i].0 in model && model[list[i].0] == list[i].1 && Rank(list[i].0) >= Rank(lower)) &&
    (forall key {:trigger Listed(list, key)} :: key in model && Rank(key) >= Rank(lower) ==> Listed(list, key))
  }

  ghost predicate Listed<V>(list: seq<(Bytes, V)>, key: Bytes) {
    exists i :: 0 <= i < |list| && list[i].0 == key
  }

  /** `list` holds the pairs of the nodes from place `k` on. */
  ghost predicate ListedFrom<V>(spine: seq<Node<V>>, values: seq<V>, k: nat, list: seq<(Bytes, V)>) {
    k + |list| <= |spine| == |values| &&
    forall i :: 0 <= i < |list| ==> list[i] == (spine[k + i].key, values[k + i])
  }

  lemma ListedMore<V>(spine: seq<Node<V>>, values: seq<V>, k: nat, list: seq<(Bytes, V)>, pair: (Bytes, V))
    requires ListedFrom(spine, values, k, list) && k + |list| < |spine|
    requires pair == (spine[k + |list|].key, values[k + |list|])
    ensures ListedFrom(spine, values, k, list + [pair])
  {
  }

  /** The bindings from the lower bound on are a listing. */
  lemma AllListed<V>(spine: seq<Node<V>>, values: seq<V>, model: map<Bytes, V>, lower: Bytes, list: seq<(Bytes, V)>)
    requires Contents(spine, values, model) && SortedSpine(spine) && |spine| >= 1
    requires |list| == |spine| - Position(spine, lower)
    requires ListedFrom(spine, values, Position(spine, lower), list)
    ensures Listing(list, model, lower)
  {
    var k := Position(spine, lower);
    NotBelowFrom(spine, lower);
    forall key | key in model && Rank(key) >= Rank(lower) ensures Listed(list, key) {
      assert OnSpine(spine, key);
      var q :| 1 <= q < |spine| && spine[q].key == key;
      assert list[q - k].0 == key;
    }
  }

  lemma CandidateKey<V>(spine: seq<Node<V>>, values: seq<V>, model: map<Bytes, V>, key: Bytes)
    requires Contents(spine, values, model) && SortedSpine(spine) && |spine| >= 1
    ensures var k := Position(spine, key); key in model <==> k < |spine| && spine[k].key == key
  {
    var k := Position(spine, key);
    if key in model {
      assert OnSpine(spine, key);
      var p :| 1 <= p < |spine| && spine[p].key == key;
      SortedUpTo(spine, k, p);
      SameRank(spine[k].key, key);
    }
  }

  // ----- the list -----

  class SkipList<V(0)> {
    const maxLevel: nat
    const head: Node<V>
    var currentLevel: nat
    var nodeCount: nat

    ghost var spine: seq<Node<V>>
    ghost var links: seq<seq<Node?<V>>>
    ghost var values: seq<V>
    /** The finite map the list stands for. */
    ghost var model: map<Bytes, V>

    ghost function Nodes(): set<Node<V>>
      reads this
    {
      set n | n in spine
    }

    ghost predicate Valid()
      reads this, Nodes()
    {
      Shape(spine, links, maxLevel, currentLevel) && Contents(spine, values, model) &&
      Stored(spine, links, values) && spine[0] == head && nodeCount == |model|
    }

    constructor (maxLevel: nat)
      requires maxLevel >= 1
      ensures Valid() && fresh(Nodes()) && model == map[]
    {
      var v: V := *;
      var h := new Node([], v, maxLevel);
      this.maxLevel := maxLevel;
      head := h;
      currentLevel := 1;
      nodeCount := 0;
      spine := [h];
      links := [h.forward];
      values := [v];
      model := map[];
    }

    method Size() returns (n: nat)
      requires Valid()
      ensures n == |model|
    {
      n := nodeCount;
    }

    /** Walk right along level `i` from `start` while the next key is below `key`. */
    method Walk(start: Node<V>, i: nat, key: Bytes, ghost from: nat) returns (curr: Node<V>, ghost p: nat)
      requires Valid() && from < Position(spine, key) && start == spine[from] && i < |links[from]|
      ensures p < |spine| && curr == spine[p] && Before(Heights(links), Position(spine, key), i, p)
    {
      ghost var h, k := Heights(links), Position(spine, key);
      curr, p := start, from;
      Follow(p, i);
      while curr.forward[i] != null && Less(curr.forward[i].key, key)
        invariant p < k && curr == spine[p] && h[p] > i
        invariant curr.forward[i] == Target(spine, NextAt(h, p, i))
        decreases |spine| - p
      {
        p := NextAt(h, p, i);
        curr := curr.forward[i];
        NotBelowFrom(spine, key);
        Follow(p, i);
      }
    }

    lemma Follow(p: nat, i: nat)
      requires Valid() && p < |spine| && i < |links[p]|
      ensures i < |spine[p].forward| && spine[p].forward[i] == Target(spine, NextAt(Heights(links), p, i))
    {
      assert LinkOk(spine, links, p, i);
    }

    /** The search shared by `put` and `erase`: on every level in use, the last node whose key is
        below `key`. */
    method Locate(key: Bytes) returns (curr: Node<V>, update: seq<Node?<V>>, ghost at: seq<nat>)
      requires Valid()
      ensures curr == spine[Position(spine, key) - 1]
      ensures |update| == |at| == maxLevel
      ensures forall i :: 0 <= i < currentLevel ==>
                at[i] < |spine| && update[i] == spine[at[i]] && Before(Heights(links), Position(spine, key), i, at[i])
    {
      ghost var h, k := Heights(links), Position(spine, key);
      update := seq(maxLevel, _ => null);
      at := seq(maxLevel, _ => 0);
      curr := head;
      ghost var p: nat := 0;
      var i := currentLevel;
      while i > 0
        invariant 0 <= i <= currentLevel
        invariant p < k && curr == spine[p] && h[p] >= i && h[p] > 0
        invariant i < currentLevel ==> Before(h, k, i, p)
        invariant |update| == |at| == maxLevel
        invariant forall j :: i <= j < currentLevel ==>
                    at[j] < |spine| && update[j] == spine[at[j]] && Before(h, k, j, at[j])
      {
        i := i - 1;
        curr, p := Walk(curr, i, key, p);
        update := update[i := curr];
        at := at[i := p];
      }
      LastIsPrevious(h, k, p);
    }

    /** The candidate for `key` is the node after the last one below it. */
    lemma Candidate(key: Bytes)
      requires Valid()
      ensures var k := Position(spine, key);
        |links[k - 1]| > 0 && links[k - 1][0] == Target(spine, k) &&
        (key in model <==> k < |spine| && spine[k].key == key)
    {
      var k := Position(spine, key);
      NextUnique(Heights(links), k - 1, 0, k);
      Follow(k - 1, 0);
      CandidateKey(spine, values, model, key);
    }

    method Get(key: Bytes) returns (found: Option<V>)
      requires Valid()
      ensures found == if key in model then Some(model[key]) else None
    {
      var curr := head;
      ghost var p: nat := 0;
      var i := currentLevel;
      while i > 0
        invariant 0 <= i <= currentLevel
        invariant p < Position(spine, key) && curr == spine[p] && |links[p]| >= i && |links[p]| > 0
        invariant i == 0 ==> Before(Heights(links), Position(spine, key), 0, p)
      {
        i := i - 1;
        curr, p := Walk(curr, i, key, p);
      }
      LastIsPrevious(Heights(links), Position(spine, key), p);
      Candidate(key);
      var next := curr.forward[0];
      if next != null && next.key == key {
        return Some(next.value);
      }
      return None;
    }

    /** Any height from 1 to `maxLevel`. */
    method RandomLevel() returns (level: nat)
      requires maxLevel >= 1
      ensures 1 <= level <= maxLevel
    {
      level :| 1 <= level <= maxLevel;
    }

    method Put(key: Bytes, value: V)
      requires Valid()
      modifies this, Nodes()
      ensures Valid() && fresh(Nodes() - old(Nodes()))
      ensures model == old(model)[key := value]
    {
      var curr, update, at := Locate(key);
      Candidate(key);
      ghost var k := Position(spine, key);
      var next := curr.forward[0];
      if next != null && next.key == key {
        SetValue(next, value, k);
        return;
      }
      var level := RandomLevel();
      update, at := Raise(key, level, update, at);
      Insert(key, value, level, update, at);
    }

    method SetValue(node: Node<V>, value: V, ghost k: nat)
      requires Valid() && 1 <= k < |spine| && spine[k] == node
      modifies node`value, `model, `values
      ensures Valid()
      ensures model == old(model)[node.key := value]
    {
      NodesDistinct(spine);
      node.value := value;
      values := values[k := value];
      model := model[node.key := value];
      forall p | 1 <= p < |spine| ensures spine[p].key in model && model[spine[p].key] == values[p] {
        assert p != k ==> Rank(spine[p].key) != Rank(spine[k].key);
      }
    }

    /** Levels a new tower opens have only the head before it. */
    method Raise(key: Bytes, level: nat, update: seq<Node?<V>>, ghost at: seq<nat>)
      returns (update': seq<Node?<V>>, ghost at': seq<nat>)
      requires Valid() && 1 <= level <= maxLevel && |update| == |at| == maxLevel
      requires forall i :: 0 <= i < currentLevel ==>
                at[i] < |spine| && update[i] == spine[at[i]] && Before(Heights(links), Position(spine, key), i, at[i])
      ensures |update'| == |at'| == maxLevel
      ensures forall i :: 0 <= i < level ==>
                at'[i] < |spine| && update'[i] == spine[at'[i]] && Before(Heights(links), Position(spine, key), i, at'[i])
    {
      update', at' := update, at;
      if level > currentLevel {
        for i := currentLevel to level
          invariant |update'| == |at'| == maxLevel
          invariant forall j :: 0 <= j < i ==>
            at'[j] < |spine| && update'[j] == spine[at'[j]] && Before(Heights(links), Position(spine, key), j, at'[j])
        {
          update' := update'[i := head];
          at' := at'[i := 0];
          NextUnique(Heights(links), 0, i, |spine|);
        }
      }
    }

    /** Put `n` between `u` and its successor on level `i`. */
    method LinkLevel(n: Node<V>, i: nat, u: Node<V>, ghost p: nat)
      requires Stored(spine, links, values) && n !in spine && i < |n.forward|
      requires p < |spine| && u == spine[p] && i < |links[p]|
      requires forall q :: 0 <= q < |spine| && q != p ==> spine[q] != spine[p]
      modifies `links, u`forward, n`forward
      ensures Stored(spine, links, values)
      ensures n.forward == old(n.forward)[i := old(links)[p][i]]
      ensures links == old(links)[p := old(links)[p][i := n]]
    {
      n.forward := n.forward[i := u.forward[i]];
      u.forward := u.forward[i := n];
      links := links[p := links[p][i := n]];
    }

    /** On each of its levels, put the new tower between `update[i]` and that node's successor. */
    method LinkIn(n: Node<V>, level: nat, update: seq<Node?<V>>, ghost at: seq<nat>) returns (ghost to: seq<Node?<V>>)
      requires Stored(spine, links, values) && NoRepeats(spine)
      requires n !in spine && |n.forward| == level <= |update| == |at|
      requires forall i :: 0 <= i < level ==>
                at[i] < |spine| && update[i] == spine[at[i]] && i < |links[at[i]]|
      modifies `links, Nodes(), n`forward
      ensures n.value == old(n.value) && Stored(spine, links, values)
      ensures |to| == |n.forward| == level && Redirected(old(links), links, at, to)
      ensures forall j :: 0 <= j < level ==> to[j] == n && n.forward[j] == old(links)[at[j]][j]
    {
      to := [];
      for i := 0 to level
        invariant |n.forward| == level
        invariant |to| == i && Redirected(old(links), links, at, to)
        invariant forall j :: 0 <= j < i ==> to[j] == n && n.forward[j] == old(links)[at[j]][j]
        invariant n.value == old(n.value) && Stored(spine, links, values)
      {
        RedirectNext(old(links), links, at, to, n);
        LinkLevel(n, i, update[i], at[i]);
        to := to + [n];
      }
    }

    /** Splice a new tower in behind the nodes `update`. */
    method Insert(key: Bytes, value: V, level: nat, update: seq<Node?<V>>, ghost at: seq<nat>)
      requires Valid() && key !in model && 1 <= level <= maxLevel && level <= |update| == |at|
      requires forall i :: 0 <= i < level ==>
                at[i] < |spine| && update[i] == spine[at[i]] && Before(Heights(links), Position(spine, key), i, at[i])
      modifies this, Nodes()
      ensures Valid() && fresh(Nodes() - old(Nodes()))
      ensures model == old(model)[key := value]
    {
      ghost var k, links0 := Position(spine, key), links;
      NodesDistinct(spine);
      var n := new Node(key, value, level);
      ghost var to := LinkIn(n, level, update, at);
      SpliceShape(spine, links0, maxLevel, currentLevel, at, n, n.forward, to, links);
      SpliceContents(spine, values, model, n, value);
      SpliceStored(spine, links, values, k, n);
      Adopt(if level > currentLevel then level else currentLevel, nodeCount + 1, Spliced(spine, k, n),
            Spliced(links, k, n.forward), Spliced(values, k, value), model[key := value]);
    }

    /** Take up a new shape the nodes already have. */
    method Adopt(level: nat, count: nat, ghost spine': seq<Node<V>>, ghost links': seq<seq<Node?<V>>>,
                 ghost values': seq<V>, ghost model': map<Bytes, V>)
      requires Shape(spine', links', maxLevel, level) && Contents(spine', values', model')
      requires Stored(spine', links', values') && spine'[0] == head && count == |model'|
      modifies this
      ensures Valid() && spine == spine' && model == model'
      ensures Nodes() == set n | n in spine'
    {
      currentLevel := level;
      nodeCount := count;
      spine, links, values, model := spine', links', values', model';
    }

    /** Bypass `node` on level `i`. */
    method UnlinkLevel(node: Node<V>, i: nat, u: Node<V>, ghost p: nat)
      requires Stored(spine, links, values) && p < |spine| && u == spine[p] && u != node
      requires i < |links[p]| && links[p][i] == node && i < |node.forward|
      requires forall q :: 0 <= q < |spine| && q != p ==> spine[q] != spine[p]
      modifies `links, u`forward
      ensures Stored(spine, links, values)
      ensures links == old(links)[p := old(links)[p][i := node.forward[i]]]
    {
      if u.forward[i] == node {
        u.forward := u.forward[i := node.forward[i]];
      }
      links := links[p := links[p][i := node.forward[i]]];
    }

    method LinkOut(node: Node<V>, update: seq<Node?<V>>, ghost at: seq<nat>, ghost k: nat)
      requires Stored(spine, links, values) && NoRepeats(spine)
      requires k < |spine| && node == spine[k] && |links[k]| <= |update| == |at|
      requires forall i :: 0 <= i < |links[k]| ==> at[i] < |spine| && at[i] != k && update[i] == spine[at[i]]
      requires forall i :: 0 <= i < |links[k]| ==> i < |links[at[i]]| && links[at[i]][i] == node
      modifies `links, Nodes()
      ensures Stored(spine, links, values) && Redirected(old(links), links, at, old(links)[k])
    {
      ghost var to: seq<Node?<V>> := [];
      for i := 0 to |node.forward|
        invariant Stored(spine, links, values)
        invariant node.forward == old(links)[k] == links[k]
        invariant to == old(links)[k][..i] && Redirected(old(links), links, at, to)
      {
        assert links[at[i]][i] == old(links)[at[i]][i];
        RedirectNext(old(links), links, at, to, node.forward[i]);
        to := to + [node.forward[i]];
        UnlinkLevel(node, i, update[i], at[i]);
      }
    }

    /** On its own levels the predecessors link straight to the node found. */
    lemma Predecessors(at: seq<nat>, k: nat)
      requires Valid() && 1 <= k < |spine| && |links[k]| <= |at|
      requires forall i :: 0 <= i < |links[k]| ==> at[i] < |spine| && Before(Heights(links), k, i, at[i])
      ensures forall i :: 0 <= i < |links[k]| ==> i < |links[at[i]]| && links[at[i]][i] == spine[k]
    {
      forall i | 0 <= i < |links[k]| ensures i < |links[at[i]]| && links[at[i]][i] == spine[k] {
        NextUnique(Heights(links), at[i], i, k);
        assert LinkOk(spine, links, at[i], i);
      }
    }

    method Erase(key: Bytes) returns (erased: bool)
      requires Valid()
      modifies this, Nodes()
      ensures Valid() && Nodes() <= old(Nodes())
      ensures erased <==> key in old(model)
      ensures model == old(model) - {key}
    {
      var curr, update, at := Locate(key);
      Candidate(key);
      var next := curr.forward[0];
      if next != null && next.key == key {
        Remove(next, update, at, Position(spine, key));
        return true;
      }
      return false;
    }

    method Remove(node: Node<V>, update: seq<Node?<V>>, ghost at: seq<nat>, ghost k: nat)
      requires Valid() && 1 <= k < |spine| && node == spine[k] && currentLevel <= |update| == |at|
      requires forall i :: 0 <= i < currentLevel ==>
                at[i] < |spine| && update[i] == spine[at[i]] && Before(Heights(links), k, i, at[i])
      modifies this, Nodes()
      ensures Valid() && Nodes() <= old(Nodes())
      ensures model == old(model) - {node.key}
    {
      ghost var links0 := links;
      NodesDistinct(spine);
      Predecessors(at, k);
      LinkOut(node, update, at, k);
      DropTowers(spine, links0, maxLevel, currentLevel, at, k, links);
      DropContents(spine, values, model, k);
      DropStored(spine, links, values, k);
      ghost var spine', links' := Dropped(spine, k), Dropped(links, k);
      var level := TopLevel(spine', links');
      Adopt(level, nodeCount - 1, spine', links', Dropped(values, k), model - {node.key});
    }

    /** The highest level in use once a node is out. */
    method TopLevel(ghost spine': seq<Node<V>>, ghost links': seq<seq<Node?<V>>>) returns (level: nat)
      requires Towers(spine', links', maxLevel, currentLevel) && head.forward == links'[0]
      ensures Shape(spine', links', maxLevel, level)
    {
      level := currentLevel;
      while level > 1 && head.forward[level - 1] == null
        invariant Towers(spine', links', maxLevel, level)
      {
        TopEmpty(spine', links', maxLevel, level);
        level := level - 1;
      }
    }

    method Clear()
      requires Valid()
      modifies this, head
      ensures Valid() && Nodes() == {head} && model == map[]
    {
      ghost var v := head.value;
      for i := 0 to maxLevel
        invariant |head.forward| == maxLevel && head.value == v
        invariant forall j :: 0 <= j < i ==> head.forward[j] == null
        modifies head
      {
        head.forward := head.forward[i := null];
      }
      assert forall i :: 0 <= i < maxLevel ==> LinkOk([head], [head.forward], 0, i);
      Adopt(1, 0, [head], [head.forward], [v], map[]);
    }

    /** Follow the bottom level from `start` to the end. */
    method Collect(start: Node?<V>, lower: Bytes) returns (list: seq<(Bytes, V)>)
      requires Valid() && start == Target(spine, Position(spine, lower))
      ensures Listing(list, model, lower)
    {
      ghost var k := Position(spine, lower);
      list := [];
      var curr := start;
      ghost var p := k;
      while curr != null
        invariant k <= p <= |spine| && curr == Target(spine, p) && |list| == p - k && ListedFrom(spine, values, k, list)
        decreases |spine| - p
      {
        ListedMore(spine, values, k, list, (curr.key, curr.value));
        list := list + [(curr.key, curr.value)];
        Follow(p, 0);
        NextUnique(Heights(links), p, 0, p + 1);
        curr := curr.forward[0];
        p := p + 1;
      }
      AllListed(spine, values, model, lower, list);
    }

    /** All bindings in key order, for the flush. */
    method DumpAll() returns (list: seq<(Bytes, V)>)
      requires Valid()
      ensures Listing(list, model, [])
    {
      Follow(0, 0);
      NextUnique(Heights(links), 0, 0, 1);
      list := Collect(head.forward[0], []);
    }

    /** The node at the lower bound: the least key not below `key`, if there is one. */
    lemma AtLowerBound(key: Bytes)
      requires Valid()
      ensures var found := Target(spine, Position(spine, key));
        if found == null then forall k :: k in model ==> Rank(k) < Rank(key)
        else found.key in model && Rank(found.key) >= Rank(key) &&
             forall k :: k in model && Rank(k) >= Rank(key) ==> Rank(k) >= Rank(found.key)
    {
      var q := Position(spine, key);
      forall k | k in model ensures Rank(k) < Rank(key) || (q < |spine| && Rank(k) >= Rank(spine[q].key)) {
        assert OnSpine(spine, k);
        var p :| 1 <= p < |spine| && spine[p].key == k;
        if p >= q { SortedUpTo(spine, q, p); }
      }
    }

    /** The first node whose key is not below `key`. */
    method FindGreaterOrEqual(key: Bytes) returns (found: Node?<V>)
      requires Valid()
      ensures found == Target(spine, Position(spine, key))
      ensures if found == null then forall k :: k in model ==> Rank(k) < Rank(key)
              else found.key in model && Rank(found.key) >= Rank(key) &&
                   forall k :: k in model && Rank(k) >= Rank(key) ==> Rank(k) >= Rank(found.key)
    {
      var x := LastBelow(key);
      Candidate(key);
      found := x.forward[0];
      AtLowerBound(key);
    }

    /** The search from the top level down. */
    method LastBelow(key: Bytes) returns (x: Node<V>)
      requires Valid()
      ensures x == spine[Position(spine, key) - 1]
    {
      NotBelowFrom(spine, key);
      x := head;
      ghost var p: nat := 0;
      var level: int := currentLevel - 1;
      while level >= 0
        invariant -1 <= level < currentLevel
        invariant p < Position(spine, key) && x == spine[p] && |links[p]| > 0 && |links[p]| > level
        invariant level < 0 ==> Before(Heights(links), Position(spine, key), 0, p)
        decreases level, |spine| - p
      {
        Follow(p, level);
        var next := x.forward[level];
        if next != null && Less(next.key, key) {
          p := NextAt(Heights(links), p, level);
          x := next;
        } else {
          level := level - 1;
        }
      }
      LastIsPrevious(Heights(links), Position(spine, key), p);
    }

    /** What an iterator over the list copies: every binding from `lower` on, in key order. */
    method ListFrom(lower: Bytes) returns (list: seq<(Bytes, V)>)
      requires Valid()
      ensures Listing(list, model, lower)
    {
      var start := FindGreaterOrEqual(lower);
      list := Collect(start, lower);
    }
  }
}
