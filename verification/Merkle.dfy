/** State digests: one hash node per bucket of keys, folded into a root
    (src/replication/anti_entropy.rs). */
module Merkle {
  import opened Numbers
  import opened Executor
  import opened Lattice

  type State = map<Key, Replicated>

  /** What a key's value hash covers: the outer stamp and the visible string, nothing else. */
  datatype Sig = Sig(time: nat, replica: ReplicaId, view: Option<seq<Byte>>)

  /** The hash functions the standard library supplies. */
  datatype Hashing = Hashing(key: Key -> nat, value: Sig -> nat, words: seq<nat> -> nat)

  datatype KeyDigest = KeyDigest(keyHash: nat, valueHash: nat, time: nat)

  datatype Node = Node(hash: nat, count: nat, maxTime: nat)

  const EMPTY := Node(0, 0, 0)

  datatype StateDigest = StateDigest(root: Node, buckets: seq<Node>, replica: ReplicaId, generation: nat)

  function View(v: Replicated): Option<seq<Byte>> {
    if v.crdt.Lww? then Live(v.crdt.reg) else None
  }

  function SigOf(v: Replicated): Sig {
    Sig(v.stamp.time, v.stamp.replica, View(v))
  }

  function DigestOf(h: Hashing, k: Key, v: Replicated): KeyDigest {
    KeyDigest(h.key(k), h.value(SigOf(v)), v.stamp.time)
  }

  function BucketOf(h: Hashing, k: Key, size: nat): nat
    requires size > 0
  {
    h.key(k) % size
  }

  function BucketCount(depth: nat): (n: nat)
    ensures n > 0
  {
    if depth == 0 then 1 else 2 * BucketCount(depth - 1)
  }

  /** An iteration order of a hash map: every key once. */
  ghost predicate Lists(order: seq<Key>, m: State) {
    && (forall k :: k in order <==> k in m)
    && (forall i, j :: 0 <= i < j < |order| ==> order[i] != order[j])
  }

  /** The keys of one bucket, in iteration order. */
  function InBucket(h: Hashing, order: seq<Key>, size: nat, b: nat): (r: seq<Key>)
    requires size > 0
    ensures forall k :: k in r <==> k in order && BucketOf(h, k, size) == b
  {
    if order == [] then []
    else
      var n := |order| - 1;
      assert order == order[..n] + [order[n]];
      InBucket(h, order[..n], size, b) + (if BucketOf(h, order[n], size) == b then [order[n]] else [])
  }

  function Digests(h: Hashing, m: State, ks: seq<Key>): (r: seq<KeyDigest>)
    requires forall k :: k in ks ==> k in m
    ensures |r| == |ks| && forall i :: 0 <= i < |ks| ==> r[i] == DigestOf(h, ks[i], m[ks[i]])
  {
    seq(|ks|, i requires 0 <= i < |ks| => DigestOf(h, ks[i], m[ks[i]]))
  }

  /** The words a bucket feeds to its hasher. */
  function Words(ds: seq<KeyDigest>): (r: seq<nat>)
    ensures |r| == 2 * |ds|
  {
    if ds == [] then [] else
    var n := |ds| - 1;
    Words(ds[..n]) + [ds[n].keyHash, ds[n].valueHash]
  }

  function MaxTime(ds: seq<KeyDigest>): nat {
    if ds == [] then 0 else
    var n := |ds| - 1;
    Max(MaxTime(ds[..n]), ds[n].time)
  }

  function Max(a: nat, b: nat): nat {
    if a < b then b else a
  }

  function FromDigests(h: Hashing, ds: seq<KeyDigest>): Node {
    if ds == [] then EMPTY else Node(h.words(Words(ds)), |ds|, MaxTime(ds))
  }

  function Combine(h: Hashing, l: Node, r: Node): Node {
    if l.count == 0 && r.count == 0 then EMPTY
    else Node(h.words([l.hash, r.hash]), l.count + r.count, Max(l.maxTime, r.maxTime))
  }

  /** The fold of the first `n` bucket nodes. */
  function Root(h: Hashing, nodes: seq<Node>, n: nat): Node
    requires 0 < n <= |nodes|
  {
    if n == 1 then nodes[0] else Combine(h, Root(h, nodes, n - 1), nodes[n - 1])
  }

  /** All bucket contents of a state. */
  function Table(h: Hashing, m: State, order: seq<Key>, size: nat): (r: seq<seq<KeyDigest>>)
    requires size > 0 && forall k :: k in order ==> k in m
    ensures |r| == size && forall b :: 0 <= b < size ==> r[b] == Digests(h, m, InBucket(h, order, size, b))
  {
    seq(size, b requires 0 <= b < size => Digests(h, m, InBucket(h, order, size, b)))
  }

  function Nodes(h: Hashing, t: seq<seq<KeyDigest>>): (r: seq<Node>)
    ensures |r| == |t| && forall b :: 0 <= b < |t| ==> r[b] == FromDigests(h, t[b])
  {
    seq(|t|, b requires 0 <= b < |t| => FromDigests(h, t[b]))
  }

  function Summary(h: Hashing, m: State, order: seq<Key>, id: ReplicaId, generation: nat, depth: nat): StateDigest
    requires forall k :: k in order ==> k in m
  {
    var nodes := Nodes(h, Table(h, m, order, BucketCount(depth)));
    StateDigest(Root(h, nodes, |nodes|), nodes, id, generation)
  }

  // ---------------------------------------------------------------- the loops

  method HashBucket(h: Hashing, ds: seq<KeyDigest>) returns (node: Node)
    ensures node == FromDigests(h, ds)
  {
    if ds == [] { return EMPTY; }
    var fed: seq<nat>, newest := [], 0;
    var i := 0;
    while i < |ds|
      invariant i <= |ds|
      invariant fed == Words(ds[..i]) && newest == MaxTime(ds[..i])
    {
      assert ds[..i + 1][..i] == ds[..i];
      fed := fed + [ds[i].keyHash, ds[i].valueHash];
      newest := Max(newest, ds[i].time);
      i := i + 1;
    }
    assert ds[..i] == ds;
    node := Node(h.words(fed), |ds|, newest);
  }

  /** Sorts the keys into buckets in one pass over the map. */
  method SortIntoBuckets(h: Hashing, m: State, order: seq<Key>, size: nat) returns (t: seq<seq<KeyDigest>>)
    requires size > 0 && forall k :: k in order ==> k in m
    ensures t == Table(h, m, order, size)
  {
    t := seq(size, _ => []);
    var i := 0;
    while i < |order|
      invariant i <= |order| && |t| == size
      invariant forall b :: 0 <= b < size ==> t[b] == Digests(h, m, InBucket(h, order[..i], size, b))
    {
      var k := order[i];
      var b := BucketOf(h, k, size);
      assert order[..i + 1][..i] == order[..i];
      t := t[b := t[b] + [DigestOf(h, k, m[k])]];
      i := i + 1;
    }
    assert order[..i] == order;
  }

  method HashBuckets(h: Hashing, t: seq<seq<KeyDigest>>) returns (nodes: seq<Node>)
    ensures nodes == Nodes(h, t)
  {
    nodes := [];
    var i := 0;
    while i < |t|
      invariant i == |nodes| <= |t|
      invariant forall b :: 0 <= b < i ==> nodes[b] == FromDigests(h, t[b])
    {
      var node := HashBucket(h, t[i]);
      nodes := nodes + [node];
      i := i + 1;
    }
  }

  method FoldRoot(h: Hashing, nodes: seq<Node>) returns (combined: Node)
    requires nodes != []
    ensures combined == Root(h, nodes, |nodes|)
  {
    combined := nodes[0];
    var i := 1;
    while i < |nodes|
      invariant 1 <= i <= |nodes|
      invariant combined == Root(h, nodes, i)
    {
      combined := Combine(h, combined, nodes[i]);
      i := i + 1;
    }
  }

  method FromState(h: Hashing, m: State, order: seq<Key>, id: ReplicaId, generation: nat, depth: nat)
    returns (d: StateDigest)
    requires forall k :: k in order ==> k in m
    ensures d == Summary(h, m, order, id, generation, depth)
  {
    var t := SortIntoBuckets(h, m, order, BucketCount(depth));
    var nodes := HashBuckets(h, t);
    var root := FoldRoot(h, nodes);
    d := StateDigest(root, nodes, id, generation);
  }

  /** Bucket `i` differs; where only one side has it, it differs when it holds a key. */
  predicate Diverges(a: StateDigest, b: StateDigest, i: nat) {
    if i < |a.buckets| && i < |b.buckets| then a.buckets[i] != b.buckets[i]
    else if i < |a.buckets| then a.buckets[i].count > 0
    else i < |b.buckets| && b.buckets[i].count > 0
  }

  predicate Increasing(r: seq<nat>) {
    forall i, j :: 0 <= i < j < |r| ==> r[i] < r[j]
  }

  lemma PushIncreases(r: seq<nat>, i: nat)
    requires Increasing(r) && forall j :: j in r ==> j < i
    ensures Increasing(r + [i])
  {
    forall a | 0 <= a < |r| ensures r[a] < i { assert r[a] in r; }
  }

  method DivergentBuckets(a: StateDigest, b: StateDigest) returns (r: seq<nat>)
    ensures Increasing(r)
    ensures forall i: nat :: i in r <==> Diverges(a, b, i)
  {
    r := [];
    var len := if |a.buckets| < |b.buckets| then |a.buckets| else |b.buckets|;
    var i := 0;
    while i < len
      invariant i <= len && Increasing(r)
      invariant forall j: nat :: j in r <==> j < i && Diverges(a, b, j)
    {
      if a.buckets[i] != b.buckets[i] {
        PushIncreases(r, i);
        r := r + [i];
      }
      i := i + 1;
    }
    while i < |a.buckets|
      invariant len <= i && (i <= |a.buckets| || i == len) && Increasing(r)
      invariant forall j: nat :: j in r <==> j < i && Diverges(a, b, j)
    {
      if a.buckets[i].count > 0 {
        PushIncreases(r, i);
        r := r + [i];
      }
      i := i + 1;
    }
    if |b.buckets| > len {
      i := len;
      while i < |b.buckets|
        invariant len <= i <= |b.buckets| && Increasing(r)
        invariant forall j: nat :: j in r <==> j < i && Diverges(a, b, j)
      {
        if b.buckets[i].count > 0 {
          PushIncreases(r, i);
          r := r + [i];
        }
        i := i + 1;
      }
    }
  }

  // ---------------------------------------------------------------- what equal roots mean

  /** The hash tells two inputs apart, and neither from the hash of an empty bucket. */
  predicate Distinguishes(h: Hashing, xs: seq<nat>, ys: seq<nat>) {
    h.words(xs) != 0 && h.words(ys) != 0 && (h.words(xs) == h.words(ys) ==> xs == ys)
  }

  /** The two words the fold hashes at its `n`-th bucket. */
  function Pair(h: Hashing, t: seq<seq<KeyDigest>>, n: nat): seq<nat>
    requires 1 < n <= |t|
  {
    [Root(h, Nodes(h, t), n - 1).hash, FromDigests(h, t[n - 1]).hash]
  }

  /** No collision among the inputs that the two digests hash at the same place. */
  predicate CollisionFree(h: Hashing, s: seq<seq<KeyDigest>>, t: seq<seq<KeyDigest>>) {
    && |s| == |t|
    && (forall b :: 0 <= b < |s| ==> Distinguishes(h, Words(s[b]), Words(t[b])))
    && (forall n :: 1 < n <= |s| ==> Distinguishes(h, Pair(h, s, n), Pair(h, t, n)))
  }

  predicate AllEmpty(t: seq<seq<KeyDigest>>, n: nat)
    requires n <= |t|
  {
    forall b :: 0 <= b < n ==> t[b] == []
  }

  predicate AllSame(s: seq<seq<KeyDigest>>, t: seq<seq<KeyDigest>>, n: nat)
    requires n <= |s| == |t|
  {
    forall b :: 0 <= b < n ==> Words(s[b]) == Words(t[b])
  }

  /** The fold of nothing but empty buckets is the empty node. */
  lemma {:induction false} RootCount(h: Hashing, t: seq<seq<KeyDigest>>, n: nat)
    requires 0 < n <= |t|
    ensures Root(h, Nodes(h, t), n).count == 0 <==> AllEmpty(t, n)
    ensures AllEmpty(t, n) ==> Root(h, Nodes(h, t), n) == EMPTY
  {
    if n > 1 { RootCount(h, t, n - 1); }
  }

  lemma RootHash(h: Hashing, t: seq<seq<KeyDigest>>, n: nat)
    requires 1 < n <= |t|
    ensures Root(h, Nodes(h, t), n).hash == if AllEmpty(t, n) then 0 else h.words(Pair(h, t, n))
  {
    RootCount(h, t, n - 1);
    RootCount(h, t, n);
  }

  lemma LeavesEqual(h: Hashing, x: seq<KeyDigest>, y: seq<KeyDigest>)
    requires Distinguishes(h, Words(x), Words(y))
    ensures FromDigests(h, x).hash == FromDigests(h, y).hash <==> Words(x) == Words(y)
  {
    assert Words(x) == [] <==> x == [];
    assert Words(y) == [] <==> y == [];
  }

  lemma EmptySame(s: seq<seq<KeyDigest>>, t: seq<seq<KeyDigest>>, n: nat)
    requires n <= |s| == |t| && AllEmpty(s, n)
    ensures AllSame(s, t, n) <==> AllEmpty(t, n)
  {
    hide Words;
    forall b | 0 <= b < n ensures Words(s[b]) == Words(t[b]) <==> t[b] == [] {
      assert |Words(t[b])| == 2 * |t[b]| && |Words(s[b])| == 0;
    }
  }

  lemma PairsSame(h: Hashing, s: seq<seq<KeyDigest>>, t: seq<seq<KeyDigest>>, n: nat)
    requires 1 < n <= |s| == |t| && Distinguishes(h, Pair(h, s, n), Pair(h, t, n))
    requires Root(h, Nodes(h, s), n - 1).hash == Root(h, Nodes(h, t), n - 1).hash <==> AllSame(s, t, n - 1)
    requires FromDigests(h, s[n - 1]).hash == FromDigests(h, t[n - 1]).hash <==> Words(s[n - 1]) == Words(t[n - 1])
    ensures h.words(Pair(h, s, n)) == h.words(Pair(h, t, n)) <==> AllSame(s, t, n)
  {
    hide Root, Words, FromDigests;
    assert AllSame(s, t, n) <==> AllSame(s, t, n - 1) && Words(s[n - 1]) == Words(t[n - 1]);
    var x, y := Pair(h, s, n), Pair(h, t, n);
    assert x == y <==> x[0] == y[0] && x[1] == y[1];
  }

  /** Without collisions, two roots are equal exactly when every bucket hashed the same words. */
  lemma {:induction false} RootsEqualIff(h: Hashing, s: seq<seq<KeyDigest>>, t: seq<seq<KeyDigest>>, n: nat)
    requires CollisionFree(h, s, t) && 0 < n <= |s|
    ensures Root(h, Nodes(h, s), n).hash == Root(h, Nodes(h, t), n).hash <==> AllSame(s, t, n)
  {
    hide Words, FromDigests, AllEmpty, Distinguishes;
    LeavesEqual(h, s[n - 1], t[n - 1]);
    if n > 1 {
      RootsEqualIff(h, s, t, n - 1);
      PairsSame(h, s, t, n);
      FoldSame(h, s, t, n);
    }
  }

  lemma FoldSame(h: Hashing, s: seq<seq<KeyDigest>>, t: seq<seq<KeyDigest>>, n: nat)
    requires 1 < n <= |s| == |t| && Distinguishes(h, Pair(h, s, n), Pair(h, t, n))
    requires h.words(Pair(h, s, n)) == h.words(Pair(h, t, n)) <==> AllSame(s, t, n)
    ensures Root(h, Nodes(h, s), n).hash == Root(h, Nodes(h, t), n).hash <==> AllSame(s, t, n)
  {
    hide Root, Words, FromDigests, AllEmpty, AllSame, Pair;
    RootHash(h, s, n);
    RootHash(h, t, n);
    if AllEmpty(s, n) { EmptySame(s, t, n); }
    if AllEmpty(t, n) { EmptySame(t, s, n); SameSwap(s, t, n); }
  }

  lemma SameSwap(s: seq<seq<KeyDigest>>, t: seq<seq<KeyDigest>>, n: nat)
    requires n <= |s| == |t|
    ensures AllSame(s, t, n) <==> AllSame(t, s, n)
  {
  }

  // ---------------------------------------------------------------- which keys share a bucket

  function Power(n: nat, e: nat): nat {
    if e == 0 then 1 else n * Power(n, e - 1)
  }

  /** The lowest `n` bits, lowest first. */
  function LowBits(x: nat, n: nat): (bits: seq<nat>)
    ensures |bits| == n
    decreases n
  {
    if n == 0 then [] else [x % 2] + LowBits(x / 2, n - 1)
  }

  lemma HalfRemainder(x: nat, n: nat)
    requires n > 0
    ensures x % (2 * n) == 2 * (x / 2 % n) + x % 2
  {
    var y := x / 2;
    var q := y / n;
    assert x == 2 * y + x % 2 && y == q * n + y % n;
    assert x == q * (2 * n) + (2 * (y % n) + x % 2);
    RemainderIs(q, 2 * n, 2 * (y % n) + x % 2);
  }

  lemma AtLeastOnce(d: int, n: nat)
    requires d >= 1
    ensures d * n >= n
  {
  }

  lemma RemainderIs(q: nat, n: nat, r: nat)
    requires r < n
    ensures (q * n + r) % n == r
  {
    var z := q * n + r;
    var p := z / n;
    assert z == p * n + z % n;
    assert (p - q) * n == p * n - q * n && (q - p) * n == q * n - p * n;
    if p > q {
      AtLeastOnce(p - q, n);
    } else if p < q {
      AtLeastOnce(q - p, n);
    }
  }

  lemma {:induction false} RemainderBits(x: nat, y: nat, depth: nat)
    ensures x % BucketCount(depth) == y % BucketCount(depth) <==> LowBits(x, depth) == LowBits(y, depth)
    decreases depth
  {
    if depth > 0 {
      var n := BucketCount(depth - 1);
      RemainderBits(x / 2, y / 2, depth - 1);
      HalfRemainder(x, n);
      HalfRemainder(y, n);
      var p, q := LowBits(x, depth), LowBits(y, depth);
      assert p[1..] == LowBits(x / 2, depth - 1) && q[1..] == LowBits(y / 2, depth - 1);
      assert p == [p[0]] + p[1..] && q == [q[0]] + q[1..];
    }
  }

  lemma {:induction false} CountIsPower(depth: nat)
    ensures BucketCount(depth) == Power(2, depth)
  {
    if depth > 0 { CountIsPower(depth - 1); }
  }

  /** A digest of depth `d` has two to the `d` buckets, and two keys share one exactly when the lowest `d`
      bits of their hashes are the same. */
  lemma BucketsByBits(h: Hashing, m: State, order: seq<Key>, id: ReplicaId, gen: nat, depth: nat, j: Key, k: Key)
    requires forall x :: x in order ==> x in m
    ensures |Summary(h, m, order, id, gen, depth).buckets| == Power(2, depth)
    ensures BucketOf(h, j, Power(2, depth)) == BucketOf(h, k, Power(2, depth)) <==>
              LowBits(h.key(j), depth) == LowBits(h.key(k), depth)
  {
    hide Root, FromDigests, InBucket;
    CountIsPower(depth);
    RemainderBits(h.key(j), h.key(k), depth);
  }

  // ---------------------------------------------------------------- what a root tells

  /** How many keys the first `n` buckets list. */
  function Listed(h: Hashing, order: seq<Key>, size: nat, n: nat): nat
    requires size > 0
    decreases n
  {
    if n == 0 then 0 else Listed(h, order, size, n - 1) + |InBucket(h, order, size, n - 1)|
  }

  lemma {:induction false} ListedSnoc(h: Hashing, order: seq<Key>, k: Key, size: nat, n: nat)
    requires size > 0
    ensures Listed(h, order + [k], size, n) == Listed(h, order, size, n) + (if BucketOf(h, k, size) < n then 1 else 0)
    decreases n
  {
    if n > 0 {
      ListedSnoc(h, order, k, size, n - 1);
      assert (order + [k])[..|order|] == order;
    }
  }

  lemma {:induction false} ListedNone(h: Hashing, size: nat, n: nat)
    requires size > 0
    ensures Listed(h, [], size, n) == 0
    decreases n
  {
    if n > 0 { ListedNone(h, size, n - 1); }
  }

  /** Every key is in one bucket. */
  lemma {:induction false} ListedAll(h: Hashing, order: seq<Key>, size: nat)
    requires size > 0
    ensures Listed(h, order, size, size) == |order|
    decreases |order|
  {
    if order == [] {
      ListedNone(h, size, size);
    } else {
      var n := |order| - 1;
      ListedAll(h, order[..n], size);
      ListedSnoc(h, order[..n], order[n], size, size);
      assert order == order[..n] + [order[n]];
    }
  }

  lemma {:induction false} ListsSize(order: seq<Key>, m: State)
    requires Lists(order, m)
    ensures |order| == |m|
    decreases |order|
  {
    if order == [] {
      assert m == map[];
    } else {
      var n := |order| - 1;
      var k, less := order[n], m - {order[n]};
      assert order == order[..n] + [k];
      ListsSize(order[..n], less);
      assert less.Keys == m.Keys - {k};
      assert |m| == |m.Keys| && |less| == |less.Keys|;
    }
  }

  /** The newest of some times. */
  predicate Newest(t: nat, ds: seq<KeyDigest>) {
    && (forall i :: 0 <= i < |ds| ==> ds[i].time <= t)
    && (if ds == [] then t == 0 else exists i :: 0 <= i < |ds| && ds[i].time == t)
  }

  lemma {:induction false} MaxTimeIsNewest(ds: seq<KeyDigest>)
    ensures Newest(MaxTime(ds), ds)
  {
    if ds != [] {
      var n := |ds| - 1;
      MaxTimeIsNewest(ds[..n]);
      assert ds[n].time <= MaxTime(ds);
      if MaxTime(ds) != ds[n].time {
        var i :| 0 <= i < n && ds[..n][i].time == MaxTime(ds[..n]);
        assert ds[i].time == MaxTime(ds);
      }
    }
  }

  /** A node counts some keys, its time is at least theirs, and it is the time of some key or zero. */
  predicate Tells(node: Node, m: State, ks: set<Key>, count: nat) {
    && node.count == count && (node.count == 0 ==> node.maxTime == 0)
    && (forall k :: k in ks && k in m ==> m[k].stamp.time <= node.maxTime)
    && (node.maxTime == 0 || exists k :: k in m && m[k].stamp.time == node.maxTime)
  }

  lemma CombineTells(h: Hashing, l: Node, r: Node, m: State, js: set<Key>, ks: set<Key>, a: nat, b: nat)
    requires Tells(l, m, js, a) && Tells(r, m, ks, b)
    ensures Tells(Combine(h, l, r), m, js + ks, a + b)
  {
  }

  function KeysBelow(h: Hashing, order: seq<Key>, size: nat, n: nat): set<Key>
    requires size > 0
  {
    set k | k in order && BucketOf(h, k, size) < n
  }

  /** The fold of the first `n` nodes. */
  function Fold(h: Hashing, m: State, order: seq<Key>, size: nat, n: nat): Node
    requires 0 < n <= size && forall k :: k in order ==> k in m
  {
    Root(h, Nodes(h, Table(h, m, order, size)), n)
  }

  lemma FoldStep(h: Hashing, m: State, order: seq<Key>, size: nat, n: nat)
    requires 0 < n <= size && forall k :: k in order ==> k in m
    ensures var ks := InBucket(h, order, size, n - 1);
            var node := FromDigests(h, Digests(h, m, ks));
            Fold(h, m, order, size, n) == if n == 1 then node else Combine(h, Fold(h, m, order, size, n - 1), node)
  {
    hide InBucket, FromDigests, Combine;
  }

  lemma BelowStep(h: Hashing, order: seq<Key>, size: nat, n: nat)
    requires 0 < n <= size
    ensures var ks := InBucket(h, order, size, n - 1);
            && Listed(h, order, size, n) == Listed(h, order, size, n - 1) + |ks|
            && KeysBelow(h, order, size, n) == KeysBelow(h, order, size, n - 1) + (set k | k in ks)
  {
    hide InBucket;
  }

  lemma NothingBelow(h: Hashing, order: seq<Key>, size: nat)
    requires size > 0
    ensures KeysBelow(h, order, size, 0) == {} && Listed(h, order, size, 0) == 0
  {
  }

  /** The fold of the first `n` buckets tells of their keys. */
  lemma {:induction false} FoldTells(h: Hashing, m: State, order: seq<Key>, size: nat, n: nat)
    requires 0 < n <= size && forall k :: k in order ==> k in m
    ensures Tells(Fold(h, m, order, size, n), m, KeysBelow(h, order, size, n), Listed(h, order, size, n))
    decreases n
  {
    hide Fold, InBucket, FromDigests, Combine, Tells, KeysBelow, Listed, Digests, BucketOf;
    var ks := InBucket(h, order, size, n - 1);
    FoldStep(h, m, order, size, n);
    BelowStep(h, order, size, n);
    NodeTells(h, m, ks);
    var here := set k | k in ks;
    if n == 1 {
      NothingBelow(h, order, size);
      assert {} + here == here;
    } else {
      FoldTells(h, m, order, size, n - 1);
      CombineTells(h, Fold(h, m, order, size, n - 1), FromDigests(h, Digests(h, m, ks)), m,
                   KeysBelow(h, order, size, n - 1), here, Listed(h, order, size, n - 1), |ks|);
    }
  }

  lemma NodeTells(h: Hashing, m: State, ks: seq<Key>)
    requires forall k :: k in ks ==> k in m
    ensures Tells(FromDigests(h, Digests(h, m, ks)), m, set k | k in ks, |ks|)
  {
    var ds := Digests(h, m, ks);
    MaxTimeIsNewest(ds);
    var node := FromDigests(h, ds);
    forall k | k in ks ensures m[k].stamp.time <= node.maxTime {
      var i :| 0 <= i < |ks| && ks[i] == k;
      assert ds[i].time == m[k].stamp.time;
    }
    if ks != [] {
      var i :| 0 <= i < |ds| && ds[i].time == MaxTime(ds);
      assert ks[i] in m && ds[i].time == m[ks[i]].stamp.time;
    }
  }

  /** A digest's root counts the keys and carries the newest outer time. */
  lemma SummaryTells(h: Hashing, m: State, order: seq<Key>, id: ReplicaId, generation: nat, depth: nat)
    requires Lists(order, m)
    ensures var root := Summary(h, m, order, id, generation, depth).root;
            && root.count == |m|
            && (forall k :: k in m ==> m[k].stamp.time <= root.maxTime)
            && (root.maxTime == 0 || exists k :: k in m && m[k].stamp.time == root.maxTime)
  {
    var size := BucketCount(depth);
    FoldTells(h, m, order, size, size);
    ListedAll(h, order, size);
    ListsSize(order, m);
    hide Root, Table, Listed, InBucket;
    forall k | k in m ensures k in KeysBelow(h, order, size, size) { }
  }

  // ---------------------------------------------------------------- digests of different sizes

  /** The node of a bucket, or that of an empty one beyond the end. */
  function Padded(a: StateDigest, i: nat): Node {
    if i < |a.buckets| then a.buckets[i] else EMPTY
  }

  /** Two digests, of any depths, name no bucket exactly when they are the same with empty buckets added to the
      shorter one. */
  lemma NoneDivergesIff(a: StateDigest, b: StateDigest)
    requires forall i :: 0 <= i < |a.buckets| && a.buckets[i].count == 0 ==> a.buckets[i] == EMPTY
    requires forall i :: 0 <= i < |b.buckets| && b.buckets[i].count == 0 ==> b.buckets[i] == EMPTY
    ensures (forall i: nat :: !Diverges(a, b, i)) <==> (forall i: nat :: Padded(a, i) == Padded(b, i))
  {
    forall i: nat ensures Diverges(a, b, i) <==> Padded(a, i) != Padded(b, i) { }
    if forall i: nat :: Padded(a, i) == Padded(b, i) {
      forall i: nat ensures !Diverges(a, b, i) { assert Padded(a, i) == Padded(b, i); }
    }
  }
}
