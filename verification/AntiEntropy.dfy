/** Anti-entropy between two replicas: compare digests, then pull the keys of divergent buckets
    (src/replication/anti_entropy.rs). */
module AntiEntropy {
  import opened Numbers
  import opened Executor
  import opened Lattice
  import opened Replica
  import opened Merkle

  // ---------------------------------------------------------------- equal digests

  /** No collision between the keys of the two states, nor between the two values of one key. */
  ghost predicate HashesApart(h: Hashing, m: State, n: State) {
    && (forall j, k :: j in m.Keys + n.Keys && k in m.Keys + n.Keys && h.key(j) == h.key(k) ==> j == k)
    && (forall k :: k in m && k in n && h.value(SigOf(m[k])) == h.value(SigOf(n[k])) ==> SigOf(m[k]) == SigOf(n[k]))
  }

  predicate SameSigs(m: State, n: State, ks: seq<Key>)
    requires forall k :: k in ks ==> k in m && k in n
  {
    forall k :: k in ks ==> SigOf(m[k]) == SigOf(n[k])
  }

  predicate SameHashes(x: KeyDigest, y: KeyDigest) {
    x.keyHash == y.keyHash && x.valueHash == y.valueHash
  }

  predicate SameHashesAll(x: seq<KeyDigest>, y: seq<KeyDigest>) {
    |x| == |y| && forall i :: 0 <= i < |x| ==> SameHashes(x[i], y[i])
  }

  lemma SplitWords(a: seq<nat>, b: seq<nat>, c: seq<nat>, d: seq<nat>)
    requires |a| == |c| && |b| == |d|
    ensures a + b == c + d <==> a == c && b == d
  {
    if a + b == c + d {
      assert a == (a + b)[..|a|] && c == (c + d)[..|c|];
      assert b == (a + b)[|a|..] && d == (c + d)[|c|..];
    }
  }

  lemma {:induction false} WordsEqualIff(x: seq<KeyDigest>, y: seq<KeyDigest>)
    ensures Words(x) == Words(y) <==> SameHashesAll(x, y)
  {
    assert |Words(x)| == 2 * |x| && |Words(y)| == 2 * |y|;
    if |x| == |y| && x != [] {
      var i := |x| - 1;
      WordsEqualIff(x[..i], y[..i]);
      SplitWords(Words(x[..i]), [x[i].keyHash, x[i].valueHash], Words(y[..i]), [y[i].keyHash, y[i].valueHash]);
      assert SameHashesAll(x, y) <==> SameHashesAll(x[..i], y[..i]) && SameHashes(x[i], y[i]);
    }
  }

  /** One bucket hashes alike exactly when it lists the same keys in the same order with the same
      outer stamps and visible strings. */
  lemma BucketSameIff(h: Hashing, m: State, n: State, js: seq<Key>, ks: seq<Key>)
    requires HashesApart(h, m, n)
    requires (forall k :: k in js ==> k in m) && (forall k :: k in ks ==> k in n)
    ensures Words(Digests(h, m, js)) == Words(Digests(h, n, ks)) <==> js == ks && SameSigs(m, n, js)
  {
    hide Words;
    var x, y := Digests(h, m, js), Digests(h, n, ks);
    WordsEqualIff(x, y);
    if SameHashesAll(x, y) {
      forall i | 0 <= i < |js| ensures js[i] == ks[i] && SigOf(m[js[i]]) == SigOf(n[js[i]]) {
        assert SameHashes(x[i], y[i]);
        assert js[i] in m.Keys + n.Keys && ks[i] in m.Keys + n.Keys;
      }
      assert js == ks;
    }
  }

  ghost predicate Comparable(h: Hashing, m: State, o: seq<Key>, n: State, p: seq<Key>, size: nat) {
    && size > 0 && Lists(o, m) && Lists(p, n) && HashesApart(h, m, n)
    && CollisionFree(h, Table(h, m, o, size), Table(h, n, p, size))
  }

  function RootHashOf(h: Hashing, m: State, o: seq<Key>, size: nat): nat
    requires size > 0 && forall k :: k in o ==> k in m
  {
    Root(h, Nodes(h, Table(h, m, o, size)), size).hash
  }

  /** The same keys, bucket by bucket in the same iteration order, with the same stamps and views. */
  ghost predicate InStep(h: Hashing, m: State, o: seq<Key>, n: State, p: seq<Key>, size: nat)
    requires size > 0 && Lists(o, m) && Lists(p, n)
  {
    m.Keys == n.Keys && SameOrder(h, o, p, size) && LookAlike(m, n)
  }

  predicate SameOrder(h: Hashing, o: seq<Key>, p: seq<Key>, size: nat)
    requires size > 0
  {
    forall b :: 0 <= b < size ==> InBucket(h, o, size, b) == InBucket(h, p, size, b)
  }

  predicate LookAlike(m: State, n: State)
    requires m.Keys == n.Keys
  {
    forall k :: k in m ==> SigOf(m[k]) == SigOf(n[k])
  }

  lemma TableSame(h: Hashing, m: State, o: seq<Key>, n: State, p: seq<Key>, size: nat)
    requires Comparable(h, m, o, n, p, size)
    ensures AllSame(Table(h, m, o, size), Table(h, n, p, size), size) <==> InStep(h, m, o, n, p, size)
  {
    hide Words, InBucket, CollisionFree;
    var s, t := Table(h, m, o, size), Table(h, n, p, size);
    forall b | 0 <= b < size ensures Words(s[b]) == Words(t[b]) <==>
        InBucket(h, o, size, b) == InBucket(h, p, size, b) && SameSigs(m, n, InBucket(h, o, size, b))
    {
      BucketSameIff(h, m, n, InBucket(h, o, size, b), InBucket(h, p, size, b));
    }
    if AllSame(s, t, size) {
      forall k | k in m || k in n ensures k in m && k in n && SigOf(m[k]) == SigOf(n[k]) {
        var b := BucketOf(h, k, size);
        assert Words(s[b]) == Words(t[b]);
        assert k in InBucket(h, o, size, b);
      }
      assert m.Keys == n.Keys;
    }
  }

  /** Without collisions, the two root hashes are equal exactly when the states are in step. */
  lemma DigestsEqualIff(h: Hashing, m: State, o: seq<Key>, n: State, p: seq<Key>, size: nat)
    requires Comparable(h, m, o, n, p, size)
    ensures RootHashOf(h, m, o, size) == RootHashOf(h, n, p, size) <==> InStep(h, m, o, n, p, size)
  {
    TableSame(h, m, o, n, p, size);
    RootsEqualIff(h, Table(h, m, o, size), Table(h, n, p, size), size);
  }

  /** So one state, listed in two orders that differ inside a bucket, is reported as divergent
      from itself. */
  lemma OrderRaisesFalseAlarm(h: Hashing, m: State, o: seq<Key>, p: seq<Key>, size: nat, b: nat)
    requires Comparable(h, m, o, m, p, size) && b < size
    requires InBucket(h, o, size, b) != InBucket(h, p, size, b)
    ensures RootHashOf(h, m, o, size) != RootHashOf(h, m, p, size)
  {
    DigestsEqualIff(h, m, o, m, p, size);
  }

  /** Such a state exists: two keys in one bucket, under a hash that collides nowhere. */
  lemma FalseAlarmExists() returns (h: Hashing, m: State, o: seq<Key>, p: seq<Key>)
    ensures Comparable(h, m, o, m, p, 1) && InBucket(h, o, 1, 0) != InBucket(h, p, 1, 0)
    ensures RootHashOf(h, m, o, 1) != RootHashOf(h, m, p, 1)
  {
    var a: Key, b: Key := [97], [98];
    var v := Replicated(Lww(Register(Some([118]), Clock(1, 0), false)), None, Clock(1, 0));
    h := Hashing(k => if k == a then 1 else 2, s => 3, w => if w == [1, 3, 2, 3] then 1 else 2);
    m, o, p := map[a := v, b := v], [a, b], [b, a];
    assert a != b;
    hide InBucket, Root, Comparable;
    TwoKeysCompare(h, a, b, v);
    OrderRaisesFalseAlarm(h, m, o, p, 1, 0);
  }

  lemma TwoKeysCompare(h: Hashing, a: Key, b: Key, v: Replicated)
    requires h.key(a) != h.key(b)
    requires var d := h.value(SigOf(v));
             Distinguishes(h, [h.key(a), d, h.key(b), d], [h.key(b), d, h.key(a), d])
    ensures Comparable(h, map[a := v, b := v], [a, b], map[a := v, b := v], [b, a], 1)
    ensures InBucket(h, [a, b], 1, 0) != InBucket(h, [b, a], 1, 0)
  {
    hide InBucket, Words, Root, SigOf;
    var m, o, p := map[a := v, b := v], [a, b], [b, a];
    TwoInBucket(h, a, b);
    TwoInBucket(h, b, a);
    var x, y := DigestOf(h, a, v), DigestOf(h, b, v);
    TwoWords(x, y);
    TwoWords(y, x);
    var s, t := Table(h, m, o, 1), Table(h, m, p, 1);
    assert s[0] == [x, y] && t[0] == [y, x];
    assert [a, b][0] != [b, a][0];
  }

  lemma TwoInBucket(h: Hashing, a: Key, b: Key)
    ensures InBucket(h, [a, b], 1, 0) == [a, b]
  {
    assert [a, b][..1] == [a];
    assert [a][..0] == [];
    assert InBucket(h, [a], 1, 0) == [a];
  }

  lemma TwoWords(x: KeyDigest, y: KeyDigest)
    ensures Words([x, y]) == [x.keyHash, x.valueHash, y.keyHash, y.valueHash]
  {
    assert [x, y][..1] == [x];
    assert [x][..0] == [];
    assert Words([x]) == [x.keyHash, x.valueHash];
  }

  /** With equally many buckets, differing roots always name a bucket to fetch. */
  lemma DifferenceIsLocated(
    h: Hashing, m: State, o: seq<Key>, n: State, p: seq<Key>, depth: nat, i: ReplicaId, j: ReplicaId, gi: nat, gj: nat)
    requires Lists(o, m) && Lists(p, n)
    requires Summary(h, m, o, i, gi, depth).root.hash != Summary(h, n, p, j, gj, depth).root.hash
    ensures exists b: nat ::
              && b < BucketCount(depth)
              && Diverges(Summary(h, m, o, i, gi, depth), Summary(h, n, p, j, gj, depth), b)
  {
    var x, y := Summary(h, m, o, i, gi, depth), Summary(h, n, p, j, gj, depth);
    assert x.buckets != y.buckets;
    var b: nat :| b < |x.buckets| && x.buckets[b] != y.buckets[b];
    assert Diverges(x, y, b);
  }

  // ---------------------------------------------------------------- pulling keys

  /** The responder's choice: keys of the requested buckets, or all keys. */
  function Wanted(h: Hashing, order: seq<Key>, buckets: Option<seq<nat>>, size: nat): (r: seq<Key>)
    requires size > 0
    ensures forall k :: k in r <==> k in order && (buckets.Some? ==> BucketOf(h, k, size) in buckets.value)
  {
    if order == [] then []
    else
      var n := |order| - 1;
      var k := order[n];
      assert order == order[..n] + [k];
      Wanted(h, order[..n], buckets, size)
      + (if buckets.Some? && BucketOf(h, k, size) !in buckets.value then [] else [k])
  }

  function Capped(ks: seq<Key>, max: nat): seq<Key> {
    if |ks| > max then ks[..max] else ks
  }

  function DeltasOf(m: State, ks: seq<Key>, id: ReplicaId): (r: seq<Delta>)
    requires forall k :: k in ks ==> k in m
    ensures |r| == |ks| && forall i :: 0 <= i < |ks| ==> r[i] == Delta(ks[i], m[ks[i]], id)
  {
    seq(|ks|, i requires 0 <= i < |ks| => Delta(ks[i], m[ks[i]], id))
  }

  /** Merging deltas into a state one after the other. */
  function Pull(m: State, ds: seq<Delta>): State
    decreases |ds|
  {
    if ds == [] then m
    else
      var d := ds[0];
      Pull(m[d.key := if d.key in m then Merge(m[d.key], d.value) else d.value], ds[1..])
  }

  function MergeAt(a: State, b: State, k: Key): Replicated
    requires k in a || k in b
  {
    if k !in b then a[k] else if k !in a then b[k] else Merge(a[k], b[k])
  }

  /** The whole of `b` merged into `a`. */
  function Union(a: State, b: State): State {
    map k | k in a.Keys + b.Keys :: MergeAt(a, b, k)
  }

  predicate NoRepeats(ks: seq<Key>) {
    forall i, j :: 0 <= i < j < |ks| ==> ks[i] != ks[j]
  }

  predicate AllIn(ks: seq<Key>, m: State) {
    forall k :: k in ks ==> k in m
  }

  /** Pulling distinct keys merges exactly those keys and leaves every other key alone. */
  lemma {:induction false} PullAt(m: State, from: State, ks: seq<Key>, id: ReplicaId)
    requires NoRepeats(ks) && AllIn(ks, from)
    ensures var r := Pull(m, DeltasOf(from, ks, id));
            && (forall k :: k in r <==> k in m || k in ks)
            && (forall k :: k in r ==> r[k] == if k in ks then MergeAt(m, from, k) else m[k])
    decreases |ks|
  {
    if ks != [] {
      var k := ks[0];
      var next := m[k := MergeAt(m, from, k)];
      assert DeltasOf(from, ks, id)[1..] == DeltasOf(from, ks[1..], id);
      assert ks == [k] + ks[1..] && k !in ks[1..];
      PullAt(next, from, ks[1..], id);
    }
  }

  lemma {:induction false} WantedNoRepeats(h: Hashing, order: seq<Key>, buckets: Option<seq<nat>>, size: nat)
    requires size > 0 && NoRepeats(order)
    ensures NoRepeats(Wanted(h, order, buckets, size))
  {
    if order != [] {
      var n := |order| - 1;
      WantedNoRepeats(h, order[..n], buckets, size);
      var r := Wanted(h, order[..n], buckets, size);
      forall i | 0 <= i < |r| ensures r[i] != order[n] { assert r[i] in order[..n]; }
    }
  }

  /** The state after one answered sync request. */
  function Synced(
    h: Hashing, a: State, b: State, o: seq<Key>, buckets: Option<seq<nat>>, max: nat, size: nat, id: ReplicaId): State
    requires size > 0 && AllIn(o, b)
  {
    Pull(a, DeltasOf(b, Capped(Wanted(h, o, buckets, size), max), id))
  }

  predicate Requested(h: Hashing, k: Key, buckets: Option<seq<nat>>, size: nat)
    requires size > 0
  {
    buckets.Some? ==> BucketOf(h, k, size) in buckets.value
  }

  /** Any round, however small its key limit, leaves each key as it was or fully merged; a round
      within the limit merges exactly the requested keys. */
  lemma RoundIsPartial(
    h: Hashing, a: State, b: State, o: seq<Key>, buckets: Option<seq<nat>>, max: nat, size: nat, id: ReplicaId)
    requires size > 0 && Lists(o, b)
    ensures var r := Synced(h, a, b, o, buckets, max, size, id);
            && (forall k :: k in a ==> k in r)
            && (forall k :: k in r ==> (k in a && r[k] == a[k]) || (k in b && r[k] == MergeAt(a, b, k)))
            && (|Wanted(h, o, buckets, size)| <= max ==>
                  forall k :: k in a || k in b ==>
                    if k in b && Requested(h, k, buckets, size) then k in r && r[k] == MergeAt(a, b, k)
                    else (k in a <==> k in r) && (k in a ==> r[k] == a[k]))
  {
    var w := Wanted(h, o, buckets, size);
    WantedNoRepeats(h, o, buckets, size);
    var ks := Capped(w, max);
    forall k | k in ks ensures k in b { assert k in w; }
    PullAt(a, b, ks, id);
  }

  lemma AloneAt(a: State, b: State, k: Key)
    ensures k in a && k !in b ==> MergeAt(a, b, k) == a[k]
  {
  }

  /** An unlimited request for everything is the full merge. */
  lemma FullRound(h: Hashing, a: State, b: State, o: seq<Key>, max: nat, size: nat, id: ReplicaId)
    requires size > 0 && Lists(o, b) && |Wanted(h, o, None, size)| <= max
    ensures Synced(h, a, b, o, None, max, size, id) == Union(a, b)
  {
    hide Synced, Wanted, Merge, MergeAt;
    var r := Synced(h, a, b, o, None, max, size, id);
    RoundIsPartial(h, a, b, o, None, max, size, id);
    forall k ensures k in r <==> k in a || k in b
      ensures k in r ==> r[k] == MergeAt(a, b, k)
    {
      assert Requested(h, k, None, size);
      AloneAt(a, b, k);
    }
    assert r.Keys == a.Keys + b.Keys;
  }

  /** A bucket with equal nodes on both sides holds the same keys, stamps and visible strings. */
  lemma QuietBucket(h: Hashing, a: State, o: seq<Key>, b: State, p: seq<Key>, size: nat, x: nat)
    requires Comparable(h, a, o, b, p, size) && x < size
    requires FromDigests(h, Table(h, a, o, size)[x]) == FromDigests(h, Table(h, b, p, size)[x])
    ensures forall k :: BucketOf(h, k, size) == x ==> (k in a <==> k in b) && (k in a ==> SigOf(a[k]) == SigOf(b[k]))
  {
    hide Words, FromDigests;
    LeavesEqual(h, Table(h, a, o, size)[x], Table(h, b, p, size)[x]);
    BucketSameIff(h, a, b, InBucket(h, o, size, x), InBucket(h, p, size, x));
    forall k | BucketOf(h, k, size) == x
      ensures (k in a <==> k in b) && (k in a ==> SigOf(a[k]) == SigOf(b[k]))
    {
      assert k in InBucket(h, o, size, x) <==> k in a;
      assert k in InBucket(h, p, size, x) <==> k in b;
    }
  }

  /** What a digest takes to be visible is what an executor that recovers the value shows. */
  lemma ViewIsShown(v: Replicated, k: Key)
    requires v.expiry == None
    ensures View(v) == Shown(Recovered(map[k := v]), k)
  {
  }

  /** Merging values that look alike changes nothing visible. */
  lemma MergeLooksAlike(a: Replicated, b: Replicated)
    requires SigOf(a) == SigOf(b)
    ensures View(Merge(a, b)) == View(a)
  {
  }

  lemma QuietKey(
    h: Hashing, a: State, o: seq<Key>, b: State, p: seq<Key>, depth: nat, i: ReplicaId, j: ReplicaId, gi: nat,
    gj: nat, k: Key)
    requires Comparable(h, a, o, b, p, BucketCount(depth))
    requires var x := BucketOf(h, k, BucketCount(depth));
             !Diverges(Summary(h, a, o, i, gi, depth), Summary(h, b, p, j, gj, depth), x)
    ensures (k in a <==> k in b) && (k in a ==> SigOf(a[k]) == SigOf(b[k]))
  {
    hide CollisionFree, HashesApart, Root, FromDigests, BucketCount, InBucket, SigOf;
    QuietBucket(h, a, o, b, p, BucketCount(depth), BucketOf(h, k, BucketCount(depth)));
  }

  /** The list of divergent buckets, as `DivergentBuckets` computes it. */
  ghost predicate NamesDivergent(ds: seq<nat>, a: StateDigest, b: StateDigest) {
    forall x: nat :: x in ds <==> Diverges(a, b, x)
  }

  /** Fetching only the divergent buckets shows readers what merging the whole peer would. */
  lemma SelectiveSyncSuffices(
    h: Hashing, a: State, o: seq<Key>, b: State, p: seq<Key>, depth: nat, ds: seq<nat>, max: nat, i: ReplicaId,
    j: ReplicaId, gi: nat, gj: nat)
    requires Comparable(h, a, o, b, p, BucketCount(depth))
    requires NamesDivergent(ds, Summary(h, a, o, i, gi, depth), Summary(h, b, p, j, gj, depth))
    requires |Wanted(h, p, Some(ds), BucketCount(depth))| <= max
    ensures var r := Synced(h, a, b, p, Some(ds), max, BucketCount(depth), j);
            && r.Keys == Union(a, b).Keys
            && forall k :: k in r ==> View(r[k]) == View(Union(a, b)[k])
  {
    hide CollisionFree, HashesApart, Synced, Wanted, Merge, Summary, Diverges, Union, BucketCount, View;
    var size := BucketCount(depth);
    var r := Synced(h, a, b, p, Some(ds), max, size, j);
    RoundIsPartial(h, a, b, p, Some(ds), max, size, j);
    UnionKeys(a, b);
    forall k | k in a || k in b ensures k in r && View(r[k]) == View(Union(a, b)[k]) {
      UnionAt(a, b, k);
      if k in b && !Requested(h, k, Some(ds), size) {
        QuietKey(h, a, o, b, p, depth, i, j, gi, gj, k);
        MergeLooksAlike(a[k], b[k]);
      }
    }
  }

  lemma UnionAt(a: State, b: State, k: Key)
    requires k in a || k in b
    ensures k in Union(a, b) && Union(a, b)[k] == MergeAt(a, b, k)
  {
  }

  // ---------------------------------------------------------------- after a full exchange

  /** Two replicas hold values of one kind at each common key, with stamps that identify their writes. */
  ghost predicate Compatible(a: State, b: State) {
    forall k :: k in a && k in b ==> SameKind(a[k], b[k]) && Consistent(a[k].crdt, b[k].crdt)
  }

  /** Merging back and forth gains nothing after the first exchange. */
  lemma MergeAbsorbs(a: Replicated, b: Replicated)
    requires SameKind(a, b) && Consistent(a.crdt, b.crdt)
    ensures Merge(Merge(a, b), Merge(b, a)) == Merge(a, b)
    ensures Merge(b, Merge(a, b)) == Merge(b, a)
    ensures MergeCrdt(a, b) == MergeCrdt(b, a)
    ensures SigOf(Merge(a, b)) == SigOf(Merge(b, a)) <==> a.stamp.replica == b.stamp.replica
  {
    MergeCommutesForReaders(a, b);
  }

  lemma UnionIs(a: State, b: State, r: State)
    requires r.Keys == a.Keys + b.Keys && forall k :: k in r ==> r[k] == MergeAt(a, b, k)
    ensures Union(a, b) == r
  {
    hide MergeAt;
  }

  lemma UnionKeys(a: State, b: State)
    ensures Union(a, b).Keys == Union(b, a).Keys == a.Keys + b.Keys
  {
    hide MergeAt;
  }

  /** After a full exchange in both directions, simultaneous or one after the other, both
      replicas hold the same registers, and another exchange changes nothing. */
  lemma ExchangeAgrees(a: State, b: State)
    requires Compatible(a, b)
    ensures var x, y := Union(a, b), Union(b, a);
            && x.Keys == y.Keys
            && (forall k :: k in x ==> x[k].crdt == y[k].crdt && View(x[k]) == View(y[k]))
            && Union(b, x) == y && Union(x, y) == x && Union(y, x) == y
  {
    hide Union, MergeAt, Compatible;
    var x, y := Union(a, b), Union(b, a);
    UnionKeys(a, b);
    forall k | k in x
      ensures x[k].crdt == y[k].crdt && MergeAt(b, x, k) == y[k] && MergeAt(x, y, k) == x[k] && MergeAt(y, x, k) == y[k]
    {
      ExchangeAt(a, b, k);
    }
    UnionIs(b, x, y);
    UnionIs(x, y, x);
    UnionIs(y, x, y);
  }

  lemma ExchangeAt(a: State, b: State, k: Key)
    requires Compatible(a, b) && (k in a || k in b)
    ensures var x, y := Union(a, b), Union(b, a);
            && x[k].crdt == y[k].crdt && MergeAt(b, x, k) == y[k]
            && MergeAt(x, y, k) == x[k] && MergeAt(y, x, k) == y[k]
            && (SigOf(x[k]) == SigOf(y[k]) <==> (k in a && k in b ==> a[k].stamp.replica == b[k].stamp.replica))
  {
    if k in a && k in b {
      MergeAbsorbs(a[k], b[k]);
      MergeAbsorbs(b[k], a[k]);
      assert Union(a, b)[k] == Merge(a[k], b[k]) && Union(b, a)[k] == Merge(b[k], a[k]);
      hide Merge;
    } else {
      var v := if k in a then a[k] else b[k];
      MergeLaws(v, v, v);
      assert Union(a, b)[k] == v && Union(b, a)[k] == v;
      hide Merge;
    }
  }

  predicate SameIds(a: State, b: State) {
    forall k :: k in a && k in b ==> a[k].stamp.replica == b[k].stamp.replica
  }

  lemma ExchangeLooksAlikeIff(a: State, b: State)
    requires Compatible(a, b)
    ensures Union(a, b).Keys == Union(b, a).Keys
    ensures LookAlike(Union(a, b), Union(b, a)) <==> SameIds(a, b)
  {
    hide Union, MergeAt, Compatible, SigOf;
    UnionKeys(a, b);
    var x, y := Union(a, b), Union(b, a);
    forall k | k in x
      ensures SigOf(x[k]) == SigOf(y[k]) <==> (k in a && k in b ==> a[k].stamp.replica == b[k].stamp.replica)
    {
      ExchangeAt(a, b, k);
    }
    if LookAlike(x, y) {
      forall k | k in a && k in b ensures a[k].stamp.replica == b[k].stamp.replica { assert k in x; }
    }
  }

  /** Yet the digests of the two agreeing replicas match only if, at every key both held, the two
      outer stamps carried one replica id; otherwise every later comparison reports divergence
      although no exchange can change anything any more. */
  lemma ExchangeSettlesIff(h: Hashing, a: State, b: State, o: seq<Key>, p: seq<Key>, size: nat)
    requires Compatible(a, b) && Comparable(h, Union(a, b), o, Union(b, a), p, size)
    ensures RootHashOf(h, Union(a, b), o, size) == RootHashOf(h, Union(b, a), p, size) <==>
              SameIds(a, b) && SameOrder(h, o, p, size)
  {
    hide Union, RootHashOf, SameOrder, LookAlike, SameIds, Compatible, CollisionFree, HashesApart;
    DigestsEqualIff(h, Union(a, b), o, Union(b, a), p, size);
    ExchangeLooksAlikeIff(a, b);
  }

  /** Selective sync in both directions: both replicas end with the same keys and show readers the
      same values, namely those of the full merge. */
  lemma SelectiveExchangeAgrees(
    h: Hashing, a: State, o: seq<Key>, b: State, p: seq<Key>, depth: nat, ds: seq<nat>, max: nat, i: ReplicaId,
    j: ReplicaId, gi: nat, gj: nat)
    requires Compatible(a, b)
    requires Comparable(h, a, o, b, p, BucketCount(depth)) && Comparable(h, b, p, a, o, BucketCount(depth))
    requires NamesDivergent(ds, Summary(h, a, o, i, gi, depth), Summary(h, b, p, j, gj, depth))
    requires |Wanted(h, p, Some(ds), BucketCount(depth))| <= max && |Wanted(h, o, Some(ds), BucketCount(depth))| <= max
    ensures var x := Synced(h, a, b, p, Some(ds), max, BucketCount(depth), j);
            var y := Synced(h, b, a, o, Some(ds), max, BucketCount(depth), i);
            && x.Keys == y.Keys == Union(a, b).Keys
            && forall k :: k in x ==> View(x[k]) == View(y[k]) == View(Union(a, b)[k])
  {
    hide CollisionFree, HashesApart, Synced, Wanted, Summary, Union, BucketCount, Compatible, View, NamesDivergent;
    SelectiveSyncSuffices(h, a, o, b, p, depth, ds, max, i, j, gi, gj);
    NamesEitherWay(ds, Summary(h, a, o, i, gi, depth), Summary(h, b, p, j, gj, depth));
    SelectiveSyncSuffices(h, b, p, a, o, depth, ds, max, j, i, gj, gi);
    ExchangeAgrees(a, b);
  }

  lemma NamesEitherWay(ds: seq<nat>, a: StateDigest, b: StateDigest)
    requires NamesDivergent(ds, a, b)
    ensures NamesDivergent(ds, b, a)
  {
    forall x: nat ensures x in ds <==> Diverges(b, a, x) { assert Diverges(a, b, x) <==> Diverges(b, a, x); }
  }

  // ---------------------------------------------------------------- the whole state

  /** On the keys that a request leaves out, the peer has nothing new for us. */
  ghost predicate QuietCovers(h: Hashing, a: State, b: State, ds: seq<nat>, size: nat)
    requires size > 0
  {
    forall k :: k in a && k in b && !Requested(h, k, Some(ds), size) ==> Covers(a[k], b[k])
  }

  /** Selective sync reaches the full merge of the whole states, not only of what readers see,
      exactly when our values already cover the peer's in the buckets it skips. */
  lemma SelectiveSyncIsFullIff(
    h: Hashing, a: State, o: seq<Key>, b: State, p: seq<Key>, depth: nat, ds: seq<nat>, max: nat,
    i: ReplicaId, j: ReplicaId, gi: nat, gj: nat)
    requires Comparable(h, a, o, b, p, BucketCount(depth))
    requires NamesDivergent(ds, Summary(h, a, o, i, gi, depth), Summary(h, b, p, j, gj, depth))
    requires |Wanted(h, p, Some(ds), BucketCount(depth))| <= max
    ensures Synced(h, a, b, p, Some(ds), max, BucketCount(depth), j) == Union(a, b) <==>
              QuietCovers(h, a, b, ds, BucketCount(depth))
  {
    hide CollisionFree, HashesApart, Synced, Wanted, Merge, Summary, Union, BucketCount, Covers, Diverges;
    var size := BucketCount(depth);
    var r := Synced(h, a, b, p, Some(ds), max, size, j);
    RoundIsPartial(h, a, b, p, Some(ds), max, size, j);
    UnionKeys(a, b);
    forall k | k in a || k in b
      ensures k in r && k in Union(a, b)
      ensures r[k] == Union(a, b)[k] <==>
                (k in a && k in b && !Requested(h, k, Some(ds), size) ==> Covers(a[k], b[k]))
    {
      UnionAt(a, b, k);
      if k in b && !Requested(h, k, Some(ds), size) {
        QuietKey(h, a, o, b, p, depth, i, j, gi, gj, k);
        CoversIff(a[k], b[k]);
      }
    }
    SameStateIff(r, Union(a, b));
  }

  lemma SameStateIff(r: State, u: State)
    ensures r == u <==> (forall k :: k in r <==> k in u) && (forall k :: k in r && k in u ==> r[k] == u[k])
  {
    if (forall k :: k in r <==> k in u) { assert r.Keys == u.Keys; }
  }

  /** Values that look alike and cover each other are the same value. */
  lemma MutualCover(a: Replicated, b: Replicated)
    requires SigOf(a) == SigOf(b) && SameKind(a, b) && Consistent(a.crdt, b.crdt)
    ensures Covers(a, b) && Covers(b, a) <==> a == b
  {
    CoversIff(a, b);
    CoversIff(b, a);
    MergeCommutesForReaders(a, b);
    MergeLaws(a, a, a);
  }

  /** Selective sync in both directions takes both replicas to the join of their whole states exactly
      when, in the buckets whose digests agree, they already hold the very same values. */
  lemma SelectiveExchangeIsFullIff(
    h: Hashing, a: State, o: seq<Key>, b: State, p: seq<Key>, depth: nat, ds: seq<nat>, max: nat,
    i: ReplicaId, j: ReplicaId, gi: nat, gj: nat)
    requires Compatible(a, b)
    requires Comparable(h, a, o, b, p, BucketCount(depth)) && Comparable(h, b, p, a, o, BucketCount(depth))
    requires NamesDivergent(ds, Summary(h, a, o, i, gi, depth), Summary(h, b, p, j, gj, depth))
    requires |Wanted(h, p, Some(ds), BucketCount(depth))| <= max && |Wanted(h, o, Some(ds), BucketCount(depth))| <= max
    ensures var size := BucketCount(depth);
            && Synced(h, a, b, p, Some(ds), max, size, j) == Union(a, b)
            && Synced(h, b, a, o, Some(ds), max, size, i) == Union(b, a) <==>
              forall k :: k in a && k in b && !Requested(h, k, Some(ds), size) ==> a[k] == b[k]
  {
    hide CollisionFree, HashesApart, Synced, Wanted, Merge, Summary, Union, BucketCount, Covers, Diverges,
        NamesDivergent, SigOf;
    var size := BucketCount(depth);
    SelectiveSyncIsFullIff(h, a, o, b, p, depth, ds, max, i, j, gi, gj);
    NamesEitherWay(ds, Summary(h, a, o, i, gi, depth), Summary(h, b, p, j, gj, depth));
    SelectiveSyncIsFullIff(h, b, p, a, o, depth, ds, max, j, i, gj, gi);
    forall k | k in a && k in b && !Requested(h, k, Some(ds), size)
      ensures Covers(a[k], b[k]) && Covers(b[k], a[k]) <==> a[k] == b[k]
    {
      QuietNamed(ds, Summary(h, a, o, i, gi, depth), Summary(h, b, p, j, gj, depth), BucketOf(h, k, size));
      QuietKey(h, a, o, b, p, depth, i, j, gi, gj, k);
      MutualCover(a[k], b[k]);
    }
  }

  lemma QuietNamed(ds: seq<nat>, a: StateDigest, b: StateDigest, x: nat)
    requires NamesDivergent(ds, a, b) && x !in ds
    ensures !Diverges(a, b, x)
  {
  }

  /** The second pull may as well come from the updated first replica. */
  lemma SecondPullFromUpdated(
    h: Hashing, a: State, o: seq<Key>, b: State, p: seq<Key>, ds: seq<nat>, max: nat, size: nat,
    i: ReplicaId, j: ReplicaId, q: seq<Key>)
    requires size > 0 && Compatible(a, b) && Lists(o, a) && Lists(p, b)
    requires |Wanted(h, p, Some(ds), size)| <= max && |Wanted(h, o, Some(ds), size)| <= max
    requires Lists(q, Synced(h, a, b, p, Some(ds), max, size, j)) && |Wanted(h, q, Some(ds), size)| <= max
    ensures Synced(h, b, Synced(h, a, b, p, Some(ds), max, size, j), q, Some(ds), max, size, i) ==
            Synced(h, b, a, o, Some(ds), max, size, i)
  {
    hide Synced, Wanted, Merge, MergeAt, Compatible;
    var x := Synced(h, a, b, p, Some(ds), max, size, j);
    var y, z := Synced(h, b, x, q, Some(ds), max, size, i), Synced(h, b, a, o, Some(ds), max, size, i);
    RoundIsPartial(h, a, b, p, Some(ds), max, size, j);
    RoundIsPartial(h, b, x, q, Some(ds), max, size, i);
    RoundIsPartial(h, b, a, o, Some(ds), max, size, i);
    forall k ensures k in y <==> k in z
      ensures k in y && k in z ==> y[k] == z[k]
    {
      PullsMeet(h, a, b, x, ds, size, k);
    }
    SameStateIff(y, z);
  }

  /** At one key: merging the peer's merge is merging the peer. */
  lemma PullsMeet(h: Hashing, a: State, b: State, x: State, ds: seq<nat>, size: nat, k: Key)
    requires size > 0 && Compatible(a, b)
    requires k in a || k in b ==>
               if k in b && Requested(h, k, Some(ds), size) then k in x && x[k] == MergeAt(a, b, k)
               else (k in a <==> k in x) && (k in a ==> x[k] == a[k])
    ensures k in b && k in x && Requested(h, k, Some(ds), size) ==>
              MergeAt(b, x, k) == if k in a then MergeAt(b, a, k) else b[k]
    ensures k !in b && k in x && k in a ==> MergeAt(b, x, k) == MergeAt(b, a, k)
  {
    if k in b && k in x && Requested(h, k, Some(ds), size) {
      if k in a { MergeAbsorbs(a[k], b[k]); } else { MergeLaws(b[k], b[k], b[k]); }
      hide Merge;
    }
  }

  const BLIND: Key := [107]

  /** One string with one outer stamp, written under the register stamp `t`. */
  function Blind(t: Clock): State {
    map[BLIND := Replicated(Lww(Register(Some([118]), t, false)), None, Clock(1, 0))]
  }

  /** Two states that every digest takes for equal, whatever the hash functions. No bucket is requested, so
      the older register stays although the peer holds the newer one. */
  lemma SelectiveSyncMissesRegister(h: Hashing, depth: nat, max: nat, j: ReplicaId)
    ensures var a, b, o := Blind(Clock(1, 0)), Blind(Clock(1, 2)), [BLIND];
            && Lists(o, a) && Lists(o, b) && Compatible(a, b)
            && NamesDivergent([], Summary(h, a, o, 0, 0, depth), Summary(h, b, o, j, 0, depth))
            && Synced(h, a, b, o, Some([]), max, BucketCount(depth), j) == a && a != Union(a, b)
  {
    var a, b, o := Blind(Clock(1, 0)), Blind(Clock(1, 2)), [BLIND];
    var size := BucketCount(depth);
    DigestSeesOnlySigs(h, a, b, o, size);
    forall x: nat ensures !Diverges(Summary(h, a, o, 0, 0, depth), Summary(h, b, o, j, 0, depth), x) {
      assert Summary(h, a, o, 0, 0, depth).buckets == Summary(h, b, o, j, 0, depth).buckets;
    }
    WantsNothing(h, o, size);
    RoundIsPartial(h, a, b, o, Some([]), max, size, j);
    SameStateIff(Synced(h, a, b, o, Some([]), max, size, j), a);
    UnionAt(a, b, BLIND);
  }

  lemma {:induction false} WantsNothing(h: Hashing, order: seq<Key>, size: nat)
    requires size > 0
    ensures Wanted(h, order, Some([]), size) == []
  {
    if order != [] { WantsNothing(h, order[..|order| - 1], size); }
  }

  // ---------------------------------------------------------------- repeated rounds

  /** The state after `n` rounds against an idle peer that keeps its iteration order. */
  function Rounds(
    h: Hashing, a: State, b: State, o: seq<Key>, buckets: Option<seq<nat>>, max: nat, size: nat, id: ReplicaId,
    n: nat): State
    requires size > 0 && AllIn(o, b)
    decreases n
  {
    if n == 0 then a
    else Synced(h, Rounds(h, a, b, o, buckets, max, size, id, n - 1), b, o, buckets, max, size, id)
  }

  /** A second round brings nothing: a truncated answer always starts with the same keys. */
  lemma RoundTwice(
    h: Hashing, a: State, b: State, o: seq<Key>, buckets: Option<seq<nat>>, max: nat, size: nat, id: ReplicaId)
    requires size > 0 && Lists(o, b)
    ensures var r := Synced(h, a, b, o, buckets, max, size, id);
            Synced(h, r, b, o, buckets, max, size, id) == r
  {
    hide Merge, Wanted, Pull;
    var w := Wanted(h, o, buckets, size);
    WantedNoRepeats(h, o, buckets, size);
    var ks := Capped(w, max);
    forall k | k in ks ensures k in b { assert k in w; }
    var r := Synced(h, a, b, o, buckets, max, size, id);
    PullAt(a, b, ks, id);
    PullAt(r, b, ks, id);
    forall k | k in ks ensures k in r && MergeAt(r, b, k) == r[k] {
      if k in a { MergeAgain(a[k], b[k]); } else { MergeLaws(b[k], b[k], b[k]); }
    }
    SameStateIff(Synced(h, r, b, o, buckets, max, size, id), r);
  }

  lemma {:induction false} RoundsRepeat(
    h: Hashing, a: State, b: State, o: seq<Key>, buckets: Option<seq<nat>>, max: nat, size: nat, id: ReplicaId, n: nat)
    requires size > 0 && Lists(o, b) && n > 0
    ensures Rounds(h, a, b, o, buckets, max, size, id, n) == Synced(h, a, b, o, buckets, max, size, id)
    decreases n
  {
    hide Synced;
    if n > 1 {
      RoundsRepeat(h, a, b, o, buckets, max, size, id, n - 1);
      RoundTwice(h, a, b, o, buckets, max, size, id);
    }
  }

  /** While the same buckets stay requested, any number of rounds brings every requested key exactly
      when each key beyond the limit is one for which the peer has nothing new. */
  lemma RoundsReachIff(
    h: Hashing, a: State, b: State, o: seq<Key>, buckets: Option<seq<nat>>, max: nat, size: nat, id: ReplicaId, n: nat)
    requires size > 0 && Lists(o, b) && n > 0
    ensures var w := Wanted(h, o, buckets, size);
            Rounds(h, a, b, o, buckets, max, size, id, n) == Synced(h, a, b, o, buckets, |w|, size, id) <==>
              forall x :: max <= x < |w| ==> w[x] in a && w[x] in b && Covers(a[w[x]], b[w[x]])
  {
    hide Merge, Wanted, Pull, Covers, Rounds;
    RoundsRepeat(h, a, b, o, buckets, max, size, id, n);
    var w := Wanted(h, o, buckets, size);
    WantedNoRepeats(h, o, buckets, size);
    var ks := Capped(w, max);
    forall k | k in w ensures k in b { }
    forall k | k in ks ensures k in w { }
    PullAt(a, b, ks, id);
    PullAt(a, b, w, id);
    var r, full := Synced(h, a, b, o, buckets, max, size, id), Synced(h, a, b, o, buckets, |w|, size, id);
    assert Capped(w, |w|) == w;
    forall x | max <= x < |w|
      ensures w[x] in b && w[x] in full
      ensures (w[x] in r && r[w[x]] == full[w[x]]) <==> w[x] in a && Covers(a[w[x]], b[w[x]])
    {
      assert w[x] in w && w[x] !in ks;
      if w[x] in a { CoversIff(a[w[x]], b[w[x]]); }
    }
    if forall x :: max <= x < |w| ==> w[x] in a && w[x] in b && Covers(a[w[x]], b[w[x]]) {
      forall k ensures k in r <==> k in full
        ensures k in r && k in full ==> r[k] == full[k]
      {
        BeyondLimit(w, max, k);
      }
    }
    SameStateIff(r, full);
  }

  lemma BeyondLimit(w: seq<Key>, max: nat, k: Key)
    ensures k in w && k !in Capped(w, max) ==> exists x :: max <= x < |w| && w[x] == k
  {
    if k in w && k !in Capped(w, max) {
      var c := Capped(w, max);
      assert forall y :: 0 <= y < |c| ==> w[y] == c[y] && c[y] in c;
      var x :| 0 <= x < |w| && w[x] == k;
      assert max <= x;
    }
  }

  /** A digest sees only outer stamps and visible strings, whatever the hash functions: states that
      differ in expiries, tombstones, register stamps or hash fields alone are never told apart. */
  lemma DigestSeesOnlySigs(h: Hashing, m: State, n: State, o: seq<Key>, size: nat)
    requires size > 0 && m.Keys == n.Keys && LookAlike(m, n) && forall k :: k in o ==> k in m
    ensures Table(h, m, o, size) == Table(h, n, o, size) && RootHashOf(h, m, o, size) == RootHashOf(h, n, o, size)
  {
    hide InBucket, SigOf, Root;
    forall b | 0 <= b < size ensures Table(h, m, o, size)[b] == Table(h, n, o, size)[b] {
      var ks := InBucket(h, o, size, b);
      forall i | 0 <= i < |ks| ensures DigestOf(h, ks[i], m[ks[i]]) == DigestOf(h, ks[i], n[ks[i]]) {
        assert ks[i] in m && SigOf(m[ks[i]]) == SigOf(n[ks[i]]);
        SigTime(m[ks[i]], n[ks[i]]);
      }
    }
    assert Table(h, m, o, size) == Table(h, n, o, size);
  }

  lemma SigTime(v: Replicated, w: Replicated)
    requires SigOf(v) == SigOf(w)
    ensures v.stamp.time == w.stamp.time
  {
  }

  // ---------------------------------------------------------------- the manager

  datatype SyncRequest = SyncRequest(
    source: ReplicaId, target: ReplicaId, digest: StateDigest, buckets: Option<seq<nat>>)

  datatype SyncResponse = SyncResponse(source: ReplicaId, deltas: seq<Delta>, digest: StateDigest)

  lemma {:induction false} WantedGrows(h: Hashing, order: seq<Key>, buckets: Option<seq<nat>>, size: nat, i: nat)
    requires size > 0 && i <= |order|
    ensures Wanted(h, order[..i], buckets, size) <= Wanted(h, order, buckets, size)
    decreases |order|
  {
    if i == |order| {
      assert order[..i] == order;
    } else {
      var n := |order| - 1;
      WantedGrows(h, order[..n], buckets, size, i);
      assert order[..n][..i] == order[..i];
    }
  }

  lemma WantedStep(h: Hashing, order: seq<Key>, buckets: Option<seq<nat>>, size: nat, i: nat)
    requires size > 0 && i < |order|
    ensures Wanted(h, order[..i + 1], buckets, size) ==
            Wanted(h, order[..i], buckets, size) + (if Requested(h, order[i], buckets, size) then [order[i]] else [])
  {
    assert order[..i + 1][..i] == order[..i];
  }

  /** Scans the map in its iteration order and stops at the key limit. */
  method SelectKeys(h: Hashing, order: seq<Key>, buckets: Option<seq<nat>>, max: nat, size: nat) returns (ks: seq<Key>)
    requires size > 0
    ensures ks == Capped(Wanted(h, order, buckets, size), max)
  {
    ks := [];
    var i := 0;
    hide Wanted;
    assert Wanted(h, order[..0], buckets, size) == [] by { WantedNone(h, order, buckets, size); }
    while i < |order| && |ks| < max
      invariant i <= |order| && |ks| <= max
      invariant ks == Wanted(h, order[..i], buckets, size)
    {
      WantedStep(h, order, buckets, size, i);
      if buckets.None? || BucketOf(h, order[i], size) in buckets.value {
        ks := ks + [order[i]];
      }
      i := i + 1;
    }
    WantedGrows(h, order, buckets, size, i);
    assert i == |order| ==> order[..i] == order;
  }

  lemma WantedNone(h: Hashing, order: seq<Key>, buckets: Option<seq<nat>>, size: nat)
    requires size > 0
    ensures Wanted(h, order[..0], buckets, size) == []
  {
  }

  lemma CappedIn(h: Hashing, m: State, order: seq<Key>, buckets: Option<seq<nat>>, max: nat, size: nat)
    requires size > 0 && Lists(order, m)
    ensures AllIn(Capped(Wanted(h, order, buckets, size), max), m)
  {
    var w := Wanted(h, order, buckets, size);
    forall k | k in Capped(w, max) ensures k in m { assert k in w; }
  }

  /** Subtraction of two u64 times; it wraps when the clock went back. */
  function Elapsed(now: nat, before: nat): int {
    if now >= before then now - before else now - before + U64_MAX + 1
  }

  class AntiEntropyManager {
    const h: Hashing
    const id: ReplicaId
    const depth: nat
    const maxKeys: nat
    const interval: nat
    const autoSync: bool
    var generation: nat
    var peerDigests: map<ReplicaId, StateDigest>
    var divergentPeers: set<ReplicaId>
    var lastSync: map<ReplicaId, nat>

    constructor (h: Hashing, id: ReplicaId, depth: nat, maxKeys: nat, interval: nat, autoSync: bool)
      ensures this.id == id && this.depth == depth && this.maxKeys == maxKeys
      ensures this.interval == interval && this.autoSync == autoSync
      ensures generation == 0 && peerDigests == map[] && divergentPeers == {} && lastSync == map[]
    {
      this.h, this.id, this.depth, this.maxKeys := h, id, depth, maxKeys;
      this.interval, this.autoSync := interval, autoSync;
      generation, peerDigests, divergentPeers, lastSync := 0, map[], {}, map[];
    }

    /** A peer is divergent exactly while its last digest's root differs from ours; the answer
        lists the buckets to fetch. */
    method ProcessPeerDigest(peer: StateDigest, ours: StateDigest) returns (r: Option<seq<nat>>)
      modifies this`peerDigests, this`divergentPeers
      ensures r.Some? <==> ours.root.hash != peer.root.hash
      ensures r.Some? ==> Increasing(r.value) && NamesDivergent(r.value, ours, peer)
      ensures peerDigests == old(peerDigests)[peer.replica := peer]
      ensures divergentPeers ==
              if r.Some? then old(divergentPeers) + {peer.replica} else old(divergentPeers) - {peer.replica}
    {
      if ours.root.hash != peer.root.hash {
        var divergent := DivergentBuckets(ours, peer);
        divergentPeers := divergentPeers + {peer.replica};
        r := Some(divergent);
      } else {
        divergentPeers := divergentPeers - {peer.replica};
        r := None;
      }
      peerDigests := peerDigests[peer.replica := peer];
    }

    /** A peer is due for a sync when none was requested yet, or the interval has passed. */
    predicate Due(peer: ReplicaId, now: nat)
      reads this
    {
      peer !in lastSync || Elapsed(now, lastSync[peer]) >= interval
    }

    /** Peers to sync with: the divergent ones, and those synced with before that are due again. */
    method PeersNeedingSync(now: nat) returns (peers: set<ReplicaId>)
      ensures forall p :: p in peers <==> p in divergentPeers || (p in lastSync && Due(p, now))
    {
      peers := divergentPeers;
      var rest := lastSync.Keys;
      while rest != {}
        invariant rest <= lastSync.Keys
        invariant forall p :: p in peers <==> p in divergentPeers || (p in lastSync && p !in rest && Due(p, now))
        decreases |rest|
      {
        var p :| p in rest;
        if Elapsed(now, lastSync[p]) >= interval { peers := peers + {p}; }
        rest := rest - {p};
      }
    }

    /** Asks the peer for the buckets; it is due again exactly when the interval has passed, where a clock that
        went back counts as almost 2^64 ahead, and no other peer's schedule moves. */
    method CreateSyncRequest(
      peer: ReplicaId, ours: StateDigest, buckets: Option<seq<nat>>, now: nat) returns (q: SyncRequest)
      modifies this`lastSync
      ensures q == SyncRequest(id, peer, ours, buckets)
      ensures forall t: nat :: t >= now ==> (Due(peer, t) <==> t - now >= interval)
      ensures forall t: nat :: t < now ==> (Due(peer, t) <==> U64_MAX + 1 >= interval + now - t)
      ensures forall p, t: nat :: p != peer ==> Due(p, t) == old(Due(p, t)) && (p in lastSync <==> p in old(lastSync))
    {
      lastSync := lastSync[peer := now];
      q := SyncRequest(id, peer, ours, buckets);
    }

    /** Answers with at most `maxKeys` keys of the requested buckets, and learns where the
        requester stands. */
    method HandleSyncRequest(q: SyncRequest, m: State, order: seq<Key>) returns (a: SyncResponse)
      requires Lists(order, m)
      modifies this`peerDigests, this`divergentPeers
      ensures a.source == id && a.digest == Summary(h, m, order, id, generation, depth)
      ensures AllIn(Capped(Wanted(h, order, q.buckets, BucketCount(depth)), maxKeys), m)
      ensures a.deltas == DeltasOf(m, Capped(Wanted(h, order, q.buckets, BucketCount(depth)), maxKeys), id)
      ensures peerDigests == old(peerDigests)[q.digest.replica := q.digest]
      ensures divergentPeers ==
              if a.digest.root.hash != q.digest.root.hash then old(divergentPeers) + {q.digest.replica}
              else old(divergentPeers) - {q.digest.replica}
    {
      var ours := FromState(h, m, order, id, generation, depth);
      var ks := SelectKeys(h, order, q.buckets, maxKeys, BucketCount(depth));
      CappedIn(h, m, order, q.buckets, maxKeys, BucketCount(depth));
      var _ := ProcessPeerDigest(q.digest, ours);
      a := SyncResponse(id, DeltasOf(m, ks, id), ours);
    }

    /** With automatic sync the peer is due at once, at any time, and stays on the list until its
        digest is seen to match; otherwise nothing changes. */
    method OnPartitionHealed(peer: ReplicaId)
      modifies this`divergentPeers, this`lastSync
      ensures autoSync ==> peer in divergentPeers && forall t: nat :: Due(peer, t)
      ensures forall p, t: nat :: p != peer ==>
                Due(p, t) == old(Due(p, t)) && (p in divergentPeers <==> p in old(divergentPeers))
      ensures !autoSync ==> divergentPeers == old(divergentPeers) && lastSync == old(lastSync)
    {
      if autoSync {
        divergentPeers := divergentPeers + {peer};
        lastSync := lastSync - {peer};
      }
    }
  }
}
