/** Repeated anti-entropy rounds against an idle peer. Each round compares fresh digests, so the buckets
    requested change as the requester catches up (src/replication/anti_entropy.rs). */
module SyncRounds {
  import opened Numbers
  import opened Executor
  import opened Lattice
  import opened Replica
  import opened Merkle
  import opened AntiEntropy

  /** What the peer holds and in which order it lists it; the depth and key limit are the protocol's. */
  datatype Peer = Peer(h: Hashing, keys: State, order: seq<Key>, id: ReplicaId, depth: nat, max: nat)

  ghost predicate Idle(p: Peer) {
    Lists(p.order, p.keys)
  }

  function Ours(p: Peer, a: State, o: seq<Key>): StateDigest
    requires AllIn(o, a)
  {
    Summary(p.h, a, o, 0, 0, p.depth)
  }

  function Theirs(p: Peer): StateDigest
    requires AllIn(p.order, p.keys)
  {
    Summary(p.h, p.keys, p.order, p.id, 0, p.depth)
  }

  function NamedUpTo(a: StateDigest, b: StateDigest, n: nat): (ds: seq<nat>)
    ensures forall x: nat :: x in ds <==> x < n && Diverges(a, b, x)
  {
    if n == 0 then [] else NamedUpTo(a, b, n - 1) + (if Diverges(a, b, n - 1) then [n - 1] else [])
  }

  /** The divergent buckets of two digests. */
  function Named(a: StateDigest, b: StateDigest): (ds: seq<nat>)
    ensures NamesDivergent(ds, a, b)
  {
    NamedUpTo(a, b, |a.buckets| + |b.buckets|)
  }

  /** What a requester that lists its keys as `o` would be sent: nothing if the roots agree. */
  function Asked(p: Peer, a: State, o: seq<Key>): (ks: seq<Key>)
    requires AllIn(o, a) && AllIn(p.order, p.keys)
    ensures AllIn(ks, p.keys)
  {
    if Ours(p, a, o).root.hash == Theirs(p).root.hash then []
    else
      var w := Wanted(p.h, p.order, Some(Named(Ours(p, a, o), Theirs(p))), BucketCount(p.depth));
      assert forall k :: k in Capped(w, p.max) ==> k in w;
      Capped(w, p.max)
  }

  /** One round: compare digests, and if the roots differ sync the divergent buckets. */
  function FreshRound(p: Peer, a: State, o: seq<Key>): State
    requires AllIn(o, a) && AllIn(p.order, p.keys)
  {
    if Ours(p, a, o).root.hash == Theirs(p).root.hash then a
    else
      Synced(p.h, a, p.keys, p.order, Some(Named(Ours(p, a, o), Theirs(p))), p.max, BucketCount(p.depth), p.id)
  }

  /** A round merges the keys it is sent and leaves the others alone. */
  lemma RoundAt(p: Peer, a: State, o: seq<Key>)
    requires Idle(p) && AllIn(o, a)
    ensures var r, ks := FreshRound(p, a, o), Asked(p, a, o);
            && (forall k :: k in r <==> k in a || k in ks)
            && (forall k :: k in r ==> r[k] == if k in ks then MergeAt(a, p.keys, k) else a[k])
  {
    hide Wanted, Pull, MergeAt, Summary, Named, BucketCount;
    if Ours(p, a, o).root.hash != Theirs(p).root.hash {
      WantedNoRepeats(p.h, p.order, Some(Named(Ours(p, a, o), Theirs(p))), BucketCount(p.depth));
      PullAt(a, p.keys, Asked(p, a, o), p.id);
    }
  }

  // ---------------------------------------------------------------- one round

  predicate CoversAt(a: State, b: State, k: Key)
    requires k in b
  {
    k in a && Covers(a[k], b[k])
  }

  /** The keys for which the peer has something new. */
  function Uncovered(a: State, b: State): set<Key> {
    set k | k in b && !CoversAt(a, b, k)
  }

  /** Everything the round would be sent is covered already. */
  predicate Stalled(p: Peer, a: State, o: seq<Key>)
    requires AllIn(o, a) && AllIn(p.order, p.keys)
  {
    forall k :: k in Asked(p, a, o) ==> CoversAt(a, p.keys, k)
  }

  /** Merging a key keeps it as it is exactly when it was covered, and leaves it covered. */
  lemma MergeCovers(a: State, b: State, k: Key)
    requires k in b
    ensures CoversAt(a, b, k) <==> k in a && MergeAt(a, b, k) == a[k]
    ensures Covers(MergeAt(a, b, k), b[k]) && Merge(MergeAt(a, b, k), b[k]) == MergeAt(a, b, k)
  {
    if k in a {
      CoversIff(a[k], b[k]);
      MergeAgain(a[k], b[k]);
    } else {
      MergeLaws(b[k], b[k], b[k]);
    }
    CoversIff(MergeAt(a, b, k), b[k]);
  }

  /** A round changes nothing if and only if it is stalled. */
  lemma RoundStallsIff(p: Peer, a: State, o: seq<Key>)
    requires Idle(p) && AllIn(o, a)
    ensures FreshRound(p, a, o) == a <==> Stalled(p, a, o)
  {
    hide FreshRound, Asked, MergeAt, Covers;
    var r := FreshRound(p, a, o);
    RoundAt(p, a, o);
    forall k | k in Asked(p, a, o) ensures CoversAt(a, p.keys, k) <==> k in a && r[k] == a[k] {
      MergeCovers(a, p.keys, k);
    }
    SameStateIff(r, a);
  }

  /** A round never uncovers a key, and a key it is sent ends covered. */
  lemma RoundUncovers(p: Peer, a: State, o: seq<Key>, k: Key)
    requires Idle(p) && AllIn(o, a) && k in p.keys
    ensures var r := FreshRound(p, a, o);
            CoversAt(r, p.keys, k) <==> CoversAt(a, p.keys, k) || k in Asked(p, a, o)
  {
    hide FreshRound, Asked, MergeAt, Covers;
    RoundAt(p, a, o);
    MergeCovers(a, p.keys, k);
  }

  /** A round that is not stalled leaves strictly fewer keys uncovered. */
  lemma RoundProgress(p: Peer, a: State, o: seq<Key>)
    requires Idle(p) && AllIn(o, a)
    ensures var r := FreshRound(p, a, o);
            && Uncovered(r, p.keys) == Uncovered(a, p.keys) - (set k | k in Asked(p, a, o))
            && (Stalled(p, a, o) ==> r == a)
            && (!Stalled(p, a, o) ==> |Uncovered(r, p.keys)| < |Uncovered(a, p.keys)|)
  {
    hide FreshRound, Asked, CoversAt;
    var r := FreshRound(p, a, o);
    RoundStallsIff(p, a, o);
    forall k | k in p.keys
      ensures k in Uncovered(r, p.keys) <==> k in Uncovered(a, p.keys) && k !in Asked(p, a, o)
    {
      RoundUncovers(p, a, o, k);
    }
    if !Stalled(p, a, o) {
      var k :| k in Asked(p, a, o) && !CoversAt(a, p.keys, k);
      assert k in Uncovered(a, p.keys) && k !in Uncovered(r, p.keys);
      Smaller(Uncovered(r, p.keys), Uncovered(a, p.keys), k);
    }
  }

  lemma Smaller(a: set<Key>, b: set<Key>, k: Key)
    requires a <= b && k in b && k !in a
    ensures |a| < |b|
  {
    assert a <= b - {k};
    Fewer(a, b - {k});
  }

  lemma {:induction false} Fewer(a: set<Key>, b: set<Key>)
    requires a <= b
    ensures |a| <= |b|
  {
    if a != {} {
      var k :| k in a;
      Fewer(a - {k}, b - {k});
    }
  }

  /** Whatever a round is sent, merging the whole peer afterwards gives the same state. */
  lemma RoundKeepsGoal(p: Peer, a: State, o: seq<Key>)
    requires Idle(p) && AllIn(o, a)
    ensures Union(FreshRound(p, a, o), p.keys) == Union(a, p.keys)
  {
    hide FreshRound, Asked, Union, Merge;
    var r := FreshRound(p, a, o);
    RoundAt(p, a, o);
    UnionKeys(r, p.keys);
    UnionKeys(a, p.keys);
    forall k | k in a || k in p.keys ensures Union(r, p.keys)[k] == Union(a, p.keys)[k] {
      UnionAt(r, p.keys, k);
      UnionAt(a, p.keys, k);
      if k in p.keys { MergeCovers(a, p.keys, k); }
    }
    SameStateIff(Union(r, p.keys), Union(a, p.keys));
  }

  /** A state is the full merge exactly when it leaves nothing uncovered. */
  lemma ReachedIff(a: State, b: State)
    ensures Union(a, b) == a <==> Uncovered(a, b) == {}
  {
    hide Union, MergeAt, CoversAt;
    UnionKeys(a, b);
    forall k | k in b ensures k in Uncovered(a, b) <==> !(k in a && Union(a, b)[k] == a[k]) {
      UnionAt(a, b, k);
      MergeCovers(a, b, k);
    }
    forall k | k in a && k !in b ensures Union(a, b)[k] == a[k] {
      UnionAt(a, b, k);
      AloneAt(a, b, k);
    }
    SameStateIff(Union(a, b), a);
  }

  lemma StalledMisses(p: Peer, a: State, o: seq<Key>, k: Key)
    requires Idle(p) && AllIn(o, a) && Stalled(p, a, o) && k in Uncovered(a, p.keys)
    ensures k in p.order && k !in Asked(p, a, o)
    ensures Ours(p, a, o).root.hash != Theirs(p).root.hash ==>
              Asked(p, a, o) ==
              Capped(Wanted(p.h, p.order, Some(Named(Ours(p, a, o), Theirs(p))), BucketCount(p.depth)), p.max)
  {
    hide Ours, Theirs, Covers, Named, Wanted, Capped;
  }

  lemma DivergentIsNamed(ds: seq<nat>, a: StateDigest, b: StateDigest, x: nat)
    requires NamesDivergent(ds, a, b) && Diverges(a, b, x)
    ensures x in ds
  {
  }

  /** What a stalled round leaves uncovered is beyond the key limit or in a bucket it does not name. */
  lemma StalledLeaves(p: Peer, a: State, o: seq<Key>, k: Key)
    requires Idle(p) && AllIn(o, a) && Stalled(p, a, o) && k in Uncovered(a, p.keys)
    requires Ours(p, a, o).root.hash != Theirs(p).root.hash
    ensures var w := Wanted(p.h, p.order, Some(Named(Ours(p, a, o), Theirs(p))), BucketCount(p.depth));
            || !Diverges(Ours(p, a, o), Theirs(p), BucketOf(p.h, k, BucketCount(p.depth)))
            || exists x :: p.max <= x < |w| && w[x] == k
  {
    hide Ours, Theirs, Named, Wanted, Capped, Asked, Stalled, Uncovered, Diverges, BucketCount, NamesDivergent;
    var x, y, size := Ours(p, a, o), Theirs(p), BucketCount(p.depth);
    var ds := Named(x, y);
    var w := Wanted(p.h, p.order, Some(ds), size);
    BeyondLimit(w, p.max, k);
    StalledMisses(p, a, o, k);
    if Diverges(x, y, BucketOf(p.h, k, size)) { DivergentIsNamed(ds, x, y, BucketOf(p.h, k, size)); }
  }

  // ---------------------------------------------------------------- runs of rounds

  /** How the requester lists its keys at each round. */
  type Listing = (nat, State) -> seq<Key>

  ghost predicate Honest(listing: Listing) {
    forall n, m :: Lists(listing(n, m), m)
  }

  /** The requester after `n` rounds. */
  function FreshRounds(p: Peer, a: State, listing: Listing, n: nat): State
    requires Idle(p) && Honest(listing)
    decreases n
  {
    if n == 0 then a
    else
      var s := FreshRounds(p, a, listing, n - 1);
      var o := listing(n - 1, s);
      assert Lists(o, s);
      FreshRound(p, s, o)
  }

  /** The next round changes nothing. */
  predicate StallsAt(p: Peer, a: State, listing: Listing, n: nat)
    requires Idle(p) && Honest(listing)
  {
    var s := FreshRounds(p, a, listing, n);
    var o := listing(n, s);
    assert Lists(o, s);
    Stalled(p, s, o)
  }

  function LeftAt(p: Peer, a: State, listing: Listing, n: nat): set<Key>
    requires Idle(p) && Honest(listing)
  {
    Uncovered(FreshRounds(p, a, listing, n), p.keys)
  }

  lemma StepAt(p: Peer, a: State, listing: Listing, n: nat)
    requires Idle(p) && Honest(listing)
    ensures LeftAt(p, a, listing, n + 1) <= LeftAt(p, a, listing, n)
    ensures if StallsAt(p, a, listing, n) then FreshRounds(p, a, listing, n + 1) == FreshRounds(p, a, listing, n)
            else |LeftAt(p, a, listing, n + 1)| < |LeftAt(p, a, listing, n)|
  {
    hide FreshRound, Asked, Uncovered, Stalled;
    var s := FreshRounds(p, a, listing, n);
    var o := listing(n, s);
    assert Lists(o, s);
    RoundProgress(p, s, o);
  }

  lemma {:induction false} LeftShrinks(p: Peer, a: State, listing: Listing, m: nat, n: nat)
    requires Idle(p) && Honest(listing) && m <= n
    ensures LeftAt(p, a, listing, n) <= LeftAt(p, a, listing, m)
    decreases n
  {
    hide LeftAt, StallsAt, FreshRounds, Honest, Idle;
    if m < n {
      LeftShrinks(p, a, listing, m, n - 1);
      StepAt(p, a, listing, n - 1);
    }
  }

  lemma {:induction false} GoalKept(p: Peer, a: State, listing: Listing, n: nat)
    requires Idle(p) && Honest(listing)
    ensures Union(FreshRounds(p, a, listing, n), p.keys) == Union(a, p.keys)
    decreases n
  {
    hide FreshRound, Union;
    if n > 0 {
      GoalKept(p, a, listing, n - 1);
      var s := FreshRounds(p, a, listing, n - 1);
      assert Lists(listing(n - 1, s), s);
      RoundKeepsGoal(p, s, listing(n - 1, s));
    }
  }

  /** A run has reached the full merge with the peer exactly when nothing is uncovered. */
  lemma RunReachedIff(p: Peer, a: State, listing: Listing, n: nat)
    requires Idle(p) && Honest(listing)
    ensures FreshRounds(p, a, listing, n) == Union(a, p.keys) <==> LeftAt(p, a, listing, n) == {}
  {
    hide FreshRounds, Union, Uncovered;
    GoalKept(p, a, listing, n);
    ReachedIff(FreshRounds(p, a, listing, n), p.keys);
  }

  /** How many of the first `n` rounds change anything. */
  ghost function Busy(p: Peer, a: State, listing: Listing, n: nat): nat
    requires Idle(p) && Honest(listing)
  {
    if n == 0 then 0 else Busy(p, a, listing, n - 1) + (if StallsAt(p, a, listing, n - 1) then 0 else 1)
  }

  /** However long the run, no more rounds change anything than there were uncovered keys. */
  lemma {:induction false} BusyBounded(p: Peer, a: State, listing: Listing, n: nat)
    requires Idle(p) && Honest(listing)
    ensures Busy(p, a, listing, n) + |LeftAt(p, a, listing, n)| <= |Uncovered(a, p.keys)|
    decreases n
  {
    hide StallsAt, Uncovered, Honest, Idle, FreshRound;
    if n > 0 {
      BusyBounded(p, a, listing, n - 1);
      StepAt(p, a, listing, n - 1);
    }
  }

  /** From some round on nothing changes any more. */
  lemma {:induction false} Settles(p: Peer, a: State, listing: Listing, n: nat) returns (m: nat)
    requires Idle(p) && Honest(listing)
    ensures m >= n && forall x :: x >= m ==> StallsAt(p, a, listing, x)
    decreases |LeftAt(p, a, listing, n)|
  {
    hide StallsAt, LeftAt;
    if x: nat :| x >= n && !StallsAt(p, a, listing, x) {
      LeftShrinks(p, a, listing, n, x);
      Fewer(LeftAt(p, a, listing, x), LeftAt(p, a, listing, n));
      StepAt(p, a, listing, x);
      m := Settles(p, a, listing, x + 1);
    } else {
      m := n;
    }
  }

  /** From round `m` on every round is stalled, with keys still uncovered. */
  ghost predicate StuckFrom(p: Peer, a: State, listing: Listing, m: nat)
    requires Idle(p) && Honest(listing)
  {
    forall n :: n >= m ==> StallsAt(p, a, listing, n) && LeftAt(p, a, listing, n) != {}
  }

  /** A run of rounds never reaches the full merge if and only if it gets stuck: from some round on all it
      is sent is covered, while keys beyond the limit or in unnamed buckets are not. */
  lemma NeverReachesIff(p: Peer, a: State, listing: Listing)
    requires Idle(p) && Honest(listing)
    ensures (forall n: nat :: FreshRounds(p, a, listing, n) != Union(a, p.keys)) <==>
              exists m: nat :: StuckFrom(p, a, listing, m)
  {
    hide FreshRounds, Union, LeftAt, StallsAt;
    if m: nat :| StuckFrom(p, a, listing, m) {
      forall n: nat ensures FreshRounds(p, a, listing, n) != Union(a, p.keys) {
        RunReachedIff(p, a, listing, n);
        var later := if n < m then m else n;
        assert LeftAt(p, a, listing, later) != {};
        LeftShrinks(p, a, listing, n, later);
      }
    } else {
      var m := Settles(p, a, listing, 0);
      assert !StuckFrom(p, a, listing, m);
      var n: nat :| n >= m && !(StallsAt(p, a, listing, n) && LeftAt(p, a, listing, n) != {});
      RunReachedIff(p, a, listing, n);
    }
  }

  /** A state that no listing of its keys gets moving stays for ever. */
  lemma {:induction false} StuckForGood(p: Peer, a: State, listing: Listing, m: nat, n: nat)
    requires Idle(p) && Honest(listing) && m <= n
    requires var s := FreshRounds(p, a, listing, m); forall o :: Lists(o, s) ==> FreshRound(p, s, o) == s
    ensures FreshRounds(p, a, listing, n) == FreshRounds(p, a, listing, m)
    decreases n
  {
    hide FreshRound;
    if m < n {
      StuckForGood(p, a, listing, m, n - 1);
      var s := FreshRounds(p, a, listing, m);
      assert Lists(listing(n - 1, s), s);
    }
  }

  // ---------------------------------------------------------------- two runs

  const X: Key := [120]
  const Y: Key := [121]
  const HELD := Replicated(Lww(Register(Some([118]), Clock(1, 1), false)), None, Clock(1, 1))

  /** Hash functions for the examples: a key hashes to its last byte less 120. */
  function Plainly(): Hashing {
    Hashing(k => if k == Y then 1 else 0, s => 3, w => 1 + |w| + (if w == [] then 0 else w[|w| - 1]))
  }

  /** A peer with two keys that answers one key at a time, with `2^depth` buckets. */
  function TwoKeys(depth: nat): Peer {
    Peer(Plainly(), map[X := HELD, Y := HELD], [X, Y], 1, depth, 1)
  }

  lemma TwoKeysIdle(depth: nat)
    ensures Idle(TwoKeys(depth))
  {
    assert X != Y;
  }

  lemma InBucketOne(h: Hashing, k: Key, size: nat, b: nat)
    requires size > 0
    ensures InBucket(h, [k], size, b) == if BucketOf(h, k, size) == b then [k] else []
  {
    assert [k][..0] == [];
  }

  lemma InBucketTwo(h: Hashing, j: Key, k: Key, size: nat, b: nat)
    requires size > 0
    ensures InBucket(h, [j, k], size, b) ==
            (if BucketOf(h, j, size) == b then [j] else []) + (if BucketOf(h, k, size) == b then [k] else [])
  {
    assert [j, k][..1] == [j];
    InBucketOne(h, j, size, b);
  }

  lemma WantedTwo(h: Hashing, j: Key, k: Key, ds: seq<nat>, size: nat)
    requires size > 0
    ensures Wanted(h, [j, k], Some(ds), size) ==
            (if BucketOf(h, j, size) in ds then [j] else []) + (if BucketOf(h, k, size) in ds then [k] else [])
  {
    assert [j, k][..1] == [j] && [j][..0] == [];
    assert Wanted(h, [j], Some(ds), size) == if BucketOf(h, j, size) in ds then [j] else [];
  }

  lemma OneNode(h: Hashing, d: KeyDigest)
    ensures FromDigests(h, [d]) == Node(h.words([d.keyHash, d.valueHash]), 1, d.time)
  {
    assert [d][..0] == [];
    assert Words([d]) == [d.keyHash, d.valueHash] && MaxTime([d]) == Max(0, d.time);
  }

  lemma TwoNode(h: Hashing, d: KeyDigest, e: KeyDigest)
    ensures FromDigests(h, [d, e]).count == 2
    ensures FromDigests(h, [d, e]).hash == h.words([d.keyHash, d.valueHash, e.keyHash, e.valueHash])
  {
    TwoWords(d, e);
  }

  /** The node of one bucket of a state. */
  function NodeAt(p: Peer, m: State, o: seq<Key>, b: nat): Node
    requires AllIn(o, m)
  {
    FromDigests(p.h, Digests(p.h, m, InBucket(p.h, o, BucketCount(p.depth), b)))
  }

  lemma DigestNodes(p: Peer, m: State, o: seq<Key>, id: ReplicaId)
    requires AllIn(o, m) && p.depth <= 1
    ensures var d := Summary(p.h, m, o, id, 0, p.depth);
            && |d.buckets| == BucketCount(p.depth) == (if p.depth == 0 then 1 else 2)
            && (forall b :: 0 <= b < |d.buckets| ==> d.buckets[b] == NodeAt(p, m, o, b))
            && d.root ==
               if p.depth == 0 then NodeAt(p, m, o, 0) else Combine(p.h, NodeAt(p, m, o, 0), NodeAt(p, m, o, 1))
  {
    hide InBucket, FromDigests, Combine;
    assert BucketCount(1) == 2 * BucketCount(0);
    var nodes := Nodes(p.h, Table(p.h, m, o, BucketCount(p.depth)));
    if p.depth == 1 { assert Root(p.h, nodes, 2) == Combine(p.h, Root(p.h, nodes, 1), nodes[1]); }
  }

  const AT_X := KeyDigest(0, 3, 1)
  const AT_Y := KeyDigest(1, 3, 1)

  lemma SplitNodes()
    ensures var p := TwoKeys(1);
            && NodeAt(p, map[], [], 0) == NodeAt(p, map[], [], 1) == EMPTY
            && NodeAt(p, map[X := HELD], [X], 0) == Node(6, 1, 1) && NodeAt(p, map[X := HELD], [X], 1) == EMPTY
            && NodeAt(p, p.keys, p.order, 0) == Node(6, 1, 1) && NodeAt(p, p.keys, p.order, 1) == Node(6, 1, 1)
  {
    var p := TwoKeys(1);
    assert X != Y && BucketCount(1) == 2 * BucketCount(0) == 2;
    forall b: nat | b < 2 ensures InBucket(p.h, [X], 2, b) == (if b == 0 then [X] else [])
      ensures InBucket(p.h, [X, Y], 2, b) == [if b == 0 then X else Y]
    {
      InBucketOne(p.h, X, 2, b);
      InBucketTwo(p.h, X, Y, 2, b);
    }
    OneNode(p.h, AT_X);
    OneNode(p.h, AT_Y);
    hide InBucket, FromDigests;
    assert Digests(p.h, map[X := HELD], [X]) == [AT_X];
    assert Digests(p.h, p.keys, [X]) == [AT_X] && Digests(p.h, p.keys, [Y]) == [AT_Y];
  }

  lemma JointNodes()
    ensures var p := TwoKeys(0);
            && NodeAt(p, map[], [], 0) == EMPTY
            && NodeAt(p, map[X := HELD], [X], 0) == Node(6, 1, 1)
            && NodeAt(p, p.keys, p.order, 0).hash == 8 && NodeAt(p, p.keys, p.order, 0).count == 2
  {
    var p := TwoKeys(0);
    assert X != Y && BucketCount(0) == 1;
    InBucketOne(p.h, X, 1, 0);
    InBucketTwo(p.h, X, Y, 1, 0);
    OneNode(p.h, AT_X);
    TwoNode(p.h, AT_X, AT_Y);
    hide InBucket, FromDigests;
    assert Digests(p.h, map[X := HELD], [X]) == [AT_X];
    assert Digests(p.h, p.keys, [X, Y]) == [AT_X, AT_Y];
  }

  lemma Occurs(o: seq<Key>)
    requires |o| > 0
    ensures o[0] in o
  {
  }

  lemma NotTwice(o: seq<Key>)
    requires |o| >= 2 && NoRepeats(o)
    ensures o[0] != o[1]
  {
  }

  lemma ListsNone(o: seq<Key>)
    requires Lists(o, map[])
    ensures o == []
  {
    if |o| > 0 {
      Occurs(o);
      assert false;
    }
  }

  lemma ListsOne(o: seq<Key>, v: Replicated)
    requires Lists(o, map[X := v])
    ensures o == [X]
  {
    assert X in o;
    assert forall i :: 0 <= i < |o| ==> o[i] in o;
    if |o| >= 2 {
      NotTwice(o);
      assert false;
    }
  }

  /** What a peer with two keys sends: those in divergent buckets, but no more than one. */
  lemma AskedTwo(p: Peer, a: State, o: seq<Key>)
    requires AllIn(o, a) && AllIn(p.order, p.keys) && p.order == [X, Y] && p.max == 1
    requires Ours(p, a, o).root.hash != Theirs(p).root.hash
    ensures var d, e, size := Ours(p, a, o), Theirs(p), BucketCount(p.depth);
            Asked(p, a, o) == if Diverges(d, e, BucketOf(p.h, X, size)) then [X]
                              else if Diverges(d, e, BucketOf(p.h, Y, size)) then [Y] else []
  {
    hide Ours, Theirs, Diverges, Named, Wanted, BucketCount, BucketOf;
    WantedTwo(p.h, X, Y, Named(Ours(p, a, o), Theirs(p)), BucketCount(p.depth));
  }

  lemma SplitTheirs()
    ensures var y := Theirs(TwoKeys(1));
            y.buckets == [Node(6, 1, 1), Node(6, 1, 1)] && y.root.hash == 9 && BucketCount(1) == 2
  {
    var p := TwoKeys(1);
    SplitNodes();
    DigestNodes(p, p.keys, p.order, 1);
    hide NodeAt, Summary, BucketCount;
  }

  lemma SplitOurs()
    ensures var p := TwoKeys(1);
            var none, one := Ours(p, map[], []), Ours(p, map[X := HELD], [X]);
            && none.buckets == [EMPTY, EMPTY] && none.root.hash == 0
            && one.buckets == [Node(6, 1, 1), EMPTY] && one.root.hash == 3
  {
    var p := TwoKeys(1);
    SplitNodes();
    DigestNodes(p, map[], [], 0);
    DigestNodes(p, map[X := HELD], [X], 0);
    hide NodeAt, Summary, BucketCount;
  }

  /** What the requester is sent while it holds nothing, and then while it holds `X`. */
  lemma SplitAsks()
    ensures Asked(TwoKeys(1), map[], []) == [X] && Asked(TwoKeys(1), map[X := HELD], [X]) == [Y]
  {
    assert X != Y;
    SplitTheirs();
    SplitOurs();
    hide Ours, Theirs, BucketCount, Asked;
    AskedTwo(TwoKeys(1), map[], []);
    AskedTwo(TwoKeys(1), map[X := HELD], [X]);
  }

  lemma JointAsks()
    ensures Asked(TwoKeys(0), map[], []) == [X] && Asked(TwoKeys(0), map[X := HELD], [X]) == [X]
  {
    var p := TwoKeys(0);
    assert X != Y;
    JointNodes();
    DigestNodes(p, map[], [], 0);
    DigestNodes(p, map[X := HELD], [X], 0);
    DigestNodes(p, p.keys, p.order, 1);
    hide NodeAt, Summary, BucketCount, Asked;
    AskedTwo(p, map[], []);
    AskedTwo(p, map[X := HELD], [X]);
  }

  /** A round that is sent one key. */
  lemma SentOne(p: Peer, a: State, o: seq<Key>, k: Key)
    requires Idle(p) && AllIn(o, a) && k in p.keys && Asked(p, a, o) == [k]
    ensures FreshRound(p, a, o) == a[k := MergeAt(a, p.keys, k)]
  {
    hide FreshRound, Asked, MergeAt;
    RoundAt(p, a, o);
    SameStateIff(FreshRound(p, a, o), a[k := MergeAt(a, p.keys, k)]);
  }

  lemma FirstRound(p: Peer, listing: Listing)
    requires Idle(p) && Honest(listing) && X in p.keys && Asked(p, map[], []) == [X]
    ensures FreshRounds(p, map[], listing, 1) == map[X := p.keys[X]]
  {
    hide FreshRound, Asked;
    ListsNone(listing(0, map[]));
    SentOne(p, map[], [], X);
    assert FreshRounds(p, map[], listing, 0) == map[];
  }

  /** With the two keys in different buckets, an answer of one key at a time still brings both: the first
      round settles its key's bucket, and the second round no longer asks for it. */
  lemma SplitReaches(listing: Listing)
    requires Honest(listing)
    ensures var p := TwoKeys(1);
            Idle(p) && FreshRounds(p, map[], listing, 2) == Union(map[], p.keys)
  {
    var p := TwoKeys(1);
    TwoKeysIdle(1);
    SplitAsks();
    hide FreshRound, Asked, MergeAt, Honest;
    FirstRound(p, listing);
    var one: State := map[X := HELD];
    assert Lists(listing(1, one), one) by { HonestAt(listing, 1, one); }
    ListsOne(listing(1, one), HELD);
    SentOne(p, one, [X], Y);
    BothMerged(p);
  }

  lemma HonestAt(listing: Listing, n: nat, m: State)
    requires Honest(listing)
    ensures Lists(listing(n, m), m)
  {
  }

  lemma BothMerged(p: Peer)
    requires p.keys == map[X := HELD, Y := HELD]
    ensures Union(map[], p.keys) == p.keys
    ensures var one: State := map[X := HELD]; one[Y := MergeAt(one, p.keys, Y)] == p.keys
  {
    assert X != Y;
    hide Merge;
  }

  /** A round that is sent only what the requester holds. */
  lemma SameAgain(p: Peer, a: State, o: seq<Key>, k: Key)
    requires Idle(p) && AllIn(o, a) && k in p.keys && Asked(p, a, o) == [k] && k in a && a[k] == p.keys[k]
    ensures FreshRound(p, a, o) == a
  {
    hide FreshRound, Asked, Merge;
    MergeLaws(a[k], a[k], a[k]);
    SentOne(p, a, o, k);
  }

  /** With both keys in one bucket the same run brings one of them and then nothing more, for ever. */
  lemma JointStalls(listing: Listing, n: nat)
    requires Honest(listing) && n > 0
    ensures var p := TwoKeys(0);
            && Idle(p) && FreshRounds(p, map[], listing, n) == map[X := HELD]
            && FreshRounds(p, map[], listing, n) != Union(map[], p.keys)
  {
    var p := TwoKeys(0);
    TwoKeysIdle(0);
    JointAsks();
    hide FreshRound, Asked, FreshRounds, Honest, Idle;
    FirstRound(p, listing);
    var one: State := map[X := HELD];
    forall o | Lists(o, one) ensures FreshRound(p, one, o) == one {
      ListsOne(o, HELD);
      SameAgain(p, one, o, X);
    }
    StuckForGood(p, map[], listing, 1, n);
    BothMerged(p);
    assert X != Y;
  }
}
