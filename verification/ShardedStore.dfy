/** The sharded front end: commands are routed by key hash, multi-key commands are fanned out
    and their replies reassembled (src/production/sharded_actor.rs). */
module ShardedStore {
  import opened Numbers
  import opened Resp
  import opened Executor

  /** The shard index of a key: its hash modulo the number of shards. */
  type Route = Key -> nat

  /** Every key lies on the shard it is routed to. */
  ghost predicate Placed(shards: seq<Store>, route: Route) {
    && shards != [] && (forall k :: route(k) < |shards|)
    && (forall i, k :: 0 <= i < |shards| && k in shards[i] ==> route(k) == i)
  }

  /** The single store that the shards together stand for. */
  function Whole(shards: seq<Store>): Store {
    if shards == [] then map[] else
    var n := |shards| - 1;
    Whole(shards[..n]) + shards[n]
  }

  function TotalSize(shards: seq<Store>): nat {
    if shards == [] then 0 else
    var n := |shards| - 1;
    TotalSize(shards[..n]) + |shards[n]|
  }

  lemma TotalStep(shards: seq<Store>, n: nat)
    requires n <= |shards|
    ensures TotalSize(shards[..n]) == if n == 0 then 0 else TotalSize(shards[..n - 1]) + |shards[n - 1]|
  {
    if n > 0 { assert shards[..n][..n - 1] == shards[..n - 1]; }
  }

  lemma {:induction false} WholeUpTo(shards: seq<Store>, route: Route, n: nat, k: Key)
    requires Placed(shards, route) && n <= |shards|
    ensures Find(k, Whole(shards[..n])) == if route(k) < n then Find(k, shards[route(k)]) else None
  {
    if n > 0 {
      assert shards[..n][..n - 1] == shards[..n - 1];
      WholeUpTo(shards, route, n - 1, k);
    }
  }

  /** A key of the whole store is found on its own shard and nowhere else. */
  lemma WholeAt(shards: seq<Store>, route: Route, k: Key)
    requires Placed(shards, route)
    ensures Find(k, Whole(shards)) == Find(k, shards[route(k)])
  {
    WholeUpTo(shards, route, |shards|, k);
    assert shards[..|shards|] == shards;
  }

  lemma DisjointSize(a: Store, b: Store)
    requires a.Keys !! b.Keys
    ensures |a + b| == |a| + |b|
  {
    assert (a + b).Keys == a.Keys + b.Keys;
    assert |a + b| == |(a + b).Keys| && |a| == |a.Keys| && |b| == |b.Keys|;
  }

  lemma {:induction false} SizeUpTo(shards: seq<Store>, route: Route, n: nat)
    requires Placed(shards, route) && n <= |shards|
    ensures |Whole(shards[..n])| == TotalSize(shards[..n])
  {
    if n > 0 {
      var before := Whole(shards[..n - 1]);
      assert shards[..n][..n - 1] == shards[..n - 1];
      SizeUpTo(shards, route, n - 1);
      forall k | k in before ensures k !in shards[n - 1] {
        WholeUpTo(shards, route, n - 1, k);
        assert Find(k, before).Some?;
      }
      DisjointSize(before, shards[n - 1]);
    }
  }

  lemma WholeSize(shards: seq<Store>, route: Route)
    requires Placed(shards, route)
    ensures |Whole(shards)| == TotalSize(shards)
  {
    SizeUpTo(shards, route, |shards|);
    assert shards[..|shards|] == shards;
  }

  /** Two placements are the same whole store when each key looks the same on its shard. */
  lemma WholeIs(shards: seq<Store>, route: Route, st: Store)
    requires Placed(shards, route) && forall k :: Find(k, shards[route(k)]) == Find(k, st)
    ensures Whole(shards) == st
  {
    forall k ensures Find(k, Whole(shards)) == Find(k, st) { WholeAt(shards, route, k); }
    ExtEq(Whole(shards), st);
  }

  // ---------------------------------------------------------------- one key

  /** A one-key command answers from its key alone and touches nothing else. */
  lemma OneKeyIsLocal(c: Command, a: Store, b: Store, k: Key)
    requires OneKey(c) && Find(c.key, a) == Find(c.key, b)
    ensures Reply(c, a) == Reply(c, b) && Find(c.key, After(c, a)) == Find(c.key, After(c, b))
    ensures k != c.key ==> Find(k, After(c, a)) == Find(k, a)
  {
  }

  lemma RoutedCommand(shards: seq<Store>, route: Route, c: Command)
    requires Placed(shards, route) && OneKey(c)
    ensures var i := route(c.key);
            && Placed(shards[i := After(c, shards[i])], route)
            && Whole(shards[i := After(c, shards[i])]) == After(c, Whole(shards))
            && Reply(c, shards[i]) == Reply(c, Whole(shards))
  {
    hide After, Reply;
    var i := route(c.key);
    var next := shards[i := After(c, shards[i])];
    var st := Whole(shards);
    WholeAt(shards, route, c.key);
    OneKeyIsLocal(c, shards[i], st, c.key);
    forall k ensures Find(k, next[route(k)]) == Find(k, After(c, st)) {
      WholeAt(shards, route, k);
      OneKeyIsLocal(c, shards[i], st, k);
      OneKeyIsLocal(c, st, shards[i], k);
    }
    forall k | k in next[i] ensures route(k) == i {
      OneKeyIsLocal(c, shards[i], st, k);
      assert Find(k, next[i]).Some?;
    }
    WholeIs(next, route, After(c, st));
  }

  // ---------------------------------------------------------------- batches

  /** The elements routed to shard `i`, in their original order. */
  function Batch<T(!new)>(route: Route, key: T -> Key, xs: seq<T>, i: nat): (r: seq<T>)
    ensures forall x :: x in r <==> x in xs && route(key(x)) == i
  {
    if xs == [] then []
    else
      var n := |xs| - 1;
      assert xs == xs[..n] + [xs[n]];
      Batch(route, key, xs[..n], i) + (if route(key(xs[n])) == i then [xs[n]] else [])
  }

  method Group<T(!new)>(route: Route, key: T -> Key, xs: seq<T>, n: nat) returns (batches: seq<seq<T>>)
    requires forall k :: route(k) < n
    ensures |batches| == n && forall i :: 0 <= i < n ==> batches[i] == Batch(route, key, xs, i)
  {
    batches := seq(n, _ => []);
    var j := 0;
    while j < |xs|
      invariant j <= |xs| && |batches| == n
      invariant forall i :: 0 <= i < n ==> batches[i] == Batch(route, key, xs[..j], i)
    {
      var i := route(key(xs[j]));
      assert xs[..j + 1][..j] == xs[..j];
      batches := batches[i := batches[i] + [xs[j]]];
      j := j + 1;
    }
    assert xs[..j] == xs;
  }

  function Self(k: Key): Key { k }

  function First(p: (Key, seq<Byte>)): Key { p.0 }

  function Spread(shards: seq<Store>, cmds: seq<Command>): (r: seq<Store>)
    requires |cmds| == |shards|
    ensures |r| == |shards| && forall i :: 0 <= i < |r| ==> r[i] == After(cmds[i], shards[i])
  {
    seq(|shards|, i requires 0 <= i < |shards| => After(cmds[i], shards[i]))
  }

  function Msets(route: Route, ps: seq<(Key, seq<Byte>)>, n: nat): (r: seq<Command>)
    ensures |r| == n && forall i :: 0 <= i < n ==> r[i] == MSet(Batch(route, First, ps, i))
  {
    seq(n, i requires 0 <= i < n => MSet(Batch(route, First, ps, i)))
  }

  function Dels(route: Route, ks: seq<Key>, n: nat): (r: seq<Command>)
    ensures |r| == n && forall i :: 0 <= i < n ==> r[i] == Del(Batch(route, Self, ks, i))
  {
    seq(n, i requires 0 <= i < n => Del(Batch(route, Self, ks, i)))
  }

  lemma {:induction false} LastForSnoc(ps: seq<(Key, seq<Byte>)>, p: (Key, seq<Byte>), k: Key)
    ensures LastFor(ps + [p], k) == if p.0 == k then Some(p.1) else LastFor(ps, k)
  {
    if ps == [] {
      assert ps + [p] == [p];
    } else {
      assert (ps + [p])[1..] == ps[1..] + [p];
      LastForSnoc(ps[1..], p, k);
    }
  }

  /** A key's last value is the last value in its shard's batch. */
  lemma {:induction false} LastForBatch(route: Route, ps: seq<(Key, seq<Byte>)>, k: Key, i: nat)
    ensures LastFor(Batch(route, First, ps, i), k) == if route(k) == i then LastFor(ps, k) else None
  {
    if ps != [] {
      BatchStep(route, ps, i);
      hide Batch, LastFor;
      var n := |ps| - 1;
      LastForBatch(route, ps[..n], k, i);
      LastForSnoc(Batch(route, First, ps[..n], i), ps[n], k);
      LastForSnoc(ps[..n], ps[n], k);
      assert ps == ps[..n] + [ps[n]];
    }
  }

  lemma BatchStep(route: Route, ps: seq<(Key, seq<Byte>)>, i: nat)
    requires ps != []
    ensures var n := |ps| - 1;
            var b := Batch(route, First, ps[..n], i);
            Batch(route, First, ps, i) == if route(ps[n].0) == i then b + [ps[n]] else b
  {
  }

  lemma MsetRefines(shards: seq<Store>, route: Route, ps: seq<(Key, seq<Byte>)>)
    requires Placed(shards, route)
    ensures var next := Spread(shards, Msets(route, ps, |shards|));
            Placed(next, route) && Whole(next) == PutAll(Whole(shards), ps)
  {
    hide PutAll, Batch, LastFor, Whole;
    var next := Spread(shards, Msets(route, ps, |shards|));
    forall k, i | 0 <= i < |shards|
      ensures route(k) != i ==> Find(k, next[i]) == Find(k, shards[i])
      ensures route(k) == i ==> Find(k, next[i]) == Find(k, PutAll(Whole(shards), ps))
    {
      LastForBatch(route, ps, k, i);
      PutAllAt(shards[i], Batch(route, First, ps, i), k);
      PutAllAt(Whole(shards), ps, k);
      WholeAt(shards, route, k);
    }
    forall i, k | 0 <= i < |shards| && k in next[i] ensures route(k) == i { assert Find(k, next[i]).Some?; }
    WholeIs(next, route, PutAll(Whole(shards), ps));
  }

  lemma DelRefines(shards: seq<Store>, route: Route, ks: seq<Key>)
    requires Placed(shards, route)
    ensures var next := Spread(shards, Dels(route, ks, |shards|));
            Placed(next, route) && Whole(next) == RemoveAll(Whole(shards), ks)
  {
    hide RemoveAll, Batch, Whole;
    var next := Spread(shards, Dels(route, ks, |shards|));
    forall k, i | 0 <= i < |shards|
      ensures route(k) != i ==> Find(k, next[i]) == Find(k, shards[i])
      ensures route(k) == i ==> Find(k, next[i]) == Find(k, RemoveAll(Whole(shards), ks))
    {
      RemoveAllAt(shards[i], Batch(route, Self, ks, i), k);
      RemoveAllAt(Whole(shards), ks, k);
      WholeAt(shards, route, k);
    }
    forall i, k | 0 <= i < |shards| && k in next[i] ensures route(k) == i { assert Find(k, next[i]).Some?; }
    WholeIs(next, route, RemoveAll(Whole(shards), ks));
  }

  /** What the per-shard DEL counts add up to. */
  function Dropped(shards: seq<Store>, cmds: seq<Command>, n: nat): nat
    requires n <= |shards| == |cmds| && forall i :: 0 <= i < n ==> cmds[i].Del?
  {
    if n == 0 then 0 else Dropped(shards, cmds, n - 1) + RemovedCount(shards[n - 1], cmds[n - 1].keys)
  }

  lemma {:induction false} DroppedIsDrop(shards: seq<Store>, cmds: seq<Command>, n: nat)
    requires n <= |shards| == |cmds| && forall i :: 0 <= i < |cmds| ==> cmds[i].Del?
    ensures Dropped(shards, cmds, n) + TotalSize(Spread(shards, cmds)[..n]) == TotalSize(shards[..n])
  {
    hide TotalSize, RemovedCount, RemoveAll;
    if n == 0 {
      TotalStep(shards, 0);
      TotalStep(Spread(shards, cmds), 0);
    } else {
      DroppedIsDrop(shards, cmds, n - 1);
      RemovedIsDrop(shards[n - 1], cmds[n - 1].keys);
      TotalStep(shards, n);
      TotalStep(Spread(shards, cmds), n);
    }
  }

  /** The per-shard counts of a fanned-out DEL add up to the count of the whole DEL. */
  lemma DelCounts(shards: seq<Store>, route: Route, ks: seq<Key>)
    requires Placed(shards, route)
    ensures Dropped(shards, Dels(route, ks, |shards|), |shards|) == RemovedCount(Whole(shards), ks)
  {
    hide Batch, RemoveAll, RemovedCount, Whole, TotalSize;
    var cmds := Dels(route, ks, |shards|);
    var next := Spread(shards, cmds);
    DroppedIsDrop(shards, cmds, |shards|);
    assert shards[..|shards|] == shards && next[..|next|] == next;
    DelRefines(shards, route, ks);
    WholeSize(shards, route);
    WholeSize(next, route);
    RemovedIsDrop(Whole(shards), ks);
  }

  // ---------------------------------------------------------------- the front end

  /** Every key is routed to some shard. */
  ghost predicate InRange(route: Route, n: nat) {
    n > 0 && forall k :: route(k) < n
  }

  function PresentSum(shards: seq<Store>, route: Route, ks: seq<Key>): nat
    requires InRange(route, |shards|)
  {
    if ks == [] then 0 else (if ks[0] in shards[route(ks[0])] then 1 else 0) + PresentSum(shards, route, ks[1..])
  }

  /** What each key of a list shows on its shard, in the order of the list. */
  function Gathered(shards: seq<Store>, route: Route, ks: seq<Key>, view: (Key, Store) -> Value): (r: seq<Value>)
    requires InRange(route, |shards|)
    ensures |r| == |ks| && forall x :: 0 <= x < |ks| ==> r[x] == view(ks[x], shards[route(ks[x])])
  {
    seq(|ks|, x requires 0 <= x < |ks| => view(ks[x], shards[route(ks[x])]))
  }

  /** The shards after a command that is routed, or fanned out, by `route`. */
  function FrontStore(shards: seq<Store>, route: Route, c: Command): (r: seq<Store>)
    requires InRange(route, |shards|)
    ensures |r| == |shards|
  {
    match c
    case MSet(ps) => Spread(shards, Msets(route, ps, |shards|))
    case Del(ks) => Spread(shards, Dels(route, ks, |shards|))
    case Flush => seq(|shards|, _ => map[])
    case MGet(_) => shards
    case Exists(_) => shards
    case DbSize => shards
    case _ => shards[route(c.key) := After(c, shards[route(c.key)])]
  }

  /** The reply put together from the shards' replies. */
  function FrontReply(shards: seq<Store>, route: Route, c: Command): Value
    requires InRange(route, |shards|)
  {
    match c
    case MSet(_) => OK
    case Flush => OK
    case Del(ks) => Count(Dropped(shards, Dels(route, ks, |shards|), |shards|))
    case MGet(ks) => Array(Gathered(shards, route, ks, MGetView))
    case Exists(ks) => Count(PresentSum(shards, route, ks))
    case DbSize => Count(TotalSize(shards))
    case _ => Reply(c, shards[route(c.key)])
  }

  lemma {:induction false} PresentRefines(shards: seq<Store>, route: Route, ks: seq<Key>)
    requires Placed(shards, route)
    ensures PresentSum(shards, route, ks) == PresentCount(Whole(shards), ks)
  {
    hide Whole;
    if ks != [] {
      WholeAt(shards, route, ks[0]);
      PresentRefines(shards, route, ks[1..]);
    }
  }

  lemma ClearRefines(shards: seq<Store>, route: Route)
    requires InRange(route, |shards|)
    ensures var next: seq<Store> := seq(|shards|, _ => map[]);
            Placed(next, route) && Whole(next) == map[]
  {
    hide Whole;
    WholeIs(seq(|shards|, _ => map[]), route, map[]);
  }

  /** With every key on its shard, any modelled command has the reply and the effect of a single store,
      and leaves every key on its shard. */
  lemma FrontRefines(shards: seq<Store>, route: Route, c: Command)
    requires Placed(shards, route)
    ensures Placed(FrontStore(shards, route, c), route)
    ensures Whole(FrontStore(shards, route, c)) == After(c, Whole(shards))
    ensures FrontReply(shards, route, c) == Reply(c, Whole(shards))
  {
    hide Whole, TotalSize, RemoveAll, RemovedCount, PutAll, PresentCount, PresentSum, Dropped, Batch;
    match c
    case MSet(ps) => MsetRefines(shards, route, ps);
    case Del(ks) => DelRefines(shards, route, ks); DelCounts(shards, route, ks);
    case Flush => ClearRefines(shards, route);
    case MGet(ks) =>
      forall x | 0 <= x < |ks| ensures MGetView(ks[x], shards[route(ks[x])]) == MGetView(ks[x], Whole(shards)) {
        WholeAt(shards, route, ks[x]);
      }
      assert Gathered(shards, route, ks, MGetView) == MGetViews(ks, Whole(shards));
    case Exists(ks) => PresentRefines(shards, route, ks);
    case DbSize => WholeSize(shards, route);
    case _ => RoutedCommand(shards, route, c);
  }

  // ---------------------------------------------------------------- two routes

  /** A command on one of the two paths: by the string hash, or by the byte hash. */
  datatype Access = Access(bytes: bool, command: Command)

  /** What the byte path carries: single and pipelined GETs and SETs. */
  predicate FastCommand(c: Command) {
    c.Get? || c.MSet? || (c.Set? && !c.nx && !c.xx && !c.get)
  }

  function RouteOf(a: Access, slow: Route, fast: Route): Route {
    if a.bytes then fast else slow
  }

  function MixedStore(shards: seq<Store>, slow: Route, fast: Route, run: seq<Access>): (r: seq<Store>)
    requires InRange(slow, |shards|) && InRange(fast, |shards|)
    ensures |r| == |shards|
    decreases |run|
  {
    if run == [] then shards
    else MixedStore(FrontStore(shards, RouteOf(run[0], slow, fast), run[0].command), slow, fast, run[1..])
  }

  function MixedReplies(shards: seq<Store>, slow: Route, fast: Route, run: seq<Access>): seq<Value>
    requires InRange(slow, |shards|) && InRange(fast, |shards|)
    decreases |run|
  {
    if run == [] then []
    else
      var route := RouteOf(run[0], slow, fast);
      [FrontReply(shards, route, run[0].command)] +
      MixedReplies(FrontStore(shards, route, run[0].command), slow, fast, run[1..])
  }

  function SingleStore(st: Store, run: seq<Access>): Store
    decreases |run|
  {
    if run == [] then st else SingleStore(After(run[0].command, st), run[1..])
  }

  function SingleReplies(st: Store, run: seq<Access>): seq<Value>
    decreases |run|
  {
    if run == [] then [] else [Reply(run[0].command, st)] + SingleReplies(After(run[0].command, st), run[1..])
  }

  /** The byte path carries only its own commands, on these keys. */
  ghost predicate Over(run: seq<Access>, keys: iset<Key>) {
    forall x :: 0 <= x < |run| && run[x].bytes ==>
      FastCommand(run[x].command) && forall k :: k in Keys(run[x].command) ==> k in keys
  }

  ghost predicate RoutesAgree(slow: Route, fast: Route, keys: iset<Key>) {
    forall k :: k in keys ==> slow(k) == fast(k)
  }

  lemma {:induction false} BatchesAgree(slow: Route, fast: Route, ps: seq<(Key, seq<Byte>)>, i: nat)
    requires forall p :: p in ps ==> slow(p.0) == fast(p.0)
    ensures Batch(slow, First, ps, i) == Batch(fast, First, ps, i)
    decreases |ps|
  {
    if ps != [] {
      BatchStep(slow, ps, i);
      BatchStep(fast, ps, i);
      hide Batch;
      var n := |ps| - 1;
      assert ps[n] in ps && forall p :: p in ps[..n] ==> p in ps;
      BatchesAgree(slow, fast, ps[..n], i);
    } else {
      assert Batch(slow, First, ps, i) == Batch(fast, First, ps, i) == [];
    }
  }

  lemma PathsAgree(shards: seq<Store>, slow: Route, fast: Route, c: Command)
    requires InRange(slow, |shards|) && InRange(fast, |shards|) && FastCommand(c)
    requires forall k :: k in Keys(c) ==> slow(k) == fast(k)
    ensures FrontStore(shards, fast, c) == FrontStore(shards, slow, c)
    ensures FrontReply(shards, fast, c) == FrontReply(shards, slow, c)
  {
    hide Batch;
    if c.MSet? {
      forall i | 0 <= i < |shards| ensures Batch(fast, First, c.pairs, i) == Batch(slow, First, c.pairs, i) {
        assert forall p :: p in c.pairs ==> p.0 in Keys(c);
        BatchesAgree(slow, fast, c.pairs, i);
      }
      assert Msets(fast, c.pairs, |shards|) == Msets(slow, c.pairs, |shards|);
    } else {
      assert c.key in Keys(c);
    }
  }

  /** A run over both paths has the replies and the whole store of one map when the two routes agree on
      the keys that the byte path touches. */
  lemma {:induction false} MixedRunRefines(
    shards: seq<Store>, slow: Route, fast: Route, run: seq<Access>, keys: iset<Key>)
    requires Placed(shards, slow) && InRange(fast, |shards|) && Over(run, keys) && RoutesAgree(slow, fast, keys)
    ensures MixedReplies(shards, slow, fast, run) == SingleReplies(Whole(shards), run)
    ensures Whole(MixedStore(shards, slow, fast, run)) == SingleStore(Whole(shards), run)
    ensures Placed(MixedStore(shards, slow, fast, run), slow)
    decreases |run|
  {
    hide Whole, FrontStore, FrontReply, After, Reply, FastCommand, Keys;
    if run != [] {
      var c := run[0].command;
      if run[0].bytes { PathsAgree(shards, slow, fast, c); }
      FrontRefines(shards, slow, c);
      MixedRunRefines(FrontStore(shards, slow, c), slow, fast, run[1..], keys);
    }
  }

  function Empty(n: nat): (r: seq<Store>)
    ensures |r| == n && forall i :: 0 <= i < n ==> r[i] == map[]
  {
    seq(n, _ => map[])
  }

  /** SET on the byte path, then GET on the string path. */
  function SetThenGet(k: Key, v: seq<Byte>): seq<Access> {
    [Access(true, Set(k, v, false, false, false)), Access(false, Get(k))]
  }

  lemma SplitKeyShows(n: nat, slow: Route, fast: Route, k: Key, v: seq<Byte>)
    requires InRange(slow, n) && InRange(fast, n) && slow(k) != fast(k)
    ensures MixedReplies(Empty(n), slow, fast, SetThenGet(k, v)) == [OK, NilBulk]
    ensures SingleReplies(map[], SetThenGet(k, v)) == [OK, BulkString(v)]
  {
    var run, get: seq<Access> := SetThenGet(k, v), [Access(false, Get(k))];
    assert run[1..] == get && get[1..] == [];
    var next := FrontStore(Empty(n), fast, run[0].command);
    assert next == Empty(n)[fast(k) := map[k := Str(v)]];
    assert MixedReplies(next, slow, fast, []) == [] && MixedReplies(next, slow, fast, get) == [NilBulk];
    var held: Store := map[k := Str(v)];
    assert After(run[0].command, map[]) == held;
    assert SingleReplies(held, []) == [] && SingleReplies(held, get) == [BulkString(v)];
  }

  /** From empty shards, every run over both paths answers like one map exactly when the routes agree on
      every key the byte path may touch. */
  lemma MixedRunsAgreeIff(n: nat, slow: Route, fast: Route, keys: iset<Key>)
    requires InRange(slow, n) && InRange(fast, n)
    ensures (forall run :: Over(run, keys) ==> MixedReplies(Empty(n), slow, fast, run) == SingleReplies(map[], run))
            <==> RoutesAgree(slow, fast, keys)
  {
    if RoutesAgree(slow, fast, keys) {
      ClearRefines(Empty(n), slow);
      assert Empty(n) == seq(n, _ => map[]);
      hide MixedReplies, SingleReplies, Whole, Over;
      forall run | Over(run, keys) ensures MixedReplies(Empty(n), slow, fast, run) == SingleReplies(map[], run) {
        MixedRunRefines(Empty(n), slow, fast, run, keys);
      }
    } else {
      var k :| k in keys && slow(k) != fast(k);
      SplitKeyShows(n, slow, fast, k, []);
      assert Over(SetThenGet(k, []), keys);
    }
  }
}
