/** The sharded front end as an object: commands by the string hash, pipelines by the byte hash
    (src/production/sharded_actor.rs). */
module ShardedFront {
  import opened Numbers
  import opened Resp
  import opened Executor
  import opened ShardedStore

  /** A batch with nothing in it is not sent. */
  predicate Idle(c: Command) {
    c == MSet([]) || c == Del([])
  }

  /** An order in which the shards happen to serve their messages. */
  predicate ServingOrder(order: seq<nat>, n: nat) {
    && (forall i :: 0 <= i < |order| ==> order[i] < n)
    && (forall i :: 0 <= i < n ==> i in order)
    && (forall i, j :: 0 <= i < j < |order| ==> order[i] != order[j])
  }

  function Indexed(ks: seq<Key>): (r: seq<(nat, Key)>)
    ensures |r| == |ks| && forall j :: 0 <= j < |ks| ==> r[j] == (j, ks[j])
  {
    seq(|ks|, j requires 0 <= j < |ks| => (j, ks[j]))
  }

  function Second(p: (nat, Key)): Key { p.1 }

  lemma FromIndexed(route: Route, ks: seq<Key>, i: nat)
    ensures forall p :: p in Batch(route, Second, Indexed(ks), i) ==> p.0 < |ks| && p.1 == ks[p.0]
    ensures forall x: nat :: x < |ks| ==> ((x, ks[x]) in Batch(route, Second, Indexed(ks), i) <==> route(ks[x]) == i)
  {
    forall x: nat | x < |ks| ensures (x, ks[x]) in Indexed(ks) { assert Indexed(ks)[x] == (x, ks[x]); }
  }

  /** Stores one shard's answers at the positions its keys came from. */
  method WriteBack(ks: seq<Key>, batch: seq<(nat, Key)>, before: seq<Value>, view: (Key, Store) -> Value, st: Store)
    returns (results: seq<Value>)
    requires |before| == |ks| && forall p :: p in batch ==> p.0 < |ks| && p.1 == ks[p.0]
    ensures |results| == |ks|
    ensures forall x: nat :: x < |ks| ==> results[x] == if (x, ks[x]) in batch then view(ks[x], st) else before[x]
  {
    results := before;
    var t := 0;
    while t < |batch|
      invariant t <= |batch| && |results| == |ks|
      invariant forall x: nat :: x < |ks| ==>
                  results[x] == if (x, ks[x]) in batch[..t] then view(ks[x], st) else before[x]
    {
      assert batch[t] in batch && batch[..t + 1] == batch[..t] + [batch[t]];
      results := results[batch[t].0 := view(batch[t].1, st)];
      t := t + 1;
    }
    assert batch[..t] == batch;
  }

  /** A listing of the matching keys, each once. */
  ghost predicate ListsMatching(ks: seq<Key>, st: Store, wanted: Key -> bool) {
    && (forall k :: k in ks <==> Find(k, st).Some? && wanted(k))
    && (forall i, j :: 0 <= i < j < |ks| ==> ks[i] != ks[j])
  }

  lemma JoinLists(shards: seq<Store>, route: Route, i: nat, before: seq<Key>, ks: seq<Key>, wanted: Key -> bool)
    requires Placed(shards, route) && i < |shards|
    requires ListsMatching(before, Whole(shards[..i]), wanted) && ListsMatching(ks, shards[i], wanted)
    ensures ListsMatching(before + ks, Whole(shards[..i + 1]), wanted)
  {
    hide Whole;
    forall k ensures k in before + ks <==> Find(k, Whole(shards[..i + 1])).Some? && wanted(k)
      ensures !(k in before && k in ks)
    {
      WholeUpTo(shards, route, i, k);
      WholeUpTo(shards, route, i + 1, k);
    }
    forall x, y | 0 <= x < y < |before + ks| ensures (before + ks)[x] != (before + ks)[y] {
      if x < |before| <= y { assert before[x] in before && ks[y - |before|] in ks; }
    }
  }

  // ---------------------------------------------------------------- counting

  lemma {:induction false} PartOfTotal(shards: seq<Store>, n: nat, i: nat)
    requires i < n <= |shards|
    ensures |shards[i]| <= TotalSize(shards[..n])
  {
    hide TotalSize;
    TotalStep(shards, n);
    if i < n - 1 { PartOfTotal(shards, n - 1, i); }
  }

  lemma RemovedBound(st: Store, ks: seq<Key>)
    ensures RemovedCount(st, ks) <= |st| && RemovedCount(st, []) == 0
  {
    RemovedIsDrop(st, ks);
  }

  lemma DroppedBound(shards: seq<Store>, cmds: seq<Command>)
    requires |shards| == |cmds| && forall i :: 0 <= i < |cmds| ==> cmds[i].Del?
    ensures Dropped(shards, cmds, |shards|) <= TotalSize(shards)
  {
    hide TotalSize, Dropped;
    DroppedIsDrop(shards, cmds, |shards|);
    assert shards[..|shards|] == shards;
  }

  lemma PresentOne(st: Store, k: Key)
    ensures PresentCount(st, [k]) == if k in st then 1 else 0
  {
    assert [k][1..] == [];
  }

  lemma SingleBatch(route: Route, ks: seq<Key>, j: nat)
    requires |ks| <= 1
    ensures Batch(route, Self, ks, j) == if ks != [] && route(ks[0]) == j then ks else []
  {
    if ks != [] { assert ks[..0] == []; }
  }

  lemma RemoveNone(st: Store)
    ensures RemoveAll(st, []) == st
  {
  }

  /** A DEL of at most one key, sent as it is, is the fan-out with one batch. */
  lemma SingleDelete(shards: seq<Store>, route: Route, ks: seq<Key>, i: nat)
    requires InRange(route, |shards|) && |ks| <= 1 && i < |shards| && (ks != [] ==> i == route(ks[0]))
    ensures shards[i := RemoveAll(shards[i], ks)] == FrontStore(shards, route, Del(ks))
    ensures Count(RemovedCount(shards[i], ks)) == FrontReply(shards, route, Del(ks))
  {
    hide Batch, RemovedCount, RemoveAll, Dropped;
    var cmds := Dels(route, ks, |shards|);
    var next := FrontStore(shards, route, Del(ks));
    forall j | 0 <= j < |shards|
      ensures cmds[j] == Del(if ks != [] && j == i then ks else [])
      ensures next[j] == if j == i then RemoveAll(shards[i], ks) else shards[j]
    {
      SingleBatch(route, ks, j);
      RemoveNone(shards[j]);
    }
    DroppedSingle(shards, cmds, ks, i, |shards|);
  }

  lemma {:induction false} DroppedSingle(shards: seq<Store>, cmds: seq<Command>, ks: seq<Key>, i: nat, n: nat)
    requires n <= |shards| == |cmds| && i < |shards|
    requires forall j :: 0 <= j < |shards| ==> cmds[j] == Del(if ks != [] && j == i then ks else [])
    ensures Dropped(shards, cmds, n) == if i < n then RemovedCount(shards[i], ks) else 0
  {
    hide RemovedCount;
    if n > 0 {
      DroppedSingle(shards, cmds, ks, i, n - 1);
      RemovedBound(shards[n - 1], []);
    }
  }

  /** Adds up the integer replies. */
  method SumReplies(replies: seq<Option<Value>>, ghost was: seq<Store>, ghost cmds: seq<Command>) returns (total: int)
    requires |replies| == |cmds| == |was| && forall i :: 0 <= i < |cmds| ==> cmds[i].Del? && |was[i]| <= I64_MAX
    requires forall i :: 0 <= i < |cmds| ==> replies[i] == if Idle(cmds[i]) then None else Some(Reply(cmds[i], was[i]))
    ensures total == Dropped(was, cmds, |cmds|)
  {
    hide RemovedCount, RemoveAll;
    total := 0;
    var i := 0;
    while i < |replies|
      invariant i <= |replies| && total == Dropped(was, cmds, i)
    {
      RemovedBound(was[i], cmds[i].keys);
      if replies[i].Some? && replies[i].value.Integer? {
        total := total + replies[i].value.n;
      }
      i := i + 1;
    }
  }

  // ---------------------------------------------------------------- the object

  class ShardedActorState {
    var shards: seq<Store>
    const route: Route
    const byteRoute: Route

    ghost predicate Valid()
      reads this
    {
      InRange(route, |shards|) && InRange(byteRoute, |shards|)
    }

    constructor (n: nat, route: Route, byteRoute: Route)
      requires InRange(route, n) && InRange(byteRoute, n)
      ensures Valid() && shards == Empty(n) && this.route == route && this.byteRoute == byteRoute
    {
      shards := Empty(n);
      this.route, this.byteRoute := route, byteRoute;
    }

    /** Sends each shard its command and collects the replies, whatever the serving order. */
    method Dispatch(cmds: seq<Command>, order: seq<nat>) returns (replies: seq<Option<Value>>)
      requires |cmds| == |shards| && ServingOrder(order, |shards|)
      modifies this
      ensures shards == Spread(old(shards), cmds) && |replies| == |cmds|
      ensures forall i :: 0 <= i < |cmds| ==>
                replies[i] == if Idle(cmds[i]) then None else Some(Reply(cmds[i], old(shards)[i]))
    {
      replies := seq(|cmds|, _ => None);
      var j := 0;
      while j < |order|
        invariant j <= |order| && |shards| == |replies| == |cmds|
        invariant forall i :: 0 <= i < |cmds| && i in order[..j] ==>
                    && shards[i] == After(cmds[i], old(shards)[i])
                    && replies[i] == if Idle(cmds[i]) then None else Some(Reply(cmds[i], old(shards)[i]))
        invariant forall i :: 0 <= i < |cmds| && i !in order[..j] ==> shards[i] == old(shards)[i] && replies[i] == None
      {
        var i := order[j];
        if !Idle(cmds[i]) {
          replies := replies[i := Some(Reply(cmds[i], shards[i]))];
          shards := shards[i := After(cmds[i], shards[i])];
        }
        j := j + 1;
      }
      assert order[..j] == order;
    }

    method FanOutSet(path: Route, ps: seq<(Key, seq<Byte>)>, order: seq<nat>)
      requires InRange(path, |shards|) && ServingOrder(order, |shards|)
      modifies this
      ensures shards == FrontStore(old(shards), path, MSet(ps))
    {
      var batches := Group(path, First, ps, |shards|);
      var cmds := seq(|shards|, i requires 0 <= i < |batches| => MSet(batches[i]));
      assert cmds == Msets(path, ps, |shards|);
      var _ := Dispatch(cmds, order);
    }

    method FanOutDelete(ks: seq<Key>, order: seq<nat>) returns (reply: Value)
      requires Valid() && ServingOrder(order, |shards|) && TotalSize(shards) <= I64_MAX
      modifies this
      ensures shards == FrontStore(old(shards), route, Del(ks)) && reply == FrontReply(old(shards), route, Del(ks))
    {
      hide RemoveAll, RemovedCount, Batch, Dropped, TotalSize;
      ghost var was := shards;
      var batches := Group(route, Self, ks, |shards|);
      var cmds := seq(|shards|, i requires 0 <= i < |batches| => Del(batches[i]));
      assert cmds == Dels(route, ks, |shards|);
      assert was[..|was|] == was;
      forall i | 0 <= i < |was| ensures |was[i]| <= I64_MAX { PartOfTotal(was, |was|, i); }
      DroppedBound(was, cmds);
      var replies := Dispatch(cmds, order);
      var total := SumReplies(replies, was, cmds);
      reply := Integer(total);
    }

    method Delete(ks: seq<Key>, order: seq<nat>) returns (reply: Value)
      requires Valid() && ServingOrder(order, |shards|) && TotalSize(shards) <= I64_MAX
      modifies this
      ensures shards == FrontStore(old(shards), route, Del(ks)) && reply == FrontReply(old(shards), route, Del(ks))
    {
      hide RemoveAll, RemovedCount, Dropped, TotalSize;
      if |ks| > 1 {
        reply := FanOutDelete(ks, order);
      } else {
        var i := if ks == [] then 0 else route(ks[0]);
        SingleDelete(shards, route, ks, i);
        reply := Reply(Del(ks), shards[i]);
        shards := shards[i := After(Del(ks), shards[i])];
      }
    }

    /** One request per key, repeated keys included. */
    method CountExisting(ks: seq<Key>) returns (reply: Value)
      requires Valid() && |ks| <= I64_MAX
      ensures reply == FrontReply(shards, route, Exists(ks))
    {
      var total, j := 0, 0;
      while j < |ks|
        invariant j <= |ks| && 0 <= total <= j
        invariant total + PresentSum(shards, route, ks[j..]) == PresentSum(shards, route, ks)
      {
        assert ks[j..][0] == ks[j] && ks[j..][1..] == ks[j + 1..];
        PresentOne(shards[route(ks[j])], ks[j]);
        var r := Reply(Exists([ks[j]]), shards[route(ks[j])]);
        if r.Integer? { total := total + r.n; }
        j := j + 1;
      }
      reply := Integer(total);
    }

    method Size() returns (reply: Value)
      requires Valid() && TotalSize(shards) <= I64_MAX
      ensures reply == FrontReply(shards, route, DbSize)
    {
      hide TotalSize;
      TotalStep(shards, 0);
      assert shards[..|shards|] == shards;
      var total, i := 0, 0;
      while i < |shards|
        invariant 0 <= i <= |shards| && total == TotalSize(shards[..i])
      {
        TotalStep(shards, i + 1);
        PartOfTotal(shards, |shards|, i);
        var r := Reply(DbSize, shards[i]);
        if r.Integer? { total := total + r.n; }
        i := i + 1;
      }
      reply := Integer(total);
    }

    /** Asks each shard for its keys in any order and writes every answer back to the position its
        key came from. */
    method Gather(path: Route, ks: seq<Key>, order: seq<nat>, view: (Key, Store) -> Value) returns (results: seq<Value>)
      requires InRange(path, |shards|) && ServingOrder(order, |shards|)
      ensures results == Gathered(shards, path, ks, view)
    {
      var batches := Group(path, Second, Indexed(ks), |shards|);
      results := seq(|ks|, _ => NilBulk);
      var j := 0;
      while j < |order|
        invariant j <= |order| && |results| == |ks|
        invariant forall x :: 0 <= x < |ks| && path(ks[x]) in order[..j] ==>
            results[x] == view(ks[x], shards[path(ks[x])])
      {
        var i := order[j];
        FromIndexed(path, ks, i);
        results := WriteBack(ks, batches[i], results, view, shards[i]);
        assert order[..j + 1] == order[..j] + [i];
        j := j + 1;
      }
      assert order[..j] == order;
    }

    method Clear(order: seq<nat>)
      requires Valid() && ServingOrder(order, |shards|)
      modifies this
      ensures shards == FrontStore(old(shards), route, Flush)
    {
      var cmds := seq(|shards|, _ => Flush);
      var _ := Dispatch(cmds, order);
    }

    /** Any modelled command, by the string hash: the shards and the reply are those of the front end's
        specification; with every key on its shard they are those of a single store. */
    method Execute(c: Command, order: seq<nat>) returns (reply: Value)
      requires Valid() && ServingOrder(order, |shards|)
      requires TotalSize(shards) <= I64_MAX && (c.Exists? ==> |c.keys| <= I64_MAX)
      modifies this
      ensures Valid() && shards == FrontStore(old(shards), route, c) && reply == FrontReply(old(shards), route, c)
      ensures old(Placed(shards, route)) ==>
                && Placed(shards, route) && Whole(shards) == After(c, old(Whole(shards)))
                && reply == Reply(c, old(Whole(shards)))
    {
      ghost var was := shards;
      if Placed(was, route) { FrontRefines(was, route, c); }
      hide Whole, Placed, TotalSize, PresentSum, Dropped, Spread;
      match c
      case Flush => Clear(order); reply := OK;
      case MGet(ks) =>
        var views := Gather(route, ks, order, MGetView);
        reply := Array(views);
      case MSet(ps) => FanOutSet(route, ps, order); reply := OK;
      case DbSize => reply := Size();
      case Del(ks) => reply := Delete(ks, order);
      case Exists(ks) => reply := CountExisting(ks);
      case _ =>
        var i := route(c.key);
        reply := Reply(c, shards[i]);
        shards := shards[i := After(c, shards[i])];
    }

    /** KEYS: each shard lists its matching keys in its own order, and the lists are joined. */
    method ListKeys(listings: seq<seq<Key>>, wanted: Key -> bool) returns (all: seq<Key>)
      requires Placed(shards, route) && |listings| == |shards|
      requires forall i :: 0 <= i < |shards| ==> ListsMatching(listings[i], shards[i], wanted)
      ensures ListsMatching(all, Whole(shards), wanted)
    {
      all := [];
      var i := 0;
      while i < |shards|
        invariant 0 <= i <= |shards| && ListsMatching(all, Whole(shards[..i]), wanted)
      {
        JoinLists(shards, route, i, all, listings[i], wanted);
        all := all + listings[i];
        i := i + 1;
      }
      assert shards[..i] == shards;
    }

    /** Pipelined GETs, by the byte hash: position i answers key i as its shard shows it. */
    method FastBatchGet(ks: seq<Key>, order: seq<nat>) returns (results: seq<Value>)
      requires Valid() && ServingOrder(order, |shards|)
      ensures |results| == |ks|
      ensures forall x :: 0 <= x < |ks| ==> results[x] == FrontReply(shards, byteRoute, Get(ks[x]))
    {
      results := Gather(byteRoute, ks, order, GetView);
    }

    /** Pipelined SETs, by the byte hash: the shards are as after the same SETs one by one. */
    method FastBatchSet(ps: seq<(Key, seq<Byte>)>, order: seq<nat>) returns (results: seq<Value>)
      requires Valid() && ServingOrder(order, |shards|)
      modifies this
      ensures Valid() && shards == OneByOne(old(shards), byteRoute, ps)
      ensures |results| == |ps| && forall x :: 0 <= x < |ps| ==> results[x] == OK
    {
      OneByOneIsFanOut(shards, byteRoute, ps);
      FanOutSet(byteRoute, ps, order);
      results := seq(|ps|, _ => OK);
    }
  }

  /** The shards after plain SETs, one command at a time. */
  function OneByOne(shards: seq<Store>, route: Route, ps: seq<(Key, seq<Byte>)>): (r: seq<Store>)
    requires InRange(route, |shards|)
    ensures |r| == |shards|
    decreases |ps|
  {
    if ps == [] then shards
    else
      var n := |ps| - 1;
      FrontStore(OneByOne(shards, route, ps[..n]), route, Set(ps[n].0, ps[n].1, false, false, false))
  }

  lemma {:induction false} PutAllSnoc(st: Store, ps: seq<(Key, seq<Byte>)>, p: (Key, seq<Byte>))
    ensures PutAll(st, ps + [p]) == PutAll(st, ps)[p.0 := Str(p.1)]
    decreases |ps|
  {
    if ps == [] {
      assert ps + [p] == [p] && [p][1..] == [];
    } else {
      assert (ps + [p])[0] == ps[0] && (ps + [p])[1..] == ps[1..] + [p];
      PutAllSnoc(st[ps[0].0 := Str(ps[0].1)], ps[1..], p);
    }
  }

  lemma {:induction false} OneByOneIsFanOut(shards: seq<Store>, route: Route, ps: seq<(Key, seq<Byte>)>)
    requires InRange(route, |shards|)
    ensures OneByOne(shards, route, ps) == FrontStore(shards, route, MSet(ps))
    decreases |ps|
  {
    var next := FrontStore(shards, route, MSet(ps));
    if ps == [] {
      assert next == shards;
    } else {
      var n := |ps| - 1;
      OneByOneIsFanOut(shards, route, ps[..n]);
      var before := FrontStore(shards, route, MSet(ps[..n]));
      forall i | 0 <= i < |shards|
        ensures next[i] == if route(ps[n].0) == i then before[i][ps[n].0 := Str(ps[n].1)] else before[i]
      {
        BatchStep(route, ps, i);
        PutAllSnoc(shards[i], Batch(route, First, ps[..n], i), ps[n]);
      }
      hide FrontStore, PutAll;
      assert next == OneByOne(shards, route, ps) by { OneMoreSet(before, next, route, ps[n]); }
    }
  }

  lemma OneMoreSet(before: seq<Store>, next: seq<Store>, route: Route, p: (Key, seq<Byte>))
    requires InRange(route, |before|) && |next| == |before|
    requires forall i :: 0 <= i < |before| ==>
               next[i] == if route(p.0) == i then before[i][p.0 := Str(p.1)] else before[i]
    ensures next == FrontStore(before, route, Set(p.0, p.1, false, false, false))
  {
  }
}
