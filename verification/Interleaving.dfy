/** Fan-outs of several clients at once: their parts reach the shards in any interleaving
    (src/production/sharded_actor.rs). */
module Interleaving {
  import opened Numbers
  import opened Resp
  import opened Executor
  import opened ShardedStore

  /** One shard's part of some client's command. */
  datatype Part = Part(shard: nat, command: Command)

  predicate Fits(parts: seq<Part>, n: nat) {
    forall x :: 0 <= x < |parts| ==> parts[x].shard < n
  }

  /** The shards after all parts, in their order of arrival. */
  function Arrive(shards: seq<Store>, parts: seq<Part>): (r: seq<Store>)
    requires Fits(parts, |shards|)
    ensures |r| == |shards|
    decreases |parts|
  {
    if parts == [] then shards
    else
      var p := parts[0];
      Arrive(shards[p.shard := After(p.command, shards[p.shard])], parts[1..])
  }

  /** What one shard receives. */
  function AtShard(parts: seq<Part>, i: nat): seq<Command> {
    if parts == [] then []
    else (if parts[0].shard == i then [parts[0].command] else []) + AtShard(parts[1..], i)
  }

  /** What one shard answers to its parts. */
  function AnswersAt(shards: seq<Store>, parts: seq<Part>, i: nat): seq<Value>
    requires Fits(parts, |shards|)
    decreases |parts|
  {
    if parts == [] then []
    else
      var p := parts[0];
      (if p.shard == i then [Reply(p.command, shards[p.shard])] else []) +
      AnswersAt(shards[p.shard := After(p.command, shards[p.shard])], parts[1..], i)
  }

  function Answers(st: Store, cs: seq<Command>): seq<Value>
    decreases |cs|
  {
    if cs == [] then [] else [Reply(cs[0], st)] + Answers(After(cs[0], st), cs[1..])
  }

  /** Each shard serves its own parts one after another, as a single store would: what it holds and what
      it answers do not depend on how the other shards' parts are interleaved. */
  lemma {:induction false} ShardsAreSerial(shards: seq<Store>, parts: seq<Part>, i: nat)
    requires Fits(parts, |shards|) && i < |shards|
    ensures Arrive(shards, parts)[i] == RunAll(shards[i], AtShard(parts, i))
    ensures AnswersAt(shards, parts, i) == Answers(shards[i], AtShard(parts, i))
    decreases |parts|
  {
    hide After, Reply;
    if parts != [] {
      var p := parts[0];
      var next := shards[p.shard := After(p.command, shards[p.shard])];
      ShardsAreSerial(next, parts[1..], i);
      if p.shard == i {
        var cs := AtShard(parts, i);
        assert cs[0] == p.command && cs[1..] == AtShard(parts[1..], i);
      } else {
        assert AtShard(parts, i) == AtShard(parts[1..], i);
      }
    }
  }

  /** Two interleavings are told apart by nothing but the order at some shard. In particular concurrent
      fan-outs are as good as serial when every shard they share serves them in the same order. */
  lemma ShardOrdersDecide(shards: seq<Store>, p: seq<Part>, q: seq<Part>)
    requires Fits(p, |shards|) && Fits(q, |shards|)
    requires forall i: nat :: i < |shards| ==> AtShard(p, i) == AtShard(q, i)
    ensures Arrive(shards, p) == Arrive(shards, q)
    ensures forall i: nat :: i < |shards| ==> AnswersAt(shards, p, i) == AnswersAt(shards, q, i)
  {
    hide Arrive, AnswersAt, AtShard;
    forall i: nat | i < |shards|
      ensures Arrive(shards, p)[i] == Arrive(shards, q)[i] && AnswersAt(shards, p, i) == AnswersAt(shards, q, i)
    {
      ShardsAreSerial(shards, p, i);
      ShardsAreSerial(shards, q, i);
    }
  }

  // ---------------------------------------------------------------- an MGET beside an MSET

  /** The read's part for one shard; a shard with none of the keys gets no part. */
  function ReadAt(route: Route, ks: seq<Key>, i: nat): seq<Command> {
    var batch := Batch(route, Self, ks, i);
    if batch == [] then [] else [MGet(batch)]
  }

  function WriteAt(route: Route, ps: seq<(Key, seq<Byte>)>, i: nat): seq<Command> {
    var batch := Batch(route, First, ps, i);
    if batch == [] then [] else [MSet(batch)]
  }

  /** The parts of one MGET and one MSET on `n` shards, in any order of arrival: each shard gets its part of
      both, one way round or the other. */
  ghost predicate Fanned(parts: seq<Part>, route: Route, ks: seq<Key>, ps: seq<(Key, seq<Byte>)>, n: nat) {
    && Fits(parts, n)
    && forall i: nat :: i < n ==> EitherWay(AtShard(parts, i), ReadAt(route, ks, i), WriteAt(route, ps, i))
  }

  predicate EitherWay(cs: seq<Command>, read: seq<Command>, write: seq<Command>) {
    cs == read + write || cs == write + read
  }

  predicate ReadFirst(parts: seq<Part>, i: nat) {
    var cs := AtShard(parts, i);
    cs != [] && cs[0].MGet?
  }

  /** How many of the keys before position `x` go to the same shard. */
  function Rank(route: Route, ks: seq<Key>, x: nat): nat
    requires x < |ks|
  {
    |Batch(route, Self, ks[..x], route(ks[x]))|
  }

  /** The value put back at position `x`: from the shard's answer to the read's part, nil if there is none. */
  function PutBack(shards: seq<Store>, parts: seq<Part>, route: Route, ks: seq<Key>, x: nat): Value
    requires Fits(parts, |shards|) && x < |ks|
  {
    var i := route(ks[x]);
    var answers := AnswersAt(shards, parts, i);
    var p := if ReadFirst(parts, i) then 0 else 1;
    if p < |answers| && answers[p].Array? && Rank(route, ks, x) < |answers[p].items|
    then answers[p].items[Rank(route, ks, x)] else NilBulk
  }

  /** The MGET's reply, put together from what the shards answered. */
  function Collected(shards: seq<Store>, parts: seq<Part>, route: Route, ks: seq<Key>): (r: seq<Value>)
    requires Fits(parts, |shards|)
    ensures |r| == |ks| && forall x :: 0 <= x < |ks| ==> r[x] == PutBack(shards, parts, route, ks, x)
  {
    seq(|ks|, x requires 0 <= x < |ks| => PutBack(shards, parts, route, ks, x))
  }

  lemma {:induction false} RankFinds(route: Route, ks: seq<Key>, x: nat)
    requires x < |ks|
    ensures var batch := Batch(route, Self, ks, route(ks[x]));
            Rank(route, ks, x) < |batch| && batch[Rank(route, ks, x)] == ks[x]
  {
    var n := |ks| - 1;
    if x < n {
      RankFinds(route, ks[..n], x);
      assert ks[..n][..x] == ks[..x];
    }
  }

  lemma OneAnswer(st: Store, c: Command)
    ensures Answers(st, [c]) == [Reply(c, st)]
  {
    var one: seq<Command> := [c];
    assert one[1..] == [];
  }

  lemma TwoAnswers(st: Store, c: Command, d: Command)
    ensures Answers(st, [c, d]) == [Reply(c, st), Reply(d, After(c, st))]
  {
    hide After, Reply;
    assert [c, d][1..] == [d];
    OneAnswer(After(c, st), d);
  }

  lemma MGetIs(st: Store, ks: seq<Key>)
    ensures Reply(MGet(ks), st) == Array(MGetViews(ks, st)) && After(MGet(ks), st) == st
  {
  }

  lemma MSetIs(st: Store, ps: seq<(Key, seq<Byte>)>)
    ensures After(MSet(ps), st) == PutAll(st, ps)
  {
  }

  /** Where the answer to the read stands among a shard's answers, and what it shows. */
  lemma ReadAnswer(st: Store, cs: seq<Command>, ks: seq<Key>, ps: seq<(Key, seq<Byte>)>)
    requires EitherWay(cs, [MGet(ks)], if ps == [] then [] else [MSet(ps)])
    ensures var early := cs[0].MGet?;
            var p := if early then 0 else 1;
            p < |Answers(st, cs)| && Answers(st, cs)[p] == Array(MGetViews(ks, if early then st else PutAll(st, ps)))
  {
    hide After, Reply, Answers, PutAll;
    var read, write := MGet(ks), MSet(ps);
    MGetIs(st, ks);
    MGetIs(PutAll(st, ps), ks);
    MSetIs(st, ps);
    if ps == [] {
      assert cs == [read];
      OneAnswer(st, read);
    } else if cs[0].MGet? {
      assert cs == [read, write];
      TwoAnswers(st, read, write);
    } else {
      assert cs == [write, read];
      TwoAnswers(st, write, read);
    }
  }

  /** A shard shows its old values if it serves the read first, and otherwise its new ones. */
  lemma ShardShows(shards: seq<Store>, parts: seq<Part>, route: Route, ks: seq<Key>, ps: seq<(Key, seq<Byte>)>, x: nat)
    requires InRange(route, |shards|) && Fanned(parts, route, ks, ps, |shards|) && x < |ks|
    ensures var i := route(ks[x]);
            PutBack(shards, parts, route, ks, x) ==
            MGetView(ks[x], if ReadFirst(parts, i) then shards[i] else PutAll(shards[i], Batch(route, First, ps, i)))
  {
    var i := route(ks[x]);
    var batch := Batch(route, Self, ks, i);
    RankFinds(route, ks, x);
    ShardsAreSerial(shards, parts, i);
    hide Batch, Rank, AtShard, AnswersAt, Answers, Arrive, PutAll, MGetView;
    assert EitherWay(AtShard(parts, i), ReadAt(route, ks, i), WriteAt(route, ps, i));
    ReadAnswer(shards[i], AtShard(parts, i), batch, Batch(route, First, ps, i));
  }

  /** Position by position the reply is that of the whole store before or after the MSET. */
  lemma WholeShows(shards: seq<Store>, parts: seq<Part>, route: Route, ks: seq<Key>, ps: seq<(Key, seq<Byte>)>, x: nat)
    requires Placed(shards, route) && Fanned(parts, route, ks, ps, |shards|) && x < |ks|
    ensures var st := Whole(shards);
            PutBack(shards, parts, route, ks, x) ==
            MGetView(ks[x], if ReadFirst(parts, route(ks[x])) then st else PutAll(st, ps))
  {
    var k, i := ks[x], route(ks[x]);
    ShardShows(shards, parts, route, ks, ps, x);
    WholeAt(shards, route, k);
    LastForBatch(route, ps, k, i);
    PutAllAt(shards[i], Batch(route, First, ps, i), k);
    PutAllAt(Whole(shards), ps, k);
    hide PutAll, Whole, Batch, LastFor, PutBack, ReadFirst;
  }

  /** Whatever the interleaving, the MSET has landed whole once all parts have been served. */
  lemma WritesLand(shards: seq<Store>, parts: seq<Part>, route: Route, ks: seq<Key>, ps: seq<(Key, seq<Byte>)>)
    requires Placed(shards, route) && Fanned(parts, route, ks, ps, |shards|)
    ensures Placed(Arrive(shards, parts), route) && Whole(Arrive(shards, parts)) == After(MSet(ps), Whole(shards))
  {
    var next := Spread(shards, Msets(route, ps, |shards|));
    hide AtShard, AnswersAt, Arrive, Batch, PutAll, RunAll, Whole;
    forall i: nat | i < |shards| ensures Arrive(shards, parts)[i] == next[i] {
      ShardsAreSerial(shards, parts, i);
      assert EitherWay(AtShard(parts, i), ReadAt(route, ks, i), WriteAt(route, ps, i));
      ServedOnce(shards[i], AtShard(parts, i), Batch(route, Self, ks, i), Batch(route, First, ps, i));
    }
    assert Arrive(shards, parts) == next;
    MsetRefines(shards, route, ps);
  }

  lemma ServedOnce(st: Store, cs: seq<Command>, ks: seq<Key>, ps: seq<(Key, seq<Byte>)>)
    requires EitherWay(cs, if ks == [] then [] else [MGet(ks)], if ps == [] then [] else [MSet(ps)])
    ensures RunAll(st, cs) == PutAll(st, ps)
  {
    hide After, Reply;
    MGetIs(st, ks);
    MGetIs(PutAll(st, ps), ks);
    MSetIs(st, ps);
    if |cs| == 1 {
      assert cs[1..] == [];
    } else if |cs| == 2 {
      var one: seq<Command> := [cs[1]];
      assert cs[1..] == one && one[1..] == [];
      assert RunAll(After(cs[0], st), one) == After(cs[1], After(cs[0], st));
    }
  }

  /** A key that both commands name. */
  predicate Shared(ks: seq<Key>, ps: seq<(Key, seq<Byte>)>, x: nat) {
    x < |ks| && LastFor(ps, ks[x]).Some?
  }

  /** Two shared keys lie on shards that serve the two commands in different orders. */
  ghost predicate Crossed(parts: seq<Part>, route: Route, ks: seq<Key>, ps: seq<(Key, seq<Byte>)>) {
    exists x: nat, y: nat :: Shared(ks, ps, x) && Shared(ks, ps, y)
      && ReadFirst(parts, route(ks[x])) && !ReadFirst(parts, route(ks[y]))
  }

  /** The MGET answers as it would on a single store, before or after the MSET. */
  ghost predicate Atomic(shards: seq<Store>, parts: seq<Part>, route: Route, ks: seq<Key>, ps: seq<(Key, seq<Byte>)>)
    requires Fits(parts, |shards|)
  {
    var st := Whole(shards);
    var reply := Array(Collected(shards, parts, route, ks));
    reply == Reply(MGet(ks), st) || reply == Reply(MGet(ks), After(MSet(ps), st))
  }

  /** A key the MSET does not name shows the same before and after it. */
  lemma UnsharedShows(ks: seq<Key>, ps: seq<(Key, seq<Byte>)>, st: Store, x: nat)
    requires x < |ks| && !Shared(ks, ps, x)
    ensures MGetView(ks[x], PutAll(st, ps)) == MGetView(ks[x], st)
  {
    PutAllAt(st, ps, ks[x]);
  }

  lemma UncrossedIsAtomic(shards: seq<Store>, parts: seq<Part>, route: Route, ks: seq<Key>, ps: seq<(Key, seq<Byte>)>)
    requires Placed(shards, route) && Fanned(parts, route, ks, ps, |shards|) && !Crossed(parts, route, ks, ps)
    ensures Atomic(shards, parts, route, ks, ps)
  {
    var st := Whole(shards);
    var reply := Collected(shards, parts, route, ks);
    var early := exists x: nat :: Shared(ks, ps, x) && ReadFirst(parts, route(ks[x]));
    MGetIs(st, ks);
    MSetIs(st, ps);
    MGetIs(PutAll(st, ps), ks);
    hide PutAll, Whole, PutBack, LastFor, After, Reply, ReadFirst, MGetView, AtShard;
    forall x: nat | x < |ks| ensures reply[x] == MGetView(ks[x], if early then st else PutAll(st, ps)) {
      WholeShows(shards, parts, route, ks, ps, x);
      if !Shared(ks, ps, x) { UnsharedShows(ks, ps, st, x); }
    }
    assert reply == MGetViews(ks, if early then st else PutAll(st, ps));
  }

  lemma EmptyWhole(n: nat, route: Route)
    requires InRange(route, n)
    ensures Placed(Empty(n), route) && Whole(Empty(n)) == map[]
  {
    hide Whole;
    WholeIs(Empty(n), route, map[]);
  }

  lemma PairShows(parts: seq<Part>, route: Route, ks: seq<Key>, ps: seq<(Key, seq<Byte>)>, n: nat, x: nat)
    requires InRange(route, n) && Fanned(parts, route, ks, ps, n) && Shared(ks, ps, x)
    ensures (PutBack(Empty(n), parts, route, ks, x) == NilBulk) <==> ReadFirst(parts, route(ks[x]))
    ensures MGetView(ks[x], map[]) == NilBulk && MGetView(ks[x], PutAll(map[], ps)) != NilBulk
  {
    EmptyWhole(n, route);
    WholeShows(Empty(n), parts, route, ks, ps, x);
    PutAllAt(map[], ps, ks[x]);
    hide PutAll, Whole, PutBack, LastFor, ReadFirst, AtShard, Empty, Fanned;
  }

  /** On an empty store one crossed key shows nothing and the other its new value. */
  lemma CrossedTears(parts: seq<Part>, route: Route, ks: seq<Key>, ps: seq<(Key, seq<Byte>)>, n: nat)
    requires InRange(route, n) && Fanned(parts, route, ks, ps, n) && Crossed(parts, route, ks, ps)
    ensures Placed(Empty(n), route) && !Atomic(Empty(n), parts, route, ks, ps)
  {
    hide ReadAt, WriteAt, AtShard, EitherWay, LastFor, ReadFirst, PutBack, Whole, Empty, Placed;
    var x: nat, y: nat :| Shared(ks, ps, x) && Shared(ks, ps, y)
      && ReadFirst(parts, route(ks[x])) && !ReadFirst(parts, route(ks[y]));
    EmptyWhole(n, route);
    PairShows(parts, route, ks, ps, n, x);
    PairShows(parts, route, ks, ps, n, y);
    MGetIs(map[], ks);
    MSetIs(map[], ps);
    MGetIs(PutAll(map[], ps), ks);
    hide PutAll, After, Reply, MGetView;
    var reply := Collected(Empty(n), parts, route, ks);
    assert reply[y] != MGetViews(ks, map[])[y] && reply[x] != MGetViews(ks, PutAll(map[], ps))[x];
  }

  /** An MGET beside an MSET is atomic on every placed store if and only if no two keys they share lie on
      shards that serve them in different orders. */
  lemma AtomicIff(parts: seq<Part>, route: Route, ks: seq<Key>, ps: seq<(Key, seq<Byte>)>, n: nat)
    requires InRange(route, n) && Fanned(parts, route, ks, ps, n)
    ensures (forall shards :: |shards| == n && Placed(shards, route) ==> Atomic(shards, parts, route, ks, ps))
            <==> !Crossed(parts, route, ks, ps)
  {
    hide Crossed, Atomic, Placed, Fits, AtShard;
    if Crossed(parts, route, ks, ps) {
      CrossedTears(parts, route, ks, ps, n);
    } else {
      forall shards | |shards| == n && Placed(shards, route) ensures Atomic(shards, parts, route, ks, ps) {
        UncrossedIsAtomic(shards, parts, route, ks, ps);
      }
    }
  }

  // ---------------------------------------------------------------- a torn read

  const A: Key := [97]
  const B: Key := [98]
  const BEFORE: seq<Byte> := [48]
  const AFTER: seq<Byte> := [49]

  /** Two shards with one key each. */
  const HELD: seq<Store> := [map[A := Str(BEFORE)], map[B := Str(BEFORE)]]

  function Apart(k: Key): nat { if k == A then 0 else 1 }

  function Both(): seq<(Key, seq<Byte>)> { [(A, AFTER), (B, AFTER)] }

  /** The read's first part comes before the write's, its second part after. */
  function Torn(): seq<Part> {
    [Part(0, MGet([A])), Part(0, MSet([(A, AFTER)])), Part(1, MSet([(B, AFTER)])), Part(1, MGet([B]))]
  }

  lemma Cons(p: Part, rest: seq<Part>, i: nat)
    ensures AtShard([p] + rest, i) == (if p.shard == i then [p.command] else []) + AtShard(rest, i)
  {
    assert ([p] + rest)[1..] == rest;
  }

  lemma NoParts(i: nat)
    ensures AtShard([], i) == []
  {
  }

  lemma TornAt(i: nat)
    ensures AtShard(Torn(), i) ==
            if i == 0 then [MGet([A]), MSet([(A, AFTER)])] else if i == 1 then [MSet([(B, AFTER)]), MGet([B])] else []
  {
    hide AtShard;
    var a, b, c, d := Torn()[0], Torn()[1], Torn()[2], Torn()[3];
    NoParts(i);
    Cons(d, [], i);
    Cons(c, [d] + [], i);
    Cons(b, [c] + ([d] + []), i);
    Cons(a, [b] + ([c] + ([d] + [])), i);
    assert Torn() == [a] + ([b] + ([c] + ([d] + [])));
  }

  lemma BatchPair<T(!new)>(route: Route, key: T -> Key, a: T, b: T, i: nat)
    ensures Batch(route, key, [a, b], i) ==
            (if route(key(a)) == i then [a] else []) + (if route(key(b)) == i then [b] else [])
  {
    var one: seq<T> := [a];
    assert [a, b][..1] == one && one[..0] == [];
    assert Batch(route, key, one, i) == if route(key(a)) == i then [a] else [];
  }

  lemma TornFans()
    ensures Fanned(Torn(), Apart, [A, B], Both(), 2)
  {
    hide Batch, AtShard;
    assert A != B;
    forall i: nat | i < 2 ensures EitherWay(AtShard(Torn(), i), ReadAt(Apart, [A, B], i), WriteAt(Apart, Both(), i)) {
      TornAt(i);
      BatchPair(Apart, Self, A, B, i);
      BatchPair(Apart, First, (A, AFTER), (B, AFTER), i);
      assert Batch(Apart, Self, [A, B], i) == if i == 0 then [A] else [B];
      assert Batch(Apart, First, Both(), i) == if i == 0 then [(A, AFTER)] else [(B, AFTER)];
    }
  }

  lemma LastOfBoth()
    ensures LastFor(Both(), A) == Some(AFTER) && LastFor(Both(), B) == Some(AFTER)
  {
    assert A != B;
    assert Both() == ([] + [(A, AFTER)]) + [(B, AFTER)];
    LastForSnoc([] + [(A, AFTER)], (B, AFTER), A);
    LastForSnoc([] + [(A, AFTER)], (B, AFTER), B);
    LastForSnoc([], (A, AFTER), A);
  }

  lemma HeldWhole()
    ensures Placed(HELD, Apart)
    ensures forall k :: k == A || k == B ==> Find(k, Whole(HELD)) == Some(Str(BEFORE))
  {
    hide Whole;
    assert A != B;
    WholeAt(HELD, Apart, A);
    WholeAt(HELD, Apart, B);
  }

  /** On one store the read shows both old values or both new ones. */
  lemma WholeReads()
    ensures var st := Whole(HELD);
            && MGetViews([A, B], st) == [BulkString(BEFORE), BulkString(BEFORE)]
            && MGetViews([A, B], PutAll(st, Both())) == [BulkString(AFTER), BulkString(AFTER)]
  {
    HeldWhole();
    LastOfBoth();
    PutAllAt(Whole(HELD), Both(), A);
    PutAllAt(Whole(HELD), Both(), B);
    hide PutAll, Whole, LastFor;
  }

  lemma TornShows()
    ensures Fanned(Torn(), Apart, [A, B], Both(), 2)
    ensures ReadFirst(Torn(), Apart(A)) && !ReadFirst(Torn(), Apart(B))
    ensures Collected(HELD, Torn(), Apart, [A, B]) == [BulkString(BEFORE), BulkString(AFTER)]
  {
    TornFans();
    hide ReadAt, WriteAt, EitherWay, LastFor, PutBack, Whole, PutAll, MGetView, Both, AtShard;
    assert A != B;
    assert ReadFirst(Torn(), 0) && !ReadFirst(Torn(), 1) by {
      TornAt(0);
      TornAt(1);
    }
    HeldWhole();
    WholeReads();
    var ks: seq<Key> := [A, B];
    WholeShows(HELD, Torn(), Apart, ks, Both(), 0);
    WholeShows(HELD, Torn(), Apart, ks, Both(), 1);
    var st := Whole(HELD);
    assert MGetView(A, st) == MGetViews(ks, st)[0];
    assert MGetView(B, PutAll(st, Both())) == MGetViews(ks, PutAll(st, Both()))[1];
  }

  /** An MGET beside an MSET of the same two keys can show the old value of one and the new value of the
      other, which no order of the two commands on a single store shows. */
  lemma TornRead()
    ensures Placed(HELD, Apart) && Fanned(Torn(), Apart, [A, B], Both(), 2) && Crossed(Torn(), Apart, [A, B], Both())
    ensures Collected(HELD, Torn(), Apart, [A, B]) == [BulkString(BEFORE), BulkString(AFTER)]
    ensures !Atomic(HELD, Torn(), Apart, [A, B], Both())
  {
    TornShows();
    HeldWhole();
    LastOfBoth();
    WholeReads();
    var ks: seq<Key> := [A, B];
    MGetIs(Whole(HELD), ks);
    MSetIs(Whole(HELD), Both());
    MGetIs(PutAll(Whole(HELD), Both()), ks);
    hide AtShard, PutBack, Whole, PutAll, LastFor, Placed, Torn, Both, After, Reply, ReadFirst, MGetView, Batch, Apart;
    assert Shared(ks, Both(), 0) && Shared(ks, Both(), 1);
  }
}
