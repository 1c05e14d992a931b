/** A cluster of replicated shards exchanging deltas that may be lost, delayed, duplicated and
    reordered, and restarting from checkpoints (src/production/replicated_shard_actor.rs,
    src/production/replicated_state.rs, src/replication/state/shard_state.rs). */
module Convergence {
  import opened Numbers
  import opened Resp
  import opened Executor
  import opened Lattice
  import opened Replica

  /** A register written for a key. */
  datatype Write = Write(key: Key, reg: Register)

  /** `sent` holds every delta ever produced: any of them may still arrive, any number of times.
      `made`, `seen` and `past` are history: all writes, the writes that reached each replica since it last
      started, and the writes that ever reached each replica. */
  datatype Net = Net(
    reps: seq<Rep>, sent: set<Delta>, made: set<Write>, seen: seq<set<Write>>, past: set<(nat, Write)>)

  /** The replicas with their executors' stores. */
  datatype World = World(net: Net, stores: seq<Store>)

  datatype Step =
    | Run(node: nat, command: Command)
    | Deliver(node: nat, delta: Delta)
    | Offer(node: nat, key: Key)
    | Restart(node: nat, image: map<Key, Replicated>)

  // ---------------------------------------------------------------- steps of the network

  /** Replica `i` moves to `r`, having just written `k`. */
  function Publish(n: Net, i: nat, r: Rep, k: Key): Net
    requires i < |n.reps| == |n.seen| && k in r.keys && r.keys[k].crdt.Lww?
  {
    var w := Write(k, r.keys[k].crdt.reg);
    Net(n.reps[i := r], n.sent + {Delta(k, r.keys[k], i)}, n.made + {w}, n.seen[i := n.seen[i] + {w}],
        n.past + {(i, w)})
  }

  function Put(n: Net, i: nat, k: Key, v: seq<Byte>): Net
    requires i < |n.reps| == |n.seen|
  {
    Publish(n, i, AfterWrite(n.reps[i], k, v, None), k)
  }

  function Bury(n: Net, i: nat, k: Key): (m: Net)
    requires i < |n.reps| == |n.seen|
    ensures |m.reps| == |m.seen| == |n.reps|
  {
    if k in n.reps[i].keys && n.reps[i].keys[k].crdt.Lww? then Publish(n, i, AfterDelete(n.reps[i], k), k) else n
  }

  function BuryAll(n: Net, i: nat, ks: seq<Key>): (m: Net)
    requires i < |n.reps| == |n.seen|
    ensures |m.reps| == |m.seen| == |n.reps|
    decreases |ks|
  {
    if ks == [] then n else BuryAll(Bury(n, i, ks[0]), i, ks[1..])
  }

  function Keep(n: Net, i: nat, k: Key, after: Store): Net
    requires i < |n.reps| == |n.seen|
  {
    if k in after && after[k].Str? then Put(n, i, k, after[k].s) else n
  }

  function Recorded(n: Net, i: nat, c: Command, after: Store): (m: Net)
    requires i < |n.reps| == |n.seen|
    ensures |m.reps| == |m.seen| == |n.reps|
  {
    match c
    case Set(k, v, nx, xx, _) =>
      if nx && !(k in after && after[k].Str?) then n
      else if !nx && xx && k !in after then n
      else Put(n, i, k, v)
    case Del(ks) => BuryAll(n, i, ks)
    case IncrBy(k, _) => Keep(n, i, k, after)
    case Append(k, _) => Keep(n, i, k, after)
    case GetSet(k, _) => Keep(n, i, k, after)
    case _ => n
  }

  function Receive(n: Net, i: nat, d: Delta): Net
    requires i < |n.reps| == |n.seen| && d.value.crdt.Lww?
  {
    var w := Write(d.key, d.value.crdt.reg);
    n.(reps := n.reps[i := Apply(n.reps[i], d)], seen := n.seen[i := n.seen[i] + {w}], past := n.past + {(i, w)})
  }

  // ---------------------------------------------------------------- steps of the cluster

  predicate Sized(w: World) {
    |w.net.reps| == |w.net.seen| == |w.stores|
  }

  /** A replicated value as string commands produce it: a value or a tombstone, no expiry, and an
      outer stamp that has not fallen behind the register's. */
  predicate Plain(v: Replicated) {
    && v.crdt.Lww? && v.expiry == None && Stocked(v.crdt.reg)
    && v.crdt.reg.stamp.time <= v.stamp.time
  }

  predicate Stocked(r: Register) {
    r.value.Some? || r.tombstone
  }

  /** A checkpoint of replica `i` holds values that have reached it at some time. */
  predicate Checkpoint(i: nat, image: map<Key, Replicated>, past: set<(nat, Write)>) {
    forall k :: k in image ==> Plain(image[k]) && (i, Write(k, image[k].crdt.reg)) in past
  }

  function WritesOf(image: map<Key, Replicated>): set<Write>
    requires forall k :: k in image ==> image[k].crdt.Lww?
  {
    set k | k in image :: Write(k, image[k].crdt.reg)
  }

  /** A step that can happen: any command anywhere, any delta ever sent, any key on offer, any
      replica restarted from any checkpoint of its own. */
  predicate Enabled(w: World, s: Step) {
    && Sized(w)
    && s.node < |w.stores|
    && match s
       case Run(_, _) => true
       case Deliver(i, d) => d in w.net.sent && d.value.crdt.Lww? && Merged(w.net.reps[i], d).crdt.Lww?
       case Offer(i, k) => k in w.net.reps[i].keys
       case Restart(i, image) => Checkpoint(i, image, w.net.past)
  }

  function Next(w: World, s: Step): (v: World)
    requires Enabled(w, s)
    ensures Sized(v) && |v.stores| == |w.stores|
  {
    match s
    case Run(i, c) =>
      var after := After(c, w.stores[i]);
      World(Recorded(w.net, i, c, after), w.stores[i := after])
    case Deliver(i, d) =>
      World(Receive(w.net, i, d), w.stores[i := Through(w.stores[i], d.key, Merged(w.net.reps[i], d))])
    case Offer(i, k) =>
      World(w.net.(sent := w.net.sent + {Delta(k, w.net.reps[i].keys[k], i)}), w.stores)
    case Restart(i, image) =>
      World(w.net.(reps := w.net.reps[i := Rep(i, 0, image, [])], seen := w.net.seen[i := WritesOf(image)]),
            w.stores[i := Recovered(image)])
  }

  function Start(n: nat): World {
    var reps := seq(n, i requires 0 <= i < n => Rep(i, 0, map[], []));
    World(Net(reps, {}, {}, seq(n, _ => {}), {}), seq(n, _ => map[]))
  }

  predicate Possible(w: World, run: seq<Step>)
    decreases |run|
  {
    run == [] || (Enabled(w, run[0]) && Possible(Next(w, run[0]), run[1..]))
  }

  function Final(w: World, run: seq<Step>): World
    requires Possible(w, run)
    decreases |run|
  {
    if run == [] then w else Final(Next(w, run[0]), run[1..])
  }

  /** Every command in the run records what it did (see `Faithful`). */
  predicate FaithfulRun(w: World, run: seq<Step>)
    requires Possible(w, run)
    decreases |run|
  {
    run == [] || (
      && (run[0].Run? ==> Faithful(run[0].command, w.stores[run[0].node]))
      && FaithfulRun(Next(w, run[0]), run[1..]))
  }

  // ---------------------------------------------------------------- writes that land

  /** A new write takes its place: its stamp is not taken by another write to the key, and it is not
      behind a write to the key that its replica has already seen. */
  ghost predicate Lands(n: Net, i: nat, w: Write)
    requires i < |n.seen|
  {
    && (forall g :: g in n.made && g.key == w.key && g.reg.stamp == w.reg.stamp ==> g == w)
    && (forall g :: g in n.seen[i] && g.key == w.key ==> !Before(w.reg.stamp, g.reg.stamp))
  }

  function NewWrite(r: Rep, k: Key, v: seq<Byte>): Write {
    Write(k, Written(r, v, None).crdt.reg)
  }

  function NewBurial(r: Rep, k: Key): Write {
    Write(k, Buried(r, None).crdt.reg)
  }

  ghost predicate BurialsLand(n: Net, i: nat, ks: seq<Key>)
    requires i < |n.reps| == |n.seen|
    decreases |ks|
  {
    ks == [] || (
      && (ks[0] in n.reps[i].keys ==> Lands(n, i, NewBurial(n.reps[i], ks[0])))
      && BurialsLand(Bury(n, i, ks[0]), i, ks[1..]))
  }

  ghost predicate KeptLands(n: Net, i: nat, k: Key, after: Store)
    requires i < |n.reps| == |n.seen|
  {
    k in after && after[k].Str? ==> Lands(n, i, NewWrite(n.reps[i], k, after[k].s))
  }

  /** Everything a command records takes its place. */
  ghost predicate CommandLands(n: Net, i: nat, c: Command, after: Store)
    requires i < |n.reps| == |n.seen|
  {
    match c
    case Set(k, v, nx, xx, _) =>
      || (nx && !(k in after && after[k].Str?))
      || (!nx && xx && k !in after)
      || Lands(n, i, NewWrite(n.reps[i], k, v))
    case Del(ks) => BurialsLand(n, i, ks)
    case IncrBy(k, _) => KeptLands(n, i, k, after)
    case Append(k, _) => KeptLands(n, i, k, after)
    case GetSet(k, _) => KeptLands(n, i, k, after)
    case _ => true
  }

  ghost predicate StepLands(w: World, i: nat, c: Command)
    requires Sized(w) && i < |w.stores|
  {
    CommandLands(w.net, i, c, After(c, w.stores[i]))
  }

  ghost predicate RunLands(w: World, run: seq<Step>)
    requires Possible(w, run)
    decreases |run|
  {
    run == [] || (
      && (run[0].Run? ==> StepLands(w, run[0].node, run[0].command))
      && RunLands(Next(w, run[0]), run[1..]))
  }

  // ---------------------------------------------------------------- what every landing step keeps

  /** The replica holds, at each key, the latest of the writes it has seen. */
  predicate HoldsLatest(r: Rep, seen: set<Write>) {
    && (forall k :: k in r.keys ==> Plain(r.keys[k]) && Write(k, r.keys[k].crdt.reg) in seen)
    && (forall w :: w in seen ==> w.key in r.keys && !Before(r.keys[w.key].crdt.reg.stamp, w.reg.stamp))
  }

  predicate Numbered(n: Net) {
    |n.reps| == |n.seen| && forall i :: 0 <= i < |n.reps| ==> n.reps[i].id == i
  }

  /** Stamps identify the writes to a key. */
  ghost predicate UniqueStamps(made: set<Write>) {
    forall a, b :: a in made && b in made && a.key == b.key && a.reg.stamp == b.reg.stamp ==> a == b
  }

  predicate AllStocked(made: set<Write>) {
    forall w :: w in made ==> Stocked(w.reg)
  }

  predicate SentIsMade(n: Net) {
    forall d :: d in n.sent ==> Plain(d.value) && Write(d.key, d.value.crdt.reg) in n.made
  }

  predicate EachHoldsLatest(n: Net)
    requires |n.reps| == |n.seen|
  {
    forall i :: 0 <= i < |n.reps| ==> HoldsLatest(n.reps[i], n.seen[i]) && n.seen[i] <= n.made
  }

  predicate PastIsMade(n: Net) {
    forall p :: p in n.past ==> p.1 in n.made
  }

  predicate Carries(d: Delta, w: Write) {
    d.key == w.key && Plain(d.value) && d.value.crdt.reg == w.reg
  }

  /** Every write is on its way. */
  ghost predicate AllCarried(made: set<Write>, sent: set<Delta>) {
    forall w :: w in made ==> exists d :: d in sent && Carries(d, w)
  }

  ghost predicate Inv(n: Net) {
    && Numbered(n) && UniqueStamps(n.made) && AllStocked(n.made) && SentIsMade(n) && EachHoldsLatest(n)
    && PastIsMade(n) && AllCarried(n.made, n.sent)
  }

  /** Only replica `i` moves, and it holds the latest of what it has seen. */
  lemma OneMoves(
    n: Net, i: nat, r: Rep, sent: set<Delta>, made: set<Write>, seen: set<Write>, past: set<(nat, Write)>)
    requires Numbered(n) && EachHoldsLatest(n) && i < |n.reps|
    requires r.id == i && HoldsLatest(r, seen) && seen <= made && n.made <= made
    ensures var m := Net(n.reps[i := r], sent, made, n.seen[i := seen], past);
            Numbered(m) && EachHoldsLatest(m)
  {
    hide HoldsLatest;
  }

  lemma WriteHoldsLatest(r: Rep, next: Rep, k: Key, seen: set<Write>)
    requires HoldsLatest(r, seen) && k in next.keys && next.keys == r.keys[k := next.keys[k]] && Plain(next.keys[k])
    requires forall g :: g in seen && g.key == k ==> !Before(next.keys[k].crdt.reg.stamp, g.reg.stamp)
    ensures HoldsLatest(next, seen + {Write(k, next.keys[k].crdt.reg)})
  {
  }

  lemma Latest(n: Net, i: nat)
    requires |n.reps| == |n.seen| && EachHoldsLatest(n) && i < |n.reps|
    ensures HoldsLatest(n.reps[i], n.seen[i]) && n.seen[i] <= n.made
  {
  }

  lemma MoreCarried(made: set<Write>, sent: set<Delta>, w: Write, d: Delta)
    requires AllCarried(made, sent) && Carries(d, w)
    ensures AllCarried(made + {w}, sent + {d})
  {
    hide Carries;
    forall g | g in made + {w} ensures exists e :: e in sent + {d} && Carries(e, g) {
      if g in made {
        var e :| e in sent && Carries(e, g);
        assert e in sent + {d};
      } else {
        assert d in sent + {d};
      }
    }
  }

  lemma StillCarried(made: set<Write>, sent: set<Delta>, more: set<Delta>)
    requires AllCarried(made, sent) && sent <= more
    ensures AllCarried(made, more)
  {
    hide Carries;
    forall g | g in made ensures exists e :: e in more && Carries(e, g) {
      var e :| e in sent && Carries(e, g);
      assert e in more;
    }
  }

  /** Publishing a write that lands keeps the invariant. */
  lemma PublishKeeps(n: Net, i: nat, r: Rep, k: Key)
    requires Inv(n) && i < |n.reps|
    requires r.id == i && k in r.keys && r.keys == n.reps[i].keys[k := r.keys[k]] && Plain(r.keys[k])
    requires Lands(n, i, Write(k, r.keys[k].crdt.reg))
    ensures Inv(Publish(n, i, r, k))
  {
    var w := Write(k, r.keys[k].crdt.reg);
    MoreCarried(n.made, n.sent, w, Delta(k, r.keys[k], i));
    hide HoldsLatest, EachHoldsLatest, AllCarried;
    Latest(n, i);
    WriteHoldsLatest(n.reps[i], r, k, n.seen[i]);
    OneMoves(n, i, r, n.sent + {Delta(k, r.keys[k], i)}, n.made + {w}, n.seen[i] + {w}, n.past + {(i, w)});
  }

  lemma PutKeeps(n: Net, i: nat, k: Key, v: seq<Byte>)
    requires Inv(n) && i < |n.reps| && Lands(n, i, NewWrite(n.reps[i], k, v))
    ensures Inv(Put(n, i, k, v))
  {
    hide Inv, Lands;
    InvNumbers(n, i);
    PublishKeeps(n, i, AfterWrite(n.reps[i], k, v, None), k);
  }

  lemma InvNumbers(n: Net, i: nat)
    requires Inv(n) && i < |n.reps|
    ensures |n.reps| == |n.seen| && n.reps[i].id == i
    ensures forall k :: k in n.reps[i].keys ==> n.reps[i].keys[k].crdt.Lww? && n.reps[i].keys[k].expiry == None
  {
    Latest(n, i);
  }

  lemma BuryKeeps(n: Net, i: nat, k: Key)
    requires Inv(n) && i < |n.reps| && (k in n.reps[i].keys ==> Lands(n, i, NewBurial(n.reps[i], k)))
    ensures Inv(Bury(n, i, k))
  {
    hide Inv, Lands;
    InvNumbers(n, i);
    if k in n.reps[i].keys { PublishKeeps(n, i, AfterDelete(n.reps[i], k), k); }
  }

  lemma {:induction false} BuryAllKeeps(n: Net, i: nat, ks: seq<Key>)
    requires Inv(n) && i < |n.reps| && BurialsLand(n, i, ks)
    ensures Inv(BuryAll(n, i, ks))
    decreases |ks|
  {
    assert |n.reps| == |n.seen|;
    hide Inv, Bury, Lands;
    if ks != [] {
      BuryKeeps(n, i, ks[0]);
      BuryAllKeeps(Bury(n, i, ks[0]), i, ks[1..]);
    }
  }

  lemma RecordedKeeps(n: Net, i: nat, c: Command, after: Store)
    requires Inv(n) && i < |n.reps| && CommandLands(n, i, c, after)
    ensures Inv(Recorded(n, i, c, after))
  {
    assert |n.reps| == |n.seen|;
    hide Inv, Put, BuryAll, Lands, BurialsLand;
    match c
    case Set(k, v, _, _, _) => if Recorded(n, i, c, after) != n { PutKeeps(n, i, k, v); }
    case Del(ks) => BuryAllKeeps(n, i, ks);
    case IncrBy(k, _) => if k in after && after[k].Str? { PutKeeps(n, i, k, after[k].s); }
    case Append(k, _) => if k in after && after[k].Str? { PutKeeps(n, i, k, after[k].s); }
    case GetSet(k, _) => if k in after && after[k].Str? { PutKeeps(n, i, k, after[k].s); }
    case _ =>
  }

  lemma ApplyHoldsLatest(r: Rep, seen: set<Write>, d: Delta)
    requires HoldsLatest(r, seen) && Plain(d.value)
    ensures HoldsLatest(Apply(r, d), seen + {Write(d.key, d.value.crdt.reg)})
  {
  }

  lemma ReceiveKeeps(n: Net, i: nat, d: Delta)
    requires Inv(n) && i < |n.reps| && d in n.sent
    ensures Inv(Receive(n, i, d))
  {
    hide HoldsLatest, EachHoldsLatest, Merged, UniqueStamps, AllCarried;
    Latest(n, i);
    ApplyHoldsLatest(n.reps[i], n.seen[i], d);
    var w := Write(d.key, d.value.crdt.reg);
    OneMoves(n, i, Apply(n.reps[i], d), n.sent, n.made, n.seen[i] + {w}, n.past + {(i, w)});
  }

  lemma RestartKeeps(n: Net, i: nat, image: map<Key, Replicated>)
    requires Inv(n) && i < |n.reps| && Checkpoint(i, image, n.past)
    ensures Inv(n.(reps := n.reps[i := Rep(i, 0, image, [])], seen := n.seen[i := WritesOf(image)]))
  {
    assert HoldsLatest(Rep(i, 0, image, []), WritesOf(image));
    assert WritesOf(image) <= n.made;
    hide HoldsLatest, EachHoldsLatest, UniqueStamps, AllCarried;
    OneMoves(n, i, Rep(i, 0, image, []), n.sent, n.made, WritesOf(image), n.past);
  }

  lemma StepKeeps(w: World, s: Step)
    requires Enabled(w, s) && Inv(w.net)
    requires s.Run? ==> StepLands(w, s.node, s.command)
    ensures Inv(Next(w, s).net)
  {
    hide AllCarried;
    match s
    case Run(i, c) => RecordedKeeps(w.net, i, c, After(c, w.stores[i]));
    case Deliver(i, d) => ReceiveKeeps(w.net, i, d);
    case Restart(i, image) => RestartKeeps(w.net, i, image);
    case Offer(i, k) =>
      Latest(w.net, i);
      StillCarried(w.net.made, w.net.sent, Next(w, s).net.sent);
  }

  // ---------------------------------------------------------------- executors

  function ShardOf(w: World, i: nat): Shard
    requires Sized(w) && i < |w.stores|
  {
    Shard(w.net.reps[i], w.stores[i])
  }

  ghost predicate AllAgree(w: World) {
    Sized(w) && forall i: nat :: i < |w.stores| ==> Agreement(ShardOf(w, i))
  }

  predicate StringKeys(r: Rep) {
    forall k :: k in r.keys ==> r.keys[k].crdt.Lww?
  }

  lemma {:induction false} BuryAllIsLocal(n: Net, i: nat, ks: seq<Key>)
    requires i < |n.reps| == |n.seen| && StringKeys(n.reps[i])
    ensures BuryAll(n, i, ks).reps == n.reps[i := AfterDeletes(n.reps[i], ks)]
    decreases |ks|
  {
    if ks != [] {
      assert Bury(n, i, ks[0]).reps == n.reps[i := AfterDelete(n.reps[i], ks[0])];
      assert StringKeys(AfterDelete(n.reps[i], ks[0]));
      hide Bury, AfterDelete, StringKeys;
      BuryAllIsLocal(Bury(n, i, ks[0]), i, ks[1..]);
    }
  }

  /** The network's view of a command is what the shard actor does. */
  lemma RecordedIsLocal(n: Net, i: nat, c: Command, after: Store)
    requires i < |n.reps| == |n.seen| && StringKeys(n.reps[i])
    ensures Recorded(n, i, c, after).reps == n.reps[i := Record(n.reps[i], c, after)]
  {
    hide BuryAll;
    if c.Del? { BuryAllIsLocal(n, i, c.keys); }
  }

  lemma CommandAgrees(w: World, i: nat, c: Command)
    requires Inv(w.net) && AllAgree(w) && i < |w.stores| && Faithful(c, w.stores[i])
    ensures AllAgree(Next(w, Run(i, c)))
  {
    InvNumbers(w.net, i);
    hide Inv, Recorded, Agreement;
    var v := Next(w, Run(i, c));
    RecordedIsLocal(w.net, i, c, After(c, w.stores[i]));
    assert ShardOf(v, i) == Local(ShardOf(w, i), c);
    LocalAgreesIff(ShardOf(w, i), c);
    assert forall j: nat :: j < |w.stores| && j != i ==> ShardOf(v, j) == ShardOf(w, j);
  }

  lemma DeliveryAgrees(w: World, i: nat, d: Delta)
    requires Inv(w.net) && AllAgree(w) && Enabled(w, Deliver(i, d))
    ensures AllAgree(Next(w, Deliver(i, d)))
  {
    var v := Next(w, Deliver(i, d));
    assert Plain(d.value) && HoldsLatest(w.net.reps[i], w.net.seen[i]);
    hide Inv, Agreement;
    assert ShardOf(v, i) == Remote(ShardOf(w, i), d);
    RemoteAgreesIff(ShardOf(w, i), d);
    assert forall j: nat :: j < |w.stores| && j != i ==> ShardOf(v, j) == ShardOf(w, j);
  }

  lemma RestartAgrees(w: World, i: nat, image: map<Key, Replicated>)
    requires AllAgree(w) && Enabled(w, Restart(i, image))
    ensures AllAgree(Next(w, Restart(i, image)))
  {
    var v := Next(w, Restart(i, image));
    assert Agreement(ShardOf(v, i));
    hide Agreement;
    assert forall j: nat :: j < |w.stores| && j != i ==> ShardOf(v, j) == ShardOf(w, j);
  }

  lemma OfferAgrees(w: World, s: Step)
    requires AllAgree(w) && s.Offer? && Enabled(w, s)
    ensures AllAgree(Next(w, s))
  {
    var v := Next(w, s);
    assert forall j: nat :: j < |w.stores| ==> ShardOf(v, j) == ShardOf(w, j);
  }

  // ---------------------------------------------------------------- runs

  lemma {:induction false} RunKeeps(w: World, run: seq<Step>)
    requires Possible(w, run) && Inv(w.net) && Sized(w) && RunLands(w, run)
    ensures Inv(Final(w, run).net) && Sized(Final(w, run)) && |Final(w, run).stores| == |w.stores|
    decreases |run|
  {
    hide Inv, CommandLands;
    if run != [] {
      StepKeeps(w, run[0]);
      RunKeeps(Next(w, run[0]), run[1..]);
    }
  }

  lemma {:induction false} RunAgrees(w: World, run: seq<Step>)
    requires Possible(w, run) && Inv(w.net) && AllAgree(w) && RunLands(w, run) && FaithfulRun(w, run)
    ensures AllAgree(Final(w, run))
    decreases |run|
  {
    hide Inv, AllAgree, CommandLands;
    if run != [] {
      var s := run[0];
      StepKeeps(w, s);
      match s {
        case Run(i, c) => CommandAgrees(w, i, c);
        case Deliver(i, d) => DeliveryAgrees(w, i, d);
        case Offer(_, _) => OfferAgrees(w, s);
        case Restart(i, image) => RestartAgrees(w, i, image);
      }
      RunAgrees(Next(w, s), run[1..]);
    }
  }

  /** The law of convergence: whoever has seen all that another replica has seen of a key holds the
      same register for it, or a later one. */
  ghost predicate Lawful(n: Net) {
    |n.reps| == |n.seen| && forall i: nat, j: nat, k :: i < |n.reps| && j < |n.reps| ==> Follows(n, i, j, k)
  }

  /** Replica `i` follows `j` at a key. */
  ghost predicate Follows(n: Net, i: nat, j: nat, k: Key)
    requires i < |n.reps| == |n.seen| && j < |n.reps|
  {
    k in n.reps[j].keys && (forall g :: Write(k, g) in n.seen[j] ==> Write(k, g) in n.seen[i]) ==>
      && k in n.reps[i].keys && n.reps[i].keys[k].crdt.Lww? && n.reps[j].keys[k].crdt.Lww?
      && (n.reps[i].keys[k].crdt == n.reps[j].keys[k].crdt ||
          Before(n.reps[j].keys[k].crdt.reg.stamp, n.reps[i].keys[k].crdt.reg.stamp))
  }

  lemma InvIsLawful(n: Net)
    requires Inv(n)
    ensures Lawful(n)
  {
    forall i: nat, j: nat, k | i < |n.reps| && j < |n.reps| ensures Follows(n, i, j, k) {
      InvFollows(n, i, j, k);
    }
  }

  lemma InvFollows(n: Net, i: nat, j: nat, k: Key)
    requires Inv(n) && i < |n.reps| && j < |n.reps|
    ensures Follows(n, i, j, k)
  {
    hide AllStocked, SentIsMade;
    assert HoldsLatest(n.reps[i], n.seen[i]) && HoldsLatest(n.reps[j], n.seen[j]);
    if k in n.reps[j].keys && (forall g :: Write(k, g) in n.seen[j] ==> Write(k, g) in n.seen[i]) {
      assert Write(k, n.reps[j].keys[k].crdt.reg) in n.seen[i];
      assert n.seen[i] <= n.made;
    }
  }

  /** Two replicas that have seen the same writes to a key hold the same register for it. */
  lemma SameWritesSameRegister(n: Net, i: nat, j: nat, k: Key)
    requires Lawful(n) && i < |n.reps| && j < |n.reps|
    requires forall g :: Write(k, g) in n.seen[i] <==> Write(k, g) in n.seen[j]
    ensures k in n.reps[i].keys <==> k in n.reps[j].keys
    ensures k in n.reps[i].keys ==> n.reps[i].keys[k].crdt == n.reps[j].keys[k].crdt
  {
    assert Follows(n, i, j, k) && Follows(n, j, i, k);
  }

  lemma SameRegistersSameStore(a: Shard, b: Shard)
    requires Agreement(a) && Agreement(b)
    requires forall k :: Registered(a.rep, k) == Registered(b.rep, k)
    ensures a.store == b.store
  {
    SameView(a, b.store);
    assert Agreement(Shard(a.rep, b.store)) by {
      forall k ensures Shown(b.store, k) == Registered(a.rep, k) {
        assert Registered(a.rep, k) == Registered(b.rep, k);
      }
    }
  }

  lemma StartIsGood(n: nat)
    ensures Inv(Start(n).net) && AllAgree(Start(n)) && Ticked(Start(n).net)
  {
  }

  /** Strong convergence: after any run whose writes land, with any losses, duplicates, reorderings
      and restarts, replicas that have seen the same writes hold the same registers; if every command
      of the run recorded what it did, their executors hold the same store, so every command answers
      alike. Writes of replicas that do not restart always land (`SteadyRunLands`). */
  lemma Converge(n: nat, run: seq<Step>, i: nat, j: nat)
    requires i < n && j < n && Possible(Start(n), run) && RunLands(Start(n), run)
    ensures var w := Final(Start(n), run);
            Sized(w) && |w.stores| == n &&
            (w.net.seen[i] == w.net.seen[j] ==>
               && w.net.reps[i].keys.Keys == w.net.reps[j].keys.Keys
               && (forall k :: k in w.net.reps[i].keys ==> w.net.reps[i].keys[k].crdt == w.net.reps[j].keys[k].crdt)
               && (FaithfulRun(Start(n), run) ==> w.stores[i] == w.stores[j]))
  {
    hide Agreement, HoldsLatest, UniqueStamps, Follows;
    var w := Final(Start(n), run);
    StartIsGood(n);
    RunKeeps(Start(n), run);
    if w.net.seen[i] == w.net.seen[j] {
      InvIsLawful(w.net);
      forall k ensures k in w.net.reps[i].keys <==> k in w.net.reps[j].keys
        ensures k in w.net.reps[i].keys ==> w.net.reps[i].keys[k].crdt == w.net.reps[j].keys[k].crdt
      {
        SameWritesSameRegister(w.net, i, j, k);
      }
      if FaithfulRun(Start(n), run) {
        RunAgrees(Start(n), run);
        SameRegistersSameStore(ShardOf(w, i), ShardOf(w, j));
      }
    }
  }

  // ---------------------------------------------------------------- replicas that do not restart

  /** The stamp was issued by a clock that has since reached it. */
  predicate Issued(t: Clock, reps: seq<Rep>) {
    t.replica < |reps| && t.time <= reps[t.replica].clock
  }

  predicate ClockAhead(r: Rep) {
    forall k :: k in r.keys ==> r.keys[k].stamp.time <= r.clock
  }

  /** No clock has fallen back behind a stamp it issued or holds. */
  predicate Ticked(n: Net) {
    && (forall w :: w in n.made ==> Issued(w.reg.stamp, n.reps))
    && (forall i :: 0 <= i < |n.reps| ==> ClockAhead(n.reps[i]))
  }

  /** Then the next tick is ahead of everything. */
  lemma TickLands(n: Net, i: nat, w: Write)
    requires Inv(n) && Ticked(n) && i < |n.reps| && w.reg.stamp == Clock(n.reps[i].clock + 1, i)
    ensures Lands(n, i, w)
  {
    hide UniqueStamps, SentIsMade, AllStocked;
    Latest(n, i);
    assert ClockAhead(n.reps[i]);
    assert forall g :: g in n.made ==> Issued(g.reg.stamp, n.reps);
  }

  lemma PublishTicks(n: Net, i: nat, r: Rep, k: Key)
    requires Ticked(n) && i < |n.reps| == |n.seen|
    requires r.clock == n.reps[i].clock + 1 && k in r.keys && r.keys == n.reps[i].keys[k := r.keys[k]]
    requires r.keys[k].crdt.Lww? && r.keys[k].stamp == r.keys[k].crdt.reg.stamp == Clock(r.clock, i)
    ensures Ticked(Publish(n, i, r, k))
  {
    var m := Publish(n, i, r, k);
    assert ClockAhead(n.reps[i]);
    forall w | w in m.made ensures Issued(w.reg.stamp, m.reps) {
      if w in n.made { assert Issued(w.reg.stamp, n.reps); }
    }
  }

  lemma PutTicks(n: Net, i: nat, k: Key, v: seq<Byte>)
    requires Inv(n) && Ticked(n) && i < |n.reps|
    ensures |n.seen| == |n.reps| && Lands(n, i, NewWrite(n.reps[i], k, v))
    ensures Ticked(Put(n, i, k, v)) && Inv(Put(n, i, k, v))
  {
    InvNumbers(n, i);
    hide Inv, Ticked, Lands;
    TickLands(n, i, NewWrite(n.reps[i], k, v));
    PutKeeps(n, i, k, v);
    PublishTicks(n, i, AfterWrite(n.reps[i], k, v, None), k);
  }

  lemma BuryTicks(n: Net, i: nat, k: Key)
    requires Inv(n) && Ticked(n) && i < |n.reps|
    ensures |n.seen| == |n.reps| && Lands(n, i, NewBurial(n.reps[i], k))
    ensures Ticked(Bury(n, i, k)) && Inv(Bury(n, i, k))
  {
    InvNumbers(n, i);
    hide Inv, Ticked, Lands;
    TickLands(n, i, NewBurial(n.reps[i], k));
    BuryKeeps(n, i, k);
    if k in n.reps[i].keys { PublishTicks(n, i, AfterDelete(n.reps[i], k), k); }
  }

  lemma {:induction false} BuryAllTicks(n: Net, i: nat, ks: seq<Key>)
    requires Inv(n) && Ticked(n) && i < |n.reps|
    ensures |n.seen| == |n.reps| && BurialsLand(n, i, ks) && Ticked(BuryAll(n, i, ks))
    decreases |ks|
  {
    InvNumbers(n, i);
    hide Inv, Ticked, Lands, Bury;
    if ks != [] {
      BuryTicks(n, i, ks[0]);
      BuryAllTicks(Bury(n, i, ks[0]), i, ks[1..]);
    }
  }

  lemma KeepTicks(n: Net, i: nat, k: Key, after: Store)
    requires Inv(n) && Ticked(n) && i < |n.reps|
    ensures |n.seen| == |n.reps| && KeptLands(n, i, k, after) && Ticked(Keep(n, i, k, after))
  {
    InvNumbers(n, i);
    hide Inv, Ticked, Lands, Put;
    if k in after && after[k].Str? { PutTicks(n, i, k, after[k].s); }
  }

  lemma CommandTicks(n: Net, i: nat, c: Command, after: Store)
    requires Inv(n) && Ticked(n) && i < |n.reps|
    ensures |n.seen| == |n.reps| && CommandLands(n, i, c, after) && Ticked(Recorded(n, i, c, after))
  {
    InvNumbers(n, i);
    hide Inv, Ticked, Lands, Put, Keep, KeptLands, BuryAll, BurialsLand;
    match c
    case Set(k, v, _, _, _) => PutTicks(n, i, k, v);
    case Del(ks) => BuryAllTicks(n, i, ks);
    case IncrBy(k, _) => KeepTicks(n, i, k, after);
    case Append(k, _) => KeepTicks(n, i, k, after);
    case GetSet(k, _) => KeepTicks(n, i, k, after);
    case _ =>
  }

  lemma ReceiveTicks(n: Net, i: nat, d: Delta)
    requires Ticked(n) && i < |n.reps| == |n.seen| && d.value.crdt.Lww?
    ensures Ticked(Receive(n, i, d))
  {
    var m := Receive(n, i, d);
    assert ClockAhead(n.reps[i]);
    forall w | w in m.made ensures Issued(w.reg.stamp, m.reps) { assert Issued(w.reg.stamp, n.reps); }
  }

  /** Without restarts every write lands, so `Converge` applies to every such run. */
  lemma {:induction false} SteadyRunLands(w: World, run: seq<Step>)
    requires Possible(w, run) && Inv(w.net) && Ticked(w.net) && Sized(w)
    requires forall x :: 0 <= x < |run| ==> !run[x].Restart?
    ensures RunLands(w, run)
    decreases |run|
  {
    hide Inv, Ticked, CommandLands;
    if run != [] {
      var s := run[0];
      match s {
        case Run(i, c) => CommandTicks(w.net, i, c, After(c, w.stores[i]));
        case Deliver(i, d) => ReceiveTicks(w.net, i, d);
        case Offer(i, k) => OfferTicks(w, s);
        case Restart(_, _) =>
      }
      StepKeeps(w, s);
      SteadyRunLands(Next(w, s), run[1..]);
    }
  }

  lemma OfferTicks(w: World, s: Step)
    requires Ticked(w.net) && Enabled(w, s) && s.Offer?
    ensures Ticked(Next(w, s).net)
  {
  }

  lemma BuryAllSees(n: Net, i: nat, ks: seq<Key>, j: nat)
    requires i < |n.reps| == |n.seen| && j < |n.reps|
    ensures n.seen[j] <= BuryAll(n, i, ks).seen[j]
    decreases |ks|
  {
    if ks != [] { BuryAllSees(Bury(n, i, ks[0]), i, ks[1..], j); }
  }

  lemma {:induction false} SeenGrows(w: World, run: seq<Step>, i: nat)
    requires Possible(w, run) && Sized(w) && i < |w.stores|
    requires forall x :: 0 <= x < |run| && run[x].Restart? ==> run[x].node != i
    ensures Sized(Final(w, run)) && |Final(w, run).stores| == |w.stores|
    ensures w.net.seen[i] <= Final(w, run).net.seen[i]
    decreases |run|
  {
    if run != [] {
      var s := run[0];
      if s.Run? && s.command.Del? { BuryAllSees(w.net, s.node, s.command.keys, i); }
      SeenGrows(Next(w, s), run[1..], i);
    }
  }

  /** No run takes back the register of a replica that does not restart: a key stays known, and its
      stamp never falls, whatever stale deltas arrive. */
  lemma NeverStepsBack(w: World, run: seq<Step>, i: nat, k: Key)
    requires Possible(w, run) && Inv(w.net) && Sized(w) && i < |w.stores| && k in w.net.reps[i].keys
    requires RunLands(w, run) && forall x :: 0 <= x < |run| && run[x].Restart? ==> run[x].node != i
    ensures var v := Final(w, run);
            && Sized(v) && i < |v.stores| && k in v.net.reps[i].keys
            && w.net.reps[i].keys[k].crdt.Lww? && v.net.reps[i].keys[k].crdt.Lww?
            && !Before(v.net.reps[i].keys[k].crdt.reg.stamp, w.net.reps[i].keys[k].crdt.reg.stamp)
  {
    RunKeeps(w, run);
    SeenGrows(w, run, i);
    var v := Final(w, run);
    hide Final, Possible, RunLands, UniqueStamps, SentIsMade, AllStocked;
    assert HoldsLatest(w.net.reps[i], w.net.seen[i]) && HoldsLatest(v.net.reps[i], v.net.seen[i]);
    assert Write(k, w.net.reps[i].keys[k].crdt.reg) in v.net.seen[i];
  }
}
