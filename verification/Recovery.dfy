/** What a restart from a checkpoint costs: the clock starts again at zero
    (src/production/replicated_state.rs, src/production/replicated_shard_actor.rs). */
module Recovery {
  import opened Numbers
  import opened Resp
  import opened Executor
  import opened Lattice
  import opened Replica
  import opened Convergence

  /** Only deliveries, offers and restarts: the cluster settles, nobody writes. */
  predicate Quiet(run: seq<Step>) {
    forall x :: 0 <= x < |run| ==> !run[x].Run?
  }

  lemma {:induction false} QuietLands(w: World, run: seq<Step>)
    requires Possible(w, run) && Quiet(run)
    ensures RunLands(w, run)
    decreases |run|
  {
    if run != [] { QuietLands(Next(w, run[0]), run[1..]); }
  }

  /** However the cluster settles from here, the law of convergence holds. */
  ghost predicate Settles(w: World) {
    forall run :: Possible(w, run) && Quiet(run) ==> Lawful(Final(w, run).net)
  }

  lemma InvSettles(w: World)
    requires Inv(w.net) && Sized(w)
    ensures Settles(w)
  {
    hide Inv, Lawful;
    forall run | Possible(w, run) && Quiet(run) ensures Lawful(Final(w, run).net) {
      QuietLands(w, run);
      RunKeeps(w, run);
      InvIsLawful(Final(w, run).net);
    }
  }

  lemma One(w: World, s: Step)
    requires Enabled(w, s)
    ensures Possible(w, [s]) && Final(w, [s]) == Next(w, s)
  {
    assert [s][1..] == [];
  }

  lemma Then(w: World, s: Step, run: seq<Step>)
    requires Enabled(w, s) && Possible(Next(w, s), run)
    ensures Possible(w, [s] + run) && Final(w, [s] + run) == Final(Next(w, s), run)
  {
    assert ([s] + run)[1..] == run;
  }

  /** A replica loses everything and then hears of one write. */
  lemma RestartAndHear(m: World, j: nat, d: Delta)
    requires Sized(m) && j < |m.stores| && d in m.net.sent && Plain(d.value)
    ensures var s, t := Restart(j, map[]), Deliver(j, d);
            && Enabled(m, s) && Enabled(Next(m, s), t)
            && Possible(m, [s] + [t]) && Final(m, [s] + [t]) == Next(Next(m, s), t)
    ensures var n := Next(Next(m, Restart(j, map[])), Deliver(j, d)).net;
            && |n.reps| == |n.seen| == |m.net.reps| && n.sent == m.net.sent
            && n.reps[j].keys == map[d.key := d.value] && n.seen[j] == {Write(d.key, d.value.crdt.reg)}
            && (forall i: nat :: i < |n.reps| && i != j ==> n.reps[i] == m.net.reps[i] && n.seen[i] == m.net.seen[i])
  {
    var s, t := Restart(j, map[]), Deliver(j, d);
    var m1 := Next(m, s);
    assert WritesOf(map[]) == {} && m1.net.seen[j] == {};
    assert Enabled(m1, t);
    One(m1, t);
    Then(m, s, [t]);
  }

  /** Replica `i` has just recorded the value it now holds for `k`. */
  ghost predicate Recording(w: World, i: nat, r: Rep, k: Key) {
    && Inv(w.net) && Sized(w) && i < |w.stores| && |w.stores| >= 2
    && r.id == i && k in r.keys && r.keys == w.net.reps[i].keys[k := r.keys[k]] && Plain(r.keys[k])
  }

  function WriteOf(r: Rep, k: Key): Write
    requires k in r.keys && Plain(r.keys[k])
  {
    Write(k, r.keys[k].crdt.reg)
  }

  function AfterRecording(w: World, i: nat, r: Rep, k: Key): World
    requires Recording(w, i, r, k)
  {
    World(Publish(w.net, i, r, k), w.stores)
  }

  lemma Carrier(n: Net, i: nat, g: Write) returns (d: Delta)
    requires Inv(n) && i < |n.seen| && (g in n.seen[i] || g in n.made)
    ensures d in n.sent && Carries(d, g)
  {
    if g in n.seen[i] { Latest(n, i); }
    hide Carries;
    d :| d in n.sent && Carries(d, g);
  }

  lemma PublishGives(w: World, i: nat, r: Rep, k: Key)
    requires Recording(w, i, r, k)
    ensures var m := AfterRecording(w, i, r, k);
            && Sized(m) && |m.stores| == |w.stores| && w.net.sent <= m.net.sent
            && m.net.reps[i] == r && w.net.seen[i] <= m.net.seen[i]
  {
    hide Inv, Plain;
    assert |w.net.reps| == |w.net.seen|;
  }

  lemma Broken(n: Net, i: nat, j: nat, k: Key)
    requires i < |n.reps| == |n.seen| && j < |n.reps| && k in n.reps[i].keys && k in n.reps[j].keys
    requires n.reps[i].keys[k].crdt.Lww? && n.reps[j].keys[k].crdt.Lww?
    requires n.reps[i].keys[k].crdt != n.reps[j].keys[k].crdt
    requires !Before(n.reps[j].keys[k].crdt.reg.stamp, n.reps[i].keys[k].crdt.reg.stamp)
    requires forall g :: Write(k, g) in n.seen[j] ==> Write(k, g) in n.seen[i]
    ensures !Lawful(n)
  {
    assert !Follows(n, i, j, k);
  }

  /** The writer has already seen a later write to the key: a peer that has seen only that one holds it,
      while the writer, who has seen more, holds the older write. */
  lemma OvertakenBreaks(w: World, i: nat, j: nat, r: Rep, k: Key, g: Write) returns (run: seq<Step>)
    requires Recording(w, i, r, k) && j < |w.stores| && i != j
    requires g in w.net.seen[i] && g.key == k && Before(WriteOf(r, k).reg.stamp, g.reg.stamp)
    ensures var m := AfterRecording(w, i, r, k);
            Possible(m, run) && Quiet(run) && !Lawful(Final(m, run).net)
  {
    var m := AfterRecording(w, i, r, k);
    PublishGives(w, i, r, k);
    var d := Carrier(w.net, i, g);
    run := [Restart(j, map[])] + [Deliver(j, d)];
    assert Quiet(run);
    hide Inv, Enabled, Next, Publish, Possible, Final, Lawful;
    RestartAndHear(m, j, d);
    Broken(Final(m, run).net, i, j, k);
  }

  /** The stamp is taken: two replicas that receive both writes in different orders keep different ones. */
  lemma TakenBreaks(w: World, i: nat, j: nat, r: Rep, k: Key, g: Write) returns (run: seq<Step>)
    requires Recording(w, i, r, k) && j < |w.stores| && i != j
    requires g in w.net.made && g.key == k && g != WriteOf(r, k) && g.reg.stamp == WriteOf(r, k).reg.stamp
    ensures var m := AfterRecording(w, i, r, k);
            Possible(m, run) && Quiet(run) && !Lawful(Final(m, run).net)
  {
    var m := AfterRecording(w, i, r, k);
    PublishGives(w, i, r, k);
    var d := Carrier(w.net, i, g);
    var s, t, u := Restart(j, map[]), Deliver(j, d), Deliver(i, d);
    run := [s] + ([t] + [u]);
    assert Quiet(run);
    hide Inv, Enabled, Next, Publish, Possible, Final, Follows, Lawful;
    RestartAndHear(m, j, d);
    var m2 := Next(Next(m, s), t);
    TakeTie(m2, i, j, k, d, WriteOf(r, k).reg);
    One(m2, u);
    Then(Next(m, s), t, [u]);
    Then(m, s, [t] + [u]);
  }

  /** A replica that takes in a write with the stamp it holds keeps its own. */
  lemma TakeTie(m: World, i: nat, j: nat, k: Key, d: Delta, own: Register)
    requires Sized(m) && i < |m.stores| && j < |m.stores| && i != j
    requires d in m.net.sent && d.key == k && Plain(d.value) && d.value.crdt.reg.stamp == own.stamp
    requires d.value.crdt.reg != own
    requires k in m.net.reps[i].keys && m.net.reps[i].keys[k].crdt == Lww(own)
    requires m.net.reps[j].keys == map[k := d.value] && m.net.seen[j] == {Write(k, d.value.crdt.reg)}
    ensures Enabled(m, Deliver(i, d)) && !Lawful(Next(m, Deliver(i, d)).net)
  {
    var n := Next(m, Deliver(i, d)).net;
    assert n.reps[i].keys[k].crdt == Lww(own);
    Broken(n, i, j, k);
  }

  /** Exactly when a write is safe: however the cluster settles afterwards, with any deliveries and any
      restarts, the law of convergence holds if and only if the write landed. */
  lemma RecordingSettlesIff(w: World, i: nat, r: Rep, k: Key)
    requires Recording(w, i, r, k)
    ensures Settles(AfterRecording(w, i, r, k)) <==> Lands(w.net, i, WriteOf(r, k))
  {
    var m := AfterRecording(w, i, r, k);
    var new' := WriteOf(r, k);
    var j: nat := if i == 0 then 1 else 0;
    if Lands(w.net, i, new') {
      PublishKeeps(w.net, i, r, k);
      InvSettles(m);
    } else if exists g :: g in w.net.seen[i] && g.key == k && Before(new'.reg.stamp, g.reg.stamp) {
      var g :| g in w.net.seen[i] && g.key == k && Before(new'.reg.stamp, g.reg.stamp);
      var run := OvertakenBreaks(w, i, j, r, k, g);
    } else {
      var g :| g in w.net.made && g.key == k && g.reg.stamp == new'.reg.stamp && g != new';
      var run := TakenBreaks(w, i, j, r, k, g);
    }
  }

  lemma SettlesIffLands(w: World, i: nat, k: Key, v: seq<Byte>)
    requires Inv(w.net) && Sized(w) && i < |w.stores| && |w.stores| >= 2
    ensures Settles(World(Put(w.net, i, k, v), w.stores)) <==> Lands(w.net, i, NewWrite(w.net.reps[i], k, v))
  {
    InvNumbers(w.net, i);
    hide Inv, Settles, Lands;
    RecordingSettlesIff(w, i, AfterWrite(w.net.reps[i], k, v, None), k);
  }

  /** The same for a delete of a key the replica knows. */
  lemma BurialSettlesIffLands(w: World, i: nat, k: Key)
    requires Inv(w.net) && Sized(w) && i < |w.stores| && |w.stores| >= 2 && k in w.net.reps[i].keys
    ensures Settles(World(Bury(w.net, i, k), w.stores)) <==> Lands(w.net, i, NewBurial(w.net.reps[i], k))
  {
    InvNumbers(w.net, i);
    hide Inv, Settles, Lands;
    RecordingSettlesIff(w, i, AfterDelete(w.net.reps[i], k), k);
  }

  /** The recovered register of the key is strictly behind the tick one, and the replica had not used that
      tick for the key before. */
  ghost predicate TickIsFree(w: World, i: nat, image: map<Key, Replicated>, k: Key, first: Register)
    requires Enabled(w, Restart(i, image))
  {
    && (k in image ==> image[k].crdt.reg == first || Before(image[k].crdt.reg.stamp, Clock(1, i)))
    && (forall g :: Write(k, g) in w.net.made && g.stamp == Clock(1, i) ==> g == first)
  }

  lemma RestartedLandsIff(w: World, i: nat, image: map<Key, Replicated>, k: Key, first: Register)
    requires Inv(w.net) && Enabled(w, Restart(i, image)) && first.stamp == Clock(1, i)
    ensures Lands(Next(w, Restart(i, image)).net, i, Write(k, first)) <==> TickIsFree(w, i, image, k, first)
  {
    var n := Next(w, Restart(i, image)).net;
    var put := Write(k, first);
    assert n.made == w.net.made && n.seen[i] == WritesOf(image);
    if k in image {
      assert (i, Write(k, image[k].crdt.reg)) in w.net.past && Write(k, image[k].crdt.reg) in n.seen[i];
    }
    if Lands(n, i, put) {
      forall g | Write(k, g) in w.net.made && g.stamp == Clock(1, i) ensures g == first {
        assert Write(k, g).key == put.key;
      }
    }
  }

  /** Right after a restart the next tick is one. The first write or delete of a key lands exactly when that
      tick is free. */
  lemma RestartedWriteLandsIff(w: World, i: nat, image: map<Key, Replicated>, k: Key, v: seq<Byte>)
    requires Inv(w.net) && Enabled(w, Restart(i, image))
    ensures var n := Next(w, Restart(i, image)).net;
            && (Lands(n, i, NewWrite(n.reps[i], k, v)) <==>
                  TickIsFree(w, i, image, k, Register(Some(v), Clock(1, i), false)))
            && (Lands(n, i, NewBurial(n.reps[i], k)) <==>
                  TickIsFree(w, i, image, k, Register(None, Clock(1, i), true)))
  {
    RestartedLandsIff(w, i, image, k, Register(Some(v), Clock(1, i), false));
    RestartedLandsIff(w, i, image, k, Register(None, Clock(1, i), true));
    hide Lands, TickIsFree;
  }

  // ---------------------------------------------------------------- a run that does not converge

  const KEY: Key := [107]
  const OLD: seq<Byte> := [49]
  const NEW: seq<Byte> := [50]

  /** What replica 0 writes at its first tick. */
  function AtFirstTick(v: seq<Byte>): Replicated {
    Replicated(Lww(Register(Some(v), Clock(1, 0), false)), None, Clock(1, 0))
  }

  function FirstWrite(v: seq<Byte>): Write {
    Write(KEY, AtFirstTick(v).crdt.reg)
  }

  function Put0(v: seq<Byte>): Step {
    Run(0, Set(KEY, v, false, false, false))
  }

  function Sent0(v: seq<Byte>): Delta {
    Delta(KEY, AtFirstTick(v), 0)
  }

  /** Replica 0 writes and is heard; it restarts from its checkpoint and writes again; then each
      replica receives the write it is missing. */
  function Mishap(): seq<Step> {
    [Put0(OLD), Deliver(1, Sent0(OLD)), Restart(0, map[KEY := AtFirstTick(OLD)]),
     Put0(NEW), Deliver(1, Sent0(NEW)), Deliver(0, Sent0(OLD))]
  }

  /** Where replica `i` stands: its clock, its value, what it has seen, and its executor. */
  predicate Stands(w: World, i: nat, clock: nat, v: seq<Byte>, seen: set<Write>) {
    && Sized(w) && |w.stores| == 2 && i < 2
    && w.net.reps[i].id == i && w.net.reps[i].clock == clock && w.net.reps[i].keys == map[KEY := AtFirstTick(v)]
    && w.net.seen[i] == seen && w.stores[i] == map[KEY := Str(v)]
  }

  lemma FirstPut()
    ensures Enabled(Start(2), Put0(OLD))
    ensures var w := Next(Start(2), Put0(OLD));
            && Stands(w, 0, 1, OLD, {FirstWrite(OLD)})
            && w.net.sent == {Sent0(OLD)} && (0, FirstWrite(OLD)) in w.net.past
            && w.net.reps[1] == Rep(1, 0, map[], []) && w.net.seen[1] == {} && w.stores[1] == map[]
  {
  }

  lemma FirstDelivery(w: World)
    requires Stands(w, 0, 1, OLD, {FirstWrite(OLD)})
    requires w.net.sent == {Sent0(OLD)} && (0, FirstWrite(OLD)) in w.net.past
    requires w.net.reps[1] == Rep(1, 0, map[], []) && w.net.seen[1] == {} && w.stores[1] == map[]
    ensures Enabled(w, Deliver(1, Sent0(OLD)))
    ensures var v := Next(w, Deliver(1, Sent0(OLD)));
            && Stands(v, 0, 1, OLD, {FirstWrite(OLD)}) && Stands(v, 1, 2, OLD, {FirstWrite(OLD)})
            && v.net.sent == {Sent0(OLD)} && (0, FirstWrite(OLD)) in v.net.past
  {
  }

  lemma Reboot(w: World)
    requires Stands(w, 0, 1, OLD, {FirstWrite(OLD)}) && Stands(w, 1, 2, OLD, {FirstWrite(OLD)})
    requires w.net.sent == {Sent0(OLD)} && (0, FirstWrite(OLD)) in w.net.past
    ensures Enabled(w, Restart(0, map[KEY := AtFirstTick(OLD)]))
    ensures var v := Next(w, Restart(0, map[KEY := AtFirstTick(OLD)]));
            && Stands(v, 0, 0, OLD, {FirstWrite(OLD)}) && Stands(v, 1, 2, OLD, {FirstWrite(OLD)})
            && v.net.sent == {Sent0(OLD)}
  {
    var image := map[KEY := AtFirstTick(OLD)];
    assert Recovered(image) == map[KEY := Str(OLD)];
    assert KEY in image && FirstWrite(OLD) in WritesOf(image);
    assert WritesOf(image) == {FirstWrite(OLD)};
  }

  lemma SecondPut(w: World)
    requires Stands(w, 0, 0, OLD, {FirstWrite(OLD)}) && Stands(w, 1, 2, OLD, {FirstWrite(OLD)})
    requires w.net.sent == {Sent0(OLD)}
    ensures Enabled(w, Put0(NEW))
    ensures var v := Next(w, Put0(NEW));
            && Stands(v, 0, 1, NEW, {FirstWrite(OLD), FirstWrite(NEW)}) && Stands(v, 1, 2, OLD, {FirstWrite(OLD)})
            && v.net.sent == {Sent0(OLD), Sent0(NEW)}
  {
    assert map[KEY := AtFirstTick(OLD)][KEY := AtFirstTick(NEW)] == map[KEY := AtFirstTick(NEW)];
    assert map[KEY := Str(OLD)][KEY := Str(NEW)] == map[KEY := Str(NEW)];
    assert {FirstWrite(OLD)} + {FirstWrite(NEW)} == {FirstWrite(OLD), FirstWrite(NEW)};
    assert {Sent0(OLD)} + {Sent0(NEW)} == {Sent0(OLD), Sent0(NEW)};
  }

  /** A delta with the stamp already held changes nothing but what has been seen. */
  lemma TieDelivery(w: World, i: nat, clock: nat, v: seq<Byte>, u: seq<Byte>, seen: set<Write>)
    requires Stands(w, i, clock, v, seen) && Sent0(u) in w.net.sent && clock >= 1
    ensures Enabled(w, Deliver(i, Sent0(u)))
    ensures var x := Next(w, Deliver(i, Sent0(u)));
            && Stands(x, i, clock + 1, v, seen + {FirstWrite(u)}) && x.net.sent == w.net.sent
            && (forall j: nat :: j < 2 && j != i ==>
                  x.net.reps[j] == w.net.reps[j] && x.net.seen[j] == w.net.seen[j] && x.stores[j] == w.stores[j])
  {
    assert Merge(AtFirstTick(v), AtFirstTick(u)) == AtFirstTick(v);
    assert map[KEY := AtFirstTick(v)][KEY := AtFirstTick(v)] == map[KEY := AtFirstTick(v)];
    assert map[KEY := Str(v)][KEY := Str(v)] == map[KEY := Str(v)];
  }

  /** After this run both replicas have seen the same two writes, every command recorded what it did,
      and the replicas answer differently. */
  lemma RestartDiverges()
    ensures Possible(Start(2), Mishap()) && FaithfulRun(Start(2), Mishap())
    ensures var w := Final(Start(2), Mishap());
            && Sized(w) && |w.stores| == 2 && w.net.seen[0] == w.net.seen[1] && !Lawful(w.net)
            && GetView(KEY, w.stores[0]) == BulkString(NEW) && GetView(KEY, w.stores[1]) == BulkString(OLD)
  {
    hide Start, Next, Enabled, Possible, Final, FaithfulRun, Lawful, FirstWrite, AtFirstTick;
    var w0, m := Start(2), Mishap();
    FirstPut();
    var w1 := Next(w0, m[0]);
    FirstDelivery(w1);
    var w2 := Next(w1, m[1]);
    Reboot(w2);
    var w3 := Next(w2, m[2]);
    SecondPut(w3);
    var w4 := Next(w3, m[3]);
    TieDelivery(w4, 1, 2, OLD, NEW, {FirstWrite(OLD)});
    var w5 := Next(w4, m[4]);
    TieDelivery(w5, 0, 1, NEW, OLD, {FirstWrite(OLD), FirstWrite(NEW)});
    var w6 := Next(w5, m[5]);
    SixSteps(w0, m);
    assert {FirstWrite(OLD)} + {FirstWrite(NEW)} == {FirstWrite(OLD), FirstWrite(NEW)};
    assert {FirstWrite(OLD), FirstWrite(NEW)} + {FirstWrite(OLD)} == {FirstWrite(OLD), FirstWrite(NEW)};
    StandApart(w6, {FirstWrite(OLD), FirstWrite(NEW)}, 2, 3);
  }

  lemma StandApart(w: World, seen: set<Write>, c: nat, d: nat)
    requires Stands(w, 0, c, NEW, seen) && Stands(w, 1, d, OLD, seen)
    ensures w.net.seen[0] == w.net.seen[1] && !Lawful(w.net)
    ensures GetView(KEY, w.stores[0]) == BulkString(NEW) && GetView(KEY, w.stores[1]) == BulkString(OLD)
  {
    assert OLD != NEW;
    assert !Follows(w.net, 0, 1, KEY);
  }

  /** Unfolds a run of six steps. */
  lemma SixSteps(w: World, m: seq<Step>)
    requires |m| == 6 && Enabled(w, m[0])
    requires Enabled(Next(w, m[0]), m[1])
    requires Enabled(Next(Next(w, m[0]), m[1]), m[2])
    requires Enabled(Next(Next(Next(w, m[0]), m[1]), m[2]), m[3])
    requires Enabled(Next(Next(Next(Next(w, m[0]), m[1]), m[2]), m[3]), m[4])
    requires Enabled(Next(Next(Next(Next(Next(w, m[0]), m[1]), m[2]), m[3]), m[4]), m[5])
    requires forall x :: 0 <= x < 6 && m[x].Run? ==> m[x].command.Set? && !m[x].command.nx
    ensures Possible(w, m) && FaithfulRun(w, m)
    ensures Final(w, m) == Next(Next(Next(Next(Next(Next(w, m[0]), m[1]), m[2]), m[3]), m[4]), m[5])
  {
    hide Enabled, Next;
    var w1 := Next(w, m[0]);
    var w2 := Next(w1, m[1]);
    var w3 := Next(w2, m[2]);
    var w4 := Next(w3, m[3]);
    var w5 := Next(w4, m[4]);
    Tail(w5, m, 5);
    Tail(w4, m, 4);
    Tail(w3, m, 3);
    Tail(w2, m, 2);
    Tail(w1, m, 1);
    Tail(w, m, 0);
    assert m[0..] == m && m[6..] == [];
  }

  lemma Tail(w: World, m: seq<Step>, x: nat)
    requires x < |m| && Enabled(w, m[x]) && Possible(Next(w, m[x]), m[x + 1..])
    requires FaithfulRun(Next(w, m[x]), m[x + 1..])
    requires m[x].Run? ==> m[x].command.Set? && !m[x].command.nx
    ensures Possible(w, m[x..]) && FaithfulRun(w, m[x..]) && Final(w, m[x..]) == Final(Next(w, m[x]), m[x + 1..])
  {
    assert m[x..][0] == m[x] && m[x..][1..] == m[x + 1..];
  }
}
