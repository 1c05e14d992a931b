/** Runs of the cluster that reach the states for which anti-entropy falls short
    (src/replication/state/shard_state.rs, src/replication/anti_entropy.rs). */
module Reached {
  import opened Numbers
  import opened Resp
  import opened Executor
  import opened Lattice
  import opened Replica
  import opened Convergence
  import opened Merkle
  import opened AntiEntropy
  import opened Recovery

  /** A replica's first write: `v` at tick one. */
  function AtTickOne(i: nat, v: seq<Byte>): Replicated {
    Replicated(Lww(Register(Some(v), Clock(1, i), false)), None, Clock(1, i))
  }

  function PutAt(i: nat, v: seq<Byte>): Step {
    Run(i, Set(BLIND, v, false, false, false))
  }

  /** A fresh replica writes. */
  lemma FirstPut(w: World, i: nat, v: seq<Byte>)
    requires Sized(w) && i < |w.stores| && w.net.reps[i] == Rep(i, 0, map[], [])
    ensures Enabled(w, PutAt(i, v))
    ensures var n := Next(w, PutAt(i, v));
            && Sized(n) && |n.stores| == |w.stores| && n.net.reps[i].keys == map[BLIND := AtTickOne(i, v)]
            && n.net.sent == w.net.sent + {Delta(BLIND, AtTickOne(i, v), i)}
            && (forall j: nat :: j < |w.stores| && j != i ==> n.net.reps[j] == w.net.reps[j])
  {
  }

  lemma Heard(w: World, i: nat, d: Delta)
    requires Sized(w) && i < |w.stores| && d in w.net.sent && d.value.crdt.Lww?
    requires forall k :: k in w.net.reps[i].keys ==> w.net.reps[i].keys[k].crdt.Lww?
    ensures Enabled(w, Deliver(i, d))
    ensures var n := Next(w, Deliver(i, d));
            && Sized(n) && |n.stores| == |w.stores| && n.net.sent == w.net.sent
            && n.net.reps == w.net.reps[i := Apply(w.net.reps[i], d)]
  {
  }

  lemma StartsFresh(n: nat)
    ensures Sized(Start(n)) && |Start(n).stores| == n
    ensures forall i: nat :: i < n ==> Start(n).net.reps[i] == Rep(i, 0, map[], [])
  {
  }

  // ---------------------------------------------------------------- digests that never match

  function TwoWriters(): seq<Step> {
    [PutAt(0, [1])] + [PutAt(1, [2])]
  }

  /** Two replicas have written one key. */
  lemma TwoWritersReach()
    ensures Possible(Start(2), TwoWriters())
    ensures var w := Final(Start(2), TwoWriters());
            && |w.net.reps| == 2
            && w.net.reps[0].keys == map[BLIND := AtTickOne(0, [1])]
            && w.net.reps[1].keys == map[BLIND := AtTickOne(1, [2])]
  {
    hide Enabled, Next, Possible, Final, Start;
    var w := Start(2);
    StartsFresh(2);
    FirstPut(w, 0, [1]);
    var w1 := Next(w, PutAt(0, [1]));
    FirstPut(w1, 1, [2]);
    One(w1, PutAt(1, [2]));
    Then(w, PutAt(0, [1]), [PutAt(1, [2])]);
  }

  /** Both merges, which differ in whose id the outer stamp carries. */
  lemma BothMerges()
    ensures var a, b: State := map[BLIND := AtTickOne(0, [1])], map[BLIND := AtTickOne(1, [2])];
            && Union(a, b) == map[BLIND := AtTickOne(1, [2]).(stamp := Clock(1, 0))]
            && Union(b, a) == b && Compatible(a, b) && !SameIds(a, b)
  {
    var a, b: State := map[BLIND := AtTickOne(0, [1])], map[BLIND := AtTickOne(1, [2])];
    assert Merge(a[BLIND], b[BLIND]) == AtTickOne(1, [2]).(stamp := Clock(1, 0));
    assert Merge(b[BLIND], a[BLIND]) == AtTickOne(1, [2]);
  }

  /** Hash functions that tell the two merges apart. */
  function ById(): Hashing {
    Hashing(k => 0, (s: Sig) => s.replica, (w: seq<nat>) => if w == [] then 1 else 1 + w[|w| - 1])
  }

  lemma OneKeyCompares(h: Hashing, v: Replicated, u: Replicated)
    requires h.value(SigOf(v)) == h.value(SigOf(u)) ==> SigOf(v) == SigOf(u)
    requires Distinguishes(h, [h.key(BLIND), h.value(SigOf(v))], [h.key(BLIND), h.value(SigOf(u))])
    ensures Comparable(h, map[BLIND := v], [BLIND], map[BLIND := u], [BLIND], 1)
  {
    hide Root, SigOf;
    var o: seq<Key> := [BLIND];
    assert InBucket(h, o, 1, 0) == o by { assert o[..0] == []; }
    OneWord(DigestOf(h, BLIND, v));
    OneWord(DigestOf(h, BLIND, u));
    hide InBucket, Words;
    var m, n: State := map[BLIND := v], map[BLIND := u];
    assert Table(h, m, o, 1)[0] == [DigestOf(h, BLIND, v)] && Table(h, n, o, 1)[0] == [DigestOf(h, BLIND, u)];
  }

  lemma OneWord(d: KeyDigest)
    ensures Words([d]) == [d.keyHash, d.valueHash]
  {
    assert [d][..0] == [];
  }

  /** After two replicas have written one key and exchanged everything, their digests differ for good,
      although another exchange changes nothing. */
  lemma ExchangeNeverSettles()
    ensures Possible(Start(2), TwoWriters()) && |Final(Start(2), TwoWriters()).net.reps| == 2
    ensures var reps := Final(Start(2), TwoWriters()).net.reps;
            var x, y := Union(reps[0].keys, reps[1].keys), Union(reps[1].keys, reps[0].keys);
            && Union(x, y) == x && Union(y, x) == y
            && Comparable(ById(), x, [BLIND], y, [BLIND], 1)
            && RootHashOf(ById(), x, [BLIND], 1) != RootHashOf(ById(), y, [BLIND], 1)
  {
    TwoWritersReach();
    BothMerges();
    var a, b: State := map[BLIND := AtTickOne(0, [1])], map[BLIND := AtTickOne(1, [2])];
    ExchangeAgrees(a, b);
    OneKeyCompares(ById(), AtTickOne(1, [2]).(stamp := Clock(1, 0)), AtTickOne(1, [2]));
    hide Possible, Final, Start, Union, Comparable, Compatible, RootHashOf, SameIds;
    ExchangeSettlesIff(ById(), a, b, [BLIND], [BLIND], 1);
  }

  // ---------------------------------------------------------------- a register no digest shows

  const SAME: seq<Byte> := [118]

  /** Replicas 0 and 2 write the same string; replica 1 hears of both. */
  function SameString(): seq<Step> {
    [PutAt(0, SAME)] + ([PutAt(2, SAME)] + (
      [Deliver(1, Delta(BLIND, AtTickOne(0, SAME), 0))] + [Deliver(1, Delta(BLIND, AtTickOne(2, SAME), 2))]))
  }

  /** Replica 1 then holds a newer register than replica 0 under the same outer stamp, so every digest takes
      the two for equal and selective sync leaves replica 0 behind (`SelectiveSyncMissesRegister`). */
  lemma BlindPairReached()
    ensures Possible(Start(3), SameString())
    ensures var w := Final(Start(3), SameString());
            && |w.net.reps| == 3
            && w.net.reps[0].keys == Blind(Clock(1, 0)) && w.net.reps[1].keys == Blind(Clock(1, 2))
  {
    var d, e := Delta(BLIND, AtTickOne(0, SAME), 0), Delta(BLIND, AtTickOne(2, SAME), 2);
    HearBoth();
    hide Enabled, Next, Possible, Final, Start, Apply;
    var w := Start(3);
    StartsFresh(3);
    FirstPut(w, 0, SAME);
    var w1 := Next(w, PutAt(0, SAME));
    FirstPut(w1, 2, SAME);
    var w2 := Next(w1, PutAt(2, SAME));
    Heard(w2, 1, d);
    var w3 := Next(w2, Deliver(1, d));
    Heard(w3, 1, e);
    One(w3, Deliver(1, e));
    Then(w2, Deliver(1, d), [Deliver(1, e)]);
    Then(w1, PutAt(2, SAME), [Deliver(1, d)] + [Deliver(1, e)]);
    Then(w, PutAt(0, SAME), [PutAt(2, SAME)] + ([Deliver(1, d)] + [Deliver(1, e)]));
  }

  lemma HearBoth()
    ensures var r := Apply(Rep(1, 0, map[], []), Delta(BLIND, AtTickOne(0, SAME), 0));
            && r.keys == map[BLIND := AtTickOne(0, SAME)] == Blind(Clock(1, 0))
            && Apply(r, Delta(BLIND, AtTickOne(2, SAME), 2)).keys == Blind(Clock(1, 2))
  {
    var v := Merge(AtTickOne(0, SAME), AtTickOne(2, SAME));
    assert v == Blind(Clock(1, 2))[BLIND];
    assert map[BLIND := AtTickOne(0, SAME)][BLIND := v] == map[BLIND := v];
  }
}
