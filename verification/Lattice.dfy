/** Lamport clocks, last-writer-wins registers and replicated values
    (src/replication/lattice.rs, src/replication/state/). */
module Lattice {
  import opened Numbers

  type ReplicaId = nat

  datatype Clock = Clock(time: nat, replica: ReplicaId)

  /** The total order of Lamport clocks: time first, then replica id. */
  predicate Before(a: Clock, b: Clock) {
    a.time < b.time || (a.time == b.time && a.replica < b.replica)
  }

  datatype Register = Register(value: Option<seq<Byte>>, stamp: Clock, tombstone: bool)

  /** What a reader sees of a register. */
  function Live(r: Register): Option<seq<Byte>> {
    if r.tombstone then None else r.value
  }

  /** `LwwRegister::merge`. */
  function Join(a: Register, b: Register): Register {
    if Before(a.stamp, b.stamp) then b else a
  }

  /** The two kinds the shard actor replicates. */
  datatype Crdt = Lww(reg: Register) | Hash(fields: map<seq<Byte>, Register>)

  /** `ReplicatedValue`: the outer stamp is kept beside the CRDT's own stamps. */
  datatype Replicated = Replicated(crdt: Crdt, expiry: Option<nat>, stamp: Clock)

  function JoinFields(a: map<seq<Byte>, Register>, b: map<seq<Byte>, Register>): map<seq<Byte>, Register> {
    map f | f in a.Keys + b.Keys :: if f !in b then a[f] else if f !in a then b[f] else Join(a[f], b[f])
  }

  /** `merge_with_timestamps`: equal kinds merge, otherwise the later outer stamp wins. */
  function MergeCrdt(a: Replicated, b: Replicated): Crdt {
    match (a.crdt, b.crdt)
    case (Lww(r), Lww(s)) => Lww(Join(r, s))
    case (Hash(f), Hash(g)) => Hash(JoinFields(f, g))
    case _ => if Before(a.stamp, b.stamp) then b.crdt else a.crdt
  }

  function MergeExpiry(a: Option<nat>, b: Option<nat>): Option<nat> {
    match (a, b)
    case (Some(x), Some(y)) => Some(if x < y then y else x)
    case (Some(x), None) => Some(x)
    case (None, e) => e
  }

  /** `LamportClock::merge`: the later time, but always the receiver's replica id. */
  function MergeClock(a: Clock, b: Clock): Clock {
    Clock(if a.time < b.time then b.time else a.time, a.replica)
  }

  /** `ReplicatedValue::merge`. */
  function Merge(a: Replicated, b: Replicated): Replicated {
    Replicated(MergeCrdt(a, b), MergeExpiry(a.expiry, b.expiry), MergeClock(a.stamp, b.stamp))
  }

  predicate SameKind(a: Replicated, b: Replicated) {
    a.crdt.Lww? <==> b.crdt.Lww?
  }

  // ---------------------------------------------------------------- laws

  lemma JoinLaws(a: Register, b: Register, c: Register)
    ensures Join(a, a) == a
    ensures Join(Join(a, b), c) == Join(a, Join(b, c))
    ensures Join(a, b) == Join(b, a) <==> (a.stamp == b.stamp ==> a == b)
    ensures !Before(Join(a, b).stamp, a.stamp) && !Before(Join(a, b).stamp, b.stamp)
  {
  }

  lemma JoinFieldsAssociative(a: map<seq<Byte>, Register>, b: map<seq<Byte>, Register>, c: map<seq<Byte>, Register>)
    ensures JoinFields(JoinFields(a, b), c) == JoinFields(a, JoinFields(b, c))
  {
    var l, r := JoinFields(JoinFields(a, b), c), JoinFields(a, JoinFields(b, c));
    assert l.Keys == r.Keys;
    forall f | f in l ensures l[f] == r[f] {
      if f in a && f in b && f in c { JoinLaws(a[f], b[f], c[f]); }
    }
  }

  /** Merging is idempotent for every value, and associative among values of one kind. */
  lemma MergeLaws(a: Replicated, b: Replicated, c: Replicated)
    ensures Merge(a, a) == a
    ensures SameKind(a, b) && SameKind(b, c) ==> Merge(Merge(a, b), c) == Merge(a, Merge(b, c))
  {
    if a.crdt.Hash? {
      assert JoinFields(a.crdt.fields, a.crdt.fields) == a.crdt.fields;
    }
    if SameKind(a, b) && SameKind(b, c) && a.crdt.Hash? {
      JoinFieldsAssociative(a.crdt.fields, b.crdt.fields, c.crdt.fields);
    }
  }

  /** Stamps identify writes: equal stamps carry equal registers. */
  predicate Consistent(a: Crdt, b: Crdt) {
    match (a, b)
    case (Lww(r), Lww(s)) => r.stamp == s.stamp ==> r == s
    case (Hash(f), Hash(g)) => forall x :: x in f && x in g && f[x].stamp == g[x].stamp ==> f[x] == g[x]
    case _ => true
  }

  /** Merging commutes exactly when both outer stamps carry one replica id, which the merged stamp
      always takes from the left, and stamps identify writes; values of different kinds must
      differ in their outer times instead. */
  lemma MergeCommutesIff(a: Replicated, b: Replicated)
    ensures Merge(a, b) == Merge(b, a) <==>
              && a.stamp.replica == b.stamp.replica
              && if SameKind(a, b) then Consistent(a.crdt, b.crdt) else a.stamp.time != b.stamp.time
  {
    if a.crdt.Hash? && b.crdt.Hash? {
      FieldsCommuteIff(a.crdt.fields, b.crdt.fields);
    }
  }

  lemma FieldsCommuteIff(f: map<seq<Byte>, Register>, g: map<seq<Byte>, Register>)
    ensures JoinFields(f, g) == JoinFields(g, f) <==> Consistent(Hash(f), Hash(g))
  {
    var l, r := JoinFields(f, g), JoinFields(g, f);
    assert l.Keys == r.Keys;
    if l == r {
      forall x | x in f && x in g && f[x].stamp == g[x].stamp ensures f[x] == g[x] {
        assert l[x] == r[x];
      }
    } else if Consistent(Hash(f), Hash(g)) {
      forall x | x in l ensures l[x] == r[x] {
        if x in f && x in g { JoinLaws(f[x], g[x], f[x]); }
      }
    }
  }

  /** What survives: whenever stamps identify writes, both orders show readers the same CRDT and
      the same outer time. */
  lemma MergeCommutesForReaders(a: Replicated, b: Replicated)
    requires SameKind(a, b) && Consistent(a.crdt, b.crdt)
    ensures MergeCrdt(a, b) == MergeCrdt(b, a)
    ensures Merge(a, b).stamp.time == Merge(b, a).stamp.time
  {
    MergeCommutesIff(a, b.(stamp := Clock(b.stamp.time, a.stamp.replica)));
  }

  // ---------------------------------------------------------------- grouping

  /** The left CRDT already holds everything the right one would bring. */
  predicate KeepsLeft(a: Crdt, b: Crdt) {
    match (a, b)
    case (Lww(r), Lww(s)) => !Before(r.stamp, s.stamp)
    case (Hash(f), Hash(g)) => forall x :: x in g ==> x in f && !Before(f[x].stamp, g[x].stamp)
    case _ => false
  }

  /** The right CRDT overrides everything the left one holds. */
  predicate TakesRight(a: Crdt, b: Crdt) {
    match (a, b)
    case (Lww(r), Lww(s)) => Before(r.stamp, s.stamp) || r == s
    case (Hash(f), Hash(g)) => forall x :: x in f ==> x in g && (Before(f[x].stamp, g[x].stamp) || f[x] == g[x])
    case _ => false
  }

  lemma KeepsLeftIff(a: Replicated, b: Replicated)
    requires SameKind(a, b)
    ensures MergeCrdt(a, b) == a.crdt <==> KeepsLeft(a.crdt, b.crdt)
  {
    if a.crdt.Hash? {
      var f, g := a.crdt.fields, b.crdt.fields;
      if JoinFields(f, g) == f {
        forall x | x in g ensures x in f && !Before(f[x].stamp, g[x].stamp) { assert x in JoinFields(f, g); }
      }
    }
  }

  lemma TakesRightIff(a: Replicated, b: Replicated)
    requires SameKind(a, b)
    ensures MergeCrdt(a, b) == b.crdt <==> TakesRight(a.crdt, b.crdt)
  {
    if a.crdt.Hash? {
      var f, g := a.crdt.fields, b.crdt.fields;
      if JoinFields(f, g) == g {
        forall x | x in f ensures x in g && (Before(f[x].stamp, g[x].stamp) || f[x] == g[x]) {
          assert x in JoinFields(f, g);
        }
      }
    }
  }

  predicate LaterExpiry(a: Option<nat>, b: Option<nat>) {
    b.None? || (a.Some? && b.value <= a.value)
  }

  /** The value already holds everything the other one would bring. */
  predicate Covers(a: Replicated, b: Replicated) {
    && (if SameKind(a, b) then KeepsLeft(a.crdt, b.crdt) else !Before(a.stamp, b.stamp))
    && LaterExpiry(a.expiry, b.expiry)
    && b.stamp.time <= a.stamp.time
  }

  lemma CoversIff(a: Replicated, b: Replicated)
    ensures Merge(a, b) == a <==> Covers(a, b)
  {
    if SameKind(a, b) { KeepsLeftIff(a, b); }
  }

  /** Once merged, a value is covered for good, whatever the kinds. */
  lemma MergeAgain(a: Replicated, b: Replicated)
    ensures Merge(Merge(a, b), b) == Merge(a, b)
  {
    MergeLaws(a, b, b);
    MergeLaws(b, b, b);
  }

  /** Whether three values may be grouped either way. Only a value of the other kind between or
      beside two of one kind can do harm: where it wins once and loses once, one grouping drops a
      value that the other merges in. */
  predicate GroupingHarmless(a: Replicated, b: Replicated, c: Replicated) {
    if SameKind(a, b) && SameKind(b, c) then true
    else if SameKind(a, b) then
      var cWins := Before(MergeClock(a.stamp, b.stamp), c.stamp);
      if Before(b.stamp, c.stamp) then
        && (cWins <==> Before(a.stamp, Clock(c.stamp.time, b.stamp.replica)))
        && (cWins || KeepsLeft(a.crdt, b.crdt))
      else !cWins
    else if SameKind(b, c) then
      || Before(a.stamp, b.stamp)
      || (if Before(a.stamp, c.stamp)
          then Before(a.stamp, MergeClock(b.stamp, c.stamp)) && TakesRight(b.crdt, c.crdt)
          else !Before(a.stamp, MergeClock(b.stamp, c.stamp)))
    else if Before(a.stamp, b.stamp) then
      var cWins := Before(Clock(b.stamp.time, a.stamp.replica), c.stamp);
      if Before(b.stamp, c.stamp) then cWins && TakesRight(a.crdt, c.crdt) else !cWins
    else Before(b.stamp, c.stamp) || KeepsLeft(a.crdt, c.crdt)
  }

  /** Exactly when merging is associative, for values of any kinds and any stamps. */
  lemma MergeAssociativeIff(a: Replicated, b: Replicated, c: Replicated)
    ensures Merge(Merge(a, b), c) == Merge(a, Merge(b, c)) <==> GroupingHarmless(a, b, c)
  {
    MergeLaws(a, b, c);
    if SameKind(a, b) { KeepsLeftIff(a, b); }
    if SameKind(b, c) { TakesRightIff(b, c); }
    if SameKind(a, c) { KeepsLeftIff(a, c); TakesRightIff(a, c); }
    hide JoinFields, Join, KeepsLeft, TakesRight;
  }

  /** With three different outer times, grouping does harm in four cases only: the middle time
      belongs to the value of the other kind, and a value of the kind that both groupings keep
      would have been changed by the one that a grouping drops. */
  lemma MergeAssociativeByTime(a: Replicated, b: Replicated, c: Replicated)
    requires a.stamp.time != b.stamp.time && b.stamp.time != c.stamp.time && a.stamp.time != c.stamp.time
    ensures var x, y, z := a.stamp.time, b.stamp.time, c.stamp.time;
            Merge(Merge(a, b), c) == Merge(a, Merge(b, c)) <==>
              && (SameKind(a, b) && !SameKind(b, c) && y < z < x ==> KeepsLeft(a.crdt, b.crdt))
              && (SameKind(b, c) && !SameKind(a, b) && y < x < z ==> TakesRight(b.crdt, c.crdt))
              && (SameKind(a, c) && !SameKind(a, b) && x < y < z ==> TakesRight(a.crdt, c.crdt))
              && (SameKind(a, c) && !SameKind(a, b) && z < y < x ==> KeepsLeft(a.crdt, c.crdt))
  {
    MergeAssociativeIff(a, b, c);
    hide Merge, KeepsLeft, TakesRight;
  }

  /** Two replicas' writes to one key: the merged stamp tells who merged. */
  lemma OwnIdShows() returns (a: Replicated, b: Replicated)
    ensures SameKind(a, b) && Consistent(a.crdt, b.crdt) && Merge(a, b) != Merge(b, a)
  {
    a := Replicated(Lww(Register(Some([1]), Clock(1, 0), false)), None, Clock(1, 0));
    b := Replicated(Lww(Register(Some([2]), Clock(1, 1), false)), None, Clock(1, 1));
    MergeCommutesIff(a, b);
  }

  /** Values of different kinds do not merge associatively, even with distinct outer stamps: a
      string that beats one hash and loses to another drops the first hash's field. */
  lemma MixedKindsNotAssociative() returns (a: Replicated, b: Replicated, c: Replicated)
    ensures a.stamp != b.stamp && b.stamp != c.stamp && a.stamp != c.stamp
    ensures Merge(Merge(a, b), c).crdt != Merge(a, Merge(b, c)).crdt
  {
    var f: seq<Byte>, g: seq<Byte> := [102], [103];
    var ra := Register(Some([1]), Clock(3, 1), false);
    var rb := Register(Some([2]), Clock(1, 2), false);
    a := Replicated(Hash(map[f := ra]), None, Clock(3, 1));
    b := Replicated(Hash(map[g := rb]), None, Clock(1, 2));
    c := Replicated(Lww(Register(Some([3]), Clock(2, 3), false)), None, Clock(2, 3));
    assert g != f && g !in a.crdt.fields;
    assert g in Merge(Merge(a, b), c).crdt.fields;
  }

  // ---------------------------------------------------------------- many values

  function MergeAll(vs: seq<Replicated>): Replicated
    requires vs != []
  {
    var n := |vs| - 1;
    if n == 0 then vs[0] else Merge(MergeAll(vs[..n]), vs[n])
  }

  /** Merging many values keeps the latest of their expiries. */
  lemma {:induction false} MergeAllExpiry(vs: seq<Replicated>)
    requires vs != []
    ensures forall x :: 0 <= x < |vs| ==> LaterExpiry(MergeAll(vs).expiry, vs[x].expiry)
    ensures exists x :: 0 <= x < |vs| && vs[x].expiry == MergeAll(vs).expiry
  {
    var n := |vs| - 1;
    if n == 0 {
      assert vs[0].expiry == MergeAll(vs).expiry;
    } else {
      MergeAllExpiry(vs[..n]);
      forall x | 0 <= x < n ensures LaterExpiry(MergeAll(vs).expiry, vs[x].expiry) {
        assert vs[x] == vs[..n][x];
      }
      var x :| 0 <= x < n && vs[..n][x].expiry == MergeAll(vs[..n]).expiry;
      assert vs[x].expiry == MergeAll(vs).expiry || vs[n].expiry == MergeAll(vs).expiry;
    }
  }
}
