/** One replicated shard: the executor's store beside the replication state
    (src/replication/state/shard_state.rs, src/production/replicated_shard_actor.rs). */
module Replica {
  import opened Numbers
  import opened Resp
  import opened Executor
  import opened Lattice

  const MAX_PENDING := 100

  datatype Delta = Delta(key: Key, value: Replicated, source: ReplicaId)

  /** `ShardReplicaState`; the clock's replica id is `id`. */
  datatype Rep = Rep(id: ReplicaId, clock: nat, keys: map<Key, Replicated>, pending: seq<Delta>)

  /** The newest `MAX_PENDING` elements. */
  function Window(ds: seq<Delta>): seq<Delta> {
    if |ds| > MAX_PENDING then ds[|ds| - MAX_PENDING..] else ds
  }

  function Save(r: Rep, clock: nat, k: Key, v: Replicated): Rep {
    Rep(r.id, clock, r.keys[k := v], Window(r.pending + [Delta(k, v, r.id)]))
  }

  function Written(r: Rep, v: seq<Byte>, expiry: Option<nat>): Replicated {
    var now := Clock(r.clock + 1, r.id);
    Replicated(Lww(Register(Some(v), now, false)), expiry, now)
  }

  function AfterWrite(r: Rep, k: Key, v: seq<Byte>, expiry: Option<nat>): Rep {
    Save(r, r.clock + 1, k, Written(r, v, expiry))
  }

  function Buried(r: Rep, expiry: Option<nat>): Replicated {
    var now := Clock(r.clock + 1, r.id);
    Replicated(Lww(Register(None, now, true)), expiry, now)
  }

  /** A string register gets a tombstone; a hash is sent again as it is. */
  function AfterDelete(r: Rep, k: Key): Rep {
    if k !in r.keys then r
    else if r.keys[k].crdt.Lww? then Save(r, r.clock + 1, k, Buried(r, r.keys[k].expiry))
    else Save(r, r.clock, k, r.keys[k])
  }

  function AfterDeletes(r: Rep, ks: seq<Key>): Rep
    decreases |ks|
  {
    if ks == [] then r else AfterDeletes(AfterDelete(r, ks[0]), ks[1..])
  }

  function Merged(r: Rep, d: Delta): Replicated {
    if d.key in r.keys then Merge(r.keys[d.key], d.value) else d.value
  }

  /** `apply_remote_delta`. */
  function Apply(r: Rep, d: Delta): Rep {
    var seen := d.value.stamp.time;
    r.(clock := (if r.clock < seen then seen else r.clock) + 1, keys := r.keys[d.key := Merged(r, d)])
  }

  /** What a command leaves in the replication state, given the executor's store afterwards. */
  function Record(r: Rep, c: Command, after: Store): Rep {
    match c
    case Set(k, v, nx, xx, _) =>
      if nx && !(k in after && after[k].Str?) then r
      else if !nx && xx && k !in after then r
      else AfterWrite(r, k, v, None)
    case Del(ks) => AfterDeletes(r, ks)
    case IncrBy(k, _) => ReadBack(r, k, after)
    case Append(k, _) => ReadBack(r, k, after)
    case GetSet(k, _) => ReadBack(r, k, after)
    case _ => r
  }

  function ReadBack(r: Rep, k: Key, after: Store): Rep {
    if k in after && after[k].Str? then AfterWrite(r, k, after[k].s, None) else r
  }

  /** SETEX with the whole seconds of the expiry: rejected below one second. */
  predicate ExpiryAccepted(e: nat) {
    0 < e / 1000 <= I64_MAX / 1000
  }

  /** The store after a merged string register is written through to the executor. */
  function StringThrough(st: Store, k: Key, v: Replicated): Store
    requires v.crdt.Lww?
  {
    match Live(v.crdt.reg)
    case Some(s) => if v.expiry.Some? && !ExpiryAccepted(v.expiry.value) then st else st[k := Str(s)]
    case None => if v.crdt.reg.tombstone then st - {k} else st
  }

  function LiveFields(h: map<seq<Byte>, Register>): map<seq<Byte>, seq<Byte>> {
    map f | f in h && Live(h[f]).Some? :: Live(h[f]).value
  }

  function DeadFields(h: map<seq<Byte>, Register>): set<seq<Byte>> {
    set f | f in h && h[f].tombstone
  }

  /** HSET: rejected on a key that holds no hash. */
  function WithFields(st: Store, k: Key, pairs: map<seq<Byte>, seq<Byte>>): Store {
    match Find(k, st)
    case None => st[k := Fields(pairs)]
    case Some(Fields(fs)) => st[k := Fields(fs + pairs)]
    case _ => st
  }

  /** HDEL: an emptied hash disappears. */
  function WithoutFields(st: Store, k: Key, fields: set<seq<Byte>>): Store {
    match Find(k, st)
    case Some(Fields(fs)) => if fs - fields == map[] then st - {k} else st[k := Fields(fs - fields)]
    case _ => st
  }

  /** Live fields are set, then buried ones deleted; neither command is sent empty. */
  function HashThrough(st: Store, k: Key, h: map<seq<Byte>, Register>): Store {
    var set' := if LiveFields(h) == map[] then st else WithFields(st, k, LiveFields(h));
    if DeadFields(h) == {} then set' else WithoutFields(set', k, DeadFields(h))
  }

  function Through(st: Store, k: Key, v: Replicated): Store {
    if v.crdt.Lww? then StringThrough(st, k, v) else HashThrough(st, k, v.crdt.fields)
  }

  /** `ApplyRecoveredState` as the executor sees it: live values only. */
  function RecoveredThrough(st: Store, k: Key, v: Replicated): Store {
    if v.crdt.Lww? then (if Live(v.crdt.reg).Some? then StringThrough(st, k, v) else st)
    else if LiveFields(v.crdt.fields) == map[] then st else WithFields(st, k, LiveFields(v.crdt.fields))
  }

  datatype Shard = Shard(rep: Rep, store: Store)

  function Local(sh: Shard, c: Command): Shard {
    var after := After(c, sh.store);
    Shard(Record(sh.rep, c, after), after)
  }

  function Remote(sh: Shard, d: Delta): Shard {
    Shard(Apply(sh.rep, d), Through(sh.store, d.key, Merged(sh.rep, d)))
  }

  // ---------------------------------------------------------------- the two objects

  class ShardReplicaState {
    const id: ReplicaId
    var clock: nat
    var keys: map<Key, Replicated>
    var pending: seq<Delta>

    ghost function State(): Rep
      reads this
    {
      Rep(id, clock, keys, pending)
    }

    constructor (id: ReplicaId)
      ensures State() == Rep(id, 0, map[], [])
    {
      this.id, clock, keys, pending := id, 0, map[], [];
    }

    method EnforcePendingCapacity()
      modifies this`pending
      ensures pending == Window(old(pending))
    {
      if |pending| > MAX_PENDING {
        var overflow := |pending| - MAX_PENDING;
        pending := pending[overflow..];
      }
    }

    method RecordWrite(k: Key, v: seq<Byte>, expiry: Option<nat>) returns (d: Delta)
      modifies this
      ensures State() == AfterWrite(old(State()), k, v, expiry)
      ensures d == Delta(k, keys[k], id)
    {
      clock := clock + 1;
      var now := Clock(clock, id);
      var value := Replicated(Lww(Register(Some(v), now, false)), expiry, now);
      d := Delta(k, value, id);
      keys := keys[k := value];
      pending := pending + [d];
      EnforcePendingCapacity();
    }

    method RecordDelete(k: Key) returns (d: Option<Delta>)
      modifies this
      ensures State() == AfterDelete(old(State()), k)
      ensures d == if k in keys then Some(Delta(k, keys[k], id)) else None
    {
      if k !in keys { return None; }
      var value := keys[k];
      if value.crdt.Lww? {
        clock := clock + 1;
        var now := Clock(clock, id);
        value := value.(crdt := Lww(Register(None, now, true)), stamp := now);
      }
      d := Some(Delta(k, value, id));
      keys := keys[k := value];
      pending := pending + [d.value];
      EnforcePendingCapacity();
    }

    method ApplyRemoteDelta(d: Delta)
      modifies this
      ensures State() == Apply(old(State()), d)
    {
      clock := (if clock < d.value.stamp.time then d.value.stamp.time else clock) + 1;
      if d.key in keys {
        keys := keys[d.key := Merge(keys[d.key], d.value)];
      } else {
        keys := keys[d.key := d.value];
      }
    }
  }

  class ReplicatedShardActor {
    var store: Store
    const replica: ShardReplicaState

    ghost function State(): Shard
      reads this, replica
    {
      Shard(replica.State(), store)
    }

    constructor (id: ReplicaId)
      ensures State() == Shard(Rep(id, 0, map[], []), map[])
      ensures fresh(replica)
    {
      store := map[];
      replica := new ShardReplicaState(id);
    }

    method ReadBackAndRecord(k: Key) returns (d: Option<Delta>)
      modifies replica
      ensures replica.State() == ReadBack(old(replica.State()), k, store)
      ensures d.Some? <==> replica.clock == old(replica.clock) + 1
      ensures d.Some? ==> k in replica.keys && d.value == Delta(k, replica.keys[k], replica.id)
    {
      d := None;
      if k in store && store[k].Str? {
        var sent := replica.RecordWrite(k, store[k].s, None);
        d := Some(sent);
      }
    }

    /** DEL records every key; only the last key's delta is handed back. */
    method RecordEach(ks: seq<Key>) returns (d: Option<Delta>)
      modifies replica
      ensures replica.State() == AfterDeletes(old(replica.State()), ks)
      ensures d.Some? <==> ks != [] && ks[|ks| - 1] in replica.keys
      ensures d.Some? ==> d.value == Delta(ks[|ks| - 1], replica.keys[ks[|ks| - 1]], replica.id)
    {
      d := None;
      var i := 0;
      while i < |ks|
        invariant i <= |ks|
        invariant AfterDeletes(replica.State(), ks[i..]) == AfterDeletes(old(replica.State()), ks)
        invariant d.Some? <==> i > 0 && ks[i - 1] in replica.keys
        invariant d.Some? ==> d.value == Delta(ks[i - 1], replica.keys[ks[i - 1]], replica.id)
      {
        assert ks[i..][0] == ks[i] && ks[i..][1..] == ks[i + 1..];
        d := replica.RecordDelete(ks[i]);
        i := i + 1;
      }
    }

    /** The actor's `Execute` message: run the command, then record what it left behind. */
    method Execute(c: Command) returns (reply: Value, d: Option<Delta>)
      modifies this, replica
      ensures State() == Local(old(State()), c)
      ensures reply == Reply(c, old(store))
      ensures d.Some? ==>
                && d.value.key in replica.keys
                && d.value == Delta(d.value.key, replica.keys[d.value.key], replica.id)
      ensures !c.Del? ==> (d.Some? <==> replica.clock == old(replica.clock) + 1)
      ensures c.Del? ==> (d.Some? <==> c.keys != [] && c.keys[|c.keys| - 1] in replica.keys)
    {
      reply := Reply(c, store);
      store := After(c, store);
      d := None;
      match c
      case Set(k, v, nx, xx, _) =>
        if nx {
          if k !in store || !store[k].Str? { return; }
        } else if xx {
          if k !in store { return; }
        }
        var sent := replica.RecordWrite(k, v, None);
        d := Some(sent);
      case Del(ks) => d := RecordEach(ks);
      case IncrBy(k, _) => d := ReadBackAndRecord(k);
      case Append(k, _) => d := ReadBackAndRecord(k);
      case GetSet(k, _) => d := ReadBackAndRecord(k);
      case _ =>
    }

    /** Writes a live string through: SET, or SETEX with the whole seconds of the expiry. */
    method StoreString(k: Key, s: seq<Byte>, expiry: Option<nat>)
      modifies this`store
      ensures store == if expiry.Some? && !ExpiryAccepted(expiry.value) then old(store) else old(store)[k := Str(s)]
    {
      if expiry.Some? {
        var seconds := expiry.value / 1000;
        if 0 < seconds <= I64_MAX / 1000 { store := store[k := Str(s)]; }
      } else {
        store := store[k := Str(s)];
      }
    }

    /** The actor's `ApplyRemoteDelta` message: merge, then bring the executor into line. */
    method ApplyRemoteDelta(d: Delta)
      modifies this, replica
      ensures State() == Remote(old(State()), d)
    {
      replica.ApplyRemoteDelta(d);
      var merged := replica.keys[d.key];
      if merged.crdt.Hash? {
        var pairs, dead := LiveFields(merged.crdt.fields), DeadFields(merged.crdt.fields);
        if pairs != map[] { store := WithFields(store, d.key, pairs); }
        if dead != {} { store := WithoutFields(store, d.key, dead); }
      } else {
        var live := Live(merged.crdt.reg);
        if live.Some? {
          StoreString(d.key, live.value, merged.expiry);
        } else if merged.crdt.reg.tombstone {
          store := store - {d.key};
        }
      }
    }

    /** The actor's `ApplyRecoveredState` message: the value is taken as it is, and the clock stays. */
    method ApplyRecoveredState(k: Key, v: Replicated)
      modifies this, replica
      ensures replica.State() == old(replica.State()).(keys := old(replica.keys)[k := v])
      ensures store == RecoveredThrough(old(store), k, v)
    {
      replica.keys := replica.keys[k := v];
      if v.crdt.Hash? {
        var pairs := LiveFields(v.crdt.fields);
        if pairs != map[] { store := WithFields(store, k, pairs); }
      } else {
        var live := Live(v.crdt.reg);
        if live.Some? { StoreString(k, live.value, v.expiry); }
      }
    }

    /** Start-up from a checkpoint: every recovered key, in any order, and a clock at zero. */
    method Recover(image: map<Key, Replicated>)
      requires State() == Shard(Rep(replica.id, 0, map[], []), map[])
      modifies this, replica
      ensures State() == Shard(Rep(replica.id, 0, image, []), Recovered(image))
    {
      hide Revived, RecoveredThrough, RecoveredBut;
      RecoveredAll(image);
      var rest := image.Keys;
      while rest != {}
        invariant rest <= image.Keys
        invariant replica.clock == 0 && replica.pending == []
        invariant replica.keys == map k | k in image && k !in rest :: image[k]
        invariant store == RecoveredBut(image, rest)
        decreases |rest|
      {
        var k :| k in rest;
        RecoveredStep(image, rest, k);
        ApplyRecoveredState(k, image[k]);
        rest := rest - {k};
      }
    }
  }

  /** What a recovered value gives the executor: a live string whose expiry is accepted, or live fields. */
  function Revived(v: Replicated): Option<Entry> {
    match v.crdt
    case Lww(reg) =>
      if Live(reg).None? || (v.expiry.Some? && !ExpiryAccepted(v.expiry.value)) then None
      else Some(Str(Live(reg).value))
    case Hash(fields) => if LiveFields(fields) == map[] then None else Some(Fields(LiveFields(fields)))
  }

  lemma RevivedThrough(st: Store, k: Key, v: Replicated)
    requires k !in st
    ensures RecoveredThrough(st, k, v) == if Revived(v).Some? then st[k := Revived(v).value] else st
  {
  }

  /** What the executor holds while the keys in `rest` are still to come. */
  function RecoveredBut(image: map<Key, Replicated>, rest: set<Key>): Store {
    map k | k in image && k !in rest && Revived(image[k]).Some? :: Revived(image[k]).value
  }

  lemma RecoveredStep(image: map<Key, Replicated>, rest: set<Key>, k: Key)
    requires k in rest && k in image
    ensures RecoveredThrough(RecoveredBut(image, rest), k, image[k]) == RecoveredBut(image, rest - {k})
  {
    RevivedThrough(RecoveredBut(image, rest), k, image[k]);
    hide Revived, RecoveredThrough;
  }

  lemma RecoveredAll(image: map<Key, Replicated>)
    ensures RecoveredBut(image, image.Keys) == map[] && RecoveredBut(image, {}) == Recovered(image)
  {
    hide Revived;
  }

  /** What the executor holds after recovery. */
  function Recovered(image: map<Key, Replicated>): Store {
    map k | k in image && Revived(image[k]).Some? :: Revived(image[k]).value
  }

  /** The executor shows exactly the live fields of a hash. */
  predicate ShowsHash(st: Store, k: Key, h: map<seq<Byte>, Register>) {
    Find(k, st) == if LiveFields(h) == map[] then None else Some(Fields(LiveFields(h)))
  }

  /** After a merged hash is written through, the executor shows its live fields exactly when the key
      held no string and no field that the merged hash does not know: fields are never removed
      otherwise, and a string is never replaced. */
  lemma HashThroughIff(st: Store, k: Key, h: map<seq<Byte>, Register>)
    requires Find(k, st) != Some(Fields(map[]))
    ensures ShowsHash(HashThrough(st, k, h), k, h) <==>
              match Find(k, st)
              case None => true
              case Some(Fields(fs)) => forall f :: f in fs ==> f in h && (Live(h[f]).Some? || h[f].tombstone)
              case _ => false
  {
    var live, dead := LiveFields(h), DeadFields(h);
    assert forall f :: f in live ==> f !in dead;
    match Find(k, st)
    case None =>
      assert live - dead == live;
    case Some(Fields(fs)) =>
      var left := (fs + live) - dead;
      assert fs.Keys != {} && fs + map[] == fs;
      if forall f :: f in fs ==> f in live || f in dead {
        var f :| f in fs;
        assert f in live || f in dead;
        assert left == live;
        assert dead == {} ==> fs + live == live;
      } else {
        var f :| f in fs && f !in live && f !in dead;
        assert f in left && f in fs - dead;
      }
    case _ =>
  }

  // ---------------------------------------------------------------- pending deltas

  /** A recorded mutation: a write with its expiry, or a delete. */
  datatype Note = Wrote(key: Key, value: seq<Byte>, expiry: Option<nat>) | Deleted(key: Key)

  function Noted(r: Rep, n: Note): Rep {
    if n.Wrote? then AfterWrite(r, n.key, n.value, n.expiry) else AfterDelete(r, n.key)
  }

  /** The delta that a mutation produces, if any. */
  function DeltaOf(r: Rep, n: Note): seq<Delta> {
    if n.Wrote? || n.key in r.keys then [Delta(n.key, Noted(r, n).keys[n.key], r.id)] else []
  }

  function NotedAll(r: Rep, ns: seq<Note>): Rep
    decreases |ns|
  {
    if ns == [] then r else NotedAll(Noted(r, ns[0]), ns[1..])
  }

  function Produced(r: Rep, ns: seq<Note>): seq<Delta>
    decreases |ns|
  {
    if ns == [] then [] else DeltaOf(r, ns[0]) + Produced(Noted(r, ns[0]), ns[1..])
  }

  /** `p` is what is left of `all` when its oldest elements beyond the limit have been dropped. */
  predicate Newest(p: seq<Delta>, all: seq<Delta>) {
    && |p| == (if |all| > MAX_PENDING then MAX_PENDING else |all|)
    && p == all[|all| - |p|..]
  }

  lemma PushKeepsNewest(p: seq<Delta>, all: seq<Delta>, d: Delta)
    requires Newest(p, all)
    ensures Newest(Window(p + [d]), all + [d])
  {
  }

  /** Over any mutations, capping the queue after every push keeps exactly the newest deltas of all
      that were produced. */
  lemma {:induction false} PendingIsNewest(r: Rep, ns: seq<Note>, all: seq<Delta>)
    requires Newest(r.pending, all)
    ensures Newest(NotedAll(r, ns).pending, all + Produced(r, ns))
    decreases |ns|
  {
    hide Window, Newest;
    if ns == [] {
      assert all + [] == all;
    } else {
      var ds := DeltaOf(r, ns[0]);
      if ds != [] { PushKeepsNewest(r.pending, all, ds[0]); }
      assert Newest(Noted(r, ns[0]).pending, all + ds) by { assert ds == [] ==> all + ds == all; }
      PendingIsNewest(Noted(r, ns[0]), ns[1..], all + ds);
      assert all + ds + Produced(Noted(r, ns[0]), ns[1..]) == all + Produced(r, ns);
    }
  }

  /** A mutation that changes the key's value queues the new value last, however full the queue is. */
  lemma JustQueued(r: Rep, n: Note)
    requires n.Wrote? || n.key in r.keys
    ensures var after := Noted(r, n);
            && n.key in after.keys && after.pending != []
            && after.pending[|after.pending| - 1] == Delta(n.key, after.keys[n.key], r.id)
  {
  }

  // ---------------------------------------------------------------- agreement

  function Shown(st: Store, k: Key): Option<seq<Byte>> {
    if k in st && st[k].Str? then Some(st[k].s) else None
  }

  function Registered(r: Rep, k: Key): Option<seq<Byte>> {
    if k in r.keys && r.keys[k].crdt.Lww? then Live(r.keys[k].crdt.reg) else None
  }

  predicate StringsOnly(sh: Shard) {
    && (forall k :: k in sh.store ==> sh.store[k].Str?)
    && (forall k :: k in sh.rep.keys ==> sh.rep.keys[k].crdt.Lww?)
  }

  /** The executor shows exactly what the replication state holds, at every key. */
  ghost predicate Agreement(sh: Shard) {
    StringsOnly(sh) && forall k :: Shown(sh.store, k) == Registered(sh.rep, k)
  }

  /** Commands whose recording matches what they did to the store. */
  predicate Faithful(c: Command, st: Store) {
    match c
    case Set(k, v, nx, _, _) => nx && k in st ==> st[k] == Str(v)
    case MSet(ps) => PutAll(st, ps) == st
    case Flush => st == map[]
    case _ => true
  }

  lemma WriteAgrees(sh: Shard, k: Key, v: seq<Byte>, e: Option<nat>)
    requires Agreement(sh)
    ensures Agreement(Shard(AfterWrite(sh.rep, k, v, e), sh.store[k := Str(v)]))
  {
    forall x | x != k ensures Shown(sh.store[k := Str(v)], x) == Registered(AfterWrite(sh.rep, k, v, e), x) {
      assert Shown(sh.store, x) == Registered(sh.rep, x);
    }
  }

  lemma {:induction false} DeletesAgree(sh: Shard, ks: seq<Key>)
    requires Agreement(sh)
    ensures Agreement(Shard(AfterDeletes(sh.rep, ks), RemoveAll(sh.store, ks)))
    decreases |ks|
  {
    if ks != [] {
      var next := Shard(AfterDelete(sh.rep, ks[0]), sh.store - {ks[0]});
      assert Agreement(next) by {
        forall k ensures Shown(next.store, k) == Registered(next.rep, k) {
          assert Shown(sh.store, k) == Registered(sh.rep, k);
        }
      }
      DeletesAgree(next, ks[1..]);
    }
  }

  lemma PutAllKeepsStrings(st: Store, ps: seq<(Key, seq<Byte>)>)
    requires forall k :: k in st ==> st[k].Str?
    ensures forall k :: k in PutAll(st, ps) ==> PutAll(st, ps)[k].Str?
    decreases |ps|
  {
    if ps != [] { PutAllKeepsStrings(st[ps[0].0 := Str(ps[0].1)], ps[1..]); }
  }

  /** From an agreeing store, a store of strings agrees with the same replication state only if
      it is the same store. */
  lemma SameView(sh: Shard, st: Store)
    requires Agreement(sh) && forall k :: k in st ==> st[k].Str?
    ensures Agreement(Shard(sh.rep, st)) <==> st == sh.store
  {
    if Agreement(Shard(sh.rep, st)) {
      forall k ensures k in st <==> k in sh.store
      {
        assert Shown(st, k) == Registered(sh.rep, k) == Shown(sh.store, k);
      }
      assert st.Keys == sh.store.Keys;
      forall k | k in st ensures st[k] == sh.store[k] {
        assert Shown(st, k) == Registered(sh.rep, k) == Shown(sh.store, k);
      }
    }
  }

  /** A SET whose NX was refused still records its own value. */
  lemma SetAgreesIff(sh: Shard, c: Command)
    requires Agreement(sh) && c.Set?
    ensures Agreement(Local(sh, c)) <==> Faithful(c, sh.store)
  {
    var after := After(c, sh.store);
    WriteAgrees(sh, c.key, c.value, None);
    if c.nx && c.key in sh.store {
      var wrote := AfterWrite(sh.rep, c.key, c.value, None);
      assert Local(sh, c) == Shard(wrote, sh.store);
      assert Registered(wrote, c.key) == Some(c.value);
      if sh.store[c.key] == Str(c.value) {
        assert sh.store == sh.store[c.key := Str(c.value)];
      }
    }
  }

  /** A command keeps the executor and the replication state in agreement exactly when it is not
      one of: a refused SET NX with another value, an MSET or a FLUSH that changes something. */
  lemma LocalAgreesIff(sh: Shard, c: Command)
    requires Agreement(sh)
    ensures Agreement(Local(sh, c)) <==> Faithful(c, sh.store)
  {
    match c
    case Set(_, _, _, _, _) => SetAgreesIff(sh, c);
    case Del(ks) => DeletesAgree(sh, ks);
    case MSet(ps) =>
      PutAllKeepsStrings(sh.store, ps);
      SameView(sh, PutAll(sh.store, ps));
    case Flush => SameView(sh, map[]);
    case IncrBy(k, _) => ReadBackAgrees(sh, c, k);
    case Append(k, _) => ReadBackAgrees(sh, c, k);
    case GetSet(k, _) => ReadBackAgrees(sh, c, k);
    case _ =>
  }

  lemma ReadBackAgrees(sh: Shard, c: Command, k: Key)
    requires Agreement(sh)
    requires (c.IncrBy? || c.Append? || c.GetSet?) && k == c.key
    ensures Agreement(Local(sh, c))
  {
    var after := After(c, sh.store);
    if k in after {
      var s := after[k].s;
      assert after == sh.store[k := Str(s)];
      WriteAgrees(sh, k, s, None);
    }
  }

  /** The executor ignores a merged register when its expiry is under a second, or when it never
      held a value. */
  predicate Ignored(v: Replicated)
    requires v.crdt.Lww?
  {
    match Live(v.crdt.reg)
    case Some(_) => v.expiry.Some? && !ExpiryAccepted(v.expiry.value)
    case None => !v.crdt.reg.tombstone
  }

  /** A remote delta keeps the agreement exactly when the executor does not ignore the merged
      register, or already shows it. */
  lemma RemoteAgreesIff(sh: Shard, d: Delta)
    requires Agreement(sh) && d.value.crdt.Lww?
    ensures Agreement(Remote(sh, d)) <==>
              (Ignored(Merged(sh.rep, d)) ==> Shown(sh.store, d.key) == Live(Merged(sh.rep, d).crdt.reg))
  {
    var next := Remote(sh, d);
    assert Registered(next.rep, d.key) == Live(Merged(sh.rep, d).crdt.reg);
    forall k | k != d.key ensures Shown(next.store, k) == Registered(next.rep, k) {
      assert Shown(sh.store, k) == Registered(sh.rep, k);
    }
    if Agreement(next) {
      assert Shown(next.store, d.key) == Registered(next.rep, d.key);
    }
  }

  /** A delta no newer than the local register, already seen or late, changes neither the
      register nor what the executor shows. */
  lemma StaleDeltaIgnored(sh: Shard, d: Delta)
    requires Agreement(sh) && d.value.crdt.Lww?
    requires d.key in sh.rep.keys && !Before(sh.rep.keys[d.key].crdt.reg.stamp, d.value.crdt.reg.stamp)
    ensures Remote(sh, d).rep.keys[d.key].crdt == sh.rep.keys[d.key].crdt
    ensures Remote(sh, d).store == sh.store
    ensures Agreement(Remote(sh, d))
  {
    var live := Live(sh.rep.keys[d.key].crdt.reg);
    assert Shown(sh.store, d.key) == live;
    assert Merged(sh.rep, d).crdt.reg == sh.rep.keys[d.key].crdt.reg;
    RemoteAgreesIff(sh, d);
  }

  // ---------------------------------------------------------------- expiry

  /** The values of one key that a replica's own writes with these expiries produce, one after another. */
  function Rewrites(r: Rep, k: Key, v: seq<Byte>, es: seq<Option<nat>>): (vs: seq<Replicated>)
    ensures |vs| == |es| && forall x :: 0 <= x < |es| ==> vs[x].expiry == es[x]
    decreases |es|
  {
    if es == [] then []
    else
      var next := AfterWrite(r, k, v, es[0]);
      [next.keys[k]] + Rewrites(next, k, v, es[1..])
  }

  /** A local write replaces the expiry, a delta merges it. A peer that receives all of a writer's
      deltas for a key, in any order and any number of times, ends with the writer's expiry exactly
      when the writer's last expiry is the latest of them all. */
  lemma ExpiryFollowsIff(r: Rep, k: Key, v: seq<Byte>, es: seq<Option<nat>>, arrival: seq<Replicated>)
    requires es != [] && arrival != [] && forall x :: x in arrival <==> x in Rewrites(r, k, v, es)
    ensures MergeAll(arrival).expiry == es[|es| - 1] <==> forall x :: 0 <= x < |es| ==> LaterExpiry(es[|es| - 1], es[x])
  {
    hide Rewrites;
    var vs, last := Rewrites(r, k, v, es), es[|es| - 1];
    MergeAllExpiry(arrival);
    var e := MergeAll(arrival).expiry;
    forall x | 0 <= x < |es| ensures LaterExpiry(e, es[x]) { assert vs[x] in arrival; }
    var y :| 0 <= y < |arrival| && arrival[y].expiry == e;
    assert arrival[y] in vs;
    var x :| 0 <= x < |vs| && vs[x] == arrival[y];
    assert es[x] == e;
  }

  /** The writer last wrote without an expiry and has none; the peer keeps the earlier one. */
  lemma ExpiryStays(r: Rep, k: Key, v: seq<Byte>)
    ensures var es := [Some(5000), None];
            MergeAll(Rewrites(r, k, v, es)).expiry != es[1]
  {
    hide MergeAll, Rewrites, LaterExpiry;
    var es: seq<Option<nat>> := [Some(5000), None];
    ExpiryFollowsIff(r, k, v, es, Rewrites(r, k, v, es));
    assert !LaterExpiry(es[1], es[0]) by { NoneIsNotLater(5000); }
  }

  lemma NoneIsNotLater(e: nat)
    ensures !LaterExpiry(None, Some(e))
  {
  }

  /** Commands on agreeing shards that are not recorded as what they did: a refused SET NX, an MSET and a
      FLUSHDB. */
  lemma UnrecordedShows(k: Key, v: seq<Byte>, u: seq<Byte>)
    requires u != v
    ensures var none: Shard := Shard(Rep(0, 0, map[], []), map[]);
            var one := Local(none, Set(k, v, false, false, false));
            && Agreement(none) && Agreement(one)
            && !Agreement(Local(one, Set(k, u, true, false, false)))
            && !Agreement(Local(none, MSet([(k, v)])))
            && !Agreement(Local(one, Flush))
  {
    var none: Shard := Shard(Rep(0, 0, map[], []), map[]);
    var set' := Set(k, v, false, false, false);
    var one := Local(none, set');
    assert Agreement(none);
    LocalAgreesIff(none, set');
    assert one.store == map[k := Str(v)];
    PutAllAt(map[], [(k, v)], k);
    assert LastFor([(k, v)], k) == Some(v) by {
      var ps: seq<(Key, seq<Byte>)> := [(k, v)];
      assert ps[1..] == [];
    }
    hide Agreement, Local, PutAll, LastFor;
    LocalAgreesIff(one, Set(k, u, true, false, false));
    LocalAgreesIff(none, MSet([(k, v)]));
    LocalAgreesIff(one, Flush);
  }

  /** After recovery the executor shows every hash's live fields, and every live string that has no expiry or
      one of at least a second. */
  lemma RecoveredShows(image: map<Key, Replicated>, k: Key)
    requires k in image
    ensures match image[k].crdt
            case Hash(fields) => ShowsHash(Recovered(image), k, fields)
            case Lww(reg) =>
              var kept := image[k].expiry.None? || 1000 <= image[k].expiry.value < (I64_MAX / 1000 + 1) * 1000;
              Shown(Recovered(image), k) == if kept then Live(reg) else None
  {
  }

  /** A merged string with an expiry reaches the executor exactly when the expiry is at least a second and its
      milliseconds fit an i64. */
  lemma ExpiryShowsIff(st: Store, k: Key, v: Replicated)
    requires v.crdt.Lww? && Live(v.crdt.reg).Some?
    ensures StringThrough(st, k, v) ==
            if v.expiry.None? || 1000 <= v.expiry.value < (I64_MAX / 1000 + 1) * 1000
            then st[k := Str(Live(v.crdt.reg).value)] else st
  {
  }
}
