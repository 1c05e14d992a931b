/** When other clients' commands disturb an EXEC (src/production/connection_optimized.rs). */
module Isolation {
  import opened Numbers
  import opened Resp
  import opened Executor
  import opened Transactions

  // ---------------------------------------------------------------- what a command depends on

  ghost predicate SameOn(a: Store, b: Store, ks: iset<Key>) {
    forall k :: k in ks ==> Find(k, a) == Find(k, b)
  }

  ghost predicate Inside(c: Command, ks: iset<Key>) {
    !c.DbSize? && !c.Flush? && forall k :: k in Keys(c) ==> k in ks
  }

  lemma {:induction false} PresentLocal(a: Store, b: Store, qs: seq<Key>)
    requires forall k :: k in qs ==> Find(k, a) == Find(k, b)
    ensures PresentCount(a, qs) == PresentCount(b, qs)
  {
    if qs != [] {
      assert Find(qs[0], a) == Find(qs[0], b);
      PresentLocal(a, b, qs[1..]);
    }
  }

  lemma {:induction false} RemovedLocal(a: Store, b: Store, qs: seq<Key>)
    requires forall k :: k in qs ==> Find(k, a) == Find(k, b)
    ensures RemovedCount(a, qs) == RemovedCount(b, qs)
  {
    if qs != [] {
      assert Find(qs[0], a) == Find(qs[0], b);
      forall k | k in qs[1..] ensures Find(k, a - {qs[0]}) == Find(k, b - {qs[0]}) {
        assert Find(k, a) == Find(k, b);
      }
      RemovedLocal(a - {qs[0]}, b - {qs[0]}, qs[1..]);
    }
  }

  lemma {:induction false} LastForKeys(ps: seq<(Key, seq<Byte>)>, k: Key)
    ensures LastFor(ps, k).Some? ==> k in Keys(MSet(ps))
  {
    if ps != [] {
      LastForKeys(ps[1..], k);
      assert ps[0] in ps && forall p :: p in ps[1..] ==> p in ps;
    }
  }

  /** A command with bounded keys answers from those keys alone. */
  lemma ReplyLocal(c: Command, a: Store, b: Store, ks: iset<Key>)
    requires Inside(c, ks) && SameOn(a, b, ks)
    ensures Reply(c, a) == Reply(c, b)
  {
    if c.MGet? {
      forall i | 0 <= i < |c.keys| ensures MGetView(c.keys[i], a) == MGetView(c.keys[i], b) {
        assert c.keys[i] in Keys(c);
      }
      assert MGetViews(c.keys, a) == MGetViews(c.keys, b);
    } else if c.Del? || c.Exists? {
      assert forall k :: k in c.keys ==> k in Keys(c);
      RemovedLocal(a, b, c.keys);
      PresentLocal(a, b, c.keys);
    } else if OneKey(c) {
      assert c.key in Keys(c);
    }
  }

  /** What any command leaves at a key depends on what was at that key, and on nothing else. */
  lemma AfterAtKey(c: Command, a: Store, b: Store, k: Key)
    requires Find(k, a) == Find(k, b)
    ensures Find(k, After(c, a)) == Find(k, After(c, b))
  {
    if c.Del? {
      RemoveAllAt(a, c.keys, k);
      RemoveAllAt(b, c.keys, k);
    } else if c.MSet? {
      PutAllAt(a, c.pairs, k);
      PutAllAt(b, c.pairs, k);
    }
  }

  /** No command makes a key hold something other than a string. */
  lemma AfterMakesStrings(c: Command, a: Store, k: Key)
    requires NotString(k, After(c, a))
    ensures Find(k, After(c, a)) == Find(k, a)
  {
    if c.Del? {
      RemoveAllAt(a, c.keys, k);
    } else if c.MSet? {
      PutAllAt(a, c.pairs, k);
    }
  }

  lemma {:induction false} RunAllMakesStrings(cs: seq<Command>, a: Store, k: Key)
    requires NotString(k, RunAll(a, cs))
    ensures Find(k, RunAll(a, cs)) == Find(k, a)
    decreases |cs|
  {
    hide After;
    if cs != [] {
      RunAllMakesStrings(cs[1..], After(cs[0], a), k);
      AfterMakesStrings(cs[0], a, k);
    }
  }

  /** A command with bounded keys leaves the others alone. */
  lemma AfterElsewhere(c: Command, a: Store, ks: iset<Key>, k: Key)
    requires Inside(c, ks) && k !in ks
    ensures Find(k, After(c, a)) == Find(k, a)
  {
    if c.Del? {
      RemoveAllAt(a, c.keys, k);
      assert k in c.keys ==> k in Keys(c);
    } else if c.MSet? {
      PutAllAt(a, c.pairs, k);
      LastForKeys(c.pairs, k);
    } else if OneKey(c) {
      assert c.key in Keys(c);
    }
  }

  lemma {:induction false} RunAllAtKey(cs: seq<Command>, a: Store, b: Store, k: Key)
    requires Find(k, a) == Find(k, b)
    ensures Find(k, RunAll(a, cs)) == Find(k, RunAll(b, cs))
    decreases |cs|
  {
    hide After, Find;
    if cs != [] {
      AfterAtKey(cs[0], a, b, k);
      RunAllAtKey(cs[1..], After(cs[0], a), After(cs[0], b), k);
    }
  }

  lemma EffectSame(r: Request, a: Store, b: Store, own: iset<Key>)
    requires (r.Plain? ==> Inside(r.command, own)) && SameOn(a, b, own)
    ensures Served(r, a) == Served(r, b) && SameOn(Effect(r, a), Effect(r, b), own)
    ensures forall k :: k !in own ==> Find(k, Effect(r, a)) == Find(k, a)
  {
    hide After, Reply, Inside, Find;
    if r.Plain? {
      ReplyLocal(r.command, a, b, own);
      forall k | k in own ensures Find(k, After(r.command, a)) == Find(k, After(r.command, b)) {
        AfterAtKey(r.command, a, b, k);
      }
      forall k | k !in own ensures Find(k, After(r.command, a)) == Find(k, a) {
        AfterElsewhere(r.command, a, own, k);
      }
    }
  }

  // ---------------------------------------------------------------- harmless commands

  /** The commands leave every key in `own` as it was, whatever the store. */
  ghost predicate Harmless(cs: seq<Command>, own: iset<Key>) {
    forall st :: SameOn(RunAll(st, cs), st, own)
  }

  ghost predicate Undisturbed(gaps: Gaps, own: iset<Key>, i: nat) {
    forall j: nat :: i <= j ==> Harmless(gaps(j), own)
  }

  /** Reads are harmless, and so is any command with bounded keys that keeps away from `own`. */
  ghost predicate Polite(c: Command, own: iset<Key>) {
    c.Get? || c.MGet? || c.Exists? || c.DbSize? || Inside(c, iset k | k !in own)
  }

  lemma PoliteKeeps(c: Command, st: Store, own: iset<Key>)
    requires Polite(c, own)
    ensures SameOn(After(c, st), st, own)
  {
    if Inside(c, iset k | k !in own) {
      forall k | k in own ensures Find(k, After(c, st)) == Find(k, st) {
        AfterElsewhere(c, st, (iset x | x !in own), k);
      }
    }
  }

  lemma {:induction false} PoliteHarmless(cs: seq<Command>, own: iset<Key>)
    requires forall i :: 0 <= i < |cs| ==> Polite(cs[i], own)
    ensures Harmless(cs, own)
    decreases |cs|
  {
    hide Polite, After, Find;
    if cs != [] {
      PoliteHarmless(cs[1..], own);
      forall st ensures SameOn(RunAll(st, cs), st, own) {
        PoliteKeeps(cs[0], st, own);
        assert SameOn(RunAll(After(cs[0], st), cs[1..]), After(cs[0], st), own);
      }
    }
  }

  /** A SET that applies is what a GET shows after any run of other clients' commands that keep away from the
      key. */
  lemma ReadYourWrite(c: Command, st: Store, cs: seq<Command>)
    requires c.Set? && SetApplies(c, st) && forall i :: 0 <= i < |cs| ==> Polite(cs[i], iset{c.key})
    ensures Reply(Get(c.key), RunAll(After(c, st), cs)) == BulkString(c.value)
  {
    PoliteHarmless(cs, iset{c.key});
    SetShows(c, st);
    hide RunAll, After, SetApplies;
    assert SameOn(RunAll(After(c, st), cs), After(c, st), iset{c.key});
  }

  // ---------------------------------------------------------------- the queue

  ghost predicate QueueInside(q: seq<Request>, own: iset<Key>) {
    forall i :: 0 <= i < |q| && q[i].Plain? ==> Inside(q[i].command, own)
  }

  lemma RunNone(st: Store)
    ensures RunAll(st, []) == st
  {
  }

  /** Undisturbed, the queue answers as if it ran alone and leaves its own keys so; every other key is
      as if only the others had run. */
  lemma {:induction false} QueueIsolated(
    st: Store, solo: Store, q: seq<Request>, gaps: Gaps, i: nat, n: nat, own: iset<Key>)
    requires QueueInside(q, own) && Undisturbed(gaps, own, i) && SameOn(st, solo, own)
    ensures RunQueue(st, q, gaps, i).replies == RunQueue(solo, q, ALONE, n).replies
    ensures SameOn(RunQueue(st, q, gaps, i).store, RunQueue(solo, q, ALONE, n).store, own)
    ensures forall k :: k !in own ==> Find(k, RunQueue(st, q, gaps, i).store) == Find(k, Later(st, gaps, i, |q|))
    ensures forall k :: k !in own ==> Find(k, RunQueue(solo, q, ALONE, n).store) == Find(k, solo)
    decreases |q|
  {
    hide Effect, Served, RunAll, Inside, Find, Later;
    LaterStep(st, gaps, i, 0);
    if q != [] {
      var now := RunAll(st, gaps(i));
      assert Harmless(gaps(i), own);
      assert SameOn(now, solo, own);
      EffectSame(q[0], now, solo, own);
      EffectSame(q[0], solo, now, own);
      RunNone(solo);
      var next, next' := Effect(q[0], now), Effect(q[0], solo);
      QueueIsolated(next, next', q[1..], gaps, i + 1, n + 1, own);
      LaterStep(st, gaps, i, |q| - 1);
      forall k | k !in own
        ensures Find(k, Later(next, gaps, i + 1, |q| - 1)) == Find(k, Later(now, gaps, i + 1, |q| - 1))
      {
        LaterAtKey(next, now, gaps, i + 1, |q| - 1, k);
      }
    }
  }

  lemma LaterAtKey(a: Store, b: Store, gaps: Gaps, i: nat, n: nat, k: Key)
    requires Find(k, a) == Find(k, b)
    ensures Find(k, Later(a, gaps, i, n)) == Find(k, Later(b, gaps, i, n))
  {
    RunAllAtKey(Foreign(gaps, i, n), a, b, k);
  }

  ghost predicate QueueAsAlone(st: Store, q: seq<Request>, gaps: Gaps, i: nat, n: nat) {
    RunQueue(st, q, gaps, i).replies == RunQueue(st, q, ALONE, n).replies
  }

  /** `n` UNWATCHes and a GET. */
  function Probe(n: nat, k: Key): seq<Request> {
    if n == 0 then [Plain(Get(k))] else [Unwatch] + Probe(n - 1, k)
  }

  lemma {:induction false} ProbeInside(n: nat, k: Key, own: iset<Key>)
    requires k in own
    ensures QueueInside(Probe(n, k), own) && |Probe(n, k)| == n + 1
  {
    if n > 0 { ProbeInside(n - 1, k, own); }
  }

  /** The probe's last answer shows its key after all gaps up to then. */
  lemma {:induction false} ProbeShows(st: Store, gaps: Gaps, i: nat, n: nat, k: Key)
    ensures |RunQueue(st, Probe(n, k), gaps, i).replies| == n + 1
    ensures RunQueue(st, Probe(n, k), gaps, i).replies[n] == GetView(k, Later(st, gaps, i, n + 1))
    decreases n
  {
    hide RunAll, Later, GetView;
    var now := RunAll(st, gaps(i));
    LaterStep(st, gaps, i, n);
    LaterStep(now, gaps, i + 1, 0);
    var q := Probe(n, k);
    if n > 0 {
      assert q[0] == Unwatch && q[1..] == Probe(n - 1, k);
      ProbeShows(now, gaps, i + 1, n - 1, k);
      assert RunQueue(st, q, gaps, i).replies == [OK] + RunQueue(now, Probe(n - 1, k), gaps, i + 1).replies;
    } else {
      assert q[1..] == [];
      assert RunQueue(st, q, gaps, i).replies == [GetView(k, now)] + RunQueue(now, [], gaps, i + 1).replies;
    }
  }

  lemma {:induction false} LaterAlone(st: Store, i: nat, n: nat)
    ensures Later(st, ALONE, i, n) == st
    decreases n
  {
    LaterStep(st, ALONE, i, if n > 0 then n - 1 else 0);
    if n > 0 { LaterAlone(st, i + 1, n - 1); }
  }

  /** Undisturbed gaps leave the keys alone however many there are. */
  lemma {:induction false} LaterUndisturbed(st: Store, gaps: Gaps, i: nat, n: nat, own: iset<Key>)
    requires forall j: nat :: i <= j < i + n ==> Harmless(gaps(j), own)
    ensures SameOn(Later(st, gaps, i, n), st, own)
    decreases n
  {
    hide RunAll, Later, Find;
    LaterStep(st, gaps, i, if n > 0 then n - 1 else 0);
    if n > 0 {
      assert Harmless(gaps(i), own);
      LaterUndisturbed(RunAll(st, gaps(i)), gaps, i + 1, n - 1, own);
    }
  }

  /** The first gap that disturbs a key shows in the answer of a probe. */
  lemma DisturbanceShows(gaps: Gaps, i: nat, j: nat, n: nat, own: iset<Key>) returns (st: Store, q: seq<Request>)
    requires i <= j && !Harmless(gaps(j), own)
    requires forall x: nat :: i <= x < j ==> Harmless(gaps(x), own)
    ensures QueueInside(q, own) && !QueueAsAlone(st, q, gaps, i, n)
  {
    hide RunAll, Later, RunQueue;
    st :| !SameOn(RunAll(st, gaps(j)), st, own);
    var k :| k in own && Find(k, RunAll(st, gaps(j))) != Find(k, st);
    q := Probe(j - i, k);
    ProbeInside(j - i, k, own);
    ProbeShows(st, gaps, i, j - i, k);
    ProbeShows(st, ALONE, n, j - i, k);
    LaterAlone(st, n, j - i + 1);
    LaterUndisturbed(st, gaps, i, j - i, own);
    var before := Later(st, gaps, i, j - i);
    LaterSum(st, gaps, i, j - i, 1);
    LaterStep(before, gaps, j, 0);
    LaterStep(RunAll(before, gaps(j)), gaps, j + 1, 0);
    RunAllAtKey(gaps(j), before, st, k);
    var after := RunAll(before, gaps(j));
    if NotString(k, after) { RunAllMakesStrings(gaps(j), before, k); }
    assert GetView(k, after) != GetView(k, st);
  }

  lemma {:induction false} LaterSum(st: Store, gaps: Gaps, i: nat, m: nat, n: nat)
    ensures Later(Later(st, gaps, i, m), gaps, i + m, n) == Later(st, gaps, i, m + n)
    decreases m
  {
    hide Later, RunAll;
    LaterStep(st, gaps, i, 0);
    if m > 0 {
      LaterStep(st, gaps, i, m - 1);
      LaterStep(st, gaps, i, m - 1 + n);
      LaterSum(RunAll(st, gaps(i)), gaps, i + 1, m - 1, n);
    }
  }

  lemma {:induction false} FirstDisturbance(gaps: Gaps, own: iset<Key>, i: nat, j: nat) returns (x: nat)
    requires i <= j && !Harmless(gaps(j), own)
    ensures i <= x <= j && !Harmless(gaps(x), own) && forall y: nat :: i <= y < x ==> Harmless(gaps(y), own)
    decreases j - i
  {
    hide Harmless;
    if !Harmless(gaps(i), own) { return i; }
    x := FirstDisturbance(gaps, own, i + 1, j);
  }

  /** Every queue over these keys answers as if it ran alone, from every store, exactly when nothing the
      others run changes one of the keys. */
  lemma QueueIsolatedIff(gaps: Gaps, i: nat, n: nat, own: iset<Key>)
    ensures (forall st, q :: QueueInside(q, own) ==> QueueAsAlone(st, q, gaps, i, n)) <==> Undisturbed(gaps, own, i)
  {
    hide RunQueue, Harmless, QueueInside;
    if Undisturbed(gaps, own, i) {
      forall st, q | QueueInside(q, own) ensures QueueAsAlone(st, q, gaps, i, n) {
        QueueIsolated(st, st, q, gaps, i, n, own);
      }
    } else {
      var j: nat :| i <= j && !Harmless(gaps(j), own);
      var x := FirstDisturbance(gaps, own, i, j);
      var st, q := DisturbanceShows(gaps, i, x, n, own);
    }
  }

  // ---------------------------------------------------------------- EXEC

  ghost predicate SessionInside(s: Session, own: iset<Key>) {
    QueueInside(s.queue, own) && forall i :: 0 <= i < |s.watched| ==> s.watched[i].0 in own
  }

  lemma {:induction false} CheckIsolated(
    st: Store, solo: Store, ws: seq<(Key, Value)>, gaps: Gaps, i: nat, n: nat, own: iset<Key>)
    requires (forall x :: 0 <= x < |ws| ==> ws[x].0 in own) && Undisturbed(gaps, own, i) && SameOn(st, solo, own)
    ensures CheckWatches(st, ws, gaps, i).ok == CheckWatches(solo, ws, ALONE, n).ok
    ensures CheckWatches(solo, ws, ALONE, n).store == solo
    ensures SameOn(CheckWatches(st, ws, gaps, i).store, solo, own)
    decreases |ws|
  {
    hide RunAll, RespEqual;
    if ws != [] {
      var now := RunAll(st, gaps(i));
      assert Harmless(gaps(i), own);
      RunNone(solo);
      assert Find(ws[0].0, now) == Find(ws[0].0, solo);
      CheckIsolated(now, solo, ws[1..], gaps, i + 1, n + 1, own);
    }
  }

  /** EXEC replies as if undisturbed, and leaves that store followed by the others' commands. */
  ghost predicate ExecAsAlone(s: Session, st: Store, gaps: Gaps) {
    && ExecStep(s, st, gaps).reply == ExecStep(s, st, ALONE).reply
    && exists n: nat :: ExecStep(s, st, gaps).store == Later(ExecStep(s, st, ALONE).store, gaps, 0, n)
  }

  lemma Stitch(a: Store, b: Store, own: iset<Key>)
    requires SameOn(a, b, own) && forall k :: k !in own ==> Find(k, a) == Find(k, b)
    ensures a == b
  {
    ExtEq(a, b);
  }

  lemma ExecIsolated(s: Session, st: Store, gaps: Gaps, own: iset<Key>)
    requires SessionInside(s, own) && Undisturbed(gaps, own, 0)
    ensures ExecAsAlone(s, st, gaps)
  {
    hide QueueInside, RunQueue, CheckWatches, Find, Later, Harmless;
    var x, y := ExecStep(s, st, gaps), ExecStep(s, st, ALONE);
    LaterStep(st, gaps, 0, 0);
    if s.errors {
      assert x.store == Later(y.store, gaps, 0, 0);
    } else {
      var c := CheckWatches(st, s.watched, gaps, 0);
      CheckStore(st, s.watched, gaps, 0);
      CheckIsolated(st, st, s.watched, gaps, 0, 0, own);
      if !c.ok {
        assert x.store == Later(y.store, gaps, 0, c.i);
      } else {
        var n := c.i + |s.queue|;
        QueueIsolated(c.store, st, s.queue, gaps, c.i, CheckWatches(st, s.watched, ALONE, 0).i, own);
        LaterSum(st, gaps, 0, c.i, |s.queue|);
        LaterUndisturbed(y.store, gaps, 0, n, own);
        forall k | k !in own ensures Find(k, x.store) == Find(k, Later(y.store, gaps, 0, n)) {
          LaterAtKey(y.store, st, gaps, 0, n, k);
        }
        Stitch(x.store, Later(y.store, gaps, 0, n), own);
      }
    }
  }

  /** Isolation, exactly: every EXEC over these keys is as if undisturbed, whatever it watches and has
      queued, precisely when nothing the others run during it changes one of the keys. Their reads of
      the keys, and anything on other keys, do no harm. */
  lemma ExecIsolatedIff(gaps: Gaps, own: iset<Key>)
    ensures (forall s, st :: SessionInside(s, own) ==> ExecAsAlone(s, st, gaps)) <==> Undisturbed(gaps, own, 0)
  {
    hide RunQueue, Harmless, QueueInside, Later;
    if Undisturbed(gaps, own, 0) {
      forall s, st | SessionInside(s, own) ensures ExecAsAlone(s, st, gaps) { ExecIsolated(s, st, gaps, own); }
    } else {
      var j: nat :| !Harmless(gaps(j), own);
      var x := FirstDisturbance(gaps, own, 0, j);
      var st, q := DisturbanceShows(gaps, 0, x, 0, own);
      var s := Session(true, q, false, []);
      assert SessionInside(s, own);
      assert ExecStep(s, st, gaps).reply == Array(RunQueue(st, q, gaps, 0).replies);
      assert ExecStep(s, st, ALONE).reply == Array(RunQueue(st, q, ALONE, 0).replies);
      assert !ExecAsAlone(s, st, gaps);
    }
  }

  const KEY: Key := [107]
  const SEEN: seq<Byte> := [49]
  const LATE: seq<Byte> := [50]
  const HELD: Store := map[KEY := Str(SEEN)]

  /** Before the connection's second store operation another client overwrites the key. */
  const INTRUDER: Gaps := i => if i == 1 then [Set(KEY, LATE, false, false, false)] else []

  /** WATCH the key, open a transaction, queue a GET of it. */
  ghost function Guarded(): seq<(Request, Gaps)> {
    [(Watch([KEY]), ALONE), (Multi, ALONE), (Plain(Get(KEY)), ALONE)]
  }

  lemma GuardedSession()
    ensures var c := Serve(HELD, Guarded());
            && c.session == Session(true, [Plain(Get(KEY))], false, [(KEY, BulkString(SEEN))])
            && c.store == HELD && c.snaps == [(KEY, BulkString(SEEN))]
            && c.log == [Entry(Watch([KEY]), OK), Entry(Multi, OK), Entry(Plain(Get(KEY)), QUEUED)]
  {
    var xs: seq<(Request, Gaps)> := Guarded();
    var two: seq<(Request, Gaps)>, one: seq<(Request, Gaps)> := xs[..2], xs[..1];
    assert two[..1] == one;
    RunNone(HELD);
    LaterAlone(HELD, 0, 1);
    hide RunAll, Later;
    var c0 := Serve(HELD, []);
    assert TakeSnapshots(HELD, [KEY], ALONE, 0) == Snapshots([(KEY, BulkString(SEEN))], HELD) by {
      assert [KEY][1..] == [];
      assert TakeSnapshots(HELD, [], ALONE, 1) == Snapshots([], HELD);
    }
    var c1 := Advance(c0, Watch([KEY]), ALONE);
    assert Serve(HELD, one) == c1;
    assert Shown([KEY], HELD, ALONE) == [(KEY, BulkString(SEEN))];
    var c2 := Advance(c1, Multi, ALONE);
    assert Serve(HELD, two) == c2;
    assert Serve(HELD, xs) == Advance(c2, Plain(Get(KEY)), ALONE);
  }

  /** WATCH does not protect a transaction from a write that comes after its last check: the key still
      shows its snapshot when it is compared, and EXEC goes on to answer with the other value. */
  lemma WatchMissesLateWrite()
    ensures var c := Serve(HELD, Guarded());
            && c.snaps == [(KEY, BulkString(SEEN))] && Matches(c.store, c.snaps, INTRUDER, 0, 0)
            && Handle(c.session, Exec, c.store, INTRUDER).reply == Array([BulkString(LATE)])
            && Handle(c.session, Exec, c.store, ALONE).reply == Array([BulkString(SEEN)])
  {
    GuardedSession();
    var ws: seq<(Key, Value)>, q: seq<Request> := [(KEY, BulkString(SEEN))], [Plain(Get(KEY))];
    hide Serve;
    RunNone(HELD);
    assert ws[1..] == [] && q[1..] == [];
    assert CheckWatches(HELD, ws, INTRUDER, 0) == Checked(true, HELD, 1);
    assert CheckWatches(HELD, ws, ALONE, 0) == Checked(true, HELD, 1);
    CheckIff(HELD, ws, INTRUDER, 0);
    QueueEnd(HELD, ALONE, 2);
    QueueEnd(HELD[KEY := Str(LATE)], INTRUDER, 2);
    assert RunAll(HELD, INTRUDER(1)) == HELD[KEY := Str(LATE)];
    assert RunQueue(HELD, q, INTRUDER, 1).replies == [BulkString(LATE)];
    assert RunQueue(HELD, q, ALONE, 1).replies == [BulkString(SEEN)];
  }
}
