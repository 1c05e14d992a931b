/** Hot key detection and per-key replication factors
    (src/production/hotkey.rs, src/production/adaptive_replication.rs). */
module HotKeys {
  import opened Numbers
  import opened Executor

  /** Counters saturate at the largest u64. */
  function Saturate(n: nat): nat {
    if n <= U64_MAX then n else U64_MAX
  }

  function Minus(a: nat, b: nat): nat {
    if a < b then 0 else a - b
  }

  datatype Metrics = Metrics(readCount: nat, writeCount: nat, first: nat, last: nat)

  datatype Config = Config(
    baseRf: nat, hotRf: nat, recalcEvery: nat,
    window: nat, threshold: real, cleanupEvery: nat, maxTracked: nat)

  const DEFAULT := Config(3, 5, 5000, 10000, 100.0, 5000, 10000)
  const HIGH_THROUGHPUT := Config(3, 5, 2000, 5000, 50.0, 2500, 20000)
  const LOW_LATENCY := Config(2, 4, 1000, 3000, 100.0, 1000, 10000)

  datatype Detector = Detector(counts: map<Key, Metrics>, lastCleanup: nat)

  /** The manager's state: its detector, the overrides, and the lifetime counters. */
  datatype Manager = Manager(
    detector: Detector, overrides: map<Key, nat>, lastRecalc: nat, promotions: nat, demotions: nat)

  const START := Manager(Detector(map[], 0), map[], 0, 0, 0)

  // ---------------------------------------------------------------- detection

  function Recorded(m: Metrics, isWrite: bool, now: nat): Metrics {
    if isWrite then m.(writeCount := Saturate(m.writeCount + 1), last := now)
    else m.(readCount := Saturate(m.readCount + 1), last := now)
  }

  /** Accesses per second since the first one. */
  function Rate(m: Metrics, now: nat): real {
    var total := Saturate(m.readCount + m.writeCount);
    var lasted := if Minus(now, m.first) < 1 then 1 else Minus(now, m.first);
    total as real * 1000.0 / lasted as real
  }

  function Cleaned(counts: map<Key, Metrics>, window: nat, now: nat): map<Key, Metrics> {
    map k | k in counts && counts[k].last >= Minus(now, window) :: counts[k]
  }

  predicate CleanupDue(g: Config, d: Detector, now: nat) {
    Minus(now, d.lastCleanup) >= g.cleanupEvery
  }

  function Swept(g: Config, d: Detector, now: nat): Detector {
    if CleanupDue(g, d, now) then Detector(Cleaned(d.counts, g.window, now), now) else d
  }

  function Accessed(g: Config, d: Detector, k: Key, isWrite: bool, now: nat): Detector {
    var s := Swept(g, d, now);
    if k in s.counts then s.(counts := s.counts[k := Recorded(s.counts[k], isWrite, now)])
    else if |s.counts| < g.maxTracked then
      s.(counts := s.counts[k := Metrics(if isWrite then 0 else 1, if isWrite then 1 else 0, now, now)])
    else s
  }

  function Hot(g: Config, d: Detector, now: nat): set<Key> {
    set k | k in d.counts && Rate(d.counts[k], now) >= g.threshold
  }

  // ---------------------------------------------------------------- replication factors

  /** The overrides once the keys in `hot` have one. */
  function Promoted(was: map<Key, nat>, hot: set<Key>, rf: nat): map<Key, nat> {
    map k | k in was.Keys + hot :: if k in was then was[k] else rf
  }

  lemma PromotedStep(was: map<Key, nat>, done: set<Key>, k: Key, rf: nat)
    ensures var p := Promoted(was, done, rf);
            && (k in p <==> k in was || k in done)
            && Promoted(was, done + {k}, rf) == if k in p then p else p[k := rf]
  {
    var p, q := Promoted(was, done, rf), Promoted(was, done + {k}, rf);
    if k in p { assert q.Keys == p.Keys; } else { assert q.Keys == p.Keys + {k}; }
  }

  lemma AddedStep(done: set<Key>, keys: set<Key>, k: Key)
    requires k !in done
    ensures |(done + {k}) - keys| == |done - keys| + if k in keys then 0 else 1
  {
    if k in keys {
      assert (done + {k}) - keys == done - keys;
    } else {
      assert (done + {k}) - keys == (done - keys) + {k};
    }
  }

  lemma Moved(hot: set<Key>, rest: set<Key>, done: set<Key>, k: Key)
    requires k in rest && done !! rest && done + rest == hot
    ensures (done + {k}) !! (rest - {k}) && (done + {k}) + (rest - {k}) == hot && |rest - {k}| < |rest|
  {
  }

  lemma PromotedNone(was: map<Key, nat>, rf: nat)
    ensures Promoted(was, {}, rf) == was
  {
  }

  lemma DemotedStep(was: map<Key, nat>, done: set<Key>, k: Key)
    requires k !in done
    ensures was - (done + {k}) == (was - done) - {k} && |done + {k}| == |done| + 1
  {
  }

  /** Promoting and then dropping what is not hot leaves the hot keys. */
  lemma PromotedThenDropped(was: map<Key, nat>, hot: set<Key>, rf: nat)
    ensures var p := Promoted(was, hot, rf);
            && p.Keys - hot == was.Keys - hot
            && p - (p.Keys - hot) == map k | k in hot :: if k in was then was[k] else rf
  {
  }

  function Recalculated(g: Config, m: Manager, now: nat): Manager {
    var hot := Hot(g, m.detector, now);
    m.(overrides := map k | k in hot :: if k in m.overrides then m.overrides[k] else g.hotRf,
       promotions := m.promotions + |hot - m.overrides.Keys|,
       demotions := m.demotions + |m.overrides.Keys - hot|)
  }

  predicate RecalcDue(g: Config, m: Manager, now: nat) {
    Minus(now, m.lastRecalc) >= g.recalcEvery
  }

  function Observed(g: Config, m: Manager, k: Key, isWrite: bool, now: nat): Manager {
    var n := m.(detector := Accessed(g, m.detector, k, isWrite, now));
    if RecalcDue(g, m, now) then Recalculated(g, n, now).(lastRecalc := now) else n
  }

  function FactorOf(g: Config, m: Manager, k: Key): nat {
    if k in m.overrides then m.overrides[k] else g.baseRf
  }

  // ---------------------------------------------------------------- the two objects

  class HotKeyDetector {
    const config: Config
    var counts: map<Key, Metrics>
    var lastCleanup: nat

    ghost function State(): Detector
      reads this
    {
      Detector(counts, lastCleanup)
    }

    constructor (config: Config)
      ensures this.config == config && State() == Detector(map[], 0)
    {
      this.config := config;
      counts, lastCleanup := map[], 0;
    }

    method CleanupStale(now: nat)
      modifies this`counts
      ensures counts == Cleaned(old(counts), config.window, now)
    {
      var start := Minus(now, config.window);
      counts := map k | k in counts && counts[k].last >= start :: counts[k];
    }

    method RecordAccess(k: Key, isWrite: bool, now: nat)
      modifies this
      ensures State() == Accessed(config, old(State()), k, isWrite, now)
    {
      if Minus(now, lastCleanup) >= config.cleanupEvery {
        CleanupStale(now);
        lastCleanup := now;
      }
      if k in counts {
        counts := counts[k := Recorded(counts[k], isWrite, now)];
      } else if |counts| < config.maxTracked {
        counts := counts[k := Metrics(if isWrite then 0 else 1, if isWrite then 1 else 0, now, now)];
      }
    }

    /** Scans the tracked keys in any order. */
    method GetHotKeys(now: nat) returns (hot: set<Key>)
      ensures hot == Hot(config, State(), now)
    {
      hot := {};
      var rest := counts.Keys;
      while rest != {}
        invariant rest <= counts.Keys
        invariant hot == set k | k in counts && k !in rest && Rate(counts[k], now) >= config.threshold
        decreases |rest|
      {
        var k :| k in rest;
        if Rate(counts[k], now) >= config.threshold { hot := hot + {k}; }
        rest := rest - {k};
      }
    }
  }

  class AdaptiveReplicationManager {
    const config: Config
    const detector: HotKeyDetector
    var overrides: map<Key, nat>
    var lastRecalc: nat
    var promotions: nat
    var demotions: nat

    ghost predicate Valid()
      reads this, detector
    {
      detector.config == config
    }

    ghost function State(): Manager
      reads this, detector
    {
      Manager(detector.State(), overrides, lastRecalc, promotions, demotions)
    }

    constructor (config: Config)
      ensures Valid() && this.config == config && State() == START && fresh(detector)
    {
      this.config := config;
      detector := new HotKeyDetector(config);
      overrides, lastRecalc, promotions, demotions := map[], 0, 0, 0;
    }

    method Promote(hot: set<Key>)
      modifies this`overrides, this`promotions
      ensures overrides == Promoted(old(overrides), hot, config.hotRf)
      ensures promotions == old(promotions) + |hot - old(overrides).Keys|
    {
      hide Promoted;
      var rest := hot;
      ghost var was, done: set<Key> := overrides, {};
      PromotedNone(was, config.hotRf);
      while rest != {}
        invariant done !! rest && done + rest == hot
        invariant overrides == Promoted(was, done, config.hotRf)
        invariant promotions == old(promotions) + |done - was.Keys|
        decreases |rest|
      {
        var k :| k in rest;
        PromotedStep(was, done, k, config.hotRf);
        AddedStep(done, was.Keys, k);
        Moved(hot, rest, done, k);
        if k !in overrides {
          overrides := overrides[k := config.hotRf];
          promotions := promotions + 1;
        }
        rest, done := rest - {k}, done + {k};
      }
      assert done == hot;
    }

    method Demote(hot: set<Key>)
      modifies this`overrides, this`demotions
      ensures overrides == old(overrides) - (old(overrides).Keys - hot)
      ensures demotions == old(demotions) + |old(overrides).Keys - hot|
    {
      var toRemove := overrides.Keys - hot;
      var rest := toRemove;
      ghost var was, done: set<Key> := overrides, {};
      while rest != {}
        invariant done !! rest && done + rest == toRemove
        invariant overrides == was - done && demotions == old(demotions) + |done|
        decreases |rest|
      {
        var k :| k in rest;
        DemotedStep(was, done, k);
        Moved(toRemove, rest, done, k);
        overrides := overrides - {k};
        demotions := demotions + 1;
        rest, done := rest - {k}, done + {k};
      }
      assert done == toRemove;
    }

    method Recalculate(now: nat)
      requires Valid()
      modifies this`overrides, this`promotions, this`demotions
      ensures State() == Recalculated(config, old(State()), now)
    {
      hide Promoted, Hot;
      var hot := detector.GetHotKeys(now);
      PromotedThenDropped(overrides, hot, config.hotRf);
      Promote(hot);
      Demote(hot);
    }

    method Observe(k: Key, isWrite: bool, now: nat)
      requires Valid()
      modifies this, detector
      ensures State() == Observed(config, old(State()), k, isWrite, now)
    {
      detector.RecordAccess(k, isWrite, now);
      if Minus(now, lastRecalc) >= config.recalcEvery {
        Recalculate(now);
        lastRecalc := now;
      }
    }

    method GetRfForKey(k: Key) returns (rf: nat)
      ensures rf == FactorOf(config, State(), k)
    {
      rf := if k in overrides then overrides[k] else config.baseRf;
    }
  }

  // ---------------------------------------------------------------- runs

  datatype Op =
    | Observe(key: Key, isWrite: bool, now: nat)
    | Force(now: nat)
    | Clear

  function Step(g: Config, m: Manager, op: Op): Manager {
    match op
    case Observe(k, w, now) => Observed(g, m, k, w, now)
    case Force(now) => Recalculated(g, m, now)
    case Clear => m.(detector := m.detector.(counts := map[]), overrides := map[])
  }

  function Run(g: Config, m: Manager, ops: seq<Op>): Manager
    decreases |ops|
  {
    if ops == [] then m else Run(g, Step(g, m, ops[0]), ops[1..])
  }

  /** Every override belongs to a tracked key. */
  predicate Covered(m: Manager) {
    m.overrides.Keys <= m.detector.counts.Keys
  }

  predicate Uniform(g: Config, m: Manager) {
    && (forall k :: k in m.overrides ==> m.overrides[k] == g.hotRf)
    && |m.detector.counts| <= g.maxTracked
  }

  lemma CleanedSize(counts: map<Key, Metrics>, window: nat, now: nat)
    ensures |Cleaned(counts, window, now)| <= |counts|
  {
    var a, b := Cleaned(counts, window, now).Keys, counts.Keys;
    assert b == a + (b - a);
    assert |Cleaned(counts, window, now)| == |a| && |counts| == |b|;
  }

  lemma AccessBounded(g: Config, d: Detector, k: Key, w: bool, now: nat)
    requires |d.counts| <= g.maxTracked
    ensures |Accessed(g, d, k, w, now).counts| <= g.maxTracked
  {
    hide Cleaned;
    CleanedSize(d.counts, g.window, now);
    var s := Swept(g, d, now);
    var t := Accessed(g, d, k, w, now);
    if k in s.counts {
      assert t.counts.Keys == s.counts.Keys;
      assert |t.counts| == |t.counts.Keys| && |s.counts| == |s.counts.Keys|;
    }
  }

  /** With any configuration and any clock, the detector never tracks more than its limit and every
      override is the hot replication factor. */
  lemma {:induction false} RunUniform(g: Config, m: Manager, ops: seq<Op>)
    requires Uniform(g, m)
    ensures Uniform(g, Run(g, m, ops))
    decreases |ops|
  {
    if ops != [] {
      var op := ops[0];
      if op.Observe? { AccessBounded(g, m.detector, op.key, op.isWrite, op.now); }
      hide Accessed, Hot, Run;
      assert Uniform(g, Step(g, m, op));
      RunStep(g, m, ops);
      RunUniform(g, Step(g, m, op), ops[1..]);
    }
  }

  /** So on every run a key's replication factor is the hot one or the base one, and never below the
      base if the configuration is in order. */
  lemma RunFactors(g: Config, ops: seq<Op>, k: Key)
    ensures var m := Run(g, START, ops);
            && FactorOf(g, m, k) == (if k in m.overrides then g.hotRf else g.baseRf)
            && (g.baseRf <= g.hotRf ==> g.baseRf <= FactorOf(g, m, k))
  {
    RunUniform(g, START, ops);
  }

  lemma RunStep(g: Config, m: Manager, ops: seq<Op>)
    requires ops != []
    ensures Run(g, m, ops) == Run(g, Step(g, m, ops[0]), ops[1..])
  {
  }

  /** Right after a recalculation the overrides are exactly the hot keys. */
  lemma RecalculatedExactly(g: Config, m: Manager, now: nat, k: Key)
    ensures k in Recalculated(g, m, now).overrides <==>
              k in m.detector.counts && Rate(m.detector.counts[k], now) >= g.threshold
    ensures Covered(Recalculated(g, m, now))
  {
  }

  lemma StepCovered(g: Config, m: Manager, op: Op)
    requires g.recalcEvery == g.cleanupEvery && Covered(m) && m.lastRecalc == m.detector.lastCleanup
    ensures Covered(Step(g, m, op)) && Step(g, m, op).lastRecalc == Step(g, m, op).detector.lastCleanup
  {
    hide Rate;
    if op.Observe? {
      var n := m.(detector := Accessed(g, m.detector, op.key, op.isWrite, op.now));
      RecalculatedExactly(g, n, op.now, op.key);
    }
  }

  /** When cleanup and recalculation share an interval, as in the default and low-latency presets,
      hot keys never outnumber tracked keys, whatever the accesses and the clock. */
  lemma {:induction false} EqualIntervalsCover(g: Config, m: Manager, ops: seq<Op>)
    requires g.recalcEvery == g.cleanupEvery && Covered(m) && m.lastRecalc == m.detector.lastCleanup
    ensures Covered(Run(g, m, ops)) && |Run(g, m, ops).overrides| <= |Run(g, m, ops).detector.counts|
    decreases |ops|
  {
    if ops != [] {
      StepCovered(g, m, ops[0]);
      hide Step, Covered;
      RunStep(g, m, ops);
      EqualIntervalsCover(g, Step(g, m, ops[0]), ops[1..]);
    } else {
      CoveredCount(m);
    }
  }

  lemma CoveredCount(m: Manager)
    requires Covered(m)
    ensures |m.overrides| <= |m.detector.counts|
  {
    var a, b := m.overrides.Keys, m.detector.counts.Keys;
    assert b == a + (b - a);
    assert |m.overrides| == |a| && |m.detector.counts| == |b|;
  }

  lemma Exchange(a: set<Key>, b: set<Key>)
    ensures |b| + |a - b| == |a| + |b - a|
  {
    assert a == (a - b) + (a * b) && b == (b - a) + (a * b);
    assert |a| == |a - b| + |a * b| && |b| == |b - a| + |a * b|;
  }

  lemma RecalculatedBalance(g: Config, m: Manager, now: nat)
    ensures var r := Recalculated(g, m, now);
            r.promotions + m.demotions + |m.overrides| == m.promotions + r.demotions + |r.overrides|
  {
    var hot := Hot(g, m.detector, now);
    hide Hot;
    var r := Recalculated(g, m, now);
    Exchange(m.overrides.Keys, hot);
    assert r.overrides.Keys == hot;
    assert |r.overrides| == |r.overrides.Keys| && |m.overrides| == |m.overrides.Keys|;
  }

  /** The overrides that clears have thrown away along a run. */
  function Forgotten(g: Config, m: Manager, ops: seq<Op>): nat
    decreases |ops|
  {
    if ops == [] then 0
    else (if ops[0].Clear? then |m.overrides| else 0) + Forgotten(g, Step(g, m, ops[0]), ops[1..])
  }

  lemma StepBalanced(g: Config, m: Manager, op: Op)
    ensures var r := Step(g, m, op);
            r.promotions + m.demotions + |m.overrides| ==
            m.promotions + r.demotions + |r.overrides| + if op.Clear? then |m.overrides| else 0
  {
    hide Recalculated, Accessed;
    match op {
      case Observe(k, w, now) => RecalculatedBalance(g, m.(detector := Accessed(g, m.detector, k, w, now)), now);
      case Force(now) => RecalculatedBalance(g, m, now);
      case Clear =>
    }
  }

  /** Conservation: on every run, promotions less demotions is the number of current overrides plus
      those that clears threw away. */
  lemma {:induction false} RunBalanced(g: Config, m: Manager, ops: seq<Op>)
    ensures var r := Run(g, m, ops);
            r.promotions + m.demotions + |m.overrides| ==
            m.promotions + r.demotions + |r.overrides| + Forgotten(g, m, ops)
    decreases |ops|
  {
    hide Step;
    if ops != [] {
      StepBalanced(g, m, ops[0]);
      RunBalanced(g, Step(g, m, ops[0]), ops[1..]);
    }
  }

  /** So from the start the counters give the number of overrides exactly on the runs whose clears
      found none. */
  lemma CountersTellIff(g: Config, ops: seq<Op>)
    ensures var r := Run(g, START, ops);
            r.promotions == r.demotions + |r.overrides| <==> Forgotten(g, START, ops) == 0
  {
    hide Run, Forgotten;
    RunBalanced(g, START, ops);
  }

  // ---------------------------------------------------------------- the high-throughput preset

  function Hits(k: Key, now: nat, n: nat): seq<Op> {
    if n == 0 then [] else [Observe(k, false, now)] + Hits(k, now, n - 1)
  }

  lemma {:induction false} RunTwice(g: Config, m: Manager, a: seq<Op>, b: seq<Op>)
    ensures Run(g, m, a + b) == Run(g, Run(g, m, a), b)
    decreases |a|
  {
    hide Step;
    if a == [] {
      assert a + b == b;
    } else {
      assert (a + b)[0] == a[0] && (a + b)[1..] == a[1..] + b;
      RunTwice(g, Step(g, m, a[0]), a[1..], b);
    }
  }

  /** Repeated reads of a tracked key, while nothing is due, only raise its count. */
  lemma {:induction false} ManyHits(g: Config, m: Manager, k: Key, now: nat, n: nat)
    requires k in m.detector.counts && !CleanupDue(g, m.detector, now) && !RecalcDue(g, m, now)
    requires m.detector.counts[k].readCount + n <= U64_MAX && m.detector.counts[k].last == now
    ensures var c := m.detector.counts[k];
            Run(g, m, Hits(k, now, n)) ==
            m.(detector := m.detector.(counts := m.detector.counts[k := c.(readCount := c.readCount + n)]))
    decreases n
  {
    var c := m.detector.counts[k];
    if n == 0 {
      assert m.detector.counts[k := c] == m.detector.counts;
    } else {
      var op := Observe(k, false, now);
      var next := Step(g, m, op);
      assert Hits(k, now, n)[0] == op && Hits(k, now, n)[1..] == Hits(k, now, n - 1);
      assert next == m.(detector := m.detector.(counts := m.detector.counts[k := c.(readCount := c.readCount + 1)]));
      ManyHits(g, next, k, now, n - 1);
    }
  }

  const A: Key := [97]
  const B: Key := [98]
  const C: Key := [99]

  /** Two keys read 401 times each at 2500 ms, and nothing but a third key afterwards. */
  function Burst(): seq<Op> {
    [Observe(A, false, 2500)] + Hits(A, 2500, 400) + [Observe(B, false, 2500)] + Hits(B, 2500, 400)
  }

  const HOT := Metrics(401, 0, 2500, 2500)

  lemma One(g: Config, m: Manager, op: Op)
    ensures Run(g, m, [op]) == Step(g, m, op)
  {
    assert [op][1..] == [];
  }

  const G := HIGH_THROUGHPUT
  const NEW := Metrics(1, 0, 2500, 2500)

  lemma FirstRead()
    ensures var m := Step(G, START, Observe(A, false, 2500));
            m.detector == Detector(map[A := NEW], 2500) && m.lastRecalc == 2500
  {
  }

  lemma SecondKey(m: Manager)
    requires m.detector == Detector(map[A := HOT], 2500) && m.lastRecalc == 2500
    ensures var n := Step(G, m, Observe(B, false, 2500));
            n.detector == Detector(map[A := HOT, B := NEW], 2500) && n.lastRecalc == 2500
  {
    assert |m.detector.counts| == |m.detector.counts.Keys| == 1;
  }

  lemma AfterBurst()
    ensures var m := Run(G, START, Burst());
            m.detector == Detector(map[A := HOT, B := HOT], 2500) && m.lastRecalc == 2500
  {
    hide Run, Hits, Step;
    var a, b := [Observe(A, false, 2500)], [Observe(B, false, 2500)];
    var moreA, moreB := Hits(A, 2500, 400), Hits(B, 2500, 400);
    FirstRead();
    One(G, START, a[0]);
    var m1 := Run(G, START, a);
    ManyHits(G, m1, A, 2500, 400);
    RunTwice(G, START, a, moreA);
    var m2 := Run(G, START, a + moreA);
    assert m2.detector.counts == map[A := HOT];
    SecondKey(m2);
    One(G, m2, b[0]);
    RunTwice(G, START, a + moreA, b);
    var m3 := Run(G, START, a + moreA + b);
    ManyHits(G, m3, B, 2500, 400);
    RunTwice(G, START, a + moreA + b, moreB);
    assert map[A := HOT, B := NEW][B := HOT] == map[A := HOT, B := HOT];
  }

  /** At 7500 ms both are due; the two hot keys are just recent enough to stay. */
  lemma At7500(m: Manager)
    requires m.detector == Detector(map[A := HOT, B := HOT], 2500) && m.lastRecalc == 2500
    ensures var n := Step(G, m, Observe(C, false, 7500));
            && n.detector == Detector(map[A := HOT, B := HOT, C := Metrics(1, 0, 7500, 7500)], 7500)
            && n.lastRecalc == 7500
  {
    hide Rate;
    assert Cleaned(m.detector.counts, 5000, 7500) == m.detector.counts;
    assert |m.detector.counts| <= 2 by {
      assert m.detector.counts.Keys == {A, B};
      assert |m.detector.counts| == |{A, B}|;
    }
  }

  lemma HotAt9999()
    ensures Hot(G, Detector(map[A := HOT, B := HOT, C := Metrics(2, 0, 7500, 9999)], 7500), 9999) == {A, B}
  {
    assert Rate(HOT, 9999) >= 50.0 && Rate(Metrics(2, 0, 7500, 9999), 9999) < 50.0;
    hide Rate;
  }

  lemma AccessAt9999()
    ensures Accessed(G, Detector(map[A := HOT, B := HOT, C := Metrics(1, 0, 7500, 7500)], 7500), C, false, 9999)
            == Detector(map[A := HOT, B := HOT, C := Metrics(2, 0, 7500, 9999)], 7500)
  {
    assert map[A := HOT, B := HOT, C := Metrics(1, 0, 7500, 7500)][C := Metrics(2, 0, 7500, 9999)]
        == map[A := HOT, B := HOT, C := Metrics(2, 0, 7500, 9999)];
  }

  /** At 9999 ms only the recalculation is due, and they are still hot. */
  lemma At9999(m: Manager)
    requires m.detector == Detector(map[A := HOT, B := HOT, C := Metrics(1, 0, 7500, 7500)], 7500) &&
        m.lastRecalc == 7500
    ensures var n := Step(G, m, Observe(C, false, 9999));
            && n.detector == Detector(map[A := HOT, B := HOT, C := Metrics(2, 0, 7500, 9999)], 7500)
            && n.lastRecalc == 9999 && n.overrides.Keys == {A, B}
  {
    hide Hot, Accessed;
    AccessAt9999();
    HotAt9999();
  }

  /** At 10000 ms only the cleanup is due, and it drops them. */
  lemma At10000(m: Manager)
    requires m.detector == Detector(map[A := HOT, B := HOT, C := Metrics(2, 0, 7500, 9999)], 7500) &&
        m.lastRecalc == 9999
    ensures var n := Step(G, m, Observe(C, false, 10000));
            n.overrides == m.overrides && n.detector.counts.Keys == {C}
  {
    hide Rate;
    assert Cleaned(m.detector.counts, 5000, 10000) == map[C := Metrics(2, 0, 7500, 9999)];
  }

  /** The preset that recalculates every 2000 ms and cleans up every 2500 ms reaches a state with two
      hot keys and one tracked key, which the actor's own invariant forbids. */
  lemma HighThroughputBreaks()
    ensures var m := Run(HIGH_THROUGHPUT, START,
                         Burst() + [Observe(C, false, 7500)] + [Observe(C, false, 9999)] + [Observe(C, false, 10000)]);
            m.overrides.Keys == {A, B} && m.detector.counts.Keys == {C}
  {
    hide Run, Burst, Step;
    var x, y, z := Observe(C, false, 7500), Observe(C, false, 9999), Observe(C, false, 10000);
    AfterBurst();
    var m := Run(G, START, Burst());
    RunTwice(G, START, Burst(), [x]);
    RunTwice(G, START, Burst() + [x], [y]);
    RunTwice(G, START, Burst() + [x] + [y], [z]);
    One(G, m, x);
    At7500(m);
    One(G, Step(G, m, x), y);
    At9999(Step(G, m, x));
    One(G, Step(G, Step(G, m, x), y), z);
    At10000(Step(G, Step(G, m, x), y));
  }
}
