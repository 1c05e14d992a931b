/** Which recalculation and cleanup intervals keep every hot key tracked
    (src/production/adaptive_replication.rs, src/production/hotkey.rs). */
module HotKeyIntervals {
  import opened Numbers
  import opened Executor
  import opened HotKeys

  /** Accesses on a clock that does not go back. */
  predicate Timely(ops: seq<Op>, start: nat)
    decreases |ops|
  {
    ops == [] || (ops[0].Observe? && ops[0].now >= start && Timely(ops[1..], ops[0].now))
  }

  /** Settings under which hot keys stay tracked: nothing is tracked at all; every new millisecond
      recalculates; both intervals are equal; or a millisecond's single access can never be hot and
      nothing older is kept. */
  predicate Safe(g: Config) {
    || g.maxTracked == 0
    || g.recalcEvery <= 1
    || g.recalcEvery == g.cleanupEvery
    || (g.window == 0 && g.cleanupEvery <= 1 && g.threshold > 1000.0)
  }

  /** The counters can reach the threshold within one window and one interval of each kind. */
  predicate ThresholdReachable(g: Config) {
    g.threshold * (g.window + g.cleanupEvery + g.recalcEvery) as real <= U64_MAX as real * 1000.0
  }

  ghost predicate AlwaysCovered(g: Config) {
    forall ops :: Timely(ops, 0) ==> Covered(Run(g, START, ops))
  }

  // ---------------------------------------------------------------- safe settings

  lemma {:induction false} NothingTracked(g: Config, m: Manager, ops: seq<Op>)
    requires g.maxTracked == 0 && m.detector.counts == map[] && m.overrides == map[] && Timely(ops, 0)
    ensures Covered(Run(g, m, ops))
    decreases |ops|
  {
    if ops != [] {
      var next := Step(g, m, ops[0]);
      assert next.detector.counts == map[] && next.overrides == map[];
      TimelyFrom(ops[1..], ops[0].now, 0);
      RunStep(g, m, ops);
      hide Step;
      NothingTracked(g, next, ops[1..]);
    }
  }

  lemma TimelyFrom(ops: seq<Op>, start: nat, earlier: nat)
    requires Timely(ops, start) && earlier <= start
    ensures Timely(ops, earlier)
  {
  }

  /** At the time of the last recalculation no cleanup is due, or it would find nothing stale. */
  predicate Settled(g: Config, m: Manager) {
    || !CleanupDue(g, m.detector, m.lastRecalc)
    || forall k :: k in m.detector.counts ==> m.detector.counts[k].last >= Minus(m.lastRecalc, g.window)
  }

  /** In a new millisecond everything is recalculated. */
  lemma EagerNewTime(g: Config, m: Manager, op: Op)
    requires g.recalcEvery <= 1 && op.Observe? && RecalcDue(g, m, op.now)
    ensures var n := Step(g, m, op); Covered(n) && Settled(g, n) && n.lastRecalc == op.now
  {
    var d := Accessed(g, m.detector, op.key, op.isWrite, op.now);
    RecalculatedExactly(g, m.(detector := d), op.now, op.key);
    hide Recalculated, Covered;
  }

  /** In the same millisecond nothing is dropped. */
  lemma EagerSameTime(g: Config, m: Manager, op: Op)
    requires Covered(m) && Settled(g, m) && op.Observe? && op.now == m.lastRecalc && !RecalcDue(g, m, op.now)
    ensures var n := Step(g, m, op); Covered(n) && Settled(g, n) && n.lastRecalc == op.now
  {
    var s := Swept(g, m.detector, op.now);
    assert s.counts == m.detector.counts by {
      if CleanupDue(g, m.detector, op.now) {
        assert Cleaned(m.detector.counts, g.window, op.now) == m.detector.counts;
      }
    }
    hide Recalculated, Swept;
  }

  lemma EagerStep(g: Config, m: Manager, op: Op)
    requires g.recalcEvery <= 1 && Covered(m) && Settled(g, m) && op.Observe? && op.now >= m.lastRecalc
    ensures var n := Step(g, m, op); Covered(n) && Settled(g, n) && n.lastRecalc == op.now
  {
    hide Step, Covered, Settled;
    if RecalcDue(g, m, op.now) { EagerNewTime(g, m, op); } else { EagerSameTime(g, m, op); }
  }

  lemma {:induction false} EagerCovers(g: Config, m: Manager, ops: seq<Op>)
    requires g.recalcEvery <= 1 && Covered(m) && Settled(g, m) && Timely(ops, m.lastRecalc)
    ensures Covered(Run(g, m, ops))
    decreases |ops|
  {
    if ops != [] {
      EagerStep(g, m, ops[0]);
      RunStep(g, m, ops);
      hide Step, Covered, Settled;
      EagerCovers(g, Step(g, m, ops[0]), ops[1..]);
    }
  }

  /** Cleanup has happened at `now`, nothing is newer, no recalculation is pending, nothing is hot. */
  predicate Fleeting(g: Config, m: Manager, now: nat) {
    && m.overrides == map[] && m.detector.lastCleanup == now && Minus(now, m.lastRecalc) < g.recalcEvery
    && forall k :: k in m.detector.counts ==> m.detector.counts[k].last <= now
  }

  /** With no window, a cleanup in a new millisecond leaves nothing. */
  lemma NothingFresh(counts: map<Key, Metrics>, was: nat, now: nat)
    requires was < now && forall k :: k in counts ==> counts[k].last <= was
    ensures Cleaned(counts, 0, now) == map[]
  {
  }

  /** A key seen once is taken to run at a thousand accesses a second. */
  lemma FirstRate(isWrite: bool, now: nat)
    ensures Rate(Metrics(if isWrite then 0 else 1, if isWrite then 1 else 0, now, now), now) == 1000.0
  {
  }

  lemma FleetingStep(g: Config, m: Manager, now: nat, op: Op)
    requires g.window == 0 && g.cleanupEvery <= 1 && g.threshold > 1000.0 && g.recalcEvery >= 2
    requires Fleeting(g, m, now) && op.Observe? && op.now >= now
    ensures Fleeting(g, Step(g, m, op), op.now)
  {
    var d := Accessed(g, m.detector, op.key, op.isWrite, op.now);
    if RecalcDue(g, m, op.now) {
      NothingFresh(m.detector.counts, now, op.now);
      FirstRate(op.isWrite, op.now);
      hide Cleaned, Rate;
      assert Hot(g, d, op.now) == {};
    }
  }

  lemma {:induction false} FleetingCovers(g: Config, m: Manager, now: nat, ops: seq<Op>)
    requires g.window == 0 && g.cleanupEvery <= 1 && g.threshold > 1000.0 && g.recalcEvery >= 2
    requires Fleeting(g, m, now) && Timely(ops, now)
    ensures Covered(Run(g, m, ops))
    decreases |ops|
  {
    if ops != [] {
      FleetingStep(g, m, now, ops[0]);
      RunStep(g, m, ops);
      hide Step, Covered, Fleeting;
      FleetingCovers(g, Step(g, m, ops[0]), ops[0].now, ops[1..]);
    }
  }

  lemma SafeCovers(g: Config, ops: seq<Op>)
    requires Safe(g) && Timely(ops, 0)
    ensures Covered(Run(g, START, ops))
  {
    hide Run, Step;
    if g.maxTracked == 0 {
      NothingTracked(g, START, ops);
    } else if g.recalcEvery <= 1 {
      EagerCovers(g, START, ops);
    } else if g.recalcEvery == g.cleanupEvery {
      EqualIntervalsCover(g, START, ops);
    } else {
      FleetingCovers(g, START, 0, ops);
    }
  }

  // ---------------------------------------------------------------- unsafe settings

  const K: Key := [107]
  const J: Key := [106]

  /** What an access to another key does to `K`. */
  lemma Bystander(g: Config, m: Manager, now: nat)
    requires K in m.detector.counts
    ensures var c := m.detector.counts[K];
            var n := Step(g, m, Observe(J, false, now));
            && (K in n.detector.counts <==> !CleanupDue(g, m.detector, now) || c.last >= Minus(now, g.window))
            && (K in n.detector.counts ==> n.detector.counts[K] == c)
            && n.detector.lastCleanup == (if CleanupDue(g, m.detector, now) then now else m.detector.lastCleanup)
            && n.lastRecalc == (if RecalcDue(g, m, now) then now else m.lastRecalc)
            && (K in n.overrides <==> if RecalcDue(g, m, now) then K in n.detector.counts && Rate(c, now) >= g.threshold
                                      else K in m.overrides)
  {
    hide Rate;
    assert K != J;
  }

  /** `K` has been read `n` times at `now`, and nothing else has happened since the start. */
  predicate Burst(g: Config, m: Manager, now: nat, n: nat) {
    && K in m.detector.counts && m.detector.counts[K] == Metrics(n, 0, now, now)
    && m.lastRecalc == 0 && m.detector.lastCleanup == if now >= g.cleanupEvery then now else 0
  }

  lemma BurstStep(g: Config, m: Manager, now: nat, n: nat)
    requires now < g.recalcEvery && n < U64_MAX && Burst(g, m, now, n)
    ensures Burst(g, Step(g, m, Observe(K, false, now)), now, n + 1)
  {
    hide Rate;
  }

  lemma BurstStart(g: Config, now: nat)
    requires now < g.recalcEvery && g.maxTracked > 0
    ensures Burst(g, Step(g, START, Observe(K, false, now)), now, 1)
  {
    hide Rate;
    assert Cleaned(map[], g.window, now) == map[];
  }

  lemma {:induction false} BurstGrows(g: Config, m: Manager, now: nat, n: nat, more: nat)
    requires now < g.recalcEvery && n + more <= U64_MAX && Burst(g, m, now, n)
    ensures Burst(g, Run(g, m, Hits(K, now, more)), now, n + more) && Timely(Hits(K, now, more), now)
    decreases more
  {
    hide Burst, Step;
    if more > 0 {
      var hits, op := Hits(K, now, more), Observe(K, false, now);
      assert hits[0] == op && hits[1..] == Hits(K, now, more - 1);
      BurstStep(g, m, now, n);
      BurstGrows(g, Step(g, m, op), now, n + 1, more - 1);
    }
  }

  /** As many reads of `K` as the counters hold, all in one millisecond before any recalculation. */
  lemma FullBurst(g: Config, now: nat)
    requires now < g.recalcEvery && g.maxTracked > 0
    ensures var hits := Hits(K, now, U64_MAX);
            Timely(hits, now) && Burst(g, Run(g, START, hits), now, U64_MAX)
  {
    hide Burst, Step;
    var hits, op := Hits(K, now, U64_MAX), Observe(K, false, now);
    assert hits[0] == op && hits[1..] == Hits(K, now, U64_MAX - 1);
    BurstStart(g, now);
    BurstGrows(g, Step(g, START, op), now, 1, U64_MAX - 1);
    RunStep(g, START, hits);
  }

  lemma StillHot(g: Config, first: nat, now: nat)
    requires ThresholdReachable(g) && first <= now && now - first <= g.window + g.cleanupEvery + g.recalcEvery
    requires g.recalcEvery > 0
    ensures Rate(Metrics(U64_MAX, 0, first, first), now) >= g.threshold
  {
    var lasted: nat := if now - first < 1 then 1 else now - first;
    var most := g.window + g.cleanupEvery + g.recalcEvery;
    var full := U64_MAX as real * 1000.0;
    assert Rate(Metrics(U64_MAX, 0, first, first), now) == full / lasted as real;
    Quotient(full, g.threshold, lasted as real, most as real);
  }

  lemma Quotient(full: real, rate: real, lasted: real, most: real)
    requires 0.0 < lasted <= most && rate * most <= full && 0.0 <= full
    ensures full / lasted >= rate
  {
    if rate > 0.0 {
      assert rate * lasted <= rate * most;
      assert full / lasted >= (rate * lasted) / lasted;
    }
  }

  /** Accesses to the other key, at these times. */
  function Ticks(times: seq<nat>): seq<Op> {
    if times == [] then [] else [Observe(J, false, times[0])] + Ticks(times[1..])
  }

  predicate Rising(times: seq<nat>, start: nat) {
    && (forall i :: 0 <= i < |times| ==> times[i] >= start)
    && (forall i, j :: 0 <= i < j < |times| ==> times[i] <= times[j])
  }

  lemma {:induction false} TicksTimely(times: seq<nat>, start: nat)
    requires Rising(times, start)
    ensures Timely(Ticks(times), start)
    decreases |times|
  {
    if times != [] {
      assert Ticks(times)[1..] == Ticks(times[1..]);
      TicksTimely(times[1..], times[0]);
    }
  }

  lemma {:induction false} TimelyConcat(a: seq<Op>, b: seq<Op>, start: nat, now: nat)
    requires Timely(a, start) && start <= now && Timely(b, now)
    requires forall i :: 0 <= i < |a| ==> a[i].Observe? && a[i].now <= now
    ensures Timely(a + b, start)
    decreases |a|
  {
    if a == [] {
      assert a + b == b;
      TimelyFrom(b, now, start);
    } else {
      assert (a + b)[0] == a[0] && (a + b)[1..] == a[1..] + b;
      TimelyConcat(a[1..], b, a[0].now, now);
    }
  }

  lemma {:induction false} HitsAt(now: nat, n: nat)
    ensures forall i :: 0 <= i < |Hits(K, now, n)| ==> Hits(K, now, n)[i] == Observe(K, false, now)
  {
    if n > 0 { HitsAt(now, n - 1); }
  }

  /** A full burst of `K` at `now`, then accesses to the other key. */
  function Attempt(now: nat, times: seq<nat>): seq<Op> {
    Hits(K, now, U64_MAX) + Ticks(times)
  }

  lemma AttemptRuns(g: Config, now: nat, times: seq<nat>)
    requires now < g.recalcEvery && g.maxTracked > 0 && Rising(times, now)
    ensures Timely(Attempt(now, times), 0)
    ensures var m := Run(g, START, Hits(K, now, U64_MAX));
            Burst(g, m, now, U64_MAX) && Run(g, START, Attempt(now, times)) == Run(g, m, Ticks(times))
  {
    hide Run, Burst, Ticks;
    FullBurst(g, now);
    HitsAt(now, U64_MAX);
    TimelyFrom(Hits(K, now, U64_MAX), now, 0);
    hide Hits;
    TicksTimely(times, now);
    TimelyConcat(Hits(K, now, U64_MAX), Ticks(times), 0, now);
    RunTwice(g, START, Hits(K, now, U64_MAX), Ticks(times));
  }

  lemma TicksStep(g: Config, m: Manager, times: seq<nat>)
    requires times != []
    ensures Run(g, m, Ticks(times)) == Run(g, Step(g, m, Observe(J, false, times[0])), Ticks(times[1..]))
  {
    assert Ticks(times)[0] == Observe(J, false, times[0]) && Ticks(times)[1..] == Ticks(times[1..]);
  }

  lemma TwoTicks(g: Config, m: Manager, s: nat, t: nat)
    ensures Run(g, m, Ticks([s, t])) == Step(g, Step(g, m, Observe(J, false, s)), Observe(J, false, t))
  {
    hide Step;
    TicksStep(g, m, [s, t]);
    assert [s, t][1..] == [t];
    TicksStep(g, Step(g, m, Observe(J, false, s)), [t]);
    assert [t][1..] == [] && Ticks([]) == [];
  }

  lemma ThreeTicks(g: Config, m: Manager, r: nat, s: nat, t: nat)
    ensures Run(g, m, Ticks([r, s, t])) ==
            Step(g, Step(g, Step(g, m, Observe(J, false, r)), Observe(J, false, s)), Observe(J, false, t))
  {
    hide Step;
    TicksStep(g, m, [r, s, t]);
    assert [r, s, t][1..] == [s, t];
    TwoTicks(g, Step(g, m, Observe(J, false, r)), s, t);
  }

  /** Recalculated as hot at `s`, cleaned up without recalculation at `t`. */
  lemma PromotedThenLost(g: Config, m: Manager, s: nat, t: nat)
    requires ThresholdReachable(g) && g.recalcEvery >= 2
    requires K in m.detector.counts && m.detector.counts[K].first == m.detector.counts[K].last
    requires var c := m.detector.counts[K];
             && c == Metrics(U64_MAX, 0, c.first, c.first)
             && c.first <= s && s - c.first <= g.window + g.cleanupEvery + g.recalcEvery
             && (!CleanupDue(g, m.detector, s) || c.last >= Minus(s, g.window))
             && RecalcDue(g, m, s) && s <= t < s + g.recalcEvery && c.last < Minus(t, g.window)
    requires Minus(t, if CleanupDue(g, m.detector, s) then s else m.detector.lastCleanup) >= g.cleanupEvery
    ensures var n := Step(g, Step(g, m, Observe(J, false, s)), Observe(J, false, t));
            K in n.overrides && K !in n.detector.counts
  {
    hide Rate, Step;
    StillHot(g, m.detector.counts[K].first, s);
    Bystander(g, m, s);
    Bystander(g, Step(g, m, Observe(J, false, s)), t);
  }

  /** Cleanup rarer than recalculation, and a window shorter than cleanup. */
  lemma LostEarly(g: Config)
    requires 2 <= g.recalcEvery < g.cleanupEvery && g.window < g.cleanupEvery && g.maxTracked > 0 &&
        ThresholdReachable(g)
    ensures !Covered(Run(g, START, Attempt(0, [g.cleanupEvery - 1, g.cleanupEvery])))
    ensures Timely(Attempt(0, [g.cleanupEvery - 1, g.cleanupEvery]), 0)
  {
    hide Run, Step, Attempt;
    var s, t := g.cleanupEvery - 1, g.cleanupEvery;
    AttemptRuns(g, 0, [s, t]);
    var m := Run(g, START, Hits(K, 0, U64_MAX));
    TwoTicks(g, m, s, t);
    PromotedThenLost(g, m, s, t);
  }

  /** Cleanup rarer than recalculation, and a longer window. */
  lemma LostLate(g: Config)
    requires 2 <= g.recalcEvery < g.cleanupEvery <= g.window && g.maxTracked > 0 && ThresholdReachable(g)
    ensures var times := [g.window, g.window + g.cleanupEvery - 1, g.window + g.cleanupEvery];
            Timely(Attempt(0, times), 0) && !Covered(Run(g, START, Attempt(0, times)))
  {
    hide Run, Step, Attempt;
    var r, s, t := g.window, g.window + g.cleanupEvery - 1, g.window + g.cleanupEvery;
    AttemptRuns(g, 0, [r, s, t]);
    var m := Run(g, START, Hits(K, 0, U64_MAX));
    ThreeTicks(g, m, r, s, t);
    Bystander(g, m, r);
    PromotedThenLost(g, Step(g, m, Observe(J, false, r)), s, t);
  }

  /** Cleanup more frequent than recalculation, and a window of at least one recalculation. */
  lemma LostBetween(g: Config)
    requires g.cleanupEvery < g.recalcEvery <= g.window && g.recalcEvery >= 2 && g.maxTracked > 0 &&
        ThresholdReachable(g)
    ensures var times := [g.window, g.window + if g.cleanupEvery < 1 then 1 else g.cleanupEvery];
            Timely(Attempt(0, times), 0) && !Covered(Run(g, START, Attempt(0, times)))
  {
    hide Run, Step, Attempt;
    var s, t := g.window, g.window + if g.cleanupEvery < 1 then 1 else g.cleanupEvery;
    AttemptRuns(g, 0, [s, t]);
    var m := Run(g, START, Hits(K, 0, U64_MAX));
    TwoTicks(g, m, s, t);
    PromotedThenLost(g, m, s, t);
  }

  /** Cleanup more frequent than recalculation, and a shorter window. */
  lemma LostSoon(g: Config)
    requires g.cleanupEvery < g.recalcEvery && g.window < g.recalcEvery && g.recalcEvery >= 2
    requires g.cleanupEvery >= 2 || g.window >= 1
    requires g.maxTracked > 0 && ThresholdReachable(g)
    ensures var times := [g.recalcEvery, 2 * g.recalcEvery - 1];
            Timely(Attempt(g.recalcEvery - 1, times), 0) && !Covered(Run(g, START, Attempt(g.recalcEvery - 1, times)))
  {
    hide Run, Step, Attempt;
    var s, t := g.recalcEvery, 2 * g.recalcEvery - 1;
    AttemptRuns(g, g.recalcEvery - 1, [s, t]);
    var m := Run(g, START, Hits(K, g.recalcEvery - 1, U64_MAX));
    TwoTicks(g, m, s, t);
    PromotedThenLost(g, m, s, t);
  }

  /** Nothing outlives its millisecond, but one access is already hot. */
  lemma LostAtOnce(g: Config)
    requires g.window == 0 && g.cleanupEvery <= 1 && g.recalcEvery >= 2 && g.threshold <= 1000.0 && g.maxTracked > 0
    ensures var ops := [Observe(K, false, g.recalcEvery), Observe(J, false, g.recalcEvery + 1)];
            Timely(ops, 0) && !Covered(Run(g, START, ops))
  {
    var x, y := Observe(K, false, g.recalcEvery), Observe(J, false, g.recalcEvery + 1);
    var m := Step(g, START, x);
    OneRead(g);
    RunStep(g, START, [x, y]);
    assert [x, y][1..] == [y] && [y][1..] == [];
    RunStep(g, m, [y]);
    Bystander(g, m, g.recalcEvery + 1);
    hide Step, Rate;
    assert Timely([y], g.recalcEvery) && Timely([], g.recalcEvery + 1);
  }

  lemma OneRead(g: Config)
    requires g.cleanupEvery <= 1 && g.recalcEvery >= 2 && g.threshold <= 1000.0 && g.maxTracked > 0
    ensures var m := Step(g, START, Observe(K, false, g.recalcEvery));
            && K in m.detector.counts && m.detector.counts[K] == Metrics(1, 0, g.recalcEvery, g.recalcEvery)
            && K in m.overrides && m.lastRecalc == g.recalcEvery && m.detector.lastCleanup == g.recalcEvery
  {
    assert Cleaned(map[], g.window, g.recalcEvery) == map[];
    assert Rate(Metrics(1, 0, g.recalcEvery, g.recalcEvery), g.recalcEvery) == 1000.0;
    hide Rate;
  }

  lemma UnsafeLoses(g: Config) returns (ops: seq<Op>)
    requires !Safe(g) && ThresholdReachable(g)
    ensures Timely(ops, 0) && !Covered(Run(g, START, ops))
  {
    hide Run, Attempt, Timely, Covered;
    var r, c, w := g.recalcEvery, g.cleanupEvery, g.window;
    if r < c {
      if w < c {
        LostEarly(g);
        ops := Attempt(0, [c - 1, c]);
      } else {
        LostLate(g);
        ops := Attempt(0, [w, w + c - 1, w + c]);
      }
    } else if w >= r {
      LostBetween(g);
      ops := Attempt(0, [w, w + if c < 1 then 1 else c]);
    } else if c >= 2 || w >= 1 {
      LostSoon(g);
      ops := Attempt(r - 1, [r, 2 * r - 1]);
    } else {
      LostAtOnce(g);
      ops := [Observe(K, false, r), Observe(J, false, r + 1)];
    }
  }

  /** On every run of accesses on a forward clock, every hot key stays tracked exactly under these
      settings. The default and low-latency presets satisfy them, the high-throughput one does not. */
  lemma AlwaysCoveredIff(g: Config)
    requires ThresholdReachable(g)
    ensures AlwaysCovered(g) <==> Safe(g)
  {
    hide Run, Covered, Timely, ThresholdReachable;
    if Safe(g) {
      forall ops | Timely(ops, 0) ensures Covered(Run(g, START, ops)) { SafeCovers(g, ops); }
    } else {
      var ops := UnsafeLoses(g);
    }
  }

  lemma Presets()
    ensures AlwaysCovered(DEFAULT) && AlwaysCovered(LOW_LATENCY) && !AlwaysCovered(HIGH_THROUGHPUT)
  {
    hide AlwaysCovered;
    AlwaysCoveredIff(DEFAULT);
    AlwaysCoveredIff(LOW_LATENCY);
    AlwaysCoveredIff(HIGH_THROUGHPUT);
  }
}
