/** What the hot-key counters hold after a run, and so which keys are promoted
    (src/production/hotkey.rs, src/production/adaptive_replication.rs). */
module HotKeyCounts {
  import opened Numbers
  import opened Executor
  import opened HotKeys

  // ---------------------------------------------------------------- a run as the key sees it

  /** How many accesses of one kind a run makes to a key. */
  function Accesses(ops: seq<Op>, k: Key, isWrite: bool): nat {
    if ops == [] then 0 else
    var n := |ops| - 1;
    Accesses(ops[..n], k, isWrite) + (if Hits(ops[n], k) && ops[n].isWrite == isWrite then 1 else 0)
  }

  predicate Hits(op: Op, k: Key) {
    op.Observe? && op.key == k
  }

  /** The time of the last access to a key, or `before` if there is none. */
  function LastAccess(ops: seq<Op>, k: Key, before: nat): nat {
    if ops == [] then before else
    var n := |ops| - 1;
    if Hits(ops[n], k) then ops[n].now else LastAccess(ops[..n], k, before)
  }

  function Since(t: nat, now: nat): nat {
    if now < t then 0 else now - t
  }

  /** No cleanup is due at `now`, or the key's last access lies in the window. */
  predicate Fresh(g: Config, m: Manager, k: Key, now: nat)
    requires k in m.detector.counts
  {
    Since(m.detector.lastCleanup, now) < g.cleanupEvery || now <= m.detector.counts[k].last + g.window
  }

  /** The operation does not drop the tracked key. */
  predicate Keeps(g: Config, m: Manager, op: Op, k: Key)
    requires k in m.detector.counts
  {
    match op
    case Observe(_, _, now) => Fresh(g, m, k, now)
    case Force(_) => true
    case Clear => false
  }

  /** The key is tracked and stays so through the run. */
  predicate KeptThrough(g: Config, m: Manager, ops: seq<Op>, k: Key)
    decreases |ops|
  {
    k in m.detector.counts
    && (ops == [] || (Keeps(g, m, ops[0], k) && KeptThrough(g, Step(g, m, ops[0]), ops[1..], k)))
  }

  // ---------------------------------------------------------------- counters

  /** One access of a kind at `now`. */
  function Counted(c: Metrics, isWrite: bool, now: nat): Metrics {
    if isWrite then Metrics(c.readCount, Saturate(c.writeCount + 1), c.first, now)
    else Metrics(Saturate(c.readCount + 1), c.writeCount, c.first, now)
  }

  lemma AccessCounts(g: Config, d: Detector, k: Key, j: Key, isWrite: bool, now: nat)
    requires k in d.counts
    requires Since(d.lastCleanup, now) < g.cleanupEvery || now <= d.counts[k].last + g.window
    ensures var e := Accessed(g, d, j, isWrite, now);
            k in e.counts && e.counts[k] == if j == k then Counted(d.counts[k], isWrite, now) else d.counts[k]
  {
    var s := Swept(g, d, now);
    assert k in s.counts && s.counts[k] == d.counts[k];
    hide Swept, Saturate;
  }

  lemma StepDetector(g: Config, m: Manager, op: Op)
    ensures Step(g, m, op).detector ==
            match op
            case Observe(j, w, now) => Accessed(g, m.detector, j, w, now)
            case Force(_) => m.detector
            case Clear => m.detector.(counts := map[])
  {
    hide Accessed, Hot;
  }

  /** One kept operation counts an access to the key by its kind and does nothing else to the key. */
  lemma StepCounts(g: Config, m: Manager, op: Op, k: Key)
    requires k in m.detector.counts && Keeps(g, m, op, k)
    ensures var c, n := m.detector.counts[k], Step(g, m, op);
            k in n.detector.counts && n.detector.counts[k] == if Hits(op, k) then Counted(c, op.isWrite, op.now) else c
  {
    hide Step, Accessed, Counted;
    StepDetector(g, m, op);
    if op.Observe? { AccessCounts(g, m.detector, k, op.key, op.isWrite, op.now); }
  }

  lemma AccessesCons(op: Op, ops: seq<Op>, k: Key, w: bool, before: nat)
    ensures Accesses([op] + ops, k, w) == (if Hits(op, k) && op.isWrite == w then 1 else 0) + Accesses(ops, k, w)
    ensures LastAccess([op] + ops, k, before) == LastAccess(ops, k, if Hits(op, k) then op.now else before)
    decreases |ops|
  {
    var all := [op] + ops;
    var n := |all| - 1;
    if ops == [] {
      assert all[..0] == [] && all[0] == op;
    } else {
      assert all[..n] == [op] + ops[..|ops| - 1] && all[n] == ops[|ops| - 1];
      AccessesCons(op, ops[..|ops| - 1], k, w, before);
    }
  }

  /** The metrics of a key after a run that keeps it. */
  function Tallied(c: Metrics, ops: seq<Op>, k: Key): Metrics {
    Metrics(Saturate(c.readCount + Accesses(ops, k, false)), Saturate(c.writeCount + Accesses(ops, k, true)),
            c.first, LastAccess(ops, k, c.last))
  }

  predicate Fits(c: Metrics) {
    c.readCount <= U64_MAX && c.writeCount <= U64_MAX
  }

  lemma TallyStep(c: Metrics, op: Op, rest: seq<Op>, k: Key)
    requires Fits(c)
    ensures var d := if Hits(op, k) then Counted(c, op.isWrite, op.now) else c;
            Fits(d) && Tallied(d, rest, k) == Tallied(c, [op] + rest, k)
  {
    AccessesCons(op, rest, k, false, c.last);
    AccessesCons(op, rest, k, true, c.last);
    hide Accesses, LastAccess;
  }

  lemma TallyNone(c: Metrics, k: Key)
    requires Fits(c)
    ensures Tallied(c, [], k) == c
  {
  }

  /** Over any run that keeps the key, its counters grow by its reads and its writes, up to the largest
      u64; its first access stays and its last access is the run's. */
  lemma {:induction false} RunCounts(g: Config, m: Manager, ops: seq<Op>, k: Key)
    requires KeptThrough(g, m, ops, k) && Fits(m.detector.counts[k])
    ensures var n := Run(g, m, ops);
            k in n.detector.counts && n.detector.counts[k] == Tallied(m.detector.counts[k], ops, k)
    decreases |ops|
  {
    hide Step, Keeps, Tallied, Fits, Counted;
    if ops == [] {
      TallyNone(m.detector.counts[k], k);
    } else {
      StepCounts(g, m, ops[0], k);
      RunStep(g, m, ops);
      assert ops == [ops[0]] + ops[1..];
      TallyStep(m.detector.counts[k], ops[0], ops[1..], k);
      RunCounts(g, Step(g, m, ops[0]), ops[1..], k);
    }
  }

  /** The keys that an access at `now` finds in the table. */
  function Found(g: Config, m: Manager, now: nat): set<Key> {
    set k | k in m.detector.counts && Fresh(g, m, k, now)
  }

  lemma SweptIsFound(g: Config, m: Manager, now: nat)
    ensures Swept(g, m.detector, now).counts.Keys == Found(g, m, now)
    ensures |Swept(g, m.detector, now).counts| == |Found(g, m, now)|
  {
    var s := Swept(g, m.detector, now);
    assert forall k :: k in s.counts <==> k in Found(g, m, now);
    assert |s.counts| == |s.counts.Keys|;
  }

  /** An access at `now` adds the key to the table: it is not found there, and there is room. */
  predicate Enters(g: Config, m: Manager, k: Key, now: nat) {
    k !in Found(g, m, now) && |Found(g, m, now)| < g.maxTracked
  }

  /** The metrics of a first access. */
  function FirstSeen(isWrite: bool, now: nat): Metrics {
    Metrics(if isWrite then 0 else 1, if isWrite then 1 else 0, now, now)
  }

  /** After an access a key is tracked exactly when it was found or there was room; a key that enters starts
      with this access alone. */
  lemma EntersIff(g: Config, m: Manager, k: Key, isWrite: bool, now: nat)
    ensures var n := Step(g, m, Observe(k, isWrite, now));
            && (k in n.detector.counts <==> k in Found(g, m, now) || |Found(g, m, now)| < g.maxTracked)
            && (Enters(g, m, k, now) ==> n.detector.counts[k] == FirstSeen(isWrite, now))
  {
    StepDetector(g, m, Observe(k, isWrite, now));
    SweptIsFound(g, m, now);
    hide Step, Swept, Found;
  }

  /** Since its first access a kept key has exactly the run's reads, writes, first and last times. */
  lemma CountsSinceFirst(g: Config, m: Manager, k: Key, isWrite: bool, t: nat, rest: seq<Op>)
    requires Enters(g, m, k, t) && KeptThrough(g, Step(g, m, Observe(k, isWrite, t)), rest, k)
    ensures var ops := [Observe(k, isWrite, t)] + rest;
            var n := Run(g, m, ops);
            && k in n.detector.counts
            && n.detector.counts[k] ==
               Metrics(Saturate(Accesses(ops, k, false)), Saturate(Accesses(ops, k, true)), t, LastAccess(ops, k, t))
  {
    var first := Observe(k, isWrite, t);
    var ops := [first] + rest;
    EntersIff(g, m, k, isWrite, t);
    assert ops[0] == first && ops[1..] == rest;
    RunStep(g, m, ops);
    FirstTally(isWrite, t, rest, k);
    hide Step, Tallied, Run, KeptThrough, Accesses, LastAccess;
    RunCounts(g, Step(g, m, first), rest, k);
  }

  lemma FirstTally(isWrite: bool, t: nat, rest: seq<Op>, k: Key)
    ensures var ops := [Observe(k, isWrite, t)] + rest;
            && Fits(FirstSeen(isWrite, t))
            && Tallied(FirstSeen(isWrite, t), rest, k) ==
               Metrics(Saturate(Accesses(ops, k, false)), Saturate(Accesses(ops, k, true)), t, LastAccess(ops, k, t))
  {
    AccessesCons(Observe(k, isWrite, t), rest, k, false, t);
    AccessesCons(Observe(k, isWrite, t), rest, k, true, t);
    hide Accesses, LastAccess;
  }

  // ---------------------------------------------------------------- promotion

  /** The operation ends with a recalculation at `now`. */
  predicate Recalculates(g: Config, m: Manager, op: Op, now: nat) {
    match op
    case Observe(_, _, t) => t == now && (if t < m.lastRecalc then 0 else t - m.lastRecalc) >= g.recalcEvery
    case Force(t) => t == now
    case Clear => false
  }

  lemma RecalculatesExactly(g: Config, m: Manager, op: Op, now: nat, k: Key)
    requires Recalculates(g, m, op, now)
    ensures var n := Step(g, m, op);
            k in n.overrides <==> k in n.detector.counts && Rate(n.detector.counts[k], now) >= g.threshold
  {
    hide Rate, Accessed;
  }

  /** `total` accesses since `t` reach the threshold at `now`; less than a millisecond counts as one. */
  predicate Reaches(g: Config, total: nat, t: nat, now: nat) {
    var elapsed: nat := if now < t + 1 then 1 else now - t;
    total as real * 1000.0 >= g.threshold * elapsed as real
  }

  lemma RateReaches(g: Config, c: Metrics, now: nat)
    ensures Rate(c, now) >= g.threshold <==> Reaches(g, Saturate(c.readCount + c.writeCount), c.first, now)
  {
    var total := Saturate(c.readCount + c.writeCount);
    var elapsed: nat := if now < c.first + 1 then 1 else now - c.first;
    assert elapsed == if Minus(now, c.first) < 1 then 1 else Minus(now, c.first);
    QuotientAtLeast(total as real * 1000.0, elapsed as real, g.threshold);
  }

  lemma QuotientAtLeast(a: real, b: real, t: real)
    requires b > 0.0
    ensures a / b >= t <==> a >= t * b
  {
    var q := a / b;
    assert q * b == a;
    if q >= t { assert (q - t) * b >= 0.0; } else { assert (t - q) * b > 0.0; }
  }

  lemma {:induction false} RunSnoc(g: Config, m: Manager, ops: seq<Op>, op: Op)
    ensures Run(g, m, ops + [op]) == Step(g, Run(g, m, ops), op)
    decreases |ops|
  {
    var all := ops + [op];
    hide Step;
    if ops == [] {
      assert all == [op] && all[1..] == [];
      RunStep(g, m, all);
    } else {
      assert all[0] == ops[0] && all[1..] == ops[1..] + [op];
      RunStep(g, m, all);
      RunStep(g, m, ops);
      RunSnoc(g, Step(g, m, ops[0]), ops[1..], op);
    }
  }

  lemma Regroup(a: seq<Op>, b: seq<Op>, c: seq<Op>)
    ensures a + b + c == a + (b + c)
  {
  }

  lemma SaturatedSum(a: nat, b: nat)
    ensures Saturate(Saturate(a) + Saturate(b)) == Saturate(a + b)
  {
  }

  /** A key that was kept since its first access is promoted by a recalculation if and only if its accesses
      since then, of both kinds, reach the threshold rate. */
  lemma PromotedIff(g: Config, m: Manager, k: Key, isWrite: bool, t: nat, rest: seq<Op>, op: Op, now: nat)
    requires Enters(g, m, k, t) && KeptThrough(g, Step(g, m, Observe(k, isWrite, t)), rest + [op], k)
    requires Recalculates(g, Run(g, m, [Observe(k, isWrite, t)] + rest), op, now)
    ensures var ops := [Observe(k, isWrite, t)] + rest + [op];
            k in Run(g, m, ops).overrides <==>
              Reaches(g, Saturate(Accesses(ops, k, false) + Accesses(ops, k, true)), t, now)
  {
    var most := [Observe(k, isWrite, t)] + rest;
    var ops := most + [op];
    Regroup([Observe(k, isWrite, t)], rest, [op]);
    hide Run, Step, Accesses, LastAccess, Recalculates, KeptThrough, Rate, Reaches, Enters, Saturate;
    SaturatedSum(Accesses(ops, k, false), Accesses(ops, k, true));
    CountsSinceFirst(g, m, k, isWrite, t, rest + [op]);
    RunSnoc(g, m, most, op);
    RecalculatesExactly(g, Run(g, m, most), op, now, k);
    RateReaches(g, Run(g, m, ops).detector.counts[k], now);
  }
}
