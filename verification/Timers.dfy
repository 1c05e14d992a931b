/** Timers of the simulation context: a queue ordered by wake time and id, swept on demand
    (src/io/simulation.rs). */
module Timers {
  datatype Timer = Timer(wake: nat, id: nat)

  /** The heap's order: earlier wake time first, then the smaller id. */
  predicate Earlier(a: Timer, b: Timer) {
    a.wake < b.wake || (a.wake == b.wake && a.id < b.id)
  }

  predicate Sorted(ts: seq<Timer>) {
    forall i, j :: 0 <= i < j < |ts| ==> Earlier(ts[i], ts[j])
  }

  /** The queue with a timer added; the heap is seen as the list it would be popped into. */
  function Insert(ts: seq<Timer>, t: Timer): (r: seq<Timer>)
    ensures multiset(r) == multiset(ts) + multiset{t}
  {
    if ts == [] then [t]
    else if Earlier(t, ts[0]) then [t] + ts
    else
      assert ts == [ts[0]] + ts[1..];
      [ts[0]] + Insert(ts[1..], t)
  }

  /** How many timers a sweep at `now` fires. */
  function DueCount(ts: seq<Timer>, now: nat): (n: nat)
    ensures n <= |ts| && (forall i :: 0 <= i < n ==> ts[i].wake <= now) && (n < |ts| ==> ts[n].wake > now)
  {
    if ts == [] || ts[0].wake > now then 0 else 1 + DueCount(ts[1..], now)
  }

  datatype Firing = Firing(timer: Timer, at: nat)

  /** `fired` and `added` are history. */
  datatype Sim = Sim(time: nat, nextId: nat, timers: seq<Timer>, fired: seq<Firing>, added: seq<Timer>)

  const START := Sim(0, 0, [], [], [])

  datatype Op = AdvanceTo(t: nat) | AdvanceBy(d: nat) | TakeId | Add(wake: nat) | Sweep

  function Stamped(ts: seq<Timer>, at: nat): (r: seq<Firing>)
    ensures |r| == |ts| && forall i :: 0 <= i < |ts| ==> r[i] == Firing(ts[i], at)
  {
    seq(|ts|, i requires 0 <= i < |ts| => Firing(ts[i], at))
  }

  function Step(s: Sim, op: Op): Sim {
    match op
    case AdvanceTo(t) => if t > s.time then s.(time := t) else s
    case AdvanceBy(d) => s.(time := s.time + d)
    case TakeId => s.(nextId := s.nextId + 1)
    case Add(w) =>
      var t := Timer(w, s.nextId);
      s.(nextId := s.nextId + 1, timers := Insert(s.timers, t), added := s.added + [t])
    case Sweep =>
      var n := DueCount(s.timers, s.time);
      s.(timers := s.timers[n..], fired := s.fired + Stamped(s.timers[..n], s.time))
  }

  function Run(s: Sim, ops: seq<Op>): Sim
    decreases |ops|
  {
    if ops == [] then s else Run(Step(s, ops[0]), ops[1..])
  }

  // ---------------------------------------------------------------- the context object

  class SimulationContext {
    var time: nat
    var nextId: nat
    var timers: seq<Timer>
    ghost var fired: seq<Firing>
    ghost var added: seq<Timer>

    ghost function State(): Sim
      reads this
    {
      Sim(time, nextId, timers, fired, added)
    }

    constructor ()
      ensures State() == START
    {
      time, nextId, timers, fired, added := 0, 0, [], [], [];
    }

    method MoveTo(t: nat)
      modifies this`time
      ensures State() == Step(old(State()), AdvanceTo(t))
    {
      if t > time { time := t; }
    }

    method MoveBy(d: nat)
      modifies this`time
      ensures State() == Step(old(State()), AdvanceBy(d))
    {
      time := time + d;
    }

    method NextId() returns (id: nat)
      modifies this`nextId
      ensures id == old(nextId) && State() == Step(old(State()), TakeId)
    {
      id := nextId;
      nextId := nextId + 1;
    }

    method AddTimer(wake: nat) returns (id: nat)
      modifies this
      ensures id == old(nextId) && State() == Step(old(State()), Add(wake))
    {
      id := NextId();
      timers := Insert(timers, Timer(wake, id));
      added := added + [Timer(wake, id)];
    }

    /** Pops and wakes timers while the earliest one is due. */
    method ProcessTimers()
      modifies this
      ensures State() == Step(old(State()), Sweep)
    {
      hide DueCount, Stamped;
      ghost var was, i := timers, 0;
      while timers != [] && timers[0].wake <= time
        invariant i <= |was| && timers == was[i..] && i + DueCount(timers, time) == DueCount(was, time)
        invariant fired == old(fired) + Stamped(was[..i], time)
        invariant time == old(time) && nextId == old(nextId) && added == old(added)
        decreases |timers|
      {
        DueStep(timers, time);
        StampedStep(was, i, time);
        fired := fired + [Firing(timers[0], time)];
        timers := timers[1..];
        i := i + 1;
      }
      DueStep(timers, time);
    }
  }

  lemma DueStep(ts: seq<Timer>, now: nat)
    ensures DueCount(ts, now) == if ts == [] || ts[0].wake > now then 0 else 1 + DueCount(ts[1..], now)
  {
  }

  lemma StampedStep(ts: seq<Timer>, i: nat, at: nat)
    requires i < |ts|
    ensures Stamped(ts[..i + 1], at) == Stamped(ts[..i], at) + [Firing(ts[i], at)]
  {
  }

  // ---------------------------------------------------------------- what every run keeps

  function TimersOf(fs: seq<Firing>): (r: seq<Timer>)
    ensures |r| == |fs| && forall i :: 0 <= i < |fs| ==> r[i] == fs[i].timer
  {
    seq(|fs|, i requires 0 <= i < |fs| => fs[i].timer)
  }

  predicate DistinctIds(ts: seq<Timer>) {
    forall i, j :: 0 <= i < j < |ts| ==> ts[i].id < ts[j].id
  }

  predicate IdsBelow(ts: seq<Timer>, n: nat) {
    forall i :: 0 <= i < |ts| ==> ts[i].id < n
  }

  predicate OnTime(fs: seq<Firing>, now: nat) {
    forall i :: 0 <= i < |fs| ==> fs[i].timer.wake <= fs[i].at <= now
  }

  /** Timers wait in order; ids grow; nothing fires early; and every timer added is either waiting
      or has fired, exactly once. */
  predicate Inv(s: Sim) {
    && Sorted(s.timers) && DistinctIds(s.added) && IdsBelow(s.added, s.nextId)
    && OnTime(s.fired, s.time)
    && multiset(s.added) == multiset(s.timers) + multiset(TimersOf(s.fired))
  }

  lemma {:induction false} InsertSorted(ts: seq<Timer>, t: Timer)
    requires Sorted(ts) && forall i :: 0 <= i < |ts| ==> ts[i].id != t.id
    ensures Sorted(Insert(ts, t))
  {
    if ts != [] && !Earlier(t, ts[0]) {
      InsertSorted(ts[1..], t);
      var rest := Insert(ts[1..], t);
      forall i | 0 <= i < |rest| ensures Earlier(ts[0], rest[i]) {
        assert rest[i] in multiset(rest);
        assert rest[i] == t || rest[i] in ts[1..];
      }
    }
  }

  lemma AddKeeps(s: Sim, w: nat)
    requires Inv(s)
    ensures Inv(Step(s, Add(w)))
  {
    var t := Timer(w, s.nextId);
    forall i | 0 <= i < |s.timers| ensures s.timers[i].id != t.id {
      assert s.timers[i] in multiset(s.added);
      assert s.timers[i] in s.added;
    }
    InsertSorted(s.timers, t);
  }

  lemma SuffixSorted(ts: seq<Timer>, n: nat)
    requires n <= |ts| && Sorted(ts)
    ensures Sorted(ts[n..])
  {
    forall i, j | 0 <= i < j < |ts| - n ensures Earlier(ts[n..][i], ts[n..][j]) {
      var x, y := n + i, n + j;
      assert Earlier(ts[x], ts[y]);
    }
  }

  lemma DueOnTime(fs: seq<Firing>, ts: seq<Timer>, now: nat)
    requires OnTime(fs, now) && forall i :: 0 <= i < |ts| ==> ts[i].wake <= now
    ensures OnTime(fs + Stamped(ts, now), now)
  {
  }

  lemma FiringConserves(fs: seq<Firing>, ts: seq<Timer>, n: nat, now: nat)
    requires n <= |ts|
    ensures multiset(ts[n..]) + multiset(TimersOf(fs + Stamped(ts[..n], now))) == multiset(ts) + multiset(TimersOf(fs))
  {
    assert TimersOf(fs + Stamped(ts[..n], now)) == TimersOf(fs) + ts[..n];
    assert ts == ts[..n] + ts[n..];
  }

  lemma SweepKeeps(s: Sim)
    requires Inv(s)
    ensures Inv(Step(s, Sweep))
  {
    var n := DueCount(s.timers, s.time);
    SuffixSorted(s.timers, n);
    DueOnTime(s.fired, s.timers[..n], s.time);
    FiringConserves(s.fired, s.timers, n, s.time);
    hide Sorted, DistinctIds, IdsBelow, OnTime, TimersOf, Stamped, DueCount;
  }

  lemma {:induction false} RunKeeps(s: Sim, ops: seq<Op>)
    requires Inv(s)
    ensures Inv(Run(s, ops)) && s.time <= Run(s, ops).time
    decreases |ops|
  {
    if ops != [] {
      match ops[0] {
        case Add(w) => AddKeeps(s, w);
        case Sweep => SweepKeeps(s);
        case _ =>
      }
      RunKeeps(Step(s, ops[0]), ops[1..]);
    }
  }

  /** In any run from the start: time does not go back, no timer fires before its wake time, and
      the timers added are the ones waiting and the ones fired, with no repetition. */
  lemma TimersFireOnceOnTime(ops: seq<Op>)
    ensures var s := Run(START, ops);
            && (forall i :: 0 <= i < |s.fired| ==> s.fired[i].timer.wake <= s.fired[i].at <= s.time)
            && multiset(s.added) == multiset(s.timers) + multiset(TimersOf(s.fired))
            && (forall t :: multiset(s.timers)[t] + multiset(TimersOf(s.fired))[t] <= 1)
  {
    RunKeeps(START, ops);
    var s := Run(START, ops);
    forall t ensures multiset(s.timers)[t] + multiset(TimersOf(s.fired))[t] <= 1 {
      NoRepeat(s.added, t);
      assert multiset(s.added)[t] == multiset(s.timers)[t] + multiset(TimersOf(s.fired))[t];
    }
  }

  lemma {:induction false} NoRepeat(ts: seq<Timer>, t: Timer)
    requires DistinctIds(ts)
    ensures multiset(ts)[t] <= 1
  {
    if ts != [] {
      var n := |ts| - 1;
      assert ts == ts[..n] + [ts[n]];
      NoRepeat(ts[..n], t);
      if t == ts[n] { assert t !in ts[..n]; }
    }
  }

  /** After a sweep no waiting timer is due, and what the sweep fired is in wake order. */
  lemma SweepFiresAllDue(s: Sim)
    requires Inv(s)
    ensures var r := Step(s, Sweep);
            && (forall i :: 0 <= i < |r.timers| ==> r.timers[i].wake > s.time)
            && |s.fired| <= |r.fired| && r.fired[..|s.fired|] == s.fired
            && (forall i, j :: |s.fired| <= i < j < |r.fired| ==> Earlier(r.fired[i].timer, r.fired[j].timer))
  {
    var n := DueCount(s.timers, s.time);
    var r := Step(s, Sweep);
    forall i | 0 <= i < |r.timers| ensures r.timers[i].wake > s.time {
      assert r.timers[i] == s.timers[n + i];
      if i > 0 { assert Earlier(s.timers[n], s.timers[n + i]); }
    }
  }

  lemma ThreeSteps(s: Sim, a: Op, b: Op, c: Op)
    ensures Run(s, [a, b, c]) == Step(Step(Step(s, a), b), c)
  {
    hide Step;
    var last, two: seq<Op> := [c], [b, c];
    assert last[1..] == [] && two[1..] == last && [a, b, c][1..] == two;
    assert Run(Step(Step(s, a), b), last) == Step(Step(Step(s, a), b), c);
    assert Run(Step(s, a), two) == Run(Step(Step(s, a), b), last);
  }

  lemma Waits(ts: seq<Timer>, t: Timer)
    ensures t in ts <==> multiset(ts)[t] >= 1
  {
  }

  /** A timer that was added waits or has fired, and not both. */
  lemma WaitsOrFired(s: Sim, t: Timer)
    requires Inv(s) && t in s.added
    ensures t in s.timers <==> t !in TimersOf(s.fired)
  {
    NoRepeat(s.added, t);
    Waits(s.added, t);
    Waits(s.timers, t);
    Waits(TimersOf(s.fired), t);
    var waiting, fired := multiset(s.timers), multiset(TimersOf(s.fired));
    assert multiset(s.added)[t] == (waiting + fired)[t] == waiting[t] + fired[t];
  }

  lemma AdvanceKeeps(s: Sim, e: nat)
    requires Inv(s)
    ensures Inv(Step(s, AdvanceBy(e)))
  {
  }

  /** A sleep of `d` milliseconds is over at a sweep `e` milliseconds later exactly when `e` is at least `d`;
      until then its timer waits. */
  lemma SleepEndsIff(s: Sim, d: nat, e: nat)
    requires Inv(s)
    ensures var t := Timer(s.time + d, s.nextId);
            var r := Run(s, [Add(s.time + d), AdvanceBy(e), Sweep]);
            && r.time == s.time + e
            && (t in TimersOf(r.fired) <==> e >= d) && (t in r.timers <==> e < d)
  {
    hide Inv, Run, TimersOf, DueCount, Stamped, Insert;
    var t := Timer(s.time + d, s.nextId);
    var s1 := Step(s, Add(s.time + d));
    var s2 := Step(s1, AdvanceBy(e));
    ThreeSteps(s, Add(s.time + d), AdvanceBy(e), Sweep);
    AddKeeps(s, s.time + d);
    AdvanceKeeps(s1, e);
    SweepKeeps(s2);
    NewTimerWaits(s, t);
    SweptIff(s2, t);
    WaitsOrFired(Step(s2, Sweep), t);
  }

  lemma NewTimerWaits(s: Sim, t: Timer)
    requires t.id == s.nextId
    ensures t in Step(s, Add(t.wake)).timers
  {
    var ts := Insert(s.timers, t);
    Waits(ts, t);
  }

  /** A sweep leaves a waiting timer waiting exactly when it is not due. */
  lemma SweptIff(s: Sim, t: Timer)
    requires Inv(s) && t in s.timers
    ensures t in Step(s, Sweep).timers <==> t.wake > s.time
  {
    var n := DueCount(s.timers, s.time);
    var r := Step(s, Sweep);
    SweepFiresAllDue(s);
    if t.wake > s.time {
      var i :| 0 <= i < |s.timers| && s.timers[i] == t;
      assert r.timers[i - n] == t;
    }
  }
}
