/** Concurrent pooled requests: every interleaving of callers, shard actors, wake-ups and
    cancellations over one response pool (src/production/response_pool.rs and its users in
    src/production/sharded_actor.rs). */
module SlotProtocol {
  import opened Numbers
  import opened ResponsePool

  /** A request is known by its number; the answer to request `c` is written as `c`. */
  type Slot = SlotState<nat, nat>

  const EMPTY: Slot := SlotState(None, None)

  /** Where a request is. `Releasing` and `Cleaned` are the two halves of returning a slot. */
  datatype Phase =
    | Acquired(slot: nat)
    | Waiting(slot: nat, parked: bool)
    | Releasing(slot: nat, result: Option<nat>)
    | Cleaned(slot: nat, result: Option<nat>)
    | Finished(result: Option<nat>)
    | Dropped(slot: nat)

  /** Who may touch a slot. */
  datatype Owner = Pooled | Call(c: nat) | Discarded

  /** `mailbox` holds posted, unanswered requests, served in any order. `taken` holds wakers that
      an actor has removed but not yet woken, `runnable` tasks that were woken and not yet polled.
      `lost` holds requests that were still in the mailbox of an actor that ended. `owner` is history. */
  datatype System = System(
    slots: seq<Slot>, owner: seq<Owner>, pool: seq<nat>, capacity: nat,
    calls: seq<Phase>, mailbox: set<nat>, lost: set<nat>, taken: set<nat>, runnable: set<nat>)

  datatype Step =
    | Acquire
    | Post(c: nat)
    | PostFails(c: nat)
    | Poll(c: nat)
    | Answer(c: nat)
    | Lose(c: nat)
    | Wake(c: nat)
    | Cancel(c: nat)
    | Reset(c: nat)
    | Push(c: nat)

  predicate Has(y: System, c: nat) {
    c < |y.calls| && (!y.calls[c].Finished? ==> y.calls[c].slot < |y.slots|) && |y.owner| == |y.slots|
  }

  predicate Enabled(y: System, s: Step) {
    match s
    case Acquire => |y.owner| == |y.slots| && forall i :: 0 <= i < |y.pool| ==> y.pool[i] < |y.slots|
    case Post(c) => Has(y, c) && y.calls[c].Acquired?
    case PostFails(c) => Has(y, c) && y.calls[c].Acquired?
    case Poll(c) => Has(y, c) && y.calls[c].Waiting?
    case Answer(c) => Has(y, c) && c in y.mailbox && (y.calls[c].Waiting? || y.calls[c].Dropped?)
    case Lose(c) => Has(y, c) && c in y.mailbox && (y.calls[c].Waiting? || y.calls[c].Dropped?)
    case Wake(c) => c in y.taken
    case Cancel(c) => Has(y, c) && y.calls[c].Waiting?
    case Reset(c) => Has(y, c) && y.calls[c].Releasing?
    case Push(c) => Has(y, c) && y.calls[c].Cleaned?
  }

  function Move(y: System, c: nat, p: Phase): System
    requires c < |y.calls|
  {
    y.(calls := y.calls[c := p])
  }

  function Next(y: System, s: Step): System
    requires Enabled(y, s)
  {
    match s
    case Acquire =>
      var c := |y.calls|;
      if y.pool == [] then
        y.(slots := y.slots + [EMPTY], owner := y.owner + [Call(c)], calls := y.calls + [Acquired(|y.slots|)])
      else
        y.(pool := y.pool[1..], owner := y.owner[y.pool[0] := Call(c)], calls := y.calls + [Acquired(y.pool[0])])
    case Post(c) => Move(y, c, Waiting(y.calls[c].slot, false)).(mailbox := y.mailbox + {c})
    case PostFails(c) => Move(y, c, Releasing(y.calls[c].slot, None))
    case Poll(c) =>
      var i := y.calls[c].slot;
      var got := y.slots[i].value;
      var z := Move(y, c, if got.Some? then Releasing(i, got) else Waiting(i, true));
      z.(slots := y.slots[i := Polled(y.slots[i], c)], runnable := y.runnable - {c})
    case Answer(c) =>
      var i := y.calls[c].slot;
      var w := y.slots[i].waker;
      y.(slots := y.slots[i := Sent(y.slots[i], c)], mailbox := y.mailbox - {c},
         taken := if w.Some? then y.taken + {w.value} else y.taken)
    case Lose(c) => y.(mailbox := y.mailbox - {c}, lost := y.lost + {c})
    case Wake(c) => y.(taken := y.taken - {c}, runnable := y.runnable + {c})
    case Cancel(c) => Move(y, c, Dropped(y.calls[c].slot))
    case Reset(c) =>
      var i := y.calls[c].slot;
      Move(y, c, Cleaned(i, y.calls[c].result)).(slots := y.slots[i := EMPTY])
    case Push(c) =>
      var i := y.calls[c].slot;
      var z := Move(y, c, Finished(y.calls[c].result));
      if |y.pool| < y.capacity then z.(pool := y.pool + [i], owner := y.owner[i := Pooled])
      else z.(owner := y.owner[i := Discarded])
  }

  function Start(capacity: nat, prewarm: nat): System
    requires prewarm <= capacity
  {
    System(seq(prewarm, _ => EMPTY), seq(prewarm, _ => Pooled), seq(prewarm, i => i), capacity, [], {}, {}, {}, {})
  }

  predicate Possible(y: System, run: seq<Step>)
    decreases |run|
  {
    run == [] || (Enabled(y, run[0]) && Possible(Next(y, run[0]), run[1..]))
  }

  function Final(y: System, run: seq<Step>): System
    requires Possible(y, run)
    decreases |run|
  {
    if run == [] then y else Final(Next(y, run[0]), run[1..])
  }

  // ---------------------------------------------------------------- what every step keeps

  predicate OwnResult(r: Option<nat>, c: nat) {
    r.Some? ==> r.value == c
  }

  /** A waiting request is either still in the mailbox or answered in its slot; if it is parked,
      its waker is in the slot or its wake-up is on the way. */
  predicate WaitOk(y: System, c: nat, s: Slot, parked: bool) {
    && OwnResult(s.value, c) && (s.waker.Some? ==> s.waker.value == c)
    && (s.value.None? <==> c in y.mailbox + y.lost)
    && (parked ==> if s.value.None? then s.waker.Some? else c in y.taken + y.runnable)
  }

  /** No actor holds, or has lost, a message of the request. */
  predicate Unposted(y: System, c: nat) {
    c !in y.mailbox && c !in y.lost
  }

  predicate CallOk(y: System, c: nat)
    requires c < |y.calls|
  {
    && Has(y, c) && !(c in y.mailbox && c in y.lost)
    && (!y.calls[c].Finished? ==> y.owner[y.calls[c].slot] == Call(c))
    && match y.calls[c]
       case Acquired(i) => Unposted(y, c) && y.slots[i] == EMPTY
       case Waiting(i, parked) => WaitOk(y, c, y.slots[i], parked)
       case Releasing(i, r) => Unposted(y, c) && OwnResult(r, c) && y.slots[i].value == None
       case Cleaned(i, r) => Unposted(y, c) && OwnResult(r, c) && y.slots[i] == EMPTY
       case Finished(r) => Unposted(y, c) && OwnResult(r, c)
       case Dropped(i) => true
  }

  predicate PoolOk(y: System) {
    && |y.owner| == |y.slots| && |y.pool| <= y.capacity
    && (forall i :: 0 <= i < |y.pool| ==>
          y.pool[i] < |y.slots| && y.owner[y.pool[i]] == Pooled && y.slots[y.pool[i]] == EMPTY)
    && (forall i, j :: 0 <= i < j < |y.pool| ==> y.pool[i] != y.pool[j])
  }

  predicate Inv(y: System) {
    && PoolOk(y)
    && (forall c :: 0 <= c < |y.calls| ==> CallOk(y, c))
    && (forall c :: c in y.mailbox ==> c < |y.calls|)
    && (forall c :: c in y.lost ==> c < |y.calls|)
  }

  lemma NotPooled(y: System, c: nat)
    requires PoolOk(y) && c < |y.calls| && CallOk(y, c)
    ensures !y.calls[c].Finished? ==> y.calls[c].slot < |y.slots| && y.calls[c].slot !in y.pool
    ensures y.calls[c].Cleaned? ==> y.slots[y.calls[c].slot] == EMPTY
  {
  }

  lemma StepKeepsPool(y: System, s: Step)
    requires Inv(y) && Enabled(y, s)
    ensures PoolOk(Next(y, s))
  {
    hide CallOk, WaitOk, OwnResult;
    match s
    case Acquire => AcquireKeepsPool(y);
    case Wake(_) =>
    case _ => NotPooled(y, s.c); OneSlotKeepsPool(y, s);
  }

  lemma AcquireKeepsPool(y: System)
    requires PoolOk(y) && Enabled(y, Acquire)
    ensures PoolOk(Next(y, Acquire))
  {
    var z := Next(y, Acquire);
    if y.pool != [] {
      assert forall i :: 0 <= i < |z.pool| ==> z.pool[i] == y.pool[i + 1];
    }
  }

  lemma OneSlotKeepsPool(y: System, s: Step)
    requires PoolOk(y) && Enabled(y, s) && !s.Acquire? && !s.Wake?
    requires y.calls[s.c].slot < |y.slots| && y.calls[s.c].slot !in y.pool
    requires y.calls[s.c].Cleaned? ==> y.slots[y.calls[s.c].slot] == EMPTY
    ensures PoolOk(Next(y, s))
  {
    hide CallOk, WaitOk;
    var z := Next(y, s);
    var k := y.calls[s.c].slot;
    assert forall i :: 0 <= i < |y.pool| ==> y.pool[i] != k && z.pool[i] == y.pool[i];
  }

  /** A step moves its own request correctly. */
  lemma OwnCallKeeps(y: System, s: Step)
    requires PoolOk(y) && Enabled(y, s) && !s.Acquire? && !s.Wake? && CallOk(y, s.c)
    ensures CallOk(Next(y, s), s.c)
  {
  }

  /** A step does not disturb a request that holds another slot. */
  lemma OtherCallKeeps(y: System, s: Step, c: nat)
    requires PoolOk(y) && Enabled(y, s) && c < |y.calls| && CallOk(y, c)
    requires !s.Acquire? && !s.Wake? ==> c != s.c && CallOk(y, s.c)
    ensures CallOk(Next(y, s), c)
  {
    var z := Next(y, s);
    assert z.calls[c] == y.calls[c];
    assert c in z.mailbox <==> c in y.mailbox;
    if !y.calls[c].Finished? {
      var i := y.calls[c].slot;
      assert z.slots[i] == y.slots[i] && z.owner[i] == y.owner[i];
    }
  }

  lemma StepKeepsCalls(y: System, s: Step, c: nat)
    requires Inv(y) && Enabled(y, s) && c < |Next(y, s).calls|
    ensures CallOk(Next(y, s), c)
  {
    hide CallOk, PoolOk;
    if s.Acquire? {
      if c < |y.calls| { OtherCallKeeps(y, s, c); } else { NewCallOk(y); }
    } else if s.Wake? || s.c != c {
      OtherCallKeeps(y, s, c);
    } else {
      OwnCallKeeps(y, s);
    }
  }

  lemma NewCallOk(y: System)
    requires Inv(y) && Enabled(y, Acquire)
    ensures CallOk(Next(y, Acquire), |y.calls|)
  {
  }

  lemma StepKeeps(y: System, s: Step)
    requires Inv(y) && Enabled(y, s)
    ensures Inv(Next(y, s))
  {
    StepKeepsPool(y, s);
    forall c | 0 <= c < |Next(y, s).calls| ensures CallOk(Next(y, s), c) { StepKeepsCalls(y, s, c); }
  }

  lemma {:induction false} RunKeeps(y: System, run: seq<Step>)
    requires Inv(y) && Possible(y, run)
    ensures Inv(Final(y, run))
    decreases |run|
  {
    hide Inv;
    if run != [] {
      StepKeeps(y, run[0]);
      RunKeeps(Next(y, run[0]), run[1..]);
    }
  }

  // ---------------------------------------------------------------- what callers get

  ghost predicate Reachable(capacity: nat, prewarm: nat, run: seq<Step>, y: System) {
    prewarm <= capacity && Possible(Start(capacity, prewarm), run) && y == Final(Start(capacity, prewarm), run)
  }

  lemma ReachableInv(capacity: nat, prewarm: nat, run: seq<Step>, y: System)
    requires Reachable(capacity, prewarm, run, y)
    ensures Inv(y)
  {
    RunKeeps(Start(capacity, prewarm), run);
  }

  /** Whatever the interleaving, a request that returns a value returns its own answer. */
  lemma OwnAnswer(capacity: nat, prewarm: nat, run: seq<Step>, y: System, c: nat)
    requires Reachable(capacity, prewarm, run, y) && c < |y.calls| && y.calls[c].Finished?
    ensures y.calls[c].result == None || y.calls[c].result == Some(c)
  {
    ReachableInv(capacity, prewarm, run, y);
    assert CallOk(y, c);
  }

  /** No two requests share a slot, no pooled slot is in use, pooled slots are empty, and the pool
      never exceeds its capacity; a cancelled request's slot never returns. */
  lemma NoSharing(capacity: nat, prewarm: nat, run: seq<Step>, y: System, c: nat, d: nat)
    requires Reachable(capacity, prewarm, run, y) && c < |y.calls| && d < |y.calls| && c != d
    requires !y.calls[c].Finished?
    ensures !y.calls[d].Finished? ==> y.calls[c].slot != y.calls[d].slot
    ensures y.calls[c].slot !in y.pool && |y.pool| <= y.capacity
    ensures forall i :: i in y.pool ==> i < |y.slots| && y.slots[i] == EMPTY
  {
    ReachableInv(capacity, prewarm, run, y);
    assert CallOk(y, c) && CallOk(y, d);
  }

  /** An actor never holds a message whose slot is back in the pool or has been handed on. */
  lemma NoStaleMessage(capacity: nat, prewarm: nat, run: seq<Step>, y: System, c: nat)
    requires Reachable(capacity, prewarm, run, y) && c in y.mailbox
    ensures c < |y.calls| && (y.calls[c].Waiting? || y.calls[c].Dropped?)
    ensures y.calls[c].slot < |y.owner| && y.owner[y.calls[c].slot] == Call(c) && y.calls[c].slot !in y.pool
  {
    ReachableInv(capacity, prewarm, run, y);
    assert CallOk(y, c);
    NotPooled(y, c);
  }

  /** No lost wake-up: a waiting request's answer is still to be sent, or was lost with its actor, and
      its waker is in place; or the answer is in its slot and the caller is running or about to be
      woken. */
  lemma NoLostWakeup(capacity: nat, prewarm: nat, run: seq<Step>, y: System, c: nat)
    requires Reachable(capacity, prewarm, run, y) && c < |y.calls| && y.calls[c].Waiting?
    ensures y.calls[c].slot < |y.slots|
    ensures var s := y.slots[y.calls[c].slot];
            if c in y.mailbox || c in y.lost then s.value == None && (y.calls[c].parked ==> s.waker == Some(c))
            else s.value == Some(c) && (y.calls[c].parked ==> c in y.taken || c in y.runnable)
  {
    ReachableInv(capacity, prewarm, run, y);
    assert CallOk(y, c);
  }

  /** Unless its actor ended, a waiting request is never stuck: at most the actor's answer and one
      wake-up stand between it and a poll that returns its own answer, with the caller free to make
      that poll. */
  lemma WakesToAnswer(y: System, c: nat) returns (rest: seq<Step>)
    requires Inv(y) && c < |y.calls| && y.calls[c].Waiting? && c !in y.lost
    ensures |rest| <= 2 && Possible(y, rest) && forall s :: s in rest ==> s == Answer(c) || s == Wake(c)
    ensures var z := Final(y, rest);
            && c < |z.calls| && Enabled(z, Poll(c)) && (z.calls[c].parked ==> c in z.runnable)
            && c < |Next(z, Poll(c)).calls| && Next(z, Poll(c)).calls[c] == Releasing(y.calls[c].slot, Some(c))
  {
    assert CallOk(y, c);
    if c in y.mailbox {
      var z := Next(y, Answer(c));
      assert Final(y, [Answer(c)]) == z;
      if y.calls[c].parked {
        rest := [Answer(c), Wake(c)];
        assert rest[1..] == [Wake(c)] && Final(z, [Wake(c)]) == Next(z, Wake(c));
      } else {
        rest := [Answer(c)];
      }
    } else if y.calls[c].parked && c in y.taken {
      rest := [Wake(c)];
      assert Final(y, rest) == Next(y, Wake(c));
    } else {
      rest := [];
    }
  }

  lemma {:induction false} LostStaysLost(y: System, run: seq<Step>)
    requires Possible(y, run)
    ensures y.lost <= Final(y, run).lost && |y.calls| <= |Final(y, run).calls|
    decreases |run|
  {
    if run != [] { LostStaysLost(Next(y, run[0]), run[1..]); }
  }

  /** Some continuation gives the request its answer. */
  ghost predicate Answerable(y: System, c: nat) {
    exists run :: AnsweredBy(y, c, run)
  }

  ghost predicate AnsweredBy(y: System, c: nat, run: seq<Step>) {
    && Possible(y, run) && c < |Final(y, run).calls|
    && Final(y, run).calls[c].Releasing? && Final(y, run).calls[c].result == Some(c)
  }

  /** A waiting request can still be answered exactly when it was not in the mailbox of an actor that
      ended. Nothing tells such a caller: unlike a one-shot channel, its slot stays open for ever. */
  lemma AnswerableIff(y: System, c: nat)
    requires Inv(y) && c < |y.calls| && y.calls[c].Waiting?
    ensures Answerable(y, c) <==> c !in y.lost
  {
    hide Inv, Next, Enabled;
    if c in y.lost {
      forall run | Possible(y, run) ensures !AnsweredBy(y, c, run) {
        RunKeeps(y, run);
        LostStaysLost(y, run);
        LostNeverReturns(Final(y, run), c);
      }
    } else {
      var rest := WakesToAnswer(y, c);
      var z := Final(y, rest);
      PollNext(y, rest, c);
      assert AnsweredBy(y, c, rest + [Poll(c)]);
    }
  }

  lemma LostNeverReturns(y: System, c: nat)
    requires Inv(y) && c in y.lost
    ensures c < |y.calls| && (y.calls[c].Waiting? || y.calls[c].Dropped?)
  {
    assert CallOk(y, c);
  }

  lemma {:induction false} PollNext(y: System, run: seq<Step>, c: nat)
    requires Possible(y, run) && Enabled(Final(y, run), Poll(c))
    ensures Possible(y, run + [Poll(c)]) && Final(y, run + [Poll(c)]) == Next(Final(y, run), Poll(c))
    decreases |run|
  {
    hide Next, Enabled;
    var last := [Poll(c)];
    if run == [] {
      assert run + last == last && last[1..] == [];
    } else {
      assert (run + last)[0] == run[0] && (run + last)[1..] == run[1..] + last;
      PollNext(Next(y, run[0]), run[1..], c);
    }
  }

  /** A request is posted, and the actor ends before it takes it from its mailbox. */
  function Abandoned(): seq<Step> {
    [Acquire, Post(0), Lose(0)]
  }

  /** The caller then waits for an answer that no run brings. */
  lemma AbandonedWaits(capacity: nat)
    ensures Possible(Start(capacity, 0), Abandoned())
    ensures var y := Final(Start(capacity, 0), Abandoned());
            y.calls == [Waiting(0, false)] && y.lost == {0} && !Answerable(y, 0)
  {
    var y0 := Start(capacity, 0);
    var y1 := Next(y0, Acquire);
    var y2 := Next(y1, Post(0));
    var y3 := Next(y2, Lose(0));
    var m := Abandoned();
    ThreeSteps(y0, m[0], m[1], m[2]);
    assert Inv(y0);
    RunKeeps(y0, m);
    hide Answerable, Inv;
    AnswerableIff(y3, 0);
  }

  // ---------------------------------------------------------------- reuse

  /** How many requests have a slot they have not given back. */
  function Unfinished(calls: seq<Phase>): nat {
    if calls == [] then 0 else
    var n := |calls| - 1;
    Unfinished(calls[..n]) + (if calls[n].Finished? then 0 else 1)
  }

  lemma {:induction false} UnfinishedAt(calls: seq<Phase>, c: nat, p: Phase)
    requires c < |calls|
    ensures Unfinished(calls[c := p]) + (if calls[c].Finished? then 0 else 1) ==
            Unfinished(calls) + (if p.Finished? then 0 else 1)
    decreases |calls|
  {
    var n := |calls| - 1;
    var next := calls[c := p];
    if c == n {
      assert next[..n] == calls[..n];
    } else {
      UnfinishedAt(calls[..n], c, p);
      assert next[..n] == calls[..n][c := p];
    }
  }

  lemma UnfinishedSnoc(calls: seq<Phase>, p: Phase)
    ensures Unfinished(calls + [p]) == Unfinished(calls) + (if p.Finished? then 0 else 1)
  {
    assert (calls + [p])[..|calls|] == calls;
  }

  /** Whenever a slot is acquired, fewer than `n` are out. */
  predicate Modest(y: System, run: seq<Step>, n: nat)
    requires Possible(y, run)
    decreases |run|
  {
    run == [] || ((run[0].Acquire? ==> Unfinished(y.calls) < n) && Modest(Next(y, run[0]), run[1..], n))
  }

  /** The `n` slots are pooled or out. */
  predicate Closed(y: System, n: nat) {
    |y.slots| == n <= y.capacity && |y.pool| + Unfinished(y.calls) == n
  }

  lemma ClosedStep(y: System, s: Step, n: nat)
    requires Closed(y, n) && Enabled(y, s) && (s.Acquire? ==> Unfinished(y.calls) < n)
    ensures Closed(Next(y, s), n)
  {
    hide Unfinished;
    var z := Next(y, s);
    match s
    case Acquire => UnfinishedSnoc(y.calls, z.calls[|y.calls|]);
    case Post(c) => UnfinishedAt(y.calls, c, z.calls[c]);
    case PostFails(c) => UnfinishedAt(y.calls, c, z.calls[c]);
    case Poll(c) => UnfinishedAt(y.calls, c, z.calls[c]);
    case Cancel(c) => UnfinishedAt(y.calls, c, z.calls[c]);
    case Reset(c) => UnfinishedAt(y.calls, c, z.calls[c]);
    case Push(c) => UnfinishedAt(y.calls, c, z.calls[c]);
    case _ =>
  }

  lemma {:induction false} ClosedRun(y: System, run: seq<Step>, n: nat)
    requires Closed(y, n) && Possible(y, run) && Modest(y, run, n)
    ensures Closed(Final(y, run), n)
    decreases |run|
  {
    hide Closed, Next, Enabled;
    if run != [] {
      ClosedStep(y, run[0], n);
      ClosedRun(Next(y, run[0]), run[1..], n);
    }
  }

  /** The pool's purpose: while no more requests are out at once than slots were made at the start, no slot is
      ever made or thrown away, in any run. */
  lemma PoolSuffices(capacity: nat, prewarm: nat, run: seq<Step>)
    requires prewarm <= capacity && Possible(Start(capacity, prewarm), run)
    requires Modest(Start(capacity, prewarm), run, prewarm)
    ensures var y := Final(Start(capacity, prewarm), run);
            |y.slots| == prewarm && |y.pool| + Unfinished(y.calls) == prewarm
  {
    assert Closed(Start(capacity, prewarm), prewarm);
    ClosedRun(Start(capacity, prewarm), run, prewarm);
  }

  lemma ThreeSteps(y: System, a: Step, b: Step, c: Step)
    requires Enabled(y, a) && Enabled(Next(y, a), b) && Enabled(Next(Next(y, a), b), c)
    ensures Possible(y, [a, b, c]) && Final(y, [a, b, c]) == Next(Next(Next(y, a), b), c)
  {
    hide Next, Enabled;
    var last, two: seq<Step> := [c], [b, c];
    assert last[1..] == [] && two[1..] == last && [a, b, c][1..] == two;
    assert Possible(Next(Next(y, a), b), last) && Final(Next(Next(y, a), b), last) == Next(Next(Next(y, a), b), c);
    assert Possible(Next(y, a), two) && Final(Next(y, a), two) == Next(Next(Next(y, a), b), c);
  }

  /** A request whose post failed gets no answer and gives its slot back in two steps. */
  lemma FailedPostFinishes(y: System, c: nat)
    requires Inv(y) && Enabled(y, PostFails(c))
    ensures var run := [PostFails(c), Reset(c), Push(c)];
            && Possible(y, run) && Final(y, run).calls == y.calls[c := Finished(None)]
            && (|y.pool| < y.capacity ==> Final(y, run).pool == y.pool + [y.calls[c].slot])
  {
    var y1 := Next(y, PostFails(c));
    var y2 := Next(y1, Reset(c));
    var y3 := Next(y2, Push(c));
    assert y3.calls == y.calls[c := Finished(None)];
    hide Next, Enabled, Possible, Final;
    ThreeSteps(y, PostFails(c), Reset(c), Push(c));
  }
}
