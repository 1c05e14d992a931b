/** MULTI, EXEC, DISCARD and WATCH on one connection, with other clients' commands running at
    every point where the connection waits for a shard (src/production/connection_optimized.rs). */
module Transactions {
  import opened Numbers
  import opened Resp
  import opened Executor

  /** A request as the connection tells them apart. `Malformed` is a well-framed request whose
      arguments were rejected; `Channel` and `Stub` are the two kinds of stub command, each with its
      canned reply. */
  datatype Request =
    | Multi
    | Exec
    | Discard
    | Watch(keys: seq<Key>)
    | Unwatch
    | Channel(canned: Value)
    | Stub(canned: Value)
    | Unknown
    | Malformed
    | Plain(command: Command)

  // The beginning of each text stands for the whole text.
  const QUEUED: Value := SimpleString([81, 85, 69, 85, 69, 68])
  const EXECABORT: Value := Error([69, 88, 69, 67, 65, 66, 79, 82, 84])
  const NESTED: Value := Error([69, 82, 82, 32, 77, 85, 76, 84, 73])
  const WATCH_INSIDE: Value := Error([69, 82, 82, 32, 87, 65, 84, 67, 72])
  const NO_EXEC: Value := Error([69, 82, 82, 32, 69, 88, 69, 67])
  const NO_DISCARD: Value := Error([69, 82, 82, 32, 68, 73, 83, 67])
  const UNKNOWN: Value := Error([69, 82, 82, 32, 117])
  const NOPERM: Value := Error([78, 79, 80, 69, 82, 77])
  const BAD_ARGUMENTS: Value := Error([69, 82, 82, 32, 119])

  /** The connection's transaction fields. */
  datatype Session = Session(inTx: bool, queue: seq<Request>, errors: bool, watched: seq<(Key, Value)>)

  const FRESH := Session(false, [], false, [])

  /** What other clients run just before each of the connection's own store operations. */
  type Gaps = nat -> seq<Command>

  /** A queued request executed on the store: only plain commands touch it. */
  function Effect(r: Request, st: Store): Store {
    if r.Plain? then After(r.command, st) else st
  }

  function Served(r: Request, st: Store): Value {
    if r.Plain? then Reply(r.command, st) else if r.Unwatch? then OK else UNKNOWN
  }

  datatype Ran = Ran(replies: seq<Value>, store: Store)

  function RunQueue(st: Store, q: seq<Request>, gaps: Gaps, i: nat): (r: Ran)
    ensures |r.replies| == |q|
    decreases |q|
  {
    if q == [] then Ran([], st)
    else
      var now := RunAll(st, gaps(i));
      var rest := RunQueue(Effect(q[0], now), q[1..], gaps, i + 1);
      Ran([Served(q[0], now)] + rest.replies, rest.store)
  }

  /** The outcome of comparing snapshots; `i` counts the store operations so far. */
  datatype Checked = Checked(ok: bool, store: Store, i: nat)

  function CheckWatches(st: Store, ws: seq<(Key, Value)>, gaps: Gaps, i: nat): Checked
    decreases |ws|
  {
    if ws == [] then Checked(true, st, i)
    else
      var now := RunAll(st, gaps(i));
      if RespEqual(GetView(ws[0].0, now), ws[0].1) then CheckWatches(now, ws[1..], gaps, i + 1)
      else Checked(false, now, i + 1)
  }

  datatype Snapshots = Snapshots(watched: seq<(Key, Value)>, store: Store)

  function TakeSnapshots(st: Store, ks: seq<Key>, gaps: Gaps, i: nat): Snapshots
    decreases |ks|
  {
    if ks == [] then Snapshots([], st)
    else
      var now := RunAll(st, gaps(i));
      var rest := TakeSnapshots(now, ks[1..], gaps, i + 1);
      Snapshots([(ks[0], GetView(ks[0], now))] + rest.watched, rest.store)
  }

  /** `resp_values_equal`. */
  predicate RespEqual(a: Value, b: Value) {
    match (a, b)
    case (NilBulk, NilBulk) => true
    case (BulkString(x), BulkString(y)) => x == y
    case (Integer(x), Integer(y)) => x == y
    case (SimpleString(x), SimpleString(y)) => x == y
    case (Error(x), Error(y)) => x == y
    case (NilArray, NilArray) => true
    case (Array(xs), Array(ys)) => |xs| == |ys| && forall i :: 0 <= i < |xs| ==> RespEqual(xs[i], ys[i])
    case _ => false
  }

  lemma {:induction false} RespEqualIff(a: Value, b: Value)
    ensures RespEqual(a, b) <==> a == b
  {
    if a.Array? && b.Array? && |a.items| == |b.items| {
      forall i | 0 <= i < |a.items| ensures RespEqual(a.items[i], b.items[i]) <==> a.items[i] == b.items[i] {
        RespEqualIff(a.items[i], b.items[i]);
      }
    }
  }

  datatype Step = Step(session: Session, reply: Value, store: Store)

  function ExecStep(s: Session, st: Store, gaps: Gaps): Step {
    if s.errors then Step(FRESH, EXECABORT, st)
    else
      var checked := CheckWatches(st, s.watched, gaps, 0);
      if !checked.ok then Step(FRESH, NilArray, checked.store)
      else
        var ran := RunQueue(checked.store, s.queue, gaps, checked.i);
        Step(FRESH, Array(ran.replies), ran.store)
  }

  predicate Flags(r: Request) {
    r.Channel? || r.Unknown? || r.Malformed?
  }

  predicate Queues(r: Request) {
    r.Stub? || r.Unwatch? || r.Plain?
  }

  function Refusal(r: Request): Value {
    if r.Channel? then NOPERM else if r.Unknown? then UNKNOWN else BAD_ARGUMENTS
  }

  function InMulti(s: Session, r: Request, st: Store, gaps: Gaps): Step
    requires s.inTx
  {
    if Queues(r) then Step(s.(queue := s.queue + [r]), QUEUED, st)
    else if Flags(r) then Step(s.(errors := true), Refusal(r), st)
    else if r.Exec? then ExecStep(s, st, gaps)
    else if r.Discard? then Step(FRESH, OK, st)
    else Step(s, if r.Multi? then NESTED else WATCH_INSIDE, st)
  }

  function Outside(s: Session, r: Request, st: Store, gaps: Gaps): Step
    requires !s.inTx
  {
    match r
    case Multi => Step(Session(true, [], false, s.watched), OK, st)
    case Exec => Step(s, NO_EXEC, st)
    case Discard => Step(s, NO_DISCARD, st)
    case Watch(ks) =>
      var taken := TakeSnapshots(st, ks, gaps, 0);
      Step(s.(watched := s.watched + taken.watched), OK, taken.store)
    case Unwatch => Step(s.(watched := []), OK, st)
    case Plain(c) =>
      var now := RunAll(st, gaps(0));
      Step(s, Reply(c, now), After(c, now))
    case Stub(canned) => Step(s, canned, st)
    case Channel(canned) => Step(s, canned, st)
    case _ => Step(s, Refusal(r), st)
  }

  /** One request on the connection. */
  function Handle(s: Session, r: Request, st: Store, gaps: Gaps): Step {
    if s.inTx then InMulti(s, r, st, gaps) else Outside(s, r, st, gaps)
  }

  lemma QueueStep(st: Store, q: seq<Request>, gaps: Gaps, i: nat, j: nat)
    requires j < |q|
    ensures var now := RunAll(st, gaps(i + j));
            var rest := RunQueue(Effect(q[j], now), q[j + 1..], gaps, i + j + 1);
            RunQueue(st, q[j..], gaps, i + j) == Ran([Served(q[j], now)] + rest.replies, rest.store)
  {
    assert q[j..][0] == q[j] && q[j..][1..] == q[j + 1..];
  }

  lemma QueueEnd(st: Store, gaps: Gaps, i: nat)
    ensures RunQueue(st, [], gaps, i) == Ran([], st)
  {
  }

  // ---------------------------------------------------------------- the connection

  class ConnectionHandler {
    var inTx: bool
    var queue: seq<Request>
    var errors: bool
    var watched: seq<(Key, Value)>
    var store: Store

    ghost function State(): Session
      reads this
    {
      Session(inTx, queue, errors, watched)
    }

    constructor (store: Store)
      ensures State() == FRESH && this.store == store
    {
      inTx, queue, errors, watched := false, [], false, [];
      this.store := store;
    }

    method OthersRun(cs: seq<Command>)
      modifies this`store
      ensures store == RunAll(old(store), cs)
    {
      var i := 0;
      while i < |cs|
        invariant i <= |cs| && RunAll(store, cs[i..]) == RunAll(old(store), cs)
      {
        assert cs[i..][0] == cs[i] && cs[i..][1..] == cs[i + 1..];
        store := After(cs[i], store);
        i := i + 1;
      }
    }

    method Compare(ws: seq<(Key, Value)>, gaps: Gaps) returns (ok: bool, used: nat)
      modifies this`store
      ensures Checked(ok, store, used) == CheckWatches(old(store), ws, gaps, 0)
    {
      ok, used := true, 0;
      while ok && used < |ws|
        invariant used <= |ws|
        invariant if ok then CheckWatches(store, ws[used..], gaps, used) == CheckWatches(old(store), ws, gaps, 0)
                  else Checked(false, store, used) == CheckWatches(old(store), ws, gaps, 0)
      {
        assert ws[used..][0] == ws[used] && ws[used..][1..] == ws[used + 1..];
        OthersRun(gaps(used));
        if !RespEqual(GetView(ws[used].0, store), ws[used].1) { ok := false; }
        used := used + 1;
      }
    }

    method RunQueued(q: seq<Request>, gaps: Gaps, i: nat) returns (results: seq<Value>)
      modifies this`store
      ensures Ran(results, store) == RunQueue(old(store), q, gaps, i)
    {
      hide RunQueue, RunAll, Effect, Served;
      results := [];
      var j := 0;
      assert q[0..] == q;
      while j < |q|
        invariant j <= |q|
        invariant var rest := RunQueue(store, q[j..], gaps, i + j);
                  Ran(results + rest.replies, rest.store) == RunQueue(old(store), q, gaps, i)
      {
        QueueStep(store, q, gaps, i, j);
        OthersRun(gaps(i + j));
        ghost var rest := RunQueue(Effect(q[j], store), q[j + 1..], gaps, i + j + 1);
        assert results + ([Served(q[j], store)] + rest.replies) == (results + [Served(q[j], store)]) + rest.replies;
        results := results + [Served(q[j], store)];
        store := Effect(q[j], store);
        j := j + 1;
      }
      assert q[j..] == [];
      QueueEnd(store, gaps, i + j);
    }

    method Snapshot(ks: seq<Key>, gaps: Gaps)
      modifies this`store, this`watched
      ensures var taken := TakeSnapshots(old(store), ks, gaps, 0);
              watched == old(watched) + taken.watched && store == taken.store
    {
      var j := 0;
      while j < |ks|
        invariant j <= |ks|
        invariant var rest := TakeSnapshots(store, ks[j..], gaps, j);
                  && watched + rest.watched == old(watched) + TakeSnapshots(old(store), ks, gaps, 0).watched
                  && rest.store == TakeSnapshots(old(store), ks, gaps, 0).store
      {
        assert ks[j..][0] == ks[j] && ks[j..][1..] == ks[j + 1..];
        OthersRun(gaps(j));
        ghost var rest := TakeSnapshots(store, ks[j + 1..], gaps, j + 1);
        var view := GetView(ks[j], store);
        assert watched + ([(ks[j], view)] + rest.watched) == (watched + [(ks[j], view)]) + rest.watched;
        watched := watched + [(ks[j], view)];
        j := j + 1;
      }
    }

    method ExecuteTransaction(gaps: Gaps) returns (reply: Value)
      requires inTx
      modifies this
      ensures Step(State(), reply, store) == ExecStep(old(State()), old(store), gaps)
    {
      inTx := false;
      if errors {
        queue, errors, watched := [], false, [];
        return EXECABORT;
      }
      var ws := watched;
      watched := [];
      var ok, used := Compare(ws, gaps);
      var queued := queue;
      queue := [];
      if ok {
        var results := RunQueued(queued, gaps, used);
        reply := Array(results);
      } else {
        reply := NilArray;
      }
    }

    method HandleRequest(r: Request, gaps: Gaps) returns (reply: Value)
      modifies this
      ensures Step(State(), reply, store) == Handle(old(State()), r, old(store), gaps)
    {
      if inTx {
        match r
        case Exec => reply := ExecuteTransaction(gaps);
        case Discard =>
          inTx, queue, errors, watched := false, [], false, [];
          reply := OK;
        case Multi => reply := NESTED;
        case Watch(_) => reply := WATCH_INSIDE;
        case Channel(_) => errors := true; reply := NOPERM;
        case Unknown => errors := true; reply := UNKNOWN;
        case Malformed => errors := true; reply := BAD_ARGUMENTS;
        case _ => queue := queue + [r]; reply := QUEUED;
      } else {
        match r
        case Multi =>
          inTx, queue, errors := true, [], false;
          reply := OK;
        case Exec => reply := NO_EXEC;
        case Discard => reply := NO_DISCARD;
        case Watch(ks) => Snapshot(ks, gaps); reply := OK;
        case Unwatch => watched := []; reply := OK;
        case Channel(canned) => reply := canned;
        case Stub(canned) => reply := canned;
        case Unknown => reply := UNKNOWN;
        case Malformed => reply := BAD_ARGUMENTS;
        case Plain(c) =>
          OthersRun(gaps(0));
          reply := Reply(c, store);
          store := After(c, store);
      }
    }
  }

  // ---------------------------------------------------------------- other clients and WATCH

  /** All commands of other clients before the next `n` store operations. */
  function Foreign(gaps: Gaps, i: nat, n: nat): seq<Command>
    decreases n
  {
    if n == 0 then [] else gaps(i) + Foreign(gaps, i + 1, n - 1)
  }

  /** The store just after the first `n` gaps. */
  function Later(st: Store, gaps: Gaps, i: nat, n: nat): Store {
    RunAll(st, Foreign(gaps, i, n))
  }

  lemma LaterStep(st: Store, gaps: Gaps, i: nat, n: nat)
    ensures Later(st, gaps, i, n + 1) == Later(RunAll(st, gaps(i)), gaps, i + 1, n)
    ensures Later(st, gaps, i, 0) == st
  {
    RunAllTwice(st, gaps(i), Foreign(gaps, i + 1, n));
  }

  /** Watched key `j` shows its snapshot when it is read again. */
  predicate Matches(st: Store, ws: seq<(Key, Value)>, gaps: Gaps, i: nat, j: nat)
    requires j < |ws|
  {
    GetView(ws[j].0, Later(st, gaps, i, j + 1)) == ws[j].1
  }

  /** Checking runs only other clients' commands. */
  lemma {:induction false} CheckStore(st: Store, ws: seq<(Key, Value)>, gaps: Gaps, i: nat)
    ensures var c := CheckWatches(st, ws, gaps, i);
            && i <= c.i <= i + |ws| && (c.ok ==> c.i == i + |ws|) && c.store == Later(st, gaps, i, c.i - i)
    decreases |ws|
  {
    hide GetView, RunAll, Later, RespEqual;
    var c := CheckWatches(st, ws, gaps, i);
    LaterStep(st, gaps, i, 0);
    if ws != [] {
      var now := RunAll(st, gaps(i));
      CheckStore(now, ws[1..], gaps, i + 1);
      LaterStep(now, gaps, i + 1, 0);
      if c.i > i { LaterStep(st, gaps, i, c.i - i - 1); }
    }
  }

  /** Snapshots pass exactly when every watched key shows its snapshot at the moment it is read
      again: a key that changed and changed back passes. */
  lemma {:induction false} CheckIff(st: Store, ws: seq<(Key, Value)>, gaps: Gaps, i: nat)
    ensures CheckWatches(st, ws, gaps, i).ok <==> forall j: nat :: j < |ws| ==> Matches(st, ws, gaps, i, j)
    decreases |ws|
  {
    hide GetView, RunAll, Later, RespEqual;
    if ws != [] {
      var now := RunAll(st, gaps(i));
      RespEqualIff(GetView(ws[0].0, now), ws[0].1);
      CheckIff(now, ws[1..], gaps, i + 1);
      LaterStep(st, gaps, i, 0);
      LaterStep(now, gaps, i + 1, 0);
      assert Matches(st, ws, gaps, i, 0) <==> GetView(ws[0].0, now) == ws[0].1;
      forall j: nat | 0 < j < |ws| ensures Matches(st, ws, gaps, i, j) <==> Matches(now, ws[1..], gaps, i + 1, j - 1) {
        LaterStep(st, gaps, i, j);
      }
      hide Matches;
      if forall j: nat :: j < |ws| ==> Matches(st, ws, gaps, i, j) {
        var tail, next := ws[1..], i + 1;
        forall j: nat | j < |tail| ensures Matches(now, tail, gaps, next, j) {
          assert Matches(st, ws, gaps, i, j + 1);
        }
      }
    }
  }

  // ---------------------------------------------------------------- what the client can tell

  datatype Entry = Entry(request: Request, reply: Value)

  /** The client's own reading of its replies: the transaction it has open, if any. */
  datatype Tx = Tx(queued: seq<Request>, flagged: bool)

  function Read(t: Option<Tx>, e: Entry): Option<Tx> {
    if e.request.Multi? && e.reply == OK then Some(Tx([], false))
    else if t.None? || e.request.Exec? || e.request.Discard? then None
    else if e.reply == QUEUED then Some(Tx(t.value.queued + [e.request], t.value.flagged))
    else Some(Tx(t.value.queued, t.value.flagged || Flags(e.request)))
  }

  function Open(log: seq<Entry>): Option<Tx> {
    if log == [] then None else
    var n := |log| - 1;
    Read(Open(log[..n]), log[n])
  }

  /** An entry that ends every watch: UNWATCH outside MULTI, EXEC or DISCARD inside. A queued
      UNWATCH does not. */
  predicate Unwatches(e: Entry) {
    || (e.request.Unwatch? && e.reply == OK)
    || (e.request.Exec? && e.reply != NO_EXEC)
    || (e.request.Discard? && e.reply == OK)
  }

  /** The keys the client is watching, by its own reading. */
  function WatchedKeys(log: seq<Entry>): seq<Key> {
    if log == [] then [] else
    var n := |log| - 1;
    var e := log[n];
    if e.request.Watch? && e.reply == OK then WatchedKeys(log[..n]) + e.request.keys
    else if Unwatches(e) then []
    else WatchedKeys(log[..n])
  }

  /** What each key shows just before the connection's own operations `0`, `1`, and so on. */
  function Shown(ks: seq<Key>, st: Store, gaps: Gaps): (r: seq<(Key, Value)>)
    ensures |r| == |ks|
    ensures forall j: nat :: j < |ks| ==> r[j] == (ks[j], GetView(ks[j], Later(st, gaps, 0, j + 1)))
  {
    seq(|ks|, j requires 0 <= j < |ks| => (ks[j], GetView(ks[j], Later(st, gaps, 0, j + 1))))
  }

  /** A connection with its history: the replies so far, what every key watched since showed when it
      was watched, and the store at the last MULTI. */
  datatype Connection =
    Connection(session: Session, store: Store, log: seq<Entry>, snaps: seq<(Key, Value)>, atMulti: Store)

  ghost function Advance(c: Connection, r: Request, gaps: Gaps): Connection {
    var step := Handle(c.session, r, c.store, gaps);
    var e := Entry(r, step.reply);
    Connection(
      step.session, step.store, c.log + [e],
      if r.Watch? && e.reply == OK then c.snaps + Shown(r.keys, c.store, gaps) else if Unwatches(e) then []
          else c.snaps,
      if r.Multi? && e.reply == OK then c.store else c.atMulti)
  }

  /** A connection after any requests, with any commands of other clients in between. */
  ghost function Serve(st: Store, xs: seq<(Request, Gaps)>): Connection {
    if |xs| == 0 then Connection(FRESH, st, [], [], st) else
    var n := |xs| - 1;
    Advance(Serve(st, xs[..n]), xs[n].0, xs[n].1)
  }

  function FirstOf(ws: seq<(Key, Value)>): (r: seq<Key>)
    ensures |r| == |ws| && forall j :: 0 <= j < |ws| ==> r[j] == ws[j].0
  {
    seq(|ws|, j requires 0 <= j < |ws| => ws[j].0)
  }

  /** The hidden queue and flag say what the client can read from its replies, and while a
      transaction is open its requests have left the store alone. */
  ghost predicate QueueFaithful(c: Connection) {
    match Open(c.log)
    case None => !c.session.inTx && c.session.queue == [] && !c.session.errors
    case Some(t) =>
      && c.session.inTx && c.session.queue == t.queued && c.session.errors == t.flagged
      && c.store == c.atMulti
  }

  /** The watched list holds the keys the client knows it is watching, each with what it showed when
      it was watched. */
  ghost predicate WatchFaithful(c: Connection) {
    c.session.watched == c.snaps && FirstOf(c.snaps) == WatchedKeys(c.log)
  }

  ghost predicate Faithful(c: Connection) {
    QueueFaithful(c) && WatchFaithful(c)
  }

  /** Every snapshot is what its key shows when it is read, after the others' commands up to then. */
  lemma {:induction false} TakeAt(st: Store, ks: seq<Key>, gaps: Gaps, i: nat)
    ensures var t := TakeSnapshots(st, ks, gaps, i);
            && |t.watched| == |ks| && t.store == Later(st, gaps, i, |ks|)
            && forall j: nat :: j < |ks| ==> t.watched[j] == (ks[j], GetView(ks[j], Later(st, gaps, i, j + 1)))
    decreases |ks|
  {
    hide GetView, RunAll, Later;
    LaterStep(st, gaps, i, 0);
    if ks != [] {
      var now := RunAll(st, gaps(i));
      TakeAt(now, ks[1..], gaps, i + 1);
      LaterStep(now, gaps, i + 1, 0);
      LaterStep(st, gaps, i, |ks| - 1);
      forall j: nat | j < |ks|
        ensures TakeSnapshots(st, ks, gaps, i).watched[j] == (ks[j], GetView(ks[j], Later(st, gaps, i, j + 1)))
      {
        LaterStep(st, gaps, i, j);
      }
    }
  }

  lemma SnapshotsShown(st: Store, ks: seq<Key>, gaps: Gaps)
    ensures TakeSnapshots(st, ks, gaps, 0).watched == Shown(ks, st, gaps)
  {
    hide TakeSnapshots, Later, GetView;
    TakeAt(st, ks, gaps, 0);
  }

  lemma AdvanceQueue(c: Connection, r: Request, gaps: Gaps)
    requires QueueFaithful(c)
    ensures QueueFaithful(Advance(c, r, gaps))
  {
    hide RunQueue, CheckWatches, TakeSnapshots, RunAll, Reply, After, Later, Shown;
    var d := Advance(c, r, gaps);
    assert d.log[..|d.log| - 1] == c.log;
  }

  /** Which requests touch the watched list, as their replies show. */
  lemma HandleWatched(s: Session, r: Request, st: Store, gaps: Gaps)
    ensures var step := Handle(s, r, st, gaps);
            step.session.watched ==
            if r.Watch? && step.reply == OK then s.watched + Shown(r.keys, st, gaps)
            else if Unwatches(Entry(r, step.reply)) then [] else s.watched
  {
    hide RunQueue, CheckWatches, TakeSnapshots, RunAll, Reply, After, Later, Shown;
    if r.Watch? { SnapshotsShown(st, r.keys, gaps); }
  }

  lemma AdvanceWatch(c: Connection, r: Request, gaps: Gaps)
    requires WatchFaithful(c)
    ensures WatchFaithful(Advance(c, r, gaps))
  {
    hide Handle, Later;
    HandleWatched(c.session, r, c.store, gaps);
    var d := Advance(c, r, gaps);
    assert d.log[..|d.log| - 1] == c.log;
    if r.Watch? { assert FirstOf(c.snaps + Shown(r.keys, c.store, gaps)) == FirstOf(c.snaps) + r.keys; }
  }

  lemma {:induction false} ServeFaithful(st: Store, xs: seq<(Request, Gaps)>)
    ensures Faithful(Serve(st, xs))
  {
    if |xs| > 0 {
      hide QueueFaithful, WatchFaithful, Advance;
      var n := |xs| - 1;
      ServeFaithful(st, xs[..n]);
      AdvanceQueue(Serve(st, xs[..n]), xs[n].0, xs[n].1);
      AdvanceWatch(Serve(st, xs[..n]), xs[n].0, xs[n].1);
    }
  }

  // ---------------------------------------------------------------- what EXEC runs

  /** The command a queued request runs, if any. */
  function Own(r: Request): seq<Command> {
    if r.Plain? then [r.command] else []
  }

  /** The commands that run on the store before queued request `j` does, in order: before each request
      the other clients' commands, then the request's own command if it is a plain one. */
  function Script(q: seq<Request>, gaps: Gaps, i: nat, j: nat): seq<Command>
    requires j <= |q|
  {
    if j == 0 then []
    else Script(q, gaps, i, j - 1) + gaps(i + j - 1) + Own(q[j - 1])
  }

  /** The answer that request `j` of a queue gets from the executor. */
  ghost predicate AnswersQueued(v: Value, q: seq<Request>, st: Store, gaps: Gaps, i: nat, j: nat)
    requires j < |q|
  {
    match q[j]
    case Plain(c) => v == Reply(c, RunAll(st, Script(q, gaps, i, j) + gaps(i + j)))
    case Unwatch => v == OK
    case _ => v == UNKNOWN
  }

  lemma {:induction false} ScriptTail(q: seq<Request>, gaps: Gaps, i: nat, j: nat)
    requires j < |q|
    ensures Script(q, gaps, i, j + 1) == gaps(i) + Own(q[0]) + Script(q[1..], gaps, i + 1, j)
    decreases j
  {
    hide Own, Script;
    ScriptStep(q, gaps, i, j);
    if j == 0 {
      ScriptStart(q, gaps, i);
      ScriptStart(q[1..], gaps, i + 1);
      Padded(gaps(i), Own(q[0]));
    } else {
      ScriptTail(q, gaps, i, j - 1);
      ScriptStep(q[1..], gaps, i + 1, j - 1);
      Regroup(gaps(i) + Own(q[0]), Script(q[1..], gaps, i + 1, j - 1), gaps(i + j), Own(q[j]));
    }
  }

  lemma ScriptStart(q: seq<Request>, gaps: Gaps, i: nat)
    ensures Script(q, gaps, i, 0) == []
  {
  }

  lemma ScriptStep(q: seq<Request>, gaps: Gaps, i: nat, j: nat)
    requires j < |q|
    ensures Script(q, gaps, i, j + 1) == Script(q, gaps, i, j) + gaps(i + j) + Own(q[j])
  {
  }

  lemma Padded(a: seq<Command>, b: seq<Command>)
    ensures [] + a + b == a + b + []
  {
  }

  lemma Regroup(a: seq<Command>, b: seq<Command>, c: seq<Command>, d: seq<Command>)
    ensures a + b + c + d == a + (b + c + d)
    ensures a + b + c == a + (b + c)
  {
  }

  lemma RunOne(st: Store, r: Request, before: seq<Command>)
    ensures RunAll(st, before + Own(r)) == Effect(r, RunAll(st, before))
  {
    if r.Plain? {
      var one: seq<Command> := [r.command];
      RunAllTwice(st, before, one);
      hide After;
      assert one[1..] == [];
    } else {
      assert before + [] == before;
    }
  }

  lemma RunLater(st: Store, r: Request, before: seq<Command>, rest: seq<Command>)
    ensures RunAll(st, before + Own(r) + rest) == RunAll(Effect(r, RunAll(st, before)), rest)
  {
    hide RunAll, Effect, Own;
    RunOne(st, r, before);
    RunAllTwice(st, before + Own(r), rest);
  }

  lemma QueuedLater(v: Value, st: Store, q: seq<Request>, gaps: Gaps, i: nat, j: nat)
    requires 0 < j < |q|
    ensures AnswersQueued(v, q, st, gaps, i, j) <==>
            AnswersQueued(v, q[1..], Effect(q[0], RunAll(st, gaps(i))), gaps, i + 1, j - 1)
  {
    hide RunAll, Effect, Reply, Script, Own;
    ScriptTail(q, gaps, i, j - 1);
    var rest := Script(q[1..], gaps, i + 1, j - 1);
    RunLater(st, q[0], gaps(i), rest + gaps(i + j));
    Regroup(gaps(i) + Own(q[0]), rest, gaps(i + j), []);
  }

  /** Running a queue is running its script on the executor, and each request answers for the store as it
      then is. */
  lemma {:induction false} QueueRuns(st: Store, q: seq<Request>, gaps: Gaps, i: nat)
    ensures RunQueue(st, q, gaps, i).store == RunAll(st, Script(q, gaps, i, |q|))
    ensures forall j: nat :: j < |q| ==> AnswersQueued(RunQueue(st, q, gaps, i).replies[j], q, st, gaps, i, j)
    decreases |q|
  {
    hide RunAll, Effect, Served, RunQueue, AnswersQueued, Script, Own;
    if q == [] {
      QueueEnd(st, gaps, i);
      NothingRuns(st, gaps, i);
    } else {
      var now := RunAll(st, gaps(i));
      var next, rest := Effect(q[0], now), q[1..];
      QueueRuns(next, rest, gaps, i + 1);
      FirstQueued(st, q, gaps, i);
      QueueStep(st, q, gaps, i, 0);
      assert q[0..] == q;
      ScriptTail(q, gaps, i, |q| - 1);
      RunLater(st, q[0], gaps(i), Script(rest, gaps, i + 1, |rest|));
      var ran := RunQueue(st, q, gaps, i);
      forall j: nat | j < |q| ensures AnswersQueued(ran.replies[j], q, st, gaps, i, j) {
        if j > 0 { QueuedLater(ran.replies[j], st, q, gaps, i, j); }
      }
    }
  }

  lemma NothingRuns(st: Store, gaps: Gaps, i: nat)
    ensures RunAll(st, Script([], gaps, i, 0)) == st
  {
  }

  lemma FirstQueued(st: Store, q: seq<Request>, gaps: Gaps, i: nat)
    requires q != []
    ensures AnswersQueued(Served(q[0], RunAll(st, gaps(i))), q, st, gaps, i, 0)
  {
    hide RunAll, Reply;
    assert Script(q, gaps, i, 0) + gaps(i) == gaps(i);
  }

  /** EXEC, on any connection: refused outside MULTI; aborted exactly when a request since MULTI was
      flagged; nil exactly when some key no longer shows what it showed when it was watched; otherwise
      the executor runs the other clients' commands up to the last comparison and then the script of the
      requests answered QUEUED since MULTI, from the store as MULTI left it to the others, and every
      request answers for the store as it then is. Whatever the outcome, no transaction stays open, and
      inside MULTI nothing stays watched. */
  lemma ExecOutcome(st: Store, xs: seq<(Request, Gaps)>, gaps: Gaps)
    ensures var c := Serve(st, xs);
            var step := Handle(c.session, Exec, c.store, gaps);
            match Open(c.log)
            case None => step == Step(c.session, NO_EXEC, c.store)
            case Some(t) =>
              var w := |c.snaps|;
              var same := forall j: nat :: j < w ==> Matches(c.atMulti, c.snaps, gaps, 0, j);
              var checked := Later(c.atMulti, gaps, 0, w);
              && step.session == FRESH
              && (step.reply == EXECABORT <==> t.flagged)
              && (step.reply == NilArray <==> !t.flagged && !same)
              && (!t.flagged && same ==>
                    && step.store == RunAll(checked, Script(t.queued, gaps, w, |t.queued|))
                    && step.reply.Array? && |step.reply.items| == |t.queued|
                    && forall j: nat :: j < |t.queued| ==>
                         AnswersQueued(step.reply.items[j], t.queued, checked, gaps, w, j))
              && (t.flagged ==> step.store == c.atMulti)
              && (!t.flagged && !same ==> exists n: nat :: n <= w && step.store == Later(c.atMulti, gaps, 0, n))
  {
    hide RunQueue, CheckWatches, Serve, Later, Matches, Script, AnswersQueued;
    ServeFaithful(st, xs);
    var c := Serve(st, xs);
    CheckIff(c.store, c.snaps, gaps, 0);
    CheckStore(c.store, c.snaps, gaps, 0);
    QueueRuns(Later(c.store, gaps, 0, |c.snaps|), c.session.queue, gaps, |c.snaps|);
  }

  // ---------------------------------------------------------------- a client on its own

  /** No other client at all. */
  const ALONE: Gaps := _ => []

  function PlainsOf(q: seq<Request>): seq<Command> {
    if q == [] then [] else
    var n := |q| - 1;
    PlainsOf(q[..n]) + Own(q[n])
  }

  lemma {:induction false} ScriptAlone(q: seq<Request>, i: nat, j: nat)
    requires j <= |q|
    ensures Script(q, ALONE, i, j) == PlainsOf(q[..j])
    decreases j
  {
    if j > 0 {
      ScriptAlone(q, i, j - 1);
      assert q[..j][..j - 1] == q[..j - 1] && q[..j][j - 1] == q[j - 1];
    }
  }

  lemma {:induction false} ForeignAlone(i: nat, n: nat)
    ensures Foreign(ALONE, i, n) == []
    decreases n
  {
    if n > 0 { ForeignAlone(i + 1, n - 1); }
  }

  lemma LaterAlone(st: Store, i: nat, n: nat)
    ensures Later(st, ALONE, i, n) == st
  {
    ForeignAlone(i, n);
  }

  /** EXEC of plain commands, with nobody else about and every watched key as it was: the executor runs
      the commands one after the other, and answer `j` is its reply to command `j`. */
  lemma ExecAlone(s: Session, st: Store, cs: seq<Command>)
    requires s.inTx && !s.errors && |s.queue| == |cs| && forall j :: 0 <= j < |cs| ==> s.queue[j] == Plain(cs[j])
    requires forall j :: 0 <= j < |s.watched| ==> GetView(s.watched[j].0, st) == s.watched[j].1
    ensures var step := Handle(s, Exec, st, ALONE);
            && step.session == FRESH && step.store == RunAll(st, cs)
            && step.reply.Array? && |step.reply.items| == |cs|
            && forall j :: 0 <= j < |cs| ==> step.reply.items[j] == Reply(cs[j], RunAll(st, cs[..j]))
  {
    var w := |s.watched|;
    QueueRuns(st, s.queue, ALONE, w);
    hide Handle, RunQueue, AnswersQueued, RunAll, Reply, Script, GetView;
    ExecPasses(s, st);
    var ran := RunQueue(st, s.queue, ALONE, w);
    PlainScript(s.queue, cs, w, |cs|);
    assert cs[..|cs|] == cs;
    forall j: nat | j < |cs| ensures ran.replies[j] == Reply(cs[j], RunAll(st, cs[..j])) {
      PlainAnswer(ran.replies[j], s.queue, cs, st, w, j);
    }
  }

  lemma ExecPasses(s: Session, st: Store)
    requires s.inTx && !s.errors
    requires forall j :: 0 <= j < |s.watched| ==> GetView(s.watched[j].0, st) == s.watched[j].1
    ensures var ran := RunQueue(st, s.queue, ALONE, |s.watched|);
            Handle(s, Exec, st, ALONE) == Step(FRESH, Array(ran.replies), ran.store)
  {
    PassesAlone(st, s.watched);
    hide RunQueue, CheckWatches;
  }

  lemma PlainAnswer(v: Value, q: seq<Request>, cs: seq<Command>, st: Store, i: nat, j: nat)
    requires |q| == |cs| && j < |cs| && forall x :: 0 <= x < |cs| ==> q[x] == Plain(cs[x])
    requires AnswersQueued(v, q, st, ALONE, i, j)
    ensures v == Reply(cs[j], RunAll(st, cs[..j]))
  {
    hide RunAll, Reply, Script;
    PlainScript(q, cs, i, j);
    assert cs[..j] + [] == cs[..j];
  }

  lemma PassesAlone(st: Store, ws: seq<(Key, Value)>)
    requires forall j :: 0 <= j < |ws| ==> GetView(ws[j].0, st) == ws[j].1
    ensures CheckWatches(st, ws, ALONE, 0) == Checked(true, st, |ws|)
  {
    hide CheckWatches, Later, GetView;
    LaterAlone(st, 0, |ws|);
    CheckStore(st, ws, ALONE, 0);
    CheckIff(st, ws, ALONE, 0);
    forall j: nat | j < |ws| ensures Matches(st, ws, ALONE, 0, j) { LaterAlone(st, 0, j + 1); }
  }

  lemma PlainScript(q: seq<Request>, cs: seq<Command>, i: nat, j: nat)
    requires |q| == |cs| && j <= |cs| && forall x :: 0 <= x < |cs| ==> q[x] == Plain(cs[x])
    ensures Script(q, ALONE, i, j) == cs[..j]
  {
    ScriptAlone(q, i, j);
    AllPlain(q, cs, j);
  }

  lemma {:induction false} AllPlain(q: seq<Request>, cs: seq<Command>, j: nat)
    requires |q| == |cs| && j <= |cs| && forall x :: 0 <= x < |cs| ==> q[x] == Plain(cs[x])
    ensures PlainsOf(q[..j]) == cs[..j]
    decreases j
  {
    if j > 0 {
      AllPlain(q, cs, j - 1);
      assert q[..j][..j - 1] == q[..j - 1] && q[..j][j - 1] == Plain(cs[j - 1]);
      assert cs[..j] == cs[..j - 1] + [cs[j - 1]];
    }
  }

  /** The commands that an entry after `log` says have run: a command sent outside MULTI, or those of a
      transaction whose EXEC was answered with a list. */
  function Newly(log: seq<Entry>, e: Entry): seq<Command> {
    match e.request
    case Plain(c) => if Open(log).None? then [c] else []
    case Exec => if Open(log).Some? && e.reply.Array? then PlainsOf(Open(log).value.queued) else []
    case _ => []
  }

  function Executed(log: seq<Entry>): seq<Command> {
    if log == [] then [] else
    var n := |log| - 1;
    Executed(log[..n]) + Newly(log[..n], log[n])
  }

  /** EXEC on its own: a list means that the queue has run, anything else that nothing has. */
  lemma ExecsAlone(s: Session, st: Store)
    ensures var step := ExecStep(s, st, ALONE);
            step.store == if step.reply.Array? then RunAll(st, PlainsOf(s.queue)) else st
  {
    hide CheckWatches, RunQueue, RunAll, Later, PlainsOf, Script;
    var checked := CheckWatches(st, s.watched, ALONE, 0);
    CheckStore(st, s.watched, ALONE, 0);
    LaterAlone(st, 0, checked.i);
    QueueRuns(st, s.queue, ALONE, checked.i);
    ScriptAlone(s.queue, checked.i, |s.queue|);
    assert s.queue[..|s.queue|] == s.queue;
  }

  lemma AdvanceAlone(c: Connection, r: Request)
    requires QueueFaithful(c)
    ensures var step := Handle(c.session, r, c.store, ALONE);
            step.store == RunAll(c.store, Newly(c.log, Entry(r, step.reply)))
  {
    hide ExecStep, TakeSnapshots, Reply, After, Later, PlainsOf, Open;
    match r
    case Exec => ExecsAlone(c.session, c.store);
    case Watch(ks) =>
      TakeAt(c.store, ks, ALONE, 0);
      LaterAlone(c.store, 0, |ks|);
    case Plain(e) => RunOne(c.store, r, []);
    case _ =>
  }

  /** A client on its own, whatever it sends: the store is what the executor makes of exactly the commands
      that its log says have run, in that order. */
  lemma {:induction false} ServedAlone(st: Store, xs: seq<(Request, Gaps)>)
    requires forall j :: 0 <= j < |xs| ==> xs[j].1 == ALONE
    ensures Serve(st, xs).store == RunAll(st, Executed(Serve(st, xs).log))
  {
    if |xs| > 0 {
      var n := |xs| - 1;
      var c, d := Serve(st, xs[..n]), Serve(st, xs);
      ServedAlone(st, xs[..n]);
      ServeFaithful(st, xs[..n]);
      AdvanceAlone(c, xs[n].0);
      hide Handle, Newly, RunAll, Shown, QueueFaithful, WatchFaithful;
      var e := d.log[|c.log|];
      assert d.log[..|c.log|] == c.log;
      RunAllTwice(st, Executed(c.log), Newly(c.log, e));
    }
  }

  // ---------------------------------------------------------------- what a reply tells

  /** Inside MULTI each refusal has its own reply, so the client can tell what was refused and why. */
  lemma RefusalsTell(s: Session, r: Request, st: Store, gaps: Gaps)
    requires s.inTx
    ensures var reply := Handle(s, r, st, gaps).reply;
            && (reply == QUEUED <==> Queues(r))
            && (reply == NESTED <==> r.Multi?) && (reply == WATCH_INSIDE <==> r.Watch?)
            && (reply == NOPERM <==> r.Channel?) && (reply == UNKNOWN <==> r.Unknown?)
            && (reply == BAD_ARGUMENTS <==> r.Malformed?)
  {
    hide CheckWatches, RunQueue;
  }

  /** Outside MULTI so have EXEC, DISCARD and requests that were not understood, and none of them touches the
      session or the store. */
  lemma OutsideTells(s: Session, r: Request, st: Store, gaps: Gaps)
    requires !s.inTx && (r.Exec? || r.Discard? || r.Unknown? || r.Malformed?)
    ensures var step := Handle(s, r, st, gaps);
            && step.session == s && step.store == st
            && (step.reply == NO_EXEC <==> r.Exec?) && (step.reply == NO_DISCARD <==> r.Discard?)
            && (step.reply == UNKNOWN <==> r.Unknown?) && (step.reply == BAD_ARGUMENTS <==> r.Malformed?)
  {
  }
}
