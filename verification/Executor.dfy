/** The command executor of one shard, on string commands without expiry
    (src/redis/executor/string_ops.rs, src/redis/executor/key_ops.rs). */
module Executor {
  import opened Numbers
  import opened Resp

  type Key = seq<Byte>

  /** A stored value; lists, sets and sorted sets are all `Other`. */
  datatype Entry = Str(s: seq<Byte>) | Fields(fields: map<seq<Byte>, seq<Byte>>) | Other

  type Store = map<Key, Entry>

  datatype Command =
    | Get(key: Key)
    | Set(key: Key, value: seq<Byte>, nx: bool, xx: bool, get: bool)
    | GetSet(key: Key, value: seq<Byte>)
    | Append(key: Key, value: seq<Byte>)
    | IncrBy(key: Key, step: I64)
    | MGet(keys: seq<Key>)
    | MSet(pairs: seq<(Key, seq<Byte>)>)
    | Del(keys: seq<Key>)
    | Exists(keys: seq<Key>)
    | DbSize
    | Flush

  // The first word of each error text stands for the whole text.
  const OK: Value := SimpleString([79, 75])
  const WRONGTYPE: Value := Error([87, 82, 79, 78, 71, 84, 89, 80, 69])
  const NOT_AN_INTEGER: Value := Error([69, 82, 82, 32, 78])
  const OVERFLOW: Value := Error([69, 82, 82, 32, 79])

  function Find(k: Key, st: Store): Option<Entry> {
    if k in st then Some(st[k]) else None
  }

  /** The key holds something that string commands reject. */
  predicate NotString(k: Key, st: Store) {
    k in st && !st[k].Str?
  }

  /** GET: a string, nil, or WRONGTYPE. */
  function GetView(k: Key, st: Store): Value {
    match Find(k, st)
    case None => NilBulk
    case Some(Str(s)) => BulkString(s)
    case Some(_) => WRONGTYPE
  }

  /** One MGET answer: a non-string is nil. */
  function MGetView(k: Key, st: Store): Value {
    match Find(k, st)
    case Some(Str(s)) => BulkString(s)
    case _ => NilBulk
  }

  function MGetViews(ks: seq<Key>, st: Store): (r: seq<Value>)
    ensures |r| == |ks| && forall i :: 0 <= i < |ks| ==> r[i] == MGetView(ks[i], st)
  {
    seq(|ks|, i requires 0 <= i < |ks| => MGetView(ks[i], st))
  }

  /** Pairs stored left to right, so the last one for a key wins. */
  function PutAll(st: Store, ps: seq<(Key, seq<Byte>)>): Store
    decreases |ps|
  {
    if ps == [] then st else PutAll(st[ps[0].0 := Str(ps[0].1)], ps[1..])
  }

  function RemoveAll(st: Store, ks: seq<Key>): Store {
    if ks == [] then st else RemoveAll(st - {ks[0]}, ks[1..])
  }

  /** How many of the keys DEL removes; a repeated key is removed once. */
  function RemovedCount(st: Store, ks: seq<Key>): nat {
    if ks == [] then 0 else (if ks[0] in st then 1 else 0) + RemovedCount(st - {ks[0]}, ks[1..])
  }

  /** How many of the keys exist; a repeated key counts every time. */
  function PresentCount(st: Store, ks: seq<Key>): nat {
    if ks == [] then 0 else (if ks[0] in st then 1 else 0) + PresentCount(st, ks[1..])
  }

  /** The keys a command reads or writes; DBSIZE and FLUSHDB have no bounded set of keys. */
  function Keys(c: Command): set<Key> {
    match c
    case MGet(ks) => set k | k in ks
    case Del(ks) => set k | k in ks
    case Exists(ks) => set k | k in ks
    case MSet(ps) => set p | p in ps :: p.0
    case DbSize => {}
    case Flush => {}
    case _ => {c.key}
  }

  predicate OneKey(c: Command) {
    c.Get? || c.Set? || c.GetSet? || c.Append? || c.IncrBy?
  }

  predicate SetApplies(c: Command, st: Store)
    requires c.Set?
  {
    && !(c.get && NotString(c.key, st))
    && !(c.nx && c.key in st)
    && !(c.xx && c.key !in st)
  }

  /** The number INCRBY stores, if it stores one. */
  function IncrResult(c: Command, st: Store): Option<I64>
    requires c.IncrBy?
  {
    match Find(c.key, st)
    case None => Some(c.step)
    case Some(Str(s)) =>
      (match ParseI64(s)
       case None => None
       case Some(n) => if I64_MIN <= n + c.step <= I64_MAX then Some(n + c.step) else None)
    case Some(_) => None
  }

  /** The store after a command. */
  function After(c: Command, st: Store): Store {
    match c
    case Set(k, v, _, _, _) => if SetApplies(c, st) then st[k := Str(v)] else st
    case GetSet(k, v) => if NotString(k, st) then st else st[k := Str(v)]
    case Append(k, v) =>
      (match Find(k, st)
       case None => st[k := Str(v)]
       case Some(Str(s)) => st[k := Str(s + v)]
       case Some(_) => st)
    case IncrBy(k, _) => if IncrResult(c, st).Some? then st[k := Str(Format(IncrResult(c, st).value))] else st
    case MSet(ps) => PutAll(st, ps)
    case Del(ks) => RemoveAll(st, ks)
    case Flush => map[]
    case _ => st
  }

  /** Counts are i64 in the code; they are only meant for stores of addressable size. */
  function Count(n: nat): Value {
    if n <= I64_MAX then Integer(n) else OVERFLOW
  }

  /** The reply to a command. */
  function Reply(c: Command, st: Store): Value {
    match c
    case Get(k) => GetView(k, st)
    case Set(k, v, nx, xx, get) =>
      if get && NotString(k, st) then WRONGTYPE
      else if get then GetView(k, st)
      else if SetApplies(c, st) then OK
      else NilBulk
    case GetSet(k, _) => GetView(k, st)
    case Append(k, v) =>
      (match Find(k, st)
       case None => Count(|v|)
       case Some(Str(s)) => Count(|s| + |v|)
       case Some(_) => WRONGTYPE)
    case IncrBy(k, _) =>
      (match Find(k, st)
       case None => Integer(c.step)
       case Some(Str(s)) =>
         if ParseI64(s).None? then NOT_AN_INTEGER
         else if IncrResult(c, st).None? then OVERFLOW
         else Integer(IncrResult(c, st).value)
       case Some(_) => WRONGTYPE)
    case MGet(ks) => Array(MGetViews(ks, st))
    case MSet(_) => OK
    case Del(ks) => Count(RemovedCount(st, ks))
    case Exists(ks) => Count(PresentCount(st, ks))
    case DbSize => Count(|st|)
    case Flush => OK
  }

  /** The store after some commands, in order. */
  function RunAll(st: Store, cs: seq<Command>): Store
    decreases |cs|
  {
    if cs == [] then st else RunAll(After(cs[0], st), cs[1..])
  }

  lemma {:induction false} RunAllTwice(st: Store, a: seq<Command>, b: seq<Command>)
    ensures RunAll(st, a + b) == RunAll(RunAll(st, a), b)
    decreases |a|
  {
    if a == [] {
      assert a + b == b;
    } else {
      assert (a + b)[1..] == a[1..] + b;
      RunAllTwice(After(a[0], st), a[1..], b);
    }
  }

  // ---------------------------------------------------------------- what the folds compute

  /** MSET keeps other keys and stores, for each key, the last value given for it. */
  lemma {:induction false} PutAllAt(st: Store, ps: seq<(Key, seq<Byte>)>, k: Key)
    ensures var r := PutAll(st, ps);
            if LastFor(ps, k).Some? then k in r && r[k] == Str(LastFor(ps, k).value)
            else Find(k, r) == Find(k, st)
    decreases |ps|
  {
    if ps != [] {
      PutAllAt(st[ps[0].0 := Str(ps[0].1)], ps[1..], k);
    }
  }

  function LastFor(ps: seq<(Key, seq<Byte>)>, k: Key): Option<seq<Byte>> {
    if ps == [] then None
    else if LastFor(ps[1..], k).Some? then LastFor(ps[1..], k)
    else if ps[0].0 == k then Some(ps[0].1) else None
  }

  lemma {:induction false} RemoveAllAt(st: Store, ks: seq<Key>, k: Key)
    ensures Find(k, RemoveAll(st, ks)) == if k in ks then None else Find(k, st)
  {
    if ks != [] {
      RemoveAllAt(st - {ks[0]}, ks[1..], k);
    }
  }

  lemma ExtEq(a: Store, b: Store)
    requires forall k :: Find(k, a) == Find(k, b)
    ensures a == b
  {
    forall k | k in a ensures k in b && a[k] == b[k] { assert Find(k, a) == Find(k, b); }
    forall k | k in b ensures k in a { assert Find(k, a) == Find(k, b); }
  }

  /** DEL's count is the number of keys that disappear. */
  lemma {:induction false} RemovedIsDrop(st: Store, ks: seq<Key>)
    ensures RemovedCount(st, ks) + |RemoveAll(st, ks)| == |st|
  {
    if ks != [] {
      var k := ks[0];
      RemovedIsDrop(st - {k}, ks[1..]);
      assert (st - {k}).Keys == st.Keys - {k};
      assert |st| == |st.Keys| && |st - {k}| == |(st - {k}).Keys|;
    }
  }

  // ---------------------------------------------------------------- laws of the commands

  /** Lengths and counts are those of an addressable store. */
  predicate Countable(c: Command, st: Store) {
    match c
    case Append(k, v) => |v| <= I64_MAX && (k in st && st[k].Str? ==> |st[k].s| + |v| <= I64_MAX)
    case Del(_) => |st| <= I64_MAX
    case _ => true
  }

  /** A command that answers with an error has changed nothing. */
  lemma ErrorsChangeNothing(c: Command, st: Store)
    requires Countable(c, st) && Reply(c, st).Error?
    ensures After(c, st) == st
  {
    if c.Del? { RemovedIsDrop(st, c.keys); }
  }

  /** MGET answers each key as GET does when GET shows a string, and with nil otherwise: never an error. */
  lemma MGetIsGets(ks: seq<Key>, st: Store, i: nat)
    requires i < |ks|
    ensures var r, one := Reply(MGet(ks), st), Reply(Get(ks[i]), st);
            && r.Array? && |r.items| == |ks|
            && r.items[i] == if one.BulkString? then one else NilBulk
  {
  }

  /** A SET that applies is what the next GET shows, a refused one leaves the old value; with GET the
      reply is the old value either way. */
  lemma SetShows(c: Command, st: Store)
    requires c.Set?
    ensures Reply(Get(c.key), After(c, st)) == if SetApplies(c, st) then BulkString(c.value) else Reply(Get(c.key), st)
    ensures c.get ==> Reply(c, st) == Reply(Get(c.key), st)
    ensures !c.get ==> (Reply(c, st) == OK <==> SetApplies(c, st))
  {
  }

  /** An INCRBY that answers a number leaves the key showing that number: the old one plus the step. */
  lemma IncrThenGet(k: Key, step: I64, st: Store)
    requires Reply(IncrBy(k, step), st).Integer?
    ensures var n := Reply(IncrBy(k, step), st).n;
            && Reply(Get(k), After(IncrBy(k, step), st)) == BulkString(Format(n))
            && ParseI64(Format(n)) == Some(n)
            && n == step + match Find(k, st) case Some(Str(s)) => ParseI64(s).value case _ => 0
  {
    ParseFormat(Reply(IncrBy(k, step), st).n);
  }

  /** Steps add up: two increments that both answer a number do what one by their sum does. */
  lemma IncrTwice(k: Key, a: I64, b: I64, st: Store)
    requires I64_MIN <= a + b <= I64_MAX
    requires Reply(IncrBy(k, a), st).Integer? && Reply(IncrBy(k, b), After(IncrBy(k, a), st)).Integer?
    ensures Reply(IncrBy(k, b), After(IncrBy(k, a), st)) == Reply(IncrBy(k, a + b), st)
    ensures After(IncrBy(k, b), After(IncrBy(k, a), st)) == After(IncrBy(k, a + b), st)
  {
    hide Format, ParseI64;
    ParseFormat(Reply(IncrBy(k, a), st).n);
  }

  /** Two APPENDs are one APPEND of both texts; GETSET answers what GET would and stores like SET. */
  lemma AppendTwice(k: Key, a: seq<Byte>, b: seq<Byte>, st: Store)
    requires !NotString(k, st)
    ensures After(Append(k, b), After(Append(k, a), st)) == After(Append(k, a + b), st)
    ensures Reply(Get(k), After(GetSet(k, a), st)) == BulkString(a) && Reply(GetSet(k, a), st) == Reply(Get(k), st)
  {
    if k in st { assert st[k].s + (a + b) == st[k].s + a + b; }
  }

  /** GET, GETSET, APPEND and INCRBY answer a type error exactly when the key holds no string. */
  lemma TypeErrorIff(c: Command, st: Store)
    requires c.Get? || c.GetSet? || c.Append? || c.IncrBy?
    ensures Reply(c, st) == WRONGTYPE <==> NotString(c.key, st)
  {
  }

  /** NX and XX, against EXISTS: SET applies exactly when neither forbids it and it need not answer with a
      value that is no string. */
  lemma SetAppliesIff(c: Command, st: Store)
    requires c.Set?
    ensures var there := Reply(Exists([c.key]), st) == Integer(1);
            After(c, st) == (if (c.nx && there) || (c.xx && !there) || (c.get && Reply(Get(c.key), st).Error?) then st
                             else st[c.key := Str(c.value)])
  {
    var one: seq<Key> := [c.key];
    assert one[1..] == [];
    assert PresentCount(st, one) == if c.key in st then 1 else 0;
  }

  /** APPEND answers the length of what GET then shows, which is the old text and the new one. */
  lemma AppendAnswersLength(k: Key, v: seq<Byte>, st: Store)
    requires !NotString(k, st) && Countable(Append(k, v), st)
    ensures var was, now := Reply(Get(k), st), Reply(Get(k), After(Append(k, v), st));
            && now.BulkString? && Reply(Append(k, v), st) == Integer(|now.data|)
            && now.data == (if was.BulkString? then was.data else []) + v
  {
  }

  /** INCRBY answers a number exactly when the key is missing or shows an i64, and the sum is one too. */
  lemma IncrAnswersIff(k: Key, step: I64, st: Store)
    ensures Reply(IncrBy(k, step), st).Integer? <==>
              match Reply(Get(k), st)
              case NilBulk => true
              case BulkString(s) => ParseI64(s).Some? && I64_MIN <= ParseI64(s).value + step <= I64_MAX
              case _ => false
  {
    hide ParseI64, Format;
  }

  /** EXISTS counts the keys that GET does not answer with nil, each as often as it is named. */
  lemma {:induction false} ExistsCounts(ks: seq<Key>, k: Key, st: Store)
    ensures PresentCount(st, ks + [k]) == PresentCount(st, ks) + (if Reply(Get(k), st) == NilBulk then 0 else 1)
    ensures PresentCount(st, []) == 0
  {
    var all := ks + [k];
    if ks == [] {
      assert all == [k] && all[1..] == [];
    } else {
      assert all[0] == ks[0] && all[1..] == ks[1..] + [k];
      ExistsCounts(ks[1..], k, st);
    }
  }

  lemma {:induction false} AllPresent(ks: seq<Key>, st: Store)
    requires forall i, j :: 0 <= i < j < |ks| ==> ks[i] != ks[j]
    requires forall k :: k in st ==> k in ks
    ensures PresentCount(st, ks) == |st|
    decreases |ks|
  {
    if ks == [] {
      assert st == map[];
    } else {
      var k, rest := ks[0], ks[1..];
      var less := st - {k};
      assert ks == [k] + rest && k !in rest;
      forall x | x in less ensures x in rest { assert x in ks; }
      AllPresent(rest, less);
      SameCount(rest, st, less);
      assert less.Keys == st.Keys - {k};
      assert |st| == |st.Keys| && |less| == |less.Keys|;
    }
  }

  /** DBSIZE is EXISTS of any list that names every key once. */
  lemma SizeIsExists(ks: seq<Key>, st: Store)
    requires forall i, j :: 0 <= i < j < |ks| ==> ks[i] != ks[j]
    requires forall k :: k in st ==> k in ks
    ensures Reply(DbSize, st) == Reply(Exists(ks), st)
  {
    AllPresent(ks, st);
  }

  lemma {:induction false} SameCount(ks: seq<Key>, a: Store, b: Store)
    requires forall k :: k in ks ==> (k in a <==> k in b)
    ensures PresentCount(a, ks) == PresentCount(b, ks)
  {
    if ks != [] { SameCount(ks[1..], a, b); }
  }

  /** After FLUSHDB nothing is left. */
  lemma FlushEmpties(st: Store, k: Key)
    ensures Reply(Get(k), After(Flush, st)) == NilBulk && Reply(DbSize, After(Flush, st)) == Integer(0)
  {
  }
}
