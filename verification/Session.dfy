/** The read loop of a connection: append what was read, then decode until nothing more comes
    out (src/bin/server_persistent.rs, src/production/connection_optimized.rs). */
module Session {
  import opened Numbers
  import opened Resp

  /** One decoded value, or one protocol error (which throws the buffer away). */
  datatype Event = Got(value: Value) | Bad(error: ProtocolError)

  /** What a run of reads produced, what is still buffered, and whether decoding panicked. */
  datatype Trace = Trace(events: seq<Event>, left: seq<Byte>, dead: bool)

  function Prepend(es: seq<Event>, t: Trace): Trace {
    t.(events := es + t.events)
  }

  type Decoder = seq<Byte> -> Outcome<Value>

  /** A decoder makes progress and never changes its mind when more bytes arrive. */
  ghost predicate Steady(d: Decoder) {
    && (forall s :: d(s).Parsed? ==> 0 < d(s).used <= |s|)
    && (forall s, t :: KeepsVerdict(d, s, t))
  }

  predicate KeepsVerdict(d: Decoder, s: seq<Byte>, t: seq<Byte>) {
    !d(s).Incomplete? ==> d(s + t) == d(s)
  }

  /** Decode a buffer until nothing more comes out. */
  ghost function Drain(d: Decoder, buf: seq<Byte>): Trace
    requires Steady(d)
    decreases |buf|
  {
    if buf == [] then Trace([], [], false)
    else
      match d(buf)
      case Parsed(v, used) => Prepend([Got(v)], Drain(d, buf[used..]))
      case Incomplete => Trace([], buf, false)
      case Invalid(e) => Trace([Bad(e)], [], false)
      case Crash => Trace([], [], true)
  }

  /** All reads of a connection, from a given buffer. */
  ghost function Run(d: Decoder, buf: seq<Byte>, chunks: seq<seq<Byte>>): Trace
    requires Steady(d)
    decreases |chunks|
  {
    if chunks == [] then Trace([], buf, false)
    else
      var t := Drain(d, buf + chunks[0]);
      if t.dead then t else Prepend(t.events, Run(d, t.left, chunks[1..]))
  }

  function Concat(chunks: seq<seq<Byte>>): seq<Byte> {
    if chunks == [] then [] else chunks[0] + Concat(chunks[1..])
  }

  /** A way a stream can reach the server: `read` never returns an empty chunk. */
  predicate SplitOf(chunks: seq<seq<Byte>>, s: seq<Byte>) {
    Concat(chunks) == s && forall i :: 0 <= i < |chunks| ==> chunks[i] != []
  }

  /** The last event is a protocol error; decoding stops at the first one. */
  predicate Failed(t: Trace) {
    t.events != [] && t.events[|t.events| - 1].Bad?
  }

  /** Some strict prefix of the stream already raises a protocol error. */
  ghost predicate EarlyError(d: Decoder, s: seq<Byte>)
    requires Steady(d)
  {
    exists p :: FailsAt(d, s, p)
  }

  ghost predicate FailsAt(d: Decoder, s: seq<Byte>, p: int)
    requires Steady(d)
  {
    0 < p < |s| && Failed(Drain(d, s[..p]))
  }

  // ---------------------------------------------------------------- the imperative loop

  /** The `BytesMut` a connection reads into, with what it has answered so far. */
  class Connection {
    var buffer: seq<Byte>
    var answered: seq<Event>
    var dead: bool

    constructor ()
      ensures buffer == [] && answered == [] && !dead
    {
      buffer, answered, dead := [], [], false;
    }

    /** `RespCodec::parse`: decode one value and advance past it. */
    method Parse() returns (r: Outcome<Value>)
      modifies this`buffer
      ensures r == TryParse(old(buffer)) && (old(buffer) == [] ==> r == Incomplete)
      ensures buffer == if r.Parsed? then old(buffer)[r.used..] else old(buffer)
    {
      if buffer == [] {
        return Incomplete;
      }
      r := TryParse(buffer);
      if r.Parsed? {
        buffer := buffer[r.used..];
      }
    }

    /** One successful read: the new events and the new buffer are those of `Drain`. */
    method OnRead(chunk: seq<Byte>)
      requires !dead
      modifies this
      ensures Steady(TryParse)
      ensures var d := Drain(TryParse, old(buffer) + chunk);
              answered == old(answered) + d.events && buffer == d.left && dead == d.dead
    {
      hide TryParse, Drain, Steady;
      CodecIsSteady();
      buffer := buffer + chunk;
      ghost var goal := Prepend(answered, Drain(TryParse, buffer));
      var more := true;
      while more
        invariant more ==> !dead && Prepend(answered, Drain(TryParse, buffer)) == goal
        invariant !more ==> Trace(answered, buffer, dead) == goal
        decreases more, |buffer|
      {
        DrainStep(TryParse, buffer);
        var r := Parse();
        match r
        case Parsed(v, _) =>
          PrependTwice(answered, [Got(v)], Drain(TryParse, buffer));
          answered := answered + [Got(v)];
        case Incomplete =>
          more := false;
        case Invalid(e) =>
          answered := answered + [Bad(e)];
          buffer := [];
          more := false;
        case Crash =>
          buffer := [];
          dead := true;
          more := false;
      }
    }
  }

  // ---------------------------------------------------------------- chunking

  /** Draining a longer buffer drains the shorter one first; after an error or a panic the
      extra bytes are lost. */
  lemma {:induction false} DrainExtends(d: Decoder, a: seq<Byte>, b: seq<Byte>)
    requires Steady(d)
    ensures var t := Drain(d, a);
            Drain(d, a + b) == if Failed(t) || t.dead then t else Prepend(t.events, Drain(d, t.left + b))
    decreases |a|
  {
    assert KeepsVerdict(d, a, b);
    if a == [] {
      assert a + b == b;
      assert Prepend([], Drain(d, b)) == Drain(d, b);
    } else if d(a).Incomplete? {
      assert Prepend([], Drain(d, a + b)) == Drain(d, a + b);
    } else if d(a).Parsed? {
      var used, es := d(a).used, [Got(d(a).value)];
      var tail := Drain(d, a[used..]);
      assert (a + b)[used..] == a[used..] + b;
      DrainExtends(d, a[used..], b);
      PrependTwice(es, tail.events, Drain(d, tail.left + b));
    }
  }

  lemma DrainStep(d: Decoder, buf: seq<Byte>)
    requires Steady(d)
    ensures buf == [] || d(buf).Incomplete? ==> Drain(d, buf) == Trace([], buf, false)
    ensures buf != [] && d(buf).Parsed? ==>
              d(buf).used <= |buf| && Drain(d, buf) == Prepend([Got(d(buf).value)], Drain(d, buf[d(buf).used..]))
    ensures buf != [] && d(buf).Invalid? ==> Drain(d, buf) == Trace([Bad(d(buf).error)], [], false)
    ensures buf != [] && d(buf).Crash? ==> Drain(d, buf) == Trace([], [], true)
  {
  }

  lemma PrependTwice(xs: seq<Event>, ys: seq<Event>, t: Trace)
    ensures Prepend(xs, Prepend(ys, t)) == Prepend(xs + ys, t)
  {
    assert xs + (ys + t.events) == xs + ys + t.events;
  }

  /** Bytes left in the buffer decode to nothing, and a failed buffer leaves none. */
  lemma {:induction false} Leftovers(d: Decoder, a: seq<Byte>)
    requires Steady(d)
    ensures var t := Drain(d, a);
            if Failed(t) then t.left == [] && !t.dead
            else !t.dead ==> Drain(d, t.left) == Trace([], t.left, false)
    decreases |a|
  {
    if a != [] && d(a).Parsed? {
      Leftovers(d, a[d(a).used..]);
    }
  }

  /** Reads and one big read agree, unless some strict prefix already failed. */
  lemma {:induction false} RunOrEarlyError(d: Decoder, buf: seq<Byte>, chunks: seq<seq<Byte>>)
    requires Steady(d)
    requires Drain(d, buf) == Trace([], buf, false)
    requires forall i :: 0 <= i < |chunks| ==> chunks[i] != []
    ensures Run(d, buf, chunks) == Drain(d, buf + Concat(chunks)) || EarlyError(d, buf + Concat(chunks))
    decreases |chunks|
  {
    hide Drain;
    var s := buf + Concat(chunks);
    if chunks == [] {
      assert s == buf;
    } else {
      var c, rest := buf + chunks[0], chunks[1..];
      var t := Drain(d, c);
      var b := Concat(rest);
      assert s == c + b;
      DrainExtends(d, c, b);
      Leftovers(d, c);
      if Failed(t) {
        if rest == [] {
          assert s == c;
          assert Run(d, buf, chunks) == Prepend(t.events, Trace([], [], false)) == t;
        } else {
          assert rest[0] != [] && |b| > 0;
          assert s[..|c|] == c;
          assert FailsAt(d, s, |c|);
        }
      } else if !t.dead {
        RunOrEarlyError(d, t.left, rest);
        if Run(d, t.left, rest) != Drain(d, t.left + b) {
          EarlyErrorLifts(d, c, b);
        }
      }
    }
  }

  lemma EarlyErrorLifts(d: Decoder, c: seq<Byte>, b: seq<Byte>)
    requires Steady(d)
    requires !Failed(Drain(d, c)) && !Drain(d, c).dead
    requires c != [] && EarlyError(d, Drain(d, c).left + b)
    ensures EarlyError(d, c + b)
  {
    hide Drain;
    var left := Drain(d, c).left;
    var p :| FailsAt(d, left + b, p);
    Leftovers(d, c);
    if p < |left| {
      assert (left + b)[..p] == left[..p] && left[..p] + left[p..] == left;
      DrainExtends(d, left[..p], left[p..]);
    } else {
      var j := p - |left|;
      assert (left + b)[..p] == left + b[..j];
      DrainExtends(d, c, b[..j]);
      assert (c + b)[..|c| + j] == c + b[..j];
      assert FailsAt(d, c + b, |c| + j);
    }
  }

  /** The bytes dropped with a failed buffer are decoded afresh when they come in a read of
      their own, so the split shows. */
  lemma EarlyErrorShows(d: Decoder, s: seq<Byte>, p: nat)
    requires Steady(d)
    requires FailsAt(d, s, p)
    ensures SplitOf([s[..p], s[p..]], s)
    ensures Run(d, [], [s[..p], s[p..]]) != Drain(d, s)
  {
    hide Drain;
    var one, two := s[..p], s[p..];
    var last: seq<seq<Byte>> := [two];
    var chunks: seq<seq<Byte>> := [one, two];
    assert chunks[1..] == last;
    assert last[1..] == chunks[2..] && |chunks[2..]| == 0;
    assert Concat(chunks[2..]) == [];
    assert Concat(last) == two && Concat(chunks) == one + two == s;
    DrainExtends(d, one, two);
    Leftovers(d, one);
    assert [] + one == one && [] + two == two;
    var t, u := Drain(d, one), Drain(d, two);
    assert Run(d, [], last).events == u.events;
    DrainShows(d, two);
  }

  /** Non-empty input always leaves a mark. */
  lemma DrainShows(d: Decoder, s: seq<Byte>)
    requires Steady(d) && s != []
    ensures var t := Drain(d, s); t.events != [] || t.left != [] || t.dead
  {
  }

  /** Splitting a stream into reads never matters exactly when no strict prefix of the stream
      raises a protocol error. */
  lemma SplitsAgreeIff(d: Decoder, s: seq<Byte>)
    requires Steady(d)
    ensures (forall chunks :: SplitOf(chunks, s) ==> Run(d, [], chunks) == Drain(d, s)) <==> !EarlyError(d, s)
  {
    hide Run;
    if EarlyError(d, s) {
      var p :| FailsAt(d, s, p);
      EarlyErrorShows(d, s, p);
    } else {
      forall chunks | SplitOf(chunks, s) ensures Run(d, [], chunks) == Drain(d, s) {
        RunOrEarlyError(d, [], chunks);
        assert [] + Concat(chunks) == s;
      }
    }
  }

  lemma CodecIsSteady()
    ensures Steady(TryParse)
  {
    hide TryParse;
    forall s, t ensures KeepsVerdict(TryParse, s, t) {
      if !TryParse(s).Incomplete? {
        ParseStable(s, t);
      }
    }
  }

  /** Chunking of the RESP codec: the split is invisible exactly when no strict prefix fails. */
  lemma ChunkingIff(s: seq<Byte>)
    ensures Steady(TryParse)
    ensures (forall chunks :: SplitOf(chunks, s) ==> Run(TryParse, [], chunks) == Drain(TryParse, s))
            <==> !EarlyError(TryParse, s)
  {
    CodecIsSteady();
    SplitsAgreeIff(TryParse, s);
  }

  lemma QuietSplitsAgree(d: Decoder, s: seq<Byte>, chunks: seq<seq<Byte>>)
    requires Steady(d)
    requires SplitOf(chunks, s) && !Failed(Drain(d, s))
    ensures Run(d, [], chunks) == Drain(d, s)
  {
    hide Drain, Run;
    SplitsAgreeIff(d, s);
    if EarlyError(d, s) {
      var p :| FailsAt(d, s, p);
      assert s[..p] + s[p..] == s;
      DrainExtends(d, s[..p], s[p..]);
    }
  }

  /** A stream that decodes without protocol error decodes alike under every split. */
  lemma ChunkingIndependence(s: seq<Byte>, chunks: seq<seq<Byte>>)
    requires SplitOf(chunks, s)
    ensures Steady(TryParse)
    ensures !Failed(Drain(TryParse, s)) ==> Run(TryParse, [], chunks) == Drain(TryParse, s)
  {
    CodecIsSteady();
    hide Drain, Run;
    if !Failed(Drain(TryParse, s)) {
      QuietSplitsAgree(TryParse, s, chunks);
    }
  }

  /** `!` and then `+OK\r\n`: one read loses the second value, two reads keep it. */
  lemma SplitShows()
    ensures Steady(TryParse)
    ensures var s: seq<Byte> := [33, SIMPLE, 79, 75, CR, LF];
            SplitOf([s[..1], s[1..]], s) && Run(TryParse, [], [s[..1], s[1..]]) != Drain(TryParse, s)
  {
    var s: seq<Byte> := [33, SIMPLE, 79, 75, CR, LF];
    CodecIsSteady();
    assert s[..1] == [33] && TryParse([33]).Invalid?;
    assert FailsAt(TryParse, s, 1);
    EarlyErrorShows(TryParse, s, 1);
  }

  // ---------------------------------------------------------------- streams of values

  function Values(vs: seq<Value>): (es: seq<Event>)
    ensures |es| == |vs| && forall i :: 0 <= i < |vs| ==> es[i] == Got(vs[i])
  {
    seq(|vs|, i requires 0 <= i < |vs| => Got(vs[i]))
  }

  predicate Printable(vs: seq<Value>) {
    forall i :: 0 <= i < |vs| ==> Clean(vs[i]) && Addressable(vs[i])
  }

  lemma ValuesCons(vs: seq<Value>)
    requires vs != []
    ensures [Got(vs[0])] + Values(vs[1..]) == Values(vs)
  {
  }

  lemma NoValues(rest: seq<Byte>, t: Trace)
    ensures EncodeAll([]) + rest == rest && Prepend(Values([]), t) == t
  {
    assert [] + t.events == t.events;
  }

  /** Decoding printed values gives them back, and then whatever the rest gives. */
  lemma {:induction false} DrainsValues(vs: seq<Value>, rest: seq<Byte>)
    requires Steady(TryParse) && Printable(vs)
    ensures Drain(TryParse, EncodeAll(vs) + rest) == Prepend(Values(vs), Drain(TryParse, rest))
    decreases |vs|
  {
    hide Steady, TryParse, Drain, EncodeAll, Encode, Prepend, Values, Clean, Addressable;
    if vs == [] {
      NoValues(rest, Drain(TryParse, rest));
    } else {
      FirstEncoded(vs, rest);
      DrainsValue(vs[0], EncodeAll(vs[1..]) + rest);
      DrainsValues(vs[1..], rest);
      ValuesCons(vs);
      PrependTwice([Got(vs[0])], Values(vs[1..]), Drain(TryParse, rest));
    }
  }

  lemma DrainsValue(v: Value, tail: seq<Byte>)
    requires Steady(TryParse) && Clean(v) && Addressable(v)
    ensures Drain(TryParse, Encode(v) + tail) == Prepend([Got(v)], Drain(TryParse, tail))
  {
    RoundTrip(v, tail);
    DrainStep(TryParse, Encode(v) + tail);
    hide TryParse, Drain, Encode;
    assert (Encode(v) + tail)[|Encode(v)|..] == tail;
  }

  /** A stream of printed values and part of another one, cut into reads in any way, is decoded to exactly
      those values, in order, and the part stays in the buffer. */
  lemma StreamDecodes(vs: seq<Value>, part: seq<Byte>, chunks: seq<seq<Byte>>)
    requires Printable(vs) && TryParse(part).Incomplete? && SplitOf(chunks, EncodeAll(vs) + part)
    ensures Steady(TryParse) && Run(TryParse, [], chunks) == Trace(Values(vs), part, false)
  {
    CodecIsSteady();
    DrainsValues(vs, part);
    var s := EncodeAll(vs) + part;
    var t := Drain(TryParse, s);
    assert Drain(TryParse, part) == Trace([], part, false);
    assert t == Trace(Values(vs), part, false) by { assert Values(vs) + [] == Values(vs); }
    hide Drain, Run, TryParse;
    assert !Failed(t);
    QuietSplitsAgree(TryParse, s, chunks);
  }

  /** Input the codec rejects, after printed values and in one read with them: the values, then the error,
      and nothing is kept of the rest. */
  lemma StreamFails(vs: seq<Value>, bad: seq<Byte>)
    requires Printable(vs) && TryParse(bad).Invalid?
    ensures Steady(TryParse)
    ensures Drain(TryParse, EncodeAll(vs) + bad) == Trace(Values(vs) + [Bad(TryParse(bad).error)], [], false)
  {
    CodecIsSteady();
    DrainsValues(vs, bad);
    assert bad != [];
    hide TryParse;
    DrainStep(TryParse, bad);
  }
}
