/** Simulated time: skewed node clocks and timers (src/io/simulation.rs). */
module SimTime {
  const MILLION: int := 1000000

  // ---------------------------------------------------------------- skewed clocks

  /** A node's clock offset: fixed, in milliseconds, and drifting, in parts per million. */
  datatype Offset = Offset(fixed: int, drift: int, anchor: nat)

  /** Division that truncates toward zero. */
  function Truncate(x: int): int {
    if x >= 0 then x / MILLION else -((-x) / MILLION)
  }

  function Raw(o: Offset, global: int): int {
    global + o.fixed + Truncate((global - o.anchor) * o.drift)
  }

  /** `ClockOffset::apply`, before any machine overflow. */
  function LocalTime(o: Offset, global: nat): nat {
    if Raw(o, global) < 0 then 0 else Raw(o, global)
  }

  /** What `n` milliseconds drift by at rate `m`. */
  function Drifted(n: nat, m: nat): (r: int)
    ensures r >= 0
  {
    Product(n, m);
    (n * m) / MILLION
  }

  lemma Product(n: nat, m: nat)
    ensures n * m >= 0
  {
  }

  lemma DriftedStep(n: nat, m: nat)
    ensures m <= MILLION ==> Drifted(n, m) <= Drifted(n + 1, m) <= Drifted(n, m) + 1
    ensures m >= MILLION ==> Drifted(n + 1, m) >= Drifted(n, m) + 1
    ensures Drifted(0, m) == 0
  {
    var x := n * m;
    assert (n + 1) * m == x + m;
  }

  /** The drift as a signed distance from the anchor. */
  lemma DriftSigned(e: int, d: int)
    ensures Truncate(e * d) ==
            if e >= 0 then (if d >= 0 then Drifted(e, d) else -Drifted(e, -d))
            else (if d >= 0 then -Drifted(-e, d) else Drifted(-e, -d))
  {
    if e >= 0 && d < 0 { assert e * d == -(e * -d); Product(e, -d); }
    if e < 0 && d >= 0 { assert e * d == -(-e * d); Product(-e, d); }
    if e < 0 && d < 0 { assert e * d == -e * -d; Product(-e, -d); }
    if e >= 0 && d >= 0 { Product(e, d); }
  }

  /** One millisecond never moves a clock back when it drifts by at least minus a million, and never
      moves it forward when it drifts by at most that. */
  lemma RawStep(o: Offset, g: int)
    ensures o.drift >= -MILLION ==> Raw(o, g) <= Raw(o, g + 1)
    ensures o.drift <= -MILLION ==> Raw(o, g + 1) <= Raw(o, g)
  {
    var e, d := g - o.anchor, o.drift;
    DriftSigned(e, d);
    DriftSigned(e + 1, d);
    var m: nat := if d >= 0 then d else -d;
    if e >= 0 { DriftedStep(e, m); } else { DriftedStep(-e - 1, m); }
    hide Truncate, Drifted;
    assert Raw(o, g) == g + o.fixed + Truncate(e * d) && Raw(o, g + 1) == g + 1 + o.fixed + Truncate((e + 1) * d);
  }

  lemma {:induction false} RawRises(o: Offset, g: int, h: int)
    requires o.drift >= -MILLION && g <= h
    ensures Raw(o, g) <= Raw(o, h)
    decreases h - g
  {
    hide Raw;
    if g < h {
      RawStep(o, g);
      RawRises(o, g + 1, h);
    }
  }

  lemma {:induction false} RawFalls(o: Offset, g: int, h: int)
    requires o.drift <= -MILLION && g <= h
    ensures Raw(o, h) <= Raw(o, g)
    decreases h - g
  {
    hide Raw;
    if g < h {
      RawStep(o, g);
      RawFalls(o, g + 1, h);
    }
  }

  /** Drifting backwards faster than time passes, a clock reaches zero. */
  lemma ReachesZero(o: Offset) returns (g: nat)
    requires o.drift < -MILLION
    ensures LocalTime(o, g) == 0
  {
    var s := o.anchor + o.fixed;
    var n: nat := MILLION * (if s >= 0 then s else -s);
    g := o.anchor + n;
    var m: nat := -o.drift;
    DriftSigned(n, o.drift);
    DriftedMuch(n / MILLION, m);
  }

  lemma DriftedMuch(k: nat, m: nat)
    requires m > MILLION
    ensures Drifted(MILLION * k, m) >= MILLION * k + k
  {
    assert (MILLION * k) * m == MILLION * (k * m);
    assert k * m >= k * (MILLION + 1) by { MulMonotone(k, MILLION + 1, m); }
    assert (MILLION * (k * m)) / MILLION == k * m by { DivExact(k * m); }
  }

  lemma MulMonotone(k: nat, a: int, b: int)
    requires a <= b
    ensures k * a <= k * b
  {
  }

  lemma DivExact(x: int)
    ensures (MILLION * x) / MILLION == x
  {
  }

  ghost predicate NeverStepsBack(o: Offset) {
    forall g: nat, h: nat :: g <= h ==> LocalTime(o, g) <= LocalTime(o, h)
  }

  /** A node's clock never runs backwards exactly when it drifts by at least minus a million parts
      per million, or it stands at zero from the start. */
  lemma LocalTimeMonotoneIff(o: Offset)
    ensures NeverStepsBack(o) <==> o.drift >= -MILLION || LocalTime(o, 0) == 0
  {
    if o.drift >= -MILLION {
      forall g: nat, h: nat | g <= h ensures LocalTime(o, g) <= LocalTime(o, h) { RawRises(o, g, h); }
    } else {
      if LocalTime(o, 0) == 0 {
        forall g: nat, h: nat | g <= h ensures LocalTime(o, g) <= LocalTime(o, h) {
          RawFalls(o, 0, h);
          RawFalls(o, 0, g);
        }
      }
      var z := ReachesZero(o);
      if NeverStepsBack(o) { assert LocalTime(o, 0) <= LocalTime(o, z); }
    }
  }

  // ---------------------------------------------------------------- what a node's clock shows

  /** At the anchor, and at all times without drift, a clock is ahead by its fixed offset. */
  lemma FixedOffset(o: Offset, g: nat)
    requires g == o.anchor || o.drift == 0
    ensures LocalTime(o, g) == if g + o.fixed < 0 then 0 else g + o.fixed
  {
    assert (g - o.anchor) * o.drift == 0;
  }

  /** Clocks that differ in their fixed offsets alone stay apart by that difference, wherever neither has
      been stopped at zero. */
  lemma FixedApart(o: Offset, p: Offset, g: nat)
    requires o.drift == p.drift && o.anchor == p.anchor && LocalTime(o, g) > 0 && LocalTime(p, g) > 0
    ensures LocalTime(o, g) - LocalTime(p, g) == o.fixed - p.fixed
  {
    hide Truncate;
  }

  /** What a running clock has drifted by is the exact drift, to the millisecond towards zero. */
  lemma DriftIsExact(o: Offset, g: nat)
    requires LocalTime(o, g) > 0
    ensures var drifted := LocalTime(o, g) - g - o.fixed;
            var exact := (g - o.anchor) * o.drift;
            if exact >= 0 then 0 <= MILLION * drifted <= exact < MILLION * (drifted + 1)
            else MILLION * (drifted - 1) < exact <= MILLION * drifted <= 0
  {
  }
}
