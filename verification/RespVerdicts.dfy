/** Exactly when the codec rejects its input, waits for more of it, or panics, and when waiting can end
    (src/redis/resp_optimized.rs). */
module RespVerdicts {
  import opened Numbers
  import opened Resp

  // ---------------------------------------------------------------- lines

  predicate NumberTag(b: Byte) { b == INTEGER || b == BULK || b == ARRAY }

  predicate TextTag(b: Byte) { b == SIMPLE || b == ERROR }

  /** A type byte, a text without CR up to `p`, and a line end. */
  predicate Line(s: seq<Byte>, p: nat) {
    0 < p && p + 1 < |s| && s[p] == CR && s[p + 1] == LF && forall i :: 0 <= i < p ==> s[i] != CR
  }

  /** A line whose text is the number `n`. */
  predicate NumberLineAt(s: seq<Byte>, p: nat, n: int) {
    Line(s, p) && ParseI64(s[1..p]) == Some(n)
  }

  lemma FindsLine(s: seq<Byte>, p: nat)
    requires s != [] && s[0] != CR
    ensures FindCrlf(s) == Some(p) <==> Line(s, p)
  {
    if Line(s, p) { assert FirstCr(s) == Some(p); }
  }

  lemma ReadsLine(s: seq<Byte>, p: nat)
    requires s != [] && s[0] != CR && Line(s, p)
    ensures ReadLine(s) == Parsed(s[1..p], p + 2)
    ensures ReadNumber(s) ==
            match ParseI64(s[1..p])
            case None => Invalid(BadNumber(s[1..p]))
            case Some(n) => Parsed(n, p + 2)
  {
    FindsLine(s, p);
  }

  /** No line has ended, and with a lone CR none ever will. */
  ghost predicate NoLine(s: seq<Byte>) {
    forall p: nat :: !Line(s, p)
  }

  lemma ReadsNoLine(s: seq<Byte>)
    requires s != [] && s[0] != CR
    ensures NoLine(s) <==> ReadLine(s).Incomplete?
    ensures NoLine(s) <==> ReadNumber(s).Incomplete?
  {
    match FindCrlf(s)
    case Some(p) => FindsLine(s, p);
    case None => forall p: nat ensures !Line(s, p) { FindsLine(s, p); }
  }

  // ---------------------------------------------------------------- items

  /** Both stop short of a value, for the same reason. */
  predicate SameStop<V, W>(a: Outcome<V>, b: Outcome<W>) {
    || (a.Incomplete? && b.Incomplete?)
    || (a.Invalid? && b.Invalid? && a.error == b.error)
    || (a.Crash? && b.Crash?)
  }

  /** What follows the first `m` items. */
  function Following(s: seq<Byte>, m: nat): seq<Byte>
    requires ParseItems(s, m).Parsed?
  {
    s[ParseItems(s, m).used..]
  }

  /** Items do not decode exactly when some item, after others that do, stops for the same reason. */
  lemma {:induction false} ItemsStop(s: seq<Byte>, n: nat) returns (m: nat)
    requires !ParseItems(s, n).Parsed?
    ensures m < n && ParseItems(s, m).Parsed? && SameStop(ParseItems(s, n), TryParse(Following(s, m)))
    decreases n
  {
    hide TryParse;
    match TryParse(s)
    case Parsed(_, used) =>
      m := ItemsStop(s[used..], n - 1);
      NextItem(s, m);
      m := m + 1;
    case _ =>
      m := 0;
      EmptyWaits();
  }

  lemma EmptyWaits()
    ensures TryParse([]).Incomplete?
  {
  }

  /** One more item in front. */
  lemma NextItem(s: seq<Byte>, m: nat)
    requires TryParse(s).Parsed? && s != []
    ensures var rest := s[TryParse(s).used..];
            && (ParseItems(s, m + 1).Parsed? <==> ParseItems(rest, m).Parsed?)
            && (ParseItems(s, m + 1).Parsed? ==> Following(s, m + 1) == Following(rest, m))
            && (!ParseItems(s, m + 1).Parsed? ==> SameStop(ParseItems(s, m + 1), ParseItems(rest, m)))
  {
    hide TryParse;
  }

  lemma {:induction false} ItemsStopAt(s: seq<Byte>, n: nat, m: nat)
    requires m < n && ParseItems(s, m).Parsed? && !TryParse(Following(s, m)).Parsed?
    ensures SameStop(ParseItems(s, n), TryParse(Following(s, m)))
    decreases n
  {
    hide TryParse, ParseItems;
    if m == 0 {
      FirstStops(s, n);
    } else {
      SomeItem(s, m);
      NextItem(s, m - 1);
      NextItem(s, n - 1);
      ItemsStopAt(s[TryParse(s).used..], n - 1, m - 1);
    }
  }

  lemma FirstStops(s: seq<Byte>, n: nat)
    requires n > 0 && ParseItems(s, 0).Parsed? && !TryParse(Following(s, 0)).Parsed?
    ensures SameStop(ParseItems(s, n), TryParse(Following(s, 0)))
  {
    hide TryParse;
    EmptyWaits();
  }

  lemma SomeItem(s: seq<Byte>, m: nat)
    requires m > 0 && ParseItems(s, m).Parsed?
    ensures s != [] && TryParse(s).Parsed?
  {
    hide TryParse;
  }

  // ---------------------------------------------------------------- the three verdicts

  /** An array whose item after `m` good ones starts at `rest`. */
  ghost predicate ItemAt(s: seq<Byte>, p: nat, n: int, m: nat) {
    && s != [] && s[0] == ARRAY && NumberLineAt(s, p, n) && m < n && ParseItems(s[p + 2..], m).Parsed?
  }

  function ItemRest(s: seq<Byte>, p: nat, n: int, m: nat): seq<Byte>
    requires ItemAt(s, p, n, m)
  {
    Following(s[p + 2..], m)
  }

  ghost predicate BadLine(s: seq<Byte>, e: ProtocolError) {
    s != [] && NumberTag(s[0]) && exists p: nat :: Line(s, p) && ParseI64(s[1..p]) == None && e == BadNumber(s[1..p])
  }

  ghost predicate BadItem(s: seq<Byte>, e: ProtocolError) {
    exists p: nat, n: int, m: nat :: ItemAt(s, p, n, m) && TryParse(ItemRest(s, p, n, m)) == Invalid(e)
  }

  lemma ArrayVerdict(s: seq<Byte>, p: nat)
    requires s != [] && s[0] == ARRAY && Line(s, p)
    ensures TryParse(s) ==
            match ParseI64(s[1..p])
            case None => Invalid(BadNumber(s[1..p]))
            case Some(n) =>
              if n == -1 then Parsed(NilArray, p + 2) else if n < -1 then Crash
              else AsArray(p + 2, ParseItems(s[p + 2..], n))
  {
    ReadsLine(s, p);
    hide ParseItems;
  }

  lemma ArrayStops(s: seq<Byte>, p: nat, n: int)
    requires s != [] && s[0] == ARRAY && NumberLineAt(s, p, n) && n >= 0
    ensures TryParse(s) == AsArray(p + 2, ParseItems(s[p + 2..], n))
  {
    hide TryParse, ParseItems;
    ArrayVerdict(s, p);
  }

  lemma OneLine(s: seq<Byte>, p: nat, q: nat)
    requires Line(s, p) && Line(s, q)
    ensures p == q
  {
  }

  lemma ItemStops(s: seq<Byte>, p: nat, n: int, m: nat)
    requires ItemAt(s, p, n, m) && !TryParse(ItemRest(s, p, n, m)).Parsed?
    ensures SameStop(TryParse(s), TryParse(ItemRest(s, p, n, m)))
  {
    hide TryParse, ParseItems;
    ArrayStops(s, p, n);
    ItemsStopAt(s[p + 2..], n, m);
  }

  lemma StopsAtItem(s: seq<Byte>, p: nat, n: nat) returns (m: nat)
    requires s != [] && s[0] == ARRAY && NumberLineAt(s, p, n) && !TryParse(s).Parsed?
    ensures ItemAt(s, p, n, m) && SameStop(TryParse(s), TryParse(ItemRest(s, p, n, m)))
  {
    hide TryParse, ParseItems;
    ArrayStops(s, p, n);
    m := ItemsStop(s[p + 2..], n);
  }

  /** What follows from a line alone. */
  lemma LineVerdict(s: seq<Byte>, p: nat)
    requires s != [] && (NumberTag(s[0]) || TextTag(s[0])) && Line(s, p)
    ensures TextTag(s[0]) ==> TryParse(s).Parsed?
    ensures NumberTag(s[0]) && ParseI64(s[1..p]).None? ==> TryParse(s) == Invalid(BadNumber(s[1..p]))
    ensures s[0] == INTEGER && ParseI64(s[1..p]).Some? ==> TryParse(s).Parsed?
  {
    hide ParseItems;
    ReadsLine(s, p);
    hide ReadNumber;
  }

  lemma NoLineWaits(s: seq<Byte>)
    requires s != [] && (NumberTag(s[0]) || TextTag(s[0])) && NoLine(s)
    ensures TryParse(s).Incomplete?
  {
    hide ParseItems;
    ReadsNoLine(s);
  }

  lemma KnownTag(s: seq<Byte>)
    requires s == [] || (!NumberTag(s[0]) && !TextTag(s[0]))
    ensures TryParse(s) == if s == [] then Incomplete else Invalid(UnknownType(s[0]))
  {
  }

  /** The codec rejects its input if and only if the type byte is unknown, the first line after `:`, `$` or
      `*` is no i64, or the first item of an array that does not decode is rejected. */
  lemma InvalidIff(s: seq<Byte>, e: ProtocolError)
    ensures TryParse(s) == Invalid(e) <==>
              || (s != [] && !NumberTag(s[0]) && !TextTag(s[0]) && e == UnknownType(s[0]))
              || BadLine(s, e) || BadItem(s, e)
  {
    hide ParseItems, TryParse, ParseI64;
    if s == [] || (!NumberTag(s[0]) && !TextTag(s[0])) {
      KnownTag(s);
    } else if p: nat :| Line(s, p) {
      LineVerdict(s, p);
      if ParseI64(s[1..p]).None? {
        forall q: nat | Line(s, q) ensures q == p { OneLine(s, p, q); }
      } else {
        NumberRejects(s, p, ParseI64(s[1..p]).value, e);
      }
    } else {
      NoLineWaits(s);
    }
  }

  lemma NumberRejects(s: seq<Byte>, p: nat, n: int, e: ProtocolError)
    requires s != [] && (NumberTag(s[0]) || TextTag(s[0])) && NumberLineAt(s, p, n)
    ensures !BadLine(s, e)
    ensures TryParse(s) == Invalid(e) <==> BadItem(s, e)
  {
    hide ParseItems, TryParse, ParseI64;
    forall q: nat | Line(s, q) ensures q == p { OneLine(s, p, q); }
    LineVerdict(s, p);
    if BadItem(s, e) {
      var q: nat, k: int, m: nat :| ItemAt(s, q, k, m) && TryParse(ItemRest(s, q, k, m)) == Invalid(e);
      ItemStops(s, q, k, m);
    }
    if TryParse(s) == Invalid(e) {
      RejectsByNumber(s, p, n);
      var m := StopsAtItem(s, p, n);
    }
  }

  lemma RejectsByNumber(s: seq<Byte>, p: nat, n: int)
    requires s != [] && (NumberTag(s[0]) || TextTag(s[0])) && NumberLineAt(s, p, n) && TryParse(s).Invalid?
    ensures s[0] == ARRAY && n >= 0
  {
    hide ParseItems, TryParse, ParseI64;
    LineVerdict(s, p);
    if s[0] == BULK { BulkVerdict(s, p, n); } else if s[0] == ARRAY { ArrayVerdict(s, p); }
  }

  /** A bulk string whose payload has not all arrived, or whose length is so far below minus one that its end
      lies beyond every buffer. */
  ghost predicate ShortBulk(s: seq<Byte>) {
    && s != [] && s[0] == BULK
    && exists p: nat, n: int :: NumberLineAt(s, p, n) && (if n >= 0 then p + n + 4 > |s| else n + p + 4 < 0)
  }

  ghost predicate WaitingItem(s: seq<Byte>) {
    exists p: nat, n: int, m: nat :: ItemAt(s, p, n, m) && TryParse(ItemRest(s, p, n, m)).Incomplete?
  }

  lemma BulkVerdict(s: seq<Byte>, p: nat, n: int)
    requires s != [] && s[0] == BULK && NumberLineAt(s, p, n)
    ensures TryParse(s) ==
            if n == -1 then Parsed(NilBulk, p + 2)
            else if n < -1 then (if n + p + 4 >= 0 then Crash else Incomplete)
            else if p + n + 4 > |s| then Incomplete
            else Parsed(BulkString(s[p + 2..p + 2 + n]), p + n + 4)
  {
    hide TryParse, ReadNumber, ParseI64, ParseItems;
    ReadsLine(s, p);
    IsBulk(s);
    assert ReadNumber(s) == Parsed(n, p + 2);
    hide Line;
  }

  lemma IsBulk(s: seq<Byte>)
    requires s != [] && s[0] == BULK
    ensures TryParse(s) == ParseBulk(s)
  {
    hide ParseBulk;
  }

  /** The codec waits if and only if there is nothing yet, the first line has not ended, a payload has not all
      arrived, or the first item of an array that does not decode is waited for. */
  lemma IncompleteIff(s: seq<Byte>)
    ensures TryParse(s).Incomplete? <==>
              || s == [] || ((NumberTag(s[0]) || TextTag(s[0])) && NoLine(s)) || ShortBulk(s) || WaitingItem(s)
  {
    if s != [] && (NumberTag(s[0]) || TextTag(s[0])) {
      ReadsNoLine(s);
      hide ParseItems;
      if p: nat :| Line(s, p) {
        ReadsLine(s, p);
        hide ReadNumber;
        LineDecides(s, p);
      }
    }
  }

  lemma LineDecides(s: seq<Byte>, p: nat)
    requires s != [] && (NumberTag(s[0]) || TextTag(s[0])) && Line(s, p)
    ensures TryParse(s).Incomplete? <==> ShortBulk(s) || WaitingItem(s)
  {
    ReadsLine(s, p);
    hide ParseItems, ReadNumber, ReadLine;
    if s[0] == BULK && ParseI64(s[1..p]).Some? {
      var n := ParseI64(s[1..p]).value;
      BulkVerdict(s, p, n);
      assert NumberLineAt(s, p, n);
      forall q: nat, k: int | NumberLineAt(s, q, k) ensures q == p && k == n { OneLine(s, p, q); }
    } else if s[0] == ARRAY {
      ArrayWaits(s, p);
    }
  }

  lemma ArrayWaits(s: seq<Byte>, p: nat)
    requires s != [] && s[0] == ARRAY && Line(s, p)
    ensures TryParse(s).Incomplete? <==> WaitingItem(s)
  {
    hide ParseItems, TryParse, ParseI64;
    ArrayVerdict(s, p);
    if WaitingItem(s) {
      var q: nat, n: int, m: nat :| ItemAt(s, q, n, m) && TryParse(ItemRest(s, q, n, m)).Incomplete?;
      ItemStops(s, q, n, m);
    }
    if TryParse(s).Incomplete? {
      var m := StopsAtItem(s, p, ParseI64(s[1..p]).value);
    }
  }

  // ---------------------------------------------------------------- when waiting can end

  /** The smallest number a line may hold for a value to follow. */
  function Least(tag: Byte): int {
    if tag == INTEGER then I64_MIN else -1
  }

  predicate AtLeast(text: seq<Byte>, least: int) {
    ParseI64(text).Some? && ParseI64(text).value >= least
  }

  /** The beginning of a number no smaller than `least`. */
  predicate Begins(text: seq<Byte>, least: int) {
    text == [] || text == [PLUS] || text == [MINUS] || AtLeast(text, least)
  }

  /** The first line is still open: no CR, or one at the very end. */
  predicate Open(s: seq<Byte>) {
    s != [] && forall i :: 0 <= i < |s| - 1 ==> s[i] != CR
  }

  /** An open number line that can become a number. */
  predicate NumberOpen(s: seq<Byte>)
    requires Open(s)
  {
    var n := |s| - 1;
    if n > 0 && s[n] == CR then AtLeast(s[1..n], Least(s[0])) else Begins(s[1..], Least(s[0]))
  }

  /** What is waited for can still come. */
  ghost predicate Hopeful(s: seq<Byte>)
    decreases |s|
  {
    || s == []
    || (TextTag(s[0]) && Open(s))
    || (NumberTag(s[0]) && Open(s) && NumberOpen(s))
    || (s[0] == BULK && exists p: nat, n: int :: NumberLineAt(s, p, n) && n >= 0 && p + n + 4 > |s|)
    || exists p: nat, n: int, m: nat ::
         ItemAt(s, p, n, m) && |ItemRest(s, p, n, m)| < |s| && Hopeful(ItemRest(s, p, n, m))
  }

  ghost predicate Completes(s: seq<Byte>, t: seq<Byte>) {
    TryParse(s + t).Parsed?
  }

  /** `t` completes `s` and nothing is left over. */
  ghost predicate Finishes(s: seq<Byte>, t: seq<Byte>) {
    TryParse(s + t).Parsed? && TryParse(s + t).used == |s + t|
  }

  // ---------------------------------------------------------------- numbers

  lemma {:induction false} DenoteGrows(a: seq<Byte>, b: seq<Byte>)
    requires AllDigits(a + b) && AllDigits(a)
    ensures Denote(a) <= Denote(a + b)
    decreases |b|
  {
    if b == [] {
      assert a + b == a;
    } else {
      var n := |b| - 1;
      var c := a + b;
      assert c[..|c| - 1] == a + b[..n];
      assert forall i :: 0 <= i < |a + b[..n]| ==> (a + b[..n])[i] == c[i];
      DenoteGrows(a, b[..n]);
    }
  }

  /** If a text can be continued to a number at or above a bound, it begins one. */
  lemma BeginsNumber(a: seq<Byte>, b: seq<Byte>, least: int)
    requires AtLeast(a + b, least) && (least == -1 || least == I64_MIN)
    ensures Begins(a, least)
  {
    if a != [] && a != [PLUS] && a != [MINUS] {
      var c := a + b;
      var signed := c[0] == MINUS || c[0] == PLUS;
      assert c[0] == a[0] && (|a| == 1 ==> a == [a[0]]);
      var ds, es := if signed then a[1..] else a, if signed then c[1..] else c;
      assert es == ds + b;
      assert forall i :: 0 <= i < |ds| ==> ds[i] == es[i];
      DenoteGrows(ds, b);
    }
  }

  lemma NumberHasNoCr(text: seq<Byte>)
    requires ParseI64(text).Some?
    ensures CR !in text && text != []
  {
    forall i | 0 <= i < |text| ensures text[i] != CR {
      if i > 0 || IsDigit(text[0]) {
        var signed := text[0] == MINUS || text[0] == PLUS;
        var ds := if signed then text[1..] else text;
        assert IsDigit(ds[if signed then i - 1 else i]);
      }
    }
  }

  // ---------------------------------------------------------------- completing

  function Zeros(n: nat): (r: seq<Byte>)
    ensures |r| == n
  {
    seq(n, _ => 0)
  }

  /** `n` empty simple strings. */
  function Filler(n: nat): seq<Byte> {
    if n == 0 then [] else [SIMPLE] + CRLF + Filler(n - 1)
  }

  /** What may follow a number line to make a value. */
  function Fill(tag: Byte, n: int): seq<Byte> {
    if tag == INTEGER || n < 0 then [] else if tag == BULK then Zeros(n + 2) else Filler(n)
  }

  lemma EmptyText(rest: seq<Byte>)
    ensures TryParse([SIMPLE] + CRLF + rest) == Parsed(SimpleString([]), 3)
  {
    HeaderLine(SIMPLE, [], rest);
    assert [SIMPLE] + [] + CRLF + rest == [SIMPLE] + CRLF + rest;
  }

  lemma {:induction false} FillerParses(n: nat)
    ensures ParseItems(Filler(n), n).Parsed? && Following(Filler(n), n) == []
  {
    if n > 0 {
      EmptyText(Filler(n - 1));
      hide TryParse;
      FillerParses(n - 1);
      assert Filler(n)[3..] == Filler(n - 1);
    }
  }

  lemma LineOf(tag: Byte, text: seq<Byte>, rest: seq<Byte>)
    requires tag != CR && CR !in text
    ensures var s := [tag] + text + CRLF + rest;
            && Line(s, |text| + 1) && s[1..|text| + 1] == text && s[|text| + 3..] == rest
  {
    var s := [tag] + text + CRLF + rest;
    forall i | 0 <= i < |text| + 1 ensures s[i] != CR { if i > 0 { assert s[i] == text[i - 1]; } }
    assert s[|text| + 1] == CR && s[|text| + 2] == LF;
  }

  lemma FilledParses(tag: Byte, text: seq<Byte>)
    requires NumberTag(tag) && AtLeast(text, Least(tag))
    ensures var s := [tag] + text + CRLF + Fill(tag, ParseI64(text).value);
            TryParse(s).Parsed? && TryParse(s).used == |s|
  {
    var n := ParseI64(text).value;
    var s := [tag] + text + CRLF + Fill(tag, n);
    NumberHasNoCr(text);
    LineOf(tag, text, Fill(tag, n));
    hide ParseI64, Filler;
    if tag == INTEGER {
      ReadsLine(s, |text| + 1);
    } else if tag == BULK {
      BulkVerdict(s, |text| + 1, n);
    } else {
      ArrayVerdict(s, |text| + 1);
      if n >= 0 { FillerParses(n); }
    }
  }

  lemma CompleteText(s: seq<Byte>) returns (t: seq<Byte>)
    requires s != [] && TextTag(s[0]) && Open(s)
    ensures Finishes(s, t)
  {
    var n := |s| - 1;
    var closed := n > 0 && s[n] == CR;
    var text := if closed then s[1..n] else s[1..];
    t := if closed then [LF] else CRLF;
    assert s + t == [s[0]] + text + CRLF + [];
    assert CR !in text by { assert forall i :: 0 <= i < |text| ==> text[i] == s[i + 1]; }
    HeaderLine(s[0], text, []);
  }

  lemma CompleteNumber(s: seq<Byte>) returns (t: seq<Byte>)
    requires s != [] && NumberTag(s[0]) && Open(s) && NumberOpen(s)
    ensures Finishes(s, t)
  {
    var n := |s| - 1;
    var tag := s[0];
    var closed := n > 0 && s[n] == CR;
    var text := if closed then s[1..n] else s[1..];
    var more: seq<Byte> := if AtLeast(text, Least(tag)) then [] else [ZERO];
    EndsNumber(text, Least(tag));
    hide ParseI64, Fill, TryParse;
    var fill := Fill(tag, ParseI64(text + more).value);
    t := more + (if closed then [LF] else CRLF) + fill;
    FilledParses(tag, text + more);
    if closed { Reclosed(s, more, fill); } else { Reopened(s, more, fill); }
  }

  lemma Reclosed(s: seq<Byte>, more: seq<Byte>, fill: seq<Byte>)
    requires |s| > 1 && s[|s| - 1] == CR && more == []
    ensures s + (more + [LF] + fill) == [s[0]] + (s[1..|s| - 1] + more) + CRLF + fill
  {
  }

  lemma Reopened(s: seq<Byte>, more: seq<Byte>, fill: seq<Byte>)
    requires s != []
    ensures s + (more + CRLF + fill) == [s[0]] + (s[1..] + more) + CRLF + fill
  {
  }

  lemma EndsNumber(text: seq<Byte>, least: int)
    requires Begins(text, least) && least <= 0
    ensures AtLeast(text, least) || AtLeast(text + [ZERO], least)
    ensures AtLeast(text, least) ==> text + [] == text
  {
    if !AtLeast(text, least) {
      var zero: seq<Byte> := [ZERO];
      assert zero[..0] == [] && Denote(zero) == 0;
      var c := text + zero;
      assert if text == [] then c == zero else c[1..] == zero;
    }
  }

  lemma LineStays(s: seq<Byte>, p: nat, t: seq<Byte>)
    requires Line(s, p)
    ensures Line(s + t, p) && (s + t)[1..p] == s[1..p] && (s + t)[p + 2..] == s[p + 2..] + t
  {
  }

  lemma CompleteBulk(s: seq<Byte>, p: nat, n: int) returns (t: seq<Byte>)
    requires s != [] && s[0] == BULK && NumberLineAt(s, p, n) && n >= 0 && p + n + 4 > |s|
    ensures Finishes(s, t)
  {
    t := Zeros(p + n + 4 - |s|);
    LineStays(s, p, t);
    BulkVerdict(s + t, p, n);
  }

  /** Items decode if and only if the first ones do and then the others. */
  lemma {:induction false} ItemsSplit(s: seq<Byte>, rest: seq<Byte>, m: nat, n: nat)
    requires m <= n && ParseItems(s, m).Parsed? && rest == Following(s, m)
    ensures ParseItems(s, n).Parsed? <==> ParseItems(rest, n - m).Parsed?
    ensures ParseItems(s, n).Parsed? && ParseItems(rest, n - m).Parsed? ==> Following(s, n) == Following(rest, n - m)
    decreases m
  {
    hide TryParse, ParseItems;
    if m == 0 {
      NoItems(s);
    } else {
      SomeItem(s, m);
      NextItem(s, m - 1);
      NextItem(s, n - 1);
      ItemsSplit(s[TryParse(s).used..], rest, m - 1, n - 1);
    }
  }

  lemma NoItems(s: seq<Byte>)
    ensures ParseItems(s, 0) == Parsed([], 0) && s[0..] == s
  {
  }

  lemma DropLeft(a: seq<Byte>, b: seq<Byte>)
    ensures (a + b)[|a|..] == b
  {
  }

  lemma Regroup(a: seq<Byte>, b: seq<Byte>, c: seq<Byte>)
    ensures a + (b + c) == a + b + c
  {
  }

  lemma Continued(u: seq<Byte>, m: nat, more: seq<Byte>)
    requires ParseItems(u, m).Parsed?
    ensures ParseItems(u + more, m).Parsed? && Following(u + more, m) == Following(u, m) + more
  {
    hide ParseItems;
    ItemsStable(u, m, more);
  }

  /** A whole item and then whole items are whole items. */
  lemma ItemThenItems(s: seq<Byte>, fill: seq<Byte>, n: nat)
    requires TryParse(s).Parsed? && TryParse(s).used == |s|
    requires ParseItems(fill, n).Parsed? && Following(fill, n) == []
    ensures ParseItems(s + fill, n + 1).Parsed? && Following(s + fill, n + 1) == []
  {
    hide TryParse, ParseItems, Following;
    ParseStable(s, fill);
    DropLeft(s, fill);
    NextItem(s + fill, n);
  }

  lemma WholeArray(s: seq<Byte>, p: nat, n: nat)
    requires s != [] && s[0] == ARRAY && NumberLineAt(s, p, n)
    requires ParseItems(s[p + 2..], n).Parsed? && Following(s[p + 2..], n) == []
    ensures TryParse(s).Parsed? && TryParse(s).used == |s|
  {
    hide TryParse, ParseItems;
    ArrayVerdict(s, p);
  }

  /** A completed item and as many fillers as are missing complete the array. */
  lemma CompleteItems(s: seq<Byte>, p: nat, n: int, m: nat, t: seq<Byte>)
    requires ItemAt(s, p, n, m) && Finishes(ItemRest(s, p, n, m), t)
    ensures Finishes(s, t + Filler(n - m - 1))
  {
    var u, fill := s[p + 2..], Filler(n - m - 1);
    var more := t + fill;
    hide TryParse, ParseItems, Filler, Following;
    LineStays(s, p, more);
    Continued(u, m, more);
    FillerParses(n - m - 1);
    Regroup(Following(u, m), t, fill);
    ItemThenItems(Following(u, m) + t, fill, n - m - 1);
    ItemsSplit(u + more, Following(u + more, m), m, n);
    WholeArray(s + more, p, n);
  }

  /** Input that can still become a value, with what completes it. */
  lemma {:induction false} Complete(s: seq<Byte>) returns (t: seq<Byte>)
    requires Hopeful(s)
    ensures Finishes(s, t)
    decreases |s|
  {
    if s == [] {
      t := [SIMPLE] + CRLF;
      EmptyText([]);
      assert s + t == [SIMPLE] + CRLF + [];
    } else if TextTag(s[0]) && Open(s) {
      t := CompleteText(s);
    } else if NumberTag(s[0]) && Open(s) && NumberOpen(s) {
      t := CompleteNumber(s);
    } else if p: nat, n: int :| s[0] == BULK && NumberLineAt(s, p, n) && n >= 0 && p + n + 4 > |s| {
      t := CompleteBulk(s, p, n);
    } else {
      var p: nat, n: int, m: nat :| ItemAt(s, p, n, m) && |ItemRest(s, p, n, m)| < |s| && Hopeful(ItemRest(s, p, n, m));
      t := Complete(ItemRest(s, p, n, m));
      CompleteItems(s, p, n, m, t);
      t := t + Filler(n - m - 1);
    }
  }

  // ---------------------------------------------------------------- only then

  /** A line that ends in more bytes was open before, and its text began the full text. */
  lemma EndsLater(s: seq<Byte>, t: seq<Byte>, p: nat)
    requires s != [] && s[0] != CR && NoLine(s) && Line(s + t, p)
    ensures Open(s)
    ensures var n := |s| - 1;
            if n > 0 && s[n] == CR then (s + t)[1..p] == s[1..n]
            else p >= |s| && (s + t)[1..p] == s[1..] + (s + t)[|s|..p]
  {
    var c, n := s + t, |s| - 1;
    assert forall i :: 0 <= i < |s| ==> c[i] == s[i];
    if p + 1 < |s| {
      assert Line(s, p);
      assert false;
    }
    if p < |s| { assert p == n && s[n] == CR; } else { assert s[n] != CR; }
  }

  lemma NumberWasOpen(s: seq<Byte>, t: seq<Byte>, p: nat)
    requires s != [] && NumberTag(s[0]) && NoLine(s) && Line(s + t, p) && AtLeast((s + t)[1..p], Least(s[0]))
    ensures Open(s) && NumberOpen(s)
  {
    EndsLater(s, t, p);
    hide AtLeast;
    if !(|s| > 1 && s[|s| - 1] == CR) { BeginsNumber(s[1..], (s + t)[|s|..p], Least(s[0])); }
  }

  /** A value that starts with a number line has a number that allows it. */
  lemma NumberAllows(s: seq<Byte>, p: nat)
    requires s != [] && NumberTag(s[0]) && Line(s, p) && TryParse(s).Parsed?
    ensures AtLeast(s[1..p], Least(s[0]))
  {
    hide ParseItems;
    ReadsLine(s, p);
    hide ReadNumber, ParseI64;
  }

  lemma ParsedHasLine(s: seq<Byte>) returns (p: nat)
    requires TryParse(s).Parsed?
    ensures s != [] && (NumberTag(s[0]) || TextTag(s[0])) && Line(s, p)
  {
    hide ParseItems;
    ReadsNoLine(s);
    p :| Line(s, p);
  }

  lemma OpenWasHopeful(s: seq<Byte>, t: seq<Byte>)
    requires s != [] && NoLine(s) && Completes(s, t)
    ensures Hopeful(s)
  {
    var p := ParsedHasLine(s + t);
    assert (s + t)[0] == s[0];
    if NumberTag(s[0]) {
      NumberAllows(s + t, p);
      NumberWasOpen(s, t, p);
    } else {
      EndsLater(s, t, p);
    }
  }

  /** If an array gets its value later, so does the item it waits for. */
  lemma ItemCompletes(s: seq<Byte>, t: seq<Byte>, p: nat, n: int, m: nat)
    requires ItemAt(s, p, n, m) && Completes(s, t)
    ensures Completes(ItemRest(s, p, n, m), t) && |ItemRest(s, p, n, m)| < |s|
  {
    var u := s[p + 2..];
    assert |Following(u, m)| <= |u| < |s|;
    hide TryParse, ParseItems, Following;
    LineStays(s, p, t);
    ValueHasItems(s + t, p, n);
    ItemLater(u, t, m, n);
  }

  lemma ItemLater(u: seq<Byte>, t: seq<Byte>, m: nat, n: nat)
    requires m < n && ParseItems(u, m).Parsed? && ParseItems(u + t, n).Parsed?
    ensures TryParse(Following(u, m) + t).Parsed?
  {
    hide TryParse, ParseItems, Following;
    Continued(u, m, t);
    ItemsSplit(u + t, Following(u + t, m), m, n);
    SomeItem(Following(u, m) + t, n - m);
  }

  lemma ValueHasItems(s: seq<Byte>, p: nat, n: nat)
    requires s != [] && s[0] == ARRAY && NumberLineAt(s, p, n) && TryParse(s).Parsed?
    ensures ParseItems(s[p + 2..], n).Parsed?
  {
    hide TryParse, ParseItems;
    ArrayVerdict(s, p);
  }

  lemma {:induction false} CompletesHopeful(s: seq<Byte>, t: seq<Byte>)
    requires TryParse(s).Incomplete? && Completes(s, t)
    ensures Hopeful(s)
    decreases |s|
  {
    hide TryParse, ParseItems;
    IncompleteIff(s);
    if s == [] {
    } else if NoLine(s) {
      OpenWasHopeful(s, t);
    } else if ShortBulk(s) {
      var p: nat, n: int :| NumberLineAt(s, p, n) && (if n >= 0 then p + n + 4 > |s| else n + p + 4 < 0);
      LineStays(s, p, t);
      BulkVerdict(s + t, p, n);
    } else {
      var p: nat, n: int, m: nat :| ItemAt(s, p, n, m) && TryParse(ItemRest(s, p, n, m)).Incomplete?;
      ItemCompletes(s, t, p, n, m);
      CompletesHopeful(ItemRest(s, p, n, m), t);
    }
  }

  /** Input that the codec waits on can become a value if and only if it is hopeful: its open line has no lone
      CR and, if it must hold a number, begins one that is large enough; or its payload is short; or the item
      it waits for is hopeful. On all other input the codec waits for ever. */
  lemma WaitsInVainIff(s: seq<Byte>)
    requires TryParse(s).Incomplete?
    ensures (exists t :: Completes(s, t)) <==> Hopeful(s)
  {
    hide TryParse, Hopeful;
    if Hopeful(s) {
      var t := Complete(s);
      assert Completes(s, t);
    }
    if t :| Completes(s, t) { CompletesHopeful(s, t); }
  }

  /** A count below minus one, or a length below it that is not so far below that the payload's end lies
      beyond every buffer. */
  ghost predicate TooSmall(s: seq<Byte>, p: nat, n: int) {
    s != [] && NumberLineAt(s, p, n) && n < -1 && (s[0] == ARRAY || (s[0] == BULK && n + p + 4 >= 0))
  }

  ghost predicate CrashingItem(s: seq<Byte>) {
    exists p: nat, n: int, m: nat :: ItemAt(s, p, n, m) && TryParse(ItemRest(s, p, n, m)).Crash?
  }

  /** The codec panics if and only if a length or count is too small, or the first item of an array that does
      not decode panics. */
  lemma CrashIff(s: seq<Byte>)
    ensures TryParse(s).Crash? <==> (exists p: nat, n: int :: TooSmall(s, p, n)) || CrashingItem(s)
  {
    hide ParseItems;
    if p: nat, n: int :| TooSmall(s, p, n) {
      hide TryParse;
      if s[0] == ARRAY { ArrayVerdict(s, p); } else { BulkVerdict(s, p, n); }
    } else if CrashingItem(s) {
      hide TryParse;
      var p: nat, n: int, m: nat :| ItemAt(s, p, n, m) && TryParse(ItemRest(s, p, n, m)).Crash?;
      ItemStops(s, p, n, m);
    } else if TryParse(s).Crash? {
      CrashShows(s);
    }
  }

  lemma CrashShows(s: seq<Byte>)
    requires TryParse(s).Crash?
    ensures (exists p: nat, n: int :: TooSmall(s, p, n)) || CrashingItem(s)
  {
    hide ParseItems, TryParse, ParseI64;
    if s == [] || (!NumberTag(s[0]) && !TextTag(s[0])) {
      KnownTag(s);
    } else if p: nat :| Line(s, p) {
      LineVerdict(s, p);
      var n := ParseI64(s[1..p]).value;
      assert NumberLineAt(s, p, n);
      if s[0] == BULK {
        BulkVerdict(s, p, n);
        assert TooSmall(s, p, n);
      } else {
        ArrayVerdict(s, p);
        if n >= 0 { var m := StopsAtItem(s, p, n); } else { assert TooSmall(s, p, n); }
      }
    } else {
      NoLineWaits(s);
    }
  }
}
