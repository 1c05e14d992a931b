/** The simple parser of src/redis/resp.rs and its agreement with the zero-copy codec. */
module RespReference {
  import opened Numbers
  import opened Resp

  /** `String::from_utf8_lossy`: the text conversion the simple parser applies. */
  type TextFix = seq<Byte> -> seq<Byte>

  /** The first position where a CR is followed by a LF. */
  function SearchCrlf(s: seq<Byte>): (r: Option<nat>)
    ensures r.Some? ==> IsCrlf(s, r.value) && forall i :: 0 <= i < r.value ==> !IsCrlf(s, i)
    ensures r.None? ==> forall i :: 0 <= i < |s| ==> !IsCrlf(s, i)
  {
    if |s| < 2 then None
    else if s[0] == CR && s[1] == LF then Some(0)
    else
      match SearchCrlf(s[1..])
      case None =>
        assert forall i :: 0 < i < |s| ==> (IsCrlf(s, i) <==> IsCrlf(s[1..], i - 1));
        None
      case Some(p) =>
        assert forall i :: 0 < i < |s| ==> (IsCrlf(s, i) <==> IsCrlf(s[1..], i - 1));
        Some(p + 1)
  }

  predicate IsCrlf(s: seq<Byte>, i: int) {
    0 <= i && i + 1 < |s| && s[i] == CR && s[i + 1] == LF
  }

  /** The search loop of the simple parser. */
  method FindCrlfLoop(s: seq<Byte>) returns (r: Option<nat>)
    ensures r == SearchCrlf(s)
  {
    if |s| >= 1 {
      for i := 0 to |s| - 1
        invariant forall j :: 0 <= j < i ==> !IsCrlf(s, j)
      {
        if s[i] == CR && s[i + 1] == LF {
          assert IsCrlf(s, i);
          return Some(i);
        }
      }
    }
    return None;
  }

  function RefLine(s: seq<Byte>): (r: Outcome<seq<Byte>>)
    requires s != [] && s[0] != CR
    ensures r.Parsed? ==> 3 <= r.used <= |s|
  {
    match SearchCrlf(s)
    case None => Incomplete
    case Some(pos) => Parsed(s[1..pos], pos + 2)
  }

  function RefNumber(s: seq<Byte>): (r: Outcome<I64>)
    requires s != [] && s[0] != CR
    ensures r.Parsed? ==> 3 <= r.used <= |s|
  {
    match RefLine(s)
    case Parsed(text, used) =>
      (match ParseI64(text)
       case None => Invalid(BadNumber(text))
       case Some(n) => Parsed(n, used))
    case _ => Incomplete
  }

  /** "No CRLF found", "Incomplete bulk string" and "Empty input" are all `Incomplete`. A count
      below -1 yields the empty array, since the loop over it runs zero times. */
  function RefParse(s: seq<Byte>, fix: TextFix): (r: Outcome<Value>)
    ensures r.Parsed? ==> 3 <= r.used <= |s|
    decreases |s|, 0
  {
    if s == [] then Incomplete
    else if s[0] == SIMPLE || s[0] == ERROR then
      (match RefLine(s)
       case Parsed(t, used) => Parsed(if s[0] == SIMPLE then SimpleString(fix(t)) else Error(fix(t)), used)
       case _ => Incomplete)
    else if s[0] !in {INTEGER, BULK, ARRAY} then Invalid(UnknownType(s[0]))
    else
      match RefNumber(s)
      case Parsed(n, start) =>
        if s[0] == INTEGER then Parsed(Integer(n), start)
        else if s[0] == BULK then RefPayload(s, n, start)
        else if n == -1 then Parsed(NilArray, start)
        else AsArray(start, RefItems(s[start..], if n < 0 then 0 else n, fix))
      case Incomplete => Incomplete
      case Invalid(e) => Invalid(e)
      case Crash => Crash
  }

  function RefPayload(s: seq<Byte>, n: I64, start: nat): (r: Outcome<Value>)
    requires 3 <= start <= |s|
    ensures r.Parsed? ==> 3 <= r.used <= |s|
  {
    if n == -1 then Parsed(NilBulk, start)
    else if n < -1 then (if n + start + 2 >= 0 then Crash else Incomplete)
    else if start + n + 2 > |s| then Incomplete
    else Parsed(BulkString(s[start..start + n]), start + n + 2)
  }

  function RefItems(s: seq<Byte>, n: nat, fix: TextFix): (r: Outcome<seq<Value>>)
    ensures r.Parsed? ==> |r.value| == n && r.used <= |s|
    decreases |s|, 1
  {
    if n == 0 then Parsed([], 0)
    else
      match RefParse(s, fix)
      case Parsed(v, used) => AddItem(v, used, RefItems(s[used..], n - 1, fix))
      case Incomplete => Incomplete
      case Invalid(e) => Invalid(e)
      case Crash => Crash
  }

  // ---------------------------------------------------------------- agreement

  /** Every simple string and error in the value is left alone by the text conversion. */
  predicate TextKept(v: Value, fix: TextFix)
    decreases v
  {
    match v
    case SimpleString(t) => fix(t) == t
    case Error(t) => fix(t) == t
    case Array(xs) => forall i :: 0 <= i < |xs| ==> TextKept(xs[i], fix)
    case _ => true
  }

  /** Whenever the first CR is followed by LF, both searches stop there. */
  lemma SearchesAgree(s: seq<Byte>)
    ensures FindCrlf(s).Some? ==> SearchCrlf(s) == FindCrlf(s)
    ensures SearchCrlf(s).Some? && NoCr(s, SearchCrlf(s).value) ==> FindCrlf(s) == SearchCrlf(s)
  {
    if FindCrlf(s).Some? {
      assert IsCrlf(s, FindCrlf(s).value);
    }
  }

  /** Numbers are read alike as soon as either parser reads one: digits hold no CR. */
  lemma NumbersAgree(s: seq<Byte>)
    requires s != [] && s[0] != CR
    ensures ReadNumber(s).Parsed? || RefNumber(s).Parsed? ==> RefNumber(s) == ReadNumber(s)
  {
    SearchesAgree(s);
    if RefNumber(s).Parsed? {
      var pos := SearchCrlf(s).value;
      ParsedTextHasNoCr(s[1..pos]);
      forall i | 0 <= i < pos ensures s[i] != CR {
        if i > 0 { assert s[i] == s[1..pos][i - 1]; }
      }
    }
  }

  lemma ParsedTextHasNoCr(t: seq<Byte>)
    requires ParseI64(t).Some?
    ensures forall i :: 0 <= i < |t| ==> t[i] != CR
  {
    var ds := if t[0] == MINUS || t[0] == PLUS then t[1..] else t;
    forall i | 0 <= i < |t| ensures t[i] != CR {
      if |ds| < |t| && i > 0 { assert t[i] == ds[i - 1]; }
    }
  }

  /** The zero-copy codec refines the simple parser: what it accepts, the simple parser accepts
      with the same value and the same number of bytes. */
  lemma {:induction false} CodecRefines(s: seq<Byte>, fix: TextFix)
    requires TryParse(s).Parsed? && TextKept(TryParse(s).value, fix)
    ensures RefParse(s, fix) == TryParse(s)
    decreases |s|, 0
  {
    hide ReadNumber, RefNumber, ParseItems, RefItems, SearchCrlf, FindCrlf;
    if s[0] == SIMPLE || s[0] == ERROR {
      SearchesAgree(s);
    } else {
      NumbersAgree(s);
      if TryParse(s).value.Array? {
        var r := ReadNumber(s);
        ItemsRefine(s[r.used..], r.value, fix);
      }
    }
  }

  lemma {:induction false} ItemsRefine(s: seq<Byte>, n: nat, fix: TextFix)
    requires ParseItems(s, n).Parsed?
    requires forall i :: 0 <= i < n ==> TextKept(ParseItems(s, n).value[i], fix)
    ensures RefItems(s, n, fix) == ParseItems(s, n)
    decreases |s|, 1
  {
    hide TryParse, RefParse;
    if n > 0 {
      var v, used := TryParse(s).value, TryParse(s).used;
      var tail := ParseItems(s[used..], n - 1).value;
      var all := ParseItems(s, n).value;
      assert all == [v] + tail;
      assert all[0] == v;
      CodecRefines(s, fix);
      forall i | 0 <= i < n - 1 ensures TextKept(tail[i], fix) {
        assert all[i + 1] == tail[i];
      }
      ItemsRefine(s[used..], n - 1, fix);
    }
  }

  function Raw(t: seq<Byte>): seq<Byte> { t }

  /** Some array header in the input holds a count below -1. */
  predicate NegativeCount(s: seq<Byte>)
    requires RefParse(s, Raw).Parsed?
    decreases |s|, 0
  {
    s[0] == ARRAY && RefNumber(s).Parsed? && (
      var n := RefNumber(s).value;
      n < -1 || (n >= 0 && RefItems(s[RefNumber(s).used..], n, Raw).Parsed? &&
          NegativeItems(s[RefNumber(s).used..], n)))
  }

  predicate NegativeItems(s: seq<Byte>, n: nat)
    requires RefItems(s, n, Raw).Parsed?
    decreases |s|, 1
  {
    n > 0 && (NegativeCount(s) || NegativeItems(s[RefParse(s, Raw).used..], n - 1))
  }

  /** Conversely, a value the simple parser reads without any CR in its text is read alike by the
      codec, except that a count below -1 anywhere in it makes the codec panic. */
  lemma {:induction false} CodecAcceptsClean(s: seq<Byte>)
    requires RefParse(s, Raw).Parsed? && Clean(RefParse(s, Raw).value)
    ensures TryParse(s) == if NegativeCount(s) then Crash else RefParse(s, Raw)
    decreases |s|, 0
  {
    hide ReadNumber, RefNumber, ParseItems, RefItems, SearchCrlf, FindCrlf, NegativeItems;
    SearchesAgree(s);
    if s[0] == SIMPLE || s[0] == ERROR {
      var pos := SearchCrlf(s).value;
      forall i | 0 <= i < pos ensures s[i] != CR {
        if i > 0 { assert s[i] == s[1..pos][i - 1]; }
      }
    } else {
      NumbersAgree(s);
      var r := ReadNumber(s);
      if s[0] == ARRAY && r.value >= 0 {
        ItemsAcceptClean(s[r.used..], r.value);
      }
    }
  }

  lemma {:induction false} ItemsAcceptClean(s: seq<Byte>, n: nat)
    requires RefItems(s, n, Raw).Parsed?
    requires forall i :: 0 <= i < n ==> Clean(RefItems(s, n, Raw).value[i])
    ensures ParseItems(s, n) == if NegativeItems(s, n) then Crash else RefItems(s, n, Raw)
    decreases |s|, 1
  {
    hide TryParse, RefParse, NegativeCount;
    if n > 0 {
      assert s != [] by { EmptyIsIncomplete(s); }
      var v, used := RefParse(s, Raw).value, RefParse(s, Raw).used;
      var tail := RefItems(s[used..], n - 1, Raw).value;
      var all := RefItems(s, n, Raw).value;
      assert all == [v] + tail;
      assert all[0] == v;
      CodecAcceptsClean(s);
      forall i | 0 <= i < n - 1 ensures Clean(tail[i]) {
        assert all[i + 1] == tail[i];
      }
      ItemsAcceptClean(s[used..], n - 1);
    }
  }

  lemma {:induction false} RawKeeps(v: Value)
    ensures TextKept(v, Raw)
  {
    if v.Array? {
      forall i | 0 <= i < |v.items| ensures TextKept(v.items[i], Raw) { RawKeeps(v.items[i]); }
    }
  }

  lemma NumbersEndAlike(s: seq<Byte>)
    requires s != [] && s[0] != CR && !ReadNumber(s).Incomplete?
    ensures RefNumber(s) == ReadNumber(s)
  {
    hide ParseI64, SearchCrlf;
    SearchesAgree(s);
  }

  /** What the codec rejects, the simple parser rejects for the same reason. */
  lemma {:induction false} RejectsAlike(s: seq<Byte>)
    requires TryParse(s).Invalid?
    ensures RefParse(s, Raw) == TryParse(s)
    decreases |s|, 0
  {
    hide ReadNumber, RefNumber, ParseItems, RefItems, SearchCrlf, FindCrlf;
    if s[0] in {INTEGER, BULK, ARRAY} {
      NumbersEndAlike(s);
      var r := ReadNumber(s);
      if r.Parsed? { ItemsRejectAlike(s[r.used..], r.value); }
    }
  }

  lemma {:induction false} ItemsRejectAlike(s: seq<Byte>, n: nat)
    requires ParseItems(s, n).Invalid?
    ensures RefItems(s, n, Raw) == ParseItems(s, n)
    decreases |s|, 1
  {
    hide TryParse, RefParse;
    if TryParse(s).Parsed? {
      RawKeeps(TryParse(s).value);
      CodecRefines(s, Raw);
      ItemsRejectAlike(s[TryParse(s).used..], n - 1);
    } else {
      RejectsAlike(s);
    }
  }

  /** On what the simple parser accepts, the codec agrees exactly when no text holds a CR and no array
      count is below -1. */
  lemma ParsersAgreeIff(s: seq<Byte>)
    requires RefParse(s, Raw).Parsed?
    ensures TryParse(s) == RefParse(s, Raw) <==> Clean(RefParse(s, Raw).value) && !NegativeCount(s)
  {
    hide TryParse, RefParse, NegativeCount;
    if Clean(RefParse(s, Raw).value) {
      CodecAcceptsClean(s);
    } else if TryParse(s).Parsed? {
      ParsedIsClean(s);
    }
  }

  lemma EmptyIsIncomplete(s: seq<Byte>)
    ensures s == [] ==> RefParse(s, Raw).Incomplete?
  {
  }

  /** The two parsers really differ: a stray CR in a simple string hides the line end from the
      codec for ever, and a count of -2 is an empty array to one and a panic to the other. */
  lemma ParsersDiffer()
    ensures var s := [SIMPLE, CR, 65, CR, LF];
            TryParse(s) == Incomplete && RefParse(s, Raw) == Parsed(SimpleString([CR, 65]), 5)
    ensures var s := [ARRAY, 45, 50, CR, LF];
            TryParse(s) == Crash && RefParse(s, Raw) == Parsed(Array([]), 5)
  {
    var a: seq<Byte> := [SIMPLE, CR, 65, CR, LF];
    assert FirstCr(a) == Some(1);
    assert !IsCrlf(a, 0) && !IsCrlf(a, 1) && !IsCrlf(a, 2) && IsCrlf(a, 3);
    assert SearchCrlf(a) == Some(3);
    assert a[1..3] == [CR, 65];
    MinusTwo();
  }

  lemma MinusTwo()
    ensures var s := [ARRAY, 45, 50, CR, LF];
            TryParse(s) == Crash && RefParse(s, Raw) == Parsed(Array([]), 5)
  {
    var b: seq<Byte> := [ARRAY, 45, 50, CR, LF];
    assert b == [ARRAY] + [45, 50] + CRLF + [];
    assert Format(-2) == [45, 50];
    NumberLine(ARRAY, -2, []);
    NumbersAgree(b);
  }
}
