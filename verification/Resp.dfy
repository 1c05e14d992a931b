/** RESP2 values, their printed form, and the zero-copy codec of src/redis/resp_optimized.rs. */
module Resp {
  import opened Numbers

  const SIMPLE: Byte := 43   // '+'
  const ERROR: Byte := 45    // '-'
  const INTEGER: Byte := 58  // ':'
  const BULK: Byte := 36     // '$'
  const ARRAY: Byte := 42    // '*'
  const CRLF: seq<Byte> := [CR, LF]
  const MINUS_ONE: seq<Byte> := [45, 49]

  /** `BulkString(None)` and `Array(None)` are the two nil constructors. */
  datatype Value =
    | SimpleString(text: seq<Byte>)
    | Error(text: seq<Byte>)
    | Integer(n: I64)
    | NilBulk
    | BulkString(data: seq<Byte>)
    | NilArray
    | Array(items: seq<Value>)

  /** What a decoder says about an input. `Crash` is a panic on a length below -1. */
  datatype Outcome<+V> =
    | Parsed(value: V, used: nat)
    | Incomplete
    | Invalid(error: ProtocolError)
    | Crash

  datatype ProtocolError = UnknownType(tag: Byte) | BadNumber(text: seq<Byte>)

  // ---------------------------------------------------------------- printing

  function Encode(v: Value): seq<Byte>
    decreases v
  {
    match v
    case SimpleString(t) => [SIMPLE] + t + CRLF
    case Error(t) => [ERROR] + t + CRLF
    case Integer(n) => [INTEGER] + Format(n) + CRLF
    case NilBulk => [BULK] + MINUS_ONE + CRLF
    case BulkString(d) => [BULK] + Format(|d|) + CRLF + d + CRLF
    case NilArray => [ARRAY] + MINUS_ONE + CRLF
    case Array(xs) => [ARRAY] + Format(|xs|) + CRLF + EncodeAll(xs)
  }

  function EncodeAll(xs: seq<Value>): seq<Byte>
    decreases xs
  {
    if xs == [] then [] else Encode(xs[0]) + EncodeAll(xs[1..])
  }

  // ---------------------------------------------------------------- the zero-copy codec

  /** `memchr(b'\r', s)`. */
  function FirstCr(s: seq<Byte>): (r: Option<nat>)
    ensures r.Some? ==> r.value < |s| && s[r.value] == CR && NoCr(s, r.value)
    ensures r.None? ==> NoCr(s, |s|)
  {
    if s == [] then None
    else if s[0] == CR then Some(0)
    else
      match FirstCr(s[1..])
      case None => None
      case Some(p) => Some(p + 1)
  }

  /** No CR among the first `n` bytes. */
  predicate NoCr(s: seq<Byte>, n: nat)
    requires n <= |s|
  {
    forall i :: 0 <= i < n ==> s[i] != CR
  }

  /** The first CR, provided a LF follows it; a lone first CR hides every later CRLF. */
  function FindCrlf(s: seq<Byte>): (r: Option<nat>)
    ensures r.Some? ==> r.value + 1 < |s| && s[r.value] == CR && s[r.value + 1] == LF && NoCr(s, r.value)
  {
    match FirstCr(s)
    case None => None
    case Some(p) => if p + 1 < |s| && s[p + 1] == LF then Some(p) else None
  }

  /** The text between the type byte and the first line end, and where the next line starts. */
  function ReadLine(s: seq<Byte>): (r: Outcome<seq<Byte>>)
    requires s != [] && s[0] != CR
    ensures r.Parsed? ==> 3 <= r.used <= |s|
  {
    match FindCrlf(s)
    case None => Incomplete
    case Some(pos) => Parsed(s[1..pos], pos + 2)
  }

  function ReadNumber(s: seq<Byte>): (r: Outcome<I64>)
    requires s != [] && s[0] != CR
    ensures r.Parsed? ==> 3 <= r.used <= |s|
  {
    match ReadLine(s)
    case Parsed(text, used) =>
      (match ParseI64(text)
       case None => Invalid(BadNumber(text))
       case Some(n) => Parsed(n, used))
    case _ => Incomplete
  }

  function ParseText(s: seq<Byte>): (r: Outcome<Value>)
    requires s != [] && (s[0] == SIMPLE || s[0] == ERROR)
    ensures r.Parsed? ==> 3 <= r.used <= |s|
  {
    match ReadLine(s)
    case Parsed(t, used) => Parsed(if s[0] == SIMPLE then SimpleString(t) else Error(t), used)
    case _ => Incomplete
  }

  function ParseInteger(s: seq<Byte>): (r: Outcome<Value>)
    requires s != [] && s[0] == INTEGER
    ensures r.Parsed? ==> 3 <= r.used <= |s|
  {
    match ReadNumber(s)
    case Parsed(n, used) => Parsed(Integer(n), used)
    case Incomplete => Incomplete
    case Invalid(e) => Invalid(e)
    case Crash => Crash
  }

  /** A length below -1 becomes a huge unsigned number: the end offset either overflows, which
      panics, or lies beyond every buffer. */
  function ParseBulk(s: seq<Byte>): (r: Outcome<Value>)
    requires s != [] && s[0] == BULK
    ensures r.Parsed? ==> 3 <= r.used <= |s|
  {
    match ReadNumber(s)
    case Parsed(n, start) =>
      if n == -1 then Parsed(NilBulk, start)
      else if n < -1 then (if n + start + 2 >= 0 then Crash else Incomplete)
      else if start + n + 2 > |s| then Incomplete
      else Parsed(BulkString(s[start..start + n]), start + n + 2)
    case Incomplete => Incomplete
    case Invalid(e) => Invalid(e)
    case Crash => Crash
  }

  /** A count below -1 makes the capacity request of the element vector panic. */
  function ParseArray(s: seq<Byte>): (r: Outcome<Value>)
    requires s != [] && s[0] == ARRAY
    ensures r.Parsed? ==> 3 <= r.used <= |s|
    decreases |s|, 0
  {
    match ReadNumber(s)
    case Parsed(n, start) =>
      if n == -1 then Parsed(NilArray, start)
      else if n < -1 then Crash
      else
        AsArray(start, ParseItems(s[start..], n))
    case Incomplete => Incomplete
    case Invalid(e) => Invalid(e)
    case Crash => Crash
  }

  function AsArray(start: nat, r: Outcome<seq<Value>>): Outcome<Value> {
    match r
    case Parsed(xs, used) => Parsed(Array(xs), start + used)
    case Incomplete => Incomplete
    case Invalid(e) => Invalid(e)
    case Crash => Crash
  }

  function TryParse(s: seq<Byte>): (r: Outcome<Value>)
    ensures r.Parsed? ==> 3 <= r.used <= |s|
    decreases |s|, 1
  {
    if s == [] then Incomplete
    else if s[0] == SIMPLE || s[0] == ERROR then ParseText(s)
    else if s[0] == INTEGER then ParseInteger(s)
    else if s[0] == BULK then ParseBulk(s)
    else if s[0] == ARRAY then ParseArray(s)
    else Invalid(UnknownType(s[0]))
  }

  /** `n` values in a row. */
  function ParseItems(s: seq<Byte>, n: nat): (r: Outcome<seq<Value>>)
    ensures r.Parsed? ==> |r.value| == n && r.used <= |s|
    decreases |s|, 2
  {
    if n == 0 then Parsed([], 0)
    else if s == [] then Incomplete
    else
      match TryParse(s)
      case Parsed(v, used) => AddItem(v, used, ParseItems(s[used..], n - 1))
      case Incomplete => Incomplete
      case Invalid(e) => Invalid(e)
      case Crash => Crash
  }

  function AddItem(v: Value, used: nat, r: Outcome<seq<Value>>): Outcome<seq<Value>> {
    match r
    case Parsed(vs, more) => Parsed([v] + vs, used + more)
    case Incomplete => Incomplete
    case Invalid(e) => Invalid(e)
    case Crash => Crash
  }

  // ---------------------------------------------------------------- prefix stability

  lemma LineStable(s: seq<Byte>, t: seq<Byte>)
    requires s != [] && s[0] != CR && ReadLine(s).Parsed?
    ensures ReadLine(s + t) == ReadLine(s)
  {
    var p := FindCrlf(s).value;
    assert (s + t)[p] == CR && forall i :: 0 <= i < p ==> (s + t)[i] == s[i];
    assert FindCrlf(s + t) == Some(p);
    assert (s + t)[1..p] == s[1..p];
  }

  lemma BulkStable(s: seq<Byte>, t: seq<Byte>)
    requires s != [] && s[0] == BULK && !ParseBulk(s).Incomplete?
    ensures ParseBulk(s + t) == ParseBulk(s)
  {
    LineStable(s, t);
    var r := ReadNumber(s);
    if r.Parsed? && r.value >= 0 {
      assert (s + t)[r.used..r.used + r.value] == s[r.used..r.used + r.value];
    }
  }

  lemma {:induction false} ArrayStable(s: seq<Byte>, t: seq<Byte>)
    requires s != [] && s[0] == ARRAY && !ParseArray(s).Incomplete?
    ensures ParseArray(s + t) == ParseArray(s)
    decreases |s|, 0
  {
    LineStable(s, t);
    var r := ReadNumber(s);
    if r.Parsed? && r.value >= 0 {
      assert (s + t)[r.used..] == s[r.used..] + t;
      ItemsStable(s[r.used..], r.value, t);
    }
  }

  /** A verdict other than Incomplete does not change when more bytes arrive. */
  lemma {:induction false} ParseStable(s: seq<Byte>, t: seq<Byte>)
    requires !TryParse(s).Incomplete?
    ensures TryParse(s + t) == TryParse(s)
    decreases |s|, 1
  {
    assert (s + t)[0] == s[0];
    if s[0] == SIMPLE || s[0] == ERROR || s[0] == INTEGER {
      LineStable(s, t);
    } else if s[0] == BULK {
      BulkStable(s, t);
    } else if s[0] == ARRAY {
      ArrayStable(s, t);
    }
  }

  lemma {:induction false} ItemsStable(s: seq<Byte>, n: nat, t: seq<Byte>)
    requires !ParseItems(s, n).Incomplete?
    ensures ParseItems(s + t, n) == ParseItems(s, n)
    decreases |s|, 2
  {
    hide TryParse;
    if n > 0 {
      ParseStable(s, t);
      if TryParse(s).Parsed? {
        var used := TryParse(s).used;
        assert (s + t)[used..] == s[used..] + t;
        ItemsStable(s[used..], n - 1, t);
      }
    }
  }

  // ---------------------------------------------------------------- round trip

  /** No simple string or error inside the value holds a CR. */
  predicate Clean(v: Value)
    decreases v
  {
    match v
    case SimpleString(t) => CR !in t
    case Error(t) => CR !in t
    case Array(xs) => forall i :: 0 <= i < |xs| ==> Clean(xs[i])
    case _ => true
  }

  /** Every payload and element count fits an i64, as every Rust `Vec` length does. */
  predicate Addressable(v: Value)
    decreases v
  {
    match v
    case BulkString(d) => |d| <= I64_MAX
    case Array(xs) => |xs| <= I64_MAX && forall i :: 0 <= i < |xs| ==> Addressable(xs[i])
    case _ => true
  }

  lemma HeaderLine(tag: Byte, text: seq<Byte>, rest: seq<Byte>)
    requires tag != CR && CR !in text
    ensures ReadLine([tag] + text + CRLF + rest) == Parsed(text, |text| + 3)
    ensures ([tag] + text + CRLF + rest)[|text| + 3..] == rest
  {
    var s := [tag] + text + CRLF + rest;
    var p := |text| + 1;
    assert s[p] == CR && s[p + 1] == LF;
    assert forall i :: 0 < i < p ==> s[i] == text[i - 1];
    assert FindCrlf(s) == Some(p);
    assert s[1..p] == text;
  }

  lemma NumberLine(tag: Byte, n: I64, rest: seq<Byte>)
    requires tag != CR
    ensures ReadNumber([tag] + Format(n) + CRLF + rest) == Parsed(n, |Format(n)| + 3)
    ensures ([tag] + Format(n) + CRLF + rest)[|Format(n)| + 3..] == rest
  {
    FormatHasNoCr(n);
    ParseFormat(n);
    HeaderLine(tag, Format(n), rest);
  }

  lemma BulkRoundTrip(d: seq<Byte>, rest: seq<Byte>)
    requires |d| <= I64_MAX
    ensures TryParse(Encode(BulkString(d)) + rest) == Parsed(BulkString(d), |Encode(BulkString(d))|)
  {
    hide Format, ReadNumber, ParseArray;
    var payload := d + CRLF + rest;
    var s := [BULK] + Format(|d|) + CRLF + payload;
    assert Encode(BulkString(d)) + rest == s;
    NumberLine(BULK, |d|, payload);
    var start := |Format(|d|)| + 3;
    assert s[start..start + |d|] == s[start..][..|d|] == d;
  }

  lemma ArrayRoundTrip(xs: seq<Value>, rest: seq<Byte>)
    requires |xs| <= I64_MAX
    requires ParseItems(EncodeAll(xs) + rest, |xs|) == Parsed(xs, |EncodeAll(xs)|)
    ensures TryParse(Encode(Array(xs)) + rest) == Parsed(Array(xs), |Encode(Array(xs))|)
  {
    hide ParseItems, EncodeAll, Format, ReadNumber;
    var s := [ARRAY] + Format(|xs|) + CRLF + (EncodeAll(xs) + rest);
    assert Encode(Array(xs)) + rest == s;
    NumberLine(ARRAY, |xs|, EncodeAll(xs) + rest);
    assert TryParse(s) == ParseArray(s);
  }

  /** Decoding a printed value, whatever follows it, returns that value and its printed length. */
  lemma {:induction false} RoundTrip(v: Value, rest: seq<Byte>)
    requires Clean(v) && Addressable(v)
    ensures TryParse(Encode(v) + rest) == Parsed(v, |Encode(v)|)
    decreases v, 0
  {
    hide ParseItems, ReadNumber, ReadLine;
    match v
    case SimpleString(t) =>
      HeaderLine(SIMPLE, t, rest);
    case Error(t) =>
      HeaderLine(ERROR, t, rest);
    case Integer(n) =>
      NumberLine(INTEGER, n, rest);
    case NilBulk =>
      assert MINUS_ONE == Format(-1);
      NumberLine(BULK, -1, rest);
    case NilArray =>
      assert MINUS_ONE == Format(-1);
      NumberLine(ARRAY, -1, rest);
    case BulkString(d) =>
      BulkRoundTrip(d, rest);
    case Array(xs) =>
      ItemsRoundTrip(xs, rest);
      ArrayRoundTrip(xs, rest);
  }

  lemma FirstEncoded(xs: seq<Value>, rest: seq<Byte>)
    requires xs != []
    ensures EncodeAll(xs) + rest == Encode(xs[0]) + (EncodeAll(xs[1..]) + rest)
    ensures |EncodeAll(xs)| == |Encode(xs[0])| + |EncodeAll(xs[1..])|
  {
    hide Encode;
  }

  lemma FirstItem(s: seq<Byte>, t: seq<Byte>, n: nat, v: Value)
    requires n > 0 && s != [] && TryParse(s + t) == Parsed(v, |s|)
    ensures ParseItems(s + t, n) == AddItem(v, |s|, ParseItems(t, n - 1))
  {
    hide TryParse;
    assert (s + t)[|s|..] == t;
  }

  lemma {:induction false} ItemsRoundTrip(xs: seq<Value>, rest: seq<Byte>)
    requires forall i :: 0 <= i < |xs| ==> Clean(xs[i]) && Addressable(xs[i])
    ensures ParseItems(EncodeAll(xs) + rest, |xs|) == Parsed(xs, |EncodeAll(xs)|)
    decreases xs, 1
  {
    if xs != [] {
      hide TryParse, Encode, ParseItems, EncodeAll, Clean, Addressable;
      var tail := EncodeAll(xs[1..]) + rest;
      FirstEncoded(xs, rest);
      RoundTrip(xs[0], tail);
      FirstItem(Encode(xs[0]), tail, |xs|, xs[0]);
      ItemsRoundTrip(xs[1..], rest);
      assert xs == [xs[0]] + xs[1..];
    }
  }

  /** The codec only ever produces clean values. */
  lemma {:induction false} ParsedIsClean(s: seq<Byte>)
    requires TryParse(s).Parsed?
    ensures Clean(TryParse(s).value)
    decreases |s|, 0
  {
    if s[0] == ARRAY && TryParse(s).value.Array? {
      var r := ReadNumber(s);
      ItemsAreClean(s[r.used..], r.value);
    }
  }

  lemma {:induction false} ItemsAreClean(s: seq<Byte>, n: nat)
    requires ParseItems(s, n).Parsed?
    ensures forall i :: 0 <= i < n ==> Clean(ParseItems(s, n).value[i])
    decreases |s|, 1
  {
    hide TryParse;
    if n > 0 {
      ParsedIsClean(s);
      ItemsAreClean(s[TryParse(s).used..], n - 1);
    }
  }

  /** The round trip holds exactly for the values without a CR in their text. */
  lemma RoundTripIff(v: Value, rest: seq<Byte>)
    requires Addressable(v)
    ensures TryParse(Encode(v) + rest) == Parsed(v, |Encode(v)|) <==> Clean(v)
  {
    hide TryParse, Encode;
    if Clean(v) {
      RoundTrip(v, rest);
    } else if TryParse(Encode(v) + rest).Parsed? {
      ParsedIsClean(Encode(v) + rest);
    }
  }

  /** Every strict prefix of a printed value asks for more bytes: it is never taken for a
      shorter value, an error or a bad length. */
  lemma StrictPrefixIncomplete(v: Value, k: nat)
    requires Clean(v) && Addressable(v) && k < |Encode(v)|
    ensures TryParse(Encode(v)[..k]).Incomplete?
  {
    hide TryParse, Encode;
    var p, t := Encode(v)[..k], Encode(v)[k..];
    if !TryParse(p).Incomplete? {
      ParseStable(p, t);
      assert p + t == Encode(v) == Encode(v) + [];
      RoundTrip(v, []);
    }
  }

  /** Two streams that start with printed values start with the same value and go on alike. */
  lemma UniqueDecoding(v: Value, rest: seq<Byte>, v': Value, rest': seq<Byte>)
    requires Clean(v) && Addressable(v) && Clean(v') && Addressable(v')
    requires Encode(v) + rest == Encode(v') + rest'
    ensures v == v' && rest == rest'
  {
    hide TryParse, Encode;
    RoundTrip(v, rest);
    RoundTrip(v', rest');
    assert rest == (Encode(v) + rest)[|Encode(v)|..];
    assert rest' == (Encode(v') + rest')[|Encode(v')|..];
  }
}
