/** The GET/SET fast path of src/production/connection_optimized.rs: offsets computed straight
    from the buffer, with the header length as a parameter. */
module FastPath {
  import opened Numbers
  import opened Resp

  const GET: seq<Byte> := [71, 69, 84]
  const GET_LOWER: seq<Byte> := [103, 101, 116]
  const SET: seq<Byte> := [83, 69, 84]
  const SET_LOWER: seq<Byte> := [115, 101, 116]

  /** The constant in the code, and the real length of the text it stands for. */
  const HEADER_LEN: nat := 14
  const LITERAL_LEN: nat := 13

  datatype Fast =
    | Get(key: seq<Byte>, used: nat)
    | Set(key: seq<Byte>, value: seq<Byte>, used: nat)
    | NeedMoreData
    | NotFastPath

  /** `*<n>\r\n$3\r\n<name>\r\n`. */
  function Literal(count: Byte, name: seq<Byte>): seq<Byte> {
    [ARRAY, count, CR, LF, BULK, 51, CR, LF] + name + CRLF
  }

  predicate IsGet(name: seq<Byte>) { name == GET || name == GET_LOWER }
  predicate IsSet(name: seq<Byte>) { name == SET || name == SET_LOWER }

  /** A `$<len>\r\n` field read without looking for the LF. */
  datatype Field = Short | Reject | Field(start: nat, len: nat)

  function ReadField(s: seq<Byte>): Field {
    if s == [] then Short
    else if s[0] != BULK then Reject
    else
      match FirstCr(s[1..])
      case None => Short
      case Some(c) =>
        match ParseUsize(s[1..c + 1])
        case None => Reject
        case Some(n) => Field(c + 3, n)
  }

  function TryFastGet(buf: seq<Byte>, header: nat): Fast {
    if |buf| < header + 1 then NeedMoreData
    else
      match ReadField(buf[header..])
      case Short => NeedMoreData
      case Reject => NotFastPath
      case Field(start, len) =>
        var keyStart := header + start;
        var total := keyStart + len + 2;
        if |buf| < total then NeedMoreData else Get(buf[keyStart..keyStart + len], total)
  }

  function TryFastSet(buf: seq<Byte>, header: nat): Fast {
    if |buf| < header + 1 then NeedMoreData
    else
      match ReadField(buf[header..])
      case Short => NeedMoreData
      case Reject => NotFastPath
      case Field(start, len) =>
        var keyStart := header + start;
        var keyEnd := keyStart + len;
        var valLenStart := keyEnd + 2;
        if |buf| < valLenStart + 1 then NeedMoreData
        else
          match ReadField(buf[valLenStart..])
          case Short => NeedMoreData
          case Reject => NotFastPath
          case Field(vstart, vlen) =>
            var valStart := valLenStart + vstart;
            var total := valStart + vlen + 2;
            if |buf| < total then NeedMoreData
            else Set(buf[keyStart..keyEnd], buf[valStart..valStart + vlen], total)
  }

  function TryFastPath(buf: seq<Byte>, header: nat): Fast {
    if |buf| < 12 then NotFastPath
    else if Literal(50, GET) <= buf || Literal(50, GET_LOWER) <= buf then TryFastGet(buf, header)
    else if Literal(51, SET) <= buf || Literal(51, SET_LOWER) <= buf then TryFastSet(buf, header)
    else NotFastPath
  }

  // ---------------------------------------------------------------- what the generic parser says

  /** A bulk string at the front of `s`, as the generic parser read it. */
  lemma BulkAt(s: seq<Byte>)
    requires TryParse(s).Parsed? && TryParse(s).value.BulkString?
    ensures s[0] == BULK && ReadNumber(s).Parsed?
    ensures var d, start := TryParse(s).value.data, ReadNumber(s).used;
            ReadNumber(s).value == |d| && start + |d| + 2 <= |s| &&
            d == s[start..start + |d|] && TryParse(s).used == start + |d| + 2
  {
    hide ReadNumber;
  }

  /** The fast field reader finds the same payload, or rejects a length written `-0`. */
  lemma FieldAgrees(s: seq<Byte>)
    requires TryParse(s).Parsed? && TryParse(s).value.BulkString?
    ensures |s| >= 2 && ReadNumber(s).Parsed?
    ensures ReadField(s) == if s[1] == MINUS then Reject else Field(ReadNumber(s).used, |TryParse(s).value.data|)
  {
    hide TryParse;
    BulkAt(s);
    var pos := FindCrlf(s).value;
    var u := s[1..];
    assert u[pos - 1] == CR && forall i :: 0 <= i < pos - 1 ==> u[i] == s[i + 1];
    assert FirstCr(u) == Some(pos - 1);
    assert u[..pos - 1] == s[1..pos];
    UsizeOfI64(s[1..pos]);
  }

  lemma UsizeOfI64(t: seq<Byte>)
    requires ParseI64(t).Some? && ParseI64(t).value >= 0
    ensures ParseUsize(t) == if t[0] == MINUS then None else Some(ParseI64(t).value)
  {
    if t[0] == MINUS {
      assert !IsDigit(t[0]);
    }
  }

  /** An accepted command with this literal header: the items after the name start at 13. */
  lemma HeaderItems(count: Byte, name: seq<Byte>, buf: seq<Byte>)
    requires count == 50 || count == 51
    requires |name| == 3 && Literal(count, name) <= buf
    requires TryParse(buf).Parsed?
    ensures var n: nat := count - 49;
            ParseItems(buf[13..], n).Parsed? &&
            TryParse(buf).value == Array([BulkString(name)] + ParseItems(buf[13..], n).value) &&
            TryParse(buf).used == 13 + ParseItems(buf[13..], n).used
  {
    hide TryParse, ParseItems, ReadNumber, Encode, Format;
    var n := count - 48;
    EncodeName(count, name);
    var payload := buf[13..];
    assert buf[4..] == Encode(BulkString(name)) + payload;
    assert buf == [ARRAY] + Format(n) + CRLF + buf[4..];
    NumberLine(ARRAY, n, buf[4..]);
    BulkRoundTrip(name, payload);
    assert buf[4..][9..] == buf[13..];
    ItemsOfHeader(buf, n, name);
  }

  lemma EncodeName(count: Byte, name: seq<Byte>)
    requires count == 50 || count == 51
    requires |name| == 3
    ensures Encode(BulkString(name)) == [BULK, 51, CR, LF] + name + CRLF
    ensures Format(count - 48) == [count]
  {
    assert Format(3) == [51];
  }

  lemma ItemsOfHeader(buf: seq<Byte>, n: nat, name: seq<Byte>)
    requires |buf| >= 13 && buf[0] == ARRAY && n > 0
    requires ReadNumber(buf) == Parsed(n, 4) && TryParse(buf).Parsed?
    requires TryParse(buf[4..]) == Parsed(BulkString(name), 9)
    requires buf[4..][9..] == buf[13..]
    ensures ParseItems(buf[13..], n - 1).Parsed?
    ensures TryParse(buf).value == Array([BulkString(name)] + ParseItems(buf[13..], n - 1).value)
    ensures TryParse(buf).used == 13 + ParseItems(buf[13..], n - 1).used
  {
    hide ReadNumber;
    assert ParseItems(buf[4..], n) == AddItem(BulkString(name), 9, ParseItems(buf[4..][9..], n - 1));
    assert TryParse(buf) == ParseArray(buf) == AsArray(4, ParseItems(buf[4..], n));
  }

  lemma OneItem(s: seq<Byte>)
    requires ParseItems(s, 1).Parsed?
    ensures TryParse(s).Parsed? && ParseItems(s, 1) == Parsed([TryParse(s).value], TryParse(s).used)
  {
    hide TryParse;
    var v, used := TryParse(s).value, TryParse(s).used;
    assert ParseItems(s[used..], 0) == Parsed([], 0);
    assert ParseItems(s, 1) == AddItem(v, used, ParseItems(s[used..], 0));
    assert [v] + [] == [v];
  }

  lemma TwoItems(s: seq<Byte>)
    requires ParseItems(s, 2).Parsed?
    ensures TryParse(s).Parsed? && TryParse(s[TryParse(s).used..]).Parsed?
    ensures var a := TryParse(s); var b := TryParse(s[a.used..]);
            ParseItems(s, 2) == Parsed([a.value, b.value], a.used + b.used)
  {
    hide TryParse;
    var a := TryParse(s);
    assert ParseItems(s, 2) == AddItem(a.value, a.used, ParseItems(s[a.used..], 1));
    OneItem(s[a.used..]);
    var b := TryParse(s[a.used..]);
    assert [a.value] + [b.value] == [a.value, b.value];
  }

  // ---------------------------------------------------------------- the fast path against it

  /** With the true header length the fast GET slices the key and consumes the bytes that the
      generic parser does; only a length written with a minus sign (`-0`) is left to it. */
  lemma FastGetAgrees(name: seq<Byte>, key: seq<Byte>, used: nat, buf: seq<Byte>)
    requires IsGet(name) && Literal(50, name) <= buf
    requires TryParse(buf) == Parsed(Array([BulkString(name), BulkString(key)]), used)
    ensures |buf| > 14
    ensures TryFastPath(buf, LITERAL_LEN) == if buf[14] == MINUS then NotFastPath else Get(key, used)
  {
    hide TryParse, ParseItems, ReadNumber, ReadField, TryFastGet, TryFastPath, Literal;
    GetDispatch(name, buf);
    HeaderItems(50, name, buf);
    var s := buf[13..];
    OneItem(s);
    assert TryParse(s) == Parsed(BulkString(key), used - 13) by {
      assert TryParse(buf).value.items[1] == ([BulkString(name)] + ParseItems(s, 1).value)[1];
    }
    GetSlices(buf, s);
  }

  lemma GetDispatch(name: seq<Byte>, buf: seq<Byte>)
    requires IsGet(name) && Literal(50, name) <= buf
    ensures |buf| >= 13 && TryFastPath(buf, LITERAL_LEN) == TryFastGet(buf, LITERAL_LEN)
  {
    hide TryFastGet;
  }

  lemma GetSlices(buf: seq<Byte>, s: seq<Byte>)
    requires |buf| >= 13 && s == buf[13..]
    requires TryParse(s).Parsed? && TryParse(s).value.BulkString?
    ensures |buf| > 14
    ensures TryFastGet(buf, LITERAL_LEN) ==
            if buf[14] == MINUS then NotFastPath else Get(TryParse(s).value.data, 13 + TryParse(s).used)
  {
    hide TryParse, ReadNumber, ReadField;
    FieldAgrees(s);
    BulkAt(s);
    var start, key := ReadNumber(s).used, TryParse(s).value.data;
    assert s[start..start + |key|] == buf[13 + start..13 + start + |key|];
  }

  /** The same for SET, with both fields; `second` is where the value's length line starts. */
  lemma FastSetAgrees(name: seq<Byte>, key: seq<Byte>, value: seq<Byte>, used: nat, buf: seq<Byte>)
    requires IsSet(name) && Literal(51, name) <= buf && |buf| > 13
    requires TryParse(buf) == Parsed(Array([BulkString(name), BulkString(key), BulkString(value)]), used)
    ensures TryParse(buf[13..]).Parsed? && |buf| > 13 + TryParse(buf[13..]).used + 1
    ensures var second := 13 + TryParse(buf[13..]).used;
            TryFastPath(buf, LITERAL_LEN) ==
            if buf[14] == MINUS || buf[second + 1] == MINUS then NotFastPath else Set(key, value, used)
  {
    hide TryParse, ParseItems, ReadNumber, ReadField, TryFastSet, TryFastPath, Literal;
    SetDispatch(name, buf);
    HeaderItems(51, name, buf);
    var s := buf[13..];
    TwoItems(s);
    var a := TryParse(s);
    var t := s[a.used..];
    var b := TryParse(t);
    assert a.value == BulkString(key) && b.value == BulkString(value) by {
      assert TryParse(buf).value.items == [BulkString(name)] + [a.value, b.value];
      assert TryParse(buf).value.items[1] == a.value && TryParse(buf).value.items[2] == b.value;
    }
    SetSlices(buf, s, t);
  }

  lemma SetSlices(buf: seq<Byte>, s: seq<Byte>, t: seq<Byte>)
    requires |buf| > 13 && s == buf[13..]
    requires TryParse(s).Parsed? && TryParse(s).value.BulkString? && t == s[TryParse(s).used..]
    requires TryParse(t).Parsed? && TryParse(t).value.BulkString?
    ensures var second := 13 + TryParse(s).used;
            |buf| > second + 1 &&
            TryFastSet(buf, LITERAL_LEN) ==
            if buf[14] == MINUS || buf[second + 1] == MINUS then NotFastPath
            else Set(TryParse(s).value.data, TryParse(t).value.data, second + TryParse(t).used)
  {
    hide TryParse, ReadNumber, ReadField, TryFastSet;
    var second := 13 + TryParse(s).used;
    FieldAgrees(s);
    BulkAt(s);
    FieldAgrees(t);
    BulkAt(t);
    assert t == buf[second..];
    SetVerdict(buf, TryParse(s).value.data, ReadNumber(s).used, TryParse(t).value.data, ReadNumber(t).used, second);
  }

  lemma SetDispatch(name: seq<Byte>, buf: seq<Byte>)
    requires IsSet(name) && Literal(51, name) <= buf
    ensures TryFastPath(buf, LITERAL_LEN) == TryFastSet(buf, LITERAL_LEN)
  {
    hide TryFastSet, TryFastGet;
    assert buf[1] == Literal(51, name)[1] == 51 && Literal(50, GET)[1] == Literal(50, GET_LOWER)[1] == 50;
  }

  lemma SetVerdict(buf: seq<Byte>, key: seq<Byte>, start: nat, value: seq<Byte>, vstart: nat, j: nat)
    requires start >= 3 && vstart >= 3 && j == 13 + start + |key| + 2
    requires j + vstart + |value| + 2 <= |buf|
    requires key == buf[13..][start..start + |key|] && value == buf[j..][vstart..vstart + |value|]
    requires ReadField(buf[13..]) == if buf[14] == MINUS then Reject else Field(start, |key|)
    requires ReadField(buf[j..]) == if buf[j + 1] == MINUS then Reject else Field(vstart, |value|)
    ensures TryFastSet(buf, LITERAL_LEN) ==
            if buf[14] == MINUS || buf[j + 1] == MINUS then NotFastPath
            else Set(key, value, j + vstart + |value| + 2)
  {
    hide ReadField;
    assert key == buf[13 + start..13 + start + |key|];
    assert value == buf[j + vstart..j + vstart + |value|];
  }

  // ---------------------------------------------------------------- the header length in the code

  /** The first CR after `i` is at `c`. */
  predicate LineEnd(buf: seq<Byte>, i: nat, c: nat) {
    i < c < |buf| && buf[c] == CR && forall j :: i < j < c ==> buf[j] != CR
  }

  /** A length field at `i` that cannot be one: it does not start with `$`, or its line is no length. */
  ghost predicate Refused(buf: seq<Byte>, i: nat) {
    && i < |buf|
    && (buf[i] != BULK || exists c: nat :: LineEnd(buf, i, c) && ParseUsize(buf[i + 1..c]) == None)
  }

  lemma RefusedIff(buf: seq<Byte>, i: nat)
    requires i < |buf|
    ensures ReadField(buf[i..]) == Reject <==> Refused(buf, i)
  {
    var s := buf[i..];
    var u := s[1..];
    assert u == buf[i + 1..];
    match FirstCr(u)
    case None =>
      forall c: nat | i < c < |buf| ensures buf[c] != CR { assert buf[c] == u[c - i - 1]; }
    case Some(n) =>
      var c := i + 1 + n;
      forall j | i < j < c ensures buf[j] != CR { assert buf[j] == u[j - i - 1]; }
      assert LineEnd(buf, i, c) && s[1..n + 1] == buf[i + 1..c];
      forall d: nat | LineEnd(buf, i, d) ensures d == c { }
  }

  /** Where the second field of a SET starts, if the first one can be read. */
  function SecondField(buf: seq<Byte>): nat {
    var f := if |buf| > HEADER_LEN then ReadField(buf[HEADER_LEN..]) else Short;
    if f.Field? then HEADER_LEN + f.start + f.len + 2 else |buf|
  }

  /** With the header length in the code, a buffer that starts like a GET or SET is left to the codec
      if and only if byte 14 is not `$` or a length is refused. */
  lemma DeclinesIff(count: Byte, name: seq<Byte>, buf: seq<Byte>)
    requires (count == 50 && IsGet(name)) || (count == 51 && IsSet(name))
    requires Literal(count, name) <= buf && |buf| > HEADER_LEN
    ensures TryFastPath(buf, HEADER_LEN) == NotFastPath <==>
              Refused(buf, HEADER_LEN) || (count == 51 && Refused(buf, SecondField(buf)))
  {
    hide Literal, ReadField, Refused, TryFastPath, TryFastGet, TryFastSet, SecondField;
    Dispatch(count, name, buf, HEADER_LEN);
    RefusedIff(buf, HEADER_LEN);
    GetDeclines(buf);
    SetDeclines(buf);
    var second := SecondField(buf);
    if second < |buf| { RefusedIff(buf, second); } else { PastEnd(buf, second); }
  }

  lemma GetDeclines(buf: seq<Byte>)
    requires |buf| > HEADER_LEN
    ensures TryFastGet(buf, HEADER_LEN) == NotFastPath <==> ReadField(buf[HEADER_LEN..]) == Reject
  {
    hide ReadField;
  }

  lemma SetDeclines(buf: seq<Byte>)
    requires |buf| > HEADER_LEN
    ensures var second := SecondField(buf);
            TryFastSet(buf, HEADER_LEN) == NotFastPath <==>
              ReadField(buf[HEADER_LEN..]) == Reject || (second < |buf| && ReadField(buf[second..]) == Reject)
  {
    hide ReadField;
  }

  lemma PastEnd(buf: seq<Byte>, i: nat)
    requires i >= |buf|
    ensures !Refused(buf, i)
  {
  }

  lemma Dispatch(count: Byte, name: seq<Byte>, buf: seq<Byte>, header: nat)
    requires (count == 50 && IsGet(name)) || (count == 51 && IsSet(name))
    requires Literal(count, name) <= buf
    ensures TryFastPath(buf, header) == if count == 50 then TryFastGet(buf, header) else TryFastSet(buf, header)
  {
    hide TryFastGet, TryFastSet;
    assert buf[1] == Literal(count, name)[1] == count;
    assert Literal(50, GET)[1] == Literal(50, GET_LOWER)[1] == 50;
  }

  /** The first byte of a number line is a sign or a digit. */
  lemma SecondByte(s: seq<Byte>)
    requires s != [] && s[0] != CR && ReadNumber(s).Parsed?
    ensures |s| >= 2 && s[1] != BULK
  {
    var pos := FindCrlf(s).value;
    var text := s[1..pos];
    assert text != [] && text[0] == s[1];
    assert text[0] == MINUS || text[0] == PLUS || IsDigit(text[0]);
  }

  /** A text that starts with `$`. */
  predicate DollarText(v: Value) {
    (v.SimpleString? || v.Error?) && v.text != [] && v.text[0] == BULK
  }

  /** An item whose second byte is `$` is such a text, and it ends with the first line. */
  lemma DollarItem(s: seq<Byte>)
    requires TryParse(s).Parsed? && |s| >= 2 && s[1] == BULK
    ensures FindCrlf(s).Some? && FindCrlf(s).value >= 2
    ensures DollarText(TryParse(s).value) && TryParse(s).used == FindCrlf(s).value + 2
  {
    hide ReadNumber, ParseItems;
    if s[0] == SIMPLE || s[0] == ERROR {
      assert FindCrlf(s).value >= 2;
    } else {
      SecondByte(s);
      assert false;
    }
  }

  lemma FirstItem(count: Byte, name: seq<Byte>, buf: seq<Byte>)
    requires count == 50 || count == 51
    requires |name| == 3 && Literal(count, name) <= buf && TryParse(buf).Parsed?
    ensures |buf| > HEADER_LEN && TryParse(buf[13..]).Parsed?
  {
    hide TryParse;
    HeaderItems(count, name, buf);
    if count == 50 { OneItem(buf[13..]); } else { TwoItems(buf[13..]); }
  }

  /** An accepted GET or SET is not left to the codec only if the item after the name is a simple string
      or an error that starts with `$`; in particular one with a bulk string there always is. */
  lemma FastPathDeclines(count: Byte, name: seq<Byte>, buf: seq<Byte>)
    requires (count == 50 && IsGet(name)) || (count == 51 && IsSet(name))
    requires Literal(count, name) <= buf && TryParse(buf).Parsed?
    ensures |buf| > HEADER_LEN && TryParse(buf[13..]).Parsed?
    ensures buf[HEADER_LEN] == BULK <==> DollarText(TryParse(buf[13..]).value)
    ensures TryFastPath(buf, HEADER_LEN) == NotFastPath || DollarText(TryParse(buf[13..]).value)
  {
    FirstItem(count, name, buf);
    DeclinesIff(count, name, buf);
    var s := buf[13..];
    assert s[1] == buf[HEADER_LEN];
    if s[1] == BULK { DollarItem(s); } else { OtherItem(s); }
  }

  lemma OtherItem(s: seq<Byte>)
    requires TryParse(s).Parsed? && |s| >= 2 && s[1] != BULK
    ensures !DollarText(TryParse(s).value)
  {
    hide ReadNumber, ParseItems;
  }

  /** A GET the fast path does take, it reads past its end: the key it returns and a line end were no part
      of the command. */
  lemma TakenReadsOn(name: seq<Byte>, buf: seq<Byte>)
    requires IsGet(name) && Literal(50, name) <= buf && TryParse(buf).Parsed?
    requires TryFastPath(buf, HEADER_LEN).Get?
    ensures var f := TryFastPath(buf, HEADER_LEN);
            f.used == TryParse(buf).used + |f.key| + 2 && f.key == buf[TryParse(buf).used..TryParse(buf).used + |f.key|]
  {
    hide TryParse, ReadField;
    var s := buf[13..];
    FastPathDeclines(50, name, buf);
    Dispatch(50, name, buf, HEADER_LEN);
    HeaderItems(50, name, buf);
    OneItem(s);
    RefusedIff(buf, HEADER_LEN);
    assert s[1] == buf[HEADER_LEN];
    DollarItem(s);
    SameLineEnd(buf);
  }

  lemma SameLineEnd(buf: seq<Byte>)
    requires |buf| > HEADER_LEN && ReadField(buf[HEADER_LEN..]).Field? && FindCrlf(buf[13..]).Some?
    requires FindCrlf(buf[13..]).value >= 2
    ensures 13 + FindCrlf(buf[13..]).value + 2 == HEADER_LEN + ReadField(buf[HEADER_LEN..]).start
  {
    var s, t := buf[13..], buf[HEADER_LEN..];
    var pos, c := FindCrlf(s).value, FirstCr(t[1..]).value;
    assert t[1..] == s[2..];
    assert forall i :: 0 <= i < |s| - 2 ==> s[2..][i] == s[i + 2];
    assert s[2..][pos - 2] == CR;
  }

  /** `*2\r\n$3\r\nGET\r\n+$3\r\n`: a GET whose key is the simple string `$3`, and then `abc\r\n`. */
  function Misread(): seq<Byte> {
    Literal(50, GET) + [SIMPLE, BULK, 51, CR, LF, 97, 98, 99, CR, LF]
  }

  lemma {:induction false} FirstCrIs(s: seq<Byte>, n: nat)
    requires n < |s| && s[n] == CR && NoCr(s, n)
    ensures FirstCr(s) == Some(n)
  {
  }

  lemma DollarThree(t: seq<Byte>, u: seq<Byte>)
    requires |t| > 2 && t[0] == BULK && t[1] == 51 && t[2] == CR && u == t[1..]
    ensures ReadField(t) == Field(4, 3)
  {
    FirstCrIs(u, 1);
    assert t[1..2] == [51];
    assert Digits(3) == [51];
    DigitsDenote(3);
  }

  lemma SimpleDollarThree(s: seq<Byte>)
    requires |s| > 4 && s[..5] == [SIMPLE, BULK, 51, CR, LF]
    ensures TryParse(s) == Parsed(SimpleString([BULK, 51]), 5)
  {
    assert forall i :: 0 <= i < 5 ==> s[i] == s[..5][i];
    FirstCrIs(s, 3);
    assert s[1..3] == [BULK, 51];
  }

  /** The fast path takes `abc` for the key and swallows it with the command. */
  lemma FastPathMisreads()
    ensures TryFastPath(Misread(), HEADER_LEN) == Get([97, 98, 99], 23)
    ensures TryParse(Misread()[13..]) == Parsed(SimpleString([BULK, 51]), 5)
  {
    var s: seq<Byte> := [SIMPLE, BULK, 51, CR, LF, 97, 98, 99, CR, LF];
    var t, u := s[1..], s[2..];
    assert Misread() == Literal(50, GET) + s && Misread()[13..] == s && Misread()[14..] == t && t[1..] == u;
    hide TryParse, ReadField, TryFastPath;
    SimpleDollarThree(s);
    DollarThree(t, u);
    assert Misread()[18..21] == [97, 98, 99];
    Dispatch(50, GET, Misread(), HEADER_LEN);
  }

  lemma FieldExtends(s: seq<Byte>, t: seq<Byte>)
    requires ReadField(s).Field?
    ensures ReadField(s + t) == ReadField(s)
  {
    var c := FirstCr(s[1..]).value;
    var u := s[1..] + t;
    assert (s + t)[1..] == u;
    assert u[c] == CR && forall i :: 0 <= i < c ==> u[i] == s[1..][i];
    assert FirstCr(u) == Some(c);
    assert (s + t)[1..c + 1] == s[1..c + 1];
  }

  lemma GetExtends(a: seq<Byte>, b: seq<Byte>, header: nat)
    requires TryFastGet(a, header).Get?
    ensures TryFastGet(a + b, header) == TryFastGet(a, header) && TryFastGet(a, header).used <= |a|
  {
    hide ReadField;
    FieldExtends(a[header..], b);
    assert (a + b)[header..] == a[header..] + b;
    var f := ReadField(a[header..]);
    var i := header + f.start;
    assert (a + b)[i..i + f.len] == a[i..i + f.len];
  }

  lemma SetExtends(a: seq<Byte>, b: seq<Byte>, header: nat)
    requires TryFastSet(a, header).Set?
    ensures TryFastSet(a + b, header) == TryFastSet(a, header) && TryFastSet(a, header).used <= |a|
  {
    hide ReadField;
    FieldExtends(a[header..], b);
    assert (a + b)[header..] == a[header..] + b;
    var f := ReadField(a[header..]);
    var i := header + f.start;
    assert (a + b)[i..i + f.len] == a[i..i + f.len];
    var j := i + f.len + 2;
    FieldExtends(a[j..], b);
    assert (a + b)[j..] == a[j..] + b;
    var g := ReadField(a[j..]);
    var k := j + g.start;
    assert (a + b)[k..k + g.len] == a[k..k + g.len];
  }

  lemma PrefixExtends(p: seq<Byte>, a: seq<Byte>, b: seq<Byte>)
    requires |p| <= |a|
    ensures p <= a + b <==> p <= a
  {
    if p <= a + b {
      forall i | 0 <= i < |p| ensures p[i] == a[i] { assert (a + b)[i] == a[i]; }
    }
  }

  /** What the fast path takes from a buffer it takes from every longer one, whatever the header
      length. */
  lemma FastExtends(a: seq<Byte>, b: seq<Byte>, header: nat)
    requires TryFastPath(a, header).Get? || TryFastPath(a, header).Set?
    ensures TryFastPath(a + b, header) == TryFastPath(a, header)
    ensures TryFastPath(a, header).used <= |a|
  {
    hide TryFastGet, TryFastSet, Literal;
    if |a| >= 13 {
      LiteralLength(a, b);
      if Literal(50, GET) <= a || Literal(50, GET_LOWER) <= a {
        TakesGet(a, header);
        GetExtends(a, b, header);
      } else {
        TakesSet(a, header);
        SetExtends(a, b, header);
      }
    } else {
      TooShort(a);
    }
  }

  lemma LiteralLength(a: seq<Byte>, b: seq<Byte>)
    requires |a| >= 13
    ensures Literal(50, GET) <= a + b <==> Literal(50, GET) <= a
    ensures Literal(50, GET_LOWER) <= a + b <==> Literal(50, GET_LOWER) <= a
    ensures Literal(51, SET) <= a + b <==> Literal(51, SET) <= a
    ensures Literal(51, SET_LOWER) <= a + b <==> Literal(51, SET_LOWER) <= a
  {
    PrefixExtends(Literal(50, GET), a, b);
    PrefixExtends(Literal(50, GET_LOWER), a, b);
    PrefixExtends(Literal(51, SET), a, b);
    PrefixExtends(Literal(51, SET_LOWER), a, b);
  }

  lemma TooShort(a: seq<Byte>)
    requires |a| < 13
    ensures forall count: Byte, name: seq<Byte> :: |name| == 3 ==> !(Literal(count, name) <= a)
  {
    forall count: Byte, name: seq<Byte> | |name| == 3 ensures !(Literal(count, name) <= a) {
      assert |Literal(count, name)| == 13;
    }
  }

  lemma TakesGet(a: seq<Byte>, header: nat)
    ensures !TryFastGet(a, header).Set?
  {
  }

  lemma TakesSet(a: seq<Byte>, header: nat)
    ensures !TryFastSet(a, header).Get?
  {
  }

  /** A buffer holding only part of a command the fast path would take whole is never executed:
      it waits or leaves the decision to the generic parser. */
  lemma FastNeverEarly(buf: seq<Byte>, k: nat, header: nat)
    requires k < |buf|
    requires TryFastPath(buf, header).Get? || TryFastPath(buf, header).Set?
    requires TryFastPath(buf, header).used == |buf|
    ensures TryFastPath(buf[..k], header).NeedMoreData? || TryFastPath(buf[..k], header).NotFastPath?
  {
    hide TryFastPath;
    assert buf[..k] + buf[k..] == buf;
    if TryFastPath(buf[..k], header).Get? || TryFastPath(buf[..k], header).Set? {
      FastExtends(buf[..k], buf[k..], header);
    }
  }
}
