/** The imperative loops of the codec: decoding array elements by offset, and the in-place
    encoders of src/redis/resp_optimized.rs and src/production/connection_optimized.rs. */
module RespBuffers {
  import opened Numbers
  import opened Resp

  /** `parse_array`: the loop over `offset` and `elements` computes what `TryParse` says. */
  method ParseArrayLoop(input: seq<Byte>) returns (r: Outcome<Value>)
    requires input != [] && input[0] == ARRAY
    ensures r == TryParse(input)
  {
    hide TryParse, ReadNumber, ParseItems;
    ArrayDispatch(input);
    var header := ReadNumber(input);
    if !header.Parsed? {
      return if header.Invalid? then Invalid(header.error) else if header.Crash? then Crash else Incomplete;
    }
    var len, start := header.value, header.used;
    if len == -1 {
      return Parsed(NilArray, start);
    }
    if len < -1 {
      return Crash;
    }
    var elements: seq<Value> := [];
    var offset := start;
    var i := 0;
    AfterNothing(ParseItems(input[start..], len));
    while i < len
      invariant 0 <= i <= len && |elements| == i
      invariant start <= offset <= |input|
      invariant ParseItems(input[start..], len) == After(elements, offset - start, ParseItems(input[offset..], len - i))
    {
      ItemsStep(input[offset..], len - i);
      if offset >= |input| {
        return Incomplete;
      }
      var item := TryParse(input[offset..]);
      match item {
        case Parsed(value, consumed) =>
          AfterAdd(elements, offset - start, value, consumed, ParseItems(input[offset..][consumed..], len - i - 1));
          assert input[offset..][consumed..] == input[offset + consumed..];
          elements := elements + [value];
          offset := offset + consumed;
        case Incomplete => return Incomplete;
        case Invalid(e) => return Invalid(e);
        case Crash => return Crash;
      }
      i := i + 1;
    }
    NoItems(input[offset..]);
    assert elements + [] == elements;
    return Parsed(Array(elements), offset);
  }

  lemma ArrayDispatch(s: seq<Byte>)
    requires s != [] && s[0] == ARRAY
    ensures TryParse(s) == ParseArray(s)
  {
  }

  /** Items decoded earlier, in front of what the remaining input gives. */
  function After(vs: seq<Value>, used: nat, r: Outcome<seq<Value>>): Outcome<seq<Value>> {
    match r
    case Parsed(ws, more) => Parsed(vs + ws, used + more)
    case Incomplete => Incomplete
    case Invalid(e) => Invalid(e)
    case Crash => Crash
  }

  lemma AfterNothing(r: Outcome<seq<Value>>)
    ensures After([], 0, r) == r
  {
    if r.Parsed? {
      assert [] + r.value == r.value;
    }
  }

  lemma NoItems(s: seq<Byte>)
    ensures ParseItems(s, 0) == Parsed([], 0)
  {
  }

  lemma ItemsStep(s: seq<Byte>, n: nat)
    requires n > 0
    ensures ParseItems(s, n) ==
            if s == [] then Incomplete
            else
              match TryParse(s)
              case Parsed(v, used) => AddItem(v, used, ParseItems(s[used..], n - 1))
              case Incomplete => Incomplete
              case Invalid(e) => Invalid(e)
              case Crash => Crash
  {
  }

  lemma AfterAdd(vs: seq<Value>, used: nat, v: Value, consumed: nat, r: Outcome<seq<Value>>)
    ensures After(vs, used, AddItem(v, consumed, r)) == After(vs + [v], used + consumed, r)
  {
    if r.Parsed? {
      assert vs + ([v] + r.value) == vs + [v] + r.value;
    }
  }

  /** A growable byte buffer (`BytesMut`). */
  class Buffer {
    var bytes: seq<Byte>

    constructor ()
      ensures bytes == []
    {
      bytes := [];
    }

    method Put(s: seq<Byte>)
      modifies this
      ensures bytes == old(bytes) + s
    {
      bytes := bytes + s;
    }

    method PutLine(tag: Byte, text: seq<Byte>)
      modifies this
      ensures bytes == old(bytes) + ([tag] + text + CRLF)
    {
      Put([tag]);
      Put(text);
      Put(CRLF);
    }

    /** `encode_into` and `encode_resp_into`: append the printed form, in place. */
    method EncodeInto(v: Value)
      modifies this
      ensures bytes == old(bytes) + Encode(v)
      decreases v, 0
    {
      hide Format, EncodeAll;
      match v
      case SimpleString(t) =>
        PutLine(SIMPLE, t);
      case Error(t) =>
        PutLine(ERROR, t);
      case Integer(n) =>
        PutLine(INTEGER, Format(n));
      case NilBulk =>
        PutLine(BULK, MINUS_ONE);
      case BulkString(d) =>
        PutLine(BULK, Format(|d|));
        Put(d);
        Put(CRLF);
      case NilArray =>
        PutLine(ARRAY, MINUS_ONE);
      case Array(xs) =>
        PutLine(ARRAY, Format(|xs|));
        EncodeEach(xs);
    }

    /** The loop over array elements. */
    method EncodeEach(xs: seq<Value>)
      modifies this
      ensures bytes == old(bytes) + EncodeAll(xs)
      decreases xs, 1
    {
      hide Encode;
      for i := 0 to |xs|
        invariant bytes == old(bytes) + EncodeAll(xs[..i])
      {
        EncodeInto(xs[i]);
        EncodeAllSnoc(xs, i);
      }
      assert xs[..|xs|] == xs;
    }
  }

  lemma {:induction false} EncodeAllSnoc(xs: seq<Value>, i: nat)
    requires i < |xs|
    ensures EncodeAll(xs[..i + 1]) == EncodeAll(xs[..i]) + Encode(xs[i])
    decreases |xs|
  {
    hide Encode;
    if i == 0 {
      assert xs[..1][1..] == [] && xs[..0] == [];
      assert EncodeAll(xs[..1]) == Encode(xs[0]) + [];
    } else {
      assert xs[..i + 1][1..] == xs[1..][..i] && xs[..i][1..] == xs[1..][..i - 1];
      EncodeAllSnoc(xs[1..], i - 1);
      assert EncodeAll(xs[..i + 1]) == Encode(xs[0]) + (EncodeAll(xs[..i][1..]) + Encode(xs[i]));
    }
  }
}
