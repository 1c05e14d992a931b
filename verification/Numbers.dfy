/** Bytes, options and the decimal text of machine integers. */
module Numbers {

  datatype Option<+T> = None | Some(value: T)

  type Byte = b: int | 0 <= b < 256

  const I64_MIN: int := -0x8000_0000_0000_0000
  const I64_MAX: int := 0x7FFF_FFFF_FFFF_FFFF
  const U64_MAX: int := 0xFFFF_FFFF_FFFF_FFFF

  type I64 = n: int | I64_MIN <= n <= I64_MAX

  const CR: Byte := 13
  const LF: Byte := 10
  const PLUS: Byte := 43
  const MINUS: Byte := 45
  const ZERO: Byte := 48

  predicate IsDigit(b: Byte) {
    ZERO <= b <= 57
  }

  predicate AllDigits(s: seq<Byte>) {
    forall i :: 0 <= i < |s| ==> IsDigit(s[i])
  }

  /** Decimal digits of a natural number, most significant first. */
  function Digits(n: nat): (s: seq<Byte>)
    ensures |s| >= 1 && AllDigits(s)
  {
    if n < 10 then [ZERO + n] else Digits(n / 10) + [ZERO + n % 10]
  }

  /** The text Rust's `to_string` prints for an integer. */
  function Format(n: int): seq<Byte> {
    if n < 0 then [MINUS] + Digits(-n) else Digits(n)
  }

  /** The number a digit string denotes. */
  function Denote(s: seq<Byte>): nat
    requires AllDigits(s)
  {
    if s == [] then 0 else 10 * Denote(s[..|s| - 1]) + (s[|s| - 1] - ZERO)
  }

  /** `str::parse::<i64>`: an optional sign, at least one digit, no overflow. */
  function ParseI64(s: seq<Byte>): Option<I64> {
    if s == [] then None
    else
      var neg := s[0] == MINUS;
      var ds := if neg || s[0] == PLUS then s[1..] else s;
      if ds == [] || !AllDigits(ds) then None
      else
        var v: int := if neg then -(Denote(ds) as int) else Denote(ds);
        if I64_MIN <= v <= I64_MAX then Some(v) else None
  }

  /** `str::parse::<usize>` on a 64-bit target: a minus sign is never accepted. */
  function ParseUsize(s: seq<Byte>): Option<nat> {
    if s == [] then None
    else
      var ds := if s[0] == PLUS then s[1..] else s;
      if ds == [] || !AllDigits(ds) then None
      else if Denote(ds) <= U64_MAX then Some(Denote(ds)) else None
  }

  lemma {:induction false} DigitsDenote(n: nat)
    ensures Denote(Digits(n)) == n
  {
    if n >= 10 {
      DigitsDenote(n / 10);
      var s := Digits(n);
      assert s[..|s| - 1] == Digits(n / 10);
    } else {
      assert Digits(n)[..0] == [];
    }
  }

  lemma ParseSigned(ds: seq<Byte>)
    requires ds != [] && AllDigits(ds)
    ensures Denote(ds) <= I64_MAX ==> ParseI64(ds) == Some(Denote(ds))
    ensures Denote(ds) <= I64_MAX + 1 ==> ParseI64([MINUS] + ds) == Some(0 - Denote(ds))
  {
    var s := [MINUS] + ds;
    assert s[1..] == ds;
    assert IsDigit(ds[0]);
  }

  /** Printing then parsing an i64 gives it back. */
  lemma ParseFormat(n: int)
    requires I64_MIN <= n <= I64_MAX
    ensures ParseI64(Format(n)) == Some(n)
  {
    var m: nat := if n < 0 then -n else n;
    DigitsDenote(m);
    ParseSigned(Digits(m));
  }

  /** Printed integers hold no line terminator. */
  lemma FormatHasNoCr(n: int)
    ensures CR !in Format(n)
  {
    if n < 0 {
      assert CR !in Digits(-n);
    } else {
      assert CR !in Digits(n);
    }
  }
}
