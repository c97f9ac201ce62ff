/** Small shared definitions: optional values, powers of two, Go's 64-bit integers and decimal text. */
module Basics {

  datatype Option<+T> = None | Some(value: T)

  function Max(a: int, b: int): int {
    if a < b then b else a
  }

  function Min(a: int, b: int): int {
    if a < b then a else b
  }

  function Pow2(n: nat): (r: nat)
    ensures 0 < r
  {
    if n == 0 then 1 else 2 * Pow2(n - 1)
  }

  lemma {:induction false} Pow2Monotone(a: nat, b: nat)
    requires a <= b
    ensures Pow2(a) <= Pow2(b)
    decreases b
  {
    if a < b {
      Pow2Monotone(a, b - 1);
    }
  }

  lemma Pow2At33And34()
    ensures Pow2(33) == 0x2_0000_0000
    ensures Pow2(34) == 0x4_0000_0000
  {
    assert Pow2(8) == 256;
    assert Pow2(16) == 0x1_0000;
    assert Pow2(24) == 0x100_0000;
    assert Pow2(32) == 0x1_0000_0000;
  }

  const TWO_TO_THE_63: int := 0x8000_0000_0000_0000
  const TWO_TO_THE_64: int := 0x1_0000_0000_0000_0000

  const NANOS_PER_MILLI: int := 1_000_000

  /** The value a Go int64 holds after an operation whose exact result is x. */
  function WrapInt64(x: int): (r: int)
    ensures -TWO_TO_THE_63 <= r < TWO_TO_THE_63
    ensures r == x <==> -TWO_TO_THE_63 <= x < TWO_TO_THE_63
  {
    (x + TWO_TO_THE_63) % TWO_TO_THE_64 - TWO_TO_THE_63
  }

  /** The value a Go uint64 holds after an addition whose exact result is x. */
  function WrapUint64(x: nat): (r: nat)
    ensures r < TWO_TO_THE_64
    ensures r == x <==> x < TWO_TO_THE_64
  {
    x % TWO_TO_THE_64
  }

  lemma WrapUint64Sum(x: nat, y: nat)
    ensures WrapUint64(WrapUint64(x) + y) == WrapUint64(x + y)
  {
  }

  /** Go's integer division, which truncates toward zero. */
  function TruncatedDiv(a: int, b: int): int
    requires 0 < b
  {
    if 0 <= a then a / b else -((-a) / b)
  }

  /** Go's conversion of a float64 to an integer, which truncates toward zero. */
  function Truncate(x: real): int {
    if 0.0 <= x then x.Floor else -((-x).Floor)
  }

  function Sum(s: seq<int>): int {
    if s == [] then 0 else Sum(s[..|s| - 1]) + s[|s| - 1]
  }

  lemma SumOfLonger(s: seq<int>, x: int)
    ensures Sum(s + [x]) == Sum(s) + x
  {
    assert (s + [x])[..|s|] == s;
  }

  /** The decimal text of a natural number. */
  function Decimal(n: nat): (s: string)
    ensures |s| > 0
  {
    if n < 10 then [DigitChar(n)] else Decimal(n / 10) + [DigitChar(n % 10)]
  }

  function DigitChar(d: nat): (c: char)
    requires d < 10
    ensures '0' <= c <= '9'
    ensures c as int - '0' as int == d
  {
    '0' + d as char
  }

  lemma {:induction false} DecimalIsDigits(n: nat)
    ensures forall i :: 0 <= i < |Decimal(n)| ==> '0' <= Decimal(n)[i] <= '9'
  {
    if n >= 10 {
      DecimalIsDigits(n / 10);
    }
  }

  /** Different numbers have different decimal texts. */
  lemma {:induction false} DecimalInjective(m: nat, n: nat)
    requires Decimal(m) == Decimal(n)
    ensures m == n
  {
    var s, t := Decimal(m), Decimal(n);
    assert s[|s| - 1] == DigitChar(m % 10);
    assert t[|t| - 1] == DigitChar(n % 10);
    if m >= 10 && n >= 10 {
      assert s[..|s| - 1] == Decimal(m / 10);
      assert t[..|t| - 1] == Decimal(n / 10);
      DecimalInjective(m / 10, n / 10);
    }
  }

  /** The number a text of decimal digits denotes. */
  function DecimalValue(s: string): nat
    requires forall i :: 0 <= i < |s| ==> '0' <= s[i] <= '9'
  {
    if s == [] then 0 else DecimalValue(s[..|s| - 1]) * 10 + (s[|s| - 1] as int - '0' as int)
  }

  lemma {:induction false} DecimalValueInverts(n: nat)
    ensures forall i :: 0 <= i < |Decimal(n)| ==> '0' <= Decimal(n)[i] <= '9'
    ensures DecimalValue(Decimal(n)) == n
  {
    DecimalIsDigits(n);
    var s := Decimal(n);
    if n >= 10 {
      DecimalValueInverts(n / 10);
      assert s[..|s| - 1] == Decimal(n / 10);
      assert s[|s| - 1] == DigitChar(n % 10);
    } else {
      assert s[..0] == [];
      assert s[0] == DigitChar(n);
    }
  }
}
