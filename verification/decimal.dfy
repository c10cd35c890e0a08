/** Decimal text of integers as Go's `strconv` and `fmt` read and write it, and Go's
    64-bit signed integer arithmetic where the report engine relies on it. */
module Decimal {

  const MaxUint64: int := 0xFFFF_FFFF_FFFF_FFFF
  const MaxInt64: int := 0x7FFF_FFFF_FFFF_FFFF
  const MinInt64: int := -0x8000_0000_0000_0000
  const TwoTo64: int := 0x1_0000_0000_0000_0000

  /** `strconv.ParseUint` stops multiplying once the accumulator reaches this value. */
  const CutoffUint64: int := MaxUint64 / 10 + 1

  predicate IsDigit(c: char) {
    '0' <= c <= '9'
  }

  predicate AllDigits(s: string) {
    forall i :: 0 <= i < |s| ==> IsDigit(s[i])
  }

  function DigitValue(c: char): nat
    requires IsDigit(c)
  {
    c as int - '0' as int
  }

  function DigitChar(d: nat): (c: char)
    requires d < 10
    ensures IsDigit(c) && DigitValue(c) == d
  {
    ('0' as int + d) as char
  }

  /** The value of a digit string read most-significant first, with no width limit. */
  function DigitsValue(s: string): nat
    requires AllDigits(s)
  {
    if s == [] then 0 else DigitsValue(s[..|s| - 1]) * 10 + DigitValue(s[|s| - 1])
  }

  /** The shortest decimal digits of `n`: what `%d` and `strconv.Itoa` write for a
      non-negative value. */
  function Digits(n: nat): (r: string)
    ensures 1 <= |r| && AllDigits(r)
    ensures DigitsValue(r) == n
    ensures r[0] != '0' || n == 0
  {
    if n < 10 then [DigitChar(n)]
    else
      var r := Digits(n / 10) + [DigitChar(n % 10)];
      assert r[..|r| - 1] == Digits(n / 10);
      r
  }

  /** `fmt.Sprintf("%d", i)`: a minus sign for negative values, then the digits. */
  function FormatInt(i: int): string {
    if i < 0 then "-" + Digits(-i) else Digits(i)
  }

  /** The digits after an optional leading sign, as `strconv.ParseInt` strips it. */
  function Unsigned(s: string): string {
    if 0 < |s| && (s[0] == '+' || s[0] == '-') then s[1..] else s
  }

  predicate IsNegative(s: string) {
    0 < |s| && s[0] == '-'
  }

  /** Base-10 integer syntax accepted by `strconv.ParseInt(s, 10, 64)`: an optional sign
      followed by at least one ASCII digit and nothing else. */
  predicate WellFormedInt(s: string) {
    var u := Unsigned(s);
    1 <= |u| && AllDigits(u)
  }

  /** The mathematical value of well-formed integer text. */
  function SignedValue(s: string): int
    requires WellFormedInt(s)
  {
    if IsNegative(s) then -(DigitsValue(Unsigned(s)) as int) else DigitsValue(Unsigned(s))
  }

  /** Outcome of `strconv.ParseUint`'s digit loop. */
  datatype UintScan = Scanned(n: nat) | SyntaxError | RangeError

  /** The digit loop of `strconv.ParseUint(s, 10, 64)`, read left to right: a non-digit is a
      syntax error; the first step that would leave the unsigned 64-bit range is a range
      error, and Go returns it at once without looking at the rest of the text. */
  function ScanUint64(s: string): (r: UintScan)
    ensures r.Scanned? ==> AllDigits(s) && r.n == DigitsValue(s) && r.n <= MaxUint64
    ensures AllDigits(s) && DigitsValue(s) <= MaxUint64 ==> r.Scanned?
    ensures AllDigits(s) && DigitsValue(s) > MaxUint64 ==> r.RangeError?
  {
    if s == [] then Scanned(0)
    else
      var prefix, c := s[..|s| - 1], s[|s| - 1];
      assert s == prefix + [c];
      match ScanUint64(prefix)
      case SyntaxError => SyntaxError
      case RangeError => RangeError
      case Scanned(n) =>
        if !IsDigit(c) then SyntaxError
        else if n >= CutoffUint64 then RangeError
        else if n * 10 + DigitValue(c) > MaxUint64 then RangeError
        else Scanned(n * 10 + DigitValue(c))
  }

  /** Go's `(int64, error)` pair: the returned value and whether the error was nil. */
  datatype IntParse = IntParse(value: int, ok: bool)

  /** `strconv.ParseInt(s, 10, 64)`. Malformed text yields 0; text out of the int64 range
      yields the bound of the matching sign; both with a non-nil error. */
  function ParseInt64(s: string): (r: IntParse)
    ensures MinInt64 <= r.value <= MaxInt64
    ensures r.ok <==> WellFormedInt(s) && MinInt64 <= SignedValue(s) <= MaxInt64
    ensures r.ok ==> r.value == SignedValue(s)
    ensures WellFormedInt(s) && SignedValue(s) > MaxInt64 ==> r == IntParse(MaxInt64, false)
    ensures WellFormedInt(s) && SignedValue(s) < MinInt64 ==> r == IntParse(MinInt64, false)
    ensures !r.ok ==> r.value == 0 || r.value == MaxInt64 || r.value == MinInt64
  {
    if s == [] then IntParse(0, false)
    else
      var neg := s[0] == '-';
      var u := Unsigned(s);
      if u == [] then IntParse(0, false)
      else
        match ScanUint64(u)
        case SyntaxError => IntParse(0, false)
        case RangeError => if neg then IntParse(MinInt64, false) else IntParse(MaxInt64, false)
        case Scanned(n) =>
          if !neg && n > MaxInt64 then IntParse(MaxInt64, false)
          else if neg && n > -MinInt64 then IntParse(MinInt64, false)
          else IntParse(if neg then -(n as int) else n, true)
  }

  /** `strconv.Atoi` on a 64-bit platform, with the error discarded as the report code does:
      it returns what `ParseInt(s, 10, 64)` returns. */
  function Atoi(s: string): int {
    ParseInt64(s).value
  }

  /** The value a 64-bit two's-complement register holds after computing `x`. */
  function WrapInt64(x: int): (r: int)
    ensures MinInt64 <= r <= MaxInt64
    ensures (x - r) % TwoTo64 == 0
  {
    (x - MinInt64) % TwoTo64 + MinInt64
  }

  /** Two int64 values that agree modulo 2^64 are equal. */
  lemma CongruentInRangeEqual(a: int, b: int)
    requires MinInt64 <= a <= MaxInt64 && MinInt64 <= b <= MaxInt64
    requires (a - b) % TwoTo64 == 0
    ensures a == b
  {
    var k := (a - b) / TwoTo64;
    assert a - b == k * TwoTo64;
  }

  /** Text that `%d` writes is read back by `strconv.ParseInt` as the same value. */
  lemma {:induction false} FormatIntRoundTrip(i: int)
    ensures WellFormedInt(FormatInt(i)) && SignedValue(FormatInt(i)) == i
    ensures MinInt64 <= i <= MaxInt64 ==> ParseInt64(FormatInt(i)) == IntParse(i, true)
  {
    var s := FormatInt(i);
    if i < 0 {
      assert Unsigned(s) == Digits(-i);
    } else {
      assert Unsigned(s) == Digits(i);
    }
  }

  /** Wrapping after every addition is the same as wrapping once at the end, so a running
      int64 total equals the wrapped mathematical total. */
  lemma WrapAddAbsorbs(a: int, b: int)
    ensures WrapInt64(WrapInt64(a) + b) == WrapInt64(a + b)
  {
    var wa := WrapInt64(a);
    var x, y := WrapInt64(wa + b), WrapInt64(a + b);
    var k1 := (wa + b - x) / TwoTo64;
    var k2 := (a + b - y) / TwoTo64;
    var k3 := (a - wa) / TwoTo64;
    assert wa + b - x == k1 * TwoTo64;
    assert a + b - y == k2 * TwoTo64;
    assert a - wa == k3 * TwoTo64;
    assert x - y == (k2 - k1 - k3) * TwoTo64;
    CongruentInRangeEqual(x, y);
  }

  function Pow10(k: nat): nat {
    if k == 0 then 1 else 10 * Pow10(k - 1)
  }

  lemma {:induction false} Pow10Monotone(a: nat, b: nat)
    requires a <= b
    ensures Pow10(a) <= Pow10(b)
    decreases b
  {
    if a < b {
      Pow10Monotone(a, b - 1);
    }
  }

  lemma Pow10Of18()
    ensures Pow10(18) == 1_000_000_000_000_000_000
  {
    assert Pow10(3) == 1_000;
    assert Pow10(6) == 1_000_000;
    assert Pow10(9) == 1_000_000_000;
    assert Pow10(12) == 1_000_000_000_000;
    assert Pow10(15) == 1_000_000_000_000_000;
  }

  /** A digit text of length `k` is below 10^k. */
  lemma {:induction false} DigitsBound(s: string)
    requires AllDigits(s)
    ensures DigitsValue(s) < Pow10(|s|)
  {
    if s != [] {
      DigitsBound(s[..|s| - 1]);
    }
  }

  /** Nineteen characters or fewer never overflow the unsigned 64-bit digit loop. */
  lemma {:induction false} ShortScanNoOverflow(u: string)
    requires |u| <= 19
    ensures !ScanUint64(u).RangeError?
    ensures ScanUint64(u).Scanned? ==> ScanUint64(u).n < Pow10(|u|)
  {
    if u != [] {
      var n := |u| - 1;
      ShortScanNoOverflow(u[..n]);
      Pow10Monotone(n, 18);
      Pow10Of18();
    }
  }

  /** Malformed text whose digits part has at most nineteen characters is read as 0: the
      clamped values only come from text long enough to overflow. */
  lemma ShortMalformedIsZero(s: string)
    requires !WellFormedInt(s) && |Unsigned(s)| <= 19
    ensures ParseInt64(s).value == 0
  {
    ShortScanNoOverflow(Unsigned(s));
  }
}
