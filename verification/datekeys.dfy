/** The day key `DD-MM-YYYY` that both the aggregation stage (`%d-%m-%Y`) and the daily
    fill loop (`Format("02-01-2006")`) write for a UTC calendar day. */
module DateKeys {
  import opened Decimal
  import opened Calendar

  /** `n` zero-padded on the left to at least `width` digits, as Go's `appendInt` pads. */
  function ZeroPad(n: nat, width: nat): (s: string)
    ensures AllDigits(s) && DigitsValue(s) == n && width <= |s|
  {
    var d := Digits(n);
    if |d| >= width then d
    else
      var s := Repeat('0', width - |d|) + d;
      LeadingZerosValue(width - |d|, d);
      s
  }

  function Repeat(c: char, k: nat): (s: string)
    ensures |s| == k && forall i :: 0 <= i < k ==> s[i] == c
  {
    if k == 0 then [] else [c] + Repeat(c, k - 1)
  }

  /** Leading zeros do not change the value of digit text. */
  lemma {:induction false} LeadingZerosValue(k: nat, d: string)
    requires AllDigits(d)
    ensures AllDigits(Repeat('0', k) + d) && DigitsValue(Repeat('0', k) + d) == DigitsValue(d)
    decreases |d|
  {
    var s := Repeat('0', k) + d;
    if d == [] {
      assert s == Repeat('0', k);
      ZerosValue(k);
    } else {
      assert s[..|s| - 1] == Repeat('0', k) + d[..|d| - 1];
      LeadingZerosValue(k, d[..|d| - 1]);
    }
  }

  lemma {:induction false} ZerosValue(k: nat)
    ensures AllDigits(Repeat('0', k)) && DigitsValue(Repeat('0', k)) == 0
  {
    if k > 0 {
      var s := Repeat('0', k);
      assert s[..|s| - 1] == Repeat('0', k - 1) by {
        assert s == Repeat('0', k - 1) + ['0'];
      }
      ZerosValue(k - 1);
    }
  }

  /** The two digits Go writes for a day or month (`02`, `01`). */
  function Two(n: nat): (s: string)
    requires n < 100
    ensures |s| == 2 && AllDigits(s) && DigitsValue(s) == n
  {
    var s := [DigitChar(n / 10), DigitChar(n % 10)];
    assert s[..1] == [DigitChar(n / 10)];
    assert [DigitChar(n / 10)][..0] == [];
    assert DigitsValue(s[..1]) == n / 10;
    s
  }

  /** The year as `2006` writes it: a minus sign for years before 0, then the magnitude
      zero-padded to four digits. */
  function YearText(y: int): (s: string)
    ensures WellFormedInt(s) && SignedValue(s) == y
  {
    var s := if y < 0 then "-" + ZeroPad(-y, 4) else ZeroPad(y, 4);
    assert Unsigned(s) == ZeroPad(if y < 0 then -y else y, 4);
    s
  }

  /** `DD-MM-YYYY` for a valid date. */
  function FormatDate(dt: Date): (k: string)
    requires ValidDate(dt)
    ensures |k| >= 10 && k[2] == '-' && k[5] == '-'
  {
    Two(dt.day) + "-" + Two(dt.month) + "-" + YearText(dt.year)
  }

  /** Reads `DD-MM-YYYY` text back into a date. */
  function DecodeDate(k: string): (r: Date)
    requires |k| >= 7 && AllDigits(k[..2]) && AllDigits(k[3..5]) && WellFormedInt(k[6..])
  {
    Date(SignedValue(k[6..]), DigitsValue(k[3..5]), DigitsValue(k[..2]))
  }

  lemma FormatDateRoundTrip(dt: Date)
    requires ValidDate(dt)
    ensures var k := FormatDate(dt);
      AllDigits(k[..2]) && AllDigits(k[3..5]) && WellFormedInt(k[6..]) && DecodeDate(k) == dt
  {
    var k := FormatDate(dt);
    assert k[..2] == Two(dt.day);
    assert k[3..5] == Two(dt.month);
    assert k[6..] == YearText(dt.year);
  }

  /** The key of day number `n`. */
  function DayKey(n: int): string {
    FormatDate(CivilFromDays(n))
  }

  /** Different days have different keys, so a key names exactly one day. */
  lemma DayKeyInjective(a: int, b: int)
    ensures DayKey(a) == DayKey(b) <==> a == b
  {
    if DayKey(a) == DayKey(b) {
      FormatDateRoundTrip(CivilFromDays(a));
      FormatDateRoundTrip(CivilFromDays(b));
    }
  }
}
