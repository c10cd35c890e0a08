/** `utils.ParseDateRange`: turns the optional `fromDate` / `toDate` query values into the
    first and last millisecond of the requested UTC days. Each end that is left empty reads
    the clock on its own; the two readings are the parameters `nowFrom` and `nowTo`. */
module DateRange {
  import opened Decimal
  import opened Calendar
  import opened DateKeys
  import opened Results

  /** The shape layout `2006-01-02` demands: four digits, `-`, two digits, `-`, two digits,
      and nothing more. */
  predicate IsoShape(s: string) {
    && |s| == 10
    && AllDigits(s[..4]) && s[4] == '-'
    && AllDigits(s[5..7]) && s[7] == '-'
    && AllDigits(s[8..])
  }

  function IsoFields(s: string): Date
    requires IsoShape(s)
  {
    Date(DigitsValue(s[..4]), DigitsValue(s[5..7]), DigitsValue(s[8..]))
  }

  /** `time.Parse("2006-01-02", s)`: the shape above, a month in 1..12 and a day that exists
      in that month of that year; anything else is an error. */
  function ParseIsoDate(s: string): Option<Date> {
    if IsoShape(s) && ValidDate(IsoFields(s)) then Some(IsoFields(s)) else None
  }

  /** The text `Format("2006-01-02")` writes for a date with a four-digit year. */
  function IsoText(dt: Date): string
    requires ValidDate(dt) && 0 <= dt.year <= 9999
  {
    ZeroPad(dt.year, 4) + "-" + Two(dt.month) + "-" + Two(dt.day)
  }

  lemma {:induction false} DigitsLength(n: nat, k: nat)
    requires n < Pow10(k) && 1 <= k
    ensures |Digits(n)| <= k
  {
    if n >= 10 {
      DigitsLength(n / 10, k - 1);
    }
  }

  /** Digit texts of equal length and equal value are the same text. */
  lemma {:induction false} DigitsUnique(a: string, b: string)
    requires AllDigits(a) && AllDigits(b) && |a| == |b|
    requires DigitsValue(a) == DigitsValue(b)
    ensures a == b
  {
    if a != [] {
      var n := |a| - 1;
      assert DigitValue(a[n]) == DigitValue(b[n]);
      DigitsUnique(a[..n], b[..n]);
      assert a == a[..n] + [a[n]] && b == b[..n] + [b[n]];
    }
  }

  /** The parser accepts exactly the canonical texts of valid dates with four-digit years. */
  lemma ParseIsoDateExact(s: string, dt: Date)
    ensures ParseIsoDate(s) == Some(dt) <==>
      ValidDate(dt) && 0 <= dt.year <= 9999 && s == IsoText(dt)
  {
    if ValidDate(dt) && 0 <= dt.year <= 9999 {
      DigitsLength(dt.year, 4);
      var t := IsoText(dt);
      assert t[..4] == ZeroPad(dt.year, 4);
      assert t[5..7] == Two(dt.month);
      assert t[8..] == Two(dt.day);
      if ParseIsoDate(s) == Some(dt) {
        DigitsUnique(s[..4], t[..4]);
        DigitsUnique(s[5..7], t[5..7]);
        DigitsUnique(s[8..], t[8..]);
        assert s == s[..4] + "-" + s[5..7] + "-" + s[8..];
      }
    }
    if ParseIsoDate(s) == Some(dt) {
      DigitsBound(s[..4]);
      assert Pow10(4) == 10000;
    }
  }

  /** Go's zero `time.Time`, 0001-01-01 00:00:00 UTC, returned beside a parse error. */
  function ZeroTime(): int {
    MidnightOf(DaysFromCivil(Date(1, 1, 1)))
  }

  /** The day a query value names: the parsed date, or the current UTC day when empty. */
  function RequestedDay(s: string, now: int): Option<int> {
    if s == "" then Some(DayOf(now))
    else
      match ParseIsoDate(s)
      case Some(dt) => Some(DaysFromCivil(dt))
      case None => None
  }

  lemma RequestedDayDate(s: string, now: int)
    ensures forall dt :: ParseIsoDate(s) == Some(dt) ==>
      RequestedDay(s, now) == Some(DaysFromCivil(dt)) && CivilFromDays(DaysFromCivil(dt)) == dt
  {
    if ParseIsoDate(s).Some? {
      CivilRoundTrip(ParseIsoDate(s).value);
    }
  }

  /** `(startOfDay, endOfDay, err)`; on error both instants are Go's zero time. */
  datatype ParsedRange = ParsedRange(start: int, end: int, failed: bool)

  function ParseDateRange(fromStr: string, toStr: string, nowFrom: int, nowTo: int): (r: ParsedRange)
    ensures r.failed <==>
      (fromStr != "" && ParseIsoDate(fromStr).None?) || (toStr != "" && ParseIsoDate(toStr).None?)
    ensures r.failed ==> r.start == ZeroTime() && r.end == ZeroTime()
    ensures !r.failed ==> r.start % MsPerDay == 0 && r.end == MidnightOf(DayOf(r.end)) + MsPerDay - 1
    ensures !r.failed && fromStr == "" ==> DayOf(r.start) == DayOf(nowFrom)
    ensures !r.failed && toStr == "" ==> DayOf(r.end) == DayOf(nowTo)
    ensures forall dt :: ParseIsoDate(fromStr) == Some(dt) && !r.failed ==>
      CivilFromDays(DayOf(r.start)) == dt
    ensures forall dt :: ParseIsoDate(toStr) == Some(dt) && !r.failed ==>
      CivilFromDays(DayOf(r.end)) == dt
  {
    match (RequestedDay(fromStr, nowFrom), RequestedDay(toStr, nowTo))
    case (Some(a), Some(b)) =>
      RequestedDayDate(fromStr, nowFrom);
      RequestedDayDate(toStr, nowTo);
      ParsedRange(MidnightOf(a), LastMsOf(b), false)
    case _ => ParsedRange(ZeroTime(), ZeroTime(), true)
  }

  /** A range whose two ends name one day, whether written out or defaulted to the day of
      the clock reading, spans exactly one day less a millisecond. */
  lemma SingleDayRange(fromStr: string, toStr: string, nowFrom: int, nowTo: int)
    requires RequestedDay(fromStr, nowFrom).Some?
    requires RequestedDay(fromStr, nowFrom) == RequestedDay(toStr, nowTo)
    ensures var r := ParseDateRange(fromStr, toStr, nowFrom, nowTo);
      !r.failed && r.end - r.start == MsPerDay - 1
  {
  }

  /** The two clock readings are separate: with both ends empty and midnight passing
      between them, the range covers two days. */
  lemma DefaultsStraddleMidnight(nowFrom: int, nowTo: int)
    requires DayOf(nowTo) == DayOf(nowFrom) + 1
    ensures var r := ParseDateRange("", "", nowFrom, nowTo);
      !r.failed && r.end - r.start == 2 * MsPerDay - 1
  {
  }

  /** No order check: a from-date after the to-date is accepted and yields start > end. */
  lemma ReversedRangeAccepted(fromStr: string, toStr: string, nowFrom: int, nowTo: int, a: Date, b: Date)
    requires ParseIsoDate(fromStr) == Some(a) && ParseIsoDate(toStr) == Some(b)
    requires DaysFromCivil(b) < DaysFromCivil(a)
    ensures var r := ParseDateRange(fromStr, toStr, nowFrom, nowTo); !r.failed && r.start > r.end
  {
  }
}
