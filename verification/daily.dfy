/** The day-by-day tail of `getDailyCallReport` and `getDailyAvyuktaCallSummary`: the
    per-day totals the database grouping returns are put in a map, and one entry is written
    for every day the loop `for d := start; !d.After(end); d = d.Add(24h)` visits, with 0
    for days the grouping did not return. */
module Daily {
  import opened Results
  import opened Calendar
  import opened DateKeys
  import opened DateRange

  /** `EveryDayReport`: a `DD-MM-YYYY` day key and the total for that day. The grouping rows
      read back from the database have the same shape. */
  datatype DayTotal = DayTotal(date: string, totalTime: int)

  predicate HasDate(rows: seq<DayTotal>, k: string) {
    exists i :: 0 <= i < |rows| && rows[i].date == k
  }

  /** No later row has the date of row `i`. */
  predicate LastOfDate(rows: seq<DayTotal>, i: int)
    requires 0 <= i < |rows|
  {
    forall j :: i < j < |rows| ==> rows[j].date != rows[i].date
  }

  /** `resultMap`: each row stores its total under its date, a later row overwriting an
      earlier one with the same date. */
  function RowMap(rows: seq<DayTotal>): (m: map<string, int>)
    ensures forall k :: k in m <==> HasDate(rows, k)
    ensures forall i :: 0 <= i < |rows| && LastOfDate(rows, i) ==>
      rows[i].date in m && m[rows[i].date] == rows[i].totalTime
  {
    if rows == [] then map[]
    else
      var n := |rows| - 1;
      var p := RowMap(rows[..n]);
      RowMapStep(rows, p);
      p[rows[n].date := rows[n].totalTime]
  }

  lemma RowMapStep(rows: seq<DayTotal>, p: map<string, int>)
    requires |rows| > 0
    requires forall k :: k in p <==> HasDate(rows[..|rows| - 1], k)
    requires forall i :: 0 <= i < |rows| - 1 && LastOfDate(rows[..|rows| - 1], i) ==>
      rows[i].date in p && p[rows[i].date] == rows[i].totalTime
    ensures var m := p[rows[|rows| - 1].date := rows[|rows| - 1].totalTime];
      && (forall k :: k in m <==> HasDate(rows, k))
      && (forall i :: 0 <= i < |rows| && LastOfDate(rows, i) ==>
          rows[i].date in m && m[rows[i].date] == rows[i].totalTime)
  {
    var n := |rows| - 1;
    var q := rows[..n];
    var m := p[rows[n].date := rows[n].totalTime];
    forall k | HasDate(rows, k)
      ensures k in m
    {
      var i :| 0 <= i < |rows| && rows[i].date == k;
      if i < n {
        assert q[i] == rows[i];
        assert HasDate(q, k);
      }
    }
    forall k | k in p
      ensures HasDate(rows, k)
    {
      var i :| 0 <= i < n && q[i].date == k;
      assert rows[i] == q[i];
    }
    forall i | 0 <= i < |rows| && LastOfDate(rows, i)
      ensures rows[i].date in m && m[rows[i].date] == rows[i].totalTime
    {
      if i < n {
        assert q[i] == rows[i];
        assert rows[n].date != rows[i].date;
        assert LastOfDate(q, i);
      }
    }
  }

  /** `resultMap[dateStr]`: Go's zero value for a missing key. */
  function Lookup(m: map<string, int>, k: string): int {
    if k in m then m[k] else 0
  }

  /** How many instants `start`, `start + 24h`, ... are not after `end`. */
  function DayCount(start: int, end: int): nat {
    if start > end then 0 else (end - start) / MsPerDay + 1
  }

  /** The fill loop from the instant `d` on, writing the key `key` gives each visited day:
      the `i`-th entry carries the key of the `i`-th day after `d`'s, with its stored total. */
  function FillFrom(m: map<string, int>, d: int, end: int, key: int -> string): (r: seq<DayTotal>)
    ensures |r| == DayCount(d, end)
    ensures forall i :: 0 <= i < |r| ==>
      r[i].date == key(DayOf(d) + i) && r[i].totalTime == Lookup(m, key(DayOf(d) + i))
    decreases end - d
  {
    if d > end then []
    else
      var rest := FillFrom(m, d + MsPerDay, end, key);
      DayCountStep(d, end);
      DayOfShift(d, 1);
      var r := [DayTotal(key(DayOf(d)), Lookup(m, key(DayOf(d))))] + rest;
      assert forall i :: 1 <= i < |r| ==> r[i] == rest[i - 1];
      r
  }

  lemma DayCountStep(d: int, end: int)
    requires d <= end
    ensures DayCount(d + MsPerDay, end) + 1 == DayCount(d, end)
  {
    var q := (end - d) / MsPerDay;
    assert end - d == q * MsPerDay + (end - d) % MsPerDay;
    if d + MsPerDay <= end {
      assert end - d - MsPerDay == (q - 1) * MsPerDay + (end - d) % MsPerDay;
    }
  }

  /** The result of either daily query once the grouping rows are known. */
  function DailyFill(rows: seq<DayTotal>, start: int, end: int): (r: seq<DayTotal>)
    ensures |r| == DayCount(start, end)
    ensures forall i :: 0 <= i < |r| ==> r[i].date == DayKey(DayOf(start) + i)
    ensures forall i :: 0 <= i < |r| ==> r[i].totalTime == Lookup(RowMap(rows), r[i].date)
  {
    FillFrom(RowMap(rows), start, end, DayKey)
  }

  /** The query result as the report code sees it: a failed aggregation gives no entries
      beside the error, which the caller discards; otherwise one entry per visited day,
      keyed by that day, with its stored total or 0. */
  function DailyReport(grouped: Result<seq<DayTotal>>, start: int, end: int): (r: Result<seq<DayTotal>>)
    ensures grouped.Err? <==> r.Err?
    ensures r.Ok? ==> |r.value| == DayCount(start, end)
    ensures r.Ok? ==> forall i :: 0 <= i < |r.value| ==>
      && r.value[i].date == DayKey(DayOf(start) + i)
      && r.value[i].totalTime == Lookup(RowMap(grouped.value), r.value[i].date)
  {
    match grouped
    case Err(e) => Err(e)
    case Ok(rows) => Ok(DailyFill(rows, start, end))
  }

  /** The two loops as written: build the map row by row, then walk the instants. */
  method DailyFillLoop(rows: seq<DayTotal>, start: int, end: int) returns (entries: seq<DayTotal>)
    ensures entries == DailyFill(rows, start, end)
  {
    var resultMap := ResultMapLoop(rows);
    entries := FillLoop(resultMap, start, end, DayKey);
  }

  method ResultMapLoop(rows: seq<DayTotal>) returns (resultMap: map<string, int>)
    ensures resultMap == RowMap(rows)
  {
    resultMap := map[];
    for i := 0 to |rows|
      invariant resultMap == RowMap(rows[..i])
    {
      assert rows[..i + 1][..i] == rows[..i];
      resultMap := resultMap[rows[i].date := rows[i].totalTime];
    }
    assert rows[..|rows|] == rows;
  }

  /** The day loop, writing each visited instant's day with the layout `key`. */
  method FillLoop(resultMap: map<string, int>, start: int, end: int, key: int -> string)
    returns (entries: seq<DayTotal>)
    ensures entries == FillFrom(resultMap, start, end, key)
  {
    entries := [];
    var d := start;
    while d <= end
      invariant entries + FillFrom(resultMap, d, end, key) == FillFrom(resultMap, start, end, key)
      decreases end - d
    {
      var dateStr := key(DayOf(d));
      var totalTime := Lookup(resultMap, dateStr);
      FillStep(resultMap, d, end, key);
      entries := entries + [DayTotal(dateStr, totalTime)];
      d := d + MsPerDay;
    }
  }

  /** One turn of the fill loop. */
  lemma FillStep(m: map<string, int>, d: int, end: int, key: int -> string)
    requires d <= end
    ensures FillFrom(m, d, end, key) ==
      [DayTotal(key(DayOf(d)), Lookup(m, key(DayOf(d))))] + FillFrom(m, d + MsPerDay, end, key)
  {
  }

  /** A key layout that never gives two days the same text. */
  ghost predicate Injective(key: int -> string) {
    forall a, b :: key(a) == key(b) ==> a == b
  }

  lemma DayKeyIsInjective()
    ensures Injective(DayKey)
  {
    forall a, b | DayKey(a) == DayKey(b)
      ensures a == b
    {
      DayKeyInjective(a, b);
    }
  }

  lemma FillDistinct(m: map<string, int>, d: int, end: int, key: int -> string)
    requires Injective(key)
    ensures var r := FillFrom(m, d, end, key);
      forall i, j :: 0 <= i < j < |r| ==> r[i].date != r[j].date
  {
  }

  /** No two entries share a date. */
  lemma DatesDistinct(rows: seq<DayTotal>, start: int, end: int)
    ensures var r := DailyFill(rows, start, end);
      forall i, j :: 0 <= i < j < |r| ==> r[i].date != r[j].date
  {
    DayKeyIsInjective();
    FillDistinct(RowMap(rows), start, end, DayKey);
  }

  predicate UniqueDates(rows: seq<DayTotal>) {
    forall i, j :: 0 <= i < j < |rows| ==> rows[i].date != rows[j].date
  }

  /** The grouping returns one row per date; in whatever order it returns them, the daily
      entries are the same. */
  lemma RowOrderIrrelevant(rows: seq<DayTotal>, other: seq<DayTotal>, start: int, end: int)
    requires UniqueDates(rows) && UniqueDates(other)
    requires forall x :: x in rows <==> x in other
    ensures DailyFill(rows, start, end) == DailyFill(other, start, end)
  {
    var a, b := RowMap(rows), RowMap(other);
    forall k | k in a
      ensures k in b && a[k] == b[k]
    {
      var i :| 0 <= i < |rows| && rows[i].date == k;
      assert rows[i] in other;
      var j :| 0 <= j < |other| && other[j] == rows[i];
    }
    forall k | k in b
      ensures k in a
    {
      var j :| 0 <= j < |other| && other[j].date == k;
      assert other[j] in rows;
    }
    assert a == b;
  }

  lemma FillIgnoresKey(m: map<string, int>, d: int, end: int, key: int -> string, k: string, v: int)
    requires forall n :: DayOf(d) <= n < DayOf(d) + DayCount(d, end) ==> key(n) != k
    ensures FillFrom(m[k := v], d, end, key) == FillFrom(m, d, end, key)
  {
    var a, b := FillFrom(m[k := v], d, end, key), FillFrom(m, d, end, key);
    forall i | 0 <= i < |a|
      ensures a[i] == b[i]
    {
    }
  }

  /** A row whose date is none of the visited days does not change the result: the map may
      hold it, the loop never asks for it. */
  lemma UnvisitedRowIgnored(rows: seq<DayTotal>, extra: DayTotal, start: int, end: int)
    requires forall n :: DayOf(start) <= n < DayOf(start) + DayCount(start, end) ==> DayKey(n) != extra.date
    ensures DailyFill(rows + [extra], start, end) == DailyFill(rows, start, end)
  {
    var n := |rows + [extra]| - 1;
    assert (rows + [extra])[..n] == rows;
    FillIgnoresKey(RowMap(rows), start, end, DayKey, extra.date, extra.totalTime);
  }

  /** One call record as the grouping reads it: its instant and the amount it adds. */
  datatype Timed = Timed(at: int, amount: int)

  /** What the grouping adds up for the key `k` when it writes a day with `key`. */
  function SumOnKey(calls: seq<Timed>, k: string, key: int -> string): int {
    if calls == [] then 0
    else (if key(DayOf(calls[0].at)) == k then calls[0].amount else 0) + SumOnKey(calls[1..], k, key)
  }

  /** Reference: the amounts of the calls made on UTC day `n`. */
  function SumOnDay(calls: seq<Timed>, n: int): int {
    if calls == [] then 0
    else (if DayOf(calls[0].at) == n then calls[0].amount else 0) + SumOnDay(calls[1..], n)
  }

  /** Rows a grouping by `key` may return for `calls`, in any order: one per date, each with
      the sum for its date, and a row for the date of every call. */
  ghost predicate GroupedBy(calls: seq<Timed>, rows: seq<DayTotal>, key: int -> string) {
    && UniqueDates(rows)
    && (forall i :: 0 <= i < |rows| ==> rows[i].totalTime == SumOnKey(calls, rows[i].date, key))
    && forall j :: 0 <= j < |calls| ==> HasDate(rows, key(DayOf(calls[j].at)))
  }

  /** The rows the `$dateToString` / `$group` stages return: grouped by `DD-MM-YYYY` key. */
  ghost predicate GroupedFrom(calls: seq<Timed>, rows: seq<DayTotal>) {
    GroupedBy(calls, rows, DayKey)
  }

  lemma {:induction false} KeySumIsDaySum(calls: seq<Timed>, n: int, key: int -> string)
    requires Injective(key)
    ensures SumOnKey(calls, key(n), key) == SumOnDay(calls, n)
  {
    if calls != [] {
      KeySumIsDaySum(calls[1..], n, key);
    }
  }

  lemma {:induction false} NoCallNoSum(calls: seq<Timed>, k: string, key: int -> string)
    requires forall j :: 0 <= j < |calls| ==> key(DayOf(calls[j].at)) != k
    ensures SumOnKey(calls, k, key) == 0
  {
    if calls != [] {
      assert forall j :: 0 <= j < |calls| - 1 ==> calls[1..][j] == calls[j + 1];
      NoCallNoSum(calls[1..], k, key);
    }
  }

  /** The stored total of day `n`, or the 0 written for a missing date, is that day's sum. */
  lemma BucketAt(calls: seq<Timed>, rows: seq<DayTotal>, key: int -> string, n: int)
    requires Injective(key) && GroupedBy(calls, rows, key)
    ensures Lookup(RowMap(rows), key(n)) == SumOnDay(calls, n)
  {
    var m := RowMap(rows);
    var k := key(n);
    KeySumIsDaySum(calls, n, key);
    if k in m {
      var x :| 0 <= x < |rows| && rows[x].date == k;
      assert LastOfDate(rows, x);
    } else {
      NoCallNoSum(calls, k, key);
    }
  }

  /** Each daily entry is the total of the calls made on that UTC day: the fill with 0 and
      the grouping together count every call of a visited day once and no other call. */
  lemma BucketTotals(calls: seq<Timed>, rows: seq<DayTotal>, start: int, end: int)
    requires GroupedFrom(calls, rows)
    ensures var r := DailyFill(rows, start, end);
      forall i :: 0 <= i < |r| ==> r[i].totalTime == SumOnDay(calls, DayOf(start) + i)
  {
    DayKeyIsInjective();
    forall n
      ensures Lookup(RowMap(rows), DayKey(n)) == SumOnDay(calls, n)
    {
      BucketAt(calls, rows, DayKey, n);
    }
  }

  /** Over a range `ParseDateRange` accepted, the loop visits every day from the first to
      the last requested one, and none when the first is after the last. */
  lemma RangeDays(fromStr: string, toStr: string, nowFrom: int, nowTo: int)
    requires !ParseDateRange(fromStr, toStr, nowFrom, nowTo).failed
    ensures var p := ParseDateRange(fromStr, toStr, nowFrom, nowTo);
      var first, last := DayOf(p.start), DayOf(p.end);
      DayCount(p.start, p.end) == (if first <= last then last - first + 1 else 0)
  {
    var p := ParseDateRange(fromStr, toStr, nowFrom, nowTo);
    var first, last := DayOf(p.start), DayOf(p.end);
    assert p.start == MidnightOf(first);
    assert p.end == MidnightOf(last) + MsPerDay - 1;
    DayOfShift(MidnightOf(first), last - first);
  }
}
