# ZoomReports report engine — a verified Dafny model

The service builds two per-staff activity reports over a date range. Both are served by the
handlers in `controller/combineReport.go`:

- `GetCombineReport`: one summary block per report category.
- `DayByReportEveryStaff`: one total per calendar day per category.

This project models the in-memory logic of those handlers, together with `utils.ParseDateRange`:

- Parse and normalise the date range.
- For each staff member, collect the phone numbers of four lead sources. Merge the client and
  dialer lists into the dialer category.
- Reduce the matched call records to a `ReportBlock`, or to a day-by-day list of totals.
- Count the member's sales enrolments.
- Sort the reports by branch, then by name.

Every database read is an input of the model. The input is the list of records, or of
`(day key, total)` rows, the query returns, wrapped in a `Result` so that a failed read is
modelled too. The handlers receive the reads as a `Store` of functions.

Modules, one per file:

| module | file | models |
|---|---|---|
| `Results` | results.dfy | `Option` / `Result` |
| `Decimal` | decimal.dfy | `strconv.ParseInt` / `Atoi`, `%d`, int64 wrap-around |
| `Documents` | documents.dfy | `bson.M` records over a `Value` type, `%v` |
| `Dedup` | dedup.dfy | `removeDuplicates` and the client + dialer merge |
| `Collectors` | collectors.dfy | the four `Get*NumbersByEmployeeID` extraction rules |
| `Calendar` | calendar.dfy | UTC day numbers, midnight and end of day, the proleptic Gregorian calendar |
| `DateKeys` | datekeys.dfy | the `02-01-2006` day key and its injectivity |
| `DateRange` | daterange.dfy | `ParseDateRange` and `time.Parse("2006-01-02")` |
| `Summary` | summary.dfy | the counter loops of `getCallReport` and `getAvyuktaCallReport` |
| `Daily` | daily.dfy | the fill loops of `getDailyCallReport` and `getDailyAvyuktaCallSummary` |
| `Sales` | sales.dfy | the counting loop of `getSalesReport` |
| `Ordering` | ordering.dfy | the two-pass sort by (branch, name) |
| `Handlers` | handlers.dfy | `GetCombineReport` and `DayByReportEveryStaff` |

Modelling conventions:

- Instants are milliseconds since 1970-01-01 UTC. Days are day numbers, where `DayOf(t)` is
  `t` divided by the day length.
- Each clock read is a parameter. `ParseDateRange` reads the clock once per empty end, so it takes two readings, `nowFrom` and `nowTo`.
- Go's `int` is unbounded here, except in two places where the width shows. `strconv.ParseInt`
  clamps to the int64 range. The running `totalDuration +=` wraps modulo 2^64 (`WrapInt64`).

## Model

| member | source | states |
|---|---|---|
| Dedup.RemoveDuplicates | controller/combineReport.go:1066-1076 | The output repeats no element and holds exactly the input's elements, never more entries than the input. |
| Dedup.RemoveDuplicatesLoop | controller/combineReport.go:1066-1076 | The presence-map loop returns a duplicate-free list with the input's elements, and that list is the first-occurrence list. |
| Dedup.FirstSeenOrder | controller/combineReport.go:1066-1076 | Output elements appear in the order of their first occurrence in the input. |
| Dedup.Characterization | controller/combineReport.go:1066-1076 | Any duplicate-free list with the input's elements in first-seen order is the output, so these properties determine it. |
| Dedup.NoDupsFixed | controller/combineReport.go:1066-1076 | A duplicate-free input comes back unchanged. |
| Dedup.Idempotent | controller/combineReport.go:1066-1076 | Deduplicating twice gives the same list as deduplicating once. |
| Dedup.PrefixStable | controller/combineReport.go:1066-1076 | Appending input only appends output: the result for `a` is a prefix of the result for `a + b`. |
| Dedup.MergeNumbers | controller/combineReport.go:192-194 | The merged dialer-category list is duplicate-free and holds what either list holds. A duplicate-free first list is kept as its prefix. |
| Dedup.AbsorbKnown | controller/combineReport.go:192-194 | Appending numbers already in a duplicate-free list leaves the merge equal to that list. |
| Dedup.MergeSelf | controller/combineReport.go:192-194 | Merging a duplicate-free list with itself adds nothing. |
| Decimal.ParseInt64 | controller/combineReport.go:942-945 | The id parses exactly when it is well-formed base-10 text in the int64 range, and then to its value. Out-of-range text clamps to the int64 bound and fails. Anything else fails. |
| Decimal.WrapInt64 | controller/combineReport.go:490 | The stored sum lies in the int64 range and agrees with the true sum modulo 2^64. |
| Decimal.WrapAddAbsorbs | controller/combineReport.go:487-496 | Wrapping after every addition equals wrapping once at the end. |
| Decimal.FormatIntRoundTrip | controller/combineReport.go:968-973 | Text written by `%d` is well-formed and reads back as the same integer. |
| Decimal.ShortMalformedIsZero | controller/combineReport.go:488-489 | Malformed duration text of at most 19 digits is read as 0. |
| Calendar.CivilFromDays | utils/date.go:28-29 | Every day number has a valid calendar date whose day number is that day. |
| Calendar.CivilRoundTrip | utils/date.go:28-29 | Every valid date is recovered from its own day number. |
| Calendar.CivilInjective | utils/date.go:28-29 | Distinct day numbers have distinct dates. |
| Calendar.MidnightOf | utils/date.go:28 | The start-of-day instant lies in its day and falls on a day boundary. |
| Calendar.LastMsOf | utils/date.go:29 | The end-of-day instant lies in its day, one millisecond before the next midnight. |
| Calendar.DayOfShift | controller/combineReport.go:581 | Each 24-hour step advances the calendar day by exactly one. |
| DateKeys.FormatDate | controller/combineReport.go:582 | The key has the `DD-MM-YYYY` shape, with dashes at positions 2 and 5. |
| DateKeys.FormatDateRoundTrip | controller/combineReport.go:582 | The key of a valid date decodes back to that date. |
| DateKeys.DayKeyInjective | controller/combineReport.go:582 | Two days have the same key exactly when they are the same day. |
| DateRange.ParseIsoDateExact | utils/date.go:10-14 | The layout accepts exactly the canonical texts of valid dates with four-digit years. A day that the month lacks is rejected. |
| DateRange.ParseDateRange | utils/date.go:6-31 | Fails exactly when a non-empty value does not parse, and then returns zero times. Otherwise start is midnight of the from-day and end is 23:59:59.999 of the to-day. An empty from-value means the day of the first clock reading, an empty to-value the day of the second. |
| DateRange.SingleDayRange | utils/date.go:10-29 | When both ends name the same day, written out or defaulted to a clock reading's day, the range is accepted and end - start is 24h - 1ms. |
| DateRange.DefaultsStraddleMidnight | utils/date.go:15-26 | With both ends empty and midnight passing between the two clock reads, the range spans two days: end - start is 48h - 1ms. |
| DateRange.ReversedRangeAccepted | utils/date.go:6-31 | A from-date after the to-date is accepted and gives start > end. |
| Collectors.GatherMembers | controller/combineReport.go:919-925 | A number is gathered exactly when some record has a listed field whose value the source's rule accepts. |
| Collectors.Collect | controller/combineReport.go:906-931 | A failed read fails. Otherwise the list is duplicate-free and holds exactly what some record yields. |
| Collectors.AdvisingNumbers | controller/combineReport.go:897-931 | Yields the non-empty string values of `phone1`..`phone4`, duplicate-free. A failed read fails. |
| Collectors.CrmNumbers | controller/combineReport.go:934-986 | Fails when the id is not a base-10 int64. Otherwise yields every string `mobile`, the empty one included, and every integer `mobile` in decimal. |
| Collectors.ClientNumbers | controller/combineReport.go:988-1030 | Yields the non-empty strings and decimal integers of `follow_up`, `parentNumber` and `number`, duplicate-free. |
| Collectors.DialerNumbers | controller/combineReport.go:1032-1064 | Yields the `%v` text of every present `mobile`, duplicate-free, at most one per record. |
| Collectors.GatherOneField | controller/combineReport.go:1054-1058 | A one-field rule gathers at most one number per record. |
| Summary.TallyOf | controller/combineReport.go:487-496 | The non-zero counter counts the positive durations. Each counted record bumps exactly one counter. The total is the int64-wrapped sum. |
| Summary.CallReport | controller/combineReport.go:478-508 | No records give the zero block. Otherwise the total count is the record count and equals non-zero + zero. The total is the wrapped sum of the `Atoi`-parsed durations, so a negative one is added but counted as zero. First and last are the first and last records. |
| Summary.AvyuktaReport | controller/combineReport.go:405-449 | As above, but a record without `lenth_in_sec` is in the total count and in neither counter. Non-zero + zero equals the total count exactly when every record has the field. |
| Summary.CountedAvyukta | controller/combineReport.go:415-419 | At most every record reaches the counters, and all do exactly when each has `lenth_in_sec`. |
| Summary.SumByPermutation | controller/combineReport.go:487-496 | Each counter is independent of record order. |
| Summary.CallCountersOrderFree | controller/combineReport.go:482-496 | Reordering the call records changes no counter and not the total. |
| Summary.MalformedDurationIsZero | controller/combineReport.go:488-489 | A missing, non-string or short malformed `duration` counts as 0. |
| Summary.FirstLastOrdered | controller/combineReport.go:439-440 | On time-sorted input, both variants pick records of the input as first and last, and every record's time lies between theirs. |
| Daily.RowMap | controller/combineReport.go:574-577 | The map's keys are exactly the row dates. Each key holds the total of the last row with that date. |
| Daily.ResultMapLoop | controller/combineReport.go:574-577 | The map-building loop computes that map. |
| Daily.FillFrom | controller/combineReport.go:581-588 | One entry per 24-hour step while the step is not after the end. Entry `i` carries the key of day `DayOf(d) + i` and the map's total for that key, or 0. |
| Daily.DailyFill | controller/combineReport.go:573-588 | The list has one entry per visited day. Entry `i` is the day `i` days after the start, with its aggregated total or 0. |
| Daily.DailyReport | controller/combineReport.go:550-590 | A failed aggregation fails, and only then. Otherwise the list has one entry per visited day. Entry `i` is keyed by the day `i` days after the start and carries the total the grouping stored for that key, or 0. |
| Daily.DailyFillLoop | controller/combineReport.go:573-588 | The two loops as written compute the filled list. |
| Daily.FillLoop | controller/combineReport.go:581-588 | The append loop computes the recursive fill for any key function. |
| Daily.DatesDistinct | controller/combineReport.go:581-588 | No date appears twice in a filled list. |
| Daily.RowOrderIrrelevant | controller/combineReport.go:574-577 | With one row per date, as the grouping produces, the order of the rows does not change the list. |
| Daily.UnvisitedRowIgnored | controller/combineReport.go:581-588 | A row whose date no visited day has does not change the list. |
| Daily.BucketTotals | controller/combineReport.go:534-543 | When the rows are the per-day-key sums of the calls, entry `i` is the sum of the calls on day `i` after the start. |
| Daily.RangeDays | controller/combineReport.go:581 | Over a parsed range, the loop visits last - first + 1 days, or none when from is after to. |
| Sales.ToLower | controller/combineReport.go:824 | Lower-casing keeps the length and maps each ASCII capital to its lower-case letter. No capital remains. |
| Sales.ToLowerIdempotent | controller/combineReport.go:824 | Lower-casing twice is lower-casing once. |
| Sales.Index | controller/combineReport.go:824 | -1 exactly when the name does not occur. Otherwise the first position where it occurs. |
| Sales.CountIsMatching | controller/combineReport.go:820-832 | The one-lead-at-a-time count equals the size of the set of lead positions whose field contains the name, ignoring case. |
| Sales.SalesCounts | controller/combineReport.go:816-832 | The map has exactly the keys `L1` and `L2L3`. Each holds the number of lead positions whose lower-cased field contains the lower-cased name, at most the number of leads. |
| Sales.SalesReport | controller/combineReport.go:803-834 | The map is nil exactly when the read fails. Otherwise it has the keys `L1` and `L2L3`, each holding how many of the leads read match in that field, at most their number. |
| Sales.SalesCountLoop | controller/combineReport.go:816-834 | The loop that bumps a key when `strings.Index` finds the name computes the counts defined with `Contains`. A lead can bump both keys, and each key at most once. |
| Sales.CountExtremes | controller/combineReport.go:820-832 | A count is 0 exactly when no lead matches, and equals the number of leads exactly when all do. |
| Sales.EmptyNameCountsAll | controller/combineReport.go:824-831 | An empty name matches every lead. |
| Sales.CaseInsensitive | controller/combineReport.go:824-831 | A name and its lower-case form count the same leads. |
| Sales.CountAppend | controller/combineReport.go:820-832 | Counting two batches separately and adding gives the count of both. |
| Ordering.StrLessTotal | controller/combineReport.go:222-224 | Go's string `<` orders any two different strings one way, never both. |
| Ordering.StrLessTransitive | controller/combineReport.go:222-224 | String `<` is transitive. |
| Ordering.KeyOrder | controller/combineReport.go:222-232 | (branch, name) order is irreflexive, transitive, total and asymmetric. |
| Ordering.Insert | controller/combineReport.go:227-232 | Inserting into a sorted list keeps it sorted and adds exactly that report. |
| Ordering.SortReports | controller/combineReport.go:222-232 | The result is ordered by branch, then name, and is a permutation of the input. |
| Ordering.SortedKeysUnique | controller/combineReport.go:222-232 | Any two sorted permutations list the same (branch, name) sequence, so only ties can differ. |
| Handlers.CategoryNumbers | controller/combineReport.go:163-194 | The three lists are duplicate-free. The advising and CRM lists are nil exactly when their collector fails, and an id that is not an int64 makes the CRM list nil; otherwise they are the collector's list. The dialer list holds the client and dialer numbers, client numbers first, and is never nil. |
| Handlers.NilIsNotEmpty | controller/combineReport.go:166-173 | A failed collector's nil list and a successful empty list are distinct arguments to the database reads. |
| Handlers.CallBlock | controller/combineReport.go:452-508 | A failed or empty read gives `ReportBlock{}`. The total count is the number of records read, and equals non-zero + zero. On records, the total is the wrapped sum of the parsed durations and first and last are the end records. |
| Handlers.AvyuktaBlock | controller/combineReport.go:376-449 | A failed or empty read gives `ReportBlock{}`. The total count is the number of records read. Only records with `lenth_in_sec` reach non-zero + zero, so that sum is at most the total count. The total and the end records are as for call logs. |
| Handlers.StaffSummary | controller/combineReport.go:196-218 | Identity comes from the staff record. Each of the dialer, CRM and advisor blocks counts exactly the call-log records read for that category's numbers, and the platform block the records read by name. Sales is nil exactly when the sales read fails, and otherwise holds the two keys, each at most the number of leads read. |
| Handlers.CombineReport | controller/combineReport.go:94-235 | Given the parsed range: a failed parse gives 400, and otherwise an unreadable staff list gives 500. Otherwise the reports are sorted by (branch, name) and are a permutation of the per-staff reports. |
| Handlers.ArrangementMembers | controller/combineReport.go:222-232 | Every sorted report is some staff member's report, and every staff member's report is present. |
| Handlers.DailyBlock | controller/combineReport.go:335-338 | A discarded error leaves an empty list. Otherwise one entry per visited day, keyed by that day, with the stored total for that key or 0. |
| Handlers.StaffDaily | controller/combineReport.go:334-357 | Built like the summary report. Each daily list is empty, or has one entry per visited day keyed by that day. |
| Handlers.DayByDayReport | controller/combineReport.go:237-373 | 400 / 500 as above. Otherwise the daily reports, sorted and a permutation of the per-staff reports. |
| Handlers.DayByDayCoversRange | controller/combineReport.go:335-338 | Every daily list in a response is empty or covers each requested day once, in order. |
| Handlers.BadDateIsBadRequest | controller/combineReport.go:98-101 | Both handlers answer 400 exactly when a non-empty query value is not a valid `YYYY-MM-DD` date. |

## Left out

- HTTP transport: Fiber, query reading, JSON encoding and the routes. Handlers take the result of `ParseDateRange` on the query strings and return a `Response`.
- The MongoDB driver: connections, `Find`, `Aggregate`, cursors, timeouts and the staff projection and filter. Each read is a field of `Store`.
- The server-side semantics of `$match`, `$in`, `$regex`, `$sort`, `$toInt`, `$dateToString`, `$group` and `$sum`. The aggregation rows are an input. `Daily.BucketTotals` states what a correct `$group` would give.
- The `$sort` stage itself. `Summary.FirstLastOrdered` assumes it as a precondition.
- How the server answers `$in: nil` compared with `$in: []`. A failed collector's nil list reaches `Store.callLogs` and `Store.dailyCalls` as `None`, and a successful empty one as `Some([])`. What each read then returns, an error or an empty result, is left to the `Store` functions.
- The `$regex` pre-filter of `getSalesReport`. The model counts over whatever leads the read returns.
- Goroutines and the `WaitGroup` fan-out. The four collectors run in sequence with their errors discarded; no result depends on their order.
- `getAttendeeCounts` and `getSalesReportByYear`, which are database pipelines. Attendance is an opaque pair from `Store`. The yearly sales field is omitted from both report types.
- `cleanName`, which is unused. Console logging. `models/staff.go`, which is a bare struct.
- Collectors.CrmNumbers: `float64` mobiles (`%.0f`) are skipped instead of formatted, because floating point is not modelled.
- Collectors.ClientNumbers: `float64` values are skipped for the same reason.
- Summary.AvyuktaReport: a `float64` `lenth_in_sec` counts as 0 instead of `int(v)`, for the same reason.
- Sales.ToLower: lower-cases ASCII letters only. Unicode case mapping is not modelled.
- Ordering.SortReports: Go runs an unstable `sort.Slice` by branch, then a stable `sort.SliceStable` by name, so the order of equal-key reports is unspecified. The model fixes one arrangement. `Ordering.SortedKeysUnique` shows that the (branch, name) column is the same for every sorted arrangement.
- `ParseDateRange` is stated over two clock readings. Whether the host clock can pass midnight between them is outside the model; `DateRange.DefaultsStraddleMidnight` shows what the source returns when it does.
- `cursor.All` errors in `getCallReport` and `getAvyuktaCallReport` are ignored by the source, which counts whatever records the cursor delivered before the error. The model represents those records as the `Store` read's `Ok` value. Only an `Aggregate` failure is an `Err`, and it gives `ReportBlock{}`.
- Fill helpers such as `Daily.FillFrom` and `Daily.FillLoop` take the day key as a function parameter. `Daily.DailyFill` fixes it to `DateKeys.DayKey`.

The source behaves as follows where a reader might expect otherwise:

- The CRM collector keeps empty string mobiles, and the dialer collector keeps whatever `%v` prints. Only the advising and client collectors drop empty values.
- A platform record without `lenth_in_sec` is skipped by the counters rather than counted as a zero duration.
- The final sort is stable only in its second pass, so ties are not guaranteed to keep roster order.
- A from-date after the to-date is accepted and yields an empty daily list, not an error.
- A nil staff list is sent as JSON `null`. The model returns an empty sequence.
