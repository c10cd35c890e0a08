/** The two report handlers, `GetCombineReport` and `DayByReportEveryStaff`: parse the date
    range, build one report per staff member from that member's identifier lists, and sort
    the reports by (branch, name). Every database read is a field of `Store`, the answers the
    database gives for one date range. */
module Handlers {
  import opened Results
  import opened Decimal
  import opened Documents
  import opened Dedup
  import opened Collectors
  import opened Summary
  import opened Daily
  import opened Sales
  import opened Ordering
  import opened DateRange
  import opened Calendar
  import opened DateKeys

  /** `models.Staff` as projected by the staff query. */
  datatype Staff = Staff(employeeId: string, name: string, branch: string, profile: string)

  /** The reads one request makes, for the request's date range. `callLogs` and
      `dailyCalls` take an employee id and a list of phone numbers, `None` for a nil list,
      which the database may answer differently from an empty one; `avyuktaCalls`,
      `dailyAvyukta`, `salesLeads` and `attendees` take the staff name. */
  datatype Store = Store(
    advisingLeads: string -> Result<seq<Doc>>,
    crmLeads: int -> Result<seq<Doc>>,
    clientLeads: string -> Result<seq<Doc>>,
    dialerLeads: string -> Result<seq<Doc>>,
    callLogs: (string, Option<seq<string>>) -> Result<seq<Doc>>,
    avyuktaCalls: string -> Result<seq<Doc>>,
    dailyCalls: (string, Option<seq<string>>) -> Result<seq<DayTotal>>,
    dailyAvyukta: string -> Result<seq<DayTotal>>,
    salesLeads: string -> Result<seq<SalesLead>>,
    attendees: string -> (int, int))

  /** The identifier list of each report category. A failed collector leaves its list
      nil, `None` here; a collector that succeeds returns a non-nil list, even an empty one.
      The dialer list is built by `removeDuplicates`, which never returns nil. */
  datatype Numbers = Numbers(advising: Option<seq<string>>, crm: Option<seq<string>>, dialer: seq<string>)

  /** A collector's answer with its error discarded: nil after a failure. */
  function Kept(found: Result<seq<string>>): Option<seq<string>> {
    match found
    case Ok(v) => Some(v)
    case Err(_) => None
  }

  /** The four collectors run with their errors discarded, and the client and dialer lists
      merged for the dialer category. */
  function CategoryNumbers(employeeId: string, db: Store): (n: Numbers)
    ensures n.advising.Some? ==> NoDups(n.advising.value)
    ensures n.crm.Some? ==> NoDups(n.crm.value)
    ensures NoDups(n.dialer)
    ensures n.advising.None? <==> AdvisingNumbers(employeeId, db.advisingLeads).Err?
    ensures n.advising.Some? ==> n.advising.value == AdvisingNumbers(employeeId, db.advisingLeads).value
    ensures !ParseInt64(employeeId).ok ==> n.crm.None?
    ensures n.crm.None? <==> CrmNumbers(employeeId, db.crmLeads).Err?
    ensures n.crm.Some? ==> n.crm.value == CrmNumbers(employeeId, db.crmLeads).value
    ensures forall x :: x in n.dialer <==>
      || (ClientNumbers(employeeId, db.clientLeads).Ok? && x in ClientNumbers(employeeId, db.clientLeads).value)
      || (DialerNumbers(employeeId, db.dialerLeads).Ok? && x in DialerNumbers(employeeId, db.dialerLeads).value)
    ensures ClientNumbers(employeeId, db.clientLeads).Ok? ==>
      var c := ClientNumbers(employeeId, db.clientLeads).value; |c| <= |n.dialer| && n.dialer[..|c|] == c
    ensures ClientNumbers(employeeId, db.clientLeads).Err? ==>
      n.dialer == DialerNumbers(employeeId, db.dialerLeads).OrElse([])
  {
    var client := ClientNumbers(employeeId, db.clientLeads).OrElse([]);
    var dialer := DialerNumbers(employeeId, db.dialerLeads).OrElse([]);
    assert NoDups(dialer);
    NoDupsFixed(dialer);
    assert client == [] ==> client + dialer == dialer;
    Numbers(
      Kept(AdvisingNumbers(employeeId, db.advisingLeads)),
      Kept(CrmNumbers(employeeId, db.crmLeads)),
      MergeNumbers(client, dialer))
  }

  /** A failed collector and one that found nothing hand the database different lists:
      nil against empty. */
  lemma NilIsNotEmpty(employeeId: string, db: Store)
    requires CrmNumbers(employeeId, db.crmLeads).Err?
    requires AdvisingNumbers(employeeId, db.advisingLeads) == Ok([])
    ensures var n := CategoryNumbers(employeeId, db); n.crm == None && n.advising == Some([])
  {
  }

  /** `StaffReport`, without the yearly sales breakdown. `sales` is `None` where the Go map
      is nil. */
  datatype StaffReport = StaffReport(
    name: string, branch: string, employeeId: string, profile: string,
    attendee: int, totalAttendee: int,
    sales: Option<map<string, int>>,
    dilerReport: ReportBlock, crmReport: ReportBlock,
    advisorReport: ReportBlock, avyuktaReport: ReportBlock)

  /** How many records a read returned; none when it failed. */
  function Found<T>(found: Result<seq<T>>): nat {
    if found.Ok? then |found.value| else 0
  }

  /** `getCallReport` including its error path: a failed read gives `ReportBlock{}`, like an
      empty one; otherwise every record is counted once, as zero or non-zero, the total is
      the int64 sum of the parsed durations, and first and last are the end records. */
  function CallBlock(found: Result<seq<Doc>>): (b: ReportBlock)
    ensures Found(found) == 0 ==> b == ZeroBlock
    ensures b.totalCount == Found(found)
    ensures b.nonZeroDurationCount + b.zeroDurationCount == Found(found)
    ensures found.Ok? && found.value != [] ==>
      && b.nonZeroDurationCount == Positive(CallDurations(found.value))
      && b.totalDuration == WrapInt64(Sum(CallDurations(found.value)))
      && b.firstCall == Some(found.value[0])
      && b.lastCall == Some(found.value[|found.value| - 1])
  {
    match found
    case Err(_) => ZeroBlock
    case Ok(logs) => CallReport(logs)
  }

  /** `getAvyuktaCallReport` including its error path: as `CallBlock`, except that a record
      without `lenth_in_sec` is counted in `totalCount` only. */
  function AvyuktaBlock(found: Result<seq<Doc>>): (b: ReportBlock)
    ensures Found(found) == 0 ==> b == ZeroBlock
    ensures b.totalCount == Found(found)
    ensures b.nonZeroDurationCount + b.zeroDurationCount <= b.totalCount
    ensures found.Ok? && found.value != [] ==>
      && b.nonZeroDurationCount + b.zeroDurationCount == Counted(AvyuktaDurations(found.value))
      && b.nonZeroDurationCount == Positive(AvyuktaDurations(found.value))
      && b.totalDuration == WrapInt64(Sum(AvyuktaDurations(found.value)))
      && b.firstCall == Some(found.value[0])
      && b.lastCall == Some(found.value[|found.value| - 1])
  {
    match found
    case Err(_) => ZeroBlock
    case Ok(logs) => AvyuktaReport(logs)
  }

  /** One staff member's summary report: identity copied from the staff record; the dialer,
      CRM and advisor blocks from that member's call logs restricted to the category's
      numbers; the platform block, attendance and sales looked up by name. */
  function StaffSummary(s: Staff, db: Store): (r: StaffReport)
    ensures r.name == s.name && r.branch == s.branch
    ensures r.employeeId == s.employeeId && r.profile == s.profile
    ensures var n := CategoryNumbers(s.employeeId, db);
      r.dilerReport.totalCount == Found(db.callLogs(s.employeeId, Some(n.dialer)))
    ensures var n := CategoryNumbers(s.employeeId, db);
      r.crmReport.totalCount == Found(db.callLogs(s.employeeId, n.crm))
    ensures var n := CategoryNumbers(s.employeeId, db);
      r.advisorReport.totalCount == Found(db.callLogs(s.employeeId, n.advising))
    ensures r.avyuktaReport.totalCount == Found(db.avyuktaCalls(s.name))
    ensures var n := CategoryNumbers(s.employeeId, db);
      r.dilerReport == CallBlock(db.callLogs(s.employeeId, Some(n.dialer)))
    ensures var n := CategoryNumbers(s.employeeId, db);
      r.crmReport == CallBlock(db.callLogs(s.employeeId, n.crm))
    ensures var n := CategoryNumbers(s.employeeId, db);
      r.advisorReport == CallBlock(db.callLogs(s.employeeId, n.advising))
    ensures r.avyuktaReport == AvyuktaBlock(db.avyuktaCalls(s.name))
    ensures (r.attendee, r.totalAttendee) == db.attendees(s.name)
    ensures r.sales.None? <==> db.salesLeads(s.name).Err?
    ensures r.sales.Some? ==>
      && r.sales.value.Keys == {"L1", "L2L3"}
      && r.sales.value["L1"] <= Found(db.salesLeads(s.name))
      && r.sales.value["L2L3"] <= Found(db.salesLeads(s.name))
  {
    var n := CategoryNumbers(s.employeeId, db);
    var (attendee, totalAttendee) := db.attendees(s.name);
    StaffReport(s.name, s.branch, s.employeeId, s.profile, attendee, totalAttendee,
      SalesReport(db.salesLeads(s.name), s.name),
      CallBlock(db.callLogs(s.employeeId, Some(n.dialer))),
      CallBlock(db.callLogs(s.employeeId, n.crm)),
      CallBlock(db.callLogs(s.employeeId, n.advising)),
      AvyuktaBlock(db.avyuktaCalls(s.name)))
  }

  function SummaryKey(r: StaffReport): SortKey {
    SortKey(r.branch, r.name)
  }

  /** What a handler sends: 400 for a bad date, 500 when the staff list cannot be read,
      otherwise the sorted reports. */
  datatype Response<T> = BadRequest | ServerError | Reports(reports: seq<T>)

  /** Every report is some staff member's report, and every staff member's report is there,
      as often as the member is listed. */
  predicate IsArrangementOf<T(==)>(reports: seq<T>, built: seq<T>) {
    multiset(reports) == multiset(built)
  }

  lemma ArrangementMembers<T>(reports: seq<T>, built: seq<T>)
    requires IsArrangementOf(reports, built)
    ensures |reports| == |built|
    ensures forall i :: 0 <= i < |reports| ==> exists j :: 0 <= j < |built| && reports[i] == built[j]
    ensures forall j :: 0 <= j < |built| ==> exists i :: 0 <= i < |reports| && reports[i] == built[j]
  {
    assert |reports| == |multiset(reports)| == |multiset(built)| == |built|;
    forall i | 0 <= i < |reports|
      ensures exists j :: 0 <= j < |built| && reports[i] == built[j]
    {
      assert reports[i] in multiset(built);
    }
    forall j | 0 <= j < |built|
      ensures exists i :: 0 <= i < |reports| && reports[i] == built[j]
    {
      assert built[j] in multiset(reports);
    }
  }

  function Summaries(staff: seq<Staff>, db: Store): (rs: seq<StaffReport>)
    ensures |rs| == |staff| && forall i :: 0 <= i < |staff| ==> rs[i] == StaffSummary(staff[i], db)
  {
    seq(|staff|, i requires 0 <= i < |staff| => StaffSummary(staff[i], db))
  }

  /** `GetCombineReport`, given `p == ParseDateRange(fromDate, toDate, nowFrom, nowTo)` for the request's
      query values. `db` gives the database's answers for a date range. */
  function CombineReport(p: ParsedRange, staff: Result<seq<Staff>>, db: (int, int) -> Store)
    : (r: Response<StaffReport>)
    ensures r.BadRequest? <==> p.failed
    ensures r.ServerError? <==> !p.failed && staff.Err?
    ensures r.Reports? ==>
      && IsArrangementOf(r.reports, Summaries(staff.value, db(p.start, p.end)))
      && |r.reports| == |staff.value|
      && Sorted(r.reports, SummaryKey)
  {
    if p.failed then BadRequest
    else
      match staff
      case Err(_) => ServerError
      case Ok(list) => Reports(SortReports(Summaries(list, db(p.start, p.end)), SummaryKey))
  }

  /** `StaffDailyReport`, without the yearly sales breakdown. */
  datatype StaffDailyReport = StaffDailyReport(
    name: string, branch: string, employeeId: string, profile: string,
    attendee: int, totalAttendee: int,
    sales: Option<map<string, int>>,
    dilerReport: seq<DayTotal>, crmReport: seq<DayTotal>,
    advisorReport: seq<DayTotal>, avyuktaReport: seq<DayTotal>)

  /** A daily list with its error discarded: nil after a failed aggregation, otherwise one
      entry per visited day, keyed by that day, with the total the grouping stored for it
      or 0. */
  function DailyBlock(grouped: Result<seq<DayTotal>>, start: int, end: int): (r: seq<DayTotal>)
    ensures grouped.Err? ==> r == []
    ensures grouped.Ok? ==> |r| == DayCount(start, end)
    ensures grouped.Ok? ==> forall i :: 0 <= i < |r| ==>
      && r[i].date == DayKey(DayOf(start) + i)
      && r[i].totalTime == Lookup(RowMap(grouped.value), r[i].date)
  {
    DailyReport(grouped, start, end).OrElse([])
  }

  /** A daily list the handler can send for the range: nothing, after a failed aggregation,
      or one entry per visited day, keyed by that day. */
  predicate DayByDayShape(entries: seq<DayTotal>, start: int, end: int) {
    || entries == []
    || (&& |entries| == DayCount(start, end)
        && forall i :: 0 <= i < |entries| ==> entries[i].date == DayKey(DayOf(start) + i))
  }

  /** All four daily lists of a report have the shape of the range. */
  predicate WellShaped(r: StaffDailyReport, start: int, end: int) {
    && DayByDayShape(r.dilerReport, start, end) && DayByDayShape(r.crmReport, start, end)
    && DayByDayShape(r.advisorReport, start, end) && DayByDayShape(r.avyuktaReport, start, end)
  }

  /** One staff member's day-by-day report, built like the summary report. */
  function StaffDaily(s: Staff, db: Store, start: int, end: int): (r: StaffDailyReport)
    ensures r.name == s.name && r.branch == s.branch && r.employeeId == s.employeeId && r.profile == s.profile
    ensures var n := CategoryNumbers(s.employeeId, db);
      && r.dilerReport == DailyBlock(db.dailyCalls(s.employeeId, Some(n.dialer)), start, end)
      && r.crmReport == DailyBlock(db.dailyCalls(s.employeeId, n.crm), start, end)
      && r.advisorReport == DailyBlock(db.dailyCalls(s.employeeId, n.advising), start, end)
    ensures r.avyuktaReport == DailyBlock(db.dailyAvyukta(s.name), start, end)
    ensures (r.attendee, r.totalAttendee) == db.attendees(s.name)
    ensures r.sales == SalesReport(db.salesLeads(s.name), s.name)
    ensures WellShaped(r, start, end)
  {
    var n := CategoryNumbers(s.employeeId, db);
    var (attendee, totalAttendee) := db.attendees(s.name);
    StaffDailyReport(s.name, s.branch, s.employeeId, s.profile, attendee, totalAttendee,
      SalesReport(db.salesLeads(s.name), s.name),
      DailyBlock(db.dailyCalls(s.employeeId, Some(n.dialer)), start, end),
      DailyBlock(db.dailyCalls(s.employeeId, n.crm), start, end),
      DailyBlock(db.dailyCalls(s.employeeId, n.advising), start, end),
      DailyBlock(db.dailyAvyukta(s.name), start, end))
  }

  function DailyKey(r: StaffDailyReport): SortKey {
    SortKey(r.branch, r.name)
  }

  function Dailies(staff: seq<Staff>, db: Store, start: int, end: int): (rs: seq<StaffDailyReport>)
    ensures |rs| == |staff| && forall i :: 0 <= i < |staff| ==> rs[i] == StaffDaily(staff[i], db, start, end)
  {
    seq(|staff|, i requires 0 <= i < |staff| => StaffDaily(staff[i], db, start, end))
  }

  /** `DayByReportEveryStaff`, given the parsed range as above. */
  function DayByDayReport(p: ParsedRange, staff: Result<seq<Staff>>, db: (int, int) -> Store)
    : (r: Response<StaffDailyReport>)
    ensures r.BadRequest? <==> p.failed
    ensures r.ServerError? <==> !p.failed && staff.Err?
    ensures r.Reports? ==>
      && IsArrangementOf(r.reports, Dailies(staff.value, db(p.start, p.end), p.start, p.end))
      && |r.reports| == |staff.value|
      && Sorted(r.reports, DailyKey)
  {
    if p.failed then BadRequest
    else
      match staff
      case Err(_) => ServerError
      case Ok(list) => Reports(SortReports(Dailies(list, db(p.start, p.end), p.start, p.end), DailyKey))
  }

  /** A property every built report has, every report of an arrangement has. */
  lemma ArrangementKeeps<T>(reports: seq<T>, built: seq<T>, holds: T -> bool)
    requires IsArrangementOf(reports, built)
    requires forall j :: 0 <= j < |built| ==> holds(built[j])
    ensures forall i :: 0 <= i < |reports| ==> holds(reports[i])
  {
    forall i | 0 <= i < |reports|
      ensures holds(reports[i])
    {
      assert reports[i] in multiset(built);
    }
  }

  /** Every daily list in a day-by-day response is empty or covers each requested day once,
      from the from-date to the to-date. */
  lemma DayByDayCoversRange(p: ParsedRange, staff: Result<seq<Staff>>, db: (int, int) -> Store)
    requires !p.failed && staff.Ok?
    ensures var rs := DayByDayReport(p, staff, db).reports;
      forall i :: 0 <= i < |rs| ==> WellShaped(rs[i], p.start, p.end)
  {
    var rs := DayByDayReport(p, staff, db).reports;
    var built := Dailies(staff.value, db(p.start, p.end), p.start, p.end);
    var shaped := (r: StaffDailyReport) => WellShaped(r, p.start, p.end);
    forall j | 0 <= j < |built|
      ensures shaped(built[j])
    {
      assert built[j] == StaffDaily(staff.value[j], db(p.start, p.end), p.start, p.end);
    }
    ArrangementKeeps(rs, built, shaped);
  }

  /** Both handlers answer 400 exactly when a non-empty query value is not a valid
      `YYYY-MM-DD` date, whatever the staff list and the database hold. */
  lemma BadDateIsBadRequest(fromStr: string, toStr: string, nowFrom: int, nowTo: int,
                            staff: Result<seq<Staff>>, db: (int, int) -> Store)
    ensures var p := ParseDateRange(fromStr, toStr, nowFrom, nowTo);
      var bad := (fromStr != "" && ParseIsoDate(fromStr).None?) || (toStr != "" && ParseIsoDate(toStr).None?);
      && (CombineReport(p, staff, db).BadRequest? <==> bad)
      && (DayByDayReport(p, staff, db).BadRequest? <==> bad)
  {
  }
}
