/** The counter loops of `getCallReport` and `getAvyuktaCallReport`: reduce the matched call
    records, already sorted ascending by time, to a `ReportBlock`. */
module Summary {
  import opened Results
  import opened Decimal
  import opened Documents

  datatype ReportBlock = ReportBlock(
    totalCount: int,
    nonZeroDurationCount: int,
    zeroDurationCount: int,
    totalDuration: int,
    firstCall: Option<Doc>,
    lastCall: Option<Doc>)

  /** `ReportBlock{}`: every counter 0 and no first or last call. */
  const ZeroBlock := ReportBlock(0, 0, 0, 0, None, None)

  /** A call-log duration: the `duration` field if it is a string, else the empty string,
      read with `strconv.Atoi` and its error ignored. */
  function CallLogDuration(log: Doc): int {
    var text := if "duration" in log && log["duration"].VStr? then log["duration"].s else "";
    Atoi(text)
  }

  /** A platform call duration: nothing when `lenth_in_sec` is absent (the loop skips the
      record), the integer when it is an integer, and 0 for any other type. */
  function AvyuktaDuration(log: Doc): Option<int> {
    if "lenth_in_sec" !in log then None
    else
      match log["lenth_in_sec"]
      case VInt(i) => Some(i)
      case _ => Some(0)
  }

  function CallDurations(logs: seq<Doc>): (ds: seq<Option<int>>)
    ensures |ds| == |logs| && forall i :: 0 <= i < |logs| ==> ds[i] == Some(CallLogDuration(logs[i]))
  {
    if logs == [] then [] else [Some(CallLogDuration(logs[0]))] + CallDurations(logs[1..])
  }

  function AvyuktaDurations(logs: seq<Doc>): (ds: seq<Option<int>>)
    ensures |ds| == |logs| && forall i :: 0 <= i < |logs| ==> ds[i] == AvyuktaDuration(logs[i])
  {
    if logs == [] then [] else [AvyuktaDuration(logs[0])] + AvyuktaDurations(logs[1..])
  }

  /** Reference measures over a duration list, where `None` is a skipped record. */
  function SumBy(ds: seq<Option<int>>, f: Option<int> -> int): int {
    if ds == [] then 0 else f(ds[0]) + SumBy(ds[1..], f)
  }

  function CountedOne(d: Option<int>): int {
    if d.Some? then 1 else 0
  }

  function PositiveOne(d: Option<int>): int {
    if d.Some? && d.value > 0 then 1 else 0
  }

  function ValueOne(d: Option<int>): int {
    if d.Some? then d.value else 0
  }

  /** Records that reach the counters. */
  function Counted(ds: seq<Option<int>>): int {
    SumBy(ds, CountedOne)
  }

  /** Records with a duration above zero. */
  function Positive(ds: seq<Option<int>>): int {
    SumBy(ds, PositiveOne)
  }

  /** The mathematical sum of the durations. */
  function Sum(ds: seq<Option<int>>): int {
    SumBy(ds, ValueOne)
  }

  lemma {:induction false} SumByAppend(a: seq<Option<int>>, b: seq<Option<int>>, f: Option<int> -> int)
    ensures SumBy(a + b, f) == SumBy(a, f) + SumBy(b, f)
  {
    if a != [] {
      SumByAppend(a[1..], b, f);
      assert (a + b)[1..] == a[1..] + b;
    } else {
      assert a + b == b;
    }
  }

  /** Every measure depends only on the multiset of durations, not on their order. */
  lemma {:induction false} SumByPermutation(a: seq<Option<int>>, b: seq<Option<int>>, f: Option<int> -> int)
    requires multiset(a) == multiset(b)
    ensures SumBy(a, f) == SumBy(b, f)
    decreases |a|
  {
    if a != [] {
      assert a[0] in multiset(b);
      var i :| 0 <= i < |b| && b[i] == a[0];
      var rest := b[..i] + b[i + 1..];
      assert b == b[..i] + [b[i]] + b[i + 1..];
      assert a == [a[0]] + a[1..];
      assert multiset(b) == multiset(b[..i]) + multiset([b[i]]) + multiset(b[i + 1..]);
      assert multiset(a) == multiset([a[0]]) + multiset(a[1..]);
      assert multiset(rest) == multiset(b[..i]) + multiset(b[i + 1..]);
      forall y
        ensures multiset(a[1..])[y] == multiset(rest)[y]
      {
        assert multiset(a)[y] == multiset(b)[y];
      }
      assert multiset(a[1..]) == multiset(rest);
      SumByPermutation(a[1..], rest, f);
      SumByAppend(b[..i] + [b[i]], b[i + 1..], f);
      SumByAppend(b[..i], [b[i]], f);
      SumByAppend(b[..i], b[i + 1..], f);
    } else {
      assert |b| == |multiset(b)|;
    }
  }

  /** The running counters of the loop. */
  datatype Tally = Tally(nonZero: int, zero: int, total: int)

  /** The counter loop, one record at a time in input order: a skipped record changes
      nothing; otherwise the int64 total grows by the duration and exactly one of the two
      counters grows, `nonZero` when the duration is above zero. */
  function TallyOf(ds: seq<Option<int>>): (t: Tally)
    ensures t.nonZero == Positive(ds)
    ensures t.nonZero + t.zero == Counted(ds)
    ensures t.total == WrapInt64(Sum(ds))
  {
    if ds == [] then Tally(0, 0, 0)
    else
      var n := |ds| - 1;
      var t := TallyOf(ds[..n]);
      assert ds == ds[..n] + [ds[n]];
      SumByAppend(ds[..n], [ds[n]], CountedOne);
      SumByAppend(ds[..n], [ds[n]], PositiveOne);
      SumByAppend(ds[..n], [ds[n]], ValueOne);
      match ds[n]
      case None => t
      case Some(d) =>
        WrapAddAbsorbs(Sum(ds[..n]), d);
        Tally(t.nonZero + (if d > 0 then 1 else 0), t.zero + (if d > 0 then 0 else 1), WrapInt64(t.total + d))
  }

  /** The block both variants build once the records are known to be non-empty. */
  function BlockOf(logs: seq<Doc>, ds: seq<Option<int>>): ReportBlock
    requires |logs| > 0
  {
    var t := TallyOf(ds);
    ReportBlock(|logs|, t.nonZero, t.zero, t.total, Some(logs[0]), Some(logs[|logs| - 1]))
  }

  lemma {:induction false} AllCounted(logs: seq<Doc>)
    ensures Counted(CallDurations(logs)) == |logs|
  {
    if logs != [] {
      AllCounted(logs[1..]);
    }
  }

  /** `getCallReport` after the query: no records give `ReportBlock{}`; otherwise every
      record is counted once as zero or non-zero, the total is the int64 sum of the parsed
      durations, and first and last are the first and last records. */
  function CallReport(logs: seq<Doc>): (b: ReportBlock)
    ensures logs == [] ==> b == ZeroBlock
    ensures logs != [] ==> && b.totalCount == |logs|
                           && b.nonZeroDurationCount + b.zeroDurationCount == |logs|
                           && b.nonZeroDurationCount == Positive(CallDurations(logs))
                           && b.totalDuration == WrapInt64(Sum(CallDurations(logs)))
                           && b.firstCall == Some(logs[0])
                           && b.lastCall == Some(logs[|logs| - 1])
  {
    if logs == [] then ZeroBlock
    else
      AllCounted(logs);
      BlockOf(logs, CallDurations(logs))
  }

  lemma {:induction false} CountedAvyukta(logs: seq<Doc>)
    ensures Counted(AvyuktaDurations(logs)) <= |logs|
    ensures Counted(AvyuktaDurations(logs)) == |logs| <==>
      forall i :: 0 <= i < |logs| ==> "lenth_in_sec" in logs[i]
  {
    if logs != [] {
      CountedAvyukta(logs[1..]);
      assert forall i :: 1 <= i < |logs| ==> logs[1..][i - 1] == logs[i];
    }
  }

  /** `getAvyuktaCallReport` after the query: as above, except that a record without
      `lenth_in_sec` is in `totalCount` but in neither duration counter. */
  function AvyuktaReport(logs: seq<Doc>): (b: ReportBlock)
    ensures logs == [] ==> b == ZeroBlock
    ensures logs != [] ==> && b.totalCount == |logs|
                           && b.nonZeroDurationCount + b.zeroDurationCount == Counted(AvyuktaDurations(logs))
                           && b.nonZeroDurationCount + b.zeroDurationCount <= b.totalCount
                           && b.nonZeroDurationCount == Positive(AvyuktaDurations(logs))
                           && b.totalDuration == WrapInt64(Sum(AvyuktaDurations(logs)))
                           && b.firstCall == Some(logs[0])
                           && b.lastCall == Some(logs[|logs| - 1])
    ensures logs != [] ==> (b.nonZeroDurationCount + b.zeroDurationCount == b.totalCount <==>
      forall i :: 0 <= i < |logs| ==> "lenth_in_sec" in logs[i])
  {
    if logs == [] then ZeroBlock
    else
      CountedAvyukta(logs);
      BlockOf(logs, AvyuktaDurations(logs))
  }

  /** The counters of a block do not depend on the order of the records. */
  lemma CallCountersOrderFree(logs: seq<Doc>, other: seq<Doc>)
    requires multiset(logs) == multiset(other)
    ensures var a, b := CallReport(logs), CallReport(other);
      a.totalCount == b.totalCount && a.nonZeroDurationCount == b.nonZeroDurationCount
      && a.zeroDurationCount == b.zeroDurationCount && a.totalDuration == b.totalDuration
  {
    DurationsPermutation(logs, other);
    SumByPermutation(CallDurations(logs), CallDurations(other), PositiveOne);
    SumByPermutation(CallDurations(logs), CallDurations(other), ValueOne);
    assert |logs| == |multiset(logs)| == |multiset(other)| == |other|;
  }

  lemma DurationsPermutation(logs: seq<Doc>, other: seq<Doc>)
    requires multiset(logs) == multiset(other)
    ensures multiset(CallDurations(logs)) == multiset(CallDurations(other))
  {
    var f := (d: Doc) => Some(CallLogDuration(d));
    ImagePermutation(logs, other, f);
    assert CallDurations(logs) == Image(logs, f);
    assert CallDurations(other) == Image(other, f);
  }

  /** `f` applied to each element. */
  function Image<T, U>(xs: seq<T>, f: T -> U): (ys: seq<U>)
    ensures |ys| == |xs| && forall k :: 0 <= k < |xs| ==> ys[k] == f(xs[k])
  {
    seq(|xs|, k requires 0 <= k < |xs| => f(xs[k]))
  }

  lemma ImageAppend<T, U>(a: seq<T>, b: seq<T>, f: T -> U)
    ensures Image(a + b, f) == Image(a, f) + Image(b, f)
  {
    var l, r := Image(a + b, f), Image(a, f) + Image(b, f);
    forall k | 0 <= k < |l|
      ensures l[k] == r[k]
    {
      if k < |a| {
        assert (a + b)[k] == a[k];
      } else {
        assert (a + b)[k] == b[k - |a|];
      }
    }
  }

  /** Applying a function to each element of two rearrangements gives two rearrangements. */
  lemma {:induction false} ImagePermutation<T, U>(xs: seq<T>, ys: seq<T>, f: T -> U)
    requires multiset(xs) == multiset(ys)
    ensures multiset(Image(xs, f)) == multiset(Image(ys, f))
    decreases |xs|
  {
    if xs != [] {
      assert xs[0] in multiset(ys);
      var i :| 0 <= i < |ys| && ys[i] == xs[0];
      var rest := ys[..i] + ys[i + 1..];
      RestPermutation(xs, ys, i);
      ImagePermutation(xs[1..], rest, f);
      ImageAround(xs, ys, i, f);
    } else {
      assert |ys| == |multiset(ys)|;
    }
  }

  lemma RestPermutation<T>(xs: seq<T>, ys: seq<T>, i: int)
    requires multiset(xs) == multiset(ys) && xs != [] && 0 <= i < |ys| && ys[i] == xs[0]
    ensures multiset(xs[1..]) == multiset(ys[..i] + ys[i + 1..])
  {
    RemoveAt(xs, 0);
    RemoveAt(ys, i);
    assert xs[..0] + xs[1..] == xs[1..];
  }

  /** The image of `ys` is the image of `ys` without its element `i`, with that element's
      image put back. */
  lemma ImageAround<T, U>(xs: seq<T>, ys: seq<T>, i: int, f: T -> U)
    requires xs != [] && 0 <= i < |ys| && ys[i] == xs[0]
    requires multiset(Image(xs[1..], f)) == multiset(Image(ys[..i] + ys[i + 1..], f))
    ensures multiset(Image(xs, f)) == multiset(Image(ys, f))
  {
    var p, q := Image(ys[..i], f), Image(ys[i + 1..], f);
    var c := [f(xs[0])];
    ImageAppend(ys[..i], ys[i + 1..], f);
    assert Image(ys, f) == p + c + q;
    assert Image(xs, f) == c + Image(xs[1..], f);
    calc {
      multiset(Image(xs, f));
      multiset(c) + multiset(Image(xs[1..], f));
      multiset(c) + multiset(p + q);
      multiset(p + c + q);
    }
  }

  /** Taking out the element at `i` takes one copy of it out of the multiset. */
  lemma RemoveAt<T>(a: seq<T>, i: int)
    requires 0 <= i < |a|
    ensures multiset(a[..i] + a[i + 1..]) == multiset(a) - multiset{a[i]}
  {
    assert a == a[..i] + [a[i]] + a[i + 1..];
  }

  /** A duration field that is missing, not a string, or short text that is not an integer
      counts as 0. */
  lemma MalformedDurationIsZero(log: Doc)
    requires var text := if "duration" in log && log["duration"].VStr? then log["duration"].s else "";
      !WellFormedInt(text) && |text| <= 19
    ensures CallLogDuration(log) == 0
  {
    var text := if "duration" in log && log["duration"].VStr? then log["duration"].s else "";
    ShortMalformedIsZero(text);
  }

  /** The records arrive sorted ascending by time (`timestamp`, `call_date`). */
  predicate AscendingBy(logs: seq<Doc>, at: Doc -> int) {
    forall i, j :: 0 <= i < j < |logs| ==> at(logs[i]) <= at(logs[j])
  }

  /** In both variants the first and last call are records of the input, and every record's
      time lies between theirs. */
  lemma FirstLastOrdered(logs: seq<Doc>, at: Doc -> int)
    requires logs != [] && AscendingBy(logs, at)
    ensures var b, c := CallReport(logs), AvyuktaReport(logs);
      && b.firstCall.Some? && b.lastCall.Some?
      && b.firstCall == c.firstCall && b.lastCall == c.lastCall
      && b.firstCall.value in logs && b.lastCall.value in logs
      && forall i :: 0 <= i < |logs| ==>
           at(b.firstCall.value) <= at(logs[i]) <= at(b.lastCall.value)
  {
    var b, c := CallReport(logs), AvyuktaReport(logs);
    assert b.firstCall == c.firstCall == Some(logs[0]);
    assert b.lastCall == c.lastCall == Some(logs[|logs| - 1]);
    EndsBound(logs, at);
  }

  lemma EndsBound(logs: seq<Doc>, at: Doc -> int)
    requires logs != [] && AscendingBy(logs, at)
    ensures forall i :: 0 <= i < |logs| ==> at(logs[0]) <= at(logs[i]) <= at(logs[|logs| - 1])
  {
    forall i | 0 <= i < |logs|
      ensures at(logs[0]) <= at(logs[i]) <= at(logs[|logs| - 1])
    {
      if 0 < i {
        assert at(logs[0]) <= at(logs[i]);
      }
      if i < |logs| - 1 {
        assert at(logs[i]) <= at(logs[|logs| - 1]);
      }
    }
  }
}
