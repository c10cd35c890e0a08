/** `getSalesReport`: among the enrolments the query returned, count those whose `L1` and
    those whose `L2/L3` field contains the staff name, ignoring case. */
module Sales {
  import opened Results

  /** `SalesLead`: the two staff-name fields of an enrolment. */
  datatype SalesLead = SalesLead(l1: string, l2l3: string)

  /** The two counters of the result map. */
  datatype Role = L1 | L2L3

  function FieldOf(lead: SalesLead, role: Role): string {
    match role
    case L1 => lead.l1
    case L2L3 => lead.l2l3
  }

  predicate IsUpper(c: char) {
    'A' <= c <= 'Z'
  }

  function LowerChar(c: char): (r: char)
    ensures !IsUpper(r)
    ensures IsUpper(c) ==> r as int == c as int + 32
    ensures !IsUpper(c) ==> r == c
  {
    if IsUpper(c) then (c as int + 32) as char else c
  }

  /** `strings.ToLower` on ASCII letters. */
  function ToLower(s: string): (r: string)
    ensures |r| == |s| && forall i :: 0 <= i < |s| ==> r[i] == LowerChar(s[i])
  {
    seq(|s|, i requires 0 <= i < |s| => LowerChar(s[i]))
  }

  /** Lower-casing twice is lower-casing once. */
  lemma ToLowerIdempotent(s: string)
    ensures ToLower(ToLower(s)) == ToLower(s)
  {
  }

  /** `sub` occurs in `s` at position `i`. */
  predicate OccursAt(s: string, sub: string, i: int) {
    0 <= i && i + |sub| <= |s| && s[i..i + |sub|] == sub
  }

  /** `strings.Contains`: `sub` occurs somewhere in `s`. */
  predicate Contains(s: string, sub: string) {
    exists i :: 0 <= i <= |s| && OccursAt(s, sub, i)
  }

  /** `strings.Index`: the first position where `sub` occurs in `s`, or -1, found by trying
      each start position in turn. */
  function Index(s: string, sub: string): (r: int)
    ensures -1 <= r <= |s|
    ensures r == -1 <==> !Contains(s, sub)
    ensures r >= 0 ==> OccursAt(s, sub, r) && forall j :: 0 <= j < r ==> !OccursAt(s, sub, j)
  {
    IndexFrom(s, sub, 0)
  }

  function IndexFrom(s: string, sub: string, k: nat): (r: int)
    requires forall j :: 0 <= j < k ==> !OccursAt(s, sub, j)
    ensures -1 <= r <= |s|
    ensures r == -1 <==> !Contains(s, sub)
    ensures r >= 0 ==> OccursAt(s, sub, r) && forall j :: 0 <= j < r ==> !OccursAt(s, sub, j)
    decreases |s| - k
  {
    if k + |sub| > |s| then
      assert forall j :: k <= j ==> !OccursAt(s, sub, j);
      -1
    else if s[k..k + |sub|] == sub then
      assert OccursAt(s, sub, k);
      k
    else IndexFrom(s, sub, k + 1)
  }

  /** The test the loop applies to one field. */
  predicate Matches(field: string, name: string) {
    Contains(ToLower(field), ToLower(name))
  }

  /** How many leads pass `test`, counted one lead at a time in order. */
  function CountBy(leads: seq<SalesLead>, test: SalesLead -> bool): (n: nat)
    ensures n <= |leads|
  {
    if leads == [] then 0
    else
      var k := |leads| - 1;
      CountBy(leads[..k], test) + (if test(leads[k]) then 1 else 0)
  }

  /** The test one counter applies to each lead. */
  function RoleTest(name: string, role: Role): SalesLead -> bool {
    lead => Matches(FieldOf(lead, role), name)
  }

  /** How many of the leads have `name` in the `role` field. */
  function CountRole(leads: seq<SalesLead>, name: string, role: Role): (n: nat)
    ensures n <= |leads|
  {
    CountBy(leads, RoleTest(name, role))
  }

  lemma {:induction false} CountByExtremes(leads: seq<SalesLead>, test: SalesLead -> bool)
    ensures CountBy(leads, test) == 0 <==> forall i :: 0 <= i < |leads| ==> !test(leads[i])
    ensures CountBy(leads, test) == |leads| <==> forall i :: 0 <= i < |leads| ==> test(leads[i])
  {
    if leads != [] {
      var k := |leads| - 1;
      CountByExtremes(leads[..k], test);
      assert forall i :: 0 <= i < k ==> leads[..k][i] == leads[i];
    }
  }

  /** The count is 0 exactly when no lead matches, and the number of leads exactly when
      every lead matches. */
  lemma CountExtremes(leads: seq<SalesLead>, name: string, role: Role)
    ensures CountRole(leads, name, role) == 0 <==>
      forall i :: 0 <= i < |leads| ==> !Matches(FieldOf(leads[i], role), name)
    ensures CountRole(leads, name, role) == |leads| <==>
      forall i :: 0 <= i < |leads| ==> Matches(FieldOf(leads[i], role), name)
  {
    CountByExtremes(leads, RoleTest(name, role));
  }

  /** Reference: the positions of the leads that have `name` in the `role` field. */
  function Matching(leads: seq<SalesLead>, name: string, role: Role): set<int> {
    set i | 0 <= i < |leads| && Matches(FieldOf(leads[i], role), name)
  }

  lemma {:induction false} CountBySet(leads: seq<SalesLead>, test: SalesLead -> bool)
    ensures CountBy(leads, test) == |set i | 0 <= i < |leads| && test(leads[i])|
  {
    if leads != [] {
      var k := |leads| - 1;
      CountBySet(leads[..k], test);
      var before := set i | 0 <= i < k && test(leads[..k][i]);
      var all := set i | 0 <= i < |leads| && test(leads[i]);
      assert before == set i | 0 <= i < k && test(leads[i]);
      if test(leads[k]) {
        assert all == before + {k};
      } else {
        assert all == before;
      }
    }
  }

  /** The count of a role is the number of leads whose field contains the name. */
  lemma CountIsMatching(leads: seq<SalesLead>, name: string, role: Role)
    ensures CountRole(leads, name, role) == |Matching(leads, name, role)|
  {
    CountBySet(leads, RoleTest(name, role));
    assert (set i | 0 <= i < |leads| && RoleTest(name, role)(leads[i])) == Matching(leads, name, role);
  }

  /** The `count` map the loop returns: the keys `L1` and `L2L3`, each holding how many
      leads have the name in that field. */
  function SalesCounts(leads: seq<SalesLead>, name: string): (count: map<string, int>)
    ensures count.Keys == {"L1", "L2L3"}
    ensures count["L1"] == |Matching(leads, name, L1)| <= |leads|
    ensures count["L2L3"] == |Matching(leads, name, L2L3)| <= |leads|
  {
    CountIsMatching(leads, name, L1);
    CountIsMatching(leads, name, L2L3);
    map["L1" := CountRole(leads, name, L1), "L2L3" := CountRole(leads, name, L2L3)]
  }

  /** The report: a failed read returns a nil map, modelled as `None`; otherwise the two
      counts over the leads read. */
  function SalesReport(found: Result<seq<SalesLead>>, name: string): (r: Option<map<string, int>>)
    ensures found.Err? <==> r.None?
    ensures r.Some? ==> r.value.Keys == {"L1", "L2L3"}
    ensures r.Some? ==> r.value["L1"] == |Matching(found.value, name, L1)| <= |found.value|
    ensures r.Some? ==> r.value["L2L3"] == |Matching(found.value, name, L2L3)| <= |found.value|
  {
    match found
    case Err(_) => None
    case Ok(leads) => Some(SalesCounts(leads, name))
  }

  /** One more lead bumps a counter exactly when `strings.Index` finds the name in it. */
  lemma CountStep(results: seq<SalesLead>, i: int, name: string, role: Role)
    requires 0 <= i < |results|
    ensures CountRole(results[..i + 1], name, role) == CountRole(results[..i], name, role) +
      (if Index(ToLower(FieldOf(results[i], role)), ToLower(name)) >= 0 then 1 else 0)
  {
    assert results[..i + 1][..i] == results[..i];
  }

  /** The loop as written: start both keys at 0, then bump each key whose field matches. */
  method SalesCountLoop(results: seq<SalesLead>, name: string) returns (count: map<string, int>)
    ensures count == SalesCounts(results, name)
  {
    count := map["L1" := 0, "L2L3" := 0];
    for i := 0 to |results|
      invariant count == map["L1" := CountRole(results[..i], name, L1), "L2L3" := CountRole(results[..i], name, L2L3)]
    {
      var r := results[i];
      CountStep(results, i, name, L1);
      CountStep(results, i, name, L2L3);
      if Index(ToLower(r.l1), ToLower(name)) >= 0 {
        count := count["L1" := count["L1"] + 1];
      }
      if Index(ToLower(r.l2l3), ToLower(name)) >= 0 {
        count := count["L2L3" := count["L2L3"] + 1];
      }
    }
    assert results[..|results|] == results;
  }

  /** An empty name is contained in every field, so both counters equal the number of leads. */
  lemma EmptyNameCountsAll(leads: seq<SalesLead>)
    ensures SalesCounts(leads, "") == map["L1" := |leads|, "L2L3" := |leads|]
  {
    forall i, role: Role | 0 <= i < |leads|
      ensures Matches(FieldOf(leads[i], role), "")
    {
      assert OccursAt(ToLower(FieldOf(leads[i], role)), "", 0);
    }
    CountExtremes(leads, "", L1);
    CountExtremes(leads, "", L2L3);
  }

  /** Case is ignored on both sides: a name and its lower-case form count the same leads. */
  lemma CaseInsensitive(leads: seq<SalesLead>, name: string)
    ensures SalesCounts(leads, ToLower(name)) == SalesCounts(leads, name)
  {
    ToLowerIdempotent(name);
    CountBySameTest(leads, RoleTest(ToLower(name), L1), RoleTest(name, L1));
    CountBySameTest(leads, RoleTest(ToLower(name), L2L3), RoleTest(name, L2L3));
  }

  lemma {:induction false} CountBySameTest(leads: seq<SalesLead>, a: SalesLead -> bool, b: SalesLead -> bool)
    requires forall lead :: a(lead) == b(lead)
    ensures CountBy(leads, a) == CountBy(leads, b)
  {
    if leads != [] {
      CountBySameTest(leads[..|leads| - 1], a, b);
    }
  }

  lemma {:induction false} CountByAppend(a: seq<SalesLead>, b: seq<SalesLead>, test: SalesLead -> bool)
    ensures CountBy(a + b, test) == CountBy(a, test) + CountBy(b, test)
    decreases |b|
  {
    if b == [] {
      assert a + b == a;
    } else {
      var k := |b| - 1;
      CountByAppend(a, b[..k], test);
      assert (a + b)[..|a + b| - 1] == a + b[..k];
    }
  }

  /** Counting two batches of leads separately and adding gives the count of both. */
  lemma CountAppend(a: seq<SalesLead>, b: seq<SalesLead>, name: string, role: Role)
    ensures CountRole(a + b, name, role) == CountRole(a, name, role) + CountRole(b, name, role)
  {
    CountByAppend(a, b, RoleTest(name, role));
  }
}
