/** The four identifier collectors `Get*NumbersByEmployeeID`: each reads the lead records
    of one employee from one collection, keeps the phone numbers its own rule accepts from
    a fixed list of fields, and removes duplicates. The collection read itself is a
    parameter `find`, called with the key the Go code filters on. */
module Collectors {
  import opened Results
  import opened Decimal
  import opened Documents
  import opened Dedup

  const AdvisingFields: seq<string> := ["phone1", "phone2", "phone3", "phone4"]
  const ClientFields: seq<string> := ["follow_up", "parentNumber", "number"]
  const MobileField: seq<string> := ["mobile"]

  /** Advising leads: only non-empty strings. */
  function AdvisingPick(v: Value): Option<string> {
    if v.VStr? && v.s != "" then Some(v.s) else None
  }

  /** CRM leads: any string, the empty one included, and integers written in decimal. */
  function CrmPick(v: Value): Option<string> {
    match v
    case VStr(s) => Some(s)
    case VInt(i) => Some(FormatInt(i))
    case VOther(_) => None
  }

  /** Client leads: non-empty strings and integers written in decimal. */
  function ClientPick(v: Value): Option<string> {
    match v
    case VStr(s) => if s != "" then Some(s) else None
    case VInt(i) => Some(FormatInt(i))
    case VOther(_) => None
  }

  /** Dialer leads: every present value, printed with `%v`. */
  function DialerPick(v: Value): Option<string> {
    Some(Shown(v))
  }

  /** What one record yields, field by field in the given order. */
  function PickFields(d: Doc, fields: seq<string>, pick: Value -> Option<string>): seq<string> {
    if fields == [] then []
    else
      var f := fields[0];
      (if f in d && pick(d[f]).Some? then [pick(d[f]).value] else [])
      + PickFields(d, fields[1..], pick)
  }

  /** The raw list the collection loop appends to, record after record. */
  function Gather(docs: seq<Doc>, fields: seq<string>, pick: Value -> Option<string>): seq<string> {
    if docs == [] then [] else PickFields(docs[0], fields, pick) + Gather(docs[1..], fields, pick)
  }

  /** `x` is what `pick` makes of some listed field present in some record. */
  predicate Yields(docs: seq<Doc>, fields: seq<string>, pick: Value -> Option<string>, x: string) {
    exists k, j :: 0 <= k < |docs| && 0 <= j < |fields| && fields[j] in docs[k]
      && pick(docs[k][fields[j]]) == Some(x)
  }

  lemma {:induction false} PickFieldsMembers(d: Doc, fields: seq<string>, pick: Value -> Option<string>)
    ensures forall x :: x in PickFields(d, fields, pick) <==>
      exists j :: 0 <= j < |fields| && fields[j] in d && pick(d[fields[j]]) == Some(x)
  {
    if fields != [] {
      PickFieldsMembers(d, fields[1..], pick);
      forall x | (exists j :: 0 <= j < |fields| && fields[j] in d && pick(d[fields[j]]) == Some(x))
        ensures x in PickFields(d, fields, pick)
      {
        var j :| 0 <= j < |fields| && fields[j] in d && pick(d[fields[j]]) == Some(x);
        if j > 0 {
          assert fields[1..][j - 1] == fields[j];
        }
      }
      forall x | x in PickFields(d, fields[1..], pick)
        ensures exists j :: 0 <= j < |fields| && fields[j] in d && pick(d[fields[j]]) == Some(x)
      {
        var j :| 0 <= j < |fields| - 1 && fields[1..][j] in d && pick(d[fields[1..][j]]) == Some(x);
        assert fields[j + 1] == fields[1..][j];
      }
    }
  }

  /** A value is gathered exactly when some record yields it. */
  lemma {:induction false} GatherMembers(docs: seq<Doc>, fields: seq<string>, pick: Value -> Option<string>)
    ensures forall x :: x in Gather(docs, fields, pick) <==> Yields(docs, fields, pick, x)
  {
    if docs != [] {
      GatherMembers(docs[1..], fields, pick);
      PickFieldsMembers(docs[0], fields, pick);
      forall x | Yields(docs, fields, pick, x)
        ensures x in Gather(docs, fields, pick)
      {
        var k, j :| 0 <= k < |docs| && 0 <= j < |fields| && fields[j] in docs[k]
          && pick(docs[k][fields[j]]) == Some(x);
        if k > 0 {
          assert docs[1..][k - 1] == docs[k];
          assert Yields(docs[1..], fields, pick, x);
        }
      }
      forall x | Yields(docs[1..], fields, pick, x)
        ensures Yields(docs, fields, pick, x)
      {
        var k, j :| 0 <= k < |docs| - 1 && 0 <= j < |fields| && fields[j] in docs[1..][k]
          && pick(docs[1..][k][fields[j]]) == Some(x);
        assert docs[k + 1] == docs[1..][k];
      }
    }
  }

  /** The common tail of every collector: gather, then remove duplicates. */
  function Collect(found: Result<seq<Doc>>, fields: seq<string>, pick: Value -> Option<string>)
    : (r: Result<seq<string>>)
    ensures found.Err? <==> r.Err?
    ensures found.Ok? ==> NoDups(r.value)
    ensures found.Ok? ==> forall x :: x in r.value <==> Yields(found.value, fields, pick, x)
  {
    match found
    case Err(e) => Err(e)
    case Ok(docs) =>
      GatherMembers(docs, fields, pick);
      Ok(RemoveDuplicates(Gather(docs, fields, pick)))
  }

  /** `GetAdvisingNumbersByEmployeeID`: `phone1`..`phone4`, non-empty strings only. */
  function AdvisingNumbers(employeeId: string, find: string -> Result<seq<Doc>>)
    : (r: Result<seq<string>>)
    ensures find(employeeId).Err? <==> r.Err?
    ensures r.Ok? ==> NoDups(r.value) && forall x :: x in r.value ==> x != ""
    ensures r.Ok? ==> forall x :: x in r.value <==>
      exists k, j :: 0 <= k < |find(employeeId).value| && 0 <= j < |AdvisingFields|
        && AdvisingFields[j] in find(employeeId).value[k]
        && find(employeeId).value[k][AdvisingFields[j]] == VStr(x) && x != ""
  {
    Collect(find(employeeId), AdvisingFields, AdvisingPick)
  }

  /** `GetCRMLeadsNumbersByEmployeeID`: the employee id must parse as a base-10 int64, which
      is the key the CRM collection is searched by; then every string `mobile` (the empty
      one included) and every integer `mobile` in decimal. */
  function CrmNumbers(employeeId: string, find: int -> Result<seq<Doc>>)
    : (r: Result<seq<string>>)
    ensures !ParseInt64(employeeId).ok ==> r.Err?
    ensures ParseInt64(employeeId).ok ==> (find(ParseInt64(employeeId).value).Err? <==> r.Err?)
    ensures r.Ok? ==> NoDups(r.value)
    ensures r.Ok? ==> forall x :: x in r.value <==>
      Yields(find(ParseInt64(employeeId).value).value, MobileField, CrmPick, x)
    ensures r.Ok? ==> var docs := find(ParseInt64(employeeId).value).value;
      forall k :: 0 <= k < |docs| && "mobile" in docs[k] && docs[k]["mobile"].VStr? ==>
        docs[k]["mobile"].s in r.value
    ensures r.Ok? ==> var docs := find(ParseInt64(employeeId).value).value;
      forall k :: 0 <= k < |docs| && "mobile" in docs[k] && docs[k]["mobile"].VInt? ==>
        FormatInt(docs[k]["mobile"].i) in r.value
  {
    var id := ParseInt64(employeeId);
    if !id.ok then Err("strconv.ParseInt: invalid employee id")
    else
      var r := Collect(find(id.value), MobileField, CrmPick);
      assert r.Ok? ==> forall k :: 0 <= k < |find(id.value).value| && "mobile" in find(id.value).value[k] ==>
        var v := find(id.value).value[k]["mobile"];
        CrmPick(v).Some? ==> Yields(find(id.value).value, MobileField, CrmPick, CrmPick(v).value) by {
        if r.Ok? {
          forall k | 0 <= k < |find(id.value).value| && "mobile" in find(id.value).value[k]
              && CrmPick(find(id.value).value[k]["mobile"]).Some?
            ensures Yields(find(id.value).value, MobileField, CrmPick,
              CrmPick(find(id.value).value[k]["mobile"]).value)
          {
            assert MobileField[0] == "mobile";
          }
        }
      }
      r
  }

  /** `GetClientLeadsNumbersByEmployeeID`: `follow_up`, `parentNumber`, `number`, keeping
      non-empty strings and integers in decimal. */
  function ClientNumbers(employeeId: string, find: string -> Result<seq<Doc>>)
    : (r: Result<seq<string>>)
    ensures find(employeeId).Err? <==> r.Err?
    ensures r.Ok? ==> NoDups(r.value) && forall x :: x in r.value ==> x != ""
    ensures r.Ok? ==> forall x :: x in r.value <==> Yields(find(employeeId).value, ClientFields, ClientPick, x)
  {
    Collect(find(employeeId), ClientFields, ClientPick)
  }

  /** `GetDialerLeadsNumbersByEmployeeID`: every record with a `mobile` field contributes that
      value printed with `%v`, whatever its type. */
  function DialerNumbers(employeeId: string, find: string -> Result<seq<Doc>>)
    : (r: Result<seq<string>>)
    ensures find(employeeId).Err? <==> r.Err?
    ensures r.Ok? ==> NoDups(r.value) && |r.value| <= |find(employeeId).value|
    ensures r.Ok? ==> forall x :: x in r.value <==>
      exists k :: 0 <= k < |find(employeeId).value| && "mobile" in find(employeeId).value[k]
        && Shown(find(employeeId).value[k]["mobile"]) == x
  {
    var r := Collect(find(employeeId), MobileField, DialerPick);
    if r.Ok? then
      GatherOneField(find(employeeId).value, MobileField, DialerPick);
      assert forall x :: Yields(find(employeeId).value, MobileField, DialerPick, x) <==>
        exists k :: 0 <= k < |find(employeeId).value| && "mobile" in find(employeeId).value[k]
          && Shown(find(employeeId).value[k]["mobile"]) == x by {
        assert MobileField[0] == "mobile";
      }
      r
    else r
  }

  lemma {:induction false} GatherOneField(docs: seq<Doc>, fields: seq<string>, pick: Value -> Option<string>)
    requires |fields| == 1
    ensures |Gather(docs, fields, pick)| <= |docs|
  {
    if docs != [] {
      GatherOneField(docs[1..], fields, pick);
      assert fields[1..] == [];
      assert PickFields(docs[0], fields[1..], pick) == [];
    }
  }
}
