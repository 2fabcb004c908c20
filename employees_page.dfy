/**
 * The employees page of the dashboard front end: the checks it runs before
 * saving an employee, the request it then sends, the search and filter over
 * the loaded list, the department options, and the defaults it applies to
 * fetched rows.
 */
module EmployeesPage {
  import opened Wrappers
  import opened Js
  import Php
  import Seqs
  import ApiRouter

  const RequiredFields := ["name", "email", "position", "department", "start_date", "salary"]
  const ApiBase := "/api"

  // ---------------------------------------------------------------------
  // Saving an employee
  // ---------------------------------------------------------------------

  /** The required fields whose value is falsy, in the order they are listed. */
  function MissingFields(data: Obj): (r: seq<string>)
    ensures |r| <= |RequiredFields|
  {
    Seqs.Filter(RequiredFields, (f: string) => !Truthy(Prop(data, f)))
  }

  /** A field is reported missing exactly when it is required and falsy; the order is kept. */
  lemma MissingFieldsExactly(data: Obj)
    ensures Seqs.IsSublist(MissingFields(data), RequiredFields)
    ensures forall f :: f in MissingFields(data) <==> f in RequiredFields && !Truthy(Prop(data, f))
    ensures "status" !in MissingFields(data)
  {
    var falsy := (f: string) => !Truthy(Prop(data, f));
    Seqs.FilterSpec(RequiredFields, falsy);
    forall f ensures f in MissingFields(data) <==> f in RequiredFields && !Truthy(Prop(data, f)) {
      assert falsy(f) == !Truthy(Prop(data, f));
    }
    StatusNotRequired();
  }

  lemma StatusNotRequired()
    ensures "status" !in RequiredFields
  {
    forall i | 0 <= i < |RequiredFields| ensures RequiredFields[i] != "status" {
      assert RequiredFields[i][0] != 's' || RequiredFields[i][1] != 't' || |RequiredFields[i]| != 6;
    }
  }

  /** `parts.join(sep)`. */
  function Join(parts: seq<string>, sep: string): string
  {
    if |parts| == 0 then ""
    else if |parts| == 1 then parts[0]
    else parts[0] + sep + Join(parts[1..], sep)
  }

  /** The characters the regular-expression class `\s` matches. */
  predicate IsSpace(c: char)
  {
    var n := c as int;
    || (9 <= n <= 13) || n == 32 || n == 0xA0 || n == 0x1680
    || (0x2000 <= n <= 0x200A) || n == 0x2028 || n == 0x2029
    || n == 0x202F || n == 0x205F || n == 0x3000 || n == 0xFEFF
  }

  /** `[^\s@]`. */
  predicate PlainChar(c: char)
  {
    !IsSpace(c) && c != '@'
  }

  /** `[^\s@]+` matches `s[i..j]`. */
  predicate PlainRun(s: string, i: int, j: int)
    requires 0 <= i <= j <= |s|
  {
    i < j && forall t | i <= t < j :: PlainChar(s[t])
  }

  /** The split of a match of `^[^\s@]+@[^\s@]+\.[^\s@]+$` with the '@' at `at` and the '.' at `dot`. */
  predicate EmailSplit(s: string, at: int, dot: int)
  {
    && 0 <= at < dot < |s|
    && s[at] == '@' && s[dot] == '.'
    && PlainRun(s, 0, at) && PlainRun(s, at + 1, dot) && PlainRun(s, dot + 1, |s|)
  }

  /** `/^[^\s@]+@[^\s@]+\.[^\s@]+$/.test(s)`. */
  predicate EmailMatches(s: string)
  {
    exists at, dot | 0 <= at < |s| && 0 <= dot < |s| :: EmailSplit(s, at, dot)
  }

  /**
   * The same language described by what it requires: no whitespace, exactly
   * one '@', something before it, and a '.' after it that is neither the
   * first nor the last character of the domain.
   */
  predicate EmailShape(s: string)
  {
    && (forall i | 0 <= i < |s| :: !IsSpace(s[i]))
    && exists at | 0 < at < |s| && s[at] == '@' ::
         && (forall i | 0 <= i < |s| && i != at :: s[i] != '@')
         && (exists dot | at + 1 < dot < |s| - 1 :: s[dot] == '.')
  }

  lemma EmailMatchesShape(s: string)
    ensures EmailMatches(s) <==> EmailShape(s)
  {
    if EmailMatches(s) {
      var at, dot :| 0 <= at < |s| && 0 <= dot < |s| && EmailSplit(s, at, dot);
      assert PlainChar(s[0]) && PlainChar(s[at + 1]) && PlainChar(s[|s| - 1]);
      forall i | 0 <= i < |s| ensures !IsSpace(s[i]) && (i != at ==> s[i] != '@') {
        if i < at { assert PlainChar(s[i]); }
        else if at < i < dot { assert PlainChar(s[i]); }
        else if dot < i { assert PlainChar(s[i]); }
      }
      assert at + 1 < dot < |s| - 1 && s[dot] == '.';
    }
    if EmailShape(s) {
      var at :| 0 < at < |s| && s[at] == '@'
        && (forall i | 0 <= i < |s| && i != at :: s[i] != '@')
        && (exists dot | at + 1 < dot < |s| - 1 :: s[dot] == '.');
      var dot :| at + 1 < dot < |s| - 1 && s[dot] == '.';
      assert PlainRun(s, 0, at) && PlainRun(s, at + 1, dot) && PlainRun(s, dot + 1, |s|);
      assert EmailSplit(s, at, dot);
    }
  }

  /** What the page sends once the checks pass; `body` is the object `JSON.stringify` then encodes. */
  datatype Submission = Submission(verb: string, url: string, body: Obj)

  /**
   * `handleAddEmployee` up to the request: the three checks in order, the
   * first failure giving its message; then PUT to the employee's own URL when
   * an employee is being edited, POST to the collection otherwise. The body
   * is the form data with `third_party_info` set to the details as JSON text
   * (`stringify` stands for `JSON.stringify`), or null when there are none.
   */
  function SaveRequest(data: Obj, editing: Option<Obj>, stringify: JsVal -> string): (r: Result<Submission, string>)
  {
    var missing := MissingFields(data);
    var info := Prop(data, "thirdPartyInfo");
    var body := data["third_party_info" := if Truthy(info) then Str(stringify(info)) else Null];
    if |missing| > 0 then Err("Missing required fields: " + Join(missing, ", "))
    else if !EmailMatches(ToString(Prop(data, "email"))) then Err("Invalid email format")
    else if !IsPositiveNumber(Prop(data, "salary")) then Err("Salary must be a positive number")
    else if editing.Some? then Ok(Submission("PUT", ApiBase + "/employees/" + ToString(Prop(editing.value, "id")), body))
    else Ok(Submission("POST", ApiBase + "/employees", body))
  }

  /** A request goes out iff all three checks pass; each failure names the first check that failed. */
  lemma SaveRequestChecks(data: Obj, editing: Option<Obj>, stringify: JsVal -> string)
    ensures SaveRequest(data, editing, stringify).Ok? <==>
      && (forall f | f in RequiredFields :: Truthy(Prop(data, f)))
      && EmailShape(ToString(Prop(data, "email")))
      && IsPositiveNumber(Prop(data, "salary"))
    ensures (exists f | f in RequiredFields :: !Truthy(Prop(data, f))) ==>
      SaveRequest(data, editing, stringify).Err? &&
      Php.StartsWith(SaveRequest(data, editing, stringify).error, "Missing required fields: ")
    ensures MissingFields(data) == [] && !EmailShape(ToString(Prop(data, "email"))) ==>
      SaveRequest(data, editing, stringify) == Err("Invalid email format")
    ensures MissingFields(data) == [] && EmailShape(ToString(Prop(data, "email"))) && !IsPositiveNumber(Prop(data, "salary")) ==>
      SaveRequest(data, editing, stringify) == Err("Salary must be a positive number")
  {
    MissingFieldsExactly(data);
    EmailMatchesShape(ToString(Prop(data, "email")));
    if exists f | f in RequiredFields :: !Truthy(Prop(data, f)) {
      var f :| f in RequiredFields && !Truthy(Prop(data, f));
      assert f in MissingFields(data);
      MissingMessage(data, editing, stringify);
    }
  }

  /**
   * The request that goes out: PUT to the edited employee's URL, or POST to
   * the collection, carrying the form data with the details as JSON text, or
   * null when there are none.
   */
  lemma SentRequest(data: Obj, editing: Option<Obj>, stringify: JsVal -> string)
    requires SaveRequest(data, editing, stringify).Ok?
    ensures var sent := SaveRequest(data, editing, stringify).value;
      && sent.verb == (if editing.Some? then "PUT" else "POST")
      && sent.url == ApiBase + "/employees" + (if editing.Some? then "/" + ToString(Prop(editing.value, "id")) else "")
      && Prop(sent.body, "third_party_info") ==
         (if Truthy(Prop(data, "thirdPartyInfo")) then Str(stringify(Prop(data, "thirdPartyInfo"))) else Null)
      && forall k | k in data && k != "third_party_info" :: k in sent.body && sent.body[k] == data[k]
  {
    if editing.Some? {
      assert ApiBase + "/employees/" + ToString(Prop(editing.value, "id"))
          == ApiBase + "/employees" + ("/" + ToString(Prop(editing.value, "id")));
    } else {
      assert ApiBase + "/employees" + "" == ApiBase + "/employees";
    }
  }

  /** Missing fields give the message that lists them. */
  lemma MissingMessage(data: Obj, editing: Option<Obj>, stringify: JsVal -> string)
    requires |MissingFields(data)| > 0
    ensures SaveRequest(data, editing, stringify).Err? &&
      Php.StartsWith(SaveRequest(data, editing, stringify).error, "Missing required fields: ")
  {
    var msg := "Missing required fields: " + Join(MissingFields(data), ", ");
    assert msg[..|"Missing required fields: "|] == "Missing required fields: ";
  }

  /**
   * Saving an edit sends `PUT /api/employees/<id>`, a path the API front
   * controller answers with 404: edits made on this page never reach the
   * employee handler.
   */
  lemma EditRequestNotRouted(data: Obj, editing: Obj, id: nat, stringify: JsVal -> string)
    requires Prop(editing, "id") == Num(id)
    requires SaveRequest(data, Some(editing), stringify).Ok?
    ensures ApiRouter.Route(ApiRouter.NormalisedPath(SaveRequest(data, Some(editing), stringify).value.url), "PUT").NotFound?
  {
    var digits := Php.NatToString(id);
    assert ToString(Num(id)) == digits;
    var url := SaveRequest(data, Some(editing), stringify).value.url;
    assert url == ApiRouter.BasePath + ApiRouter.EmployeesPath + "/" + digits;
    ApiRouter.EmployeeIdPathNotRouted(url, digits, "PUT");
  }

  // ---------------------------------------------------------------------
  // Search, filters and department options
  // ---------------------------------------------------------------------

  /** The fields the search box reads, which `toLowerCase` needs to be strings. */
  predicate Searchable(e: Obj)
  {
    forall k | k in ["name", "email", "position", "department"] :: Prop(e, k).Str?
  }

  function Lowered(e: Obj, k: string): string
  {
    ToLower(ToString(Prop(e, k)))
  }

  /** The test `filteredEmployees` applies to one employee. */
  predicate Shown(e: Obj, query: string, department: string, status: string)
  {
    var q := ToLower(query);
    && (Includes(Lowered(e, "name"), q) || Includes(Lowered(e, "email"), q)
        || Includes(Lowered(e, "position"), q) || Includes(Lowered(e, "department"), q))
    && (department == "" || Prop(e, "department") == Str(department))
    && (status == "" || Prop(e, "status") == Str(status))
  }

  function FilteredEmployees(employees: seq<Obj>, query: string, department: string, status: string): seq<Obj>
    requires forall i | 0 <= i < |employees| :: Searchable(employees[i])
  {
    Seqs.Filter(employees, (e: Obj) => Shown(e, query, department, status))
  }

  /** The result keeps the list order and holds exactly the employees that pass the test. */
  lemma FilteredEmployeesSpec(employees: seq<Obj>, query: string, department: string, status: string)
    requires forall i | 0 <= i < |employees| :: Searchable(employees[i])
    ensures Seqs.IsSublist(FilteredEmployees(employees, query, department, status), employees)
    ensures forall e :: e in FilteredEmployees(employees, query, department, status) <==>
      e in employees && Shown(e, query, department, status)
  {
    var shown := (e: Obj) => Shown(e, query, department, status);
    Seqs.FilterSpec(employees, shown);
    forall e ensures e in FilteredEmployees(employees, query, department, status) <==>
      e in employees && Shown(e, query, department, status)
    {
      assert shown(e) == Shown(e, query, department, status);
    }
  }

  /** With an empty search and no filter chosen, every employee is shown. */
  lemma EmptySearchShowsAll(employees: seq<Obj>)
    requires forall i | 0 <= i < |employees| :: Searchable(employees[i])
    ensures FilteredEmployees(employees, "", "", "") == employees
  {
    forall i | 0 <= i < |employees| ensures Shown(employees[i], "", "", "") {
      IncludesEmpty(Lowered(employees[i], "name"));
    }
    Seqs.FilterAll(employees, (e: Obj) => Shown(e, "", "", ""));
  }

  /** `[...new Set(values)]`: each value once, where it first occurs. */
  function Distinct(values: seq<JsVal>): (r: seq<JsVal>)
    ensures forall v :: v in r <==> v in values
    ensures forall i, j | 0 <= i < j < |r| :: r[i] != r[j]
  {
    if |values| == 0 then []
    else
      var prefix := Distinct(values[..|values| - 1]);
      var last := values[|values| - 1];
      assert forall v :: v in values <==> v in values[..|values| - 1] || v == last;
      if last in prefix then prefix else prefix + [last]
  }

  /** The position of the first occurrence of a value. */
  function FirstIndex(values: seq<JsVal>, v: JsVal): (k: nat)
    requires v in values
    ensures k < |values| && values[k] == v && v !in values[..k]
  {
    if values[0] == v then 0
    else
      assert v in values[1..];
      var k := FirstIndex(values[1..], v);
      assert values[..k + 1] == [values[0]] + values[1..][..k];
      k + 1
  }

  lemma FirstIndexPrefix(values: seq<JsVal>, n: nat, v: JsVal)
    requires n <= |values| && v in values[..n]
    ensures v in values && FirstIndex(values, v) == FirstIndex(values[..n], v)
  {
    var k := FirstIndex(values[..n], v);
    assert values[..n][..k] == values[..k];
    var m := FirstIndex(values, v);
    assert values[k] == v && values[m] == v;
  }

  /** The distinct values come out in the order of their first occurrences. */
  lemma {:induction false} DistinctFirstOccurrenceOrder(values: seq<JsVal>)
    ensures forall i, j | 0 <= i < j < |Distinct(values)| ::
      FirstIndex(values, Distinct(values)[i]) < FirstIndex(values, Distinct(values)[j])
  {
    if |values| > 0 {
      var n := |values| - 1;
      var init := values[..n];
      DistinctFirstOccurrenceOrder(init);
      var prefix := Distinct(init);
      var r := Distinct(values);
      forall v | v in prefix ensures FirstIndex(values, v) == FirstIndex(init, v) < n {
        FirstIndexPrefix(values, n, v);
      }
      if values[n] !in prefix {
        assert values[n] !in init;
        assert FirstIndex(values, values[n]) == n by {
          assert values[..n] == init;
        }
        assert r == prefix + [values[n]];
      }
      forall i, j | 0 <= i < j < |r| ensures FirstIndex(values, r[i]) < FirstIndex(values, r[j]) {
        assert r[i] in prefix;
        if j < |prefix| {
          assert r[i] == prefix[i] && r[j] == prefix[j];
        }
      }
    }
  }

  /** The department options: the distinct departments, in first-occurrence order. */
  function Departments(employees: seq<Obj>): seq<JsVal>
  {
    Distinct(seq(|employees|, i requires 0 <= i < |employees| => Prop(employees[i], "department")))
  }

  // ---------------------------------------------------------------------
  // Fetched rows
  // ---------------------------------------------------------------------

  /**
   * The transformation `fetchEmployees` applies to a fetched row: the
   * third-party details parsed when they arrive as text (`parse` stands for
   * `JSON.parse`), the start date copied, and a falsy status replaced by
   * 'active'.
   */
  function Transformed(emp: Obj, parse: string -> JsVal): (r: Obj)
    ensures Prop(r, "status") == (if Truthy(Prop(emp, "status")) then Prop(emp, "status") else Str("active"))
    ensures Truthy(Prop(r, "status"))
    ensures Prop(r, "startDate") == Prop(emp, "start_date")
    ensures forall k | k in emp && k !in {"thirdPartyInfo", "startDate", "status"} :: k in r && r[k] == emp[k]
    ensures var info := Prop(emp, "third_party_info");
      Prop(r, "thirdPartyInfo") ==
        if !Truthy(info) then Null else if info.Str? then parse(info.s) else info
  {
    var info := Prop(emp, "third_party_info");
    var parsed := if Truthy(info) && info.Str? then parse(info.s) else Or(info, Null);
    emp["thirdPartyInfo" := parsed]["startDate" := Prop(emp, "start_date")]["status" := Or(Prop(emp, "status"), Str("active"))]
  }
}
