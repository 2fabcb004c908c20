/**
 * The employees endpoint script: it takes the employee id out of the request
 * path, then answers by request method with the status codes of its decision
 * table, calling the cache-aside employee model.
 */
module EmployeesEndpoint {
  import opened Wrappers
  import opened Php
  import opened EmployeeModel
  import ApiRouter

  const BasePath := "/api/employees"
  /** The text before the id: `preg_quote($base_path) . '/'`. */
  const IdPrefix := BasePath + "/"

  /**
   * The path the id is looked for in: `parse_url(..., PHP_URL_PATH)` then
   * `rtrim($path, '/')`.
   */
  function TrimmedPath(uri: string): string
  {
    RTrim(ApiRouter.PathPart(uri), {'/'})
  }

  /**
   * `#^/api/employees/(\d+)$#`: the prefix, one or more ASCII digits, and
   * nothing after them except, as PCRE's `$` allows, one final newline.
   */
  function MatchId(path: string): (r: Option<string>)
    ensures r.Some? ==> |r.value| > 0 && IsDigits(r.value)
    ensures r.Some? ==> path == IdPrefix + r.value || path == IdPrefix + r.value + "\n"
  {
    if !StartsWith(path, IdPrefix) then None
    else
      var rest := path[|IdPrefix|..];
      assert path == IdPrefix + rest;
      if |rest| > 0 && IsDigits(rest) then Some(rest)
      else if |rest| > 1 && rest[|rest| - 1] == '\n' && IsDigits(rest[..|rest| - 1]) then
        assert rest == rest[..|rest| - 1] + "\n";
        Some(rest[..|rest| - 1])
      else None
  }

  /** The id of the request, when its trimmed path has one. */
  function ExtractId(uri: string): Option<string>
  {
    MatchId(TrimmedPath(uri))
  }

  /** Every path of the two matching shapes yields exactly its digits. */
  lemma MatchIdComplete(digits: string)
    requires |digits| > 0 && IsDigits(digits)
    ensures MatchId(IdPrefix + digits) == Some(digits)
    ensures MatchId(IdPrefix + digits + "\n") == Some(digits)
  {
    var p := IdPrefix + digits;
    assert StartsWith(p, IdPrefix) && p[|IdPrefix|..] == digits;
    var q := IdPrefix + digits + "\n";
    assert q[..|IdPrefix|] == IdPrefix;
    assert StartsWith(q, IdPrefix);
    var rest := q[|IdPrefix|..];
    assert rest == digits + "\n";
    assert !IsDigits(rest) by { assert rest[|rest| - 1] == '\n'; }
    assert rest[..|rest| - 1] == digits;
  }

  /** The base path itself, with or without the slash, yields no id. */
  lemma MatchIdRejectsEmpty()
    ensures MatchId(IdPrefix) == None
    ensures MatchId(BasePath) == None
  {
    assert IdPrefix[|IdPrefix|..] == [];
    assert !StartsWith(BasePath, IdPrefix);
  }

  /** `if ($id)`: the id "0" counts as no id at all. */
  predicate HasId(id: Option<string>)
  {
    id.Some? && Truthy(Str(id.value))
  }

  /** `empty($data)` on the decoded body: undecodable (null) or an empty object. */
  predicate EmptyBody(body: Option<Record>)
  {
    body.None? || |body.value| == 0
  }

  datatype Payload =
    | ListData(rows: seq<Record>)
    | RowData(row: Record)
    | Done(message: string)
    | Failed(message: string)
    | InternalError(error: string)

  /**
   * What the script sends: a status code and a JSON payload, or a PHP fatal
   * error, an `Error` no `catch (Exception $e)` catches, whose response the
   * server's error settings decide.
   */
  datatype Reply = Reply(status: int, payload: Payload) | Fatal(error: string)

  /** The `Error` PHP raises for `$employee->delete($id)`: the employee model defines no `delete`. */
  const UndefinedDelete := "Call to undefined method Employee::delete()"

  /**
   * One request to the endpoint. `body` is the decoded JSON body, `readThrows`
   * and `dbThrows` say whether the read and the write meet a database error.
   */
  method Handle(e: Employee, verb: string, uri: string, body: Option<Record>,
                readThrows: bool, dbThrows: bool) returns (reply: Reply)
    requires e.Valid()
    modifies e
    ensures e.Valid()
    ensures verb == "GET" && !HasId(ExtractId(uri)) ==>
      && reply.Reply? && reply.status == 200 && reply.payload.ListData?
      && e.table == old(e.table) && e.nextId == old(e.nextId)
      && (CacheKeyAll in old(e.cache) ==> reply.payload.rows == old(e.cache)[CacheKeyAll].value.rows)
      && (CacheKeyAll !in old(e.cache) ==> reply.payload.rows == if readThrows then [] else old(e.table))
      && e.cache == if CacheKeyAll in old(e.cache) || readThrows then old(e.cache)
                    else old(e.cache)[CacheKeyAll := Entry(Rows(old(e.table)), CacheExpiry)]
    ensures verb == "GET" && HasId(ExtractId(uri)) ==>
      var seen := SeenRow(old(e.cache), old(e.table), ExtractId(uri).value, readThrows);
      && e.table == old(e.table) && e.nextId == old(e.nextId)
      && e.cache == SeenCache(old(e.cache), old(e.table), ExtractId(uri).value, readThrows)
      && (seen.Some? ==> reply == Reply(200, RowData(seen.value)))
      && (seen.None? ==> reply == Reply(404, Failed("Employee not found")))
    ensures verb == "POST" && EmptyBody(body) ==>
      reply == Reply(400, Failed("Invalid input data")) && unchanged(e)
    ensures verb == "POST" && !EmptyBody(body) ==>
      && (dbThrows ==> reply == Reply(500, InternalError("Failed to create employee")) && e.cache == old(e.cache) && e.table == old(e.table))
      && (!dbThrows ==>
            && reply == Reply(201, Done("Employee created successfully"))
            && e.cache == old(e.cache) - CreateCleared()
            && |e.table| == |old(e.table)| + 1)
    ensures verb in {"PUT", "DELETE"} && !HasId(ExtractId(uri)) ==>
      reply == Reply(400, Failed("No employee ID provided")) && unchanged(e)
    ensures verb == "PUT" && HasId(ExtractId(uri)) && EmptyBody(body) ==>
      reply == Reply(400, Failed("Invalid input data")) && unchanged(e)
    ensures verb == "PUT" && HasId(ExtractId(uri)) && !EmptyBody(body) ==>
      var id := ExtractId(uri).value;
      && (dbThrows ==>
            && reply == Reply(500, InternalError("Failed to update employee")) && e.table == old(e.table)
            && e.cache == SeenCache(old(e.cache), old(e.table), id, readThrows))
      && (!dbThrows ==>
            && reply == Reply(200, Done("Employee updated successfully"))
            && e.table == UpdatedTable(old(e.table), DigitsValue(id), body.value)
            && e.cache == old(e.cache) - UpdateCleared(id, RecordOrEmpty(SeenRow(old(e.cache), old(e.table), id, readThrows)), body.value))
    ensures verb == "DELETE" && HasId(ExtractId(uri)) ==>
      reply == Fatal(UndefinedDelete) && unchanged(e)
    ensures verb == "DELETE" ==> !(reply.Reply? && reply.status in {200, 503})
    ensures verb !in {"GET", "POST", "PUT", "DELETE"} ==>
      reply == Reply(405, Failed("Method not allowed")) && unchanged(e)
    ensures verb in {"POST", "PUT"} ==> reply.Reply? && reply.status != 503
  {
    var id := ExtractId(uri);
    if verb == "GET" {
      if HasId(id) {
        var found := e.GetById(id.value, readThrows);
        if found.Some? {
          reply := Reply(200, RowData(found.value));
        } else {
          reply := Reply(404, Failed("Employee not found"));
        }
      } else {
        var rows := e.GetAll(readThrows);
        reply := Reply(200, ListData(rows));
      }
    } else if verb == "POST" {
      if EmptyBody(body) {
        return Reply(400, Failed("Invalid input data"));
      }
      var created := e.Create(body.value, dbThrows);
      if created.Err? {
        reply := Reply(500, InternalError(created.error));
      } else if created.value {
        reply := Reply(201, Done("Employee created successfully"));
      } else {
        reply := Reply(503, Failed("Unable to create employee"));
      }
    } else if verb == "PUT" {
      if !HasId(id) {
        return Reply(400, Failed("No employee ID provided"));
      }
      if EmptyBody(body) {
        return Reply(400, Failed("Invalid input data"));
      }
      var updated := e.Update(id.value, body.value, readThrows, dbThrows);
      if updated.Err? {
        reply := Reply(500, InternalError(updated.error));
      } else if updated.value {
        reply := Reply(200, Done("Employee updated successfully"));
      } else {
        reply := Reply(503, Failed("Unable to update employee"));
      }
    } else if verb == "DELETE" {
      if !HasId(id) {
        return Reply(400, Failed("No employee ID provided"));
      }
      reply := Fatal(UndefinedDelete);
    } else {
      reply := Reply(405, Failed("Method not allowed"));
    }
  }

  /**
   * `GET /api/employees/0`: the id "0" is falsy, so the request is answered
   * with the whole list rather than the row with id 0.
   */
  method GetZeroListsAll(cache0: Cache, table0: seq<Record>, nextId0: nat) returns (reply: Reply)
    requires TableValid(table0, nextId0) && WellShaped(cache0) && CacheKeyAll !in cache0
    ensures reply == Reply(200, ListData(table0))
  {
    var e := new Employee(cache0, table0, nextId0);
    var uri := IdPrefix + "0";
    MatchIdComplete("0");
    ApiRouter.PathPartWhole(uri);
    assert uri[|uri| - 1] == '0';
    RTrimDropsSuffix(uri, [], {'/'});
    assert uri + [] == uri;
    assert ExtractId(uri) == Some("0");
    reply := Handle(e, "GET", uri, None, false, false);
  }
}
