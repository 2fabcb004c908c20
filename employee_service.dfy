/**
 * The service layer over the repository: a read-through cache of list pages
 * keyed by page and limit, NotFound guards before writes, field validation
 * that on update checks only the fields present, and cache invalidation by
 * id and by the `employee:all:*` pattern.
 *
 * The Respect rules other than the status rule are the `rules` parameter
 * and their messages the `messages` parameter; JSON encoding of a page is
 * the `encode` parameter, and a cached page is returned as its JSON text.
 */
module EmployeeService {
  import opened Wrappers
  import opened Php
  import Repo = EmployeeRepository
  import Seqs

  const CacheTtl := 3600
  const CacheKeyPrefix := "employee:"
  const ListKeyPrefix := "employee:all:"

  /** The rules of `validateEmployeeData`, in the order they are checked. */
  const RuleFields := ["name", "email", "position", "department", "start_date", "salary", "status"]

  /** The statuses `v::in([...])` accepts. */
  const Statuses := ["active", "inactive", "resigned"]

  /** A `ValidationException` with its field-to-message errors, a `NotFoundException`, or a repository error. */
  datatype ServiceError = Validation(errors: seq<(string, string)>) | NotFound | Db(cause: Repo.RepoError)

  /** What `getAllEmployees` returns: a page read from the repository, or the text found in the cache. */
  datatype Listing = Fresh(page: Repo.Page) | Cached(json: string)

  /** A cache entry: the stored text and its TTL in seconds. */
  datatype Entry = Entry(text: string, ttl: nat)

  function ListKey(page: int, limit: int): string
  {
    ListKeyPrefix + IntToString(page) + ":" + IntToString(limit)
  }

  function IdKey(id: int): string
  {
    CacheKeyPrefix + IntToString(id)
  }

  /**
   * `v::in(['active', 'inactive', 'resigned'])`, which compares loosely: a
   * listed string passes, and so does `true`, which equals any non-empty
   * string; null, false and integers do not.
   */
  predicate StatusAllowed(v: Val)
  {
    match v
    case Str(s) => s in Statuses
    case Bool(b) => b
    case _ => false
  }

  /** Whether the rule for `field` accepts `v`: the status rule as written, the others as `rules` says. */
  predicate Passes(field: string, v: Val, rules: (string, Val) -> bool)
  {
    if field == "status" then StatusAllowed(v) else rules(field, v)
  }

  /** `!$isUpdate || isset($data[$field])`: create checks every rule, update only fields present. */
  predicate Checked(data: Record, isUpdate: bool, field: string)
  {
    !isUpdate || IsSet(data, field)
  }

  /** The fields whose rule is checked and fails. */
  function Failing(data: Record, isUpdate: bool, rules: (string, Val) -> bool): string -> bool
  {
    f => Checked(data, isUpdate, f) && !Passes(f, Get(data, f), rules)
  }

  /**
   * `validateEmployeeData`: runs the rules in order and collects one message
   * per failing field. The error fields are exactly the checked fields that
   * fail, in rule order; each message is the one for that field and value.
   * With no error it returns `Ok`, otherwise one `ValidationException`.
   */
  method ValidateEmployeeData(data: Record, isUpdate: bool, rules: (string, Val) -> bool, messages: (string, Val) -> string)
    returns (r: Result<(), ServiceError>)
    ensures r.Ok? <==> Seqs.Filter(RuleFields, Failing(data, isUpdate, rules)) == []
    ensures r.Err? ==>
      && r.error.Validation?
      && PairKeys(r.error.errors) == Seqs.Filter(RuleFields, Failing(data, isUpdate, rules))
      && forall i | 0 <= i < |r.error.errors| :: r.error.errors[i].1 == messages(r.error.errors[i].0, Get(data, r.error.errors[i].0))
  {
    var errors: seq<(string, string)> := [];
    var i := 0;
    while i < |RuleFields|
      invariant 0 <= i <= |RuleFields|
      invariant PairKeys(errors) == Seqs.Filter(RuleFields[..i], Failing(data, isUpdate, rules))
      invariant forall j | 0 <= j < |errors| :: errors[j].1 == messages(errors[j].0, Get(data, errors[j].0))
    {
      var field := RuleFields[i];
      ValidateStep(data, isUpdate, rules, i);
      if !isUpdate || IsSet(data, field) {
        var v := Get(data, field);
        if !Passes(field, v, rules) {
          ErrorKeysAppend(errors, (field, messages(field, v)));
          errors := errors + [(field, messages(field, v))];
        }
      }
      i := i + 1;
    }
    assert RuleFields[..i] == RuleFields;
    if |errors| == 0 {
      return Ok(());
    }
    r := Err(Validation(errors));
  }

  /** One turn of the rule loop: the failing fields so far grow by the current field when it fails. */
  lemma ValidateStep(data: Record, isUpdate: bool, rules: (string, Val) -> bool, i: int)
    requires 0 <= i < |RuleFields|
    ensures var f := RuleFields[i];
      Seqs.Filter(RuleFields[..i + 1], Failing(data, isUpdate, rules)) ==
      Seqs.Filter(RuleFields[..i], Failing(data, isUpdate, rules))
        + (if Checked(data, isUpdate, f) && !Passes(f, Get(data, f), rules) then [f] else [])
  {
    assert RuleFields[..i + 1] == RuleFields[..i] + [RuleFields[i]];
    Seqs.FilterAppend(RuleFields[..i], RuleFields[i], Failing(data, isUpdate, rules));
  }

  lemma ErrorKeysAppend(errors: seq<(string, string)>, e: (string, string))
    ensures PairKeys(errors + [e]) == PairKeys(errors) + [e.0]
  {
  }

  /** Every checked field that fails is reported; every reported field was checked and failed. */
  lemma {:induction false} ErrorFieldsExactly(data: Record, isUpdate: bool, rules: (string, Val) -> bool, f: string)
    ensures f in Seqs.Filter(RuleFields, Failing(data, isUpdate, rules)) <==>
      f in RuleFields && Checked(data, isUpdate, f) && !Passes(f, Get(data, f), rules)
  {
    Seqs.FilterSpec(RuleFields, Failing(data, isUpdate, rules));
  }

  /** On update, a field that is absent or null is never reported, whatever the rules say. */
  lemma {:induction false} UpdateSkipsAbsentFields(data: Record, rules: (string, Val) -> bool, f: string)
    requires !IsSet(data, f)
    ensures f !in Seqs.Filter(RuleFields, Failing(data, true, rules))
  {
    ErrorFieldsExactly(data, true, rules, f);
  }

  /** On create, a missing status is reported: the status rule rejects null. */
  lemma {:induction false} CreateRequiresStatus(data: Record, rules: (string, Val) -> bool)
    requires "status" !in data
    ensures "status" in Seqs.Filter(RuleFields, Failing(data, false, rules))
  {
    ErrorFieldsExactly(data, false, rules, "status");
  }

  /** Every list key has the `employee:all:` prefix, so the pattern delete reaches it; no id key has it. */
  lemma {:induction false} ListKeysMatchPattern(page: int, limit: int, id: int)
    ensures StartsWith(ListKey(page, limit), ListKeyPrefix)
    ensures !StartsWith(IdKey(id), ListKeyPrefix)
  {
    assert ListKey(page, limit)[..|ListKeyPrefix|] == ListKeyPrefix;
    var k := IdKey(id);
    var t := IntToString(id);
    assert k[9] == t[0];
    assert t[0] == '-' || IsDigit(t[0]);
    assert ListKeyPrefix[9] == 'a';
  }

  /** The cache after `clearEmployeeCache($id)`. */
  function Cleared(cache: map<string, Entry>, id: Option<int>): (c: map<string, Entry>)
    ensures forall k | k in c :: k in cache && c[k] == cache[k]
    ensures forall k | k in cache ::
      k !in c <==> StartsWith(k, ListKeyPrefix) || (id.Some? && id.value != 0 && k == IdKey(id.value))
  {
    map k | k in cache && !StartsWith(k, ListKeyPrefix) && !(id.Some? && id.value != 0 && k == IdKey(id.value)) :: cache[k]
  }

  class Service {
    var cache: map<string, Entry>
    const repo: Repo.Repository

    constructor (cache0: map<string, Entry>, repo0: Repo.Repository)
      ensures cache == cache0 && repo == repo0
    {
      cache, repo := cache0, repo0;
    }

    /**
     * `clearEmployeeCache`: deletes `employee:<id>` when the id is truthy,
     * then every key matching `employee:all:*`.
     */
    method ClearEmployeeCache(id: Option<int>)
      modifies this`cache
      ensures cache == Cleared(old(cache), id)
    {
      if id.Some? && id.value != 0 {
        cache := cache - {IdKey(id.value)};
      }
      cache := map k | k in cache && !StartsWith(k, ListKeyPrefix) :: cache[k];
    }

    /**
     * `getAllEmployees`: a truthy cached text under `employee:all:{page}:{limit}`
     * is returned without a repository call; otherwise the repository page is
     * stored as JSON for an hour. A repository error propagates and stores nothing.
     */
    method GetAllEmployees(page: int, limit: int, encode: Repo.Page -> string, dbThrows: bool)
      returns (r: Result<Listing, ServiceError>)
      modifies this`cache
      ensures var key := ListKey(page, limit);
        && (key in old(cache) && Truthy(Str(old(cache)[key].text)) ==>
              r == Ok(Cached(old(cache)[key].text)) && cache == old(cache))
        && (!(key in old(cache) && Truthy(Str(old(cache)[key].text))) ==>
              var fetched := Repo.PageResult(repo.rows, page, limit, dbThrows);
              && (fetched.Err? ==> r == Err(Db(fetched.error)) && cache == old(cache))
              && (fetched.Ok? ==> r == Ok(Fresh(fetched.value))
                                  && cache == old(cache)[key := Entry(encode(fetched.value), CacheTtl)]))
    {
      var key := ListKey(page, limit);
      if key in cache && Truthy(Str(cache[key].text)) {
        return Ok(Cached(cache[key].text));
      }
      var fetched := repo.GetAll(page, limit, dbThrows);
      if fetched.Err? {
        return Err(Db(fetched.error));
      }
      cache := cache[key := Entry(encode(fetched.value), CacheTtl)];
      r := Ok(Fresh(fetched.value));
    }

    /**
     * `createEmployee`: validation first, so an invalid request touches
     * neither the repository nor the cache; after a successful insert the
     * list pages are dropped. An insert error propagates with the cache as it was.
     */
    method CreateEmployee(data: Record, rules: (string, Val) -> bool, messages: (string, Val) -> string,
                          json: Val -> string, dbThrows: bool)
      returns (r: Result<int, ServiceError>)
      modifies this`cache, repo
      ensures Seqs.Filter(RuleFields, Failing(data, false, rules)) != [] ==>
        r.Err? && r.error.Validation? && cache == old(cache) && repo.rows == old(repo.rows) && repo.nextId == old(repo.nextId)
      ensures Seqs.Filter(RuleFields, Failing(data, false, rules)) == [] && dbThrows ==>
        r == Err(Db(Repo.Database)) && cache == old(cache) && repo.rows == old(repo.rows)
      ensures Seqs.Filter(RuleFields, Failing(data, false, rules)) == [] && !dbThrows ==>
        && r == Ok(old(repo.nextId))
        && repo.rows == [Repo.InsertValues(data, json)["id" := Int(old(repo.nextId))]["deleted_at" := Null]] + old(repo.rows)
        && cache == Cleared(old(cache), None)
    {
      var valid := ValidateEmployeeData(data, false, rules, messages);
      if valid.Err? {
        return Err(valid.error);
      }
      var created := repo.Create(data, json, dbThrows);
      if created.Err? {
        return Err(Db(created.error));
      }
      ClearEmployeeCache(None);
      r := Ok(created.value);
    }

    /**
     * `updateEmployee`: an id with no live row raises NotFound before any
     * validation or write; then the fields present are validated, the row is
     * updated and the id key and list pages are dropped.
     */
    method UpdateEmployee(id: int, data: Pairs, rules: (string, Val) -> bool, messages: (string, Val) -> string,
                          json: Val -> string, readThrows: bool, dbThrows: bool)
      returns (r: Result<bool, ServiceError>)
      requires UniqueKeys(data)
      modifies this`cache, repo`rows
      ensures readThrows ==> r == Err(Db(Repo.Database)) && cache == old(cache) && repo.rows == old(repo.rows)
      ensures !readThrows && !Repo.AnyMatch(old(repo.rows), id) ==>
        r == Err(NotFound) && cache == old(cache) && repo.rows == old(repo.rows)
      ensures !readThrows && Repo.AnyMatch(old(repo.rows), id) &&
              Seqs.Filter(RuleFields, Failing(Overlay(map[], data), true, rules)) != [] ==>
        r.Err? && r.error.Validation? && cache == old(cache) && repo.rows == old(repo.rows)
      ensures !readThrows && Repo.AnyMatch(old(repo.rows), id) &&
              Seqs.Filter(RuleFields, Failing(Overlay(map[], data), true, rules)) == [] ==>
        if dbThrows || |data| == 0 || "id" in PairKeys(data) then
          r == Err(Db(Repo.Database)) && cache == old(cache) && repo.rows == old(repo.rows)
        else
          && r == Ok(Repo.ChangesSome(old(repo.rows), id, Repo.BoundParams(data, json)))
          && repo.rows == Repo.SetWhere(old(repo.rows), id, Repo.BoundParams(data, json))
          && cache == Cleared(old(cache), Some(id))
    {
      var found := repo.GetById(id, readThrows);
      if found.Err? {
        return Err(Db(found.error));
      }
      if found.value.None? {
        return Err(NotFound);
      }
      var valid := ValidateEmployeeData(Overlay(map[], data), true, rules, messages);
      if valid.Err? {
        return Err(valid.error);
      }
      var updated := repo.Update(id, data, json, dbThrows);
      if updated.Err? {
        return Err(Db(updated.error));
      }
      ClearEmployeeCache(Some(id));
      r := Ok(updated.value);
    }

    /**
     * `deleteEmployee`: NotFound for an id with no live row, otherwise the
     * soft delete, then the id key and list pages are dropped.
     */
    method DeleteEmployee(id: int, now: string, readThrows: bool, dbThrows: bool) returns (r: Result<bool, ServiceError>)
      modifies this`cache, repo`rows
      ensures readThrows ==> r == Err(Db(Repo.Database)) && cache == old(cache) && repo.rows == old(repo.rows)
      ensures !readThrows && !Repo.AnyMatch(old(repo.rows), id) ==>
        r == Err(NotFound) && cache == old(cache) && repo.rows == old(repo.rows)
      ensures !readThrows && Repo.AnyMatch(old(repo.rows), id) && dbThrows ==>
        r == Err(Db(Repo.Database)) && cache == old(cache) && repo.rows == old(repo.rows)
      ensures !readThrows && Repo.AnyMatch(old(repo.rows), id) && !dbThrows ==>
        && r == Ok(true)
        && repo.rows == Repo.SetWhere(old(repo.rows), id, [("deleted_at", Str(now))])
        && cache == Cleared(old(cache), Some(id))
    {
      var found := repo.GetById(id, readThrows);
      if found.Err? {
        return Err(Db(found.error));
      }
      if found.value.None? {
        return Err(NotFound);
      }
      var deleted := repo.Delete(id, now, dbThrows);
      if deleted.Err? {
        return Err(Db(deleted.error));
      }
      ClearEmployeeCache(Some(id));
      r := Ok(deleted.value);
    }
  }
}
