/**
 * The PDO repository of the service layer. Rows are soft-deleted: a row is
 * live while its `deleted_at` is null, and every read or write here is
 * limited to live rows. The table is kept in `ORDER BY created_at DESC`
 * order, newest first. Each operation runs in ERRMODE_EXCEPTION, so a
 * failing statement raises `Database`; `dbThrows` says whether it does.
 */
module EmployeeRepository {
  import opened Wrappers
  import opened Php
  import opened SqlText
  import Seqs

  /** A `DatabaseException`, or PHP 8's `DivisionByZeroError` from `ceil($total / $limit)`. */
  datatype RepoError = Database | DivisionByZero

  /** The array `getAll` returns. */
  datatype Page = Page(data: seq<Record>, total: int, page: int, lastPage: int)

  const UpdateHead := "UPDATE employees SET"
  const UpdateWhere := " WHERE id = :id AND deleted_at IS NULL"
  const SearchBase := "SELECT * FROM employees WHERE deleted_at IS NULL"
  const SearchLike := " AND (name LIKE :query OR email LIKE :query OR position LIKE :query)"

  /** `deleted_at IS NULL`. */
  predicate IsLive(r: Record)
  {
    Get(r, "deleted_at") == Null
  }

  /** `WHERE id = :id AND deleted_at IS NULL`. */
  predicate Matches(r: Record, id: int)
  {
    Get(r, "id") == Int(id) && IsLive(r)
  }

  function LiveRows(rows: seq<Record>): seq<Record>
  {
    Seqs.Filter(rows, IsLive)
  }

  // ----- Pagination -----

  function Offset(page: int, limit: int): int
  {
    (page - 1) * limit
  }

  /** `ceil($total / $limit)` for a positive limit: the fewest pages that hold every row. */
  function CeilDiv(total: nat, limit: int): (n: nat)
    requires limit > 0
    ensures n * limit >= total
    ensures n == 0 || (n - 1) * limit < total
  {
    (total + limit - 1) / limit
  }

  /** `LIMIT :limit OFFSET :offset` over the live rows. */
  function PageSlice(live: seq<Record>, offset: nat, limit: nat): (s: seq<Record>)
    ensures |s| <= limit
    ensures forall j | 0 <= j < |s| :: offset + j < |live| && s[j] == live[offset + j]
  {
    if offset >= |live| then []
    else if offset + limit <= |live| then live[offset..offset + limit]
    else live[offset..]
  }

  /**
   * Every live row is on exactly one page: the row at position `i` is entry
   * `i % limit` of page `i / limit + 1`, and that page is within `last_page`.
   */
  lemma {:induction false} RowOnItsPage(live: seq<Record>, limit: int, i: int)
    requires limit > 0 && 0 <= i < |live|
    ensures var p := i / limit + 1;
      && 1 <= p <= CeilDiv(|live|, limit)
      && Offset(p, limit) >= 0
      && i % limit < |PageSlice(live, Offset(p, limit), limit)|
      && PageSlice(live, Offset(p, limit), limit)[i % limit] == live[i]
  {
    var q, r := i / limit, i % limit;
    DivMod(i, limit);
    var off := q * limit;
    assert Offset(q + 1, limit) == off;
    PageWithin(q, limit, |live|);
    PageEntry(live, off, limit, r);
  }

  /** Division by a positive limit splits a position into page and entry. */
  lemma DivMod(i: nat, limit: int)
    requires limit > 0
    ensures i / limit >= 0 && 0 <= i % limit < limit && (i / limit) * limit + i % limit == i
  {
  }

  /** A page starting before the last row is within `last_page`. */
  lemma PageWithin(q: nat, limit: int, total: nat)
    requires limit > 0 && q * limit < total
    ensures q + 1 <= CeilDiv(total, limit)
  {
    FactorLess(q, CeilDiv(total, limit), limit);
  }

  /** Entry `r` of the page at offset `off` is row `off + r`, when that row exists. */
  lemma PageEntry(live: seq<Record>, off: nat, limit: nat, r: nat)
    requires r < limit && off + r < |live|
    ensures r < |PageSlice(live, off, limit)| && PageSlice(live, off, limit)[r] == live[off + r]
  {
  }

  /** `a * c < b * c` with `c` positive means `a < b`. */
  lemma FactorLess(a: int, b: int, c: int)
    requires c > 0 && a * c < b * c
    ensures a < b
  {
    if a >= b {
      MulMonotone(b, a, c);
    }
  }

  lemma MulMonotone(a: int, b: int, c: int)
    requires c > 0 && a <= b
    ensures a * c <= b * c
  {
    assert b * c - a * c == (b - a) * c;
  }

  /**
   * What `getAll` returns: the page of live rows at `(page - 1) * limit`,
   * the live total and `ceil(total / limit)`. A negative LIMIT or OFFSET is
   * an SQL error; a zero limit fails on the division after both queries ran.
   */
  function PageResult(rows: seq<Record>, page: int, limit: int, dbThrows: bool): (r: Result<Page, RepoError>)
    ensures dbThrows || limit < 0 || Offset(page, limit) < 0 ==> r == Err(Database)
    ensures !dbThrows && limit == 0 ==> r == Err(DivisionByZero)
    ensures r.Ok? ==>
      && limit > 0 && Offset(page, limit) >= 0
      && r.value.data == PageSlice(LiveRows(rows), Offset(page, limit), limit)
      && r.value.total == Seqs.Count(rows, IsLive)
      && r.value.page == page
      && r.value.lastPage * limit >= r.value.total
      && (r.value.lastPage == 0 || (r.value.lastPage - 1) * limit < r.value.total)
    ensures !dbThrows && limit > 0 && Offset(page, limit) >= 0 ==> r.Ok?
  {
    if dbThrows || limit < 0 || Offset(page, limit) < 0 then Err(Database)
    else if limit == 0 then Err(DivisionByZero)
    else
      Seqs.FilterLength(rows, IsLive);
      var live := LiveRows(rows);
      Ok(Page(PageSlice(live, Offset(page, limit), limit), |live|, page, CeilDiv(|live|, limit)))
  }

  /** Some live row has the id. */
  predicate AnyMatch(rows: seq<Record>, id: int)
  {
    exists i | 0 <= i < |rows| :: Matches(rows[i], id)
  }

  // ----- SQL text -----

  /** The value bound for one entry: `third_party_info` JSON-encoded, anything else as it is. */
  function Bound(kv: (string, Val), json: Val -> string): Val
  {
    if kv.0 == "third_party_info" then Str(json(kv.1)) else kv.1
  }

  function JsonBinder(json: Val -> string): ((string, Val)) -> Val
  {
    (kv: (string, Val)) => Bound(kv, json)
  }

  /** The parameters the SET loop binds: `third_party_info` JSON-encoded, other values as given. */
  function BoundParams(data: Pairs, json: Val -> string): (b: Pairs)
    ensures PairKeys(b) == PairKeys(data)
    ensures |b| == |data| && forall i | 0 <= i < |data| ::
      b[i].1 == if data[i].0 == "third_party_info" then Str(json(data[i].1)) else data[i].1
  {
    BindAll(data, JsonBinder(json))
  }

  lemma BoundParamsAppend(data: Pairs, kv: (string, Val), json: Val -> string)
    ensures BoundParams(data + [kv], json) ==
      BoundParams(data, json) + [(kv.0, Bound(kv, json))]
  {
    BindAllAppend(data, kv, JsonBinder(json));
  }

  /** The SET text after `rtrim`, with no keys and with column-name keys. */
  lemma UpdateText(data: Pairs)
    ensures |data| == 0 ==> RTrim(UpdateHead + " " + Assignments(PairKeys(data)), TrimChars) == UpdateHead
    ensures |data| > 0 && IsIdentifier(data[|data| - 1].0) ==>
      RTrim(UpdateHead + " " + Assignments(PairKeys(data)), TrimChars) == UpdateHead + " " + SetList(PairKeys(data))
  {
    if |data| == 0 {
      TrimmedNoAssignments(UpdateHead);
    } else if IsIdentifier(data[|data| - 1].0) {
      assert PairKeys(data)[|data| - 1] == data[|data| - 1].0;
      TrimmedAssignments(UpdateHead + " ", PairKeys(data));
    }
  }

  /** One turn of the SET loop: binding entry `i` and writing its assignment extend text and parameters by it. */
  lemma UpdateLoopStep(data: Pairs, i: int, json: Val -> string, head: string)
    requires UniqueKeys(data) && 0 <= i < |data|
    ensures UniqueKeys(BoundParams(data[..i], json))
    ensures Assign(BoundParams(data[..i], json), data[i].0, Bound(data[i], json)) == BoundParams(data[..i + 1], json)
    ensures head + Assignments(PairKeys(data[..i])) + (Assignment(data[i].0) + ", ") == head + Assignments(PairKeys(data[..i + 1]))
  {
    assert data[..i + 1] == data[..i] + [data[i]];
    BoundParamsAppend(data[..i], data[i], json);
    PrefixKeysFresh(data, i, BoundParams(data[..i], json));
    AssignmentsStep(head, data, i);
  }

  /**
   * The statement and parameters `update` prepares: the loop over `data`
   * appends `key = :key, ` and binds each value, `rtrim` drops the last
   * separator, the WHERE clause follows, and `id` is bound last (in place
   * when `data` already had an `id` entry).
   */
  method BuildUpdate(id: int, data: Pairs, json: Val -> string) returns (query: string, params: Pairs)
    requires UniqueKeys(data)
    ensures query == RTrim(UpdateHead + " " + Assignments(PairKeys(data)), TrimChars) + UpdateWhere
    ensures |data| == 0 ==> query == UpdateHead + UpdateWhere
    ensures |data| > 0 && IsIdentifier(data[|data| - 1].0) ==>
      query == UpdateHead + " " + SetList(PairKeys(data)) + UpdateWhere
    ensures UniqueKeys(BoundParams(data, json))
    ensures params == Assign(BoundParams(data, json), "id", Int(id))
  {
    query, params := SetLoop(data, json);
    query := RTrim(query, TrimChars);
    UpdateText(data);
    query := query + UpdateWhere;
    UniqueKeysSameKeys(data, params);
    params := Assign(params, "id", Int(id));
  }

  /** The `foreach` of `update`: `key = :key, ` per entry after the head, each value bound. */
  method SetLoop(data: Pairs, json: Val -> string) returns (query: string, params: Pairs)
    requires UniqueKeys(data)
    ensures query == UpdateHead + " " + Assignments(PairKeys(data))
    ensures params == BoundParams(data, json)
  {
    query := UpdateHead + " ";
    params := [];
    ghost var head := query;
    var i := 0;
    while i < |data|
      invariant 0 <= i <= |data|
      invariant query == head + Assignments(PairKeys(data[..i]))
      invariant params == BoundParams(data[..i], json)
    {
      var (key, value) := data[i];
      if key == "third_party_info" {
        value := Str(json(value));
      }
      UpdateLoopStep(data, i, json, head);
      params := Assign(params, key, value);
      query := query + (Assignment(key) + ", ");
      i := i + 1;
    }
    assert data[..i] == data;
  }

  /** The values the SET clause writes: the bound parameters of the data keys. */

  /** `if ($query)`: PHP truthiness of the query string, so "0" adds no LIKE clause. */
  function LikeParams(query: string): Pairs
  {
    if Truthy(Str(query)) then [(":query", Str("%" + query + "%"))] else []
  }

  /** The placeholder each filter binds: `:key`. */
  function Prefixed(filters: Pairs): (p: Pairs)
    ensures |p| == |filters|
    ensures forall i | 0 <= i < |p| :: p[i] == (":" + filters[i].0, filters[i].1)
  {
    if |filters| == 0 then [] else [(":" + filters[0].0, filters[0].1)] + Prefixed(filters[1..])
  }

  /** ` AND key = :key` for each filter key, in order. */
  function FilterClauses(keys: seq<string>): string
  {
    if |keys| == 0 then "" else FilterClauses(keys[..|keys| - 1]) + (" AND " + Assignment(keys[|keys| - 1]))
  }

  /** `$params[$k] = $v` for each entry in order, starting from `start`. */
  function AssignAll(start: Pairs, entries: Pairs): Pairs
    requires UniqueKeys(start)
    ensures UniqueKeys(AssignAll(start, entries))
    decreases |entries|
  {
    if |entries| == 0 then start else AssignAll(Assign(start, entries[0].0, entries[0].1), entries[1..])
  }

  lemma {:induction false} AssignAllAppend(start: Pairs, entries: Pairs, kv: (string, Val))
    requires UniqueKeys(start)
    ensures AssignAll(start, entries + [kv]) == Assign(AssignAll(start, entries), kv.0, kv.1)
    decreases |entries|
  {
    if |entries| == 0 {
      assert entries + [kv] == [kv];
    } else {
      assert (entries + [kv])[1..] == entries[1..] + [kv];
      AssignAllAppend(Assign(start, entries[0].0, entries[0].1), entries[1..], kv);
    }
  }

  /** Assigning keys the array does not hold yet appends them in order. */
  lemma {:induction false} AssignAllFresh(start: Pairs, entries: Pairs)
    requires UniqueKeys(start) && UniqueKeys(entries)
    requires forall j | 0 <= j < |entries| :: entries[j].0 !in PairKeys(start)
    ensures AssignAll(start, entries) == start + entries
    decreases |entries|
  {
    if |entries| > 0 {
      var init := entries[..|entries| - 1];
      var last := entries[|entries| - 1];
      assert entries == init + [last];
      FreshPrefix(start, entries, init);
      AssignAllFresh(start, init);
      AssignAllAppend(start, init, last);
      FreshLast(start, entries, init);
      assert start + init + [last] == start + entries;
    }
  }

  /** A prefix of fresh entries with distinct keys is again such a sequence. */
  lemma FreshPrefix(start: Pairs, entries: Pairs, init: Pairs)
    requires UniqueKeys(entries) && |entries| > 0 && init == entries[..|entries| - 1]
    requires forall j | 0 <= j < |entries| :: entries[j].0 !in PairKeys(start)
    ensures UniqueKeys(init)
    ensures forall j | 0 <= j < |init| :: init[j].0 !in PairKeys(start)
  {
    assert forall j | 0 <= j < |init| :: init[j] == entries[j];
  }

  /** The last entry's key is held neither by the array nor by the entries before it. */
  lemma FreshLast(start: Pairs, entries: Pairs, init: Pairs)
    requires UniqueKeys(entries) && |entries| > 0 && init == entries[..|entries| - 1]
    requires forall j | 0 <= j < |entries| :: entries[j].0 !in PairKeys(start)
    ensures entries[|entries| - 1].0 !in PairKeys(start + init)
  {
    var k := entries[|entries| - 1].0;
    var keys := PairKeys(start + init);
    forall i | 0 <= i < |keys|
      ensures keys[i] != k
    {
      if i < |start| {
        assert keys[i] == start[i].0 == PairKeys(start)[i];
      } else {
        assert keys[i] == init[i - |start|].0 == entries[i - |start|].0;
      }
    }
  }

  lemma PrefixedUnique(filters: Pairs)
    requires UniqueKeys(filters)
    ensures UniqueKeys(Prefixed(filters))
  {
    var p := Prefixed(filters);
    forall i, j | 0 <= i < j < |p|
      ensures p[i].0 != p[j].0
    {
      assert (":" + filters[i].0)[1..] == filters[i].0;
      assert (":" + filters[j].0)[1..] == filters[j].0;
    }
  }

  /**
   * The statement and parameters `search` prepares: the live-rows query,
   * the LIKE clause for a truthy query, then ` AND key = :key` per filter.
   * Without a filter named `query` the parameters are the LIKE pattern
   * followed by one `:key` per filter, in order.
   */
  method BuildSearch(query: string, filters: Pairs) returns (sql: string, params: Pairs)
    requires UniqueKeys(filters)
    ensures sql == SearchBase + (if Truthy(Str(query)) then SearchLike else "") + FilterClauses(PairKeys(filters))
    ensures params == AssignAll(LikeParams(query), Prefixed(filters))
    ensures "query" !in PairKeys(filters) ==> params == LikeParams(query) + Prefixed(filters)
  {
    sql := SearchBase;
    params := [];
    if Truthy(Str(query)) {
      sql := sql + SearchLike;
      params := Assign(params, ":query", Str("%" + query + "%"));
    }
    ghost var head := sql;
    assert head == SearchBase + (if Truthy(Str(query)) then SearchLike else "");
    var i := 0;
    while i < |filters|
      invariant 0 <= i <= |filters|
      invariant sql == head + FilterClauses(PairKeys(filters[..i]))
      invariant params == AssignAll(LikeParams(query), Prefixed(filters[..i]))
    {
      var (key, value) := filters[i];
      SearchLoopStep(query, filters, i);
      assert key == filters[i].0;
      ConcatAssoc(head, FilterClauses(PairKeys(filters[..i])), " AND " + Assignment(key));
      sql := sql + (" AND " + Assignment(key));
      params := Assign(params, ":" + key, value);
      i := i + 1;
    }
    assert filters[..i] == filters;
    if "query" !in PairKeys(filters) {
      SearchParamsFresh(query, filters);
    }
  }

  /** One turn of the filter loop: the clause text and the parameters grow by that filter. */
  lemma SearchLoopStep(query: string, filters: Pairs, i: int)
    requires 0 <= i < |filters|
    ensures FilterClauses(PairKeys(filters[..i + 1])) == FilterClauses(PairKeys(filters[..i])) + (" AND " + Assignment(filters[i].0))
    ensures AssignAll(LikeParams(query), Prefixed(filters[..i + 1])) ==
      Assign(AssignAll(LikeParams(query), Prefixed(filters[..i])), ":" + filters[i].0, filters[i].1)
  {
    assert filters[..i + 1] == filters[..i] + [filters[i]];
    var ks := PairKeys(filters[..i + 1]);
    assert ks[..i] == PairKeys(filters[..i]);
    assert Prefixed(filters[..i + 1]) == Prefixed(filters[..i]) + [(":" + filters[i].0, filters[i].1)];
    AssignAllAppend(LikeParams(query), Prefixed(filters[..i]), (":" + filters[i].0, filters[i].1));
  }

  /** Without a filter named `query`, every placeholder is new, so each is appended. */
  lemma SearchParamsFresh(query: string, filters: Pairs)
    requires UniqueKeys(filters) && "query" !in PairKeys(filters)
    ensures AssignAll(LikeParams(query), Prefixed(filters)) == LikeParams(query) + Prefixed(filters)
  {
    PrefixedUnique(filters);
    var like := LikeParams(query);
    var p := Prefixed(filters);
    forall j | 0 <= j < |p|
      ensures p[j].0 !in PairKeys(like)
    {
      assert PairKeys(filters)[j] == filters[j].0;
      assert (":" + filters[j].0)[1..] == filters[j].0;
      assert forall i | 0 <= i < |like| :: PairKeys(like)[i] == like[i].0 == ":query";
    }
    AssignAllFresh(like, p);
  }

  /** A filter named `query` takes over the `:query` placeholder the LIKE clause uses. */
  lemma QueryFilterOverridesPattern()
    ensures AssignAll(LikeParams("ann"), Prefixed([("query", Str("x"))])) == [(":query", Str("x"))]
  {
    assert ":" + "query" == ":query";
    assert Prefixed([("query", Str("x"))]) == [(":query", Str("x"))];
    assert Truthy(Str("ann"));
    assert "%" + "ann" + "%" == "%ann%";
    assert LikeParams("ann") == [(":query", Str("%ann%"))];
  }

  /**
   * The rows after `SET assignments WHERE id = :id AND deleted_at IS NULL`:
   * as many rows, in place; a row that does not match is untouched; a
   * matching row takes every assignment and keeps each column nobody
   * assigns (its id and `deleted_at` among them).
   */
  function SetWhere(rows: seq<Record>, id: int, assignments: Pairs): (t: seq<Record>)
    ensures |t| == |rows|
    ensures forall i | 0 <= i < |rows| && !Matches(rows[i], id) :: t[i] == rows[i]
    ensures forall i | 0 <= i < |rows| && Matches(rows[i], id) :: AssignedRow(rows[i], t[i], assignments)
  {
    OverlayAssignsAll(assignments);
    seq(|rows|, i requires 0 <= i < |rows| => if Matches(rows[i], id) then Overlay(rows[i], assignments) else rows[i])
  }

  /** MySQL's `rowCount() > 0` after such an UPDATE: some matching row took a new value. */
  predicate ChangesSome(rows: seq<Record>, id: int, assignments: Pairs)
  {
    exists i | 0 <= i < |rows| :: Matches(rows[i], id) && Overlay(rows[i], assignments) != rows[i]
  }

  /** The columns `create` binds; `third_party_info` JSON-encoded when set, otherwise null. */
  function InsertValues(data: Record, json: Val -> string): Record
  {
    map c | c in ["name", "email", "position", "department", "start_date", "salary", "status", "third_party_info"] ::
      if c == "third_party_info" then (if IsSet(data, c) then Str(json(data[c])) else Null) else Get(data, c)
  }

  class Repository {
    var rows: seq<Record>
    var nextId: nat

    constructor (rows0: seq<Record>, nextId0: nat)
      ensures rows == rows0 && nextId == nextId0
    {
      rows, nextId := rows0, nextId0;
    }

    /** `getAll` on the current rows. */
    method GetAll(page: int, limit: int, dbThrows: bool) returns (r: Result<Page, RepoError>)
      ensures r == PageResult(rows, page, limit, dbThrows)
    {
      var offset := (page - 1) * limit;
      if dbThrows || limit < 0 || offset < 0 {
        return Err(Database);
      }
      var live := LiveRows(rows);
      var total := |live|;
      if limit == 0 {
        return Err(DivisionByZero);
      }
      r := Ok(Page(PageSlice(live, offset, limit), total, page, CeilDiv(total, limit)));
    }

    /** `getById`: the first live row with the id, or null for an absent or soft-deleted id. */
    method GetById(id: int, dbThrows: bool) returns (r: Result<Option<Record>, RepoError>)
      ensures dbThrows ==> r == Err(Database)
      ensures !dbThrows && r.Ok? && r.value.Some? ==> r.value.value in rows && Matches(r.value.value, id)
      ensures !dbThrows ==> r.Ok? && (r.value.None? <==> !AnyMatch(rows, id))
    {
      if dbThrows {
        return Err(Database);
      }
      var i := 0;
      while i < |rows|
        invariant 0 <= i <= |rows|
        invariant forall j | 0 <= j < i :: !Matches(rows[j], id)
      {
        if Matches(rows[i], id) {
          return Ok(Some(rows[i]));
        }
        i := i + 1;
      }
      r := Ok(None);
    }

    /**
     * `create`: inserts the eight columns in a transaction and returns the
     * new id; the new row is the newest. A failure rolls back.
     */
    method Create(data: Record, json: Val -> string, dbThrows: bool) returns (r: Result<int, RepoError>)
      modifies this
      ensures dbThrows ==> r == Err(Database) && rows == old(rows) && nextId == old(nextId)
      ensures !dbThrows ==>
        && r == Ok(old(nextId))
        && rows == [InsertValues(data, json)["id" := Int(old(nextId))]["deleted_at" := Null]] + old(rows)
        && nextId == old(nextId) + 1
    {
      if dbThrows {
        return Err(Database);
      }
      var row := InsertValues(data, json)["id" := Int(nextId)]["deleted_at" := Null];
      rows := [row] + rows;
      r := Ok(nextId);
      nextId := nextId + 1;
    }

    /**
     * `update`: runs the statement `BuildUpdate` assembles in a transaction
     * and returns true only when it changed at least one live row with the
     * id. An empty `data` yields `SET WHERE`, which the database rejects,
     * and an `id` key in `data` names `:id` twice (`RepeatsMarker`), which
     * `execute` rejects; a failure rolls back.
     */
    method Update(id: int, data: Pairs, json: Val -> string, dbThrows: bool) returns (r: Result<bool, RepoError>)
      requires UniqueKeys(data)
      modifies this`rows
      ensures dbThrows || |data| == 0 || "id" in PairKeys(data) ==> r == Err(Database) && rows == old(rows)
      ensures !dbThrows && |data| > 0 && "id" !in PairKeys(data) ==>
        && r == Ok(ChangesSome(old(rows), id, BoundParams(data, json)))
        && rows == SetWhere(old(rows), id, BoundParams(data, json))
    {
      var query, params := BuildUpdate(id, data, json);
      UpdateMarkersRepeat(data);
      if dbThrows || |data| == 0 || RepeatsMarker(PairKeys(data) + ["id"]) {
        return Err(Database);
      }
      var assignments := params[..|data|];
      assert assignments == BoundParams(data, json);
      r := Ok(ChangesSome(rows, id, assignments));
      rows := SetWhere(rows, id, assignments);
    }

    /** `delete`: stamps `deleted_at` on the live rows with the id; true iff there was one. */
    method Delete(id: int, now: string, dbThrows: bool) returns (r: Result<bool, RepoError>)
      modifies this`rows
      ensures dbThrows ==> r == Err(Database) && rows == old(rows)
      ensures !dbThrows ==>
        && r == Ok(AnyMatch(old(rows), id))
        && rows == SetWhere(old(rows), id, [("deleted_at", Str(now))])
    {
      if dbThrows {
        return Err(Database);
      }
      var stamp := [("deleted_at", Str(now))];
      assert forall i | 0 <= i < |rows| && Matches(rows[i], id) :: Overlay(rows[i], stamp) != rows[i] by {
        forall i | 0 <= i < |rows| && Matches(rows[i], id)
          ensures Overlay(rows[i], stamp) != rows[i]
        {
          assert Overlay(rows[i], stamp) == Overlay(rows[i]["deleted_at" := Str(now)], []);
        }
      }
      r := Ok(ChangesSome(rows, id, stamp));
      rows := SetWhere(rows, id, stamp);
    }

    /** `updateThirdPartyInfo`: sets the encoded info on the live rows with the id; true iff one changed. */
    method UpdateThirdPartyInfo(id: int, info: Val, json: Val -> string, dbThrows: bool) returns (r: Result<bool, RepoError>)
      modifies this`rows
      ensures dbThrows ==> r == Err(Database) && rows == old(rows)
      ensures !dbThrows ==>
        && r == Ok(ChangesSome(old(rows), id, [("third_party_info", Str(json(info)))]))
        && rows == SetWhere(old(rows), id, [("third_party_info", Str(json(info)))])
    {
      if dbThrows {
        return Err(Database);
      }
      var assignment := [("third_party_info", Str(json(info)))];
      r := Ok(ChangesSome(rows, id, assignment));
      rows := SetWhere(rows, id, assignment);
    }
  }

  /** A soft-deleted row matches no later statement, so nothing it sets changes anything. */
  lemma NoLiveRowNoChange(rows: seq<Record>, id: int, assignments: Pairs)
    requires forall i | 0 <= i < |rows| :: !Matches(rows[i], id)
    ensures !ChangesSome(rows, id, assignments)
    ensures SetWhere(rows, id, assignments) == rows
  {
  }

  /** `updateThirdPartyInfo` touches no column but `third_party_info`, and no row but the matching live ones. */
  lemma {:induction false} ThirdPartyInfoOnly(rows: seq<Record>, id: int, v: Val, i: int, k: string)
    requires 0 <= i < |rows| && k in rows[i] && k != "third_party_info"
    ensures var t := SetWhere(rows, id, [("third_party_info", v)]);
      k in t[i] && t[i][k] == rows[i][k]
  {
    var p := [("third_party_info", v)];
    assert PairKeys(p) == ["third_party_info"];
  }

  /** Deleting the same id twice: the first call reports a change, the second does not. */
  method DeleteTwice(rows0: seq<Record>, id: int, now: string) returns (first: Result<bool, RepoError>, second: Result<bool, RepoError>)
    requires AnyMatch(rows0, id)
    ensures first == Ok(true) && second == Ok(false)
  {
    var repo := new Repository(rows0, 0);
    first := repo.Delete(id, now, false);
    ghost var after := repo.rows;
    forall i | 0 <= i < |after|
      ensures !Matches(after[i], id)
    {
      if Matches(rows0[i], id) {
        var stamp := [("deleted_at", Str(now))];
        assert after[i] == Overlay(rows0[i], stamp);
        assert Overlay(rows0[i], stamp) == Overlay(rows0[i]["deleted_at" := Str(now)], []);
      }
    }
    second := repo.Delete(id, now, false);
  }
}
