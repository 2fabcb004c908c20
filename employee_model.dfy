/**
 * The employee data-access class of the backend: a cache-aside layer over the
 * `employees` table. Reads look in the cache first and fill it on a miss;
 * writes go to the table and then delete precise cache keys.
 *
 * The cache is a map from key to entry (a miss is an absent key, a delete of
 * an absent key does nothing); expiry is recorded, and eviction by time is an
 * external step (`Evict`). The table is the sequence of rows in storage order.
 * A database error is the `dbThrows` parameter of the operation that meets it.
 */
module EmployeeModel {
  import opened Wrappers
  import opened Php
  import Seqs

  const CacheKeyAll := "employees:all"
  const CacheKeyEmployee := "employees:id:"
  const CacheKeyStats := "employees:stats:"
  const CacheKeyMetrics := "employees:metrics:"

  /** Expiry of list, row and most aggregate entries, in seconds. */
  const CacheExpiry := 3600
  /** Expiry of the total-count entry, in seconds. */
  const TotalCountExpiry := 1800

  const TotalKey := CacheKeyStats + "total"
  const WorkFormatKey := CacheKeyMetrics + "work_format"
  /** The keys the remaining aggregate readers use, none of which has a prefix above. */
  const NewHiresKey := "employees:new_hires"
  const ResignedKey := "employees:resigned"
  const GrowthKey := "employees:growth"
  const MonthlyAttendanceKey := "employees:monthly_attendance"

  /** The columns `create` inserts and `update` overwrites, in statement order. */
  const Columns := ["name", "email", "position", "department", "start_date", "salary", "status", "third_party_info"]

  /** The fields whose change makes the cached list stale. */
  const RelevantFields := ["name", "position", "department", "status"]

  function EmployeeKey(id: string): string
  {
    CacheKeyEmployee + id
  }

  /** The keys `clearStatsCache` deletes. */
  function StatsKeys(): set<string>
  {
    {CacheKeyStats + "total", CacheKeyStats + "new_hires", CacheKeyStats + "resigned"}
  }

  /** The keys `clearMetricsCache` deletes. */
  function MetricsKeys(): set<string>
  {
    {CacheKeyMetrics + "growth", CacheKeyMetrics + "monthly_attendance", CacheKeyMetrics + "work_format"}
  }

  /** A cached value: the row list, one row, the total count, or another aggregate. */
  datatype Cached = Rows(rows: seq<Record>) | Row(row: Record) | Count(n: int) | Aggregate(v: Val) | Series(points: seq<Record>)

  /** A cache entry with the expiry, in seconds, it was stored with. */
  datatype Entry = Entry(value: Cached, ttl: nat)

  type Cache = map<string, Entry>

  /** Each key this class writes holds the kind of value it writes there. */
  predicate WellShaped(cache: Cache)
  {
    && (CacheKeyAll in cache ==> cache[CacheKeyAll].value.Rows?)
    && (TotalKey in cache ==> cache[TotalKey].value.Count?)
    && (forall k | k in cache && StartsWith(k, CacheKeyEmployee) :: cache[k].value.Row?)
  }

  /** The auto-increment id of a row, when it has one. */
  function RowId(r: Record): Option<nat>
  {
    match Get(r, "id")
    case Int(n) => if n >= 0 then Some(n) else None
    case _ => None
  }

  /** Every row has an id below the next auto-increment value, and ids are distinct. */
  predicate TableValid(table: seq<Record>, nextId: nat)
  {
    && (forall i | 0 <= i < |table| :: RowId(table[i]).Some? && RowId(table[i]).value < nextId)
    && (forall i, j | 0 <= i < j < |table| :: RowId(table[i]) != RowId(table[j]))
  }

  /** `SELECT * ... WHERE id = :id` fetched once: the first row with that id. */
  function FindRow(table: seq<Record>, id: nat): (r: Option<Record>)
    ensures r.Some? ==> r.value in table && RowId(r.value) == Some(id)
    ensures r.None? ==> forall i | 0 <= i < |table| :: RowId(table[i]) != Some(id)
  {
    if |table| == 0 then None
    else if RowId(table[0]) == Some(id) then Some(table[0])
    else FindRow(table[1..], id)
  }

  /**
   * The values the INSERT and UPDATE statements bind: each column from the
   * request data (null when absent); `third_party_info` only when set.
   */
  function BoundColumns(data: Record): (b: Record)
    ensures b.Keys == set c | c in Columns
    ensures "id" !in b
  {
    map c | c in Columns :: if c == "third_party_info" then (if IsSet(data, c) then data[c] else Null) else Get(data, c)
  }

  /** `SELECT COUNT(*) ... WHERE status = 'active'`. */
  function ActiveCount(table: seq<Record>): nat
  {
    Seqs.Count(table, (r: Record) => Get(r, "status") == Str("active"))
  }

  /** At least one list-relevant field differs strictly (`!==`) between the two rows. */
  predicate RelevantChange(before: Record, after: Record)
  {
    exists f | f in RelevantFields :: Get(before, f) != Get(after, f)
  }

  /** The keys a successful `create` deletes: the list and the stats keys. */
  function CreateCleared(): set<string>
  {
    {CacheKeyAll} + StatsKeys()
  }

  /**
   * The keys a successful `update` of `id` deletes, given the row it compared
   * against: always the per-id key; the list key on a relevant change; the
   * stats and metrics keys when the status changed.
   */
  function UpdateCleared(id: string, current: Record, data: Record): set<string>
  {
    {EmployeeKey(id)}
    + (if RelevantChange(current, data) then {CacheKeyAll} else {})
    + (if Get(current, "status") != Get(data, "status") then StatsKeys() + MetricsKeys() else {})
  }

  /** The row `getById` hands back: the cached one on a hit, else the one fetched, if any. */
  function SeenRow(cache: Cache, table: seq<Record>, id: string, dbThrows: bool): Option<Record>
    requires WellShaped(cache) && IsDigits(id)
  {
    var key := EmployeeKey(id);
    if key in cache then
      assert StartsWith(key, CacheKeyEmployee);
      Some(cache[key].value.row)
    else if dbThrows then None
    else FindRow(table, DigitsValue(id))
  }

  /** The cache `getById` leaves behind: on a miss, a row it finds is stored for an hour. */
  function SeenCache(cache: Cache, table: seq<Record>, id: string, dbThrows: bool): Cache
    requires WellShaped(cache) && IsDigits(id)
  {
    var key := EmployeeKey(id);
    var found := FindRow(table, DigitsValue(id));
    if key !in cache && !dbThrows && found.Some? then cache[key := Entry(Row(found.value), CacheExpiry)] else cache
  }

  /** What `update` reads out of the row it compared against; a missing row reads as nulls. */
  function RecordOrEmpty(r: Option<Record>): Record
  {
    if r.Some? then r.value else map[]
  }

  /** The table after `UPDATE ... SET <columns> WHERE id = :id`. */
  function UpdatedTable(table: seq<Record>, id: nat, data: Record): (t: seq<Record>)
    ensures |t| == |table|
    ensures forall i | 0 <= i < |table| :: RowId(t[i]) == RowId(table[i])
  {
    seq(|table|, i requires 0 <= i < |table| =>
      if RowId(table[i]) == Some(id) then table[i] + BoundColumns(data) else table[i])
  }

  // ----- Which keys the write paths delete -----

  /** A per-id key is never one of the list, stats or metrics keys. */
  lemma {:induction false} RowKeyIsNotShared(k: string)
    requires StartsWith(k, CacheKeyEmployee)
    ensures k != CacheKeyAll && k !in StatsKeys() && k !in MetricsKeys()
  {
    assert k[10] == 'i';
    assert CacheKeyAll[10] == 'a';
    assert forall s | s in StatsKeys() :: s[10] == 's';
    assert forall m | m in MetricsKeys() :: m[10] == 'm';
  }

  /** `create` deletes the list and stats keys and spares every per-id and metrics key. */
  lemma {:induction false} CreateSparesRowAndMetricsKeys(k: string)
    requires StartsWith(k, CacheKeyEmployee) || k in MetricsKeys()
    ensures k !in CreateCleared()
  {
    if StartsWith(k, CacheKeyEmployee) {
      RowKeyIsNotShared(k);
    } else {
      assert k[10] == 'm';
      assert forall s | s in CreateCleared() :: s[10] != 'm';
    }
  }

  /**
   * What `update` deletes, key by key: the per-id key always; the list key
   * exactly when a list-relevant field changed; each stats and metrics key
   * exactly when the status changed; nothing else.
   */
  lemma {:induction false} UpdateClearedExactly(id: string, current: Record, data: Record)
    ensures EmployeeKey(id) in UpdateCleared(id, current, data)
    ensures CacheKeyAll in UpdateCleared(id, current, data) <==> RelevantChange(current, data)
    ensures forall k | k in StatsKeys() + MetricsKeys() ::
      k in UpdateCleared(id, current, data) <==> Get(current, "status") != Get(data, "status")
    ensures forall k | k in UpdateCleared(id, current, data) ::
      k == EmployeeKey(id) || k == CacheKeyAll || k in StatsKeys() || k in MetricsKeys()
  {
    var key := EmployeeKey(id);
    assert StartsWith(key, CacheKeyEmployee);
    RowKeyIsNotShared(key);
    assert CacheKeyAll !in StatsKeys() + MetricsKeys() by {
      assert |CacheKeyAll| == 13;
      assert forall s | s in StatsKeys() + MetricsKeys() :: |s| > 13;
    }
  }

  /** Changes confined to email, start date, salary or third-party info keep the cached list. */
  lemma {:induction false} IrrelevantUpdateKeepsList(id: string, current: Record, data: Record)
    requires forall f | f in RelevantFields :: Get(current, f) == Get(data, f)
    ensures CacheKeyAll !in UpdateCleared(id, current, data)
    ensures forall k | k in UpdateCleared(id, current, data) :: k == EmployeeKey(id)
  {
    UpdateClearedExactly(id, current, data);
    assert Get(current, "status") == Get(data, "status") by {
      assert RelevantFields[3] == "status";
    }
  }

  /**
   * The keys the new-hires, resigned, growth and monthly-attendance readers
   * fill are deleted by no write path: not by `create`, not by any `update`.
   */
  lemma {:induction false} AggregateKeysNeverCleared(k: string, id: string, current: Record, data: Record)
    requires k in {NewHiresKey, ResignedKey, GrowthKey, MonthlyAttendanceKey}
    ensures k !in CreateCleared()
    ensures k !in UpdateCleared(id, current, data)
  {
    UpdateClearedExactly(id, current, data);
    AggregateKeyNotRowKey(k, id);
    AggregateKeyNotShared(k);
  }

  lemma AggregateKeyNotRowKey(k: string, id: string)
    requires k in {NewHiresKey, ResignedKey, GrowthKey, MonthlyAttendanceKey}
    ensures k != EmployeeKey(id)
  {
    assert k[10] != 'i';
    if |k| >= |CacheKeyEmployee| {
      assert EmployeeKey(id)[10] == 'i';
    }
  }

  lemma AggregateKeyNotShared(k: string)
    requires k in {NewHiresKey, ResignedKey, GrowthKey, MonthlyAttendanceKey}
    ensures k != CacheKeyAll && k !in StatsKeys() && k !in MetricsKeys()
  {
    assert k[10] in {'n', 'r', 'g', 'm'};
    assert k[10] == 'm' ==> k == MonthlyAttendanceKey;
    assert CacheKeyAll[10] == 'a';
    assert forall s | s in StatsKeys() :: s[10] == 's';
    assert k !in MetricsKeys() by {
      assert forall m | m in MetricsKeys() :: m[11] == 'e';
      assert MonthlyAttendanceKey[11] == 'o';
    }
  }

  /**
   * The route accepts any digit string, and the row is looked up by its
   * numeric value but the key is built from its text: updating employee "7"
   * leaves a row cached under "07" in place although both name the same row.
   */
  lemma {:induction false} AliasRowKeySurvivesUpdate(id: string, current: Record, data: Record)
    requires IsDigits(id)
    ensures IsDigits("0" + id) && DigitsValue("0" + id) == DigitsValue(id)
    ensures EmployeeKey("0" + id) !in UpdateCleared(id, current, data)
  {
    DigitsValueLeadingZero(id);
    UpdateClearedExactly(id, current, data);
    var alias := EmployeeKey("0" + id);
    assert StartsWith(alias, CacheKeyEmployee);
    RowKeyIsNotShared(alias);
    assert |alias| != |EmployeeKey(id)|;
  }

  /** Appending a row adds one to the active count exactly when the row is active. */
  lemma ActiveCountAppend(table: seq<Record>, row: Record)
    ensures ActiveCount(table + [row]) == ActiveCount(table) + (if Get(row, "status") == Str("active") then 1 else 0)
  {
    Seqs.CountAppend(table, row, (r: Record) => Get(r, "status") == Str("active"));
  }

  /**
   * `hasRelevantChanges`: walks the relevant fields in order and stops at the
   * first one that differs.
   */
  method HasRelevantChanges(before: Record, after: Record) returns (changed: bool)
    ensures changed <==> RelevantChange(before, after)
  {
    var i := 0;
    while i < |RelevantFields|
      invariant 0 <= i <= |RelevantFields|
      invariant forall j | 0 <= j < i :: Get(before, RelevantFields[j]) == Get(after, RelevantFields[j])
    {
      if Get(before, RelevantFields[i]) != Get(after, RelevantFields[i]) {
        return true;
      }
      i := i + 1;
    }
    return false;
  }

  class Employee {
    var cache: Cache
    var table: seq<Record>
    var nextId: nat

    ghost predicate Valid()
      reads this
    {
      TableValid(table, nextId) && WellShaped(cache)
    }

    /** Attaches to an existing table and cache. */
    constructor (cache0: Cache, table0: seq<Record>, nextId0: nat)
      requires TableValid(table0, nextId0) && WellShaped(cache0)
      ensures Valid()
      ensures cache == cache0 && table == table0 && nextId == nextId0
    {
      cache, table, nextId := cache0, table0, nextId0;
    }

    /** An entry reaching its expiry: the cache forgets it. */
    method Evict(key: string)
      requires Valid()
      modifies this`cache
      ensures Valid()
      ensures cache == old(cache) - {key}
    {
      cache := cache - {key};
    }

    /** `clearListCache`. */
    method ClearListCache()
      requires Valid()
      modifies this`cache
      ensures Valid()
      ensures cache == old(cache) - {CacheKeyAll}
    {
      cache := cache - {CacheKeyAll};
    }

    /** `clearStatsCache`: the three `employees:stats:` keys, one at a time. */
    method ClearStatsCache()
      requires Valid()
      modifies this`cache
      ensures Valid()
      ensures cache == old(cache) - StatsKeys()
    {
      cache := cache - {CacheKeyStats + "total"};
      cache := cache - {CacheKeyStats + "new_hires"};
      cache := cache - {CacheKeyStats + "resigned"};
    }

    /** `clearMetricsCache`: the three `employees:metrics:` keys, one at a time. */
    method ClearMetricsCache()
      requires Valid()
      modifies this`cache
      ensures Valid()
      ensures cache == old(cache) - MetricsKeys()
    {
      cache := cache - {CacheKeyMetrics + "growth"};
      cache := cache - {CacheKeyMetrics + "monthly_attendance"};
      cache := cache - {CacheKeyMetrics + "work_format"};
    }

    /**
     * `getAll`: a cached list is returned as it is; on a miss the whole table
     * is read and stored for an hour. A database error gives the empty list.
     */
    method GetAll(dbThrows: bool) returns (rows: seq<Record>)
      requires Valid()
      modifies this`cache
      ensures Valid()
      ensures CacheKeyAll in old(cache) ==> rows == old(cache)[CacheKeyAll].value.rows && cache == old(cache)
      ensures CacheKeyAll !in old(cache) && dbThrows ==> rows == [] && cache == old(cache)
      ensures CacheKeyAll !in old(cache) && !dbThrows ==>
        rows == table && cache == old(cache)[CacheKeyAll := Entry(Rows(table), CacheExpiry)]
    {
      if CacheKeyAll in cache {
        return cache[CacheKeyAll].value.rows;
      }
      if dbThrows {
        return [];
      }
      rows := table;
      cache := cache[CacheKeyAll := Entry(Rows(rows), CacheExpiry)];
      assert StartsWith(CacheKeyAll, CacheKeyEmployee) == false by {
        assert CacheKeyAll[10] != CacheKeyEmployee[10];
      }
    }

    /**
     * `getById`: a cached row is returned as it is; on a miss the row is
     * fetched and cached only when found. `None` is PHP's false (no row) or
     * null (database error).
     */
    method GetById(id: string, dbThrows: bool) returns (r: Option<Record>)
      requires Valid() && IsDigits(id)
      modifies this`cache
      ensures Valid()
      ensures r == SeenRow(old(cache), table, id, dbThrows)
      ensures EmployeeKey(id) in old(cache) || dbThrows || r.None? ==> cache == old(cache)
      ensures EmployeeKey(id) !in old(cache) && !dbThrows && r.Some? ==>
        r == FindRow(table, DigitsValue(id)) && cache == old(cache)[EmployeeKey(id) := Entry(Row(r.value), CacheExpiry)]
    {
      var key := EmployeeKey(id);
      if key in cache {
        assert StartsWith(key, CacheKeyEmployee);
        return Some(cache[key].value.row);
      }
      if dbThrows {
        return None;
      }
      r := FindRow(table, DigitsValue(id));
      if r.Some? {
        cache := cache[key := Entry(Row(r.value), CacheExpiry)];
        assert StartsWith(key, CacheKeyEmployee);
        assert key != CacheKeyAll by { assert key[10] != CacheKeyAll[10]; }
        assert key != TotalKey by { assert key[10] != TotalKey[10]; }
      }
    }

    /**
     * `create`: inserts a row with the next id. On success it deletes the list
     * key and the stats keys and nothing else; when the insert throws, nothing
     * in the cache changes and the error is "Failed to create employee".
     */
    method Create(data: Record, dbThrows: bool) returns (r: Result<bool, string>)
      requires Valid()
      modifies this
      ensures Valid()
      ensures dbThrows ==>
        r == Err("Failed to create employee") && cache == old(cache) && table == old(table) && nextId == old(nextId)
      ensures !dbThrows ==>
        && r == Ok(true)
        && table == old(table) + [map["id" := Int(old(nextId))] + BoundColumns(data)]
        && nextId == old(nextId) + 1
        && cache == old(cache) - CreateCleared()
    {
      if dbThrows {
        return Err("Failed to create employee");
      }
      var row := map["id" := Int(nextId)] + BoundColumns(data);
      assert RowId(row) == Some(nextId);
      table := table + [row];
      nextId := nextId + 1;
      ClearListCache();
      ClearStatsCache();
      r := Ok(true);
    }

    /**
     * `update`: reads the current row through `getById` (so possibly from the
     * cache, and filling it), overwrites all eight columns, then deletes the
     * per-id key, the list key when a relevant field changed, and the stats
     * and metrics keys when the status changed. The UPDATE succeeds even when
     * no row has the id. When it throws, the error is "Failed to update
     * employee" and the cache is as `getById` left it.
     */
    method Update(id: string, data: Record, readThrows: bool, dbThrows: bool) returns (r: Result<bool, string>)
      requires Valid() && IsDigits(id)
      modifies this
      ensures Valid()
      ensures nextId == old(nextId)
      ensures dbThrows ==> r == Err("Failed to update employee") && table == old(table)
      ensures dbThrows ==> cache == SeenCache(old(cache), old(table), id, readThrows)
      ensures !dbThrows ==>
        && r == Ok(true)
        && table == UpdatedTable(old(table), DigitsValue(id), data)
        && cache == old(cache) - UpdateCleared(id, RecordOrEmpty(SeenRow(old(cache), old(table), id, readThrows)), data)
    {
      var found := GetById(id, readThrows);
      var current := RecordOrEmpty(found);
      if dbThrows {
        return Err("Failed to update employee");
      }
      table := UpdatedTable(table, DigitsValue(id), data);
      if found.Some? && EmployeeKey(id) !in old(cache) && !readThrows {
        ghost var filled := old(cache)[EmployeeKey(id) := Entry(Row(found.value), CacheExpiry)];
        assert filled - UpdateCleared(id, current, data) == old(cache) - UpdateCleared(id, current, data);
      }
      ClearAfterUpdate(id, current, data);
      r := Ok(true);
    }

    /** The deletions `update` performs once the UPDATE statement has run. */
    method ClearAfterUpdate(id: string, current: Record, data: Record)
      requires Valid()
      modifies this`cache
      ensures Valid()
      ensures cache == old(cache) - UpdateCleared(id, current, data)
    {
      ghost var before := cache;
      ghost var list := if RelevantChange(current, data) then {CacheKeyAll} else {};
      ghost var status := if Get(current, "status") != Get(data, "status") then StatsKeys() + MetricsKeys() else {};
      cache := cache - {EmployeeKey(id)};
      var relevant := HasRelevantChanges(current, data);
      if relevant {
        ClearListCache();
      }
      assert cache == before - ({EmployeeKey(id)} + list);
      if Get(current, "status") != Get(data, "status") {
        ClearStatsCache();
        ClearMetricsCache();
      }
      assert cache == before - ({EmployeeKey(id)} + list + status);
    }

    /**
     * `getTotalCount`: the cached count, or the number of active rows, cached
     * for 30 minutes. A database error gives 0.
     */
    method GetTotalCount(dbThrows: bool) returns (n: int)
      requires Valid()
      modifies this`cache
      ensures Valid()
      ensures TotalKey in old(cache) ==> n == old(cache)[TotalKey].value.n && cache == old(cache)
      ensures TotalKey !in old(cache) && dbThrows ==> n == 0 && cache == old(cache)
      ensures TotalKey !in old(cache) && !dbThrows ==>
        n == ActiveCount(table) && cache == old(cache)[TotalKey := Entry(Count(n), TotalCountExpiry)]
    {
      if TotalKey in cache {
        return cache[TotalKey].value.n;
      }
      if dbThrows {
        return 0;
      }
      n := ActiveCount(table);
      cache := cache[TotalKey := Entry(Count(n), TotalCountExpiry)];
      assert !StartsWith(TotalKey, CacheKeyEmployee) by { assert TotalKey[10] != CacheKeyEmployee[10]; }
    }

    /**
     * The read-through every date-dependent aggregate reader shares: the
     * cached value under `key`, or `computed` (the result of its SQL query,
     * which this model does not interpret) stored for an hour.
     */
    method ReadThrough(key: string, computed: Cached) returns (v: Cached)
      requires Valid()
      requires !StartsWith(key, CacheKeyEmployee) && key != CacheKeyAll && key != TotalKey
      modifies this`cache
      ensures Valid()
      ensures key in old(cache) ==> v == old(cache)[key].value && cache == old(cache)
      ensures key !in old(cache) ==> v == computed && cache == old(cache)[key := Entry(computed, CacheExpiry)]
    {
      if key in cache {
        return cache[key].value;
      }
      v := computed;
      cache := cache[key := Entry(computed, CacheExpiry)];
    }

    /** `getNewHiresCount`: read-through on `employees:new_hires`; a database error is raised. */
    method GetNewHiresCount(count: Val, dbThrows: bool) returns (r: Result<Cached, string>)
      requires Valid()
      modifies this`cache
      ensures Valid()
      ensures NewHiresKey in old(cache) ==> r == Ok(old(cache)[NewHiresKey].value) && cache == old(cache)
      ensures NewHiresKey !in old(cache) && dbThrows ==> r == Err("Failed to get new hires count") && cache == old(cache)
      ensures NewHiresKey !in old(cache) && !dbThrows ==>
        r == Ok(Aggregate(count)) && cache == old(cache)[NewHiresKey := Entry(Aggregate(count), CacheExpiry)]
    {
      if NewHiresKey !in cache && dbThrows {
        return Err("Failed to get new hires count");
      }
      assert !StartsWith(NewHiresKey, CacheKeyEmployee) by { assert NewHiresKey[10] != CacheKeyEmployee[10]; }
      var v := ReadThrough(NewHiresKey, Aggregate(count));
      r := Ok(v);
    }

    /** `getResignedCount`: read-through on `employees:resigned`; a database error is raised. */
    method GetResignedCount(count: Val, dbThrows: bool) returns (r: Result<Cached, string>)
      requires Valid()
      modifies this`cache
      ensures Valid()
      ensures ResignedKey in old(cache) ==> r == Ok(old(cache)[ResignedKey].value) && cache == old(cache)
      ensures ResignedKey !in old(cache) && dbThrows ==> r == Err("Failed to get resigned count") && cache == old(cache)
      ensures ResignedKey !in old(cache) && !dbThrows ==>
        r == Ok(Aggregate(count)) && cache == old(cache)[ResignedKey := Entry(Aggregate(count), CacheExpiry)]
    {
      if ResignedKey !in cache && dbThrows {
        return Err("Failed to get resigned count");
      }
      assert !StartsWith(ResignedKey, CacheKeyEmployee) by { assert ResignedKey[10] != CacheKeyEmployee[10]; }
      var v := ReadThrough(ResignedKey, Aggregate(count));
      r := Ok(v);
    }

    /**
     * `calculateGrowth`: read-through on `employees:growth`. On a miss it first
     * reads the total count (itself a read-through, whose own error gives 0
     * and stores nothing), then runs the previous-total query, and stores
     * `percent` (the rounded growth the source computes in floating point)
     * when the previous total is positive, and 0 otherwise. When that second
     * query throws, the total the first read stored stays cached.
     */
    method CalculateGrowth(prevTotal: int, percent: Val, totalThrows: bool, growthThrows: bool)
      returns (r: Result<Cached, string>)
      requires Valid()
      modifies this`cache
      ensures Valid()
      ensures GrowthKey in old(cache) ==> r == Ok(old(cache)[GrowthKey].value) && cache == old(cache)
      ensures GrowthKey !in old(cache) ==>
        var counted := if TotalKey in old(cache) || totalThrows then old(cache)
                       else old(cache)[TotalKey := Entry(Count(ActiveCount(table)), TotalCountExpiry)];
        var g := Aggregate(if prevTotal > 0 then percent else Int(0));
        && (growthThrows ==> r == Err("Failed to calculate growth") && cache == counted)
        && (!growthThrows ==> r == Ok(g) && cache == counted[GrowthKey := Entry(g, CacheExpiry)])
    {
      if GrowthKey in cache {
        return Ok(cache[GrowthKey].value);
      }
      var current := GetTotalCount(totalThrows);
      if growthThrows {
        return Err("Failed to calculate growth");
      }
      var g := Aggregate(if prevTotal > 0 then percent else Int(0));
      assert !StartsWith(GrowthKey, CacheKeyEmployee) by { assert GrowthKey[10] != CacheKeyEmployee[10]; }
      var v := ReadThrough(GrowthKey, g);
      r := Ok(v);
    }

    /** `getMonthlyAttendance`: read-through on `employees:monthly_attendance`; a database error is raised. */
    method GetMonthlyAttendance(points: seq<Record>, dbThrows: bool) returns (r: Result<Cached, string>)
      requires Valid()
      modifies this`cache
      ensures Valid()
      ensures MonthlyAttendanceKey in old(cache) ==> r == Ok(old(cache)[MonthlyAttendanceKey].value) && cache == old(cache)
      ensures MonthlyAttendanceKey !in old(cache) && dbThrows ==> r == Err("Failed to get monthly attendance") && cache == old(cache)
      ensures MonthlyAttendanceKey !in old(cache) && !dbThrows ==>
        r == Ok(Series(points)) && cache == old(cache)[MonthlyAttendanceKey := Entry(Series(points), CacheExpiry)]
    {
      if MonthlyAttendanceKey !in cache && dbThrows {
        return Err("Failed to get monthly attendance");
      }
      assert !StartsWith(MonthlyAttendanceKey, CacheKeyEmployee) by {
        assert MonthlyAttendanceKey[10] != CacheKeyEmployee[10];
      }
      var v := ReadThrough(MonthlyAttendanceKey, Series(points));
      r := Ok(v);
    }

    /** `getWorkFormatDistribution`: read-through on `employees:metrics:work_format`; a database error gives []. */
    method GetWorkFormatDistribution(points: seq<Record>, dbThrows: bool) returns (v: Cached)
      requires Valid()
      modifies this`cache
      ensures Valid()
      ensures WorkFormatKey in old(cache) ==> v == old(cache)[WorkFormatKey].value && cache == old(cache)
      ensures WorkFormatKey !in old(cache) && dbThrows ==> v == Series([]) && cache == old(cache)
      ensures WorkFormatKey !in old(cache) && !dbThrows ==>
        v == Series(points) && cache == old(cache)[WorkFormatKey := Entry(Series(points), CacheExpiry)]
    {
      if WorkFormatKey !in cache && dbThrows {
        return Series([]);
      }
      assert !StartsWith(WorkFormatKey, CacheKeyEmployee) by { assert WorkFormatKey[10] != CacheKeyEmployee[10]; }
      v := ReadThrough(WorkFormatKey, Series(points));
    }
  }

  /**
   * A new employee becomes visible in the total count at once, because
   * `create` deletes `employees:stats:total`, whatever the cache held.
   */
  method CreateThenTotal(cache0: Cache, table0: seq<Record>, nextId0: nat, data: Record) returns (n: int)
    requires TableValid(table0, nextId0) && WellShaped(cache0)
    ensures n == ActiveCount(table0) + (if Get(data, "status") == Str("active") then 1 else 0)
  {
    var e := new Employee(cache0, table0, nextId0);
    var created := e.Create(data, false);
    var row := map["id" := Int(nextId0)] + BoundColumns(data);
    ActiveCountAppend(table0, row);
    assert Get(row, "status") == Get(data, "status");
    assert TotalKey !in e.cache;
    n := e.GetTotalCount(false);
  }

  /**
   * The new-hires count, once cached, survives a `create`: the reader
   * returns the value cached before the insert whatever the fresh count is.
   */
  method StaleNewHiresAfterCreate(cache0: Cache, table0: seq<Record>, nextId0: nat, data: Record, count: Val)
    returns (r: Result<Cached, string>)
    requires TableValid(table0, nextId0) && WellShaped(cache0) && NewHiresKey in cache0
    ensures r == Ok(cache0[NewHiresKey].value)
  {
    var e := new Employee(cache0, table0, nextId0);
    var created := e.Create(data, false);
    AggregateKeysNeverCleared(NewHiresKey, "", map[], map[]);
    r := e.GetNewHiresCount(count, false);
  }
}
