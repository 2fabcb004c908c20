/**
 * The user data-access class. Its cache goes through `RedisClient`, which
 * connects once, records whether it succeeded, and never throws: with Redis
 * down every cache call answers null or false without touching the cache,
 * and an error inside a cache call is swallowed the same way. With Redis up,
 * a key phpredis does not hold reads back as `false`, which `getById` hands
 * back as it is (`$cached !== null`) without querying the table. `update`
 * writes the row, drops the cached copy and reads the row again.
 *
 * A failing cache call is the `fails` parameter of that call; a failing
 * statement is `dbThrows`; `password_hash` is the `hash` parameter.
 */
module UserModel {
  import opened Wrappers
  import opened Php
  import opened SqlText

  const CacheExpiry := 3600
  const CacheKeyUser := "users:id:"

  const UpdateHead := "UPDATE users SET"
  const UpdateWhere := " WHERE id = :id"

  /** The columns `getById` selects; the password hash is not among them. */
  const PublicColumns := ["id", "username", "email", "role", "employee_id", "created_at", "updated_at"]

  datatype Entry = Entry(row: Record, ttl: int)

  function UserKey(id: int): string
  {
    CacheKeyUser + IntToString(id)
  }

  /** `$expiry ?: $this->cacheExpiry`: a missing or zero expiry means an hour. */
  function Ttl(expiry: Option<int>): (t: int)
    ensures expiry.None? || expiry.value == 0 ==> t == CacheExpiry
    ensures expiry.Some? && expiry.value != 0 ==> t == expiry.value
  {
    if expiry.Some? && expiry.value != 0 then expiry.value else CacheExpiry
  }

  /** A row as `SELECT id, username, email, role, employee_id, created_at, updated_at` returns it. */
  function PublicView(row: Record): (v: Record)
    ensures forall c | c in v :: c in PublicColumns && c in row && v[c] == row[c]
    ensures forall c | c in PublicColumns && c in row :: c in v
  {
    map c | c in row && c in PublicColumns :: row[c]
  }

  /** The first row whose id is `id`, projected to the public columns. */
  function FindUser(users: seq<Record>, id: int): (r: Option<Record>)
    ensures r.None? <==> forall i | 0 <= i < |users| :: Get(users[i], "id") != Int(id)
  {
    if |users| == 0 then None
    else if Get(users[0], "id") == Int(id) then Some(PublicView(users[0]))
    else FindUser(users[1..], id)
  }

  /** `WHERE username = :username OR email = :email` matches some row; SQL's `= NULL` matches nothing. */
  predicate Duplicate(users: seq<Record>, data: Record)
  {
    exists i | 0 <= i < |users| ::
      || (Get(data, "username") != Null && Get(users[i], "username") == Get(data, "username"))
      || (Get(data, "email") != Null && Get(users[i], "email") == Get(data, "email"))
  }

  /** The value bound for one entry: the password hashed, anything else as it is. */
  function Bound(kv: (string, Val), hash: Val -> Val): Val
  {
    if kv.0 == "password" then hash(kv.1) else kv.1
  }

  function HashBinder(hash: Val -> Val): ((string, Val)) -> Val
  {
    (kv: (string, Val)) => Bound(kv, hash)
  }

  /** The parameters the SET loop binds: a `password` value replaced by its hash. */
  function HashedParams(data: Pairs, hash: Val -> Val): (b: Pairs)
    ensures PairKeys(b) == PairKeys(data)
    ensures |b| == |data| && forall i | 0 <= i < |data| ::
      b[i].1 == if data[i].0 == "password" then hash(data[i].1) else data[i].1
  {
    BindAll(data, HashBinder(hash))
  }

  lemma HashedParamsAppend(data: Pairs, kv: (string, Val), hash: Val -> Val)
    ensures HashedParams(data + [kv], hash) ==
      HashedParams(data, hash) + [(kv.0, Bound(kv, hash))]
  {
    BindAllAppend(data, kv, HashBinder(hash));
  }

  /** One turn of the SET loop: binding entry `i` and writing its assignment extend text and parameters by it. */
  lemma UpdateLoopStep(data: Pairs, i: int, hash: Val -> Val, head: string)
    requires UniqueKeys(data) && 0 <= i < |data|
    ensures UniqueKeys(HashedParams(data[..i], hash))
    ensures Assign(HashedParams(data[..i], hash), data[i].0, Bound(data[i], hash)) == HashedParams(data[..i + 1], hash)
    ensures head + Assignments(PairKeys(data[..i])) + (Assignment(data[i].0) + ", ") == head + Assignments(PairKeys(data[..i + 1]))
  {
    assert data[..i + 1] == data[..i] + [data[i]];
    HashedParamsAppend(data[..i], data[i], hash);
    PrefixKeysFresh(data, i, HashedParams(data[..i], hash));
    AssignmentsStep(head, data, i);
  }

  /** The SET text after `rtrim`, with no keys and with column-name keys. */
  lemma UpdateText(data: Pairs)
    ensures |data| == 0 ==> RTrim(UpdateHead + " " + Assignments(PairKeys(data)), TrimChars) == UpdateHead
    ensures |data| > 0 && IsIdentifier(data[|data| - 1].0) ==>
      RTrim(UpdateHead + " " + Assignments(PairKeys(data)), TrimChars) == UpdateHead + " " + SetList(PairKeys(data))
  {
    if |data| == 0 {
      TrimmedNoAssignments(UpdateHead);
    } else if IsIdentifier(data[|data| - 1].0) {
      assert PairKeys(data)[|data| - 1] == data[|data| - 1].0;
      TrimmedAssignments(UpdateHead + " ", PairKeys(data));
    }
  }

  /**
   * The statement and parameters `update` prepares: `key = :key` for every
   * key of `data` in order, the password hashed, then ` WHERE id = :id`
   * and `id` bound last.
   */
  method BuildUpdate(id: int, data: Pairs, hash: Val -> Val) returns (query: string, params: Pairs)
    requires UniqueKeys(data)
    ensures query == RTrim(UpdateHead + " " + Assignments(PairKeys(data)), TrimChars) + UpdateWhere
    ensures |data| == 0 ==> query == UpdateHead + UpdateWhere
    ensures |data| > 0 && IsIdentifier(data[|data| - 1].0) ==>
      query == UpdateHead + " " + SetList(PairKeys(data)) + UpdateWhere
    ensures UniqueKeys(HashedParams(data, hash))
    ensures params == Assign(HashedParams(data, hash), "id", Int(id))
  {
    query, params := SetLoop(data, hash);
    query := RTrim(query, TrimChars);
    UpdateText(data);
    query := query + UpdateWhere;
    UniqueKeysSameKeys(data, params);
    params := Assign(params, "id", Int(id));
  }

  /** The `foreach` of `update`: `key = :key, ` per entry after the head, each value bound. */
  method SetLoop(data: Pairs, hash: Val -> Val) returns (query: string, params: Pairs)
    requires UniqueKeys(data)
    ensures query == UpdateHead + " " + Assignments(PairKeys(data))
    ensures params == HashedParams(data, hash)
  {
    query := UpdateHead + " ";
    params := [];
    ghost var head := query;
    var i := 0;
    while i < |data|
      invariant 0 <= i <= |data|
      invariant query == head + Assignments(PairKeys(data[..i]))
      invariant params == HashedParams(data[..i], hash)
    {
      var (key, value) := data[i];
      if key == "password" {
        value := hash(value);
      }
      UpdateLoopStep(data, i, hash, head);
      params := Assign(params, key, value);
      query := query + (Assignment(key) + ", ");
      i := i + 1;
    }
    assert data[..i] == data;
  }

  /**
   * The users table after `UPDATE users SET ... WHERE id = :id`: as many
   * rows, in place; a row with another id is untouched; the row with the id
   * takes every assignment and keeps each column nobody assigns.
   */
  function SetWhere(users: seq<Record>, id: int, assignments: Pairs): (t: seq<Record>)
    ensures |t| == |users|
    ensures forall i | 0 <= i < |users| && Get(users[i], "id") != Int(id) :: t[i] == users[i]
    ensures forall i | 0 <= i < |users| && Get(users[i], "id") == Int(id) :: AssignedRow(users[i], t[i], assignments)
  {
    OverlayAssignsAll(assignments);
    seq(|users|, i requires 0 <= i < |users| =>
      if Get(users[i], "id") == Int(id) then Overlay(users[i], assignments) else users[i])
  }

  /** Every row has an integer id below the next auto-increment value. */
  predicate IdsBelow(users: seq<Record>, nextId: nat)
  {
    forall i | 0 <= i < |users| :: Get(users[i], "id").Int? && Get(users[i], "id").i < nextId
  }

  /** The row the INSERT of `create` writes: the five columns from `data`, the password hashed, under `id`. */
  function NewRow(id: int, data: Record, hash: Val -> Val): (row: Record)
    ensures Get(row, "id") == Int(id)
  {
    map["id" := Int(id), "username" := Get(data, "username"), "email" := Get(data, "email"),
        "password" := hash(Get(data, "password")), "role" := Get(data, "role"),
        "employee_id" := Get(data, "employee_id")]
  }

  /**
   * What `getById` answers and the cache it leaves. `Ok(None)` is PHP's
   * false: no row, or, with Redis up, a key phpredis does not hold.
   */
  datatype Read = Read(answer: Result<Option<Record>, string>, cache: map<string, Entry>)

  /**
   * `getById` over the given cache and table. With Redis up and the get
   * going through, the answer is whatever the cache holds, `false` on a
   * miss, and the table is never read. Only a null from the cache (Redis
   * down, or the get failed) leads to the query; a row it finds is cached
   * for an hour when Redis is up and the set goes through.
   */
  function ReadThrough(connected: bool, getFails: bool, setFails: bool, dbThrows: bool,
                       cache: map<string, Entry>, users: seq<Record>, id: int): (rd: Read)
    ensures connected && !getFails && UserKey(id) !in cache ==> rd == Read(Ok(None), cache)
    ensures !connected ==>
      rd == Read(if dbThrows then Err("Failed to get user") else Ok(FindUser(users, id)), cache)
    ensures rd.answer.Err? ==> rd.answer == Err("Failed to get user") && dbThrows
    ensures forall k | k in cache && k != UserKey(id) :: k in rd.cache && rd.cache[k] == cache[k]
    ensures rd.cache.Keys <= cache.Keys + {UserKey(id)}
    ensures UserKey(id) in rd.cache && UserKey(id) !in cache ==>
      FindUser(users, id).Some? && rd.cache[UserKey(id)] == Entry(FindUser(users, id).value, CacheExpiry)
    ensures rd.answer.Ok? && rd.answer.value.Some? ==>
      || (UserKey(id) in cache && rd.answer.value.value == cache[UserKey(id)].row)
      || rd.answer.value == FindUser(users, id)
  {
    var key := UserKey(id);
    if connected && !getFails then
      Read(Ok(if key in cache then Some(cache[key].row) else None), cache)
    else if dbThrows then
      Read(Err("Failed to get user"), cache)
    else
      var user := FindUser(users, id);
      Read(Ok(user), if user.Some? && connected && !setFails then cache[key := Entry(user.value, CacheExpiry)] else cache)
  }

  /** The cache once `update` has asked Redis to drop `users:id:<id>`. */
  function Dropped(connected: bool, delFails: bool, cache: map<string, Entry>, id: int): (c: map<string, Entry>)
    ensures UserKey(id) !in c <==> (connected && !delFails) || UserKey(id) !in cache
    ensures forall k | k != UserKey(id) :: (k in c <==> k in cache) && (k in c ==> c[k] == cache[k])
  {
    if connected && !delFails then cache - {UserKey(id)} else cache
  }

  class User {
    var cache: map<string, Entry>
    var users: seq<Record>
    var nextId: nat
    /** `RedisClient::$isConnected`, fixed when the client first connects. */
    var connected: bool

    /**
     * `RedisClient::getInstance` never throws: three failed attempts leave
     * the client disconnected, so the model's only start-up choice is
     * whether Redis answered.
     */
    constructor (connected: bool, cache0: map<string, Entry>, users0: seq<Record>, nextId0: nat)
      requires IdsBelow(users0, nextId0)
      ensures IdsBelow(users, nextId)
      ensures this.connected == connected
      ensures cache == cache0 && users == users0 && nextId == nextId0
    {
      this.connected := connected;
      cache, users, nextId := cache0, users0, nextId0;
    }

    /**
     * `getFromCache`: null (`None`) when Redis is down or the get fails;
     * otherwise phpredis's answer, the stored row or `false` (`Some(None)`).
     */
    method GetFromCache(key: string, fails: bool) returns (v: Option<Option<Record>>)
      ensures !connected || fails ==> v == None
      ensures connected && !fails ==> v == Some(if key in cache then Some(cache[key].row) else None)
    {
      if !connected {
        return None;
      }
      if fails {
        return None;
      }
      v := Some(if key in cache then Some(cache[key].row) else None);
    }

    /** `setInCache`: false and no write when Redis is down or the call fails. */
    method SetInCache(key: string, value: Record, expiry: Option<int>, fails: bool) returns (ok: bool)
      modifies this`cache
      ensures !connected || fails ==> !ok && cache == old(cache)
      ensures connected && !fails ==> ok && cache == old(cache)[key := Entry(value, Ttl(expiry))]
    {
      if !connected {
        return false;
      }
      if fails {
        return false;
      }
      cache := cache[key := Entry(value, Ttl(expiry))];
      ok := true;
    }

    /** `deleteFromCache`: false and no delete when Redis is down or the call fails; otherwise the count deleted. */
    method DeleteFromCache(key: string, fails: bool) returns (r: Val)
      modifies this`cache
      ensures !connected || fails ==> r == Bool(false) && cache == old(cache)
      ensures connected && !fails ==> r == Int(if key in old(cache) then 1 else 0) && cache == old(cache) - {key}
    {
      if !connected {
        return Bool(false);
      }
      if fails {
        return Bool(false);
      }
      r := Int(if key in cache then 1 else 0);
      cache := cache - {key};
    }

    /**
     * `getById`: whatever the cache answers unless it answers null;
     * otherwise the row's public columns are fetched and, when found,
     * cached for an hour. A failing query raises "Failed to get user".
     */
    method GetById(id: int, getFails: bool, setFails: bool, dbThrows: bool) returns (r: Result<Option<Record>, string>)
      modifies this`cache
      ensures Read(r, cache) == ReadThrough(connected, getFails, setFails, dbThrows, old(cache), users, id)
    {
      var key := UserKey(id);
      var cached := GetFromCache(key, getFails);
      if cached.Some? {
        return Ok(cached.value);
      }
      if dbThrows {
        return Err("Failed to get user");
      }
      var user := FindUser(users, id);
      if user.Some? {
        var stored := SetInCache(key, user.value, None, setFails);
      }
      r := Ok(user);
    }

    /**
     * `create`: rejects a username or email already taken before inserting;
     * otherwise inserts with the hashed password and returns `getById` of
     * the new id, which `readThrows` makes fail. A failing check or INSERT
     * raises "Failed to create user".
     */
    method Create(data: Record, hash: Val -> Val, dbThrows: bool, getFails: bool, setFails: bool, readThrows: bool)
      returns (r: Result<Option<Record>, string>)
      requires IdsBelow(users, nextId)
      modifies this
      ensures IdsBelow(users, nextId)
      ensures connected == old(connected)
      ensures dbThrows ==>
        r == Err("Failed to create user") && users == old(users) && nextId == old(nextId) && cache == old(cache)
      ensures !dbThrows && Duplicate(old(users), data) ==>
        r == Err("Username or email already exists") && users == old(users) && nextId == old(nextId) && cache == old(cache)
      ensures !dbThrows && !Duplicate(old(users), data) ==>
        && users == old(users) + [NewRow(old(nextId), data, hash)]
        && nextId == old(nextId) + 1
        && FindUser(users, old(nextId)) == Some(PublicView(NewRow(old(nextId), data, hash)))
        && Read(r, cache) == ReadThrough(connected, getFails, setFails, readThrows, old(cache), users, old(nextId))
    {
      if dbThrows {
        return Err("Failed to create user");
      }
      if Duplicate(users, data) {
        return Err("Username or email already exists");
      }
      var id := nextId;
      Insert(NewRow(id, data, hash));
      r := GetById(id, getFails, setFails, readThrows);
    }

    /** The INSERT: the row goes last, under the next id, and is found by it. */
    method Insert(row: Record)
      requires IdsBelow(users, nextId) && Get(row, "id") == Int(nextId)
      modifies this`users, this`nextId
      ensures IdsBelow(users, nextId)
      ensures users == old(users) + [row] && nextId == old(nextId) + 1
      ensures FindUser(users, old(nextId)) == Some(PublicView(row))
    {
      NewestFound(users, row, nextId);
      users := users + [row];
      nextId := nextId + 1;
    }

    /**
     * `update`: runs the statement `BuildUpdate` assembles, drops
     * `users:id:<id>`, and returns a fresh `getById`, which `readThrows`
     * makes fail. An empty `data` gives `SET WHERE`, which the database
     * rejects, and an `id` key in `data` names `:id` twice (`RepeatsMarker`),
     * which `execute` rejects.
     */
    method Update(id: int, data: Pairs, hash: Val -> Val, dbThrows: bool, delFails: bool, getFails: bool, setFails: bool,
                  readThrows: bool)
      returns (r: Result<Option<Record>, string>)
      requires UniqueKeys(data) && IdsBelow(users, nextId)
      modifies this`cache, this`users
      ensures IdsBelow(users, nextId)
      ensures dbThrows || |data| == 0 || "id" in PairKeys(data) ==>
        r == Err("Failed to update user") && users == old(users) && cache == old(cache)
      ensures !dbThrows && |data| > 0 && "id" !in PairKeys(data) ==>
        && users == SetWhere(old(users), id, HashedParams(data, hash))
        && Read(r, cache) ==
           ReadThrough(connected, getFails, setFails, readThrows, Dropped(connected, delFails, old(cache), id), users, id)
    {
      var query, params := BuildUpdate(id, data, hash);
      UpdateMarkersRepeat(data);
      if dbThrows || |data| == 0 || RepeatsMarker(PairKeys(data) + ["id"]) {
        return Err("Failed to update user");
      }
      assert params[..|data|] == HashedParams(data, hash);
      r := ApplyUpdate(id, params[..|data|], delFails, getFails, setFails, readThrows);
    }

    /** The executed UPDATE, the cache drop and the fresh `getById` that close `update`. */
    method ApplyUpdate(id: int, assignments: Pairs, delFails: bool, getFails: bool, setFails: bool, readThrows: bool)
      returns (r: Result<Option<Record>, string>)
      requires IdsBelow(users, nextId)
      requires "id" !in PairKeys(assignments)
      modifies this`cache, this`users
      ensures IdsBelow(users, nextId)
      ensures users == SetWhere(old(users), id, assignments)
      ensures Read(r, cache) ==
        ReadThrough(connected, getFails, setFails, readThrows, Dropped(connected, delFails, old(cache), id), users, id)
    {
      SetWhereKeepsIds(users, nextId, id, assignments);
      users := SetWhere(users, id, assignments);
      var dropped := DeleteFromCache(UserKey(id), delFails);
      r := GetById(id, getFails, setFails, readThrows);
    }
  }

  /** An UPDATE that assigns no `id` column keeps every row's id. */
  lemma SetWhereKeepsIds(users: seq<Record>, nextId: nat, id: int, assignments: Pairs)
    requires IdsBelow(users, nextId)
    requires "id" !in PairKeys(assignments)
    ensures IdsBelow(SetWhere(users, id, assignments), nextId)
  {
    var t := SetWhere(users, id, assignments);
    assert forall i | 0 <= i < |assignments| :: assignments[i].0 == PairKeys(assignments)[i];
    forall i | 0 <= i < |users|
      ensures Get(t[i], "id") == Get(users[i], "id")
    {
      if Get(users[i], "id") == Int(id) {
        OverlayKeeps(users[i], assignments, "id", Int(id));
      }
    }
  }

  /** The row just appended is the one `getById` finds for its id when no earlier row has it. */
  lemma {:induction false} NewestFound(users: seq<Record>, row: Record, id: int)
    requires Get(row, "id") == Int(id)
    requires forall i | 0 <= i < |users| :: Get(users[i], "id") != Int(id)
    ensures FindUser(users + [row], id) == Some(PublicView(row))
    decreases |users|
  {
    if |users| == 0 {
      assert users + [row] == [row];
    } else {
      assert (users + [row])[1..] == users[1..] + [row];
      NewestFound(users[1..], row, id);
    }
  }

  /** A row `getById` has answered is answered again by the next read while Redis is up. */
  lemma ReadIsStable(getFails: bool, setFails: bool, dbThrows: bool, cache: map<string, Entry>,
                     users: seq<Record>, id: int, next: Read)
    requires next == ReadThrough(true, getFails, setFails, dbThrows, cache, users, id)
    requires next.answer.Ok? && next.answer.value.Some? && !setFails
    ensures ReadThrough(true, false, false, false, next.cache, users, id) == next
  {
  }

  /** With Redis down, reading a user is the table lookup, and the cache is left alone. */
  method ReadWhileDisconnected(users0: seq<Record>, nextId0: nat, id: int, cache0: map<string, Entry>,
                               getFails: bool, setFails: bool)
    returns (r: Result<Option<Record>, string>, cache: map<string, Entry>)
    requires IdsBelow(users0, nextId0)
    ensures r == Ok(FindUser(users0, id)) && cache == cache0
  {
    var u := new User(false, cache0, users0, nextId0);
    r := u.GetById(id, getFails, setFails, false);
    cache := u.cache;
  }

  /**
   * With Redis up and no cache call failing, `create` answers false even
   * though the row was inserted and is found by its id, unless its key was
   * already cached.
   */
  method CreateWhileConnected(users0: seq<Record>, nextId0: nat, cache0: map<string, Entry>, data: Record, hash: Val -> Val)
    returns (r: Result<Option<Record>, string>, users: seq<Record>)
    requires IdsBelow(users0, nextId0) && !Duplicate(users0, data) && UserKey(nextId0) !in cache0
    ensures r == Ok(None)
    ensures FindUser(users, nextId0) == Some(PublicView(NewRow(nextId0, data, hash)))
  {
    var u := new User(true, cache0, users0, nextId0);
    r := u.Create(data, hash, false, false, false, false);
    users := u.users;
  }

  /**
   * With Redis up and no cache call failing, a successful `update` always
   * answers false: it has just dropped the key the read then misses.
   */
  method UpdateWhileConnected(users0: seq<Record>, nextId0: nat, cache0: map<string, Entry>, id: int, data: Pairs,
                              hash: Val -> Val, readThrows: bool)
    returns (r: Result<Option<Record>, string>)
    requires IdsBelow(users0, nextId0) && UniqueKeys(data) && |data| > 0 && "id" !in PairKeys(data)
    ensures r == Ok(None)
  {
    var u := new User(true, cache0, users0, nextId0);
    r := u.Update(id, data, hash, false, false, false, false, readThrows);
  }

  /**
   * When the drop fails, `update` hands back the row cached before the
   * statement ran, whatever the statement wrote.
   */
  method StaleAfterFailedDrop(users0: seq<Record>, nextId0: nat, cache0: map<string, Entry>, id: int, data: Pairs,
                              hash: Val -> Val)
    returns (r: Result<Option<Record>, string>)
    requires IdsBelow(users0, nextId0) && UniqueKeys(data) && |data| > 0 && "id" !in PairKeys(data) && UserKey(id) in cache0
    ensures r == Ok(Some(cache0[UserKey(id)].row))
  {
    var u := new User(true, cache0, users0, nextId0);
    r := u.Update(id, data, hash, false, true, false, false, false);
  }
}
