/**
 * The API front controller: the CORS origin gate, the preflight short-cut,
 * the path normalisation chain and the route switch.
 */
module ApiRouter {
  import opened Wrappers
  import opened Php

  const DefaultFrontendUrl := "http://localhost:3000"
  const BasePath := "/api"
  const EmployeesPath := "/employees"
  const TasksPath := "/tasks"

  /** `getenv('FRONTEND_URL') ?: default`: an unset, empty or "0" variable falls back. */
  function FrontendUrl(env: Option<string>): (u: string)
    ensures u != ""
    ensures env.Some? && Truthy(Str(env.value)) ==> u == env.value
    ensures env.None? || !Truthy(Str(env.value)) ==> u == DefaultFrontendUrl
  {
    if env.Some? && Truthy(Str(env.value)) then env.value else DefaultFrontendUrl
  }

  function AllowedOrigins(env: Option<string>): seq<string>
  {
    [FrontendUrl(env), "http://localhost:3000", "http://127.0.0.1:3000",
     "http://localhost:5173", "http://127.0.0.1:5173"]
  }

  /** The Origin header, or '' when the request has none. */
  function RequestOrigin(header: Option<string>): string
  {
    if header.Some? then header.value else ""
  }

  predicate CorsAllowed(origin: string, env: Option<string>)
  {
    origin in AllowedOrigins(env)
  }

  /** The six CORS headers sent for an allowed origin. */
  function CorsHeaders(origin: string): map<string, string>
  {
    map["Access-Control-Allow-Origin" := origin,
        "Access-Control-Allow-Credentials" := "true",
        "Access-Control-Allow-Methods" := "GET, POST, PUT, DELETE, OPTIONS, PATCH",
        "Access-Control-Allow-Headers" := "Content-Type, Authorization, X-Requested-With, X-CSRF-TOKEN",
        "Access-Control-Expose-Headers" := "Content-Length, X-JSON",
        "Access-Control-Max-Age" := "86400"]
  }

  /**
   * `str_replace($search, '', $s)`: every occurrence found scanning left to
   * right is removed; the text left behind is not scanned again.
   */
  function RemoveAll(s: string, pat: string): (r: string)
    requires |pat| > 0
    ensures |r| <= |s|
    decreases |s|
  {
    if |s| == 0 then []
    else if StartsWith(s, pat) then RemoveAll(s[|pat|..], pat)
    else [s[0]] + RemoveAll(s[1..], pat)
  }

  /** `parse_url($path, PHP_URL_PATH)` for a path: the text before the first '?' or '#'. */
  function PathPart(s: string): (r: string)
    ensures |r| <= |s| && r == s[..|r|]
    ensures forall i | 0 <= i < |r| :: r[i] != '?' && r[i] != '#'
    ensures |r| < |s| ==> s[|r|] == '?' || s[|r|] == '#'
  {
    if |s| == 0 || s[0] == '?' || s[0] == '#' then [] else [s[0]] + PathPart(s[1..])
  }

  function NormalisedPath(uri: string): string
  {
    RTrim(PathPart(RemoveAll(uri, BasePath)), {'/'})
  }

  datatype Handler = Employees | Tasks

  datatype Body =
    | NoBody
    | Dispatched(handler: Handler)
    | NotFound(path: string, verb: string)
    | ServerError(error: string)

  datatype Response = Response(status: int, headers: map<string, string>, body: Body)

  datatype Request = Request(
    verb: string,
    uri: string,
    origin: Option<string>,
    requestMethod: Option<string>,
    requestHeaders: Option<string>)

  /** The route switch on the normalised path. */
  function Route(path: string, verb: string): (b: Body)
    ensures b == Dispatched(Employees) <==> path == EmployeesPath || path == "employees"
    ensures b == Dispatched(Tasks) <==> path == TasksPath || path == "tasks"
    ensures b.Dispatched? || b == NotFound(path, verb)
  {
    if path == EmployeesPath || path == "employees" then Dispatched(Employees)
    else if path == TasksPath || path == "tasks" then Dispatched(Tasks)
    else NotFound(path, verb)
  }

  /** The headers set before the method is looked at. */
  function BaseHeaders(req: Request, env: Option<string>): map<string, string>
  {
    var origin := RequestOrigin(req.origin);
    var cors := if CorsAllowed(origin, env) then CorsHeaders(origin) else map[];
    cors["Content-Type" := "application/json; charset=UTF-8"]
  }

  /**
   * One request through the front controller. `handlerError` is the message
   * of an exception that escapes the dispatched handler, if any; `header()`
   * replaces an earlier header of the same name.
   */
  function Serve(req: Request, env: Option<string>, handlerError: Option<string>): (r: Response)
    ensures var origin := RequestOrigin(req.origin);
      && ("Access-Control-Allow-Origin" in r.headers <==> CorsAllowed(origin, env))
      && (CorsAllowed(origin, env) ==> r.headers["Access-Control-Allow-Origin"] == origin)
    ensures "Content-Type" in r.headers
    ensures req.verb == "OPTIONS" <==> r.status == 204
    ensures req.verb == "OPTIONS" ==> r.body == NoBody
    ensures req.verb != "OPTIONS" ==>
      var path := NormalisedPath(req.uri);
      var routed := Route(path, req.verb);
      && (routed.NotFound? ==> r == Response(404, BaseHeaders(req, env), routed))
      && (routed.Dispatched? && handlerError.Some? ==> r.status == 500 && r.body == ServerError(handlerError.value))
      && (routed.Dispatched? && handlerError.None? ==> r.body == routed)
  {
    var base := BaseHeaders(req, env);
    if req.verb == "OPTIONS" then
      var h1 := if req.requestMethod.Some? then base["Access-Control-Allow-Methods" := "GET, POST, PUT, DELETE, OPTIONS, PATCH"] else base;
      var h2 := if req.requestHeaders.Some? then h1["Access-Control-Allow-Headers" := req.requestHeaders.value] else h1;
      Response(204, h2, NoBody)
    else
      var routed := Route(NormalisedPath(req.uri), req.verb);
      if routed.NotFound? then Response(404, base, routed)
      else if handlerError.Some? then Response(500, base, ServerError(handlerError.value))
      else Response(200, base, routed)
  }

  // ---------------------------------------------------------------------
  // Properties
  // ---------------------------------------------------------------------

  /** A preflight is answered without looking at the path. */
  lemma PreflightIgnoresPath(req: Request, uri: string, env: Option<string>, e1: Option<string>, e2: Option<string>)
    requires req.verb == "OPTIONS"
    ensures Serve(req, env, e1) == Serve(req.(uri := uri), env, e2)
  {
  }

  /** A request without an Origin header never gets CORS headers, whatever FRONTEND_URL is. */
  lemma NoOriginNoCors(req: Request, env: Option<string>, e: Option<string>)
    requires req.origin.None?
    ensures "Access-Control-Allow-Origin" !in Serve(req, env, e).headers
  {
  }

  /** Removing a leading occurrence, then carrying on with the rest. */
  lemma RemoveAllLeading(t: string, pat: string)
    requires |pat| > 0
    ensures RemoveAll(pat + t, pat) == RemoveAll(t, pat)
  {
    assert (pat + t)[|pat|..] == t;
  }

  /** Text without a '/' passes through `str_replace('/api', ...)` unchanged. */
  lemma {:induction false} RemoveAllPlain(a: string, t: string)
    requires '/' !in a
    ensures RemoveAll(a + t, BasePath) == a + RemoveAll(t, BasePath)
    decreases |a|
  {
    if |a| > 0 {
      var s := a + t;
      assert s[0] == a[0] != '/';
      assert !StartsWith(s, BasePath);
      assert s[1..] == a[1..] + t;
      RemoveAllPlain(a[1..], t);
      assert [a[0]] + a[1..] == a;
    } else {
      assert a + t == t;
    }
  }

  /** A '/' not followed by 'a' is kept. */
  lemma RemoveAllSlash(t: string)
    requires |t| > 0 && t[0] != 'a'
    ensures RemoveAll("/" + t, BasePath) == "/" + RemoveAll(t, BasePath)
  {
    var s := "/" + t;
    assert s[0] == '/' && s[1..] == t && s[1] == t[0];
    assert !StartsWith(s, BasePath) by {
      if |BasePath| <= |s| && s[..|BasePath|] == BasePath {
        assert s[1] == BasePath[1];
      }
    }
  }

  lemma {:induction false} PathPartStops(a: string, c: char, t: string)
    requires '?' !in a && '#' !in a
    requires c == '?' || c == '#'
    ensures PathPart(a + [c] + t) == a
    decreases |a|
  {
    if |a| > 0 {
      assert (a + [c] + t)[1..] == a[1..] + [c] + t;
      PathPartStops(a[1..], c, t);
      assert [a[0]] + a[1..] == a;
    }
  }

  lemma {:induction false} PathPartWhole(a: string)
    requires '?' !in a && '#' !in a
    ensures PathPart(a) == a
    decreases |a|
  {
    if |a| > 0 {
      PathPartWhole(a[1..]);
      assert [a[0]] + a[1..] == a;
    }
  }

  /** `/api/<word><rest>` loses its base path and keeps `/<word>` as it is. */
  lemma StripBase(word: string, t: string)
    requires |word| > 0 && word[0] != 'a' && '/' !in word
    ensures RemoveAll(BasePath + ("/" + (word + t)), BasePath) == "/" + (word + RemoveAll(t, BasePath))
  {
    RemoveAllLeading("/" + (word + t), BasePath);
    RemoveAllSlash(word + t);
    RemoveAllPlain(word, t);
  }

  /** A character other than '/' is kept. */
  lemma RemoveAllOther(c: char, t: string)
    requires c != '/'
    ensures RemoveAll([c] + t, BasePath) == [c] + RemoveAll(t, BasePath)
  {
    var s := [c] + t;
    assert s[0] == c && s[1..] == t;
    assert !StartsWith(s, BasePath) by {
      if |BasePath| <= |s| {
        assert s[..|BasePath|][0] == c != BasePath[0];
      }
    }
  }

  /** `/api/employees?<query>` reaches the employees handler, whatever the query. */
  lemma EmployeesListWithQuery(query: string, verb: string)
    ensures Route(NormalisedPath(BasePath + EmployeesPath + "?" + query), verb) == Dispatched(Employees)
  {
    var tail := RemoveAll(query, BasePath);
    EmployeesQueryStripped(query);
    PathPartStops(EmployeesPath, '?', tail);
    RTrimDropsSuffix(EmployeesPath, [], {'/'});
    assert EmployeesPath + [] == EmployeesPath;
  }

  /** Removing the base path from `/api/employees?<query>` keeps the '?' in place. */
  lemma EmployeesQueryStripped(query: string)
    ensures RemoveAll(BasePath + EmployeesPath + "?" + query, BasePath) == EmployeesPath + ['?'] + RemoveAll(query, BasePath)
  {
    var word := "employees";
    var q := ['?'] + query;
    var tail := RemoveAll(query, BasePath);
    QueryPathShape(query, tail);
    StripBase(word, q);
    RemoveAllOther('?', query);
  }

  lemma QueryPathShape(query: string, tail: string)
    ensures BasePath + EmployeesPath + "?" + query == BasePath + ("/" + ("employees" + (['?'] + query)))
    ensures "/" + ("employees" + (['?'] + tail)) == EmployeesPath + ['?'] + tail
  {
  }

  /** Digits carry no '/', '?' or '#'. */
  lemma DigitsPlain(id: string)
    requires IsDigits(id)
    ensures '/' !in id && '?' !in id && '#' !in id
    ensures |id| > 0 ==> id[0] != 'a' && id[|id| - 1] != '/'
  {
    forall i | 0 <= i < |id| ensures id[i] != '/' && id[i] != '?' && id[i] != '#' && id[i] != 'a' {
      assert IsDigit(id[i]);
    }
  }

  /** `/api/<word>/<digits>` loses only its base path. */
  lemma SegmentPathRemoved(word: string, id: string)
    requires |word| > 0 && word[0] != 'a' && '/' !in word
    requires |id| > 0 && IsDigits(id)
    ensures RemoveAll(BasePath + "/" + word + "/" + id, BasePath) == "/" + word + "/" + id
  {
    var t := "/" + id;
    SlashDigitsKept(id);
    StripBase(word, t);
    SegmentPathShape(word, id);
  }

  lemma SegmentPathShape(word: string, id: string)
    ensures BasePath + "/" + word + "/" + id == BasePath + ("/" + (word + ("/" + id)))
    ensures "/" + (word + ("/" + id)) == "/" + word + "/" + id
  {
  }

  /** `/<digits>` contains no `/api`. */
  lemma SlashDigitsKept(id: string)
    requires |id| > 0 && IsDigits(id)
    ensures RemoveAll("/" + id, BasePath) == "/" + id
  {
    DigitsPlain(id);
    assert RemoveAll(id, BasePath) == id by {
      RemoveAllPlain(id, []);
      assert id + [] == id;
    }
    RemoveAllSlash(id);
  }

  lemma EmployeeIdPathRemoved(uri: string, id: string)
    requires |id| > 0 && IsDigits(id)
    requires uri == BasePath + EmployeesPath + "/" + id
    ensures RemoveAll(uri, BasePath) == EmployeesPath + "/" + id
  {
    var word := "employees";
    SegmentPathRemoved(word, id);
    assert "/" + word == EmployeesPath;
    assert BasePath + EmployeesPath == BasePath + "/" + word;
    assert uri == BasePath + "/" + word + "/" + id;
  }

  lemma EmployeeIdPathNormalised(uri: string, id: string)
    requires |id| > 0 && IsDigits(id)
    requires uri == BasePath + EmployeesPath + "/" + id
    ensures NormalisedPath(uri) == EmployeesPath + "/" + id
  {
    DigitsPlain(id);
    EmployeeIdPathRemoved(uri, id);
    var path := EmployeesPath + "/" + id;
    assert '?' !in path && '#' !in path by {
      forall i | 0 <= i < |path| ensures path[i] != '?' && path[i] != '#' {
        if i >= 11 { assert path[i] == id[i - 11]; }
      }
    }
    PathPartWhole(path);
    assert path[|path| - 1] == id[|id| - 1];
    RTrimDropsSuffix(path, [], {'/'});
    assert path + [] == path;
  }

  /**
   * `/api/employees/<digits>` is not a route of the front controller: it is
   * answered 404, so the id branches of the employees handler are not
   * reached through it.
   */
  lemma EmployeeIdPathNotRouted(uri: string, id: string, verb: string)
    requires |id| > 0 && IsDigits(id)
    requires uri == BasePath + EmployeesPath + "/" + id
    ensures Route(NormalisedPath(uri), verb) == NotFound(EmployeesPath + "/" + id, verb)
  {
    EmployeeIdPathNormalised(uri, id);
    var path := EmployeesPath + "/" + id;
    assert path != EmployeesPath && path != "employees" && path != TasksPath && path != "tasks" by {
      assert |path| > |EmployeesPath|;
      assert path[0] == '/' && path[1] == 'e';
    }
  }

  /** Trailing slashes are stripped before routing: `/api/tasks/` and `/api/tasks//` reach the tasks handler. */
  lemma TasksWithTrailingSlashes(slashes: string, verb: string)
    requires forall i | 0 <= i < |slashes| :: slashes[i] == '/'
    ensures Route(NormalisedPath(BasePath + TasksPath + slashes), verb) == Dispatched(Tasks)
  {
    var word := "tasks";
    assert BasePath + TasksPath + slashes == BasePath + ("/" + (word + slashes));
    StripBase(word, slashes);
    SlashesUnchanged(slashes);
    var path := TasksPath + slashes;
    assert "/" + (word + slashes) == path;
    assert '?' !in path && '#' !in path by {
      forall i | 0 <= i < |path| ensures path[i] != '?' && path[i] != '#' {
        if i >= 6 { assert path[i] == slashes[i - 6]; }
      }
    }
    PathPartWhole(path);
    RTrimDropsSuffix(TasksPath, slashes, {'/'});
  }

  /** A run of slashes contains no `/api`. */
  lemma {:induction false} SlashesUnchanged(slashes: string)
    requires forall i | 0 <= i < |slashes| :: slashes[i] == '/'
    ensures RemoveAll(slashes, BasePath) == slashes
    decreases |slashes|
  {
    if |slashes| > 0 {
      assert !StartsWith(slashes, BasePath) by {
        if |slashes| >= 2 { assert slashes[1] == '/'; }
      }
      SlashesUnchanged(slashes[1..]);
      assert [slashes[0]] + slashes[1..] == slashes;
    }
  }
}
