# HR dashboard core, modelled in Dafny

The project models the logic of a small HR dashboard made of a PHP back end and a React front end, and proves properties of that logic.

The back end has these parts:

- The employee model is a cache-aside layer over the `employees` table. Reads look in the Redis cache first and fill it on a miss. Writes delete precise cache keys.
- The service layer over a soft-deleting repository does three things. It caches list pages by page and limit. It checks that the employee exists before a write. It validates only the fields present on update.
- The user model reads users through Redis and keeps working when Redis is down or failing. With Redis up, a key Redis does not hold reads back as `false`, and `getById` returns that `false` without querying the table. So `create` and `update` answer `false` unless the row was already cached.
- The rate limiter is a fixed-window counter per client address.
- The API front controller normalises the path, handles CORS and routes the request.
- The employees endpoint takes the id out of the path and maps method, id and body to a status code.

The front end has these parts:

- the employee form checks, search, filter and department options;
- the third-party details form, with its validation, field updates and loading;
- the task reports by department and by assignee;
- the status pie;
- the urgent-task panel;
- the task list filter;
- the in-memory add, edit and delete handlers of the sample employees and tasks pages.

How the model is built:

- The cache is a `map` field of a class. The tables are `seq` fields.
- A database error is a `bool` parameter of the operation that meets it. PDO runs in exception mode, so a statement either succeeds or throws. The user model takes cache failures as `bool` parameters too. The Redis calls of the employee model and of the service layer always succeed in the model (see "Left out").
- PHP values (`Php.Val`) and JavaScript values (`Js.JsVal`) each have their own truthiness. The string "0" is falsy in PHP and truthy in JavaScript.
- Front-end handlers that build new arrays are functions.
- Loops that update a dictionary in place are methods with loop invariants, proved against specification functions. This covers the reductions in the reports and the status pie, the validation loops, and the SQL builders.

Modules:

- `Wrappers`, `Php`, `Js`, `Seqs`, `Tally` and `SqlText` are shared.
- Each remaining module models one source file, and is named after it.

## Model

| member | source | states |
|---|---|---|
| EmployeeModel.FindRow | backend/models/Employee.php:79-83 | the row fetched for an id has that id; no row means no row of the table has it |
| EmployeeModel.BoundColumns | backend/models/Employee.php:104-113 | the INSERT/UPDATE binds exactly the eight columns and never `id` |
| EmployeeModel.UpdatedTable | backend/models/Employee.php:133-156 | the UPDATE keeps the number of rows and every row's id |
| EmployeeModel.RowKeyIsNotShared | backend/models/Employee.php:12-15 | a per-id key is never the list key nor a stats or metrics key |
| EmployeeModel.CreateSparesRowAndMetricsKeys | backend/models/Employee.php:115-120 | `create` deletes no per-id key and no `employees:metrics:` key |
| EmployeeModel.UpdateClearedExactly | backend/models/Employee.php:159-172 | `update` deletes the per-id key always, the list key iff a relevant field changed, the stats and metrics keys iff the status changed, and nothing else |
| EmployeeModel.IrrelevantUpdateKeepsList | backend/models/Employee.php:181-189 | changes confined to email, salary, start date or third-party info delete only the per-id key |
| EmployeeModel.AggregateKeysNeverCleared | backend/models/Employee.php:215-326 | the keys `employees:new_hires`, `employees:resigned`, `employees:growth` and `employees:monthly_attendance` are deleted by neither `create` nor any `update` |
| EmployeeModel.AliasRowKeySurvivesUpdate | backend/models/Employee.php:69-94 | "07" and "7" fetch the same row; updating "7" leaves the entry cached under "07" |
| EmployeeModel.ActiveCountAppend | backend/models/Employee.php:201-204 | an inserted row adds one to the active count iff its status is `active` |
| EmployeeModel.HasRelevantChanges | backend/models/Employee.php:181-189 | the early-return loop is true iff name, position, department or status differ strictly |
| EmployeeModel.Employee.constructor | backend/models/Employee.php:17-26 | attaches to the given cache and table |
| EmployeeModel.Employee.Evict | backend/models/Employee.php:61 | an expiring entry leaves the cache and nothing else changes |
| EmployeeModel.Employee.ClearListCache | backend/models/Employee.php:28-31 | the cache loses `employees:all` only |
| EmployeeModel.Employee.ClearStatsCache | backend/models/Employee.php:33-38 | the cache loses the three `employees:stats:` keys only |
| EmployeeModel.Employee.ClearMetricsCache | backend/models/Employee.php:40-45 | the cache loses the three `employees:metrics:` keys only |
| EmployeeModel.Employee.GetAll | backend/models/Employee.php:47-67 | a hit returns the cached list and changes nothing; a miss stores the table for 3600 s; a database error gives [] and stores nothing |
| EmployeeModel.Employee.GetById | backend/models/Employee.php:69-94 | a hit returns the cached row; a miss caches the fetched row only when one is found; no row or an error leaves the cache as it was |
| EmployeeModel.Employee.Create | backend/models/Employee.php:96-126 | on success the row is appended with the next id and exactly the list and stats keys are deleted; on error the table and cache are unchanged and the error is "Failed to create employee" |
| EmployeeModel.Employee.Update | backend/models/Employee.php:128-179 | compares against the row `getById` returns (possibly cached), writes the columns, then deletes exactly `UpdateCleared`; on error the table is unchanged and the cache is exactly `SeenCache`, what that read left |
| EmployeeModel.Employee.ClearAfterUpdate | backend/models/Employee.php:159-172 | the cache loses exactly the keys `UpdateCleared` names |
| EmployeeModel.Employee.GetTotalCount | backend/models/Employee.php:191-213 | the cached count, or the active count stored for 1800 s; an error gives 0 |
| EmployeeModel.Employee.ReadThrough | backend/models/Employee.php:215-237 | the shared read-through of the aggregate readers: the cached value, or the computed one stored for 3600 s |
| EmployeeModel.Employee.GetNewHiresCount | backend/models/Employee.php:215-237 | read-through on `employees:new_hires`; an error is raised and stores nothing |
| EmployeeModel.Employee.GetResignedCount | backend/models/Employee.php:239-261 | read-through on `employees:resigned`; an error is raised and stores nothing |
| EmployeeModel.Employee.CalculateGrowth | backend/models/Employee.php:263-289 | a hit answers the cached growth and changes nothing; on a miss the cache first gains the total count (unless it was cached or its own query failed); then a failing growth query raises "Failed to calculate growth" with only that change, and otherwise the cache also gains the growth, 0 when the previous total is not positive, and no other key changes |
| EmployeeModel.Employee.GetMonthlyAttendance | backend/models/Employee.php:291-326 | read-through on `employees:monthly_attendance`; an error is raised and stores nothing |
| EmployeeModel.Employee.GetWorkFormatDistribution | backend/models/Employee.php:328-362 | read-through on `employees:metrics:work_format`; an error gives [] |
| EmployeeModel.CreateThenTotal | backend/models/Employee.php:115-120 | after a `create` the total count includes the new row, whatever the cache held |
| EmployeeModel.StaleNewHiresAfterCreate | backend/models/Employee.php:215-237 | after a `create` the new-hires reader still returns the value cached before it |
| EmployeeRepository.CeilDiv | backend/src/Repositories/EmployeeRepository.php:40 | `last_page` is the fewest pages of `limit` rows that hold `total` rows |
| EmployeeRepository.PageSlice | backend/src/Repositories/EmployeeRepository.php:26-29 | the page holds at most `limit` consecutive live rows starting at the offset |
| EmployeeRepository.RowOnItsPage | backend/src/Repositories/EmployeeRepository.php:19-40 | the live row at position i is entry i % limit of page i / limit + 1, and that page is within `last_page` |
| EmployeeRepository.PageResult | backend/src/Repositories/EmployeeRepository.php:16-45 | the page at offset (page-1)*limit, the live total and ceil(total/limit); a negative LIMIT or OFFSET is a database error and a zero limit a division error |
| EmployeeRepository.BoundParams | backend/src/Repositories/EmployeeRepository.php:106-112 | the SET loop binds the data keys in order, with `third_party_info` JSON-encoded |
| EmployeeRepository.UpdateText | backend/src/Repositories/EmployeeRepository.php:114 | `rtrim` of the SET text removes exactly the last ", " (or the space when there are no keys) |
| EmployeeRepository.BuildUpdate | backend/src/Repositories/EmployeeRepository.php:102-116 | `key = :key` for each data key in order, joined by ", ", then the live-row WHERE clause; `id` bound last |
| EmployeeRepository.Prefixed | backend/src/Repositories/EmployeeRepository.php:164-167 | each filter binds the placeholder `:key` with its value, in order |
| EmployeeRepository.AssignAll | backend/src/Repositories/EmployeeRepository.php:164-167 | successive `$params[$k] = $v` keep each key once |
| EmployeeRepository.AssignAllFresh | backend/src/Repositories/EmployeeRepository.php:164-167 | assigning only new keys appends them in order |
| EmployeeRepository.PrefixedUnique | backend/src/Repositories/EmployeeRepository.php:164-167 | distinct filter names give distinct placeholders |
| EmployeeRepository.BuildSearch | backend/src/Repositories/EmployeeRepository.php:151-167 | the LIKE clause only for a truthy query, then ` AND key = :key` per filter in order; the parameters follow |
| EmployeeRepository.SearchParamsFresh | backend/src/Repositories/EmployeeRepository.php:158-167 | without a filter named `query` the parameters are the LIKE pattern followed by the filters |
| EmployeeRepository.QueryFilterOverridesPattern | backend/src/Repositories/EmployeeRepository.php:158-167 | a filter named `query` overwrites the `:query` LIKE pattern |
| EmployeeRepository.SetWhere | backend/src/Repositories/EmployeeRepository.php:115 | as many rows, in place; a row that is not live with the id is untouched; a matching row takes every assignment (`AssignedRow`: the last value per key) and keeps every column nobody assigns |
| EmployeeRepository.Repository.constructor | backend/src/Repositories/EmployeeRepository.php:14 | attaches to the given rows |
| EmployeeRepository.Repository.GetAll | backend/src/Repositories/EmployeeRepository.php:16-45 | returns `PageResult` of the current rows |
| EmployeeRepository.Repository.GetById | backend/src/Repositories/EmployeeRepository.php:47-62 | null iff no live row has the id; a found row is live and has the id |
| EmployeeRepository.Repository.Create | backend/src/Repositories/EmployeeRepository.php:64-95 | the new row comes first (newest) with the next id, which is returned; a failure rolls back |
| SqlText.UpdateMarkersRepeat | backend/models/User.php:185-195 | the markers of the UPDATE repeat exactly when the data has an `id` key |
| EmployeeRepository.Repository.Update | backend/src/Repositories/EmployeeRepository.php:97-132 | empty data, data with an `id` key (`:id` named twice) or an error rolls back with a database error; otherwise applies `SetWhere` with the bound values and returns true iff some live row changed |
| EmployeeRepository.Repository.Delete | backend/src/Repositories/EmployeeRepository.php:134-149 | stamps `deleted_at` on the live rows with the id; true iff there was one |
| EmployeeRepository.Repository.UpdateThirdPartyInfo | backend/src/Repositories/EmployeeRepository.php:214-231 | sets the encoded info on the live rows with the id; true iff one changed |
| EmployeeRepository.NoLiveRowNoChange | backend/src/Repositories/EmployeeRepository.php:115 | a soft-deleted or absent id changes nothing |
| EmployeeRepository.ThirdPartyInfoOnly | backend/src/Repositories/EmployeeRepository.php:217-227 | no column other than `third_party_info` changes in any row |
| EmployeeRepository.DeleteTwice | backend/src/Repositories/EmployeeRepository.php:138-145 | deleting a live id twice gives true, then false |
| EmployeeService.ValidateEmployeeData | backend/src/Services/EmployeeService.php:120-146 | Ok iff no checked rule fails; otherwise one exception whose fields are exactly the failing checked fields, in rule order |
| EmployeeService.ErrorFieldsExactly | backend/src/Services/EmployeeService.php:132-141 | a field is reported iff it is checked (always on create, when present on update) and its rule fails |
| EmployeeService.UpdateSkipsAbsentFields | backend/src/Services/EmployeeService.php:133-134 | on update an absent or null field is never reported |
| EmployeeService.CreateRequiresStatus | backend/src/Services/EmployeeService.php:129 | on create a missing status fails the `in` rule |
| EmployeeService.ListKeysMatchPattern | backend/src/Services/EmployeeService.php:148-159 | every list key matches `employee:all:*`, and no id key does |
| EmployeeService.Cleared | backend/src/Services/EmployeeService.php:148-159 | the id key goes when the id is truthy, every `employee:all:` key goes, and every other entry stays |
| EmployeeService.Service.constructor | backend/src/Services/EmployeeService.php:17-21 | attaches to the given cache and repository |
| EmployeeService.Service.ClearEmployeeCache | backend/src/Services/EmployeeService.php:148-159 | the cache becomes `Cleared` of the old cache |
| EmployeeService.Service.GetAllEmployees | backend/src/Services/EmployeeService.php:23-39 | a truthy cached text is returned without a repository call; otherwise the page is stored as JSON for 3600 s; an error stores nothing |
| EmployeeService.Service.CreateEmployee | backend/src/Services/EmployeeService.php:41-64 | invalid data raises before any repository call or cache change; a successful insert drops the list pages |
| EmployeeService.Service.UpdateEmployee | backend/src/Services/EmployeeService.php:66-94 | NotFound before validation or write when no live row has the id; then only the fields present are validated; for valid data, an error, empty data or an `id` key leaves rows and cache unchanged with a database error, and otherwise the rows are `SetWhere` of the bound values, the answer is whether a live row changed, and the cache is cleared for the id and the list pages |
| EmployeeService.Service.DeleteEmployee | backend/src/Services/EmployeeService.php:96-118 | NotFound for an id with no live row; otherwise the soft delete and the cache cleared |
| UserModel.Ttl | backend/models/User.php:45-48 | a missing or zero expiry means the 3600 s default |
| UserModel.PublicView | backend/models/User.php:115-116 | the selected columns only, never the password |
| UserModel.FindUser | backend/models/User.php:115-121 | None iff no row has the id |
| UserModel.HashedParams | backend/models/User.php:180-186 | the bound keys are the data keys in order, a `password` value hashed |
| UserModel.UpdateText | backend/models/User.php:188 | `rtrim` drops exactly the last ", " |
| UserModel.BuildUpdate | backend/models/User.php:174-196 | `key = :key` for every data key in order, then ` WHERE id = :id`, and `id` bound last |
| UserModel.SetWhere | backend/models/User.php:176-198 | as many rows, in place; a row with another id is untouched; the row with the id takes every assignment (the last value per key) and keeps every column nobody assigns |
| UserModel.User.constructor | backend/models/User.php:18-33 | `RedisClient::getInstance` never throws, so the only start-up outcome is whether Redis answered (`connected`) |
| UserModel.User.GetFromCache | backend/models/User.php:35-43 | null when Redis is down or the get fails; otherwise phpredis's answer: the stored row, or `false` on a miss |
| UserModel.User.SetInCache | backend/models/User.php:45-53 | false and no write when Redis is down or the set fails; otherwise stores with `Ttl` |
| UserModel.User.DeleteFromCache | backend/models/User.php:55-63 | false and no delete when Redis is down or the delete fails; otherwise the count deleted, and the key goes |
| UserModel.User.GetById | backend/models/User.php:107-132 | answer and new cache are `ReadThrough`: with Redis up, whatever the cache holds (false on a miss) and no query; otherwise the table's row, cached when found and the set goes through |
| UserModel.User.Create | backend/models/User.php:134-172 | an error or a taken username or email leaves table, id counter and cache unchanged; otherwise the row is appended under the next id, is found by it, and the answer and cache are `ReadThrough` of that id |
| UserModel.User.Update | backend/models/User.php:174-209 | an error, empty data or data with an `id` key (`:id` named twice) raises "Failed to update user" and changes nothing; otherwise the table is `SetWhere` of the hashed values and the answer and cache are `ReadThrough` over the cache `Dropped` left |
| UserModel.ReadThrough | backend/models/User.php:107-132 | with Redis up and the get working, a miss answers false without the table; with Redis down, the table lookup and an untouched cache; only `users:id:<id>` can change, and only to the row the table has; an answered row comes from the cache or the table |
| UserModel.Dropped | backend/models/User.php:55-63 | the key is gone iff Redis is up and the delete worked (or it was absent); no other key changes |
| UserModel.ReadIsStable | backend/models/User.php:107-132 | with Redis up, a row once answered is answered again by the next read, with the cache unchanged |
| UserModel.CreateWhileConnected | backend/models/User.php:162-164 | with Redis up, `create` answers false although the new row is found by its id |
| UserModel.UpdateWhileConnected | backend/models/User.php:198-201 | with Redis up, a successful `update` always answers false |
| UserModel.StaleAfterFailedDrop | backend/models/User.php:198-201 | when the drop fails, `update` answers the row cached before the statement |
| UserModel.SetWhereKeepsIds | backend/models/User.php:185-190 | an update that assigns no `id` column keeps every row's id below the next auto-increment value |
| UserModel.NewestFound | backend/models/User.php:162-164 | the row just inserted is what `getById` finds for its id |
| UserModel.ReadWhileDisconnected | backend/models/User.php:35-46 | with Redis down a read is the table lookup and leaves the cache alone |
| RateLimiter.Limiter.constructor | backend/middleware/RateLimiter.php:5-8 | attaches to the given counters |
| RateLimiter.Limiter.CheckLimit | backend/middleware/RateLimiter.php:10-17 | the counter `rate_limit:<ip>` goes up by one; the expiry is set only when it becomes 1; allowed iff the new count is at most the limit |
| RateLimiter.Limiter.CheckDefault | backend/middleware/RateLimiter.php:10 | the same with limit 100 and window 3600 |
| RateLimiter.Limiter.Expire | backend/middleware/RateLimiter.php:14 | the window's end removes the counter and its expiry |
| RateLimiter.Burst | backend/middleware/RateLimiter.php:12-16 | of n calls in one window exactly the first `limit` pass |
| ApiRouter.FrontendUrl | backend/api/index.php:7 | an unset or falsy variable falls back to the default URL |
| ApiRouter.RemoveAll | backend/api/index.php:51 | `str_replace` never lengthens the text |
| ApiRouter.PathPart | backend/api/index.php:52 | the path is the prefix before the first '?' or '#' |
| ApiRouter.Route | backend/api/index.php:58-77 | employees iff the path is `/employees` or `employees`; tasks iff `/tasks` or `tasks`; anything else is 404 with path and method |
| ApiRouter.Serve | backend/api/index.php:18-86 | CORS headers iff the origin is allowed; 204 iff OPTIONS; otherwise 404 for an unknown path, 500 for a handler exception |
| ApiRouter.PreflightIgnoresPath | backend/api/index.php:34-45 | the answer to OPTIONS does not depend on the URI |
| ApiRouter.NoOriginNoCors | backend/api/index.php:18-28 | a request without Origin gets no CORS header |
| ApiRouter.EmployeesListWithQuery | backend/api/index.php:49-62 | `/api/employees?<query>` reaches the employees handler |
| ApiRouter.EmployeeIdPathNormalised | backend/api/index.php:49-55 | `/api/employees/<digits>` normalises to `/employees/<digits>` |
| ApiRouter.EmployeeIdPathNotRouted | backend/api/index.php:58-77 | `/api/employees/<digits>` is answered 404 |
| ApiRouter.TasksWithTrailingSlashes | backend/api/index.php:55-67 | trailing slashes are stripped before routing |
| EmployeesEndpoint.MatchId | backend/api/employees/index.php:13-15 | a match is the prefix followed by one or more digits and at most a final newline |
| EmployeesEndpoint.MatchIdComplete | backend/api/employees/index.php:13-15 | every path of those shapes yields exactly its digits |
| EmployeesEndpoint.MatchIdRejectsEmpty | backend/api/employees/index.php:13 | the base path yields no id |
| EmployeesEndpoint.Handle | backend/api/employees/index.php:17-107 | the decision table: GET 200/404, POST 400/201, PUT and DELETE without id 400, PUT with an empty body 400, other methods 405, exceptions 500; DELETE with an id is a fatal error (the model has no `delete`), never 200 or 503; the cache a GET leaves, and after a failing PUT the cache its read left |
| EmployeesEndpoint.GetZeroListsAll | backend/api/employees/index.php:22 | `GET /api/employees/0` returns the whole list |
| EmployeesPage.MissingFields | frontend/src/pages/employees/Employees.jsx:104-105 | at most the six required fields |
| EmployeesPage.MissingFieldsExactly | frontend/src/pages/employees/Employees.jsx:104-109 | missing iff required and falsy, in list order; `status` never |
| EmployeesPage.EmailMatchesShape | frontend/src/pages/employees/Employees.jsx:112-115 | the regex holds iff: no whitespace, exactly one '@', a non-empty local part, and a '.' inside the domain that is not its first or last character |
| EmployeesPage.SaveRequestChecks | frontend/src/pages/employees/Employees.jsx:103-120 | a request goes out iff the three checks pass; the first failing check gives its own message (missing fields, email, salary) |
| EmployeesPage.SentRequest | frontend/src/pages/employees/Employees.jsx:122-134 | PUT to `/employees/<edited id>` or POST to `/employees`, with the form data and `third_party_info` as JSON text or null |
| EmployeesPage.EditRequestNotRouted | frontend/src/pages/employees/Employees.jsx:127-134 | the edit request `PUT /api/employees/<id>` is answered 404 by the front controller |
| EmployeesPage.FilteredEmployeesSpec | frontend/src/pages/employees/Employees.jsx:201-212 | an order-preserving sublist holding exactly the employees that pass search, department and status |
| EmployeesPage.EmptySearchShowsAll | frontend/src/pages/employees/Employees.jsx:202-209 | an empty query with no filter shows everyone |
| EmployeesPage.Distinct | frontend/src/pages/employees/Employees.jsx:215 | the same values, each once |
| EmployeesPage.DistinctFirstOccurrenceOrder | frontend/src/pages/employees/Employees.jsx:215 | the values come in the order of their first occurrences |
| EmployeesPage.Transformed | frontend/src/pages/employees/Employees.jsx:80-87 | `thirdPartyInfo` is the parsed details when they arrive as non-empty text, the details as they are when otherwise truthy, else null; a falsy status becomes `active`; `startDate` copies `start_date`; other fields are kept |
| ThirdPartyForm.InsuranceErrors | frontend/src/components/employees/ThirdPartyForm.jsx:45-55 | with medical or life ticked, an error for each falsy provider, policy number or expiry date, and no error otherwise |
| ThirdPartyForm.RssbErrors | frontend/src/components/employees/ThirdPartyForm.jsx:58-67 | when registered: an empty registration number errs; the rate gets "required" when empty, else "positive number" when not a positive number |
| ThirdPartyForm.FalsyIsNotPositive | frontend/src/components/employees/ThirdPartyForm.jsx:62-66 | a falsy rate fails the positive-number test too, so the required message takes precedence |
| ThirdPartyForm.FormErrors | frontend/src/components/employees/ThirdPartyForm.jsx:41-70 | a section appears only with at least one error, and holds that section's errors |
| ThirdPartyForm.CheckInsurance | frontend/src/components/employees/ThirdPartyForm.jsx:45-55 | the imperative checks record exactly `InsuranceErrors` |
| ThirdPartyForm.CheckRssb | frontend/src/components/employees/ThirdPartyForm.jsx:58-67 | the imperative checks record exactly `RssbErrors` |
| ThirdPartyForm.ValidateForm | frontend/src/components/employees/ThirdPartyForm.jsx:41-71 | the errors are `FormErrors` and the form is valid iff there are none |
| ThirdPartyForm.ValidateFormValid | frontend/src/components/employees/ThirdPartyForm.jsx:45-70 | no error iff every applicable rule holds |
| ThirdPartyForm.HandleSubmit | frontend/src/components/employees/ThirdPartyForm.jsx:73-78 | `onSubmit` gets the form iff it validates |
| ThirdPartyForm.SplitName | frontend/src/components/employees/ThirdPartyForm.jsx:82 | the section is the text before the first '.'; a name without '.' gives field "undefined" |
| ThirdPartyForm.SplitDotted | frontend/src/components/employees/ThirdPartyForm.jsx:82 | `section.field` splits back into its two parts |
| ThirdPartyForm.HandleChange | frontend/src/components/employees/ThirdPartyForm.jsx:80-102 | the named field takes `checked` or `value`, and its error is blanked when it had one |
| ThirdPartyForm.HandleChangeOnlyThatField | frontend/src/components/employees/ThirdPartyForm.jsx:84-101 | every other field and error is unchanged |
| ThirdPartyForm.CheckboxStoresChecked | frontend/src/components/employees/ThirdPartyForm.jsx:88 | a checkbox stores its state, whatever its value |
| ThirdPartyForm.LoadForm | frontend/src/components/employees/ThirdPartyForm.jsx:22-38 | without saved details the form stays; with them both sections are rebuilt |
| ThirdPartyForm.LoadFormFields | frontend/src/components/employees/ThirdPartyForm.jsx:26-35 | a truthy saved field is loaded as it is, anything else as false or '' |
| ThirdPartyForm.EmptyDetailsValidate | frontend/src/components/employees/ThirdPartyForm.jsx:5-18 | the initial form validates |
| TaskReports.FirstMatch | frontend/src/components/reports/TaskReports.jsx:58 | the first employee with the assignee id, or none has it |
| TaskReports.Rows | frontend/src/components/reports/TaskReports.jsx:68-73 | one row per department counter, with its total and completed counts |
| TaskReports.RowTotalRows | frontend/src/components/reports/TaskReports.jsx:68-73 | the row totals add up to the counter total |
| TaskReports.DeptDoneAtMostTotal | frontend/src/components/reports/TaskReports.jsx:61-64 | completed never exceeds total |
| TaskReports.DepartmentTaskData | frontend/src/components/reports/TaskReports.jsx:55-74 | each department once and only with a counted task; total and completed count the tasks whose first matching employee is in it; totals add up to the matched tasks |
| TaskReports.CapitalisedNotCompleted | frontend/src/components/reports/TaskReports.jsx:62 | a "Completed" task is not counted as completed |
| TaskReports.WorkloadData | frontend/src/components/reports/TaskReports.jsx:77-90 | one row per employee in order, counting the tasks whose truthy assignee names its id, 0 when none |
| TaskReports.FalsyAssigneeIgnored | frontend/src/components/reports/TaskReports.jsx:80 | a task with a falsy assignee counts for nobody |
| TaskReports.NumericAssigneeMatchesStringId | frontend/src/components/reports/TaskReports.jsx:81-88 | a numeric assignee and a string id with the same digits are the same key |
| Tally.Bump | frontend/src/components/dashboard/WorkloadStatus.jsx:15 | `acc[k] = (acc[k] \|\| 0) + 1` bumps an entry in place, or appends a new key with count 1 |
| Tally.BumpCounts | frontend/src/components/dashboard/WorkloadStatus.jsx:15 | only the bumped key's count changes, by one, and keys stay distinct |
| Tally.SumBump | frontend/src/components/dashboard/WorkloadStatus.jsx:15 | every bump adds one to the total |
| WorkloadStatus.StatusCount | frontend/src/components/dashboard/WorkloadStatus.jsx:13-24 | Pending, In Progress and Completed come first and in that order; each entry counts the tasks with its status; other statuses follow with positive counts; the counts sum to the task count |
| WorkloadStatus.NoTasksShowDefaults | frontend/src/components/dashboard/WorkloadStatus.jsx:18 | with no tasks the three defaults at 0 |
| WorkloadStatus.SumPositive | frontend/src/components/dashboard/WorkloadStatus.jsx:13-19 | no count exceeds the total |
| UrgentTasks.UrgentListSpec | frontend/src/components/dashboard/UrgentTasks.jsx:4-6 | an order-preserving sublist of exactly the High, not Completed tasks |
| UrgentTasks.LowerCaseHighNotUrgent | frontend/src/components/dashboard/UrgentTasks.jsx:5 | `high` is not urgent |
| UrgentTasks.Render | frontend/src/components/dashboard/UrgentTasks.jsx:16-17 | the message iff nothing is urgent, otherwise the non-empty table |
| TaskList.InitialFilterShowsAll | src/components/dashboard/TaskList.jsx:4-7 | the initial filter `all` shows every task in order |
| TaskList.FilteredTasksSpec | src/components/dashboard/TaskList.jsx:6-9 | another filter keeps, in order, exactly the tasks with that status |
| ListCrud.AddedSpec | src/pages/employees/Employees.jsx:46-50 | add keeps every item and appends one with id length + 1 and the data's other fields |
| ListCrud.RemovedSpec | src/pages/employees/Employees.jsx:61-63 | delete keeps, in order, exactly the items with another id |
| ListCrud.DeleteThenAddDuplicates | src/pages/employees/Employees.jsx:48-62 | with ids 1..n, delete 1 then add repeats id n |
| SampleEmployeesPage.SaveEmployee | src/pages/employees/Employees.jsx:40-54 | edit merges into the edited id, add appends; the form closes and nothing is being edited |
| SampleEmployeesPage.EditedSpec | src/pages/employees/Employees.jsx:41-44 | same length; other ids unchanged; the edited one takes the data's fields and keeps the rest |
| SampleEmployeesPage.DeleteEmployee | src/pages/employees/Employees.jsx:61-63 | the employees with that id go and nothing else changes |
| SampleEmployeesPage.DetailsSubmit | src/pages/employees/Employees.jsx:65-75 | the selected employee's details are replaced, no selection keeps the list, the form closes |
| SampleEmployeesPage.WithDetailsSpec | src/pages/employees/Employees.jsx:67-71 | only `thirdPartyInfo` of the selected id changes |
| TasksPage.AddTask | frontend/src/pages/tasks/Tasks.jsx:39-42 | appends with id length + 1 and closes the form |
| TasksPage.EditTask | frontend/src/pages/tasks/Tasks.jsx:44-50 | replaces by id, closes the form and clears the edited task |
| TasksPage.ReplacedSpec | frontend/src/pages/tasks/Tasks.jsx:45-47 | same length; a task with the id is replaced whole, so a field the update lacks is gone |
| TasksPage.DeleteTask | frontend/src/pages/tasks/Tasks.jsx:52-54 | the tasks with that id go; the form is untouched |
| TasksPage.SampleDeleteThenAddDuplicates | frontend/src/pages/tasks/Tasks.jsx:40-53 | with the sample ids 1..3, delete 1 then add repeats id 3 |
| Php.RTrim | backend/api/index.php:55 | `rtrim` keeps a prefix that does not end in a trimmed character, and drops only trimmed characters |
| Php.BindAll | backend/src/Repositories/EmployeeRepository.php:106-112 | a `foreach` binding loop keeps every key in order, each with the value made of its entry |
| Js.ToLower | frontend/src/pages/employees/Employees.jsx:203-206 | lower-casing maps each character and keeps the length |

## Left out

- JSON encoding and decoding, `password_hash`, and JWT are function parameters or identities.
- The Respect validation rules other than the status `in` rule are parameters. Their messages are parameters too.
- Floating point is not modelled. This covers the growth percentage, `completionRate.toFixed` and the chart percentages. The growth value is a parameter.
- The date-dependent SQL aggregates are left out: new hires, resigned, attendance and work format. Their query results are parameters of the read-through.
- Time-based expiry is recorded but not run. `Evict` and `Expire` are the explicit steps that stand for it.
- Concurrent requests and their interleaving are not modelled.
- Database and cache connections are not modelled. The connect and retry loops are out of scope. The user model keeps only their outcome, whether Redis answered.
- EmployeeModel.Employee: the Redis calls never fail in the model. `utils/Redis.php` catches a failing get, set or delete and answers null or false. The consequences are not modelled: a failed get reads as a miss, a failed set stores nothing, and a failed delete leaves a stale key.
- EmployeeService.Service: a Predis call that throws is not modelled. Every cache read, write and delete of the service succeeds in the model.
- UserModel.User.GetFromCache: a hit answers the row that was stored. `RedisClient::set` hands the row array to phpredis without serialising it. With its default settings, phpredis stores such a value as the string "Array". That conversion is not modelled.
- UserModel.User: the `useCache` fallback of the constructor is dead code, because `RedisClient::getInstance` never throws, so it is not modelled.
- ApiRouter.PathPart: `parse_url` is modelled for paths only. Scheme, host and malformed URLs are not modelled. Its replacement of control characters by `_` is not modelled either. So the final-newline case of `EmployeesEndpoint.MatchId` is reachable in the model, though never through `parse_url` in the source.
- WorkloadStatus.StatusCount: entries are kept in insertion order. JavaScript lists integer-like keys first, and that ordering is not modelled. The contract does not state the order of the statuses after the three defaults.
- TaskReports.DepartmentTaskData: entries are kept in insertion order, as above.
- ThirdPartyForm.RssbErrors: `Number()` is modelled for optionally signed decimal numerals. Surrounding whitespace, hexadecimal, exponents and `Infinity` are not modelled. Numbers are integers.
- EmployeesPage.SaveRequestChecks: the salary check uses the same numeric model as `ThirdPartyForm.RssbErrors`.
- `toLowerCase` is modelled as ASCII case folding.
- EmployeeRepository.BuildSearch: only the SQL text and the parameters of `search` are modelled, not running it. With emulated prepares off, a truthy query names `:query` three times (`SqlText.RepeatsMarker`), which `execute` would reject.
- EmployeeRepository.Repository.GetAll: the PHP defaults `page = 1` and `limit = 10` are not modelled; every call passes both.
- EmployeeService.Service.GetAllEmployees: the same defaults are not modelled either.
- SQL `LIKE` matching, collation and ordering by date are not interpreted. The repository keeps rows newest first. An equality such as `status = 'active'` is exact string equality in the model. Under MySQL's default case-insensitive collation, it would also match `Active`.
- EmployeesEndpoint.Handle: a request body that decodes to something other than an object is not modelled. What the server sends for the fatal error of the DELETE branch is not modelled. That response depends on its error settings.
- EmployeesPage.FilteredEmployees: every employee is required to have string `name`, `email`, `position` and `department` fields. A null field makes `toLowerCase` throw a TypeError in the source, and that case is not modelled.
- The task endpoint, the task model, the controllers, the CORS middleware and the 404 page are not modelled. They only emit headers and echo output. The task endpoint calls methods its model does not define.
- Front-end networking, rendering, the dashboard pages with sample data, and the navigation components are not modelled.
- ThirdPartyForm.ValidateForm: the one reassignment sequence of the source is split into a helper method per section.
