/**
 * The task analytics report: tasks counted per department of their assignee
 * (in total and completed), and the number of tasks per employee.
 */
module TaskReports {
  import opened Wrappers
  import opened Js
  import opened Tally
  import Seqs

  // ---------------------------------------------------------------------
  // Tasks per department
  // ---------------------------------------------------------------------

  /** `employees.find(emp => emp.id === id)`, as the position of the first match. */
  function FirstMatch(employees: seq<Obj>, id: JsVal): (r: Option<nat>)
    ensures r.Some? ==> r.value < |employees| && Prop(employees[r.value], "id") == id
    ensures r.Some? ==> forall j | 0 <= j < r.value :: Prop(employees[j], "id") != id
    ensures r.None? ==> forall j | 0 <= j < |employees| :: Prop(employees[j], "id") != id
  {
    if |employees| == 0 then None
    else if Prop(employees[0], "id") == id then Some(0)
    else
      var rest := FirstMatch(employees[1..], id);
      if rest.Some? then Some(rest.value + 1) else None
  }

  /** The department a task is counted under: its assignee's, as a property key. */
  function DeptOf(task: Obj, employees: seq<Obj>): Option<string>
  {
    var i := FirstMatch(employees, Prop(task, "assignee_id"));
    if i.Some? then Some(ToString(Prop(employees[i.value], "department"))) else None
  }

  /** `task.status === 'completed'`, with a lower-case c. */
  predicate IsCompleted(task: Obj)
  {
    Prop(task, "status") == Str("completed")
  }

  function DeptTotal(tasks: seq<Obj>, employees: seq<Obj>, d: string): nat
  {
    Seqs.Count(tasks, t => DeptOf(t, employees) == Some(d))
  }

  function DeptDone(tasks: seq<Obj>, employees: seq<Obj>, d: string): nat
  {
    Seqs.Count(tasks, t => DeptOf(t, employees) == Some(d) && IsCompleted(t))
  }

  /** The number of tasks whose assignee is one of the employees. */
  function Matched(tasks: seq<Obj>, employees: seq<Obj>): nat
  {
    Seqs.Count(tasks, t => DeptOf(t, employees).Some?)
  }

  /** One row of the department chart (the completion rate, a float, is not modelled). */
  datatype DeptRow = DeptRow(name: string, total: nat, completed: nat)

  /** `Object.entries(deptTasks).map(...)`, with each department's two counters. */
  function Rows(totals: seq<Entry>, done: seq<Entry>): (r: seq<DeptRow>)
    ensures |r| == |totals|
    ensures forall k | 0 <= k < |r| :: r[k] == DeptRow(totals[k].key, totals[k].count, CountOf(done, totals[k].key))
  {
    if |totals| == 0 then []
    else
      var last := totals[|totals| - 1];
      Rows(totals[..|totals| - 1], done) + [DeptRow(last.key, last.count, CountOf(done, last.key))]
  }

  function RowTotal(rows: seq<DeptRow>): nat
  {
    if |rows| == 0 then 0 else RowTotal(rows[..|rows| - 1]) + rows[|rows| - 1].total
  }

  lemma {:induction false} RowTotalRows(totals: seq<Entry>, done: seq<Entry>)
    ensures RowTotal(Rows(totals, done)) == Sum(totals)
    decreases |totals|
  {
    if |totals| > 0 {
      var r := Rows(totals, done);
      assert r[..|r| - 1] == Rows(totals[..|totals| - 1], done);
      RowTotalRows(totals[..|totals| - 1], done);
    }
  }

  /** A subset of a count never exceeds it: `completed <= total`. */
  lemma {:induction false} CountNarrower(s: seq<Obj>, p: Obj -> bool, q: Obj -> bool)
    requires forall x :: q(x) ==> p(x)
    ensures Seqs.Count(s, q) <= Seqs.Count(s, p)
    decreases |s|
  {
    if |s| > 0 {
      CountNarrower(s[1..], p, q);
    }
  }

  lemma DeptDoneAtMostTotal(tasks: seq<Obj>, employees: seq<Obj>, d: string)
    ensures DeptDone(tasks, employees, d) <= DeptTotal(tasks, employees, d)
  {
    CountNarrower(tasks, t => DeptOf(t, employees) == Some(d), t => DeptOf(t, employees) == Some(d) && IsCompleted(t));
  }

  /** What the totals counter holds once the tasks in `seen` have been visited. */
  ghost predicate TotalsCounted(totals: seq<Entry>, employees: seq<Obj>, seen: seq<Obj>)
  {
    && DistinctKeys(totals)
    && (forall d :: CountOf(totals, d) == DeptTotal(seen, employees, d))
    && (forall k | 0 <= k < |totals| :: totals[k].count > 0)
    && (forall j | 0 <= j < |seen| && DeptOf(seen[j], employees).Some? :: Find(totals, DeptOf(seen[j], employees).value).Some?)
    && Sum(totals) == Matched(seen, employees)
  }

  /** What the completed counter holds once the tasks in `seen` have been visited. */
  ghost predicate DoneCounted(done: seq<Entry>, employees: seq<Obj>, seen: seq<Obj>)
  {
    && DistinctKeys(done)
    && (forall d :: CountOf(done, d) == DeptDone(seen, employees, d))
  }

  /** One more visited task adds one to its department's counts, and to nothing else. */
  lemma DeptCountsAppend(employees: seq<Obj>, seen: seq<Obj>, task: Obj)
    ensures var d := DeptOf(task, employees);
      && Matched(seen + [task], employees) == Matched(seen, employees) + (if d.Some? then 1 else 0)
      && (forall k :: DeptTotal(seen + [task], employees, k) == DeptTotal(seen, employees, k) + (if d == Some(k) then 1 else 0))
      && (forall k :: DeptDone(seen + [task], employees, k) == DeptDone(seen, employees, k) + (if d == Some(k) && IsCompleted(task) then 1 else 0))
  {
    var d := DeptOf(task, employees);
    forall k ensures DeptTotal(seen + [task], employees, k) == DeptTotal(seen, employees, k) + (if d == Some(k) then 1 else 0) {
      Seqs.CountAppend(seen, task, t => DeptOf(t, employees) == Some(k));
    }
    forall k ensures DeptDone(seen + [task], employees, k) == DeptDone(seen, employees, k) + (if d == Some(k) && IsCompleted(task) then 1 else 0) {
      Seqs.CountAppend(seen, task, t => DeptOf(t, employees) == Some(k) && IsCompleted(t));
    }
    Seqs.CountAppend(seen, task, t => DeptOf(t, employees).Some?);
  }

  /** `deptTasks[d].total++` for the department of the visited task, when it has one. */
  lemma TotalsStep(totals: seq<Entry>, employees: seq<Obj>, seen: seq<Obj>, task: Obj)
    requires TotalsCounted(totals, employees, seen)
    ensures var d := DeptOf(task, employees);
      TotalsCounted(if d.Some? then Bump(totals, d.value) else totals, employees, seen + [task])
  {
    var d := DeptOf(task, employees);
    if d.Some? {
      TotalsBumped(totals, employees, seen, task, d.value);
    } else {
      var all := seen + [task];
      DeptCountsAppend(employees, seen, task);
      assert forall j | 0 <= j < |all| && DeptOf(all[j], employees).Some? :: j < |seen|;
    }
  }

  /** The visited task has a department: its counter is bumped. */
  lemma TotalsBumped(totals: seq<Entry>, employees: seq<Obj>, seen: seq<Obj>, task: Obj, dept: string)
    requires TotalsCounted(totals, employees, seen) && DeptOf(task, employees) == Some(dept)
    ensures TotalsCounted(Bump(totals, dept), employees, seen + [task])
  {
    var r := Bump(totals, dept);
    DeptCountsAppend(employees, seen, task);
    BumpCounts(totals, dept);
    SumBump(totals, dept);
    BumpPositive(totals, dept);
    BumpKeepsFound(totals, employees, seen, task, dept);
  }

  /** Bumping keeps every count positive. */
  lemma BumpPositive(totals: seq<Entry>, key: string)
    requires forall k | 0 <= k < |totals| :: totals[k].count > 0
    ensures forall k | 0 <= k < |Bump(totals, key)| :: Bump(totals, key)[k].count > 0
  {
  }

  /** Every department seen so far, and the bumped one, still has an entry. */
  lemma BumpKeepsFound(totals: seq<Entry>, employees: seq<Obj>, seen: seq<Obj>, task: Obj, dept: string)
    requires forall j | 0 <= j < |seen| && DeptOf(seen[j], employees).Some? :: Find(totals, DeptOf(seen[j], employees).value).Some?
    requires DeptOf(task, employees) == Some(dept)
    ensures var all := seen + [task];
      forall j | 0 <= j < |all| && DeptOf(all[j], employees).Some? :: Find(Bump(totals, dept), DeptOf(all[j], employees).value).Some?
  {
    var r := Bump(totals, dept);
    var all := seen + [task];
    forall j | 0 <= j < |all| && DeptOf(all[j], employees).Some?
      ensures Find(r, DeptOf(all[j], employees).value).Some?
    {
      if j < |seen| {
        var f := Find(totals, DeptOf(seen[j], employees).value).value;
        assert r[f].key == totals[f].key;
      } else {
        assert all[j] == task;
        if Find(totals, dept).Some? {
          assert r[Find(totals, dept).value].key == dept;
        } else {
          assert r[|totals|].key == dept;
        }
      }
    }
  }

  /** `deptTasks[d].completed++` when the visited task is completed. */
  lemma DoneStep(done: seq<Entry>, employees: seq<Obj>, seen: seq<Obj>, task: Obj)
    requires DoneCounted(done, employees, seen)
    ensures var d := DeptOf(task, employees);
      DoneCounted(if d.Some? && IsCompleted(task) then Bump(done, d.value) else done, employees, seen + [task])
  {
    var d := DeptOf(task, employees);
    DeptCountsAppend(employees, seen, task);
    if d.Some? && IsCompleted(task) {
      BumpCounts(done, d.value);
    }
  }

  /** The rows read off the counters once every task has been visited. */
  lemma DeptCountedRows(totals: seq<Entry>, done: seq<Entry>, employees: seq<Obj>, tasks: seq<Obj>)
    requires TotalsCounted(totals, employees, tasks) && DoneCounted(done, employees, tasks)
    ensures var rows := Rows(totals, done);
      && (forall i, j | 0 <= i < j < |rows| :: rows[i].name != rows[j].name)
      && (forall k | 0 <= k < |rows| ::
            && rows[k].total == DeptTotal(tasks, employees, rows[k].name) > 0
            && rows[k].completed == DeptDone(tasks, employees, rows[k].name) <= rows[k].total)
      && (forall i | 0 <= i < |tasks| && DeptOf(tasks[i], employees).Some? ::
            exists k | 0 <= k < |rows| :: rows[k].name == DeptOf(tasks[i], employees).value)
      && RowTotal(rows) == Matched(tasks, employees)
  {
    var rows := Rows(totals, done);
    RowTotalRows(totals, done);
    forall k | 0 <= k < |rows|
      ensures rows[k].total == DeptTotal(tasks, employees, rows[k].name) > 0
      ensures rows[k].completed == DeptDone(tasks, employees, rows[k].name) <= rows[k].total
    {
      CountOfAt(totals, k);
      DeptDoneAtMostTotal(tasks, employees, rows[k].name);
    }
    forall i | 0 <= i < |tasks| && DeptOf(tasks[i], employees).Some?
      ensures exists k | 0 <= k < |rows| :: rows[k].name == DeptOf(tasks[i], employees).value
    {
      var f := Find(totals, DeptOf(tasks[i], employees).value).value;
      assert rows[f].name == DeptOf(tasks[i], employees).value;
    }
  }

  /**
   * `getDepartmentTaskData`: one row per department with at least one task,
   * each department once; a row counts the tasks whose first matching
   * employee is in that department, and among them the completed ones; a
   * task with no matching employee is not counted, so the totals add up to
   * the number of tasks with one.
   */
  method DepartmentTaskData(tasks: seq<Obj>, employees: seq<Obj>) returns (rows: seq<DeptRow>)
    ensures forall i, j | 0 <= i < j < |rows| :: rows[i].name != rows[j].name
    ensures forall k | 0 <= k < |rows| ::
      && rows[k].total == DeptTotal(tasks, employees, rows[k].name) > 0
      && rows[k].completed == DeptDone(tasks, employees, rows[k].name) <= rows[k].total
    ensures forall i | 0 <= i < |tasks| && DeptOf(tasks[i], employees).Some? ::
      exists k | 0 <= k < |rows| :: rows[k].name == DeptOf(tasks[i], employees).value
    ensures RowTotal(rows) == Matched(tasks, employees)
  {
    var totals: seq<Entry> := [];
    var done: seq<Entry> := [];
    assert tasks[..0] == [];
    for i := 0 to |tasks|
      invariant TotalsCounted(totals, employees, tasks[..i]) && DoneCounted(done, employees, tasks[..i])
    {
      CountersStep(totals, done, employees, tasks, i);
      var d := DeptOf(tasks[i], employees);
      if d.Some? {
        totals := Bump(totals, d.value);
        if IsCompleted(tasks[i]) {
          done := Bump(done, d.value);
        }
      }
    }
    assert tasks[..|tasks|] == tasks;
    DeptCountedRows(totals, done, employees, tasks);
    rows := Rows(totals, done);
  }

  /** Both counters after one more task of the list. */
  lemma CountersStep(totals: seq<Entry>, done: seq<Entry>, employees: seq<Obj>, tasks: seq<Obj>, i: nat)
    requires i < |tasks|
    requires TotalsCounted(totals, employees, tasks[..i]) && DoneCounted(done, employees, tasks[..i])
    ensures var d := DeptOf(tasks[i], employees);
      && TotalsCounted(if d.Some? then Bump(totals, d.value) else totals, employees, tasks[..i + 1])
      && DoneCounted(if d.Some? && IsCompleted(tasks[i]) then Bump(done, d.value) else done, employees, tasks[..i + 1])
  {
    TotalsStep(totals, employees, tasks[..i], tasks[i]);
    DoneStep(done, employees, tasks[..i], tasks[i]);
    assert tasks[..i + 1] == tasks[..i] + [tasks[i]];
  }

  /**
   * Only the lower-case status counts as completed: a task marked
   * "Completed", as the dashboard and the task page spell it, is counted in
   * the total but not as completed.
   */
  lemma CapitalisedNotCompleted(task: Obj)
    requires Prop(task, "status") == Str("Completed")
    ensures !IsCompleted(task)
  {
    assert Str("Completed") != Str("completed") by {
      assert "Completed"[0] != "completed"[0];
    }
  }

  // ---------------------------------------------------------------------
  // Tasks per employee
  // ---------------------------------------------------------------------

  /** `workload[task.assignee_id]`: the assignee as a property key, when truthy. */
  function AssigneeKey(task: Obj): Option<string>
  {
    if Truthy(Prop(task, "assignee_id")) then Some(ToString(Prop(task, "assignee_id"))) else None
  }

  /** How many tasks are assigned under the property key `key`. */
  function Assigned(tasks: seq<Obj>, key: string): nat
  {
    Seqs.Count(tasks, t => AssigneeKey(t) == Some(key))
  }

  /** `workload[key] || 0`. */
  function Load(workload: map<string, nat>, key: string): nat
  {
    if key in workload then workload[key] else 0
  }

  datatype WorkRow = WorkRow(name: JsVal, tasks: nat)

  /**
   * `getWorkloadData`: one row per employee, in employee order, with the
   * number of tasks whose truthy `assignee_id` names that employee's id as a
   * property key (so a numeric and a string id of the same digits agree),
   * and 0 when there is none.
   */
  method WorkloadData(tasks: seq<Obj>, employees: seq<Obj>) returns (rows: seq<WorkRow>)
    ensures |rows| == |employees|
    ensures forall i | 0 <= i < |employees| ::
      rows[i] == WorkRow(Prop(employees[i], "name"), Assigned(tasks, ToString(Prop(employees[i], "id"))))
  {
    var workload: map<string, nat> := map[];
    assert tasks[..0] == [];
    for i := 0 to |tasks|
      invariant forall key :: Load(workload, key) == Assigned(tasks[..i], key)
    {
      forall key ensures Assigned(tasks[..i] + [tasks[i]], key) == Assigned(tasks[..i], key) + (if AssigneeKey(tasks[i]) == Some(key) then 1 else 0) {
        Seqs.CountAppend(tasks[..i], tasks[i], t => AssigneeKey(t) == Some(key));
      }
      assert tasks[..i + 1] == tasks[..i] + [tasks[i]];
      if Truthy(Prop(tasks[i], "assignee_id")) {
        var key := ToString(Prop(tasks[i], "assignee_id"));
        workload := workload[key := Load(workload, key) + 1];
      }
    }
    assert tasks[..|tasks|] == tasks;
    rows := seq(|employees|, i requires 0 <= i < |employees| =>
      WorkRow(Prop(employees[i], "name"), Load(workload, ToString(Prop(employees[i], "id")))));
  }

  /** A task with a falsy `assignee_id` adds to no employee's count. */
  lemma FalsyAssigneeIgnored(tasks: seq<Obj>, task: Obj, key: string)
    requires !Truthy(Prop(task, "assignee_id"))
    ensures Assigned(tasks + [task], key) == Assigned(tasks, key)
  {
    Seqs.CountAppend(tasks, task, t => AssigneeKey(t) == Some(key));
  }

  /** A task assigned to the number 7 counts for the employee whose id is the string "7". */
  lemma NumericAssigneeMatchesStringId(task: Obj, n: int)
    requires Prop(task, "assignee_id") == Num(n) && n != 0
    ensures AssigneeKey(task) == Some(ToString(Str(ToString(Num(n)))))
  {
  }
}
