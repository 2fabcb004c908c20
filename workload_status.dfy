/**
 * The task-status pie of the dashboard: the number of tasks per status,
 * starting from the three usual statuses at zero.
 */
module WorkloadStatus {
  import opened Js
  import opened Tally
  import Seqs

  /** The accumulator the reduction starts from, in this order. */
  const Defaults := [Entry("Pending", 0), Entry("In Progress", 0), Entry("Completed", 0)]

  /** `acc[task.status]`: the status as a property key. */
  function StatusKey(task: Obj): string
  {
    ToString(Prop(task, "status"))
  }

  /** How many of the tasks have the given status key. */
  function Tallied(tasks: seq<Obj>, key: string): nat
  {
    Seqs.Count(tasks, t => StatusKey(t) == key)
  }

  lemma TalliedAppend(tasks: seq<Obj>, task: Obj)
    ensures forall key :: Tallied(tasks + [task], key) == Tallied(tasks, key) + (if StatusKey(task) == key then 1 else 0)
  {
    forall key ensures Tallied(tasks + [task], key) == Tallied(tasks, key) + (if StatusKey(task) == key then 1 else 0) {
      Seqs.CountAppend(tasks, task, t => StatusKey(t) == key);
    }
  }

  /** What the accumulator holds once the tasks in `done` have been reduced. */
  ghost predicate Counted(entries: seq<Entry>, done: seq<Obj>)
  {
    && DistinctKeys(entries) && |entries| >= 3
    && entries[0].key == "Pending" && entries[1].key == "In Progress" && entries[2].key == "Completed"
    && (forall key :: CountOf(entries, key) == Tallied(done, key))
    && (forall j | 0 <= j < |done| :: Find(entries, StatusKey(done[j])).Some?)
    && (forall k | 3 <= k < |entries| :: entries[k].count > 0)
    && Sum(entries) == |done|
  }

  lemma CountedDefaults()
    ensures Counted(Defaults, [])
  {
    assert Sum(Defaults) == 0 by {
      assert Sum(Defaults[..2][..1][..0]) == 0;
      assert Sum(Defaults[..2][..1]) == 0;
      assert Sum(Defaults[..2]) == 0;
    }
    forall key ensures CountOf(Defaults, key) == Tallied([], key) {
      var f := Find(Defaults, key);
    }
  }

  /** One step of the reduction: `acc[task.status] = (acc[task.status] || 0) + 1`. */
  lemma CountedStep(entries: seq<Entry>, done: seq<Obj>, task: Obj)
    requires Counted(entries, done)
    ensures Counted(Bump(entries, StatusKey(task)), done + [task])
  {
    var key := StatusKey(task);
    var r := Bump(entries, key);
    BumpCounts(entries, key);
    SumBump(entries, key);
    TalliedAppend(done, task);
    var all := done + [task];
    forall j | 0 <= j < |all| ensures Find(r, StatusKey(all[j])).Some? {
      if j < |done| {
        var f := Find(entries, StatusKey(done[j])).value;
        assert r[f].key == StatusKey(done[j]);
      } else {
        assert CountOf(r, key) == CountOf(entries, key) + 1;
      }
    }
  }

  /**
   * `statusCount` and its entries: the three defaults first and in order,
   * then the other statuses seen, each once and with a positive count; every entry
   * counts exactly the tasks with its status, and the counts add up to the
   * number of tasks.
   */
  method StatusCount(tasks: seq<Obj>) returns (entries: seq<Entry>)
    ensures DistinctKeys(entries) && |entries| >= 3
    ensures entries[0].key == "Pending" && entries[1].key == "In Progress" && entries[2].key == "Completed"
    ensures forall k | 0 <= k < |entries| :: entries[k].count == Tallied(tasks, entries[k].key)
    ensures forall i | 0 <= i < |tasks| :: Find(entries, StatusKey(tasks[i])).Some?
    ensures forall k | 3 <= k < |entries| :: entries[k].count > 0
    ensures Sum(entries) == |tasks|
  {
    entries := Defaults;
    CountedDefaults();
    assert tasks[..0] == [];
    for i := 0 to |tasks|
      invariant Counted(entries, tasks[..i])
    {
      CountedStep(entries, tasks[..i], tasks[i]);
      assert tasks[..i + 1] == tasks[..i] + [tasks[i]];
      entries := Bump(entries, StatusKey(tasks[i]));
    }
    assert tasks[..|tasks|] == tasks;
    forall k | 0 <= k < |entries| ensures entries[k].count == Tallied(tasks, entries[k].key) {
      CountOfAt(entries, k);
    }
  }

  /** With no tasks the pie still shows the three statuses, each at zero. */
  method NoTasksShowDefaults() returns (entries: seq<Entry>)
    ensures entries == Defaults
  {
    entries := StatusCount([]);
    assert Sum(entries) == 0;
    SumPositive(entries, 0);
    SumPositive(entries, 1);
    SumPositive(entries, 2);
  }

  /** A sum of counts is at least each of its counts. */
  lemma {:induction false} SumPositive(entries: seq<Entry>, k: nat)
    requires k < |entries|
    ensures entries[k].count <= Sum(entries)
    decreases |entries|
  {
    if k < |entries| - 1 {
      SumPositive(entries[..|entries| - 1], k);
    }
  }
}
