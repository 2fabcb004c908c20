/** The dashboard's urgent-task panel: high-priority tasks not yet completed. */
module UrgentTasks {
  import opened Js
  import Seqs

  /** `task.priority === 'High' && task.status !== 'Completed'`: exact strings. */
  predicate Urgent(task: Obj)
  {
    Prop(task, "priority") == Str("High") && Prop(task, "status") != Str("Completed")
  }

  function UrgentList(tasks: seq<Obj>): seq<Obj>
  {
    Seqs.Filter(tasks, Urgent)
  }

  /** The urgent list keeps exactly the urgent tasks, in their order. */
  lemma UrgentListSpec(tasks: seq<Obj>)
    ensures Seqs.IsSublist(UrgentList(tasks), tasks)
    ensures forall t :: t in UrgentList(tasks) <==> t in tasks && Urgent(t)
  {
    Seqs.FilterSpec(tasks, Urgent);
  }

  /** The comparison is case-sensitive: a "high" priority task is never urgent. */
  lemma LowerCaseHighNotUrgent(task: Obj)
    requires Prop(task, "priority") == Str("high")
    ensures !Urgent(task)
  {
    assert "high"[0] != "High"[0];
  }

  /** What the panel shows: the message when nothing is urgent, the table otherwise. */
  datatype Panel = NoUrgentMessage | UrgentTable(rows: seq<Obj>)

  function Render(tasks: seq<Obj>): (r: Panel)
    ensures r.NoUrgentMessage? <==> forall t | t in tasks :: !Urgent(t)
    ensures r.UrgentTable? ==> r.rows == UrgentList(tasks) && |r.rows| > 0
  {
    UrgentListSpec(tasks);
    var urgent := UrgentList(tasks);
    if |urgent| == 0 then NoUrgentMessage
    else
      assert urgent[0] in urgent;
      UrgentTable(urgent)
  }
}
