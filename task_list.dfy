/** The dashboard's task list with its status filter buttons. */
module TaskList {
  import opened Js
  import Seqs

  /** The filter the list starts with. */
  const InitialFilter := "all"

  /** The test `filteredTasks` applies: everything for "all", else an exact status. */
  predicate Passes(task: Obj, filter: string)
  {
    filter == "all" || Prop(task, "status") == Str(filter)
  }

  function FilteredTasks(tasks: seq<Obj>, filter: string): seq<Obj>
  {
    Seqs.Filter(tasks, t => Passes(t, filter))
  }

  /** The initial filter, "all", shows every task unchanged and in order. */
  lemma InitialFilterShowsAll(tasks: seq<Obj>)
    ensures FilteredTasks(tasks, InitialFilter) == tasks
  {
    Seqs.FilterAll(tasks, t => Passes(t, InitialFilter));
  }

  /** Any other filter keeps, in order, exactly the tasks with that status. */
  lemma FilteredTasksSpec(tasks: seq<Obj>, filter: string)
    requires filter != "all"
    ensures Seqs.IsSublist(FilteredTasks(tasks, filter), tasks)
    ensures forall t :: t in FilteredTasks(tasks, filter) <==> t in tasks && Prop(t, "status") == Str(filter)
  {
    Seqs.FilterSpec(tasks, t => Passes(t, filter));
  }
}
