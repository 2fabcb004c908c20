/** The tasks page with its in-memory task list: add, edit and delete. */
module TasksPage {
  import opened Wrappers
  import opened Js
  import ListCrud

  datatype Page = Page(tasks: seq<Obj>, formOpen: bool, editing: Option<Obj>)

  /** `handleAddTask`: appended with the next id, and the form closes. */
  function AddTask(page: Page, task: Obj): (r: Page)
    ensures !r.formOpen && r.editing == page.editing
    ensures r.tasks == ListCrud.Added(page.tasks, task)
  {
    page.(tasks := ListCrud.Added(page.tasks, task), formOpen := false)
  }

  /** `tasks.map(task => task.id === updated.id ? updated : task)`. */
  function Replaced(tasks: seq<Obj>, updated: Obj): seq<Obj>
  {
    seq(|tasks|, i requires 0 <= i < |tasks| =>
      if Prop(tasks[i], "id") == Prop(updated, "id") then updated else tasks[i])
  }

  /** `handleEditTask`: the task is replaced; the form closes and nothing is being edited. */
  function EditTask(page: Page, updated: Obj): (r: Page)
    ensures !r.formOpen && r.editing.None?
    ensures r.tasks == Replaced(page.tasks, updated)
  {
    Page(Replaced(page.tasks, updated), false, None)
  }

  /**
   * An edit keeps the length and replaces each task with the updated one's
   * id whole: a field the update lacks is gone afterwards, not kept.
   */
  lemma ReplacedSpec(tasks: seq<Obj>, updated: Obj)
    ensures |Replaced(tasks, updated)| == |tasks|
    ensures forall i | 0 <= i < |tasks| ::
      Replaced(tasks, updated)[i] == if Prop(tasks[i], "id") == Prop(updated, "id") then updated else tasks[i]
    ensures forall i, k | 0 <= i < |tasks| && Prop(tasks[i], "id") == Prop(updated, "id") && k !in updated ::
      Prop(Replaced(tasks, updated)[i], k) == Undefined
  {
  }

  /** `handleDeleteTask`: the tasks with that id go; the form is left as it was. */
  function DeleteTask(page: Page, id: JsVal): (r: Page)
    ensures r.tasks == ListCrud.Removed(page.tasks, id)
    ensures r.formOpen == page.formOpen && r.editing == page.editing
  {
    page.(tasks := ListCrud.Removed(page.tasks, id))
  }

  /** The page's three sample tasks have ids 1, 2 and 3, so deleting 1 and adding repeats id 3. */
  lemma SampleDeleteThenAddDuplicates(page: Page, task: Obj)
    requires |page.tasks| == 3 && forall i | 0 <= i < 3 :: Prop(page.tasks[i], "id") == Num(i + 1)
    ensures var r := AddTask(DeleteTask(page, Num(1)), task).tasks;
      exists i, j | 0 <= i < j < |r| :: Prop(r[i], "id") == Prop(r[j], "id")
  {
    ListCrud.DeleteThenAddDuplicates(page.tasks, task);
  }
}
