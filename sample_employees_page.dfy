/**
 * The employees page that works on its own in-memory list of sample
 * employees: add or edit through the form, delete, and attach third-party
 * details to the selected employee.
 */
module SampleEmployeesPage {
  import opened Wrappers
  import opened Js
  import ListCrud

  /** The page's state: the list, the form and its employee, the details form and its employee. */
  datatype Page = Page(employees: seq<Obj>, formOpen: bool, editing: Option<Obj>,
                       detailsOpen: bool, selected: Option<Obj>)

  /** `employees.map(emp => emp.id === target ? { ...emp, ...data } : emp)`. */
  function Edited(employees: seq<Obj>, target: JsVal, data: Obj): seq<Obj>
  {
    seq(|employees|, i requires 0 <= i < |employees| =>
      if Prop(employees[i], "id") == target then employees[i] + data else employees[i])
  }

  /**
   * `handleAddEmployee`: while editing, the data is merged into the edited
   * employee; otherwise it is appended with the next id. Either way the form
   * closes and nothing is being edited any more.
   */
  function SaveEmployee(page: Page, data: Obj): (r: Page)
    ensures !r.formOpen && r.editing.None?
    ensures r.detailsOpen == page.detailsOpen && r.selected == page.selected
    ensures page.editing.None? ==> r.employees == ListCrud.Added(page.employees, data)
    ensures page.editing.Some? ==> r.employees == Edited(page.employees, Prop(page.editing.value, "id"), data)
  {
    var employees :=
      if page.editing.Some? then Edited(page.employees, Prop(page.editing.value, "id"), data)
      else ListCrud.Added(page.employees, data);
    page.(employees := employees, formOpen := false, editing := None)
  }

  /**
   * An edit keeps the list's length; an employee with another id is unchanged;
   * the edited one takes every field the data has and keeps the rest.
   */
  lemma EditedSpec(employees: seq<Obj>, target: JsVal, data: Obj)
    ensures |Edited(employees, target, data)| == |employees|
    ensures forall i | 0 <= i < |employees| && Prop(employees[i], "id") != target ::
      Edited(employees, target, data)[i] == employees[i]
    ensures forall i, k | 0 <= i < |employees| && Prop(employees[i], "id") == target ::
      Prop(Edited(employees, target, data)[i], k) == (if k in data then data[k] else Prop(employees[i], k))
  {
  }

  /** `handleDeleteEmployee`: every employee with that id goes; nothing else changes. */
  function DeleteEmployee(page: Page, id: JsVal): (r: Page)
    ensures r.employees == ListCrud.Removed(page.employees, id)
    ensures r == page.(employees := r.employees)
  {
    page.(employees := ListCrud.Removed(page.employees, id))
  }

  /** `{ ...emp, thirdPartyInfo: info }` for the employees with the selected id. */
  function WithDetails(employees: seq<Obj>, target: JsVal, info: JsVal): seq<Obj>
  {
    seq(|employees|, i requires 0 <= i < |employees| =>
      if Prop(employees[i], "id") == target then employees[i]["thirdPartyInfo" := info] else employees[i])
  }

  /**
   * `handleThirdPartySubmit`: the selected employee's details are replaced;
   * with no selection the list stays as it is. The details form closes and
   * the selection is cleared in both cases.
   */
  function DetailsSubmit(page: Page, info: JsVal): (r: Page)
    ensures !r.detailsOpen && r.selected.None?
    ensures r.formOpen == page.formOpen && r.editing == page.editing
    ensures page.selected.None? ==> r.employees == page.employees
    ensures page.selected.Some? ==> r.employees == WithDetails(page.employees, Prop(page.selected.value, "id"), info)
  {
    var employees :=
      if page.selected.Some? then WithDetails(page.employees, Prop(page.selected.value, "id"), info)
      else page.employees;
    page.(employees := employees, detailsOpen := false, selected := None)
  }

  /** Submitting details replaces only `thirdPartyInfo`, and only for the selected id. */
  lemma WithDetailsSpec(employees: seq<Obj>, target: JsVal, info: JsVal)
    ensures |WithDetails(employees, target, info)| == |employees|
    ensures forall i, k | 0 <= i < |employees| ::
      Prop(WithDetails(employees, target, info)[i], k) ==
        if k == "thirdPartyInfo" && Prop(employees[i], "id") == target then info else Prop(employees[i], k)
  {
  }
}
