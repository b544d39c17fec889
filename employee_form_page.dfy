/**
 * The newer add / edit page (src/pages/EmployeeFormPage.js): it reads the
 * mode and the record id from the location path, and on submit adds a new
 * record under a fresh id or updates the record with the form's id.
 */
module FormPage {
  import opened Wrappers
  import opened JsBuiltins
  import opened Records
  import opened EmployeeStore

  /** The route prefix of the edit page. */
  const EditPrefix: string := "/employees/edit/"

  /** The path of the edit page of the record with id `id`. */
  function EditPath(id: string): (path: string) {
    EditPrefix + id
  }

  /** The edit path of a slash-free id leads back to edit mode and to that id. */
  lemma EditPathRoundTrip(id: string)
    requires '/' !in id
    ensures StartsWith(EditPath(id), EditPrefix)
    ensures LastSegment(EditPath(id)) == id
  {
    assert EditPath(id)[..|EditPrefix|] == EditPrefix;
    LastSegmentAfterSlash(EditPrefix, id);
  }

  /** Submitting an edit form left as it was prefilled leaves the list unchanged. */
  lemma UnchangedEditIsNoOp(xs: seq<Employee>, k: int)
    requires 0 <= k < |xs| && FindIndex(xs, xs[k].id) == k
    ensures ReplaceById(xs, FromFormData(ToFormData(xs[k]))) == xs
  {
    FormDataRoundTrip(xs[k]);
  }

  class EmployeeFormPage {
    /** The application store's employee slice. */
    const store: EmployeeSlice
    /** "" stands for the property before `connectedCallback` sets it. */
    var mode: string
    var employeeId: Option<string>
    var employee: Option<Employee>

    /** No record yet; mode and id are unset. */
    constructor (store: EmployeeSlice)
      ensures this.store == store && mode == "" && employeeId == None && employee == None
    {
      this.store := store;
      mode := "";
      employeeId := None;
      employee := None;
    }

    /** `connectedCallback`: an edit path selects edit mode and looks up the
      * record named by its last segment; any other path selects create mode. */
    method ConnectedCallback(path: string)
      modifies this
      ensures StartsWith(path, EditPrefix) ==>
                && mode == "edit" && employeeId == Some(LastSegment(path))
                && employee == Find(store.employees, Some(LastSegment(path)))
      ensures !StartsWith(path, EditPrefix) ==>
                mode == "create" && employee == None && employeeId == old(employeeId)
    {
      if StartsWith(path, EditPrefix) {
        mode := "edit";
        var id := LastSegment(path);
        employeeId := Some(id);
        employee := Find(store.employees, Some(id));
      } else {
        mode := "create";
        employee := None;
      }
    }

    /** `_onSubmit`: in edit mode updates the record with the form's id; in
      * any other mode adds the form data as a new first record under the fresh
      * id (`crypto.randomUUID()`, a parameter here). Navigation is not modelled. */
    method OnSubmit(data: map<string, string>, freshId: string)
      modifies store
      ensures mode == "edit" ==> store.employees == ReplaceById(old(store.employees), FromFormData(data))
      ensures mode != "edit" ==> store.employees == [FromFormData(data["id" := freshId])] + old(store.employees)
      ensures mode != "edit" ==> store.employees[0].id == Some(freshId)
      ensures store.selectedEmployee == old(store.selectedEmployee)
    {
      if mode == "edit" {
        store.UpdateEmployee(FromFormData(data));
      } else {
        var newEmployee := data["id" := freshId];
        store.AddEmployee(FromFormData(newEmployee));
      }
    }
  }

  /** Opening the edit page of a stored record finds that record. */
  method OpenEditPage(page: EmployeeFormPage, id: string)
    requires '/' !in id
    requires FindIndex(page.store.employees, Some(id)) != -1
    modifies page
    ensures page.mode == "edit" && page.employeeId == Some(id)
    ensures page.employee.Some? && page.employee.value.id == Some(id)
  {
    EditPathRoundTrip(id);
    page.ConnectedCallback(EditPath(id));
  }
}
