/**
 * The older employee form (src/components/employee-form.js): a submit in
 * create mode emits a new record at once; in any other mode it parks the
 * record and asks for confirmation first.
 */
module FormView {
  import opened Wrappers
  import opened Records

  /** `{ ...employee, firstName: …, …, position: … }`: the form's eight
    * fields over the edited record, of which only the id survives (an absent
    * record is the empty object `{}`). */
  function Overlay(base: Option<Employee>, form: Profile): (r: Employee)
    ensures r.profile == form
    ensures base.Some? ==> r.id == base.value.id
    ensures base.None? ==> r.id == None
  {
    Employee(if base.Some? then base.value.id else None, form)
  }

  /** Confirming an update of a stored record replaces that record, at its
    * own position, by the form's fields, and leaves the others alone. */
  lemma UpdateReplacesEdited(xs: seq<Employee>, k: int, form: Profile)
    requires UniqueIds(xs) && 0 <= k < |xs|
    ensures var r := ReplaceById(xs, Overlay(Some(xs[k]), form));
            && |r| == |xs|
            && r[k] == Employee(xs[k].id, form)
            && (forall j :: 0 <= j < |xs| && j != k ==> r[j] == xs[j])
  {
  }

  class EmployeeFormView {
    var mode: string
    var employee: Option<Employee>
    var showUpdateModal: bool
    var pendingUpdateData: Option<Employee>

    /** Create mode over the empty object, no dialog, nothing pending. */
    constructor ()
      ensures mode == "create" && employee == None && !showUpdateModal && pendingUpdateData == None
    {
      mode := "create";
      employee := None;
      showUpdateModal := false;
      pendingUpdateData := None;
    }

    /** `_handleSubmit`: in create mode the record gets the fresh id
      * (`Date.now()`, a parameter here) and is emitted as `employee-created`;
      * otherwise it becomes the pending update and the dialog opens. The
      * navigation home is not modelled. */
    method HandleSubmit(form: Profile, freshId: string) returns (created: Option<Employee>)
      modifies this
      ensures mode == "create" ==> created == Some(Employee(Some(freshId), form))
      ensures mode == "create" ==> showUpdateModal == old(showUpdateModal) && pendingUpdateData == old(pendingUpdateData)
      ensures mode != "create" ==> created == None
      ensures mode != "create" ==> showUpdateModal && pendingUpdateData == Some(Overlay(employee, form))
      ensures mode == old(mode) && employee == old(employee)
    {
      var employeeData := Overlay(employee, form);
      if mode == "create" {
        employeeData := employeeData.(id := Some(freshId));
        created := Some(employeeData);
      } else {
        pendingUpdateData := Some(employeeData);
        showUpdateModal := true;
        created := None;
      }
    }

    /** `_handleUpdateConfirm`: emits `employee-updated` with the pending
      * record, if there is one. The toast and navigation are not modelled;
      * the dialog flag stays as it is. */
    method HandleUpdateConfirm() returns (updated: Option<Employee>)
      ensures updated == pendingUpdateData
    {
      if pendingUpdateData.Some? {
        updated := Some(pendingUpdateData.value);
      } else {
        updated := None;
      }
    }

    /** `_handleUpdateCancel`: closes the dialog; the pending record stays. */
    method HandleUpdateCancel()
      modifies this
      ensures !showUpdateModal
      ensures pendingUpdateData == old(pendingUpdateData) && mode == old(mode) && employee == old(employee)
    {
      showUpdateModal := false;
    }
  }

  /** A submit outside create mode emits nothing until confirmed, and the
    * confirmation emits the form's fields over the edited record. */
  method SubmitThenConfirm(v: EmployeeFormView, form: Profile, freshId: string) returns (created: Option<Employee>, updated: Option<Employee>)
    requires v.mode != "create"
    modifies v
    ensures created == None
    ensures updated == Some(Overlay(old(v.employee), form))
    ensures v.showUpdateModal
  {
    created := v.HandleSubmit(form, freshId);
    updated := v.HandleUpdateConfirm();
  }
}
