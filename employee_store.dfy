/**
 * The `employee` slice of the application store (src/store/employeeStore.js):
 * the ordered employee list, newest first, and the record selected for
 * editing. Each reducer is a method that updates the slice in place.
 */
module EmployeeStore {
  import opened Wrappers
  import opened Records

  class EmployeeSlice {
    var employees: seq<Employee>
    var selectedEmployee: Option<Employee>

    /** The initial state: no employees, nothing selected. */
    constructor ()
      ensures employees == [] && selectedEmployee == None
    {
      employees := [];
      selectedEmployee := None;
    }

    /** `setEmployees`: the list becomes the payload. */
    method SetEmployees(xs: seq<Employee>)
      modifies this
      ensures employees == xs
      ensures selectedEmployee == old(selectedEmployee)
    {
      employees := xs;
    }

    /** `deleteEmployee`: every record with the id goes, the rest keep their order. */
    method DeleteEmployee(id: Id)
      modifies this
      ensures employees == WithoutId(old(employees), id)
      ensures forall k :: 0 <= k < |employees| ==> employees[k].id != id
      ensures UniqueIds(old(employees)) ==> UniqueIds(employees)
      ensures selectedEmployee == old(selectedEmployee)
    {
      assert UniqueIds(employees) ==> UniqueIds(WithoutId(employees, id)) by {
        if UniqueIds(employees) { WithoutIdKeepsUnique(employees, id); }
      }
      employees := WithoutId(employees, id);
    }

    /** `selectEmployee`: remembers the record the edit form will prefill. */
    method SelectEmployee(e: Employee)
      modifies this
      ensures selectedEmployee == Some(e)
      ensures employees == old(employees)
    {
      selectedEmployee := Some(e);
    }

    /** `addEmployee`: `unshift`, so the new record comes first. */
    method AddEmployee(e: Employee)
      modifies this
      ensures employees == [e] + old(employees)
      ensures |employees| == |old(employees)| + 1
      ensures forall k :: 0 <= k < |old(employees)| ==> employees[k + 1] == old(employees)[k]
      ensures UniqueIds(old(employees)) && FindIndex(old(employees), e.id) == -1 ==> UniqueIds(employees)
      ensures selectedEmployee == old(selectedEmployee)
    {
      assert UniqueIds(employees) && FindIndex(employees, e.id) == -1 ==> UniqueIds([e] + employees) by {
        if UniqueIds(employees) && FindIndex(employees, e.id) == -1 { PrependKeepsUnique(employees, e); }
      }
      employees := [e] + employees;
    }

    /** `updateEmployee`: overwrites the first record with the payload's id in
      * place; silently does nothing when there is none. */
    method UpdateEmployee(e: Employee)
      modifies this
      ensures employees == ReplaceById(old(employees), e)
      ensures |employees| == |old(employees)|
      ensures FindIndex(old(employees), e.id) == -1 ==> employees == old(employees)
      ensures UniqueIds(old(employees)) ==> UniqueIds(employees)
      ensures selectedEmployee == old(selectedEmployee)
    {
      assert UniqueIds(employees) ==> UniqueIds(ReplaceById(employees, e)) by {
        if UniqueIds(employees) { ReplaceByIdKeepsUnique(employees, e); }
      }
      var index := FindIndex(employees, e.id);
      if index != -1 {
        employees := employees[index := e];
      }
    }
  }
}
