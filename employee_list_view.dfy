/**
 * The older employee list screen (src/views/employee-list-view.js), wired to
 * the older store: a five-field search, row selection by id, a delete
 * confirmation, and a pager of ten rows per page whose page-number window is
 * the one of PaginationComponent with threshold 5.
 */
module ListView {
  import opened Wrappers
  import opened JsBuiltins
  import opened Records
  import opened LegacyStore
  import opened Paging
  import opened PaginationComponent

  /** `this.pageSize`: set to 10 by the constructor and never reassigned. */
  const PageSize: int := 10

  /** The window size `maxVisiblePages`. */
  const MaxVisiblePages: int := 5

  /** The search test: the (already lower-cased) term occurs in the
    * lower-cased first name, last name, email, department or position. */
  predicate FieldsMatch(e: Employee, term: string) {
    var p := e.profile;
    || Includes(ToLowerCase(p.firstName), term)
    || Includes(ToLowerCase(p.lastName), term)
    || Includes(ToLowerCase(p.email), term)
    || Includes(ToLowerCase(p.department), term)
    || Includes(ToLowerCase(p.position), term)
  }

  /** The search test as the function handed to `filter`. */
  function FieldMatcher(term: string): (keep: Employee -> bool) {
    (e: Employee) => FieldsMatch(e, term)
  }

  /** The selection test `id => id !== employeeId`. */
  function OtherSelection(employeeId: Id): (keep: Id -> bool) {
    (id: Id) => id != employeeId
  }

  /** `employees.map(employee => employee.id)`. */
  function Ids(xs: seq<Employee>): (r: seq<Id>)
    ensures |r| == |xs|
    ensures forall k :: 0 <= k < |xs| ==> r[k] == xs[k].id
  {
    seq(|xs|, k requires 0 <= k < |xs| => xs[k].id)
  }

  /** The empty search term keeps every employee, so clearing the search and
    * searching for the empty text give the same list. */
  lemma EmptyTermKeepsAll(xs: seq<Employee>)
    ensures Filter(xs, FieldMatcher("")) == xs
  {
    forall k | 0 <= k < |xs| ensures FieldMatcher("")(xs[k]) {
      IncludesEmpty(ToLowerCase(xs[k].profile.firstName));
    }
    FilterKeepsAll(xs, FieldMatcher(""));
  }

  /** The search keeps exactly the employees that match, in order, and
    * searching its result again for the same term changes nothing. */
  lemma SearchKeepsMatches(xs: seq<Employee>, term: string)
    ensures var r := Filter(xs, FieldMatcher(term));
            && (forall k :: 0 <= k < |r| ==> r[k] in xs && FieldsMatch(r[k], term))
            && (forall k :: 0 <= k < |xs| && FieldsMatch(xs[k], term) ==> xs[k] in r)
            && Filter(r, FieldMatcher(term)) == r
  {
    FilterMembers(xs, FieldMatcher(term));
    FilterIdempotent(xs, FieldMatcher(term));
  }

  /** The page `_performSearch` settles on: unchanged while it is within the
    * page count, else the last page, or page 1 when there are no pages. */
  function ClampedPage(currentPage: int, totalPages: nat): (p: int)
    ensures currentPage <= totalPages ==> p == currentPage
    ensures currentPage > totalPages ==> p == Max(totalPages, 1)
    ensures p <= Max(totalPages, 1)
  {
    if currentPage > totalPages then (if totalPages > 0 then totalPages else 1) else currentPage
  }

  /** A term no employee matches leaves no search results. */
  lemma {:induction false} NoMatchNoResults(xs: seq<Employee>, term: string)
    requires forall k :: 0 <= k < |xs| ==> !FieldsMatch(xs[k], term)
    ensures Filter(xs, FieldMatcher(term)) == []
  {
    if xs != [] {
      assert !FieldsMatch(xs[0], term);
      assert forall k :: 0 <= k < |xs[1..]| ==> xs[1..][k] == xs[k + 1];
      NoMatchNoResults(xs[1..], term);
    }
  }

  /** The next-page button counts the pages of the whole list, not of the
    * search results. When the view's page is already past the results' page
    * count the button is still enabled (it is disabled only on the page equal
    * to that count), and `ClickNext` steps onto a page with no rows. */
  lemma NextPageCanPassResults(v: EmployeeListView)
    requires CeilDiv(|v.filteredEmployees|, PageSize) < v.currentPage < CeilDiv(|v.employees|, PageSize)
    ensures !v.NextDisabled()
    ensures PageSlice(v.filteredEmployees, v.currentPage + 1, PageSize) == []
  {
    PageBeyondTotalEmpty(v.filteredEmployees, v.currentPage + 1, PageSize);
  }

  /** That state is reached on page 1 after `OnSearch` with a term no
    * employee matches, whenever the whole list fills more than one page. */
  lemma NoResultsLeaveNextEnabled(v: EmployeeListView)
    requires |v.employees| > PageSize && v.currentPage == 1
    requires v.filteredEmployees == Filter(v.employees, FieldMatcher(v.searchTerm))
    requires forall k :: 0 <= k < |v.employees| ==> !FieldsMatch(v.employees[k], v.searchTerm)
    ensures v.filteredEmployees == []
    ensures !v.NextDisabled() && v.currentPage < CeilDiv(|v.employees|, PageSize)
    ensures PageSlice(v.filteredEmployees, v.currentPage + 1, PageSize) == []
  {
    NoMatchNoResults(v.employees, v.searchTerm);
    CeilDivZero(0, PageSize);
    var r := CeilDiv(|v.employees|, PageSize);
    assert 1 * PageSize < r * PageSize;
    LessMultiple(1, r, PageSize);
    NextPageCanPassResults(v);
  }

  class EmployeeListView {
    /** The older application store. */
    const store: EmployeesSlice
    var employees: seq<Employee>
    var currentPage: int
    var currentView: string
    var selectedEmployees: seq<Id>
    var employeeToDelete: Option<Employee>
    var filteredEmployees: seq<Employee>
    var searchTerm: string

    /** Page 1, table view, nothing selected, no search; the lists are copied
      * from the store. */
    constructor (store: EmployeesSlice)
      ensures this.store == store
      ensures employees == store.employees && filteredEmployees == store.employees
      ensures currentPage == 1 && currentView == "table" && selectedEmployees == []
      ensures employeeToDelete == None && searchTerm == ""
    {
      this.store := store;
      employees := store.employees;
      currentPage := 1;
      currentView := "table";
      selectedEmployees := [];
      employeeToDelete := None;
      filteredEmployees := store.employees;
      searchTerm := "";
    }

    /** The store subscription: after every dispatch both lists are copied
      * from the store again, which drops the search results (the search term
      * itself stays). */
    method OnStoreChange()
      modifies this
      ensures employees == store.employees && filteredEmployees == store.employees
      ensures currentPage == old(currentPage) && currentView == old(currentView) && searchTerm == old(searchTerm)
      ensures selectedEmployees == old(selectedEmployees) && employeeToDelete == old(employeeToDelete)
    {
      employees := store.employees;
      filteredEmployees := employees;
    }

    /** `_toggleView`: switches the view and keeps the page. */
    method ToggleView(view: string)
      modifies this
      ensures currentView == view && currentPage == old(currentPage)
      ensures filteredEmployees == old(filteredEmployees) && selectedEmployees == old(selectedEmployees)
      ensures employees == old(employees) && searchTerm == old(searchTerm) && employeeToDelete == old(employeeToDelete)
    {
      currentView := view;
    }

    /** `_selectEmployee`: a check appends the id; an uncheck removes every
      * occurrence of it and keeps the other ids in order. */
    method SelectEmployee(checked: bool, employeeId: Id)
      modifies this
      ensures checked ==> selectedEmployees == old(selectedEmployees) + [employeeId]
      ensures !checked ==> selectedEmployees == Filter(old(selectedEmployees), OtherSelection(employeeId))
      ensures !checked ==> employeeId !in selectedEmployees
      ensures !checked ==> forall k :: 0 <= k < |old(selectedEmployees)| && old(selectedEmployees)[k] != employeeId ==>
                old(selectedEmployees)[k] in selectedEmployees
      ensures employees == old(employees) && filteredEmployees == old(filteredEmployees)
      ensures currentPage == old(currentPage) && currentView == old(currentView)
      ensures searchTerm == old(searchTerm) && employeeToDelete == old(employeeToDelete)
    {
      if checked {
        selectedEmployees := selectedEmployees + [employeeId];
      } else {
        FilterMembers(selectedEmployees, OtherSelection(employeeId));
        selectedEmployees := Filter(selectedEmployees, OtherSelection(employeeId));
      }
    }

    /** `_selectAll`: selects the ids of the whole list (not only the search
      * results), or clears the selection. */
    method SelectAll(checked: bool)
      modifies this
      ensures checked ==> selectedEmployees == Ids(employees)
      ensures !checked ==> selectedEmployees == []
      ensures employees == old(employees) && filteredEmployees == old(filteredEmployees)
      ensures currentPage == old(currentPage) && currentView == old(currentView)
      ensures searchTerm == old(searchTerm) && employeeToDelete == old(employeeToDelete)
    {
      if checked {
        selectedEmployees := Ids(employees);
      } else {
        selectedEmployees := [];
      }
    }

    /** `_onSearch`: lower-cases the input and keeps the matching employees. */
    method OnSearch(value: string)
      modifies this
      ensures searchTerm == ToLowerCase(value)
      ensures filteredEmployees == Filter(employees, FieldMatcher(searchTerm))
      ensures forall k :: 0 <= k < |filteredEmployees| ==> filteredEmployees[k] in employees && FieldsMatch(filteredEmployees[k], searchTerm)
      ensures forall k :: 0 <= k < |employees| && FieldsMatch(employees[k], searchTerm) ==> employees[k] in filteredEmployees
      ensures employees == old(employees) && currentPage == old(currentPage)
      ensures currentView == old(currentView) && selectedEmployees == old(selectedEmployees)
      ensures employeeToDelete == old(employeeToDelete)
    {
      searchTerm := ToLowerCase(value);
      SearchKeepsMatches(employees, searchTerm);
      filteredEmployees := Filter(employees, FieldMatcher(searchTerm));
    }

    /** `_clearSearch`: the whole list again. */
    method ClearSearch()
      modifies this
      ensures searchTerm == "" && filteredEmployees == employees
      ensures filteredEmployees == Filter(employees, FieldMatcher(searchTerm))
      ensures employees == old(employees) && currentPage == old(currentPage)
      ensures currentView == old(currentView) && selectedEmployees == old(selectedEmployees)
      ensures employeeToDelete == old(employeeToDelete)
    {
      searchTerm := "";
      filteredEmployees := employees;
      EmptyTermKeepsAll(employees);
    }

    /** The class's own `_performSearch(searchTerm)`: filters by the term as
      * given (not lower-cased) and pulls the page back into range. */
    method PerformSearch(term: string)
      modifies this
      ensures filteredEmployees == Filter(employees, FieldMatcher(term))
      ensures currentPage == ClampedPage(old(currentPage), CeilDiv(|filteredEmployees|, PageSize))
      ensures employees == old(employees) && searchTerm == old(searchTerm)
      ensures currentView == old(currentView) && selectedEmployees == old(selectedEmployees)
      ensures employeeToDelete == old(employeeToDelete)
    {
      filteredEmployees := Filter(employees, FieldMatcher(term));
      var totalPages := CeilDiv(|filteredEmployees|, PageSize);
      if currentPage > totalPages {
        currentPage := if totalPages > 0 then totalPages else 1;
      }
    }

    /** `_editEmployee`: selects the record in the store; the subscription
      * then copies the lists again. The navigation is not modelled. */
    method EditEmployee(e: Employee)
      modifies this, store
      ensures store.selectedEmployee == Some(e) && store.employees == old(store.employees)
      ensures employees == store.employees && filteredEmployees == store.employees
      ensures currentPage == old(currentPage) && employeeToDelete == old(employeeToDelete)
      ensures currentView == old(currentView) && searchTerm == old(searchTerm) && selectedEmployees == old(selectedEmployees)
    {
      store.SelectEmployee(e);
      OnStoreChange();
    }

    /** `_showDeleteConfirmation`: the record to delete, once the zero-delay
      * timer has run (the cleared value it sets first is overwritten). */
    method ShowDeleteConfirmation(e: Employee)
      modifies this
      ensures employeeToDelete == Some(e)
      ensures employees == old(employees) && filteredEmployees == old(filteredEmployees) && currentPage == old(currentPage)
      ensures currentView == old(currentView) && searchTerm == old(searchTerm) && selectedEmployees == old(selectedEmployees)
    {
      employeeToDelete := None;
      employeeToDelete := Some(e);
    }

    /** `_closeDeleteConfirmation`. */
    method CloseDeleteConfirmation()
      modifies this
      ensures employeeToDelete == None
      ensures employees == old(employees) && filteredEmployees == old(filteredEmployees) && currentPage == old(currentPage)
      ensures currentView == old(currentView) && searchTerm == old(searchTerm) && selectedEmployees == old(selectedEmployees)
    {
      employeeToDelete := None;
    }

    /** `_confirmDelete`: with a record pending, deletes its id from the store
      * (the subscription then copies the lists) and closes the dialog;
      * without one, does nothing. The toast is not modelled. */
    method ConfirmDelete()
      modifies this, store
      ensures old(employeeToDelete).Some? ==>
                && store.employees == WithoutId(old(store.employees), old(employeeToDelete).value.id)
                && employees == store.employees && filteredEmployees == store.employees
                && employeeToDelete == None
      ensures old(employeeToDelete).None? ==>
                store.employees == old(store.employees) && employees == old(employees) &&
                filteredEmployees == old(filteredEmployees) && employeeToDelete == None
      ensures store.selectedEmployee == old(store.selectedEmployee) && currentPage == old(currentPage)
      ensures currentView == old(currentView) && searchTerm == old(searchTerm) && selectedEmployees == old(selectedEmployees)
    {
      if employeeToDelete.Some? {
        store.DeleteEmployee(employeeToDelete.value.id);
        OnStoreChange();
        employeeToDelete := None;
      }
    }

    /** The rows `_renderTableView` and `_renderListView` show. */
    function PageRows(): (rows: seq<Employee>)
      reads this
      ensures |rows| <= PageSize
      ensures currentPage >= 1 ==> forall i :: 0 <= i < |rows| ==>
                (currentPage - 1) * PageSize + i < |filteredEmployees| && rows[i] == filteredEmployees[(currentPage - 1) * PageSize + i]
      ensures currentPage >= 1 ==>
                |rows| == if (currentPage - 1) * PageSize >= |filteredEmployees| then 0
                          else Min(PageSize, |filteredEmployees| - (currentPage - 1) * PageSize)
    {
      if currentPage >= 1 then PageContents(filteredEmployees, currentPage, PageSize); PageSlice(filteredEmployees, currentPage, PageSize)
      else PageSlice(filteredEmployees, currentPage, PageSize)
    }

    /** `_renderPagination`'s page numbers: the window over the pages of the
      * search results. */
    method RenderPageNumbers() returns (pageNumbers: seq<Entry>)
      ensures pageNumbers == Window(currentPage, CeilDiv(|filteredEmployees|, PageSize), MaxVisiblePages)
    {
      var totalPages := CeilDiv(|filteredEmployees|, PageSize);
      pageNumbers := BuildWindow(currentPage, totalPages, MaxVisiblePages);
    }

    /** `_prevPage`: one page back, never below 1. */
    method PrevPage()
      modifies this
      ensures old(currentPage) > 1 ==> currentPage == old(currentPage) - 1
      ensures old(currentPage) <= 1 ==> currentPage == old(currentPage)
      ensures filteredEmployees == old(filteredEmployees) && employees == old(employees)
      ensures currentView == old(currentView) && searchTerm == old(searchTerm)
      ensures selectedEmployees == old(selectedEmployees) && employeeToDelete == old(employeeToDelete)
    {
      if currentPage > 1 {
        currentPage := currentPage - 1;
      }
    }

    /** `_nextPage`: one page on while below the page count of the whole list. */
    method NextPage()
      modifies this
      ensures old(currentPage) < CeilDiv(|employees|, PageSize) ==> currentPage == old(currentPage) + 1
      ensures old(currentPage) >= CeilDiv(|employees|, PageSize) ==> currentPage == old(currentPage)
      ensures filteredEmployees == old(filteredEmployees) && employees == old(employees)
      ensures currentView == old(currentView) && searchTerm == old(searchTerm)
      ensures selectedEmployees == old(selectedEmployees) && employeeToDelete == old(employeeToDelete)
    {
      var totalPages := CeilDiv(|employees|, PageSize);
      if currentPage < totalPages {
        currentPage := currentPage + 1;
      }
    }

    /** The '<' button is disabled on page 1. */
    predicate PrevDisabled()
      reads this
    {
      currentPage == 1
    }

    /** The '>' button is disabled on the page equal to the page count of the
      * search results. */
    predicate NextDisabled()
      reads this
    {
      currentPage == CeilDiv(|filteredEmployees|, PageSize)
    }

    /** A click on '<': nothing while disabled, else `_prevPage`. */
    method ClickPrev()
      modifies this
      ensures old(currentPage) > 1 ==> currentPage == old(currentPage) - 1
      ensures old(currentPage) <= 1 ==> currentPage == old(currentPage)
      ensures filteredEmployees == old(filteredEmployees) && employees == old(employees)
      ensures currentView == old(currentView) && searchTerm == old(searchTerm)
      ensures selectedEmployees == old(selectedEmployees) && employeeToDelete == old(employeeToDelete)
    {
      if !PrevDisabled() {
        PrevPage();
      }
    }

    /** A click on '>': nothing while disabled, else `_nextPage`, which
      * checks the page count of the whole list instead. */
    method ClickNext()
      modifies this
      ensures (old(currentPage) != CeilDiv(|old(filteredEmployees)|, PageSize) &&
               old(currentPage) < CeilDiv(|employees|, PageSize)) ==> currentPage == old(currentPage) + 1
      ensures (old(currentPage) == CeilDiv(|old(filteredEmployees)|, PageSize) ||
               old(currentPage) >= CeilDiv(|employees|, PageSize)) ==> currentPage == old(currentPage)
      ensures filteredEmployees == old(filteredEmployees) && employees == old(employees)
      ensures currentView == old(currentView) && searchTerm == old(searchTerm)
      ensures selectedEmployees == old(selectedEmployees) && employeeToDelete == old(employeeToDelete)
    {
      if !NextDisabled() {
        NextPage();
      }
    }

    /** `_goToPage`: any page number the window offers. */
    method GoToPage(page: int)
      modifies this
      ensures currentPage == page
      ensures filteredEmployees == old(filteredEmployees) && employees == old(employees)
      ensures currentView == old(currentView) && searchTerm == old(searchTerm)
      ensures selectedEmployees == old(selectedEmployees) && employeeToDelete == old(employeeToDelete)
    {
      currentPage := page;
    }
  }
}
