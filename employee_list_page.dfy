/**
 * The employee list page (src/pages/EmployeeListPage.js): a name search over
 * the store's employees, cut into pages of 10 rows (list view) or 4 cards
 * (grid view), with a confirmation step before a record is deleted.
 */
module ListPage {
  import opened Wrappers
  import opened JsBuiltins
  import opened Records
  import opened EmployeeStore
  import opened Paging

  /** `${firstName} ${lastName}`.toLowerCase().includes(search.toLowerCase()). */
  predicate NameMatches(e: Employee, search: string) {
    Includes(ToLowerCase(e.profile.firstName + " " + e.profile.lastName), ToLowerCase(search))
  }

  /** The search test as the function handed to `filter`. */
  function Matcher(search: string): (keep: Employee -> bool) {
    (e: Employee) => NameMatches(e, search)
  }

  /** The filtered list: everything for an empty search, else the name matches. */
  function SearchResults(all: seq<Employee>, search: string): (r: seq<Employee>)
    ensures |r| <= |all|
    ensures forall k :: 0 <= k < |r| ==> r[k] in all && NameMatches(r[k], search)
    ensures forall k :: 0 <= k < |all| && NameMatches(all[k], search) ==> all[k] in r
  {
    if search == "" then
      IncludesEmpty(ToLowerCase(search));
      assert forall e: Employee :: ToLowerCase(e.profile.firstName + " " + e.profile.lastName) == ToLowerCase(e.profile.firstName + " " + e.profile.lastName);
      assert forall k :: 0 <= k < |all| ==> NameMatches(all[k], search) by {
        forall k | 0 <= k < |all| ensures NameMatches(all[k], search) {
          IncludesEmpty(ToLowerCase(all[k].profile.firstName + " " + all[k].profile.lastName));
        }
      }
      all
    else
      FilterMembers(all, Matcher(search));
      Filter(all, Matcher(search))
  }

  /** Rows per page: 10 in list view, 4 otherwise. */
  function PerPage(viewMode: string): (r: int)
    ensures r > 0
    ensures r == 10 <==> viewMode == "list"
    ensures r == 4 <==> viewMode != "list"
  {
    if viewMode == "list" then 10 else 4
  }

  /** The short-cut for an empty search agrees with filtering by it. */
  lemma EmptySearchMatchesAll(all: seq<Employee>)
    ensures Filter(all, Matcher("")) == all
  {
    forall k | 0 <= k < |all| ensures Matcher("")(all[k]) {
      IncludesEmpty(ToLowerCase(all[k].profile.firstName + " " + all[k].profile.lastName));
    }
    FilterKeepsAll(all, Matcher(""));
  }

  /** The search ignores the case of the search text. */
  lemma SearchIgnoresCase(all: seq<Employee>, search: string)
    ensures SearchResults(all, search) == SearchResults(all, ToLowerCase(search))
  {
    ToLowerCaseIdempotent(search);
    if search != "" {
      FilterCongruent(all, Matcher(search), Matcher(ToLowerCase(search)));
    }
  }

  /** Searching the results again for the same text changes nothing. */
  lemma SearchIdempotent(all: seq<Employee>, search: string)
    ensures SearchResults(SearchResults(all, search), search) == SearchResults(all, search)
  {
    if search != "" {
      FilterIdempotent(all, Matcher(search));
    }
  }

  /** Every row a page shows is a stored employee whose name matches the search. */
  lemma ShownRowsMatch(all: seq<Employee>, search: string, page: int, perPage: int)
    ensures var shown := PageSlice(SearchResults(all, search), page, perPage);
            forall k :: 0 <= k < |shown| ==> shown[k] in all && NameMatches(shown[k], search)
  {
    var filtered := SearchResults(all, search);
    PageSliceMembers(filtered, page, perPage);
  }

  /** Once a record is deleted, no page of any search shows its id. */
  lemma DeletedNotShown(all: seq<Employee>, id: Id, search: string, page: int, perPage: int)
    ensures var shown := PageSlice(SearchResults(WithoutId(all, id), search), page, perPage);
            forall k :: 0 <= k < |shown| ==> shown[k].id != id
  {
    var rest := WithoutId(all, id);
    ShownRowsMatch(rest, search, page, perPage);
    var shown := PageSlice(SearchResults(rest, search), page, perPage);
    forall k | 0 <= k < |shown| ensures shown[k].id != id {
      var j :| 0 <= j < |rest| && rest[j] == shown[k];
    }
  }

  /** The computation of `_updateList`: filter, cut out the page, count the pages. */
  method DeriveList(all: seq<Employee>, search: string, page: int, viewMode: string)
    returns (rows: seq<Employee>, totalPages: nat)
    ensures rows == PageSlice(SearchResults(all, search), page, PerPage(viewMode))
    ensures totalPages == CeilDiv(|SearchResults(all, search)|, PerPage(viewMode))
  {
    var filtered := if search != "" then Filter(all, Matcher(search)) else all;
    assert filtered == SearchResults(all, search);
    var perPage := if viewMode == "list" then 10 else 4;
    assert perPage == PerPage(viewMode);
    var start := (page - 1) * perPage;
    var end := start + perPage;
    rows := Slice(filtered, start, end);
    totalPages := CeilDiv(|filtered|, perPage);
  }

  class EmployeeListPage {
    /** The application store's employee slice. */
    const store: EmployeeSlice
    var page: int
    var search: string
    var employees: seq<Employee>
    var viewMode: string
    var totalPages: nat
    var showConfirm: bool
    var employeeToDelete: Option<Employee>

    /** The shown rows and the page count are those of the current search,
      * page and view over the store's list. */
    ghost predicate Derived()
      reads this, store
    {
      var filtered := SearchResults(store.employees, search);
      && employees == PageSlice(filtered, page, PerPage(viewMode))
      && totalPages == CeilDiv(|filtered|, PerPage(viewMode))
    }

    /** Page 1, no search, list view, no dialog. The page count is undefined in
      * the source until the first `_updateList`; it reads 0 here. */
    constructor (store: EmployeeSlice)
      ensures this.store == store
      ensures page == 1 && search == "" && employees == [] && viewMode == "list"
      ensures totalPages == 0 && !showConfirm && employeeToDelete == None
    {
      this.store := store;
      page, search, employees, viewMode := 1, "", [], "list";
      totalPages, showConfirm, employeeToDelete := 0, false, None;
    }

    /** `_updateList`: re-derives the shown rows and the page count. */
    method UpdateList()
      modifies this
      ensures Derived()
      ensures page == old(page) && search == old(search) && viewMode == old(viewMode)
      ensures showConfirm == old(showConfirm) && employeeToDelete == old(employeeToDelete)
    {
      employees, totalPages := DeriveList(store.employees, search, page, viewMode);
    }

    /** `connectedCallback`: the first derivation. The store subscription that
      * repeats it after every dispatch is made explicit in the methods below. */
    method ConnectedCallback()
      modifies this
      ensures Derived()
      ensures page == old(page) && search == old(search) && viewMode == old(viewMode)
      ensures showConfirm == old(showConfirm) && employeeToDelete == old(employeeToDelete)
    {
      UpdateList();
    }

    /** `_onSearchChange`: a new search text starts again at page 1. */
    method OnSearchChange(detail: string)
      modifies this
      ensures search == detail && page == 1 && viewMode == old(viewMode)
      ensures Derived()
      ensures showConfirm == old(showConfirm) && employeeToDelete == old(employeeToDelete)
    {
      search := detail;
      page := 1;
      UpdateList();
    }

    /** `_onPageChange`: shows the requested page, whatever its number. */
    method OnPageChange(detail: int)
      modifies this
      ensures page == detail && search == old(search) && viewMode == old(viewMode)
      ensures Derived()
      ensures showConfirm == old(showConfirm) && employeeToDelete == old(employeeToDelete)
    {
      page := detail;
      UpdateList();
    }

    /** `_toggleView`: a new view mode starts again at page 1. */
    method ToggleView(mode: string)
      modifies this
      ensures viewMode == mode && page == 1 && search == old(search)
      ensures Derived()
      ensures showConfirm == old(showConfirm) && employeeToDelete == old(employeeToDelete)
    {
      viewMode := mode;
      page := 1;
      UpdateList();
    }

    /** `_onEdit`: selects the record in the store (the subscription then
      * re-derives the list); the navigation to the edit route is not modelled. */
    method OnEdit(e: Employee)
      modifies this, store
      ensures store.selectedEmployee == Some(e) && store.employees == old(store.employees)
      ensures page == old(page) && search == old(search) && viewMode == old(viewMode)
      ensures Derived()
      ensures showConfirm == old(showConfirm) && employeeToDelete == old(employeeToDelete)
    {
      store.SelectEmployee(e);
      UpdateList();
    }

    /** `_onDelete`: looks the record up and opens the confirmation dialog. */
    method OnDelete(id: Id)
      modifies this
      ensures showConfirm
      ensures employeeToDelete == Find(store.employees, id)
      ensures employeeToDelete.None? <==> forall k :: 0 <= k < |store.employees| ==> store.employees[k].id != id
      ensures employees == old(employees) && page == old(page) && search == old(search)
      ensures viewMode == old(viewMode) && totalPages == old(totalPages)
    {
      var found := Find(store.employees, id);
      employeeToDelete := found;
      showConfirm := true;
    }

    /** `_handleConfirm`: deletes the record from the store (the subscription
      * then re-derives the list) and closes the dialog. */
    method HandleConfirm(id: Id)
      modifies this, store
      ensures store.employees == WithoutId(old(store.employees), id)
      ensures store.selectedEmployee == old(store.selectedEmployee)
      ensures !showConfirm && employeeToDelete == None
      ensures page == old(page) && search == old(search) && viewMode == old(viewMode)
      ensures Derived()
    {
      store.DeleteEmployee(id);
      UpdateList();
      employeeToDelete := None;
      showConfirm := false;
    }

    /** `_handleCancel`: closes the dialog and forgets the record. */
    method HandleCancel()
      modifies this
      ensures !showConfirm && employeeToDelete == None
      ensures employees == old(employees) && page == old(page) && search == old(search)
      ensures viewMode == old(viewMode) && totalPages == old(totalPages)
    {
      employeeToDelete := None;
      showConfirm := false;
    }
  }
}
