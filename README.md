# Employee records app: a Dafny model of its bookkeeping

This project models the logic behind a small employee CRUD web application built from Lit components and Redux stores. The model covers:

- **The pagination window.** Given the current page, the page count and a size bound, the `<app-pagination>` component lists page numbers and `...` markers. The older list view builds the same kind of window, but switches to the ellipsis form above 5 pages instead of above maxVisible + 2. The model also covers when a click raises a page change.
- **The store reducers.**
  - The newer `employee` slice and the older `employees` slice each hold an ordered list of records (newest first) and a selected record.
  - Both have the reducers `setEmployees`, `deleteEmployee`, `selectEmployee`, `addEmployee` and `updateEmployee`.
  - The `localization` slice holds the language code.
- **The list screens' search and paging.**
  - The newer list page does a case-insensitive search on "first last". It shows 10 rows per page in list view and 4 otherwise, and offers `ceil(n / perPage)` pages.
  - The older list view searches five fields, keeps a selection of ids and confirms deletions. Its class also defines a search that pulls the page back into range, but that method is never reached (see below).
- **The forms.**
  - The newer form validates each field into an error map of translated messages: email is `\S+@\S+\.\S+`, phone is 10 to 15 digits. It refuses duplicate records in create mode and re-translates its errors when the language changes.
  - The older form has a create / confirm-update flow.
  - The add / edit page reads its mode and record id from the location path.
- **Translation lookup.** Each of the two modules looks a key up in the current locale's table and falls back to the key itself.

Each source file has its own module:

| module | file |
|---|---|
| `PaginationComponent` | `src/components/Pagination.js` |
| `EmployeeStore` | `src/store/employeeStore.js` |
| `LegacyStore` | `src/store/store.js` |
| `LocalizationStore` | `src/store/localizationStore.js` |
| `ListPage` | `src/pages/EmployeeListPage.js` |
| `FormComponent` | `src/components/EmployeeForm.js` |
| `ListView` | `src/views/employee-list-view.js` |
| `FormView` | `src/components/employee-form.js` |
| `FormPage` | `src/pages/EmployeeFormPage.js` |
| `UtilsI18n` | `src/utils/i18n.js` |
| `I18nIndex` | `src/i18n/index.js` |

Four modules are shared:

- `Wrappers`: `Option`, standing for `null` / `undefined`.
- `JsBuiltins`: the JavaScript built-ins the code relies on — `toLowerCase`, `includes`, `startsWith`, `split('/').pop()`, `\s`, `filter`, `slice` and `Math.ceil(n / d)`.
- `Records`: the employee record, and the searches by id both stores run.
- `Paging`: the slice arithmetic both list screens use.

The model follows the source's own form:

- Store slices and components whose methods update fields are classes; their methods say what they change.
- List building, searching, validation and lookup are functions. Each has a reference definition and lemmas.
- `_getPages` and `_renderPagination` build the window in loops. So does `_validateAll`, one field at a time. These are methods with loop invariants, proved equal to the reference functions `Window` and `ErrorsAfterFields`.

Store subscriptions are made explicit. Where a page dispatches and its subscription re-derives the page's state, the model calls the re-derivation right after the store call. A store singleton is an object handed to the page's constructor. Inputs that come from the outside are parameters:

- DOM events;
- `Date.now()` and `crypto.randomUUID()`, as a fresh id;
- `window.location.pathname`;
- the current language read by the form;
- the locale tables, as a `map<string, map<string, string>>`.

Two points about the code as written:

- The page count has no floor. `Math.ceil(filtered.length / perPage)` is 0 when nothing matches (src/pages/EmployeeListPage.js:60; src/views/employee-list-view.js:384). `JsBuiltins.CeilDivZero` states it.
- In the older list view the prototype method `_performSearch` (clamp included) is shadowed. The constructor assigns a debounced `_onSearch` to the instance property of the same name (src/views/employee-list-view.js:269), so the clamp is never reached. The search box calls `_onSearch` directly. `ListView.EmployeeListView.PerformSearch` models the shadowed method as written.

Behaviour of the code as written that the model keeps, with the lemma that states it:

- After a language change, an email or phone error carries the `emailRequired` / `phoneRequired` message instead of the `invalidEmail` / `invalidPhone` one it was raised with (`FormComponent.RelabelRenamesInvalid`).
- The older view's next-page button is disabled only on the page equal to the results' page count, and `_nextPage` checks the page count of the whole list. On a page past the results' count, such as page 1 of a search nothing matches, the button stays enabled and steps onto an empty page (`ListView.NextPageCanPassResults`, `ListView.NoResultsLeaveNextEnabled`).
- The older view's store subscription throws the search results away after every dispatch (`ListView.EmployeeListView.OnStoreChange`).

## Model

| member | source | states |
|---|---|---|
| PaginationComponent.Window | src/components/Pagination.js:27-45 | the reference window both pagers are proved to build: all pages when they fit, else page 1, the optional leading ellipsis, the run start..end, the optional trailing ellipsis, and page total |
| PaginationComponent.PageRun | src/components/Pagination.js:32 | the run lo..hi has hi - lo + 1 entries, none when lo > hi |
| PaginationComponent.PageRunEntries | src/components/Pagination.js:32 | the pages pushed by `for (i = lo; i <= hi; i++)` are lo, lo+1, …, hi: entry k is page lo+k |
| PaginationComponent.PageRunSnoc | src/components/Pagination.js:39 | one more loop step appends exactly the next page to the run |
| PaginationComponent.CompactWindow | src/components/Pagination.js:31-32 | when total <= maxVisible + 2 the list is exactly pages 1..total and holds no ellipsis |
| PaginationComponent.WideWindowShape | src/components/Pagination.js:33-42 | otherwise the list starts with page 1 and ends with page total; an ellipsis follows 1 iff max(2, current-2) > 2, and one precedes total iff min(total-1, current+2) < total-1 |
| PaginationComponent.WideEntries | src/components/Pagination.js:34-41 | a wide list entry by entry: its length, the two ends, the markers, and the middle run start..end numbered consecutively |
| PaginationComponent.PageRunGapsMarked | src/components/Pagination.js:32 | a plain run of pages starts and ends with a page and numbers neighbours consecutively |
| PaginationComponent.WindowInRange | src/components/Pagination.js:27-45 | every page number in the list lies in 1..total |
| PaginationComponent.WindowMarkersBetween | src/components/Pagination.js:38-40 | each ellipsis sits between two pages whose numbers are not adjacent, so it marks skipped pages |
| PaginationComponent.WindowConsecutive | src/components/Pagination.js:34-41 | two neighbouring page entries carry consecutive numbers |
| PaginationComponent.WindowIncreasing | src/components/Pagination.js:27-45 | of any two pages in the list, the earlier one has the smaller number |
| PaginationComponent.WindowWellFormed | src/components/Pagination.js:27-45 | page numbers lie in 1..total, every earlier page has a smaller number than every later one, neighbouring pages are consecutive, and an ellipsis stands exactly where pages are skipped |
| PaginationComponent.CurrentPageShown | src/components/Pagination.js:27-45 | a current page within 1..total always has its own button in the list |
| PaginationComponent.WindowExample | src/components/Pagination.js:27-45 | current 5, total 10, maxVisible 5 gives [1, …, 3, 4, 5, 6, 7, …, 10] |
| PaginationComponent.PushRun | src/components/Pagination.js:39 | the push loop appends the run lo..hi to the pages collected so far |
| PaginationComponent.BuildWindow | src/components/Pagination.js:27-45 | the loops of `_getPages` build exactly the reference window |
| PaginationComponent.Pagination.constructor | src/components/Pagination.js:10-15 | defaults are current 1, total 1, maxVisible 5, and their window is the single page [1] |
| PaginationComponent.Pagination.GetPages | src/components/Pagination.js:27-45 | `_getPages` returns the window with threshold maxVisible + 2 |
| PaginationComponent.Pagination.GoTo | src/components/Pagination.js:17-25 | a page-change event is raised iff the entry is a page other than the current one, and it carries that page |
| PaginationComponent.Pagination.PrevDisabled | src/components/Pagination.js:54 | the '<' button is disabled on page 1 |
| PaginationComponent.Pagination.NextDisabled | src/components/Pagination.js:71 | the '>' button is disabled on page total |
| PaginationComponent.Pagination.ClickPrev | src/components/Pagination.js:51-55 | the '<' button does nothing iff current is 1, and otherwise requests current-1 |
| PaginationComponent.Pagination.ClickNext | src/components/Pagination.js:68-72 | the '>' button does nothing iff current is total, and otherwise requests current+1 |
| Records.FindIndex | src/store/employeeStore.js:23 | `findIndex` by id: -1 iff no record has the id; otherwise the first index holding it |
| Records.Find | src/pages/EmployeeListPage.js:84 | `find` by id: none iff no record has the id; otherwise the first such record |
| Records.WithoutId | src/store/employeeStore.js:14 | the filter by id keeps exactly the records with another id, and only records of the list |
| Records.ReplaceById | src/store/employeeStore.js:22-27 | same length; the first record with the payload's id becomes the payload; every other position is unchanged; no record with the id means no change |
| Records.WithoutAbsentId | src/store/employeeStore.js:13-15 | deleting an id no record carries leaves the list as it was |
| Records.WithoutPresentId | src/store/employeeStore.js:13-15 | with unique ids, deleting a present id removes exactly its record, keeps the rest in order, and shortens the list by one |
| Records.WithoutIdKeepsUnique | src/store/employeeStore.js:13-15 | deletion keeps the ids unique |
| Records.ReplaceByIdKeepsUnique | src/store/employeeStore.js:22-27 | replacement by id keeps the ids unique |
| Records.PrependKeepsUnique | src/store/employeeStore.js:19-21 | prepending a record with a new id keeps the ids unique |
| Records.FromFormData | src/pages/EmployeeFormPage.js:52-55 | the record a form object stands for in the store: its `id` entry, if any, and the eight fields, a missing one read as empty |
| Records.ToFormData | src/components/EmployeeForm.js:28 | `{ ...selected }` has an `id` entry iff the record has an id |
| Records.FormDataRoundTrip | src/components/EmployeeForm.js:28 | copying a record into the form object and reading it back gives the same record |
| EmployeeStore.EmployeeSlice.constructor | src/store/employeeStore.js:5-8 | the initial state is an empty list with nothing selected |
| EmployeeStore.EmployeeSlice.SetEmployees | src/store/employeeStore.js:10-12 | the list becomes the payload; the selection is unchanged |
| EmployeeStore.EmployeeSlice.DeleteEmployee | src/store/employeeStore.js:13-15 | the list is filtered by id: no record with the id is left, the others keep their order, ids stay unique, the selection is unchanged |
| EmployeeStore.EmployeeSlice.SelectEmployee | src/store/employeeStore.js:16-18 | only the selection changes |
| EmployeeStore.EmployeeSlice.AddEmployee | src/store/employeeStore.js:19-21 | `unshift`: the list is [e] + old, one longer, with every old record one index later |
| EmployeeStore.EmployeeSlice.UpdateEmployee | src/store/employeeStore.js:22-27 | in-place replacement by id: same length, no change when the id is absent, ids stay unique |
| LegacyStore.EmployeesSlice.constructor | src/store/store.js:5-8 | the initial state is an empty list with nothing selected |
| LegacyStore.EmployeesSlice.SetEmployees | src/store/store.js:10-12 | the list becomes the payload; the selection is unchanged |
| LegacyStore.EmployeesSlice.DeleteEmployee | src/store/store.js:13-17 | the list is filtered by id: no record with the id is left, the others keep their order, ids stay unique |
| LegacyStore.EmployeesSlice.SelectEmployee | src/store/store.js:18-20 | only the selection changes |
| LegacyStore.EmployeesSlice.AddEmployee | src/store/store.js:21-23 | `[payload, ...employees]`: one longer, with every old record one index later |
| LegacyStore.EmployeesSlice.UpdateEmployee | src/store/store.js:24-31 | replacement by id: same length, no change when the id is absent, ids stay unique |
| LocalizationStore.LocalizationSlice.constructor | src/store/localizationStore.js:3-5 | the initial language is "en" |
| LocalizationStore.LocalizationSlice.SetLanguage | src/store/localizationStore.js:11-13 | the language becomes the payload, whatever it is |
| LocalizationStore.SetLanguageTwice | src/store/localizationStore.js:11-13 | the later of two changes wins, and repeating a change is the same as making it once |
| I18nIndex.EntryOrKey | src/i18n/index.js:12 | `table[key] \|\| key`: the entry when present and non-empty, else the key; the result is empty only for the empty key |
| I18nIndex.Language | src/i18n/index.js:11 | a non-empty override decides the language; an absent or empty one falls back to the store's |
| I18nIndex.Translate | src/i18n/index.js:10-13 | with no table for the chosen language the key is returned, otherwise that table's entry or the key |
| I18nIndex.OverrideWins | src/i18n/index.js:11 | with a non-empty override, the store's language does not matter |
| I18nIndex.EmptyOverrideFallsBack | src/i18n/index.js:11 | an absent override and an empty one both read the store's language |
| UtilsI18n.Translator.constructor | src/utils/i18n.js:9 | the module starts in English |
| UtilsI18n.Translator.SetLanguage | src/utils/i18n.js:11-14 | the language becomes the argument, with no check that a table exists |
| UtilsI18n.Translator.Translate | src/utils/i18n.js:16-18 | fails (the TypeError) iff there is no table for the current language, otherwise returns the entry or the key |
| UtilsI18n.SetLanguageThenTranslate | src/utils/i18n.js:11-18 | after `setLanguage(lang)` the lookup reads table lang, and fails when there is none |
| JsBuiltins.IsWhitespace | src/components/EmployeeForm.js:75 | the characters `\s` matches: WhiteSpace and LineTerminator of ECMA-262 |
| JsBuiltins.Includes | src/pages/EmployeeListPage.js:50 | the needle occurs in the string as a contiguous run |
| JsBuiltins.StartsWith | src/pages/EmployeeFormPage.js:29 | the string begins with the prefix |
| JsBuiltins.Filter | src/store/employeeStore.js:14 | `Array.prototype.filter`, never longer than its input |
| JsBuiltins.Min | src/components/Pagination.js:36 | the smaller of two numbers: at most each, and equal to one |
| JsBuiltins.Max | src/components/Pagination.js:35 | the larger of two numbers: at least each, and equal to one |
| JsBuiltins.ToLowerCase | src/pages/EmployeeListPage.js:50 | the same length; no upper-case ASCII letter is left; other characters are unchanged |
| JsBuiltins.ToLowerCaseIdempotent | src/pages/EmployeeListPage.js:50 | lower-casing twice is lower-casing once |
| JsBuiltins.LastSegment | src/pages/EmployeeFormPage.js:31 | `split('/').pop()`: the slash-free suffix after the last '/', or all of a slash-free string |
| JsBuiltins.Slice | src/pages/EmployeeListPage.js:59 | `slice(start, end)` for 0 <= start <= end reads xs[min(start, n)..min(end, n)] |
| JsBuiltins.CeilDiv | src/pages/EmployeeListPage.js:60 | `Math.ceil(n / d)` is the least r with n <= r * d |
| JsBuiltins.CeilDivZero | src/pages/EmployeeListPage.js:60 | the page count is 0 exactly when the list is empty |
| JsBuiltins.FilterMembers | src/pages/EmployeeListPage.js:48-52 | a filter keeps exactly the elements that pass its test, and nothing else |
| JsBuiltins.FilterAppend | src/pages/EmployeeListPage.js:48-52 | filtering distributes over concatenation, so the relative order is kept |
| JsBuiltins.FilterIdempotent | src/pages/EmployeeListPage.js:48-52 | filtering twice by the same test is filtering once |
| Paging.PageSlice | src/pages/EmployeeListPage.js:56-59 | the rows of page p are `slice((p-1)*perPage, (p-1)*perPage + perPage)` |
| Paging.PageContents | src/pages/EmployeeListPage.js:56-59 | page p shows at most perPage rows, those from index (p-1)*perPage on, in order, and exactly min(perPage, n - start) of them when any are left |
| Paging.PageSliceMembers | src/pages/EmployeeListPage.js:59 | every row a page shows is an element of the list |
| Paging.PageRowAt | src/pages/EmployeeListPage.js:56-59 | row m of page p is the element at index (p-1)*perPage + m |
| Paging.EveryResultOnItsPage | src/pages/EmployeeListPage.js:56-60 | every element of the list appears on one of the offered pages, at the place its index gives |
| Paging.PageBeyondTotalEmpty | src/pages/EmployeeListPage.js:56-60 | a page number past the page count shows nothing |
| ListPage.NameMatches | src/pages/EmployeeListPage.js:50 | the lower-cased "first last" contains the lower-cased search |
| ListPage.SearchResults | src/pages/EmployeeListPage.js:48-52 | the results are list elements whose "first last" contains the search, ignoring case, and every such element is among them |
| ListPage.PerPage | src/pages/EmployeeListPage.js:55 | 10 rows per page iff the view is "list", else 4 |
| ListPage.EmptySearchMatchesAll | src/pages/EmployeeListPage.js:48-52 | skipping the filter for an empty search gives what filtering by it would give |
| ListPage.SearchIgnoresCase | src/pages/EmployeeListPage.js:50 | the search text's case does not change the results |
| ListPage.SearchIdempotent | src/pages/EmployeeListPage.js:48-52 | searching the results again for the same text changes nothing |
| ListPage.ShownRowsMatch | src/pages/EmployeeListPage.js:46-61 | every row a page shows is a stored employee whose name matches the search |
| ListPage.DeletedNotShown | src/pages/EmployeeListPage.js:89-94 | after a deletion no page of any search shows the deleted id |
| ListPage.EmployeeListPage.constructor | src/pages/EmployeeListPage.js:25-33 | page 1, empty search, no rows, list view, dialog closed |
| ListPage.DeriveList | src/pages/EmployeeListPage.js:47-60 | the rows are the requested page of the search results and the count is ceil(results / perPage) |
| ListPage.EmployeeListPage.UpdateList | src/pages/EmployeeListPage.js:46-61 | the shown rows are the current page of the search results and the page count is ceil(results / perPage); the page, search, view and dialog are unchanged |
| ListPage.EmployeeListPage.ConnectedCallback | src/pages/EmployeeListPage.js:35-39 | the first derivation of rows and page count |
| ListPage.EmployeeListPage.OnSearchChange | src/pages/EmployeeListPage.js:63-68 | a new search starts again at page 1 and re-derives the rows |
| ListPage.EmployeeListPage.OnPageChange | src/pages/EmployeeListPage.js:70-74 | the requested page is shown, whatever its number |
| ListPage.EmployeeListPage.ToggleView | src/pages/EmployeeListPage.js:101-105 | a new view mode starts again at page 1 and re-derives the rows |
| ListPage.EmployeeListPage.OnEdit | src/pages/EmployeeListPage.js:76-80 | the record becomes the store's selection, the list is untouched, and the rows are re-derived |
| ListPage.EmployeeListPage.OnDelete | src/pages/EmployeeListPage.js:81-87 | the dialog opens on the first record with the id, or on none iff no record has it; nothing else changes |
| ListPage.EmployeeListPage.HandleConfirm | src/pages/EmployeeListPage.js:89-94 | the id is deleted from the store, the rows are re-derived, and the dialog closes with nothing pending |
| ListPage.EmployeeListPage.HandleCancel | src/pages/EmployeeListPage.js:96-99 | the dialog closes with nothing pending; nothing else changes |
| FormComponent.EmptyForm | src/components/EmployeeForm.js:51-62 | exactly the eight field names, each empty |
| FormComponent.EmailAccepted | src/components/EmployeeForm.js:75 | an ordinary address passes the email test |
| FormComponent.IsEmail | src/components/EmployeeForm.js:75 | `^\S+@\S+\.\S+$`: no whitespace, an '@' after at least one character, and a '.' after it with a character on each side |
| FormComponent.IsPhone | src/components/EmployeeForm.js:76 | `^[0-9]{10,15}$`: 10 to 15 ASCII digits |
| FormComponent.EmailFromParts | src/components/EmployeeForm.js:75 | every name@domain.suffix whose three parts are non-empty and whitespace-free passes the email test |
| FormComponent.EmailSplits | src/components/EmployeeForm.js:75 | every string that passes the email test splits into such a name, domain and suffix |
| FormComponent.EmailIff | src/components/EmployeeForm.js:75 | the email test accepts exactly the strings name@domain.suffix with non-empty whitespace-free parts |
| FormComponent.EmailRejected | src/components/EmployeeForm.js:75 | addresses missing the '@', the name, the dot or a domain part, or holding a space, fail it |
| FormComponent.ErrorKey | src/components/EmployeeForm.js:80 | `invalidEmail` for email, `invalidPhone` for phone, `<name>Required` for every other field |
| FormComponent.FieldInvalid | src/components/EmployeeForm.js:72-79 | a field is in error when its value is empty or fails the field's own test (email and phone only) |
| FormComponent.Message | src/components/EmployeeForm.js:81 | the message of a key, translated with the form's current language as override |
| FormComponent.ErrorsAfter | src/components/EmployeeForm.js:70-88 | the field has an error iff its value is empty or fails its test, with the translated message of its key; other fields' errors are untouched |
| FormComponent.ErrorsAfterFields | src/components/EmployeeForm.js:90-93 | the reference error map after validating a list of fields one after another |
| FormComponent.ErrorsAfterFieldsKeys | src/components/EmployeeForm.js:90-93 | after validating a list of fields, each listed field has an error iff its value is invalid; unlisted errors are untouched |
| FormComponent.ValidateAllSucceedsIff | src/components/EmployeeForm.js:90-94 | validation succeeds iff every field's value is valid and no error is left under a key outside the form's fields |
| FormComponent.IsDuplicate | src/components/EmployeeForm.js:101-105 | in create mode, some stored record has the form's email and phone |
| FormComponent.NoDuplicateOutsideCreate | src/components/EmployeeForm.js:101-105 | outside create mode nothing counts as a duplicate |
| FormComponent.StoredContactIsDuplicate | src/components/EmployeeForm.js:101-105 | in create mode a record whose email and phone are on file is a duplicate |
| FormComponent.Relabelled | src/components/EmployeeForm.js:40-42 | the same error keys, each re-translated as `<key>Required` |
| FormComponent.RelabelRenamesInvalid | src/components/EmployeeForm.js:37-42 | an email or phone error raised by validation carries the `invalidEmail` / `invalidPhone` message, and after a language change the `emailRequired` / `phoneRequired` one |
| FormComponent.OtherLanguage | src/components/EmployeeForm.js:44 | "tr" iff the language is "en", else "en" |
| FormComponent.ToUpper | src/components/EmployeeForm.js:80 | upper-cases an ASCII lower-case letter and leaves every other character alone |
| FormComponent.EmployeeForm.constructor | src/components/EmployeeForm.js:14-20 | create mode, the empty form, no errors, no banner |
| FormComponent.EmployeeForm.ConnectedCallback | src/components/EmployeeForm.js:22-30 | in edit mode the form is a copy of the selected record, or the empty form when none is selected; in other modes it is unchanged |
| FormComponent.EmployeeForm.ValidateField | src/components/EmployeeForm.js:70-88 | the error map is the one after this field's validation; the banner is cleared |
| FormComponent.EmployeeForm.OnInput | src/components/EmployeeForm.js:64-68 | the value is stored under the field's name, then the field is validated |
| FormComponent.EmployeeForm.ValidateAll | src/components/EmployeeForm.js:90-94 | the loop over the eight fields leaves the reference error map, and succeeds iff every field is valid and no stray error key remains |
| FormComponent.EmployeeForm.OnSubmit | src/components/EmployeeForm.js:96-117 | the form data is submitted iff validation succeeds and it is no duplicate; a duplicate shows the translated `duplicateRecord` banner |
| FormComponent.EmployeeForm.OnLanguageChange | src/components/EmployeeForm.js:37-49 | the errors are re-translated; the duplicate banner is re-translated iff it was shown in the other language |
| ListView.FieldsMatch | src/views/employee-list-view.js:321-329 | the term occurs in the lower-cased first name, last name, email, department or position |
| ListView.Ids | src/views/employee-list-view.js:313 | the ids of the list, in order |
| ListView.EmptyTermKeepsAll | src/views/employee-list-view.js:332-336 | the empty search term keeps every employee, so clearing equals searching for nothing |
| ListView.SearchKeepsMatches | src/views/employee-list-view.js:319-331 | the five-field search keeps exactly the matching employees, and repeating it changes nothing |
| ListView.ClampedPage | src/views/employee-list-view.js:349-352 | the page stays while within the page count, else becomes the last page, or 1 when there are no pages |
| ListView.NoMatchNoResults | src/views/employee-list-view.js:321-329 | a term no employee matches leaves no results |
| ListView.NextPageCanPassResults | src/views/employee-list-view.js:480-485 | on a view whose page is past the results' page count and below the whole list's, the '>' button is not disabled and the next page of the results has no rows |
| ListView.NoResultsLeaveNextEnabled | src/views/employee-list-view.js:319-329 | on page 1 after a search no employee matches, with more than 10 employees, the results are empty, '>' is not disabled, `_nextPage` would step, and page 2 has no rows |
| ListView.EmployeeListView.constructor | src/views/employee-list-view.js:258-280 | page 1, table view, no selection, no search; both lists copied from the store |
| ListView.EmployeeListView.OnStoreChange | src/views/employee-list-view.js:271-276 | after every dispatch both lists are the store's list again; the page, view, term and selection stay |
| ListView.EmployeeListView.ToggleView | src/views/employee-list-view.js:297-299 | only the view changes |
| ListView.EmployeeListView.SelectEmployee | src/views/employee-list-view.js:301-309 | a check appends the id; an uncheck removes every occurrence of it and keeps every other id |
| ListView.EmployeeListView.SelectAll | src/views/employee-list-view.js:311-317 | the selection becomes the ids of the whole list, or is cleared |
| ListView.EmployeeListView.OnSearch | src/views/employee-list-view.js:319-331 | the term is lower-cased and the results are exactly the matching employees of the list |
| ListView.EmployeeListView.ClearSearch | src/views/employee-list-view.js:332-336 | empty term, and the results are the whole list |
| ListView.EmployeeListView.PerformSearch | src/views/employee-list-view.js:338-354 | results filtered by the given term, and the page clamped into the new page count |
| ListView.EmployeeListView.EditEmployee | src/views/employee-list-view.js:356-359 | the record becomes the store's selection and the lists are copied again |
| ListView.EmployeeListView.ShowDeleteConfirmation | src/views/employee-list-view.js:361-368 | the record is pending deletion |
| ListView.EmployeeListView.CloseDeleteConfirmation | src/views/employee-list-view.js:370-372 | nothing is pending |
| ListView.EmployeeListView.ConfirmDelete | src/views/employee-list-view.js:374-381 | with a record pending, its id is deleted from the store, the lists are copied and nothing is pending; without one nothing changes |
| ListView.EmployeeListView.PageRows | src/views/employee-list-view.js:491-494 | at most ten rows: those of the results from index (page-1)*10 on, in order, and exactly min(10, results left) of them |
| ListView.EmployeeListView.RenderPageNumbers | src/views/employee-list-view.js:383-410 | the loops build the reference window over the results' page count, with threshold 5 |
| ListView.EmployeeListView.PrevPage | src/views/employee-list-view.js:474-478 | one page back when above 1, else unchanged |
| ListView.EmployeeListView.NextPage | src/views/employee-list-view.js:480-485 | one page on while below the whole list's page count, else unchanged |
| ListView.EmployeeListView.PrevDisabled | src/views/employee-list-view.js:416 | the '<' button is disabled on page 1 |
| ListView.EmployeeListView.NextDisabled | src/views/employee-list-view.js:451 | the '>' button is disabled on the page equal to the results' page count |
| ListView.EmployeeListView.ClickPrev | src/views/employee-list-view.js:414-416 | a click goes one page back from any page above 1 and leaves the page alone otherwise; nothing else changes |
| ListView.EmployeeListView.ClickNext | src/views/employee-list-view.js:450-451 | a click goes one page on exactly when the page differs from the results' page count and is below the whole list's; otherwise the page stays; nothing else changes |
| ListView.EmployeeListView.GoToPage | src/views/employee-list-view.js:487-489 | the page becomes the one clicked |
| FormView.Overlay | src/components/employee-form.js:128-138 | the edited record's id under the form's eight fields; no id for the empty object |
| FormView.UpdateReplacesEdited | src/components/employee-form.js:153-162 | confirming an edit of a stored record replaces it, at its own position, by the form's fields, and leaves the others alone |
| FormView.EmployeeFormView.constructor | src/components/employee-form.js:111-117 | create mode, the empty record, dialog closed, nothing pending |
| FormView.EmployeeFormView.HandleSubmit | src/components/employee-form.js:124-151 | in create mode the form's record is emitted under the fresh id; otherwise nothing is emitted, it becomes the pending update and the dialog opens |
| FormView.EmployeeFormView.HandleUpdateConfirm | src/components/employee-form.js:153-162 | emits the pending record, if any |
| FormView.EmployeeFormView.HandleUpdateCancel | src/components/employee-form.js:164-166 | the dialog closes; the pending record stays |
| FormView.SubmitThenConfirm | src/components/employee-form.js:146-162 | outside create mode a submit emits nothing, and the confirmation then emits the form over the edited record |
| FormPage.EditPathRoundTrip | src/pages/EmployeeFormPage.js:29-31 | the edit path of a slash-free id starts with the edit prefix and its last segment is the id |
| FormPage.UnchangedEditIsNoOp | src/pages/EmployeeFormPage.js:51-52 | submitting an edit of a record, left as prefilled, leaves the store's list unchanged |
| FormPage.EmployeeFormPage.constructor | src/pages/EmployeeFormPage.js:19-22 | no record yet |
| FormPage.EmployeeFormPage.ConnectedCallback | src/pages/EmployeeFormPage.js:24-38 | an edit path means edit mode, the id is its last segment and the record is the first stored one with that id; any other path means create mode and no record |
| FormPage.EmployeeFormPage.OnSubmit | src/pages/EmployeeFormPage.js:49-58 | edit mode updates the record with the form's id; otherwise the form is added first under the fresh id |
| FormPage.OpenEditPage | src/pages/EmployeeFormPage.js:29-33 | opening the edit page of a stored id selects edit mode and finds that record |

## Left out

- Rendering, CSS, the toast messages and modal components, and the `language-changed` re-renders: these are presentation, with no state of their own.
- Router navigation, `history.pushState` and `window.location`: the path is a parameter of `FormPage.EmployeeFormPage.ConnectedCallback`, and navigation is not modelled.
- The debounced `_performSearch` property of the older view (which nothing calls) and the zero-delay timer of `_showDeleteConfirmation`: timing is not modelled. `ListView.EmployeeListView.ShowDeleteConfirmation` collapses the timer to its final state.
- `Date.now()` and `crypto.randomUUID()` are a fresh id passed in. A `Date.now()` id is a number in the source and a string here.
- The locale tables (`en`, `tr`) are a parameter, an abstract map from language to table.
- `FormData` reads in the older form are the form's eight fields as a `Profile` value.
- The store's `subscribe` / `unsubscribe` mechanism: each subscription callback is called explicitly after the dispatch that triggers it.
- Regular expressions are explicit predicates, not a regular-expression engine. `IsEmail` states the language of `^\S+@\S+\.\S+$` directly.
- JsBuiltins.ToLowerCase: lower-cases ASCII letters only, not the full Unicode case mapping of `toLowerCase`.
- FormComponent.FieldInvalid: a field name that is a property of `Object.prototype` (such as `constructor`) would find a validator through the prototype chain in the source. Only the email and phone validators are modelled.
- ListPage.EmployeeListPage.constructor: the page count is undefined in the source until the first `_updateList`; the model starts it at 0.
- FormPage.EmployeeFormPage.constructor: the mode is undefined in the source until `connectedCallback`; the model starts it as the empty string.
- FormView.EmployeeFormView.HandleUpdateConfirm: does not model the navigation and toast that follow the event.
- Record ids compare as strings or absent (`undefined`). Comparisons between ids of different JavaScript types (a number against a string) are not modelled.
