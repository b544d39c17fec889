/**
 * Employee records and the searches both store slices run over their ordered
 * list: `findIndex` / `find` by id, `filter(emp => emp.id !== id)`, and
 * replacement of the first record carrying an id.
 */
module Records {
  import opened Wrappers
  import opened JsBuiltins

  /** An identifier as JavaScript's `===` sees it: None is `undefined`. */
  type Id = Option<string>

  /** The eight fields of the employee form. */
  datatype Profile = Profile(
    firstName: string,
    lastName: string,
    dateOfBirth: string,
    dateOfEmployment: string,
    phone: string,
    email: string,
    department: string,
    position: string)

  datatype Employee = Employee(id: Id, profile: Profile)

  /** No two records of the list share an id. */
  ghost predicate UniqueIds(xs: seq<Employee>) {
    forall i, j :: 0 <= i < j < |xs| ==> xs[i].id != xs[j].id
  }

  /** `xs.findIndex(emp => emp.id === id)`. */
  function FindIndex(xs: seq<Employee>, id: Id): (r: int)
    ensures -1 <= r < |xs|
    ensures r == -1 <==> forall k :: 0 <= k < |xs| ==> xs[k].id != id
    ensures 0 <= r ==> xs[r].id == id && forall k :: 0 <= k < r ==> xs[k].id != id
    decreases |xs|
  {
    if xs == [] then -1
    else if xs[0].id == id then 0
    else
      var k := FindIndex(xs[1..], id);
      if k == -1 then -1 else k + 1
  }

  /** `xs.find(emp => emp.id === id)`; None is `undefined`. */
  function Find(xs: seq<Employee>, id: Id): (r: Option<Employee>)
    ensures r.None? <==> forall k :: 0 <= k < |xs| ==> xs[k].id != id
    ensures forall k :: 0 <= k < |xs| && xs[k].id == id && (forall j :: 0 <= j < k ==> xs[j].id != id) ==>
              r == Some(xs[k])
  {
    var k := FindIndex(xs, id);
    if k == -1 then None else Some(xs[k])
  }

  /** The test `emp => emp.id !== id`. */
  function OtherId(id: Id): (keep: Employee -> bool) {
    (e: Employee) => e.id != id
  }

  /** `xs.filter(emp => emp.id !== id)`. */
  function WithoutId(xs: seq<Employee>, id: Id): (r: seq<Employee>)
    ensures forall k :: 0 <= k < |r| ==> r[k].id != id && r[k] in xs
    ensures forall k :: 0 <= k < |xs| && xs[k].id != id ==> xs[k] in r
  {
    FilterMembers(xs, OtherId(id));
    Filter(xs, OtherId(id))
  }

  /** The list after `xs[xs.findIndex(emp => emp.id === e.id)] = e`, a write
    * that is skipped when no record carries e's id. */
  function ReplaceById(xs: seq<Employee>, e: Employee): (r: seq<Employee>)
    ensures |r| == |xs|
    ensures FindIndex(xs, e.id) == -1 ==> r == xs
    ensures 0 <= FindIndex(xs, e.id) ==> r[FindIndex(xs, e.id)] == e
    ensures forall k :: 0 <= k < |xs| && k != FindIndex(xs, e.id) ==> r[k] == xs[k]
  {
    var index := FindIndex(xs, e.id);
    if index == -1 then xs else xs[index := e]
  }

  /** When no record carries the id, deleting it leaves the list as it was. */
  lemma WithoutAbsentId(xs: seq<Employee>, id: Id)
    requires FindIndex(xs, id) == -1
    ensures WithoutId(xs, id) == xs
  {
    FilterKeepsAll(xs, OtherId(id));
  }

  /** With unique ids, deleting a present id removes exactly its one record and
    * keeps every other record, in order. */
  lemma WithoutPresentId(xs: seq<Employee>, id: Id)
    requires UniqueIds(xs)
    requires 0 <= FindIndex(xs, id)
    ensures var i := FindIndex(xs, id);
            WithoutId(xs, id) == xs[..i] + xs[i + 1..] && |WithoutId(xs, id)| == |xs| - 1
  {
    var i := FindIndex(xs, id);
    forall k | 0 <= k < |xs| && k != i ensures OtherId(id)(xs[k]) {
      if k > i {
        assert xs[i].id != xs[k].id;
      }
    }
    FilterRemovesOne(xs, i, OtherId(id));
  }

  /** Deleting records keeps the ids unique. */
  lemma {:induction false} WithoutIdKeepsUnique(xs: seq<Employee>, id: Id)
    requires UniqueIds(xs)
    ensures UniqueIds(WithoutId(xs, id))
  {
    if xs != [] {
      var rest := WithoutId(xs[1..], id);
      WithoutIdKeepsUnique(xs[1..], id);
      if xs[0].id != id {
        var r := [xs[0]] + rest;
        assert WithoutId(xs, id) == r;
        forall i, j | 0 <= i < j < |r| ensures r[i].id != r[j].id {
          if i == 0 {
            assert r[j] == rest[j - 1];
            assert rest[j - 1] in xs[1..];
          } else {
            assert r[i] == rest[i - 1] && r[j] == rest[j - 1];
          }
        }
      } else {
        assert WithoutId(xs, id) == rest;
      }
    }
  }

  /** Replacing a record by id keeps the ids unique. */
  lemma ReplaceByIdKeepsUnique(xs: seq<Employee>, e: Employee)
    requires UniqueIds(xs)
    ensures UniqueIds(ReplaceById(xs, e))
  {
  }

  /** Prepending a record whose id is new keeps the ids unique. */
  lemma PrependKeepsUnique(xs: seq<Employee>, e: Employee)
    requires UniqueIds(xs)
    requires FindIndex(xs, e.id) == -1
    ensures UniqueIds([e] + xs)
  {
  }

  // ------------------------------------------------- the form's plain object

  /** `data[name]`, reading a missing property as the empty string (both are
    * falsy for the form's checks). */
  function FieldValue(data: map<string, string>, name: string): (v: string) {
    if name in data then data[name] else ""
  }

  /** `{ ...e }`: a record as the plain object the form edits. */
  function ToFormData(e: Employee): (m: map<string, string>)
    ensures "id" in m <==> e.id.Some?
  {
    var p := e.profile;
    var fields := map[
      "firstName" := p.firstName, "lastName" := p.lastName,
      "dateOfBirth" := p.dateOfBirth, "dateOfEmployment" := p.dateOfEmployment,
      "phone" := p.phone, "email" := p.email,
      "department" := p.department, "position" := p.position];
    if e.id.Some? then fields["id" := e.id.value] else fields
  }

  /** The record a plain form object stands for once it is in the store. */
  function FromFormData(m: map<string, string>): (e: Employee) {
    Employee(
      if "id" in m then Some(m["id"]) else None,
      Profile(
        FieldValue(m, "firstName"), FieldValue(m, "lastName"),
        FieldValue(m, "dateOfBirth"), FieldValue(m, "dateOfEmployment"),
        FieldValue(m, "phone"), FieldValue(m, "email"),
        FieldValue(m, "department"), FieldValue(m, "position")))
  }

  /** Copying a record into the form and reading it back loses nothing. */
  lemma FormDataRoundTrip(e: Employee)
    ensures FromFormData(ToFormData(e)) == e
  {
  }
}
