/**
 * The newer employee form (src/components/EmployeeForm.js): eight text
 * fields, per-field validation into an error map of translated messages, a
 * duplicate check on submit in create mode, and re-translation of the
 * messages when the language changes.
 */
module FormComponent {
  import opened Wrappers
  import opened JsBuiltins
  import opened Records
  import opened I18nIndex

  /** The keys of `_getEmptyForm()`, in order. */
  const FieldNames: seq<string> :=
    ["firstName", "lastName", "dateOfBirth", "dateOfEmployment", "phone", "email", "department", "position"]

  /** `_getEmptyForm()`: every field present and empty. */
  function EmptyForm(): (m: map<string, string>)
    ensures forall k :: k in m <==> k in FieldNames
    ensures forall k :: k in m ==> m[k] == ""
  {
    map k | k in FieldNames :: ""
  }

  /** `/^\S+@\S+\.\S+$/.test(s)`: no whitespace anywhere, an '@' after at least
    * one character, and a '.' with at least one character on each side after it. */
  predicate IsEmail(s: string) {
    && NoWhitespace(s)
    && exists i, j | 1 <= i && i + 2 <= j && j + 2 <= |s| :: s[i] == '@' && s[j] == '.'
  }

  /** `\S*`: no character of s is whitespace. */
  predicate NoWhitespace(s: string) {
    forall k | 0 <= k < |s| :: !IsWhitespace(s[k])
  }

  /** s is name@domain.suffix with each part a non-empty run of non-whitespace
    * (the three `\S+` of the email pattern). */
  predicate EmailParts(s: string, name: string, domain: string, suffix: string) {
    && |name| > 0 && |domain| > 0 && |suffix| > 0
    && NoWhitespace(name) && NoWhitespace(domain) && NoWhitespace(suffix)
    && s == name + "@" + domain + "." + suffix
  }

  /** `/^[0-9]{10,15}$/.test(s)`. */
  predicate IsPhone(s: string) {
    10 <= |s| <= 15 && forall k | 0 <= k < |s| :: IsAsciiDigit(s[k])
  }

  /** Every string the email pattern describes passes the email test. */
  lemma EmailFromParts(name: string, domain: string, suffix: string)
    requires |name| > 0 && |domain| > 0 && |suffix| > 0
    requires NoWhitespace(name) && NoWhitespace(domain) && NoWhitespace(suffix)
    ensures IsEmail(name + "@" + domain + "." + suffix)
  {
    var s := name + "@" + domain + "." + suffix;
    var i, j := |name|, |name| + 1 + |domain|;
    assert s[i] == '@' && s[j] == '.';
    forall k | 0 <= k < |s| ensures !IsWhitespace(s[k]) {
      if k < i {
        assert s[k] == name[k];
      } else if i < k < j {
        assert s[k] == domain[k - i - 1];
      } else if j < k {
        assert s[k] == suffix[k - j - 1];
      }
    }
  }

  /** Every string that passes the email test is one the pattern describes. */
  lemma EmailSplits(s: string)
    requires IsEmail(s)
    ensures exists name, domain, suffix :: EmailParts(s, name, domain, suffix)
  {
    var i, j :| 1 <= i && i + 2 <= j && j + 2 <= |s| && s[i] == '@' && s[j] == '.';
    var name, domain, suffix := s[..i], s[i + 1..j], s[j + 1..];
    assert s == name + "@" + domain + "." + suffix;
    assert EmailParts(s, name, domain, suffix);
  }

  /** The email test accepts exactly the strings name@domain.suffix. */
  lemma EmailIff(s: string)
    ensures IsEmail(s) <==> exists name, domain, suffix :: EmailParts(s, name, domain, suffix)
  {
    if IsEmail(s) {
      EmailSplits(s);
    }
    if exists name, domain, suffix :: EmailParts(s, name, domain, suffix) {
      var name, domain, suffix :| EmailParts(s, name, domain, suffix);
      EmailFromParts(name, domain, suffix);
    }
  }

  /** An ordinary address passes the email test. */
  lemma EmailAccepted()
    ensures IsEmail("ada@example.com")
  {
    var good := "ada@example.com";
    assert good[3] == '@' && good[11] == '.';
  }

  /** Addresses missing the '@', the name, the domain's dot or its parts, or
    * holding a space fail the email test. */
  lemma EmailRejected()
    ensures !IsEmail("ada.example.com")
    ensures !IsEmail("@example.com")
    ensures !IsEmail("ada@example")
    ensures !IsEmail("ada@.com")
    ensures !IsEmail("ada @example.com")
  {
    var noDot := "ada@example";
    assert forall j | 0 <= j < |noDot| :: noDot[j] != '.' || j < 3;
    var early := "ada@.com";
    assert forall i, j | 1 <= i && i + 2 <= j && j + 2 <= |early| :: !(early[i] == '@' && early[j] == '.');
    var spaced := "ada @example.com";
    assert IsWhitespace(spaced[3]);
  }

  /** `required || validators[name]()`: an empty value, or a value the
    * field's own test refuses (only email and phone have one). */
  predicate FieldInvalid(name: string, value: string) {
    || value == ""
    || (name == "email" && !IsEmail(value))
    || (name == "phone" && !IsPhone(value))
  }

  /** The message key of a field's error: `invalidEmail`, `invalidPhone`, or
    * `<name>Required`, chosen by the field alone (an empty email is also
    * `invalidEmail`). */
  function ErrorKey(name: string): (key: string)
    ensures name == "email" ==> key == "invalidEmail"
    ensures name == "phone" ==> key == "invalidPhone"
    ensures name != "email" && name != "phone" ==> key == name + "Required"
  {
    if name == "email" then "invalidEmail"
    else if name == "phone" then "invalidPhone"
    else name + "Required"
  }

  /** `translate(key, this.currentLang)`. */
  function Message(translations: map<string, Table>, lang: string, key: string): (msg: string) {
    Translate(translations, lang, key, Some(lang))
  }

  /** The error map after `_validateField(name, value)`. */
  function ErrorsAfter(errors: map<string, string>, name: string, value: string,
                       translations: map<string, Table>, lang: string): (r: map<string, string>)
    ensures name in r <==> FieldInvalid(name, value)
    ensures FieldInvalid(name, value) ==> r[name] == Message(translations, lang, ErrorKey(name))
    ensures forall k :: k != name ==> (k in r <==> k in errors)
    ensures forall k :: k != name && k in errors ==> r[k] == errors[k]
  {
    if FieldInvalid(name, value) then errors[name := Message(translations, lang, ErrorKey(name))]
    else errors - {name}
  }

  /** The error map after validating `fields` one after another against `data`. */
  function ErrorsAfterFields(errors: map<string, string>, data: map<string, string>, fields: seq<string>,
                             translations: map<string, Table>, lang: string): (r: map<string, string>)
    decreases |fields|
  {
    if fields == [] then errors
    else
      var last := fields[|fields| - 1];
      ErrorsAfter(ErrorsAfterFields(errors, data, fields[..|fields| - 1], translations, lang),
                  last, FieldValue(data, last), translations, lang)
  }

  /** After validating a list of fields, a listed field has an error exactly
    * when its value is invalid, and the errors of unlisted fields are untouched. */
  lemma {:induction false} ErrorsAfterFieldsKeys(errors: map<string, string>, data: map<string, string>,
                                                 fields: seq<string>, translations: map<string, Table>, lang: string)
    ensures var r := ErrorsAfterFields(errors, data, fields, translations, lang);
            && (forall f :: f in fields ==> (f in r <==> FieldInvalid(f, FieldValue(data, f))))
            && (forall k :: k !in fields ==> (k in r <==> k in errors))
            && (forall k :: k !in fields && k in errors ==> r[k] == errors[k])
    decreases |fields|
  {
    if fields != [] {
      var init := fields[..|fields| - 1];
      ErrorsAfterFieldsKeys(errors, data, init, translations, lang);
      assert fields == init + [fields[|fields| - 1]];
    }
  }

  /** `_validateAll()` succeeds exactly when every field holds a valid value
    * and no error is left under a key outside the form's fields. */
  lemma ValidateAllSucceedsIff(errors: map<string, string>, data: map<string, string>,
                               translations: map<string, Table>, lang: string)
    ensures ErrorsAfterFields(errors, data, FieldNames, translations, lang) == map[] <==>
            (forall k :: k in errors ==> k in FieldNames) &&
            (forall f :: f in FieldNames ==> !FieldInvalid(f, FieldValue(data, f)))
  {
    var r := ErrorsAfterFields(errors, data, FieldNames, translations, lang);
    ErrorsAfterFieldsKeys(errors, data, FieldNames, translations, lang);
    if (forall k :: k in errors ==> k in FieldNames) && (forall f :: f in FieldNames ==> !FieldInvalid(f, FieldValue(data, f))) {
      assert forall k :: k !in r;
    }
  }

  /** `all.some(emp => emp.email === data.email && emp.phone === data.phone &&
    * mode === 'create')`. */
  predicate IsDuplicate(all: seq<Employee>, data: map<string, string>, mode: string) {
    mode == "create" &&
    exists k | 0 <= k < |all| :: all[k].profile.email == FieldValue(data, "email") && all[k].profile.phone == FieldValue(data, "phone")
  }

  /** Outside create mode nothing counts as a duplicate. */
  lemma NoDuplicateOutsideCreate(all: seq<Employee>, data: map<string, string>, mode: string)
    requires mode != "create"
    ensures !IsDuplicate(all, data, mode)
  {
  }

  /** A record whose email and phone are already on file is a duplicate in create mode. */
  lemma StoredContactIsDuplicate(all: seq<Employee>, k: int)
    requires 0 <= k < |all|
    ensures IsDuplicate(all, ToFormData(all[k]), "create")
  {
  }

  /** The error map after `_onLanguageChange`: the same keys, each message
    * replaced by the translation of `<key>Required`. */
  function Relabelled(errors: map<string, string>, translations: map<string, Table>, lang: string): (r: map<string, string>)
    ensures forall k :: k in r <==> k in errors
    ensures forall k :: k in r ==> r[k] == Message(translations, lang, k + "Required")
  {
    map k | k in errors :: Message(translations, lang, k + "Required")
  }

  /** An email or phone error raised by validation carries the `invalid…`
    * message; after a language change the same error carries the
    * `<field>Required` message instead. */
  lemma RelabelRenamesInvalid(errors: map<string, string>, name: string, value: string,
                              translations: map<string, Table>, raisedIn: string, lang: string)
    requires name == "email" || name == "phone"
    requires FieldInvalid(name, value)
    ensures var raised := ErrorsAfter(errors, name, value, translations, raisedIn);
            && raised[name] == Message(translations, raisedIn, if name == "email" then "invalidEmail" else "invalidPhone")
            && Relabelled(raised, translations, lang)[name] == Message(translations, lang, name + "Required")
  {
  }

  /** The language `_onLanguageChange` takes the banner to have been shown in. */
  function OtherLanguage(lang: string): (r: string)
    ensures r == "tr" <==> lang == "en"
    ensures r != "tr" ==> r == "en"
  {
    if lang == "en" then "tr" else "en"
  }

  class EmployeeForm {
    /** The locale tables; the current language is a parameter of each method. */
    const translations: map<string, Table>
    var mode: string
    var formData: map<string, string>
    var errors: map<string, string>
    var formError: string

    /** Create mode, an empty form, no errors, no banner. */
    constructor (translations: map<string, Table>)
      ensures this.translations == translations
      ensures mode == "create" && formData == EmptyForm() && errors == map[] && formError == ""
    {
      this.translations := translations;
      mode := "create";
      formData := EmptyForm();
      errors := map[];
      formError := "";
    }

    /** `connectedCallback`: in edit mode the form is prefilled from the
      * store's selected record, or emptied when none is selected. */
    method ConnectedCallback(selected: Option<Employee>)
      modifies this
      ensures mode == "edit" && selected.Some? ==> formData == ToFormData(selected.value)
      ensures mode == "edit" && selected.None? ==> formData == EmptyForm()
      ensures mode != "edit" ==> formData == old(formData)
      ensures mode == old(mode) && errors == old(errors) && formError == old(formError)
    {
      if mode == "edit" {
        formData := if selected.Some? then ToFormData(selected.value) else EmptyForm();
      }
    }

    /** `_validateField`: records or clears the field's error, clears the banner. */
    method ValidateField(name: string, value: string, lang: string)
      modifies this
      ensures errors == ErrorsAfter(old(errors), name, value, translations, lang)
      ensures name in errors <==> FieldInvalid(name, value)
      ensures formError == ""
      ensures mode == old(mode) && formData == old(formData)
    {
      var newErrors := errors;
      var required := value == "";
      var invalid := (name == "email" && !IsEmail(value)) || (name == "phone" && !IsPhone(value));
      if required || invalid {
        var key := if name == "email" || name == "phone" then "invalid" + [ToUpper(name[0])] + name[1..] else name + "Required";
        assert key == ErrorKey(name);
        newErrors := newErrors[name := Message(translations, lang, key)];
      } else {
        newErrors := newErrors - {name};
      }
      errors := newErrors;
      formError := "";
    }

    /** `_onInput`: stores the value, then validates the field. */
    method OnInput(name: string, value: string, lang: string)
      modifies this
      ensures formData == old(formData)[name := value]
      ensures errors == ErrorsAfter(old(errors), name, value, translations, lang)
      ensures formError == "" && mode == old(mode)
    {
      formData := formData[name := value];
      ValidateField(name, value, lang);
    }

    /** `_validateAll`: validates every field in order; succeeds when no error is left. */
    method ValidateAll(lang: string) returns (ok: bool)
      modifies this
      ensures errors == ErrorsAfterFields(old(errors), formData, FieldNames, translations, lang)
      ensures ok <==> errors == map[]
      ensures ok <==> (forall k :: k in old(errors) ==> k in FieldNames) &&
                      (forall f :: f in FieldNames ==> !FieldInvalid(f, FieldValue(formData, f)))
      ensures formError == "" && formData == old(formData) && mode == old(mode)
    {
      ghost var errors0 := errors;
      var i := 0;
      while i < |FieldNames|
        invariant 0 <= i <= |FieldNames|
        invariant errors == ErrorsAfterFields(errors0, formData, FieldNames[..i], translations, lang)
        invariant formData == old(formData) && mode == old(mode)
        invariant i > 0 ==> formError == ""
      {
        var field := FieldNames[i];
        assert FieldNames[..i + 1][..i] == FieldNames[..i];
        ValidateField(field, FieldValue(formData, field), lang);
        i := i + 1;
      }
      assert FieldNames[..i] == FieldNames;
      ok := |errors.Keys| == 0;
      assert ok <==> errors == map[] by {
        if errors != map[] {
          var k :| k in errors;
          assert k in errors.Keys;
        }
      }
      ValidateAllSucceedsIff(errors0, formData, translations, lang);
    }

    /** `_onSubmit`: validates; in create mode refuses a record whose email and
      * phone are already on file, showing the duplicate banner; otherwise
      * hands the form data on (the `form-submit` event). */
    method OnSubmit(all: seq<Employee>, lang: string) returns (submitted: Option<map<string, string>>)
      modifies this
      ensures formData == old(formData) && mode == old(mode)
      ensures errors == ErrorsAfterFields(old(errors), formData, FieldNames, translations, lang)
      ensures submitted.Some? <==> errors == map[] && !IsDuplicate(all, formData, mode)
      ensures submitted.Some? ==> submitted.value == formData && formError == ""
      ensures errors == map[] && IsDuplicate(all, formData, mode) ==>
                formError == Message(translations, lang, "duplicateRecord")
      ensures !(errors == map[] && IsDuplicate(all, formData, mode)) ==> formError == ""
    {
      var ok := ValidateAll(lang);
      if !ok {
        return None;
      }
      if IsDuplicate(all, formData, mode) {
        formError := Message(translations, lang, "duplicateRecord");
        return None;
      }
      submitted := Some(formData);
    }

    /** `_onLanguageChange`: re-translates every error message as
      * `<field>Required`, and the duplicate banner when it was shown in the
      * other language. */
    method OnLanguageChange(lang: string)
      modifies this
      ensures errors == Relabelled(old(errors), translations, lang)
      ensures old(formError) == Message(translations, OtherLanguage(lang), "duplicateRecord") ==>
                formError == Message(translations, lang, "duplicateRecord")
      ensures old(formError) != Message(translations, OtherLanguage(lang), "duplicateRecord") ==>
                formError == old(formError)
      ensures formData == old(formData) && mode == old(mode)
    {
      errors := map k | k in errors :: Message(translations, lang, k + "Required");
      if formError == Message(translations, if lang == "en" then "tr" else "en", "duplicateRecord") {
        formError := Message(translations, lang, "duplicateRecord");
      }
    }
  }

  /** `c.toUpperCase()` on an ASCII lower-case letter. */
  function ToUpper(c: char): (r: char)
    ensures 'a' <= c <= 'z' ==> r as int == c as int - 32
    ensures !('a' <= c <= 'z') ==> r == c
  {
    if 'a' <= c <= 'z' then (c as int - 32) as char else c
  }
}
