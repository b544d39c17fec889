/**
 * The translation module of the older components (src/utils/i18n.js): a
 * module-level `currentLang`, changed by `setLanguage`, and
 * `translate(key) = translations[currentLang][key] || key`.
 */
module UtilsI18n {
  import opened Wrappers
  import opened I18nIndex

  /** The module's state. The locale tables are a parameter of the model. */
  class Translator {
    const translations: map<string, Table>
    var currentLang: string

    /** The module starts in English. */
    constructor (translations: map<string, Table>)
      ensures this.translations == translations && currentLang == "en"
    {
      this.translations := translations;
      currentLang := "en";
    }

    /** `setLanguage(lang)`: no check that a table exists for lang. */
    method SetLanguage(lang: string)
      modifies this
      ensures currentLang == lang
    {
      currentLang := lang;
    }

    /** `translate(key)`. None stands for the TypeError JavaScript raises when
      * `translations[currentLang]` is undefined. */
    function Translate(key: string): (r: Option<string>)
      reads this
      ensures r.None? <==> currentLang !in translations
      ensures r.Some? ==> r.value == EntryOrKey(translations[currentLang], key)
      ensures r.Some? && r.value == "" ==> key == ""
    {
      if currentLang in translations then Some(EntryOrKey(translations[currentLang], key)) else None
    }
  }

  /** After `setLanguage(lang)` the lookup reads table lang, and fails when
    * there is none. */
  method SetLanguageThenTranslate(t: Translator, lang: string, key: string) returns (r: Option<string>)
    modifies t
    ensures lang in t.translations ==> r == Some(EntryOrKey(t.translations[lang], key))
    ensures lang !in t.translations ==> r == None
  {
    t.SetLanguage(lang);
    r := t.Translate(key);
  }
}
