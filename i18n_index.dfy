/**
 * The translation function of the newer components (src/i18n/index.js):
 * `translations[overrideLang || storeLang]?.[key] || key`. The locale string
 * tables are not part of this model; they are a parameter.
 */
module I18nIndex {
  import opened Wrappers

  /** One locale's strings, by message key. */
  type Table = map<string, string>

  /** `table[key] || key`: the entry when it is present and non-empty,
    * otherwise the key itself. */
  function EntryOrKey(table: Table, key: string): (r: string)
    ensures r == key || (key in table && r == table[key])
    ensures r == "" ==> key == ""
    ensures key in table && table[key] != "" ==> r == table[key]
  {
    if key in table && table[key] != "" then table[key] else key
  }

  /** `overrideLang || storeLang`: an absent or empty override falls back to
    * the store's language. */
  function Language(storeLang: string, overrideLang: Option<string>): (lang: string)
    ensures overrideLang.Some? && overrideLang.value != "" ==> lang == overrideLang.value
    ensures overrideLang.None? || overrideLang.value == "" ==> lang == storeLang
  {
    if overrideLang.Some? && overrideLang.value != "" then overrideLang.value else storeLang
  }

  /** `translate(key, overrideLang)` with the store's `currentLang`. */
  function Translate(translations: map<string, Table>, storeLang: string, key: string,
                     overrideLang: Option<string>): (r: string)
    ensures var lang := Language(storeLang, overrideLang);
            lang !in translations ==> r == key
    ensures var lang := Language(storeLang, overrideLang);
            lang in translations ==> r == EntryOrKey(translations[lang], key)
    ensures r == "" ==> key == ""
  {
    var lang := Language(storeLang, overrideLang);
    if lang in translations then EntryOrKey(translations[lang], key) else key
  }

  /** A non-empty override decides the language whatever the store holds. */
  lemma OverrideWins(translations: map<string, Table>, storeA: string, storeB: string,
                     key: string, lang: string)
    requires lang != ""
    ensures Translate(translations, storeA, key, Some(lang)) == Translate(translations, storeB, key, Some(lang))
  {
  }

  /** An absent override and an empty one both read the store's language. */
  lemma EmptyOverrideFallsBack(translations: map<string, Table>, storeLang: string, key: string)
    ensures Translate(translations, storeLang, key, None) == Translate(translations, storeLang, key, Some(""))
    ensures Translate(translations, storeLang, key, None) == Translate(translations, storeLang, key, Some(storeLang))
            || storeLang == ""
  {
  }
}
