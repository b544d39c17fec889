/**
 * The `localization` slice of the application store
 * (src/store/localizationStore.js): the active language code.
 */
module LocalizationStore {

  class LocalizationSlice {
    var currentLang: string

    /** The initial state is English. */
    constructor ()
      ensures currentLang == "en"
    {
      currentLang := "en";
    }

    /** `setLanguage`: takes any code, known to the string tables or not. */
    method SetLanguage(lang: string)
      modifies this
      ensures currentLang == lang
    {
      currentLang := lang;
    }
  }

  /** Two language changes in a row leave the second; repeating the same
    * change is the same as making it once. */
  method SetLanguageTwice(slice: LocalizationSlice, first: string, second: string)
    modifies slice
    ensures slice.currentLang == second
    ensures first == second ==> slice.currentLang == first
  {
    slice.SetLanguage(first);
    slice.SetLanguage(second);
  }
}
