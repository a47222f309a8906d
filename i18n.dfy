/** The translation dictionaries and their lookup with a fallback to English. */
module I18n {

  /**
   * The three locale dictionaries (locales/en.json, ru.json, uz.json). Their
   * contents are not part of this model; only which one is returned is.
   */
  datatype Dictionary = EnDictionary | RuDictionary | UzDictionary

  const TRANSLATIONS: map<string, Dictionary> := map["en" := EnDictionary, "ru" := RuDictionary, "uz" := UzDictionary]
  const SUPPORTED_LANGUAGES: seq<string> := ["en", "ru", "uz"]
  const DEFAULT_LANGUAGE: string := "en"

  /** `translations[lang] || translations[defaultLanguage]`. */
  function GetTranslations(lang: string): (d: Dictionary)
    ensures lang in TRANSLATIONS ==> d == TRANSLATIONS[lang]
    ensures lang !in TRANSLATIONS ==> d == EnDictionary
  {
    if lang in TRANSLATIONS then TRANSLATIONS[lang] else TRANSLATIONS[DEFAULT_LANGUAGE]
  }

  /** The supported languages are exactly the dictionary keys, and the default is one of them. */
  lemma SupportedLanguagesAreKeys()
    ensures forall lang :: lang in SUPPORTED_LANGUAGES <==> lang in TRANSLATIONS
    ensures DEFAULT_LANGUAGE in SUPPORTED_LANGUAGES
  {
  }

  /** Each supported language gets its own dictionary; any other code, the empty one included, gets English. */
  lemma GetTranslationsTable(lang: string)
    ensures lang == "en" ==> GetTranslations(lang) == EnDictionary
    ensures lang == "ru" ==> GetTranslations(lang) == RuDictionary
    ensures lang == "uz" ==> GetTranslations(lang) == UzDictionary
    ensures lang !in SUPPORTED_LANGUAGES ==> GetTranslations(lang) == EnDictionary
  {
  }
}
