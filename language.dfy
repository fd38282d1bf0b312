/**
 * The text-search configuration ("language") used by the suggestion
 * store, read from the plugin's configuration with a fixed default
 * (ckanext/discovery/plugins/search_suggestions/model.py, `_get_language`).
 */
module Language {

  /** Full name of the configuration option, as the resolver documents it. */
  const LanguageOption: string := "ckanext.discovery.search_suggestions.language"

  /** The configuration used when the option is not set. */
  const DefaultLanguage: string := "english"

  /** Configuration settings, by option name. */
  type Config = map<string, string>

  /** The configured text-search language, or the default when the option is absent. */
  function GetLanguage(config: Config): (language: string)
    ensures LanguageOption in config ==> language == config[LanguageOption]
    ensures LanguageOption !in config ==> language == DefaultLanguage
  {
    if LanguageOption in config then config[LanguageOption] else DefaultLanguage
  }

}
