/** The static culture registry (`SUPPORTED_CULTURES`): culture id to a dict with
    the language code and the politeness and directness levels. */
module Settings {

  /** A culture entry as the source holds it: a dict from field name to value. */
  type CultureEntry = map<string, string>

  const Japanese: CultureEntry := map["language" := "ja", "politeness" := "high", "directness" := "low"]
  const American: CultureEntry := map["language" := "en", "politeness" := "medium", "directness" := "high"]
  const Chinese: CultureEntry := map["language" := "zh", "politeness" := "high", "directness" := "medium"]
  const German: CultureEntry := map["language" := "de", "politeness" := "medium", "directness" := "high"]
  const French: CultureEntry := map["language" := "fr", "politeness" := "medium", "directness" := "medium"]

  const SupportedCultures: map<string, CultureEntry> := map[
    "japanese" := Japanese, "american" := American, "chinese" := Chinese, "german" := German, "french" := French
  ]

  const Levels: set<string> := {"low", "medium", "high"}

  /** `d.get(key, default)`. */
  function Get(d: map<string, string>, key: string, default: string): (r: string)
    ensures key in d ==> r == d[key]
    ensures key !in d ==> r == default
  {
    if key in d then d[key] else default
  }

  /** `SUPPORTED_CULTURES.get(culture, {})`: an unknown culture gets the empty dict,
      never an error. */
  function CultureInfo(culture: string): (info: CultureEntry)
    ensures culture in SupportedCultures ==> info == SupportedCultures[culture]
    ensures culture !in SupportedCultures ==> info == map[]
  {
    if culture in SupportedCultures then SupportedCultures[culture] else map[]
  }

  /** The registry holds exactly the five cultures. */
  lemma RegistryCultures()
    ensures SupportedCultures.Keys == {"japanese", "american", "chinese", "german", "french"}
  {
  }

  /** Every entry has exactly the three fields, and each level is low, medium or high. */
  lemma RegistryEntriesWellFormed()
    ensures forall c | c in SupportedCultures ::
      SupportedCultures[c].Keys == {"language", "politeness", "directness"}
    ensures forall c | c in SupportedCultures ::
      SupportedCultures[c]["politeness"] in Levels && SupportedCultures[c]["directness"] in Levels
  {
    forall c | c in SupportedCultures
      ensures SupportedCultures[c].Keys == {"language", "politeness", "directness"}
      ensures SupportedCultures[c]["politeness"] in Levels && SupportedCultures[c]["directness"] in Levels
    {
      RegistryValues(c);
    }
  }

  /** Each registered culture maps to one of the five entries. */
  lemma RegistryValues(c: string)
    requires c in SupportedCultures
    ensures SupportedCultures[c] in {Japanese, American, Chinese, German, French}
  {
    RegistryCultures();
  }

  /** The language code the registry gives each registered culture, one per line. */
  lemma LanguageCodes(c: string)
    requires c in SupportedCultures
    ensures c == "japanese" ==> SupportedCultures[c]["language"] == "ja"
    ensures c == "american" ==> SupportedCultures[c]["language"] == "en"
    ensures c == "chinese" ==> SupportedCultures[c]["language"] == "zh"
    ensures c == "german" ==> SupportedCultures[c]["language"] == "de"
    ensures c == "french" ==> SupportedCultures[c]["language"] == "fr"
  {
  }

  /** No two cultures share a language code. */
  lemma RegistryLanguagesDistinct()
    ensures forall c, d | c in SupportedCultures && d in SupportedCultures && c != d ::
      SupportedCultures[c]["language"] != SupportedCultures[d]["language"]
  {
    forall c, d | c in SupportedCultures && d in SupportedCultures && c != d
      ensures SupportedCultures[c]["language"] != SupportedCultures[d]["language"]
    {
      RegistryCultures();
      LanguageCodes(c);
      LanguageCodes(d);
    }
  }

  /** Unknown cultures resolve to the default profile: English, medium, medium. */
  lemma UnknownCultureDefaults(culture: string)
    requires culture !in SupportedCultures
    ensures Get(CultureInfo(culture), "language", "en") == "en"
    ensures Get(CultureInfo(culture), "politeness", "medium") == "medium"
    ensures Get(CultureInfo(culture), "directness", "medium") == "medium"
  {
  }

  /** Two sample entries, field by field. */
  lemma JapaneseAndAmericanProfiles()
    ensures CultureInfo("japanese") == map["language" := "ja", "politeness" := "high", "directness" := "low"]
    ensures CultureInfo("american") == map["language" := "en", "politeness" := "medium", "directness" := "high"]
  {
  }
}
