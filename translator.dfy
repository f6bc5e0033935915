/** The cultural translator (`CulturalTranslator`): literal translation, then an
    LLM rewrite for the target culture's politeness and directness, then a fixed
    etiquette note. Both foreign calls fall back silently; this path does not
    consult the knowledge base. */
module Translator {
  import opened Text
  import opened Settings
  import opened Oracles

  /** The placeholder confidence every result carries. */
  const Confidence: real := 0.85

  const GenericNote := "Be respectful and appropriate"

  /** The notes table of `_get_culture_notes`. */
  const CultureNotes: map<string, string> := map[
    "japanese" := "Use polite language and indirect expressions",
    "american" := "Be direct and confident in communication",
    "chinese" := "Show respect and avoid confrontational language",
    "german" := "Be precise and straightforward",
    "french" := "Maintain elegance and proper etiquette"
  ]

  /** The token budget of the adaptation call. */
  const AdaptationMaxTokens: nat := 150

  /** The four-key dict `translate_with_culture` returns. */
  datatype TranslationResult = TranslationResult(
    basicTranslation: string,
    culturalAdaptation: string,
    cultureNotes: string,
    confidence: real)

  /** What the adaptation prompt says: the culture, the text and the two levels. */
  datatype AdaptationPrompt = AdaptationPrompt(
    culture: string, original: string, politeness: string, directness: string)
  {
    /** The prompt's text, without the source's indentation: it opens with the
        request naming the culture and quoting the text, then lists the politeness
        and the directness level under the guidelines heading, and closes by asking
        for the adapted version. */
    function Render(): (r: string)
      ensures StartsWith(r, AdaptOpening + culture + OriginalLabel + original)
      ensures EndsWith(r, GuidelinesHeading + politeness + DirectnessLabel + directness + ClosingRequest)
      ensures EndsWith(r, ClosingRequest)
    {
      var head := AdaptOpening + culture + OriginalLabel + original;
      var guidelines := GuidelinesHeading + politeness + DirectnessLabel + directness;
      StartsWithConcat(head, guidelines + ClosingRequest);
      EndsWithConcat(head, guidelines + ClosingRequest);
      EndsWithConcat(guidelines, ClosingRequest);
      EndsWithTransitive(head + (guidelines + ClosingRequest), guidelines + ClosingRequest, ClosingRequest);
      head + (guidelines + ClosingRequest)
    }
  }

  const AdaptOpening := "\nAdapt the following text for "
  const OriginalLabel := " culture:\nOriginal: \""
  const DirectnessLabel := "\n- Directness level: "
  const GuidelinesHeading := "\"\n\nCultural guidelines:\n- Politeness level: "
  const ClosingRequest := "\n\nProvide a culturally appropriate version:\n"

  /** The target language code: the registry's, or "en" for a culture it lacks. */
  function TargetLanguage(culture: string): (lang: string)
    ensures culture in SupportedCultures ==> lang == SupportedCultures[culture]["language"]
    ensures culture !in SupportedCultures ==> lang == "en"
  {
    Get(CultureInfo(culture), "language", "en")
  }

  /** `_translate_text`: the literal translation, or the input itself when the
      translator fails. */
  function TranslateText(text: string, sourceLang: string, targetLang: string,
                         translate: LiteralTranslator): (r: string)
    ensures translate(text, sourceLang, targetLang).Fail? ==> r == text
    ensures translate(text, sourceLang, targetLang).Ok? ==> r == translate(text, sourceLang, targetLang).text
  {
    match translate(text, sourceLang, targetLang)
    case Ok(t) => t
    case Fail => text
  }

  /** The adaptation prompt for `text`: the politeness and directness default to
      "medium" when the culture dict lacks them. */
  function AdaptationPromptFor(text: string, culture: string, info: CultureEntry): (p: AdaptationPrompt)
    ensures p.original == text && p.culture == culture
    ensures "politeness" in info ==> p.politeness == info["politeness"]
    ensures "politeness" !in info ==> p.politeness == "medium"
    ensures "directness" in info ==> p.directness == info["directness"]
    ensures "directness" !in info ==> p.directness == "medium"
  {
    AdaptationPrompt(culture, text, Get(info, "politeness", "medium"), Get(info, "directness", "medium"))
  }

  /** For a registered culture the adaptation prompt carries the registry's levels,
      and for any other culture both levels are "medium". */
  lemma AdaptationPromptLevels(text: string, culture: string)
    ensures var p := AdaptationPromptFor(text, culture, CultureInfo(culture));
      && (culture in SupportedCultures ==>
            p.politeness == SupportedCultures[culture]["politeness"]
            && p.directness == SupportedCultures[culture]["directness"])
      && (culture !in SupportedCultures ==> p.politeness == "medium" && p.directness == "medium")
  {
    if culture in SupportedCultures {
      RegistryEntriesWellFormed();
      assert "politeness" in SupportedCultures[culture].Keys;
      assert "directness" in SupportedCultures[culture].Keys;
    }
  }

  /** `_adapt_culturally`: the model's answer stripped of surrounding whitespace,
      or `text` unchanged when the call fails. */
  function AdaptCulturally(text: string, culture: string, info: CultureEntry,
                           complete: ChatCompletion): (r: string)
    ensures complete(AdaptationPromptFor(text, culture, info).Render(), AdaptationMaxTokens).Fail? ==> r == text
    ensures complete(AdaptationPromptFor(text, culture, info).Render(), AdaptationMaxTokens).Ok? ==>
      Stripped(r) && r == Trim(complete(AdaptationPromptFor(text, culture, info).Render(), AdaptationMaxTokens).text)
  {
    match complete(AdaptationPromptFor(text, culture, info).Render(), AdaptationMaxTokens)
    case Ok(out) =>
      TrimSpec(out);
      Trim(out)
    case Fail => text
  }

  /** `_get_culture_notes`: the table's note, or the generic note for any other key. */
  function GetCultureNotes(culture: string): (note: string)
    ensures culture in CultureNotes ==> note == CultureNotes[culture]
    ensures culture !in CultureNotes ==> note == GenericNote
  {
    if culture in CultureNotes then CultureNotes[culture] else GenericNote
  }

  /** `translate_with_culture`. */
  function TranslateWithCulture(text: string, sourceLang: string, targetCulture: string,
                                translate: LiteralTranslator, complete: ChatCompletion): (r: TranslationResult)
    ensures r.basicTranslation == TranslateText(text, sourceLang, TargetLanguage(targetCulture), translate)
    ensures r.culturalAdaptation == AdaptCulturally(r.basicTranslation, targetCulture, CultureInfo(targetCulture), complete)
    ensures r.cultureNotes == GetCultureNotes(targetCulture)
    ensures 0.0 <= r.confidence <= 1.0 && r.confidence == Confidence
  {
    var info := CultureInfo(targetCulture);
    var basic := TranslateText(text, sourceLang, Get(info, "language", "en"), translate);
    TranslationResult(basic, AdaptCulturally(basic, targetCulture, info, complete),
                      GetCultureNotes(targetCulture), Confidence)
  }

  /** For a culture outside the registry the translator is asked for English,
      the prompt's levels are both "medium" and the note is the generic one. */
  lemma UnknownCultureTranslation(text: string, sourceLang: string, culture: string,
                                  translate: LiteralTranslator, complete: ChatCompletion)
    requires culture !in SupportedCultures
    ensures var r := TranslateWithCulture(text, sourceLang, culture, translate, complete);
      && r.basicTranslation == TranslateText(text, sourceLang, "en", translate)
      && r.culturalAdaptation
         == AdaptCulturally(r.basicTranslation, culture, map["politeness" := "medium", "directness" := "medium"], complete)
      && r.cultureNotes == GenericNote
  {
    var r := TranslateWithCulture(text, sourceLang, culture, translate, complete);
    AdaptationSeesOnlyLevels(r.basicTranslation, culture, map[],
      map["politeness" := "medium", "directness" := "medium"], complete);
  }

  /** The adaptation depends on the culture dict only through its two levels. */
  lemma AdaptationSeesOnlyLevels(text: string, culture: string, info1: CultureEntry, info2: CultureEntry,
                                 complete: ChatCompletion)
    requires Get(info1, "politeness", "medium") == Get(info2, "politeness", "medium")
    requires Get(info1, "directness", "medium") == Get(info2, "directness", "medium")
    ensures AdaptCulturally(text, culture, info1, complete) == AdaptCulturally(text, culture, info2, complete)
  {
  }

  /** With both foreign calls failing, the result is the input twice over. */
  lemma BothCallsFail(text: string, sourceLang: string, culture: string,
                      translate: LiteralTranslator, complete: ChatCompletion)
    requires translate(text, sourceLang, TargetLanguage(culture)).Fail?
    requires complete(AdaptationPromptFor(text, culture, CultureInfo(culture)).Render(), AdaptationMaxTokens).Fail?
    ensures TranslateWithCulture(text, sourceLang, culture, translate, complete).basicTranslation == text
    ensures TranslateWithCulture(text, sourceLang, culture, translate, complete).culturalAdaptation == text
  {
  }

  /** The Japanese test: the three text fields are there, the note is the Japanese
      one, and when the model fails the adaptation is the (non-empty) translation. */
  lemma JapaneseAdaptationNonEmpty(text: string, sourceLang: string,
                                   translate: LiteralTranslator, complete: ChatCompletion)
    requires TranslateText(text, sourceLang, "ja", translate) != []
    requires complete(AdaptationPromptFor(TranslateText(text, sourceLang, "ja", translate), "japanese",
                                          CultureInfo("japanese")).Render(), AdaptationMaxTokens).Fail?
    ensures var r := TranslateWithCulture(text, sourceLang, "japanese", translate, complete);
      && |r.culturalAdaptation| > 0
      && r.cultureNotes == "Use polite language and indirect expressions"
  {
    JapaneseLookups();
    var r := TranslateWithCulture(text, sourceLang, "japanese", translate, complete);
    assert r.basicTranslation == TranslateText(text, sourceLang, "ja", translate);
  }

  lemma JapaneseLookups()
    ensures TargetLanguage("japanese") == "ja"
    ensures GetCultureNotes("japanese") == "Use polite language and indirect expressions"
  {
  }

  /** Every registered culture has its own note, so none gets the generic one. */
  lemma EveryRegisteredCultureHasANote(culture: string)
    requires culture in SupportedCultures
    ensures culture in CultureNotes && GetCultureNotes(culture) != GenericNote
  {
  }
}
