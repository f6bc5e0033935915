/** The reply recommender (`ResponseGenerator`): retrieve cultural passages for the
    conversation, build a prompt with them and the culture's levels, ask the model
    for suggestions and parse its answer; any failure of the call or of the parse
    gives the single fallback suggestion, while a failing retrieval, which happens
    before the guarded block, propagates to the caller. */
module ResponseGeneration {
  import opened Wrappers
  import opened Text
  import opened Settings
  import opened Oracles
  import opened KnowledgeBase
  import opened ResponseParser

  /** The token budget of the suggestion call. */
  const ResponseMaxTokens: nat := 300

  /** The number of suggestions the prompt asks for, whatever the caller requested. */
  const RequestedSuggestions: nat := 3

  /** What `generate_responses` does: return suggestions, or raise. */
  datatype Generated = Raised | Returned(suggestions: seq<Suggestion>)

  const FallbackText := "Thank you for your message."
  const FallbackExplanation := "A safe, polite response appropriate for most cultures"

  /** What the suggestion prompt says: how many suggestions, for which culture, the
      conversation, the retrieved guidance and the culture's two levels. */
  datatype ResponsePrompt = ResponsePrompt(
    requested: nat, culture: string, context: string, guidance: string,
    politeness: string, directness: string)
  {
    /** The prompt's text, without the source's indentation: it opens by asking for
        the requested number of suggestions for the culture and quoting the
        conversation, then gives the guidance and the two levels each after its
        label, and closes with the format the parser reads. */
    function Render(): (r: string)
      ensures StartsWith(r, GenerateOpening + NatToString(requested) + AskSuffix + culture + ContextLabel + context)
      ensures EndsWith(r, GuidanceLabel + guidance + PolitenessLabel + politeness
                          + DirectnessLabel + directness + FormatInstructions)
      ensures EndsWith(r, FormatInstructions)
    {
      var head := GenerateOpening + NatToString(requested) + AskSuffix + culture + ContextLabel + context;
      var body := GuidanceLabel + guidance + PolitenessLabel + politeness + DirectnessLabel + directness;
      StartsWithConcat(head, body + FormatInstructions);
      EndsWithConcat(head, body + FormatInstructions);
      EndsWithConcat(body, FormatInstructions);
      EndsWithTransitive(head + (body + FormatInstructions), body + FormatInstructions, FormatInstructions);
      head + (body + FormatInstructions)
    }
  }

  const GenerateOpening := "\nGenerate "
  const AskSuffix := " culturally appropriate response suggestions for "
  const ContextLabel := " culture.\n\nConversation context: "
  const GuidanceLabel := "\n\nCultural guidance:\n"
  const PolitenessLabel := "\n\nCulture characteristics:\n- Politeness: "
  const DirectnessLabel := "\n- Directness: "
  const FormatInstructions :=
    "\n\nFormat each response as:\nResponse X: [response text]\nExplanation: [why this is culturally appropriate]\n\n"

  /** `_build_response_prompt`: always asks for three suggestions; the passages are
      joined one per line; the levels come from the culture dict, "medium" where it
      lacks them. */
  function BuildResponsePrompt(context: string, culture: string, culturalContext: seq<string>,
                               info: CultureEntry): (p: ResponsePrompt)
    ensures p.requested == RequestedSuggestions
    ensures p.culture == culture && p.context == context
    ensures p.guidance == Join(culturalContext, '\n')
    ensures "politeness" in info ==> p.politeness == info["politeness"]
    ensures "politeness" !in info ==> p.politeness == "medium"
    ensures "directness" in info ==> p.directness == info["directness"]
    ensures "directness" !in info ==> p.directness == "medium"
  {
    ResponsePrompt(RequestedSuggestions, culture, context, Join(culturalContext, '\n'),
                   Get(info, "politeness", "medium"), Get(info, "directness", "medium"))
  }

  /** The guidance block gives the passages back line by line, provided there is at
      least one passage and none spans several lines. */
  lemma GuidanceRecoversPassages(context: string, culture: string, culturalContext: seq<string>,
                                 info: CultureEntry)
    requires culturalContext != []
    requires forall i | 0 <= i < |culturalContext| :: '\n' !in culturalContext[i]
    ensures Split(BuildResponsePrompt(context, culture, culturalContext, info).guidance, '\n') == culturalContext
  {
    SplitJoin(culturalContext, '\n');
  }

  /** For a registered culture the prompt carries the registry's levels, and for any
      other culture both levels are "medium". */
  lemma PromptLevels(context: string, culture: string, culturalContext: seq<string>)
    ensures var p := BuildResponsePrompt(context, culture, culturalContext, CultureInfo(culture));
      && (culture in SupportedCultures ==>
            p.politeness == SupportedCultures[culture]["politeness"]
            && p.directness == SupportedCultures[culture]["directness"])
      && (culture !in SupportedCultures ==> p.politeness == "medium" && p.directness == "medium")
  {
    if culture in SupportedCultures {
      RegistryEntriesWellFormed();
      assert "politeness" in SupportedCultures[culture].Keys;
      assert "directness" in SupportedCultures[culture].Keys;
    }
  }

  /** `_fallback_responses`: one suggestion with both fields, the same for every culture. */
  function FallbackResponses(culture: string): (r: seq<Suggestion>)
    ensures |r| == 1
    ensures r[0] == Suggestion(Some(FallbackText), Some(FallbackExplanation))
  {
    [Suggestion(Some(FallbackText), Some(FallbackExplanation))]
  }

  /** The fallback does not depend on the culture, and its one suggestion is not empty. */
  lemma FallbackIgnoresCulture(c1: string, c2: string)
    ensures FallbackResponses(c1) == FallbackResponses(c2)
    ensures forall k | 0 <= k < |FallbackResponses(c1)| :: !FallbackResponses(c1)[k].IsEmpty()
  {
  }

  /** The reply recommender; it owns one knowledge base. */
  class ResponseGenerator {
    const rag: CulturalRag

    /** `ResponseGenerator()`: builds its knowledge base from the sample corpus. */
    constructor (split: Splitter)
      ensures fresh(rag)
      ensures rag.vectorStore == Some(StoreOf(LoadCulturalData(), split))
    {
      rag := new CulturalRag(split);
    }

    /** The prompt `generate_responses` sends once retrieval has returned: built from
        the passages retrieved for the conversation (the default three) and the
        culture's registry entry. */
    function PromptFor(context: string, targetCulture: string, search: SimilaritySearch): (p: ResponsePrompt)
      reads this, rag
      requires Retrieve(rag.vectorStore, context, targetCulture, DefaultK, search).Some?
      ensures p.culture == targetCulture && p.context == context && p.requested == RequestedSuggestions
      ensures p.guidance == Join(Retrieve(rag.vectorStore, context, targetCulture, DefaultK, search).value, '\n')
      ensures p.politeness == Get(CultureInfo(targetCulture), "politeness", "medium")
      ensures p.directness == Get(CultureInfo(targetCulture), "directness", "medium")
    {
      BuildResponsePrompt(context, targetCulture,
                          rag.RetrieveCulturalContext(context, targetCulture, DefaultK, search).value,
                          CultureInfo(targetCulture))
    }

    /** `generate_responses`: raises when retrieval raises, since retrieval comes
        before the guarded block; otherwise the parsed suggestions of the model's
        answer to the prompt, or the fallback when the call fails or the answer has
        a marker line without a colon. Every suggestion returned has a text or an
        explanation. `numResponses` is accepted and not used. */
    method GenerateResponses(context: string, targetCulture: string, numResponses: nat,
                             search: SimilaritySearch, complete: ChatCompletion)
      returns (r: Generated)
      ensures Retrieve(rag.vectorStore, context, targetCulture, DefaultK, search).None? <==> r.Raised?
      ensures Retrieve(rag.vectorStore, context, targetCulture, DefaultK, search).Some? ==>
        var reply := complete(PromptFor(context, targetCulture, search).Render(), ResponseMaxTokens);
        && (reply.Fail? ==> r == Returned(FallbackResponses(targetCulture)))
        && (reply.Ok? && ParseResponseText(reply.text).IndexError? ==> r == Returned(FallbackResponses(targetCulture)))
        && (reply.Ok? && ParseResponseText(reply.text).Parsed? ==> r == Returned(ParseResponseText(reply.text).suggestions))
      ensures r.Returned? ==> forall k | 0 <= k < |r.suggestions| :: !r.suggestions[k].IsEmpty()
    {
      var culturalContext := rag.RetrieveCulturalContext(context, targetCulture, DefaultK, search);
      if culturalContext.None? {
        return Raised;
      }
      var cultureInfo := CultureInfo(targetCulture);
      var prompt := BuildResponsePrompt(context, targetCulture, culturalContext.value, cultureInfo);
      var suggestions := SuggestionsFromReply(complete(prompt.Render(), ResponseMaxTokens), targetCulture);
      r := Returned(suggestions);
    }
  }

  /** The `try` block of `generate_responses` after the call: parse the answer, or
      fall back when the call failed or the parse raised. */
  method SuggestionsFromReply(reply: Reply, targetCulture: string) returns (r: seq<Suggestion>)
    ensures reply.Fail? ==> r == FallbackResponses(targetCulture)
    ensures reply.Ok? && ParseResponseText(reply.text).IndexError? ==> r == FallbackResponses(targetCulture)
    ensures reply.Ok? && ParseResponseText(reply.text).Parsed? ==> r == ParseResponseText(reply.text).suggestions
    ensures forall k | 0 <= k < |r| :: !r[k].IsEmpty()
  {
    match reply
    case Fail =>
      r := FallbackResponses(targetCulture);
    case Ok(content) =>
      var parsed := ParseResponseSuggestions(content);
      match parsed
      case IndexError =>
        r := FallbackResponses(targetCulture);
      case Parsed(suggestions) =>
        ParsedShape(Split(content, '\n'));
        r := suggestions;
  }

  /** The suggestions come back in the answer's order, one per Response line, plus
      one explanation-only suggestion when an Explanation line comes before the
      first Response line; an empty list only when the answer parses and has no
      marker line at all. */
  lemma GeneratedCount(content: string)
    requires ParseResponseText(content).Parsed?
    ensures var lines := Split(content, '\n');
      |ParseResponseText(content).suggestions|
        == CountResponses(lines) + (if OrphanExplanation(lines) then 1 else 0)
    ensures ParseResponseText(content).suggestions == [] ==>
      forall i | 0 <= i < |Split(content, '\n')| :: !IsMarker(Split(content, '\n')[i])
  {
    var lines := Split(content, '\n');
    SuggestionCount(lines);
    CountZeroIffNoResponse(lines);
    if ParseResponseText(content).suggestions == [] {
      forall i | 0 <= i < |lines| ensures !IsMarker(lines[i]) {
        assert NoResponseBefore(lines, i);
      }
    }
  }
}
