# Cross-cultural communication assistant: a verified model of its core

This project models the core of a cross-cultural communication assistant in Dafny. The assistant translates an utterance for a target culture and suggests culturally appropriate replies. Its core consists of four parts:

- **The culture registry** (`SUPPORTED_CULTURES`, module `Settings`). It maps five culture ids to a dict with a language code, a politeness level and a directness level. Callers look it up with defaults: an unknown culture gets `{}`, so it gets language `"en"` and levels `"medium"`.
- **The translator** (`CulturalTranslator`, module `Translator`). It does three things in order:
  1. a literal translation into the culture's language, falling back to the input;
  2. a language-model rewrite using the culture's two levels, stripped of surrounding whitespace and falling back to the literal translation;
  3. a fixed etiquette note.

  The result also carries a constant confidence of 0.85.
- **The cultural knowledge base** (`CulturalRAG`, module `KnowledgeBase`).
  - It turns each knowledge item into one document tagged with its culture and category.
  - It splits the documents (chunks of 500 characters, overlap 50) and indexes them, but only when there is data.
  - On retrieval it asks the store for the `k` passages nearest the query among those tagged with the requested culture, and returns their texts in the store's order. Without a store it returns no passages. The search is not guarded, so when it raises, retrieval raises.
- **The reply recommender** (`ResponseGenerator`, modules `ResponseParser` and `ResponseGeneration`).
  - It retrieves passages for the conversation and builds a prompt that always asks for three suggestions.
  - It calls the language model and parses the answer with a line scanner into `text`/`explanation` records.
  - It returns one fixed fallback suggestion when the call fails or the parse raises.
  - It raises when retrieval raises, because retrieval runs before its `try`.

The foreign capabilities are parameters of the model (module `Oracles`): the chat-completion call, the literal translator, the text splitter and the similarity search. The chat call and the literal translator return `Ok(text)` or `Fail`; the callers catch every failure of these two. The similarity search returns its documents, or `None` when it raises; nothing catches that. The splitter is a plain function. The properties about passages hold for every splitter and search that keep their documented promises (`FaithfulSplitter`, `FaithfulSearch`).

Python's string operations are modelled in module `Text`:

- `strip()` is `Trim`, over exactly the characters `str.isspace()` accepts;
- `split(sep)` is `Split`;
- `sep.join` is `Join`;
- `startswith` is `StartsWith`;
- `split(':', 1)[1]` is `AfterFirstColon`, which yields `None` where Python raises `IndexError`.

Behaviours of the code that are easy to misread:

- The translation path does not consult the knowledge base. The adaptation prompt holds only the text, the culture and the two levels.
- The suggestion prompt always asks for 3 suggestions. The `num_responses` argument is ignored.
- The parser is not total. A line starting with `Response` or `Explanation` that holds no colon makes it raise `IndexError`. The `try` around the call in `generate_responses` catches this, so a parse that raises also gives the fallback, not only a failed call.
- The fallback suggestion is "Thank you for your message." with the explanation "A safe, polite response appropriate for most cultures".
- The fallback does not cover retrieval. A similarity search that raises makes `generate_responses` raise, because the retrieval call sits before the `try`.

## Model

| member | source | states |
|---|---|---|
| `Settings.RegistryCultures` | config/settings.py:28-34 | the registry holds exactly japanese, american, chinese, german and french |
| `Settings.RegistryEntriesWellFormed` | config/settings.py:29-33 | every entry has exactly the fields language, politeness and directness, and both levels are low, medium or high |
| `Settings.LanguageCodes` | config/settings.py:29-33 | japanese is ja, american en, chinese zh, german de and french fr |
| `Settings.RegistryLanguagesDistinct` | config/settings.py:29-33 | no two registered cultures share a language code |
| `Settings.JapaneseAndAmericanProfiles` | config/settings.py:29-30 | japanese is ja/high/low and american is en/medium/high |
| `Settings.Get` | src/core/translator.py:31 | `d.get(key, default)`: the entry when the key is present, else the default |
| `Settings.CultureInfo` | src/core/translator.py:30 | a registered culture gets its entry, any other culture the empty dict |
| `Settings.UnknownCultureDefaults` | src/core/translator.py:30-31 | an unknown culture resolves to language en and levels medium/medium |
| `Translator.TargetLanguage` | src/core/translator.py:30-31 | the registry's language code, or en for a culture outside the registry |
| `Translator.TranslateText` | src/core/translator.py:48-54 | the literal translation when the translator succeeds, the input text exactly when it fails |
| `Translator.AdaptationPromptFor` | src/core/translator.py:56-70 | the prompt carries the text and the culture; each level is the dict's value when present and medium when missing |
| `Translator.AdaptationPromptLevels` | src/core/translator.py:29-59 | a registered culture's adaptation prompt carries the registry's levels, any other culture's medium/medium |
| `Translator.AdaptationPrompt.Render` | src/core/translator.py:61-70 | the prompt opens by naming the culture and quoting the text, then gives the politeness level and the directness level each after its label, and closes by asking for the culturally appropriate version |
| `Translator.AdaptCulturally` | src/core/translator.py:72-80 | on failure the input text unchanged; on success the model's output stripped, which begins and ends with non-whitespace |
| `Translator.GetCultureNotes` | src/core/translator.py:82-91 | the table's note for its five keys, "Be respectful and appropriate" for any other key |
| `Translator.TranslateWithCulture` | src/core/translator.py:18-46 | the basic translation is asked for in the target language; the adaptation is of the basic translation with the culture's entry; the note is the culture's; confidence is 0.85, within [0, 1] |
| `Translator.UnknownCultureTranslation` | src/core/translator.py:30-34 | for a culture outside the registry the translator is asked for en, the adaptation sees medium/medium and the note is the generic one |
| `Translator.AdaptationSeesOnlyLevels` | src/core/translator.py:56-80 | the adaptation depends on the culture dict only through its politeness and directness |
| `Translator.BothCallsFail` | src/core/translator.py:50-54 | when both foreign calls fail, the basic translation and the adaptation both equal the input |
| `Translator.JapaneseAdaptationNonEmpty` | tests/test_translator.py:25-43 | for japanese with a non-empty translation and a failing model, the adaptation is non-empty and the note is the Japanese one |
| `Translator.EveryRegisteredCultureHasANote` | src/core/translator.py:84-91 | every registered culture has its own note, never the generic one |
| `KnowledgeBase.TextSplitterConfig` | src/core/cultural_rag.py:24-27 | chunk size 500 and overlap 50, so the overlap is below the chunk size |
| `KnowledgeBase.LoadCulturalData` | src/core/cultural_rag.py:45-64 | the sample corpus has three items |
| `KnowledgeBase.SampleCorpusCoverage` | src/core/cultural_rag.py:48-64 | exactly one item each for japanese, american and chinese, none for german or french |
| `KnowledgeBase.BuildDocuments` | src/core/cultural_rag.py:29-35 | one document per item, in order, with the item's content and metadata exactly {culture, category} |
| `KnowledgeBase.Retrieve` | src/core/cultural_rag.py:78-88 | no store gives no passages; with a store, retrieval raises exactly when the search raises, and otherwise gives one passage per document the search returns for k and the filter culture == requested culture, each its text, in the store's order |
| `KnowledgeBase.ChunkSource` | src/core/cultural_rag.py:29-37 | with a faithful splitter every chunk of the store lies inside one item's content and carries that item's metadata |
| `KnowledgeBase.PassageSource` | src/core/cultural_rag.py:82-88 | with faithful oracles every passage of a retrieval that returns lies inside an item of the requested culture |
| `KnowledgeBase.RetrievedPassagesBelongToCulture` | src/core/cultural_rag.py:82-88 | with faithful oracles a retrieval that returns gives at most k passages, each from an item of the requested culture |
| `KnowledgeBase.NoPassagesNoContext` | src/core/cultural_rag.py:82-88 | a culture without items gets no passages, whatever the query and k, unless the search raises |
| `KnowledgeBase.SampleCorpusHasNoGermanOrFrenchContext` | src/core/cultural_rag.py:48-64 | on the sample corpus german and french get no passages unless the search raises |
| `KnowledgeBase.CulturalRag.constructor` | src/core/cultural_rag.py:14-17 | the store is built from the sample corpus |
| `KnowledgeBase.CulturalRag.InitializeKnowledgeBase` | src/core/cultural_rag.py:19-43 | empty data leaves the store as it was; otherwise the store indexes the split documents of the data |
| `KnowledgeBase.CulturalRag.RetrieveCulturalContext` | src/core/cultural_rag.py:66-88 | retrieval on this object's store: no passages before a store exists; with a store it raises exactly when the search raises |
| `ResponseParser.Scan` | src/core/response_generator.py:74-87 | the scanner's invariants: while the open record is empty nothing has been closed, no closed record is empty, and there are no more records than lines |
| `ResponseParser.ParseLines` | src/core/response_generator.py:74-89 | a parse that returns has at most one record per line and no empty record |
| `ResponseParser.ParseResponseText` | src/core/response_generator.py:75-89 | the same for the model's text, counted in its newline-separated lines |
| `ResponseParser.ParseResponseSuggestions` | src/core/response_generator.py:72-89 | the loop over the lines computes the parse `ParseResponseText`, including the raise |
| `ResponseParser.ParseExtend` | src/core/response_generator.py:78-87 | one more line extends the parse: a Response line appends a record holding only its text, an Explanation line sets the last record's explanation (or makes a record with no text), a marker without a colon raises, any other line changes nothing |
| `ResponseParser.ErrorPersists` | src/core/response_generator.py:82-84 | once a line raises, every longer input raises |
| `ResponseParser.RaisesIffBroken` | src/core/response_generator.py:82-84 | parsing raises exactly when some Response or Explanation line holds no colon |
| `ResponseParser.MarkersExclusive` | src/core/response_generator.py:79-83 | no line is both a Response line and an Explanation line |
| `ResponseParser.MarkersStartCapitalised` | src/core/response_generator.py:79-83 | a marker line begins with R or E, so lower-case or indented lines are ignored |
| `ResponseParser.CountZeroIffNoResponse` | src/core/response_generator.py:79 | no Response line counted exactly when no line starts with Response |
| `ResponseParser.ParsedShape` | src/core/response_generator.py:77-87 | one record per Response line with that line's value as text, in order, plus one leading record with an explanation and no text exactly when an Explanation line precedes the first Response line; no record is empty |
| `ResponseParser.SuggestionCount` | src/core/response_generator.py:77-87 | the number of records is the number of Response lines, plus one for an Explanation line before the first Response line |
| `ResponseParser.IgnoredLineInsertion` | src/core/response_generator.py:78-84 | inserting a line that is not a marker anywhere never changes the parse |
| `ResponseParser.OnlyMarkerLinesMatter` | src/core/response_generator.py:78-84 | dropping every line that is not a marker gives the same parse |
| `ResponseParser.LastExplanationWins` | src/core/response_generator.py:84 | of two Explanation lines in a row the second wins |
| `ResponseParser.ResponseWithoutExplanation` | src/core/response_generator.py:79-82 | a Response line with nothing after it gives a last record with text and no explanation |
| `ResponseParser.ResponseStep` | src/core/response_generator.py:79-82 | a line `Response<tag>:<text>` appends a record with the stripped text, colons after the first kept |
| `ResponseParser.ExplanationStep` | src/core/response_generator.py:83-84 | a line `Explanation:<e>` sets the stripped e on the last record |
| `ResponseParser.PairedLinesParse` | src/core/response_generator.py:75-89 | N Response lines each followed by an Explanation line give exactly N records in order, with the stripped texts and explanations |
| `ResponseParser.WellFormedOutputParses` | src/core/response_generator.py:75-89 | the same for the model's text, the pairs joined by newlines |
| `Text.Trim` | src/core/response_generator.py:82 | `strip()` never lengthens its input |
| `Text.TrimSpec` | src/core/response_generator.py:82 | `strip()` leaves the input minus a run of whitespace at each end, beginning and ending with non-whitespace |
| `Text.TrimFramed` | src/core/response_generator.py:82 | stripping whitespace from around a stripped string gives that string |
| `Text.TrimIdempotent` | src/core/response_generator.py:82 | stripping twice is stripping once |
| `Text.Split` | src/core/response_generator.py:75 | at least one piece, no piece holds the separator, and joining the pieces gives the input back |
| `Text.Join` | src/core/response_generator.py:52 | `sep.join(parts)` begins with the first part, and holds the separator once there are two parts |
| `Text.StartsWith` | src/core/response_generator.py:79 | `startswith` is the prefix relation |
| `Text.SplitJoin` | src/core/response_generator.py:75 | splitting a join of separator-free pieces gives the pieces back |
| `Text.FirstIndexOf` | src/core/response_generator.py:82 | none exactly when the character is absent, otherwise a position holding it |
| `Text.FirstIndexIsFirst` | src/core/response_generator.py:82 | the character occurs nowhere before the index found |
| `Text.AfterFirstColon` | src/core/response_generator.py:82 | none exactly when the line holds no colon (where Python raises) |
| `Text.AfterFirstColonSpec` | src/core/response_generator.py:82 | the value is what follows the line's first colon |
| `Text.AfterFirstColonKeepsLaterColons` | src/core/response_generator.py:82 | after a colon-free head, everything after the first colon, later colons included, is the value |
| `ResponseGeneration.BuildResponsePrompt` | src/core/response_generator.py:50-64 | asks for 3 suggestions for the culture and the context; the guidance is the passages joined by newlines; each level missing from the dict is medium |
| `ResponseGeneration.GuidanceRecoversPassages` | src/core/response_generator.py:52 | the guidance splits back into the passages when none spans several lines |
| `ResponseGeneration.PromptLevels` | src/core/response_generator.py:32-64 | a registered culture's prompt carries the registry's levels, any other culture's medium/medium |
| `ResponseGeneration.FallbackResponses` | src/core/response_generator.py:91-98 | one suggestion: "Thank you for your message." / "A safe, polite response appropriate for most cultures" |
| `ResponseGeneration.FallbackIgnoresCulture` | src/core/response_generator.py:91-98 | the fallback is the same for every culture and is not empty |
| `ResponseGeneration.ResponseGenerator.constructor` | src/core/response_generator.py:11-13 | a fresh knowledge base built from the sample corpus |
| `ResponseGeneration.ResponsePrompt.Render` | src/core/response_generator.py:54-70 | the prompt opens by asking for the requested number of suggestions for the culture and quoting the conversation, then gives the guidance, the politeness level and the directness level each after its label, and closes with the Response/Explanation format |
| `ResponseGeneration.ResponseGenerator.PromptFor` | src/core/response_generator.py:28-36 | once retrieval returns, the prompt is built from the passages retrieved for the conversation and the culture at the default k, with the culture entry's levels, medium where the entry lacks one |
| `ResponseGeneration.ResponseGenerator.GenerateResponses` | src/core/response_generator.py:15-48 | raises exactly when retrieval raises, never giving the fallback then; otherwise the fallback when the call fails or the parse raises, else the parsed suggestions of the answer to that prompt; no suggestion returned is empty |
| `ResponseGeneration.SuggestionsFromReply` | src/core/response_generator.py:38-48 | the guarded block given the call's outcome: the fallback on a failed call or a raising parse, else the parsed suggestions; none is empty |
| `ResponseGeneration.GeneratedCount` | src/core/response_generator.py:77-89 | the number of parsed suggestions is the count of Response lines plus one for an orphan explanation; no suggestions only when no line is a marker |

## Left out

- The OpenAI call, the literal translator (googletrans), the HuggingFace embeddings, the Chroma store and `RecursiveCharacterTextSplitter` are not modelled. They are oracle parameters, because they are foreign calls. Similarity scoring uses floating point and is not modelled.
- `FaithfulSplitter` and `FaithfulSearch` state what the splitter and the search promise. They are assumptions of the lemmas that use them, not facts about the libraries.
- The M2M100 model and tokenizer loading (src/core/translator.py:14-15) is not modelled. These objects are never used in translation.
- Setting the API key, reading the environment and configuration I/O are not modelled. They have no effect on the results.
- `print` logging in the exception handlers is not modelled. It is output only.
- The prompts' indentation whitespace is not modelled. Each prompt's content and line order are modelled; the leading spaces of the f-strings are not.
- `KnowledgeBase.CulturalRag.InitializeKnowledgeBase` takes the knowledge items as a parameter. The source reads them from `_load_cultural_data`, and the constructor passes exactly that corpus.
- `Translator.TranslateWithCulture`: the confidence is the real 0.85, not a binary float.
- The exception types are not distinguished. A failure of the chat call or the literal translator is `Fail`, as the `except` around each catches all of them; that includes a missing message content, which makes `.strip()` raise. A failure of the similarity search is `None`, and `generate_responses` passes it on as `Raised`, whatever its type.
- `KnowledgeBase.CulturalRag.constructor` and `KnowledgeBase.CulturalRag.InitializeKnowledgeBase` do not model a failure while the store is built: the embeddings (src/core/cultural_rag.py:15), `split_documents` (src/core/cultural_rag.py:37) and `Chroma.from_documents` (src/core/cultural_rag.py:39-43) can raise, which makes the constructor raise. Here the splitter is total and indexing always succeeds. `ResponseGeneration.ResponseGenerator.constructor` inherits this.
- `KnowledgeBase.CulturalRag.InitializeKnowledgeBase` does not model the persisted collection: `Chroma.from_documents` with `persist_directory` adds the chunks to the collection already on disk, so chunks persisted by earlier runs would also be searched. In the model the store holds exactly this run's chunks.
- The web API, the user interface and speech recognition are not part of this model. Neither are the unused database settings in config/settings.py.
