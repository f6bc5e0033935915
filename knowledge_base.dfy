/** The cultural knowledge base (`CulturalRAG`): one document per knowledge item,
    handed to a text splitter and indexed in a vector store only when there is
    data; retrieval asks the store for the `k` passages nearest the query among
    those tagged with the requested culture. The splitter and the store's
    similarity search are oracles. */
module KnowledgeBase {
  import opened Wrappers

  /** An item of `_load_cultural_data`. */
  datatype KnowledgeItem = KnowledgeItem(culture: string, category: string, content: string)

  /** A langchain `Document`: its text and its metadata dict. */
  datatype Document = Document(pageContent: string, metadata: map<string, string>)

  /** The index built from the split documents. */
  datatype VectorStore = VectorStore(chunks: seq<Document>)

  datatype SplitterConfig = SplitterConfig(chunkSize: nat, chunkOverlap: nat)

  /** A `similarity_search` request: the query text, `k` and the metadata filter. */
  datatype SearchRequest = SearchRequest(query: string, k: nat, filter: map<string, string>)

  /** The text splitter: configuration and documents to chunks. */
  type Splitter = (SplitterConfig, seq<Document>) -> seq<Document>

  /** The store's similarity search: the documents it returns, in its order, or
      `None` when it raises. */
  type SimilaritySearch = (VectorStore, SearchRequest) -> Option<seq<Document>>

  /** The default number of passages retrieved. */
  const DefaultK: nat := 3

  /** The splitter's configuration: chunks of at most 500 characters, overlapping by 50. */
  function TextSplitterConfig(): (cfg: SplitterConfig)
    ensures cfg.chunkOverlap < cfg.chunkSize
    ensures cfg.chunkSize == 500 && cfg.chunkOverlap == 50
  {
    SplitterConfig(500, 50)
  }

  const JapaneseGreetings := "In Japanese culture, bowing is essential. Use 'arigatou gozaimasu' for formal thanks."
  const AmericanBusiness := "American business culture values directness and efficiency. Be clear and confident."
  const ChineseRespect := "Chinese culture emphasizes hierarchy and face-saving. Avoid direct criticism."

  /** The sample corpus the knowledge base is built from. */
  function LoadCulturalData(): (data: seq<KnowledgeItem>)
    ensures |data| == 3
  {
    [ KnowledgeItem("japanese", "greetings", JapaneseGreetings),
      KnowledgeItem("american", "business", AmericanBusiness),
      KnowledgeItem("chinese", "respect", ChineseRespect) ]
  }

  /** How many items of `data` are tagged with `culture`. */
  function CountFor(data: seq<KnowledgeItem>, culture: string): nat {
    if data == [] then 0
    else (if data[0].culture == culture then 1 else 0) + CountFor(data[1..], culture)
  }

  /** The sample corpus has one passage for each of japanese, american and chinese,
      and none for german or french. */
  lemma SampleCorpusCoverage()
    ensures CountFor(LoadCulturalData(), "japanese") == 1
    ensures CountFor(LoadCulturalData(), "american") == 1
    ensures CountFor(LoadCulturalData(), "chinese") == 1
    ensures CountFor(LoadCulturalData(), "german") == 0
    ensures CountFor(LoadCulturalData(), "french") == 0
  {
    var d := LoadCulturalData();
    assert d[1..][1..][1..] == [];
  }

  /** The document made from one item: its content, tagged with exactly its culture
      and category. */
  function DocumentOf(item: KnowledgeItem): Document {
    Document(item.content, map["culture" := item.culture, "category" := item.category])
  }

  /** The documents made from `data`, one per item and in order. */
  function DocumentsOf(data: seq<KnowledgeItem>): seq<Document> {
    seq(|data|, i requires 0 <= i < |data| => DocumentOf(data[i]))
  }

  /** The loop of `_initialize_knowledge_base` that builds `docs`. */
  method BuildDocuments(data: seq<KnowledgeItem>) returns (docs: seq<Document>)
    ensures |docs| == |data|
    ensures forall i | 0 <= i < |data| ::
      docs[i].pageContent == data[i].content &&
      docs[i].metadata == map["culture" := data[i].culture, "category" := data[i].category]
    ensures docs == DocumentsOf(data)
  {
    docs := [];
    for i := 0 to |data|
      invariant |docs| == i
      invariant forall j | 0 <= j < i :: docs[j] == DocumentOf(data[j])
    {
      var doc := Document(data[i].content, map["culture" := data[i].culture, "category" := data[i].category]);
      docs := docs + [doc];
    }
  }

  /** Whether `d`'s metadata agrees with every entry of `filter`. */
  predicate MatchesFilter(d: Document, filter: map<string, string>) {
    forall key | key in filter :: key in d.metadata && d.metadata[key] == filter[key]
  }

  /** `retrieve_cultural_context` on a given store: no passages without a store, else
      the text of every document the search returns for `k` and the filter
      `culture == culture`, in the store's order. The search is not guarded, so
      when it raises retrieval raises too (`None`). */
  function Retrieve(store: Option<VectorStore>, query: string, culture: string, k: nat,
                    search: SimilaritySearch): (r: Option<seq<string>>)
    ensures store.None? ==> r == Some([])
    ensures store.Some? ==>
      var found := search(store.value, SearchRequest(query, k, map["culture" := culture]));
      && (r.None? <==> found.None?)
      && (found.Some? ==>
            |r.value| == |found.value| &&
            forall i | 0 <= i < |r.value| :: r.value[i] == found.value[i].pageContent)
  {
    match store
    case None => Some([])
    case Some(vs) =>
      match search(vs, SearchRequest(query, k, map["culture" := culture]))
      case None => None
      case Some(found) => Some(seq(|found|, i requires 0 <= i < |found| => found[i].pageContent))
  }

  /** `s` occurs inside `t`. */
  predicate IsInfix(s: string, t: string) {
    exists i | 0 <= i <= |t| - |s| :: s <= t[i..]
  }

  /** A splitter that keeps its promise: every chunk lies inside one of the documents
      given to it, carries that document's metadata and is no longer than the chunk size. */
  ghost predicate FaithfulSplitter(split: Splitter) {
    forall cfg: SplitterConfig, docs: seq<Document>, j | 0 <= j < |split(cfg, docs)| ::
      |split(cfg, docs)[j].pageContent| <= cfg.chunkSize &&
      exists d: Document | d in docs ::
        split(cfg, docs)[j].metadata == d.metadata && IsInfix(split(cfg, docs)[j].pageContent, d.pageContent)
  }

  /** A search that keeps its promise whenever it returns: at most `k` results, each
      a chunk of the store that satisfies the filter. */
  ghost predicate FaithfulSearch(search: SimilaritySearch) {
    forall vs: VectorStore, req: SearchRequest | search(vs, req).Some? ::
      |search(vs, req).value| <= req.k &&
      forall d | d in search(vs, req).value :: d in vs.chunks && MatchesFilter(d, req.filter)
  }

  /** The store `_initialize_knowledge_base` builds from non-empty data. */
  function StoreOf(data: seq<KnowledgeItem>, split: Splitter): VectorStore {
    VectorStore(split(TextSplitterConfig(), DocumentsOf(data)))
  }

  /** With faithful oracles, when retrieval returns, at most `k` passages come back,
      and each lies inside the content of a knowledge item of the requested culture. */
  lemma RetrievedPassagesBelongToCulture(data: seq<KnowledgeItem>, split: Splitter, search: SimilaritySearch,
                                         query: string, culture: string, k: nat)
    requires FaithfulSplitter(split) && FaithfulSearch(search)
    ensures var r := Retrieve(Some(StoreOf(data, split)), query, culture, k, search);
      r.Some? ==>
        |r.value| <= k &&
        forall passage | passage in r.value ::
          exists item | item in data :: item.culture == culture && IsInfix(passage, item.content)
  {
    var r := Retrieve(Some(StoreOf(data, split)), query, culture, k, search);
    if r.Some? {
      var found := search(StoreOf(data, split), SearchRequest(query, k, map["culture" := culture]));
      assert found.Some? && |found.value| <= k;
      forall passage | passage in r.value
        ensures exists item | item in data :: item.culture == culture && IsInfix(passage, item.content)
      {
        PassageSource(data, split, search, query, culture, k, passage);
      }
    }
  }

  /** The knowledge item one retrieved passage comes from. */
  lemma PassageSource(data: seq<KnowledgeItem>, split: Splitter, search: SimilaritySearch,
                      query: string, culture: string, k: nat, passage: string)
    requires FaithfulSplitter(split) && FaithfulSearch(search)
    requires Retrieve(Some(StoreOf(data, split)), query, culture, k, search).Some?
    requires passage in Retrieve(Some(StoreOf(data, split)), query, culture, k, search).value
    ensures exists item | item in data :: item.culture == culture && IsInfix(passage, item.content)
  {
    var vs := StoreOf(data, split);
    var req := SearchRequest(query, k, map["culture" := culture]);
    var found := search(vs, req).value;
    var r := Retrieve(Some(vs), query, culture, k, search).value;
    var i :| 0 <= i < |r| && r[i] == passage;
    var c := found[i];
    assert c in found;
    assert c in vs.chunks && MatchesFilter(c, req.filter);
    assert "culture" in req.filter;
    var item := ChunkSource(data, split, c);
    assert item.culture == DocumentOf(item).metadata["culture"] == c.metadata["culture"] == culture;
  }

  /** Every chunk of the store lies inside the content of a knowledge item and carries
      that item's metadata. */
  lemma ChunkSource(data: seq<KnowledgeItem>, split: Splitter, c: Document) returns (item: KnowledgeItem)
    requires FaithfulSplitter(split)
    requires c in StoreOf(data, split).chunks
    ensures item in data && c.metadata == DocumentOf(item).metadata && IsInfix(c.pageContent, item.content)
  {
    var chunks := StoreOf(data, split).chunks;
    var j :| 0 <= j < |chunks| && chunks[j] == c;
    var docs := DocumentsOf(data);
    var d :| d in docs && c.metadata == d.metadata && IsInfix(c.pageContent, d.pageContent);
    var n :| 0 <= n < |docs| && docs[n] == d;
    item := data[n];
  }

  /** A culture without knowledge items gets no passages, whatever the query and `k`,
      unless the search raises. */
  lemma NoPassagesNoContext(data: seq<KnowledgeItem>, split: Splitter, search: SimilaritySearch,
                            query: string, culture: string, k: nat)
    requires FaithfulSplitter(split) && FaithfulSearch(search)
    requires forall item | item in data :: item.culture != culture
    ensures var r := Retrieve(Some(StoreOf(data, split)), query, culture, k, search);
      r.Some? ==> r.value == []
  {
    var r := Retrieve(Some(StoreOf(data, split)), query, culture, k, search);
    if r.Some? && r.value != [] {
      PassageSource(data, split, search, query, culture, k, r.value[0]);
      assert false;
    }
  }

  /** On the sample corpus, german and french get no passages when the search returns. */
  lemma SampleCorpusHasNoGermanOrFrenchContext(split: Splitter, search: SimilaritySearch, query: string, k: nat)
    requires FaithfulSplitter(split) && FaithfulSearch(search)
    ensures var r := Retrieve(Some(StoreOf(LoadCulturalData(), split)), query, "german", k, search);
      r.Some? ==> r.value == []
    ensures var r := Retrieve(Some(StoreOf(LoadCulturalData(), split)), query, "french", k, search);
      r.Some? ==> r.value == []
  {
    NoPassagesNoContext(LoadCulturalData(), split, search, query, "german", k);
    NoPassagesNoContext(LoadCulturalData(), split, search, query, "french", k);
  }

  /** The knowledge base object: its vector store is absent until built. */
  class CulturalRag {
    var vectorStore: Option<VectorStore>

    /** `CulturalRAG()`: starts without a store, then builds it from the sample corpus. */
    constructor (split: Splitter)
      ensures vectorStore == Some(StoreOf(LoadCulturalData(), split))
    {
      vectorStore := None;
      new;
      InitializeKnowledgeBase(LoadCulturalData(), split);
    }

    /** `_initialize_knowledge_base`: builds the store from the documents of `data`
        only when `data` is non-empty; otherwise the store is left as it was. */
    method InitializeKnowledgeBase(data: seq<KnowledgeItem>, split: Splitter)
      modifies this
      ensures data == [] ==> vectorStore == old(vectorStore)
      ensures data != [] ==> vectorStore == Some(StoreOf(data, split))
    {
      if data != [] {
        var docs := BuildDocuments(data);
        var splitDocs := split(TextSplitterConfig(), docs);
        vectorStore := Some(VectorStore(splitDocs));
      }
    }

    /** `retrieve_cultural_context` on this object's store: no passages without a
        store; with one, it raises exactly when the search raises. */
    function RetrieveCulturalContext(query: string, culture: string, k: nat, search: SimilaritySearch)
      : (r: Option<seq<string>>)
      reads this
      ensures vectorStore.None? ==> r == Some([])
      ensures vectorStore.Some? ==>
        (r.None? <==> search(vectorStore.value, SearchRequest(query, k, map["culture" := culture])).None?)
      ensures r == Retrieve(vectorStore, query, culture, k, search)
    {
      Retrieve(vectorStore, query, culture, k, search)
    }
  }
}
