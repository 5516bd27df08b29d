/**
 * The retrieval-augmented generation service: ingestion of documents into the shared store
 * and assembly of a cited answer from the best-matching stored documents. The embedding
 * provider, the chat provider, the similarity measure and the id generator are parameters.
 */
module RagService {
  import opened Common
  import opened Text
  import opened VectorStore

  datatype ProviderError = ProviderError(message: string)

  /** `embedMany`: one call embeds a list of texts, or fails as a whole. */
  type Embedder = seq<string> -> Result<seq<Vector>, ProviderError>

  /** `generateText`: a system prompt and a user prompt give one answer text, or a failure. */
  type Generator = (string, string) -> Result<string, ProviderError>

  /** A document as handed to ingestion; id and metadata may be absent. */
  datatype IngestDoc = IngestDoc(id: Option<string>, text: string, metadata: Option<Metadata>)

  datatype IngestResult = IngestResult(ingested: nat, totalDocuments: nat, ids: seq<string>)

  /** One entry of the answer's source list; `index` is the citation number used in the prompt. */
  datatype SourceRef = SourceRef(index: nat, id: string, score: real, metadata: Metadata)

  datatype Answer = Answer(answer: string, sources: seq<SourceRef>)

  // ---------------------------------------------------------------- ingestion

  /** The texts sent to the embedding provider, in document order. */
  function Texts(docs: seq<IngestDoc>): (values: seq<string>)
    ensures |values| == |docs|
    ensures forall i :: 0 <= i < |docs| ==> values[i] == docs[i].text
  {
    seq(|docs|, i requires 0 <= i < |docs| => docs[i].text)
  }

  /** How many documents of docs carry no id; each of them consumes one `uuid()` call. */
  function MissingIds(docs: seq<IngestDoc>): nat {
    if docs == [] then 0
    else MissingIds(docs[..|docs| - 1]) + (if docs[|docs| - 1].id.None? then 1 else 0)
  }

  /** Document i makes its `uuid()` call, if any, after those of the documents before it. */
  lemma {:induction false} MissingIdsBefore(docs: seq<IngestDoc>, i: nat)
    requires i < |docs|
    ensures MissingIds(docs[..i]) + (if docs[i].id.None? then 1 else 0) <= MissingIds(docs)
  {
    var n := |docs|;
    if i < n - 1 {
      var front := docs[..n - 1];
      MissingIdsBefore(front, i);
      assert front[..i] == docs[..i];
    } else {
      assert docs[..n - 1] == docs[..i];
    }
  }

  /**
   * The id stored for document i: its own id when present (`doc.id ?? uuid()`), otherwise the
   * value of the next `uuid()` call; `uuid(c)` is the value the call numbered c returns.
   */
  function IdFor(docs: seq<IngestDoc>, i: nat, uuid: nat -> string): (id: string)
    requires i < |docs|
    ensures docs[i].id.Some? ==> id == docs[i].id.value
    ensures docs[i].id.None? ==>
              MissingIds(docs[..i]) < MissingIds(docs) && id == uuid(MissingIds(docs[..i]))
  {
    MissingIdsBefore(docs, i);
    match docs[i].id
    case Some(id) => id
    case None => uuid(MissingIds(docs[..i]))
  }

  /** The documents `ingestDocuments` stores: each input zipped with its embedding, defaults filled in. */
  function ToStored(docs: seq<IngestDoc>, embeddings: seq<Vector>, uuid: nat -> string): (stored: seq<StoredDocument>)
    requires |embeddings| >= |docs|
    ensures |stored| == |docs|
    ensures forall i :: 0 <= i < |docs| ==>
              stored[i].text == docs[i].text &&
              stored[i].embedding == embeddings[i] &&
              stored[i].metadata == Some(docs[i].metadata.GetOr(map[])) &&
              (docs[i].id.Some? ==> stored[i].id == docs[i].id.value)
  {
    seq(|docs|, i requires 0 <= i < |docs| =>
      StoredDocument(IdFor(docs, i, uuid), docs[i].text, Some(docs[i].metadata.GetOr(map[])), embeddings[i]))
  }

  /** The ids of a list of stored documents, in order. */
  function IdsOf(stored: seq<StoredDocument>): (ids: seq<string>)
    ensures |ids| == |stored|
    ensures forall i :: 0 <= i < |stored| ==> ids[i] == stored[i].id
  {
    seq(|stored|, i requires 0 <= i < |stored| => stored[i].id)
  }

  /** The ids stored for the documents that came without one, in document order. */
  function FilledIds(docs: seq<IngestDoc>, stored: seq<StoredDocument>): seq<string>
    requires |stored| == |docs|
  {
    if docs == [] then []
    else FilledIds(docs[..|docs| - 1], stored[..|docs| - 1]) +
         (if docs[|docs| - 1].id.None? then [stored[|docs| - 1].id] else [])
  }

  /**
   * Generated ids are consumed one per id-less document, in document order: the ids filled in
   * are exactly the first MissingIds(docs) values of `uuid()`, each once.
   */
  lemma {:induction false} FreshIdsInOrder(docs: seq<IngestDoc>, embeddings: seq<Vector>, uuid: nat -> string)
    requires |embeddings| >= |docs|
    ensures FilledIds(docs, ToStored(docs, embeddings, uuid)) ==
            seq(MissingIds(docs), (c: int) requires 0 <= c => uuid(c))
  {
    var n := |docs|;
    if n > 0 {
      var front := docs[..n - 1];
      var stored := ToStored(docs, embeddings, uuid);
      forall i | 0 <= i < n - 1 ensures stored[i] == ToStored(front, embeddings, uuid)[i] {
        assert front[..i] == docs[..i];
      }
      assert stored[..n - 1] == ToStored(front, embeddings, uuid);
      FreshIdsInOrder(front, embeddings, uuid);
      assert docs[..n - 1] == front;
    }
  }

  /**
   * `ingestDocuments`: embeds the texts in one provider call, stores one document per input
   * after the existing ones, and reports the counts and the ids in input order. A provider
   * failure propagates before the store is touched.
   */
  method IngestDocuments(store: InMemoryVectorStore, docs: seq<IngestDoc>, embed: Embedder, uuid: nat -> string)
    returns (r: Result<IngestResult, ProviderError>)
    requires embed(Texts(docs)).Success? ==> |embed(Texts(docs)).value| >= |docs|
    modifies store
    ensures embed(Texts(docs)).Failure? ==>
              r == Failure(embed(Texts(docs)).error) && store.docs == old(store.docs)
    ensures embed(Texts(docs)).Success? ==>
              var stored := ToStored(docs, embed(Texts(docs)).value, uuid);
              store.docs == old(store.docs) + stored &&
              r == Success(IngestResult(|docs|, old(store.Count()) + |docs|, IdsOf(stored)))
  {
    var values := Texts(docs);
    var embedded := embed(values);
    if embedded.Failure? {
      return Failure(embedded.error);
    }
    var stored := ToStored(docs, embedded.value, uuid);
    store.AddDocuments(stored);
    var total := store.Count();
    r := Success(IngestResult(|stored|, total, IdsOf(stored)));
  }

  // ---------------------------------------------------------------- answering

  /** The instruction preamble given to the chat provider, after trimming. */
  const SystemPrompt: string :=
    "You are a retrieval-augmented assistant. Use ONLY the provided context blocks to answer the user's question.\n" +
    "- If the answer isn't in the context, say you don't have enough information.\n" +
    "- Cite sources inline using [n] where n matches the context block number.\n" +
    "- Keep answers concise and factual."

  /** How a non-null metadata value appears inside a template string. */
  function Render(v: MetaValue): (r: string)
    requires v != Null
    ensures v.Str? ==> r == v.s
    ensures v.Bool? ==> r == (if v.b then "true" else "false")
    ensures v.Num? ==> r == IntToString(v.n)
  {
    match v
    case Bool(b) => if b then "true" else "false"
    case Num(n) => IntToString(n)
    case Str(s) => s
  }

  /** `doc.metadata?.source ?? doc.id`, as interpolated into the block header. */
  function SourceTag(doc: StoredDocument): (tag: string)
    ensures doc.metadata.None? ==> tag == doc.id
    ensures doc.metadata.Some? && ("source" !in doc.metadata.value || doc.metadata.value["source"] == Null) ==>
              tag == doc.id
    ensures doc.metadata.Some? && "source" in doc.metadata.value && doc.metadata.value["source"] != Null ==>
              tag == Render(doc.metadata.value["source"])
  {
    match doc.metadata
    case Some(m) => if "source" in m && m["source"] != Null then Render(m["source"]) else doc.id
    case None => doc.id
  }

  /** The header line of context block n: the citation, then the source tag in parentheses. */
  function BlockHeader(n: nat, tag: string): (h: string)
    ensures |h| >= |tag| + 11 && h[|h| - |tag| - 11..] == " (source: " + tag + ")"
  {
    var digits := NatToString(n);
    var named := " (source: " + tag + ")";
    HeaderShape(digits, "]", named);
    "[" + digits + "]" + named
  }

  /** The header of block n reads back as citation n. */
  lemma HeaderCited(n: nat, tag: string)
    ensures CitationNumber(BlockHeader(n, tag)) == Some(n)
  {
    HeaderShape(NatToString(n), "]", " (source: " + tag + ")");
    ParseNatToString(n);
  }

  /**
   * A `[`, a digit run, then text opening with `]`: the citation reads back as the digits'
   * value, and the text after the digits is untouched at the end.
   */
  lemma HeaderShape(digits: string, mid: string, tail: string)
    requires |digits| >= 1 && AllDigits(digits) && mid != [] && mid[0] == ']'
    ensures var h := "[" + digits + mid + tail;
            CitationNumber(h) == Some(ParseNat(digits)) && |h| >= |tail| && h[|h| - |tail|..] == tail
  {
    var h := "[" + digits + mid + tail;
    assert h[1..] == digits + (mid + tail);
    LeadingDigitsStop(digits, mid + tail);
  }

  /** Text appended after a complete citation tag does not change the citation read. */
  lemma CitationKept(h: string, rest: string)
    requires CitationNumber(h).Some?
    ensures CitationNumber(h + rest) == CitationNumber(h)
  {
    var d := LeadingDigits(h[1..]);
    assert h[1..] == d + h[1 + |d|..];
    assert (h + rest)[1..] == d + (h[1 + |d|..] + rest);
    LeadingDigitsStop(d, h[1 + |d|..] + rest);
  }

  /** Context block n (1-based) for one search result: its header line, then its text. */
  function ContextBlock(n: nat, r: SearchResult): (b: string)
    ensures var h := BlockHeader(n, SourceTag(r.doc));
            |b| == |h| + 1 + |r.doc.text| && b[..|h|] == h && b[|h|] == '\n' && b[|h| + 1..] == r.doc.text
  {
    var h := BlockHeader(n, SourceTag(r.doc));
    var t := "\n" + r.doc.text;
    SliceAfterPrefix(h, t, 1, |t|);
    assert t[1..] == r.doc.text;
    assert (h + t)[..|h|] == h;
    assert h + "\n" + r.doc.text == h + t;
    h + t
  }

  /** Block n reads back as citation n, whatever the result's tag and text. */
  lemma BlockCitation(n: nat, r: SearchResult)
    ensures CitationNumber(ContextBlock(n, r)) == Some(n)
  {
    var h := BlockHeader(n, SourceTag(r.doc));
    HeaderCited(n, SourceTag(r.doc));
    CitationKept(h, "\n" + r.doc.text);
  }

  /** Block i of the context for a result list reads back as citation i+1. */
  lemma BlockCited(results: seq<SearchResult>, i: nat)
    requires i < |results|
    ensures CitationNumber(ContextBlocks(results)[i]) == Some(i + 1)
  {
    var b := ContextBlocks(results)[i];
    assert b == ContextBlock(i + 1, results[i]);
    BlockCitation(i + 1, results[i]);
  }

  /** One block per result, numbered from 1 in result order. */
  function ContextBlocks(results: seq<SearchResult>): (blocks: seq<string>)
    ensures |blocks| == |results|
    ensures forall i :: 0 <= i < |results| ==> blocks[i] == ContextBlock(i + 1, results[i])
  {
    seq(|results|, i requires 0 <= i < |results| => ContextBlock(i + 1, results[i]))
  }

  const ContextHeading: string := "\n\nContext:\n"
  const AnswerInstruction: string := "\n\nAnswer with citations like [1], [2], etc."

  /** The part of the user prompt before the context blocks. */
  function PromptHead(query: string): string {
    "Question: " + query + ContextHeading
  }

  /**
   * The user prompt: the question, then the blocks separated by blank lines, then the
   * citation instruction; with no blocks the context section is empty.
   */
  function UserPrompt(query: string, blocks: seq<string>): (p: string)
    ensures |p| >= |PromptHead(query)| + |AnswerInstruction|
    ensures p[..|PromptHead(query)|] == PromptHead(query)
    ensures p[|p| - |AnswerInstruction|..] == AnswerInstruction
    ensures blocks == [] ==> p == PromptHead(query) + AnswerInstruction
  {
    PromptHead(query) + Join(blocks, "\n\n") + AnswerInstruction
  }

  /** Every context block appears in the user prompt, unchanged and in block order. */
  lemma PromptContainsBlocks(query: string, blocks: seq<string>, i: nat)
    requires i < |blocks|
    ensures var o := |PromptHead(query)| + PartOffset(blocks, "\n\n", i);
            o + |blocks[i]| <= |UserPrompt(query, blocks)| &&
            UserPrompt(query, blocks)[o..o + |blocks[i]|] == blocks[i]
  {
    var head := PromptHead(query);
    var joined := Join(blocks, "\n\n");
    var o := PartOffset(blocks, "\n\n", i);
    assert UserPrompt(query, blocks) == head + joined + AnswerInstruction;
    JoinPartAt(blocks, "\n\n", i);
    FramedSlice(head, joined, AnswerInstruction, o, o + |blocks[i]|);
  }

  /**
   * In the user prompt a blank line separates neighbouring blocks: right after block i come
   * the two characters "\n\n", and block i+1 starts after them.
   */
  lemma PromptSeparatesBlocks(query: string, blocks: seq<string>, i: nat)
    requires i + 1 < |blocks|
    ensures PartOffset(blocks, "\n\n", i + 1) == PartOffset(blocks, "\n\n", i) + |blocks[i]| + 2
    ensures var e := |PromptHead(query)| + PartOffset(blocks, "\n\n", i) + |blocks[i]|;
            e + 2 <= |UserPrompt(query, blocks)| && UserPrompt(query, blocks)[e..e + 2] == "\n\n"
  {
    var head := PromptHead(query);
    var joined := Join(blocks, "\n\n");
    var e := PartOffset(blocks, "\n\n", i) + |blocks[i]|;
    assert UserPrompt(query, blocks) == head + joined + AnswerInstruction;
    JoinSepAt(blocks, "\n\n", i);
    FramedSlice(head, joined, AnswerInstruction, e, e + 2);
  }

  /** The source list returned with the answer. */
  function Sources(results: seq<SearchResult>): (sources: seq<SourceRef>)
    ensures |sources| == |results|
  {
    seq(|results|, i requires 0 <= i < |results| =>
      SourceRef(i + 1, results[i].doc.id, results[i].score, results[i].doc.metadata.GetOr(map[])))
  }

  /** The generation step of `answerQuery` and the packaging of its outcome. */
  function Respond(query: string, results: seq<SearchResult>, generate: Generator): (r: Result<Answer, ProviderError>)
    ensures var g := generate(SystemPrompt, UserPrompt(query, ContextBlocks(results)));
            (r.Success? <==> g.Success?) &&
            (r.Success? ==> r.value == Answer(g.value, Sources(results))) &&
            (r.Failure? ==> r.error == g.error)
  {
    match generate(SystemPrompt, UserPrompt(query, ContextBlocks(results)))
    case Success(text) => Success(Answer(text, Sources(results)))
    case Failure(e) => Failure(e)
  }

  /** The citation number a reader takes from the leading `[n]` of a block, if there is one. */
  function CitationNumber(block: string): Option<nat> {
    if |block| >= 1 && block[0] == '[' then
      var digits := LeadingDigits(block[1..]);
      if |digits| > 0 && 1 + |digits| < |block| && block[1 + |digits|] == ']' then Some(ParseNat(digits))
      else None
    else None
  }

  /**
   * Citation numbers match the source list: block i opens with the citation `[i+1]` and the
   * source tag of result i, and ends with that result's text; source entry i has index i+1
   * and carries result i's id, score and metadata (defaulting to an empty record).
   */
  lemma CitationsMatchSources(results: seq<SearchResult>)
    ensures |ContextBlocks(results)| == |Sources(results)| == |results|
    ensures forall i :: 0 <= i < |results| ==>
              var block := ContextBlocks(results)[i];
              var source := Sources(results)[i];
              CitationNumber(block) == Some(i + 1) &&
              block == ContextBlock(i + 1, results[i]) &&
              source.index == i + 1 &&
              source.id == results[i].doc.id &&
              source.score == results[i].score &&
              source.metadata == results[i].doc.metadata.GetOr(map[])
  {
    forall i | 0 <= i < |results|
      ensures CitationNumber(ContextBlocks(results)[i]) == Some(i + 1)
    {
      BlockCited(results, i);
    }
  }

  /**
   * With no results the generator is still asked, with an empty context section, and a
   * successful answer carries an empty source list.
   */
  lemma NoResultsStillGenerates(query: string, generate: Generator)
    ensures UserPrompt(query, ContextBlocks([])) == PromptHead(query) + AnswerInstruction
    ensures var g := generate(SystemPrompt, UserPrompt(query, ContextBlocks([])));
            Respond(query, [], generate) ==
              if g.Success? then Success(Answer(g.value, [])) else Failure(g.error)
  {
  }

  /**
   * `answerQuery`: embeds the question alone, makes one store lookup with the caller's topK
   * and the first returned embedding, and answers from those results. The store is only read.
   */
  method AnswerQuery(store: InMemoryVectorStore, query: string, topK: int,
                     embed: Embedder, score: (Vector, Vector) -> real, generate: Generator)
    returns (r: Result<Answer, ProviderError>)
    requires embed([query]).Success? ==> |embed([query]).value| >= 1
    ensures embed([query]).Failure? ==> r == Failure(embed([query]).error)
    ensures embed([query]).Success? ==>
              r == Respond(query, Search(store.docs, embed([query]).value[0], topK, score), generate)
    ensures r.Success? ==> |r.value.sources| == SliceEnd(|store.docs|, topK)
  {
    var embedded := embed([query]);
    if embedded.Failure? {
      return Failure(embedded.error);
    }
    var queryEmbedding := embedded.value[0];
    var results := store.SimilaritySearch(queryEmbedding, topK, score);
    var userPrompt := UserPrompt(query, ContextBlocks(results));
    var generated := generate(SystemPrompt, userPrompt);
    if generated.Failure? {
      return Failure(generated.error);
    }
    r := Success(Answer(generated.value, Sources(results)));
  }
}
