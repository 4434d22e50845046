/** The chunk record of the ingestion pipeline (`ProcessedChunk`) and how one is
    built for a segment: the title/summary and embedding providers with their
    degraded fallbacks (`get_title_and_summary`, `get_embedding`), the local
    metadata, `process_chunk`, and the `enumerate` that numbers a document's
    segments.

    The providers are parameters: a function from the request it is sent to the
    reply it gives, which either delivers a value or fails. */
module Records {
  import opened Text

  /** The outcome of a call to an outside service: a value, or the message of the
      exception it raised. */
  datatype Reply<T> = Failed(message: string) | Delivered(value: T)

  /** A value of the JSON metadata column. */
  datatype Json = JString(str: string) | JInt(num: int)

  /** The open key/value metadata of a row. */
  type Metadata = map<string, Json>

  /** One row of the chunk table, keyed by `(url, chunkNumber)`. */
  datatype ProcessedChunk = ProcessedChunk(
    url: string,
    chunkNumber: int,
    title: string,
    summary: string,
    content: string,
    metadata: Metadata,
    embedding: seq<real>)

  /** The outcome of `process_chunk`: the record, or the `KeyError` raised when the
      title/summary object lacks a key. */
  datatype Processed<T> = Built(value: T) | KeyError(key: string)

  const SOURCE_TAG: string := "deepseek_docs"
  const EMBEDDING_DIMENSION: nat := 1536
  const TITLE_FALLBACK: string := "Error processing title"
  const SUMMARY_FALLBACK: string := "Error processing summary"
  const PROMPT_PREFIX_LENGTH: nat := 1000

  /** The user message sent to the title/summary provider: the URL and only the
      first 1000 characters of the chunk. */
  function TitlePrompt(chunk: string, url: string): (prompt: string)
    ensures |prompt| == |url| + 19 + (if |chunk| <= PROMPT_PREFIX_LENGTH then |chunk| else PROMPT_PREFIX_LENGTH)
    ensures prompt[..5] == "URL: " && prompt[|prompt| - 3..] == "..."
    ensures prompt[5..5 + |url|] == url
    ensures prompt[5 + |url|..|url| + 16] == "\n\nContent:\n"
    ensures prompt[|url| + 16..|prompt| - 3] == Prefix(chunk, PROMPT_PREFIX_LENGTH)
  {
    "URL: " + url + "\n\nContent:\n" + Prefix(chunk, PROMPT_PREFIX_LENGTH) + "..."
  }

  /** `get_title_and_summary`: the parsed JSON object the provider returns, or the
      fixed placeholder pair when the call or the parse fails. */
  function TitleAndSummary(reply: Reply<map<string, string>>): (fields: map<string, string>)
    ensures reply.Failed? ==>
      ("title" in fields && "summary" in fields
       && fields["title"] == TITLE_FALLBACK && fields["summary"] == SUMMARY_FALLBACK)
    ensures reply.Delivered? ==> fields == reply.value
  {
    match reply
    case Failed(_) => map["title" := TITLE_FALLBACK, "summary" := SUMMARY_FALLBACK]
    case Delivered(obj) => obj
  }

  /** `get_embedding`: the provider's vector, or a zero vector of the provider's
      dimension when the call fails. */
  function EmbeddingOrZero(reply: Reply<seq<real>>): (v: seq<real>)
    ensures reply.Failed? ==> |v| == EMBEDDING_DIMENSION && forall i :: 0 <= i < |v| ==> v[i] == 0.0
    ensures reply.Delivered? ==> v == reply.value
  {
    match reply
    case Failed(_) => seq(EMBEDDING_DIMENSION, _ => 0.0)
    case Delivered(v) => v
  }

  /** The metadata assembled locally for a chunk. The timestamp and the URL's path
      come from calls this model does not interpret. */
  function ChunkMetadata(chunk: string, crawledAt: string, urlPath: string): (m: Metadata)
    ensures m.Keys == {"source", "chunk_size", "crawled_at", "url_path"}
    ensures m["source"] == JString(SOURCE_TAG) && m["chunk_size"] == JInt(|chunk|)
    ensures m["crawled_at"] == JString(crawledAt) && m["url_path"] == JString(urlPath)
  {
    map["source" := JString(SOURCE_TAG), "chunk_size" := JInt(|chunk|),
        "crawled_at" := JString(crawledAt), "url_path" := JString(urlPath)]
  }

  /** `process_chunk`: asks both providers, then builds the record. The only way it
      fails is a title/summary object without a "title" or "summary" key. */
  function ProcessChunk(chunk: string, chunkNumber: int, url: string,
                        titleProvider: string -> Reply<map<string, string>>,
                        embeddingProvider: string -> Reply<seq<real>>,
                        crawledAt: string, urlPath: string): (r: Processed<ProcessedChunk>)
    ensures var fields := TitleAndSummary(titleProvider(TitlePrompt(chunk, url)));
      r.Built? <==> "title" in fields && "summary" in fields
    ensures var fields := TitleAndSummary(titleProvider(TitlePrompt(chunk, url)));
      r.KeyError? ==> r.key in {"title", "summary"} && r.key !in fields
                      && (r.key == "summary" ==> "title" in fields)
    ensures var fields := TitleAndSummary(titleProvider(TitlePrompt(chunk, url)));
      r.Built? ==> var c := r.value;
      && c.url == url && c.chunkNumber == chunkNumber && c.content == chunk
      && c.title == fields["title"] && c.summary == fields["summary"]
      && c.embedding == EmbeddingOrZero(embeddingProvider(chunk))
      && c.metadata.Keys == {"source", "chunk_size", "crawled_at", "url_path"}
      && c.metadata["source"] == JString(SOURCE_TAG)
      && c.metadata["chunk_size"] == JInt(|chunk|)
      && c.metadata["crawled_at"] == JString(crawledAt)
      && c.metadata["url_path"] == JString(urlPath)
  {
    var extracted := TitleAndSummary(titleProvider(TitlePrompt(chunk, url)));
    var embedding := EmbeddingOrZero(embeddingProvider(chunk));
    var metadata := ChunkMetadata(chunk, crawledAt, urlPath);
    if "title" !in extracted then KeyError("title")
    else if "summary" !in extracted then KeyError("summary")
    else Built(ProcessedChunk(url, chunkNumber, extracted["title"], extracted["summary"],
                              chunk, metadata, embedding))
  }

  /** Failing providers degrade instead of aborting: when the title/summary call
      fails the record is still built, with the placeholder title and summary, and
      when the embedding call fails too it carries the zero vector. */
  lemma ProviderFailureDegrades(chunk: string, chunkNumber: int, url: string,
                                titleProvider: string -> Reply<map<string, string>>,
                                embeddingProvider: string -> Reply<seq<real>>,
                                crawledAt: string, urlPath: string)
    requires titleProvider(TitlePrompt(chunk, url)).Failed?
    ensures var r := ProcessChunk(chunk, chunkNumber, url, titleProvider, embeddingProvider, crawledAt, urlPath);
      r.Built? && r.value.title == TITLE_FALLBACK && r.value.summary == SUMMARY_FALLBACK
      && (embeddingProvider(chunk).Failed? ==>
            |r.value.embedding| == EMBEDDING_DIMENSION && forall i :: 0 <= i < EMBEDDING_DIMENSION ==> r.value.embedding[i] == 0.0)
  {
  }

  /** `asyncio.gather` over tasks that either return or raise: all the results in
      task order, or the exception of the first task (in task order) that raised. */
  function Gather<T>(tasks: seq<Processed<T>>): (r: Processed<seq<T>>)
    ensures r.Built? <==> forall i :: 0 <= i < |tasks| ==> tasks[i].Built?
    ensures r.Built? ==>
      (|r.value| == |tasks| && forall i :: 0 <= i < |tasks| ==> r.value[i] == tasks[i].value)
    ensures r.KeyError? ==>
      exists i :: 0 <= i < |tasks| && tasks[i] == KeyError(r.key) && forall j :: 0 <= j < i ==> tasks[j].Built?
  {
    if |tasks| == 0 then Built([])
    else
      var rest := Gather(tasks[1..]);
      if tasks[0].KeyError? then KeyError(tasks[0].key)
      else if rest.KeyError? then
        var i :| 0 <= i < |tasks| - 1 && tasks[1..][i] == KeyError(rest.key)
                 && forall j :: 0 <= j < i ==> tasks[1..][j].Built?;
        assert tasks[i + 1] == KeyError(rest.key);
        KeyError(rest.key)
      else Built([tasks[0].value] + rest.value)
  }

  /** One `process_chunk` task per segment, the i-th numbered i (`enumerate`). */
  function Tasks(chunks: seq<string>, url: string,
                 titleProvider: string -> Reply<map<string, string>>,
                 embeddingProvider: string -> Reply<seq<real>>,
                 clock: int -> string, urlPath: string): (tasks: seq<Processed<ProcessedChunk>>)
    ensures |tasks| == |chunks|
    ensures forall i :: 0 <= i < |chunks| ==>
      tasks[i] == ProcessChunk(chunks[i], i, url, titleProvider, embeddingProvider, clock(i), urlPath)
  {
    seq(|chunks|, i requires 0 <= i < |chunks| =>
      ProcessChunk(chunks[i], i, url, titleProvider, embeddingProvider, clock(i), urlPath))
  }

  /** The batch of `process_and_store_document`: the records of all segments, or
      the `KeyError` of a failing one, in which case nothing is stored. */
  function ProcessAll(chunks: seq<string>, url: string,
                      titleProvider: string -> Reply<map<string, string>>,
                      embeddingProvider: string -> Reply<seq<real>>,
                      clock: int -> string, urlPath: string): (r: Processed<seq<ProcessedChunk>>)
    ensures r.Built? <==> forall i :: 0 <= i < |chunks| ==>
      ProcessChunk(chunks[i], i, url, titleProvider, embeddingProvider, clock(i), urlPath).Built?
    ensures r.Built? ==> |r.value| == |chunks| && forall i :: 0 <= i < |chunks| ==>
      r.value[i] == ProcessChunk(chunks[i], i, url, titleProvider, embeddingProvider, clock(i), urlPath).value
    ensures r.KeyError? ==>
      exists i :: (0 <= i < |chunks|
        && ProcessChunk(chunks[i], i, url, titleProvider, embeddingProvider, clock(i), urlPath) == KeyError(r.key)
        && forall j :: 0 <= j < i ==>
             ProcessChunk(chunks[j], j, url, titleProvider, embeddingProvider, clock(j), urlPath).Built?)
  {
    Gather(Tasks(chunks, url, titleProvider, embeddingProvider, clock, urlPath))
  }

  /** The records of a batch are numbered 0..n-1 in segment order, each holds its
      segment verbatim with its length in the metadata, and all share the URL. */
  lemma ProcessedNumbering(chunks: seq<string>, url: string,
                           titleProvider: string -> Reply<map<string, string>>,
                           embeddingProvider: string -> Reply<seq<real>>,
                           clock: int -> string, urlPath: string)
    requires ProcessAll(chunks, url, titleProvider, embeddingProvider, clock, urlPath).Built?
    ensures var recs := ProcessAll(chunks, url, titleProvider, embeddingProvider, clock, urlPath).value;
      |recs| == |chunks| &&
      forall i :: 0 <= i < |recs| ==>
        recs[i].chunkNumber == i && recs[i].url == url && recs[i].content == chunks[i]
        && recs[i].metadata["chunk_size"] == JInt(|chunks[i]|)
        && recs[i].metadata["source"] == JString(SOURCE_TAG)
  {
    var recs := ProcessAll(chunks, url, titleProvider, embeddingProvider, clock, urlPath).value;
    forall i | 0 <= i < |recs|
      ensures recs[i].chunkNumber == i && recs[i].url == url && recs[i].content == chunks[i]
        && recs[i].metadata["chunk_size"] == JInt(|chunks[i]|)
        && recs[i].metadata["source"] == JString(SOURCE_TAG)
    {
      var r := ProcessChunk(chunks[i], i, url, titleProvider, embeddingProvider, clock(i), urlPath);
      assert r.Built?;
      assert recs[i] == r.value;
    }
  }
}
