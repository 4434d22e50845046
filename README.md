# DeepSeek documentation RAG: a verified model of the ingestion and retrieval core

The system crawls a documentation site into a chunk table and answers questions
from it with an agent that has three retrieval tools. This project models, in
Dafny, the parts of it that are logic rather than I/O:

- **Segmenter** (`segmenter.dfy`): `chunk_text`, which cuts a markdown page into
  chunks of at most `chunk_size` characters and strips every chunk. A cut moves
  back to the window's last code fence when that lies past 30% of the window.
  Otherwise a window holding a blank line is cut at its last blank line when that
  lies past 30%, and at the window edge when it does not. Only a window with no
  blank line at all is cut just after its last ". " (when past 30%, else at the
  edge).
- **Records** (`records.dfy`): the row `ProcessedChunk`. This file also holds the
  degraded results of the title/summary and embedding providers, the locally
  built metadata, `process_chunk`, and the numbering of a page's chunks by
  `enumerate`, joined with `asyncio.gather`.
- **Store** (`store.dfy`): the `deepseek_pages` table as a class holding a map
  keyed by `(url, chunk_number)`. It has `insert_chunk`, which looks the key up
  and then inserts, skips or updates, and `process_and_store_document`.
- **Retrieval** (`retrieval.dfy`): the agent tools `retrieve_relevant_documentation`,
  `list_documentation_pages` and `get_page_content`.
- **Text** (`text.dfy`): the parts of Python's `str` these rely on. These are
  `isspace`/`strip`, `rfind`, the `in` substring test, slicing with negative and
  clamped bounds, `s[:n]`, `sep.join` and the ordering `sorted` uses.

Each loop of the source is a method proved to compute a reference function:
`ChunkText` computes `Chunks`, `StoreBatch` computes `UpsertAll`, and
`RetrieveRelevantDocumentation` computes `SearchAnswer`. The lemmas prove the
promised properties about those functions: tiling, bounds, the break rules, the
upsert policy, the sentinels, sortedness, and independence from row order.

Outside services are parameters of the model:

- the title/summary provider, as a function from the prompt to a reply that
  delivers a JSON object or fails;
- the embedding provider, as a function from the text to a vector or a failure;
- the timestamp, as a function of the chunk number;
- the URL's path, as a string;
- the store's failures, as a predicate on the chunk number;
- the rows a table query returns, as a sequence (or the failure message).

Behaviour of the code that is easy to miss, and that the model keeps:

- A document made only of whitespace yields one empty chunk (`[""]`), not an
  empty list. More generally, the final remainder is appended without the
  `if chunk:` test, so the last chunk can be empty. The other chunks never are.
- A blank line before the 30% mark does not let the sentence rule apply: the
  window is cut hard at `start + chunk_size`, even when it holds a late ". "
  (`EarlyParagraphHardCut`).
- A text of exactly `chunk_size` characters is one chunk, because the test is
  `end >= text_length`.
- `process_chunk` does not always degrade. A reply that is a JSON object without
  a "title" or "summary" key raises `KeyError`, and `gather` propagates it.
  Nothing of that page is stored.
- The three-paragraph example "para A", blank line, "para B", blank line,
  "para C" is 22 characters long. With a chunk size of 15 it gives the three
  paragraphs (`ThreeParagraphs`).

## Model

| member | source | states |
|---|---|---|
| Text.Strip | crawl_deepseek_docs.py:110 | the result is no longer than the input and neither begins nor ends with whitespace |
| Text.StripIsInfix | crawl_deepseek_docs.py:110 | `strip` returns an infix `s[i:j]` of its input and every character outside it is whitespace |
| Text.StripEmpty | crawl_deepseek_docs.py:110-111 | a string strips to "" exactly when it is all whitespace, which is what `if chunk:` tests |
| Text.RFind | crawl_deepseek_docs.py:91 | `rfind` is -1 exactly when the pattern does not occur; otherwise it is an occurrence with no later one |
| Text.RFindIsLast | crawl_deepseek_docs.py:98 | an occurrence with none after it is the one `rfind` reports |
| Text.RFindAbsent | crawl_deepseek_docs.py:91 | a pattern whose first character is not in the string makes `rfind` return -1 |
| Text.SliceBound | crawl_deepseek_docs.py:90 | a slice bound is clamped to `0..len`, and an in-range bound is unchanged |
| Text.PySlice | crawl_deepseek_docs.py:90 | `s[i:j]` is the plain infix for in-range bounds, runs to the end when `j` exceeds the length, and is never longer than `s` |
| Text.Prefix | crawl_deepseek_docs.py:132 | `s[:n]` has length min(len(s), n) and is a prefix of `s` |
| Text.Join | deepseek_agent.py:90 | `sep.join(xs)` of a non-empty list starts with its first element |
| Text.JoinShape | deepseek_agent.py:90 | the length of a joined list is the elements' total length plus one separator per gap |
| Text.StrLessIrreflexive | deepseek_agent.py:110 | Python's string order is irreflexive |
| Text.StrLessTransitive | deepseek_agent.py:110 | Python's string order is transitive |
| Text.StrLessTotal | deepseek_agent.py:110 | any two different strings are ordered one way or the other |
| Segmenter.Cut | crawl_deepseek_docs.py:89-107 | with a positive chunk size the chosen end lies strictly after the start and at most one chunk size further |
| Segmenter.ChunksFrom | crawl_deepseek_docs.py:80-115 | with a chunk size of at least 1, the loop run from `start` yields no chunk exactly when `start` is already at the end of the text |
| Segmenter.Chunks | crawl_deepseek_docs.py:74-117 | with a chunk size of at least 1, `chunk_text` returns [] exactly for the empty text |
| Segmenter.ChunkText | crawl_deepseek_docs.py:74-117 | the loop returns exactly `Chunks(text, chunk_size)`, the reference recursion, for every integer chunk size |
| Segmenter.ChunksFromStep | crawl_deepseek_docs.py:109-115 | one iteration appends the stripped window when it is non-empty and continues from `max(start + 1, end)` |
| Segmenter.EmptyText | crawl_deepseek_docs.py:80 | an empty document yields no chunks |
| Segmenter.ShortText | crawl_deepseek_docs.py:82-87 | a document with 0 < length <= chunk_size yields exactly `[text.strip()]` |
| Segmenter.FenceBreak | crawl_deepseek_docs.py:89-93 | a fence past 30% of the window puts the cut at the window's last fence, so the fence begins the next window |
| Segmenter.ParagraphBreak | crawl_deepseek_docs.py:95-100 | with no late fence, a blank line past 30% puts the cut just before the window's last blank line |
| Segmenter.EarlyParagraphHardCut | crawl_deepseek_docs.py:92-107 | with no late fence, a window whose blank lines all lie before 30% is cut at `start + chunk_size`, and the sentence rule is never tried |
| Segmenter.SentenceBreak | crawl_deepseek_docs.py:102-107 | with no late fence and no blank line, a ". " past 30% cuts after the period: the window ends with "." and the next starts with the space |
| Segmenter.HardCut | crawl_deepseek_docs.py:89-107 | with no late fence, no blank line and no late ". ", the cut is at `start + chunk_size` |
| Segmenter.WindowsTile | crawl_deepseek_docs.py:90-115 | with chunk_size >= 1 the windows `text[start:end]` are contiguous and concatenate to exactly the text |
| Segmenter.WindowsBounded | crawl_deepseek_docs.py:82-107 | every window is non-empty and at most chunk_size long, so the remainder is taken only when it fits |
| Segmenter.ChunksAreKeptWindows | crawl_deepseek_docs.py:109-112 | the chunks are the stripped windows, non-empty ones kept and the remainder kept unconditionally |
| Segmenter.ChunksBounded | crawl_deepseek_docs.py:82-112 | every chunk has at most chunk_size characters |
| Segmenter.LastChunkIsRemainder | crawl_deepseek_docs.py:84-87 | a non-empty text always yields a chunk, and the last chunk is the stripped remainder `text[s:]` of a position whose remainder fits |
| Segmenter.OnlyLastMayBeEmpty | crawl_deepseek_docs.py:110-112 | every chunk but the last is non-empty |
| Segmenter.WhitespaceOnly | crawl_deepseek_docs.py:84-87 | a non-empty all-whitespace document yields `[""]` |
| Segmenter.ScenarioFirstCut | crawl_deepseek_docs.py:95-100 | in the three-paragraph example the first cut is at the first blank line, position 6 |
| Segmenter.ScenarioSecondCut | crawl_deepseek_docs.py:95-100 | in the three-paragraph example the second cut is at the second blank line, position 14 |
| Segmenter.ScenarioPieceA | crawl_deepseek_docs.py:110 | the first window strips to "para A" |
| Segmenter.ScenarioPieceB | crawl_deepseek_docs.py:110 | the second window strips to "para B" |
| Segmenter.ScenarioPieceC | crawl_deepseek_docs.py:86 | the remainder strips to "para C" |
| Segmenter.ThreeChunks | crawl_deepseek_docs.py:80-115 | a text cut twice before its remainder fits yields the two stripped windows and the stripped remainder |
| Segmenter.ThreeParagraphs | crawl_deepseek_docs.py:74-117 | "para A\n\npara B\n\npara C" with chunk size 15 segments into ["para A", "para B", "para C"] |
| Records.TitlePrompt | crawl_deepseek_docs.py:132 | the prompt is "URL: ", then the URL, then "\n\nContent:\n", then `chunk[:1000]`, then "..." |
| Records.TitleAndSummary | crawl_deepseek_docs.py:127-140 | a delivered object is returned as is; a failed call gives the two placeholder strings |
| Records.EmbeddingOrZero | crawl_deepseek_docs.py:142-153 | a delivered vector is returned as is; a failure gives 1536 zeros (the same fallback as deepseek_agent.py:47-57) |
| Records.ChunkMetadata | crawl_deepseek_docs.py:164-169 | the metadata has exactly the keys source, chunk_size, crawled_at and url_path, holding "deepseek_docs", len(chunk), the timestamp and the URL's path |
| Records.ProcessChunk | crawl_deepseek_docs.py:155-179 | the record is built iff the object has both keys; otherwise the KeyError names a missing key, "title" first when both are missing; the record has the URL, the number, the object's title and summary, the chunk verbatim as content, the provider's or fallback embedding, and the four metadata entries |
| Records.ProviderFailureDegrades | crawl_deepseek_docs.py:138-153 | a failing title provider still yields a record with the placeholder title and summary, and a failing embedding provider makes it the zero vector |
| Records.Gather | crawl_deepseek_docs.py:247 | all results in task order iff no task raised; otherwise the exception of the first raising task |
| Records.Tasks | crawl_deepseek_docs.py:243-246 | the i-th task is `process_chunk(chunks[i], i, url)` |
| Records.ProcessAll | crawl_deepseek_docs.py:240-247 | the batch is built iff every `process_chunk(chunks[i], i, url)` is, and then record i is that call's record; otherwise the error is that of the first call in chunk order that raised |
| Records.ProcessedNumbering | crawl_deepseek_docs.py:243-247 | a built batch has one record per chunk; record i has chunk_number i, the page URL, content chunks[i], chunk_size len(chunks[i]) and the source tag |
| Store.Upsert | crawl_deepseek_docs.py:209-226 | after one successful `insert_chunk` the record's key is present and no other key is added, dropped or changed |
| Store.UpsertEffect | crawl_deepseek_docs.py:209-226 | an absent key is inserted; a present key is left alone without update_existing and replaced with it; no other key changes |
| Store.UpsertKeepsIdentity | crawl_deepseek_docs.py:199-226 | every row stays stored under its own `(url, chunk_number)` |
| Store.RepeatWithoutUpdateKeepsFirst | crawl_deepseek_docs.py:209-220 | two calls for a new key without update_existing leave one row with the first call's record |
| Store.RepeatWithUpdateKeepsSecond | crawl_deepseek_docs.py:209-217 | two calls for a key with update_existing leave one row with the second call's record |
| Store.UpsertCommutes | crawl_deepseek_docs.py:250-254 | upserts to distinct keys give the same table in either order, so the concurrent upserts of a page may be run in sequence |
| Store.UpsertAll | crawl_deepseek_docs.py:250-254 | storing a batch never removes a row, and adds only keys of the batch |
| Store.UpsertAllAt | crawl_deepseek_docs.py:250-254 | for a batch with distinct keys, each key whose store call succeeded follows the policy against the table before the batch, and every other key is unchanged |
| Store.ChunkTable.InsertChunk | crawl_deepseek_docs.py:181-235 | a failing store call changes nothing and reports the error; otherwise the table becomes `Upsert(old rows)` and the outcome says which of insert, update or skip happened |
| Store.ChunkTable.StoreBatch | crawl_deepseek_docs.py:250-254 | the upserts of a batch, one `insert_chunk` per record, leave the table at `UpsertAll(old rows, batch)` |
| Store.ChunkTable.ProcessAndStoreDocument | crawl_deepseek_docs.py:237-254 | the page is segmented with chunk size 5000; if a record raises KeyError that error is raised and the table is unchanged; otherwise every record is upserted |
| Store.DocumentKeysDistinct | crawl_deepseek_docs.py:243-246 | the records of one page have pairwise distinct keys |
| Store.ReingestWithoutUpdate | crawl_deepseek_docs.py:209-220 | upserting again, without update_existing, any batch whose keys were all stored leaves the table unchanged |
| Store.TableRowsIdentified | crawl_deepseek_docs.py:189-226 | rows read from a table whose rows sit under their own `(url, chunk_number)` key are identified, within one URL, by their chunk number |
| Store.TablePageOrderIndependent | deepseek_agent.py:128-139 | for the rows of a valid table, `get_page_content` gives the same page whatever order the store returns them in |
| Store.ReingestDocument | crawl_deepseek_docs.py:237-254 | ingesting a page a second time without update_existing, whatever the providers answer, leaves the first ingestion's rows: one row per chunk number |
| Retrieval.SearchRequest | deepseek_agent.py:72-78 | the search asks for 5 hits with the filter {source: deepseek_docs} and the query's embedding, or 1536 zeros when embedding fails |
| Retrieval.Preview | deepseek_agent.py:87 | `content[:1000]` has at most 1000 characters, is a prefix of the content, and is all of it exactly when the content fits |
| Retrieval.FormatBlock | deepseek_agent.py:85-87 | a hit's block starts with "## " and the title, then holds the line "Source: " + url, both continuation lines indented by 12 spaces, and ends with the content preview followed by "..." |
| Retrieval.Blocks | deepseek_agent.py:83-88 | one block per hit, in the store's order |
| Retrieval.SearchAnswer | deepseek_agent.py:80-94 | a failed search answers "Error: " + message; a non-empty result starts with the best hit's block |
| Retrieval.RetrieveRelevantDocumentation | deepseek_agent.py:59-94 | the loop returns `SearchAnswer` of the search issued with the query's embedding (or the zero vector), match_count 5 and the filter {source: deepseek_docs} |
| Retrieval.SearchAnswerCases | deepseek_agent.py:80-94 | exactly a failed search gives a text starting with "Error: "; exactly an empty result gives the sentinel; exactly a non-empty result gives a text starting with "## ", beginning with the best hit's block |
| Retrieval.SearchAnswerBlocks | deepseek_agent.py:83-90 | consecutive blocks are separated by "\n\n---\n\n", in hit order |
| Retrieval.SearchAnswerSingle | deepseek_agent.py:83-90 | a single hit is answered with exactly its block |
| Retrieval.InsertUrl | deepseek_agent.py:110 | adding a URL to a strictly ascending list keeps it strictly ascending and adds exactly that URL |
| Retrieval.SortedUrls | deepseek_agent.py:110 | `sorted(set(urls))` over the rows with the source tag is strictly ascending and has exactly their URLs |
| Retrieval.ListDocumentationPages | deepseek_agent.py:96-114 | the result is strictly ascending (so has no duplicates) and its elements are the tagged rows' URLs; a failed query gives [] |
| Retrieval.AscendingUnique | deepseek_agent.py:110 | a strictly ascending list is determined by its set of elements |
| Retrieval.PagesOrderIndependent | deepseek_agent.py:105-110 | the list depends only on the set of tagged URLs, not on row order or on how many chunks a page has |
| Retrieval.PagesCount | deepseek_agent.py:110 | the list has one entry per distinct tagged URL |
| Retrieval.AscendingCard | deepseek_agent.py:110 | a strictly ascending list has as many distinct elements as entries |
| Retrieval.OnPage | deepseek_agent.py:128-130 | the `.eq('url', url)` filter keeps every row with that URL as often as it occurs, and no other row |
| Retrieval.InsertByNumber | deepseek_agent.py:131 | inserting a row into a chunk-ordered list keeps it ordered and adds exactly that row |
| Retrieval.SortByNumber | deepseek_agent.py:131 | `.order('chunk_number')` gives a chunk-ordered permutation of its input |
| Retrieval.Contents | deepseek_agent.py:138 | the i-th content is the i-th row's content |
| Retrieval.Assemble | deepseek_agent.py:137-139 | a page of rows starts with "# " and the first row's title |
| Retrieval.PageContent | deepseek_agent.py:127-143 | a failed query answers "Error: " + message; a successful one is the not-found sentinel or a page starting with "# " |
| Retrieval.PageEmpty | deepseek_agent.py:134-135 | no row of the page remains exactly when no returned row has the URL |
| Retrieval.PageRows | deepseek_agent.py:128-131 | a row is among the page's ordered rows as often as it was returned, if it has the URL, and not otherwise |
| Retrieval.PageContentCases | deepseek_agent.py:127-143 | exactly a successful query with no row of that URL gives "No content found for: " + url; exactly a failed query gives a text starting with "Error: " |
| Retrieval.PageInChunkOrder | deepseek_agent.py:128-139 | a found page is "# " + title followed by every matching row's content in ascending chunk_number, joined by "\n\n"; the title is that of a row with the lowest chunk number |
| Retrieval.PageOrderIndependent | deepseek_agent.py:128-139 | when chunk numbers identify the page's rows, the page does not depend on the order the rows are returned in |
| Retrieval.SortedUnique | deepseek_agent.py:131 | two chunk-ordered lists of the same rows are equal when chunk numbers identify the rows |

## Left out

- Module setup, `.env` loading, credential checks, connectivity probes and every
  `print` (crawl_deepseek_docs.py:19-62 and the logging throughout): I/O with no
  effect on results.
- `crawl_parallel` (crawl_deepseek_docs.py:256-289): the headless browser and the
  `asyncio.Semaphore` concurrency cap are I/O and scheduling.
- `get_deepseek_docs_urls` and `main` (crawl_deepseek_docs.py:291-326): HTTP, XML
  parsing by a library, and argument parsing.
- The agent object, system prompt, logfire and tool registration
  (deepseek_agent.py:16-45), and the UI and routing files (streamlit_deepseek.py,
  api/app.py, src/pages/api/chat.ts, src/components/ChatInterface.tsx). They are
  not part of this model.
- The OpenAI calls, JSON parsing, the similarity ranking of `match_deepseek_pages`,
  `datetime.now(...).isoformat()` and `urlparse(url).path`. These are foreign
  calls, modelled as parameters or opaque replies.
- Segmenter.PastThreshold: compares `10 * k > 3 * chunk_size` exactly instead of
  the float test `k > chunk_size * 0.3`. The two agree unless rounding the
  product to a double moves it across an integer.
- Records.Gather: when several tasks raise, the error reported is that of the
  first task in index order. `asyncio.gather` reports the first to raise in time,
  which depends on scheduling.
- Records.ProcessChunk: a reply that is valid JSON but not an object, or whose
  title or summary is not a string, is not modelled. The reply is a
  `map<string, string>`.
- Store.ChunkTable.ProcessAndStoreDocument: the two `gather` calls run in
  sequence. This is sound for the upserts, whose keys are distinct
  (`DocumentKeysDistinct`, `UpsertCommutes`). The race between concurrent
  ingestions of the same key, which has no defined winner, is not modelled.
- Store.ChunkTable.InsertChunk: returns an `Outcome` where the source returns
  the store's response object after an insert or an update, and `None` after a
  skip or an error. A store failure is one flag per call: a failure in the
  lookup, the insert or the update changes nothing.
- Retrieval.SortByNumber: rows with equal chunk numbers keep their returned
  order. The store leaves such ties unspecified. Rows of one table never tie
  within a URL (`Store.TableRowsIdentified`).
- Retrieval.PageOrderIndependent: requires that chunk numbers identify the
  page's rows. Rows read from a valid table meet it
  (`Store.TablePageOrderIndependent`); rows handed in arbitrarily may not.
- Retrieval.RetrieveRelevantDocumentation: the rows are complete records. A row
  missing a field, which in the source would raise inside the `try` and become
  an "Error: " answer, is not modelled.
- Retrieval.ListDocumentationPages: the `metadata->>source` filter is taken as
  "the metadata's source is the string deepseek_docs". Only string and integer
  metadata values are modelled.
- Embeddings are sequences of reals. Float precision and the fixed 1536-entry
  width of the provider's vectors are not modelled, except for the fallback's
  length.
