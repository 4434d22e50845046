/** The three tools of the documentation agent, over the rows the store returns:
    `retrieve_relevant_documentation` (format the similarity-search hits, or a
    sentinel), `list_documentation_pages` (the sorted, de-duplicated URLs) and
    `get_page_content` (a page put back together in chunk order).

    The store's answer to a query is a parameter: the rows, in the order the store
    returns them, or the message of the exception the call raised. The `.eq`
    filters and `.order('chunk_number')` of the two table queries are applied here,
    as a filter and a sort over those rows. */
module Retrieval {
  import opened Text
  import opened Records

  const MATCH_COUNT: nat := 5
  const PREVIEW_LENGTH: nat := 1000
  const NO_RESULTS: string := "No relevant documentation found."
  const BLOCK_SEPARATOR: string := "\n\n---\n\n"
  const PAGE_SEPARATOR: string := "\n\n"
  const NOT_FOUND_PREFIX: string := "No content found for: "
  const ERROR_PREFIX: string := "Error: "
  /** The indentation the triple-quoted block template gives its second and third
      lines. */
  const INDENT: string := "            "

  // ---------------------------------------------------------------------------
  // retrieve_relevant_documentation

  /** The arguments of the `match_deepseek_pages` call. */
  datatype MatchRequest = MatchRequest(queryEmbedding: seq<real>, matchCount: nat, filter: Metadata)

  /** The similarity search the tool issues for a query: the query's embedding (or
      the zero vector when that fails), five hits, rows of the crawler's source. */
  function SearchRequest(userQuery: string, embeddingProvider: string -> Reply<seq<real>>): (req: MatchRequest)
    ensures req.matchCount == MATCH_COUNT && req.filter == map["source" := JString(SOURCE_TAG)]
    ensures embeddingProvider(userQuery).Delivered? ==> req.queryEmbedding == embeddingProvider(userQuery).value
    ensures embeddingProvider(userQuery).Failed? ==>
      |req.queryEmbedding| == EMBEDDING_DIMENSION && forall i :: 0 <= i < |req.queryEmbedding| ==> req.queryEmbedding[i] == 0.0
  {
    MatchRequest(EmbeddingOrZero(embeddingProvider(userQuery)), MATCH_COUNT,
                 map["source" := JString(SOURCE_TAG)])
  }

  /** `content[:1000]`: at most the first 1000 characters. */
  function Preview(content: string): (p: string)
    ensures |p| <= PREVIEW_LENGTH && p <= content
    ensures |content| <= PREVIEW_LENGTH <==> p == content
  {
    Prefix(content, PREVIEW_LENGTH)
  }

  /** The block of one hit: a heading with the title, the source URL, the content
      preview and an ellipsis. */
  function FormatBlock(row: ProcessedChunk): (block: string)
    ensures "## " + row.title <= block
    ensures var tail := Preview(row.content) + "...";
      |tail| <= |block| && block[|block| - |tail|..] == tail
    ensures var heading := "## " + row.title;
      var tail := Preview(row.content) + "...";
      |heading| + |tail| <= |block|
      && block[|heading|..|block| - |tail|] == "\n" + INDENT + "Source: " + row.url + "\n" + INDENT
  {
    var heading := "## " + row.title;
    var tail := Preview(row.content) + "...";
    var block := heading + ("\n" + INDENT + "Source: " + row.url + "\n" + INDENT + tail);
    assert block[..|heading|] == heading;
    assert block[|block| - |tail|..] == tail;
    assert block[|heading|..|block| - |tail|] == "\n" + INDENT + "Source: " + row.url + "\n" + INDENT;
    block
  }

  function Blocks(rows: seq<ProcessedChunk>): (blocks: seq<string>)
    ensures |blocks| == |rows|
    ensures forall i :: 0 <= i < |rows| ==> blocks[i] == FormatBlock(rows[i])
  {
    seq(|rows|, i requires 0 <= i < |rows| => FormatBlock(rows[i]))
  }

  /** What the tool answers for a search outcome. */
  function SearchAnswer(reply: Reply<seq<ProcessedChunk>>): (answer: string)
    ensures reply.Failed? ==> answer == ERROR_PREFIX + reply.message
    ensures reply.Delivered? && |reply.value| > 0 ==> FormatBlock(reply.value[0]) <= answer
  {
    match reply
    case Failed(message) => ERROR_PREFIX + message
    case Delivered(rows) => if |rows| == 0 then NO_RESULTS else Join(BLOCK_SEPARATOR, Blocks(rows))
  }

  /** `retrieve_relevant_documentation`: issue the search, then format the hits in
      the order the store ranked them. */
  method RetrieveRelevantDocumentation(userQuery: string, embeddingProvider: string -> Reply<seq<real>>,
                                       search: MatchRequest -> Reply<seq<ProcessedChunk>>)
    returns (answer: string)
    ensures answer == SearchAnswer(search(SearchRequest(userQuery, embeddingProvider)))
  {
    var queryEmbedding := EmbeddingOrZero(embeddingProvider(userQuery));
    var result := search(MatchRequest(queryEmbedding, MATCH_COUNT, map["source" := JString(SOURCE_TAG)]));
    if result.Failed? {
      return ERROR_PREFIX + result.message;
    }
    var rows := result.value;
    if |rows| == 0 {
      return NO_RESULTS;
    }
    var formatted: seq<string> := [];
    for i := 0 to |rows|
      invariant |formatted| == i
      invariant forall k :: 0 <= k < i ==> formatted[k] == FormatBlock(rows[k])
    {
      formatted := formatted + [FormatBlock(rows[i])];
    }
    assert formatted == Blocks(rows);
    answer := Join(BLOCK_SEPARATOR, formatted);
  }

  /** The three outcomes can be told apart by the answer alone: an error starts with
      "Error: ", the sentinel is returned exactly when the search found nothing, and
      hits start with a "## " heading, that of the best hit. */
  lemma SearchAnswerCases(reply: Reply<seq<ProcessedChunk>>)
    ensures var answer := SearchAnswer(reply);
      && (reply.Failed? <==> |answer| >= 7 && answer[..7] == ERROR_PREFIX)
      && (answer == NO_RESULTS <==> reply == Delivered([]))
      && (reply.Delivered? && |reply.value| > 0 <==> |answer| >= 3 && answer[..3] == "## ")
      && (reply.Delivered? && |reply.value| > 0 ==> FormatBlock(reply.value[0]) <= answer)
  {
    var answer := SearchAnswer(reply);
    if reply.Delivered? && |reply.value| > 0 {
      var blocks := Blocks(reply.value);
      JoinShape(BLOCK_SEPARATOR, blocks);
      var heading := "## " + reply.value[0].title;
      assert heading <= answer;
      assert answer[..3] == "## " by { assert answer[..3] == heading[..3]; }
      assert answer[0] == '#';
    } else if reply.Failed? {
      assert answer[..7] == ERROR_PREFIX;
      assert answer[0] == 'E';
    } else {
      assert answer[0] == 'N';
    }
  }

  /** The answer carries one block per hit, in the store's order, each separated
      from the next by the horizontal rule. */
  lemma {:induction false} SearchAnswerBlocks(rows: seq<ProcessedChunk>)
    requires |rows| > 1
    ensures SearchAnswer(Delivered(rows))
         == FormatBlock(rows[0]) + BLOCK_SEPARATOR + SearchAnswer(Delivered(rows[1..]))
  {
    assert Blocks(rows)[1..] == Blocks(rows[1..]);
  }

  /** A single hit is answered with exactly its block. */
  lemma SearchAnswerSingle(rows: seq<ProcessedChunk>)
    requires |rows| == 1
    ensures SearchAnswer(Delivered(rows)) == FormatBlock(rows[0])
  {
  }

  // ---------------------------------------------------------------------------
  // list_documentation_pages

  /** `.eq('metadata->>source', 'deepseek_docs')`: the row's metadata has the
      crawler's source tag. */
  predicate FromDocs(row: ProcessedChunk) {
    "source" in row.metadata && row.metadata["source"] == JString(SOURCE_TAG)
  }

  /** The URLs of the rows with the crawler's source tag. */
  ghost function DocUrls(rows: seq<ProcessedChunk>): set<string> {
    set i | 0 <= i < |rows| && FromDocs(rows[i]) :: rows[i].url
  }

  ghost function Elems(xs: seq<string>): set<string> {
    set x | x in xs
  }

  /** Each string is below every later one: sorted without repetitions. */
  predicate StrictlyAscending(xs: seq<string>) {
    forall i, j :: 0 <= i < j < |xs| ==> StrLess(xs[i], xs[j])
  }

  /** Adds `u` to a strictly ascending list, unless it is already there. */
  function InsertUrl(xs: seq<string>, u: string): (r: seq<string>)
    requires StrictlyAscending(xs)
    ensures StrictlyAscending(r)
    ensures Elems(r) == Elems(xs) + {u}
  {
    if |xs| == 0 then [u]
    else if u == xs[0] then xs
    else
      AscendingTail(xs);
      if StrLess(u, xs[0]) then
        forall y | y in Elems(xs) ensures StrLess(u, y) {
          if y != xs[0] { StrLessTransitive(u, xs[0], y); }
        }
        AscendingCons(u, xs);
        [u] + xs
      else
        var rest := InsertUrl(xs[1..], u);
        StrLessTotal(u, xs[0]);
        AscendingCons(xs[0], rest);
        [xs[0]] + rest
  }

  /** The tail of a strictly ascending list is strictly ascending, above its head,
      and holds the list's elements without the head. */
  lemma AscendingTail(xs: seq<string>)
    requires StrictlyAscending(xs) && |xs| > 0
    ensures StrictlyAscending(xs[1..])
    ensures forall y :: y in Elems(xs[1..]) ==> StrLess(xs[0], y)
    ensures Elems(xs) == {xs[0]} + Elems(xs[1..])
    ensures Elems(xs[1..]) == Elems(xs) - {xs[0]}
  {
    forall y | y in Elems(xs[1..]) ensures StrLess(xs[0], y) {
      var j :| 0 <= j < |xs[1..]| && xs[1..][j] == y;
      assert xs[j + 1] == y;
    }
    StrLessIrreflexive(xs[0]);
    assert xs == [xs[0]] + xs[1..];
  }

  /** A string below every element of a strictly ascending list extends it at the
      front. */
  lemma AscendingCons(x: string, ys: seq<string>)
    requires StrictlyAscending(ys)
    requires forall y :: y in Elems(ys) ==> StrLess(x, y)
    ensures StrictlyAscending([x] + ys)
    ensures Elems([x] + ys) == {x} + Elems(ys)
  {
    forall i, j | 0 <= i < j < |[x] + ys| ensures StrLess(([x] + ys)[i], ([x] + ys)[j]) {
      assert ([x] + ys)[j] == ys[j - 1];
      if i == 0 { assert ys[j - 1] in Elems(ys); } else { assert ([x] + ys)[i] == ys[i - 1]; }
    }
    assert forall z :: z in [x] + ys <==> z == x || z in ys;
  }

  /** `sorted(set(doc['url'] for doc in rows))` over the rows with the source tag. */
  function SortedUrls(rows: seq<ProcessedChunk>): (urls: seq<string>)
    ensures StrictlyAscending(urls)
    ensures Elems(urls) == DocUrls(rows)
  {
    if |rows| == 0 then []
    else
      var init := rows[..|rows| - 1];
      var last := rows[|rows| - 1];
      var acc := SortedUrls(init);
      assert DocUrls(rows) == DocUrls(init) + (if FromDocs(last) then {last.url} else {}) by {
        forall u ensures u in DocUrls(rows) <==> u in DocUrls(init) || (FromDocs(last) && u == last.url) {
          if u in DocUrls(rows) {
            var i :| 0 <= i < |rows| && FromDocs(rows[i]) && rows[i].url == u;
            if i < |rows| - 1 { assert init[i] == rows[i]; }
          }
          if u in DocUrls(init) {
            var i :| 0 <= i < |init| && FromDocs(init[i]) && init[i].url == u;
            assert rows[i] == init[i];
          }
        }
      }
      if FromDocs(last) then InsertUrl(acc, last.url) else acc
  }

  /** `list_documentation_pages`: the distinct URLs of the crawler's rows in
      ascending order, and the empty list when the query raises. */
  function ListDocumentationPages(reply: Reply<seq<ProcessedChunk>>): (urls: seq<string>)
    ensures StrictlyAscending(urls)
    ensures reply.Failed? ==> urls == []
    ensures reply.Delivered? ==> Elems(urls) == DocUrls(reply.value)
  {
    match reply
    case Failed(_) => []
    case Delivered(rows) => SortedUrls(rows)
  }

  /** A strictly ascending list is determined by its elements. */
  lemma {:induction false} AscendingUnique(xs: seq<string>, ys: seq<string>)
    requires StrictlyAscending(xs) && StrictlyAscending(ys) && Elems(xs) == Elems(ys)
    ensures xs == ys
    decreases |xs|
  {
    if |ys| > 0 { assert ys[0] in Elems(ys); }
    if |xs| > 0 {
      assert xs[0] in Elems(ys);
      assert ys[0] in Elems(xs);
      var i :| 0 <= i < |ys| && ys[i] == xs[0];
      var j :| 0 <= j < |xs| && xs[j] == ys[0];
      if i > 0 && j > 0 {
        StrLessTransitive(xs[0], xs[j], ys[i]);
        StrLessIrreflexive(xs[0]);
      }
      if i > 0 && j == 0 {
        StrLessIrreflexive(ys[0]);
      }
      if i == 0 && j > 0 {
        StrLessIrreflexive(xs[0]);
      }
      assert xs[0] == ys[0];
      AscendingTail(xs);
      AscendingTail(ys);
      AscendingUnique(xs[1..], ys[1..]);
      assert xs == [xs[0]] + xs[1..] && ys == [ys[0]] + ys[1..];
    }
  }

  /** The list depends only on which URLs the crawler's rows carry: not on the
      order the store returns them in, nor on how many chunks each page has. */
  lemma PagesOrderIndependent(rows1: seq<ProcessedChunk>, rows2: seq<ProcessedChunk>)
    requires DocUrls(rows1) == DocUrls(rows2)
    ensures ListDocumentationPages(Delivered(rows1)) == ListDocumentationPages(Delivered(rows2))
  {
    AscendingUnique(ListDocumentationPages(Delivered(rows1)), ListDocumentationPages(Delivered(rows2)));
  }

  /** One entry per distinct URL. */
  lemma PagesCount(rows: seq<ProcessedChunk>)
    ensures |ListDocumentationPages(Delivered(rows))| == |DocUrls(rows)|
  {
    AscendingCard(ListDocumentationPages(Delivered(rows)));
  }

  lemma {:induction false} AscendingCard(xs: seq<string>)
    requires StrictlyAscending(xs)
    ensures |Elems(xs)| == |xs|
  {
    if |xs| > 0 {
      AscendingTail(xs);
      AscendingCard(xs[1..]);
      assert xs[0] in Elems(xs);
    }
  }

  // ---------------------------------------------------------------------------
  // get_page_content

  /** `.eq('url', url)`: the rows of one page, in the store's order. */
  function OnPage(rows: seq<ProcessedChunk>, url: string): (mine: seq<ProcessedChunk>)
    ensures forall r :: multiset(mine)[r] == if r.url == url then multiset(rows)[r] else 0
  {
    if |rows| == 0 then []
    else
      assert rows == [rows[0]] + rows[1..];
      (if rows[0].url == url then [rows[0]] else []) + OnPage(rows[1..], url)
  }

  predicate SortedByNumber(xs: seq<ProcessedChunk>) {
    forall i, j :: 0 <= i < j < |xs| ==> xs[i].chunkNumber <= xs[j].chunkNumber
  }

  /** Places `r` after every row whose chunk number is not larger. */
  function InsertByNumber(xs: seq<ProcessedChunk>, r: ProcessedChunk): (ys: seq<ProcessedChunk>)
    requires SortedByNumber(xs)
    ensures SortedByNumber(ys)
    ensures multiset(ys) == multiset(xs) + multiset{r}
  {
    if |xs| == 0 then [r]
    else if r.chunkNumber < xs[0].chunkNumber then
      assert forall j :: 0 < j <= |xs| ==> ([r] + xs)[j] == xs[j - 1];
      [r] + xs
    else
      TailOfSorted(xs);
      var rest := InsertByNumber(xs[1..], r);
      forall x | x in multiset(rest) ensures xs[0].chunkNumber <= x.chunkNumber {
        if x != r { HeadIsLeast(xs, x); }
      }
      SortedCons(xs[0], rest);
      assert multiset([xs[0]] + rest) == multiset{xs[0]} + multiset(rest);
      [xs[0]] + rest
  }

  /** The first row of a chunk-ordered list has the lowest chunk number. */
  lemma HeadIsLeast(xs: seq<ProcessedChunk>, x: ProcessedChunk)
    requires SortedByNumber(xs) && x in multiset(xs)
    ensures |xs| > 0 && xs[0].chunkNumber <= x.chunkNumber
  {
    var j :| 0 <= j < |xs| && xs[j] == x;
  }

  lemma TailOfSorted(xs: seq<ProcessedChunk>)
    requires SortedByNumber(xs) && |xs| > 0
    ensures SortedByNumber(xs[1..]) && multiset(xs) == multiset{xs[0]} + multiset(xs[1..])
  {
    assert xs == [xs[0]] + xs[1..];
  }

  lemma SortedCons(x: ProcessedChunk, ys: seq<ProcessedChunk>)
    requires SortedByNumber(ys)
    requires forall y :: y in multiset(ys) ==> x.chunkNumber <= y.chunkNumber
    ensures SortedByNumber([x] + ys)
  {
    forall i, j | 0 <= i < j < |[x] + ys| ensures ([x] + ys)[i].chunkNumber <= ([x] + ys)[j].chunkNumber {
      assert ([x] + ys)[j] == ys[j - 1];
      if i == 0 { assert ys[j - 1] in multiset(ys); } else { assert ([x] + ys)[i] == ys[i - 1]; }
    }
  }

  /** `.order('chunk_number')`, stable: rows with equal chunk numbers keep the
      store's order. */
  function SortByNumber(xs: seq<ProcessedChunk>): (ys: seq<ProcessedChunk>)
    ensures SortedByNumber(ys)
    ensures multiset(ys) == multiset(xs)
  {
    if |xs| == 0 then []
    else
      assert xs == xs[..|xs| - 1] + [xs[|xs| - 1]];
      InsertByNumber(SortByNumber(xs[..|xs| - 1]), xs[|xs| - 1])
  }

  function Contents(xs: seq<ProcessedChunk>): (cs: seq<string>)
    ensures |cs| == |xs|
    ensures forall i :: 0 <= i < |xs| ==> cs[i] == xs[i].content
  {
    seq(|xs|, i requires 0 <= i < |xs| => xs[i].content)
  }

  /** The page made of the rows of one URL in chunk order: the first row's title as
      a heading, then every row's content. */
  function Assemble(ordered: seq<ProcessedChunk>): (page: string)
    requires |ordered| > 0
    ensures "# " + ordered[0].title <= page
  {
    Join(PAGE_SEPARATOR, ["# " + ordered[0].title] + Contents(ordered))
  }

  /** `get_page_content`. */
  function PageContent(url: string, reply: Reply<seq<ProcessedChunk>>): (page: string)
    ensures reply.Failed? ==> page == ERROR_PREFIX + reply.message
    ensures reply.Delivered? ==> page == NOT_FOUND_PREFIX + url || "# " <= page
  {
    match reply
    case Failed(message) => ERROR_PREFIX + message
    case Delivered(rows) =>
      var ordered := SortByNumber(OnPage(rows, url));
      if |ordered| == 0 then NOT_FOUND_PREFIX + url else Assemble(ordered)
  }

  /** The not-found sentinel is returned exactly when the query succeeded and no row
      has the URL; a found page starts with its "# " heading; an error with "Error: ". */
  lemma PageContentCases(url: string, reply: Reply<seq<ProcessedChunk>>)
    ensures var page := PageContent(url, reply);
      && (page == NOT_FOUND_PREFIX + url <==> reply.Delivered? && forall r :: r in reply.value ==> r.url != url)
      && (reply.Failed? <==> |page| >= 7 && page[..7] == ERROR_PREFIX)
  {
    var page := PageContent(url, reply);
    if reply.Delivered? {
      var ordered := SortByNumber(OnPage(reply.value, url));
      PageEmpty(url, reply.value);
      if exists r :: r in reply.value && r.url == url {
        var parts := ["# " + ordered[0].title] + Contents(ordered);
        JoinShape(PAGE_SEPARATOR, parts);
        assert page[0] == parts[0][0] == '#';
        assert page[0] != NOT_FOUND_PREFIX[0];
        assert page[0] != ERROR_PREFIX[0];
      } else {
        assert page[0] != ERROR_PREFIX[0];
      }
    } else {
      assert page[0] != NOT_FOUND_PREFIX[0];
      assert (ERROR_PREFIX + reply.message)[..7] == ERROR_PREFIX;
    }
  }

  /** No row of the page is left exactly when no returned row has its URL. */
  lemma PageEmpty(url: string, rows: seq<ProcessedChunk>)
    ensures |SortByNumber(OnPage(rows, url))| == 0 <==> forall r :: r in rows ==> r.url != url
  {
    var ordered := SortByNumber(OnPage(rows, url));
    if |ordered| > 0 {
      assert ordered[0] in multiset(ordered);
      PageRows(url, rows, ordered[0]);
    }
    forall r | r in rows && r.url == url ensures |ordered| > 0 {
      PageRows(url, rows, r);
    }
  }

  /** A found page is the page of the URL's rows in ascending chunk order (a
      reordering of exactly those rows), headed by the title of a row with the
      lowest chunk number. */
  lemma PageInChunkOrder(url: string, rows: seq<ProcessedChunk>) returns (ordered: seq<ProcessedChunk>)
    requires exists r :: r in rows && r.url == url
    ensures SortedByNumber(ordered)
    ensures forall r :: multiset(ordered)[r] == if r.url == url then multiset(rows)[r] else 0
    ensures |ordered| > 0 && PageContent(url, Delivered(rows)) == Assemble(ordered)
    ensures ordered[0] in rows && ordered[0].url == url
    ensures forall r :: r in rows && r.url == url ==> ordered[0].chunkNumber <= r.chunkNumber
  {
    ordered := SortByNumber(OnPage(rows, url));
    var r :| r in rows && r.url == url;
    assert r in multiset(ordered);
    assert ordered[0] in multiset(ordered);
    forall s | s in rows && s.url == url ensures ordered[0].chunkNumber <= s.chunkNumber {
      assert s in multiset(ordered);
      var j :| 0 <= j < |ordered| && ordered[j] == s;
      if j > 0 { assert ordered[0].chunkNumber <= ordered[j].chunkNumber; }
    }
  }

  /** No two different rows of the page share a chunk number (the table is keyed
      by URL and chunk number). */
  ghost predicate NumbersIdentifyRows(rows: seq<ProcessedChunk>, url: string) {
    forall r, s :: r in rows && s in rows && r.url == url && s.url == url && r.chunkNumber == s.chunkNumber ==> r == s
  }

  /** When chunk numbers identify the rows of the page, the page does not depend on
      the order in which the store returns its rows. */
  lemma PageOrderIndependent(url: string, rows1: seq<ProcessedChunk>, rows2: seq<ProcessedChunk>)
    requires multiset(rows1) == multiset(rows2)
    requires NumbersIdentifyRows(rows1, url)
    ensures PageContent(url, Delivered(rows1)) == PageContent(url, Delivered(rows2))
  {
    var a := SortByNumber(OnPage(rows1, url));
    var b := SortByNumber(OnPage(rows2, url));
    forall z ensures multiset(a)[z] == multiset(b)[z] {
      PageRows(url, rows1, z);
      PageRows(url, rows2, z);
    }
    assert multiset(a) == multiset(b);
    forall x: ProcessedChunk, y: ProcessedChunk | x in multiset(a) && y in multiset(a) && x.chunkNumber == y.chunkNumber
      ensures x == y
    {
      PageRows(url, rows1, x);
      PageRows(url, rows1, y);
    }
    SortedUnique(a, b);
  }

  /** A row is among the ordered rows of a page as often as it is among the rows
      the store returned, if it has the page's URL, and otherwise not at all. */
  lemma PageRows(url: string, rows: seq<ProcessedChunk>, z: ProcessedChunk)
    ensures multiset(SortByNumber(OnPage(rows, url)))[z] == if z.url == url then multiset(rows)[z] else 0
    ensures z in multiset(SortByNumber(OnPage(rows, url))) <==> z in rows && z.url == url
  {
  }

  /** In `m`, a chunk number identifies the row. */
  ghost predicate Identified(m: multiset<ProcessedChunk>) {
    forall x, y :: x in m && y in m && x.chunkNumber == y.chunkNumber ==> x == y
  }

  /** Two chunk-ordered lists of the same rows are equal when chunk numbers
      identify the rows. */
  lemma {:induction false} SortedUnique(a: seq<ProcessedChunk>, b: seq<ProcessedChunk>)
    requires SortedByNumber(a) && SortedByNumber(b) && multiset(a) == multiset(b)
    requires Identified(multiset(a))
    ensures a == b
    decreases |a|
  {
    if |a| == 0 {
      assert |multiset(b)| == 0;
    } else {
      SameHead(a, b);
      TailsAgree(a, b);
      TailOfSorted(a);
      TailOfSorted(b);
      IdentifiedTail(a);
      SortedUnique(a[1..], b[1..]);
      HeadAndTail(a, b);
    }
  }

  /** Both lists start with the row of the lowest chunk number. */
  lemma SameHead(a: seq<ProcessedChunk>, b: seq<ProcessedChunk>)
    requires SortedByNumber(a) && SortedByNumber(b) && multiset(a) == multiset(b)
    requires Identified(multiset(a)) && |a| > 0
    ensures |b| > 0 && a[0] == b[0]
  {
    assert a[0] in multiset(a);
    HeadIsLeast(b, a[0]);
    assert b[0] in multiset(b);
    HeadIsLeast(a, b[0]);
  }

  lemma HeadAndTail(a: seq<ProcessedChunk>, b: seq<ProcessedChunk>)
    requires |a| > 0 && |b| > 0 && a[0] == b[0] && a[1..] == b[1..]
    ensures a == b
  {
    assert a == [a[0]] + a[1..] && b == [b[0]] + b[1..];
  }

  lemma TailsAgree(a: seq<ProcessedChunk>, b: seq<ProcessedChunk>)
    requires multiset(a) == multiset(b) && |a| > 0 && |b| > 0 && a[0] == b[0]
    ensures multiset(a[1..]) == multiset(b[1..])
  {
    assert a == [a[0]] + a[1..];
    assert b == [b[0]] + b[1..];
    assert multiset(a) == multiset{a[0]} + multiset(a[1..]);
    assert multiset(b) == multiset{a[0]} + multiset(b[1..]);
    forall z ensures multiset(a[1..])[z] == multiset(b[1..])[z] {
      assert multiset(a)[z] == multiset(b)[z];
      assert (multiset{a[0]} + multiset(a[1..]))[z] == multiset{a[0]}[z] + multiset(a[1..])[z];
      assert (multiset{a[0]} + multiset(b[1..]))[z] == multiset{a[0]}[z] + multiset(b[1..])[z];
    }
  }

  lemma IdentifiedTail(a: seq<ProcessedChunk>)
    requires Identified(multiset(a)) && |a| > 0
    ensures Identified(multiset(a[1..]))
  {
    forall x | x in multiset(a[1..]) ensures x in multiset(a) {
      var j :| 0 <= j < |a[1..]| && a[1..][j] == x;
      assert a[j + 1] == x;
    }
  }
}
