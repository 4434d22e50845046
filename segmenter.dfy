/** The segmenter `chunk_text`: cuts a document into windows of at most
    `chunkSize` characters and strips every window. A window's cut moves back
    to its last code fence when that lies past 30% of the window. Otherwise, if
    the window holds a blank line, the cut is at the last one when it lies past
    30% and at the window edge when it does not; only a window without a blank
    line is cut after its last ". " (again when past 30%, else at the edge).

    `Cut` is one iteration's choice of the window end, `ChunksFrom` is the loop
    as a recursive reference definition, and `ChunkText` is the loop itself,
    proved to compute it. `Windows` and `Kept` describe the same result as
    "strip every window of a tiling", which the lemmas connect. */
module Segmenter {
  import opened Text

  const DEFAULT_CHUNK_SIZE: int := 5000
  const FENCE: string := "```"
  const PARAGRAPH: string := "\n\n"
  const SENTENCE: string := ". "

  function Max(a: int, b: int): int { if a < b then b else a }

  /** `text[start:start + chunkSize]`, the window inspected by one iteration. */
  function Window(text: string, chunkSize: int, start: nat): string
  {
    PySlice(text, start, start + chunkSize)
  }

  /** A boundary at offset `k` of the window is usable only past 30% of the chunk
      size (`k > chunk_size * 0.3`, in integers). */
  predicate PastThreshold(k: int, chunkSize: int) {
    10 * k > 3 * chunkSize
  }

  /** The end of the window that starts at `start` when the rest of the text does
      not fit: the last fence past the threshold, else (when the window holds a
      blank line) the last blank line past the threshold, else (when it holds a
      ". ") just after the last period past the threshold, else the window edge. */
  function Cut(text: string, chunkSize: int, start: nat): (e: int)
    requires start < |text| && start + chunkSize < |text|
    ensures chunkSize >= 1 ==> start < e <= start + chunkSize
  {
    var w := Window(text, chunkSize, start);
    var codeBlock := RFind(w, FENCE);
    if codeBlock != -1 && PastThreshold(codeBlock, chunkSize) then start + codeBlock
    else if Contains(w, PARAGRAPH) then
      var lastBreak := RFind(w, PARAGRAPH);
      if PastThreshold(lastBreak, chunkSize) then start + lastBreak else start + chunkSize
    else if Contains(w, SENTENCE) then
      var lastPeriod := RFind(w, SENTENCE);
      if PastThreshold(lastPeriod, chunkSize) then start + lastPeriod + 1 else start + chunkSize
    else start + chunkSize
  }

  /** The chunks the loop appends from position `start` on. */
  function ChunksFrom(text: string, chunkSize: int, start: nat): (chunks: seq<string>)
    ensures chunkSize >= 1 ==> (chunks == [] <==> start >= |text|)
    decreases |text| - start
  {
    if start >= |text| then []
    else if start + chunkSize >= |text| then [Strip(text[start..])]
    else
      var end := Cut(text, chunkSize, start);
      var piece := Strip(PySlice(text, start, end));
      (if piece != [] then [piece] else []) + ChunksFrom(text, chunkSize, Max(start + 1, end))
  }

  /** The result of `chunk_text(text, chunk_size)`. */
  function Chunks(text: string, chunkSize: int): (chunks: seq<string>)
    ensures chunkSize >= 1 ==> (chunks == [] <==> text == [])
  {
    ChunksFrom(text, chunkSize, 0)
  }

  /** One iteration of the loop: the chunks from `start` are the stripped window
      (when non-empty) followed by the chunks from the next start. */
  lemma ChunksFromStep(text: string, chunkSize: int, start: nat, done: seq<string>)
    requires start < |text| && start + chunkSize < |text|
    ensures var end := Cut(text, chunkSize, start);
      var piece := Strip(PySlice(text, start, end));
      done + ChunksFrom(text, chunkSize, start)
        == (if piece != [] then done + [piece] else done) + ChunksFrom(text, chunkSize, Max(start + 1, end))
  {
    var end := Cut(text, chunkSize, start);
    var piece := Strip(PySlice(text, start, end));
    var rest := ChunksFrom(text, chunkSize, Max(start + 1, end));
    assert ChunksFrom(text, chunkSize, start) == (if piece != [] then [piece] else []) + rest;
    if piece != [] {
      assert done + ([piece] + rest) == done + [piece] + rest;
    } else {
      assert [] + rest == rest;
    }
  }

  /** `chunk_text`, its `while` loop, for any integer chunk size. */
  method ChunkText(text: string, chunkSize: int) returns (chunks: seq<string>)
    ensures chunks == Chunks(text, chunkSize)
  {
    chunks := [];
    var start: nat := 0;
    var textLength := |text|;
    while start < textLength
      invariant chunks + ChunksFrom(text, chunkSize, start) == Chunks(text, chunkSize)
      decreases textLength - start
    {
      var end := start + chunkSize;
      if end >= textLength {
        chunks := chunks + [Strip(text[start..])];
        break;
      }
      var chunk := Window(text, chunkSize, start);
      var codeBlock := RFind(chunk, FENCE);
      if codeBlock != -1 && PastThreshold(codeBlock, chunkSize) {
        end := start + codeBlock;
      } else if Contains(chunk, PARAGRAPH) {
        var lastBreak := RFind(chunk, PARAGRAPH);
        if PastThreshold(lastBreak, chunkSize) {
          end := start + lastBreak;
        }
      } else if Contains(chunk, SENTENCE) {
        var lastPeriod := RFind(chunk, SENTENCE);
        if PastThreshold(lastPeriod, chunkSize) {
          end := start + lastPeriod + 1;
        }
      }
      assert end == Cut(text, chunkSize, start);
      var piece := Strip(PySlice(text, start, end));
      ChunksFromStep(text, chunkSize, start, chunks);
      if piece != [] {
        chunks := chunks + [piece];
      }
      start := Max(start + 1, end);
    }
  }

  // ---------------------------------------------------------------------------
  // Small inputs

  /** An empty document has no chunks. */
  lemma EmptyText(chunkSize: int)
    ensures Chunks([], chunkSize) == []
  {
  }

  /** A non-empty document that fits in one chunk is returned whole, stripped: the
      test is `end >= text_length`, so a text of exactly `chunk_size` characters
      is not cut. */
  lemma ShortText(text: string, chunkSize: int)
    requires 0 < |text| <= chunkSize
    ensures Chunks(text, chunkSize) == [Strip(text)]
  {
    assert text[0..] == text;
  }

  // ---------------------------------------------------------------------------
  // The break rules, one lemma per branch of the `if`/`elif` chain

  /** No fence starts past the threshold of the window. */
  ghost predicate NoLateFence(text: string, chunkSize: int, start: nat) {
    forall j :: Occurs(Window(text, chunkSize, start), FENCE, j) ==> !PastThreshold(j, chunkSize)
  }

  /** A fence past 30% of the window wins: the cut is placed at the last fence of
      the window, so that the fence begins the next window. */
  lemma FenceBreak(text: string, chunkSize: int, start: nat, k: int)
    requires 1 <= chunkSize && start + chunkSize < |text|
    requires Occurs(Window(text, chunkSize, start), FENCE, k) && PastThreshold(k, chunkSize)
    ensures var e := Cut(text, chunkSize, start);
      start + k <= e && e + |FENCE| <= start + chunkSize && text[e..e + |FENCE|] == FENCE
    ensures var e := Cut(text, chunkSize, start);
      forall j :: e - start < j ==> !Occurs(Window(text, chunkSize, start), FENCE, j)
  {
    var r := RFind(Window(text, chunkSize, start), FENCE);
    WindowOccurrence(text, chunkSize, start, FENCE, r);
  }

  /** An occurrence inside the window is an occurrence in the text, shifted by `start`. */
  lemma WindowOccurrence(text: string, chunkSize: int, start: nat, p: string, j: int)
    requires 0 <= chunkSize && start + chunkSize <= |text|
    requires Occurs(Window(text, chunkSize, start), p, j)
    ensures start + j + |p| <= start + chunkSize && text[start + j..start + j + |p|] == p
  {
    var w := Window(text, chunkSize, start);
    assert w == text[start..start + chunkSize];
    assert text[start + j..start + j + |p|] == w[j..j + |p|];
  }

  /** Without a late fence, a blank line past 30% of the window is the cut: the
      window ends just before the last blank line. */
  lemma ParagraphBreak(text: string, chunkSize: int, start: nat, k: int)
    requires 1 <= chunkSize && start + chunkSize < |text|
    requires NoLateFence(text, chunkSize, start)
    requires Occurs(Window(text, chunkSize, start), PARAGRAPH, k) && PastThreshold(k, chunkSize)
    ensures var e := Cut(text, chunkSize, start);
      start + k <= e && e + |PARAGRAPH| <= start + chunkSize && text[e..e + |PARAGRAPH|] == PARAGRAPH
    ensures var e := Cut(text, chunkSize, start);
      forall j :: e - start < j ==> !Occurs(Window(text, chunkSize, start), PARAGRAPH, j)
  {
    var w := Window(text, chunkSize, start);
    var f := RFind(w, FENCE);
    assert !(f != -1 && PastThreshold(f, chunkSize));
    assert Contains(w, PARAGRAPH);
    var r := RFind(w, PARAGRAPH);
    assert r >= k;
    WindowOccurrence(text, chunkSize, start, PARAGRAPH, r);
  }

  /** Without a late fence, a window whose blank lines all lie before the 30% mark
      is cut hard at its edge: the blank line shadows the sentence rule, which is
      not tried even when a late ". " exists. */
  lemma EarlyParagraphHardCut(text: string, chunkSize: int, start: nat)
    requires start < |text| && start + chunkSize < |text|
    requires NoLateFence(text, chunkSize, start)
    requires Contains(Window(text, chunkSize, start), PARAGRAPH)
    requires forall j :: Occurs(Window(text, chunkSize, start), PARAGRAPH, j) ==> !PastThreshold(j, chunkSize)
    ensures Cut(text, chunkSize, start) == start + chunkSize
  {
    var w := Window(text, chunkSize, start);
    var f := RFind(w, FENCE);
    assert !(f != -1 && PastThreshold(f, chunkSize));
    var r := RFind(w, PARAGRAPH);
    assert Occurs(w, PARAGRAPH, r);
  }

  /** Without a late fence or any blank line, a ". " past 30% of the window is the
      cut, and the cut keeps the period: the window ends with "." and the next one
      starts with the space. */
  lemma SentenceBreak(text: string, chunkSize: int, start: nat, k: int)
    requires 1 <= chunkSize && start + chunkSize < |text|
    requires NoLateFence(text, chunkSize, start)
    requires !Contains(Window(text, chunkSize, start), PARAGRAPH)
    requires Occurs(Window(text, chunkSize, start), SENTENCE, k) && PastThreshold(k, chunkSize)
    ensures var e := Cut(text, chunkSize, start);
      start + k < e < start + chunkSize && text[e - 1] == '.' && text[e] == ' '
    ensures var e := Cut(text, chunkSize, start);
      forall j :: e - 1 - start < j ==> !Occurs(Window(text, chunkSize, start), SENTENCE, j)
  {
    var w := Window(text, chunkSize, start);
    var f := RFind(w, FENCE);
    assert !(f != -1 && PastThreshold(f, chunkSize));
    assert Contains(w, SENTENCE);
    var r := RFind(w, SENTENCE);
    assert r >= k;
    WindowOccurrence(text, chunkSize, start, SENTENCE, r);
    assert text[start + r..start + r + 2] == ". ";
    assert text[start + r] == '.' && text[start + r + 1] == ' ';
  }

  /** Without a late fence, without a blank line and without a late ". ", the
      window is cut hard at its edge. */
  lemma HardCut(text: string, chunkSize: int, start: nat)
    requires start < |text| && start + chunkSize < |text|
    requires NoLateFence(text, chunkSize, start)
    requires !Contains(Window(text, chunkSize, start), PARAGRAPH)
    requires forall j :: Occurs(Window(text, chunkSize, start), SENTENCE, j) ==> !PastThreshold(j, chunkSize)
    ensures Cut(text, chunkSize, start) == start + chunkSize
  {
    var w := Window(text, chunkSize, start);
    var f := RFind(w, FENCE);
    assert !(f != -1 && PastThreshold(f, chunkSize));
    var r := RFind(w, SENTENCE);
    assert r == -1 || Occurs(w, SENTENCE, r);
  }

  // ---------------------------------------------------------------------------
  // The chunks as the stripped windows of a tiling

  /** The windows `text[start:end]` of the successive iterations, the last one
      being the remainder `text[start:]`. */
  function Windows(text: string, chunkSize: int, start: nat): seq<string>
    requires chunkSize >= 1
    decreases |text| - start
  {
    if start >= |text| then []
    else if start + chunkSize >= |text| then [text[start..]]
    else
      var end := Cut(text, chunkSize, start);
      [text[start..end]] + Windows(text, chunkSize, end)
  }

  /** Strip every window; keep the last one (the remainder) unconditionally and the
      others only when they strip to something non-empty. */
  function Kept(windows: seq<string>): seq<string>
  {
    if |windows| == 0 then []
    else if |windows| == 1 then [Strip(windows[0])]
    else (if Strip(windows[0]) != [] then [Strip(windows[0])] else []) + Kept(windows[1..])
  }

  function Concat(xs: seq<string>): string
  {
    if |xs| == 0 then [] else xs[0] + Concat(xs[1..])
  }

  /** With a positive chunk size, consecutive windows are contiguous and together
      they are exactly the text: no character is dropped or repeated. */
  lemma {:induction false} WindowsTile(text: string, chunkSize: int, start: nat)
    requires chunkSize >= 1 && start <= |text|
    ensures Concat(Windows(text, chunkSize, start)) == text[start..]
    decreases |text| - start
  {
    if start < |text| && start + chunkSize < |text| {
      var end := Cut(text, chunkSize, start);
      WindowsTile(text, chunkSize, end);
      assert Windows(text, chunkSize, start)[1..] == Windows(text, chunkSize, end);
      assert text[start..end] + text[end..] == text[start..];
    }
  }

  /** Every window is non-empty and at most `chunkSize` long; in particular the
      remainder is only taken when it fits. */
  lemma {:induction false} WindowsBounded(text: string, chunkSize: int, start: nat)
    requires chunkSize >= 1
    ensures forall w :: w in Windows(text, chunkSize, start) ==> 0 < |w| <= chunkSize
    decreases |text| - start
  {
    if start < |text| && start + chunkSize < |text| {
      WindowsBounded(text, chunkSize, Cut(text, chunkSize, start));
    }
  }

  /** The chunks are the kept, stripped windows. */
  lemma {:induction false} ChunksAreKeptWindows(text: string, chunkSize: int, start: nat)
    requires chunkSize >= 1
    ensures ChunksFrom(text, chunkSize, start) == Kept(Windows(text, chunkSize, start))
    decreases |text| - start
  {
    if start < |text| && start + chunkSize < |text| {
      var end := Cut(text, chunkSize, start);
      ChunksAreKeptWindows(text, chunkSize, end);
      assert Windows(text, chunkSize, end) != [];
      var ws := Windows(text, chunkSize, start);
      assert ws[1..] == Windows(text, chunkSize, end);
    }
  }

  /** Every chunk is at most `chunkSize` characters long. */
  lemma {:induction false} ChunksBounded(text: string, chunkSize: int, start: nat)
    requires chunkSize >= 1
    ensures forall c :: c in ChunksFrom(text, chunkSize, start) ==> |c| <= chunkSize
    decreases |text| - start
  {
    if start < |text| && start + chunkSize < |text| {
      ChunksBounded(text, chunkSize, Cut(text, chunkSize, start));
    }
  }

  /** A non-empty remainder of the text always yields at least one chunk, and the
      last chunk is the stripped remainder `text[s:]` of some position `s` whose
      remainder fits in a chunk. */
  lemma {:induction false} LastChunkIsRemainder(text: string, chunkSize: int, start: nat)
    returns (s: nat)
    requires chunkSize >= 1 && start < |text|
    ensures start <= s < |text| && |text| - s <= chunkSize
    ensures var cs := ChunksFrom(text, chunkSize, start);
      |cs| > 0 && cs[|cs| - 1] == Strip(text[s..])
    decreases |text| - start
  {
    if start + chunkSize >= |text| {
      s := start;
    } else {
      var end := Cut(text, chunkSize, start);
      ChunksFromStep(text, chunkSize, start, []);
      assert Max(start + 1, end) == end;
      s := LastChunkIsRemainder(text, chunkSize, end);
    }
  }

  /** Every chunk except the last is non-empty: the `if chunk:` filter applies to
      all chunks but the final remainder. */
  lemma {:induction false} OnlyLastMayBeEmpty(text: string, chunkSize: int, start: nat)
    requires chunkSize >= 1
    ensures var cs := ChunksFrom(text, chunkSize, start);
      forall i :: 0 <= i < |cs| - 1 ==> cs[i] != []
    decreases |text| - start
  {
    if start < |text| && start + chunkSize < |text| {
      var end := Cut(text, chunkSize, start);
      OnlyLastMayBeEmpty(text, chunkSize, end);
      var _ := LastChunkIsRemainder(text, chunkSize, end);
    }
  }

  /** A document made only of whitespace yields a single empty chunk, the stripped
      remainder that is appended without the emptiness test. */
  lemma {:induction false} WhitespaceOnly(text: string, chunkSize: int, start: nat)
    requires chunkSize >= 1 && start < |text| && AllSpace(text)
    ensures ChunksFrom(text, chunkSize, start) == [[]]
    decreases |text| - start
  {
    if start + chunkSize >= |text| {
      SpaceInfix(text, start, |text|);
      assert text[start..|text|] == text[start..];
    } else {
      var end := Cut(text, chunkSize, start);
      SpaceInfix(text, start, end);
      assert PySlice(text, start, end) == text[start..end];
      WhitespaceOnly(text, chunkSize, end);
    }
  }

  /** Every infix of an all-whitespace string strips to nothing. */
  lemma SpaceInfix(text: string, i: nat, j: nat)
    requires i <= j <= |text| && AllSpace(text)
    ensures Strip(text[i..j]) == []
  {
    var w := text[i..j];
    assert AllSpace(w) by {
      forall k | 0 <= k < |w| ensures IsSpace(w[k]) {
        assert w[k] == text[i + k];
      }
    }
    StripEmpty(w);
  }

  // ---------------------------------------------------------------------------
  // A worked example: three paragraphs and a chunk size of 15

  const SCENARIO: string := "para A\n\npara B\n\npara C"

  /** The first window `SCENARIO[0:15]` holds no fence, and its last blank line lies
      at offset 6, past 30% of 15: the first cut is at 6. */
  lemma ScenarioFirstCut()
    ensures Cut(SCENARIO, 15, 0) == 6
  {
    var w := Window(SCENARIO, 15, 0);
    assert w == "para A\n\npara B\n";
    RFindAbsent(w, FENCE);
    assert Occurs(w, PARAGRAPH, 6);
    forall j | 6 < j <= |w| - 2 ensures !Occurs(w, PARAGRAPH, j) {
      assert w[j..j + 2][0] == w[j] && w[j..j + 2][1] == w[j + 1];
    }
    RFindIsLast(w, PARAGRAPH, 6);
  }

  /** The window `SCENARIO[6:21]` starts with the first blank line; its last blank
      line, at offset 8, is the cut: position 14. */
  lemma ScenarioSecondCut()
    ensures Cut(SCENARIO, 15, 6) == 14
  {
    var w := Window(SCENARIO, 15, 6);
    assert w == "\n\npara B\n\npara ";
    RFindAbsent(w, FENCE);
    assert Occurs(w, PARAGRAPH, 8);
    forall j | 8 < j <= |w| - 2 ensures !Occurs(w, PARAGRAPH, j) {
      assert w[j..j + 2][0] == w[j] && w[j..j + 2][1] == w[j + 1];
    }
    RFindIsLast(w, PARAGRAPH, 8);
  }

  /** The three windows strip to the three paragraphs. */
  lemma ScenarioPieceA()
    ensures Strip(PySlice(SCENARIO, 0, 6)) == "para A"
  {
    assert PySlice(SCENARIO, 0, 6) == "para A";
  }

  lemma ScenarioPieceB()
    ensures Strip(PySlice(SCENARIO, 6, 14)) == "para B"
  {
    assert PySlice(SCENARIO, 6, 14) == PARAGRAPH + "para B";
    StripBlankLine("para B");
  }

  lemma ScenarioPieceC()
    ensures Strip(SCENARIO[14..]) == "para C"
  {
    assert SCENARIO[14..] == PARAGRAPH + "para C";
    StripBlankLine("para C");
  }

  /** A blank line in front of a string without whitespace at its ends is
      stripped away. */
  lemma StripBlankLine(t: string)
    requires |t| > 0 && !IsSpace(t[0]) && !IsSpace(t[|t| - 1])
    ensures Strip(PARAGRAPH + t) == t
  {
    var s := PARAGRAPH + t;
    assert s[0] == '\n' && s[1..] == "\n" + t;
    assert Strip(s) == Strip(s[1..]);
    assert s[1..][0] == '\n' && s[1..][1..] == t;
    assert Strip(s[1..]) == Strip(t);
    assert Strip(t) == t;
  }

  /** "para A", a blank line, "para B", a blank line and "para C" (22 characters)
      with a chunk size of 15: cut at both blank lines, the chunks are the three
      paragraphs without the blank lines. */
  lemma ThreeParagraphs()
    ensures Chunks(SCENARIO, 15) == ["para A", "para B", "para C"]
  {
    ScenarioFirstCut();
    ScenarioSecondCut();
    ScenarioPieceA();
    ScenarioPieceB();
    ScenarioPieceC();
    ThreeChunks(SCENARIO, 15, 6, 14);
  }

  /** A text cut twice before its remainder fits. */
  lemma ThreeChunks(text: string, chunkSize: int, e1: nat, e2: nat)
    requires 0 < e1 < e2 < |text| && chunkSize < |text| && e1 + chunkSize < |text| && e2 + chunkSize >= |text|
    requires Cut(text, chunkSize, 0) == e1 && Cut(text, chunkSize, e1) == e2
    requires Strip(PySlice(text, 0, e1)) != [] && Strip(PySlice(text, e1, e2)) != []
    ensures Chunks(text, chunkSize) == [Strip(PySlice(text, 0, e1)), Strip(PySlice(text, e1, e2)), Strip(text[e2..])]
  {
    var a := Strip(PySlice(text, 0, e1));
    var b := Strip(PySlice(text, e1, e2));
    ChunksFromStep(text, chunkSize, 0, []);
    assert Max(1, e1) == e1;
    assert Chunks(text, chunkSize) == [a] + ChunksFrom(text, chunkSize, e1);
    ChunksFromStep(text, chunkSize, e1, [a]);
    assert Max(e1 + 1, e2) == e2;
    assert [a] + ChunksFrom(text, chunkSize, e1) == [a, b] + ChunksFrom(text, chunkSize, e2);
    assert ChunksFrom(text, chunkSize, e2) == [Strip(text[e2..])];
  }
}
