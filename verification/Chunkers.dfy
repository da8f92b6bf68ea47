/** fixed_token_v1 and paragraph_sentence_v1 (src/shapeflow/evidence/chunkers.py:58-216). */
module Chunkers {
  import opened Arithmetic
  import opened Text

  datatype Kind =
    | FixedWindow | Paragraph | Sentence
    | Heading | Code | TableHeader | TableRow | Blockquote | ListItem

  datatype Chunk = Chunk(start: nat, end: nat, kind: Kind, headingPath: seq<string>, tokenLen: nat,
      contextRanges: seq<Span>, headingRanges: seq<Span>)

  /** A list of chunks, or the ValueError of an impossible window. */
  datatype Chunked = Chunks(chunks: seq<Chunk>) | BadWindow

  function Finalize(text: string, start: nat, end: nat, kind: Kind, path: seq<string>, context: seq<Span>,
      ranges: seq<Span>): Chunk
    requires start <= end <= |text|
  {
    Chunk(start, end, kind, path, CountTokens(text[start..end]), context, ranges)
  }

  function Spans(chunks: seq<Chunk>): (spans: seq<Span>)
    ensures |spans| == |chunks|
  {
    seq(|chunks|, i requires 0 <= i < |chunks| => (chunks[i].start, chunks[i].end))
  }

  lemma {:induction false} SpansConcat(a: seq<Chunk>, b: seq<Chunk>)
    ensures Spans(a + b) == Spans(a) + Spans(b)
  {}

  /** The recorded token lengths are the words of the spans, and none exceeds the cap. */
  ghost predicate Counted(text: string, chunks: seq<Chunk>, cap: int) {
    forall i | 0 <= i < |chunks| ::
      && chunks[i].start <= chunks[i].end <= |text|
      && chunks[i].tokenLen == Words(text, chunks[i].start, chunks[i].end) && chunks[i].tokenLen <= cap
  }

  /** An ordered partition of the text, up to whitespace, under the token cap. */
  ghost predicate Partition(text: string, chunks: seq<Chunk>, cap: int) {
    Covers(text, Spans(chunks), 0, |text|) && Counted(text, chunks, cap)
  }

  ghost function TokenSum(chunks: seq<Chunk>): nat {
    if chunks == [] then 0 else TokenSum(chunks[..|chunks| - 1]) + chunks[|chunks| - 1].tokenLen
  }

  lemma {:induction false} TokenSumIsWordSum(text: string, chunks: seq<Chunk>, cap: int)
    requires Counted(text, chunks, cap)
    ensures TokenSum(chunks) == WordSum(text, Spans(chunks))
  {
    if chunks != [] {
      var n := |chunks| - 1;
      TokenSumIsWordSum(text, chunks[..n], cap);
      assert Spans(chunks)[..n] == Spans(chunks[..n]);
    }
  }

  ghost predicate Holds(chunk: Chunk, k: nat) { chunk.start <= k < chunk.end }

  /** What a partition conserves: every token once, every visible character in exactly one chunk,
      and no duplicated length. */
  lemma {:induction false} PartitionConserves(text: string, chunks: seq<Chunk>, cap: int)
    requires Partition(text, chunks, cap)
    ensures TokenSum(chunks) == CountTokens(text)
    ensures LengthSum(Spans(chunks)) <= |text|
    ensures forall k: nat | k < |text| && !IsSpace(text[k]) :: exists i :: 0 <= i < |chunks| && Holds(chunks[i], k)
    ensures forall i, j, k: nat | 0 <= i < |chunks| && 0 <= j < |chunks| && Holds(chunks[i], k)
      && Holds(chunks[j], k) :: i == j
  {
    TokenSumIsWordSum(text, chunks, cap);
    WordsConserved(text, Spans(chunks), 0, |text|);
    OffsetsCountWords(text, 0);
    LengthBounded(text, Spans(chunks), 0, |text|);
    hide Words, WordSum, TokenSum, TokenOffsets, LengthSum, Counted, IsSpace;
    forall k: nat | k < |text| && !IsSpace(text[k])
      ensures exists i :: 0 <= i < |chunks| && Holds(chunks[i], k)
    {
      assert InSpan(Spans(chunks), k);
      var i :| 0 <= i < |chunks| && Spans(chunks)[i].0 <= k < Spans(chunks)[i].1;
      assert Holds(chunks[i], k);
    }
    forall i, j, k: nat | 0 <= i < |chunks| && 0 <= j < |chunks| && Holds(chunks[i], k) && Holds(chunks[j], k)
      ensures i == j
    {
      CoveredOnce(text, Spans(chunks), 0, |text|, i, j, k);
    }
  }

  /** A cap below one token partitions only blank text: on any other the chunkers must raise. */
  lemma {:induction false} CapBelowOneNeedsBlank(text: string, chunks: seq<Chunk>, cap: int)
    requires Partition(text, chunks, cap) && cap < 1
    ensures CountTokens(text) == 0
  {
    PartitionConserves(text, chunks, cap);
    NoTokens(text, chunks, cap);
  }

  lemma {:induction false} NoTokens(text: string, chunks: seq<Chunk>, cap: int)
    requires Counted(text, chunks, cap) && cap < 1
    ensures TokenSum(chunks) == 0
  {
    if chunks != [] { NoTokens(text, chunks[..|chunks| - 1], cap); }
  }

  // ------------------------------------------------------------ fixed windows

  function Least(a: nat, b: nat): nat { if a <= b then a else b }

  /** The window over tokens i .. min(i + window, N). */
  ghost predicate IsWindowChunk(text: string, chunk: Chunk, i: nat, window: nat) {
    var offsets := TokenOffsets(text, 0);
    && window >= 1 && i < |offsets|
    && chunk.start == offsets[i].0 && chunk.end == offsets[Least(i + window, |offsets|) - 1].1
    && chunk.kind == FixedWindow && chunk.headingPath == [] && chunk.contextRanges == [] && chunk.headingRanges == []
    && chunk.tokenLen == Least(window, |offsets| - i)
  }

  /** ceil((N - window) / step) + 1 windows, or one, or none. */
  function WindowCount(tokens: nat, window: nat, step: nat): nat
    requires step >= 1
  {
    if tokens == 0 then 0 else if tokens <= window then 1 else (tokens - window + step - 1) / step + 1
  }

  lemma {:induction false} SubCovers(text: string, spans: seq<Span>, lo: nat, hi: nat, i: nat, j: nat)
    requires Covers(text, spans, lo, hi) && i < j <= |spans|
    ensures Covers(text, spans[i..j], spans[i].0, spans[j - 1].1)
  {
    var part := spans[i..j];
    forall k | spans[i].0 <= k < spans[j - 1].1 && !IsSpace(text[k])
      ensures InSpan(part, k)
    {
      assert InSpan(spans, k);
      var m :| 0 <= m < |spans| && spans[m].0 <= k < spans[m].1;
      assert part[m - i] == spans[m];
    }
  }

  lemma {:induction false} UnitSum(text: string, spans: seq<Span>)
    requires forall i | 0 <= i < |spans| ::
      spans[i].0 <= spans[i].1 <= |text| && Words(text, spans[i].0, spans[i].1) == 1
    ensures WordSum(text, spans) == |spans|
  {
    if spans != [] { UnitSum(text, spans[..|spans| - 1]); }
  }

  /** From the start of token i to the end of token j - 1 there are j - i words. */
  lemma {:induction false} WordsBetween(text: string, i: nat, j: nat)
    requires i < j <= |TokenOffsets(text, 0)|
    ensures var offsets := TokenOffsets(text, 0);
      offsets[i].0 < offsets[j - 1].1 <= |text| && Words(text, offsets[i].0, offsets[j - 1].1) == j - i
  {
    hide Words;
    OffsetsCover(text, 0);
    var offsets := TokenOffsets(text, 0);
    SubCovers(text, offsets, 0, |text|, i, j);
    WordsConserved(text, offsets[i..j], offsets[i].0, offsets[j - 1].1);
    UnitSum(text, offsets[i..j]);
  }

  /** Windows without overlap leave only the whitespace between tokens out. */
  lemma {:induction false} WindowAppends(text: string, before: seq<Span>, i: nat, j: nat)
    requires i < j <= |TokenOffsets(text, 0)|
    requires Covers(text, before, 0, TokenOffsets(text, 0)[i].0) && EndBefore(before, TokenOffsets(text, 0)[i].0)
    ensures var offsets := TokenOffsets(text, 0);
      var after := before + [(offsets[i].0, offsets[j - 1].1)];
      && offsets[j - 1].1 <= |text|
      && if j == |offsets| then Covers(text, after, 0, |text|)
         else Covers(text, after, 0, offsets[j].0) && EndBefore(after, offsets[j].0)
  {
    hide Words;
    OffsetsCover(text, 0);
    var offsets := TokenOffsets(text, 0);
    var (s, e) := (offsets[i].0, offsets[j - 1].1);
    var next := if j == |offsets| then |text| else offsets[j].0;
    CoversItself(text, s, e);
    CoversConcat(text, before, [(s, e)], 0, s, e);
    GapIsWhite(text, offsets, j, next);
    CoversThroughWhite(text, before + [(s, e)], 0, e, next);
  }

  lemma {:induction false} GapIsWhite(text: string, offsets: seq<Span>, j: nat, next: nat)
    requires Covers(text, offsets, 0, |text|) && 0 < j <= |offsets|
    requires next == if j == |offsets| then |text| else offsets[j].0
    ensures White(text, offsets[j - 1].1, next)
  {
    forall k | offsets[j - 1].1 <= k < next
      ensures IsSpace(text[k])
    {
      forall m | 0 <= m < |offsets| ensures !(offsets[m].0 <= k < offsets[m].1) {
        assert m < j ==> offsets[m].1 <= offsets[j - 1].1;
        assert j < m ==> offsets[j].1 <= offsets[m].0;
      }
      assert !InSpan(offsets, k);
    }
  }

  lemma {:induction false} WindowTokens(text: string, i: nat, j: nat)
    requires i < j <= |TokenOffsets(text, 0)|
    ensures var offsets := TokenOffsets(text, 0);
      offsets[i].0 < offsets[j - 1].1 <= |text| && CountTokens(text[offsets[i].0..offsets[j - 1].1]) == j - i
  {
    WordsBetween(text, i, j);
    CountOfSlice(text, TokenOffsets(text, 0)[i].0, TokenOffsets(text, 0)[j - 1].1);
  }

  /** The windows so far, the next one starting at token i. */
  ghost predicate WindowsSoFar(text: string, chunks: seq<Chunk>, i: nat, window: nat, step: nat) {
    && window >= 1 && i == |chunks| * step && i < |TokenOffsets(text, 0)|
    && (|chunks| >= 1 ==> (|chunks| - 1) * step + window < |TokenOffsets(text, 0)|)
    && (forall k | 0 <= k < |chunks| :: IsWindowChunk(text, chunks[k], k * step, window))
  }

  /** Without overlap they cover the text up to that token. */
  ghost predicate CoverSoFar(text: string, chunks: seq<Chunk>, i: nat, window: nat) {
    && i < |TokenOffsets(text, 0)| && Counted(text, chunks, window)
    && Covers(text, Spans(chunks), 0, TokenOffsets(text, 0)[i].0)
         && EndBefore(Spans(chunks), TokenOffsets(text, 0)[i].0)
  }

  /** All the windows: their number, and window k over the tokens from k * step. */
  ghost predicate Windowed(text: string, chunks: seq<Chunk>, window: nat, step: nat) {
    && step >= 1 && |chunks| == WindowCount(CountTokens(text), window, step)
    && forall k | 0 <= k < |chunks| :: IsWindowChunk(text, chunks[k], k * step, window)
  }

  lemma {:induction false} NextWindow(text: string, chunks: seq<Chunk>, i: nat, window: nat, step: nat, chunk: Chunk)
    requires 1 <= step <= window && WindowsSoFar(text, chunks, i, window, step) && IsWindowChunk(text, chunk, i, window)
    ensures if i + window >= |TokenOffsets(text, 0)| then Windowed(text, chunks + [chunk], window, step)
      else WindowsSoFar(text, chunks + [chunk], i + step, window, step)
  {
    hide IsWindowChunk;
    var k := |chunks|;
    assert (k + 1) * step == k * step + step;
    if i + window >= |TokenOffsets(text, 0)| {
      CountAtExit(|TokenOffsets(text, 0)|, window, step, k);
    }
  }

  lemma {:induction false} NextCover(text: string, chunks: seq<Chunk>, i: nat, window: nat, chunk: Chunk)
    requires CoverSoFar(text, chunks, i, window) && IsWindowChunk(text, chunk, i, window)
    ensures if i + window >= |TokenOffsets(text, 0)| then Partition(text, chunks + [chunk], window)
      else CoverSoFar(text, chunks + [chunk], i + window, window)
  {
    hide Words, Covers, TokenOffsets, EndBefore;
    var j := Least(i + window, |TokenOffsets(text, 0)|);
    WordsBetween(text, i, j);
    WindowAppends(text, Spans(chunks), i, j);
    SpansConcat(chunks, [chunk]);
    assert Spans([chunk]) == [(chunk.start, chunk.end)];
  }

  method FixedToken(text: string, window: int, overlap: int) returns (r: Chunked)
    ensures r.BadWindow? <==> window <= 0 || !(0 <= overlap < window)
    ensures r.Chunks? ==> Windowed(text, r.chunks, window, window - overlap)
    ensures r.Chunks? && overlap == 0 ==> Partition(text, r.chunks, window)
  {
    if window <= 0 || !(0 <= overlap < window) {
      return BadWindow;
    }
    var offsets := TokenOffsets(text, 0);
    if offsets == [] {
      NoTokensNoChunks(text, window);
      NoWindows(text, window, window - overlap);
      return Chunks([]);
    }
    var chunks: seq<Chunk> := [];
    var step: nat := window - overlap;
    var i := 0;
    StartCover(text, window);
    hide WindowsSoFar, CoverSoFar, Partition, IsWindowChunk, TokenOffsets, Windowed;
    while i < |offsets|
      invariant i < |offsets| && WindowsSoFar(text, chunks, i, window, step)
      invariant overlap == 0 ==> CoverSoFar(text, chunks, i, window)
      decreases |offsets| - i
    {
      var j := Least(i + window, |offsets|);
      WindowTokens(text, i, j);
      var chunk := Finalize(text, offsets[i].0, offsets[j - 1].1, FixedWindow, [], [], []);
      assert IsWindowChunk(text, chunk, i, window) by { MakesWindow(text, chunk, i, j, window); }
      NextWindow(text, chunks, i, window, step, chunk);
      if overlap == 0 {
        NextCover(text, chunks, i, window, chunk);
      }
      chunks := chunks + [chunk];
      if i + window >= |offsets| {
        return Chunks(chunks);
      }
      i := i + step;
    }
    assert false;
  }

  lemma {:induction false} MakesWindow(text: string, chunk: Chunk, i: nat, j: nat, window: nat)
    requires window >= 1 && i < |TokenOffsets(text, 0)| && j == Least(i + window, |TokenOffsets(text, 0)|)
    requires chunk.start == TokenOffsets(text, 0)[i].0 && chunk.end == TokenOffsets(text, 0)[j - 1].1
      && chunk.tokenLen == j - i
    requires chunk.kind == FixedWindow && chunk.headingPath == [] && chunk.contextRanges == []
      && chunk.headingRanges == []
    ensures IsWindowChunk(text, chunk, i, window)
  {}

  lemma {:induction false} NoTokensNoChunks(text: string, window: nat)
    requires TokenOffsets(text, 0) == []
    ensures Partition(text, [], window) && CountTokens(text) == 0
  {
    OffsetsCountWords(text, 0);
    NoWordsIsWhite(text, 0, |text|);
    CoversNothing(text, 0, |text|);
    assert Spans([]) == [];
  }

  lemma {:induction false} NoWindows(text: string, window: nat, step: nat)
    requires CountTokens(text) == 0 && step >= 1
    ensures Windowed(text, [], window, step)
  {
  }

  lemma {:induction false} StartCover(text: string, window: nat)
    requires TokenOffsets(text, 0) != [] && window >= 1
    ensures CoverSoFar(text, [], 0, window)
    ensures forall step: nat :: WindowsSoFar(text, [], 0, window, step)
  {
    assert Spans([]) == [];
  }

  lemma {:induction false} CountAtExit(tokens: nat, window: nat, step: nat, k: nat)
    requires step >= 1 && tokens >= 1 && k * step + window >= tokens
    requires k >= 1 ==> (k - 1) * step + window < tokens
    ensures WindowCount(tokens, window, step) == k + 1
  {
    if k >= 1 {
      assert (k - 1) * step + step == k * step;
      assert (k - 1) * step >= 0;
      QuotientIs(tokens - window + step - 1, step, k);
    }
  }

  /** Window k starts at token k * (window - overlap): one of them has token t. */
  lemma {:induction false} WindowOfToken(tokens: nat, window: nat, overlap: nat, t: nat) returns (k: nat, i: nat)
    requires overlap < window && t < tokens
    ensures k < WindowCount(tokens, window, window - overlap)
    ensures i == k * (window - overlap) && i <= t < i + window
  {
    var step := window - overlap;
    k := 0;
    while k * step + window <= t
      invariant k * step <= t && (k > 0 ==> (k - 1) * step + window <= t)
      decreases t - k * step
    {
      assert (k + 1) * step == k * step + step;
      k := k + 1;
    }
    i := k * step;
    LastWindow(tokens, window, step, k, t);
  }

  lemma {:induction false} OffsetsOrdered(text: string, i: nat, j: nat)
    requires i <= j < |TokenOffsets(text, 0)|
    ensures var offsets := TokenOffsets(text, 0);
      && offsets[i].0 < offsets[i].1 <= |text| && offsets[j].0 < offsets[j].1 <= |text|
      && offsets[i].0 <= offsets[j].0 && offsets[i].1 <= offsets[j].1 && (i < j ==> offsets[i].1 < offsets[j].0)
  {
    OffsetsCover(text, 0);
  }

  lemma {:induction false} WindowAt(text: string, chunks: seq<Chunk>, window: nat, step: nat, k: nat, i: nat)
    requires Windowed(text, chunks, window, step) && i == k * step && k < WindowCount(CountTokens(text), window, step)
    ensures k < |chunks| && IsWindowChunk(text, chunks[k], i, window)
  {
    hide WindowCount, IsWindowChunk, CountTokens;
  }

  lemma {:induction false} OneCount(text: string)
    ensures CountTokens(text) == |TokenOffsets(text, 0)|
  {}

  lemma {:induction false} HeldToken(text: string, c: Chunk, i: nat, window: nat, t: nat)
    requires IsWindowChunk(text, c, i, window) && i <= t < i + window && t < |TokenOffsets(text, 0)|
    ensures c.start <= TokenOffsets(text, 0)[t].0 < TokenOffsets(text, 0)[t].1 <= c.end
  {
    hide TokenOffsets, IsWindowChunk;
    var n := |TokenOffsets(text, 0)|;
    WindowBounds(text, c, i, window);
    OffsetsOrdered(text, i, t);
    OffsetsOrdered(text, t, (if i + window <= n then i + window else n) - 1);
  }

  /** Every token of the text is whole in some window, at any overlap. */
  lemma {:induction false} WindowsCoverTokens(text: string, chunks: seq<Chunk>, window: nat, overlap: nat, t: nat)
      returns (k: nat)
    requires overlap < window && Windowed(text, chunks, window, window - overlap) && t < CountTokens(text)
    ensures k < |chunks|
      && chunks[k].start <= TokenOffsets(text, 0)[t].0 < TokenOffsets(text, 0)[t].1 <= chunks[k].end
  {
    hide *;
    var i;
    k, i := WindowOfToken(CountTokens(text), window, overlap, t);
    WindowAt(text, chunks, window, window - overlap, k, i);
    OneCount(text);
    HeldToken(text, chunks[k], i, window, t);
  }

  /** So what no window holds is whitespace. */
  lemma {:induction false} WindowsMissOnlyWhite(text: string, chunks: seq<Chunk>, window: nat, overlap: nat, c: nat)
    requires overlap < window && Windowed(text, chunks, window, window - overlap)
    requires c < |text| && !IsSpace(text[c])
    ensures exists k :: 0 <= k < |chunks| && Holds(chunks[k], c)
  {
    hide TokenOffsets, WindowCount, IsWindowChunk, Windowed;
    OffsetsCover(text, 0);
    assert InSpan(TokenOffsets(text, 0), c);
    var t: nat :| t < |TokenOffsets(text, 0)| && TokenOffsets(text, 0)[t].0 <= c < TokenOffsets(text, 0)[t].1;
    var k := WindowsCoverTokens(text, chunks, window, overlap, t);
    assert Holds(chunks[k], c);
  }

  lemma {:induction false} LastWindow(tokens: nat, window: nat, step: nat, k: nat, t: nat)
    requires 1 <= step <= window && k * step <= t < tokens && (k > 0 ==> (k - 1) * step + window <= t)
    ensures k < WindowCount(tokens, window, step)
  {
    if k > 0 {
      assert (k - 1) * step + step == k * step;
      assert (k - 1) * step >= 0;
      AtLeastQuotient(tokens - window + step - 1, step, k);
    }
  }

  lemma {:induction false} FullWindow(tokens: nat, window: nat, overlap: nat, k: nat)
    requires overlap < window && k + 1 < WindowCount(tokens, window, window - overlap)
    ensures (k + 1) * (window - overlap) == k * (window - overlap) + window - overlap
      && k * (window - overlap) + window < tokens
  {
    var step := window - overlap;
    assert (k + 1) * step == k * step + step;
    AtLeastQuotient(tokens - window + step - 1, step, k + 1);
  }

  /** Where a window over tokens i .. begins and ends. */
  lemma {:induction false} WindowBounds(text: string, c: Chunk, i: nat, window: nat)
    requires IsWindowChunk(text, c, i, window)
    ensures var n := |TokenOffsets(text, 0)|;
      var last := (if i + window <= n then i + window else n) - 1;
      && i <= last < n && c.tokenLen == last + 1 - i
      && c.start == TokenOffsets(text, 0)[i].0 && c.end == TokenOffsets(text, 0)[last].1
  {
    hide TokenOffsets;
  }

  /** Two windows of which the first is full and the second starts where `overlap` tokens remain. */
  lemma {:induction false} SharedTokens(text: string, a: Chunk, b: Chunk, i: nat, j: nat, window: nat, overlap: nat)
    requires IsWindowChunk(text, a, i, window) && IsWindowChunk(text, b, j, window)
    requires overlap < window && j == i + window - overlap && i + window < |TokenOffsets(text, 0)|
    ensures a.tokenLen == window && a.start < b.start && a.end < b.end <= |text|
    ensures overlap == 0 ==> a.end < b.start
    ensures overlap > 0 ==> b.start < a.end && CountTokens(text[b.start..a.end]) == overlap
  {
    hide TokenOffsets, IsWindowChunk, CountTokens;
    var n := |TokenOffsets(text, 0)|;
    WindowBounds(text, a, i, window);
    WindowBounds(text, b, j, window);
    OffsetsOrdered(text, i, j);
    OffsetsOrdered(text, i + window - 1, (if j + window <= n then j + window else n) - 1);
    if overlap > 0 {
      WindowTokens(text, j, i + window);
    } else {
      OffsetsOrdered(text, i + window - 1, j);
    }
  }

  /** A window that is not the last is full and ends before the text's last token; the text it has
      in common with the next window holds exactly `overlap` tokens. */
  lemma {:induction false} WindowsOverlapExactly(text: string, chunks: seq<Chunk>, window: nat, overlap: nat, k: nat)
    requires overlap < window && Windowed(text, chunks, window, window - overlap) && k + 1 < |chunks|
    ensures var a, b := chunks[k], chunks[k + 1];
      && a.tokenLen == window && a.start < b.start && a.end < b.end <= |text|
      && (overlap == 0 ==> a.end < b.start)
      && (overlap > 0 ==> b.start < a.end && CountTokens(text[b.start..a.end]) == overlap)
  {
    hide TokenOffsets, WindowCount, IsWindowChunk;
    FullWindow(CountTokens(text), window, overlap, k);
    var i, j := k * (window - overlap), (k + 1) * (window - overlap);
    SharedTokens(text, chunks[k], chunks[k + 1], i, j, window, overlap);
  }

  // --------------------------------------------------------------- separators

  /** What `pattern.finditer(text, lo, hi)` may return for a whitespace pattern: matches in order,
      apart, not empty, and of whitespace only. */
  ghost predicate Separators(text: string, seps: seq<Span>, lo: nat, hi: nat) {
    && lo <= hi <= |text|
    && (forall i | 0 <= i < |seps| :: lo <= seps[i].0 < seps[i].1 <= hi && White(text, seps[i].0, seps[i].1))
    && (forall i, j | 0 <= i < j < |seps| :: seps[i].1 <= seps[j].0)
  }

  /** The non-empty stretches of lo .. hi outside the separators. */
  function Gaps(seps: seq<Span>, lo: nat, hi: nat): seq<Span> {
    if seps == [] then (if lo < hi then [(lo, hi)] else [])
    else (if lo < seps[0].0 then [(lo, seps[0].0)] else []) + Gaps(seps[1..], seps[0].1, hi)
  }

  /** Splitting keeps every character that no separator holds, and only those. */
  lemma {:induction false} GapsAreTheRest(text: string, seps: seq<Span>, lo: nat, hi: nat, k: nat)
    requires Separators(text, seps, lo, hi)
    ensures InSpan(Gaps(seps, lo, hi), k) <==> lo <= k < hi && !InSpan(seps, k)
  {
    if seps != [] {
      var (first, rest) := (seps[0], seps[1..]);
      var own := if lo < first.0 then [(lo, first.0)] else [];
      GapsAreTheRest(text, rest, first.1, hi, k);
      InConcat(own, Gaps(rest, first.1, hi), k);
      InConcat([first], rest, k);
      assert seps == [first] + rest;
      assert InSpan([first], k) <==> first.0 <= k < first.1 by { assert [first][0] == first; }
      assert InSpan(own, k) <==> lo <= k < first.0 by { assert own != [] ==> own[0] == (lo, first.0); }
      LaterSeparators(text, seps, lo, hi, k);
    } else {
      var all := Gaps(seps, lo, hi);
      assert InSpan(all, k) <==> lo <= k < hi by { assert all != [] ==> all[0] == (lo, hi); }
    }
  }

  lemma {:induction false} LaterSeparators(text: string, seps: seq<Span>, lo: nat, hi: nat, k: nat)
    requires Separators(text, seps, lo, hi) && seps != []
    ensures lo <= seps[0].0 < seps[0].1 <= hi
    ensures InSpan(seps[1..], k) ==> seps[0].1 <= k
  {
    if InSpan(seps[1..], k) {
      var i :| 0 <= i < |seps[1..]| && seps[1..][i].0 <= k < seps[1..][i].1;
      assert seps[0].1 <= seps[i + 1].0;
    }
  }

  /** Taking the stretch up to the next separator, or to the end. */
  lemma {:induction false} GapTaken(text: string, spans: seq<Span>, lo: nat, cursor: nat, start: nat)
    requires Covers(text, spans, lo, cursor) && EndBefore(spans, cursor) && cursor <= start <= |text|
    ensures Covers(text, spans + (if cursor < start then [(cursor, start)] else []), lo, start)
  {
    if cursor < start {
      CoversItself(text, cursor, start);
      CoversConcat(text, spans, [(cursor, start)], lo, cursor, start);
    } else {
      assert spans + [] == spans;
    }
  }

  lemma {:induction false} GapsUnfold(seps: seq<Span>, k: nat, before: seq<Span>, cursor: nat, hi: nat)
    requires k < |seps|
    ensures before + Gaps(seps[k..], cursor, hi)
      == (if cursor < seps[k].0 then before + [(cursor, seps[k].0)] else before) + Gaps(seps[k + 1..], seps[k].1, hi)
  {
    assert seps[k..][0] == seps[k] && seps[k..][1..] == seps[k + 1..];
    var rest := Gaps(seps[k + 1..], seps[k].1, hi);
    if cursor < seps[k].0 {
      assert before + ([(cursor, seps[k].0)] + rest) == before + [(cursor, seps[k].0)] + rest;
    } else {
      assert [] + rest == rest;
    }
  }

  lemma {:induction false} SeparatorAt(text: string, seps: seq<Span>, lo: nat, hi: nat, k: nat)
    requires Separators(text, seps, lo, hi) && k < |seps|
    ensures lo <= seps[k].0 < seps[k].1 <= hi <= |text| && White(text, seps[k].0, seps[k].1)
    ensures k + 1 < |seps| ==> seps[k].1 <= seps[k + 1].0
  {
  }

  lemma {:induction false} GapsEnd(seps: seq<Span>, cursor: nat, hi: nat)
    ensures Gaps(seps[|seps|..], cursor, hi) == if cursor < hi then [(cursor, hi)] else []
  {
    assert seps[|seps|..] == [];
  }

  /** _split_offsets: the content between the separators. */
  method SplitOffsets(text: string, seps: seq<Span>, lo: nat, hi: nat) returns (spans: seq<Span>)
    requires Separators(text, seps, lo, hi)
    ensures Covers(text, spans, lo, hi) && spans == Gaps(seps, lo, hi)
  {
    assert Covers(text, [], lo, lo) && EndBefore([], lo);
    if seps != [] { SeparatorAt(text, seps, lo, hi, 0); }
    hide Covers, EndBefore, White, Gaps, Separators;
    spans := [];
    assert spans + Gaps(seps[0..], lo, hi) == Gaps(seps, lo, hi);
    var cursor := lo;
    for k := 0 to |seps|
      invariant lo <= cursor <= hi && (k < |seps| ==> cursor <= seps[k].0)
      invariant Covers(text, spans, lo, cursor) && EndBefore(spans, cursor)
      invariant spans + Gaps(seps[k..], cursor, hi) == Gaps(seps, lo, hi)
    {
      var (start, end) := seps[k];
      SeparatorAt(text, seps, lo, hi, k);
      GapsUnfold(seps, k, spans, cursor, hi);
      GapTaken(text, spans, lo, cursor, start);
      if start > cursor {
        spans := spans + [(cursor, start)];
      }
      CoversThroughWhite(text, spans, lo, start, end);
      cursor := end;
    }
    GapsEnd(seps, cursor, hi);
    GapTaken(text, spans, lo, cursor, hi);
    if cursor < hi {
      spans := spans + [(cursor, hi)];
    }
  }

  function SkipBlanks(text: string, i: nat, hi: nat): (j: nat)
    requires i <= hi <= |text|
    ensures i <= j <= hi && White(text, i, j)
    decreases hi - i
  {
    if i < hi && text[i] in " \t" then SkipBlanks(text, i + 1, hi) else i
  }

  /** Matches of a newline, blanks, and a newline, from position i on. */
  function ParagraphBreaks(text: string, i: nat, hi: nat): (seps: seq<Span>)
    requires i <= hi <= |text|
    ensures Separators(text, seps, i, hi)
    decreases hi - i
  {
    if i == hi then [] else
      var j := if text[i] == '\n' then SkipBlanks(text, i + 1, hi) else hi;
      if j < hi && text[j] == '\n' then [(i, j + 1)] + ParagraphBreaks(text, j + 1, hi)
      else ParagraphBreaks(text, i + 1, hi)
  }

  function SpaceEnd(text: string, i: nat, hi: nat): (j: nat)
    requires i <= hi <= |text|
    ensures i <= j <= hi && White(text, i, j)
    decreases hi - i
  {
    if i < hi && IsSpace(text[i]) then SpaceEnd(text, i + 1, hi) else i
  }

  /** Matches of whitespace right after '.', '!' or '?', from position i on. */
  function SentenceBreaks(text: string, i: nat, hi: nat): (seps: seq<Span>)
    requires i <= hi <= |text|
    ensures Separators(text, seps, i, hi)
    decreases hi - i
  {
    if i == hi then []
    else if i > 0 && text[i - 1] in ".!?" && IsSpace(text[i]) then
      [(i, SpaceEnd(text, i, hi))] + SentenceBreaks(text, SpaceEnd(text, i, hi), hi)
    else SentenceBreaks(text, i + 1, hi)
  }

  /** A match of the paragraph pattern: a newline, spaces and tabs, a newline. */
  ghost predicate BlankLine(text: string, a: nat, b: nat) {
    && a + 2 <= b <= |text| && text[a] == '\n' && text[b - 1] == '\n'
    && forall k | a < k < b - 1 :: text[k] == ' ' || text[k] == '\t'
  }

  lemma {:induction false} SkipBlanksIs(text: string, i: nat, hi: nat)
    requires i <= hi <= |text|
    ensures var j := SkipBlanks(text, i, hi);
      && (forall k | i <= k < j :: text[k] == ' ' || text[k] == '\t')
      && (j < hi ==> text[j] != ' ' && text[j] != '\t')
    decreases hi - i
  {
    if i < hi && text[i] in " \t" { SkipBlanksIs(text, i + 1, hi); }
  }

  lemma {:induction false} OneStep(text: string, i: nat, hi: nat)
    requires i < hi <= |text|
    ensures var j := if text[i] == '\n' then SkipBlanks(text, i + 1, hi) else hi;
      ParagraphBreaks(text, i, hi) == if j < hi && text[j] == '\n' then [(i, j + 1)] + ParagraphBreaks(text, j + 1, hi)
        else ParagraphBreaks(text, i + 1, hi)
  {
    hide Separators, SkipBlanks, White, IsSpace;
  }

  /** What begins at i: a match, or none at all. */
  lemma {:induction false} ParagraphBreaksUnfold(text: string, i: nat, hi: nat) returns (b: nat)
    requires i < hi <= |text|
    ensures BlankLine(text, i, b) && b <= hi ==>
      ParagraphBreaks(text, i, hi) == [(i, b)] + ParagraphBreaks(text, b, hi)
    ensures !(BlankLine(text, i, b) && b <= hi) ==>
      ParagraphBreaks(text, i, hi) == ParagraphBreaks(text, i + 1, hi)
        && forall x: nat | x <= hi :: !BlankLine(text, i, x)
  {
    hide BlankLine, Separators, SkipBlanks, White, IsSpace;
    var j := if text[i] == '\n' then SkipBlanks(text, i + 1, hi) else hi;
    OneStep(text, i, hi);
    hide ParagraphBreaks;
    if j < hi && text[j] == '\n' {
      b := j + 1;
      BlankLineHere(text, i, hi);
    } else {
      b := 0;
      forall x: nat | x <= hi ensures !BlankLine(text, i, x) { NoBlankLineHere(text, i, hi, x); }
    }
  }

  lemma {:induction false} InFirst(s: Span, rest: seq<Span>, k: nat)
    ensures InSpan([s] + rest, k) <==> s.0 <= k < s.1 || InSpan(rest, k)
  {
    InConcat([s], rest, k);
    assert [s][0] == s;
  }

  /** The breaks are matches of the pattern, and every match begins inside one: the scan takes the
      leftmost match each time and misses none. */
  lemma {:induction false} BreaksAreBlankLines(text: string, i: nat, hi: nat)
    requires i <= hi <= |text|
    ensures forall s | s in ParagraphBreaks(text, i, hi) :: BlankLine(text, s.0, s.1)
    ensures forall a: nat, b: nat | i <= a && b <= hi && BlankLine(text, a, b) ::
      InSpan(ParagraphBreaks(text, i, hi), a)
    decreases hi - i
  {
    if i < hi {
      var b := ParagraphBreaksUnfold(text, i, hi);
      var next := if BlankLine(text, i, b) && b <= hi then b else i + 1;
      assert i < next <= hi;
      BreaksAreBlankLines(text, next, hi);
      hide BlankLine, ParagraphBreaks, InSpan, Separators;
      forall x: nat, y: nat | i <= x && y <= hi && BlankLine(text, x, y)
        ensures InSpan(ParagraphBreaks(text, i, hi), x)
      {
        if next == b && BlankLine(text, i, b) { InFirst((i, b), ParagraphBreaks(text, b, hi), x); }
      }
    } else {
      NoBreaksLeft(text, hi);
    }
  }

  lemma {:induction false} NoBreaksLeft(text: string, hi: nat)
    requires hi <= |text|
    ensures ParagraphBreaks(text, hi, hi) == [] && SentenceBreaks(text, hi, hi) == []
    ensures forall a: nat, b: nat | hi <= a && b <= hi :: !BlankLine(text, a, b)
  {}

  lemma {:induction false} BlankLineHere(text: string, i: nat, hi: nat)
    requires i < hi <= |text| && text[i] == '\n'
    requires var j := SkipBlanks(text, i + 1, hi); j < hi && text[j] == '\n'
    ensures BlankLine(text, i, SkipBlanks(text, i + 1, hi) + 1)
  {
    SkipBlanksIs(text, i + 1, hi);
  }

  lemma {:induction false} MeetsNewline(text: string, i: nat, c: nat, hi: nat)
    requires i <= c < hi <= |text| && text[c] == '\n' && forall k | i <= k < c :: text[k] == ' ' || text[k] == '\t'
    ensures SkipBlanks(text, i, hi) == c
    decreases c - i
  {
    if i < c { MeetsNewline(text, i + 1, c, hi); }
  }

  lemma {:induction false} NoBlankLineHere(text: string, i: nat, hi: nat, b: nat)
    requires i < hi <= |text| && b <= hi
    requires var j := if text[i] == '\n' then SkipBlanks(text, i + 1, hi) else hi; !(j < hi && text[j] == '\n')
    ensures !BlankLine(text, i, b)
  {
    if BlankLine(text, i, b) {
      MeetsNewline(text, i + 1, b - 1, hi);
    }
  }

  /** Whitespace right after a sentence mark. */
  ghost predicate AfterMark(text: string, k: nat) {
    0 < k < |text| && (text[k - 1] == '.' || text[k - 1] == '!' || text[k - 1] == '?') && IsSpace(text[k])
  }

  lemma {:induction false} SpaceEndIs(text: string, i: nat, hi: nat)
    requires i <= hi <= |text|
    ensures var j := SpaceEnd(text, i, hi); j < hi ==> !IsSpace(text[j])
    decreases hi - i
  {
    if i < hi && IsSpace(text[i]) { SpaceEndIs(text, i + 1, hi); }
  }

  lemma {:induction false} SentenceBreaksUnfold(text: string, i: nat, hi: nat)
    requires i < hi <= |text|
    ensures var j := SpaceEnd(text, i, hi);
      if AfterMark(text, i)
      then i < j <= hi && SentenceBreaks(text, i, hi) == [(i, j)] + SentenceBreaks(text, j, hi)
        && White(text, i, j) && (j < hi ==> !IsSpace(text[j]))
      else SentenceBreaks(text, i, hi) == SentenceBreaks(text, i + 1, hi)
  {
    SpaceEndIs(text, i, hi);
  }

  /** Each break begins right after a mark and runs to the end of the whitespace, and no whitespace
      right after a mark is outside a break. */
  lemma {:induction false} BreaksFollowMarks(text: string, i: nat, hi: nat)
    requires i <= hi <= |text|
    ensures forall s | s in SentenceBreaks(text, i, hi) ::
      AfterMark(text, s.0) && White(text, s.0, s.1) && (s.1 < hi ==> !IsSpace(text[s.1]))
    ensures forall k | i <= k < hi && AfterMark(text, k) :: InSpan(SentenceBreaks(text, i, hi), k)
    decreases hi - i
  {
    hide *;
    if i < hi {
      SentenceBreaksUnfold(text, i, hi);
      var j := if AfterMark(text, i) then SpaceEnd(text, i, hi) else i + 1;
      BreaksFollowMarks(text, j, hi);
      forall k | i <= k < hi && AfterMark(text, k) ensures InSpan(SentenceBreaks(text, i, hi), k) {
        if AfterMark(text, i) { InFirst((i, j), SentenceBreaks(text, j, hi), k); }
      }
    } else {
      NoBreaksLeft(text, hi);
    }
  }

  /** A stretch between separators keeps within the range and off the separators. */
  lemma {:induction false} GapHolds(text: string, seps: seq<Span>, lo: nat, hi: nat, g: Span, k: nat)
    requires Separators(text, seps, lo, hi) && g in Gaps(seps, lo, hi) && g.0 <= k < g.1
    ensures lo <= k < hi && !InSpan(seps, k)
  {
    GapsAreTheRest(text, seps, lo, hi, k);
    var i :| 0 <= i < |Gaps(seps, lo, hi)| && Gaps(seps, lo, hi)[i] == g;
    assert InSpan(Gaps(seps, lo, hi), k);
  }

  /** No paragraph holds a blank line. */
  lemma {:induction false} ParagraphsHoldNoBlankLine(text: string, p: Span, a: nat, b: nat)
    requires p in Gaps(ParagraphBreaks(text, 0, |text|), 0, |text|) && p.0 <= a && b <= p.1
    ensures !BlankLine(text, a, b)
  {
    if BlankLine(text, a, b) {
      hide ParagraphBreaks, Gaps, Separators;
      BreaksAreBlankLines(text, 0, |text|);
      GapHolds(text, ParagraphBreaks(text, 0, |text|), 0, |text|, p, a);
    }
  }

  /** No sentence holds whitespace right after a mark. */
  lemma {:induction false} SentencesHoldNoBreak(text: string, lo: nat, hi: nat, s: Span, k: nat)
    requires lo <= hi <= |text| && s in Gaps(SentenceBreaks(text, lo, hi), lo, hi) && s.0 <= k < s.1
    ensures lo <= k < hi && !AfterMark(text, k)
  {
    hide SentenceBreaks, Gaps, Separators;
    GapHolds(text, SentenceBreaks(text, lo, hi), lo, hi, s, k);
    BreaksFollowMarks(text, lo, hi);
  }

  // --------------------------------------------------------------- paragraphs

  /** Chunks that cover text[lo..hi] within the cap. */
  ghost predicate Piece(text: string, chunks: seq<Chunk>, lo: nat, hi: nat, cap: int) {
    Covers(text, Spans(chunks), lo, hi) && Counted(text, chunks, cap)
  }

  lemma {:induction false} PieceConcat(text: string, a: seq<Chunk>, b: seq<Chunk>, lo: nat, m: nat, hi: nat, cap: int)
    requires Piece(text, a, lo, m, cap) && Piece(text, b, m, hi, cap) && EndBefore(Spans(a), m)
    ensures Piece(text, a + b, lo, hi, cap)
  {
    hide Covers, Words, EndBefore;
    SpansConcat(a, b);
    CoversConcat(text, Spans(a), Spans(b), lo, m, hi);
  }

  lemma {:induction false} OneChunkPiece(text: string, chunk: Chunk, cap: int)
    requires chunk.start < chunk.end <= |text| && chunk.tokenLen == CountTokens(text[chunk.start..chunk.end]) <= cap
    ensures Piece(text, [chunk], chunk.start, chunk.end, cap)
  {
    CoversItself(text, chunk.start, chunk.end);
    assert Spans([chunk]) == [(chunk.start, chunk.end)];
    CountOfSlice(text, chunk.start, chunk.end);
  }

  /** Between span k and its successor (or the end) there is only whitespace. */
  lemma {:induction false} AfterSpan(text: string, spans: seq<Span>, lo: nat, hi: nat, k: nat)
    requires Covers(text, spans, lo, hi) && k < |spans|
    ensures White(text, spans[k].1, if k + 1 < |spans| then spans[k + 1].0 else hi)
    ensures k + 1 < |spans| ==> spans[k].1 < spans[k + 1].0
  {
    var next := if k + 1 < |spans| then spans[k + 1].0 else hi;
    forall c | spans[k].1 <= c < next
      ensures IsSpace(text[c])
    {
      assert !InSpan(spans, c);
    }
  }

  lemma {:induction false} BeforeSpans(text: string, spans: seq<Span>, lo: nat, hi: nat)
    requires Covers(text, spans, lo, hi)
    ensures White(text, lo, if spans != [] then spans[0].0 else hi)
  {
    forall c | lo <= c < (if spans != [] then spans[0].0 else hi)
      ensures IsSpace(text[c])
    {
      assert !InSpan(spans, c);
    }
  }

  /** The loop state over spans: everything before span k is done. */
  ghost predicate DoneTo(text: string, chunks: seq<Chunk>, spans: seq<Span>, lo: nat, hi: nat, k: nat, cap: int) {
    && k <= |spans|
    && var next := if k < |spans| then spans[k].0 else hi;
       Piece(text, chunks, lo, next, cap) && (k < |spans| ==> EndBefore(Spans(chunks), next))
  }

  lemma {:induction false} StartPieces(text: string, spans: seq<Span>, lo: nat, hi: nat, cap: int)
    requires Covers(text, spans, lo, hi)
    ensures DoneTo(text, [], spans, lo, hi, 0, cap)
  {
    BeforeSpans(text, spans, lo, hi);
    assert Spans([]) == [];
  }

  lemma {:induction false} NextPiece(text: string, chunks: seq<Chunk>, more: seq<Chunk>, spans: seq<Span>, lo: nat,
      hi: nat, k: nat, cap: int)
    requires Covers(text, spans, lo, hi) && k < |spans| && DoneTo(text, chunks, spans, lo, hi, k, cap)
    requires Piece(text, more, spans[k].0, spans[k].1, cap)
    ensures DoneTo(text, chunks + more, spans, lo, hi, k + 1, cap)
  {
    hide Words, Counted;
    PieceConcat(text, chunks, more, lo, spans[k].0, spans[k].1, cap);
    AfterSpan(text, spans, lo, hi, k);
    var next := if k + 1 < |spans| then spans[k + 1].0 else hi;
    CoversThroughWhite(text, Spans(chunks + more), lo, spans[k].1, next);
  }

  lemma {:induction false} SliceOfSlice(text: string, a: nat, b: nat, lo: nat, hi: nat)
    requires a <= b <= |text| && lo <= hi <= b - a
    ensures text[a + lo..a + hi] == text[a..b][lo..hi]
  {
    var (outer, inner) := (text[a + lo..a + hi], text[a..b][lo..hi]);
    assert forall k | 0 <= k < hi - lo :: outer[k] == inner[k];
  }

  lemma {:induction false} SpansShift(subs: seq<Chunk>, chunks: seq<Chunk>, a: nat)
    requires |subs| == |chunks|
    requires forall k | 0 <= k < |subs| :: chunks[k].start == a + subs[k].start && chunks[k].end == a + subs[k].end
    ensures Spans(chunks) == Shift(Spans(subs), a)
  {
    forall k | 0 <= k < |subs| ensures Spans(chunks)[k] == Shift(Spans(subs), a)[k] {
      assert chunks[k].start == a + subs[k].start;
    }
  }

  /** The same spans, a characters further on. */
  ghost predicate Moved(subs: seq<Chunk>, chunks: seq<Chunk>, a: nat) {
    && |chunks| == |subs|
    && forall k | 0 <= k < |subs| :: chunks[k].start == a + subs[k].start && chunks[k].end == a + subs[k].end
  }

  /** Chunks of text[a..b] moved to their place in the text, with the metadata of their block. */
  method Relocate(text: string, a: nat, b: nat, subs: seq<Chunk>, kind: Kind, path: seq<string>, context: seq<Span>,
      ranges: seq<Span>, ghost cap: int)
    returns (chunks: seq<Chunk>)
    requires a <= b <= |text| && Partition(text[a..b], subs, cap)
    ensures Piece(text, chunks, a, b, cap)
    ensures Moved(subs, chunks, a)
    ensures forall i | 0 <= i < |chunks| ::
      chunks[i].kind == kind && chunks[i].headingPath == path && chunks[i].contextRanges == context
        && chunks[i].headingRanges == ranges
  {
    hide Covers, Words, CountTokens;
    chunks := [];
    for i := 0 to |subs|
      invariant |chunks| == i
      invariant forall k | 0 <= k < i ::
        && chunks[k].start == a + subs[k].start && chunks[k].end == a + subs[k].end
             && chunks[k].tokenLen == subs[k].tokenLen
        && chunks[k].kind == kind && chunks[k].headingPath == path
        && chunks[k].contextRanges == context && chunks[k].headingRanges == ranges
    {
      var sub := subs[i];
      assert sub.start <= sub.end <= b - a;
      SliceOfSlice(text, a, b, sub.start, sub.end);
      CountOfSlice(text[a..b], sub.start, sub.end);
      chunks := chunks + [Finalize(text, a + sub.start, a + sub.end, kind, path, context, ranges)];
    }
    CoversShift(text, Spans(subs), a, b);
    SpansShift(subs, chunks, a);
    forall i | 0 <= i < |chunks|
      ensures chunks[i].tokenLen == Words(text, chunks[i].start, chunks[i].end)
    {
      WordsOfSlice(text, a, b, subs[i].start, subs[i].end);
    }
  }

  /** A sentence of text[lo..hi] that fits under the cap, or a part of one that does not. */
  ghost predicate SentenceChunk(text: string, c: Chunk, lo: nat, hi: nat, cap: int)
    requires lo <= hi <= |text|
  {
    c.kind == Sentence && exists s | s in Gaps(SentenceBreaks(text, lo, hi), lo, hi) :: FitsOrPart(text, c, s, cap)
  }

  ghost predicate FitsOrPart(text: string, c: Chunk, s: Span, cap: int) {
    && s.0 <= s.1 <= |text|
    && if CountTokens(text[s.0..s.1]) <= cap then c.start == s.0 && c.end == s.1
       else s.0 <= c.start && c.end <= s.1 && cap >= 1 && exists k: nat :: IsPart(text, c, s, k * cap, cap)
  }

  /** The part of the sentence from its token i on: `cap` tokens, or what is left of them. */
  ghost predicate IsPart(text: string, c: Chunk, s: Span, i: nat, cap: nat)
    requires s.0 <= s.1 <= |text|
  {
    var offsets := TokenOffsets(text[s.0..s.1], 0);
    && cap >= 1 && i < |offsets| && c.start == s.0 + offsets[i].0
    && c.end == s.0 + offsets[(if i + cap <= |offsets| then i + cap else |offsets|) - 1].1
  }

  /** A paragraph that fits under the cap, or a sentence chunk of one that does not. */
  ghost predicate ParagraphChunk(text: string, c: Chunk, cap: int) {
    exists p | p in Gaps(ParagraphBreaks(text, 0, |text|), 0, |text|) :: InParagraph(text, c, p, cap)
  }

  ghost predicate InParagraph(text: string, c: Chunk, p: Span, cap: int) {
    && p.0 <= p.1 <= |text|
    && if CountTokens(text[p.0..p.1]) <= cap then c.kind == Paragraph && c.start == p.0 && c.end == p.1
       else SentenceChunk(text, c, p.0, p.1, cap)
  }

  /** No chunk holds a blank line, and no sentence chunk whitespace right after a mark. */
  ghost predicate Unbroken(text: string, c: Chunk) {
    && (forall a: nat, b: nat | c.start <= a && b <= c.end :: !BlankLine(text, a, b))
    && (c.kind == Sentence ==> forall k: nat | c.start <= k < c.end :: !AfterMark(text, k))
  }

  lemma {:induction false} GapBounds(text: string, seps: seq<Span>, lo: nat, hi: nat, g: Span)
    requires Separators(text, seps, lo, hi) && g in Gaps(seps, lo, hi)
    ensures lo <= g.0 < g.1 <= hi
  {
    if seps != [] && g in Gaps(seps[1..], seps[0].1, hi) { GapBounds(text, seps[1..], seps[0].1, hi, g); }
  }

  lemma {:induction false} ChunksAreUnbroken(text: string, c: Chunk, cap: int)
    requires ParagraphChunk(text, c, cap)
    ensures Unbroken(text, c)
  {
    hide ParagraphBreaks, SentenceBreaks, Gaps, CountTokens, BlankLine, AfterMark, Separators;
    var p :| p in Gaps(ParagraphBreaks(text, 0, |text|), 0, |text|) && InParagraph(text, c, p, cap);
    forall a: nat, b: nat | c.start <= a && b <= c.end ensures !BlankLine(text, a, b) {
      if c.kind == Sentence { SentenceInParagraph(text, c, p, cap); }
      ParagraphsHoldNoBlankLine(text, p, a, b);
    }
    forall k: nat | c.kind == Sentence && c.start <= k < c.end ensures !AfterMark(text, k) {
      var s :| s in Gaps(SentenceBreaks(text, p.0, p.1), p.0, p.1) && FitsOrPart(text, c, s, cap);
      SentencesHoldNoBreak(text, p.0, p.1, s, k);
    }
  }

  lemma {:induction false} SentenceInParagraph(text: string, c: Chunk, p: Span, cap: int)
    requires InParagraph(text, c, p, cap) && c.kind == Sentence
    ensures p.0 <= c.start && c.end <= p.1
  {
    hide SentenceBreaks, Gaps, CountTokens, Separators;
    var s :| s in Gaps(SentenceBreaks(text, p.0, p.1), p.0, p.1) && FitsOrPart(text, c, s, cap);
    GapBounds(text, SentenceBreaks(text, p.0, p.1), p.0, p.1, s);
  }

  lemma {:induction false} WholeSentence(text: string, c: Chunk, s: Span, lo: nat, hi: nat, cap: int)
    requires lo <= hi <= |text| && s in Gaps(SentenceBreaks(text, lo, hi), lo, hi)
    requires c.kind == Sentence && FitsOrPart(text, c, s, cap)
    ensures SentenceChunk(text, c, lo, hi, cap)
  {
  }

  lemma {:induction false} PartsOfSentence(text: string, windows: seq<Chunk>, chunks: seq<Chunk>, s: Span, lo: nat,
      hi: nat, cap: int)
    requires lo <= hi <= |text| && s in Gaps(SentenceBreaks(text, lo, hi), lo, hi) && s.0 <= s.1 <= |text|
    requires CountTokens(text[s.0..s.1]) > cap >= 1 && Piece(text, chunks, s.0, s.1, cap)
    requires Windowed(text[s.0..s.1], windows, cap, cap) && Moved(windows, chunks, s.0)
    requires forall i | 0 <= i < |chunks| :: chunks[i].kind == Sentence
    ensures forall c | c in chunks :: SentenceChunk(text, c, lo, hi, cap)
  {
    hide *;
    forall c | c in chunks ensures SentenceChunk(text, c, lo, hi, cap) {
      var i :| 0 <= i < |chunks| && chunks[i] == c;
      OnePart(text, windows, chunks, s, cap, i);
      WholeSentence(text, c, s, lo, hi, cap);
    }
  }

  lemma {:induction false} OnePart(text: string, windows: seq<Chunk>, chunks: seq<Chunk>, s: Span, cap: int, i: nat)
    requires s.0 <= s.1 <= |text| && CountTokens(text[s.0..s.1]) > cap >= 1 && i < |chunks|
    requires Piece(text, chunks, s.0, s.1, cap)
    requires Windowed(text[s.0..s.1], windows, cap, cap) && Moved(windows, chunks, s.0)
    ensures FitsOrPart(text, chunks[i], s, cap)
  {
    hide CountTokens, TokenOffsets, IsWindowChunk, WindowCount, IsPart, Counted;
    assert Spans(chunks)[i] == (chunks[i].start, chunks[i].end);
    ghost var from: nat := i * cap;
    PartOfWindow(text, windows[i], chunks[i], s, from, cap);
    assert IsPart(text, chunks[i], s, i * cap, cap);
  }

  lemma {:induction false} PartOfWindow(text: string, w: Chunk, c: Chunk, s: Span, i: nat, cap: nat)
    requires s.0 <= s.1 <= |text| && IsWindowChunk(text[s.0..s.1], w, i, cap)
    requires c.start == s.0 + w.start && c.end == s.0 + w.end
    ensures IsPart(text, c, s, i, cap)
  {
    hide TokenOffsets;
  }

  method SentencesOf(text: string, lo: nat, hi: nat, cap: int) returns (r: Chunked)
    requires lo <= hi <= |text|
    ensures r.Chunks? ==> Piece(text, r.chunks, lo, hi, cap)
    ensures r.Chunks? ==> forall c | c in r.chunks :: SentenceChunk(text, c, lo, hi, cap)
    ensures cap >= 1 ==> r.Chunks?
  {
    hide Covers, Words, CountTokens, DoneTo, Piece, Partition, Gaps, SentenceChunk;
    var spans := SplitOffsets(text, SentenceBreaks(text, lo, hi), lo, hi);
    var chunks: seq<Chunk> := [];
    StartPieces(text, spans, lo, hi, cap);
    for k := 0 to |spans|
      invariant DoneTo(text, chunks, spans, lo, hi, k, cap)
      invariant forall c | c in chunks :: SentenceChunk(text, c, lo, hi, cap)
    {
      var (start, end) := spans[k];
      assert spans[k] in spans;
      assert start < end <= |text| by { SpanBounds(text, spans, lo, hi, k); }
      var more;
      if CountTokens(text[start..end]) <= cap {
        more := [Finalize(text, start, end, Sentence, [], [], [])];
        OneChunkPiece(text, more[0], cap);
        WholeSentence(text, more[0], (start, end), lo, hi, cap);
      } else {
        var windows := FixedToken(text[start..end], cap, 0);
        if windows.BadWindow? {
          return BadWindow;
        }
        more := Relocate(text, start, end, windows.chunks, Sentence, [], [], [], cap);
        PartsOfSentence(text, windows.chunks, more, (start, end), lo, hi, cap);
      }
      NextPiece(text, chunks, more, spans, lo, hi, k, cap);
      chunks := chunks + more;
    }
    assert Piece(text, chunks, lo, hi, cap) by { AllDone(text, chunks, spans, lo, hi, cap); }
    return Chunks(chunks);
  }

  lemma {:induction false} SpanBounds(text: string, spans: seq<Span>, lo: nat, hi: nat, k: nat)
    requires Covers(text, spans, lo, hi) && k < |spans|
    ensures lo <= spans[k].0 < spans[k].1 <= hi <= |text|
  {}

  lemma {:induction false} AllDone(text: string, chunks: seq<Chunk>, spans: seq<Span>, lo: nat, hi: nat, cap: int)
    requires DoneTo(text, chunks, spans, lo, hi, |spans|, cap)
    ensures Piece(text, chunks, lo, hi, cap)
  {}

  method ParagraphSentence(text: string, cap: int) returns (r: Chunked)
    ensures r.Chunks? ==> Partition(text, r.chunks, cap)
    ensures r.Chunks? ==> forall c | c in r.chunks :: ParagraphChunk(text, c, cap) && Unbroken(text, c)
    ensures cap >= 1 ==> r.Chunks?
  {
    hide Covers, Words, CountTokens, DoneTo, Piece, Gaps, SentenceChunk;
    var spans := SplitOffsets(text, ParagraphBreaks(text, 0, |text|), 0, |text|);
    var chunks: seq<Chunk> := [];
    StartPieces(text, spans, 0, |text|, cap);
    for k := 0 to |spans|
      invariant DoneTo(text, chunks, spans, 0, |text|, k, cap)
      invariant forall c | c in chunks :: ParagraphChunk(text, c, cap)
    {
      var (start, end) := spans[k];
      assert spans[k] in spans;
      assert start < end <= |text| by { SpanBounds(text, spans, 0, |text|, k); }
      var more;
      if CountTokens(text[start..end]) <= cap {
        more := [Finalize(text, start, end, Paragraph, [], [], [])];
        OneChunkPiece(text, more[0], cap);
      } else {
        var sentences := SentencesOf(text, start, end, cap);
        if sentences.BadWindow? {
          return BadWindow;
        }
        more := sentences.chunks;
      }
      assert forall c | c in more :: InParagraph(text, c, (start, end), cap);
      NextPiece(text, chunks, more, spans, 0, |text|, k, cap);
      chunks := chunks + more;
    }
    assert Piece(text, chunks, 0, |text|, cap) by { AllDone(text, chunks, spans, 0, |text|, cap); }
    assert Partition(text, chunks, cap) by { PieceIsPartition(text, chunks, cap); }
    hide ParagraphChunk, Unbroken;
    forall c | c in chunks ensures Unbroken(text, c) { ChunksAreUnbroken(text, c, cap); }
    return Chunks(chunks);
  }

  lemma {:induction false} PieceIsPartition(text: string, chunks: seq<Chunk>, cap: int)
    ensures Piece(text, chunks, 0, |text|, cap) <==> Partition(text, chunks, cap)
  {}
}
