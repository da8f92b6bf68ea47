/** Whitespace, whitespace tokens and span coverage of a text
    (WhitespaceTokenizer, src/shapeflow/evidence/chunkers.py:44-55). */
module Text {

  /** A half-open window of character offsets. */
  type Span = (nat, nat)

  /** Unicode whitespace, as `\s` and `str.strip` see it. */
  predicate IsSpace(c: char) {
    var k := c as int;
    || 0x09 <= k <= 0x0D || 0x1C <= k <= 0x20 || k == 0x85 || k == 0xA0 || k == 0x1680
    || 0x2000 <= k <= 0x200A || k == 0x2028 || k == 0x2029 || k == 0x202F || k == 0x205F || k == 0x3000
  }

  predicate White(text: string, lo: nat, hi: nat) {
    lo <= hi <= |text| && forall k | lo <= k < hi :: IsSpace(text[k])
  }

  // -------------------------------------------------------------- tokenizing

  function SkipSpaces(text: string, i: nat): (j: nat)
    requires i <= |text|
    ensures i <= j <= |text| && White(text, i, j) && (j < |text| ==> !IsSpace(text[j]))
    decreases |text| - i
  {
    if i < |text| && IsSpace(text[i]) then SkipSpaces(text, i + 1) else i
  }

  function WordEnd(text: string, i: nat): (j: nat)
    requires i <= |text|
    ensures i <= j <= |text| && (forall k | i <= k < j :: !IsSpace(text[k])) && (j < |text| ==> IsSpace(text[j]))
    decreases |text| - i
  {
    if i < |text| && !IsSpace(text[i]) then WordEnd(text, i + 1) else i
  }

  /** encode_offsets: every maximal run of non-whitespace from position i on. */
  function TokenOffsets(text: string, i: nat): (offsets: seq<Span>)
    requires i <= |text|
    decreases |text| - i
  {
    var s := SkipSpaces(text, i);
    if s == |text| then [] else [(s, WordEnd(text, s))] + TokenOffsets(text, WordEnd(text, s))
  }

  function CountTokens(text: string): nat { |TokenOffsets(text, 0)| }

  // ------------------------------------------------- reference: word starts

  ghost predicate StartsWord(text: string, lo: nat, k: nat)
    requires lo <= k < |text|
  {
    !IsSpace(text[k]) && (k == lo || IsSpace(text[k - 1]))
  }

  /** How many words start in text[lo..hi]. */
  ghost function Words(text: string, lo: nat, hi: nat): nat
    requires lo <= hi <= |text|
    decreases hi
  {
    if lo == hi then 0 else Words(text, lo, hi - 1) + (if StartsWord(text, lo, hi - 1) then 1 else 0)
  }

  /** No word straddles position m of text[lo..hi]. */
  ghost predicate CleanCut(text: string, lo: nat, m: nat, hi: nat) {
    lo <= m <= hi <= |text| && (m == lo || m == hi || IsSpace(text[m - 1]) || IsSpace(text[m]))
  }

  lemma {:induction false} WordsSplit(text: string, lo: nat, m: nat, hi: nat)
    requires CleanCut(text, lo, m, hi)
    ensures Words(text, lo, hi) == Words(text, lo, m) + Words(text, m, hi)
    decreases hi
  {
    if m < hi {
      if m < hi - 1 {
        WordsSplit(text, lo, m, hi - 1);
      }
    }
  }

  lemma {:induction false} WhiteHasNoWords(text: string, lo: nat, hi: nat)
    requires White(text, lo, hi)
    ensures Words(text, lo, hi) == 0
    decreases hi
  {
    if lo < hi { WhiteHasNoWords(text, lo, hi - 1); }
  }

  lemma {:induction false} NoWordsIsWhite(text: string, lo: nat, hi: nat)
    requires lo <= hi <= |text| && Words(text, lo, hi) == 0
    ensures White(text, lo, hi)
    decreases hi
  {
    if lo < hi { NoWordsIsWhite(text, lo, hi - 1); }
  }

  lemma {:induction false} OneWord(text: string, lo: nat, hi: nat)
    requires lo < hi <= |text| && forall k | lo <= k < hi :: !IsSpace(text[k])
    ensures Words(text, lo, hi) == 1
    decreases hi
  {
    if lo < hi - 1 { OneWord(text, lo, hi - 1); }
  }

  lemma {:induction false} WordsOfSlice(text: string, a: nat, b: nat, lo: nat, hi: nat)
    requires a <= b <= |text| && lo <= hi <= b - a
    ensures Words(text[a..b], lo, hi) == Words(text, a + lo, a + hi)
    decreases hi
  {
    if lo < hi { WordsOfSlice(text, a, b, lo, hi - 1); }
  }

  /** The tokenizer counts exactly the word starts. */
  lemma {:induction false} OffsetsCountWords(text: string, i: nat)
    requires i <= |text| && (i == 0 || i == |text| || IsSpace(text[i - 1]) || IsSpace(text[i]))
    ensures |TokenOffsets(text, i)| == Words(text, i, |text|)
    decreases |text| - i
  {
    var s := SkipSpaces(text, i);
    WhiteHasNoWords(text, i, s);
    if s == |text| {
    } else {
      var e := WordEnd(text, s);
      OffsetsCountWords(text, e);
      WordsSplit(text, i, s, |text|);
      WordsSplit(text, s, e, |text|);
      OneWord(text, s, e);
    }
  }

  /** `tokenizer.count(text[a:b])` without the slice. */
  lemma {:induction false} CountOfSlice(text: string, a: nat, b: nat)
    requires a <= b <= |text|
    ensures CountTokens(text[a..b]) == Words(text, a, b)
  {
    OffsetsCountWords(text[a..b], 0);
    WordsOfSlice(text, a, b, 0, b - a);
  }

  // ---------------------------------------------------------------- coverage

  ghost predicate InSpan(spans: seq<Span>, k: nat) {
    exists i :: 0 <= i < |spans| && spans[i].0 <= k < spans[i].1
  }

  /** `spans` are non-empty windows of text[lo..hi], in order and apart from each other, and
      together they hold every non-whitespace character of it. */
  ghost predicate Covers(text: string, spans: seq<Span>, lo: nat, hi: nat) {
    && lo <= hi <= |text|
    && (forall i | 0 <= i < |spans| :: lo <= spans[i].0 < spans[i].1 <= hi)
    && (forall i, j | 0 <= i < j < |spans| :: spans[i].1 < spans[j].0)
    && (forall k | lo <= k < hi && !IsSpace(text[k]) :: InSpan(spans, k))
  }

  lemma {:induction false} CoversNothing(text: string, lo: nat, hi: nat)
    requires White(text, lo, hi)
    ensures Covers(text, [], lo, hi)
  {}

  lemma {:induction false} CoversItself(text: string, lo: nat, hi: nat)
    requires lo < hi <= |text|
    ensures Covers(text, [(lo, hi)], lo, hi)
  {
    forall k: nat | lo <= k < hi ensures InSpan([(lo, hi)], k) { assert [(lo, hi)][0].0 <= k < [(lo, hi)][0].1; }
  }

  lemma {:induction false} InConcat(a: seq<Span>, b: seq<Span>, k: nat)
    ensures InSpan(a + b, k) <==> InSpan(a, k) || InSpan(b, k)
  {
    if InSpan(a, k) {
      var i :| 0 <= i < |a| && a[i].0 <= k < a[i].1;
      assert (a + b)[i] == a[i];
    }
    if InSpan(b, k) {
      var i :| 0 <= i < |b| && b[i].0 <= k < b[i].1;
      assert (a + b)[|a| + i] == b[i];
    }
  }

  /** Ends strictly before m: what comes after m will be apart from `spans`. */
  ghost predicate EndBefore(spans: seq<Span>, m: nat) {
    forall i | 0 <= i < |spans| :: spans[i].1 < m
  }

  lemma {:induction false} CoversConcat(text: string, a: seq<Span>, b: seq<Span>, lo: nat, m: nat, hi: nat)
    requires Covers(text, a, lo, m) && Covers(text, b, m, hi) && EndBefore(a, m)
    ensures Covers(text, a + b, lo, hi)
  {
    forall k | lo <= k < hi && !IsSpace(text[k])
      ensures InSpan(a + b, k)
    {
      InConcat(a, b, k);
    }
  }

  lemma {:induction false} CoversThroughWhite(text: string, a: seq<Span>, lo: nat, m: nat, hi: nat)
    requires Covers(text, a, lo, m) && White(text, m, hi)
    ensures Covers(text, a, lo, hi)
    ensures m < hi ==> EndBefore(a, hi)
  {}

  lemma {:induction false} CoversAfterWhite(text: string, a: seq<Span>, lo: nat, m: nat, hi: nat)
    requires White(text, lo, m) && Covers(text, a, m, hi)
    ensures Covers(text, a, lo, hi)
  {}

  function Shift(spans: seq<Span>, base: nat): (shifted: seq<Span>)
    ensures |shifted| == |spans|
  {
    seq(|spans|, i requires 0 <= i < |spans| => (base + spans[i].0, base + spans[i].1))
  }

  lemma {:induction false} CoversShift(text: string, spans: seq<Span>, a: nat, b: nat)
    requires a <= b <= |text| && Covers(text[a..b], spans, 0, b - a)
    ensures Covers(text, Shift(spans, a), a, b)
  {
    forall k: nat | a <= k < b && !IsSpace(text[k])
      ensures InSpan(Shift(spans, a), k)
    {
      assert !IsSpace(text[a..b][k - a]);
      assert InSpan(spans, k - a);
      var i :| 0 <= i < |spans| && spans[i].0 <= k - a < spans[i].1;
      assert Shift(spans, a)[i].0 <= k < Shift(spans, a)[i].1;
    }
  }

  /** Each character is in at most one covering span. */
  lemma {:induction false} CoveredOnce(text: string, spans: seq<Span>, lo: nat, hi: nat, i: nat, j: nat, k: nat)
    requires Covers(text, spans, lo, hi) && i < |spans| && j < |spans|
    requires spans[i].0 <= k < spans[i].1 && spans[j].0 <= k < spans[j].1
    ensures i == j
  {}

  // ------------------------------------------------------------ conservation

  ghost function WordSum(text: string, spans: seq<Span>): nat
    requires forall i | 0 <= i < |spans| :: spans[i].0 <= spans[i].1 <= |text|
  {
    if spans == [] then 0 else
      var n := |spans| - 1;
      WordSum(text, spans[..n]) + Words(text, spans[n].0, spans[n].1)
  }

  ghost function LengthSum(spans: seq<Span>): int {
    if spans == [] then 0 else
      LengthSum(spans[..|spans| - 1]) + spans[|spans| - 1].1 - spans[|spans| - 1].0
  }

  lemma {:induction false} CoversPrefix(text: string, spans: seq<Span>, lo: nat, hi: nat)
    requires Covers(text, spans, lo, hi) && spans != []
    ensures var n := |spans| - 1;
      Covers(text, spans[..n], lo, spans[n].0) && White(text, spans[n].1, hi) && EndBefore(spans[..n], spans[n].0)
  {
    var n := |spans| - 1;
    assert spans == spans[..n] + [spans[n]];
    forall k | lo <= k < hi && !IsSpace(text[k])
      ensures InSpan(spans[..n], k) || spans[n].0 <= k < spans[n].1
    {
      InConcat(spans[..n], [spans[n]], k);
    }
    forall k | lo <= k < spans[n].0 && !IsSpace(text[k])
      ensures InSpan(spans[..n], k)
    {}
    forall k | spans[n].1 <= k < hi
      ensures IsSpace(text[k])
    {
      assert !InSpan(spans[..n], k);
    }
  }

  /** No word is lost, split or counted twice by a covering. */
  lemma {:induction false} WordsConserved(text: string, spans: seq<Span>, lo: nat, hi: nat)
    requires Covers(text, spans, lo, hi)
    ensures WordSum(text, spans) == Words(text, lo, hi)
  {
    if spans == [] {
      forall k | lo <= k < hi ensures IsSpace(text[k]) { assert !InSpan(spans, k); }
      WhiteHasNoWords(text, lo, hi);
    } else {
      var n := |spans| - 1;
      var (s, e) := spans[n];
      CoversPrefix(text, spans, lo, hi);
      WordsConserved(text, spans[..n], lo, s);
      assert s == lo || IsSpace(text[s - 1]);
      WordsSplit(text, lo, s, hi);
      WordsSplit(text, s, e, hi);
      WhiteHasNoWords(text, e, hi);
    }
  }

  /** Together the spans are no longer than the text they cover. */
  lemma {:induction false} LengthBounded(text: string, spans: seq<Span>, lo: nat, hi: nat)
    requires Covers(text, spans, lo, hi)
    ensures LengthSum(spans) <= hi - lo
  {
    if spans != [] {
      CoversPrefix(text, spans, lo, hi);
      LengthBounded(text, spans[..|spans| - 1], lo, spans[|spans| - 1].0);
    }
  }

  // ------------------------------------------------- the tokens as a covering

  lemma {:induction false} OffsetsCover(text: string, i: nat)
    requires i <= |text|
    ensures Covers(text, TokenOffsets(text, i), i, |text|)
    ensures forall k | 0 <= k < |TokenOffsets(text, i)| ::
      Words(text, TokenOffsets(text, i)[k].0, TokenOffsets(text, i)[k].1) == 1
    decreases |text| - i
  {
    hide Covers, Words, IsSpace;
    var s := SkipSpaces(text, i);
    if s == |text| {
      CoversNothing(text, i, s);
    } else {
      var e := WordEnd(text, s);
      OffsetsCover(text, e);
      OneWord(text, s, e);
      WordThenRest(text, i, s, e, TokenOffsets(text, e));
    }
  }

  lemma {:induction false} WordThenRest(text: string, i: nat, s: nat, e: nat, rest: seq<Span>)
    requires White(text, i, s) && s < e <= |text| && (e < |text| ==> IsSpace(text[e]))
    requires rest == TokenOffsets(text, e) && Covers(text, rest, e, |text|)
    ensures Covers(text, [(s, e)] + rest, i, |text|)
  {
    CoversItself(text, s, e);
    CoversAfterWhite(text, [(s, e)], i, s, e);
    if e < |text| {
      RestStartsLater(text, rest, e);
      CoversThroughWhite(text, [(s, e)], i, e, e + 1);
      CoversConcat(text, [(s, e)], rest, i, e + 1, |text|);
    } else {
      assert [(s, e)] + rest == [(s, e)];
    }
  }

  lemma {:induction false} RestStartsLater(text: string, rest: seq<Span>, e: nat)
    requires e < |text| && IsSpace(text[e]) && rest == TokenOffsets(text, e) && Covers(text, rest, e, |text|)
    ensures Covers(text, rest, e + 1, |text|)
  {
    if rest != [] {
      assert rest[0].0 == SkipSpaces(text, e) > e;
      assert forall i | 0 <= i < |rest| :: rest[i].0 >= rest[0].0;
    }
  }
}
