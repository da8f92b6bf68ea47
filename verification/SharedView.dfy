/** The page bound both arms see (src/shapeflow/evidence/shared_view.py:57-193), for any
    deterministic tokenizer. */
module SharedView {
  import opened Options
  import opened Text
  import opened Chunkers

  datatype Budget = Budget(maxChars: nat, maxTokens: nat)

  datatype Reason = Whole | CharBound | TokenBound

  datatype SharedContent = SharedContent(text: string, truncated: bool, reason: Reason, originalTokens: nat,
      keptTokens: nat, charTruncated: bool)

  /** An encoder whose offsets stay inside the text. */
  ghost predicate Encoder(encode: string -> seq<Span>) {
    forall s, k | 0 <= k < |encode(s)| :: encode(s)[k].1 <= |s|
  }

  /** SharedContentBudget.derive: what the window leaves after completion and scaffolding. */
  function Derive(maxChars: nat, maxModelLen: int, completionCap: int, overhead: int): (b: Option<Budget>)
    ensures b.Some? <==> maxModelLen >= completionCap + overhead + 1
    ensures b.Some? ==>
      b.value.maxTokens >= 1 && b.value.maxTokens + completionCap + overhead == maxModelLen
        && b.value.maxChars == maxChars
  {
    var budget := maxModelLen - completionCap - overhead;
    if budget < 1 then None else Some(Budget(maxChars, budget))
  }

  function Clip(text: string, n: nat): string { if |text| <= n then text else text[..n] }

  /** The passes of the token bound: cut after token `keep`, re-encode, and cut earlier if the
      shortened text still has too many tokens. */
  function Shrink(clipped: string, offsets: seq<Span>, maxTokens: nat, keep: int, passes: nat,
      encode: string -> seq<Span>): Option<string>
    requires keep <= |offsets| && forall k | 0 <= k < |offsets| :: offsets[k].1 <= |clipped|
  {
    if passes == 0 || keep < 1 then None else
      var candidate := clipped[..offsets[keep - 1].1];
      var recount := |encode(candidate)|;
      if recount <= maxTokens then Some(candidate)
      else Shrink(clipped, offsets, maxTokens, keep - (if recount - maxTokens > 1 then recount - maxTokens else 1),
        passes - 1, encode)
  }

  /** apply_shared_budget with a tokenizer; None is the ValueError. */
  function Bound(text: string, b: Budget, encode: string -> seq<Span>): Option<SharedContent>
    requires Encoder(encode)
  {
    var clipped := Clip(text, b.maxChars);
    var charHit := |clipped| < |text|;
    var offsets := encode(clipped);
    if |offsets| <= b.maxTokens then
      Some(SharedContent(clipped, charHit, if charHit then CharBound else Whole, |offsets|, |offsets|, charHit))
    else
      var cut := Shrink(clipped, offsets, b.maxTokens, b.maxTokens, 8, encode);
      if cut.None? then None
      else Some(SharedContent(cut.value, true, TokenBound, |offsets|, |encode(cut.value)|, charHit))
  }

  method ApplySharedBudget(text: string, b: Budget, encode: string -> seq<Span>) returns (r: Option<SharedContent>)
    requires Encoder(encode) && b.maxTokens >= 1
    ensures r == Bound(text, b, encode)
  {
    var clipped := Clip(text, b.maxChars);
    var charHit := |clipped| < |text|;
    var offsets := encode(clipped);
    var original := |offsets|;
    if original <= b.maxTokens {
      return Some(SharedContent(clipped, charHit, if charHit then CharBound else Whole, original, original, charHit));
    }
    var keep := b.maxTokens;
    for pass := 0 to 8
      invariant 1 <= keep <= b.maxTokens
      invariant Shrink(clipped, offsets, b.maxTokens, b.maxTokens, 8, encode)
        == Shrink(clipped, offsets, b.maxTokens, keep, 8 - pass, encode)
    {
      var cut := offsets[keep - 1].1;
      var candidate := clipped[..cut];
      var recount := |encode(candidate)|;
      if recount <= b.maxTokens {
        return Some(SharedContent(candidate, true, TokenBound, original, recount, charHit));
      }
      var next := keep - (if recount - b.maxTokens > 1 then recount - b.maxTokens else 1);
      if next < 1 {
        return None;
      }
      keep := next;
    }
    return None;
  }

  /** Without an engine only the character bound applies. */
  function CharsOnly(text: string, b: Budget): SharedContent {
    var clipped := Clip(text, b.maxChars);
    var charHit := |clipped| < |text|;
    SharedContent(clipped, charHit, if charHit then CharBound else Whole, 0, 0, charHit)
  }

  // --------------------------------------------------------------- properties

  lemma {:induction false} ShrinkFacts(clipped: string, offsets: seq<Span>, maxTokens: nat, keep: int, passes: nat,
      encode: string -> seq<Span>)
    requires keep <= |offsets| && forall k | 0 <= k < |offsets| :: offsets[k].1 <= |clipped|
    ensures var r := Shrink(clipped, offsets, maxTokens, keep, passes, encode);
      r.Some? ==> r.value <= clipped && |encode(r.value)| <= maxTokens
    decreases passes
  {
    if passes > 0 && keep >= 1 {
      var recount := |encode(clipped[..offsets[keep - 1].1])|;
      if recount > maxTokens {
        var next := keep - (if recount - maxTokens > 1 then recount - maxTokens else 1);
        ShrinkFacts(clipped, offsets, maxTokens, next, passes - 1, encode);
      }
    }
  }

  /** Cutting after `keep` tokens of the clipped text, and whether that is short enough. */
  ghost predicate Fits(clipped: string, offsets: seq<Span>, maxTokens: nat, keep: int, encode: string -> seq<Span>)
    requires 1 <= keep <= |offsets| && forall k | 0 <= k < |offsets| :: offsets[k].1 <= |clipped|
  {
    |encode(clipped[..offsets[keep - 1].1])| <= maxTokens
  }

  /** The cuts tried: each time as many tokens fewer as the last cut was over, and at least one. */
  ghost predicate Tried(clipped: string, offsets: seq<Span>, maxTokens: nat, keeps: seq<int>,
      encode: string -> seq<Span>)
    requires forall k | 0 <= k < |offsets| :: offsets[k].1 <= |clipped|
  {
    && (forall k | 0 <= k < |keeps| :: 1 <= keeps[k] <= |offsets|)
    && forall k | 0 <= k < |keeps| - 1 ::
         && !Fits(clipped, offsets, maxTokens, keeps[k], encode)
         && var over := |encode(clipped[..offsets[keeps[k] - 1].1])| - maxTokens;
            keeps[k + 1] == keeps[k] - over
  }

  /** The bound is the first cut tried that fits, if there is one within the passes; it fails when
      the passes, or the tokens to cut, run out. */
  lemma {:induction false} ShrinkTries(clipped: string, offsets: seq<Span>, maxTokens: nat, keep: int, passes: nat,
      encode: string -> seq<Span>) returns (keeps: seq<int>)
    requires keep <= |offsets| && forall k | 0 <= k < |offsets| :: offsets[k].1 <= |clipped|
    ensures var r := Shrink(clipped, offsets, maxTokens, keep, passes, encode);
      && Tried(clipped, offsets, maxTokens, keeps, encode) && |keeps| <= passes && (keeps != [] ==> keeps[0] == keep)
      && (r.Some? ==>
            && keeps != [] && Fits(clipped, offsets, maxTokens, keeps[|keeps| - 1], encode)
            && r.value == clipped[..offsets[keeps[|keeps| - 1] - 1].1])
      && (r.None? ==>
            if keeps == [] then passes == 0 || keep < 1
            else
              var last := keeps[|keeps| - 1];
              && !Fits(clipped, offsets, maxTokens, last, encode)
              && (|keeps| == passes || last - (|encode(clipped[..offsets[last - 1].1])| - maxTokens) < 1))
    decreases passes
  {
    if passes == 0 || keep < 1 {
      keeps := [];
    } else {
      var recount := |encode(clipped[..offsets[keep - 1].1])|;
      assert Fits(clipped, offsets, maxTokens, keep, encode) <==> recount <= maxTokens;
      if recount <= maxTokens {
        keeps := [keep];
      } else {
        var rest := ShrinkTries(clipped, offsets, maxTokens, keep - (recount - maxTokens), passes - 1, encode);
        hide Tried, Shrink;
        TriedMore(clipped, offsets, maxTokens, keep, rest, encode);
        keeps := [keep] + rest;
      }
    }
  }

  lemma {:induction false} TriedMore(clipped: string, offsets: seq<Span>, maxTokens: nat, keep: int, rest: seq<int>,
      encode: string -> seq<Span>)
    requires 1 <= keep <= |offsets| && forall k | 0 <= k < |offsets| :: offsets[k].1 <= |clipped|
    requires !Fits(clipped, offsets, maxTokens, keep, encode) && Tried(clipped, offsets, maxTokens, rest, encode)
    requires rest != [] ==> rest[0] == keep - (|encode(clipped[..offsets[keep - 1].1])| - maxTokens)
    ensures Tried(clipped, offsets, maxTokens, [keep] + rest, encode)
  {
    hide Fits;
  }

  /** What the token bound does to a page that is over it: cut after the bound's last token if the
      cut re-encodes within the bound, else after fewer and fewer tokens for at most eight tries. It
      says how many tokens the clipped page had. */
  lemma {:induction false} BoundTries(text: string, b: Budget, encode: string -> seq<Span>) returns (keeps: seq<int>)
    requires Encoder(encode) && b.maxTokens >= 1 && |encode(Clip(text, b.maxChars))| > b.maxTokens
    ensures var (clipped, r) := (Clip(text, b.maxChars), Bound(text, b, encode));
      var offsets := encode(clipped);
      && 1 <= |keeps| <= 8 && keeps[0] == b.maxTokens && Tried(clipped, offsets, b.maxTokens, keeps, encode)
      && (r.Some? <==> Fits(clipped, offsets, b.maxTokens, keeps[|keeps| - 1], encode))
      && (r.Some? ==>
            && r.value.text == clipped[..offsets[keeps[|keeps| - 1] - 1].1]
            && r.value.originalTokens == |offsets| && r.value.reason == TokenBound)
  {
    var clipped := Clip(text, b.maxChars);
    keeps := ShrinkTries(clipped, encode(clipped), b.maxTokens, b.maxTokens, 8, encode);
  }

  /** A returned text is a prefix of the page within both bounds, and `truncated` says exactly
      whether it differs from the page. */
  lemma {:induction false} BoundedPrefix(text: string, b: Budget, encode: string -> seq<Span>)
    requires Encoder(encode) && Bound(text, b, encode).Some?
    ensures var r := Bound(text, b, encode).value;
      && r.text <= text && |r.text| <= b.maxChars && |encode(r.text)| == r.keptTokens <= b.maxTokens
      && (r.truncated <==> r.text != text) && (r.charTruncated <==> |text| > b.maxChars)
      && (r.truncated <==> r.reason != Whole)
  {
    var clipped := Clip(text, b.maxChars);
    var offsets := encode(clipped);
    if |offsets| > b.maxTokens {
      ShrinkFacts(clipped, offsets, b.maxTokens, b.maxTokens, 8, encode);
    }
  }

  /** Why the token bound is derived: whatever page is bounded by it, the content, the largest
      completion and the prompt scaffolding together fit the engine's window. */
  lemma {:induction false} BoundFitsWindow(text: string, maxChars: nat, maxModelLen: int, completionCap: int,
      overhead: int, encode: string -> seq<Span>)
    requires Encoder(encode)
    ensures var b := Derive(maxChars, maxModelLen, completionCap, overhead);
      b.Some? && Bound(text, b.value, encode).Some? ==>
        |encode(Bound(text, b.value, encode).value.text)| + completionCap + overhead <= maxModelLen
  {
    var b := Derive(maxChars, maxModelLen, completionCap, overhead);
    if b.Some? && Bound(text, b.value, encode).Some? {
      BoundedPrefix(text, b.value, encode);
    }
  }

  /** Without a tokenizer the result is the longest prefix the character bound allows, flagged
      exactly when it is not the page; with one, the token bound cuts that text further exactly
      when it has too many tokens. */
  lemma {:induction false} TokenBoundCutsFurther(text: string, b: Budget, encode: string -> seq<Span>)
    requires Encoder(encode)
    ensures var chars := CharsOnly(text, b);
      && chars.text <= text && (|chars.text| == b.maxChars || chars.text == text) && |chars.text| <= b.maxChars
      && (chars.truncated <==> chars.text != text) && (chars.reason == CharBound <==> chars.truncated)
    ensures var chars, bound := CharsOnly(text, b), Bound(text, b, encode);
      bound.Some? ==>
        && bound.value.text <= chars.text && bound.value.charTruncated == chars.charTruncated
        && (bound.value.text == chars.text <==> |encode(chars.text)| <= b.maxTokens)
        && (bound.value.reason == TokenBound <==> |encode(chars.text)| > b.maxTokens)
  {
    var clipped := Clip(text, b.maxChars);
    if |encode(clipped)| > b.maxTokens {
      ShrinkFacts(clipped, encode(clipped), b.maxTokens, b.maxTokens, 8, encode);
    }
  }

  /** Bounding a bounded text changes nothing. */
  lemma {:induction false} BoundTwice(text: string, b: Budget, encode: string -> seq<Span>)
    requires Encoder(encode) && Bound(text, b, encode).Some?
    ensures var once := Bound(text, b, encode).value;
      var twice := Bound(once.text, b, encode);
      twice.Some? && twice.value.text == once.text && !twice.value.truncated
  {
    BoundedPrefix(text, b, encode);
  }

  function Whitespace(): string -> seq<Span> { (s: string) => TokenOffsets(s, 0) }

  lemma {:induction false} WhitespaceIsEncoder()
    ensures Encoder(Whitespace())
  {
    forall s: string, k | 0 <= k < |TokenOffsets(s, 0)|
      ensures TokenOffsets(s, 0)[k].1 <= |s|
    {
      OffsetsCover(s, 0);
    }
  }

  /** Cutting after token n of a whitespace tokenization leaves exactly n tokens. */
  lemma {:induction false} CutAfterToken(text: string, n: nat)
    requires 1 <= n <= |TokenOffsets(text, 0)|
    ensures TokenOffsets(text, 0)[n - 1].1 <= |text| && CountTokens(text[..TokenOffsets(text, 0)[n - 1].1]) == n
  {
    hide TokenOffsets, CountTokens, IsSpace;
    var offsets := TokenOffsets(text, 0);
    OffsetsCover(text, 0);
    WordsBetween(text, 0, n);
    var (s, e) := (offsets[0].0, offsets[n - 1].1);
    BeforeSpans(text, offsets, 0, |text|);
    WhiteHasNoWords(text, 0, s);
    WordsSplit(text, 0, s, e);
    CountOfSlice(text, 0, e);
    assert text[..e] == text[0..e];
  }

  /** Under the whitespace tokenizer the first pass already succeeds, so the loop never raises. */
  lemma {:induction false} WhitespaceNeverRaises(text: string, b: Budget)
    requires b.maxTokens >= 1
    ensures Encoder(Whitespace())
    ensures var clipped := Clip(text, b.maxChars);
      Bound(text, b, Whitespace()).Some?
      && (CountTokens(clipped) > b.maxTokens ==>
            Bound(text, b, Whitespace()).value.text == clipped[..TokenOffsets(clipped, 0)[b.maxTokens - 1].1]
            && Bound(text, b, Whitespace()).value.keptTokens == b.maxTokens)
  {
    WhitespaceIsEncoder();
    var clipped := Clip(text, b.maxChars);
    if CountTokens(clipped) > b.maxTokens {
      CutAfterToken(clipped, b.maxTokens);
    }
  }
}
