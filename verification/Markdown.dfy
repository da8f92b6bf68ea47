/** markdown_structure_v1 (src/shapeflow/evidence/chunkers.py:219-360). The regular expressions
    that classify a line are parameters; the scanner around them is modelled in full. */
module Markdown {
  import opened Options
  import opened Text
  import opened Chunkers

  /** _HEADING gives level and stripped title, _FENCE the fence marker. */
  datatype Classifiers = Classifiers(heading: string -> Option<(nat, string)>, fence: string -> Option<string>,
      tableSep: string -> bool, listItem: string -> bool)

  datatype Line = Line(start: nat, end: nat, nlEnd: nat, text: string)

  datatype Head = Head(level: nat, title: string, start: nat, end: nat)

  // ------------------------------------------------------------------- lines

  function FindNewline(text: string, i: nat): (j: nat)
    requires i <= |text|
    ensures i <= j <= |text| && (j < |text| ==> text[j] == '\n') && (forall k | i <= k < j :: text[k] != '\n')
    decreases |text| - i
  {
    if i < |text| && text[i] != '\n' then FindNewline(text, i + 1) else i
  }

  /** Start of line i, or the end of the text past the last line. */
  function Pos(text: string, lines: seq<Line>, i: nat): nat {
    if i < |lines| then lines[i].start else |text|
  }

  /** One line: its content holds no newline and is followed by one, or by the end of the text. */
  ghost predicate IsLine(text: string, l: Line, last: bool) {
    && l.start <= l.end <= l.nlEnd <= |text|
    && l.text == text[l.start..l.end]
    && (forall k | l.start <= k < l.end :: text[k] != '\n')
    && (if l.nlEnd == l.end then last && l.end == |text| else l.nlEnd == l.end + 1 && text[l.end] == '\n')
  }

  ghost predicate LineAt(text: string, lines: seq<Line>, i: nat)
    requires i < |lines|
  {
    IsLine(text, lines[i], i == |lines| - 1) && lines[i].nlEnd == Pos(text, lines, i + 1)
  }

  /** The lines tile the text, each ending in a newline except perhaps the last. */
  ghost predicate AreLines(text: string, lines: seq<Line>) {
    Pos(text, lines, 0) == 0 && forall i | 0 <= i < |lines| :: LineAt(text, lines, i)
  }

  method IterLines(text: string) returns (lines: seq<Line>)
    ensures AreLines(text, lines)
  {
    lines := [];
    var pos := 0;
    while pos < |text|
      invariant pos <= |text| && (lines == [] ==> pos == 0)
      invariant |lines| > 0 ==> lines[0].start == 0 && lines[|lines| - 1].nlEnd == pos
      invariant forall i | 0 <= i < |lines| :: IsLine(text, lines[i], pos == |text| && i == |lines| - 1)
      invariant forall i | 0 <= i < |lines| - 1 :: lines[i].nlEnd == lines[i + 1].start
    {
      var nl := FindNewline(text, pos);
      if nl == |text| {
        lines := lines + [Line(pos, nl, nl, text[pos..nl])];
        pos := nl;
        break;
      }
      lines := lines + [Line(pos, nl, nl + 1, text[pos..nl])];
      pos := nl + 1;
    }
  }

  lemma {:induction false} LaterLinesStartLater(text: string, lines: seq<Line>, i: nat, j: nat)
    requires AreLines(text, lines) && i <= j
    ensures Pos(text, lines, i) <= Pos(text, lines, j) <= |text|
    ensures i < j && i < |lines| ==> lines[i].nlEnd <= Pos(text, lines, j)
    decreases j - i
  {
    if i < |lines| { assert LineAt(text, lines, i); }
    if i < j { LaterLinesStartLater(text, lines, i + 1, j); }
  }

  predicate Blank(s: string) { White(s, 0, |s|) }

  predicate Quoted(s: string) {
    var k := SkipSpaces(s, 0);
    k < |s| && s[k] == '>'
  }

  predicate HasBar(s: string) { '|' in s }

  /** `marker in s` */
  predicate Contains(s: string, marker: string) {
    marker <= s || (s != [] && Contains(s[1..], marker))
  }

  /** Lines i .. j - 1 are blank, so the text between their outer edges is whitespace. */
  lemma {:induction false} BlankLineIsWhite(text: string, lines: seq<Line>, i: nat)
    requires AreLines(text, lines) && i < |lines| && Blank(lines[i].text)
    ensures White(text, lines[i].start, Pos(text, lines, i + 1))
  {
    assert LineAt(text, lines, i);
    var l := lines[i];
    forall k | l.start <= k < l.nlEnd
      ensures IsSpace(text[k])
    {
      if k < l.end {
        assert text[k] == l.text[k - l.start];
      }
    }
  }

  lemma {:induction false} LineBreakIsWhite(text: string, lines: seq<Line>, i: nat)
    requires AreLines(text, lines) && i < |lines|
    ensures White(text, lines[i].end, Pos(text, lines, i + 1))
    ensures i + 1 < |lines| ==> lines[i].end < Pos(text, lines, i + 1)
  {
    assert LineAt(text, lines, i);
  }

  // ----------------------------------------------------------- heading stack

  /** Heading i is still open after all of `heads` when every later heading is strictly deeper. */
  ghost predicate Open(heads: seq<Head>, i: nat) {
    forall j | i < j < |heads| :: heads[j].level > heads[i].level
  }

  /** The open headings among the first k, in order. */
  ghost function OpenAmong(heads: seq<Head>, k: nat): seq<Head>
    requires k <= |heads|
  {
    if k == 0 then [] else OpenAmong(heads, k - 1) + (if Open(heads, k - 1) then [heads[k - 1]] else [])
  }

  /** The declarative breadcrumb. */
  ghost function Enclosing(heads: seq<Head>): seq<Head> { OpenAmong(heads, |heads|) }

  ghost predicate Rising(stack: seq<Head>) {
    forall i, j | 0 <= i < j < |stack| :: stack[i].level < stack[j].level
  }

  lemma {:induction false} OpenAmongRises(heads: seq<Head>, k: nat)
    requires k <= |heads|
    ensures Rising(OpenAmong(heads, k))
    ensures forall h | h in OpenAmong(heads, k) :: exists i :: 0 <= i < k && Open(heads, i) && heads[i] == h
  {
    if k > 0 {
      OpenAmongRises(heads, k - 1);
      var stack := OpenAmong(heads, k - 1);
      forall i | 0 <= i < |stack|
        ensures stack[i].level < heads[k - 1].level
      {
        assert stack[i] in stack;
      }
      if Open(heads, k - 1) {
        assert heads[k - 1] == heads[k - 1];
      }
    }
  }

  /** `while heading_stack and heading_stack[-1][0] >= level: pop()` */
  function PopTo(stack: seq<Head>, level: nat): (popped: seq<Head>)
  {
    if stack != [] && stack[|stack| - 1].level >= level then PopTo(stack[..|stack| - 1], level) else stack
  }

  ghost function Shallower(stack: seq<Head>, level: nat): seq<Head> {
    if stack == [] then [] else
      Shallower(stack[..|stack| - 1], level) + (if stack[|stack| - 1].level < level then [stack[|stack| - 1]] else [])
  }

  /** On a rising stack popping is filtering. */
  lemma {:induction false} PopIsFilter(stack: seq<Head>, level: nat)
    requires Rising(stack)
    ensures PopTo(stack, level) == Shallower(stack, level)
  {
    if stack != [] {
      var n := |stack| - 1;
      if stack[n].level < level {
        AllShallower(stack, level);
      } else {
        PopIsFilter(stack[..n], level);
        assert Shallower(stack[..n], level) + [] == Shallower(stack[..n], level);
      }
    }
  }

  lemma {:induction false} AllShallower(stack: seq<Head>, level: nat)
    requires forall h | h in stack :: h.level < level
    ensures Shallower(stack, level) == stack
  {
    if stack != [] {
      AllShallower(stack[..|stack| - 1], level);
      assert stack == stack[..|stack| - 1] + [stack[|stack| - 1]];
    }
  }

  lemma {:induction false} ShallowerConcat(a: seq<Head>, h: Head, level: nat)
    ensures Shallower(a + [h], level) == Shallower(a, level) + (if h.level < level then [h] else [])
  {
    assert (a + [h])[..|a|] == a;
  }

  lemma {:induction false} StaysOpen(heads: seq<Head>, h: Head, k: nat)
    requires k < |heads|
    ensures Open(heads + [h], k) <==> Open(heads, k) && heads[k].level < h.level
  {
    var all := heads + [h];
    if Open(all, k) {
      assert all[|heads|].level > all[k].level;
      forall j | k < j < |heads|
        ensures heads[j].level > heads[k].level
      {
        assert all[j].level > all[k].level;
      }
    }
  }

  lemma {:induction false} NewHeadingFilters(heads: seq<Head>, h: Head, k: nat)
    requires k <= |heads|
    ensures OpenAmong(heads + [h], k) == Shallower(OpenAmong(heads, k), h.level)
  {
    hide Open, Shallower;
    if k > 0 {
      NewHeadingFilters(heads, h, k - 1);
      StaysOpen(heads, h, k - 1);
      var before := OpenAmong(heads, k - 1);
      ShallowerConcat(before, heads[k - 1], h.level);
      assert before + [] == before && Shallower(before, h.level) + [] == Shallower(before, h.level);
      assert (heads + [h])[k - 1] == heads[k - 1];
    } else {
      assert Shallower([], h.level) == [] by { NoneShallower(h.level); }
    }
  }

  lemma {:induction false} NoneShallower(level: nat)
    ensures Shallower([], level) == []
  {}

  /** The stack discipline refines the declarative breadcrumb. */
  lemma {:induction false} PushRefines(heads: seq<Head>, h: Head)
    ensures PopTo(Enclosing(heads), h.level) + [h] == Enclosing(heads + [h])
  {
    OpenAmongRises(heads, |heads|);
    PopIsFilter(Enclosing(heads), h.level);
    NewHeadingFilters(heads, h, |heads|);
    assert Open(heads + [h], |heads|);
  }

  /** The other reading of the breadcrumb: the latest heading, then the latest earlier one of
      strictly smaller level, and so on. */
  ghost function Chain(heads: seq<Head>, below: nat): seq<Head> {
    if heads == [] then [] else
      var n := |heads| - 1;
      if heads[n].level < below then Chain(heads[..n], heads[n].level) + [heads[n]] else Chain(heads[..n], below)
  }

  lemma {:induction false} ChainIsFilter(heads: seq<Head>, below: nat)
    ensures Chain(heads, below) == Shallower(Enclosing(heads), below)
  {
    if heads != [] {
      var n := |heads| - 1;
      var h := heads[n];
      assert heads == heads[..n] + [h];
      PushRefines(heads[..n], h);
      var inner := Enclosing(heads[..n]);
      OpenAmongRises(heads[..n], n);
      PopIsFilter(inner, h.level);
      ShallowerConcat(Shallower(inner, h.level), h, below);
      ChainIsFilter(heads[..n], if h.level < below then h.level else below);
      if h.level < below {
        ShallowerIsShallower(inner, h.level);
        AllShallower(Shallower(inner, h.level) , below);
      } else {
        FilterTwice(inner, h.level, below);
      }
    }
  }

  lemma {:induction false} ShallowerIsShallower(stack: seq<Head>, level: nat)
    ensures forall h | h in Shallower(stack, level) :: h.level < level
  {
    if stack != [] { ShallowerIsShallower(stack[..|stack| - 1], level); }
  }

  lemma {:induction false} FilterTwice(stack: seq<Head>, level: nat, below: nat)
    requires below <= level
    ensures Shallower(Shallower(stack, level), below) == Shallower(stack, below)
  {
    if stack != [] {
      var n := |stack| - 1;
      FilterTwice(stack[..n], level, below);
      var kept := Shallower(stack[..n], level);
      if stack[n].level < level {
        ShallowerConcat(kept, stack[n], below);
      } else {
        assert Shallower(stack, level) == kept;
      }
    }
  }

  lemma {:induction false} BreadcrumbIsChain(heads: seq<Head>, below: nat)
    requires forall h | h in heads :: h.level < below
    ensures Enclosing(heads) == Chain(heads, below) && Rising(Enclosing(heads))
  {
    ChainIsFilter(heads, below);
    OpenAmongRises(heads, |heads|);
    forall h | h in Enclosing(heads) ensures h.level < below {
      var i :| 0 <= i < |heads| && Open(heads, i) && heads[i] == h;
      assert heads[i] in heads;
    }
    AllShallower(Enclosing(heads), below);
  }

  // ------------------------------------------------------------------ blocks

  function Titles(stack: seq<Head>): seq<string> {
    seq(|stack|, i requires 0 <= i < |stack| => stack[i].title)
  }

  function Ranges(stack: seq<Head>): seq<Span> {
    seq(|stack|, i requires 0 <= i < |stack| => (stack[i].start, stack[i].end))
  }

  /** Every chunk carries the kind, context and breadcrumb of its block. */
  ghost predicate Tagged(chunks: seq<Chunk>, kind: Kind, context: seq<Span>, stack: seq<Head>) {
    forall i | 0 <= i < |chunks| ::
      && chunks[i].kind == kind && chunks[i].contextRanges == context
      && chunks[i].headingPath == Titles(stack) && chunks[i].headingRanges == Ranges(stack)
  }

  /** The paragraphs and sentences of text[start..end], moved to their place. */
  ghost predicate SplitUp(text: string, start: nat, end: nat, chunks: seq<Chunk>, cap: int) {
    && start <= end <= |text|
    && exists subs :: Moved(subs, chunks, start) && IsSplit(text[start..end], subs, cap)
  }

  ghost predicate IsSplit(block: string, subs: seq<Chunk>, cap: int) {
    Partition(block, subs, cap) && forall c | c in subs :: ParagraphChunk(block, c, cap) && Unbroken(block, c)
  }

  method EmitBlock(text: string, start: nat, end: nat, kind: Kind, context: seq<Span>, stack: seq<Head>, cap: int)
      returns (r: Chunked)
    requires start <= end <= |text| && (start < end ==> !White(text, start, end))
    ensures r.Chunks? ==> Piece(text, r.chunks, start, end, cap) && Tagged(r.chunks, kind, context, stack)
    ensures start < end && CountTokens(text[start..end]) <= cap ==> r.Chunks? && Spans(r.chunks) == [(start, end)]
    ensures r.Chunks? && start < end && CountTokens(text[start..end]) > cap ==> SplitUp(text, start, end, r.chunks, cap)
    ensures cap >= 1 ==> r.Chunks?
  {
    if end <= start {
      CoversNothing(text, start, end);
      assert Spans([]) == [];
      return Chunks([]);
    }
    hide Covers, CountTokens, Words, ParagraphChunk, Unbroken, Moved;
    var block := text[start..end];
    if CountTokens(block) <= cap {
      var chunk := Finalize(text, start, end, kind, Titles(stack), context, Ranges(stack));
      OneChunkPiece(text, chunk, cap);
      return Chunks([chunk]);
    }
    var subs := ParagraphSentence(block, cap);
    if subs.BadWindow? {
      return BadWindow;
    }
    if subs.chunks == [] {
      // the fixed-window fallback is never reached: a block with a token always splits
      PartitionConserves(block, [], cap);
      CountOfSlice(text, start, end);
      NoWordsIsWhite(text, start, end);
      assert false;
    }
    var chunks := Relocate(text, start, end, subs.chunks, kind, Titles(stack), context, Ranges(stack), cap);
    assert IsSplit(block, subs.chunks, cap) && SplitUp(text, start, end, chunks, cap);
    return Chunks(chunks);
  }

  lemma {:induction false} PieceBounds(text: string, chunks: seq<Chunk>, lo: nat, hi: nat, cap: int)
    requires Piece(text, chunks, lo, hi, cap)
    ensures lo <= hi <= |text| && forall i | 0 <= i < |chunks| :: lo <= chunks[i].start < chunks[i].end <= hi
  {
    assert forall i | 0 <= i < |chunks| :: Spans(chunks)[i] == (chunks[i].start, chunks[i].end);
  }

  /** A text window that holds a visible line is not blank. */
  lemma {:induction false} VisibleLine(text: string, lines: seq<Line>, i: nat, end: nat)
    requires AreLines(text, lines) && i < |lines| && !Blank(lines[i].text) && lines[i].end <= end <= |text|
    ensures lines[i].start < end && !White(text, lines[i].start, end)
  {
    assert LineAt(text, lines, i);
    var l := lines[i];
    var k :| 0 <= k < |l.text| && !IsSpace(l.text[k]);
    assert text[l.start + k] == l.text[k];
  }

  lemma {:induction false} LineEnds(text: string, lines: seq<Line>, i: nat, j: nat)
    requires AreLines(text, lines) && i <= j < |lines|
    ensures lines[i].end <= lines[j].end <= |text| && lines[i].start <= lines[j].end
  {
    assert LineAt(text, lines, i) && LineAt(text, lines, j);
    LaterLinesStartLater(text, lines, i, j);
  }

  // ---------------------------------------------------------------- structures

  /** A line that starts no structure of its own and so continues a paragraph. */
  predicate Plain(cls: Classifiers, s: string) {
    !Blank(s) && cls.heading(s).None? && cls.fence(s).None? && !cls.listItem(s) && !Quoted(s)
  }

  predicate TableStarts(cls: Classifiers, lines: seq<Line>, i: nat)
    requires i < |lines|
  {
    HasBar(lines[i].text) && i + 1 < |lines| && cls.tableSep(lines[i + 1].text)
  }

  /** What begins at visible line i when no table or list is being continued, in the order in
      which the scanner tries. */
  ghost function KindAt(cls: Classifiers, lines: seq<Line>, i: nat): Kind
    requires i < |lines|
  {
    var s := lines[i].text;
    if cls.heading(s).Some? then Heading
    else if cls.fence(s).Some? then Code
    else if TableStarts(cls, lines, i) then TableHeader
    else if Quoted(s) then Blockquote
    else if cls.listItem(s) then ListItem
    else Paragraph
  }

  /** Line j is the last one of the structure of this kind that begins at line i. */
  ghost predicate EndsAt(cls: Classifiers, lines: seq<Line>, kind: Kind, i: nat, j: nat) {
    i <= j < |lines| && match kind
      case Heading => j == i
      case Code =>
        cls.fence(lines[i].text).Some? &&
        var marker := cls.fence(lines[i].text).value;
        && (forall x | i < x < j :: !Contains(lines[x].text, marker))
        && (j == |lines| - 1 || (i < j && Contains(lines[j].text, marker)))
      case TableHeader => j == i + 1
      case TableRow => j == i
      case Blockquote =>
        && (forall x | i <= x <= j :: Quoted(lines[x].text))
        && (j + 1 < |lines| ==> !Quoted(lines[j + 1].text))
      case ListItem =>
        && (forall x | i < x <= j :: !Blank(lines[x].text) && !cls.listItem(lines[x].text))
        && (j + 1 < |lines| ==> Blank(lines[j + 1].text) || cls.listItem(lines[j + 1].text))
      case Paragraph =>
        && (forall x | i <= x <= j :: Plain(cls, lines[x].text))
        && (j + 1 < |lines| ==> !Plain(cls, lines[j + 1].text))
      case _ => false
  }

  lemma {:induction false} EndIsUnique(cls: Classifiers, lines: seq<Line>, kind: Kind, i: nat, j: nat, j': nat)
    requires EndsAt(cls, lines, kind, i, j) && EndsAt(cls, lines, kind, i, j')
    ensures j == j'
  {
    hide Blank, Plain, Quoted, Contains;
  }

  /** A block of the text: lines first .. last, what they are, the context they carry, and the
      chunks they became. */
  datatype Block = Block(kind: Kind, first: nat, last: nat, context: seq<Span>, chunks: seq<Chunk>)

  /** The line after the last block. */
  ghost function After(blocks: seq<Block>): nat { if blocks == [] then 0 else blocks[|blocks| - 1].last + 1 }

  ghost predicate BlankLines(lines: seq<Line>, a: nat, b: nat) {
    forall x | a <= x < b && x < |lines| :: Blank(lines[x].text)
  }

  ghost predicate InTable(blocks: seq<Block>) {
    blocks != [] && (blocks[|blocks| - 1].kind == TableHeader || blocks[|blocks| - 1].kind == TableRow)
  }

  ghost predicate InList(blocks: seq<Block>) { blocks != [] && blocks[|blocks| - 1].kind == ListItem }

  /** The header line of the table that the last block belongs to. */
  ghost function TableContext(lines: seq<Line>, blocks: seq<Block>): seq<Span> {
    if blocks == [] then [] else
      var b := blocks[|blocks| - 1];
      if b.kind == TableHeader && b.first < |lines| then [(lines[b.first].start, lines[b.first].end)] else b.context
  }

  /** Line i continues the table of the last block, or its list. */
  ghost predicate ContinuesTable(lines: seq<Line>, blocks: seq<Block>, i: nat)
    requires i < |lines|
  {
    InTable(blocks) && i == After(blocks) && HasBar(lines[i].text)
  }

  ghost predicate ContinuesList(cls: Classifiers, lines: seq<Line>, blocks: seq<Block>, i: nat)
    requires i < |lines|
  {
    InList(blocks) && i == After(blocks) && cls.listItem(lines[i].text)
  }

  /** `b` is the next structure after `blocks`: the only one the scanner could find there. */
  ghost predicate ComesNext(cls: Classifiers, lines: seq<Line>, blocks: seq<Block>, b: Block) {
    && After(blocks) <= b.first < |lines| && BlankLines(lines, After(blocks), b.first) && !Blank(lines[b.first].text)
    && b.kind == (if ContinuesTable(lines, blocks, b.first) then TableRow
                  else if ContinuesList(cls, lines, blocks, b.first) then ListItem
                  else KindAt(cls, lines, b.first))
    && b.context == (if ContinuesTable(lines, blocks, b.first) then TableContext(lines, blocks) else [])
    && EndsAt(cls, lines, b.kind, b.first, b.last)
  }

  /** The headings of the text: exactly the heading blocks, in order. */
  ghost function Heads(cls: Classifiers, lines: seq<Line>, blocks: seq<Block>): seq<Head> {
    if blocks == [] then [] else
      var (before, b) := (Heads(cls, lines, blocks[..|blocks| - 1]), blocks[|blocks| - 1]);
      before + (if b.kind == Heading && b.first < |lines| && cls.heading(lines[b.first].text).Some?
                then [HeadAt(cls, lines, b.first)] else [])
  }

  ghost function HeadAt(cls: Classifiers, lines: seq<Line>, i: nat): Head
    requires i < |lines| && cls.heading(lines[i].text).Some?
  {
    var (level, title) := cls.heading(lines[i].text).value;
    Head(level, title, lines[i].start, lines[i].end)
  }

  /** The block's lines, from the first visible one, covered by its chunks: one if they fit the
      cap, otherwise their paragraphs and sentences; each with the block's kind and context and the
      breadcrumb `stack`. */
  ghost predicate Emitted(text: string, lines: seq<Line>, b: Block, stack: seq<Head>, cap: int) {
    && b.first <= b.last < |lines| && lines[b.first].start <= lines[b.last].end <= |text|
    && Piece(text, b.chunks, lines[b.first].start, lines[b.last].end, cap)
    && (CountTokens(text[lines[b.first].start..lines[b.last].end]) <= cap ==>
          Spans(b.chunks) == [(lines[b.first].start, lines[b.last].end)])
    && (CountTokens(text[lines[b.first].start..lines[b.last].end]) > cap ==>
          SplitUp(text, lines[b.first].start, lines[b.last].end, b.chunks, cap))
    && Tagged(b.chunks, b.kind, b.context, stack)
  }

  ghost predicate BlockOk(text: string, cls: Classifiers, lines: seq<Line>, blocks: seq<Block>, b: Block, cap: int) {
    ComesNext(cls, lines, blocks, b) && Emitted(text, lines, b, Enclosing(Heads(cls, lines, blocks + [b])), cap)
  }

  /** Every block is the next structure after the earlier ones, and carries the breadcrumb of the
      headings up to and including itself. */
  ghost predicate Segmented(text: string, cls: Classifiers, lines: seq<Line>, blocks: seq<Block>, cap: int) {
    forall k | 0 <= k < |blocks| :: BlockOk(text, cls, lines, blocks[..k], blocks[k], cap)
  }

  ghost function ChunksOf(blocks: seq<Block>): seq<Chunk> {
    if blocks == [] then [] else ChunksOf(blocks[..|blocks| - 1]) + blocks[|blocks| - 1].chunks
  }

  /** Everything before line i is chunked as promised. */
  ghost predicate Scanned(text: string, cls: Classifiers, lines: seq<Line>, i: nat, chunks: seq<Chunk>,
      blocks: seq<Block>, cap: int) {
    && Piece(text, chunks, 0, Pos(text, lines, i), cap)
    && (i < |lines| ==> EndBefore(Spans(chunks), Pos(text, lines, i)))
    && Segmented(text, cls, lines, blocks, cap) && chunks == ChunksOf(blocks)
    && After(blocks) <= i && BlankLines(lines, After(blocks), i)
  }

  lemma {:induction false} StartScan(text: string, cls: Classifiers, lines: seq<Line>, cap: int)
    requires AreLines(text, lines)
    ensures Scanned(text, cls, lines, 0, [], [], cap)
  {
    assert Spans([]) == [];
  }

  lemma {:induction false} BlankSkipped(text: string, cls: Classifiers, lines: seq<Line>, i: nat, chunks: seq<Chunk>,
      blocks: seq<Block>, cap: int)
    requires AreLines(text, lines) && i < |lines| && Blank(lines[i].text)
    requires Scanned(text, cls, lines, i, chunks, blocks, cap)
    ensures Scanned(text, cls, lines, i + 1, chunks, blocks, cap)
  {
    hide Words, Counted, Segmented, Blank;
    BlankLineIsWhite(text, lines, i);
    CoversThroughWhite(text, Spans(chunks), 0, Pos(text, lines, i), Pos(text, lines, i + 1));
    LaterLinesStartLater(text, lines, i, i + 1);
    LineBreakIsWhite(text, lines, i);
    assert LineAt(text, lines, i);
  }

  /** The geometry of appending a block. */
  lemma {:induction false} PiecesGrow(text: string, lines: seq<Line>, i: nat, j: nat, chunks: seq<Chunk>,
      more: seq<Chunk>, cap: int)
    requires AreLines(text, lines) && i <= j < |lines|
    requires Piece(text, chunks, 0, Pos(text, lines, i), cap) && EndBefore(Spans(chunks), Pos(text, lines, i))
    requires Piece(text, more, lines[i].start, lines[j].end, cap)
    ensures Piece(text, chunks + more, 0, Pos(text, lines, j + 1), cap)
    ensures j + 1 < |lines| ==> EndBefore(Spans(chunks + more), Pos(text, lines, j + 1))
  {
    hide Words, Counted;
    PieceConcat(text, chunks, more, 0, Pos(text, lines, i), lines[j].end, cap);
    LineBreakIsWhite(text, lines, j);
    CoversThroughWhite(text, Spans(chunks + more), 0, lines[j].end, Pos(text, lines, j + 1));
  }

  lemma {:induction false} SegmentedGrows(text: string, cls: Classifiers, lines: seq<Line>, blocks: seq<Block>,
      b: Block, cap: int)
    requires Segmented(text, cls, lines, blocks, cap) && BlockOk(text, cls, lines, blocks, b, cap)
    ensures Segmented(text, cls, lines, blocks + [b], cap)
    ensures ChunksOf(blocks + [b]) == ChunksOf(blocks) + b.chunks && After(blocks + [b]) == b.last + 1
  {
    hide BlockOk;
    var all := blocks + [b];
    assert all[..|blocks|] == blocks;
    forall k | 0 <= k < |all| ensures BlockOk(text, cls, lines, all[..k], all[k], cap) {
      if k < |blocks| { assert all[..k] == blocks[..k]; }
    }
  }

  lemma {:induction false} BlockScanned(text: string, cls: Classifiers, lines: seq<Line>, i: nat, chunks: seq<Chunk>,
      blocks: seq<Block>, b: Block, cap: int)
    requires AreLines(text, lines) && i == b.first <= b.last < |lines|
    requires Scanned(text, cls, lines, i, chunks, blocks, cap)
    requires BlockOk(text, cls, lines, blocks, b, cap) && Piece(text, b.chunks, lines[i].start, lines[b.last].end, cap)
    ensures Scanned(text, cls, lines, b.last + 1, chunks + b.chunks, blocks + [b], cap)
  {
    SegmentedGrows(text, cls, lines, blocks, b, cap);
    hide Piece, EndBefore, Segmented, BlockOk, ChunksOf, AreLines;
    PiecesGrow(text, lines, i, b.last, chunks, b.chunks, cap);
  }

  // -------------------------------------------------------------------- emitting

  /** The breadcrumb while block `kind` at line i is being emitted. */
  ghost predicate Breadcrumb(cls: Classifiers, lines: seq<Line>, blocks: seq<Block>, kind: Kind, i: nat,
      stack: seq<Head>)
  {
    stack == Enclosing(Heads(cls, lines, blocks + [Block(kind, i, i, [], [])]))
  }

  lemma {:induction false} HeadsOfLast(cls: Classifiers, lines: seq<Line>, blocks: seq<Block>, b: Block)
    ensures Heads(cls, lines, blocks + [b]) == Heads(cls, lines, blocks)
      + (if b.kind == Heading && b.first < |lines| && cls.heading(lines[b.first].text).Some?
         then [HeadAt(cls, lines, b.first)] else [])
  {
    assert (blocks + [b])[..|blocks|] == blocks;
  }

  /** emit_block over the lines i .. j, the next structure; appends to the chunks so far. */
  method EmitLines(text: string, cls: Classifiers, lines: seq<Line>, i: nat, j: nat, kind: Kind, context: seq<Span>,
      stack: seq<Head>, soFar: seq<Chunk>, ghost blocks: seq<Block>, cap: int)
      returns (r: Chunked, ghost next: Block)
    requires AreLines(text, lines) && i <= j < |lines| && Scanned(text, cls, lines, i, soFar, blocks, cap)
    requires ComesNext(cls, lines, blocks, Block(kind, i, j, context, []))
    requires Breadcrumb(cls, lines, blocks, kind, i, stack)
    ensures r.Chunks? ==>
      && next.(chunks := []) == Block(kind, i, j, context, [])
      && Scanned(text, cls, lines, j + 1, r.chunks, blocks + [next], cap)
    ensures cap >= 1 ==> r.Chunks?
  {
    hide Piece, White, Blank, IsLine, Tagged, Scanned, AreLines, CountTokens, EndsAt;
    next := Block(kind, i, j, context, []);
    LineEnds(text, lines, i, j);
    VisibleLine(text, lines, i, lines[j].end);
    r := EmitBlock(text, lines[i].start, lines[j].end, kind, context, stack, cap);
    if r.Chunks? {
      next := Block(kind, i, j, context, r.chunks);
      HeadsOfLast(cls, lines, blocks, next);
      HeadsOfLast(cls, lines, blocks, Block(kind, i, i, [], []));
      assert ComesNext(cls, lines, blocks, next);
      hide Heads, Enclosing, ComesNext;
      assert BlockOk(text, cls, lines, blocks, next, cap);
      BlockScanned(text, cls, lines, i, soFar, blocks, next, cap);
      r := Chunks(soFar + r.chunks);
    }
  }

  /** A block that is no heading leaves the breadcrumb alone. */
  lemma {:induction false} SameBreadcrumb(cls: Classifiers, lines: seq<Line>, blocks: seq<Block>, b: Block,
      stack: seq<Head>)
    requires b.kind != Heading && stack == Enclosing(Heads(cls, lines, blocks))
    ensures Breadcrumb(cls, lines, blocks, b.kind, b.first, stack)
    ensures stack == Enclosing(Heads(cls, lines, blocks + [b]))
  {
    HeadsOfLast(cls, lines, blocks, b);
    HeadsOfLast(cls, lines, blocks, Block(b.kind, b.first, b.first, [], []));
    assert Heads(cls, lines, blocks) + [] == Heads(cls, lines, blocks);
  }

  /** No table or list can go on at line i. */
  ghost predicate Settled(cls: Classifiers, lines: seq<Line>, blocks: seq<Block>, i: nat) {
    i < |lines| && !Blank(lines[i].text) ==>
      !ContinuesTable(lines, blocks, i) && !ContinuesList(cls, lines, blocks, i)
  }

  /** The scanner between two structures. */
  ghost predicate Between(text: string, cls: Classifiers, lines: seq<Line>, i: nat, chunks: seq<Chunk>,
      blocks: seq<Block>, stack: seq<Head>, cap: int) {
    && Scanned(text, cls, lines, i, chunks, blocks, cap) && i <= |lines|
    && stack == Enclosing(Heads(cls, lines, blocks)) && Settled(cls, lines, blocks, i)
  }

  method TableRowsEnd(lines: seq<Line>, i: nat) returns (j: nat)
    requires i <= |lines|
    ensures i <= j <= |lines| && forall x | i <= x < j :: HasBar(lines[x].text) && !Blank(lines[x].text)
    ensures j < |lines| ==> !HasBar(lines[j].text) || Blank(lines[j].text)
  {
    j := i;
    while j < |lines| && HasBar(lines[j].text) && !Blank(lines[j].text)
      invariant i <= j <= |lines| && forall x | i <= x < j :: HasBar(lines[x].text) && !Blank(lines[x].text)
    {
      j := j + 1;
    }
  }

  method EmitTable(text: string, cls: Classifiers, lines: seq<Line>, i: nat, stack: seq<Head>, soFar: seq<Chunk>,
      ghost blocks: seq<Block>, cap: int)
      returns (r: Chunked, next: nat, ghost all: seq<Block>)
    requires AreLines(text, lines) && i < |lines| && !Blank(lines[i].text)
    requires Between(text, cls, lines, i, soFar, blocks, stack, cap) && KindAt(cls, lines, i) == TableHeader
    ensures r.Chunks? ==> i < next && Between(text, cls, lines, next, r.chunks, all, stack, cap)
    ensures cap >= 1 ==> r.Chunks?
  {
    hide AreLines, Blank, HasBar, Scanned, Heads, Enclosing, Breadcrumb;
    next := TableRowsEnd(lines, i + 2);
    all := blocks;
    ghost var b := Block(TableHeader, i, i + 1, [], []);
    SameBreadcrumb(cls, lines, blocks, b, stack);
    assert ComesNext(cls, lines, blocks, b) by { NextStructure(text, cls, lines, i, soFar, blocks, cap, b); }
    r, b := EmitLines(text, cls, lines, i, i + 1, TableHeader, [], stack, soFar, blocks, cap);
    if r.BadWindow? {
      return;
    }
    SameBreadcrumb(cls, lines, blocks, b, stack);
    all := blocks + [b];
    var chunks := r.chunks;
    var header := [(lines[i].start, lines[i].end)];
    for k := i + 2 to next
      invariant Scanned(text, cls, lines, k, chunks, all, cap) && stack == Enclosing(Heads(cls, lines, all))
      invariant InTable(all) && TableContext(lines, all) == header && After(all) == k
    {
      b := Block(TableRow, k, k, header, []);
      SameBreadcrumb(cls, lines, all, b, stack);
      assert ComesNext(cls, lines, all, b);
      r, b := EmitLines(text, cls, lines, k, k, TableRow, header, stack, chunks, all, cap);
      if r.BadWindow? {
        return;
      }
      SameBreadcrumb(cls, lines, all, b, stack);
      all := all + [b];
      chunks := r.chunks;
    }
    r := Chunks(chunks);
  }

  /** With no table or list to continue, the next structure is the one that begins here. */
  lemma {:induction false} NextStructure(text: string, cls: Classifiers, lines: seq<Line>, i: nat, chunks: seq<Chunk>,
      blocks: seq<Block>, cap: int, b: Block)
    requires Scanned(text, cls, lines, i, chunks, blocks, cap) && Settled(cls, lines, blocks, i)
    requires i < |lines| && !Blank(lines[i].text)
    requires b.first == i && b.kind == KindAt(cls, lines, i) && b.context == [] && EndsAt(cls, lines, b.kind, i, b.last)
    ensures ComesNext(cls, lines, blocks, b)
  {
    hide EndsAt, Blank, KindAt, Segmented, Piece;
  }

  method FenceEnd(lines: seq<Line>, i: nat, marker: string) returns (j: nat)
    requires i < |lines|
    ensures i < j <= |lines|
    ensures (forall x | i < x < j :: !Contains(lines[x].text, marker))
      && (j < |lines| ==> Contains(lines[j].text, marker))
  {
    j := i + 1;
    while j < |lines| && !Contains(lines[j].text, marker)
      invariant i < j <= |lines| && forall x | i < x < j :: !Contains(lines[x].text, marker)
    {
      j := j + 1;
    }
  }

  method QuoteEnd(lines: seq<Line>, i: nat) returns (j: nat)
    requires i < |lines| && Quoted(lines[i].text)
    ensures i < j <= |lines|
    ensures (forall x | i <= x < j :: Quoted(lines[x].text)) && (j < |lines| ==> !Quoted(lines[j].text))
  {
    j := i;
    while j < |lines| && Quoted(lines[j].text)
      invariant i <= j <= |lines| && forall x | i <= x < j :: Quoted(lines[x].text)
    {
      j := j + 1;
    }
  }

  method ItemEnd(lines: seq<Line>, cls: Classifiers, j: nat) returns (k: nat)
    requires j < |lines|
    ensures j < k && EndsAt(cls, lines, ListItem, j, k - 1)
  {
    k := j + 1;
    while k < |lines| && !Blank(lines[k].text) && !cls.listItem(lines[k].text)
      invariant j < k <= |lines| && forall x | j < x < k :: !Blank(lines[x].text) && !cls.listItem(lines[x].text)
    {
      k := k + 1;
    }
  }

  method ParagraphEnd(lines: seq<Line>, cls: Classifiers, i: nat) returns (j: nat)
    requires i < |lines| && Plain(cls, lines[i].text)
    ensures i < j && EndsAt(cls, lines, Paragraph, i, j - 1)
  {
    j := i;
    while j < |lines| && Plain(cls, lines[j].text)
      invariant i <= j <= |lines| && forall x | i <= x < j :: Plain(cls, lines[x].text)
    {
      j := j + 1;
    }
  }

  /** A list-item marker is itself visible. */
  ghost predicate ItemsVisible(cls: Classifiers) {
    forall s :: cls.listItem(s) ==> !Blank(s)
  }

  method EmitList(text: string, cls: Classifiers, lines: seq<Line>, i: nat, stack: seq<Head>, soFar: seq<Chunk>,
      ghost blocks: seq<Block>, cap: int)
      returns (r: Chunked, next: nat, ghost all: seq<Block>)
    requires AreLines(text, lines) && i < |lines| && ItemsVisible(cls)
    requires Between(text, cls, lines, i, soFar, blocks, stack, cap) && KindAt(cls, lines, i) == ListItem
    ensures r.Chunks? ==> i < next && Between(text, cls, lines, next, r.chunks, all, stack, cap)
    ensures cap >= 1 ==> r.Chunks?
  {
    hide AreLines, Blank, Scanned, Heads, Enclosing, Breadcrumb;
    next := ItemEnd(lines, cls, i);
    all := blocks;
    ghost var b := Block(ListItem, i, next - 1, [], []);
    SameBreadcrumb(cls, lines, blocks, b, stack);
    assert ComesNext(cls, lines, blocks, b) by { NextStructure(text, cls, lines, i, soFar, blocks, cap, b); }
    r, b := EmitLines(text, cls, lines, i, next - 1, ListItem, [], stack, soFar, blocks, cap);
    if r.BadWindow? {
      return;
    }
    SameBreadcrumb(cls, lines, blocks, b, stack);
    all := blocks + [b];
    var chunks := r.chunks;
    while next < |lines| && cls.listItem(lines[next].text)
      invariant i < next <= |lines|
      invariant Scanned(text, cls, lines, next, chunks, all, cap) && stack == Enclosing(Heads(cls, lines, all))
      invariant InList(all) && After(all) == next
    {
      var k := ItemEnd(lines, cls, next);
      b := Block(ListItem, next, k - 1, [], []);
      SameBreadcrumb(cls, lines, all, b, stack);
      assert ComesNext(cls, lines, all, b);
      r, b := EmitLines(text, cls, lines, next, k - 1, ListItem, [], stack, chunks, all, cap);
      if r.BadWindow? {
        return;
      }
      SameBreadcrumb(cls, lines, all, b, stack);
      all := all + [b];
      chunks := r.chunks;
      next := k;
    }
    r := Chunks(chunks);
  }

  // --------------------------------------------------------------------- scanner

  /** One non-heading structure starting at visible line i. */
  method EmitStructure(text: string, cls: Classifiers, lines: seq<Line>, i: nat, stack: seq<Head>, soFar: seq<Chunk>,
      ghost blocks: seq<Block>, cap: int)
      returns (r: Chunked, next: nat, ghost all: seq<Block>)
    requires AreLines(text, lines) && ItemsVisible(cls) && i < |lines|
    requires !Blank(lines[i].text) && cls.heading(lines[i].text).None?
    requires Between(text, cls, lines, i, soFar, blocks, stack, cap)
    ensures r.Chunks? ==> i < next && Between(text, cls, lines, next, r.chunks, all, stack, cap)
    ensures cap >= 1 ==> r.Chunks?
  {
    hide AreLines, Blank, Scanned, Heads, Enclosing, Breadcrumb, Contains;
    var line := lines[i].text;
    var kind, last;
    all := blocks;
    if cls.fence(line).Some? {
      next := FenceEnd(lines, i, cls.fence(line).value);
      kind, last := Code, if next < |lines| then next else |lines| - 1;
      next := last + 1;
    } else if TableStarts(cls, lines, i) {
      r, next, all := EmitTable(text, cls, lines, i, stack, soFar, blocks, cap);
      return;
    } else if Quoted(line) {
      next := QuoteEnd(lines, i);
      kind, last := Blockquote, next - 1;
    } else if cls.listItem(line) {
      r, next, all := EmitList(text, cls, lines, i, stack, soFar, blocks, cap);
      return;
    } else {
      next := ParagraphEnd(lines, cls, i);
      kind, last := Paragraph, next - 1;
    }
    ghost var b := Block(kind, i, last, [], []);
    SameBreadcrumb(cls, lines, blocks, b, stack);
    NextStructure(text, cls, lines, i, soFar, blocks, cap, b);
    r, b := EmitLines(text, cls, lines, i, last, kind, [], stack, soFar, blocks, cap);
    SameBreadcrumb(cls, lines, blocks, Block(kind, i, last, [], b.chunks), stack);
    all := blocks + [b];
  }

  /** A heading line: the stack is popped and pushed before its block is emitted. */
  lemma {:induction false} HeadingPushes(cls: Classifiers, lines: seq<Line>, blocks: seq<Block>, i: nat, last: nat,
      context: seq<Span>, chunks: seq<Chunk>)
    requires i < |lines| && cls.heading(lines[i].text).Some?
    ensures var h := HeadAt(cls, lines, i);
      Enclosing(Heads(cls, lines, blocks + [Block(Heading, i, last, context, chunks)]))
        == PopTo(Enclosing(Heads(cls, lines, blocks)), h.level) + [h]
  {
    HeadsOfLast(cls, lines, blocks, Block(Heading, i, last, context, chunks));
    hide Heads, Enclosing, PopTo;
    PushRefines(Heads(cls, lines, blocks), HeadAt(cls, lines, i));
  }

  /** markdown_structure_v1. `blocks` are the structures it met, in order. */
  method MarkdownStructure(text: string, cls: Classifiers, cap: int)
      returns (r: Chunked, lines: seq<Line>, ghost blocks: seq<Block>)
    requires ItemsVisible(cls)
    ensures AreLines(text, lines)
    ensures r.Chunks? ==> Partition(text, r.chunks, cap)
    ensures r.Chunks? ==>
      && Segmented(text, cls, lines, blocks, cap) && r.chunks == ChunksOf(blocks)
      && BlankLines(lines, After(blocks), |lines|)
    ensures cap >= 1 ==> r.Chunks?
  {
    hide AreLines, Blank, Scanned, Enclosing, PopTo, Pos, Partition, Heads, Breadcrumb, Segmented, ChunksOf;
    lines := IterLines(text);
    blocks := [];
    var chunks: seq<Chunk> := [];
    var stack: seq<Head> := [];
    var i := 0;
    StartScan(text, cls, lines, cap);
    assert stack == Enclosing(Heads(cls, lines, blocks)) by { NothingOpen(cls, lines); }
    while i < |lines|
      invariant Between(text, cls, lines, i, chunks, blocks, stack, cap)
      decreases |lines| - i
    {
      var line := lines[i].text;
      if Blank(line) {
        BlankSkipped(text, cls, lines, i, chunks, blocks, cap);
        AfterScanned(text, cls, lines, i, chunks, blocks, cap);
        i := i + 1;
        continue;
      }
      var heading := cls.heading(line);
      if heading.Some? {
        var h := Head(heading.value.0, heading.value.1, lines[i].start, lines[i].end);
        stack := PopTo(stack, h.level) + [h];
        HeadingPushes(cls, lines, blocks, i, i, [], []);
        assert Breadcrumb(cls, lines, blocks, Heading, i, stack) by {
          BreadcrumbIs(cls, lines, blocks, Heading, i, stack);
        }
        ghost var b := Block(Heading, i, i, [], []);
        NextStructure(text, cls, lines, i, chunks, blocks, cap, b);
        r, b := EmitLines(text, cls, lines, i, i, Heading, [], stack, chunks, blocks, cap);
        if r.BadWindow? {
          return;
        }
        HeadingPushes(cls, lines, blocks, i, i, [], b.chunks);
        chunks := r.chunks;
        blocks := blocks + [b];
        i := i + 1;
        continue;
      }
      r, i, blocks := EmitStructure(text, cls, lines, i, stack, chunks, blocks, cap);
      if r.BadWindow? {
        return;
      }
      chunks := r.chunks;
    }
    r := Chunks(chunks);
    ScanFinished(text, cls, lines, i, chunks, blocks, cap);
  }

  lemma {:induction false} BreadcrumbIs(cls: Classifiers, lines: seq<Line>, blocks: seq<Block>, kind: Kind, i: nat,
      stack: seq<Head>)
    requires stack == Enclosing(Heads(cls, lines, blocks + [Block(kind, i, i, [], [])]))
    ensures Breadcrumb(cls, lines, blocks, kind, i, stack)
  {}

  lemma {:induction false} NothingOpen(cls: Classifiers, lines: seq<Line>)
    ensures Enclosing(Heads(cls, lines, [])) == []
  {}

  lemma {:induction false} AfterScanned(text: string, cls: Classifiers, lines: seq<Line>, i: nat, chunks: seq<Chunk>,
      blocks: seq<Block>, cap: int)
    requires Scanned(text, cls, lines, i, chunks, blocks, cap)
    ensures After(blocks) <= i
  {}

  lemma {:induction false} ScanFinished(text: string, cls: Classifiers, lines: seq<Line>, i: nat, chunks: seq<Chunk>,
      blocks: seq<Block>, cap: int)
    requires i >= |lines| && Scanned(text, cls, lines, i, chunks, blocks, cap)
    ensures Partition(text, chunks, cap) && Segmented(text, cls, lines, blocks, cap) && chunks == ChunksOf(blocks)
      && BlankLines(lines, After(blocks), |lines|)
  {}

  // ------------------------------------------------- what a segmentation says

  /** The same structures, whatever chunks they became. */
  ghost predicate SameShape(a: seq<Block>, b: seq<Block>) {
    |a| == |b| && forall k | 0 <= k < |a| :: a[k].(chunks := []) == b[k].(chunks := [])
  }

  lemma {:induction false} SameNext(cls: Classifiers, lines: seq<Line>, before: seq<Block>, before': seq<Block>,
      b: Block, b': Block)
    requires SameShape(before, before') && ComesNext(cls, lines, before, b) && ComesNext(cls, lines, before', b')
    ensures b.(chunks := []) == b'.(chunks := [])
  {
    hide Blank, EndsAt, KindAt, HasBar;
    assert b.first == b'.first;
    EndIsUnique(cls, lines, b.kind, b.first, b.last, b'.last);
  }

  lemma {:induction false} BlockAt(text: string, cls: Classifiers, lines: seq<Line>, blocks: seq<Block>, cap: int,
      k: nat)
    requires Segmented(text, cls, lines, blocks, cap) && k < |blocks|
    ensures ComesNext(cls, lines, blocks[..k], blocks[k])
    ensures Emitted(text, lines, blocks[k], Enclosing(Heads(cls, lines, blocks[..k + 1])), cap)
  {
    hide ComesNext, Emitted, Enclosing, Heads;
    assert BlockOk(text, cls, lines, blocks[..k], blocks[k], cap);
    assert blocks[..k] + [blocks[k]] == blocks[..k + 1];
  }

  lemma {:induction false} SamePrefix(text: string, cls: Classifiers, lines: seq<Line>, a: seq<Block>, b: seq<Block>,
      cap: int, n: nat)
    requires Segmented(text, cls, lines, a, cap) && Segmented(text, cls, lines, b, cap) && n <= |a| && n <= |b|
    ensures SameShape(a[..n], b[..n])
  {
    hide Segmented, ComesNext, Emitted, Enclosing, Heads;
    if n > 0 {
      SamePrefix(text, cls, lines, a, b, cap, n - 1);
      BlockAt(text, cls, lines, a, cap, n - 1);
      BlockAt(text, cls, lines, b, cap, n - 1);
      SameNext(cls, lines, a[..n - 1], b[..n - 1], a[n - 1], b[n - 1]);
      assert a[..n] == a[..n - 1] + [a[n - 1]] && b[..n] == b[..n - 1] + [b[n - 1]];
    }
  }

  /** A longer segmentation shows that a shorter one stopped before a visible line. */
  lemma {:induction false} ShorterStopsEarly(text: string, cls: Classifiers, lines: seq<Line>, a: seq<Block>,
      b: seq<Block>, cap: int)
    requires Segmented(text, cls, lines, a, cap) && Segmented(text, cls, lines, b, cap) && |a| < |b|
    ensures !BlankLines(lines, After(a), |lines|)
  {
    hide Segmented, Emitted, Enclosing, Heads, EndsAt, KindAt, Blank;
    SamePrefix(text, cls, lines, a, b, cap, |a|);
    BlockAt(text, cls, lines, b, cap, |a|);
    assert a[..|a|] == a;
    assert After(a) == After(b[..|a|]);
    assert !Blank(lines[b[|a|].first].text);
  }

  /** A text has one segmentation: its structures, their extents, contexts and breadcrumbs are
      determined by the lines alone, whatever the cap. */
  lemma {:induction false} SegmentationIsUnique(text: string, cls: Classifiers, lines: seq<Line>, a: seq<Block>,
      b: seq<Block>, cap: int)
    requires Segmented(text, cls, lines, a, cap) && BlankLines(lines, After(a), |lines|)
    requires Segmented(text, cls, lines, b, cap) && BlankLines(lines, After(b), |lines|)
    ensures SameShape(a, b) && Heads(cls, lines, a) == Heads(cls, lines, b)
  {
    hide Segmented, BlankLines;
    if |a| < |b| { ShorterStopsEarly(text, cls, lines, a, b, cap); }
    if |b| < |a| { ShorterStopsEarly(text, cls, lines, b, a, cap); }
    SamePrefix(text, cls, lines, a, b, cap, |a|);
    assert a[..|a|] == a && b[..|b|] == b;
    SameHeads(cls, lines, a, b);
  }

  lemma {:induction false} SameHeads(cls: Classifiers, lines: seq<Line>, a: seq<Block>, b: seq<Block>)
    requires SameShape(a, b)
    ensures Heads(cls, lines, a) == Heads(cls, lines, b)
  {
    if a != [] {
      SameHeads(cls, lines, a[..|a| - 1], b[..|b| - 1]);
      assert a[|a| - 1].(chunks := []) == b[|b| - 1].(chunks := []);
    }
  }

  /** The table of a row: its header block h, with only rows, line after line, up to the row. */
  lemma {:induction false} RowNamesItsHeader(text: string, cls: Classifiers, lines: seq<Line>, blocks: seq<Block>,
      cap: int, k: nat) returns (h: nat)
    requires Segmented(text, cls, lines, blocks, cap) && k < |blocks| && blocks[k].kind == TableRow
    ensures h < k && blocks[h].kind == TableHeader && blocks[h].first < |lines|
    ensures forall m | h < m <= k :: blocks[m].kind == TableRow && blocks[m].first == blocks[m - 1].last + 1
    ensures forall c | c in blocks[k].chunks ::
      c.kind == TableRow && c.contextRanges == [(lines[blocks[h].first].start, lines[blocks[h].first].end)]
  {
    h := HeaderBefore(text, cls, lines, blocks, cap, k);
    hide ComesNext, Segmented, Enclosing, Heads;
    BlockAt(text, cls, lines, blocks, cap, k);
  }

  lemma {:induction false} HeaderBefore(text: string, cls: Classifiers, lines: seq<Line>, blocks: seq<Block>,
      cap: int, k: nat) returns (h: nat)
    requires Segmented(text, cls, lines, blocks, cap) && k < |blocks| && blocks[k].kind == TableRow
    ensures h < k && blocks[h].kind == TableHeader && blocks[h].first < |lines|
    ensures forall m | h < m <= k :: blocks[m].kind == TableRow && blocks[m].first == blocks[m - 1].last + 1
    ensures blocks[k].context == [(lines[blocks[h].first].start, lines[blocks[h].first].end)]
  {
    hide Emitted, Blank, Segmented, Enclosing, Heads, BlankLines;
    BlockAt(text, cls, lines, blocks, cap, k);
    RowFollowsTable(cls, lines, blocks[..k], blocks[k]);
    hide ComesNext;
    assert blocks[..k][k - 1] == blocks[k - 1];
    if blocks[k - 1].kind == TableHeader {
      h := k - 1;
      BlockAt(text, cls, lines, blocks, cap, k - 1);
      StartsInside(cls, lines, blocks[..k - 1], blocks[k - 1]);
    } else {
      h := HeaderBefore(text, cls, lines, blocks, cap, k - 1);
    }
  }

  lemma {:induction false} StartsInside(cls: Classifiers, lines: seq<Line>, before: seq<Block>, b: Block)
    requires ComesNext(cls, lines, before, b)
    ensures b.first < |lines|
  {}

  lemma {:induction false} RowFollowsTable(cls: Classifiers, lines: seq<Line>, before: seq<Block>, row: Block)
    requires ComesNext(cls, lines, before, row) && row.kind == TableRow
    ensures InTable(before) && row.first == before[|before| - 1].last + 1 && row.context == TableContext(lines, before)
  {
    hide EndsAt, Blank;
  }

  /** The headings that begin at or before position p. */
  ghost function HeadsUpTo(heads: seq<Head>, p: nat): seq<Head> {
    if heads == [] || heads[|heads| - 1].start <= p then heads else HeadsUpTo(heads[..|heads| - 1], p)
  }

  lemma {:induction false} BlocksAscend(text: string, cls: Classifiers, lines: seq<Line>, blocks: seq<Block>,
      cap: int, k: nat, m: nat)
    requires Segmented(text, cls, lines, blocks, cap) && k < m < |blocks|
    ensures blocks[k].first <= blocks[k].last < blocks[m].first < |lines|
    decreases m
  {
    hide Segmented, Enclosing, Heads, Tagged, Piece, CountTokens, EndsAt, KindAt, Blank, BlankLines;
    BlockAt(text, cls, lines, blocks, cap, m);
    BlockAt(text, cls, lines, blocks, cap, m - 1);
    assert blocks[..m][m - 1] == blocks[m - 1];
    if k < m - 1 {
      BlocksAscend(text, cls, lines, blocks, cap, k, m - 1);
    }
  }

  /** Where the chunks of block k lie relative to the heading of block m. */
  lemma {:induction false} ChunkAgainstHead(text: string, cls: Classifiers, lines: seq<Line>, blocks: seq<Block>,
      cap: int, k: nat, c: Chunk, m: nat)
    requires AreLines(text, lines) && Segmented(text, cls, lines, blocks, cap) && k < |blocks| && m < |blocks|
    requires c in blocks[k].chunks
    ensures blocks[m].first < |lines| && (lines[blocks[m].first].start <= c.start <==> m <= k)
  {
    hide Segmented, Enclosing, Heads, Tagged, Piece, CountTokens, ComesNext, AreLines;
    BlockAt(text, cls, lines, blocks, cap, k);
    BlockAt(text, cls, lines, blocks, cap, m);
    var b := blocks[k];
    PieceBounds(text, b.chunks, lines[b.first].start, lines[b.last].end, cap);
    var i :| 0 <= i < |b.chunks| && b.chunks[i] == c;
    if k < m {
      BlocksAscend(text, cls, lines, blocks, cap, k, m);
      LineBreakIsWhite(text, lines, b.last);
      LaterLinesStartLater(text, lines, b.last + 1, blocks[m].first);
    } else if m < k {
      BlocksAscend(text, cls, lines, blocks, cap, m, k);
      LaterLinesStartLater(text, lines, blocks[m].first, b.first);
    }
  }

  lemma {:induction false} HeadsByPlace(text: string, cls: Classifiers, lines: seq<Line>, blocks: seq<Block>,
      cap: int, k: nat, c: Chunk, n: nat)
    requires AreLines(text, lines) && Segmented(text, cls, lines, blocks, cap) && k < |blocks| && n <= |blocks|
    requires c in blocks[k].chunks
    ensures HeadsUpTo(Heads(cls, lines, blocks[..n]), c.start)
      == Heads(cls, lines, blocks[..if n <= k + 1 then n else k + 1])
  {
    hide Segmented, AreLines, Heads, HeadsUpTo;
    if n > 0 {
      HeadsByPlace(text, cls, lines, blocks, cap, k, c, n - 1);
      ChunkAgainstHead(text, cls, lines, blocks, cap, k, c, n - 1);
      AnotherBlock(cls, lines, blocks, n, c.start);
      var (x, y) := (if n - 1 <= k + 1 then n - 1 else k + 1, if n <= k + 1 then n else k + 1);
      assert n - 1 <= k ==> x == n - 1 && y == n;
      assert n - 1 > k ==> x == y;
    } else {
      assert Heads(cls, lines, blocks[..0]) == [] by { NoHeads(cls, lines, blocks[..0]); }
      assert blocks[..0] == blocks[..if n <= k + 1 then n else k + 1];
      assert HeadsUpTo([], c.start) == [] by { NoneUpTo(c.start); }
    }
  }

  lemma {:induction false} NoHeads(cls: Classifiers, lines: seq<Line>, blocks: seq<Block>)
    requires blocks == []
    ensures Heads(cls, lines, blocks) == []
  {}

  lemma {:induction false} NoneUpTo(p: nat)
    ensures HeadsUpTo([], p) == []
  {}

  /** One more block adds at most its own heading. */
  lemma {:induction false} AnotherBlock(cls: Classifiers, lines: seq<Line>, blocks: seq<Block>, n: nat, p: nat)
    requires 1 <= n <= |blocks| && blocks[n - 1].first < |lines|
    ensures var (before, heads) := (Heads(cls, lines, blocks[..n - 1]), Heads(cls, lines, blocks[..n]));
      if lines[blocks[n - 1].first].start <= p then HeadsUpTo(heads, p) == heads || heads == before
      else HeadsUpTo(heads, p) == HeadsUpTo(before, p)
  {
    hide Heads, HeadsUpTo;
    assert blocks[..n] == blocks[..n - 1] + [blocks[n - 1]];
    HeadsOfLast(cls, lines, blocks[..n - 1], blocks[n - 1]);
    HeadAppended(Heads(cls, lines, blocks[..n - 1]), Heads(cls, lines, blocks[..n]), p);
  }

  /** One more heading counts exactly when it begins at or before the position. */
  lemma {:induction false} HeadAppended(before: seq<Head>, heads: seq<Head>, p: nat)
    requires before <= heads && |heads| <= |before| + 1
    ensures heads == before ==> HeadsUpTo(heads, p) == HeadsUpTo(before, p)
    ensures heads != before ==>
      HeadsUpTo(heads, p) == if heads[|before|].start <= p then heads else HeadsUpTo(before, p)
  {
    if heads != before {
      assert heads[..|heads| - 1] == before;
    }
  }

  /** The breadcrumb of a chunk by position: the open headings among those that begin at or before
      it. */
  lemma {:induction false} BreadcrumbByPosition(text: string, cls: Classifiers, lines: seq<Line>, blocks: seq<Block>,
      cap: int, k: nat, c: Chunk)
    requires AreLines(text, lines) && Segmented(text, cls, lines, blocks, cap) && k < |blocks|
    requires c in blocks[k].chunks
    ensures var open := Enclosing(HeadsUpTo(Heads(cls, lines, blocks), c.start));
      && |c.headingPath| == |c.headingRanges| == |open| && c.kind == blocks[k].kind
      && forall x | 0 <= x < |open| ::
           c.headingPath[x] == open[x].title && c.headingRanges[x] == (open[x].start, open[x].end)
  {
    hide Segmented, AreLines, Enclosing, Heads, ComesNext;
    assert blocks[..|blocks|] == blocks;
    HeadsByPlace(text, cls, lines, blocks, cap, k, c, |blocks|);
    BlockAt(text, cls, lines, blocks, cap, k);
    var i :| 0 <= i < |blocks[k].chunks| && blocks[k].chunks[i] == c;
  }

  // ---------------------------------------------------- what the blocks look like

  ghost predicate Visible(s: string) { exists k :: 0 <= k < |s| && !IsSpace(s[k]) }

  ghost predicate QuoteLine(s: string) {
    exists k :: 0 <= k < |s| && s[k] == '>' && White(s, 0, k)
  }

  ghost predicate Barred(s: string) { exists k :: 0 <= k < |s| && s[k] == '|' }

  ghost predicate Within(marker: string, s: string) {
    exists k: nat :: k <= |s| && marker <= s[k..]
  }

  lemma {:induction false} ContainsIs(s: string, marker: string)
    ensures Contains(s, marker) <==> Within(marker, s)
  {
    assert s[0..] == s;
    if s != [] {
      ContainsIs(s[1..], marker);
      forall k: nat | k < |s| ensures s[1..][k..] == s[k + 1..] {}
      if k: nat :| k <= |s[1..]| && marker <= s[1..][k..] {
        assert marker <= s[k + 1..];
      }
      if k: nat :| k <= |s| && marker <= s[k..] {
        assert k > 0 ==> s[1..][k - 1..] == s[k..];
      }
    }
  }

  lemma {:induction false} LineReadings(s: string)
    ensures Blank(s) <==> !Visible(s)
    ensures Quoted(s) <==> QuoteLine(s)
    ensures HasBar(s) <==> Barred(s)
  {
    var k := SkipSpaces(s, 0);
    if j :| 0 <= j < |s| && s[j] == '>' && White(s, 0, j) {
      assert j >= k;
      assert !IsSpace('>');
    }
  }

  /** A line that can only continue a paragraph. */
  ghost predicate Ordinary(cls: Classifiers, s: string) {
    Visible(s) && cls.heading(s).None? && cls.fence(s).None? && !cls.listItem(s) && !QuoteLine(s)
  }

  ghost predicate BeginsTable(cls: Classifiers, lines: seq<Line>, i: nat) {
    i + 1 < |lines| && Barred(lines[i].text) && cls.tableSep(lines[i + 1].text)
  }

  /** What the lines of a block of each kind are, and why the block ends where it does. */
  ghost predicate Reads(cls: Classifiers, lines: seq<Line>, kind: Kind, i: nat, j: nat) {
    i <= j < |lines| && Visible(lines[i].text) && var s := lines[i].text; match kind
      case Heading => cls.heading(s).Some? && j == i
      case Code =>
        && cls.heading(s).None? && cls.fence(s).Some?
        && (forall x | i < x < j :: !Within(cls.fence(s).value, lines[x].text))
        && (j == |lines| - 1 || (i < j && Within(cls.fence(s).value, lines[j].text)))
      case TableHeader => cls.heading(s).None? && cls.fence(s).None? && BeginsTable(cls, lines, i) && j == i + 1
      case TableRow => Barred(s) && j == i
      case Blockquote =>
        && cls.heading(s).None? && cls.fence(s).None? && !BeginsTable(cls, lines, i)
        && (forall x | i <= x <= j :: QuoteLine(lines[x].text))
        && (j + 1 < |lines| ==> !QuoteLine(lines[j + 1].text))
      case ListItem =>
        && cls.listItem(s) && (forall x | i < x <= j :: Visible(lines[x].text) && !cls.listItem(lines[x].text))
        && (j + 1 < |lines| ==> !Visible(lines[j + 1].text) || cls.listItem(lines[j + 1].text))
      case Paragraph =>
        && !BeginsTable(cls, lines, i) && (forall x | i <= x <= j :: Ordinary(cls, lines[x].text))
        && (j + 1 < |lines| ==> !Ordinary(cls, lines[j + 1].text))
      case _ => false
  }

  /** Every block is made of whole lines of its kind and ends where the kind ends. */
  lemma {:induction false} BlockReads(text: string, cls: Classifiers, lines: seq<Line>, blocks: seq<Block>, cap: int,
      k: nat)
    requires Segmented(text, cls, lines, blocks, cap) && k < |blocks|
    ensures Reads(cls, lines, blocks[k].kind, blocks[k].first, blocks[k].last)
  {
    assert BlockOk(text, cls, lines, blocks[..k], blocks[k], cap);
    NextReads(cls, lines, blocks[..k], blocks[k]);
  }

  lemma {:induction false} NextReads(cls: Classifiers, lines: seq<Line>, blocks: seq<Block>, b: Block)
    requires ComesNext(cls, lines, blocks, b)
    ensures Reads(cls, lines, b.kind, b.first, b.last)
  {
    forall x | 0 <= x < |lines|
      ensures Blank(lines[x].text) <==> !Visible(lines[x].text)
      ensures Quoted(lines[x].text) <==> QuoteLine(lines[x].text)
      ensures HasBar(lines[x].text) <==> Barred(lines[x].text)
    {
      LineReadings(lines[x].text);
    }
    forall x, m: string | 0 <= x < |lines| ensures Contains(lines[x].text, m) <==> Within(m, lines[x].text) {
      ContainsIs(lines[x].text, m);
    }
    hide Blank, Visible, Quoted, QuoteLine, HasBar, Barred, Contains, Within;
  }

  /** A table, or a list, goes on as long as its next line does. */
  lemma {:induction false} NoRowLeftOut(text: string, cls: Classifiers, lines: seq<Line>, blocks: seq<Block>, cap: int,
      k: nat)
    requires Segmented(text, cls, lines, blocks, cap) && BlankLines(lines, After(blocks), |lines|) && k < |blocks|
    requires blocks[k].last + 1 < |lines| && Visible(lines[blocks[k].last + 1].text)
    requires var s := lines[blocks[k].last + 1].text;
      || ((blocks[k].kind == TableHeader || blocks[k].kind == TableRow) && Barred(s))
      || (blocks[k].kind == ListItem && cls.listItem(s))
    ensures k + 1 < |blocks| && blocks[k + 1].first == blocks[k].last + 1
      && blocks[k + 1].kind == (if blocks[k].kind == ListItem then ListItem else TableRow)
  {
    hide *;
    var i := blocks[k].last + 1;
    LineReadings(lines[i].text);
    assert blocks[..|blocks|] == blocks;
    AfterBlock(blocks, k);
    if k + 1 < |blocks| {
      BlockAt(text, cls, lines, blocks, cap, k + 1);
      GoesOn(cls, lines, blocks[..k + 1], blocks[k + 1], i);
    } else {
      LeftOver(lines, i);
    }
  }

  lemma {:induction false} LeftOver(lines: seq<Line>, i: nat)
    requires i < |lines| && BlankLines(lines, i, |lines|)
    ensures Blank(lines[i].text)
  {}

  lemma {:induction false} AfterBlock(blocks: seq<Block>, k: nat)
    requires k < |blocks|
    ensures After(blocks[..k + 1]) == blocks[k].last + 1
    ensures InTable(blocks[..k + 1]) <==> blocks[k].kind == TableHeader || blocks[k].kind == TableRow
    ensures InList(blocks[..k + 1]) <==> blocks[k].kind == ListItem
  {}

  lemma {:induction false} GoesOn(cls: Classifiers, lines: seq<Line>, blocks: seq<Block>, b: Block, i: nat)
    requires ComesNext(cls, lines, blocks, b) && i == After(blocks) < |lines| && !Blank(lines[i].text)
    requires (InTable(blocks) && HasBar(lines[i].text)) || (InList(blocks) && cls.listItem(lines[i].text))
    ensures b.first == i && b.kind == (if InList(blocks) then ListItem else TableRow)
  {
    hide Blank, HasBar, EndsAt;
  }

  /** The headings of the text are its heading blocks, in order, with the level and title their line
      is read as and the range of that line. */
  lemma {:induction false} HeadIsBlock(text: string, cls: Classifiers, lines: seq<Line>, blocks: seq<Block>, cap: int,
      i: nat) returns (k: nat)
    requires Segmented(text, cls, lines, blocks, cap) && i < |Heads(cls, lines, blocks)|
    ensures k < |blocks| && blocks[k].kind == Heading && blocks[k].first < |lines|
    ensures var (line, h) := (lines[blocks[k].first], Heads(cls, lines, blocks)[i]);
      && cls.heading(line.text).Some? && cls.heading(line.text).value.0 == h.level
      && cls.heading(line.text).value.1 == h.title && h.start == line.start && h.end == line.end
    ensures i == |Heads(cls, lines, blocks[..k])|
  {
    hide *;
    NoHeads(cls, lines, []);
    var n := |blocks| - 1;
    var last := blocks[n];
    assert blocks == blocks[..n] + [last];
    HeadsOfLast(cls, lines, blocks[..n], last);
    if i < |Heads(cls, lines, blocks[..n])| {
      SegmentedBefore(text, cls, lines, blocks, cap, n);
      k := HeadIsBlock(text, cls, lines, blocks[..n], cap, i);
      assert blocks[..n][..k] == blocks[..k];
    } else {
      k := n;
      HeadAtIs(cls, lines, last.first);
    }
  }

  lemma {:induction false} HeadAtIs(cls: Classifiers, lines: seq<Line>, i: nat)
    requires i < |lines| && cls.heading(lines[i].text).Some?
    ensures var h := HeadAt(cls, lines, i);
      && cls.heading(lines[i].text).value.0 == h.level && cls.heading(lines[i].text).value.1 == h.title
      && h.start == lines[i].start && h.end == lines[i].end
  {}

  lemma {:induction false} SegmentedBefore(text: string, cls: Classifiers, lines: seq<Line>, blocks: seq<Block>,
      cap: int, n: nat)
    requires Segmented(text, cls, lines, blocks, cap) && n <= |blocks|
    ensures Segmented(text, cls, lines, blocks[..n], cap)
  {
    hide BlockOk;
    forall k | 0 <= k < n ensures BlockOk(text, cls, lines, blocks[..n][..k], blocks[..n][k], cap) {
      assert blocks[..n][..k] == blocks[..k];
    }
  }

  /** And every heading block is one of them. */
  lemma {:induction false} BlockIsHead(text: string, cls: Classifiers, lines: seq<Line>, blocks: seq<Block>, cap: int,
      k: nat)
    requires Segmented(text, cls, lines, blocks, cap) && k < |blocks| && blocks[k].kind == Heading
    ensures var i := |Heads(cls, lines, blocks[..k])|;
      i < |Heads(cls, lines, blocks)| && blocks[k].first < |lines|
        && Heads(cls, lines, blocks)[i].start == lines[blocks[k].first].start
  {
    hide *;
    var n := |blocks| - 1;
    var last := blocks[n];
    assert blocks == blocks[..n] + [last];
    HeadsOfLast(cls, lines, blocks[..n], last);
    if k < n {
      SegmentedBefore(text, cls, lines, blocks, cap, n);
      BlockIsHead(text, cls, lines, blocks[..n], cap, k);
      assert blocks[..n][..k] == blocks[..k];
    } else {
      BlockReads(text, cls, lines, blocks, cap, k);
      HeadingReads(cls, lines, last.first, last.last);
      HeadAtIs(cls, lines, last.first);
    }
  }

  lemma {:induction false} HeadingReads(cls: Classifiers, lines: seq<Line>, i: nat, j: nat)
    requires Reads(cls, lines, Heading, i, j)
    ensures i == j < |lines| && cls.heading(lines[i].text).Some?
  {}
}
