/** Rebuilding a stored batch's pages from the corpus (src/shapeflow/campaign/replay.py) and the
    registry that serves them (src/shapeflow/campaign/pages.py). */
module Replay {
  import opened Options
  import opened Text
  import opened SharedView

  // ------------------------------------------------------- the occurrence index

  /** One retrieval trace row: two arrays meant to be parallel. */
  datatype TraceRow = TraceRow(docids: seq<string>, occurrenceIds: seq<string>)

  datatype Outcome = Added | Unpaired | Conflict

  datatype IndexState = IndexState(docid: map<string, string>, rows: nat, outcome: Outcome)

  function Zip(row: TraceRow): (pairs: seq<(string, string)>)
    requires |row.docids| == |row.occurrenceIds|
  {
    seq(|row.docids|, k requires 0 <= k < |row.docids| => (row.occurrenceIds[k], row.docids[k]))
  }

  function AddPair(s: IndexState, occurrence: string, docid: string): IndexState {
    if occurrence !in s.docid then IndexState(s.docid[occurrence := docid], s.rows + 1, Added)
    else if s.docid[occurrence] == docid then IndexState(s.docid, s.rows + 1, Added)
    else IndexState(s.docid, s.rows + 1, Conflict)
  }

  function AddPairs(s: IndexState, pairs: seq<(string, string)>): IndexState {
    if pairs == [] then s else
      var before := AddPairs(s, pairs[..|pairs| - 1]);
      if before.outcome != Added then before else AddPair(before, pairs[|pairs| - 1].0, pairs[|pairs| - 1].1)
  }

  /** The index after a trace; an error keeps what was added before it. */
  function AddRows(s: IndexState, trace: seq<TraceRow>): IndexState {
    if trace == [] then s else
      var before := AddRows(s, trace[..|trace| - 1]);
      var row := trace[|trace| - 1];
      if before.outcome != Added then before
      else if |row.docids| != |row.occurrenceIds| then before.(outcome := Unpaired)
      else AddPairs(before, Zip(row))
  }

  class OccurrenceIndex {
    var docid: map<string, string>
    var rows: nat

    constructor ()
      ensures docid == map[] && rows == 0
    {
      docid, rows := map[], 0;
    }

    /** add_trace. */
    method AddTrace(trace: seq<TraceRow>) returns (r: Outcome)
      modifies this
      ensures IndexState(docid, rows, r) == AddRows(IndexState(old(docid), old(rows), Added), trace)
    {
      ghost var start := IndexState(docid, rows, Added);
      for i := 0 to |trace|
        invariant IndexState(docid, rows, Added) == AddRows(start, trace[..i])
      {
        var row := trace[i];
        assert trace[..i + 1][..i] == trace[..i];
        RowsStop(start, trace, i + 1);
        if |row.docids| != |row.occurrenceIds| {
          return Unpaired;
        }
        ghost var before := IndexState(docid, rows, Added);
        ghost var pairs := Zip(row);
        for k := 0 to |row.docids|
          invariant IndexState(docid, rows, Added) == AddPairs(before, pairs[..k])
        {
          var (occurrence, id) := (row.occurrenceIds[k], row.docids[k]);
          assert pairs[..k + 1][..k] == pairs[..k];
          PairsStop(before, pairs, k + 1);
          rows := rows + 1;
          if occurrence !in docid {
            docid := docid[occurrence := id];
          } else if docid[occurrence] != id {
            return Conflict;
          }
        }
        assert pairs[..|row.docids|] == pairs;
      }
      assert trace[..|trace|] == trace;
      return Added;
    }
  }

  lemma {:induction false} PairsStop(s: IndexState, pairs: seq<(string, string)>, k: nat)
    requires k <= |pairs|
    ensures AddPairs(s, pairs[..k]).outcome != Added ==> AddPairs(s, pairs) == AddPairs(s, pairs[..k])
  {
    if k < |pairs| {
      var head := pairs[..|pairs| - 1];
      assert head[..k] == pairs[..k];
      PairsStop(s, head, k);
    } else {
      assert pairs[..k] == pairs;
    }
  }

  lemma {:induction false} RowsStop(s: IndexState, trace: seq<TraceRow>, k: nat)
    requires k <= |trace|
    ensures AddRows(s, trace[..k]).outcome != Added ==> AddRows(s, trace) == AddRows(s, trace[..k])
  {
    if k < |trace| {
      var head := trace[..|trace| - 1];
      assert head[..k] == trace[..k];
      RowsStop(s, head, k);
    } else {
      assert trace[..k] == trace;
    }
  }

  ghost predicate Maps(m: map<string, string>, o: string, d: string) { o in m && m[o] == d }

  ghost predicate Names(row: TraceRow, o: string, d: string) {
    |row.docids| == |row.occurrenceIds| && (o, d) in Zip(row)
  }

  ghost predicate Fact(m: map<string, string>, trace: seq<TraceRow>, o: string, d: string) {
    Maps(m, o, d) || exists row | row in trace :: Names(row, o, d)
  }

  ghost predicate Parallel(trace: seq<TraceRow>) {
    forall row | row in trace :: |row.docids| == |row.occurrenceIds|
  }

  /** No occurrence is said to be two documents. */
  ghost predicate Consistent(m: map<string, string>, trace: seq<TraceRow>) {
    forall o, d, e | Fact(m, trace, o, d) && Fact(m, trace, o, e) :: d == e
  }

  ghost predicate Extends(m: map<string, string>, base: map<string, string>) {
    forall o | o in base :: o in m && m[o] == base[o]
  }

  lemma {:induction false} PairsMeaning(s: IndexState, pairs: seq<(string, string)>)
      returns (o: string, d: string, e: string)
    requires s.outcome == Added
    ensures var r := AddPairs(s, pairs);
      && Extends(r.docid, s.docid)
      && (r.outcome == Added ==> forall x, y :: Maps(r.docid, x, y) <==> Maps(s.docid, x, y) || (x, y) in pairs)
      && (r.outcome != Added ==>
            d != e && (Maps(s.docid, o, d) || (o, d) in pairs) && (Maps(s.docid, o, e) || (o, e) in pairs))
  {
    if pairs == [] {
      o, d, e := "", "", "";
    } else {
      var head, last := pairs[..|pairs| - 1], pairs[|pairs| - 1];
      o, d, e := PairsMeaning(s, head);
      assert pairs == head + [last];
      var before := AddPairs(s, head);
      if before.outcome == Added && last.0 in before.docid && before.docid[last.0] != last.1 {
        o, d, e := last.0, before.docid[last.0], last.1;
        assert Maps(before.docid, o, d);
      }
    }
  }

  /** A trace is accepted exactly when its rows are parallel and no occurrence resolves to two
      documents, counting what the index already held; an accepted trace adds exactly its facts,
      and even a refused one never changes an entry. */
  lemma {:induction false} IndexMeaning(s: IndexState, trace: seq<TraceRow>)
    requires s.outcome == Added
    ensures var r := AddRows(s, trace);
      && Extends(r.docid, s.docid)
      && (r.outcome == Added <==> Parallel(trace) && Consistent(s.docid, trace))
      && (r.outcome == Added ==> forall o, d :: Maps(r.docid, o, d) <==> Fact(s.docid, trace, o, d))
  {
    if trace != [] {
      var head, last := trace[..|trace| - 1], trace[|trace| - 1];
      assert trace == head + [last];
      IndexMeaning(s, head);
      var before := AddRows(s, head);
      forall o, d ensures Fact(s.docid, trace, o, d) <==> Fact(s.docid, head, o, d) || Names(last, o, d) {
        if Fact(s.docid, head, o, d) && !Maps(s.docid, o, d) {
          var row :| row in head && Names(row, o, d);
          assert row in trace;
        }
        if Names(last, o, d) {
          assert last in trace;
        }
      }
      if before.outcome != Added {
        HeadRefused(s.docid, head, trace);
      } else if |last.docids| != |last.occurrenceIds| {
        assert last in trace;
      } else {
        var o, d, e := PairsMeaning(before, Zip(last));
        LastRow(s, head, last, trace, o, d, e);
      }
    }
  }

  lemma {:induction false} HeadRefused(m: map<string, string>, head: seq<TraceRow>, trace: seq<TraceRow>)
    requires forall row | row in head :: row in trace
    requires !(Parallel(head) && Consistent(m, head))
    ensures !(Parallel(trace) && Consistent(m, trace))
  {
    if !Parallel(head) {
      var row :| row in head && |row.docids| != |row.occurrenceIds|;
      assert row in trace;
    } else {
      var o, d, e :| Fact(m, head, o, d) && Fact(m, head, o, e) && d != e;
      assert Fact(m, trace, o, d) && Fact(m, trace, o, e);
    }
  }

  lemma {:induction false} LastRow(s: IndexState, head: seq<TraceRow>, last: TraceRow, trace: seq<TraceRow>,
      o: string, d: string, e: string)
    requires trace == head + [last] && |last.docids| == |last.occurrenceIds|
    requires forall x, y :: Fact(s.docid, trace, x, y) <==> Fact(s.docid, head, x, y) || Names(last, x, y)
    requires s.outcome == Added && Parallel(head)
    requires var before := AddRows(s, head);
      && before.outcome == Added
      && (forall x, y :: Maps(before.docid, x, y) <==> Fact(s.docid, head, x, y))
      && var r := AddPairs(before, Zip(last));
      && (r.outcome == Added ==>
           forall x, y :: Maps(r.docid, x, y) <==> Maps(before.docid, x, y) || (x, y) in Zip(last))
      && (r.outcome != Added ==>
           d != e && (Maps(before.docid, o, d) || (o, d) in Zip(last))
             && (Maps(before.docid, o, e) || (o, e) in Zip(last)))
    ensures var r := AddPairs(AddRows(s, head), Zip(last));
      && (r.outcome == Added <==> Parallel(trace) && Consistent(s.docid, trace))
      && (r.outcome == Added ==> forall x, y :: Maps(r.docid, x, y) <==> Fact(s.docid, trace, x, y))
  {
    var r := AddPairs(AddRows(s, head), Zip(last));
    assert Parallel(trace);
    if r.outcome == Added {
      forall x, y ensures Maps(r.docid, x, y) <==> Fact(s.docid, trace, x, y) {
        assert Names(last, x, y) <==> (x, y) in Zip(last);
      }
    } else {
      assert Names(last, o, d) <==> (o, d) in Zip(last);
      assert Names(last, o, e) <==> (o, e) in Zip(last);
      assert Fact(s.docid, trace, o, d) && Fact(s.docid, trace, o, e);
    }
  }

  lemma {:induction false} PairsConflict(s: IndexState, pairs: seq<(string, string)>)
    requires s.outcome == Added
    ensures AddPairs(s, pairs).outcome != Unpaired
    ensures AddPairs(s, pairs).outcome == Added ==> AddPairs(s, pairs).rows == s.rows + |pairs|
  {
    if pairs != [] { PairsConflict(s, pairs[..|pairs| - 1]); }
  }

  ghost function PairCount(trace: seq<TraceRow>): nat {
    if trace == [] then 0 else PairCount(trace[..|trace| - 1]) + |trace[|trace| - 1].docids|
  }

  /** A refusal names what is wrong with the trace; an accepted one counts every pair. */
  lemma {:induction false} RefusalNamesFault(s: IndexState, trace: seq<TraceRow>)
    requires s.outcome == Added
    ensures var r := AddRows(s, trace);
      && (r.outcome == Unpaired ==> !Parallel(trace)) && (r.outcome == Conflict ==> !Consistent(s.docid, trace))
      && (r.outcome == Added ==> r.rows == s.rows + PairCount(trace))
  {
    if trace != [] {
      hide AddPairs, Fact, Consistent;
      var (head, last) := (trace[..|trace| - 1], trace[|trace| - 1]);
      assert trace == head + [last];
      RefusalNamesFault(s, head);
      IndexMeaning(s, head);
      IndexMeaning(s, trace);
      var before := AddRows(s, head);
      if before.outcome == Added && |last.docids| == |last.occurrenceIds| {
        PairsConflict(before, Zip(last));
      }
      if before.outcome == Conflict && Consistent(s.docid, trace) {
        StillConsistent(s.docid, head, trace);
      }
    }
  }

  lemma {:induction false} StillConsistent(m: map<string, string>, head: seq<TraceRow>, trace: seq<TraceRow>)
    requires head <= trace && Consistent(m, trace)
    ensures Consistent(m, head)
  {
    forall o, d | Fact(m, head, o, d) ensures Fact(m, trace, o, d) {
      if row :| row in head && Names(row, o, d) { assert row in trace; }
    }
  }

  /** The index does not depend on the order in which the traces were read. */
  lemma {:induction false} IndexOrderFree(s: IndexState, trace: seq<TraceRow>, other: seq<TraceRow>)
    requires s.outcome == Added && multiset(trace) == multiset(other)
    ensures AddRows(s, trace).outcome == Added <==> AddRows(s, other).outcome == Added
    ensures AddRows(s, trace).outcome == Added ==> AddRows(s, trace).docid == AddRows(s, other).docid
  {
    hide AddRows;
    IndexMeaning(s, trace);
    IndexMeaning(s, other);
    forall row ensures row in trace <==> row in other {
      assert row in multiset(trace) <==> row in multiset(other);
    }
    var (a, b) := (AddRows(s, trace).docid, AddRows(s, other).docid);
    forall o, d ensures Fact(s.docid, trace, o, d) <==> Fact(s.docid, other, o, d) {
    }
    if AddRows(s, trace).outcome == Added && AddRows(s, other).outcome == Added {
      forall o ensures (o in a <==> o in b) && (o in a ==> a[o] == b[o]) {
        if o in a { assert Maps(a, o, a[o]); assert Maps(b, o, a[o]); }
        if o in b { assert Maps(b, o, b[o]); assert Maps(a, o, b[o]); }
      }
    }
  }

  // -------------------------------------------------------------- resolving pages

  datatype Status = SnippetOnly | Verified | NoDocid | NoDocument | HashMismatch

  datatype PageResolution = PageResolution(rawContentId: string, occurrenceId: string, status: Status, docid: string,
      text: string) {
    predicate Usable() { status == Verified || status == SnippetOnly }
  }

  /** What the run left behind besides the pages: the corpus, the shared budget, the tokenizer's
      offsets and the content digest. */
  datatype World = World(corpus: map<string, string>, budget: Budget, encode: string -> seq<Span>,
      digest: string -> string) {
    ghost predicate Valid() { Encoder(encode) && budget.maxTokens >= 1 }

    /** What the agent was handed for a document, or None when the budget cannot be met. */
    function Served(docid: string): Option<string>
      requires Valid() && docid in corpus
    {
      match Bound(corpus[docid], budget, encode)
      case None => None
      case Some(content) => Some(content.text)
    }
  }

  /** A resolution with no cache: None is the ValueError of the shared budget. An empty
      `rawContentId` stands for a page with no raw content. */
  function Resolved(w: World, index: map<string, string>, rawContentId: string,
      occurrenceId: string): Option<PageResolution>
    requires w.Valid()
  {
    if rawContentId == "" then Some(PageResolution("", occurrenceId, SnippetOnly, "", ""))
    else if occurrenceId !in index then Some(PageResolution(rawContentId, occurrenceId, NoDocid, "", ""))
    else
      var docid := index[occurrenceId];
      if docid !in w.corpus then Some(PageResolution(rawContentId, occurrenceId, NoDocument, docid, ""))
      else match w.Served(docid)
        case None => None
        case Some(text) =>
          if w.digest(text) != rawContentId
          then Some(PageResolution(rawContentId, occurrenceId, HashMismatch, docid, ""))
          else Some(PageResolution(rawContentId, occurrenceId, Verified, docid, text))
  }

  /** The documents an occurrence can be traced to, and the bytes the shared budget leaves of one. */
  ghost predicate Traced(w: World, index: map<string, string>, occurrenceId: string) {
    occurrenceId in index && index[occurrenceId] in w.corpus
  }

  ghost predicate ServedAs(w: World, docid: string, text: string) {
    && Encoder(w.encode) && docid in w.corpus && Bound(w.corpus[docid], w.budget, w.encode).Some?
    && text == Bound(w.corpus[docid], w.budget, w.encode).value.text
  }

  /** Which answer a page gets. Only bytes whose digest is the recorded id are ever returned, and
      an answer that is not verified carries none; no answer at all means the shared budget failed
      on the page's document. */
  ghost predicate IsResolution(w: World, index: map<string, string>, rawContentId: string, occurrenceId: string,
      r: Option<PageResolution>)
  {
    && (r.None? <==>
          && rawContentId != "" && Traced(w, index, occurrenceId)
          && forall text :: !ServedAs(w, index[occurrenceId], text))
    && (r.Some? ==>
          var page := r.value;
          && page.rawContentId == rawContentId && page.occurrenceId == occurrenceId
          && (page.status == SnippetOnly <==> rawContentId == "")
          && (page.status == NoDocid <==> rawContentId != "" && occurrenceId !in index)
          && (page.status == NoDocument <==>
                rawContentId != "" && occurrenceId in index && !Traced(w, index, occurrenceId))
          && (page.status == HashMismatch <==>
                rawContentId != "" && Traced(w, index, occurrenceId)
                && exists text :: ServedAs(w, index[occurrenceId], text) && w.digest(text) != rawContentId)
          && (page.status == Verified <==>
                rawContentId != "" && Traced(w, index, occurrenceId)
                && exists text :: ServedAs(w, index[occurrenceId], text) && w.digest(text) == rawContentId)
          && (page.status == Verified ==>
                ServedAs(w, index[occurrenceId], page.text) && w.digest(page.text) == rawContentId)
          && (page.status != Verified ==> page.text == "")
          && (page.Usable() <==> rawContentId == "" || page.status == Verified)
          && page.docid == (if rawContentId != "" && occurrenceId in index then index[occurrenceId] else ""))
  }

  lemma {:induction false} ServedOnce(w: World, docid: string)
    requires w.Valid() && docid in w.corpus
    ensures w.Served(docid).None? ==> forall text :: !ServedAs(w, docid, text)
    ensures w.Served(docid).Some? ==> forall text :: ServedAs(w, docid, text) <==> text == w.Served(docid).value
  {
    hide Bound, Encoder;
  }

  lemma {:induction false} ResolvedExactly(w: World, index: map<string, string>, rawContentId: string,
      occurrenceId: string)
    requires w.Valid()
    ensures IsResolution(w, index, rawContentId, occurrenceId, Resolved(w, index, rawContentId, occurrenceId))
  {
    hide ServedAs, World.Served, World.Valid;
    if Traced(w, index, occurrenceId) {
      var docid := index[occurrenceId];
      ServedOnce(w, docid);
      if w.Served(docid).Some? { assert ServedAs(w, docid, w.Served(docid).value); }
    }
  }

  /** The checkpoint's result entries, one (raw content id, occurrence id) each. */
  type Entry = (string, string)

  function RebuiltPages(w: World, index: map<string, string>, entries: seq<Entry>): Option<seq<PageResolution>>
    requires w.Valid()
  {
    if entries == [] then Some([]) else
      var last := entries[|entries| - 1];
      match RebuiltPages(w, index, entries[..|entries| - 1])
      case None => None
      case Some(pages) =>
        match Resolved(w, index, last.0, last.1)
        case None => None
        case Some(page) => Some(pages + [page])
  }

  lemma {:induction false} RebuildStops(w: World, index: map<string, string>, entries: seq<Entry>, k: nat)
    requires w.Valid() && k <= |entries| && RebuiltPages(w, index, entries[..k]).None?
    ensures RebuiltPages(w, index, entries).None?
  {
    if k < |entries| {
      assert entries[..|entries| - 1][..k] == entries[..k];
      RebuildStops(w, index, entries[..|entries| - 1], k);
    } else {
      assert entries[..k] == entries;
    }
  }

  /** Every page a rebuild returns is its entry's resolution, so none claims bytes that are not the
      recorded ones; and a rebuild fails exactly when the budget fails on some entry's document. */
  lemma {:induction false} RebuiltExactly(w: World, index: map<string, string>, entries: seq<Entry>)
    requires w.Valid()
    ensures var r := RebuiltPages(w, index, entries);
      && (r.None? <==> exists k :: 0 <= k < |entries| && IsResolution(w, index, entries[k].0, entries[k].1, None))
      && (r.Some? ==>
            && |r.value| == |entries| && (forall p | p in r.value :: Genuine(w.digest, p))
            && forall k | 0 <= k < |entries| ::
                 IsResolution(w, index, entries[k].0, entries[k].1, Some(r.value[k])))
  {
    if entries != [] {
      var (head, last) := (entries[..|entries| - 1], entries[|entries| - 1]);
      assert entries == head + [last];
      RebuiltExactly(w, index, head);
      ResolvedExactly(w, index, last.0, last.1);
      var page := Resolved(w, index, last.0, last.1);
      OneResolution(w, index, last.0, last.1, page);
      if page.Some? {
        assert Genuine(w.digest, page.value);
      }
      hide Resolved, IsResolution, Genuine, World.Valid;
      if k :| 0 <= k < |head| && IsResolution(w, index, head[k].0, head[k].1, None) {
        assert entries[k] == head[k];
      }
      if k :| 0 <= k < |entries| && IsResolution(w, index, entries[k].0, entries[k].1, None) {
        assert k < |head| ==> entries[k] == head[k];
      }
    }
  }

  lemma {:induction false} OneResolution(w: World, index: map<string, string>, rawContentId: string,
      occurrenceId: string, r: Option<PageResolution>)
    requires IsResolution(w, index, rawContentId, occurrenceId, r)
    ensures IsResolution(w, index, rawContentId, occurrenceId, None) <==> r.None?
  {}

  function Flatten(sets: seq<seq<Entry>>): seq<Entry> {
    if sets == [] then [] else Flatten(sets[..|sets| - 1]) + sets[|sets| - 1]
  }

  lemma {:induction false} FlattenPrefix(sets: seq<seq<Entry>>, i: nat, k: nat)
    requires i < |sets| && k <= |sets[i]|
    ensures Flatten(sets[..i]) + sets[i][..k] <= Flatten(sets)
  {
    var head := sets[..|sets| - 1];
    if i < |head| {
      FlattenPrefix(head, i, k);
      assert head[..i] == sets[..i];
    }
  }

  lemma {:induction false} FlattenNext(sets: seq<seq<Entry>>, i: nat)
    requires i < |sets|
    ensures Flatten(sets[..0]) == [] && Flatten(sets[..i + 1]) == Flatten(sets[..i]) + sets[i]
  {
    assert sets[..i + 1][..i] == sets[..i];
  }

  lemma {:induction false} RebuildStarts(w: World, index: map<string, string>)
    requires w.Valid()
    ensures Flatten([]) == [] && RebuiltPages(w, index, []) == Some([])
  {}

  lemma {:induction false} RebuildNext(w: World, index: map<string, string>, before: seq<Entry>, entry: Entry)
    requires w.Valid() && RebuiltPages(w, index, before).Some?
    ensures var page := Resolved(w, index, entry.0, entry.1);
      RebuiltPages(w, index, before + [entry])
        == if page.None? then None else Some(RebuiltPages(w, index, before).value + [page.value])
  {
    assert (before + [entry])[..|before|] == before;
  }

  class PageReconstructor {
    const world: World
    const occurrences: OccurrenceIndex
    /** docid -> truncated text. */
    var textByDocid: map<string, string>

    /** Every cached text is what its document is served as; nothing here mentions the index. */
    ghost predicate Valid()
      reads this
    {
      world.Valid() && forall d | d in textByDocid :: d in world.corpus && world.Served(d) == Some(textByDocid[d])
    }

    constructor (w: World, index: OccurrenceIndex)
      requires w.Valid()
      ensures Valid() && world == w && occurrences == index && textByDocid == map[]
    {
      world, occurrences, textByDocid := w, index, map[];
    }

    /** resolve: with any cache a history of calls can leave, the cache-free answer. */
    method Resolve(rawContentId: string, occurrenceId: string) returns (r: Option<PageResolution>)
      requires Valid()
      modifies this`textByDocid
      ensures Valid()
      ensures r == Resolved(world, occurrences.docid, rawContentId, occurrenceId)
      ensures IsResolution(world, occurrences.docid, rawContentId, occurrenceId, r)
    {
      hide Bound, Encoder, IsResolution;
      ResolvedExactly(world, occurrences.docid, rawContentId, occurrenceId);
      if rawContentId == "" {
        return Some(PageResolution("", occurrenceId, SnippetOnly, "", ""));
      }
      if occurrenceId !in occurrences.docid {
        return Some(PageResolution(rawContentId, occurrenceId, NoDocid, "", ""));
      }
      var docid := occurrences.docid[occurrenceId];
      if docid !in textByDocid {
        if docid !in world.corpus {
          return Some(PageResolution(rawContentId, occurrenceId, NoDocument, docid, ""));
        }
        var content := ApplySharedBudget(world.corpus[docid], world.budget, world.encode);
        if content.None? {
          return None;
        }
        textByDocid := textByDocid[docid := content.value.text];
      }
      var truncated := textByDocid[docid];
      if world.digest(truncated) != rawContentId {
        return Some(PageResolution(rawContentId, occurrenceId, HashMismatch, docid, ""));
      }
      return Some(PageResolution(rawContentId, occurrenceId, Verified, docid, truncated));
    }

    /** rebuild: every page of a checkpoint's result sets, in order. */
    method Rebuild(sets: seq<seq<Entry>>) returns (r: Option<seq<PageResolution>>)
      requires Valid()
      modifies this`textByDocid
      ensures Valid()
      ensures r == RebuiltPages(world, occurrences.docid, Flatten(sets))
      ensures r.Some? ==> forall p | p in r.value :: Genuine(world.digest, p)
    {
      hide Resolved, Encoder, Genuine, IsResolution, Bound, World.Valid, World.Served, Flatten, RebuiltPages;
      WorldIsValid();
      RebuildStarts(world, occurrences.docid);
      var pages := [];
      ghost var done: seq<Entry> := [];
      for i := 0 to |sets|
        invariant Valid()
        invariant done == Flatten(sets[..i]) && RebuiltPages(world, occurrences.docid, done) == Some(pages)
      {
        FlattenNext(sets, i);
        for k := 0 to |sets[i]|
          invariant Valid()
          invariant done == Flatten(sets[..i]) + sets[i][..k]
            && RebuiltPages(world, occurrences.docid, done) == Some(pages)
        {
          var page := Resolve(sets[i][k].0, sets[i][k].1);
          ghost var before := done;
          done := done + [sets[i][k]];
          RebuildNext(world, occurrences.docid, before, sets[i][k]);
          if page.None? {
            FlattenPrefix(sets, i, k + 1);
            assert done == Flatten(sets[..i]) + sets[i][..k + 1];
            assert Flatten(sets)[..|done|] == done;
            RebuildStops(world, occurrences.docid, Flatten(sets), |done|);
            return None;
          }
          pages := pages + [page.value];
        }
      }
      assert sets[..|sets|] == sets;
      RebuiltExactly(world, occurrences.docid, Flatten(sets));
      return Some(pages);
    }

    lemma {:induction false} WorldIsValid()
      requires Valid()
      ensures world.Valid()
    {}
  }

  // ----------------------------------------------------------------- the registry

  datatype RegistryState = RegistryState(text: map<string, string>, occurrence: map<string, string>) {
    /** The bytes behind an id, or empty. */
    function TextFor(id: string): string { if id in text then text[id] else "" }

    function OccurrenceFor(id: string): string { if id in occurrence then occurrence[id] else id }

    /** record: first writer wins; an empty page is not registered. */
    function Record(digest: string -> string, page: string, occurrenceId: string): RegistryState {
      if page == "" then this else
        var id := digest(page);
        RegistryState(
          if id in text then text else text[id := page],
          if id in occurrence then occurrence else occurrence[id := if occurrenceId != "" then occurrenceId else id])
    }
  }

  function ContentId(digest: string -> string, page: string): string { if page == "" then "" else digest(page) }

  class PageRegistry {
    const digest: string -> string
    var text: map<string, string>
    var occurrence: map<string, string>

    function State(): RegistryState
      reads this
    {
      RegistryState(text, occurrence)
    }

    constructor (digest: string -> string)
      ensures this.digest == digest && State() == RegistryState(map[], map[])
    {
      this.digest := digest;
      text, occurrence := map[], map[];
    }

    method Record(page: string, occurrenceId: string) returns (id: string)
      modifies this
      ensures id == ContentId(digest, page) && State() == old(State()).Record(digest, page, occurrenceId)
    {
      if page == "" {
        return "";
      }
      id := digest(page);
      if id !in text {
        text := text[id := page];
      }
      if id !in occurrence {
        occurrence := occurrence[id := if occurrenceId != "" then occurrenceId else id];
      }
    }

    /** prefill: entries already present stay as they are. */
    method Prefill(textById: map<string, string>, occurrenceById: map<string, string>)
      modifies this
      ensures text == textById + old(text) && occurrence == occurrenceById + old(occurrence)
    {
      text := SetDefaults(text, textById);
      occurrence := SetDefaults(occurrence, occurrenceById);
    }
  }

  method SetDefaults(into: map<string, string>, defaults: map<string, string>) returns (r: map<string, string>)
    ensures r == defaults + into
  {
    r := into;
    var rest := defaults.Keys;
    while rest != {}
      invariant rest <= defaults.Keys
      invariant r.Keys == into.Keys + (defaults.Keys - rest)
      invariant forall k | k in r :: r[k] == (defaults + into)[k]
    {
      var k :| k in rest;
      rest := rest - {k};
      if k !in r {
        r := r[k := defaults[k]];
      }
    }
    assert r.Keys == (defaults + into).Keys;
  }

  // ------------------------------------------------------------------- round trip

  /** The two maps of registry_prefill; a later page with the same id replaces an earlier one. */
  function Prefilling(pages: seq<PageResolution>): RegistryState {
    if pages == [] then RegistryState(map[], map[]) else
      var (before, page) := (Prefilling(pages[..|pages| - 1]), pages[|pages| - 1]);
      if page.status != Verified then before
      else
        RegistryState(before.text[page.rawContentId := page.text],
                      before.occurrence[page.rawContentId := page.occurrenceId])
  }

  /** The pages the live seam registered, as (text, occurrence id), into an empty registry. */
  function Registered(digest: string -> string, served: seq<(string, string)>): RegistryState {
    if served == [] then RegistryState(map[], map[]) else
      var last := served[|served| - 1];
      Registered(digest, served[..|served| - 1]).Record(digest, last.0, last.1)
  }

  lemma {:induction false} RegisteredTexts(digest: string -> string, served: seq<(string, string)>)
    ensures var live := Registered(digest, served);
      && live.text.Keys == live.occurrence.Keys
      && (forall id | id in live.text :: digest(live.text[id]) == id && exists p :: p in served && p.0 == live.text[id])
      && (forall p | p in served && p.0 != "" :: digest(p.0) in live.text)
  {
    if served != [] {
      var (head, last) := (served[..|served| - 1], served[|served| - 1]);
      RegisteredTexts(digest, head);
      assert served == head + [last];
      var (before, live) := (Registered(digest, head), Registered(digest, served));
      forall id | id in live.text
        ensures digest(live.text[id]) == id && exists p :: p in served && p.0 == live.text[id]
      {
        if id in before.text {
          var p :| p in head && p.0 == before.text[id];
          assert p in served;
        } else {
          assert last in served;
        }
      }
    }
  }

  /** A page whose text is the one its id was computed from. */
  ghost predicate Genuine(digest: string -> string, page: PageResolution) {
    page.status == Verified ==> digest(page.text) == page.rawContentId
  }

  lemma {:induction false} PrefilledTexts(digest: string -> string, pages: seq<PageResolution>)
    requires forall p | p in pages :: Genuine(digest, p)
    ensures var filled := Prefilling(pages);
      && filled.text.Keys == filled.occurrence.Keys
      && (forall id | id in filled.text ::
           exists p :: p in pages && p.status == Verified && p.rawContentId == id && p.text == filled.text[id])
      && (forall p | p in pages && p.status == Verified :: p.rawContentId in filled.text)
  {
    if pages != [] {
      var (head, last) := (pages[..|pages| - 1], pages[|pages| - 1]);
      assert pages == head + [last] && last in pages;
      assert forall p | p in head :: p in pages;
      PrefilledTexts(digest, head);
      var (before, filled) := (Prefilling(head), Prefilling(pages));
      forall id | id in filled.text
        ensures exists p :: p in pages && p.status == Verified && p.rawContentId == id && p.text == filled.text[id]
      {
        if !(last.status == Verified && last.rawContentId == id) {
          var p :| p in head && p.status == Verified && p.rawContentId == id && p.text == before.text[id];
          assert p in pages;
        }
      }
    }
  }

  /** No page rebuilt from the corpus collides with a different text the live run served. */
  ghost predicate CollisionFree(digest: string -> string, pages: seq<PageResolution>, served: seq<(string, string)>) {
    forall p, q | p in pages && p.status == Verified && q in served && digest(p.text) == digest(q.0) :: p.text == q.0
  }

  /** Every verified page the live run registered comes back from a prefilled registry with the
      same bytes, whatever else the run registered and in whatever order. */
  lemma {:induction false} PrefillServesLiveBytes(digest: string -> string, served: seq<(string, string)>,
      pages: seq<PageResolution>)
    requires CollisionFree(digest, pages, served) && forall p | p in pages :: Genuine(digest, p)
    ensures forall p | p in pages && p.status == Verified && p.rawContentId in Registered(digest, served).text ::
      Prefilling(pages).TextFor(p.rawContentId) == Registered(digest, served).TextFor(p.rawContentId) == p.text
  {
    RegisteredTexts(digest, served);
    PrefilledTexts(digest, pages);
    var (live, filled) := (Registered(digest, served), Prefilling(pages));
    forall p | p in pages && p.status == Verified && p.rawContentId in live.text
      ensures filled.TextFor(p.rawContentId) == live.TextFor(p.rawContentId) == p.text
    {
      var id := p.rawContentId;
      var q :| q in served && q.0 == live.text[id];
      var other :| other in pages && other.status == Verified && other.rawContentId == id
        && other.text == filled.text[id];
      assert digest(q.0) == id == digest(p.text) == digest(other.text);
    }
  }

  /** Page k is the first one registered under its id. */
  ghost predicate FirstServed(digest: string -> string, served: seq<(string, string)>, k: nat) {
    && k < |served| && served[k].0 != ""
    && forall i: nat | i < k && served[i].0 != "" :: digest(served[i].0) != digest(served[k].0)
  }

  /** The live registry keeps, for each id, the first page that was registered under it, and the
      occurrence that brought it, or the id itself where it had none. */
  lemma {:induction false} FirstWriterWins(digest: string -> string, served: seq<(string, string)>, k: nat)
    requires FirstServed(digest, served, k)
    ensures var (live, id) := (Registered(digest, served), digest(served[k].0));
      && id in live.text && id in live.occurrence && live.TextFor(id) == served[k].0
      && live.OccurrenceFor(id) == (if served[k].1 != "" then served[k].1 else id)
  {
    var head := served[..|served| - 1];
    if k < |head| {
      assert forall i: nat | i <= k :: served[i] == head[i];
      FirstWriterWins(digest, head, k);
    } else {
      NotRegistered(digest, head, digest(served[k].0));
    }
  }

  lemma {:induction false} NotRegistered(digest: string -> string, served: seq<(string, string)>, id: string)
    requires forall i: nat | i < |served| && served[i].0 != "" :: digest(served[i].0) != id
    ensures id !in Registered(digest, served).text && id !in Registered(digest, served).occurrence
  {
    if served != [] {
      NotRegistered(digest, served[..|served| - 1], id);
    }
  }

  // ---------------------------------------------------- from live run to replay

  /** One search hit of the live run. */
  datatype Hit = Hit(docid: string, occurrenceId: string)

  ghost predicate Servable(w: World, hits: seq<Hit>) {
    w.Valid() && forall h | h in hits :: h.docid in w.corpus && w.Served(h.docid).Some?
  }

  function ServedPages(w: World, hits: seq<Hit>): (served: seq<(string, string)>)
    requires Servable(w, hits)
    ensures |served| == |hits|
  {
    seq(|hits|, k requires 0 <= k < |hits| => (w.Served(hits[k].docid).value, hits[k].occurrenceId))
  }

  /** What the checkpoint keeps of them. */
  function Checkpointed(w: World, hits: seq<Hit>): (entries: seq<Entry>)
    requires Servable(w, hits)
    ensures |entries| == |hits|
  {
    seq(|hits|, k requires 0 <= k < |hits| => (ContentId(w.digest, ServedPages(w, hits)[k].0), hits[k].occurrenceId))
  }

  /** Page k as the replay should find it. */
  ghost predicate Recovered(w: World, hit: Hit, page: PageResolution)
    requires w.Valid() && hit.docid in w.corpus && w.Served(hit.docid).Some?
  {
    var text := w.Served(hit.docid).value;
    page == if text == "" then PageResolution("", hit.occurrenceId, SnippetOnly, "", "")
            else PageResolution(w.digest(text), hit.occurrenceId, Verified, hit.docid, text)
  }

  ghost predicate IndexedHits(index: map<string, string>, hits: seq<Hit>) {
    forall h | h in hits :: Maps(index, h.occurrenceId, h.docid)
  }

  lemma {:induction false} RebuildRecovers(w: World, index: map<string, string>, hits: seq<Hit>)
    requires Servable(w, hits) && IndexedHits(index, hits) && forall s :: w.digest(s) != ""
    ensures var r := RebuiltPages(w, index, Checkpointed(w, hits));
      r.Some? && |r.value| == |hits| && forall k | 0 <= k < |hits| :: Recovered(w, hits[k], r.value[k])
  {
    hide Bound, Encoder;
    if hits != [] {
      var head := hits[..|hits| - 1];
      RebuildRecovers(w, index, head);
      var entries := Checkpointed(w, hits);
      assert entries[..|entries| - 1] == Checkpointed(w, head);
      assert hits[|hits| - 1] in hits;
      assert Maps(index, hits[|hits| - 1].occurrenceId, hits[|hits| - 1].docid);
    }
  }

  /** The whole replay: index the run's own trace, rebuild the checkpoint, prefill a fresh
      registry. Every page is usable, keeps its own docid, and reads as the run served it. */
  lemma {:induction false} ReplayRecoversRun(w: World, trace: seq<TraceRow>, hits: seq<Hit>)
    requires Servable(w, hits) && (forall s :: w.digest(s) != "")
    requires AddRows(IndexState(map[], 0, Added), trace).outcome == Added
    requires forall h | h in hits :: exists row | row in trace :: Names(row, h.occurrenceId, h.docid)
    requires forall p, q | p in ServedPages(w, hits) && q in ServedPages(w, hits) && w.digest(p.0) == w.digest(q.0) ::
      p.0 == q.0
    ensures var index := AddRows(IndexState(map[], 0, Added), trace).docid;
      var r := RebuiltPages(w, index, Checkpointed(w, hits));
      && r.Some? && |r.value| == |hits|
      && forall k | 0 <= k < |hits| ::
        && r.value[k].Usable() && Recovered(w, hits[k], r.value[k])
        && Prefilling(r.value).TextFor(Checkpointed(w, hits)[k].0)
           == Registered(w.digest, ServedPages(w, hits)).TextFor(Checkpointed(w, hits)[k].0)
           == ServedPages(w, hits)[k].0
  {
    hide Bound, Encoder, AddRows, RebuiltPages;
    IndexMeaning(IndexState(map[], 0, Added), trace);
    var index := AddRows(IndexState(map[], 0, Added), trace).docid;
    assert IndexedHits(index, hits) by {
      forall h | h in hits ensures Maps(index, h.occurrenceId, h.docid) {
        assert Fact(map[], trace, h.occurrenceId, h.docid);
      }
    }
    RebuildRecovers(w, index, hits);
    ReplayServesRun(w, hits, RebuiltPages(w, index, Checkpointed(w, hits)).value);
  }

  lemma {:induction false} ReplayServesRun(w: World, hits: seq<Hit>, pages: seq<PageResolution>)
    requires Servable(w, hits) && (forall s :: w.digest(s) != "")
    requires |pages| == |hits| && forall k | 0 <= k < |hits| :: Recovered(w, hits[k], pages[k])
    requires forall p, q | p in ServedPages(w, hits) && q in ServedPages(w, hits) && w.digest(p.0) == w.digest(q.0) ::
      p.0 == q.0
    ensures forall k | 0 <= k < |hits| ::
      Prefilling(pages).TextFor(Checkpointed(w, hits)[k].0)
        == Registered(w.digest, ServedPages(w, hits)).TextFor(Checkpointed(w, hits)[k].0) == ServedPages(w, hits)[k].0
  {
    hide Bound, Encoder, Registered, Prefilling;
    var served := ServedPages(w, hits);
    forall p, q | p in pages && p.status == Verified && q in served && w.digest(p.text) == w.digest(q.0)
      ensures p.text == q.0
    {
      var k :| 0 <= k < |pages| && pages[k] == p;
      assert served[k].0 == p.text && served[k] in served;
    }
    PrefillServesLiveBytes(w.digest, served, pages);
    PrefilledTexts(w.digest, pages);
    RegisteredTexts(w.digest, served);
    forall k | 0 <= k < |hits|
      ensures Prefilling(pages).TextFor(Checkpointed(w, hits)[k].0)
        == Registered(w.digest, served).TextFor(Checkpointed(w, hits)[k].0) == served[k].0
    {
      assert served[k] in served && pages[k] in pages;
    }
  }

  // ------------------------------------------------------------ occurrence lineage

  ghost predicate FirstOf(pages: seq<PageResolution>, k: nat) {
    k < |pages| && pages[k].status == Verified
    && forall i | 0 <= i < k :: !(pages[i].status == Verified && pages[i].rawContentId == pages[k].rawContentId)
  }

  ghost predicate LastOf(pages: seq<PageResolution>, k: nat) {
    k < |pages| && pages[k].status == Verified
    && forall i | k < i < |pages| :: !(pages[i].status == Verified && pages[i].rawContentId == pages[k].rawContentId)
  }

  /** The verified pages of a batch in the order the live seam registered them. */
  function LiveOrder(pages: seq<PageResolution>): seq<(string, string)> {
    if pages == [] then [] else
      var (head, last) := (LiveOrder(pages[..|pages| - 1]), pages[|pages| - 1]);
      if last.status == Verified then head + [(last.text, last.occurrenceId)] else head
  }

  /** The name the live registry files a page under. */
  function LiveName(page: PageResolution): string {
    if page.occurrenceId != "" then page.occurrenceId else page.rawContentId
  }

  ghost predicate FromText(digest: string -> string, pages: seq<PageResolution>) {
    forall p | p in pages && p.status == Verified :: digest(p.text) == p.rawContentId && p.text != ""
  }

  lemma {:induction false} LiveStep(digest: string -> string, head: seq<PageResolution>, last: PageResolution)
    requires FromText(digest, head + [last])
    ensures FromText(digest, head)
    ensures var (before, live) := (Registered(digest, LiveOrder(head)).occurrence, Registered(digest, LiveOrder(head
      + [last])).occurrence);
      live == if last.status == Verified && last.rawContentId !in before
        then before[last.rawContentId := LiveName(last)] else before
  {
    var pages := head + [last];
    assert last in pages && pages[..|pages| - 1] == head && forall p | p in head :: p in pages;
    if last.status == Verified {
      var order := LiveOrder(pages);
      assert order == LiveOrder(head) + [(last.text, last.occurrenceId)];
      assert order[..|order| - 1] == LiveOrder(head);
    }
  }

  /** `live` files each content id under the occurrence that brought it first. */
  ghost predicate NamesFirst(pages: seq<PageResolution>, live: map<string, string>) {
    && (forall k: nat | FirstOf(pages, k) :: Maps(live, pages[k].rawContentId, LiveName(pages[k])))
    && (forall id | id in live :: exists k: nat :: FirstOf(pages, k) && pages[k].rawContentId == id)
  }

  /** `filled` files each content id under the occurrence that brought it last. */
  ghost predicate NamesLast(pages: seq<PageResolution>, filled: map<string, string>) {
    && (forall k: nat | LastOf(pages, k) :: Maps(filled, pages[k].rawContentId, pages[k].occurrenceId))
    && (forall id | id in filled :: exists k: nat :: LastOf(pages, k) && pages[k].rawContentId == id)
  }

  lemma {:induction false} FirstStep(head: seq<PageResolution>, last: PageResolution)
    ensures var pages := head + [last];
      && (forall k: nat | k < |head| :: FirstOf(pages, k) <==> FirstOf(head, k))
      && (FirstOf(pages, |head|) <==>
           last.status == Verified && forall k: nat | FirstOf(head, k) :: head[k].rawContentId != last.rawContentId)
  {
    var pages := head + [last];
    forall k: nat | k < |head| ensures FirstOf(pages, k) <==> FirstOf(head, k) {
      assert forall i | 0 <= i <= k :: pages[i] == head[i];
    }
    if last.status == Verified && forall k: nat | FirstOf(head, k) :: head[k].rawContentId != last.rawContentId {
      forall i: nat | i < |head| && head[i].status == Verified
        ensures head[i].rawContentId != last.rawContentId
      {
        var k := FirstBefore(head, i);
      }
    }
  }

  lemma {:induction false} NamesFirstStep(head: seq<PageResolution>, last: PageResolution, before: map<string, string>)
    requires NamesFirst(head, before)
    ensures NamesFirst(head + [last],
      if last.status == Verified && last.rawContentId !in before
      then before[last.rawContentId := LiveName(last)] else before)
  {
    hide FirstOf, LiveName;
    var pages := head + [last];
    var live := if last.status == Verified && last.rawContentId !in before
      then before[last.rawContentId := LiveName(last)] else before;
    FirstStep(head, last);
    forall k: nat ensures FirstOf(head, k) ==> k < |head| { FirstInRange(head, k); }
    forall k: nat | FirstOf(pages, k)
      ensures k < |pages| && Maps(live, pages[k].rawContentId, LiveName(pages[k]))
    {
      FirstInRange(pages, k);
      if k < |head| {
        assert FirstOf(head, k);
      } else {
        assert last.rawContentId !in before;
      }
    }
    forall id | id in live
      ensures exists k: nat :: FirstOf(pages, k) && k < |pages| && pages[k].rawContentId == id
    {
      if id in before {
        var k: nat :| FirstOf(head, k) && head[k].rawContentId == id;
        assert FirstOf(pages, k);
      } else {
        assert FirstOf(pages, |head|);
      }
    }
  }

  lemma {:induction false} FirstInRange(pages: seq<PageResolution>, k: nat)
    ensures FirstOf(pages, k) ==> k < |pages|
  {
  }

  lemma {:induction false} LiveKeepsFirst(digest: string -> string, pages: seq<PageResolution>)
    requires FromText(digest, pages)
    ensures NamesFirst(pages, Registered(digest, LiveOrder(pages)).occurrence)
  {
    if pages != [] {
      var (head, last) := (pages[..|pages| - 1], pages[|pages| - 1]);
      assert pages == head + [last];
      LiveStep(digest, head, last);
      LiveKeepsFirst(digest, head);
      NamesFirstStep(head, last, Registered(digest, LiveOrder(head)).occurrence);
    }
  }

  lemma {:induction false} FirstBefore(pages: seq<PageResolution>, i: nat) returns (k: nat)
    requires i < |pages| && pages[i].status == Verified
    ensures FirstOf(pages, k) && k <= i && pages[k].rawContentId == pages[i].rawContentId
  {
    if FirstOf(pages, i) {
      k := i;
    } else {
      var j :| 0 <= j < i && pages[j].status == Verified && pages[j].rawContentId == pages[i].rawContentId;
      k := FirstBefore(pages, j);
    }
  }

  lemma {:induction false} LastAfter(pages: seq<PageResolution>, i: nat) returns (k: nat)
    requires i < |pages| && pages[i].status == Verified
    ensures LastOf(pages, k) && pages[k].rawContentId == pages[i].rawContentId
    decreases |pages| - i
  {
    if LastOf(pages, i) {
      k := i;
    } else {
      var j :| i < j < |pages| && pages[j].status == Verified && pages[j].rawContentId == pages[i].rawContentId;
      k := LastAfter(pages, j);
    }
  }

  lemma {:induction false} PrefillKeepsLast(pages: seq<PageResolution>)
    ensures NamesLast(pages, Prefilling(pages).occurrence)
  {
    if pages != [] {
      var (head, last) := (pages[..|pages| - 1], pages[|pages| - 1]);
      assert pages == head + [last];
      PrefillKeepsLast(head);
      var filled := Prefilling(pages).occurrence;
      forall k: nat | LastOf(pages, k)
        ensures Maps(filled, pages[k].rawContentId, pages[k].occurrenceId)
      {
        if k < |head| {
          assert LastOf(head, k);
          assert !(pages[|head|].status == Verified && pages[|head|].rawContentId == pages[k].rawContentId);
        }
      }
      forall id | id in filled ensures exists k: nat :: LastOf(pages, k) && pages[k].rawContentId == id {
        if last.status == Verified && last.rawContentId == id {
          assert LastOf(pages, |head|);
        } else {
          var k: nat :| LastOf(head, k) && head[k].rawContentId == id;
          assert LastOf(pages, k);
        }
      }
    }
  }

  ghost predicate SameLineage(digest: string -> string, pages: seq<PageResolution>) {
    forall id :: Prefilling(pages).OccurrenceFor(id) == Registered(digest, LiveOrder(pages)).OccurrenceFor(id)
  }

  /** Every content id was seen first and last under the same occurrence. */
  ghost predicate FirstIsLast(pages: seq<PageResolution>) {
    forall i: nat, j: nat | FirstOf(pages, i) && LastOf(pages, j) && pages[i].rawContentId == pages[j].rawContentId ::
      pages[j].occurrenceId == LiveName(pages[i])
  }

  /** The promise that the first occurrence keeps the lineage survives the replay exactly when,
      for every content id, the first and the last verified page with it came from the same
      occurrence: the prefilled map keeps the last. */
  lemma {:induction false} LineageSurvivesIff(digest: string -> string, pages: seq<PageResolution>)
    requires FromText(digest, pages)
    ensures SameLineage(digest, pages) <==> FirstIsLast(pages)
  {
    hide Registered, Prefilling, LiveOrder, NamesFirst, NamesLast, FirstIsLast;
    LiveKeepsFirst(digest, pages);
    PrefillKeepsLast(pages);
    FirstAgainstLast(pages, Prefilling(pages), Registered(digest, LiveOrder(pages)));
  }

  lemma {:induction false} FirstAgainstLast(pages: seq<PageResolution>, filled: RegistryState, live: RegistryState)
    requires NamesFirst(pages, live.occurrence) && NamesLast(pages, filled.occurrence)
    ensures (forall id :: filled.OccurrenceFor(id) == live.OccurrenceFor(id)) <==> FirstIsLast(pages)
  {
    hide LiveName;
    if forall id :: filled.OccurrenceFor(id) == live.OccurrenceFor(id) {
      forall i: nat, j: nat | FirstOf(pages, i) && LastOf(pages, j) && pages[i].rawContentId == pages[j].rawContentId
        ensures pages[j].occurrenceId == LiveName(pages[i])
      {
        assert filled.OccurrenceFor(pages[i].rawContentId) == live.OccurrenceFor(pages[i].rawContentId);
      }
    }
    if FirstIsLast(pages) {
      forall id ensures filled.OccurrenceFor(id) == live.OccurrenceFor(id) {
        LineageOf(pages, filled, live, id);
      }
    }
  }

  lemma {:induction false} LineageOf(pages: seq<PageResolution>, filled: RegistryState, live: RegistryState, id: string)
    requires NamesFirst(pages, live.occurrence) && NamesLast(pages, filled.occurrence) && FirstIsLast(pages)
    ensures filled.OccurrenceFor(id) == live.OccurrenceFor(id)
  {
    hide LiveName;
    if id in filled.occurrence {
      var j: nat :| LastOf(pages, j) && pages[j].rawContentId == id;
      var i := FirstBefore(pages, j);
      assert Maps(live.occurrence, id, LiveName(pages[i]));
    }
    if id in live.occurrence {
      var i: nat :| FirstOf(pages, i) && pages[i].rawContentId == id;
      var j := LastAfter(pages, i);
      assert Maps(filled.occurrence, id, pages[j].occurrenceId);
    }
  }

  /** Two occurrences of one document's bytes in a batch: the replay attributes them to the
      second, the live registry to the first. */
  lemma {:induction false} LineageCanBeLost(digest: string -> string)
    ensures exists pages :: FromText(digest, pages) && !SameLineage(digest, pages)
  {
    var id := digest("x");
    var first := PageResolution(id, "a", Verified, "d", "x");
    var second := PageResolution(id, "b", Verified, "d", "x");
    var pages := [first, second];
    assert FirstOf(pages, 0) && LastOf(pages, 1) && pages[1].occurrenceId != LiveName(pages[0]);
    LineageSurvivesIff(digest, pages);
    assert FromText(digest, pages) && !SameLineage(digest, pages);
  }
}
