/** From import statements to the edges of the firewall's graph
    (tools/ci/check_leakage_firewall.py:324-391, 522-590). Relative imports are taken as resolved. */
module ImportGraph {
  import opened Sorting
  import opened Text
  import opened Firewall

  /** What in a module can name another: `import target`, `from base import names`, or a string. */
  datatype Ref = Import(target: string) | From(base: string, names: seq<string>) | Literal(text: string)

  type Modules = map<string, seq<Ref>>

  /** `text and not any(ch.isspace() for ch in text)` */
  predicate LooksLikeName(text: string) { text != "" && forall i | 0 <= i < |text| :: !IsSpace(text[i]) }

  /** What running the statement loads, known or not: each package on the way to each target. */
  ghost predicate Loads(ref: Ref, name: string) {
    match ref
    case Import(target) => InPackage(target, name)
    case From(base, names) =>
      InPackage(base, name) || exists n :: n in names && n != "*" && InPackage(base + "." + n, name)
    case Literal(text) => text == name != "" && forall i | 0 <= i < |text| :: !IsSpace(text[i])
  }

  // ---------------------------------------------------------- the rule `keep`

  /** The edges of one target: the known names on the way to it and the first one that is evaluator
      material, nothing below that. */
  ghost predicate Kept(target: string, e: string, known: set<string>, evaluators: set<string>) {
    && InPackage(target, e) && (e in known || IsEvaluator(e, evaluators))
    && forall p | InPackage(target, p) && |p| < |e| :: !IsEvaluator(p, evaluators)
  }

  ghost predicate IsEdge(ref: Ref, e: string, known: set<string>, evaluators: set<string>) {
    match ref
    case Import(target) => Kept(target, e, known, evaluators)
    case From(base, names) =>
      || Kept(base, e, known, evaluators)
      || exists n :: n in names && n != "*" && Kept(base + "." + n, e, known, evaluators)
    case Literal(text) =>
      && text == e != "" && (forall i | 0 <= i < |text| :: !IsSpace(text[i]))
      && (e in known || IsEvaluator(e, evaluators))
  }

  lemma {:induction false} PrefixesAscend(name: string, from: nat, i: nat, j: nat)
    requires from <= |name| && i < j < |DottedPrefixes(name, from)|
    ensures |DottedPrefixes(name, from)[i]| < |DottedPrefixes(name, from)[j]|
    decreases |name| - from
  {
    if name[from] == '.' {
      if i > 0 {
        PrefixesAscend(name, from + 1, i - 1, j - 1);
      } else {
        assert DottedPrefixes(name, from)[j] in DottedPrefixes(name, from + 1);
        PrefixesFrom(name, from + 1, DottedPrefixes(name, from)[j]);
      }
    } else {
      PrefixesAscend(name, from + 1, i, j);
    }
  }

  lemma {:induction false} PrefixAt(target: string, j: nat)
    requires j < |DottedPrefixes(target, 0)|
    ensures var prefixes := DottedPrefixes(target, 0);
      && InPackage(target, prefixes[j])
      && forall p | InPackage(target, p) && |p| < |prefixes[j]| :: p in prefixes[..j]
  {
    hide InPackage;
    var prefixes := DottedPrefixes(target, 0);
    PackagesAreDottedPrefixes(target, prefixes[j]);
    forall p | InPackage(target, p) && |p| < |prefixes[j]|
      ensures p in prefixes[..j]
    {
      PackagesAreDottedPrefixes(target, p);
      var i :| 0 <= i < |prefixes| && prefixes[i] == p;
      if j < i { PrefixesAscend(target, 0, j, i); }
      assert prefixes[..j][i] == p;
    }
  }

  /** `keep`: the dotted prefixes in order, up to the first evaluator one. */
  method KeepEdges(target: string, known: set<string>, evaluators: set<string>) returns (edges: seq<string>)
    ensures forall e :: e in edges <==> Kept(target, e, known, evaluators)
  {
    hide InPackage, IsEvaluator, DottedPrefixes;
    var prefixes := DottedPrefixes(target, 0);
    edges := [];
    for i := 0 to |prefixes|
      invariant forall j | 0 <= j < i :: !IsEvaluator(prefixes[j], evaluators)
      invariant forall e :: e in edges <==> e in prefixes[..i] && e in known
    {
      assert prefixes[..i + 1] == prefixes[..i] + [prefixes[i]];
      if IsEvaluator(prefixes[i], evaluators) {
        StopsHere(target, known, evaluators, i);
        edges := edges + [prefixes[i]];
        return;
      }
      if prefixes[i] in known {
        edges := edges + [prefixes[i]];
      }
    }
    NoEvaluatorPrefix(target, known, evaluators);
    assert prefixes[..|prefixes|] == prefixes;
  }

  lemma {:induction false} StopsHere(target: string, known: set<string>, evaluators: set<string>, i: nat)
    requires i < |DottedPrefixes(target, 0)| && IsEvaluator(DottedPrefixes(target, 0)[i], evaluators)
    requires forall j | 0 <= j < i :: !IsEvaluator(DottedPrefixes(target, 0)[j], evaluators)
    ensures var prefixes := DottedPrefixes(target, 0);
      forall e :: Kept(target, e, known, evaluators) <==> e == prefixes[i] || (e in prefixes[..i] && e in known)
  {
    hide InPackage, IsEvaluator, DottedPrefixes;
    var prefixes := DottedPrefixes(target, 0);
    PrefixAt(target, i);
    forall q: nat | q < i ensures prefixes[q] in prefixes[..i] { assert prefixes[..i][q] == prefixes[q]; }
    forall e | e in prefixes
      ensures Kept(target, e, known, evaluators) <==> e == prefixes[i] || (e in prefixes[..i] && e in known)
    {
      if e in prefixes[..i] {
        var j: nat :| j < i && prefixes[..i][j] == e;
        PrefixAt(target, j);
        PrefixesAscend(target, 0, j, i);
        assert prefixes[j] == e;
        forall p | p in prefixes[..j] ensures !IsEvaluator(p, evaluators) {
          var q: nat :| q < j && prefixes[..j][q] == p;
          assert prefixes[q] == p;
        }
      } else if e != prefixes[i] {
        var j: nat :| j < |prefixes| && prefixes[j] == e;
        PrefixesAscend(target, 0, i, j);
      } else {
        forall p | p in prefixes[..i] ensures !IsEvaluator(p, evaluators) {
          var q: nat :| q < i && prefixes[..i][q] == p;
          assert prefixes[q] == p;
        }
      }
    }
    forall e | Kept(target, e, known, evaluators) ensures e in prefixes { PackagesAreDottedPrefixes(target, e); }
  }

  lemma {:induction false} NoEvaluatorPrefix(target: string, known: set<string>, evaluators: set<string>)
    requires forall j | 0 <= j < |DottedPrefixes(target, 0)| :: !IsEvaluator(DottedPrefixes(target, 0)[j], evaluators)
    ensures forall e :: Kept(target, e, known, evaluators) <==> e in DottedPrefixes(target, 0) && e in known
  {
    hide InPackage, IsEvaluator, DottedPrefixes;
    forall p ensures InPackage(target, p) <==> p in DottedPrefixes(target, 0) { PackagesAreDottedPrefixes(target, p); }
  }

  // ------------------------------------------------------- the edges of a module

  /** _edges_of: the edges of each statement, sorted and without repetitions. */
  method EdgesOf(refs: seq<Ref>, known: set<string>, evaluators: set<string>) returns (edges: seq<string>)
    ensures forall e :: e in edges <==> exists ref :: ref in refs && IsEdge(ref, e, known, evaluators)
  {
    hide IsEdge, StringLe;
    edges := [];
    for k := 0 to |refs|
      invariant forall e :: e in edges <==> exists ref :: ref in refs[..k] && IsEdge(ref, e, known, evaluators)
    {
      assert refs[..k + 1] == refs[..k] + [refs[k]];
      var own := EdgesOfRef(refs[k], known, evaluators);
      var listed := SortedStrings(set e | e in own);
      edges := edges + listed;
    }
    assert refs[..|refs|] == refs;
  }

  method EdgesOfRef(ref: Ref, known: set<string>, evaluators: set<string>) returns (edges: seq<string>)
    ensures forall e :: e in edges <==> IsEdge(ref, e, known, evaluators)
  {
    hide Kept, IsEvaluator;
    match ref
    case Import(target) =>
      edges := KeepEdges(target, known, evaluators);
    case From(base, names) =>
      edges := KeepEdges(base, known, evaluators);
      for k := 0 to |names|
        invariant forall e :: e in edges <==>
          || Kept(base, e, known, evaluators)
          || exists n :: n in names[..k] && n != "*" && Kept(base + "." + n, e, known, evaluators)
      {
        assert names[..k + 1] == names[..k] + [names[k]];
        if names[k] != "*" {
          var more := KeepEdges(base + "." + names[k], known, evaluators);
          edges := edges + more;
        }
      }
      assert names[..|names|] == names;
    case Literal(text) =>
      edges := if LooksLikeName(text) && (text in known || IsEvaluator(text, evaluators)) then [text] else [];
  }

  /** The graph holds exactly the edges of each module's statements. */
  ghost predicate GraphOf(modules: Modules, evaluators: set<string>, graph: Graph) {
    && graph.Keys == modules.Keys
    && forall m, e | m in modules ::
         e in graph[m] <==> exists ref :: ref in modules[m] && IsEdge(ref, e, modules.Keys, evaluators)
  }

  method BuildGraph(modules: Modules, evaluators: set<string>) returns (graph: Graph)
    ensures GraphOf(modules, evaluators, graph)
  {
    hide IsEdge, StringLe;
    var names := SortedStrings(modules.Keys);
    graph := map[];
    for k := 0 to |names|
      invariant graph.Keys == set m | m in names[..k]
      invariant forall m | m in graph :: m in modules
      invariant forall m, e | m in graph ::
        e in graph[m] <==> exists ref :: ref in modules[m] && IsEdge(ref, e, modules.Keys, evaluators)
    {
      assert names[k] in names && names[..k + 1] == names[..k] + [names[k]];
      var edges := EdgesOf(modules[names[k]], modules.Keys, evaluators);
      graph := graph[names[k] := edges];
    }
    assert names[..|names|] == names;
  }

  // ------------------------------------------------------- leaks in the source

  function Evaluator(evaluators: set<string>): string -> bool { n => IsEvaluator(n, evaluators) }

  ghost predicate LoadsFrom(modules: Modules, m: string, name: string) {
    m in modules && exists ref :: ref in modules[m] && Loads(ref, name)
  }

  /** A chain of names, each loaded by a statement of the module before it, into evaluator material. */
  ghost predicate SourceLeak(modules: Modules, evaluators: set<string>, from: string, path: seq<string>) {
    && path != [] && path[0] == from && IsEvaluator(Last(path), evaluators)
    && forall i | 0 <= i < |path| - 1 :: LoadsFrom(modules, path[i], path[i + 1])
  }

  lemma {:induction false} EdgeLoads(ref: Ref, e: string, known: set<string>, evaluators: set<string>)
    requires IsEdge(ref, e, known, evaluators)
    ensures Loads(ref, e)
  {}

  /** A name on the way to a target is an edge, or evaluator material before it is. */
  lemma {:induction false} KeptOrEvaluator(target: string, name: string, known: set<string>, evaluators: set<string>)
      returns (e: string)
    requires InPackage(target, name) && (name in known || IsEvaluator(name, evaluators))
    ensures Kept(target, e, known, evaluators) && (e == name || IsEvaluator(e, evaluators))
    decreases |name|
  {
    if p :| InPackage(target, p) && |p| < |name| && IsEvaluator(p, evaluators) {
      e := KeptOrEvaluator(target, p, known, evaluators);
    } else {
      e := name;
    }
  }

  lemma {:induction false} LoadedOrEvaluator(ref: Ref, name: string, known: set<string>, evaluators: set<string>)
      returns (e: string)
    requires Loads(ref, name) && (name in known || IsEvaluator(name, evaluators))
    ensures IsEdge(ref, e, known, evaluators) && (e == name || IsEvaluator(e, evaluators))
  {
    hide InPackage, IsEvaluator, Kept;
    match ref
    case Import(target) =>
      e := KeptOrEvaluator(target, name, known, evaluators);
    case From(base, names) =>
      if InPackage(base, name) {
        e := KeptOrEvaluator(base, name, known, evaluators);
      } else {
        var n :| n in names && n != "*" && InPackage(base + "." + n, name);
        e := KeptOrEvaluator(base + "." + n, name, known, evaluators);
      }
    case Literal(_) =>
      e := name;
  }

  lemma {:induction false} LeakIsInSource(modules: Modules, evaluators: set<string>, graph: Graph, from: string,
      path: seq<string>)
    requires GraphOf(modules, evaluators, graph) && Leak(graph, Evaluator(evaluators), from, path)
    ensures SourceLeak(modules, evaluators, from, path)
  {
    hide IsEdge, Loads, IsEvaluator;
    forall i | 0 <= i < |path| - 1
      ensures LoadsFrom(modules, path[i], path[i + 1])
    {
      assert path[i + 1] in Targets(graph, path[i]);
      var ref :| ref in modules[path[i]] && IsEdge(ref, path[i + 1], modules.Keys, evaluators);
      EdgeLoads(ref, path[i + 1], modules.Keys, evaluators);
    }
  }

  lemma {:induction false} SourceLeakIsFound(modules: Modules, evaluators: set<string>, graph: Graph, from: string,
      path: seq<string>)
      returns (found: seq<string>)
    requires GraphOf(modules, evaluators, graph) && SourceLeak(modules, evaluators, from, path)
    ensures Leak(graph, Evaluator(evaluators), from, found)
    decreases |path|
  {
    hide IsEdge, Loads, IsEvaluator, IsPath;
    if |path| == 1 {
      SinglePath(graph, from);
      return [from];
    }
    assert LoadsFrom(modules, path[0], path[0 + 1]);
    var ref :| ref in modules[from] && Loads(ref, path[1]);
    assert path[1] in modules || |path| == 2 by {
      if |path| > 2 { assert LoadsFrom(modules, path[1], path[1 + 1]); }
    }
    var e := LoadedOrEvaluator(ref, path[1], modules.Keys, evaluators);
    var rest: seq<string>;
    if IsEvaluator(e, evaluators) {
      SinglePath(graph, e);
      rest := [e];
    } else {
      TailLeaks(modules, evaluators, from, path);
      rest := SourceLeakIsFound(modules, evaluators, graph, path[1], path[1..]);
    }
    LeakThroughEdge(graph, Evaluator(evaluators), from, e, rest);
    found := [from] + rest;
  }

  lemma {:induction false} SinglePath(graph: Graph, from: string)
    ensures IsPath(graph, [from]) && Last([from]) == from
  {}

  lemma {:induction false} TailLeaks(modules: Modules, evaluators: set<string>, from: string, path: seq<string>)
    requires SourceLeak(modules, evaluators, from, path) && |path| > 1
    ensures SourceLeak(modules, evaluators, path[1], path[1..])
  {
    hide LoadsFrom, IsEvaluator;
    forall i | 0 <= i < |path[1..]| - 1
      ensures LoadsFrom(modules, path[1..][i], path[1..][i + 1])
    {
      assert LoadsFrom(modules, path[i + 1], path[i + 1 + 1]);
    }
  }

  /** Dropping the names below evaluator material hides no leak: what the graph reaches from a
      module is evaluator material exactly when what its statements load is. */
  lemma {:induction false} GraphShowsLeaks(modules: Modules, evaluators: set<string>, graph: Graph, from: string)
    requires GraphOf(modules, evaluators, graph)
    ensures (exists path :: Leak(graph, Evaluator(evaluators), from, path))
       <==> (exists path :: SourceLeak(modules, evaluators, from, path))
  {
    hide GraphOf, Leak, SourceLeak;
    if path :| Leak(graph, Evaluator(evaluators), from, path) {
      LeakIsInSource(modules, evaluators, graph, from, path);
    }
    if path :| SourceLeak(modules, evaluators, from, path) {
      var found := SourceLeakIsFound(modules, evaluators, graph, from, path);
    }
  }

  /** The verdict of `check` over the statements themselves: clean exactly when no chain of loads
      leads from a treatment module to evaluator material. */
  method Check(modules: Modules, packages: set<string>, evaluators: set<string>)
      returns (violations: seq<Violation>, treatment: seq<string>)
    ensures forall t :: t in treatment <==> t in modules && OnTreatment(t, packages)
    ensures Clean(violations) <==> forall t, path | t in treatment :: !SourceLeak(modules, evaluators, t, path)
  {
    hide GraphOf, Leak, SourceLeak, OnTreatment, Clean;
    var graph := BuildGraph(modules, evaluators);
    assert graph.Keys == modules.Keys by { SameModules(modules, evaluators, graph); }
    violations, treatment := CheckReachability(graph, packages, Evaluator(evaluators));
    forall t | t in treatment
      ensures (exists path :: Leak(graph, Evaluator(evaluators), t, path))
         <==> (exists path :: SourceLeak(modules, evaluators, t, path))
    {
      GraphShowsLeaks(modules, evaluators, graph, t);
    }
  }

  lemma {:induction false} SameModules(modules: Modules, evaluators: set<string>, graph: Graph)
    requires GraphOf(modules, evaluators, graph)
    ensures graph.Keys == modules.Keys
  {}
}
