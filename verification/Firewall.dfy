/** The graph half of the leakage firewall (tools/ci/check_leakage_firewall.py:299-302, 394-418,
    518-606), over the edges that ImportGraph builds from the import statements. */
module Firewall {
  import opened Options
  import opened Sorting

  /** Edge targets of each known module, in source order. */
  type Graph = map<string, seq<string>>

  // ---------------------------------------------------------- package names

  /** `module == package or module.startswith(package + ".")` */
  predicate InPackage(name: string, package: string) {
    name == package || package + "." <= name
  }

  /** The names in whose packages `name` lies, shortest first. */
  function DottedPrefixes(name: string, from: nat): (prefixes: seq<string>)
    requires from <= |name|
    decreases |name| - from
  {
    if from == |name| then [name]
    else if name[from] == '.' then [name[..from]] + DottedPrefixes(name, from + 1)
    else DottedPrefixes(name, from + 1)
  }

  lemma {:induction false} PrefixesFrom(name: string, from: nat, p: string)
    requires from <= |name|
    ensures p in DottedPrefixes(name, from) <==> |p| >= from && InPackage(name, p)
    decreases |name| - from
  {
    if from < |name| {
      PrefixesFrom(name, from + 1, p);
      if |p| == from {
        assert name[from] == '.' && p == name[..from] <==> p + "." <= name by {
          if name[from] == '.' && p == name[..from] {
            assert p + "." == name[..from + 1];
          }
          if p + "." <= name {
            assert name[..from] == p && name[from] == (p + ".")[from];
          }
        }
      }
    }
  }

  /** A module lies in exactly the packages its dotted prefixes name. */
  lemma {:induction false} PackagesAreDottedPrefixes(name: string, p: string)
    ensures InPackage(name, p) <==> p in DottedPrefixes(name, 0)
  {
    PrefixesFrom(name, 0, p);
  }

  /** To lie in a package is to have its name, or to go on after it with a dot. */
  lemma {:induction false} InPackageIs(name: string, p: string)
    ensures InPackage(name, p) <==> name == p || (|p| < |name| && name[..|p|] == p && name[|p|] == '.')
  {
    if p + "." <= name {
      assert name[..|p| + 1] == p + ".";
      assert name[..|p|] == name[..|p| + 1][..|p|] && name[|p|] == name[..|p| + 1][|p|];
    }
    if |p| < |name| && name[..|p|] == p && name[|p|] == '.' {
      assert name[..|p| + 1] == p + ".";
    }
  }

  /** A name is evaluator material, or on the treatment path, exactly when it is one of the listed
      names or goes on after one with a dot. */
  lemma {:induction false} MembershipIs(name: string, listed: set<string>)
    ensures IsEvaluator(name, listed) <==>
      exists e :: e in listed && (name == e || (|e| < |name| && name[..|e|] == e && name[|e|] == '.'))
    ensures OnTreatment(name, listed) <==> IsEvaluator(name, listed)
  {
    forall e ensures InPackage(name, e) <==> name == e || (|e| < |name| && name[..|e|] == e && name[|e|] == '.') {
      InPackageIs(name, e);
    }
  }

  /** is_evaluator: the name lies in some evaluator package. */
  predicate IsEvaluator(name: string, evaluators: set<string>) {
    exists e :: e in evaluators && InPackage(name, e)
  }

  // ----------------------------------------------------------------- paths

  function Targets(graph: Graph, node: string): set<string> {
    if node in graph then set t | t in graph[node] else {}
  }

  ghost predicate IsPath(graph: Graph, path: seq<string>) {
    path != [] && forall i | 0 <= i < |path| - 1 :: path[i + 1] in Targets(graph, path[i])
  }

  ghost function Last(path: seq<string>): string
    requires path != []
  {
    path[|path| - 1]
  }

  /** A path from `from` that ends in evaluator material. */
  ghost predicate Leak(graph: Graph, isEvaluator: string -> bool, from: string, path: seq<string>) {
    IsPath(graph, path) && path[0] == from && isEvaluator(Last(path))
  }

  lemma {:induction false} PathExtends(graph: Graph, path: seq<string>, t: string)
    requires IsPath(graph, path) && t in Targets(graph, Last(path))
    ensures IsPath(graph, path + [t])
  {
    hide Targets;
    forall i | 0 <= i < |path + [t]| - 1
      ensures (path + [t])[i + 1] in Targets(graph, (path + [t])[i])
    {
      if i < |path| - 1 {
        assert path[i + 1] in Targets(graph, path[i]);
      }
    }
  }

  lemma {:induction false} PathPrefix(graph: Graph, path: seq<string>)
    requires IsPath(graph, path) && |path| > 1
    ensures IsPath(graph, path[..|path| - 1]) && Last(path) in Targets(graph, Last(path[..|path| - 1]))
  {
    hide Targets;
    assert path[|path| - 2 + 1] in Targets(graph, path[|path| - 2]);
  }

  // -------------------------------------------------------------- breadth first

  /** Depth of every node seen so far. */
  type Depths = map<string, nat>

  /** Every seen node outside `open` has all its targets seen, at most one deeper. */
  ghost predicate Explored(graph: Graph, depth: Depths, open: set<string>) {
    forall x, y | x in depth && x !in open && y in Targets(graph, x) :: y in depth && depth[y] <= depth[x] + 1
  }

  /** While every open node is at least d deep, every path of at most d steps ends in a seen node
      that is no deeper than the path is long. */
  lemma {:induction false} ShortPathsSeen(graph: Graph, start: string, depth: Depths, open: set<string>, d: nat,
      path: seq<string>)
    requires start in depth && depth[start] == 0 && Explored(graph, depth, open)
    requires forall x | x in open && x in depth :: depth[x] >= d
    requires IsPath(graph, path) && path[0] == start && |path| <= d + 1
    ensures Last(path) in depth && depth[Last(path)] <= |path| - 1
    decreases |path|
  {
    if |path| > 1 {
      hide Targets;
      PathPrefix(graph, path);
      ShortPathsSeen(graph, start, depth, open, d, path[..|path| - 1]);
    }
  }

  /** With nothing open, whatever is reachable has been seen. */
  lemma {:induction false} ReachableSeen(graph: Graph, start: string, depth: Depths, path: seq<string>)
    requires start in depth && depth[start] == 0 && Explored(graph, depth, {})
    requires IsPath(graph, path) && path[0] == start
    ensures Last(path) in depth
  {
    ShortPathsSeen(graph, start, depth, {}, |path|, path);
  }

  datatype Entry = Entry(node: string, chain: seq<string>)

  ghost predicate EntryOk(graph: Graph, start: string, depth: Depths, e: Entry) {
    && IsPath(graph, e.chain) && e.chain[0] == start && Last(e.chain) == e.node
    && e.node in depth && depth[e.node] == |e.chain| - 1
  }

  ghost function Nodes(queue: seq<Entry>): set<string> { set i | 0 <= i < |queue| :: queue[i].node }

  /** The queue holds genuine chains in order of length, spanning at most two depths from d. */
  ghost predicate QueueOk(graph: Graph, start: string, depth: Depths, queue: seq<Entry>, d: nat) {
    && (forall i | 0 <= i < |queue| :: EntryOk(graph, start, depth, queue[i]) && d <= depth[queue[i].node])
    && (forall i, j | 0 <= i < j < |queue| :: |queue[i].chain| <= |queue[j].chain|)
    && (forall x | x in depth :: depth[x] <= d + 1)
  }

  ghost predicate NoneFound(depth: Depths, isEvaluator: string -> bool, start: string) {
    start in depth && depth[start] == 0 && forall x | x in depth :: !isEvaluator(x)
  }

  ghost function AllNames(graph: Graph, start: string): set<string> {
    {start} + set n, t | n in graph && t in graph[n] :: t
  }

  lemma {:induction false} TargetIsName(graph: Graph, start: string, x: string, t: string)
    requires t in Targets(graph, x)
    ensures t in AllNames(graph, start)
  {}

  /** Adding a new target of the node in hand, one deeper, at the end of the queue. */
  lemma {:induction false} Enqueue(graph: Graph, start: string, depth: Depths, queue: seq<Entry>, d: nat,
      node: string, chain: seq<string>, t: string)
    requires QueueOk(graph, start, depth, queue, d) && EntryOk(graph, start, depth, Entry(node, chain))
      && depth[node] == d
    requires t in Targets(graph, node) && t !in depth
    requires Explored(graph, depth, Nodes(queue) + {node})
    ensures var depth', queue' := depth[t := d + 1], queue + [Entry(t, chain + [t])];
      && QueueOk(graph, start, depth', queue', d) && EntryOk(graph, start, depth', Entry(node, chain))
      && Explored(graph, depth', Nodes(queue') + {node})
  {
    hide Explored, Nodes;
    var e := Entry(t, chain + [t]);
    EnqueueExplored(graph, depth, queue, d, node, e);
    EntryExtends(graph, start, depth, node, chain, t, d);
    hide Targets, IsPath, EntryOk;
    QueueExtends(graph, start, depth, queue, e, d);
  }

  lemma {:induction false} EntryExtends(graph: Graph, start: string, depth: Depths, node: string, chain: seq<string>,
      t: string, d: nat)
    requires EntryOk(graph, start, depth, Entry(node, chain)) && depth[node] == d && t in Targets(graph, node)
      && t !in depth
    ensures EntryOk(graph, start, depth[t := d + 1], Entry(node, chain))
      && EntryOk(graph, start, depth[t := d + 1], Entry(t, chain + [t]))
    ensures |chain| == d + 1
  {
    hide Targets, IsPath;
    PathExtends(graph, chain, t);
    PathNonEmpty(graph, chain);
  }

  lemma {:induction false} QueueExtends(graph: Graph, start: string, depth: Depths, queue: seq<Entry>, e: Entry, d: nat)
    requires QueueOk(graph, start, depth, queue, d) && e.node !in depth && |e.chain| == d + 2
    requires EntryOk(graph, start, depth[e.node := d + 1], e)
    ensures QueueOk(graph, start, depth[e.node := d + 1], queue + [e], d)
  {
    hide IsPath;
    var after := depth[e.node := d + 1];
    forall i | 0 <= i < |queue|
      ensures EntryOk(graph, start, after, queue[i]) && d <= after[queue[i].node] && |queue[i].chain| <= |e.chain|
    {
      assert EntryOk(graph, start, depth, queue[i]);
    }
  }

  lemma {:induction false} EnqueueExplored(graph: Graph, depth: Depths, queue: seq<Entry>, d: nat, node: string,
      e: Entry)
    requires Explored(graph, depth, Nodes(queue) + {node}) && e.node !in depth
    ensures Explored(graph, depth[e.node := d + 1], Nodes(queue + [e]) + {node})
  {
    NodesAppend(queue, e);
    ExploredAfter(graph, depth, Nodes(queue) + {node}, e.node, d);
    assert Nodes(queue + [e]) + {node} == Nodes(queue) + {node} + {e.node};
  }

  lemma {:induction false} ExploredAfter(graph: Graph, depth: Depths, open: set<string>, t: string, d: nat)
    requires Explored(graph, depth, open) && t !in depth
    ensures Explored(graph, depth[t := d + 1], open + {t})
  {
    hide Targets;
  }

  lemma {:induction false} NodesAppend(queue: seq<Entry>, e: Entry)
    ensures Nodes(queue + [e]) == Nodes(queue) + {e.node}
  {
    var all := queue + [e];
    assert all[|queue|] == e;
    forall x | x in Nodes(queue) ensures x in Nodes(all) {
      var i :| 0 <= i < |queue| && queue[i].node == x;
      assert all[i].node == x;
    }
    forall x | x in Nodes(all) ensures x in Nodes(queue) + {e.node} {
      var i :| 0 <= i < |all| && all[i].node == x;
      if i < |queue| { assert queue[i].node == x; }
    }
  }

  lemma {:induction false} PathNonEmpty(graph: Graph, path: seq<string>)
    requires IsPath(graph, path)
    ensures path != []
  {}

  lemma {:induction false} StartState(graph: Graph, start: string, isEvaluator: string -> bool)
    requires !isEvaluator(start)
    ensures var depth, queue := map[start := 0], [Entry(start, [start])];
      && NoneFound(depth, isEvaluator, start) && start in AllNames(graph, start)
      && Explored(graph, depth, Nodes(queue)) && QueueOk(graph, start, depth, queue, 0)
  {
    var queue := [Entry(start, [start])];
    assert queue[0].node == start;
    assert start in Nodes(queue);
  }

  lemma {:induction false} Dequeue(graph: Graph, start: string, depth: Depths, queue: seq<Entry>, d: nat)
    requires queue != [] && |queue[0].chain| == d + 1 && QueueOk(graph, start, depth, queue, d)
    requires Explored(graph, depth, Nodes(queue))
    ensures var e := queue[0];
      && EntryOk(graph, start, depth, Entry(e.node, e.chain)) && depth[e.node] == d
      && QueueOk(graph, start, depth, queue[1..], d) && Explored(graph, depth, Nodes(queue[1..]) + {e.node})
  {
    hide Targets, IsPath;
    assert EntryOk(graph, start, depth, queue[0]);
    forall i | 0 <= i < |queue[1..]|
      ensures EntryOk(graph, start, depth, queue[1..][i]) && d <= depth[queue[1..][i].node]
    {
      assert EntryOk(graph, start, depth, queue[i + 1]);
    }
    forall x | x in Nodes(queue)
      ensures x in Nodes(queue[1..]) + {queue[0].node}
    {
      var i :| 0 <= i < |queue| && queue[i].node == x;
      if i > 0 { assert queue[1..][i - 1].node == x; }
    }
  }

  /** All targets of the node in hand are seen: it is explored, and the next depth is ready. */
  lemma {:induction false} NodeDone(graph: Graph, start: string, depth: Depths, queue: seq<Entry>, d: nat, node: string)
    requires QueueOk(graph, start, depth, queue, d) && Explored(graph, depth, Nodes(queue) + {node})
    requires node in depth && depth[node] == d && forall t | t in Targets(graph, node) :: t in depth
    ensures Explored(graph, depth, Nodes(queue))
    ensures queue != [] ==> |queue[0].chain| >= 1 && QueueOk(graph, start, depth, queue, |queue[0].chain| - 1)
  {
    hide Targets, IsPath;
    if queue != [] {
      assert EntryOk(graph, start, depth, queue[0]);
      forall i | 0 <= i < |queue|
        ensures depth[queue[i].node] >= |queue[0].chain| - 1
      {
        assert EntryOk(graph, start, depth, queue[i]);
      }
    }
  }

  /** Evaluator material met while expanding depth d is at the least possible distance. */
  lemma {:induction false} FoundShortest(graph: Graph, start: string, isEvaluator: string -> bool, depth: Depths,
      queue: seq<Entry>, d: nat, node: string, chain: seq<string>, target: string)
    requires NoneFound(depth, isEvaluator, start) && QueueOk(graph, start, depth, queue, d)
    requires EntryOk(graph, start, depth, Entry(node, chain)) && depth[node] == d
    requires Explored(graph, depth, Nodes(queue) + {node})
    requires target in Targets(graph, node) && isEvaluator(target)
    ensures Leak(graph, isEvaluator, start, chain + [target])
    ensures forall path :: Leak(graph, isEvaluator, start, path) ==> |chain + [target]| <= |path|
  {
    hide Targets, Explored, IsPath;
    PathExtends(graph, chain, target);
    assert |chain| >= 1 by { PathNonEmpty(graph, chain); }
    forall path | Leak(graph, isEvaluator, start, path)
      ensures |chain| + 1 <= |path|
    {
      if |path| <= d + 1 {
        ShortPathsSeen(graph, start, depth, Nodes(queue) + {node}, d, path);
      }
    }
  }

  lemma {:induction false} NothingReachable(graph: Graph, start: string, isEvaluator: string -> bool, depth: Depths)
    requires NoneFound(depth, isEvaluator, start) && Explored(graph, depth, Nodes([]))
    ensures forall path :: !Leak(graph, isEvaluator, start, path)
  {
    hide Targets, IsPath;
    assert Nodes([]) == {};
    forall path
      ensures !Leak(graph, isEvaluator, start, path)
    {
      if Leak(graph, isEvaluator, start, path) {
        ReachableSeen(graph, start, depth, path);
      }
    }
  }

  lemma {:induction false} StillNone(depth: Depths, isEvaluator: string -> bool, start: string, t: string, d: nat)
    requires NoneFound(depth, isEvaluator, start) && t !in depth && !isEvaluator(t)
    ensures NoneFound(depth[t := d], isEvaluator, start)
  {}

  /** The state while the targets of `node`, at depth d, are being looked at. */
  ghost predicate Midway(graph: Graph, start: string, isEvaluator: string -> bool, seen: set<string>, depth: Depths,
      queue: seq<Entry>, d: nat, node: string, chain: seq<string>) {
    && seen == depth.Keys && seen <= AllNames(graph, start) && NoneFound(depth, isEvaluator, start)
    && Explored(graph, depth, Nodes(queue) + {node}) && QueueOk(graph, start, depth, queue, d)
    && EntryOk(graph, start, depth, Entry(node, chain)) && depth[node] == d
  }

  lemma {:induction false} MidwayStep(graph: Graph, start: string, isEvaluator: string -> bool, seen: set<string>,
      depth: Depths, queue: seq<Entry>, d: nat, node: string, chain: seq<string>, t: string)
    requires Midway(graph, start, isEvaluator, seen, depth, queue, d, node, chain)
    requires t in Targets(graph, node) && t !in seen && !isEvaluator(t)
    ensures Midway(graph, start, isEvaluator, seen + {t}, depth[t := d + 1], queue
      + [Entry(t, chain + [t])], d, node, chain)
  {
    hide Targets, Explored, QueueOk, AllNames, NoneFound, Nodes;
    KnowsNode(graph, start, depth, node, chain);
    TargetIsName(graph, start, node, t);
    Enqueue(graph, start, depth, queue, d, node, chain, t);
    StillNone(depth, isEvaluator, start, t, d + 1);
  }

  lemma {:induction false} KnowsNode(graph: Graph, start: string, depth: Depths, node: string, chain: seq<string>)
    requires EntryOk(graph, start, depth, Entry(node, chain))
    ensures node in depth
  {}

  /** The inner loop: the unseen targets of `node` in sorted order, until one is evaluator material. */
  method Expand(graph: Graph, start: string, isEvaluator: string -> bool, seen: set<string>, ghost depth: Depths,
      queue: seq<Entry>, ghost d: nat, node: string, chain: seq<string>)
    returns (found: Option<seq<string>>, seen': set<string>, queue': seq<Entry>, ghost depth': Depths)
    requires Midway(graph, start, isEvaluator, seen, depth, queue, d, node, chain)
    ensures found.Some? ==> Leak(graph, isEvaluator, start, found.value)
    ensures found.Some? ==> forall path :: Leak(graph, isEvaluator, start, path) ==> |found.value| <= |path|
    ensures found.None? ==>
      && Midway(graph, start, isEvaluator, seen', depth', queue', d, node, chain)
      && (forall t | t in Targets(graph, node) :: t in depth')
    ensures seen <= seen' && (seen' == seen ==> queue' == queue)
  {
    hide Targets, Explored, QueueOk, AllNames, NoneFound, Nodes, EntryOk, Leak, StringLe, IsPath;
    found, seen', queue', depth' := None, seen, queue, depth;
    var targets := SortedStrings(Targets(graph, node));
    for k := 0 to |targets|
      invariant Midway(graph, start, isEvaluator, seen', depth', queue', d, node, chain)
      invariant forall i | 0 <= i < k :: targets[i] in seen'
      invariant seen <= seen' && (seen' == seen ==> queue' == queue)
    {
      var target := targets[k];
      assert target in Targets(graph, node);
      if target in seen' {
        continue;
      }
      var extended := chain + [target];
      if isEvaluator(target) {
        FoundShortest(graph, start, isEvaluator, depth', queue', d, node, chain, target);
        found := Some(extended);
        return;
      }
      MidwayStep(graph, start, isEvaluator, seen', depth', queue', d, node, chain, target);
      seen' := seen' + {target};
      depth' := depth'[target := d + 1];
      queue' := queue' + [Entry(target, extended)];
    }
    forall t | t in Targets(graph, node) ensures t in depth' { assert t in targets; }
  }

  /** _first_evaluator_chain */
  method FirstEvaluatorChain(start: string, graph: Graph, isEvaluator: string -> bool) returns (r: Option<seq<string>>)
    ensures r.Some? ==> Leak(graph, isEvaluator, start, r.value)
    ensures r.Some? ==> forall path :: Leak(graph, isEvaluator, start, path) ==> |r.value| <= |path|
    ensures r.None? ==> forall path :: !Leak(graph, isEvaluator, start, path)
  {
    hide Targets, Explored, QueueOk, AllNames, EntryOk, NoneFound, Nodes;
    if isEvaluator(start) {
      return Some([start]);
    }
    hide IsPath, Leak;
    var seen := {start};
    var queue := [Entry(start, [start])];
    ghost var depth: Depths := map[start := 0];
    StartState(graph, start, isEvaluator);
    while queue != []
      invariant seen == depth.Keys && seen <= AllNames(graph, start) && NoneFound(depth, isEvaluator, start)
      invariant Explored(graph, depth, Nodes(queue))
      invariant queue != [] ==> |queue[0].chain| >= 1 && QueueOk(graph, start, depth, queue, |queue[0].chain| - 1)
      decreases AllNames(graph, start) - seen, |queue|
    {
      var node, chain := queue[0].node, queue[0].chain;
      ghost var d := |chain| - 1;
      Dequeue(graph, start, depth, queue, d);
      ghost var before := seen;
      var found;
      found, seen, queue, depth := Expand(graph, start, isEvaluator, seen, depth, queue[1..], d, node, chain);
      if found.Some? {
        return found;
      }
      KnowsNode(graph, start, depth, node, chain);
      NodeDone(graph, start, depth, queue, d, node);
      assert seen != before ==> AllNames(graph, start) - seen < AllNames(graph, start) - before;
    }
    NothingReachable(graph, start, isEvaluator, depth);
    return None;
  }

  // --------------------------------------------------------------- the check

  datatype Violation =
    | MissingTreatmentPackage(package: string)
    | TreatmentAndEvaluator(name: string)
    | EvaluatorImport(name: string, chain: seq<string>)

  predicate OnTreatment(name: string, packages: set<string>) {
    exists p :: p in packages && InPackage(name, p)
  }

  /** A violation that means evaluator material can be reached. */
  ghost predicate IsLeakReport(v: Violation) { v.TreatmentAndEvaluator? || v.EvaluatorImport? }

  ghost predicate Clean(violations: seq<Violation>) {
    forall v | v in violations :: !IsLeakReport(v)
  }

  /** A report whose chain is a shortest way from `target`, imported by `name`, to evaluator material. */
  ghost predicate Reports(graph: Graph, isEvaluator: string -> bool, name: string, target: string, v: Violation) {
    && v.EvaluatorImport? && v.name == name && Leak(graph, isEvaluator, target, v.chain)
    && forall path :: Leak(graph, isEvaluator, target, path) ==> |v.chain| <= |path|
  }

  /** Every edge that leads to evaluator material has its own report, and every report is of an edge. */
  ghost predicate EdgesReported(graph: Graph, isEvaluator: string -> bool, name: string, edges: seq<string>,
      found: seq<Violation>) {
    && (forall e, path | e in edges && Leak(graph, isEvaluator, e, path) ::
          HasReport(graph, isEvaluator, name, e, found))
    && (forall v | v in found && v.EvaluatorImport? && v.name == name :: OfAnEdge(graph, isEvaluator, edges, v))
  }

  ghost predicate HasReport(graph: Graph, isEvaluator: string -> bool, name: string, target: string,
      found: seq<Violation>) {
    exists v :: v in found && Reports(graph, isEvaluator, name, target, v)
  }

  ghost predicate OfAnEdge(graph: Graph, isEvaluator: string -> bool, edges: seq<string>, v: Violation)
    requires v.EvaluatorImport?
  {
    exists e :: e in edges && Reports(graph, isEvaluator, v.name, e, v)
  }

  lemma {:induction false} ReportKept(graph: Graph, isEvaluator: string -> bool, name: string, target: string,
      found: seq<Violation>, more: seq<Violation>)
    requires HasReport(graph, isEvaluator, name, target, found) && forall v | v in found :: v in more
    ensures HasReport(graph, isEvaluator, name, target, more)
  {
    hide Reports;
  }

  lemma {:induction false} EdgeKept(graph: Graph, isEvaluator: string -> bool, edges: seq<string>, more: seq<string>,
      v: Violation)
    requires v.EvaluatorImport? && OfAnEdge(graph, isEvaluator, edges, v) && forall e | e in edges :: e in more
    ensures OfAnEdge(graph, isEvaluator, more, v)
  {
    hide Reports;
  }

  /** The reports on one treatment module: itself, and each of its edges. */
  method ReportsOn(name: string, graph: Graph, isEvaluator: string -> bool) returns (found: seq<Violation>)
    requires name in graph
    ensures forall v | v in found :: IsLeakReport(v) && v.name == name
    ensures TreatmentAndEvaluator(name) in found <==> isEvaluator(name)
    ensures EdgesReported(graph, isEvaluator, name, graph[name], found)
    ensures forall v | v in found && v.EvaluatorImport? :: Leak(graph, isEvaluator, name, [name] + v.chain)
    ensures found == [] <==> forall path :: !Leak(graph, isEvaluator, name, path)
  {
    hide Targets, IsPath, Leak, EdgesReported, Reports;
    found := if isEvaluator(name) then [TreatmentAndEvaluator(name)] else [];
    var edges := graph[name];
    assert EdgesReported(graph, isEvaluator, name, edges[..0], found) by {
      NoEdges(graph, isEvaluator, name, edges[..0], found);
    }
    for k := 0 to |edges|
      invariant forall v | v in found :: IsLeakReport(v) && v.name == name
      invariant TreatmentAndEvaluator(name) in found <==> isEvaluator(name)
      invariant EdgesReported(graph, isEvaluator, name, edges[..k], found)
      invariant forall v | v in found && v.EvaluatorImport? :: Leak(graph, isEvaluator, name, [name] + v.chain)
      invariant found == [] <==>
        !isEvaluator(name) && forall j, path | 0 <= j < k :: !Leak(graph, isEvaluator, edges[j], path)
    {
      var chain := FirstEvaluatorChain(edges[k], graph, isEvaluator);
      assert edges[..k + 1] == edges[..k] + [edges[k]];
      if chain.Some? {
        LeakThroughEdge(graph, isEvaluator, name, edges[k], chain.value);
        EdgeReported(graph, isEvaluator, name, edges[..k], edges[k], found, chain.value);
        found := found + [EvaluatorImport(name, chain.value)];
        assert found[|found| - 1] == EvaluatorImport(name, chain.value);
      } else {
        EdgeIsClean(graph, isEvaluator, name, edges[..k], edges[k], found);
      }
    }
    assert edges[..|edges|] == edges;
    LeaksStartWithAnEdge(graph, isEvaluator, name);
  }

  lemma {:induction false} NoEdges(graph: Graph, isEvaluator: string -> bool, name: string, edges: seq<string>,
      found: seq<Violation>)
    requires edges == [] && forall v | v in found :: !v.EvaluatorImport?
    ensures EdgesReported(graph, isEvaluator, name, edges, found)
  {}

  lemma {:induction false} EdgeReported(graph: Graph, isEvaluator: string -> bool, name: string, edges: seq<string>,
      target: string, found: seq<Violation>, chain: seq<string>)
    requires EdgesReported(graph, isEvaluator, name, edges, found) && Leak(graph, isEvaluator, target, chain)
    requires forall path :: Leak(graph, isEvaluator, target, path) ==> |chain| <= |path|
    ensures EdgesReported(graph, isEvaluator, name, edges + [target], found + [EvaluatorImport(name, chain)])
  {
    var v := EvaluatorImport(name, chain);
    assert Reports(graph, isEvaluator, name, target, v);
    hide Leak, Reports;
    var (all, more) := (edges + [target], found + [v]);
    assert v in more && target in all;
    assert HasReport(graph, isEvaluator, name, target, more) && OfAnEdge(graph, isEvaluator, all, v);
    hide HasReport, OfAnEdge;
    forall e, path | e in all && Leak(graph, isEvaluator, e, path)
      ensures HasReport(graph, isEvaluator, name, e, more)
    {
      if e != target { ReportKept(graph, isEvaluator, name, e, found, more); }
    }
    forall u | u in more && u.EvaluatorImport? && u.name == name ensures OfAnEdge(graph, isEvaluator, all, u) {
      if u != v { EdgeKept(graph, isEvaluator, edges, all, u); }
    }
  }

  lemma {:induction false} EdgeIsClean(graph: Graph, isEvaluator: string -> bool, name: string, edges: seq<string>,
      target: string, found: seq<Violation>)
    requires EdgesReported(graph, isEvaluator, name, edges, found)
    requires forall path :: !Leak(graph, isEvaluator, target, path)
    ensures EdgesReported(graph, isEvaluator, name, edges + [target], found)
  {
    hide Leak, HasReport, OfAnEdge;
    forall u | u in found && u.EvaluatorImport? && u.name == name
      ensures OfAnEdge(graph, isEvaluator, edges + [target], u)
    {
      EdgeKept(graph, isEvaluator, edges, edges + [target], u);
    }
  }

  lemma {:induction false} LeakThroughEdge(graph: Graph, isEvaluator: string -> bool, name: string, target: string,
      chain: seq<string>)
    requires name in graph && target in graph[name] && Leak(graph, isEvaluator, target, chain)
    ensures Leak(graph, isEvaluator, name, [name] + chain)
  {
    var path := [name] + chain;
    forall i | 0 <= i < |path| - 1
      ensures path[i + 1] in Targets(graph, path[i])
    {
      if i > 0 { assert chain[i - 1 + 1] in Targets(graph, chain[i - 1]); }
    }
  }

  lemma {:induction false} LeaksStartWithAnEdge(graph: Graph, isEvaluator: string -> bool, name: string)
    requires name in graph
    ensures (forall path :: !Leak(graph, isEvaluator, name, path))
       <==> !isEvaluator(name)
              && forall j, path | 0 <= j < |graph[name]| :: !Leak(graph, isEvaluator, graph[name][j], path)
  {
    if forall path :: !Leak(graph, isEvaluator, name, path) {
      assert !Leak(graph, isEvaluator, name, [name]);
      forall j, path | 0 <= j < |graph[name]|
        ensures !Leak(graph, isEvaluator, graph[name][j], path)
      {
        if Leak(graph, isEvaluator, graph[name][j], path) {
          LeakThroughEdge(graph, isEvaluator, name, graph[name][j], path);
        }
      }
    } else {
      var path :| Leak(graph, isEvaluator, name, path);
      LeakUnfolds(graph, isEvaluator, name, path);
    }
  }

  lemma {:induction false} LeakUnfolds(graph: Graph, isEvaluator: string -> bool, name: string, path: seq<string>)
    requires name in graph && Leak(graph, isEvaluator, name, path)
    ensures isEvaluator(name) || exists j ::
      0 <= j < |graph[name]| && Leak(graph, isEvaluator, graph[name][j], path[1..])
  {
    if |path| > 1 {
      assert path[0 + 1] in Targets(graph, path[0]);
      var j :| 0 <= j < |graph[name]| && graph[name][j] == path[1];
      forall i | 0 <= i < |path[1..]| - 1
        ensures path[1..][i + 1] in Targets(graph, path[1..][i])
      {
        assert path[i + 1 + 1] in Targets(graph, path[i + 1]);
      }
      assert Leak(graph, isEvaluator, graph[name][j], path[1..]);
    }
  }

  /** The reports of the modules listed so far: exactly the required ones. */
  ghost predicate Reported(graph: Graph, isEvaluator: string -> bool, listed: seq<string>, violations: seq<Violation>)
    requires forall t | t in listed :: t in graph
  {
    && (forall t :: TreatmentAndEvaluator(t) in violations <==> t in listed && isEvaluator(t))
    && (forall v | v in violations && v.EvaluatorImport? :: v.name in listed)
    && (forall t | t in listed :: EdgesReported(graph, isEvaluator, t, graph[t], violations))
  }

  lemma {:induction false} OneMoreReported(graph: Graph, isEvaluator: string -> bool, listed: seq<string>,
      violations: seq<Violation>, name: string, found: seq<Violation>)
    requires (forall t | t in listed :: t in graph) && name in graph && name !in listed
    requires Reported(graph, isEvaluator, listed, violations)
    requires forall v | v in found :: IsLeakReport(v) && v.name == name
    requires TreatmentAndEvaluator(name) in found <==> isEvaluator(name)
    requires EdgesReported(graph, isEvaluator, name, graph[name], found)
    ensures Reported(graph, isEvaluator, listed + [name], violations + found)
  {
    hide Leak, Reports, EdgesReported;
    var all := violations + found;
    forall t ensures TreatmentAndEvaluator(t) in all <==> t in listed + [name] && isEvaluator(t) {
      assert TreatmentAndEvaluator(t) in found ==> t == name;
    }
    forall t | t in listed ensures EdgesReported(graph, isEvaluator, t, graph[t], all) {
      OthersStay(graph, isEvaluator, t, graph[t], violations, all);
    }
    OthersStay(graph, isEvaluator, name, graph[name], found, all);
  }

  /** Reports about other modules do not matter. */
  lemma {:induction false} OthersStay(graph: Graph, isEvaluator: string -> bool, name: string, edges: seq<string>,
      found: seq<Violation>, all: seq<Violation>)
    requires EdgesReported(graph, isEvaluator, name, edges, found)
    requires forall v | v in found :: v in all
    requires forall v | v in all && v.EvaluatorImport? && v.name == name :: v in found
    ensures EdgesReported(graph, isEvaluator, name, edges, all)
  {
    hide Leak, HasReport, OfAnEdge;
    forall e, path | e in edges && Leak(graph, isEvaluator, e, path)
      ensures HasReport(graph, isEvaluator, name, e, all)
    {
      ReportKept(graph, isEvaluator, name, e, found, all);
    }
  }

  /** The reachability half of `check`: which packages and modules are reported, an edge of a
      treatment module exactly when it leads to evaluator material; and so no leak report if and only
      if no path leads from any treatment module to evaluator material. */
  method CheckReachability(graph: Graph, packages: set<string>, isEvaluator: string -> bool)
    returns (violations: seq<Violation>, treatment: seq<string>)
    ensures Distinct(treatment) && forall t :: t in treatment <==> t in graph && OnTreatment(t, packages)
    ensures Reported(graph, isEvaluator, treatment, violations)
    ensures Clean(violations) <==> forall t, path | t in treatment :: !Leak(graph, isEvaluator, t, path)
    ensures forall p :: MissingTreatmentPackage(p) in violations <==>
      p in packages && forall t | t in treatment :: !InPackage(t, p)
  {
    hide Leak, StringLe, InPackage, Reported, OnTreatment;
    treatment := SortedStrings(set m | m in graph && OnTreatment(m, packages));
    var missing := MissingPackages(packages, treatment);
    var found := ReportTreatment(graph, treatment, isEvaluator);
    violations := missing + found;
    MissingAside(graph, isEvaluator, treatment, missing, found);
    if found != [] { assert found[0] in violations; }
  }

  lemma {:induction false} MissingAside(graph: Graph, isEvaluator: string -> bool, treatment: seq<string>,
      missing: seq<Violation>, found: seq<Violation>)
    requires forall t | t in treatment :: t in graph
    requires Reported(graph, isEvaluator, treatment, found) && forall v | v in missing :: v.MissingTreatmentPackage?
    ensures Reported(graph, isEvaluator, treatment, missing + found)
  {
    hide EdgesReported;
    forall t | t in treatment ensures EdgesReported(graph, isEvaluator, t, graph[t], missing + found) {
      OthersStay(graph, isEvaluator, t, graph[t], found, missing + found);
    }
  }

  method ReportTreatment(graph: Graph, treatment: seq<string>, isEvaluator: string -> bool)
      returns (found: seq<Violation>)
    requires Distinct(treatment) && forall t | t in treatment :: t in graph
    ensures Reported(graph, isEvaluator, treatment, found) && forall v | v in found :: IsLeakReport(v)
    ensures found == [] <==> forall t, path | t in treatment :: !Leak(graph, isEvaluator, t, path)
  {
    hide Leak, Reported, EdgesReported;
    found := [];
    NoneReported(graph, isEvaluator, treatment[..0], found);
    for k := 0 to |treatment|
      invariant forall t | t in treatment[..k] :: t in graph
      invariant Reported(graph, isEvaluator, treatment[..k], found) && forall v | v in found :: IsLeakReport(v)
      invariant found == [] <==> forall j, path | 0 <= j < k :: !Leak(graph, isEvaluator, treatment[j], path)
    {
      assert treatment[k] in treatment && treatment[..k + 1] == treatment[..k] + [treatment[k]];
      var more := ReportsOn(treatment[k], graph, isEvaluator);
      OneMoreReported(graph, isEvaluator, treatment[..k], found, treatment[k], more);
      found := found + more;
    }
    assert treatment[..|treatment|] == treatment;
  }

  lemma {:induction false} NoneReported(graph: Graph, isEvaluator: string -> bool, listed: seq<string>,
      violations: seq<Violation>)
    requires listed == [] && forall v | v in violations :: v.MissingTreatmentPackage?
    ensures Reported(graph, isEvaluator, listed, violations)
  {}

  /** The treatment packages no module lies in. */
  method MissingPackages(packages: set<string>, treatment: seq<string>) returns (missing: seq<Violation>)
    ensures Clean(missing) && forall v | v in missing :: v.MissingTreatmentPackage?
    ensures forall p :: MissingTreatmentPackage(p) in missing <==>
      p in packages && forall t | t in treatment :: !InPackage(t, p)
  {
    hide StringLe, InPackage;
    missing := [];
    var listed := SortedStrings(packages);
    for k := 0 to |listed|
      invariant Clean(missing) && forall v | v in missing :: v.MissingTreatmentPackage?
      invariant forall p :: MissingTreatmentPackage(p) in missing <==>
        p in listed[..k] && forall t | t in treatment :: !InPackage(t, p)
    {
      assert listed[..k + 1] == listed[..k] + [listed[k]];
      if !exists t :: t in treatment && InPackage(t, listed[k]) {
        missing := missing + [MissingTreatmentPackage(listed[k])];
      }
    }
    assert listed[..|listed|] == listed;
  }

  // ------------------------------------------------------------- the closure

  /** A chain of known, non-evaluator modules from a treatment module to x. */
  ghost predicate ClosureChain(graph: Graph, isEvaluator: string -> bool, treatment: set<string>, x: string,
      path: seq<string>) {
    && IsPath(graph, path) && path[0] in treatment && Last(path) == x
    && forall i | 1 <= i < |path| :: path[i] in graph && !isEvaluator(path[i])
  }

  ghost predicate ClosureOk(graph: Graph, isEvaluator: string -> bool, treatment: set<string>,
      closure: map<string, seq<string>>) {
    && treatment <= closure.Keys <= graph.Keys
    && forall x | x in closure :: ClosureChain(graph, isEvaluator, treatment, x, closure[x])
  }

  /** Every traversable target of a module outside `queue` is in the closure. */
  ghost predicate ClosedBut(graph: Graph, isEvaluator: string -> bool, closure: map<string, seq<string>>,
      queue: set<string>) {
    forall x, t | x in closure && x !in queue && t in Targets(graph, x) && t in graph && !isEvaluator(t) :: t in closure
  }

  method Closure(graph: Graph, isEvaluator: string -> bool, treatment: set<string>)
      returns (closure: map<string, seq<string>>)
    requires treatment <= graph.Keys
    ensures ClosureOk(graph, isEvaluator, treatment, closure) && ClosedBut(graph, isEvaluator, closure, {})
  {
    hide Targets, ClosureChain, StringLe, Sorted;
    closure := map t | t in treatment :: [t];
    forall t | t in treatment ensures ClosureChain(graph, isEvaluator, treatment, t,
        [t]) { TrivialChain(graph, isEvaluator, treatment, t); }
    var queue := SortedStrings(treatment);
    while queue != []
      invariant ClosureOk(graph, isEvaluator, treatment, closure)
      invariant (forall x | x in queue :: x in closure) && ClosedBut(graph, isEvaluator, closure, set x | x in queue)
      decreases graph.Keys - closure.Keys, |queue|
    {
      var node := queue[0];
      var rest := queue[1..];
      assert queue == [node] + rest;
      ghost var before := closure;
      queue := rest;
      var targets := SortedStrings(Targets(graph, node));
      for k := 0 to |targets|
        invariant ClosureOk(graph, isEvaluator, treatment, closure) && node in closure
        invariant (forall x | x in queue :: x in closure) && before.Keys <= closure.Keys
          && (closure.Keys == before.Keys ==> queue == rest)
        invariant ClosedBut(graph, isEvaluator, closure, (set x | x in queue) + {node})
        invariant forall i | 0 <= i < k && targets[i] in graph && !isEvaluator(targets[i]) :: targets[i] in closure
      {
        var target := targets[k];
        assert target in Targets(graph, node);
        if target in closure || target !in graph || isEvaluator(target) {
          continue;
        }
        ChainGrows(graph, isEvaluator, treatment, node, closure[node], target);
        closure := closure[target := closure[node] + [target]];
        queue := queue + [target];
      }
      forall t | t in Targets(graph, node) && t in graph
        && !isEvaluator(t) ensures t in closure { assert t in targets; }
    }
  }

  lemma {:induction false} TrivialChain(graph: Graph, isEvaluator: string -> bool, treatment: set<string>, t: string)
    requires t in treatment
    ensures ClosureChain(graph, isEvaluator, treatment, t, [t])
  {}

  lemma {:induction false} ChainGrows(graph: Graph, isEvaluator: string -> bool, treatment: set<string>, x: string,
      path: seq<string>, t: string)
    requires ClosureChain(graph, isEvaluator, treatment, x, path) && t in Targets(graph, x) && t in graph
      && !isEvaluator(t)
    ensures ClosureChain(graph, isEvaluator, treatment, t, path + [t])
  {
    hide Targets;
    PathExtends(graph, path, t);
  }

  lemma {:induction false} ClosureReaches(graph: Graph, isEvaluator: string -> bool, treatment: set<string>,
      closure: map<string, seq<string>>, path: seq<string>)
    requires ClosureOk(graph, isEvaluator, treatment, closure) && ClosedBut(graph, isEvaluator, closure, {})
    requires IsPath(graph, path) && path[0] in treatment && forall i | 1 <= i < |path| ::
      path[i] in graph && !isEvaluator(path[i])
    ensures Last(path) in closure
    decreases |path|
  {
    if |path| > 1 {
      PathPrefix(graph, path);
      ClosureReaches(graph, isEvaluator, treatment, closure, path[..|path| - 1]);
    }
  }

  /** On a clean graph the closure is exactly the set of known modules reachable from the
      treatment modules. */
  lemma {:induction false} CleanClosureIsReachability(graph: Graph, isEvaluator: string -> bool,
      treatment: set<string>, closure: map<string, seq<string>>, x: string)
    requires ClosureOk(graph, isEvaluator, treatment, closure) && ClosedBut(graph, isEvaluator, closure, {})
    requires forall t, path | t in treatment :: !Leak(graph, isEvaluator, t, path)
    ensures x in closure <==>
      x in graph && exists path :: IsPath(graph, path) && path[0] in treatment && Last(path) == x
  {
    if x in closure {
      assert ClosureChain(graph, isEvaluator, treatment, x, closure[x]);
    }
    if x in graph && exists path :: IsPath(graph, path) && path[0] in treatment && Last(path) == x {
      var path :| IsPath(graph, path) && path[0] in treatment && Last(path) == x;
      CleanPath(graph, isEvaluator, treatment, path);
      ClosureReaches(graph, isEvaluator, treatment, closure, path);
    }
  }

  /** On a clean graph a path from a treatment module to a known one never leaves the known
      modules and never meets an evaluator. */
  lemma {:induction false} CleanPath(graph: Graph, isEvaluator: string -> bool, treatment: set<string>,
      path: seq<string>)
    requires forall t, p | t in treatment :: !Leak(graph, isEvaluator, t, p)
    requires IsPath(graph, path) && path[0] in treatment && Last(path) in graph
    ensures forall i | 1 <= i < |path| :: path[i] in graph && !isEvaluator(path[i])
  {
    forall i | 1 <= i < |path|
      ensures path[i] in graph && !isEvaluator(path[i])
    {
      PathTakes(graph, path, i + 1);
      assert !Leak(graph, isEvaluator, path[0], path[..i + 1]);
      if i < |path| - 1 {
        assert path[i + 1] in Targets(graph, path[i]);
      }
    }
  }

  lemma {:induction false} PathTakes(graph: Graph, path: seq<string>, n: nat)
    requires IsPath(graph, path) && 1 <= n <= |path|
    ensures IsPath(graph, path[..n])
  {
    hide Targets;
    forall i | 0 <= i < n - 1 ensures path[..n][i
      + 1] in Targets(graph, path[..n][i]) { assert path[i + 1] in Targets(graph, path[i]); }
  }
}
