/** Longest-processing-time-first lane assignment (src/shapeflow/campaign/sharding.py:101-135)
    and its 4/3 makespan bound. */
module LaneAssignment {
  import opened Randomization
  import opened Sorting

  const ASSIGNMENT_VERSION := "task_atomic_lpt_by_frozen_corpus_bytes_v1"

  type Weights = map<string, real>
  type Assignment = map<string, nat>

  ghost function Scale(m: nat, x: real): real { m as real * x }

  /** load <= (4/3 - 1/(3m)) * T, without division. */
  ghost predicate WithinFourThirdsOf(m: nat, load: real, T: real) {
    3.0 * m as real * load <= (4.0 * m as real - 1.0) * T
  }

  // -------------------------------------------------------------- lane loads

  /** The tasks of `ids` that both maps know. */
  ghost predicate Covered(ids: seq<string>, w: Weights, a: Assignment) {
    forall t | t in ids :: t in w && t in a
  }

  /** What one lane carries, over the tasks listed in `ids`. */
  ghost function LaneLoad(ids: seq<string>, w: Weights, a: Assignment, lane: nat): real
    requires Covered(ids, w, a)
  {
    if ids == [] then 0.0 else
      var n := |ids| - 1;
      LaneLoad(ids[..n], w, a, lane) + (if a[ids[n]] == lane then w[ids[n]] else 0.0)
  }

  ghost function Total(ids: seq<string>, w: Weights): real
    requires forall t | t in ids :: t in w
  {
    if ids == [] then 0.0 else Total(ids[..|ids| - 1], w) + w[ids[|ids| - 1]]
  }

  ghost function LanesTotal(ids: seq<string>, w: Weights, a: Assignment, m: nat): real
    requires Covered(ids, w, a)
  {
    if m == 0 then 0.0 else LanesTotal(ids, w, a, m - 1) + LaneLoad(ids, w, a, m - 1)
  }

  lemma {:induction false} LanesTotalStep(ids: seq<string>, w: Weights, a: Assignment, m: nat)
    requires Covered(ids, w, a) && ids != []
    ensures var n := |ids| - 1;
      LanesTotal(ids, w, a, m) == LanesTotal(ids[..n], w, a, m) + (if a[ids[n]] < m then w[ids[n]] else 0.0)
  {
    if m > 0 {
      LanesTotalStep(ids, w, a, m - 1);
    }
  }

  /** Conservation: the lanes together carry every listed task once. */
  lemma {:induction false} LanesCarryEverything(ids: seq<string>, w: Weights, a: Assignment, m: nat)
    requires Covered(ids, w, a) && forall t | t in ids :: a[t] < m
    ensures LanesTotal(ids, w, a, m) == Total(ids, w)
  {
    if ids == [] {
      EmptyLanes(w, a, m);
    } else {
      LanesTotalStep(ids, w, a, m);
      LanesCarryEverything(ids[..|ids| - 1], w, a, m);
    }
  }

  lemma {:induction false} EmptyLanes(w: Weights, a: Assignment, m: nat)
    ensures LanesTotal([], w, a, m) == 0.0
  {
    if m > 0 { EmptyLanes(w, a, m - 1); }
  }

  lemma {:induction false} LanesTotalAtMost(ids: seq<string>, w: Weights, a: Assignment, m: nat, bound: real)
    requires Covered(ids, w, a) && forall l: nat | l < m :: LaneLoad(ids, w, a, l) <= bound
    ensures LanesTotal(ids, w, a, m) <= Scale(m, bound)
  {
    if m > 0 {
      LanesTotalAtMost(ids, w, a, m - 1, bound);
      assert Scale(m, bound) == Scale(m - 1, bound) + bound;
    }
  }

  lemma {:induction false} LanesTotalAtLeast(ids: seq<string>, w: Weights, a: Assignment, m: nat, bound: real)
    requires Covered(ids, w, a) && forall l: nat | l < m :: LaneLoad(ids, w, a, l) >= bound
    ensures LanesTotal(ids, w, a, m) >= Scale(m, bound)
  {
    if m > 0 {
      LanesTotalAtLeast(ids, w, a, m - 1, bound);
      assert Scale(m, bound) == Scale(m - 1, bound) + bound;
    }
  }

  lemma {:induction false} LoadWithLast(ids: seq<string>, x: string, w: Weights, a: Assignment, lane: nat)
    requires Covered(ids + [x], w, a)
    ensures LaneLoad(ids + [x], w, a, lane) == LaneLoad(ids, w, a, lane) + (if a[x] == lane then w[x] else 0.0)
  {
    assert (ids + [x])[..|ids|] == ids;
  }

  lemma {:induction false} TotalWithLast(ids: seq<string>, x: string, w: Weights)
    requires forall t | t in ids + [x] :: t in w
    ensures Total(ids + [x], w) == Total(ids, w) + w[x]
  {
    assert (ids + [x])[..|ids|] == ids;
  }

  lemma {:induction false} PrefixLoad(ids: seq<string>, k: nat, w: Weights, a: Assignment, lane: nat)
    requires Covered(ids, w, a) && k <= |ids| && forall t | t in ids :: w[t] >= 0.0
    ensures LaneLoad(ids[..k], w, a, lane) <= LaneLoad(ids, w, a, lane)
  {
    if k == |ids| {
      assert ids[..k] == ids;
    } else {
      var n := |ids| - 1;
      PrefixLoad(ids[..n], k, w, a, lane);
      assert ids[..n][..k] == ids[..k];
    }
  }

  lemma {:induction false} NonNegativeLoad(ids: seq<string>, w: Weights, a: Assignment, lane: nat)
    requires Covered(ids, w, a) && forall t | t in ids :: w[t] >= 0.0
    ensures LaneLoad(ids, w, a, lane) >= 0.0
  {
    PrefixLoad(ids, 0, w, a, lane);
  }

  /** A lane's load depends on which tasks it holds, not on the order they are listed in. */
  lemma {:induction false} LoadOrderFree(ids: seq<string>, ids': seq<string>, w: Weights, a: Assignment, lane: nat)
    requires Covered(ids, w, a) && Covered(ids', w, a) && multiset(ids) == multiset(ids')
    ensures LaneLoad(ids, w, a, lane) == LaneLoad(ids', w, a, lane)
  {
    assert |ids| == |multiset(ids)| == |multiset(ids')| == |ids'|;
    if ids != [] {
      var n := |ids| - 1;
      var x := ids[n];
      assert x in multiset(ids');
      var k :| 0 <= k < |ids'| && ids'[k] == x;
      LoadWithout(ids', k, w, a, lane);
      RearrangedRest(ids, n, ids', k);
      assert ids[..n] + ids[n + 1..] == ids[..n];
      LoadOrderFree(ids[..n], ids'[..k] + ids'[k + 1..], w, a, lane);
    }
  }

  lemma {:induction false} LoadWithout(ids: seq<string>, k: nat, w: Weights, a: Assignment, lane: nat)
    requires Covered(ids, w, a) && k < |ids|
    ensures Covered(ids[..k] + ids[k + 1..], w, a)
    ensures LaneLoad(ids, w, a, lane)
         == LaneLoad(ids[..k] + ids[k + 1..], w, a, lane) + (if a[ids[k]] == lane then w[ids[k]] else 0.0)
  {
    var n := |ids| - 1;
    var without := ids[..k] + ids[k + 1..];
    if k == n {
      assert without == ids[..n];
    } else {
      LoadWithout(ids[..n], k, w, a, lane);
      assert without[..n - 1] == ids[..n][..k] + ids[..n][k + 1..];
      assert without[n - 1] == ids[n];
    }
  }

  // ------------------------------------------------------------ greedy traces

  /** Task k of `ids` goes to the lane that is lightest when it is placed, lowest index first. */
  ghost predicate PlacedLightest(ids: seq<string>, w: Weights, a: Assignment, m: nat, k: nat)
    requires Covered(ids, w, a) && k < |ids|
  {
    var lane := a[ids[k]];
    && lane < m
    && forall l: nat | l < m ::
         && LaneLoad(ids[..k], w, a, lane) <= LaneLoad(ids[..k], w, a, l)
         && (l < lane ==> LaneLoad(ids[..k], w, a, lane) < LaneLoad(ids[..k], w, a, l))
  }

  ghost predicate Greedy(ids: seq<string>, w: Weights, a: Assignment, m: nat) {
    Covered(ids, w, a) && forall k | 0 <= k < |ids| :: PlacedLightest(ids, w, a, m, k)
  }

  ghost predicate Descending(ids: seq<string>, w: Weights) {
    && (forall t | t in ids :: t in w)
    && (forall i, j | 0 <= i < j < |ids| :: w[ids[i]] >= w[ids[j]])
  }

  /** `bound` is at least the makespan of the assignment `a` on m lanes. */
  ghost predicate FitsWithin(ids: seq<string>, w: Weights, a: Assignment, m: nat, bound: real) {
    && Covered(ids, w, a)
    && (forall t | t in ids :: a[t] < m)
    && (forall l: nat | l < m :: LaneLoad(ids, w, a, l) <= bound)
  }

  // --------------------------------------------------------------- the bound

  /** A job is big when it cannot share a lane with the smallest job c inside T. */
  ghost function Bigness(ids: seq<string>, w: Weights, c: real, T: real): Weights
    requires forall t | t in ids :: t in w
  {
    map t | t in ids :: if w[t] + c > T then 2.0 else 1.0
  }

  /** If every job exceeds T/3, counting big jobs twice tells how full a lane is: weight 1 means
      c still fits, weight 2 means it does not, weight 3 means T is exceeded. */
  lemma {:induction false} WeightTellsLoad(ids: seq<string>, all: seq<string>, w: Weights, a: Assignment, lane: nat,
      c: real, T: real)
    requires (forall t | t in ids :: t in all) && Covered(all, w, a)
    requires 3.0 * c > T >= 0.0 && forall t | t in all :: w[t] >= c
    ensures Covered(ids, Bigness(all, w, c, T), a)
    ensures var W, C := LaneLoad(ids, Bigness(all, w, c, T), a, lane), LaneLoad(ids, w, a, lane);
      && (W == 0.0 || W == 1.0 || W == 2.0 || W >= 3.0)
      && (W == 0.0 ==> C == 0.0)
      && (W == 1.0 ==> c <= C <= T - c)
      && (W >= 2.0 ==> C > T - c)
      && (W >= 3.0 ==> C > T)
  {
    if ids != [] {
      WeightTellsLoad(ids[..|ids| - 1], all, w, a, lane, c, T);
    }
  }

  /** `a` puts x, after the tasks of `ids`, on a lane that is lightest at that moment. */
  ghost predicate NextLightest(ids: seq<string>, x: string, w: Weights, a: Assignment, m: nat) {
    && Covered(ids + [x], w, a)
    && (forall t | t in ids + [x] :: a[t] < m && w[t] >= w[x])
    && forall l: nat | l < m :: LaneLoad(ids, w, a, a[x]) <= LaneLoad(ids, w, a, l)
  }

  /** The heart of the bound: when the job being placed exceeds a third of an achievable makespan
      T, greedy placement stays within T itself. Otherwise every greedy lane weighs at least 2,
      every lane of `other` at most 2, and `other` holds one job more. */
  lemma {:induction false} BigJobFits(ids: seq<string>, x: string, w: Weights, a: Assignment, other: Assignment,
      m: nat, T: real)
    requires m >= 1 && NextLightest(ids, x, w, a, m) && FitsWithin(ids + [x], w, other, m, T)
    requires 3.0 * w[x] > T >= 0.0
    ensures LaneLoad(ids, w, a, a[x]) + w[x] <= T
  {
    hide LaneLoad, LanesTotal, Scale;
    var all, c := ids + [x], w[x];
    var big := Bigness(all, w, c, T);
    assert c <= T by {
      LoadWithLast(ids, x, w, other, other[x]);
      NonNegativeLoad(ids, w, other, other[x]);
    }
    if LaneLoad(ids, w, a, a[x]) + c > T {
      OtherWeighsAtMost(all, x, w, other, m, T);
      GreedyWeighsAtLeast(ids, x, w, a, m, T);
      TotalWithLast(ids, x, big);
      assert false;
    }
  }

  lemma {:induction false} OtherWeighsAtMost(all: seq<string>, x: string, w: Weights, other: Assignment, m: nat,
      T: real)
    requires x in w && FitsWithin(all, w, other, m, T) && 3.0 * w[x] > T >= 0.0
    requires forall t | t in all :: w[t] >= w[x]
    ensures Total(all, Bigness(all, w, w[x], T)) <= Scale(m, 2.0)
  {
    hide LaneLoad, LanesTotal, Scale;
    var big := Bigness(all, w, w[x], T);
    forall l: nat | l < m
      ensures LaneLoad(all, big, other, l) <= 2.0
    {
      WeightTellsLoad(all, all, w, other, l, w[x], T);
    }
    LanesTotalAtMost(all, big, other, m, 2.0);
    LanesCarryEverything(all, big, other, m);
  }

  lemma {:induction false} GreedyWeighsAtLeast(ids: seq<string>, x: string, w: Weights, a: Assignment, m: nat, T: real)
    requires NextLightest(ids, x, w, a, m) && 3.0 * w[x] > T >= 0.0
    requires LaneLoad(ids, w, a, a[x]) + w[x] > T >= w[x]
    ensures Total(ids, Bigness(ids + [x], w, w[x], T)) >= Scale(m, 2.0)
  {
    hide LaneLoad, LanesTotal, Scale;
    var all := ids + [x];
    var big := Bigness(all, w, w[x], T);
    forall l: nat | l < m
      ensures LaneLoad(ids, big, a, l) >= 2.0
    {
      WeightTellsLoad(ids, all, w, a, l, w[x], T);
      assert LaneLoad(ids, w, a, l) > T - w[x];
    }
    LanesTotalAtLeast(ids, big, a, m, 2.0);
    LanesCarryEverything(ids, big, a, m);
  }

  /** Otherwise the averaging argument is enough. */
  lemma {:induction false} SmallJobAverages(ids: seq<string>, x: string, w: Weights, a: Assignment, other: Assignment,
      m: nat, T: real)
    requires m >= 1 && NextLightest(ids, x, w, a, m) && FitsWithin(ids + [x], w, other, m, T)
    requires 3.0 * w[x] <= T
    ensures WithinFourThirdsOf(m, LaneLoad(ids, w, a, a[x]) + w[x], T)
  {
    hide LaneLoad, LanesTotal, Scale;
    var all, c, l := ids + [x], w[x], LaneLoad(ids, w, a, a[x]);
    LanesTotalAtLeast(ids, w, a, m, l);
    LanesCarryEverything(ids, w, a, m);
    LanesTotalAtMost(all, w, other, m, T);
    LanesCarryEverything(all, w, other, m);
    TotalWithLast(ids, x, w);
    AverageArithmetic(m, l, c, T);
  }

  lemma {:induction false} AverageArithmetic(m: nat, l: real, c: real, T: real)
    requires m >= 1 && 3.0 * c <= T && Scale(m, l) + c <= Scale(m, T)
    ensures WithinFourThirdsOf(m, l + c, T)
  {
    var M := m as real;
    assert (M - 1.0) * (T - 3.0 * c) >= 0.0;
    assert (M - 1.0) * (T - 3.0 * c) == M * T - T - 3.0 * (M * c) + 3.0 * c;
    assert 3.0 * M * (l + c) == 3.0 * (M * l) + 3.0 * (M * c);
    assert (4.0 * M - 1.0) * T == 4.0 * (M * T) - T;
  }

  lemma {:induction false} WithinItselfArithmetic(m: nat, load: real, T: real)
    requires m >= 1 && load <= T && T >= 0.0
    ensures WithinFourThirdsOf(m, load, T)
  {
    var M := m as real;
    assert M * load <= M * T;
    assert 3.0 * M * load == 3.0 * (M * load) && (4.0 * M - 1.0) * T == 3.0 * (M * T) + (M - 1.0) * T;
    assert (M - 1.0) * T >= 0.0;
  }

  /** Graham's bound: no lane of the greedy assignment exceeds 4/3 - 1/(3m) times the makespan
      of any other assignment of the same tasks. */
  lemma {:induction false} WithinFourThirds(ids: seq<string>, w: Weights, a: Assignment, other: Assignment, m: nat,
      T: real, lane: nat)
    requires m >= 1 && Greedy(ids, w, a, m) && Descending(ids, w) && (forall t | t in ids :: w[t] >= 0.0)
    requires FitsWithin(ids, w, other, m, T) && lane < m
    ensures WithinFourThirdsOf(m, LaneLoad(ids, w, a, lane), T)
  {
    MakespanNonNegative(ids, w, other, m, T);
    if ids == [] {
      WithinItselfArithmetic(m, 0.0, T);
    } else {
      hide LaneLoad, WithinFourThirdsOf, Greedy;
      var n := |ids| - 1;
      var init, x := ids[..n], ids[n];
      assert ids == init + [x];
      LoadWithLast(init, x, w, a, lane);
      GreedyPrefix(ids, w, a, m);
      if lane == a[x] {
        if 3.0 * w[x] <= T {
          SmallJobAverages(init, x, w, a, other, m, T);
        } else {
          BigJobFits(init, x, w, a, other, m, T);
          WithinItselfArithmetic(m, LaneLoad(ids, w, a, lane), T);
        }
      } else {
        PrefixFits(ids, w, other, m, T);
        WithinFourThirds(init, w, a, other, m, T, lane);
      }
    }
  }

  lemma {:induction false} GreedyPrefix(ids: seq<string>, w: Weights, a: Assignment, m: nat)
    requires Greedy(ids, w, a, m) && Descending(ids, w) && ids != []
    ensures var n := |ids| - 1; Greedy(ids[..n], w, a, m) && NextLightest(ids[..n], ids[n], w, a, m)
  {
    hide LaneLoad;
    var n := |ids| - 1;
    var init, x := ids[..n], ids[n];
    forall k | 0 <= k < n
      ensures PlacedLightest(init, w, a, m, k)
    {
      assert init[..k] == ids[..k] && PlacedLightest(ids, w, a, m, k);
    }
    assert PlacedLightest(ids, w, a, m, n);
    forall t | t in init
      ensures a[t] < m && w[t] >= w[x]
    {
      var k :| 0 <= k < n && init[k] == t;
      assert PlacedLightest(ids, w, a, m, k) && ids[k] == t;
    }
  }

  lemma {:induction false} PrefixFits(ids: seq<string>, w: Weights, other: Assignment, m: nat, T: real)
    requires FitsWithin(ids, w, other, m, T) && ids != [] && forall t | t in ids :: w[t] >= 0.0
    ensures FitsWithin(ids[..|ids| - 1], w, other, m, T)
  {
    hide LaneLoad;
    var init := ids[..|ids| - 1];
    forall l: nat | l < m
      ensures LaneLoad(init, w, other, l) <= T
    {
      PrefixLoad(ids, |ids| - 1, w, other, l);
    }
  }

  lemma {:induction false} MakespanNonNegative(ids: seq<string>, w: Weights, other: Assignment, m: nat, T: real)
    requires m >= 1 && FitsWithin(ids, w, other, m, T) && forall t | t in ids :: w[t] >= 0.0
    ensures T >= 0.0
  {
    NonNegativeLoad(ids, w, other, 0);
  }

  // ------------------------------------------------------------- the function

  datatype LanesResult = Lanes(assignment: Assignment) | NoLanes

  /** One task with its sort key. */
  datatype Keyed = Keyed(cost: real, tie: nat, task: string)

  predicate HeavierFirst(x: Keyed, y: Keyed) {
    x.cost > y.cost || (x.cost == y.cost && x.tie <= y.tie)
  }

  method LightestLane(loads: array<real>) returns (lane: nat)
    requires loads.Length >= 1
    ensures lane < loads.Length
    ensures forall l | 0 <= l < loads.Length :: loads[lane] <= loads[l] && (l < lane ==> loads[lane] < loads[l])
  {
    lane := 0;
    for i := 1 to loads.Length
      invariant lane < i
      invariant forall l | 0 <= l < i :: loads[lane] <= loads[l] && (l < lane ==> loads[lane] < loads[l])
    {
      if loads[i] < loads[lane] {
        lane := i;
      }
    }
  }

  /** The tasks, heaviest first, ties broken by a permutation seeded from the binding. */
  method OrderByCost(costs: Weights, binding: string, h: Hashes) returns (ordered: seq<string>)
    ensures Distinct(ordered) && (forall t :: t in ordered <==> t in costs)
    ensures Descending(ordered, costs)
  {
    hide StringLe, Shuffled, Descending;
    var ids := SortedStrings(costs.Keys);
    var order := SeededPermutation(ids, h.derive([binding, ASSIGNMENT_VERSION, "tie_break"]), h.draw);
    DistinctByMultiset(ids, order);
    var keyed := Keys(order, costs);
    var sorted := Sort(keyed, HeavierFirst);
    ordered := seq(|sorted|, i requires 0 <= i < |sorted| => sorted[i].task);
    SortedTasks(order, costs, sorted, ordered);
  }

  function Keys(order: seq<string>, costs: Weights): (keyed: seq<Keyed>)
    requires forall t | t in order :: t in costs
  {
    seq(|order|, i requires 0 <= i < |order| => assert order[i] in order; Keyed(costs[order[i]], i, order[i]))
  }

  lemma {:induction false} SortedTasks(order: seq<string>, costs: Weights, sorted: seq<Keyed>, ordered: seq<string>)
    requires Distinct(order) && (forall t | t in order :: t in costs)
    requires sorted == Sort(Keys(order, costs), HeavierFirst)
    requires |ordered| == |sorted| && forall i | 0 <= i < |sorted| :: ordered[i] == sorted[i].task
    ensures Distinct(ordered) && (forall t :: t in ordered <==> t in order) && Descending(ordered, costs)
  {
    hide Sort;
    var keyed := Keys(order, costs);
    SortSorts(keyed, HeavierFirst);
    DistinctByMultiset(keyed, sorted);
    forall i, j | 0 <= i < j < |ordered|
      ensures ordered[i] != ordered[j]
    {
      assert sorted[i] in keyed && sorted[j] in keyed;
    }
    forall t | t in order
      ensures t in ordered
    {
      var i :| 0 <= i < |order| && order[i] == t;
      assert keyed[i] in sorted;
      var j :| 0 <= j < |sorted| && sorted[j] == keyed[i];
      assert ordered[j] == t;
    }
    forall j | 0 <= j < |ordered|
      ensures ordered[j] in order && sorted[j].cost == costs[ordered[j]]
    {
      assert sorted[j] in keyed;
    }
  }

  method AssignTasksToLanes(costs: Weights, laneCount: int, binding: string, h: Hashes)
    returns (r: LanesResult, ghost ordered: seq<string>)
    ensures r.NoLanes? <==> laneCount < 1
    ensures r.Lanes? ==>
      && r.assignment.Keys == costs.Keys
      && Distinct(ordered) && (forall t :: t in ordered <==> t in costs)
      && Descending(ordered, costs) && Greedy(ordered, costs, r.assignment, laneCount)
      && (forall t | t in costs :: r.assignment[t] < laneCount)
    ensures r.Lanes? && (forall t | t in costs :: costs[t] >= 0.0) ==>
      forall other, T, lane: nat | FitsWithin(ordered, costs, other, laneCount, T) && lane < laneCount ::
        WithinFourThirdsOf(laneCount, LaneLoad(ordered, costs, r.assignment, lane), T)
  {
    ordered := [];
    if laneCount < 1 {
      return NoLanes, ordered;
    }
    var tasks := OrderByCost(costs, binding, h);
    var assignment := PlaceInOrder(tasks, costs, laneCount);
    GreedyLanes(tasks, costs, assignment, laneCount);
    GreedyWithinFourThirds(tasks, costs, assignment, laneCount);
    return Lanes(assignment), tasks;
  }

  method PlaceInOrder(tasks: seq<string>, costs: Weights, laneCount: nat) returns (assignment: Assignment)
    requires Distinct(tasks) && (forall t | t in tasks :: t in costs) && laneCount >= 1
    ensures forall t :: t in assignment <==> t in tasks
    ensures Greedy(tasks, costs, assignment, laneCount)
  {
    hide LaneLoad, PlacedLightest;
    var loads := new real[laneCount](_ => 0.0);
    assignment := map[];
    assert forall l: nat :: LaneLoad([], costs, assignment, l) == 0.0 by { EmptyLoads(costs, assignment); }
    for k := 0 to |tasks|
      invariant forall t :: t in assignment <==> t in tasks[..k]
      invariant Greedy(tasks[..k], costs, assignment, laneCount)
      invariant forall l | 0 <= l < laneCount :: loads[l] == LaneLoad(tasks[..k], costs, assignment, l)
    {
      var lane := LightestLane(loads);
      ghost var before := assignment;
      assert tasks[k] !in tasks[..k];
      assignment := assignment[tasks[k] := lane];
      loads[lane] := loads[lane] + costs[tasks[k]];
      assert tasks[..k + 1] == tasks[..k] + [tasks[k]];
      GreedyExtends(tasks[..k], tasks[k], costs, before, assignment, laneCount);
    }
    assert tasks[..|tasks|] == tasks;
  }

  lemma {:induction false} EmptyLoads(w: Weights, a: Assignment)
    ensures forall l: nat :: LaneLoad([], w, a, l) == 0.0
  {}

  lemma {:induction false} GreedyLanes(ids: seq<string>, w: Weights, a: Assignment, m: nat)
    requires Greedy(ids, w, a, m)
    ensures forall t | t in ids :: a[t] < m
  {
    forall t | t in ids
      ensures a[t] < m
    {
      var k :| 0 <= k < |ids| && ids[k] == t;
      assert PlacedLightest(ids, w, a, m, k);
    }
  }

  lemma {:induction false} GreedyWithinFourThirds(ids: seq<string>, w: Weights, a: Assignment, m: nat)
    requires m >= 1 && Greedy(ids, w, a, m) && Descending(ids, w)
    ensures (forall t | t in ids :: w[t] >= 0.0) ==>
      forall other, T, lane: nat | FitsWithin(ids, w, other, m, T) && lane < m ::
        WithinFourThirdsOf(m, LaneLoad(ids, w, a, lane), T)
  {
    hide LaneLoad, WithinFourThirdsOf, PlacedLightest;
    if forall t | t in ids :: w[t] >= 0.0 {
      forall other, T, lane: nat | FitsWithin(ids, w, other, m, T) && lane < m
        ensures WithinFourThirdsOf(m, LaneLoad(ids, w, a, lane), T)
      {
        WithinFourThirds(ids, w, a, other, m, T, lane);
      }
    }
  }

  /** Placing a new task does not move the loads of the earlier ones. */
  lemma {:induction false} LoadUnaffected(ids: seq<string>, w: Weights, a: Assignment, a': Assignment, lane: nat)
    requires Covered(ids, w, a) && Covered(ids, w, a') && forall t | t in ids :: a[t] == a'[t]
    ensures LaneLoad(ids, w, a, lane) == LaneLoad(ids, w, a', lane)
  {
    if ids != [] {
      LoadUnaffected(ids[..|ids| - 1], w, a, a', lane);
    }
  }

  lemma {:induction false} GreedyExtends(ids: seq<string>, x: string, w: Weights, a: Assignment, a': Assignment, m: nat)
    requires Greedy(ids, w, a, m) && x in w && x !in ids && x in a' && a' == a[x := a'[x]]
    requires a'[x] < m && forall l: nat | l < m ::
      && LaneLoad(ids, w, a, a'[x]) <= LaneLoad(ids, w, a, l)
      && (l < a'[x] ==> LaneLoad(ids, w, a, a'[x]) < LaneLoad(ids, w, a, l))
    ensures Greedy(ids + [x], w, a', m)
    ensures forall l: nat | l < m ::
      LaneLoad(ids + [x], w, a', l) == LaneLoad(ids, w, a, l) + (if l == a'[x] then w[x] else 0.0)
  {
    var all := ids + [x];
    assert all[..|ids|] == ids;
    forall k, l: nat | 0 <= k <= |ids|
      ensures LaneLoad(all[..k], w, a, l) == LaneLoad(all[..k], w, a', l)
    {
      assert all[..k] == ids[..k];
      LoadUnaffected(ids[..k], w, a, a', l);
    }
    forall k | 0 <= k < |all|
      ensures PlacedLightest(all, w, a', m, k)
    {
      if k < |ids| {
        assert PlacedLightest(ids, w, a, m, k) && all[..k] == ids[..k] && all[k] == ids[k];
      }
    }
  }
}
