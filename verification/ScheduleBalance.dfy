/** What the allocation of Schedule buys the experiment: over the blocks of a campaign every arm
    sits at every position, and follows every other arm, almost equally often
    (src/shapeflow/campaign/schedule.py:246-258, 319-325). */
module ScheduleBalance {
  import opened Randomization
  import opened Sorting
  import opened WilliamsBalance
  import opened Schedule

  /** The blocks that run arm a at position j. */
  ghost function AtPosition(orders: map<Coordinate, seq<nat>>, j: nat, a: nat): set<Coordinate> {
    set c | c in orders && j < |orders[c]| && orders[c][j] == a
  }

  /** The (block, position) pairs at which arm b runs immediately after arm a. */
  ghost function Carryovers(orders: map<Coordinate, seq<nat>>, a: nat, b: nat): set<(Coordinate, nat)> {
    set c, k | c in orders && 0 <= k < |orders[c]| - 1 && orders[c][k] == a && orders[c][k + 1] == b :: (c, k)
  }

  /** Design rows per (arm, position) and per ordered pair of arms. */
  function RowsPerCell(n: nat): nat { if n % 2 == 0 then 1 else 2 }

  /** How far a count may exceed its share of the complete cycles. */
  ghost function Slack(n: nat, extra: seq<nat>, windowed: bool): nat {
    if extra == [] then 0 else if n % 2 == 0 || windowed then 1 else 2
  }

  ghost predicate NearlyEqual(count: nat, n: nat, cycles: nat, slack: nat) {
    RowsPerCell(n) * cycles <= count <= RowsPerCell(n) * cycles + slack
  }

  ghost function Extra(extra: seq<nat>, r: nat): nat { if r in extra then 1 else 0 }

  // ---------------------------------------------------------------- positions

  lemma {:induction false} PositionCount(n: nat, tasks: seq<string>, second: set<string>,
      orders: map<Coordinate, seq<nat>>, rowOf: map<Coordinate, nat>, extra: seq<nat>, j: nat, a: nat)
    requires Allocated(n, tasks, second, orders, rowOf, extra) && j < n && a < n
    ensures var cycles := Cycles(n, |tasks| + |second|);
      |AtPosition(orders, j, a)| ==
        if n % 2 == 0 then cycles + Extra(extra, OffsetFor(n, j, a))
        else 2 * cycles + Extra(extra, OffsetFor(n, j, a)) + Extra(extra, n + OffsetFor(n, n - 1 - j, a))
  {
    hide Spelled, AtPosition, Cycles, Remainder, Distinct, OffsetFor, Coordinates, RowsWith;
    PositionBalance(n, j, a);
    AtPositionUsers(n, orders, rowOf, j, a);
    var p, q := OffsetFor(n, j, a), n + OffsetFor(n, n - 1 - j, a);
    assert RowCount(n) == if n % 2 == 1 then 2 * n else n;
  }

  /** The blocks with arm a at position j are those whose row has it there. */
  lemma {:induction false} AtPositionUsers(n: nat, orders: map<Coordinate, seq<nat>>, rowOf: map<Coordinate, nat>,
      j: nat, a: nat)
    requires 2 <= n && Spelled(n, orders, rowOf) && j < n && a < n
    ensures var p, q := OffsetFor(n, j, a), n + OffsetFor(n, n - 1 - j, a);
      if n % 2 == 0 then AtPosition(orders, j, a) == Users(rowOf, p)
      else AtPosition(orders, j, a) == Users(rowOf, p) + Users(rowOf, q) && Users(rowOf, p) !! Users(rowOf, q)
  {
    hide Entry, OffsetFor;
    PositionBalance(n, j, a);
    forall c | c in orders
      ensures c in AtPosition(orders, j, a) <==> rowOf[c] in RowsWith(n, j, a)
    {
      assert orders[c] == DesignRow(n, rowOf[c]);
    }
  }

  /** A safe window never holds both rows that have arm a at position j. */
  lemma {:induction false} WindowHoldsOne(n: nat, extra: seq<nat>, start: nat, up: bool, reversed: bool, j: nat, a: nat)
    requires IsWindow(n, extra, start, up, reversed) && j < n && a < n
    ensures Extra(extra, OffsetFor(n, j, a)) + Extra(extra, n + OffsetFor(n, n - 1 - j, a)) <= 1
  {
    hide OffsetFor, Translate;
    forall x | 0 <= x < |extra|
      ensures if reversed then extra[x] >= n else extra[x] < n
    {
      assert extra[x] == WindowRow(n, start, up, reversed, x);
    }
  }

  /** Every (arm, position) count is its share of the cycles, or at most 1 more, or 2 for an odd
      number of arms outside the safe window. */
  lemma {:induction false} PositionsBalanced(n: nat, tasks: seq<string>, second: set<string>,
      orders: map<Coordinate, seq<nat>>, rowOf: map<Coordinate, nat>, extra: seq<nat>, windowed: bool, start: nat,
      up: bool, reversed: bool, j: nat, a: nat)
    requires Allocated(n, tasks, second, orders, rowOf, extra) && j < n && a < n
    requires windowed ==> IsWindow(n, extra, start, up, reversed)
    ensures NearlyEqual(|AtPosition(orders, j, a)|, n, Cycles(n, |tasks| + |second|), Slack(n, extra, windowed))
  {
    hide Cycles, Remainder, OffsetFor, IsWindow, Spelled, AtPosition;
    PositionCount(n, tasks, second, orders, rowOf, extra, j, a);
    if windowed {
      WindowHoldsOne(n, extra, start, up, reversed, j, a);
    }
  }

  // ---------------------------------------------------------------- carryover

  /** In a permutation b follows a at one position only. */
  lemma {:induction false} FollowsOnce(n: nat, index: nat, k: nat, k': nat, a: nat, b: nat)
    requires 2 <= n && index < RowCount(n) && k + 1 < n && k' + 1 < n
    requires Follows(n, index, k, a, b) && Follows(n, index, k', a, b)
    ensures k == k'
  {
    hide Entry;
    RowsArePermutations(n, index);
    var row := DesignRow(n, index);
    assert row[k] == row[k'];
  }

  ghost function Tagged(users: set<Coordinate>, k: nat): set<(Coordinate, nat)> {
    set c | c in users :: (c, k)
  }

  lemma {:induction false} TaggedSize(users: set<Coordinate>, k: nat)
    ensures |Tagged(users, k)| == |users|
  {
    if users != {} {
      var c :| c in users;
      TaggedSize(users - {c}, k);
      assert Tagged(users, k) == Tagged(users - {c}, k) + {(c, k)};
    }
  }

  lemma {:induction false} CarryoverIsAdjacency(n: nat, orders: map<Coordinate, seq<nat>>,
      rowOf: map<Coordinate, nat>, a: nat, b: nat, c: Coordinate, k: nat)
    requires Spelled(n, orders, rowOf)
    ensures (c, k) in Carryovers(orders, a, b) <==> c in rowOf && (rowOf[c], k) in Adjacencies(n, a, b)
  {
    hide Entry;
    if c in rowOf {
      assert orders[c] == DesignRow(n, rowOf[c]);
    }
  }

  lemma {:induction false} CarryoverCountEven(n: nat, tasks: seq<string>, second: set<string>,
      orders: map<Coordinate, seq<nat>>, rowOf: map<Coordinate, nat>, extra: seq<nat>, a: nat, b: nat)
    returns (p: (nat, nat))
    requires Allocated(n, tasks, second, orders, rowOf, extra) && n % 2 == 0 && a < n && b < n && a != b
    ensures Adjacencies(n, a, b) == {p}
    ensures |Carryovers(orders, a, b)| == Cycles(n, |tasks| + |second|) + Extra(extra, p.0)
  {
    hide Cycles, Remainder, Follows, DesignRow, Distinct, Coordinates, Carryovers;
    AdjacencyBalanceEven(n, a, b);
    p :| p in Adjacencies(n, a, b);
    assert |Adjacencies(n, a, b) - {p}| == 0;
    assert p.0 < RowCount(n) && p.1 >= 0;
    forall x: (Coordinate, nat)
      ensures x in Carryovers(orders, a, b) <==> x in Tagged(Users(rowOf, p.0), p.1)
    {
      CarryoverIsAdjacency(n, orders, rowOf, a, b, x.0, x.1);
      assert (x.0 in rowOf && (rowOf[x.0], x.1) in Adjacencies(n, a, b)) ==> (rowOf[x.0], x.1) == p;
    }
    assert Carryovers(orders, a, b) == Tagged(Users(rowOf, p.0), p.1);
    TaggedSize(Users(rowOf, p.0), p.1);
  }

  /** The two rows in which b follows a, for an odd number of arms. */
  lemma {:induction false} TwoAdjacentRows(n: nat, a: nat, b: nat) returns (p: (nat, nat), q: (nat, nat))
    requires 2 <= n && n % 2 == 1 && a < n && b < n && a != b
    ensures Adjacencies(n, a, b) == {p, q} && p.0 != q.0
    ensures p.0 < RowCount(n) && q.0 < RowCount(n) && p.1 + 1 < n && q.1 + 1 < n
    ensures Follows(n, p.0, p.1, a, b) && Follows(n, q.0, q.1, a, b)
  {
    hide Follows;
    AdjacencyBalanceOdd(n, a, b);
    var rows := Adjacencies(n, a, b);
    p :| p in rows;
    assert |rows - {p}| == 1;
    q :| q in rows - {p};
    assert |rows - {p} - {q}| == 0;
    if p.0 == q.0 {
      FollowsOnce(n, p.0, p.1, q.1, a, b);
    }
  }

  lemma {:induction false} CarryoverCountOdd(n: nat, tasks: seq<string>, second: set<string>,
      orders: map<Coordinate, seq<nat>>, rowOf: map<Coordinate, nat>, extra: seq<nat>, a: nat, b: nat)
    returns (p: (nat, nat), q: (nat, nat))
    requires Allocated(n, tasks, second, orders, rowOf, extra) && n % 2 == 1 && a < n && b < n && a != b
    ensures p.0 < RowCount(n) && q.0 < RowCount(n) && p.0 != q.0 && p.1 + 1 < n && q.1 + 1 < n
    ensures Follows(n, p.0, p.1, a, b) && Follows(n, q.0, q.1, a, b)
    ensures |Carryovers(orders, a, b)| == 2 * Cycles(n, |tasks| + |second|) + Extra(extra, p.0) + Extra(extra, q.0)
  {
    hide Cycles, Remainder, Follows, DesignRow, Distinct, Coordinates, Carryovers, Adjacencies;
    p, q := TwoAdjacentRows(n, a, b);
    var left, right := Tagged(Users(rowOf, p.0), p.1), Tagged(Users(rowOf, q.0), q.1);
    forall x: (Coordinate, nat)
      ensures x in Carryovers(orders, a, b) <==> x in left + right
    {
      CarryoverIsAdjacency(n, orders, rowOf, a, b, x.0, x.1);
    }
    assert Carryovers(orders, a, b) == left + right;
    assert left !! right;
    TaggedSize(Users(rowOf, p.0), p.1);
    TaggedSize(Users(rowOf, q.0), q.1);
  }

  lemma {:induction false} WindowHoldsOneAdjacency(n: nat, extra: seq<nat>, start: nat, up: bool, reversed: bool,
      p: (nat, nat), q: (nat, nat), a: nat, b: nat)
    requires IsWindow(n, extra, start, up, reversed) && p.0 != q.0 && p.1 + 1 < n && q.1 + 1 < n
    requires p.0 < RowCount(n) && q.0 < RowCount(n) && Follows(n, p.0, p.1, a, b) && Follows(n, q.0, q.1, a, b)
    ensures Extra(extra, p.0) + Extra(extra, q.0) <= 1
  {
    hide Follows, WindowRow, Entry;
    if p.0 in extra && q.0 in extra {
      var x :| 0 <= x < |extra| && extra[x] == p.0;
      var y :| 0 <= y < |extra| && extra[y] == q.0;
      if x < y {
        SafeWindow(n, start, up, reversed, |extra|, x, y);
      } else {
        SafeWindow(n, start, up, reversed, |extra|, y, x);
      }
      assert false;
    }
  }

  /** First-order carryover is balanced to the same tolerance as the positions. */
  lemma {:induction false} CarryoverBalanced(n: nat, tasks: seq<string>, second: set<string>,
      orders: map<Coordinate, seq<nat>>, rowOf: map<Coordinate, nat>, extra: seq<nat>, windowed: bool, start: nat,
      up: bool, reversed: bool, a: nat, b: nat)
    requires Allocated(n, tasks, second, orders, rowOf, extra) && a < n && b < n && a != b
    requires windowed ==> IsWindow(n, extra, start, up, reversed)
    ensures NearlyEqual(|Carryovers(orders, a, b)|, n, Cycles(n, |tasks| + |second|), Slack(n, extra, windowed))
  {
    hide Cycles, Remainder, IsWindow, Spelled, Follows, Carryovers, Distinct, Coordinates;
    if n % 2 == 0 {
      var p := CarryoverCountEven(n, tasks, second, orders, rowOf, extra, a, b);
    } else {
      var p, q := CarryoverCountOdd(n, tasks, second, orders, rowOf, extra, a, b);
      if windowed {
        WindowHoldsOneAdjacency(n, extra, start, up, reversed, p, q, a, b);
      }
    }
  }
}
