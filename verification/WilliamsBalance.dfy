/** What williams_square promises (src/shapeflow/experiment/randomization.py:29-58) and what the
    odd-arm remainder of the schedule relies on (src/shapeflow/campaign/schedule.py:319-359). */
module WilliamsBalance {
  import opened Arithmetic
  import opened Randomization

  // ------------------------------------------------- cyclic arithmetic, once

  /** The translate that puts `a` at position j. */
  function OffsetFor(n: nat, j: nat, a: nat): (i: nat)
    requires j < n && a < n
    ensures i < n
  {
    if FirstRowAt(n, j) <= a then a - FirstRowAt(n, j) else a + n - FirstRowAt(n, j)
  }

  lemma {:induction false} OffsetIsUnique(n: nat, i: nat, j: nat, a: nat)
    requires j < n && a < n && i < n
    ensures RowAt(n, i, j) == a <==> i == OffsetFor(n, j, a)
  {}

  /** Cyclic difference b - a. */
  function Diff(n: nat, a: nat, b: nat): (d: nat)
    requires a < n && b < n
    ensures d < n
  {
    if a <= b then b - a else b + n - a
  }

  /** Difference between positions k and k+1, the same in every translate. */
  function Step(n: nat, k: nat): (d: nat)
    requires k + 1 < n
    ensures 0 < d < n
  {
    if k % 2 == 0 then k + 1 else n - k - 1
  }

  lemma {:induction false} StepDifference(n: nat, i: nat, k: nat)
    requires k + 1 < n && i < n
    ensures Diff(n, RowAt(n, i, k), RowAt(n, i, k + 1)) == Step(n, k)
  {}

  /** A translate shows (a, b) at step k exactly when the step has their difference and the
      offset puts a at k. */
  lemma {:induction false} BaseAdjacency(n: nat, i: nat, k: nat, a: nat, b: nat)
    requires k + 1 < n && i < n && a < n && b < n
    ensures RowAt(n, i, k) == a && RowAt(n, i, k + 1) == b
       <==> Step(n, k) == Diff(n, a, b) && i == OffsetFor(n, k, a)
  {
    OffsetIsUnique(n, i, k, a);
    StepDifference(n, i, k);
  }

  // --------------------------------------------------------------- row facts

  ghost predicate IsPermutation(row: seq<nat>, n: nat) {
    && |row| == n
    && (forall j | 0 <= j < n :: row[j] < n)
    && (forall j, k | 0 <= j < k < n :: row[j] != row[k])
  }

  lemma {:induction false} TranslateInjective(n: nat, i: nat, j: nat, k: nat)
    requires j < n && k < n && j != k && i < n
    ensures RowAt(n, i, j) != RowAt(n, i, k)
  {
    assert FirstRowAt(n, j) != FirstRowAt(n, k);
  }

  lemma {:induction false} RowsArePermutations(n: nat, index: nat)
    requires 2 <= n && index < RowCount(n)
    ensures IsPermutation(DesignRow(n, index), n)
  {
    forall j, k | 0 <= j < k < n
      ensures Entry(n, index, j) != Entry(n, index, k)
    {
      if index < n {
        TranslateInjective(n, index, j, k);
      } else {
        TranslateInjective(n, index - n, n - 1 - j, n - 1 - k);
      }
    }
  }

  // -------------------------------------------------------- position balance

  /** The rows that have treatment a at position j. */
  ghost function RowsWith(n: nat, j: nat, a: nat): set<nat>
    requires j < n
  {
    set index | 0 <= index < RowCount(n) && Entry(n, index, j) == a
  }

  lemma {:induction false} EntryIs(n: nat, index: nat, j: nat, a: nat)
    requires index < RowCount(n) && j < n && a < n
    ensures Entry(n, index, j) == a
       <==> index == if index < n then OffsetFor(n, j, a) else n + OffsetFor(n, n - 1 - j, a)
  {
    if index < n {
      OffsetIsUnique(n, index, j, a);
    } else {
      OffsetIsUnique(n, index - n, n - 1 - j, a);
    }
  }

  lemma {:induction false} PositionBalance(n: nat, j: nat, a: nat)
    requires 2 <= n && j < n && a < n
    ensures n % 2 == 0 ==> RowsWith(n, j, a) == {OffsetFor(n, j, a)}
    ensures n % 2 == 1 ==> RowsWith(n, j, a) == {OffsetFor(n, j, a), n + OffsetFor(n, n - 1 - j, a)}
    ensures |RowsWith(n, j, a)| == if n % 2 == 0 then 1 else 2
  {
    var p, q := OffsetFor(n, j, a), n + OffsetFor(n, n - 1 - j, a);
    var rows := if n % 2 == 0 then {p} else {p, q};
    forall index | 0 <= index < RowCount(n)
      ensures index in RowsWith(n, j, a) <==> index in rows
    {
      EntryIs(n, index, j, a);
    }
    assert RowsWith(n, j, a) == rows;
  }

  // ------------------------------------------------------- carryover balance

  ghost predicate Follows(n: nat, index: nat, k: nat, a: nat, b: nat)
    requires index < RowCount(n) && k + 1 < n
  {
    Entry(n, index, k) == a && Entry(n, index, k + 1) == b
  }

  /** Every (row, position) at which b immediately follows a. */
  ghost function Adjacencies(n: nat, a: nat, b: nat): set<(nat, nat)> {
    set index, k | 0 <= index < RowCount(n) && 0 <= k < n - 1 && Follows(n, index, k, a, b) :: (index, k)
  }

  /** The positions whose step is d: one for even n; for odd n two when d is odd, none when even. */
  lemma {:induction false} StepsWithDifference(n: nat, k: nat, d: nat)
    requires k + 1 < n && 0 < d < n
    ensures n % 2 == 0 ==> (Step(n, k) == d <==> k == if d % 2 == 1 then d - 1 else n - 1 - d)
    ensures n % 2 == 1 ==> (Step(n, k) == d <==> d % 2 == 1 && (k == d - 1 || k == n - 1 - d))
  {}

  lemma {:induction false} AdjacencyBalanceEven(n: nat, a: nat, b: nat)
    requires 2 <= n && n % 2 == 0 && a < n && b < n && a != b
    ensures |Adjacencies(n, a, b)| == 1
  {
    var d := Diff(n, a, b);
    var k0 := if d % 2 == 1 then d - 1 else n - 1 - d;
    var only := (OffsetFor(n, k0, a), k0);
    forall index, k | 0 <= index < n && 0 <= k < n - 1
      ensures Follows(n, index, k, a, b) <==> (index, k) == only
    {
      BaseAdjacency(n, index, k, a, b);
      StepsWithDifference(n, k, d);
    }
    assert Adjacencies(n, a, b) == {only};
  }

  lemma {:induction false} FollowsInTranslate(n: nat, index: nat, k: nat, a: nat, b: nat, d: nat)
    requires 2 <= n && n % 2 == 1 && index < n && k + 1 < n && a < n && b < n && a != b && d == Diff(n, a, b)
    ensures Follows(n, index, k, a, b)
       <==> d % 2 == 1 && (k == d - 1 || k == n - 1 - d) && index == OffsetFor(n, k, a)
  {
    BaseAdjacency(n, index, k, a, b);
    StepsWithDifference(n, k, d);
  }

  /** Reversing a row turns its pair (b, a) into (a, b). */
  lemma {:induction false} FollowsInReversal(n: nat, index: nat, k: nat, a: nat, b: nat)
    requires 2 <= n && n % 2 == 1 && n <= index < 2 * n && k + 1 < n
    ensures Follows(n, index, k, a, b) <==> Follows(n, index - n, n - 2 - k, b, a)
  {
    hide RowAt;
  }

  lemma {:induction false} AdjacencyBalanceOdd(n: nat, a: nat, b: nat)
    requires 2 <= n && n % 2 == 1 && a < n && b < n && a != b
    ensures |Adjacencies(n, a, b)| == 2
  {
    hide Follows, OffsetFor;
    var d, e := Diff(n, a, b), Diff(n, b, a);
    var k, k' := if d % 2 == 1 then d - 1 else n - 1 - e, if d % 2 == 1 then n - 1 - d else e - 1;
    var p := if d % 2 == 1 then OffsetFor(n, k, a) else n + OffsetFor(n, n - 2 - k, b);
    var q := if d % 2 == 1 then OffsetFor(n, k', a) else n + OffsetFor(n, n - 2 - k', b);
    forall index, m | 0 <= index < RowCount(n) && 0 <= m < n - 1
      ensures Follows(n, index, m, a, b) <==> (index, m) == (p, k) || (index, m) == (q, k')
    {
      if index < n {
        FollowsInTranslate(n, index, m, a, b, d);
      } else {
        FollowsInReversal(n, index, m, a, b);
        FollowsInTranslate(n, index - n, n - 2 - m, b, a, e);
      }
    }
    TwoOccurrences(n, a, b, (p, k), (q, k'));
  }

  lemma {:induction false} TwoOccurrences(n: nat, a: nat, b: nat, p: (nat, nat), q: (nat, nat))
    requires p != q && p.0 < RowCount(n) && q.0 < RowCount(n) && p.1 < n - 1 && q.1 < n - 1
    requires forall index, m | 0 <= index < RowCount(n) && 0 <= m < n - 1 ::
      Follows(n, index, m, a, b) <==> (index, m) == p || (index, m) == q
    ensures |Adjacencies(n, a, b)| == 2
  {
    assert Adjacencies(n, a, b) == {p, q};
  }

  /** The design's purpose: every arm immediately follows every other arm equally often. */
  lemma {:induction false} CarryoverBalance(n: nat, a: nat, b: nat)
    requires 2 <= n && a < n && b < n && a != b
    ensures |Adjacencies(n, a, b)| == if n % 2 == 0 then 1 else 2
  {
    if n % 2 == 0 {
      AdjacencyBalanceEven(n, a, b);
    } else {
      AdjacencyBalanceOdd(n, a, b);
    }
  }

  // ------------------------------------------------ distinctness and reversal

  lemma {:induction false} RowsAreDistinct(n: nat, p: nat, q: nat)
    requires 2 <= n && p < q < RowCount(n)
    ensures DesignRow(n, p) != DesignRow(n, q)
  {
    if q < n {
      assert DesignRow(n, p)[0] != DesignRow(n, q)[0];
    } else if n <= p {
      assert DesignRow(n, p)[n - 1] != DesignRow(n, q)[n - 1];
    } else {
      TranslateIsNoReversal(n, p, q);
      assert DesignRow(n, p)[0] != DesignRow(n, q)[0] || DesignRow(n, p)[1] != DesignRow(n, q)[1];
    }
  }

  /** A translate opens with difference 1, a reversal with n - 1. */
  lemma {:induction false} TranslateIsNoReversal(n: nat, p: nat, q: nat)
    requires n % 2 == 1 && 2 <= n && p < n <= q < 2 * n
    ensures Entry(n, p, 0) != Entry(n, q, 0) || Entry(n, p, 1) != Entry(n, q, 1)
  {
    StepDifference(n, p, 0);
    StepDifference(n, q - n, n - 2);
  }

  /** Index of the reversal of a design row: half the design away, for either parity. */
  function ReversalOf(n: nat, index: nat): (r: nat)
    requires 2 <= n && index < RowCount(n)
    ensures r < RowCount(n) && r != index
  {
    if index < RowCount(n) / 2 then index + RowCount(n) / 2 else index - RowCount(n) / 2
  }

  lemma {:induction false} ReversalEntry(n: nat, index: nat, j: nat)
    requires 2 <= n && index < RowCount(n) && j < n
    ensures Entry(n, ReversalOf(n, index), j) == Entry(n, index, n - 1 - j)
  {
    if n % 2 == 0 {
      hide Wrap;
      var twin := ReversalOf(n, index);
      assert RowCount(n) == n && twin < n && index < n;
      HalfTurn(n, index, j);
    }
  }

  /** For even n the translate half a circle on is the reversal. */
  lemma {:induction false} HalfTurn(n: nat, i: nat, j: nat)
    requires 2 <= n && n % 2 == 0 && i < n && j < n
    ensures RowAt(n, if i < n / 2 then i + n / 2 else i - n / 2, j) == RowAt(n, i, n - 1 - j)
  {}

  lemma {:induction false} ReversalTwice(n: nat, index: nat)
    requires 2 <= n && index < RowCount(n)
    ensures ReversalOf(n, ReversalOf(n, index)) == index
  {}

  lemma {:induction false} ClosedUnderReversal(n: nat, index: nat)
    requires 2 <= n && index < RowCount(n)
    ensures DesignRow(n, ReversalOf(n, index)) == Reverse(DesignRow(n, index))
    ensures ReversalOf(n, ReversalOf(n, index)) == index
  {
    hide Entry, RowAt;
    ReversalTwice(n, index);
    hide ReversalOf;
    forall j | 0 <= j < n
      ensures DesignRow(n, ReversalOf(n, index))[j] == Reverse(DesignRow(n, index))[j]
    {
      ReversalEntry(n, index, j);
    }
  }

  // ------------------------------------------------------ odd-n safe window

  /** Translate number `offset` of the cyclic window from `start`, going up or down. */
  function Translate(n: nat, start: nat, up: bool, offset: nat): (i: nat)
    requires start < n && offset < n
    ensures i < n
  {
    if up then Wrap(n, start + offset) else Wrap(n, start + n - offset)
  }

  /** The design row there, in the base or the reversed family. */
  function WindowRow(n: nat, start: nat, up: bool, reversed: bool, offset: nat): (index: nat)
    requires 2 <= n && n % 2 == 1 && start < n && offset < n
    ensures index < RowCount(n)
  {
    if reversed then n + Translate(n, start, up, offset) else Translate(n, start, up, offset)
  }

  /** The two steps that share an odd difference sit half a circle apart. */
  lemma {:induction false} TwinOffsets(n: nat, d: nat, a: nat)
    requires 2 <= n && n % 2 == 1 && 0 < d < n && d % 2 == 1 && a < n
    ensures Diff(n, OffsetFor(n, d - 1, a), OffsetFor(n, n - 1 - d, a)) == (n + 1) / 2
  {
    assert FirstRowAt(n, n - 1 - d) == (n - d) / 2;
  }

  /** Two different translates share a directed pair only half a circle apart. */
  lemma {:induction false} SharedPairOffsets(n: nat, i: nat, i': nat, k: nat, k': nat, a: nat, b: nat)
    requires 2 <= n && n % 2 == 1 && i < n && i' < n && i != i' && k + 1 < n && k' + 1 < n
    requires Follows(n, i, k, a, b) && Follows(n, i', k', a, b)
    ensures Diff(n, i, i') == (n - 1) / 2 || Diff(n, i, i') == (n + 1) / 2
  {
    hide RowAt, OffsetFor, FirstRowAt;
    TranslateInjective(n, i, k, k + 1);
    var d := Diff(n, a, b);
    FollowsInTranslate(n, i, k, a, b, d);
    FollowsInTranslate(n, i', k', a, b, d);
    TwinOffsets(n, d, a);
  }

  lemma {:induction false} WindowDifference(n: nat, start: nat, up: bool, x: nat, y: nat)
    requires 2 <= n && n % 2 == 1 && start < n && x < y < n
    ensures var i, i' := WindowRow(n, start, up, false, x), WindowRow(n, start, up, false, y);
      i < n && i' < n && Diff(n, i, i') == if up then y - x else n - (y - x)
  {}

  /** No position sees a treatment twice within any window, and while the window holds at most
      floor(n/2) rows no directed pair repeats. */
  lemma {:induction false} SafeWindow(n: nat, start: nat, up: bool, reversed: bool, count: nat, x: nat, y: nat)
    requires 2 <= n && n % 2 == 1 && start < n && count <= n / 2 && x < y < count
    ensures var p, q := WindowRow(n, start, up, reversed, x), WindowRow(n, start, up, reversed, y);
      && p != q
      && (forall j | 0 <= j < n :: Entry(n, p, j) != Entry(n, q, j))
      && (forall k, k', a, b | 0 <= k < n - 1 && 0 <= k' < n - 1 ::
            !(Follows(n, p, k, a, b) && Follows(n, q, k', a, b)))
  {
    hide Entry, Follows, OffsetFor;
    var i, i' := WindowRow(n, start, up, false, x), WindowRow(n, start, up, false, y);
    WindowDifference(n, start, up, x, y);
    var p, q := WindowRow(n, start, up, reversed, x), WindowRow(n, start, up, reversed, y);
    forall j | 0 <= j < n
      ensures Entry(n, p, j) != Entry(n, q, j)
    {
      EntryIs(n, p, j, Entry(n, q, j));
      EntryIs(n, q, j, Entry(n, q, j));
    }
    forall k, k', a, b | 0 <= k < n - 1 && 0 <= k' < n - 1
      ensures !(Follows(n, p, k, a, b) && Follows(n, q, k', a, b))
    {
      NoSharedPair(n, i, i', reversed, k, k', a, b);
    }
  }

  lemma {:induction false} NoSharedPair(n: nat, i: nat, i': nat, reversed: bool, k: nat, k': nat, a: nat, b: nat)
    requires 2 <= n && n % 2 == 1 && i < n && i' < n && i != i' && k + 1 < n && k' + 1 < n
    requires Diff(n, i, i') < (n - 1) / 2 || Diff(n, i, i') > (n + 1) / 2
    ensures var p, p' := if reversed then n + i else i, if reversed then n + i' else i';
      !(Follows(n, p, k, a, b) && Follows(n, p', k', a, b))
  {
    hide Follows;
    if reversed {
      FollowsInReversal(n, n + i, k, a, b);
      FollowsInReversal(n, n + i', k', a, b);
      if Follows(n, i, n - 2 - k, b, a) && Follows(n, i', n - 2 - k', b, a) {
        SharedPairOffsets(n, i, i', n - 2 - k, n - 2 - k', b, a);
      }
    } else if Follows(n, i, k, a, b) && Follows(n, i', k', a, b) {
      SharedPairOffsets(n, i, i', k, k', a, b);
    }
  }

  /** Two rows of one family repeat the directed pair (a, b), at steps k and k'. */
  ghost predicate RepeatsPair(n: nat, p: nat, q: nat, k: nat, k': nat, a: nat, b: nat) {
    && p < RowCount(n) && q < RowCount(n) && p != q && k + 1 < n && k' + 1 < n
    && Follows(n, p, k, a, b) && Follows(n, q, k', a, b)
  }

  lemma {:induction false} ReversalsRepeatToo(n: nat, i: nat, i': nat, k: nat, k': nat, a: nat, b: nat)
    requires 2 <= n && n % 2 == 1 && i < n && i' < n && RepeatsPair(n, i, i', k, k', a, b)
    ensures RepeatsPair(n, n + i, n + i', n - 2 - k, n - 2 - k', b, a)
  {
    hide Follows;
    FollowsInReversal(n, n + i, n - 2 - k, b, a);
    FollowsInReversal(n, n + i', n - 2 - k', b, a);
  }

  lemma {:induction false} HalfStep(n: nat, i: nat, i': nat)
    requires 2 <= n && n % 2 == 1 && i < n && i' < n && Diff(n, i, i') == n / 2
    ensures RowAt(n, i, n - 2) == RowAt(n, i', 0) && RowAt(n, i, n - 1) == RowAt(n, i', 1)
  {
    assert FirstRowAt(n, 0) == 0 && FirstRowAt(n, 1) == 1;
    assert FirstRowAt(n, n - 2) == n / 2 && FirstRowAt(n, n - 1) == n / 2 + 1;
    hide FirstRowAt;
  }

  /** Translates half a circle apart meet in steps of difference 1: the first and the last. */
  lemma {:induction false} HalfApart(n: nat, i: nat, i': nat, up: bool) returns (k: nat, k': nat, a: nat, b: nat)
    requires 2 <= n && n % 2 == 1 && i < n && i' < n && Diff(n, i, i') == if up then n / 2 else n - n / 2
    ensures RepeatsPair(n, i, i', k, k', a, b)
  {
    hide RowAt;
    if up {
      k, k' := n - 2, 0;
      HalfStep(n, i, i');
    } else {
      k, k' := 0, n - 2;
      HalfStep(n, i', i);
    }
    a, b := RowAt(n, i, k), RowAt(n, i, k + 1);
  }

  /** The bound is exact: one row more and the window's two end rows repeat a directed pair. */
  lemma {:induction false} WiderWindowRepeatsAPair(n: nat, start: nat, up: bool, reversed: bool)
      returns (k: nat, k': nat, a: nat, b: nat)
    requires 2 <= n && n % 2 == 1 && start < n
    ensures RepeatsPair(n, WindowRow(n, start, up, reversed, 0), WindowRow(n, start, up, reversed, n / 2), k, k', a, b)
  {
    hide RepeatsPair, Translate, Diff;
    WindowDifference(n, start, up, 0, n / 2);
    var i, i' := Translate(n, start, up, 0), Translate(n, start, up, n / 2);
    k, k', a, b := HalfApart(n, i, i', up);
    if reversed {
      ReversalsRepeatToo(n, i, i', k, k', a, b);
      assert k <= n - 2 && k' <= n - 2 by { RepeatBounds(n, i, i', k, k', a, b); }
      k, k', a, b := n - 2 - k, n - 2 - k', b, a;
    }
  }

  lemma {:induction false} RepeatBounds(n: nat, p: nat, q: nat, k: nat, k': nat, a: nat, b: nat)
    requires RepeatsPair(n, p, q, k, k', a, b)
    ensures k + 1 < n && k' + 1 < n
  {}
}
