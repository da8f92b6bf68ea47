/** The balanced allocation of Williams rows to (task, replicate) coordinates
    (src/shapeflow/campaign/schedule.py:237-455). Every raise and assert of the source that should
    be unreachable is an `assert false` here. */
module Schedule {
  import opened Randomization
  import opened Sorting
  import opened WilliamsBalance

  type Coordinate = (string, nat)

  ghost function Coordinates(tasks: seq<string>, second: set<string>): set<Coordinate> {
    (set t | t in tasks :: (t, 0)) + (set t | t in second :: (t, 1))
  }

  // ------------------------------------------------------- reversal and pairs

  /** Rows of the design and, for each, the index of its reversal, found by lookup. */
  method DesignWithReversals(n: nat) returns (rows: seq<seq<nat>>, reversal: seq<nat>)
    requires 2 <= n
    ensures rows == Square(n)
    ensures |reversal| == RowCount(n) && forall i | 0 <= i < |reversal| :: reversal[i] == ReversalOf(n, i)
  {
    hide Square, DesignRow, Reverse;
    SquareRows(n);
    var square := WilliamsSquare(n);
    rows := square.rows;
    var rowIndex: map<seq<nat>, nat> := map[];
    for i := 0 to |rows|
      invariant |rowIndex| == i
      invariant forall row | row in rowIndex :: rowIndex[row] < i && rows[rowIndex[row]] == row
      invariant forall k | 0 <= k < i :: rows[k] in rowIndex && rowIndex[rows[k]] == k
    {
      forall k | 0 <= k < i ensures rows[k] != rows[i] { RowsAreDistinct(n, k, i); }
      rowIndex := rowIndex[rows[i] := i];
    }
    if |rowIndex| != |rows| {
      assert false;  // "Williams design contains duplicate rows"
    }
    reversal := [];
    for i := 0 to |rows|
      invariant |reversal| == i
      invariant forall k | 0 <= k < i :: reversal[k] == ReversalOf(n, k)
    {
      ClosedUnderReversal(n, i);
      assert rows[ReversalOf(n, i)] == Reverse(rows[i]) && ReversalOf(n, i) < |rows|;
      if Reverse(rows[i]) !in rowIndex {
        assert false;  // "Williams design is not closed under full-row reversal"
      }
      reversal := reversal + [rowIndex[Reverse(rows[i])]];
    }
  }

  /** The reversal pair t of a design with 2 * half rows. */
  function Pair(half: nat, t: nat): (nat, nat) { (t, t + half) }

  function AllPairs(half: nat): (pairs: seq<(nat, nat)>)
    ensures |pairs| == half
  {
    seq(half, t requires 0 <= t < half => Pair(half, t))
  }

  /** The distinct (min, max) reversal pairs. First occurrences come in ascending order. */
  method PairTypes(n: nat, reversal: seq<nat>) returns (pairs: seq<(nat, nat)>)
    requires 2 <= n && |reversal| == RowCount(n) && forall i | 0 <= i < |reversal| :: reversal[i] == ReversalOf(n, i)
    ensures pairs == AllPairs(RowCount(n) / 2)
  {
    var half := RowCount(n) / 2;
    pairs := [];
    for i := 0 to |reversal|
      invariant |pairs| == if i < half then i else half
      invariant forall t | 0 <= t < |pairs| :: pairs[t] == Pair(half, t)
    {
      var pair := if i < reversal[i] then (i, reversal[i]) else (reversal[i], i);
      if i >= half {
        assert pairs[i - half] == pair;
      }
      if pair !in pairs {
        pairs := pairs + [pair];
      }
    }
  }

  /** How many of the first t reversal pairs lie wholly in `rows`. */
  ghost function PairsHeld(rows: seq<nat>, half: nat, t: nat): nat {
    if t == 0 then 0 else
      PairsHeld(rows, half, t - 1) + (if t - 1 in rows && t - 1 + half in rows then 1 else 0)
  }

  lemma {:induction false} MoreRowsHoldMorePairs(rows: seq<nat>, more: seq<nat>, half: nat, t: nat)
    ensures PairsHeld(rows, half, t) <= PairsHeld(rows + more, half, t)
  {
    if t > 0 { MoreRowsHoldMorePairs(rows, more, half, t - 1); }
  }

  lemma {:induction false} NewPairIsHeld(rows: seq<nat>, l: nat, half: nat, t: nat)
    requires l !in rows && l < t
    ensures PairsHeld(rows + [l, l + half], half, t) >= PairsHeld(rows, half, t) + 1
  {
    if l == t - 1 {
      MoreRowsHoldMorePairs(rows, [l, l + half], half, t - 1);
    } else {
      NewPairIsHeld(rows, l, half, t - 1);
    }
  }

  // ---------------------------------------------------------- remainder rows

  /** The rows that fill the last, incomplete cycle. */
  ghost predicate RemainderRows(n: nat, extra: seq<nat>, needed: nat, remainder: nat) {
    && |extra| == remainder && Distinct(extra)
    && (forall r | r in extra :: r < RowCount(n))
    && PairsHeld(extra, RowCount(n) / 2, RowCount(n) / 2) >= needed
  }

  ghost predicate IsWindow(n: nat, rows: seq<nat>, start: nat, up: bool, reversed: bool) {
    && 2 <= n && n % 2 == 1 && start < n && |rows| <= n / 2
    && forall x | 0 <= x < |rows| :: rows[x] == WindowRow(n, start, up, reversed, x)
  }

  lemma {:induction false} PairsApart(half: nat, p: (nat, nat), q: (nat, nat))
    requires p in AllPairs(half) && q in AllPairs(half) && p != q
    ensures p.0 != q.0 && p.0 != q.1 && p.1 != q.0 && p.1 != q.1
  {}

  method ReservePairs(n: nat, pairs: seq<(nat, nat)>, needed: nat, seed: nat, h: Hashes) returns (extra: seq<nat>)
    requires 2 <= n && 2 * needed < RowCount(n)
    requires pairs == AllPairs(RowCount(n) / 2)
    ensures RemainderRows(n, extra, needed, 2 * needed)
  {
    hide Shuffled;
    var half := RowCount(n) / 2;
    var ordered := SeededPermutation(pairs, seed, h.draw);
    assert Distinct(pairs);
    DistinctByMultiset(pairs, ordered);
    assert |ordered| == |multiset(ordered)| == |multiset(pairs)| == half;
    extra := [];
    for i := 0 to needed
      invariant RemainderRows(n, extra, i, 2 * i)
      invariant forall r | r in extra :: exists k :: 0 <= k < i && (r == ordered[k].0 || r == ordered[k].1)
    {
      var (left, right) := ordered[i];
      assert ordered[i] in pairs;
      assert right == left + half && left < half;
      forall k | 0 <= k < i
        ensures left != ordered[k].0 && left != ordered[k].1 && right != ordered[k].0 && right != ordered[k].1
      {
        assert ordered[k] in pairs && ordered[k] != ordered[i];
        PairsApart(half, ordered[k], ordered[i]);
      }
      NewPairIsHeld(extra, left, half, half);
      assert left !in extra && right !in extra;
      extra := extra + [left, right];
    }
  }

  method TakeUnused(n: nat, reserved: seq<nat>, preferred: seq<nat>, needed: nat, remainder: nat)
      returns (extra: seq<nat>)
    requires RemainderRows(n, reserved, needed, |reserved|) && |reserved| <= remainder
    requires forall r | r in preferred :: r < RowCount(n)
    ensures RemainderRows(n, extra, needed, |extra|) && |extra| <= remainder
    ensures |extra| == remainder || forall r | r in preferred :: r in extra
    ensures reserved == [] && Distinct(preferred) && |preferred| == remainder ==> extra == preferred
  {
    extra := reserved;
    var remaining: nat := remainder - |extra|;
    for i := 0 to |preferred|
      invariant RemainderRows(n, extra, needed, |extra|) && |extra| + remaining == remainder
      invariant forall k | 0 <= k < i :: preferred[k] in extra
      invariant reserved == [] && Distinct(preferred) && |preferred| == remainder ==> extra == preferred[..i]
    {
      if remaining == 0 {
        break;
      }
      if preferred[i] in extra {
        continue;
      }
      MoreRowsHoldMorePairs(extra, [preferred[i]], RowCount(n) / 2, RowCount(n) / 2);
      assert preferred[i] in preferred;
      extra := extra + [preferred[i]];
      remaining := remaining - 1;
    }
  }

  lemma {:induction false} CoveringNeedsLength(rows: seq<nat>, k: nat)
    requires forall r: nat | r < k :: r in rows
    ensures |rows| >= k
  {
    if k > 0 {
      assert k - 1 in rows;
      var i :| 0 <= i < |rows| && rows[i] == k - 1;
      var rest := rows[..i] + rows[i + 1..];
      forall r: nat | r < k - 1
        ensures r in rest
      {
        assert r in rows;
        var j :| 0 <= j < |rows| && rows[j] == r;
        assert if j < i then rest[j] == r else rest[j - 1] == r;
      }
      CoveringNeedsLength(rest, k - 1);
    }
  }

  /** Preference order when the window argument does not apply: every translate, then every
      reversal of one. */
  method GeneralPreference(n: nat, reversal: seq<nat>, seed: nat, h: Hashes) returns (preferred: seq<nat>)
    requires 2 <= n && |reversal| == RowCount(n) && forall i | 0 <= i < |reversal| :: reversal[i] == ReversalOf(n, i)
    ensures forall r: nat :: r in preferred <==> r < RowCount(n)
  {
    hide Shuffled;
    var base: seq<nat> := seq(n, i requires 0 <= i < n => i);
    var order := SeededPermutation(base, seed, h.draw);
    assert Distinct(base);
    DistinctByMultiset(base, order);
    forall i: nat ensures i in order <==> i < n {
      if i < n { assert base[i] in base; }
    }
    var reversed: seq<nat> := seq(|order|, k requires 0 <= k < |order| => assert order[k] in order; reversal[order[k]]);
    preferred := order + reversed;
    forall r: nat
      ensures r in preferred <==> r < RowCount(n)
    {
      if r in reversed {
        var k :| 0 <= k < |reversed| && reversed[k] == r;
        assert order[k] in order;
      }
      if n <= r < RowCount(n) {
        assert r - n in order;
        var k :| 0 <= k < |order| && order[k] == r - n;
        assert reversed[k] == r;
      }
    }
  }

  lemma {:induction false} WindowIsDistinct(n: nat, rows: seq<nat>, start: nat, up: bool, reversed: bool)
    requires IsWindow(n, rows, start, up, reversed)
    ensures Distinct(rows)
  {
    forall x, y | 0 <= x < y < |rows|
      ensures rows[x] != rows[y]
    {
      SafeWindow(n, start, up, reversed, |rows|, x, y);
    }
  }

  method WindowPreference(n: nat, reversal: seq<nat>, count: nat, start: nat, binding: string, split: string, h: Hashes)
    returns (preferred: seq<nat>, ghost up: bool, ghost reversed: bool)
    requires 2 <= n && n % 2 == 1 && count <= n / 2 && start < n
    requires |reversal| == RowCount(n) && forall i | 0 <= i < |reversal| :: reversal[i] == ReversalOf(n, i)
    ensures |preferred| == count && IsWindow(n, preferred, start, up, reversed) && Distinct(preferred)
    ensures forall r | r in preferred :: r < RowCount(n)
  {
    hide Translate;
    var upward := h.derive([binding, split, "williams_remainder_direction"]) % 2 == 0;
    var useReverse := h.derive([binding, split, "williams_remainder_family"]) % 2 == 1;
    preferred := seq(count, x requires 0 <= x < count =>
      var translate := Translate(n, start, upward, x);
      if useReverse then reversal[translate] else translate);
    up, reversed := upward, useReverse;
    WindowIsDistinct(n, preferred, start, up, reversed);
  }

  /** The last, incomplete cycle: reserved pairs first, then a safe window or the general order. */
  method SelectExtraRows(n: nat, pairs: seq<(nat, nat)>, reversal: seq<nat>, needed: nat, remainder: nat,
      binding: string, split: string, h: Hashes)
    returns (extra: seq<nat>, safe: bool, ghost start: nat, ghost up: bool, ghost reversed: bool)
    requires 2 <= n && remainder < RowCount(n) && 2 * needed <= remainder
    requires pairs == AllPairs(RowCount(n) / 2)
    requires |reversal| == RowCount(n) && forall i | 0 <= i < |reversal| :: reversal[i] == ReversalOf(n, i)
    ensures RemainderRows(n, extra, needed, remainder)
    ensures safe <==> n % 2 == 1 && needed == 0 && remainder <= n / 2
    ensures safe ==> IsWindow(n, extra, start, up, reversed)
  {
    hide IsWindow, PairsHeld, ReversalOf, AllPairs, Distinct;
    var reserved := ReservePairs(n, pairs, needed, h.derive([binding, split, "williams_pair_type_order"]), h);
    var baseSeed := h.derive([binding, split, "williams_remainder_order"]);
    var preferred;
    start, up, reversed := 0, true, false;
    safe := n % 2 == 1 && reserved == [] && remainder - |reserved| <= n / 2;
    if safe {
      start := baseSeed % n;
      preferred, up, reversed := WindowPreference(n, reversal, remainder, baseSeed % n, binding, split, h);
    } else {
      preferred := GeneralPreference(n, reversal, baseSeed, h);
    }
    extra := TakeUnused(n, reserved, preferred, needed, remainder);
    if |extra| != remainder {
      CoveringNeedsLength(extra, RowCount(n));
      assert false;  // the fallback fill is never needed
    }
  }

  // --------------------------------------------------------------- row pool

  /** Row r occurs `cycles` times, and once more when it is an extra row. */
  ghost predicate PoolOf(pool: multiset<nat>, rowCount: nat, cycles: nat, extra: seq<nat>) {
    forall r: nat :: pool[r] == if r < rowCount then cycles + (if r in extra then 1 else 0) else 0
  }

  method FullCycles(rowCount: nat, cycles: nat) returns (pool: seq<nat>)
    ensures |pool| == cycles * rowCount && PoolOf(multiset(pool), rowCount, cycles, [])
  {
    var once: seq<nat> := seq(rowCount, i requires 0 <= i < rowCount => i);
    CountsAtMostOne(once);
    forall r: nat ensures multiset(once)[r] == if r < rowCount then 1 else 0 {
      if r < rowCount { assert once[r] in once; }
    }
    pool := [];
    for c := 0 to cycles
      invariant |pool| == c * rowCount && PoolOf(multiset(pool), rowCount, c, [])
    {
      pool := pool + once;
      assert (c + 1) * rowCount == c * rowCount + rowCount;
    }
  }

  lemma {:induction false} PoolWithExtra(pool: seq<nat>, extra: seq<nat>, n: nat, cycles: nat, needed: nat,
      remainder: nat)
    requires PoolOf(multiset(pool), RowCount(n), cycles, []) && RemainderRows(n, extra, needed, remainder)
    ensures PoolOf(multiset(pool + extra), RowCount(n), cycles, extra)
  {
    CountsAtMostOne(extra);
    forall r: nat
      ensures multiset(pool + extra)[r] == if r < RowCount(n) then cycles + (if r in extra then 1 else 0) else 0
    {
      assert multiset(pool + extra)[r] == multiset(pool)[r] + multiset(extra)[r];
      assert r in extra <==> r in multiset(extra);
    }
  }

  /** Since no more tasks are paired than exist, the pairs that complete cycles cannot supply
      always fit the incomplete one. */
  lemma {:induction false} NeededPairsFit(tasks: nat, second: nat, half: nat, cycles: nat, remainder: nat)
    requires second <= tasks && tasks + second == cycles * (2 * half) + remainder
    ensures 2 * (second - cycles * half) <= remainder
  {
    assert cycles * (2 * half) == 2 * (cycles * half);
  }

  /** Complete cycles plus the remainder rows. */
  method BuildPool(n: nat, pairs: seq<(nat, nat)>, reversal: seq<nat>, tasks: nat, second: nat, cycles: nat,
      remainder: nat, binding: string, split: string, h: Hashes)
    returns (pool: seq<nat>, safe: bool, ghost extra: seq<nat>, ghost start: nat, ghost up: bool, ghost reversed: bool)
    requires 2 <= n && second <= tasks && pairs == AllPairs(RowCount(n) / 2)
    requires tasks + second == cycles * RowCount(n) + remainder && remainder < RowCount(n)
    requires |reversal| == RowCount(n) && forall i | 0 <= i < |reversal| :: reversal[i] == ReversalOf(n, i)
    ensures |pool| == tasks + second && PoolOf(multiset(pool), RowCount(n), cycles, extra)
    ensures |extra| == remainder && Distinct(extra) && (forall r | r in extra :: r < RowCount(n))
    ensures cycles * |pairs| + PairsHeld(extra, |pairs|, |pairs|) >= second
    ensures safe ==> IsWindow(n, extra, start, up, reversed)
    ensures safe <==> n % 2 == 1 && remainder <= n / 2 && second <= cycles * |pairs|
  {
    hide IsWindow, PairsHeld, ReversalOf, AllPairs, PoolOf, Distinct;
    var half := |pairs|;
    assert RowCount(n) == 2 * half;
    var capacity := cycles * half;
    var needed: nat := if second > capacity then second - capacity else 0;
    NeededPairsFit(tasks, second, half, cycles, remainder);
    if 2 * needed > remainder {
      assert false;  // "second-seed reversal pairs do not fit the scheduled block count"
    }
    pool := FullCycles(RowCount(n), cycles);
    var rows;
    rows, safe, start, up, reversed := SelectExtraRows(n, pairs, reversal, needed, remainder, binding, split, h);
    PoolWithExtra(pool, rows, n, cycles, needed, remainder);
    pool := pool + rows;
    extra := rows;
    if |pool| != tasks + second {
      assert false;  // "Williams row pool does not match the frozen block denominator"
    }
  }

  // -------------------------------------------------------------- pair slots

  function Min(a: nat, b: nat): nat { if a <= b then a else b }

  function Copies<T>(x: T, k: nat): seq<T> { seq(k, _ => x) }

  lemma {:induction false} CopiesCount<T>(x: T, k: nat)
    ensures forall y :: multiset(Copies(x, k))[y] == if y == x then k else 0
  {
    if k > 0 {
      CopiesCount(x, k - 1);
      assert Copies(x, k) == Copies(x, k - 1) + [x];
    }
  }

  /** No reversal pair is listed more often than both its rows are available. */
  ghost predicate SlotsFit(slots: seq<(nat, nat)>, half: nat, available: multiset<nat>) {
    forall p: (nat, nat) | p in slots ::
      p.0 < half && p.1 == p.0 + half && multiset(slots)[p] <= available[p.0] && multiset(slots)[p] <= available[p.1]
  }

  method PairSlots(half: nat, pairs: seq<(nat, nat)>, available: multiset<nat>, ghost cycles: nat,
      ghost extra: seq<nat>) returns (slots: seq<(nat, nat)>)
    requires pairs == AllPairs(half) && PoolOf(available, 2 * half, cycles, extra)
    ensures SlotsFit(slots, half, available)
    ensures |slots| >= cycles * half + PairsHeld(extra, half, half)
  {
    hide PoolOf;
    slots := [];
    for t := 0 to half
      invariant SlotsFit(slots, half, available) && forall p | p in slots :: p.0 < t
      invariant |slots| >= cycles * t + PairsHeld(extra, half, t)
    {
      var copies := Min(available[t], available[t + half]);
      assert copies >= cycles + (if t in extra && t + half in extra then 1 else 0) by {
        PoolHasCopies(available, half, cycles, extra, t);
      }
      CopiesFit(slots, half, available, t, copies);
      slots := slots + Copies(pairs[t], copies);
      assert cycles * (t + 1) == cycles * t + cycles;
    }
  }

  lemma {:induction false} PoolHasCopies(available: multiset<nat>, half: nat, cycles: nat, extra: seq<nat>, t: nat)
    requires PoolOf(available, 2 * half, cycles, extra) && t < half
    ensures Min(available[t], available[t + half]) >= cycles + (if t in extra && t + half in extra then 1 else 0)
  {}

  lemma {:induction false} CopiesFit(slots: seq<(nat, nat)>, half: nat, available: multiset<nat>, t: nat, copies: nat)
    requires SlotsFit(slots, half, available) && t < half && forall p | p in slots :: p.0 < t
    requires copies <= available[t] && copies <= available[t + half]
    ensures SlotsFit(slots + Copies(Pair(half, t), copies), half, available)
  {
    var more := Copies(Pair(half, t), copies);
    CopiesCount(Pair(half, t), copies);
    forall p: (nat, nat) | p in slots + more
      ensures p.0 < half && p.1 == p.0 + half
      ensures multiset(slots + more)[p] <= available[p.0] && multiset(slots + more)[p] <= available[p.1]
    {
      assert multiset(slots + more)[p] == multiset(slots)[p] + multiset(more)[p];
      assert p in slots <==> multiset(slots)[p] > 0;
      assert p in more <==> multiset(more)[p] > 0;
    }
  }

  // -------------------------------------------------------------- allocation

  ghost function Users(rowOf: map<Coordinate, nat>, r: nat): set<Coordinate> {
    set c | c in rowOf && rowOf[c] == r
  }

  lemma {:induction false} UsersAfter(rowOf: map<Coordinate, nat>, c: Coordinate, row: nat, r: nat)
    requires c !in rowOf
    ensures |Users(rowOf[c := row], r)| == |Users(rowOf, r)| + (if r == row then 1 else 0)
  {
    assert Users(rowOf[c := row], r) == if r == row then Users(rowOf, r) + {c} else Users(rowOf, r);
  }

  /** Conservation: every copy of a row is either in use or still available. */
  ghost predicate Conserved(rowOf: map<Coordinate, nat>, available: multiset<nat>, pool: multiset<nat>) {
    forall r: nat :: |Users(rowOf, r)| + available[r] == pool[r]
  }

  lemma {:induction false} ConservedAfter(rowOf: map<Coordinate, nat>, available: multiset<nat>, pool: multiset<nat>,
      c: Coordinate, row: nat)
    requires Conserved(rowOf, available, pool) && c !in rowOf && available[row] > 0
    ensures Conserved(rowOf[c := row], available - multiset{row}, pool)
  {
    forall r: nat
      ensures |Users(rowOf[c := row], r)| + (available - multiset{row})[r] == pool[r]
    {
      UsersAfter(rowOf, c, row, r);
    }
  }

  /** `orders` spells out the design rows named by `rowOf`. */
  ghost predicate Spelled(n: nat, orders: map<Coordinate, seq<nat>>, rowOf: map<Coordinate, nat>) {
    && orders.Keys == rowOf.Keys
    && forall c | c in rowOf :: rowOf[c] < RowCount(n) && orders[c] == DesignRow(n, rowOf[c])
  }

  /** The second seeds of `done` run the exact reversal of their first seed's row. */
  ghost predicate Reversed(n: nat, rowOf: map<Coordinate, nat>, done: seq<string>) {
    2 <= n && forall t | t in done ::
      && (t, 0) in rowOf && (t, 1) in rowOf && rowOf[(t, 0)] < RowCount(n)
      && rowOf[(t, 1)] == ReversalOf(n, rowOf[(t, 0)])
  }

  /** The state of the allocation once the tasks of `done` have their pairs. */
  ghost predicate PairsAllocated(n: nat, done: seq<string>, orders: map<Coordinate, seq<nat>>,
      rowOf: map<Coordinate, nat>, left: multiset<nat>, pool: multiset<nat>) {
    && (forall c :: c in rowOf <==> c.0 in done && c.1 < 2)
    && Spelled(n, orders, rowOf) && Reversed(n, rowOf, done) && Conserved(rowOf, left, pool)
    && |left| == |pool| - 2 * |done|
  }

  lemma {:induction false} PairAllocated(n: nat, done: seq<string>, orders: map<Coordinate, seq<nat>>,
      rowOf: map<Coordinate, nat>, left: multiset<nat>, pool: multiset<nat>, task: string, primary: nat, second: nat)
    requires 2 <= n && primary < RowCount(n) && second == ReversalOf(n, primary)
    requires PairsAllocated(n, done, orders, rowOf, left, pool) && task !in done
    requires left[primary] > 0 && left[second] > 0
    ensures PairsAllocated(n, done + [task],
      orders[(task, 0) := DesignRow(n, primary)][(task, 1) := DesignRow(n, second)],
      rowOf[(task, 0) := primary][(task, 1) := second], left - multiset{primary} - multiset{second}, pool)
  {
    hide Conserved, DesignRow, ReversalOf;
    ConservedAfter(rowOf, left, pool, (task, 0), primary);
    ConservedAfter(rowOf[(task, 0) := primary], left - multiset{primary}, pool, (task, 1), second);
  }

  method AllocatePairs(n: nat, rows: seq<seq<nat>>, paired: seq<string>, slots: seq<(nat, nat)>, pool: multiset<nat>,
      binding: string, split: string, h: Hashes)
    returns (orders: map<Coordinate, seq<nat>>, ghost rowOf: map<Coordinate, nat>, left: multiset<nat>)
    requires 2 <= n && rows == Square(n) && Distinct(paired)
    requires SlotsFit(slots, RowCount(n) / 2, pool) && |slots| >= |paired|
    ensures PairsAllocated(n, paired, orders, rowOf, left, pool)
  {
    hide PairsAllocated, SlotsFit, Square, DesignRow, Distinct, Reverse, ReversalOf, RowCount;
    SquareRows(n);
    orders, rowOf, left := map[], map[], pool;
    NobodyYet(n, pool);
    assert slots[0..] == slots;
    for k := 0 to |paired|
      invariant PairsAllocated(n, paired[..k], orders, rowOf, left, pool)
      invariant SlotsFit(slots[k..], RowCount(n) / 2, left)
    {
      var task := paired[k];
      var orientation := h.derive([binding, split, "williams_pair_orientation", task]) % 2;
      var slot := slots[k];
      var primary := if orientation == 0 then slot.0 else slot.1;
      var second := if orientation == 0 then slot.1 else slot.0;
      TakeRows(n, slots[k..], left, primary, second);
      assert slots[k..][1..] == slots[k + 1..];
      assert paired[..k + 1] == paired[..k] + [task];
      NotBefore(paired, k);
      PairAllocated(n, paired[..k], orders, rowOf, left, pool, task, primary, second);
      left := left - multiset{primary} - multiset{second};
      rowOf := rowOf[(task, 0) := primary][(task, 1) := second];
      orders := orders[(task, 0) := rows[primary]][(task, 1) := rows[second]];
      ClosedUnderReversal(n, primary);
      if orders[(task, 1)] != Reverse(orders[(task, 0)]) {
        assert false;  // "second-seed Williams row is not the full reversal"
      }
    }
    assert paired[..|paired|] == paired;
  }

  lemma {:induction false} NotBefore(tasks: seq<string>, k: nat)
    requires Distinct(tasks) && k < |tasks|
    ensures Distinct(tasks[..k]) && tasks[k] !in tasks[..k]
  {}

  lemma {:induction false} SquareRows(n: nat)
    ensures |Square(n)| == RowCount(n) && forall i | 0 <= i < RowCount(n) :: Square(n)[i] == DesignRow(n, i)
  {}

  lemma {:induction false} NobodyYet(n: nat, pool: multiset<nat>)
    requires 2 <= n
    ensures PairsAllocated(n, [], map[], map[], pool, pool)
  {
    forall r: nat ensures |Users(map[], r)| == 0 { assert Users(map[], r) == {}; }
  }

  /** The rows of the next slot, in either order. */
  lemma {:induction false} TakeRows(n: nat, slots: seq<(nat, nat)>, available: multiset<nat>, p: nat, q: nat)
    requires 2 <= n && slots != [] && SlotsFit(slots, RowCount(n) / 2, available)
    requires (p, q) == slots[0] || (q, p) == slots[0]
    ensures p < RowCount(n) && q == ReversalOf(n, p) && available[p] > 0 && available[q] > 0
    ensures SlotsFit(slots[1..], RowCount(n) / 2, available - multiset{p} - multiset{q})
  {
    hide SlotsFit;
    TakeSlot(slots, RowCount(n) / 2, available);
  }

  lemma {:induction false} TakeSlot(slots: seq<(nat, nat)>, half: nat, available: multiset<nat>)
    requires slots != [] && SlotsFit(slots, half, available)
    ensures slots[0].0 < half && slots[0].1 == slots[0].0 + half && available[slots[0].0] > 0
      && available[slots[0].1] > 0
    ensures SlotsFit(slots[1..], half, available - multiset{slots[0].0} - multiset{slots[0].1})
    ensures SlotsFit(slots[1..], half, available - multiset{slots[0].1} - multiset{slots[0].0})
  {
    var p, rest := slots[0], slots[1..];
    assert slots == [p] + rest;
    assert multiset(slots) == multiset{p} + multiset(rest);
    assert p in slots;
    var after := available - multiset{p.0} - multiset{p.1};
    assert after == available - multiset{p.1} - multiset{p.0};
    forall q: (nat, nat) | q in rest
      ensures q.0 < half && q.1 == q.0 + half && multiset(rest)[q] <= after[q.0] && multiset(rest)[q] <= after[q.1]
    {
      assert q in slots;
      assert multiset(slots)[q] == multiset(rest)[q] + (if q == p then 1 else 0);
    }
  }

  /** The rows still available, listed row by row. */
  method RemainingRows(available: multiset<nat>, rowCount: nat) returns (listing: seq<nat>)
    requires forall r | r in available :: r < rowCount
    ensures multiset(listing) == available
  {
    listing := [];
    for r := 0 to rowCount
      invariant forall x :: multiset(listing)[x] == if x < r then available[x] else 0
    {
      CopiesCount(r, available[r]);
      listing := listing + Copies(r, available[r]);
    }
    assert forall x: nat :: multiset(listing)[x] == available[x];
  }

  /** The state once the single-replicate tasks of `done` have their rows as well. */
  ghost predicate SinglesAllocated(n: nat, done: seq<string>, orders: map<Coordinate, seq<nat>>,
      rowOf: map<Coordinate, nat>, rowOfPairs: map<Coordinate, nat>, left: multiset<nat>, pool: multiset<nat>) {
    && (forall c :: c in rowOf <==> c in rowOfPairs || (c.0 in done && c.1 == 0))
    && (forall c | c in rowOfPairs :: rowOf[c] == rowOfPairs[c])
    && Spelled(n, orders, rowOf) && Conserved(rowOf, left, pool)
  }

  lemma {:induction false} SingleAllocated(n: nat, done: seq<string>, orders: map<Coordinate, seq<nat>>,
      rowOf: map<Coordinate, nat>, rowOfPairs: map<Coordinate, nat>, left: multiset<nat>, pool: multiset<nat>,
      task: string, r: nat)
    requires SinglesAllocated(n, done, orders, rowOf, rowOfPairs, left, pool)
    requires task !in done && (task, 0) !in rowOfPairs && r < RowCount(n) && left[r] > 0
    ensures SinglesAllocated(n, done + [task], orders[(task, 0) := DesignRow(n, r)], rowOf[(task, 0) := r],
                             rowOfPairs, left - multiset{r}, pool)
  {
    hide Conserved, DesignRow;
    ConservedAfter(rowOf, left, pool, (task, 0), r);
  }

  method AllocateSingles(n: nat, rows: seq<seq<nat>>, singles: seq<string>, remaining: seq<nat>,
      before: map<Coordinate, seq<nat>>, ghost rowOfPairs: map<Coordinate, nat>, ghost pool: multiset<nat>)
    returns (orders: map<Coordinate, seq<nat>>, ghost rowOf: map<Coordinate, nat>)
    requires rows == Square(n) && Distinct(singles) && |remaining| == |singles|
    requires forall t | t in singles :: (t, 0) !in rowOfPairs
    requires forall r | r in remaining :: r < RowCount(n)
    requires SinglesAllocated(n, [], before, rowOfPairs, rowOfPairs, multiset(remaining), pool)
    ensures SinglesAllocated(n, singles, orders, rowOf, rowOfPairs, multiset{}, pool)
  {
    hide SinglesAllocated, Square, DesignRow;
    SquareRows(n);
    orders, rowOf := before, rowOfPairs;
    assert remaining[0..] == remaining && singles[..0] == [];
    for k := 0 to |singles|
      invariant SinglesAllocated(n, singles[..k], orders, rowOf, rowOfPairs, multiset(remaining[k..]), pool)
    {
      var task, r := singles[k], remaining[k];
      assert task !in singles[..k] && singles[..k + 1] == singles[..k] + [task];
      assert task in singles && r in remaining;
      assert remaining[k..] == [r] + remaining[k + 1..];
      assert multiset(remaining[k..]) - multiset{r} == multiset(remaining[k + 1..]);
      SingleAllocated(n, singles[..k], orders, rowOf, rowOfPairs, multiset(remaining[k..]), pool, task, r);
      rowOf := rowOf[(task, 0) := r];
      orders := orders[(task, 0) := rows[r]];
    }
    assert singles[..|singles|] == singles && remaining[|singles|..] == [];
  }

  // ------------------------------------------------------------ the function

  function Singles(tasks: seq<string>, second: set<string>): (singles: seq<string>)
    ensures forall t :: t in singles <==> t in tasks && t !in second
  {
    if tasks == [] then [] else
      var t := tasks[|tasks| - 1];
      Singles(tasks[..|tasks| - 1], second) + (if t in second then [] else [t])
  }

  lemma {:induction false} SinglesDistinct(tasks: seq<string>, second: set<string>)
    requires Distinct(tasks)
    ensures Distinct(Singles(tasks, second)) && forall t | t in Singles(tasks, second) :: t in tasks
  {
    if tasks != [] {
      LastIsNew(tasks);
      var n := |tasks| - 1;
      SinglesDistinct(tasks[..n], second);
      if tasks[n] !in second {
        hide Distinct;
        SingleIsDistinct(tasks[n]);
        DistinctAppend(Singles(tasks[..n], second), [tasks[n]]);
      }
    }
  }

  lemma {:induction false} SingleIsDistinct(t: string)
    ensures Distinct([t])
  {
  }

  lemma {:induction false} SinglesCount(tasks: seq<string>, second: set<string>)
    requires Distinct(tasks)
    ensures Distinct(Singles(tasks, second))
    ensures |Singles(tasks, second)| + |set t | t in tasks && t in second| == |tasks|
  {
    SinglesDistinct(tasks, second);
    if tasks == [] {
      assert (set t | t in tasks && t in second) == {};
    } else {
      LastIsNew(tasks);
      hide Distinct;
      var n := |tasks| - 1;
      SinglesCount(tasks[..n], second);
      var before := set t | t in tasks[..n] && t in second;
      assert (set t | t in tasks && t in second) == if tasks[n] in second then before + {tasks[n]} else before;
    }
  }

  /** Tasks in the order of a hashed rank, ties by id. */
  method RankTasks(ids: seq<string>, purpose: string, binding: string, split: string, h: Hashes)
      returns (ranked: seq<string>)
    requires Distinct(ids)
    ensures Distinct(ranked) && |ranked| == |ids| && (forall t :: t in ranked <==> t in ids)
  {
    var rank := (t: string) => h.derive([binding, split, purpose, t]);
    ranked := Sort(ids, (s: string, t: string) => rank(s) < rank(t) || (rank(s) == rank(t) && StringLe(s, t)));
    DistinctByMultiset(ids, ranked);
  }

  /** The cycles a campaign of `total` blocks completes, and the rows left over. */
  function Cycles(n: nat, total: nat): nat
    requires 2 <= n
  {
    total / RowCount(n)
  }

  function Remainder(n: nat, total: nat): nat
    requires 2 <= n
  {
    total % RowCount(n)
  }

  lemma {:induction false} CyclesAndRemainder(n: nat, total: nat)
    requires 2 <= n
    ensures total == Cycles(n, total) * RowCount(n) + Remainder(n, total) && Remainder(n, total) < RowCount(n)
  {
    DivMod(total, RowCount(n));
  }

  lemma {:induction false} DivMod(x: nat, d: nat)
    requires d > 0
    ensures x == x / d * d + x % d && x % d < d
  {}

  /** The promise of the function: every coordinate has one design row, second seeds run the exact
      reversal, and the rows in use are the complete cycles plus `extra`, each at most once more. */
  ghost predicate Allocated(n: nat, tasks: seq<string>, second: set<string>, orders: map<Coordinate, seq<nat>>,
      rowOf: map<Coordinate, nat>, extra: seq<nat>)
  {
    2 <= n &&
    var total := |tasks| + |second|;
    && orders.Keys == Coordinates(tasks, second)
    && Spelled(n, orders, rowOf)
    && (forall t | t in second :: (t, 0) in orders && (t, 1) in orders && orders[(t, 1)] == Reverse(orders[(t, 0)]))
    && Distinct(extra) && |extra| == Remainder(n, total)
    && (forall r: nat | r < RowCount(n) :: |Users(rowOf, r)| == Cycles(n, total) + (if r in extra then 1 else 0))
  }

  lemma {:induction false} SecondAmongTasks(tasks: seq<string>, second: set<string>)
    requires Distinct(tasks) && forall t | t in second :: t in tasks
    ensures |second| <= |tasks|
  {
    SinglesCount(tasks, second);
    assert second == set t | t in tasks && t in second;
  }

  lemma {:induction false} SlotsFitShuffled(slots: seq<(nat, nat)>, shuffled: seq<(nat, nat)>, half: nat,
      available: multiset<nat>)
    requires SlotsFit(slots, half, available) && multiset(shuffled) == multiset(slots)
    ensures SlotsFit(shuffled, half, available) && |shuffled| == |slots|
  {
    assert |shuffled| == |multiset(shuffled)| == |multiset(slots)| == |slots|;
    forall p: (nat, nat) | p in shuffled ensures p in slots { assert p in multiset(shuffled); }
  }

  lemma {:induction false} LeftoversAreRows(n: nat, paired: seq<string>, orders: map<Coordinate, seq<nat>>,
      rowOf: map<Coordinate, nat>, left: multiset<nat>, pool: multiset<nat>, cycles: nat, extra: seq<nat>)
    requires PairsAllocated(n, paired, orders, rowOf, left, pool) && PoolOf(pool, RowCount(n), cycles, extra)
    ensures forall r | r in left :: r < RowCount(n)
  {
    forall r: nat | r in left ensures r < RowCount(n) { assert |Users(rowOf, r)| + left[r] == pool[r]; }
  }

  lemma {:induction false} SinglesMatch(n: nat, paired: seq<string>, orders: map<Coordinate, seq<nat>>,
      rowOf: map<Coordinate, nat>, left: multiset<nat>, pool: multiset<nat>, tasks: seq<string>, second: set<string>,
      remaining: seq<nat>)
    requires PairsAllocated(n, paired, orders, rowOf, left, pool)
    requires Distinct(tasks) && (forall t | t in second :: t in tasks) && |paired| == |second|
    requires |pool| == |tasks| + |second| && multiset(remaining) == left
    ensures |remaining| == |Singles(tasks, second)|
    ensures forall r: nat | r in remaining :: r in left
    ensures SinglesAllocated(n, [], orders, rowOf, rowOf, multiset(remaining), pool)
  {
    assert |remaining| == |multiset(remaining)|;
    SinglesCount(tasks, second);
    assert second == set t | t in tasks && t in second;
    forall r: nat | r in remaining ensures r in left { assert r in multiset(remaining); }
  }

  lemma {:induction false} EverythingInUse(rowOf: map<Coordinate, nat>, pool: multiset<nat>)
    requires Conserved(rowOf, multiset{}, pool)
    ensures forall r: nat :: |Users(rowOf, r)| == pool[r]
  {
    forall r: nat ensures |Users(rowOf, r)| == pool[r] { assert |Users(rowOf, r)| + multiset{}[r] == pool[r]; }
  }

  lemma {:induction false} AllocationComplete(n: nat, tasks: seq<string>, second: set<string>, paired: seq<string>,
      singles: seq<string>, pairOrders: map<Coordinate, seq<nat>>, rowOfPairs: map<Coordinate, nat>,
      left: multiset<nat>, orders: map<Coordinate, seq<nat>>, rowOf: map<Coordinate, nat>, pool: multiset<nat>,
      extra: seq<nat>)
    requires 2 <= n && PairsAllocated(n, paired, pairOrders, rowOfPairs, left, pool)
    requires SinglesAllocated(n, singles, orders, rowOf, rowOfPairs, multiset{}, pool)
    requires (forall t :: t in paired <==> t in second) && (forall t | t in second :: t in tasks)
    requires forall t :: t in singles <==> t in tasks && t !in second
    requires PoolOf(pool, RowCount(n), Cycles(n, |tasks| + |second|), extra)
    requires Distinct(extra) && |extra| == Remainder(n, |tasks| + |second|)
    ensures Allocated(n, tasks, second, orders, rowOf, extra)
  {
    hide DesignRow, ReversalOf, Cycles, Remainder, Distinct, Users;
    assert orders.Keys == Coordinates(tasks, second) by { hide Conserved, PoolOf; }
    forall t | t in second
      ensures (t, 0) in orders && (t, 1) in orders && orders[(t, 1)] == Reverse(orders[(t, 0)])
    {
      assert t in paired;
      ClosedUnderReversal(n, rowOf[(t, 0)]);
    }
    EverythingInUse(rowOf, pool);
  }

  /** Pool and pair slots, ready to be handed out to `tasks` tasks of which `second` are paired. */
  ghost predicate PoolReady(n: nat, tasks: nat, second: nat, pool: seq<nat>, slots: seq<(nat, nat)>, extra: seq<nat>) {
    2 <= n &&
    var total := tasks + second;
    && |pool| == total && PoolOf(multiset(pool), RowCount(n), Cycles(n, total), extra)
    && Distinct(extra) && |extra| == Remainder(n, total)
    && SlotsFit(slots, RowCount(n) / 2, multiset(pool)) && |slots| >= second
  }

  method PrepareRows(n: nat, tasks: nat, second: nat, binding: string, split: string, h: Hashes)
    returns (rows: seq<seq<nat>>, pool: seq<nat>, slots: seq<(nat, nat)>, safe: bool,
             ghost extra: seq<nat>, ghost start: nat, ghost up: bool, ghost reversed: bool)
    requires 2 <= n && second <= tasks
    ensures rows == Square(n) && PoolReady(n, tasks, second, pool, slots, extra)
    ensures safe <==>
      n % 2 == 1 && Remainder(n, tasks + second) <= n / 2 && second <= Cycles(n, tasks + second) * (RowCount(n) / 2)
    ensures safe ==> IsWindow(n, extra, start, up, reversed)
  {
    hide Square, ReversalOf, AllPairs, PoolOf, SlotsFit, PairsHeld, IsWindow, Shuffled, Distinct, Cycles, Remainder;
    var reversal;
    rows, reversal := DesignWithReversals(n);
    var pairs := PairTypes(n, reversal);
    var cycles, remainder := Cycles(n, tasks + second), Remainder(n, tasks + second);
    CyclesAndRemainder(n, tasks + second);
    pool, safe, extra, start, up, reversed :=
      BuildPool(n, pairs, reversal, tasks, second, cycles, remainder, binding, split, h);
    var listed := PairSlots(|pairs|, pairs, multiset(pool), cycles, extra);
    slots := SeededPermutation(listed, h.derive([binding, split, "williams_pair_slot_order"]), h.draw);
    SlotsFitShuffled(listed, slots, |pairs|, multiset(pool));
    if |slots| < second {
      assert false;  // "balanced Williams pool lacks required second-seed reversal pairs"
    }
  }

  method HandOutRows(n: nat, rows: seq<seq<nat>>, tasks: seq<string>, second: set<string>, pool: seq<nat>,
      slots: seq<(nat, nat)>, binding: string, split: string, h: Hashes, ghost extra: seq<nat>)
    returns (orders: map<Coordinate, seq<nat>>, ghost rowOf: map<Coordinate, nat>)
    requires rows == Square(n) && PoolReady(n, |tasks|, |second|, pool, slots, extra)
    requires Distinct(tasks) && forall t | t in second :: t in tasks
    ensures Allocated(n, tasks, second, orders, rowOf, extra)
  {
    hide Square, DesignRow, PoolOf, SlotsFit, Shuffled, Distinct, PairsAllocated, SinglesAllocated, Singles, StringLe,
        Sorted,
         Allocated, Cycles, Remainder;
    var listing := SortedStrings(second);
    var paired := RankTasks(listing, "williams_paired_task_rank", binding, split, h);
    DistinctLength(paired, second);
    var pairOrders, rowOfPairs, left := AllocatePairs(n, rows, paired, slots, multiset(pool), binding, split, h);

    LeftoversAreRows(n, paired, pairOrders, rowOfPairs, left, multiset(pool), Cycles(n, |tasks| + |second|), extra);
    var listed := RemainingRows(left, RowCount(n));
    var remaining := SeededPermutation(listed, h.derive([binding, split, "williams_single_row_order"]), h.draw);
    SinglesCount(tasks, second);
    var singles := RankTasks(Singles(tasks, second), "williams_single_task_rank", binding, split, h);
    SinglesMatch(n, paired, pairOrders, rowOfPairs, left, multiset(pool), tasks, second, remaining);
    if |remaining| != |singles| {
      assert false;  // "Williams single-row pool does not match primary-only tasks"
    }
    assert forall t | t in singles ::
      (t, 0) !in rowOfPairs by { OnlyPairedSoFar(n, paired, pairOrders, rowOfPairs, left, multiset(pool)); }
    orders, rowOf := AllocateSingles(n, rows, singles, remaining, pairOrders, rowOfPairs, multiset(pool));
    AllocationComplete(n, tasks, second, paired, singles, pairOrders, rowOfPairs, left, orders, rowOf, multiset(pool),
        extra);
  }

  lemma {:induction false} OnlyPairedSoFar(n: nat, done: seq<string>, orders: map<Coordinate, seq<nat>>,
      rowOf: map<Coordinate, nat>, left: multiset<nat>, pool: multiset<nat>)
    requires PairsAllocated(n, done, orders, rowOf, left, pool)
    ensures forall c | c in rowOf :: c.0 in done
  {}

  datatype Policy = SingleArm | CyclicWindow | GeneralRemainder

  /** _balanced_williams_assignments. */
  method BalancedWilliamsAssignments(binding: string, split: string, tasks: seq<string>, second: set<string>, n: nat,
      h: Hashes)
    returns (orders: map<Coordinate, seq<nat>>, policy: Policy,
             ghost rowOf: map<Coordinate, nat>, ghost extra: seq<nat>, ghost start: nat, ghost up: bool,
                 ghost reversed: bool)
    requires 1 <= n && Distinct(tasks) && (forall t | t in second :: t in tasks)
    ensures n == 1 ==>
      policy == SingleArm && orders.Keys == Coordinates(tasks, second) && forall c | c in orders :: orders[c] == [0]
    ensures n >= 2 ==> Allocated(n, tasks, second, orders, rowOf, extra) && policy != SingleArm
    ensures policy == CyclicWindow <==>
      && n >= 2 && n % 2 == 1 && Remainder(n, |tasks| + |second|) <= n / 2
      && |second| <= Cycles(n, |tasks| + |second|) * (RowCount(n) / 2)
    ensures policy == CyclicWindow ==> IsWindow(n, extra, start, up, reversed)
  {
    hide Allocated, Square, PoolReady, IsWindow, Cycles, Remainder, Distinct;
    rowOf, extra, start, up, reversed := map[], [], 0, true, false;
    if n == 1 {
      var coordinates := (set t | t in tasks :: (t, 0)) + (set t | t in second :: (t, 1));
      orders, policy := map c | c in coordinates :: [0], SingleArm;
    } else {
      SecondAmongTasks(tasks, second);
      var rows, pool, slots, safe;
      rows, pool, slots, safe, extra, start, up, reversed := PrepareRows(n, |tasks|, |second|, binding, split, h);
      orders, rowOf := HandOutRows(n, rows, tasks, second, pool, slots, binding, split, h, extra);
      policy := if safe then CyclicWindow else GeneralRemainder;
    }
  }
}
