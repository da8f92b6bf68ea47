/** Spreading variants over boundary states and the exchange that chooses them
    (src/shapeflow/experiment/block_design.py:115-209). numpy's generator is a parameter, and the
    D-criterion an arbitrary real score. */
module BlockDesign {
  import opened Arithmetic
  import opened Sorting

  // ------------------------------------------------------------ round robin

  function Occurrences(s: seq<string>, v: string): nat {
    if s == [] then 0 else Occurrences(s[..|s| - 1], v) + (if s[|s| - 1] == v then 1 else 0)
  }

  /** StateAssignment.exposure of one variant, over the listed states. */
  ghost function Exposure(states: seq<string>, byState: map<string, seq<string>>, v: string): nat
    requires forall s | s in states :: s in byState
  {
    if states == [] then 0 else
      Exposure(states[..|states| - 1], byState, v) + Occurrences(byState[states[|states| - 1]], v)
  }

  /** Entries cursor, cursor + 1, ..., cursor + p - 1 of the rotation. */
  function Window(order: seq<string>, cursor: nat, p: nat): (chosen: seq<string>)
    requires cursor < |order| && p <= |order|
    ensures |chosen| == p
  {
    seq(p, k requires 0 <= k < p => order[Wrap(|order|, cursor + k)])
  }

  ghost predicate InWindow(m: nat, cursor: nat, p: nat, r: nat) {
    cursor <= r < cursor + p || r + m < cursor + p
  }

  lemma {:induction false} WindowOccurrences(order: seq<string>, cursor: nat, p: nat, r: nat)
    requires Distinct(order) && cursor < |order| && p <= |order| && r < |order|
    ensures Occurrences(Window(order, cursor, p), order[r]) == if InWindow(|order|, cursor, p, r) then 1 else 0
  {
    if p > 0 {
      var chosen := Window(order, cursor, p);
      assert chosen[..p - 1] == Window(order, cursor, p - 1);
      WindowOccurrences(order, cursor, p - 1, r);
      var last := Wrap(|order|, cursor + p - 1);
      assert order[last] == order[r] <==> last == r;
    }
  }

  lemma {:induction false} WindowDistinct(order: seq<string>, cursor: nat, p: nat)
    requires Distinct(order) && cursor < |order| && p <= |order|
    ensures Distinct(Window(order, cursor, p))
  {
    forall j, k | 0 <= j < k < p
      ensures Window(order, cursor, p)[j] != Window(order, cursor, p)[k]
    {
      var a, b := Wrap(|order|, cursor + j), Wrap(|order|, cursor + k);
      assert a != b;
      assert if a < b then order[a] != order[b] else order[b] != order[a];
    }
  }

  lemma {:induction false} ExposureElsewhere(states: seq<string>, byState: map<string, seq<string>>, s: string,
      chosen: seq<string>, v: string)
    requires s !in states && forall t | t in states :: t in byState
    ensures Exposure(states, byState[s := chosen], v) == Exposure(states, byState, v)
  {
    if states != [] { ExposureElsewhere(states[..|states| - 1], byState, s, chosen, v); }
  }

  /** After `rounds` full turns and `cursor` more draws, entry r of the rotation was drawn this often. */
  function Drawn(rounds: nat, cursor: nat, r: nat): nat { rounds + (if r < cursor then 1 else 0) }

  datatype Assignment = Assigned(byState: map<string, seq<string>>) | BadPerState

  /** Each listed state has p different variants of the rotation. */
  ghost predicate Filled(states: seq<string>, byState: map<string, seq<string>>, order: seq<string>, p: nat) {
    && (forall s :: s in byState <==> s in states)
    && (Distinct(order) ==>
         forall s | s in byState ::
           |byState[s]| == p && Distinct(byState[s]) && forall v | v in byState[s] :: v in order)
  }

  /** Over different states, every variant was drawn once a turn and once more before the cursor. */
  ghost predicate Spread(states: seq<string>, byState: map<string, seq<string>>, order: seq<string>, rounds: nat,
      cursor: nat) {
    && (forall s | s in states :: s in byState)
    && (Distinct(order) && Distinct(states) ==>
          forall r | 0 <= r < |order| :: Exposure(states, byState, order[r]) == Drawn(rounds, cursor, r))
  }

  /** State i takes the entries i * p, i * p + 1, ... of the rotation, in that order. */
  ghost predicate Rotated(states: seq<string>, byState: map<string, seq<string>>, order: seq<string>, p: nat)
    requires order != []
  {
    forall i: nat | i < |states| :: Takes(states[i], byState, order, i * p, p)
  }

  ghost predicate Takes(s: string, byState: map<string, seq<string>>, order: seq<string>, from: nat, p: nat)
    requires order != []
  {
    s in byState && |byState[s]| == p && forall k: nat | k < p :: byState[s][k] == order[(from + k) % |order|]
  }

  lemma {:induction false} DrawWraps(q: nat, m: nat, x: nat)
    requires m > 0
    ensures (q * m + x) % m == x % m
  {
    assert q * m + x == (q + x / m) * m + x % m;
    var (n, r) := (q + x / m, x % m);
    assert n * m <= n * m + r < n * m + m == (n + 1) * m;
    QuotientIs(n * m + r, m, n);
  }

  lemma {:induction false} StateRotates(states: seq<string>, i: nat, byState: map<string, seq<string>>,
      order: seq<string>, rounds: nat, cursor: nat, p: nat)
    requires i < |states| && Distinct(states) && cursor < |order| && p <= |order|
    requires i * p == rounds * |order| + cursor && Rotated(states[..i], byState, order, p)
    ensures Rotated(states[..i + 1], byState[states[i] := Window(order, cursor, p)], order, p)
  {
    var after := byState[states[i] := Window(order, cursor, p)];
    forall j: nat | j < i + 1
      ensures Takes(states[..i + 1][j], after, order, j * p, p)
    {
      if j == i {
        WindowTakes(order, cursor, p, rounds);
      } else {
        assert states[..i][j] == states[j] != states[i];
        assert Takes(states[..i][j], byState, order, j * p, p);
      }
    }
  }

  lemma {:induction false} WindowTakes(order: seq<string>, cursor: nat, p: nat, rounds: nat)
    requires cursor < |order| && p <= |order|
    ensures forall k: nat | k < p ::
      Window(order, cursor, p)[k] == order[(rounds * |order| + cursor + k) % |order|]
  {
    var m := |order|;
    forall k: nat | k < p ensures Window(order, cursor, p)[k] == order[(rounds * m + cursor + k) % m] {
      WrapIsModulo(m, cursor + k);
      DrawWraps(rounds, m, cursor + k);
      assert rounds * m + cursor + k == rounds * m + (cursor + k);
    }
  }

  /** assign_to_states, over the shuffled variant order. */
  method AssignToStates(states: seq<string>, order: seq<string>, perState: int) returns (a: Assignment)
    ensures a.BadPerState? <==> perState < 1 || perState > |order|
    ensures a.Assigned? ==> Filled(states, a.byState, order, perState)
    ensures a.Assigned? && Distinct(states) ==> Rotated(states, a.byState, order, perState)
    ensures a.Assigned? ==>
      Spread(states, a.byState, order, |states| * perState / |order|, |states| * perState % |order|)
  {
    if perState < 1 || perState > |order| {
      return BadPerState;
    }
    hide Filled, Spread, Window, Rotated, Distinct;
    var byState: map<string, seq<string>> := map[];
    var cursor: nat := 0;
    var m := |order|;
    ghost var rounds: nat := 0;
    NothingYet(order, perState);
    assert states[..0] == [];
    NothingRotated(order, perState);
    for i := 0 to |states|
      invariant cursor < m && i * perState == rounds * m + cursor
      invariant Filled(states[..i], byState, order, perState) && Spread(states[..i], byState, order, rounds, cursor)
      invariant Distinct(states) ==> Rotated(states[..i], byState, order, perState)
    {
      var chosen := TakeWindow(order, cursor, perState);
      StateAdds(states, i, byState, order, rounds, cursor, perState);
      if Distinct(states) { StateRotates(states, i, byState, order, rounds, cursor, perState); }
      byState := byState[states[i] := chosen];
      WrapIsModulo(m, cursor + perState);
      NextTurn(i, perState, rounds, m, cursor);
      rounds := rounds + (if cursor + perState < m then 0 else 1);
      cursor := (cursor + perState) % m;
    }
    assert states[..|states|] == states;
    QuotientIs(|states| * perState, m, rounds);
    return Assigned(byState);
  }

  lemma {:induction false} NothingRotated(order: seq<string>, p: nat)
    requires order != []
    ensures Rotated([], map[], order, p)
  {}

  lemma {:induction false} NothingYet(order: seq<string>, p: nat)
    ensures Filled([], map[], order, p) && Spread([], map[], order, 0, 0)
  {}

  method TakeWindow(order: seq<string>, cursor: nat, p: nat) returns (chosen: seq<string>)
    requires cursor < |order| && p <= |order|
    ensures chosen == Window(order, cursor, p)
  {
    chosen := seq(p, k requires 0 <= k < p => order[(cursor + k) % |order|]);
    ChosenIsWindow(order, cursor, p, chosen);
  }

  lemma {:induction false} ChosenIsWindow(order: seq<string>, cursor: nat, p: nat, chosen: seq<string>)
    requires cursor < |order| && p <= |order| && |chosen| == p
    requires forall k | 0 <= k < p :: chosen[k] == order[(cursor + k) % |order|]
    ensures chosen == Window(order, cursor, p)
  {
    forall k | 0 <= k < p ensures chosen[k] == Window(order, cursor, p)[k] { WrapIsModulo(|order|, cursor + k); }
  }

  lemma {:induction false} WindowFromOrder(order: seq<string>, cursor: nat, p: nat)
    requires cursor < |order| && p <= |order|
    ensures forall v | v in Window(order, cursor, p) :: v in order
  {
    var chosen := Window(order, cursor, p);
    forall k | 0 <= k < p ensures chosen[k] in order { assert chosen[k] == order[Wrap(|order|, cursor + k)]; }
  }

  /** One state's draws, in terms of turns of the rotation. */
  lemma {:induction false} StateAdds(states: seq<string>, i: nat, byState: map<string, seq<string>>,
      order: seq<string>, rounds: nat, cursor: nat, p: nat)
    requires i < |states| && cursor < |order| && p <= |order|
    requires Filled(states[..i], byState, order, p) && Spread(states[..i], byState, order, rounds, cursor)
    ensures var byState' := byState[states[i] := Window(order, cursor, p)];
      && Filled(states[..i + 1], byState', order, p)
      && Spread(states[..i + 1], byState', order, rounds + (if cursor + p < |order| then 0 else 1),
           Wrap(|order|, cursor + p))
  {
    hide Window;
    var byState' := byState[states[i] := Window(order, cursor, p)];
    assert states[..i + 1] == states[..i] + [states[i]] && states[..i + 1][..i] == states[..i];
    WindowFromOrder(order, cursor, p);
    if Distinct(order) {
      WindowDistinct(order, cursor, p);
      if Distinct(states[..i + 1]) {
        assert states[..i + 1][i] !in states[..i + 1][..i];
        forall r | 0 <= r < |order|
          ensures Exposure(states[..i + 1], byState', order[r])
            == Drawn(rounds + (if cursor + p < |order| then 0 else 1), Wrap(|order|, cursor + p), r)
        {
          ExposureElsewhere(states[..i], byState, states[i], Window(order, cursor, p), order[r]);
          WindowOccurrences(order, cursor, p, r);
        }
      }
    }
  }

  lemma {:induction false} NextTurn(i: nat, p: nat, rounds: nat, m: nat, cursor: nat)
    requires cursor < m && p <= m && i * p == rounds * m + cursor
    ensures (i + 1) * p == (rounds + (if cursor + p < m then 0 else 1)) * m + Wrap(m, cursor + p)
  {
    assert (i + 1) * p == i * p + p;
    assert (rounds + 1) * m == rounds * m + m;
  }

  /** The gate on exposure spread always passes: floor or ceiling of the average, for every variant. */
  lemma {:induction false} ExposureSpread(draws: nat, m: nat, r: nat, q: nat)
    requires r < m && q < m
    ensures var e := Drawn(draws / m, draws % m, r);
      draws / m <= e <= draws / m + 1 && e * m < draws + m && draws < e * m + m
    ensures Drawn(draws / m, draws % m, r) <= Drawn(draws / m, draws % m, q) + 1
  {
    assert draws == draws / m * m + draws % m;
    assert (draws / m + 1) * m == draws / m * m + m;
  }

  // -------------------------------------------------------- Fedorov exchange

  const TOLERANCE := 0.000000000001

  datatype Selection = Selected(rows: seq<nat>) | BadSize

  function Dedup(s: seq<nat>): (d: seq<nat>)
    ensures Distinct(d) && forall x :: x in d <==> x in s
  {
    if s == [] then [] else
      var d, x := Dedup(s[..|s| - 1]), s[|s| - 1];
      assert s == s[..|s| - 1] + [x];
      if x in d then d else d + [x]
  }

  /** The kept rows stand in the order of their first occurrences. */
  lemma {:induction false} DedupKeepsOrder(s: seq<nat>, i: nat, j: nat)
    requires i < j < |Dedup(s)|
    ensures exists a: nat :: a < |s| && s[a] == Dedup(s)[i] && Dedup(s)[j] !in s[..a + 1]
  {
    var n := |s| - 1;
    var d := Dedup(s[..n]);
    if j < |d| {
      DedupKeepsOrder(s[..n], i, j);
      var a: nat :| a < n && s[..n][a] == d[i] && d[j] !in s[..n][..a + 1];
      assert s[..n][..a + 1] == s[..a + 1];
    } else {
      assert d[i] in s[..n];
      var a: nat :| a < n && s[..n][a] == d[i];
      assert forall x | x in s[..a + 1] :: x in s[..n];
    }
  }

  /** The rows of the pool that are not forced, in ascending order. */
  function Remaining(pool: nat, forced: seq<nat>): (rest: seq<nat>)
    ensures Distinct(rest) && forall x: nat :: x in rest <==> x < pool && x !in forced
    ensures |rest| + |forced| >= pool && forall i, j | 0 <= i < j < |rest| :: rest[i] < rest[j]
  {
    if pool == 0 then [] else
      var rest := Remaining(pool - 1, Without(forced, pool - 1));
      RemainingStep(pool, forced, rest);
      if pool - 1 in forced then rest else rest + [pool - 1]
  }

  function Without(s: seq<nat>, x: nat): (r: seq<nat>)
    ensures |r| <= |s| && (x in s ==> |r| < |s|) && forall y: nat :: y in r <==> y in s && y != x
  {
    if s == [] then [] else
      var r := Without(s[..|s| - 1], x);
      assert s == s[..|s| - 1] + [s[|s| - 1]];
      if s[|s| - 1] == x then r else r + [s[|s| - 1]]
  }

  lemma {:induction false} RemainingStep(pool: nat, forced: seq<nat>, rest: seq<nat>)
    requires pool > 0 && Distinct(rest) && forall x: nat ::
      x in rest <==> x < pool - 1 && x !in Without(forced, pool - 1)
    ensures Distinct(rest + [pool - 1]) && forall i | 0 <= i < |rest| :: rest[i] < pool - 1
  {
    forall i | 0 <= i < |rest| ensures rest[i] < pool - 1 { assert rest[i] in rest; }
  }

  /** Rows of the pool, none twice, the forced ones first. */
  ghost predicate Valid(rows: seq<nat>, pool: nat, size: nat, forced: seq<nat>) {
    |rows| == size && Distinct(rows) && (forall x | x in rows :: x < pool) && forced <= rows
  }

  /** No single swap of an unforced row beats the score by more than the tolerance. */
  ghost predicate SwapOptimal(rows: seq<nat>, pool: nat, forced: nat, score: seq<nat> -> real) {
    SwapOptimalTo(rows, pool, forced, |rows|, score)
  }

  ghost predicate SwapOptimalTo(rows: seq<nat>, pool: nat, forced: nat, upTo: nat, score: seq<nat> -> real)
    requires upTo <= |rows|
  {
    forall slot: nat, cand: nat | forced <= slot < upTo && cand < pool && cand !in rows ::
      NoGain(rows, slot, cand, score)
  }

  ghost predicate NoGain(rows: seq<nat>, slot: nat, cand: nat, score: seq<nat> -> real)
    requires slot < |rows|
  {
    score(rows[slot := cand]) <= score(rows) + TOLERANCE
  }

  lemma {:induction false} SwapValid(rows: seq<nat>, pool: nat, size: nat, forced: seq<nat>, slot: nat, cand: nat)
    requires Valid(rows, pool, size, forced) && |forced| <= slot < |rows| && cand < pool && cand !in rows
    ensures Valid(rows[slot := cand], pool, size, forced)
  {
    var trial := rows[slot := cand];
    forall x | x in trial ensures x < pool {
      var i :| 0 <= i < |trial| && trial[i] == x;
      if i != slot { assert rows[i] in rows; }
    }
    forall i, j | 0 <= i < j < |trial| ensures trial[i] != trial[j] {
      assert i != slot ==> rows[i] in rows;
      assert j != slot ==> rows[j] in rows;
    }
  }

  lemma {:induction false} InitialValid(pool: nat, size: nat, forced: seq<nat>, shuffled: seq<nat>)
    requires Distinct(forced) && (forall x | x in forced :: x < pool) && |forced| <= size <= pool
    requires multiset(shuffled) == multiset(Remaining(pool, forced))
    ensures size - |forced| <= |shuffled| && Valid(forced + shuffled[..size - |forced|], pool, size, forced)
  {
    var rest := Remaining(pool, forced);
    assert |shuffled| == |multiset(shuffled)| == |rest|;
    DistinctByMultiset(rest, shuffled);
    var k := size - |forced|;
    var rows := forced + shuffled[..k];
    forall x | x in rows ensures x < pool {
      if x in shuffled[..k] { assert x in shuffled; }
    }
    forall i, j | 0 <= i < j < |rows| ensures rows[i] != rows[j] {
      if i < |forced| <= j { assert rows[j] in shuffled && rows[i] in forced; }
    }
  }

  /** fedorov_select from the initial rows `start`. `converged` tells a round without improvement
      from running out of rounds; then every round gained more than the tolerance. */
  method FedorovSelect(pool: nat, size: int, forcedRows: seq<nat>, shuffle: seq<nat> -> seq<nat>,
      score: seq<nat> -> real, maxIter: nat)
    returns (r: Selection, ghost start: seq<nat>, converged: bool)
    requires forall s: seq<nat> :: multiset(shuffle(s)) == multiset(s)
    requires forall x | x in forcedRows :: x < pool
    ensures r.BadSize? <==> size < |Dedup(forcedRows)| || size > pool
    ensures r.Selected? ==> Valid(r.rows, pool, size, Dedup(forcedRows)) && Valid(start, pool, size, Dedup(forcedRows))
    ensures r.Selected? ==> score(r.rows) >= score(start)
    ensures r.Selected? ==>
      var (forced, rest) := (Dedup(forcedRows), shuffle(Remaining(pool, Dedup(forcedRows))));
      size - |forced| <= |rest| && start == forced + rest[..size - |forced|]
    ensures r.Selected? && !converged && maxIter > 0 ==>
      score(r.rows) > score(start) + maxIter as real * TOLERANCE
    ensures r.Selected? && maxIter == 0 ==> r.rows == start && !converged
    ensures r.Selected? && converged ==> SwapOptimal(r.rows, pool, |Dedup(forcedRows)|, score)
  {
    var forced := Dedup(forcedRows);
    start, converged := [], false;
    if size < |forced| || size > pool {
      return BadSize, start, false;
    }
    var remaining := shuffle(Remaining(pool, forced));
    InitialValid(pool, size, forced, remaining);
    var selected := forced + remaining[..size - |forced|];
    start := selected;
    hide Valid;
    var rounds := 0;
    while rounds < maxIter
      invariant 0 <= rounds <= maxIter
      invariant Valid(selected, pool, size, forced) && score(selected) >= score(start)
      invariant if rounds == 0 then selected == start else score(selected) > score(start) + rounds as real * TOLERANCE
      invariant !converged
    {
      var improved;
      selected, improved := ExchangeRound(selected, pool, size, forced, score);
      if !improved {
        converged := true;
        break;
      }
      rounds := rounds + 1;
    }
    r := Selected(selected);
  }

  /** One pass over the unforced slots and all candidates, keeping every improvement at once. */
  method ExchangeRound(rows: seq<nat>, pool: nat, size: nat, forced: seq<nat>, score: seq<nat> -> real)
      returns (selected: seq<nat>, improved: bool)
    requires Valid(rows, pool, size, forced) && |forced| <= size
    ensures Valid(selected, pool, size, forced) && score(selected) >= score(rows)
    ensures if improved then score(selected) > score(rows) + TOLERANCE
      else selected == rows && SwapOptimal(rows, pool, |forced|, score)
    ensures size > |forced| ==> SlotOptimal(selected, size - 1, pool, pool, score)
  {
    assert |rows| == size by { ValidSize(rows, pool, size, forced); }
    hide Valid;
    selected, improved := rows, false;
    var best := score(selected);
    for slot := |forced| to size
      invariant Valid(selected, pool, size, forced) && |selected| == size && best == score(selected) >= score(rows)
      invariant if improved then score(selected) > score(rows) + TOLERANCE else selected == rows
      invariant !improved ==> SwapOptimalTo(rows, pool, |forced|, slot, score)
      invariant slot > |forced| ==> SlotOptimal(selected, slot - 1, pool, pool, score)
    {
      for cand := 0 to pool
        invariant Valid(selected, pool, size, forced) && |selected| == size && best == score(selected) >= score(rows)
        invariant if improved then score(selected) > score(rows) + TOLERANCE else selected == rows
        invariant !improved ==> SwapOptimalTo(rows, pool, |forced|, slot, score)
        invariant !improved ==> forall c: nat | c < cand && c !in rows :: NoGain(rows, slot, c, score)
        invariant SlotOptimal(selected, slot, cand, pool, score)
      {
        if cand in selected {
          continue;
        }
        var trial := selected[slot := cand];
        var s := score(trial);
        if s > best + TOLERANCE {
          SwapValid(selected, pool, size, forced, slot, cand);
          SlotStays(selected, slot, cand, pool, score);
          selected := trial;
          best := s;
          improved := true;
        }
      }
    }
  }

  /** No candidate below `upTo` would gain more than the tolerance in this slot. */
  ghost predicate SlotOptimal(rows: seq<nat>, slot: nat, upTo: nat, pool: nat, score: seq<nat> -> real) {
    slot < |rows| && forall c: nat | c < upTo && c < pool && c !in rows :: NoGain(rows, slot, c, score)
  }

  /** Filling the slot with an improvement keeps what was decided about it. */
  lemma {:induction false} SlotStays(rows: seq<nat>, slot: nat, cand: nat, pool: nat, score: seq<nat> -> real)
    requires SlotOptimal(rows, slot, cand, pool, score) && score(rows[slot := cand]) > score(rows)
    ensures SlotOptimal(rows[slot := cand], slot, cand + 1, pool, score)
  {
    var trial := rows[slot := cand];
    assert trial[slot] == cand;
    forall c: nat | c < cand + 1 && c < pool && c !in trial ensures NoGain(trial, slot, c, score) {
      assert trial[slot := c] == rows[slot := c];
      if c in rows {
        var i :| 0 <= i < |rows| && rows[i] == c;
        assert trial[i] == if i == slot then cand else c;
        assert rows[slot := c] == rows;
      } else {
        assert NoGain(rows, slot, c, score);
      }
    }
  }

  lemma {:induction false} ValidSize(rows: seq<nat>, pool: nat, size: nat, forced: seq<nat>)
    requires Valid(rows, pool, size, forced)
    ensures |rows| == size
  {}
}
