/** Williams squares and the seeded Fisher-Yates shuffle (src/shapeflow/experiment/randomization.py). */
module Randomization {
  import opened Arithmetic

  /** SHA-256 is left uninterpreted: `derive` is derive_seed over string coordinates and `draw`
      is the hashed stream "seed:i" read as an integer. */
  datatype Hashes = Hashes(derive: seq<string> -> nat, draw: (nat, nat) -> nat)

  // ---------------------------------------------------------------- first row

  /** Closed form of 0, 1, n-1, 2, n-2, 3, ... */
  function FirstRowAt(n: nat, j: nat): (x: nat)
    requires j < n
    ensures x < n
  {
    if j % 2 == 1 then (j + 1) / 2 else if j == 0 then 0 else n - j / 2
  }

  function FirstRow(n: nat): seq<nat> {
    seq(n, j requires 0 <= j < n => FirstRowAt(n, j))
  }

  method WilliamsFirstRow(n: nat) returns (row: seq<nat>)
    requires n >= 1
    ensures row == FirstRow(n)
  {
    row := [0];
    var lo, hi := 1, n - 1;
    var takeLo := true;
    while |row| < n
      invariant 1 <= |row| <= n
      invariant takeLo == (|row| % 2 == 1)
      invariant lo == |row| / 2 + 1 && hi == n - 1 - (|row| - 1) / 2
      invariant forall j | 0 <= j < |row| :: row[j] == FirstRowAt(n, j)
    {
      if takeLo {
        row := row + [lo];
        lo := lo + 1;
      } else {
        row := row + [hi];
        hi := hi - 1;
      }
      takeLo := !takeLo;
    }
  }

  // ------------------------------------------------------------------- square

  /** Entry j of the first row translated by i. */
  function RowAt(n: nat, i: nat, j: nat): (x: nat)
    requires i < n && j < n
    ensures x < n
  {
    Wrap(n, FirstRowAt(n, j) + i)
  }

  function Row(n: nat, i: nat): (row: seq<nat>)
    requires i < n
    ensures |row| == n
  {
    seq(n, j requires 0 <= j < n => RowAt(n, i, j))
  }

  function Reverse<T>(s: seq<T>): (r: seq<T>)
    ensures |r| == |s|
  {
    seq(|s|, k requires 0 <= k < |s| => s[|s| - 1 - k])
  }

  function RowCount(n: nat): nat { if n % 2 == 1 then 2 * n else n }

  /** Entry j of row `index`: of a translate, or for odd n of a reversed translate. */
  function Entry(n: nat, index: nat, j: nat): (x: nat)
    requires index < RowCount(n) && j < n
    ensures x < n
  {
    if index < n then RowAt(n, index, j) else RowAt(n, index - n, n - 1 - j)
  }

  function DesignRow(n: nat, index: nat): (row: seq<nat>)
    requires index < RowCount(n)
    ensures |row| == n
  {
    seq(n, j requires 0 <= j < n => Entry(n, index, j))
  }

  function Square(n: nat): seq<seq<nat>> {
    seq(RowCount(n), i requires 0 <= i < RowCount(n) => DesignRow(n, i))
  }

  datatype SquareResult = Design(rows: seq<seq<nat>>) | TooFewTreatments

  method TranslateRow(n: nat, first: seq<nat>, i: nat) returns (row: seq<nat>)
    requires i < n && first == FirstRow(n)
    ensures row == Row(n, i)
  {
    row := seq(n, j requires 0 <= j < n => (first[j] + i) % n);
    forall j | 0 <= j < n
      ensures row[j] == RowAt(n, i, j)
    {
      WrapIsModulo(n, first[j] + i);
    }
  }

  method WilliamsSquare(n: nat) returns (r: SquareResult)
    ensures r == if n < 2 then TooFewTreatments else Design(Square(n))
  {
    if n < 2 {
      return TooFewTreatments;
    }
    var first := WilliamsFirstRow(n);
    var square := [];
    for i := 0 to n
      invariant |square| == i
      invariant forall k | 0 <= k < i :: square[k] == Row(n, k)
    {
      var row := TranslateRow(n, first, i);
      square := square + [row];
    }
    if n % 2 == 1 {
      square := square + seq(|square|, k requires 0 <= k < |square| => Reverse(square[k]));
    }
    hide Row, Reverse, DesignRow, RowAt;
    forall k | 0 <= k < |square|
      ensures square[k] == DesignRow(n, k)
    {
      RowIsDesignRow(n, k);
    }
    assert square == Square(n);
    return Design(square);
  }

  lemma {:induction false} RowIsDesignRow(n: nat, k: nat)
    requires k < RowCount(n)
    ensures DesignRow(n, k) == if k < n then Row(n, k) else Reverse(Row(n, k - n))
  {}

  // ------------------------------------------------------------------ shuffle

  function Swap<T>(s: seq<T>, i: nat, j: nat): (t: seq<T>)
    requires i < |s| && j < |s|
    ensures multiset(t) == multiset(s) && |t| == |s|
  {
    s[i := s[j]][j := s[i]]
  }

  /** The swaps at positions i, i-1, ..., 1, each with a hashed partner at or below it. */
  function Shuffled<T>(s: seq<T>, i: nat, seed: nat, draw: (nat, nat) -> nat): (t: seq<T>)
    requires i < |s| || i == 0
    ensures multiset(t) == multiset(s) && |t| == |s|
    decreases i
  {
    if i == 0 then s else Shuffled(Swap(s, i, draw(seed, i) % (i + 1)), i - 1, seed, draw)
  }

  method SeededPermutation<T>(items: seq<T>, seed: nat, draw: (nat, nat) -> nat) returns (permuted: seq<T>)
    ensures permuted == Shuffled(items, if items == [] then 0 else |items| - 1, seed, draw)
    ensures multiset(permuted) == multiset(items)
  {
    hide Swap, Shuffled;
    var n := |items|;
    if n == 0 {
      return items;
    }
    var result := new T[n](k requires 0 <= k < n => items[k]);
    assert result[..] == items;
    var i := n - 1;
    while i > 0
      invariant 0 <= i < n
      invariant Shuffled(result[..], i, seed, draw) == Shuffled(items, n - 1, seed, draw)
    {
      var j := draw(seed, i) % (i + 1);
      ShuffledStep(result[..], i, seed, draw);
      SwapInPlace(result, i, j);
      i := i - 1;
    }
    ShuffledStep(result[..], 0, seed, draw);
    permuted := result[..];
  }

  lemma {:induction false} ShuffledStep<T>(s: seq<T>, i: nat, seed: nat, draw: (nat, nat) -> nat)
    requires i < |s|
    ensures Shuffled(s, i, seed, draw)
      == if i == 0 then s else Shuffled(Swap(s, i, draw(seed, i) % (i + 1)), i - 1, seed, draw)
  {}

  method SwapInPlace<T>(a: array<T>, i: nat, j: nat)
    requires i < a.Length && j < a.Length
    modifies a
    ensures a[..] == Swap(old(a[..]), i, j)
  {
    a[i], a[j] := a[j], a[i];
  }
}
