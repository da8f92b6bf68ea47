/** What the seeded shuffle can produce (src/shapeflow/experiment/randomization.py:61-71): every
    permutation, each from exactly one choice of swap partners. */
module Shuffles {
  import opened Randomization
  import opened Sorting

  /** One partner for each of the positions 1 .. i, at or below it. */
  ghost predicate Choice(js: seq<nat>, i: nat) { |js| == i && forall k | 0 <= k < i :: js[k] <= k + 1 }

  ghost function Exchanged<T>(s: seq<T>, i: nat, j: nat): (t: seq<T>)
    requires i < |s| && j < |s|
    ensures |t| == |s| && t[i] == s[j] && t[j] == s[i] && forall k | 0 <= k < |s| && k != i && k != j :: t[k] == s[k]
  {
    s[i := s[j]][j := s[i]]
  }

  /** The swaps at positions i, i-1, ..., 1 with the partners chosen. */
  ghost function SwappedBy<T>(s: seq<T>, js: seq<nat>, i: nat): (t: seq<T>)
    requires Choice(js, i) && i < |s|
    ensures |t| == |s|
    decreases i
  {
    if i == 0 then s else SwappedBy(Exchanged(s, i, js[i - 1]), js[..i - 1], i - 1)
  }

  /** The hashed partner of position i. */
  ghost function Partner(draw: (nat, nat) -> nat, seed: nat, i: nat): (j: nat)
    requires i >= 1
    ensures j <= i
  {
    draw(seed, i) % (i + 1)
  }

  lemma {:induction false} OneMoreSwap<T>(s: seq<T>, js: seq<nat>, j: nat, i: nat)
    requires Choice(js, i) && j <= i + 1 && i + 1 < |s|
    ensures Choice(js + [j], i + 1) && SwappedBy(s, js + [j], i + 1) == SwappedBy(Exchanged(s, i + 1, j), js, i)
  {
    hide Exchanged;
    assert (js + [j])[..i] == js;
  }

  lemma {:induction false} ShuffledOnce<T>(s: seq<T>, i: nat, seed: nat, draw: (nat, nat) -> nat)
    requires i < |s|
    ensures i == 0 ==> Shuffled(s, i, seed, draw) == s
    ensures i > 0 ==>
      Shuffled(s, i, seed, draw) == Shuffled(Exchanged(s, i, Partner(draw, seed, i)), i - 1, seed, draw)
  {
    ShuffledStep(s, i, seed, draw);
    hide Shuffled;
  }

  lemma {:induction false} NoSwaps<T>(s: seq<T>)
    requires s != []
    ensures Choice([], 0) && SwappedBy(s, [], 0) == s
  {}

  /** The hashed draws are such a choice, and the shuffle follows it. */
  lemma {:induction false} ShuffleIsChoice<T>(s: seq<T>, i: nat, seed: nat, draw: (nat, nat) -> nat)
      returns (js: seq<nat>)
    requires i < |s|
    ensures Choice(js, i) && Shuffled(s, i, seed, draw) == SwappedBy(s, js, i)
    ensures |js| == i && forall k: nat | k < i :: js[k] == Partner(draw, seed, k + 1)
    decreases i
  {
    hide *;
    ShuffledOnce(s, i, seed, draw);
    if i == 0 {
      js := [];
      NoSwaps(s);
    } else {
      var j := Partner(draw, seed, i);
      var rest := ShuffleIsChoice(Exchanged(s, i, j), i - 1, seed, draw);
      js := rest + [j];
      OneMoreSwap(s, rest, j, i - 1);
    }
  }

  lemma {:induction false} ExchangeKeepsDistinct<T>(s: seq<T>, i: nat, j: nat)
    requires i < |s| && j < |s| && Distinct(s)
    ensures Distinct(Exchanged(s, i, j))
  {
    var t := Exchanged(s, i, j);
    forall a, b | 0 <= a < b < |t| ensures t[a] != t[b] {
      var x := if a == i then j else if a == j then i else a;
      var y := if b == i then j else if b == j then i else b;
      assert t[a] == s[x] && t[b] == s[y] && x != y;
      assert if x < y then s[x] != s[y] else s[y] != s[x];
    }
  }

  lemma {:induction false} AboveStays<T>(s: seq<T>, js: seq<nat>, i: nat, k: nat)
    requires Choice(js, i) && i < k < |s|
    ensures SwappedBy(s, js, i)[k] == s[k]
    decreases i
  {
    if i > 0 {
      hide Exchanged;
      AboveStays(Exchanged(s, i, js[i - 1]), js[..i - 1], i - 1, k);
    }
  }

  /** Both hold the same items. */
  ghost predicate SameItems<T(!new)>(s: seq<T>, t: seq<T>) { |s| == |t| && forall x :: x in s <==> x in t }

  lemma {:induction false} ExchangeKeepsItems<T(!new)>(s: seq<T>, i: nat, j: nat)
    requires i < |s| && j < |s|
    ensures SameItems(Exchanged(s, i, j), s)
  {
    var t := Exchanged(s, i, j);
    forall x ensures x in s <==> x in t {
      if x in s {
        var k :| 0 <= k < |s| && s[k] == x;
        assert t[if k == i then j else if k == j then i else k] == x;
      }
      if x in t {
        var k :| 0 <= k < |t| && t[k] == x;
        assert s[if k == i then j else if k == j then i else k] == x;
      }
    }
  }

  /** The partner of position i is where the item it must get stands. */
  lemma {:induction false} PartnerFor<T(!new)>(s: seq<T>, t: seq<T>, i: nat) returns (j: nat)
    requires i < |s| && Distinct(t) && SameItems(s, t) && forall k | i < k < |s| :: s[k] == t[k]
    ensures j <= i && s[j] == t[i]
  {
    assert t[i] in t && t[i] in s;
    j :| 0 <= j < |s| && s[j] == t[i];
    assert forall k | i < k < |s| :: s[k] == t[k] != t[i];
  }

  lemma {:induction false} SameFirst<T(!new)>(s: seq<T>, t: seq<T>)
    requires s != [] && Distinct(t) && SameItems(s, t) && forall k | 0 < k < |s| :: s[k] == t[k]
    ensures s == t
  {
    var j := PartnerFor(s, t, 0);
  }

  lemma {:induction false} PlaceOne<T>(s: seq<T>, t: seq<T>, i: nat, j: nat)
    requires j <= i < |s| == |t| && s[j] == t[i] && forall k | i < k < |s| :: s[k] == t[k]
    ensures forall k | i - 1 < k < |s| :: Exchanged(s, i, j)[k] == t[k]
  {}

  /** Every rearrangement of the first i + 1 positions comes from some choice. */
  lemma {:induction false} SomeChoice<T(!new)>(s: seq<T>, t: seq<T>, i: nat) returns (js: seq<nat>)
    requires i < |s| && Distinct(t) && SameItems(s, t) && forall k | i < k < |s| :: s[k] == t[k]
    ensures Choice(js, i) && SwappedBy(s, js, i) == t
    decreases i
  {
    if i == 0 {
      js := [];
      SameFirst(s, t);
    } else {
      var j := PartnerFor(s, t, i);
      PlaceOne(s, t, i, j);
      ExchangeKeepsItems(s, i, j);
      assert SameItems(Exchanged(s, i, j), t);
      hide Exchanged, SwappedBy, SameItems, Distinct;
      var rest := SomeChoice(Exchanged(s, i, j), t, i - 1);
      js := rest + [j];
      OneMoreSwap(s, rest, j, i - 1);
    }
  }

  lemma {:induction false} FirstSwap<T>(s: seq<T>, js: seq<nat>, i: nat)
    requires Choice(js, i) && 1 <= i < |s|
    ensures |js| == i && js[i - 1] <= i && Choice(js[..i - 1], i - 1)
    ensures SwappedBy(s, js, i) == SwappedBy(Exchanged(s, i, js[i - 1]), js[..i - 1], i - 1)
    ensures SwappedBy(s, js, i)[i] == s[js[i - 1]]
  {
    AboveStays(Exchanged(s, i, js[i - 1]), js[..i - 1], i - 1, i);
  }

  lemma {:induction false} SamePlace<T>(s: seq<T>, j: nat, k: nat)
    requires Distinct(s) && j < |s| && k < |s| && s[j] == s[k]
    ensures j == k
  {}

  /** And from only one. */
  lemma {:induction false} OneChoice<T>(s: seq<T>, js: seq<nat>, ks: seq<nat>, i: nat)
    requires Distinct(s) && Choice(js, i) && Choice(ks, i) && i < |s|
    requires SwappedBy(s, js, i) == SwappedBy(s, ks, i)
    ensures js == ks
    decreases i
  {
    hide Exchanged, SwappedBy, Distinct;
    if i > 0 {
      FirstSwap(s, js, i);
      FirstSwap(s, ks, i);
      SamePlace(s, js[i - 1], ks[i - 1]);
      ExchangeKeepsDistinct(s, i, js[i - 1]);
      OneChoice(Exchanged(s, i, js[i - 1]), js[..i - 1], ks[..i - 1], i - 1);
      assert js == js[..i - 1] + [js[i - 1]] && ks == ks[..i - 1] + [ks[i - 1]];
    }
  }

  ghost predicate Yields<T>(s: seq<T>, js: seq<nat>, t: seq<T>)
    requires s != []
  {
    Choice(js, |s| - 1) && SwappedBy(s, js, |s| - 1) == t
  }

  /** Every permutation of different items comes from exactly one choice of partners, so the shuffle
      is fair whenever the draws are. */
  lemma {:induction false} EveryPermutationOnce<T(!new)>(s: seq<T>, t: seq<T>)
    requires s != [] && Distinct(s) && multiset(s) == multiset(t)
    ensures exists js :: Yields(s, js, t)
    ensures forall js, ks | Yields(s, js, t) && Yields(s, ks, t) :: js == ks
  {
    assert |s| == |multiset(s)| == |multiset(t)| == |t|;
    DistinctByMultiset(s, t);
    hide Choice, SwappedBy, Distinct;
    var js := SomeChoice(s, t, |s| - 1);
    assert Yields(s, js, t);
    forall js, ks | Yields(s, js, t) && Yields(s, ks, t) ensures js == ks { OneChoice(s, js, ks, |s| - 1); }
  }
}
