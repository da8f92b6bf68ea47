/** The offer types (src/shapeflow/contracts/offer.py) and the greedy joint broker
    (src/shapeflow/broker/reference.py:26-87). */
module Broker {
  import opened Options
  import opened Sorting

  datatype Form = P0 | P1

  datatype RequestDescriptor = RequestDescriptor(uncachedPrefill: nat, cachedPrefill: nat, decode: nat)

  /** An offer: the independent requests of P0, and the selector request of P1 if that is possible. */
  datatype Offer = Offer(itemId: string, p0: seq<RequestDescriptor>, p1: Option<RequestDescriptor>) {
    predicate Offers(form: Form) { form.P0? || p1.Some? }
  }

  datatype SnapshotVersion = SnapshotVersion(epoch: string, tick: int)

  datatype Decision = Decision(admitted: seq<string>, form: map<string, Form>, deferred: seq<string>,
      version: SnapshotVersion, failClosed: bool)
  {
    /** Decision.__post_init__: admissions and forms are one choice, and nothing is both admitted
        and deferred. */
    ghost predicate WellFormed() {
      && (forall i | i in admitted :: i in form)
      && (forall i | i in form :: i in admitted)
      && (forall i | i in admitted :: i !in deferred)
    }
  }

  function RequestWeight(r: RequestDescriptor): nat { r.uncachedPrefill + r.cachedPrefill + r.decode }

  function RequestsWeight(requests: seq<RequestDescriptor>): nat {
    if requests == [] then 0 else RequestWeight(requests[0]) + RequestsWeight(requests[1..])
  }

  /** plan_weight */
  function PlanWeight(offer: Offer, form: Form): nat
    requires offer.Offers(form)
  {
    if form.P0? then RequestsWeight(offer.p0) else RequestWeight(offer.p1.value)
  }

  ghost predicate UniqueIds(offers: seq<Offer>) {
    forall i, j | 0 <= i < j < |offers| :: offers[i].itemId != offers[j].itemId
  }

  function ItemIds(offers: seq<Offer>): (ids: seq<string>)
    ensures |ids| == |offers|
  {
    seq(|offers|, k requires 0 <= k < |offers| => offers[k].itemId)
  }

  // -------------------------------------------------------------- candidates

  datatype Candidate = Candidate(weight: nat, itemId: string, form: Form)

  function CandidatesOf(offer: Offer, allowP1: bool): seq<Candidate> {
    [Candidate(PlanWeight(offer, P0), offer.itemId, P0)]
    + (if offer.p1.Some? && allowP1 then [Candidate(PlanWeight(offer, P1), offer.itemId, P1)] else [])
  }

  function Candidates(offers: seq<Offer>, allowP1: bool): seq<Candidate> {
    if offers == [] then [] else CandidatesOf(offers[0], allowP1) + Candidates(offers[1..], allowP1)
  }

  /** The sort key: weight, then item id, then form. */
  predicate CandidateLe(a: Candidate, b: Candidate) {
    || a.weight < b.weight
    || (a.weight == b.weight && a.itemId != b.itemId && StringLe(a.itemId, b.itemId))
    || (a.weight == b.weight && a.itemId == b.itemId && (a.form == b.form || a.form.P0?))
  }

  lemma {:induction false} CandidateOrder()
    ensures TotalPreorder(CandidateLe) && Antisymmetric(CandidateLe)
  {
    StringOrder();
    hide StringLe;
    forall a, b, c | CandidateLe(a, b) && CandidateLe(b, c)
      ensures CandidateLe(a, c)
    {
      if a.weight == b.weight == c.weight {
        assert StringLe(a.itemId, a.itemId);
        if a.itemId != c.itemId {
          assert StringLe(a.itemId, b.itemId) && StringLe(b.itemId, c.itemId);
        }
      }
    }
    forall a, b ensures CandidateLe(a, b) || CandidateLe(b, a) {}
  }

  // ------------------------------------------------------------------ greedy

  datatype Admission = Admission(admitted: seq<string>, form: map<string, Form>, used: nat)

  /** One pass over the ordered candidates: the loop of `decide` as a function. */
  function Admit(candidates: seq<Candidate>, capacity: int): Admission {
    if candidates == [] then Admission([], map[], 0) else
      var n := |candidates| - 1;
      var before, c := Admit(candidates[..n], capacity), candidates[n];
      if c.itemId in before.form || before.used + c.weight > capacity then before
      else Admission(before.admitted + [c.itemId], before.form[c.itemId := c.form], before.used + c.weight)
  }

  function SortedCandidates(offers: seq<Offer>, allowP1: bool): seq<Candidate> {
    Sort(Candidates(offers, allowP1), CandidateLe)
  }

  function Greedy(offers: seq<Offer>, allowP1: bool, capacity: int): Admission {
    Admit(SortedCandidates(offers, allowP1), capacity)
  }

  function Deferred(offers: seq<Offer>, form: map<string, Form>): (deferred: seq<string>)
    ensures forall i | i in deferred :: i !in form && exists k :: 0 <= k < |offers| && offers[k].itemId == i
    ensures forall k | 0 <= k < |offers| :: offers[k].itemId in form || offers[k].itemId in deferred
  {
    if offers == [] then [] else
      var rest := Deferred(offers[1..], form);
      assert forall k | 0 <= k < |offers| :: k == 0 || offers[k] == offers[1..][k - 1];
      assert forall i | i in rest ::
        exists k :: 0 <= k < |offers[1..]| && offers[1..][k] in offers && offers[1..][k].itemId == i;
      if offers[0].itemId in form then rest else [offers[0].itemId] + rest
  }

  method CollectCandidates(offers: seq<Offer>, allowP1: bool) returns (candidates: seq<Candidate>)
    ensures candidates == Candidates(offers, allowP1)
  {
    hide CandidatesOf;
    candidates := [];
    assert offers[0..] == offers;
    for k := 0 to |offers|
      invariant candidates + Candidates(offers[k..], allowP1) == Candidates(offers, allowP1)
    {
      assert offers[k..][1..] == offers[k + 1..];
      candidates := candidates + CandidatesOf(offers[k], allowP1);
    }
  }

  method AdmitInOrder(candidates: seq<Candidate>, capacity: int)
      returns (admitted: seq<string>, form: map<string, Form>)
    ensures admitted == Admit(candidates, capacity).admitted && form == Admit(candidates, capacity).form
    ensures forall i :: i in form <==> i in admitted
  {
    admitted, form := [], map[];
    var used: nat := 0;
    for k := 0 to |candidates|
      invariant Admission(admitted, form, used) == Admit(candidates[..k], capacity)
      invariant forall i :: i in form <==> i in admitted
    {
      var c := candidates[k];
      assert candidates[..k + 1][..k] == candidates[..k];
      if c.itemId in form {
        continue;
      }
      if used + c.weight > capacity {
        continue;
      }
      form := form[c.itemId := c.form];
      admitted := admitted + [c.itemId];
      used := used + c.weight;
    }
    assert candidates[..|candidates|] == candidates;
  }

  /** GreedyJointBroker.decide */
  method Decide(offers: seq<Offer>, version: SnapshotVersion, capacity: int, allowP1: bool) returns (d: Decision)
    ensures var greedy := Greedy(offers, allowP1, capacity);
      d == Decision(greedy.admitted, greedy.form, Deferred(offers, greedy.form), version, false)
    ensures d.WellFormed()
    ensures forall k | 0 <= k < |offers| :: offers[k].itemId in d.admitted || offers[k].itemId in d.deferred
  {
    hide Candidates, Sort, Admit;
    var candidates := CollectCandidates(offers, allowP1);
    candidates := Sort(candidates, CandidateLe);
    var admitted, form := AdmitInOrder(candidates, capacity);
    d := Decision(admitted, form, Deferred(offers, form), version, false);
  }

  // -------------------------------------------------------- order invariance

  lemma {:induction false} CandidatesSplit(a: seq<Offer>, b: seq<Offer>, allowP1: bool)
    ensures Candidates(a + b, allowP1) == Candidates(a, allowP1) + Candidates(b, allowP1)
  {
    if a == [] {
      assert a + b == b;
    } else {
      assert (a + b)[1..] == a[1..] + b;
      CandidatesSplit(a[1..], b, allowP1);
    }
  }

  lemma {:induction false} CandidatesMiddle(a: seq<Offer>, o: Offer, b: seq<Offer>, allowP1: bool)
    ensures multiset(Candidates(a + [o] + b, allowP1)) == multiset(CandidatesOf(o, allowP1))
      + multiset(Candidates(a + b, allowP1))
  {
    hide CandidatesOf;
    CandidatesSplit(a, b, allowP1);
    CandidatesSplit(a + [o], b, allowP1);
    CandidatesSplit(a, [o], allowP1);
    assert Candidates([o], allowP1) == CandidatesOf(o, allowP1) + Candidates([], allowP1);
  }

  /** Where a rearrangement has the first offer. */
  lemma {:induction false} TakeFirst(offers: seq<Offer>, offers': seq<Offer>) returns (k: nat)
    requires offers != [] && multiset(offers) == multiset(offers')
    ensures k < |offers'| && offers'[k] == offers[0]
      && multiset(offers[1..]) == multiset(offers'[..k] + offers'[k + 1..])
  {
    var o := offers[0];
    assert o in multiset(offers) && o in multiset(offers') && o in offers';
    k :| 0 <= k < |offers'| && offers'[k] == o;
    RearrangedRest(offers, 0, offers', k);
    assert offers[..0] + offers[1..] == offers[1..];
  }

  lemma {:induction false} CandidatesOrderFree(offers: seq<Offer>, offers': seq<Offer>, allowP1: bool)
    requires multiset(offers) == multiset(offers')
    ensures multiset(Candidates(offers, allowP1)) == multiset(Candidates(offers', allowP1))
  {
    if offers == [] {
      assert |offers'| == |multiset(offers')| == 0;
    } else {
      hide Candidates;
      var o := offers[0];
      var k := TakeFirst(offers, offers');
      var rest, a, b := offers[1..], offers'[..k], offers'[k + 1..];
      assert [] + [o] + rest == offers && [] + rest == rest && a + [o] + b == offers';
      CandidatesOrderFree(rest, a + b, allowP1);
      CandidatesMiddle([], o, rest, allowP1);
      CandidatesMiddle(a, o, b, allowP1);
    }
  }

  /** The admitted sequence and the form map do not depend on the order of the offers. */
  lemma {:induction false} AdmissionOrderFree(offers: seq<Offer>, offers': seq<Offer>, allowP1: bool, capacity: int)
    requires multiset(offers) == multiset(offers')
    ensures Greedy(offers, allowP1, capacity) == Greedy(offers', allowP1, capacity)
  {
    CandidatesOrderFree(offers, offers', allowP1);
    CandidateOrder();
    SortOrderFree(Candidates(offers, allowP1), Candidates(offers', allowP1), CandidateLe);
  }

  // -------------------------------------------------------------- optimality

  ghost predicate Allowed(offer: Offer, form: Form, allowP1: bool) {
    offer.Offers(form) && (form.P1? ==> allowP1)
  }

  /** A choice of items and of an allowed form for each. */
  ghost predicate Choice(offers: seq<Offer>, form: map<string, Form>, allowP1: bool) {
    forall k | 0 <= k < |offers| && offers[k].itemId in form :: Allowed(offers[k], form[offers[k].itemId], allowP1)
  }

  ghost function TotalWeight(offers: seq<Offer>, form: map<string, Form>): nat
    requires Choice(offers, form, true)
  {
    if offers == [] then 0 else
      var n := |offers| - 1;
      TotalWeight(offers[..n], form)
      + (if offers[n].itemId in form then PlanWeight(offers[n], form[offers[n].itemId]) else 0)
  }

  ghost function Chosen(offers: seq<Offer>, form: map<string, Form>): nat {
    if offers == [] then 0 else
      Chosen(offers[..|offers| - 1], form) + (if offers[|offers| - 1].itemId in form then 1 else 0)
  }

  /** The cheapest allowed weight of an offer. */
  ghost function Cheapest(offer: Offer, allowP1: bool): nat {
    if allowP1 && offer.p1.Some? && PlanWeight(offer, P1) < PlanWeight(offer, P0) then PlanWeight(offer, P1)
    else PlanWeight(offer, P0)
  }

  lemma {:induction false} CandidateFacts(offers: seq<Offer>, allowP1: bool)
    ensures forall c | c in Candidates(offers, allowP1) ::
      exists k ::
        0 <= k < |offers| && c.itemId == offers[k].itemId && Allowed(offers[k], c.form, allowP1)
          && c.weight == PlanWeight(offers[k], c.form)
    ensures forall k, f | 0 <= k < |offers| && Allowed(offers[k], f, allowP1) ::
      Candidate(PlanWeight(offers[k], f), offers[k].itemId, f) in Candidates(offers, allowP1)
  {
    hide PlanWeight;
    if offers != [] {
      CandidateFacts(offers[1..], allowP1);
      forall c | c in Candidates(offers, allowP1)
        ensures exists k ::
          0 <= k < |offers| && c.itemId == offers[k].itemId && Allowed(offers[k], c.form, allowP1)
            && c.weight == PlanWeight(offers[k], c.form)
      {
        if c in CandidatesOf(offers[0], allowP1) {
          assert c.itemId == offers[0].itemId;
        } else {
          var k :| 0 <= k < |offers[1..]| && c.itemId == offers[1..][k].itemId
            && Allowed(offers[1..][k], c.form, allowP1) && c.weight == PlanWeight(offers[1..][k], c.form);
          assert offers[k + 1] == offers[1..][k];
        }
      }
      forall k, f | 0 <= k < |offers| && Allowed(offers[k], f, allowP1)
        ensures Candidate(PlanWeight(offers[k], f), offers[k].itemId, f) in Candidates(offers, allowP1)
      {
        if k > 0 {
          assert offers[k] == offers[1..][k - 1];
        } else {
          var mine := CandidatesOf(offers[0], allowP1);
          assert Candidate(PlanWeight(offers[0], P0), offers[0].itemId, P0) == mine[0];
          if f.P1? {
            assert mine[1] == Candidate(PlanWeight(offers[0], P1), offers[0].itemId, P1);
          }
        }
      }
    }
  }

  /** Candidate q is admitted when its turn comes. */
  ghost predicate AdmittedAt(cs: seq<Candidate>, capacity: int, q: nat)
    requires q < |cs|
  {
    var before := Admit(cs[..q], capacity);
    cs[q].itemId !in before.form && before.used + cs[q].weight <= capacity
  }

  ghost predicate Ascending(cs: seq<Candidate>) {
    forall i, j | 0 <= i < j < |cs| :: cs[i].weight <= cs[j].weight
  }

  lemma {:induction false} AdmitStep(cs: seq<Candidate>, capacity: int, q: nat)
    requires q < |cs|
    ensures Admit(cs[..q + 1], capacity) ==
      var before := Admit(cs[..q], capacity);
      if AdmittedAt(cs, capacity, q)
      then
        Admission(before.admitted + [cs[q].itemId], before.form[cs[q].itemId := cs[q].form],
                  before.used + cs[q].weight)
      else before
  {
    assert cs[..q + 1][..q] == cs[..q];
  }

  lemma {:induction false} AdmitGrows(cs: seq<Candidate>, capacity: int, p: nat, q: nat)
    requires p <= q <= |cs|
    ensures Admit(cs[..p], capacity).form.Keys <= Admit(cs[..q], capacity).form.Keys
    ensures Admit(cs[..p], capacity).used <= Admit(cs[..q], capacity).used
    decreases q - p
  {
    if p < q {
      AdmitStep(cs, capacity, q - 1);
      AdmitGrows(cs, capacity, p, q - 1);
    }
  }

  /** Once a candidate does not fit, nothing after it does: the candidates are in weight order. */
  lemma {:induction false} BlockedForever(cs: seq<Candidate>, capacity: int, p: nat, q: nat)
    requires Ascending(cs) && p <= q <= |cs| && p < |cs|
    requires Admit(cs[..p], capacity).used + cs[p].weight > capacity
    ensures Admit(cs[..q], capacity) == Admit(cs[..p], capacity)
    decreases q - p
  {
    if p < q {
      BlockedForever(cs, capacity, p, q - 1);
      AdmitStep(cs, capacity, q - 1);
    }
  }

  /** Every admitted item got in at some candidate, the first one of that item. */
  lemma {:induction false} WhenAdmitted(cs: seq<Candidate>, capacity: int, n: nat, item: string) returns (q: nat)
    requires n <= |cs| && item in Admit(cs[..n], capacity).form
    ensures q < n && AdmittedAt(cs, capacity, q) && cs[q].itemId == item
      && cs[q].form == Admit(cs[..n], capacity).form[item]
  {
    AdmitStep(cs, capacity, n - 1);
    if AdmittedAt(cs, capacity, n - 1) && cs[n - 1].itemId == item {
      q := n - 1;
    } else {
      q := WhenAdmitted(cs, capacity, n - 1, item);
    }
  }

  /** An admitted item takes no more than any of its candidates weighs. */
  lemma {:induction false} AdmittedCheapest(cs: seq<Candidate>, capacity: int, item: string, p: nat) returns (q: nat)
    requires Ascending(cs) && item in Admit(cs, capacity).form && p < |cs| && cs[p].itemId == item
    ensures q < |cs| && cs[q].itemId == item && cs[q].form == Admit(cs, capacity).form[item]
      && cs[q].weight <= cs[p].weight
    ensures AdmittedAt(cs, capacity, q)
  {
    assert cs[..|cs|] == cs;
    q := WhenAdmitted(cs, capacity, |cs|, item);
    if p < q {
      AdmitGrows(cs, capacity, p, q);
      if AdmittedAt(cs, capacity, p) {
        AdmitStep(cs, capacity, p);
        AdmitGrows(cs, capacity, p + 1, q);
        assert false;
      }
      BlockedForever(cs, capacity, p, q);
      assert false;
    }
  }

  /** A deferred item's candidate was refused for want of room: it still does not fit at the end,
      and nothing admitted weighs more. */
  lemma {:induction false} DeferredBlocked(cs: seq<Candidate>, capacity: int, p: nat)
    requires Ascending(cs) && p < |cs| && cs[p].itemId !in Admit(cs, capacity).form
    ensures Admit(cs, capacity).used + cs[p].weight > capacity
    ensures forall q | 0 <= q < |cs| && AdmittedAt(cs, capacity, q) :: cs[q].weight <= cs[p].weight
  {
    assert cs[..|cs|] == cs;
    AdmitGrows(cs, capacity, p, |cs|);
    AdmitStep(cs, capacity, p);
    AdmitGrows(cs, capacity, p + 1, |cs|);
    BlockedForever(cs, capacity, p, |cs|);
    forall q | 0 <= q < |cs| && AdmittedAt(cs, capacity, q)
      ensures cs[q].weight <= cs[p].weight
    {
      if p < q {
        BlockedForever(cs, capacity, p, q);
        assert false;
      }
    }
  }

  // ---- from candidates back to offers

  /** What `decide` promises about each offer. */
  ghost predicate GreedyOutcome(offers: seq<Offer>, allowP1: bool, capacity: int, form: map<string, Form>, used: nat) {
    && Choice(offers, form, allowP1)
    && (forall k | 0 <= k < |offers| && offers[k].itemId in form ::
          PlanWeight(offers[k], form[offers[k].itemId]) == Cheapest(offers[k], allowP1))
    && (forall k | 0 <= k < |offers| && offers[k].itemId !in form :: used + Cheapest(offers[k], allowP1) > capacity)
    && (forall k, m | 0 <= k < |offers| && 0 <= m < |offers| && offers[k].itemId in form && offers[m].itemId !in form ::
          Cheapest(offers[k], allowP1) <= Cheapest(offers[m], allowP1))
  }

  lemma {:induction false} SortedFacts(offers: seq<Offer>, allowP1: bool)
    ensures var cs := SortedCandidates(offers, allowP1);
      Ascending(cs) && forall c :: c in cs <==> c in Candidates(offers, allowP1)
  {
    CandidateOrder();
    var all, cs := Candidates(offers, allowP1), SortedCandidates(offers, allowP1);
    SortSorts(all, CandidateLe);
    forall c ensures c in cs <==> c in all { assert c in multiset(cs) <==> c in multiset(all); }
  }

  lemma {:induction false} CheapestIsCandidate(offers: seq<Offer>, allowP1: bool, k: nat) returns (p: nat)
    requires k < |offers|
    ensures var cs := SortedCandidates(offers, allowP1);
      p < |cs| && cs[p].itemId == offers[k].itemId && cs[p].weight == Cheapest(offers[k], allowP1)
  {
    hide SortedCandidates, Candidates, PlanWeight;
    SortedFacts(offers, allowP1);
    CandidateFacts(offers, allowP1);
    var o := offers[k];
    var f := if Cheapest(o, allowP1) == PlanWeight(o, P0) then P0 else P1;
    var c := Candidate(PlanWeight(o, f), o.itemId, f);
    assert Allowed(offers[k], f, allowP1);
    assert c in SortedCandidates(offers, allowP1);
    p :| 0 <= p < |SortedCandidates(offers, allowP1)| && SortedCandidates(offers, allowP1)[p] == c;
  }

  /** With unique ids a candidate is one of its own offer's plans. */
  lemma {:induction false} CandidateOfOffer(offers: seq<Offer>, allowP1: bool, q: nat, k: nat)
    requires UniqueIds(offers) && k < |offers| && q < |SortedCandidates(offers, allowP1)|
    requires SortedCandidates(offers, allowP1)[q].itemId == offers[k].itemId
    ensures var c := SortedCandidates(offers, allowP1)[q];
      Allowed(offers[k], c.form, allowP1) && c.weight == PlanWeight(offers[k], c.form)
        && c.weight >= Cheapest(offers[k], allowP1)
  {
    hide SortedCandidates, Candidates;
    SortedFacts(offers, allowP1);
    CandidateFacts(offers, allowP1);
    var c := SortedCandidates(offers, allowP1)[q];
    assert c in Candidates(offers, allowP1);
    hide PlanWeight;
    var m :| 0 <= m < |offers| && c.itemId == offers[m].itemId && Allowed(offers[m], c.form, allowP1)
      && c.weight == PlanWeight(offers[m], c.form);
    assert m == k;
  }

  lemma {:induction false} GreedyKeepsPromise(offers: seq<Offer>, allowP1: bool, capacity: int)
    requires UniqueIds(offers)
    ensures GreedyOutcome(offers, allowP1, capacity, Greedy(offers, allowP1, capacity).form,
        Greedy(offers, allowP1, capacity).used)
  {
    var cs := SortedCandidates(offers, allowP1);
    SortedFacts(offers, allowP1);
    hide SortedCandidates, Candidates, Admit, Ascending, AdmittedAt, PlanWeight, Cheapest;
    var form, used := Greedy(offers, allowP1, capacity).form, Greedy(offers, allowP1, capacity).used;
    forall k | 0 <= k < |offers| && offers[k].itemId in form
      ensures Allowed(offers[k], form[offers[k].itemId], allowP1)
      ensures PlanWeight(offers[k], form[offers[k].itemId]) == Cheapest(offers[k], allowP1)
      ensures exists q :: 0 <= q < |cs| && AdmittedAt(cs, capacity, q) && cs[q].weight == Cheapest(offers[k], allowP1)
    {
      var p := CheapestIsCandidate(offers, allowP1, k);
      var q := AdmittedCheapest(cs, capacity, offers[k].itemId, p);
      CandidateOfOffer(offers, allowP1, q, k);
    }
    forall m | 0 <= m < |offers| && offers[m].itemId !in form
      ensures used + Cheapest(offers[m], allowP1) > capacity
      ensures forall q | 0 <= q < |cs| && AdmittedAt(cs, capacity, q) :: cs[q].weight <= Cheapest(offers[m], allowP1)
    {
      var p := CheapestIsCandidate(offers, allowP1, m);
      DeferredBlocked(cs, capacity, p);
    }
  }

  // ---- the exchange argument

  /** Measured against the cheapest deferred weight T, no choice does better than greedy term by
      term: greedy takes every offer below T at its cheapest and none above. */
  lemma {:induction false} Exchange(offers: seq<Offer>, allowP1: bool, greedy: map<string, Form>,
      other: map<string, Form>, T: nat)
    requires Choice(offers, greedy, true) && Choice(offers, other, true) && Choice(offers, other, allowP1)
    requires forall k | 0 <= k < |offers| && offers[k].itemId in greedy ::
      PlanWeight(offers[k], greedy[offers[k].itemId]) == Cheapest(offers[k], allowP1) <= T
    requires forall k | 0 <= k < |offers| && offers[k].itemId !in greedy :: Cheapest(offers[k], allowP1) >= T
    ensures TotalWeight(offers, other) - T * Chosen(offers, other)
      >= TotalWeight(offers, greedy) - T * Chosen(offers, greedy)
  {
    if offers != [] {
      var n := |offers| - 1;
      var init, o := offers[..n], offers[n];
      Exchange(init, allowP1, greedy, other, T);
      assert Allowed(o, P0, allowP1);
      assert T * (Chosen(init, other) + 1) == T * Chosen(init, other) + T;
      assert T * (Chosen(init, greedy) + 1) == T * Chosen(init, greedy) + T;
    }
  }

  lemma {:induction false} CheapestDeferred(offers: seq<Offer>, allowP1: bool, form: map<string, Form>, m: nat)
      returns (k: nat)
    requires m < |offers| && offers[m].itemId !in form
    ensures k < |offers| && offers[k].itemId !in form
    ensures forall j | 0 <= j < |offers| && offers[j].itemId !in form ::
      Cheapest(offers[k], allowP1) <= Cheapest(offers[j], allowP1)
  {
    hide Cheapest;
    k := m;
    for j := 0 to |offers|
      invariant k < |offers| && offers[k].itemId !in form
      invariant forall i | 0 <= i < j && offers[i].itemId !in form ::
        Cheapest(offers[k], allowP1) <= Cheapest(offers[i], allowP1)
    {
      if offers[j].itemId !in form && Cheapest(offers[j], allowP1) < Cheapest(offers[k], allowP1) {
        k := j;
      }
    }
  }

  lemma {:induction false} ChosenAtMost(offers: seq<Offer>, form: map<string, Form>)
    ensures Chosen(offers, form) <= |offers|
    ensures (forall k | 0 <= k < |offers| :: offers[k].itemId in form) ==> Chosen(offers, form) == |offers|
  {
    if offers != [] { ChosenAtMost(offers[..|offers| - 1], form); }
  }

  /** No choice within capacity admits more items than one with greedy's outcome. */
  lemma {:induction false} OutcomeIsOptimal(offers: seq<Offer>, allowP1: bool, capacity: int, form: map<string, Form>,
      other: map<string, Form>)
    requires Choice(offers, form, true) && Choice(offers, other, true) && Choice(offers, other, allowP1)
    requires GreedyOutcome(offers, allowP1, capacity, form, TotalWeight(offers, form))
    requires TotalWeight(offers, other) <= capacity
    ensures Chosen(offers, other) <= Chosen(offers, form)
  {
    hide Cheapest, PlanWeight, TotalWeight, Chosen;
    ChosenAtMost(offers, form);
    ChosenAtMost(offers, other);
    if m :| 0 <= m < |offers| && offers[m].itemId !in form {
      var k := CheapestDeferred(offers, allowP1, form, m);
      var T := Cheapest(offers[k], allowP1);
      Exchange(offers, allowP1, form, other, T);
      ExchangeArithmetic(T, Chosen(offers, other), Chosen(offers, form), TotalWeight(offers, other),
          TotalWeight(offers, form), capacity);
    }
  }

  lemma {:induction false} ExchangeArithmetic(T: nat, other: nat, greedy: nat, otherWeight: nat, greedyWeight: nat,
      capacity: int)
    requires otherWeight - T * other >= greedyWeight - T * greedy
    requires otherWeight <= capacity < greedyWeight + T
    ensures other <= greedy
  {
    if other > greedy {
      MulGap(T, other, greedy);
      assert false;
    }
  }

  lemma {:induction false} MulGap(T: nat, a: nat, b: nat)
    requires a > b
    ensures T * a >= T * b + T
  {
    if a == b + 1 {
      assert T * (b + 1) == T * b + T;
    } else {
      MulGap(T, a - 1, b);
      assert T * a == T * (a - 1) + T;
    }
  }

  lemma {:induction false} TotalWeightAdds(offers: seq<Offer>, form: map<string, Form>, k: nat, f: Form)
    requires UniqueIds(offers) && k < |offers| && offers[k].itemId !in form && offers[k].Offers(f)
    requires Choice(offers, form, true)
    ensures var form' := form[offers[k].itemId := f];
      && Choice(offers, form', true)
      && TotalWeight(offers, form') == TotalWeight(offers, form) + PlanWeight(offers[k], f)
      && Chosen(offers, form') == Chosen(offers, form) + 1
  {
    var n := |offers| - 1;
    var form' := form[offers[k].itemId := f];
    if k < n {
      TotalWeightAdds(offers[..n], form, k, f);
    } else {
      SameOnOthers(offers[..n], form, form', offers[n].itemId);
    }
  }

  lemma {:induction false} SameOnOthers(offers: seq<Offer>, form: map<string, Form>, form': map<string, Form>,
      item: string)
    requires item in form' && form' == form[item := form'[item]]
      && (forall k | 0 <= k < |offers| :: offers[k].itemId != item)
    requires Choice(offers, form, true)
    ensures Choice(offers, form', true)
    ensures TotalWeight(offers, form') == TotalWeight(offers, form) && Chosen(offers, form') == Chosen(offers, form)
  {
    if offers != [] { SameOnOthers(offers[..|offers| - 1], form, form', item); }
  }

  /** The offer a candidate stands for. */
  lemma {:induction false} CandidateOffer(offers: seq<Offer>, allowP1: bool, j: nat) returns (k: nat)
    requires UniqueIds(offers) && j < |SortedCandidates(offers, allowP1)|
    ensures var c := SortedCandidates(offers, allowP1)[j];
      k < |offers| && c.itemId == offers[k].itemId && Allowed(offers[k], c.form, allowP1)
        && c.weight == PlanWeight(offers[k], c.form)
  {
    var c := SortedCandidates(offers, allowP1)[j];
    assert c in SortedCandidates(offers, allowP1);
    hide SortedCandidates, Candidates, PlanWeight;
    SortedFacts(offers, allowP1);
    CandidateFacts(offers, allowP1);
    k :| k < |offers| && c.itemId == offers[k].itemId && Allowed(offers[k], c.form, allowP1)
      && c.weight == PlanWeight(offers[k], c.form);
  }

  /** The running total and count of the loop are those of the form map. */
  lemma {:induction false} UsedIsTotal(offers: seq<Offer>, allowP1: bool, capacity: int, n: nat)
    requires UniqueIds(offers) && n <= |SortedCandidates(offers, allowP1)|
    ensures var a := Admit(SortedCandidates(offers, allowP1)[..n], capacity);
      && Choice(offers, a.form, true) && TotalWeight(offers, a.form) == a.used
      && Chosen(offers, a.form) == |a.admitted| && (a.admitted != [] ==> a.used <= capacity)
      && (forall i | i in a.form :: exists k :: 0 <= k < |offers| && offers[k].itemId == i)
  {
    var cs := SortedCandidates(offers, allowP1);
    hide SortedCandidates, Candidates, PlanWeight;
    if n == 0 {
      NothingChosen(offers);
    } else {
      UsedIsTotal(offers, allowP1, capacity, n - 1);
      AdmitStep(cs, capacity, n - 1);
      hide Admit;
      if AdmittedAt(cs, capacity, n - 1) {
        var c := cs[n - 1];
        var k := CandidateOffer(offers, allowP1, n - 1);
        TotalWeightAdds(offers, Admit(cs[..n - 1], capacity).form, k, c.form);
      }
    }
  }

  lemma {:induction false} NothingChosen(offers: seq<Offer>)
    ensures Choice(offers, map[], true) && TotalWeight(offers, map[]) == 0 && Chosen(offers, map[]) == 0
  {
    if offers != [] { NothingChosen(offers[..|offers| - 1]); }
  }

  /** Joint admission is optimal in cardinality over all choices of items and allowed forms, takes
      every admitted item in its cheapest form, and stops only when no deferred item fits. */
  lemma {:induction false} GreedyOptimal(offers: seq<Offer>, allowP1: bool, capacity: int, other: map<string, Form>)
    requires UniqueIds(offers)
    requires Choice(offers, other, allowP1) && Choice(offers, other, true) && TotalWeight(offers, other) <= capacity
    ensures var greedy := Greedy(offers, allowP1, capacity);
      && Chosen(offers, other) <= Chosen(offers, greedy.form) == |greedy.admitted|
      && GreedyOutcome(offers, allowP1, capacity, greedy.form, greedy.used)
      && Choice(offers, greedy.form, true) && TotalWeight(offers, greedy.form) == greedy.used
  {
    hide SortedCandidates, Admit, TotalWeight, Chosen, PlanWeight, Cheapest;
    var cs := SortedCandidates(offers, allowP1);
    assert cs[..|cs|] == cs;
    UsedIsTotal(offers, allowP1, capacity, |cs|);
    GreedyKeepsPromise(offers, allowP1, capacity);
    OutcomeIsOptimal(offers, allowP1, capacity, Greedy(offers, allowP1, capacity).form, other);
  }

  /** Offering the P1 forms as well never admits fewer items than the P0-only baseline. */
  lemma {:induction false} JointNeverAdmitsFewer(offers: seq<Offer>, capacity: int)
    requires UniqueIds(offers)
    ensures |Greedy(offers, false, capacity).admitted| <= |Greedy(offers, true, capacity).admitted|
  {
    hide Admit, TotalWeight, Chosen, PlanWeight, Cheapest, Candidates;
    var cs := SortedCandidates(offers, false);
    assert cs[..|cs|] == cs;
    UsedIsTotal(offers, false, capacity, |cs|);
    var baseline := Greedy(offers, false, capacity);
    if baseline.admitted != [] {
      GreedyOptimal(offers, true, capacity, baseline.form);
    }
  }

  // ----------------------------------------------------- nothing drops out

  lemma {:induction false} AdmittedOnce(cs: seq<Candidate>, capacity: int, x: string)
    ensures multiset(Admit(cs, capacity).admitted)[x] == if x in Admit(cs, capacity).form then 1 else 0
  {
    if cs != [] { AdmittedOnce(cs[..|cs| - 1], capacity, x); }
  }

  lemma {:induction false} DeferredCounts(offers: seq<Offer>, form: map<string, Form>, x: string)
    ensures multiset(Deferred(offers, form))[x] == if x in form then 0 else multiset(ItemIds(offers))[x]
  {
    if offers != [] {
      DeferredCounts(offers[1..], form, x);
      assert ItemIds(offers) == [offers[0].itemId] + ItemIds(offers[1..]);
    }
  }

  lemma {:induction false} OfferedOnce(offers: seq<Offer>, k: nat)
    requires UniqueIds(offers) && k < |offers|
    ensures multiset(ItemIds(offers))[offers[k].itemId] == 1
  {
    var ids, x := ItemIds(offers), offers[k].itemId;
    assert ids == ids[..k] + [x] + ids[k + 1..];
    assert x !in ids[..k] && x !in ids[k + 1..];
  }

  /** Conservation: admitted and deferred together name each offer, and each exactly once. */
  lemma {:induction false} GreedyNamesEachOnce(offers: seq<Offer>, allowP1: bool, capacity: int)
    requires UniqueIds(offers)
    ensures var greedy := Greedy(offers, allowP1, capacity);
      multiset(greedy.admitted) + multiset(Deferred(offers, greedy.form)) == multiset(ItemIds(offers))
  {
    hide SortedCandidates, Admit, Deferred, ItemIds, UniqueIds;
    var cs := SortedCandidates(offers, allowP1);
    assert cs[..|cs|] == cs;
    UsedIsTotal(offers, allowP1, capacity, |cs|);
    var greedy := Greedy(offers, allowP1, capacity);
    forall x: string
      ensures (multiset(greedy.admitted) + multiset(Deferred(offers, greedy.form)))[x] == multiset(ItemIds(offers))[x]
    {
      AdmittedOnce(cs, capacity, x);
      DeferredCounts(offers, greedy.form, x);
      if x in greedy.form {
        var k: nat :| k < |offers| && offers[k].itemId == x;
        OfferedOnce(offers, k);
      }
    }
  }

  // ------------------------------------------------------------- what it weighs

  ghost function SumOf(requests: seq<RequestDescriptor>, estimate: RequestDescriptor -> nat): nat {
    if requests == [] then 0 else SumOf(requests[..|requests| - 1], estimate) + estimate(requests[|requests| - 1])
  }

  lemma {:induction false} SumFromFront(requests: seq<RequestDescriptor>, estimate: RequestDescriptor -> nat)
    requires requests != []
    ensures SumOf(requests, estimate) == estimate(requests[0]) + SumOf(requests[1..], estimate)
  {
    if |requests| > 1 {
      var n := |requests| - 1;
      SumFromFront(requests[..n], estimate);
      assert requests[1..][..n - 1] == requests[..n][1..];
    } else {
      assert requests[..0] == [] && requests[1..] == [];
    }
  }

  lemma {:induction false} RequestsWeightIs(requests: seq<RequestDescriptor>)
    ensures RequestsWeight(requests) ==
      SumOf(requests, (r: RequestDescriptor) => r.uncachedPrefill)
      + SumOf(requests, (r: RequestDescriptor) => r.cachedPrefill)
      + SumOf(requests, (r: RequestDescriptor) => r.decode)
  {
    if requests != [] {
      RequestsWeightIs(requests[1..]);
      SumFromFront(requests, (r: RequestDescriptor) => r.uncachedPrefill);
      SumFromFront(requests, (r: RequestDescriptor) => r.cachedPrefill);
      SumFromFront(requests, (r: RequestDescriptor) => r.decode);
    }
  }

  /** A plan weighs what all its requests prefill, cached or not, and decode; the P1 plan is its one
      selector request. */
  lemma {:induction false} PlanWeightIs(offer: Offer, form: Form)
    requires offer.Offers(form)
    ensures var requests := if form == P0 then offer.p0 else [offer.p1.value];
      PlanWeight(offer, form) ==
        SumOf(requests, (r: RequestDescriptor) => r.uncachedPrefill)
        + SumOf(requests, (r: RequestDescriptor) => r.cachedPrefill)
        + SumOf(requests, (r: RequestDescriptor) => r.decode)
  {
    RequestsWeightIs(if form == P0 then offer.p0 else [offer.p1.value]);
    if form.P1? {
      var one := [offer.p1.value];
      assert one[1..] == [] && RequestsWeight(one) == RequestWeight(one[0]);
    }
  }

  // ------------------------------------------------------------------- ties

  ghost predicate Ranked(cs: seq<Candidate>) { forall i, j | 0 <= i < j < |cs| :: CandidateLe(cs[i], cs[j]) }

  lemma {:induction false} SortedRanked(offers: seq<Offer>, allowP1: bool)
    ensures Ranked(SortedCandidates(offers, allowP1)) && Ascending(SortedCandidates(offers, allowP1))
  {
    CandidateOrder();
    SortSorts(Candidates(offers, allowP1), CandidateLe);
  }

  /** An item is admitted at the first of its candidates. */
  lemma {:induction false} AdmittedFirst(cs: seq<Candidate>, capacity: int, q: nat, p: nat)
    requires Ascending(cs) && q < |cs| && p < |cs| && AdmittedAt(cs, capacity, q) && cs[p].itemId == cs[q].itemId
    ensures q <= p
  {
    if p < q {
      AdmitStep(cs, capacity, p);
      AdmitGrows(cs, capacity, p + 1, q);
      AdmitGrows(cs, capacity, p, q);
    }
  }

  /** Nothing is admitted after a candidate that was refused for want of room. */
  lemma {:induction false} AdmittedBeforeRefused(cs: seq<Candidate>, capacity: int, q: nat, p: nat)
    requires Ascending(cs) && q < |cs| && p < |cs| && AdmittedAt(cs, capacity, q)
    requires cs[p].itemId !in Admit(cs, capacity).form
    ensures q < p
  {
    assert cs[..|cs|] == cs;
    AdmitGrows(cs, capacity, p, |cs|);
    AdmitStep(cs, capacity, p);
    AdmitGrows(cs, capacity, p + 1, |cs|);
    if p < q {
      BlockedForever(cs, capacity, p, q);
    }
    AdmitStep(cs, capacity, q);
    AdmitGrows(cs, capacity, q + 1, |cs|);
  }

  /** Every tie is broken the same way: P1 is taken only when it is strictly cheaper, and of two
      offers that weigh the same the one with the smaller id is admitted first. */
  lemma {:induction false} TiesAreBroken(offers: seq<Offer>, allowP1: bool, capacity: int)
    requires UniqueIds(offers)
    ensures var form := Greedy(offers, allowP1, capacity).form;
      && (forall k | 0 <= k < |offers| && offers[k].itemId in form && form[offers[k].itemId] == P1 ::
            offers[k].p1.Some? && PlanWeight(offers[k], P1) < PlanWeight(offers[k], P0))
      && (forall k, m | 0 <= k < |offers| && 0 <= m < |offers| && offers[k].itemId in form && offers[m].itemId !in form
            && Cheapest(offers[k], allowP1) == Cheapest(offers[m], allowP1) ::
            StringLe(offers[k].itemId, offers[m].itemId))
  {
    var cs := SortedCandidates(offers, allowP1);
    SortedRanked(offers, allowP1);
    GreedyKeepsPromise(offers, allowP1, capacity);
    hide SortedCandidates, Candidates, Admit, PlanWeight, Cheapest, AdmittedAt, StringLe;
    var form := Greedy(offers, allowP1, capacity).form;
    forall k | 0 <= k < |offers| && offers[k].itemId in form && form[offers[k].itemId] == P1
      ensures offers[k].p1.Some? && PlanWeight(offers[k], P1) < PlanWeight(offers[k], P0)
    {
      StrictlyCheaper(offers, allowP1, capacity, k);
    }
    forall k, m | 0 <= k < |offers| && 0 <= m < |offers| && offers[k].itemId in form && offers[m].itemId !in form
      && Cheapest(offers[k], allowP1) == Cheapest(offers[m], allowP1)
      ensures StringLe(offers[k].itemId, offers[m].itemId)
    {
      var p := CheapestIsCandidate(offers, allowP1, k);
      var q := AdmittedCheapest(cs, capacity, offers[k].itemId, p);
      CandidateOfOffer(offers, allowP1, q, k);
      var r := CheapestIsCandidate(offers, allowP1, m);
      AdmittedBeforeRefused(cs, capacity, q, r);
      assert CandidateLe(cs[q], cs[r]);
    }
  }

  lemma {:induction false} StrictlyCheaper(offers: seq<Offer>, allowP1: bool, capacity: int, k: nat)
    requires UniqueIds(offers) && k < |offers| && offers[k].itemId in Greedy(offers, allowP1, capacity).form
    requires Greedy(offers, allowP1, capacity).form[offers[k].itemId] == P1
    ensures offers[k].p1.Some? && PlanWeight(offers[k], P1) < PlanWeight(offers[k], P0)
  {
    hide *;
    var cs := SortedCandidates(offers, allowP1);
    SortedRanked(offers, allowP1);
    var q := AdmittedForm(offers, allowP1, capacity, offers[k].itemId);
    CandidateOfOffer(offers, allowP1, q, k);
    var p := P0IsCandidate(offers, allowP1, k);
    AdmittedFirst(cs, capacity, q, p);
    NotLater(cs, q, p);
    assert offers[k].p1.Some? by { OnlyWhereOffered(offers[k], allowP1); }
  }

  lemma {:induction false} AdmittedForm(offers: seq<Offer>, allowP1: bool, capacity: int, item: string)
      returns (q: nat)
    requires item in Greedy(offers, allowP1, capacity).form
    ensures var cs := SortedCandidates(offers, allowP1);
      && q < |cs| && AdmittedAt(cs, capacity, q) && cs[q].itemId == item
      && cs[q].form == Greedy(offers, allowP1, capacity).form[item]
  {
    hide SortedCandidates, Admit, AdmittedAt;
    var cs := SortedCandidates(offers, allowP1);
    assert cs[..|cs|] == cs;
    q := WhenAdmitted(cs, capacity, |cs|, item);
  }

  lemma {:induction false} P0IsCandidate(offers: seq<Offer>, allowP1: bool, k: nat) returns (p: nat)
    requires k < |offers|
    ensures var cs := SortedCandidates(offers, allowP1);
      p < |cs| && cs[p] == Candidate(PlanWeight(offers[k], P0), offers[k].itemId, P0)
  {
    hide SortedCandidates, Candidates, PlanWeight;
    SortedFacts(offers, allowP1);
    CandidateFacts(offers, allowP1);
    var c := Candidate(PlanWeight(offers[k], P0), offers[k].itemId, P0);
    assert Allowed(offers[k], P0, allowP1);
    assert c in SortedCandidates(offers, allowP1);
    p :| 0 <= p < |SortedCandidates(offers, allowP1)| && SortedCandidates(offers, allowP1)[p] == c;
  }

  /** Of two candidates of one item, a P1 one comes first only if it weighs less. */
  lemma {:induction false} NotLater(cs: seq<Candidate>, q: nat, p: nat)
    requires Ranked(cs) && q <= p < |cs| && cs[q].itemId == cs[p].itemId && cs[q].form == P1 && cs[p].form == P0
    ensures cs[q].weight < cs[p].weight
  {
    hide StringLe;
    assert q < p;
    assert CandidateLe(cs[q], cs[p]);
  }

  lemma {:induction false} OnlyWhereOffered(offer: Offer, allowP1: bool)
    requires Allowed(offer, P1, allowP1)
    ensures offer.p1.Some?
  {}

  /** The admitted items are listed in the order of their admission: by weight, then by id. */
  lemma {:induction false} AdmittedInOrder(cs: seq<Candidate>, capacity: int, n: nat, i: nat, j: nat)
      returns (p: nat, q: nat)
    requires n <= |cs| && i < j < |Admit(cs[..n], capacity).admitted|
    ensures p < q < n && AdmittedAt(cs, capacity, p) && AdmittedAt(cs, capacity, q)
    ensures cs[p].itemId == Admit(cs[..n], capacity).admitted[i] && cs[q].itemId == Admit(cs[..n], capacity).admitted[j]
  {
    NothingAdmitted(cs, capacity);
    AdmitStep(cs, capacity, n - 1);
    if j < |Admit(cs[..n - 1], capacity).admitted| {
      p, q := AdmittedInOrder(cs, capacity, n - 1, i, j);
    } else {
      p := AdmittedEarlier(cs, capacity, n - 1, i);
      q := n - 1;
    }
  }

  lemma {:induction false} NothingAdmitted(cs: seq<Candidate>, capacity: int)
    ensures Admit(cs[..0], capacity).admitted == []
  {}

  lemma {:induction false} AdmittedEarlier(cs: seq<Candidate>, capacity: int, n: nat, i: nat) returns (p: nat)
    requires n <= |cs| && i < |Admit(cs[..n], capacity).admitted|
    ensures p < n && AdmittedAt(cs, capacity, p) && cs[p].itemId == Admit(cs[..n], capacity).admitted[i]
  {
    NothingAdmitted(cs, capacity);
    AdmitStep(cs, capacity, n - 1);
    if i < |Admit(cs[..n - 1], capacity).admitted| {
      p := AdmittedEarlier(cs, capacity, n - 1, i);
    } else {
      p := n - 1;
    }
  }

  /** So the listing rises by cheapest weight and, for equal weights, by id. */
  lemma {:induction false} ListingRises(offers: seq<Offer>, allowP1: bool, capacity: int, k: nat, m: nat, i: nat,
      j: nat)
    requires UniqueIds(offers) && k < |offers| && m < |offers|
    requires i < j < |Greedy(offers, allowP1, capacity).admitted|
    requires offers[k].itemId == Greedy(offers, allowP1, capacity).admitted[i]
    requires offers[m].itemId == Greedy(offers, allowP1, capacity).admitted[j]
    ensures var (x, y) := (Cheapest(offers[k], allowP1), Cheapest(offers[m], allowP1));
      x < y || (x == y && StringLe(offers[k].itemId, offers[m].itemId))
  {
    var cs := SortedCandidates(offers, allowP1);
    SortedRanked(offers, allowP1);
    StringOrder();
    assert cs[..|cs|] == cs;
    hide SortedCandidates, Candidates, Admit, PlanWeight, Cheapest, StringLe, AdmittedAt;
    var p, q := AdmittedInOrder(cs, capacity, |cs|, i, j);
    AdmittedWeight(offers, allowP1, capacity, p, k);
    AdmittedWeight(offers, allowP1, capacity, q, m);
    assert CandidateLe(cs[p], cs[q]);
  }

  lemma {:induction false} AdmittedWeight(offers: seq<Offer>, allowP1: bool, capacity: int, q: nat, k: nat)
    requires UniqueIds(offers) && k < |offers| && q < |SortedCandidates(offers, allowP1)|
    requires AdmittedAt(SortedCandidates(offers, allowP1), capacity, q)
    requires SortedCandidates(offers, allowP1)[q].itemId == offers[k].itemId
    ensures SortedCandidates(offers, allowP1)[q].weight == Cheapest(offers[k], allowP1)
  {
    var cs := SortedCandidates(offers, allowP1);
    SortedRanked(offers, allowP1);
    hide SortedCandidates, Candidates, Admit, PlanWeight, Cheapest, AdmittedAt;
    var p := CheapestIsCandidate(offers, allowP1, k);
    AdmittedFirst(cs, capacity, q, p);
    CandidateOfOffer(offers, allowP1, q, k);
  }
}
