/** One scheduler tick against a host that may call any snapshot stale
    (src/shapeflow/broker/driver.py:60-175, src/shapeflow/broker/host.py:17-56). */
module Tick {
  import opened Broker

  /** Everything the driver does not control, by call number: what the queue, the engine, the
      policy and the clock answer, and which materialize calls find their snapshot stale. */
  datatype World = World(pending: nat -> seq<Offer>, snapshot: nat -> SnapshotVersion,
      decide: (nat, seq<Offer>, SnapshotVersion) -> Decision, solveNs: nat -> int, stale: nat -> bool)

  /** Decision's constructor refuses anything else. */
  ghost predicate ProperWorld(w: World) {
    forall k, offers, v :: w.decide(k, offers, v).WellFormed()
  }

  /** One materialize call: what was to be committed, against which snapshot, and its fate. */
  datatype Call = Call(decision: Decision, against: SnapshotVersion, stale: bool)

  class Host {
    const world: World
    /** Calls made so far of pending, take_snapshot and decide. */
    var polls: nat
    var snapshots: nat
    var solves: nat
    var calls: seq<Call>
    /** What has been materialized. */
    var committed: seq<Decision>

    constructor (w: World)
      ensures world == w && polls == snapshots == solves == 0 && calls == [] && committed == []
    {
      world, polls, snapshots, solves, calls, committed := w, 0, 0, 0, [], [];
    }

    method Pending() returns (offers: seq<Offer>)
      modifies this`polls
      ensures offers == world.pending(old(polls)) && polls == old(polls) + 1
    {
      offers := world.pending(polls);
      polls := polls + 1;
    }

    method TakeSnapshot() returns (v: SnapshotVersion)
      modifies this`snapshots
      ensures v == world.snapshot(old(snapshots)) && snapshots == old(snapshots) + 1
    {
      v := world.snapshot(snapshots);
      snapshots := snapshots + 1;
    }

    /** The policy, and how long the clock says it took. */
    method Solve(offers: seq<Offer>, v: SnapshotVersion) returns (d: Decision, ns: int)
      modifies this`solves
      ensures d == world.decide(old(solves), offers, v) && ns == world.solveNs(old(solves)) && solves == old(solves) + 1
    {
      d, ns := world.decide(solves, offers, v), world.solveNs(solves);
      solves := solves + 1;
    }

    /** Commits the whole decision, or raises StaleSnapshot having materialized nothing. */
    method Materialize(d: Decision, v: SnapshotVersion) returns (stale: bool)
      modifies this`calls, this`committed
      ensures stale == world.stale(|old(calls)|) && calls == old(calls) + [Call(d, v, stale)]
      ensures committed == if stale then old(committed) else old(committed) + [d]
    {
      stale := world.stale(|calls|);
      calls := calls + [Call(d, v, stale)];
      if !stale {
        committed := committed + [d];
      }
    }
  }

  // ---------------------------------------------------------------- decisions

  ghost predicate Offered(offers: seq<Offer>, item: string) {
    exists k :: 0 <= k < |offers| && offers[k].itemId == item
  }

  /** `{o.item_id: o for o in offers}`: the last offer of an id. */
  function ById(offers: seq<Offer>): (m: map<string, Offer>)
    ensures forall i :: i in m <==> Offered(offers, i)
    ensures forall i | i in m :: m[i] in offers && m[i].itemId == i
  {
    if offers == [] then map[] else
      var n := |offers| - 1;
      var before := ById(offers[..n]);
      assert forall i | Offered(offers[..n], i) :: Offered(offers, i);
      assert Offered(offers, offers[n].itemId);
      before[offers[n].itemId := offers[n]]
  }

  /** _assert_decision_is_answerable does not raise. */
  predicate Answerable(d: Decision, offers: seq<Offer>) {
    var byId := ById(offers);
    && (forall i | i in d.admitted :: i in byId)
    && (forall i | i in d.deferred :: i in byId)
    && (forall i | i in d.form :: d.form[i].P1? ==> i in byId && byId[i].p1.Some?)
  }

  /** The answers that are not refused: every item named was offered, and P1 is chosen only where the
      offer of that id, the last one if there are several, has a P1 plan. */
  lemma {:induction false} AnswerableIff(d: Decision, offers: seq<Offer>)
    requires d.WellFormed()
    ensures Answerable(d, offers) <==>
      && (forall i | i in d.admitted || i in d.deferred :: exists k :: 0 <= k < |offers| && offers[k].itemId == i)
      && (forall i | i in d.form && d.form[i] == P1 ::
            exists k :: IsLastOf(offers, i, k) && offers[k].p1.Some?)
  {
    forall i ensures i in ById(offers) <==> exists k :: 0 <= k < |offers| && offers[k].itemId == i {
      assert Offered(offers, i) <==> exists k :: 0 <= k < |offers| && offers[k].itemId == i;
    }
    forall i | i in ById(offers) ensures exists k :: IsLastOf(offers, i, k) && ById(offers)[i] == offers[k] {
      var k := ByIdIsLast(offers, i);
    }
    forall i, j, k | IsLastOf(offers, i, j) && IsLastOf(offers, i, k) ensures j == k {}
  }

  /** Offer k is the last one of item i. */
  ghost predicate IsLastOf(offers: seq<Offer>, i: string, k: int) {
    0 <= k < |offers| && offers[k].itemId == i && forall j | k < j < |offers| :: offers[j].itemId != i
  }

  lemma {:induction false} ByIdIsLast(offers: seq<Offer>, i: string) returns (k: int)
    requires i in ById(offers)
    ensures IsLastOf(offers, i, k) && ById(offers)[i] == offers[k]
  {
    var n := |offers| - 1;
    assert ById(offers) == ById(offers[..n])[offers[n].itemId := offers[n]];
    hide ById;
    if offers[n].itemId == i {
      k := n;
    } else {
      k := ByIdIsLast(offers[..n], i);
      hide IsLastOf;
      LastExtends(offers, i, k);
    }
  }

  lemma {:induction false} LastExtends(offers: seq<Offer>, i: string, k: int)
    requires offers != [] && IsLastOf(offers[..|offers| - 1], i, k) && offers[|offers| - 1].itemId != i
    ensures IsLastOf(offers, i, k) && offers[k] == offers[..|offers| - 1][k]
  {}

  /** _p0_only: everything offered, all of it as P0. */
  function P0Only(offers: seq<Offer>, v: SnapshotVersion): Decision {
    var ids := ItemIds(offers);
    Decision(ids, map i | i in ids :: P0, [], v, true)
  }

  lemma {:induction false} P0OnlyCoversAll(offers: seq<Offer>, v: SnapshotVersion)
    ensures var d := P0Only(offers, v);
      && d.WellFormed() && Answerable(d, offers) && d.version == v && d.deferred == []
      && (forall k | 0 <= k < |offers| :: offers[k].itemId in d.admitted && d.form[offers[k].itemId] == P0)
  {
    var d := P0Only(offers, v);
    forall k | 0 <= k < |offers|
      ensures offers[k].itemId in d.admitted
    {
      assert d.admitted[k] == offers[k].itemId;
    }
    forall i | i in d.admitted
      ensures i in ById(offers)
    {
      var k :| 0 <= k < |d.admitted| && d.admitted[k] == i;
      assert Offered(offers, i);
    }
  }

  // -------------------------------------------------------------------- ticks

  /** Why a decision is what it is: the policy's own reason, a solver answer that came too late, or
      snapshots that went stale that often. */
  datatype Reason = OfPolicy | OverranBudget(solveNs: int, budgetNs: int) | StaleTimes(times: nat)

  /** The TickOutcome of a tick, by how it ended; a ContractViolation is raised, not returned. */
  datatype Outcome =
    | NothingPending(attempts: nat, staleRetries: nat)
    | Committed(decision: Decision, attempts: nat, staleRetries: nat, budgetOverrun: bool, failClosed: bool,
        reason: Reason)
    | Uncommitted(decision: Decision, attempts: nat, staleRetries: nat, budgetOverrun: bool, reason: Reason)
    | ContractViolation(attempts: nat)

  /** What attempt k of a tick saw and chose. */
  datatype Attempt = Attempt(offers: seq<Offer>, version: SnapshotVersion, solved: Decision, overran: bool,
      reason: Reason)
  {
    /** The solver's answer, unless it came too late. */
    function Chosen(): Decision { if overran then P0Only(offers, version) else solved }
  }

  function ReasonOf(solveNs: int, budgetNs: int): Reason {
    if solveNs > budgetNs then OverranBudget(solveNs, budgetNs) else OfPolicy
  }

  /** The counters of a host when a tick starts. */
  datatype Start = Start(polls: nat, snapshots: nat, solves: nat, calls: nat)

  ghost function AttemptAt(w: World, s: Start, budgetNs: int, k: nat): Attempt {
    var offers, version := w.pending(s.polls + k), w.snapshot(s.snapshots + k);
    Attempt(offers, version, w.decide(s.solves + k, offers, version), w.solveNs(s.solves + k) > budgetNs,
            ReasonOf(w.solveNs(s.solves + k), budgetNs))
  }

  /** Attempt k had work, chose something answerable, and found its snapshot stale. */
  ghost predicate WentStale(w: World, s: Start, budgetNs: int, k: nat) {
    var a := AttemptAt(w, s, budgetNs, k);
    a.offers != [] && (a.overran || Answerable(a.solved, a.offers)) && w.stale(s.calls + k)
  }

  ghost function RetryLimit(maxRetries: int): nat { if maxRetries < 0 then 0 else maxRetries }

  /** The first n calls are those of the first n attempts, each against the snapshot it was
      decided on. */
  ghost predicate CallsMatch(w: World, s: Start, budgetNs: int, calls: seq<Call>, n: nat) {
    && n <= |calls|
    && forall k: nat | k < n ::
         calls[k] == Call(AttemptAt(w, s, budgetNs, k).Chosen(), AttemptAt(w, s, budgetNs, k).version, w.stale(s.calls
           + k))
  }

  ghost predicate CallsOf(w: World, s: Start, budgetNs: int, calls: seq<Call>, n: nat) {
    |calls| == n && CallsMatch(w, s, budgetNs, calls, n)
  }

  /** The calls of a tick that degraded after its last attempt: the stale snapshot's version, a
      fresh snapshot to materialize against. */
  ghost predicate DegradedCalls(w: World, s: Start, budgetNs: int, calls: seq<Call>, n: nat) {
    && n >= 1 && |calls| == n + 1 && CallsMatch(w, s, budgetNs, calls, n)
    && var last := AttemptAt(w, s, budgetNs, n - 1);
       calls[n] == Call(P0Only(last.offers, last.version), w.snapshot(s.snapshots + n), w.stale(s.calls + n))
  }

  /** The complete account of a tick in terms of what the world did. */
  ghost predicate TickAccount(w: World, s: Start, budgetNs: int, maxRetries: int, outcome: Outcome, calls: seq<Call>) {
    var n := outcome.attempts;
    match outcome
    case NothingPending(_, staleRetries) =>
      && staleRetries == n <= RetryLimit(maxRetries) && (forall k: nat | k < n :: WentStale(w, s, budgetNs, k))
      && CallsOf(w, s, budgetNs, calls, n) && w.pending(s.polls + n) == []
    case ContractViolation(_) =>
      && 1 <= n <= RetryLimit(maxRetries) + 1 && (forall k: nat | k < n - 1 :: WentStale(w, s, budgetNs, k))
      && CallsOf(w, s, budgetNs, calls, n - 1)
      && var a := AttemptAt(w, s, budgetNs, n - 1); a.offers != [] && !a.overran && !Answerable(a.solved, a.offers)
    case Committed(d, _, staleRetries, budgetOverrun, failClosed, reason) =>
      && 1 <= n <= RetryLimit(maxRetries) + 1
      && (forall k: nat | k < n - 1 :: WentStale(w, s, budgetNs, k))
      && failClosed == d.failClosed
      && var a := AttemptAt(w, s, budgetNs, n - 1);
         && a.offers != [] && (a.overran || Answerable(a.solved, a.offers)) && budgetOverrun == a.overran
         && if !w.stale(s.calls + n - 1)
            then
              && d == a.Chosen() && staleRetries == n - 1 && reason == a.reason
              && CallsOf(w, s, budgetNs, calls, n)
            else
              && n == RetryLimit(maxRetries) + 1 && d == P0Only(a.offers, a.version)
              && staleRetries == n && reason == StaleTimes(n)
              && DegradedCalls(w, s, budgetNs, calls, n) && !w.stale(s.calls + n)
    case Uncommitted(d, _, staleRetries, budgetOverrun, reason) =>
      && n == RetryLimit(maxRetries) + 1 && staleRetries == n && reason == StaleTimes(n)
      && budgetOverrun == AttemptAt(w, s, budgetNs, n - 1).overran
      && (forall k: nat | k < n :: WentStale(w, s, budgetNs, k))
      && DegradedCalls(w, s, budgetNs, calls, n) && w.stale(s.calls + n)
      && d == calls[n].decision
  }

  /** The calls of n attempts, every one of which found its snapshot stale. */
  ghost predicate StaleCalls(w: World, s: Start, budgetNs: int, calls: seq<Call>, n: nat) {
    CallsOf(w, s, budgetNs, calls, n) && forall k: nat | k < n :: WentStale(w, s, budgetNs, k)
  }

  /** The state between attempts: n attempts made, all of them stale. */
  ghost predicate Retrying(host: Host, s: Start, budgetNs: int, before: seq<Call>, calls: seq<Call>, n: nat)
    reads host
  {
    && host.polls == s.polls + n && host.snapshots == s.snapshots + n && host.solves == s.solves + n
    && host.calls == before + calls && |before| == s.calls
    && StaleCalls(host.world, s, budgetNs, calls, n)
  }

  lemma {:induction false} CallAdded(w: World, s: Start, budgetNs: int, calls: seq<Call>, n: nat)
    requires CallsOf(w, s, budgetNs, calls, n)
    ensures var a := AttemptAt(w, s, budgetNs, n);
      CallsOf(w, s, budgetNs, calls + [Call(a.Chosen(), a.version, w.stale(s.calls + n))], n + 1)
  {
    hide P0Only;
  }

  datatype Fate = NoWork | Refused | Landed | WasStale

  /** Steps 1 to 5 of one attempt. */
  method TryOnce(host: Host, budgetNs: int, ghost s: Start, ghost before: seq<Call>, ghost calls: seq<Call>,
      ghost n: nat)
    returns (a: Attempt, fate: Fate, ghost calls': seq<Call>)
    requires Retrying(host, s, budgetNs, before, calls, n)
    modifies host
    ensures fate.NoWork? <==> host.world.pending(s.polls + n) == []
    ensures !fate.NoWork? ==> a == AttemptAt(host.world, s, budgetNs, n) && a.offers != []
    ensures fate.Refused? ==> !a.overran && !Answerable(a.solved, a.offers)
    ensures fate.Landed? || fate.WasStale? ==>
      && (a.overran || Answerable(a.solved, a.offers)) && fate.WasStale? == host.world.stale(s.calls + n)
      && CallsOf(host.world, s, budgetNs, calls', n + 1)
    ensures fate.NoWork? || fate.Refused? ==> calls' == calls
    ensures fate.WasStale? ==> Retrying(host, s, budgetNs, before, calls', n + 1)
    ensures before <= host.calls && host.calls[|before|..] == calls'
    ensures StaleCalls(host.world, s, budgetNs, calls, n)
    ensures host.solves == old(host.solves) + (if fate.NoWork? then 0 else 1)
    ensures host.committed == old(host.committed) + (if fate.Landed? then [a.Chosen()] else [])
  {
    hide Answerable, P0Only;
    calls' := calls;
    var offers := host.Pending();
    if offers == [] {
      var nothing := SnapshotVersion([], 0);
      return Attempt([], nothing, Decision([], map[], [], nothing, false), false, OfPolicy), NoWork, calls;
    }
    var snapshot := host.TakeSnapshot();
    var solved, solveNs := host.Solve(offers, snapshot);
    a := Attempt(offers, snapshot, solved, solveNs > budgetNs, ReasonOf(solveNs, budgetNs));
    if !a.overran && !Answerable(solved, offers) {
      return a, Refused, calls;
    }
    CallAdded(host.world, s, budgetNs, calls, n);
    hide CallsOf;
    var stale := host.Materialize(a.Chosen(), snapshot);
    calls' := calls + [Call(a.Chosen(), snapshot, stale)];
    fate := if stale then WasStale else Landed;
  }

  method RunTick(host: Host, budgetNs: int, maxRetries: int) returns (outcome: Outcome)
    modifies host
    ensures old(host.calls) <= host.calls
    ensures TickAccount(host.world, old(Start(host.polls, host.snapshots, host.solves, |host.calls|)), budgetNs,
        maxRetries, outcome, host.calls[|old(host.calls)|..])
    ensures host.solves == old(host.solves) + outcome.attempts
    ensures host.committed == old(host.committed) + (if outcome.Committed? then [outcome.decision] else [])
  {
    ghost var s := Start(host.polls, host.snapshots, host.solves, |host.calls|);
    ghost var w := host.world;
    ghost var before := host.calls;
    ghost var calls: seq<Call> := [];
    hide Answerable, P0Only, TickAccount, RetryLimit, AttemptAt, StaleCalls, CallsOf, Retrying;
    RetryLimitIs(maxRetries);
    NothingYet(host, s, budgetNs);
    var staleRetries := 0;
    var attempts := 0;
    while true
      invariant attempts == staleRetries && attempts <= RetryLimit(maxRetries)
      invariant Retrying(host, s, budgetNs, before, calls, attempts)
      invariant host.solves == s.solves + attempts && host.committed == old(host.committed)
      decreases RetryLimit(maxRetries) - attempts
    {
      ghost var prior := calls;
      var a, fate;
      a, fate, calls := TryOnce(host, budgetNs, s, before, calls, attempts);
      if fate.NoWork? {
        NothingPendingAccount(w, s, budgetNs, maxRetries, calls, attempts);
        return NothingPending(attempts, staleRetries);
      }
      attempts := attempts + 1;
      if fate.Refused? {
        ViolationAccount(w, s, budgetNs, maxRetries, calls, attempts);
        return ContractViolation(attempts);
      }
      if fate.Landed? {
        CommittedAccount(w, s, budgetNs, maxRetries, prior, calls, attempts);
        return Committed(a.Chosen(), attempts, staleRetries, a.overran, a.Chosen().failClosed, a.reason);
      }
      staleRetries := staleRetries + 1;
      if staleRetries > maxRetries {
        outcome := Degrade(host, a, budgetNs, maxRetries, attempts, s, before, calls);
        return;
      }
    }
  }

  function Degraded(a: Attempt, attempts: nat, stale: bool): Outcome {
    var fail := P0Only(a.offers, a.version);
    if stale then Uncommitted(fail, attempts, attempts, a.overran, StaleTimes(attempts))
    else Committed(fail, attempts, attempts, a.overran, true, StaleTimes(attempts))
  }

  /** The retries are used up: everything as P0, against a fresh snapshot. */
  method Degrade(host: Host, a: Attempt, ghost budgetNs: int, ghost maxRetries: int, attempts: nat, ghost s: Start,
      ghost before: seq<Call>, ghost calls: seq<Call>)
      returns (outcome: Outcome)
    requires Retrying(host, s, budgetNs, before, calls, attempts) && attempts == RetryLimit(maxRetries) + 1
    requires a == AttemptAt(host.world, s, budgetNs, attempts - 1)
    modifies host`snapshots, host`calls, host`committed
    ensures before <= host.calls && outcome.attempts == attempts
    ensures TickAccount(host.world, s, budgetNs, maxRetries, outcome, host.calls[|before|..])
    ensures host.committed == old(host.committed) + (if outcome.Committed? then [outcome.decision] else [])
  {
    hide P0Only, TickAccount, RetryLimit, AttemptAt, StaleCalls;
    var fail := P0Only(a.offers, a.version);
    P0OnlyFailsClosed(a.offers, a.version);
    var current := host.TakeSnapshot();
    var stale := host.Materialize(fail, current);
    outcome := Degraded(a, attempts, stale);
    ghost var all := calls + [Call(fail, current, stale)];
    assert host.calls == before + all && |all| == attempts + 1 by {
      CallsSoFar(host.world, s, budgetNs, calls, attempts);
    }
    assert host.calls[|before|..] == all;
    DegradedAccount(host.world, s, budgetNs, maxRetries, calls, all, attempts, outcome);
  }

  lemma {:induction false} CallsSoFar(w: World, s: Start, budgetNs: int, calls: seq<Call>, n: nat)
    requires StaleCalls(w, s, budgetNs, calls, n)
    ensures |calls| == n
  {}

  lemma {:induction false} NothingYet(host: Host, s: Start, budgetNs: int)
    requires s == Start(host.polls, host.snapshots, host.solves, |host.calls|)
    ensures Retrying(host, s, budgetNs, host.calls, [], 0)
  {}

  lemma {:induction false} RetryLimitIs(maxRetries: int)
    ensures RetryLimit(maxRetries) == if maxRetries < 0 then 0 else maxRetries
  {}

  lemma {:induction false} NothingPendingAccount(w: World, s: Start, budgetNs: int, maxRetries: int, calls: seq<Call>,
      n: nat)
    requires StaleCalls(w, s, budgetNs, calls, n)
    requires n <= RetryLimit(maxRetries) && w.pending(s.polls + n) == []
    ensures TickAccount(w, s, budgetNs, maxRetries, NothingPending(n, n), calls)
  {}

  lemma {:induction false} ViolationAccount(w: World, s: Start, budgetNs: int, maxRetries: int, calls: seq<Call>,
      n: nat)
    requires n >= 1 && StaleCalls(w, s, budgetNs, calls, n - 1)
    requires n - 1 <= RetryLimit(maxRetries)
    requires var a := AttemptAt(w, s, budgetNs, n - 1); a.offers != [] && !a.overran && !Answerable(a.solved, a.offers)
    ensures TickAccount(w, s, budgetNs, maxRetries, ContractViolation(n), calls)
  {
    hide Answerable;
  }

  lemma {:induction false} CommittedAccount(w: World, s: Start, budgetNs: int, maxRetries: int, prior: seq<Call>,
      calls: seq<Call>, n: nat)
    requires n >= 1 && CallsOf(w, s, budgetNs, calls, n) && StaleCalls(w, s, budgetNs, prior, n - 1)
    requires n - 1 <= RetryLimit(maxRetries) && !w.stale(s.calls + n - 1)
    requires var a := AttemptAt(w, s, budgetNs, n - 1); a.offers != [] && (a.overran || Answerable(a.solved, a.offers))
    ensures var a := AttemptAt(w, s, budgetNs, n - 1);
      var d := a.Chosen();
      TickAccount(w, s, budgetNs, maxRetries, Committed(d, n, n - 1, a.overran, d.failClosed, a.reason), calls)
  {
    hide Answerable, P0Only;
  }

  lemma {:induction false} DegradedAccount(w: World, s: Start, budgetNs: int, maxRetries: int, calls: seq<Call>,
      all: seq<Call>, n: nat, outcome: Outcome)
    requires n >= 1 && StaleCalls(w, s, budgetNs, calls, n)
    requires n == RetryLimit(maxRetries) + 1 && calls <= all && |all| == n + 1
    requires var last, stale := AttemptAt(w, s, budgetNs, n - 1), w.stale(s.calls + n);
      var fail := P0Only(last.offers, last.version);
      && fail.failClosed && all[n] == Call(fail, w.snapshot(s.snapshots + n), stale)
      && outcome == Degraded(last, n, stale)
    ensures TickAccount(w, s, budgetNs, maxRetries, outcome, all)
  {
    hide Answerable, P0Only;
    assert WentStale(w, s, budgetNs, n - 1);
    DegradedCallsMatch(w, s, budgetNs, calls, all, n);
  }

  lemma {:induction false} DegradedCallsMatch(w: World, s: Start, budgetNs: int, calls: seq<Call>, all: seq<Call>,
      n: nat)
    requires n >= 1 && CallsOf(w, s, budgetNs, calls, n) && calls <= all && |all| == n + 1
    requires var last := AttemptAt(w, s, budgetNs, n - 1);
      all[n] == Call(P0Only(last.offers, last.version), w.snapshot(s.snapshots + n), w.stale(s.calls + n))
    ensures DegradedCalls(w, s, budgetNs, all, n)
  {
    hide P0Only;
  }

  lemma {:induction false} P0OnlyFailsClosed(offers: seq<Offer>, v: SnapshotVersion)
    ensures P0Only(offers, v).failClosed
  {}

  // --------------------------------------------------- what the account means

  /** The bounds of the protocol, and that at most one call, the last, commits. */
  lemma {:induction false} TickBounds(w: World, s: Start, budgetNs: int, maxRetries: int, outcome: Outcome,
      calls: seq<Call>)
    requires TickAccount(w, s, budgetNs, maxRetries, outcome, calls)
    ensures outcome.attempts <= RetryLimit(maxRetries) + 1
    ensures |calls| <= RetryLimit(maxRetries) + 2
    ensures forall k | 0 <= k < |calls| && !calls[k].stale ::
      k == |calls| - 1 && outcome.Committed? && calls[k].decision == outcome.decision
    ensures outcome.Committed? <==> calls != [] && !calls[|calls| - 1].stale
  {
    hide P0Only, Answerable;
    var n := outcome.attempts;
    forall k | 0 <= k < |calls| && !calls[k].stale
      ensures k == |calls| - 1 && outcome.Committed? && calls[k].decision == outcome.decision
    {
      StaleFlags(w, s, budgetNs, maxRetries, outcome, calls, k);
    }
    if calls != [] {
      StaleFlags(w, s, budgetNs, maxRetries, outcome, calls, |calls| - 1);
    }
  }

  /** A call was stale exactly when the world said so; all but a committing last one were. */
  lemma {:induction false} StaleFlags(w: World, s: Start, budgetNs: int, maxRetries: int, outcome: Outcome,
      calls: seq<Call>, k: nat)
    requires TickAccount(w, s, budgetNs, maxRetries, outcome, calls) && k < |calls|
    ensures calls[k].stale == w.stale(s.calls + k)
    ensures calls[k].stale <==> !(outcome.Committed? && k == |calls| - 1)
  {
    hide P0Only, Answerable;
    if k < outcome.attempts {
      assert WentStale(w, s, budgetNs, k) || k == outcome.attempts - 1;
    }
  }

  /** The telemetry is true: the stale retries are the calls that found their snapshot stale, but
      for a failing last resort; the overrun and the reason are those of the last attempt. */
  lemma {:induction false} TelemetryIsTrue(w: World, s: Start, budgetNs: int, maxRetries: int, outcome: Outcome,
      calls: seq<Call>)
    requires TickAccount(w, s, budgetNs, maxRetries, outcome, calls) && !outcome.ContractViolation?
    ensures outcome.staleRetries == |calls| - (if outcome.NothingPending? then 0 else 1)
    ensures forall k: nat | k < outcome.staleRetries :: k < |calls| && calls[k].stale
    ensures outcome.Committed? || outcome.Uncommitted? ==>
      && outcome.attempts >= 1
      && outcome.budgetOverrun == (w.solveNs(s.solves + outcome.attempts - 1) > budgetNs)
      && (outcome.reason.StaleTimes? <==> |calls| == outcome.attempts + 1)
      && (outcome.reason.StaleTimes? ==> outcome.reason.times == outcome.staleRetries == outcome.attempts)
      && (outcome.Uncommitted? ==> outcome.reason.StaleTimes?)
      && (!outcome.reason.StaleTimes? ==>
            var (ns, d) := (w.solveNs(s.solves + outcome.attempts - 1),
                            AttemptAt(w, s, budgetNs, outcome.attempts - 1).solved);
            && outcome.reason == (if ns > budgetNs then OverranBudget(ns, budgetNs) else OfPolicy)
            && outcome.failClosed == (ns > budgetNs || d.failClosed))
  {
    hide P0Only, Answerable;
    forall k: nat | k < outcome.staleRetries
      ensures k < |calls| && calls[k].stale
    {
      StaleFlags(w, s, budgetNs, maxRetries, outcome, calls, k);
    }
    if outcome.Committed? {
      var a := AttemptAt(w, s, budgetNs, outcome.attempts - 1);
      P0OnlyFailsClosed(a.offers, a.version);
    }
  }

  /** The attempt behind call k: the last one for the last resort. */
  ghost function AttemptOf(w: World, s: Start, budgetNs: int, outcome: Outcome, k: nat): Attempt
    requires outcome.attempts >= 1
  {
    AttemptAt(w, s, budgetNs, if k < outcome.attempts then k else outcome.attempts - 1)
  }

  lemma {:induction false} CallIsChoice(w: World, s: Start, budgetNs: int, maxRetries: int, outcome: Outcome,
      calls: seq<Call>, k: nat)
    requires TickAccount(w, s, budgetNs, maxRetries, outcome, calls) && k < |calls|
    ensures outcome.attempts >= 1
    ensures var a := AttemptOf(w, s, budgetNs, outcome, k);
      && a.offers != [] && (a.overran || Answerable(a.solved, a.offers))
      && calls[k].decision ==
           (if k < outcome.attempts && !a.overran then a.solved else P0Only(a.offers, a.version))
      && calls[k].against ==
           (if k < outcome.attempts then a.version else w.snapshot(s.snapshots + outcome.attempts))
  {
    hide P0Only, Answerable;
    var n := outcome.attempts;
    if k < n {
      assert WentStale(w, s, budgetNs, k) || (outcome.Committed? && k == n - 1);
    } else {
      assert outcome.Uncommitted? ==> WentStale(w, s, budgetNs, n - 1);
    }
  }

  /** Every call offers the host something that attempt's queue held, in forms it was offered in: the
      solver's answer exactly when it was in time, on an attempt of its own; otherwise everything
      offered, as P0. */
  lemma {:induction false} OnlyOfferedWork(w: World, s: Start, budgetNs: int, maxRetries: int, outcome: Outcome,
      calls: seq<Call>, k: nat)
    requires ProperWorld(w) && TickAccount(w, s, budgetNs, maxRetries, outcome, calls) && k < |calls|
    ensures outcome.attempts >= 1
    ensures var a := AttemptOf(w, s, budgetNs, outcome, k);
      var d := calls[k].decision;
      && a.offers != [] && d.WellFormed()
      && (forall i | i in d.admitted || i in d.deferred :: exists j :: 0 <= j < |a.offers| && a.offers[j].itemId == i)
      && (forall i | i in d.form && d.form[i] == P1 :: exists j :: IsLastOf(a.offers, i, j) && a.offers[j].p1.Some?)
      && (if k < outcome.attempts && w.solveNs(s.solves + k) <= budgetNs then d == a.solved
          else d == P0Only(a.offers, a.version))
  {
    hide P0Only, Answerable, TickAccount;
    CallIsChoice(w, s, budgetNs, maxRetries, outcome, calls, k);
    var a := AttemptOf(w, s, budgetNs, outcome, k);
    P0OnlyCoversAll(a.offers, a.version);
    AnswerableIff(calls[k].decision, a.offers);
  }

  /** The policy is the greedy broker's `decide`. */
  ghost predicate GreedyWorld(w: World, allowP1: bool, capacity: int) {
    forall k, offers, v ::
      var greedy := Greedy(offers, allowP1, capacity);
      w.decide(k, offers, v) == Decision(greedy.admitted, greedy.form, Deferred(offers, greedy.form), v, false)
  }

  /** The denominator: under the greedy broker, whatever is tried or committed names every offer of
      its attempt exactly once, as admitted or as deferred. */
  lemma {:induction false} EveryOfferNamedOnce(w: World, s: Start, budgetNs: int, maxRetries: int, outcome: Outcome,
      calls: seq<Call>, allowP1: bool, capacity: int, k: nat)
    requires TickAccount(w, s, budgetNs, maxRetries, outcome, calls) && GreedyWorld(w, allowP1, capacity)
    requires k < |calls| && forall p :: UniqueIds(w.pending(p))
    ensures outcome.attempts >= 1
    ensures multiset(calls[k].decision.admitted) + multiset(calls[k].decision.deferred)
      == multiset(ItemIds(AttemptOf(w, s, budgetNs, outcome, k).offers))
  {
    hide Answerable, TickAccount, Greedy, Deferred, UniqueIds, ItemIds;
    CallIsChoice(w, s, budgetNs, maxRetries, outcome, calls, k);
    GreedyNamesEachOnce(AttemptOf(w, s, budgetNs, outcome, k).offers, allowP1, capacity);
  }

  /** In particular the committed decision. */
  lemma {:induction false} CommitNamesEachOnce(w: World, s: Start, budgetNs: int, maxRetries: int, outcome: Outcome,
      calls: seq<Call>, allowP1: bool, capacity: int)
    requires TickAccount(w, s, budgetNs, maxRetries, outcome, calls) && GreedyWorld(w, allowP1, capacity)
    requires outcome.Committed? && forall p :: UniqueIds(w.pending(p))
    ensures outcome.attempts >= 1
    ensures multiset(outcome.decision.admitted) + multiset(outcome.decision.deferred)
      == multiset(ItemIds(AttemptAt(w, s, budgetNs, outcome.attempts - 1).offers))
  {
    hide TickAccount, GreedyWorld, UniqueIds, ItemIds, AttemptAt;
    TickBounds(w, s, budgetNs, maxRetries, outcome, calls);
    EveryOfferNamedOnce(w, s, budgetNs, maxRetries, outcome, calls, allowP1, capacity, |calls| - 1);
    CommittedCall(w, s, budgetNs, maxRetries, outcome, calls);
  }

  lemma {:induction false} CommittedCall(w: World, s: Start, budgetNs: int, maxRetries: int, outcome: Outcome,
      calls: seq<Call>)
    requires TickAccount(w, s, budgetNs, maxRetries, outcome, calls) && outcome.Committed?
    ensures outcome.attempts >= 1 && outcome.attempts <= |calls| <= outcome.attempts + 1
      && calls[|calls| - 1].decision == outcome.decision
  {}

  /** A commit the driver degraded to, whether for lateness or for staleness, covers every offer
      of its attempt as P0 and carries that attempt's snapshot version. */
  lemma {:induction false} DegradedCommitCoversAll(w: World, s: Start, budgetNs: int, maxRetries: int,
      outcome: Outcome, calls: seq<Call>)
    requires TickAccount(w, s, budgetNs, maxRetries, outcome, calls) && outcome.Committed?
    requires var n := outcome.attempts; AttemptAt(w, s, budgetNs, n - 1).overran || w.stale(s.calls + n - 1)
    ensures var a := AttemptAt(w, s, budgetNs, outcome.attempts - 1);
      && outcome.failClosed && outcome.decision.version == a.version && outcome.decision.deferred == []
      && (forall k | 0 <= k < |a.offers| ::
            a.offers[k].itemId in outcome.decision.form && outcome.decision.form[a.offers[k].itemId] == P0)
  {
    var a := AttemptAt(w, s, budgetNs, outcome.attempts - 1);
    P0OnlyCoversAll(a.offers, a.version);
    P0OnlyFailsClosed(a.offers, a.version);
  }

  /** A degradation for staleness keeps the stale version but is tried against the next snapshot. */
  lemma {:induction false} DegradationUsesFreshSnapshot(w: World, s: Start, budgetNs: int, maxRetries: int,
      outcome: Outcome, calls: seq<Call>)
    requires TickAccount(w, s, budgetNs, maxRetries, outcome, calls) && |calls| == outcome.attempts + 1
    ensures var n := outcome.attempts;
      && calls[n].decision.version == w.snapshot(s.snapshots + n - 1)
      && calls[n].against == w.snapshot(s.snapshots + n)
      && (forall k: nat | k < n :: calls[k].stale)
  {
    hide Answerable;
    var n := outcome.attempts;
    P0OnlyCoversAll(AttemptAt(w, s, budgetNs, n - 1).offers, AttemptAt(w, s, budgetNs, n - 1).version);
    forall k: nat | k < n
      ensures calls[k].stale
    {
      assert WentStale(w, s, budgetNs, k) || k == n - 1;
    }
  }
}
