/** Reservation accounting (src/shapeflow/experiment/budget.py). The two SQLite tables are a map
    and a sequence of rows; amounts are reals; derived ids are uninterpreted functions. */
module Budget {
  import opened Options

  datatype Account = Account(cap: real, reserved: real, settled: real)
  {
    function Used(): real { reserved + settled }
    function Available(): real { cap - reserved - settled }
  }

  datatype State = Reserved | Settled(actual: real)

  datatype Row = Row(id: string, resource: string, amount: real, state: State, call: Option<string>,
      attempt: Option<string>)

  /** An audited raise of a cap. */
  datatype Incident = CapRaised(resource: string, previous: real, cap: real)

  datatype Ledger = Ledger(accounts: map<string, Account>, rows: seq<Row>, incidents: seq<Incident>)

  type Amounts = seq<(string, real)>

  datatype Group = Group(id: string, amounts: Amounts)

  datatype Error =
    | NoResources | NegativeAmount(resource: string) | Exceeded(resource: string) | DuplicateReservation
    | RaiseNotAllowed | NotARaise | Unauthorized

  /** derive_id, uninterpreted: of one reservation, and of an anonymous group. */
  datatype Ids = Ids(reservation: (string, string) -> string, anonymous: (Amounts, nat) -> string)

  function Max(a: real, b: real): real { if a >= b then a else b }

  // ------------------------------------------------------------------- sums

  function HeldBy(row: Row, resource: string): real {
    if row.resource == resource && row.state.Reserved? then row.amount else 0.0
  }

  function SpentBy(row: Row, resource: string): real {
    if row.resource == resource && row.state.Settled? then row.state.actual else 0.0
  }

  /** Sum of the live reservations of a resource. */
  ghost function Held(rows: seq<Row>, resource: string): real {
    if rows == [] then 0.0 else Held(rows[..|rows| - 1], resource) + HeldBy(rows[|rows| - 1], resource)
  }

  /** Sum of its settled amounts. */
  ghost function Spent(rows: seq<Row>, resource: string): real {
    if rows == [] then 0.0 else Spent(rows[..|rows| - 1], resource) + SpentBy(rows[|rows| - 1], resource)
  }

  lemma {:induction false} SumsAppend(rows: seq<Row>, row: Row, resource: string)
    ensures Held(rows + [row], resource) == Held(rows, resource) + HeldBy(row, resource)
    ensures Spent(rows + [row], resource) == Spent(rows, resource) + SpentBy(row, resource)
  {
    assert (rows + [row])[..|rows|] == rows;
  }

  lemma {:induction false} SumsUpdate(rows: seq<Row>, i: nat, row: Row, resource: string)
    requires i < |rows|
    ensures Held(rows[i := row], resource) == Held(rows, resource) - HeldBy(rows[i], resource) + HeldBy(row, resource)
    ensures Spent(rows[i := row], resource) == Spent(rows, resource) - SpentBy(rows[i], resource)
      + SpentBy(row, resource)
  {
    var n := |rows| - 1;
    if i < n {
      SumsUpdate(rows[..n], i, row, resource);
      assert rows[i := row][..n] == rows[..n][i := row];
    } else {
      assert rows[i := row][..n] == rows[..n];
    }
  }

  ghost predicate RowOk(accounts: map<string, Account>, row: Row) {
    row.resource in accounts && row.amount >= 0.0 && (row.state.Settled? ==> row.state.actual >= 0.0)
  }

  ghost predicate DistinctIds(rows: seq<Row>) { forall a, b | 0 <= a < b < |rows| :: rows[a].id != rows[b].id }

  /** The accounts are the sums of the rows, and nothing is negative. */
  ghost predicate Consistent(l: Ledger) {
    && (forall i | 0 <= i < |l.rows| :: RowOk(l.accounts, l.rows[i]))
    && DistinctIds(l.rows)
    && (forall r | r in l.accounts ::
          l.accounts[r].reserved == Held(l.rows, r) && l.accounts[r].settled == Spent(l.rows, r))
  }

  lemma {:induction false} SumsNonNegative(accounts: map<string, Account>, rows: seq<Row>, resource: string)
    requires forall i | 0 <= i < |rows| :: RowOk(accounts, rows[i])
    ensures Held(rows, resource) >= 0.0 && Spent(rows, resource) >= 0.0
  {
    if rows != [] { SumsNonNegative(accounts, rows[..|rows| - 1], resource); }
  }

  lemma {:induction false} TotalsNonNegative(l: Ledger, resource: string)
    requires Consistent(l) && resource in l.accounts
    ensures l.accounts[resource].reserved >= 0.0 && l.accounts[resource].settled >= 0.0
  {
    SumsNonNegative(l.accounts, l.rows, resource);
  }

  lemma {:induction false} NoRowsNoSums(rows: seq<Row>, resource: string)
    requires forall i | 0 <= i < |rows| :: rows[i].resource != resource
    ensures Held(rows, resource) == 0.0 && Spent(rows, resource) == 0.0
  {
    if rows != [] { NoRowsNoSums(rows[..|rows| - 1], resource); }
  }

  // --------------------------------------------------- specification: accounts

  datatype Outcome = Done(ledger: Ledger) | Failed(error: Error)
  {
    /** A failed operation rolls back. */
    function Or(l: Ledger): Ledger { if Done? then ledger else l }
  }

  function EnsureAccountSpec(l: Ledger, resource: string, cap: real): Outcome {
    if resource !in l.accounts then Done(l.(accounts := l.accounts[resource := Account(cap, 0.0, 0.0)]))
    else if cap < l.accounts[resource].cap then
      Done(l.(accounts := l.accounts[resource := l.accounts[resource].(cap := cap)]))
    else if cap > l.accounts[resource].cap then Failed(RaiseNotAllowed)
    else Done(l)
  }

  function RaiseSpec(l: Ledger, resource: string, cap: real, authorized: bool): Outcome {
    if !authorized then Failed(Unauthorized)
    else if resource !in l.accounts then Failed(RaiseNotAllowed)
    else if cap < l.accounts[resource].cap then Failed(NotARaise)
    else if cap == l.accounts[resource].cap then Done(l)
    else Done(Ledger(l.accounts[resource := l.accounts[resource].(cap := cap)], l.rows,
                     l.incidents + [CapRaised(resource, l.accounts[resource].cap, cap)]))
  }

  lemma {:induction false} CapChangeConsistent(l: Ledger, l': Ledger, resource: string)
    requires Consistent(l) && l'.rows == l.rows && resource in l'.accounts
    requires l'.accounts == l.accounts[resource := l'.accounts[resource]]
    requires if resource in l.accounts
      then
        && l'.accounts[resource].reserved == l.accounts[resource].reserved
        && l'.accounts[resource].settled == l.accounts[resource].settled
      else l'.accounts[resource].Used() == 0.0 && l'.accounts[resource].reserved == 0.0
    ensures Consistent(l')
  {
    if resource !in l.accounts {
      forall i | 0 <= i < |l.rows| ensures l.rows[i].resource != resource { assert RowOk(l.accounts, l.rows[i]); }
      NoRowsNoSums(l.rows, resource);
    }
    forall i | 0 <= i < |l.rows| ensures RowOk(l'.accounts, l'.rows[i]) { assert RowOk(l.accounts, l.rows[i]); }
  }

  // ----------------------------------------------- specification: reservations

  function ReserveOne(l: Ledger, group: string, resource: string, amount: real, call: Option<string>,
      attempt: Option<string>, ids: Ids): Outcome {
    if amount < 0.0 then Failed(NegativeAmount(resource))
    else if resource !in l.accounts || amount > l.accounts[resource].Available() then Failed(Exceeded(resource))
    else if exists i :: 0 <= i < |l.rows| && l.rows[i].id == ids.reservation(group, resource) then
      Failed(DuplicateReservation)
    else
      var account := l.accounts[resource];
      Done(l.(accounts := l.accounts[resource := account.(reserved := account.reserved + amount)],
              rows := l.rows + [Row(ids.reservation(group, resource), resource, amount, Reserved, call, attempt)]))
  }

  function ReserveAll(l: Ledger, group: string, amounts: Amounts, call: Option<string>, attempt: Option<string>,
      ids: Ids): Outcome
    decreases |amounts|
  {
    if amounts == [] then Done(l) else
      var one := ReserveOne(l, group, amounts[0].0, amounts[0].1, call, attempt, ids);
      if one.Failed? then one else ReserveAll(one.ledger, group, amounts[1..], call, attempt, ids)
  }

  /** `attempt_id or external_call_id`, else a derived id. */
  function GroupId(l: Ledger, amounts: Amounts, call: Option<string>, attempt: Option<string>, ids: Ids): string {
    if attempt.Some? && attempt.value != "" then attempt.value
    else if call.Some? then call.value
    else ids.anonymous(amounts, |l.rows|)
  }

  function ReserveSpec(l: Ledger, amounts: Amounts, call: Option<string>, attempt: Option<string>, ids: Ids): Outcome {
    if amounts == [] then Failed(NoResources)
    else ReserveAll(l, GroupId(l, amounts, call, attempt, ids), amounts, call, attempt, ids)
  }

  /** Admission leaves the sums right and fits within the cap. */
  lemma {:induction false} ReserveOneConsistent(l: Ledger, group: string, resource: string, amount: real,
      call: Option<string>, attempt: Option<string>, ids: Ids)
    requires Consistent(l) && ReserveOne(l, group, resource, amount, call, attempt, ids).Done?
    ensures var l' := ReserveOne(l, group, resource, amount, call, attempt, ids).ledger;
      && Consistent(l') && l'.accounts.Keys == l.accounts.Keys
           && l'.accounts[resource].Used() <= l'.accounts[resource].cap
      && (forall r | r in l.accounts ::
           l'.accounts[r].cap == l.accounts[r].cap && (r != resource ==> l'.accounts[r] == l.accounts[r]))
  {
    var l' := ReserveOne(l, group, resource, amount, call, attempt, ids).ledger;
    var row := l'.rows[|l.rows|];
    forall i | 0 <= i < |l'.rows| ensures RowOk(l'.accounts, l'.rows[i]) {
      if i < |l.rows| { assert RowOk(l.accounts, l.rows[i]); }
    }
    forall r | r in l'.accounts
      ensures l'.accounts[r].reserved == Held(l'.rows, r) && l'.accounts[r].settled == Spent(l'.rows, r)
    {
      SumsAppend(l.rows, row, r);
    }
  }

  // ------------------------------------------------- specification: resolution

  /** What a resolution charges each reservation. */
  datatype Charge = Actuals(usage: map<string, real>) | WorstCase | Nothing
  {
    function For(resource: string, reserved: real): (actual: real)
      ensures actual >= 0.0
    {
      match this
      case Actuals(u) => Max(0.0, if resource in u then u[resource] else 0.0)
      case WorstCase => Max(0.0, reserved)
      case Nothing => 0.0
    }
  }

  predicate LinkedTo(row: Row, group: string) {
    row.attempt == Some(group) || row.call == Some(group) || row.id == group
  }

  /** The rows a group handle selects: by link, or failing that by derived id. */
  function Linked(rows: seq<Row>, group: string, n: nat): (picked: seq<nat>)
    requires n <= |rows|
    ensures forall i | i in picked :: i < n && LinkedTo(rows[i], group)
    ensures forall i: nat | i < n && LinkedTo(rows[i], group) :: i in picked
  {
    if n == 0 then [] else Linked(rows, group, n - 1) + (if LinkedTo(rows[n - 1], group) then [n - 1] else [])
  }

  function IndexOf(rows: seq<Row>, id: string, n: nat): (i: nat)
    requires n <= |rows|
    ensures i < n ==> rows[i].id == id
    ensures i <= |rows| && (i >= n ==> i == |rows| && forall k | 0 <= k < n :: rows[k].id != id)
  {
    if n == 0 then |rows| else if rows[n - 1].id == id then n - 1 else IndexOf(rows, id, n - 1)
  }

  function Derived(rows: seq<Row>, group: string, amounts: Amounts, ids: Ids): (picked: seq<nat>)
    ensures forall i | i in picked :: i < |rows|
  {
    if amounts == [] then [] else
      var i := IndexOf(rows, ids.reservation(group, amounts[0].0), |rows|);
      (if i < |rows| then [i] else []) + Derived(rows, group, amounts[1..], ids)
  }

  function Picked(rows: seq<Row>, group: Group, ids: Ids): (picked: seq<nat>)
    ensures forall i | i in picked :: i < |rows|
  {
    var linked := Linked(rows, group.id, |rows|);
    if linked != [] then linked else Derived(rows, group.id, group.amounts, ids)
  }

  /** A settlement above its reservation, reported to the caller. */
  datatype Overrun = Overrun(resource: string, reserved: real, actual: real)

  datatype Resolution = Resolution(ledger: Ledger, over: seq<Overrun>)

  function ResolveRow(l: Ledger, i: nat, charge: Charge): Resolution
    requires i < |l.rows| && l.rows[i].resource in l.accounts
  {
    var row := l.rows[i];
    if !row.state.Reserved? then Resolution(l, []) else
      var actual := charge.For(row.resource, row.amount);
      var account := l.accounts[row.resource];
      Resolution(
        l.(accounts := l.accounts[row.resource :=
             account.(reserved := account.reserved - row.amount, settled := account.settled + actual)],
           rows := l.rows[i := row.(state := Settled(actual))]),
        if actual > row.amount then [Overrun(row.resource, row.amount, actual)] else [])
  }

  ghost predicate Resolvable(l: Ledger, picked: seq<nat>) {
    && (forall i | 0 <= i < |l.rows| :: l.rows[i].resource in l.accounts)
    && (forall i | i in picked :: i < |l.rows|)
  }

  function ResolvePicked(l: Ledger, picked: seq<nat>, charge: Charge): (r: Resolution)
    requires Resolvable(l, picked)
    ensures |r.ledger.rows| == |l.rows| && r.ledger.accounts.Keys == l.accounts.Keys
    ensures forall i | 0 <= i < |l.rows| :: r.ledger.rows[i].(state := l.rows[i].state) == l.rows[i]
  {
    if picked == [] then Resolution(l, []) else
      var n := |picked| - 1;
      assert forall i | i in picked[..n] :: i in picked;
      assert picked[n] in picked;
      var before := ResolvePicked(l, picked[..n], charge);
      assert before.ledger.rows[picked[n]].resource == l.rows[picked[n]].resource;
      var one := ResolveRow(before.ledger, picked[n], charge);
      Resolution(one.ledger, before.over + one.over)
  }

  function ResolveSpec(l: Ledger, group: Group, charge: Charge, ids: Ids): Resolution
    requires forall i | 0 <= i < |l.rows| :: l.rows[i].resource in l.accounts
  {
    ResolvePicked(l, Picked(l.rows, group, ids), charge)
  }

  lemma {:induction false} ResolveRowConsistent(l: Ledger, i: nat, charge: Charge)
    requires Consistent(l) && i < |l.rows| && l.rows[i].resource in l.accounts
    ensures Consistent(ResolveRow(l, i, charge).ledger)
  {
    var l' := ResolveRow(l, i, charge).ledger;
    if l.rows[i].state.Reserved? {
      assert RowOk(l.accounts, l.rows[i]);
      forall k | 0 <= k < |l'.rows| ensures RowOk(l'.accounts, l'.rows[k]) { assert RowOk(l.accounts, l.rows[k]); }
      forall r | r in l'.accounts
        ensures l'.accounts[r].reserved == Held(l'.rows, r) && l'.accounts[r].settled == Spent(l'.rows, r)
      {
        SumsUpdate(l.rows, i, l'.rows[i], r);
      }
    }
  }

  lemma {:induction false} PrefixResolvable(l: Ledger, picked: seq<nat>)
    requires Resolvable(l, picked) && picked != []
    ensures Resolvable(l, picked[..|picked| - 1]) && picked[|picked| - 1] in picked
  {
    var init := picked[..|picked| - 1];
    forall i | i in init ensures i < |l.rows| { assert i in picked; }
  }

  lemma {:induction false} ResolveConsistent(l: Ledger, picked: seq<nat>, charge: Charge)
    requires Consistent(l) && Resolvable(l, picked)
    ensures Consistent(ResolvePicked(l, picked, charge).ledger)
  {
    if picked != [] {
      hide Consistent;
      var n := |picked| - 1;
      PrefixResolvable(l, picked);
      ResolveConsistent(l, picked[..n], charge);
      ResolveRowConsistent(ResolvePicked(l, picked[..n], charge).ledger, picked[n], charge);
    }
  }

  lemma {:induction false} ConsistentResolvable(l: Ledger)
    requires Consistent(l)
    ensures forall i | 0 <= i < |l.rows| :: l.rows[i].resource in l.accounts
  {
    forall i | 0 <= i < |l.rows| ensures l.rows[i].resource in l.accounts { assert RowOk(l.accounts, l.rows[i]); }
  }

  /** A resolution settles exactly the live rows it picked, at the charge, and touches no other. */
  lemma {:induction false} RowsAfter(l: Ledger, picked: seq<nat>, charge: Charge, i: nat)
    requires Resolvable(l, picked) && i < |l.rows|
    ensures var row, row' := l.rows[i], ResolvePicked(l, picked, charge).ledger.rows[i];
      row' == if i in picked && row.state.Reserved?
        then row.(state := Settled(charge.For(row.resource, row.amount))) else row
  {
    if picked != [] {
      var n := |picked| - 1;
      PrefixResolvable(l, picked);
      assert picked == picked[..n] + [picked[n]];
      RowsAfter(l, picked[..n], charge, i);
    }
  }

  lemma {:induction false} SettledStay(l: Ledger, picked: seq<nat>, charge: Charge)
    requires Resolvable(l, picked) && forall i | i in picked :: l.rows[i].state.Settled?
    ensures ResolvePicked(l, picked, charge) == Resolution(l, [])
  {
    if picked != [] {
      var n := |picked| - 1;
      PrefixResolvable(l, picked);
      assert picked == picked[..n] + [picked[n]];
      SettledStay(l, picked[..n], charge);
    }
  }

  /** Selection looks only at what a resolution leaves alone. */
  lemma {:induction false} PickedStable(rows: seq<Row>, rows': seq<Row>, group: Group, ids: Ids)
    requires |rows'| == |rows| && forall i | 0 <= i < |rows| :: rows'[i].(state := rows[i].state) == rows[i]
    ensures Picked(rows', group, ids) == Picked(rows, group, ids)
  {
    LinkedStable(rows, rows', group.id, |rows|);
    DerivedStable(rows, rows', group.id, group.amounts, ids);
  }

  lemma {:induction false} LinkedStable(rows: seq<Row>, rows': seq<Row>, group: string, n: nat)
    requires |rows'| == |rows| && n <= |rows| && forall i | 0 <= i < |rows| ::
      rows'[i].(state := rows[i].state) == rows[i]
    ensures Linked(rows', group, n) == Linked(rows, group, n)
  {
    if n > 0 {
      LinkedStable(rows, rows', group, n - 1);
      assert rows'[n - 1].(state := rows[n - 1].state) == rows[n - 1];
    }
  }

  lemma {:induction false} IndexStable(rows: seq<Row>, rows': seq<Row>, id: string, n: nat)
    requires |rows'| == |rows| && n <= |rows| && forall i | 0 <= i < |rows| ::
      rows'[i].(state := rows[i].state) == rows[i]
    ensures IndexOf(rows', id, n) == IndexOf(rows, id, n)
  {
    if n > 0 {
      IndexStable(rows, rows', id, n - 1);
      assert rows'[n - 1].(state := rows[n - 1].state) == rows[n - 1];
    }
  }

  lemma {:induction false} DerivedStable(rows: seq<Row>, rows': seq<Row>, group: string, amounts: Amounts, ids: Ids)
    requires |rows'| == |rows| && forall i | 0 <= i < |rows| :: rows'[i].(state := rows[i].state) == rows[i]
    ensures Derived(rows', group, amounts, ids) == Derived(rows, group, amounts, ids)
  {
    if amounts != [] {
      IndexStable(rows, rows', ids.reservation(group, amounts[0].0), |rows|);
      DerivedStable(rows, rows', group, amounts[1..], ids);
    }
  }

  /** Resolving a group again, at any charge, changes nothing and reports nothing. */
  lemma {:induction false} ResolveOnce(l: Ledger, group: Group, charge: Charge, again: Charge, ids: Ids)
    requires Consistent(l)
    ensures var once := ResolveSpec(l, group, charge, ids).ledger;
      Consistent(once) && ResolveSpec(once, group, again, ids) == Resolution(once, [])
  {
    hide Consistent;
    ConsistentResolvable(l);
    var picked := Picked(l.rows, group, ids);
    var once := ResolvePicked(l, picked, charge).ledger;
    ResolveConsistent(l, picked, charge);
    ConsistentResolvable(once);
    PickedStable(l.rows, once.rows, group, ids);
    forall i | i in picked ensures once.rows[i].state.Settled? { RowsAfter(l, picked, charge, i); }
    SettledStay(once, picked, again);
  }

  lemma {:induction false} ReserveAllConsistent(l: Ledger, group: string, amounts: Amounts, call: Option<string>,
      attempt: Option<string>, ids: Ids)
    requires Consistent(l)
    ensures var o := ReserveAll(l, group, amounts, call, attempt, ids);
      o.Done? ==>
        && Consistent(o.ledger) && o.ledger.accounts.Keys == l.accounts.Keys && o.ledger.incidents == l.incidents
        && forall r | r in l.accounts :: o.ledger.accounts[r].cap == l.accounts[r].cap
             && (o.ledger.accounts[r] == l.accounts[r] || o.ledger.accounts[r].Used() <= o.ledger.accounts[r].cap)
    decreases |amounts|
  {
    hide Consistent;
    if amounts != [] {
      var one := ReserveOne(l, group, amounts[0].0, amounts[0].1, call, attempt, ids);
      if one.Done? {
        ReserveOneConsistent(l, group, amounts[0].0, amounts[0].1, call, attempt, ids);
        ReserveAllConsistent(one.ledger, group, amounts[1..], call, attempt, ids);
      }
    }
  }

  // ---------------------------------------------------------------- the class

  class BudgetLedger {
    var accounts: map<string, Account>
    var rows: seq<Row>
    var incidents: seq<Incident>
    const ids: Ids

    function State(): Ledger
      reads this
    {
      Ledger(accounts, rows, incidents)
    }

    constructor (ids: Ids)
      ensures State() == Ledger(map[], [], []) && this.ids == ids && Consistent(State())
    {
      accounts, rows, incidents := map[], [], [];
      this.ids := ids;
    }

    method EnsureAccount(resource: string, cap: real) returns (o: Outcome)
      modifies this
      ensures o == EnsureAccountSpec(old(State()), resource, cap) && State() == o.Or(old(State()))
      ensures old(Consistent(State())) ==> Consistent(State())
    {
      if resource !in accounts {
        accounts := accounts[resource := Account(cap, 0.0, 0.0)];
      } else if cap < accounts[resource].cap {
        accounts := accounts[resource := accounts[resource].(cap := cap)];
      } else if cap > accounts[resource].cap {
        return Failed(RaiseNotAllowed);
      }
      if old(Consistent(State())) {
        CapChangeConsistent(old(State()), State(), resource);
      }
      return Done(State());
    }

    /** A raise names its authorization and reason, and leaves an incident with both caps. */
    method AuthorizeCapRaise(resource: string, cap: real, authorization: string, reason: string) returns (o: Outcome)
      modifies this
      ensures o == RaiseSpec(old(State()), resource, cap, authorization != "" && reason != "")
        && State() == o.Or(old(State()))
      ensures old(Consistent(State())) ==> Consistent(State())
    {
      if authorization == "" || reason == "" {
        return Failed(Unauthorized);
      }
      if resource !in accounts {
        return Failed(RaiseNotAllowed);
      }
      var previous := accounts[resource].cap;
      if cap < previous {
        return Failed(NotARaise);
      }
      if cap == previous {
        return Done(State());
      }
      accounts := accounts[resource := accounts[resource].(cap := cap)];
      incidents := incidents + [CapRaised(resource, previous, cap)];
      if old(Consistent(State())) {
        CapChangeConsistent(old(State()), State(), resource);
      }
      return Done(State());
    }

    method Available(resource: string) returns (headroom: real)
      ensures headroom == if resource in accounts then accounts[resource].Available() else 0.0
    {
      if resource !in accounts {
        return 0.0;
      }
      return accounts[resource].Available();
    }

    /** Inside the caller's transaction: on failure what was already debited stays, for the caller
        to roll back. */
    method ReserveIn(amounts: Amounts, call: Option<string>, attempt: Option<string>) returns (o: Outcome, group: Group)
      modifies this
      ensures o == ReserveSpec(old(State()), amounts, call, attempt, ids)
      ensures o.Done? ==> State() == o.ledger
      ensures group == Group(GroupId(old(State()), amounts, call, attempt, ids), amounts)
    {
      hide ReserveOne;
      group := Group(GroupId(State(), amounts, call, attempt, ids), amounts);
      if amounts == [] {
        return Failed(NoResources), group;
      }
      ghost var start := State();
      assert amounts[0..] == amounts;
      for k := 0 to |amounts|
        invariant ReserveAll(start, group.id, amounts, call, attempt, ids)
          == ReserveAll(State(), group.id, amounts[k..], call, attempt, ids)
      {
        var resource, amount := amounts[k].0, amounts[k].1;
        assert amounts[k..][1..] == amounts[k + 1..] && amounts[k..][0] == amounts[k];
        o := ReserveRow(group.id, resource, amount, call, attempt);
        if o.Failed? {
          return o, group;
        }
      }
      return Done(State()), group;
    }

    method ReserveRow(group: string, resource: string, amount: real, call: Option<string>, attempt: Option<string>)
        returns (o: Outcome)
      modifies this
      ensures o == ReserveOne(old(State()), group, resource, amount, call, attempt, ids)
        && State() == o.Or(old(State()))
    {
      if amount < 0.0 {
        return Failed(NegativeAmount(resource));
      }
      if resource !in accounts || amount > accounts[resource].Available() {
        return Failed(Exceeded(resource));
      }
      var id := ids.reservation(group, resource);
      if exists i :: 0 <= i < |rows| && rows[i].id == id {
        return Failed(DuplicateReservation);
      }
      accounts := accounts[resource := accounts[resource].(reserved := accounts[resource].reserved + amount)];
      rows := rows + [Row(id, resource, amount, Reserved, call, attempt)];
      return Done(State());
    }

    /** All or nothing: any refusal rolls every partial reservation back. */
    method Reserve(amounts: Amounts, call: Option<string>, attempt: Option<string>) returns (o: Outcome, group: Group)
      modifies this
      ensures o == ReserveSpec(old(State()), amounts, call, attempt, ids) && State() == o.Or(old(State()))
      ensures group == Group(GroupId(old(State()), amounts, call, attempt, ids), amounts)
      ensures old(Consistent(State())) ==> Consistent(State())
    {
      hide Consistent;
      var savedAccounts, savedRows, savedIncidents := accounts, rows, incidents;
      o, group := ReserveIn(amounts, call, attempt);
      if o.Failed? {
        accounts, rows, incidents := savedAccounts, savedRows, savedIncidents;
      }
      if old(Consistent(State())) {
        ReserveAllConsistent(old(State()), group.id, amounts, call, attempt, ids);
      }
    }

    /** _resolve_in: each live selected reservation becomes settled at what is really charged. */
    method ResolveIn(group: Group, charge: Charge) returns (over: seq<Overrun>)
      requires Consistent(State())
      modifies this
      ensures old(forall i | 0 <= i < |rows| :: rows[i].resource in accounts)
      ensures Resolution(State(), over) == ResolveSpec(old(State()), group, charge, ids)
      ensures Consistent(State())
    {
      hide Consistent, ResolveRow, Picked;
      ghost var start := State();
      ConsistentResolvable(start);
      var picked := Picked(rows, group, ids);
      over := [];
      for k := 0 to |picked|
        invariant Resolvable(start, picked[..k])
          && Resolution(State(), over) == ResolvePicked(start, picked[..k], charge)
      {
        assert picked[k] in picked && picked[..k + 1] == picked[..k] + [picked[k]];
        assert picked[..k + 1][..k] == picked[..k];
        assert rows[picked[k]].(state := start.rows[picked[k]].state) == start.rows[picked[k]];
        var more := SettleRow(picked[k], charge);
        over := over + more;
      }
      assert picked[..|picked|] == picked;
      ResolveConsistent(start, picked, charge);
    }

    method SettleRow(i: nat, charge: Charge) returns (over: seq<Overrun>)
      requires i < |rows| && rows[i].resource in accounts
      modifies this
      ensures Resolution(State(), over) == ResolveRow(old(State()), i, charge)
    {
      over := [];
      var row := rows[i];
      if row.state.Reserved? {
        var actual := charge.For(row.resource, row.amount);
        if actual > row.amount {
          over := [Overrun(row.resource, row.amount, actual)];
        }
        var account := accounts[row.resource];
        account := account.(reserved := account.reserved - row.amount, settled := account.settled + actual);
        accounts := accounts[row.resource := account];
        rows := rows[i := row.(state := Settled(actual))];
      }
    }
  }

  // -------------------------------------------------------------------- runs

  datatype Op =
    | Ensure(resource: string, cap: real)
    | Raise(resource: string, cap: real, authorized: bool)
    | Reserve(amounts: Amounts, call: Option<string>, attempt: Option<string>)
    | Resolve(group: Group, charge: Charge)

  /** One operation, from the ledger's point of view. */
  ghost function Apply(l: Ledger, op: Op, ids: Ids): Resolution {
    match op
    case Ensure(r, cap) => Resolution(EnsureAccountSpec(l, r, cap).Or(l), [])
    case Raise(r, cap, authorized) => Resolution(RaiseSpec(l, r, cap, authorized).Or(l), [])
    case Reserve(amounts, call, attempt) => Resolution(ReserveSpec(l, amounts, call, attempt, ids).Or(l), [])
    case Resolve(group, charge) =>
      if forall i | 0 <= i < |l.rows| :: l.rows[i].resource in l.accounts then ResolveSpec(l, group, charge, ids)
      else Resolution(l, [])
  }

  const EMPTY := Ledger(map[], [], [])

  ghost function Exec(ops: seq<Op>, ids: Ids): Ledger {
    if ops == [] then EMPTY else Apply(Exec(ops[..|ops| - 1], ids), ops[|ops| - 1], ids).ledger
  }

  function CapOf(l: Ledger, r: string): real { if r in l.accounts then l.accounts[r].cap else 0.0 }

  /** The highest cap the resource ever had during the run. */
  ghost function HighCap(ops: seq<Op>, ids: Ids, r: string): real {
    if ops == [] then 0.0 else Max(HighCap(ops[..|ops| - 1], ids, r), CapOf(Exec(ops, ids), r))
  }

  function Excess(over: seq<Overrun>, r: string): real {
    if over == [] then 0.0 else
      var o := over[|over| - 1];
      Excess(over[..|over| - 1], r) + (if o.resource == r then o.actual - o.reserved else 0.0)
  }

  /** The total overrun reported for the resource during the run. */
  ghost function TotalExcess(ops: seq<Op>, ids: Ids, r: string): real {
    if ops == [] then 0.0 else
      TotalExcess(ops[..|ops| - 1], ids, r) + Excess(Apply(Exec(ops[..|ops| - 1], ids), ops[|ops| - 1], ids).over, r)
  }

  function UsedOf(l: Ledger, r: string): real { if r in l.accounts then l.accounts[r].Used() else 0.0 }

  lemma {:induction false} ExcessAppend(over: seq<Overrun>, more: seq<Overrun>, r: string)
    requires |more| <= 1
    ensures Excess(over + more, r) == Excess(over, r) + Excess(more, r)
  {
    if more == [] {
      assert over + more == over;
    } else {
      assert (over + more)[..|over|] == over && more[..0] == [];
    }
  }

  lemma {:induction false} RowWithinReport(l: Ledger, i: nat, charge: Charge, r: string)
    requires i < |l.rows| && l.rows[i].resource in l.accounts
    ensures var res := ResolveRow(l, i, charge);
      && UsedOf(res.ledger, r) <= UsedOf(l, r) + Excess(res.over, r) && Excess(res.over, r) >= 0.0
      && CapOf(res.ledger, r) == CapOf(l, r) && res.ledger.incidents == l.incidents && |res.over| <= 1
  {
    var over := ResolveRow(l, i, charge).over;
    if over != [] { assert over[..0] == []; }
  }

  /** Resolving adds no more use than it reports as overrun. */
  lemma {:induction false} ResolveWithinReport(l: Ledger, picked: seq<nat>, charge: Charge, r: string)
    requires Resolvable(l, picked)
    ensures var res := ResolvePicked(l, picked, charge);
      UsedOf(res.ledger, r) <= UsedOf(l, r) + Excess(res.over, r) && Excess(res.over, r) >= 0.0
      && CapOf(res.ledger, r) == CapOf(l, r) && res.ledger.incidents == l.incidents
  {
    if picked != [] {
      hide ResolveRow, UsedOf, CapOf, Excess;
      var n := |picked| - 1;
      PrefixResolvable(l, picked);
      ResolveWithinReport(l, picked[..n], charge, r);
      var before := ResolvePicked(l, picked[..n], charge);
      RowWithinReport(before.ledger, picked[n], charge, r);
      ExcessAppend(before.over, ResolveRow(before.ledger, picked[n], charge).over, r);
    } else {
      assert Excess([], r) == 0.0;
    }
  }

  ghost predicate ApplyFacts(l: Ledger, op: Op, ids: Ids, r: string) {
    var res := Apply(l, op, ids);
    && Consistent(res.ledger) && Excess(res.over, r) >= 0.0
    && (UsedOf(res.ledger, r) <= UsedOf(l, r) + Excess(res.over, r) || UsedOf(res.ledger, r) <= CapOf(res.ledger, r))
    && (!op.Ensure? ==> CapOf(res.ledger, r) >= CapOf(l, r))
  }

  lemma {:induction false} ApplyKeeps(l: Ledger, op: Op, ids: Ids, r: string)
    requires Consistent(l)
    ensures ApplyFacts(l, op, ids, r)
  {
    ConsistentResolvable(l);
    match op
    case Ensure(resource, cap) =>
      var o := EnsureAccountSpec(l, resource, cap);
      if o.Done? { CapChangeConsistent(l, o.ledger, resource); }
    case Raise(resource, cap, authorized) =>
      var o := RaiseSpec(l, resource, cap, authorized);
      if o.Done? { CapChangeConsistent(l, o.ledger, resource); }
    case Reserve(amounts, call, attempt) =>
      hide Consistent, ReserveAll;
      ReserveAllConsistent(l, GroupId(l, amounts, call, attempt, ids), amounts, call, attempt, ids);
    case Resolve(group, charge) =>
      hide Consistent, ResolvePicked, Picked;
      ResolveConsistent(l, Picked(l.rows, group, ids), charge);
      ResolveWithinReport(l, Picked(l.rows, group, ids), charge, r);
  }

  /** Over any run: the accounts are the sums of the rows, nothing is negative, and what is held
      and spent never exceeds the highest cap ever set plus the overruns reported. */
  lemma {:induction false} RunConserves(ops: seq<Op>, ids: Ids, r: string)
    ensures Consistent(Exec(ops, ids))
    ensures UsedOf(Exec(ops, ids), r) <= HighCap(ops, ids, r) + TotalExcess(ops, ids, r)
    ensures HighCap(ops, ids, r) >= 0.0 && TotalExcess(ops, ids, r) >= 0.0
      && CapOf(Exec(ops, ids), r) <= HighCap(ops, ids, r)
    ensures var accounts := Exec(ops, ids).accounts;
      r in accounts ==> accounts[r].reserved >= 0.0 && accounts[r].settled >= 0.0
  {
    if ops != [] {
      hide Consistent, Apply;
      var n := |ops| - 1;
      RunConserves(ops[..n], ids, r);
      ApplyKeeps(Exec(ops[..n], ids), ops[n], ids, r);
    } else {
      assert Consistent(EMPTY);
    }
    if r in Exec(ops, ids).accounts { TotalsNonNegative(Exec(ops, ids), r); }
  }

  /** No ensure_account of the run set a cap below what was then in use. */
  ghost predicate NoCutBelowUse(ops: seq<Op>, ids: Ids, r: string) {
    forall k | 0 <= k < |ops| && ops[k].Ensure? && ops[k].resource == r :: ops[k].cap >= UsedOf(Exec(ops[..k], ids), r)
  }

  /** The documented invariant, on the runs that keep it: no overrun reported, no cut below use. */
  lemma {:induction false} RunWithinCap(ops: seq<Op>, ids: Ids, r: string)
    requires NoCutBelowUse(ops, ids, r) && TotalExcess(ops, ids, r) == 0.0
    ensures UsedOf(Exec(ops, ids), r) <= CapOf(Exec(ops, ids), r)
  {
    if ops != [] {
      hide Consistent, HighCap;
      var n := |ops| - 1;
      forall k | 0 <= k < n && ops[..n][k].Ensure? && ops[..n][k].resource == r
        ensures ops[..n][k].cap >= UsedOf(Exec(ops[..n][..k], ids), r)
      {
        assert ops[..n][..k] == ops[..k] && ops[k] == ops[..n][k];
      }
      RunConserves(ops[..n], ids, r);
      ApplyKeeps(Exec(ops[..n], ids), ops[n], ids, r);
      RunWithinCap(ops[..n], ids, r);
      if ops[n].Ensure? {
        assert ops[n].resource == r ==> ops[n].cap >= UsedOf(Exec(ops[..n], ids), r);
      } else {
        hide Apply;
      }
    }
  }

  // ------------------------------------- where the documented invariant fails

  ghost predicate WithinCap(l: Ledger, r: string) { UsedOf(l, r) <= CapOf(l, r) }

  /** ensure_account leaves use within the cap exactly when the cap that stands after it, the lower
      of the two, covers what is in use; a first cap must only not be negative. */
  lemma {:induction false} EnsureKeepsCapIff(l: Ledger, resource: string, cap: real)
    ensures WithinCap(EnsureAccountSpec(l, resource, cap).Or(l), resource) <==>
      if resource !in l.accounts then cap >= 0.0
      else l.accounts[resource].Used() <= cap && l.accounts[resource].Used() <= l.accounts[resource].cap
  {}

  /** What a resolution adds to the use of r: charge minus reservation, over the live rows picked. */
  ghost function NetCharge(rows: seq<Row>, picked: seq<nat>, charge: Charge, r: string): real {
    if rows == [] then 0.0 else
      var n := |rows| - 1;
      NetCharge(rows[..n], picked, charge, r)
      + (if n in picked && rows[n].resource == r && rows[n].state.Reserved?
         then charge.For(r, rows[n].amount) - rows[n].amount else 0.0)
  }

  lemma {:induction false} NetChargeIsChange(rows: seq<Row>, rows': seq<Row>, picked: seq<nat>, charge: Charge,
      r: string)
    requires |rows'| == |rows| && forall i: nat | i < |rows| ::
      rows'[i] == if i in picked && rows[i].state.Reserved?
        then rows[i].(state := Settled(charge.For(rows[i].resource, rows[i].amount))) else rows[i]
    ensures Held(rows', r) + Spent(rows', r) == Held(rows, r) + Spent(rows, r) + NetCharge(rows, picked, charge, r)
  {
    if rows != [] {
      var n := |rows| - 1;
      NetChargeIsChange(rows[..n], rows'[..n], picked, charge, r);
    }
  }

  lemma {:induction false} ResolveChangesUse(l: Ledger, picked: seq<nat>, charge: Charge, r: string)
    requires Consistent(l) && Resolvable(l, picked) && r in l.accounts
    ensures var l' := ResolvePicked(l, picked, charge).ledger;
      && l'.accounts[r].Used() == l.accounts[r].Used() + NetCharge(l.rows, picked, charge, r)
      && l'.accounts[r].cap == l.accounts[r].cap
  {
    hide Consistent, ResolvePicked, NetCharge, Held, Spent;
    var l' := ResolvePicked(l, picked, charge).ledger;
    forall i: nat | i < |l.rows|
      ensures l'.rows[i] == if i in picked && l.rows[i].state.Reserved?
        then l.rows[i].(state := Settled(charge.For(l.rows[i].resource, l.rows[i].amount))) else l.rows[i]
    {
      RowsAfter(l, picked, charge, i);
    }
    NetChargeIsChange(l.rows, l'.rows, picked, charge, r);
    ResolveConsistent(l, picked, charge);
    CapsSurvive(l, picked, charge);
    AccountIsSums(l, r);
    AccountIsSums(l', r);
  }

  /** Resolving a group leaves use within the cap exactly when the net charge of its live rows fits
      the headroom. */
  lemma {:induction false} ResolveKeepsCapIff(l: Ledger, group: Group, charge: Charge, ids: Ids, r: string)
    requires Consistent(l) && r in l.accounts
    ensures (forall i | 0 <= i < |l.rows| :: l.rows[i].resource in l.accounts)
      && (WithinCap(ResolveSpec(l, group, charge, ids).ledger, r) <==>
            NetCharge(l.rows, Picked(l.rows, group, ids), charge, r) <= l.accounts[r].Available())
  {
    hide Consistent, ResolvePicked, NetCharge, Picked;
    ConsistentResolvable(l);
    ResolveChangesUse(l, Picked(l.rows, group, ids), charge, r);
  }

  // ---------------------------------------------------------- what is charged

  /** The live rows a resolution of the group settles. */
  ghost predicate Settles(l: Ledger, group: Group, ids: Ids, i: nat) {
    i < |l.rows| && i in Picked(l.rows, group, ids) && l.rows[i].state.Reserved?
  }

  /** The rows picked whose charge exceeds what they reserved. */
  ghost function Exceeding(rows: seq<Row>, picked: seq<nat>, charge: Charge): (found: set<nat>)
    ensures forall i | i in found :: i < |rows|
  {
    set i | 0 <= i < |rows| && i in picked && rows[i].state.Reserved?
      && charge.For(rows[i].resource, rows[i].amount) > rows[i].amount
  }

  ghost function OverrunOf(row: Row, charge: Charge): Overrun {
    Overrun(row.resource, row.amount, charge.For(row.resource, row.amount))
  }

  /** Every such row is reported, once, and nothing else is. */
  lemma {:induction false} OverrunsReported(l: Ledger, picked: seq<nat>, charge: Charge)
    requires Resolvable(l, picked)
    ensures var over := ResolvePicked(l, picked, charge).over;
      && |over| == |Exceeding(l.rows, picked, charge)|
      && forall o ::
           (o in over <==> exists i :: i in Exceeding(l.rows, picked, charge) && o == OverrunOf(l.rows[i], charge))
  {
    hide *;
    if picked != [] {
      var n := |picked| - 1;
      PrefixResolvable(l, picked);
      OverrunsReported(l, picked[..n], charge);
      NextReport(l, picked, charge);
      NextExceeding(l.rows, picked, charge);
      ReportStep(l.rows, Exceeding(l.rows, picked[..n], charge), ResolvePicked(l, picked[..n], charge).over, charge,
          picked[n]);
    } else {
      NothingReported(l, picked, charge);
    }
  }

  lemma {:induction false} NothingReported(l: Ledger, picked: seq<nat>, charge: Charge)
    requires Resolvable(l, picked) && picked == []
    ensures ResolvePicked(l, picked, charge).over == [] && Exceeding(l.rows, picked, charge) == {}
  {}

  /** One more report for one more row. */
  lemma {:induction false} ReportStep(rows: seq<Row>, before: set<nat>, over: seq<Overrun>, charge: Charge, i: nat)
    requires i < |rows| && forall j | j in before :: j < |rows|
    requires forall o :: o in over <==> exists j :: j in before && o == OverrunOf(rows[j], charge)
    ensures forall o ::
      (o in over + [OverrunOf(rows[i], charge)] <==> exists j :: j in before + {i} && o == OverrunOf(rows[j], charge))
  {
    hide OverrunOf;
    forall o
      ensures o in over + [OverrunOf(rows[i], charge)] <==>
        exists j :: j in before + {i} && o == OverrunOf(rows[j], charge)
    {
      if o == OverrunOf(rows[i], charge) { assert i in before + {i}; }
      if j :| j in before && o == OverrunOf(rows[j], charge) { assert j in before + {i}; }
    }
  }

  lemma {:induction false} NextExceeding(rows: seq<Row>, picked: seq<nat>, charge: Charge)
    requires picked != [] && picked[|picked| - 1] < |rows|
    ensures var (n, i) := (|picked| - 1, picked[|picked| - 1]);
      var (row, before) := (rows[i], Exceeding(rows, picked[..n], charge));
      var added := row.state.Reserved? && i !in picked[..n] && charge.For(row.resource, row.amount) > row.amount;
      && Exceeding(rows, picked, charge) == (if added then before + {i} else before)
      && (added ==> i !in before)
  {
    hide Charge.For;
    assert picked == picked[..|picked| - 1] + [picked[|picked| - 1]];
  }

  lemma {:induction false} NextReport(l: Ledger, picked: seq<nat>, charge: Charge)
    requires Resolvable(l, picked) && picked != []
    ensures Resolvable(l, picked[..|picked| - 1]) && picked[|picked| - 1] < |l.rows|
    ensures var (n, i) := (|picked| - 1, picked[|picked| - 1]);
      var (row, before) := (l.rows[i], ResolvePicked(l, picked[..n], charge).over);
      ResolvePicked(l, picked, charge).over ==
        if row.state.Reserved? && i !in picked[..n] && charge.For(row.resource, row.amount) > row.amount
        then before + [OverrunOf(row, charge)] else before
  {
    PrefixResolvable(l, picked);
    RowsAfter(l, picked[..|picked| - 1], charge, picked[|picked| - 1]);
  }

  /** No row is charged more than it reserved: nothing is reported, and no use grows. */
  lemma {:induction false} NoOverrun(rows: seq<Row>, picked: seq<nat>, charge: Charge)
    requires forall i | 0 <= i < |rows| :: charge.For(rows[i].resource, rows[i].amount) <= rows[i].amount
    ensures Exceeding(rows, picked, charge) == {}
  {}

  /** keep_worst_case: every live row of the group is settled at exactly what it reserved. What is
      in use does not change, so a possible charge is never under-counted. */
  lemma {:induction false} WorstCaseKeepsUse(l: Ledger, group: Group, ids: Ids)
    requires Consistent(l)
    ensures forall i | 0 <= i < |l.rows| :: l.rows[i].resource in l.accounts
    ensures var r := ResolveSpec(l, group, WorstCase, ids);
      && r.over == [] && |r.ledger.rows| == |l.rows| && r.ledger.accounts.Keys == l.accounts.Keys
      && (forall i: nat | i < |l.rows| :: r.ledger.rows[i] ==
            if Settles(l, group, ids, i) then l.rows[i].(state := Settled(l.rows[i].amount)) else l.rows[i])
      && (forall x | x in l.accounts ::
            r.ledger.accounts[x].Used() == l.accounts[x].Used() && r.ledger.accounts[x].cap == l.accounts[x].cap)
  {
    ConsistentResolvable(l);
    AmountsOk(l);
    var picked := Picked(l.rows, group, ids);
    hide Consistent, Picked, ResolvePicked, Exceeding;
    NoOverrun(l.rows, picked, WorstCase);
    OverrunsReported(l, picked, WorstCase);
    forall i: nat | i < |l.rows|
      ensures ResolvePicked(l, picked, WorstCase).ledger.rows[i] ==
        if Settles(l, group, ids, i) then l.rows[i].(state := Settled(l.rows[i].amount)) else l.rows[i]
    {
      RowsAfter(l, picked, WorstCase, i);
    }
    forall x | x in l.accounts
      ensures ResolvePicked(l, picked, WorstCase).ledger.accounts[x].Used() == l.accounts[x].Used()
      ensures ResolvePicked(l, picked, WorstCase).ledger.accounts[x].cap == l.accounts[x].cap
    {
      ResolveChangesUse(l, picked, WorstCase, x);
      FullCharge(l.rows, picked, x);
    }
  }

  lemma {:induction false} AmountsOk(l: Ledger)
    requires Consistent(l)
    ensures forall i | 0 <= i < |l.rows| :: l.rows[i].amount >= 0.0
  {
    forall i | 0 <= i < |l.rows| ensures l.rows[i].amount >= 0.0 { assert RowOk(l.accounts, l.rows[i]); }
  }

  lemma {:induction false} FullCharge(rows: seq<Row>, picked: seq<nat>, r: string)
    requires forall i | 0 <= i < |rows| :: rows[i].amount >= 0.0
    ensures NetCharge(rows, picked, WorstCase, r) == 0.0
  {
    if rows != [] { FullCharge(rows[..|rows| - 1], picked, r); }
  }

  /** release: every live row of the group is settled at nothing. */
  lemma {:induction false} ReleaseCharges(l: Ledger, group: Group, ids: Ids)
    requires Consistent(l)
    ensures forall i | 0 <= i < |l.rows| :: l.rows[i].resource in l.accounts
    ensures var r := ResolveSpec(l, group, Nothing, ids);
      && r.over == [] && |r.ledger.rows| == |l.rows|
      && (forall i: nat | i < |l.rows| :: r.ledger.rows[i] ==
            if Settles(l, group, ids, i) then l.rows[i].(state := Settled(0.0)) else l.rows[i])
  {
    ConsistentResolvable(l);
    AmountsOk(l);
    var picked := Picked(l.rows, group, ids);
    hide Consistent, Picked, ResolvePicked, Exceeding;
    NoOverrun(l.rows, picked, Nothing);
    OverrunsReported(l, picked, Nothing);
    forall i: nat | i < |l.rows|
      ensures ResolvePicked(l, picked, Nothing).ledger.rows[i] ==
        if Settles(l, group, ids, i) then l.rows[i].(state := Settled(0.0)) else l.rows[i]
    {
      RowsAfter(l, picked, Nothing, i);
    }
  }

  /** What usage costs a resource: a resource that is missing, or negative, costs nothing. */
  ghost predicate Costs(usage: map<string, real>, resource: string, actual: real) {
    if resource in usage && usage[resource] >= 0.0 then actual == usage[resource] else actual == 0.0
  }

  /** settle: every live row of the group is settled at the actual usage in full, and reported
      exactly when that exceeds what it reserved. */
  lemma {:induction false} SettleCharges(l: Ledger, group: Group, usage: map<string, real>, ids: Ids)
    requires Consistent(l)
    ensures forall i | 0 <= i < |l.rows| :: l.rows[i].resource in l.accounts
    ensures var r := ResolveSpec(l, group, Actuals(usage), ids);
      && |r.ledger.rows| == |l.rows|
      && (forall i: nat | Settles(l, group, ids, i) ::
            var (row, row') := (l.rows[i], r.ledger.rows[i]);
            && row' == row.(state := row'.state) && row'.state.Settled? && Costs(usage, row.resource, row'.state.actual)
            && (row'.state.actual > row.amount ==> Overrun(row.resource, row.amount, row'.state.actual) in r.over))
      && (forall i: nat | i < |l.rows| && !Settles(l, group, ids, i) :: r.ledger.rows[i] == l.rows[i])
      && (forall o | o in r.over :: exists i: nat ::
            Settles(l, group, ids, i) && o.resource == l.rows[i].resource && o.reserved == l.rows[i].amount < o.actual
              && Costs(usage, o.resource, o.actual))
  {
    ConsistentResolvable(l);
    var (picked, charge) := (Picked(l.rows, group, ids), Actuals(usage));
    hide Consistent, Picked, ResolvePicked;
    OverrunsReported(l, picked, charge);
    var r := ResolvePicked(l, picked, charge);
    forall i: nat | i < |l.rows|
      ensures r.ledger.rows[i] == if Settles(l, group, ids, i)
        then l.rows[i].(state := Settled(charge.For(l.rows[i].resource, l.rows[i].amount))) else l.rows[i]
    {
      RowsAfter(l, picked, charge, i);
    }
    forall i: nat | Settles(l, group, ids, i)
      ensures var actual := charge.For(l.rows[i].resource, l.rows[i].amount);
        && Costs(usage, l.rows[i].resource, actual)
        && (actual > l.rows[i].amount ==> Overrun(l.rows[i].resource, l.rows[i].amount, actual) in r.over)
    {
      assert charge.For(l.rows[i].resource, l.rows[i].amount) > l.rows[i].amount
        ==> i in Exceeding(l.rows, picked, charge) && OverrunOf(l.rows[i], charge) in r.over;
    }
    forall o | o in r.over
      ensures exists i: nat ::
        Settles(l, group, ids, i) && o.resource == l.rows[i].resource && o.reserved == l.rows[i].amount < o.actual
          && Costs(usage, o.resource, o.actual)
    {
      var i :| i in Exceeding(l.rows, picked, charge) && o == OverrunOf(l.rows[i], charge);
      assert Settles(l, group, ids, i);
    }
  }

  /** Which rows a handle selects: those that name the group as attempt, call or own id, and only
      if there are none those with the id derived for one of its resources. */
  lemma {:induction false} HandleSelects(rows: seq<Row>, group: Group, ids: Ids, i: nat)
    requires DistinctIds(rows) && i < |rows|
    ensures i in Picked(rows, group, ids) <==>
      if exists k ::
        0 <= k < |rows|
          && (rows[k].attempt == Some(group.id) || rows[k].call == Some(group.id) || rows[k].id == group.id)
      then rows[i].attempt == Some(group.id) || rows[i].call == Some(group.id) || rows[i].id == group.id
      else exists k :: 0 <= k < |group.amounts| && rows[i].id == ids.reservation(group.id, group.amounts[k].0)
  {
    var linked := Linked(rows, group.id, |rows|);
    if linked != [] {
      assert linked[0] in linked && LinkedTo(rows[linked[0]], group.id);
    } else {
      assert forall k: nat | k < |rows| :: LinkedTo(rows[k], group.id) ==> k in linked;
      if i in Derived(rows, group.id, group.amounts, ids) {
        DerivedOnly(rows, group.id, group.amounts, ids, i);
      }
      if k :| 0 <= k < |group.amounts| && rows[i].id == ids.reservation(group.id, group.amounts[k].0) {
        DerivedFinds(rows, group.id, group.amounts, ids, k, i);
      }
    }
  }

  // ---------------------------------------------------------- what is admitted

  /** The keys of a mapping. */
  ghost predicate OnePerResource(amounts: Amounts) {
    forall j, k | 0 <= j < k < |amounts| :: amounts[j].0 != amounts[k].0
  }

  ghost predicate Fits(l: Ledger, group: string, amount: (string, real), ids: Ids) {
    && amount.1 >= 0.0 && amount.0 in l.accounts && amount.1 <= l.accounts[amount.0].Available()
    && forall i | 0 <= i < |l.rows| :: l.rows[i].id != ids.reservation(group, amount.0)
  }

  ghost predicate AllFit(l: Ledger, group: string, amounts: Amounts, ids: Ids) {
    && (forall k | 0 <= k < |amounts| :: Fits(l, group, amounts[k], ids))
    && forall j, k | 0 <= j < k < |amounts| ::
         ids.reservation(group, amounts[j].0) != ids.reservation(group, amounts[k].0)
  }

  /** A reservation is admitted exactly when each amount is one the headroom of its account holds in
      full and its row is new; a refusal names what did not. */
  lemma {:induction false} ReserveAdmitsIff(l: Ledger, group: string, amounts: Amounts, call: Option<string>,
      attempt: Option<string>, ids: Ids)
    requires OnePerResource(amounts)
    ensures var o := ReserveAll(l, group, amounts, call, attempt, ids);
      && (o.Done? <==> AllFit(l, group, amounts, ids))
      && (o.Failed? ==> match o.error
            case NegativeAmount(r) => exists k :: 0 <= k < |amounts| && amounts[k].0 == r && amounts[k].1 < 0.0
            case Exceeded(r) => exists k ::
              0 <= k < |amounts| && amounts[k].0 == r && (r !in l.accounts || amounts[k].1 > l.accounts[r].Available())
            case other => other == DuplicateReservation)
    decreases |amounts|
  {
    if amounts != [] {
      var (first, rest) := (amounts[0], amounts[1..]);
      var one := ReserveOne(l, group, first.0, first.1, call, attempt, ids);
      assert amounts == [first] + rest;
      if one.Done? {
        ReserveAdmitsIff(one.ledger, group, rest, call, attempt, ids);
        FirstThenRest(l, group, amounts, call, attempt, ids);
        assert forall k | 0 <= k < |rest| :: rest[k] == amounts[k + 1] && rest[k].0 != first.0;
      } else {
        assert !Fits(l, group, amounts[0], ids);
      }
    }
  }

  lemma {:induction false} FirstThenRest(l: Ledger, group: string, amounts: Amounts, call: Option<string>,
      attempt: Option<string>, ids: Ids)
    requires OnePerResource(amounts) && amounts != []
    requires ReserveOne(l, group, amounts[0].0, amounts[0].1, call, attempt, ids).Done?
    ensures var one := ReserveOne(l, group, amounts[0].0, amounts[0].1, call, attempt, ids).ledger;
      AllFit(l, group, amounts, ids) <==> AllFit(one, group, amounts[1..], ids)
  {
    var (first, rest) := (amounts[0], amounts[1..]);
    var one := ReserveOne(l, group, first.0, first.1, call, attempt, ids).ledger;
    assert Fits(l, group, first, ids);
    forall k | 0 <= k < |rest|
      ensures Fits(one, group, rest[k], ids) <==>
        && Fits(l, group, amounts[k + 1], ids)
        && ids.reservation(group, first.0) != ids.reservation(group, amounts[k + 1].0)
    {
      assert rest[k] == amounts[k + 1] && rest[k].0 != first.0;
      assert one.rows[|l.rows|].id == ids.reservation(group, first.0);
      assert forall i | 0 <= i < |l.rows| :: one.rows[i] == l.rows[i];
    }
    if AllFit(one, group, rest, ids) {
      forall j, k | 0 <= j < k < |amounts|
        ensures ids.reservation(group, amounts[j].0) != ids.reservation(group, amounts[k].0)
      {
        assert Fits(one, group, rest[k - 1], ids) && rest[k - 1] == amounts[k];
        if j > 0 { assert rest[j - 1] == amounts[j]; }
      }
      forall k | 0 <= k < |amounts| ensures Fits(l, group, amounts[k], ids) {
        if k > 0 { assert Fits(one, group, rest[k - 1], ids); }
      }
    }
    if AllFit(l, group, amounts, ids) {
      forall k | 0 <= k < |rest| ensures Fits(one, group, rest[k], ids) {
        assert Fits(l, group, amounts[k + 1], ids);
      }
      forall j, k | 0 <= j < k < |rest|
        ensures ids.reservation(group, rest[j].0) != ids.reservation(group, rest[k].0)
      {
        assert rest[j] == amounts[j + 1] && rest[k] == amounts[k + 1];
      }
    }
  }

  /** An admitted reservation adds one live row for each amount, under the caller's own links. */
  lemma {:induction false} ReserveRecords(l: Ledger, amounts: Amounts, call: Option<string>, attempt: Option<string>,
      ids: Ids, k: nat)
    requires ReserveSpec(l, amounts, call, attempt, ids).Done? && k < |amounts|
    ensures var rows := ReserveSpec(l, amounts, call, attempt, ids).ledger.rows;
      && |rows| == |l.rows| + |amounts| && l.rows <= rows
      && var row := rows[|l.rows| + k];
      && row.resource == amounts[k].0 && row.amount == amounts[k].1 && row.state == Reserved
      && row.call == call && row.attempt == attempt
      && row.id == ids.reservation(GroupId(l, amounts, call, attempt, ids), amounts[k].0)
  {
    ReservedRows(l, GroupId(l, amounts, call, attempt, ids), amounts, call, attempt, ids);
  }

  /** It is held against its accounts: each is debited its amount, and no other changes. */
  lemma {:induction false} ReserveDebits(l: Ledger, group: string, amounts: Amounts, call: Option<string>,
      attempt: Option<string>, ids: Ids, r: string)
    requires OnePerResource(amounts) && r in l.accounts && ReserveAll(l, group, amounts, call, attempt, ids).Done?
    ensures var accounts := ReserveAll(l, group, amounts, call, attempt, ids).ledger.accounts;
      && r in accounts
      && (forall k | 0 <= k < |amounts| && amounts[k].0 == r ::
            accounts[r] == l.accounts[r].(reserved := l.accounts[r].reserved + amounts[k].1))
      && ((forall k | 0 <= k < |amounts| :: amounts[k].0 != r) ==> accounts[r] == l.accounts[r])
    decreases |amounts|
  {
    if amounts != [] {
      var (first, rest) := (amounts[0], amounts[1..]);
      var one := ReserveOne(l, group, first.0, first.1, call, attempt, ids).ledger;
      assert forall k | 0 <= k < |rest| :: rest[k] == amounts[k + 1];
      ReserveDebits(one, group, rest, call, attempt, ids, r);
      assert forall k | 1 <= k < |amounts| :: amounts[k] == rest[k - 1];
    }
  }

  /** Two identical reservations without a link are two claims: the second is another group. */
  lemma {:induction false} RepeatedClaimIsNewGroup(l: Ledger, amounts: Amounts, ids: Ids)
    requires ReserveSpec(l, amounts, None, None, ids).Done?
    requires forall m, n: nat | m != n :: ids.anonymous(amounts, m) != ids.anonymous(amounts, n)
    ensures GroupId(ReserveSpec(l, amounts, None, None, ids).ledger, amounts, None, None, ids)
      != GroupId(l, amounts, None, None, ids)
  {
    ReserveRecords(l, amounts, None, None, ids, 0);
  }

  // ------------------------------------------------- no cap rises without a trace

  /** What one operation can do to a cap: raise it only as an authorized raise that records both
      values, lower it only as ensure_account; nothing else touches a cap or the incidents. */
  lemma {:induction false} CapChanges(l: Ledger, op: Op, ids: Ids, r: string)
    requires Consistent(l) && r in l.accounts
    ensures var (l', cap) := (Apply(l, op, ids).ledger, l.accounts[r].cap);
      && r in l'.accounts
      && (if op.Raise? && op.resource == r && op.authorized && op.cap > cap
          then l'.accounts[r].cap == op.cap && l'.incidents == l.incidents + [CapRaised(r, cap, op.cap)]
          else l'.accounts[r].cap <= cap)
      && (l'.accounts[r].cap < cap <==> op.Ensure? && op.resource == r && op.cap < cap)
      && (op.Ensure? && op.resource == r && op.cap < cap ==> l'.accounts[r].cap == op.cap)
      && (op.Ensure? || op.Raise? ==> l'.accounts[r].Used() == l.accounts[r].Used() && l'.rows == l.rows)
      && l.incidents <= l'.incidents && (!op.Raise? ==> l'.incidents == l.incidents)
  {
    ConsistentResolvable(l);
    match op
    case Ensure(_, _) => {}
    case Raise(_, _, _) => {}
    case Reserve(amounts, call, attempt) =>
      hide Consistent, ReserveAll;
      ReserveAllConsistent(l, GroupId(l, amounts, call, attempt, ids), amounts, call, attempt, ids);
    case Resolve(group, charge) =>
      hide Consistent, ResolvePicked, Picked;
      CapsSurvive(l, Picked(l.rows, group, ids), charge);
      ResolveWithinReport(l, Picked(l.rows, group, ids), charge, r);
  }

  /** The first ensure_account of a resource opens its account, empty, at the cap given. */
  lemma {:induction false} FirstCapOpens(l: Ledger, resource: string, cap: real)
    requires resource !in l.accounts
    ensures var o := EnsureAccountSpec(l, resource, cap);
      && o.Done? && o.ledger.accounts.Keys == l.accounts.Keys + {resource}
      && var account := o.ledger.accounts[resource];
         account.cap == cap && account.reserved == 0.0 && account.settled == 0.0
  {}

  /** A refused change of a cap says why; nothing else is refused. */
  lemma {:induction false} CapRefusals(l: Ledger, resource: string, cap: real, authorized: bool)
    ensures EnsureAccountSpec(l, resource, cap) == Failed(RaiseNotAllowed)
       <==> resource in l.accounts && cap > l.accounts[resource].cap
    ensures EnsureAccountSpec(l, resource, cap).Failed? ==> EnsureAccountSpec(l, resource, cap).error == RaiseNotAllowed
    ensures RaiseSpec(l, resource, cap, authorized).Failed?
       <==> !authorized || resource !in l.accounts || cap < l.accounts[resource].cap
    ensures RaiseSpec(l, resource, cap, authorized) == Failed(Unauthorized) <==> !authorized
    ensures RaiseSpec(l, resource, cap, authorized) == Failed(NotARaise)
       <==> authorized && resource in l.accounts && cap < l.accounts[resource].cap
  {}

  ghost function RaisedBy(incidents: seq<Incident>, r: string): real {
    if incidents == [] then 0.0 else
      var last := incidents[|incidents| - 1];
      RaisedBy(incidents[..|incidents| - 1], r) + (if last.resource == r then last.cap - last.previous else 0.0)
  }

  /** "A cap never rises without a trace": between any two points of a run a cap rises by no more
      than the raises recorded in between. */
  lemma {:induction false} RaisesLeaveTrace(ops: seq<Op>, k: nat, ids: Ids, r: string)
    requires k <= |ops| && r in Exec(ops[..k], ids).accounts
    ensures var (early, late) := (Exec(ops[..k], ids), Exec(ops, ids));
      && r in late.accounts && early.incidents <= late.incidents
      && late.accounts[r].cap <= early.accounts[r].cap + RaisedBy(late.incidents[|early.incidents|..], r)
      && RaisedBy(late.incidents[|early.incidents|..], r) >= 0.0
  {
    hide Apply, Consistent;
    if k == |ops| {
      assert ops[..k] == ops;
    } else {
      var n := |ops| - 1;
      assert ops[..n][..k] == ops[..k];
      RaisesLeaveTrace(ops[..n], k, ids, r);
      RunConserves(ops[..n], ids, r);
      CapChanges(Exec(ops[..n], ids), ops[n], ids, r);
      NextIncidents(Exec(ops[..k], ids).incidents, Exec(ops[..n], ids), ops[n], ids, r);
    }
  }

  lemma {:induction false} NextIncidents(early: seq<Incident>, l: Ledger, op: Op, ids: Ids, r: string)
    requires Consistent(l) && early <= l.incidents
    ensures var l' := Apply(l, op, ids).ledger;
      && l.incidents <= l'.incidents
      && RaisedBy(l'.incidents[|early|..], r) ==
         RaisedBy(l.incidents[|early|..], r)
           + (if op.Raise? && op.authorized && op.resource == r && r in l.accounts && op.cap > l.accounts[r].cap
              then op.cap - l.accounts[r].cap else 0.0)
  {
    ConsistentResolvable(l);
    match op
    case Ensure(_, _) => {}
    case Raise(resource, cap, authorized) =>
      var l' := Apply(l, op, ids).ledger;
      if l'.incidents != l.incidents {
        var (old', new') := (l.incidents[|early|..], l'.incidents[|early|..]);
        assert new' == old' + [CapRaised(resource, l.accounts[resource].cap, cap)];
        assert new'[..|old'|] == old';
      }
    case Reserve(amounts, call, attempt) =>
      hide Consistent, ReserveAll;
      ReserveAllConsistent(l, GroupId(l, amounts, call, attempt, ids), amounts, call, attempt, ids);
    case Resolve(group, charge) =>
      hide Consistent, ResolvePicked, Picked;
      ResolveWithinReport(l, Picked(l.rows, group, ids), charge, r);
  }

  // --------------------------------------------------- release undoes reserve

  ghost function NewRows(group: string, amounts: Amounts, call: Option<string>, attempt: Option<string>,
      ids: Ids): (rows: seq<Row>)
    ensures |rows| == |amounts|
  {
    seq(|amounts|, k requires 0 <= k < |amounts| =>
      Row(ids.reservation(group, amounts[k].0), amounts[k].0, amounts[k].1, Reserved, call, attempt))
  }

  lemma {:induction false} ReservedRows(l: Ledger, group: string, amounts: Amounts, call: Option<string>,
      attempt: Option<string>, ids: Ids)
    requires ReserveAll(l, group, amounts, call, attempt, ids).Done?
    ensures ReserveAll(l, group, amounts, call, attempt, ids).ledger.rows == l.rows
      + NewRows(group, amounts, call, attempt, ids)
    decreases |amounts|
  {
    if amounts != [] {
      var one := ReserveOne(l, group, amounts[0].0, amounts[0].1, call, attempt, ids).ledger;
      ReservedRows(one, group, amounts[1..], call, attempt, ids);
      var all := NewRows(group, amounts, call, attempt, ids);
      assert all == [all[0]] + NewRows(group, amounts[1..], call, attempt, ids);
      assert l.rows + all == one.rows + NewRows(group, amounts[1..], call, attempt, ids);
    }
  }

  /** The group id is new: no live row answers to it, and hashed ids do not collide with it. */
  ghost predicate UnusedGroup(l: Ledger, group: string, ids: Ids) {
    && (forall i | 0 <= i < |l.rows| && LinkedTo(l.rows[i], group) :: l.rows[i].state.Settled?)
    && (forall r :: ids.reservation(group, r) != group)
  }

  /** Without a link the group id must not be any earlier row's either. */
  ghost predicate AnonymousOk(l: Ledger, group: string, call: Option<string>, attempt: Option<string>) {
    (call.None? && (attempt.None? || attempt.value == "")) ==>
      group != "" && forall i | 0 <= i < |l.rows| :: !LinkedTo(l.rows[i], group)
  }

  lemma {:induction false} DerivedFinds(rows: seq<Row>, group: string, amounts: Amounts, ids: Ids, k: nat, i: nat)
    requires k < |amounts| && i < |rows| && rows[i].id == ids.reservation(group, amounts[k].0)
    requires DistinctIds(rows)
    ensures i in Derived(rows, group, amounts, ids)
  {
    if k > 0 {
      DerivedFinds(rows, group, amounts[1..], ids, k - 1, i);
    } else {
      IndexIs(rows, rows[i].id, |rows|, i);
    }
  }

  lemma {:induction false} IndexIs(rows: seq<Row>, id: string, n: nat, i: nat)
    requires i < n <= |rows| && rows[i].id == id && DistinctIds(rows)
    ensures IndexOf(rows, id, n) == i
  {
    if rows[n - 1].id != id { IndexIs(rows, id, n - 1, i); }
  }

  lemma {:induction false} DerivedOnly(rows: seq<Row>, group: string, amounts: Amounts, ids: Ids, i: nat)
    requires i in Derived(rows, group, amounts, ids)
    ensures i < |rows| && exists k :: 0 <= k < |amounts| && rows[i].id == ids.reservation(group, amounts[k].0)
  {
    var j := IndexOf(rows, ids.reservation(group, amounts[0].0), |rows|);
    if j < |rows| && i == j {
      assert rows[i].id == ids.reservation(group, amounts[0].0);
    } else {
      DerivedOnly(rows, group, amounts[1..], ids, i);
      var k :| 0 <= k < |amounts[1..]| && rows[i].id == ids.reservation(group, amounts[1..][k].0);
      assert amounts[k + 1] == amounts[1..][k];
    }
  }

  lemma {:induction false} NothingLinked(rows: seq<Row>, group: string, n: nat)
    requires n <= |rows| && forall i | 0 <= i < n :: !LinkedTo(rows[i], group)
    ensures Linked(rows, group, n) == []
  {
    if n > 0 { NothingLinked(rows, group, n - 1); }
  }

  /** With a link, the handle selects by link. */
  lemma {:induction false} LinkedHandle(held: seq<Row>, added: seq<Row>, group: string, amounts: Amounts, ids: Ids)
    requires forall k | 0 <= k < |added| :: LinkedTo(added[k], group)
    requires forall i | 0 <= i < |held| && LinkedTo(held[i], group) :: held[i].state.Settled?
    requires |added| == |amounts|
    ensures var picked := Picked(held + added, Group(group, amounts), ids);
      && (forall i: nat | |held| <= i < |held + added| :: i in picked)
      && (forall i | i in picked && i < |held| :: held[i].state.Settled?)
  {
    hide LinkedTo, Linked;
    var rows := held + added;
    var linked := Linked(rows, group, |rows|);
    if added == [] {
      assert amounts == [] && Derived(rows, group, amounts, ids) == [];
    } else {
      assert LinkedTo(rows[|held|], group) && |held| in linked;
    }
  }

  /** Without one, it selects by derived id. */
  lemma {:induction false} AnonymousHandle(held: seq<Row>, added: seq<Row>, group: string, amounts: Amounts, ids: Ids)
    requires DistinctIds(held + added) && |added| == |amounts|
    requires forall i | 0 <= i < |held| + |added| :: !LinkedTo((held + added)[i], group)
    requires forall k | 0 <= k < |added| :: added[k].id == ids.reservation(group, amounts[k].0)
    ensures var picked := Picked(held + added, Group(group, amounts), ids);
      && (forall i: nat | |held| <= i < |held + added| :: i in picked)
      && (forall i | i in picked :: i >= |held|)
  {
    hide LinkedTo, Linked, Derived;
    var rows := held + added;
    NothingLinked(rows, group, |rows|);
    forall i: nat | |held| <= i < |rows|
      ensures i in Derived(rows, group, amounts, ids)
    {
      DerivedFinds(rows, group, amounts, ids, i - |held|, i);
    }
    forall i | i in Derived(rows, group, amounts, ids)
      ensures i >= |held|
    {
      DerivedOnly(rows, group, amounts, ids, i);
      var k :| 0 <= k < |amounts| && rows[i].id == ids.reservation(group, amounts[k].0);
      assert rows[|held| + k].id == rows[i].id;
    }
  }

  /** The handle of a fresh reservation picks all of its rows and no other live one. */
  lemma {:induction false} HandlePicksItsRows(l: Ledger, group: string, amounts: Amounts, call: Option<string>,
      attempt: Option<string>, ids: Ids, rows: seq<Row>)
    requires rows == l.rows + NewRows(group, amounts, call, attempt, ids)
    requires DistinctIds(rows) && UnusedGroup(l, group, ids) && AnonymousOk(l, group, call, attempt)
    requires (attempt.Some? && attempt.value != "" ==> group == attempt.value)
      && ((attempt.None? || attempt.value == "") && call.Some? ==> group == call.value)
    ensures forall i: nat | |l.rows| <= i < |rows| :: i in Picked(rows, Group(group, amounts), ids)
    ensures forall i | i in Picked(rows, Group(group, amounts), ids) && i < |l.rows| :: rows[i].state.Settled?
  {
    hide Picked, DistinctIds;
    var added := NewRows(group, amounts, call, attempt, ids);
    if (attempt.Some? && attempt.value != "") || call.Some? {
      LinkedHandle(l.rows, added, group, amounts, ids);
    } else {
      AnonymousHandle(l.rows, added, group, amounts, ids);
    }
  }

  lemma {:induction false} ZeroRows(rows: seq<Row>, more: seq<Row>, r: string)
    requires forall k | 0 <= k < |more| :: more[k].state == Settled(0.0)
    ensures Held(rows + more, r) == Held(rows, r) && Spent(rows + more, r) == Spent(rows, r)
  {
    if more == [] {
      assert rows + more == rows;
    } else {
      var n := |more| - 1;
      ZeroRows(rows, more[..n], r);
      SumsAppend(rows + more[..n], more[n], r);
      assert rows + more == rows + more[..n] + [more[n]];
    }
  }

  /** Releasing a fresh reservation gives every account back exactly what it had. */
  lemma {:induction false} ReleaseUndoesReserve(l: Ledger, amounts: Amounts, call: Option<string>,
      attempt: Option<string>, ids: Ids)
    requires Consistent(l) && ReserveSpec(l, amounts, call, attempt, ids).Done?
    requires var group := GroupId(l, amounts, call, attempt, ids);
      UnusedGroup(l, group, ids) && AnonymousOk(l, group, call, attempt)
    ensures var l' := ReserveSpec(l, amounts, call, attempt, ids).ledger;
      && Consistent(l')
      && ResolveSpec(l', Group(GroupId(l, amounts, call, attempt, ids), amounts), Nothing, ids).ledger.accounts
           == l.accounts
  {
    var group := GroupId(l, amounts, call, attempt, ids);
    var l' := ReserveSpec(l, amounts, call, attempt, ids).ledger;
    ReserveAllConsistent(l, group, amounts, call, attempt, ids);
    ReservedRows(l, group, amounts, call, attempt, ids);
    ConsistentResolvable(l');
    HandlePicksItsRows(l, group, amounts, call, attempt, ids, l'.rows);
    ReleasedRows(l, l', NewRows(group, amounts, call, attempt, ids), Picked(l'.rows, Group(group, amounts), ids));
  }

  /** Releasing live new rows, and of the old ones at most settled rows, restores the accounts. */
  lemma {:induction false} ReleasedRows(l: Ledger, l': Ledger, added: seq<Row>, picked: seq<nat>)
    requires Consistent(l) && Consistent(l') && l'.rows == l.rows + added && l'.accounts.Keys == l.accounts.Keys
    requires forall r | r in l.accounts :: l'.accounts[r].cap == l.accounts[r].cap
    requires Resolvable(l', picked) && forall k | 0 <= k < |added| :: added[k].state.Reserved?
    requires forall i: nat | |l.rows| <= i < |l'.rows| :: i in picked
    requires forall i | i in picked && i < |l.rows| :: l'.rows[i].state.Settled?
    ensures ResolvePicked(l', picked, Nothing).ledger.accounts == l.accounts
  {
    hide Consistent, ResolvePicked, Held, Spent;
    var end := ResolvePicked(l', picked, Nothing).ledger;
    ResolveConsistent(l', picked, Nothing);
    var tail := end.rows[|l.rows|..];
    forall i: nat | i < |l'.rows|
      ensures if i < |l.rows| then end.rows[i] == l.rows[i] else end.rows[i].state == Settled(0.0)
    {
      RowsAfter(l', picked, Nothing, i);
      if i >= |l.rows| { assert l'.rows[i] == added[i - |l.rows|]; }
    }
    assert end.rows == l.rows + tail;
    CapsSurvive(l', picked, Nothing);
    forall r | r in l.accounts
      ensures end.accounts[r] == l.accounts[r]
    {
      ZeroRows(l.rows, tail, r);
      AccountIsSums(l, r);
      AccountIsSums(end, r);
    }
  }

  /** The rows a settled reservation leaves: each charged, none held. */
  ghost predicate Charged(added: seq<Row>, after: seq<Row>, charge: Charge) {
    |after| == |added| && forall k | 0 <= k < |added| ::
      after[k] == added[k].(state := Settled(charge.For(added[k].resource, added[k].amount)))
  }

  /** What the rows of one resource are charged. */
  ghost function ChargeOf(added: seq<Row>, charge: Charge, r: string): real {
    if added == [] then 0.0 else
      var (n, last) := (|added| - 1, added[|added| - 1]);
      ChargeOf(added[..n], charge, r) + if last.resource == r then charge.For(r, last.amount) else 0.0
  }

  lemma {:induction false} NoneCharged(added: seq<Row>, charge: Charge, r: string)
    requires forall k | 0 <= k < |added| :: added[k].resource != r
    ensures ChargeOf(added, charge, r) == 0.0
  {
    if added != [] { NoneCharged(added[..|added| - 1], charge, r); }
  }

  lemma {:induction false} OneCharged(added: seq<Row>, charge: Charge, r: string, k: nat)
    requires k < |added| && added[k].resource == r
    requires forall i, j | 0 <= i < j < |added| :: added[i].resource != added[j].resource
    ensures ChargeOf(added, charge, r) == charge.For(r, added[k].amount)
  {
    var n := |added| - 1;
    if k < n {
      OneCharged(added[..n], charge, r, k);
    } else {
      NoneCharged(added[..n], charge, r);
    }
  }

  lemma {:induction false} ChargedSums(rows: seq<Row>, added: seq<Row>, after: seq<Row>, charge: Charge, r: string)
    requires Charged(added, after, charge)
    ensures Held(rows + after, r) == Held(rows, r)
    ensures Spent(rows + after, r) == Spent(rows, r) + ChargeOf(added, charge, r)
  {
    if after == [] {
      assert rows + after == rows;
    } else {
      var n := |after| - 1;
      ChargedSums(rows, added[..n], after[..n], charge, r);
      LastCharged(rows + after[..n], added[n], after[n], charge, r);
      assert rows + after == rows + after[..n] + [after[n]];
    }
  }

  lemma {:induction false} LastCharged(rows: seq<Row>, row: Row, row': Row, charge: Charge, r: string)
    requires row' == row.(state := Settled(charge.For(row.resource, row.amount)))
    ensures Held(rows + [row'], r) == Held(rows, r)
    ensures Spent(rows + [row'], r) == Spent(rows, r)
      + if row.resource == r then charge.For(r, row.amount) else 0.0
  {
    hide Held, Spent;
    SumsAppend(rows, row', r);
  }

  lemma {:induction false} SettledAccounts(l: Ledger, l': Ledger, added: seq<Row>, picked: seq<nat>, charge: Charge,
      r: string)
    requires Consistent(l) && Consistent(l') && l'.rows == l.rows + added && r in l.accounts && r in l'.accounts
    requires Resolvable(l', picked) && forall k | 0 <= k < |added| :: added[k].state.Reserved?
    requires forall i: nat | |l.rows| <= i < |l'.rows| :: i in picked
    requires forall i | i in picked && i < |l.rows| :: l'.rows[i].state.Settled?
    ensures var end := ResolvePicked(l', picked, charge).ledger.accounts;
      && end[r].reserved == l.accounts[r].reserved
      && end[r].settled == l.accounts[r].settled + ChargeOf(added, charge, r)
  {
    hide Consistent, ResolvePicked, Held, Spent, Charge.For;
    var end := ResolvePicked(l', picked, charge).ledger;
    ResolveConsistent(l', picked, charge);
    var tail := end.rows[|l.rows|..];
    forall i: nat | i < |l'.rows|
      ensures end.rows[i] == if i < |l.rows| then l.rows[i]
        else l'.rows[i].(state := Settled(charge.For(l'.rows[i].resource, l'.rows[i].amount)))
    {
      RowsAfter(l', picked, charge, i);
      if i >= |l.rows| { assert l'.rows[i] == added[i - |l.rows|]; }
    }
    assert end.rows == l.rows + tail;
    assert Charged(added, tail, charge) by {
      assert forall k | 0 <= k < |added| :: l'.rows[|l.rows| + k] == added[k];
    }
    ChargedSums(l.rows, added, tail, charge, r);
    AccountIsSums(l, r);
    AccountIsSums(end, r);
  }

  /** A fresh reservation resolved under its own handle: nothing of it stays held, and each of its
      accounts has spent exactly what the resolution charges; no other account changes. */
  lemma {:induction false} ReserveThenResolve(l: Ledger, amounts: Amounts, call: Option<string>,
      attempt: Option<string>, charge: Charge, ids: Ids, r: string)
    requires Consistent(l) && OnePerResource(amounts) && ReserveSpec(l, amounts, call, attempt, ids).Done?
    requires var group := GroupId(l, amounts, call, attempt, ids);
      UnusedGroup(l, group, ids) && AnonymousOk(l, group, call, attempt)
    requires r in l.accounts
    ensures var l' := ReserveSpec(l, amounts, call, attempt, ids).ledger;
      var group := Group(GroupId(l, amounts, call, attempt, ids), amounts);
      && Consistent(l') && (forall i | 0 <= i < |l'.rows| :: l'.rows[i].resource in l'.accounts)
      && var (was, end) := (l.accounts[r], ResolveSpec(l', group, charge, ids).ledger.accounts);
      && r in end && end[r].reserved == was.reserved
      && (forall k | 0 <= k < |amounts| && amounts[k].0 == r ::
            match charge
            case WorstCase => end[r].settled == was.settled + amounts[k].1
            case Nothing => end[r].settled == was.settled
            case Actuals(usage) =>
              end[r].settled == was.settled + if r in usage && usage[r] >= 0.0 then usage[r] else 0.0)
      && ((forall k | 0 <= k < |amounts| :: amounts[k].0 != r) ==> end[r].settled == was.settled)
  {
    hide *;
    var group := GroupId(l, amounts, call, attempt, ids);
    var l' := FreshHandle(l, amounts, call, attempt, ids);
    var added := NewRows(group, amounts, call, attempt, ids);
    NewRowsAre(group, amounts, call, attempt, ids);
    SettledAccounts(l, l', added, Picked(l'.rows, Group(group, amounts), ids), charge, r);
    ResolveSpecIs(l', Group(group, amounts), charge, ids);
    AmountsOk(l');
    ChargeFor(charge, r);
    if k :| 0 <= k < |amounts| && amounts[k].0 == r {
      assert l'.rows[|l.rows| + k] == added[k];
      OneCharged(added, charge, r, k);
      assert forall j | 0 <= j < |amounts| && amounts[j].0 == r :: j == k;
    } else {
      NoneCharged(added, charge, r);
    }
  }

  lemma {:induction false} ChargeFor(charge: Charge, r: string)
    ensures match charge
      case WorstCase => forall amount: real | amount >= 0.0 :: charge.For(r, amount) == amount
      case Nothing => forall amount: real :: charge.For(r, amount) == 0.0
      case Actuals(usage) => forall amount: real ::
        charge.For(r, amount) == if r in usage && usage[r] >= 0.0 then usage[r] else 0.0
  {}

  lemma {:induction false} ResolveSpecIs(l: Ledger, group: Group, charge: Charge, ids: Ids)
    requires forall i | 0 <= i < |l.rows| :: l.rows[i].resource in l.accounts
    ensures Resolvable(l, Picked(l.rows, group, ids))
    ensures ResolveSpec(l, group, charge, ids) == ResolvePicked(l, Picked(l.rows, group, ids), charge)
  {}

  lemma {:induction false} NewRowsAre(group: string, amounts: Amounts, call: Option<string>, attempt: Option<string>,
      ids: Ids)
    ensures var rows := NewRows(group, amounts, call, attempt, ids);
      && (forall k | 0 <= k < |amounts| ::
            rows[k].resource == amounts[k].0 && rows[k].amount == amounts[k].1 && rows[k].state.Reserved?)
      && (OnePerResource(amounts) ==> forall j, k | 0 <= j < k < |rows| :: rows[j].resource != rows[k].resource)
  {}

  /** The ledger after a fresh reservation, and what its handle selects there. */
  lemma {:induction false} FreshHandle(l: Ledger, amounts: Amounts, call: Option<string>, attempt: Option<string>,
      ids: Ids) returns (l': Ledger)
    requires Consistent(l) && ReserveSpec(l, amounts, call, attempt, ids).Done?
    requires var group := GroupId(l, amounts, call, attempt, ids);
      UnusedGroup(l, group, ids) && AnonymousOk(l, group, call, attempt)
    ensures l' == ReserveSpec(l, amounts, call, attempt, ids).ledger && Consistent(l')
      && l'.accounts.Keys == l.accounts.Keys && forall i | 0 <= i < |l'.rows| :: l'.rows[i].resource in l'.accounts
    ensures var group := GroupId(l, amounts, call, attempt, ids);
      var picked := Picked(l'.rows, Group(group, amounts), ids);
      && l'.rows == l.rows + NewRows(group, amounts, call, attempt, ids) && Resolvable(l', picked)
      && (forall i: nat | |l.rows| <= i < |l'.rows| :: i in picked)
      && (forall i | i in picked && i < |l.rows| :: l'.rows[i].state.Settled?)
  {
    var group := GroupId(l, amounts, call, attempt, ids);
    l' := ReserveSpec(l, amounts, call, attempt, ids).ledger;
    ReserveAllConsistent(l, group, amounts, call, attempt, ids);
    ReservedRows(l, group, amounts, call, attempt, ids);
    ConsistentResolvable(l');
    hide ReserveAll, Picked;
    HandlePicksItsRows(l, group, amounts, call, attempt, ids, l'.rows);
  }

  lemma {:induction false} AccountIsSums(l: Ledger, r: string)
    requires Consistent(l) && r in l.accounts
    ensures l.accounts[r].reserved == Held(l.rows, r) && l.accounts[r].settled == Spent(l.rows, r)
  {}

  lemma {:induction false} CapsSurvive(l: Ledger, picked: seq<nat>, charge: Charge)
    requires Resolvable(l, picked)
    ensures forall r | r in l.accounts :: ResolvePicked(l, picked, charge).ledger.accounts[r].cap == l.accounts[r].cap
  {
    if picked != [] {
      PrefixResolvable(l, picked);
      CapsSurvive(l, picked[..|picked| - 1], charge);
    }
  }

  const OPENING: seq<Op> := [Ensure("usd", 10.0), Reserve([("usd", 5.0)], None, Some("g"))]

  /** A cap of ten and a first reservation of five. */
  lemma {:induction false} OpeningRun(ids: Ids)
    ensures var row := Row(ids.reservation("g", "usd"), "usd", 5.0, Reserved, None, Some("g"));
      Exec(OPENING, ids) == Ledger(map["usd" := Account(10.0, 5.0, 0.0)], [row], [])
  {
    RunStep([], OPENING[0], ids);
    RunStep([OPENING[0]], OPENING[1], ids);
    assert [] + [OPENING[0]] == [OPENING[0]] && [OPENING[0]] + [OPENING[1]] == OPENING;
    var one := Exec([OPENING[0]], ids);
    assert one == Ledger(map["usd" := Account(10.0, 0.0, 0.0)], [], []);
    var amounts: Amounts := [("usd", 5.0)];
    assert amounts[1..] == [];
    assert GroupId(one, amounts, None, Some("g"), ids) == "g";
  }

  const OVERRUN: Op := Resolve(Group("g", [("usd", 5.0)]), Actuals(map["usd" := 20.0]))

  /** Two runs that leave use above the cap: a reservation of five charged twenty, and a cap
      tightened to four while five are reserved. */
  lemma {:induction false} DocumentedInvariantFails(ids: Ids)
    ensures !WithinCap(Exec(OPENING + [OVERRUN], ids), "usd")
    ensures !WithinCap(Exec(OPENING + [Ensure("usd", 4.0)], ids), "usd")
  {
    OpeningRun(ids);
    RunStep(OPENING, OVERRUN, ids);
    RunStep(OPENING, Ensure("usd", 4.0), ids);
    hide Exec, Picked, Consistent, ResolvePicked, NetCharge;
    var l := Exec(OPENING, ids);
    EnsureKeepsCapIff(l, "usd", 4.0);
    OpeningOverrun(l.rows, ids);
    RunConserves(OPENING, ids, "usd");
    ResolveKeepsCapIff(l, OVERRUN.group, OVERRUN.charge, ids, "usd");
  }

  lemma {:induction false} OpeningOverrun(rows: seq<Row>, ids: Ids)
    requires |rows| == 1 && rows[0].resource == "usd" && rows[0].amount == 5.0 && rows[0].state.Reserved?
      && rows[0].attempt == Some("g")
    ensures NetCharge(rows, Picked(rows, OVERRUN.group, ids), OVERRUN.charge, "usd") == 15.0
  {
    OpeningPicked(rows, ids);
    assert rows[..0] == [];
  }

  lemma {:induction false} OpeningPicked(rows: seq<Row>, ids: Ids)
    requires |rows| == 1 && rows[0].attempt == Some("g")
    ensures Picked(rows, Group("g", [("usd", 5.0)]), ids) == [0]
  {
    assert Linked(rows, "g", 0) == [] && LinkedTo(rows[0], "g");
  }

  lemma {:induction false} RunStep(ops: seq<Op>, op: Op, ids: Ids)
    ensures Exec(ops + [op], ids) == Apply(Exec(ops, ids), op, ids).ledger
  {
    assert (ops + [op])[..|ops|] == ops;
  }
}
