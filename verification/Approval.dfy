/** The approval store and its crash points (src/shapeflow/protocol.py:290-449). A single writer;
    a crash may fall between any two writes, or inside the one write that is not atomic. */
module Approval {
  import opened Options

  /** What a call approves: the binding digest and the commit of the live configuration. */
  datatype Config = Config(digest: string, commit: string)

  datatype Body = Body(config: Config, approvedAt: string, sequence: nat)

  /** `{sequence:04d}-{digest[:12]}.json` */
  datatype Name = Name(sequence: nat, prefix: string)

  /** A history file: complete, or left half-written by a crash. */
  datatype Link = Torn | Whole(body: Body)

  datatype Entry = Entry(sequence: nat, file: Name, config: Config, approvedAt: string)

  datatype Store = Store(links: map<Name, Link>, index: seq<Entry>, current: Option<Body>)

  /** Where a call dies: between two writes, or in the middle of creating the link. */
  datatype Crash = NoCrash | BeforeLink | InsideLink | AfterLink | AfterIndex

  datatype Result = Recorded | Crashed | Refused

  function NameOf(sequence: nat, config: Config): Name {
    Name(sequence, if |config.digest| <= 12 then config.digest else config.digest[..12])
  }

  // ------------------------------------------------------------ specification

  /** _write_new: create the link, or accept an identical one. */
  function WriteNew(links: map<Name, Link>, name: Name, body: Body): Option<map<Name, Link>> {
    if name !in links then Some(links[name := Whole(body)])
    else if links[name] == Whole(body) then Some(links)
    else None
  }

  function AlreadyLatest(s: Store, c: Config): bool {
    s.index != [] && s.index[|s.index| - 1].config.digest == c.digest
  }

  /** write_approval_file, up to its crash point. */
  function Write(s: Store, c: Config, approvedAt: string, crash: Crash): (Store, Result) {
    if AlreadyLatest(s, c) then
      var last := s.index[|s.index| - 1];
      if last.file !in s.links || s.links[last.file].Torn? || s.links[last.file].body.config.digest != c.digest
      then (s, Refused)
      else if !crash.NoCrash? then (s, Crashed)
      else (s.(current := Some(s.links[last.file].body)), Recorded)
    else
      var n := |s.index| + 1;
      var body, name := Body(c, approvedAt, n), NameOf(n, c);
      if crash.BeforeLink? then (s, Crashed)
      else if crash.InsideLink? && name !in s.links then (s.(links := s.links[name := Torn]), Crashed)
      else
        var links := WriteNew(s.links, name, body);
        if links.None? then (s, Refused)
        else if crash.InsideLink? || crash.AfterLink? then (s.(links := links.value), Crashed)
        else
          var index := s.index + [Entry(n, name, c, approvedAt)];
          if crash.AfterIndex? then (Store(links.value, index, s.current), Crashed)
          else (Store(links.value, index, Some(body)), Recorded)
  }

  // ---------------------------------------------------------------- invariant

  /** Entry k of the index names an existing link that carries exactly what the entry records. */
  ghost predicate EntryOk(s: Store, k: nat)
    requires k < |s.index|
  {
    var e := s.index[k];
    && e.sequence == k + 1 && e.file == NameOf(k + 1, e.config)
    && e.file in s.links && s.links[e.file] == Whole(Body(e.config, e.approvedAt, k + 1))
  }

  /** The current pointer is the body of some indexed link. */
  ghost predicate CurrentOk(s: Store) {
    s.current.Some? ==>
      exists k :: 0 <= k < |s.index| && s.current.value == Body(s.index[k].config, s.index[k].approvedAt, k + 1)
  }

  ghost predicate Valid(s: Store) {
    && (forall k | 0 <= k < |s.index| :: EntryOk(s, k))
    && (forall k | 0 < k < |s.index| :: s.index[k - 1].config.digest != s.index[k].config.digest)
    && CurrentOk(s)
  }

  /** Nothing already recorded is lost or altered, on the way from s to s'. */
  ghost predicate Extends(s: Store, s': Store) {
    && s.index <= s'.index
    && (forall name | name in s.links :: name in s'.links && s'.links[name] == s.links[name])
    && (s.current.Some? ==> s'.current.Some?)
  }

  lemma {:induction false} WriteKeeps(s: Store, c: Config, approvedAt: string, crash: Crash)
    requires Valid(s)
    ensures var (s', r) := Write(s, c, approvedAt, crash);
      && Valid(s') && Extends(s, s') && |s'.index| <= |s.index| + 1
      && (r.Refused? ==> s' == s)
      && (r.Recorded? ==>
            && s'.index != [] && s'.index[|s'.index| - 1].config.digest == c.digest
            && s'.current == Some(s'.links[s'.index[|s'.index| - 1].file].body))
  {
    var (s', r) := Write(s, c, approvedAt, crash);
    var n := |s.index|;
    if AlreadyLatest(s, c) {
      assert EntryOk(s, n - 1);
      if r.Recorded? {
        assert s'.current.value == Body(s'.index[n - 1].config, s'.index[n - 1].approvedAt, n - 1 + 1);
        forall k | 0 <= k < n ensures EntryOk(s', k) { assert EntryOk(s, k); }
      }
    } else {
      assert Extends(s, s');
      if s'.index != s.index {
        assert s'.index[n] == Entry(n + 1, NameOf(n + 1, c), c, approvedAt);
        assert EntryOk(s', n);
      }
      ExtendsKeeps(s, s');
    }
  }

  /** A store that extends a valid one by at most one sound entry of another configuration, and
      points where it did or at that entry, is valid. */
  lemma {:induction false} ExtendsKeeps(s: Store, s': Store)
    requires Valid(s) && Extends(s, s') && |s'.index| <= |s.index| + 1
    requires s'.index != s.index ==>
      && EntryOk(s', |s.index|)
      && (s.index != [] ==> s.index[|s.index| - 1].config.digest != s'.index[|s.index|].config.digest)
    requires s'.current == s.current || (s'.index != s.index && var e := s'.index[|s.index|];
      s'.current == Some(Body(e.config, e.approvedAt, |s.index| + 1)))
    ensures Valid(s')
  {
    forall k | 0 <= k < |s'.index| ensures EntryOk(s', k) {
      if k < |s.index| { assert EntryOk(s, k); }
    }
    if s'.current == s.current && s.current.Some? {
      var k :| 0 <= k < |s.index| && s.current.value == Body(s.index[k].config, s.index[k].approvedAt, k + 1);
      assert s'.index[k] == s.index[k];
    }
  }

  /** The place of a link: its number, and the first twelve characters of the digest, or all of a
      shorter one. */
  lemma {:induction false} PlaceOf(n: nat, c: Config)
    ensures var name := NameOf(n, c);
      && name.sequence == n && name.prefix <= c.digest && (|name.prefix| == 12 || name.prefix == c.digest)
      && |name.prefix| <= 12
  {}

  /** The order of the writes, for a configuration that is not the latest and whose place is free:
      link, index entry, pointer. A crash leaves exactly the writes before it, the one inside the
      link a torn link; every write carries this call's configuration, time and number. */
  lemma {:induction false} WritesInOrder(s: Store, c: Config, approvedAt: string, crash: Crash)
    requires s.index == [] || s.index[|s.index| - 1].config.digest != c.digest
    requires NameOf(|s.index| + 1, c) !in s.links
    ensures var (s', r) := Write(s, c, approvedAt, crash);
      var n := |s.index| + 1;
      var (name, body) := (NameOf(n, c), Body(c, approvedAt, n));
      && s'.links == (match crash
           case BeforeLink => s.links
           case InsideLink => s.links[name := Torn]
           case _ => s.links[name := Whole(body)])
      && s'.index == (if crash.AfterIndex? || crash.NoCrash? then s.index + [Entry(n, name, c, approvedAt)]
                      else s.index)
      && s'.current == (if crash.NoCrash? then Some(body) else s.current)
      && r == (if crash.NoCrash? then Recorded else Crashed)
  {}

  /** Approving the latest configuration again only moves the pointer back to its link. */
  lemma {:induction false} LatestAgain(s: Store, c: Config, approvedAt: string, crash: Crash)
    requires Valid(s) && s.index != [] && s.index[|s.index| - 1].config.digest == c.digest
    ensures var (s', r) := Write(s, c, approvedAt, crash);
      var last := s.index[|s.index| - 1];
      && s'.links == s.links && s'.index == s.index && r == (if crash.NoCrash? then Recorded else Crashed)
      && s'.current == (if crash.NoCrash? then Some(Body(last.config, last.approvedAt, |s.index|)) else s.current)
  {
    assert EntryOk(s, |s.index| - 1);
  }

  // -------------------------------------------------------------------- runs

  datatype Call = Call(config: Config, approvedAt: string, crash: Crash)

  const EMPTY := Store(map[], [], None)

  ghost function Exec(calls: seq<Call>): Store {
    if calls == [] then EMPTY else
      var c := calls[|calls| - 1];
      Write(Exec(calls[..|calls| - 1]), c.config, c.approvedAt, c.crash).0
  }

  /** Whatever calls are made and wherever they crash, the store is valid, and every earlier state
      of the run survives inside every later one: the index only grows by appending, and no link
      ever changes. */
  lemma {:induction false} RunKeepsHistory(calls: seq<Call>, m: nat)
    requires m <= |calls|
    ensures Valid(Exec(calls)) && Valid(Exec(calls[..m])) && Extends(Exec(calls[..m]), Exec(calls))
  {
    assert Valid(EMPTY);
    hide Write, Valid;
    if m == |calls| {
      assert calls[..m] == calls;
      if calls != [] {
        RunKeepsHistory(calls[..m - 1], m - 1);
        WriteKeeps(Exec(calls[..m - 1]), calls[m - 1].config, calls[m - 1].approvedAt, calls[m - 1].crash);
      }
    } else {
      var n := |calls| - 1;
      RunKeepsHistory(calls[..n], m);
      assert calls[..n][..m] == calls[..m];
      WriteKeeps(Exec(calls[..n]), calls[n].config, calls[n].approvedAt, calls[n].crash);
    }
  }

  /** An uninterrupted call is refused exactly when a link an earlier call left behind, unindexed,
      holds its place with something else. */
  lemma {:induction false} RefusedIff(s: Store, c: Config, approvedAt: string)
    requires Valid(s)
    ensures var (s', r) := Write(s, c, approvedAt, NoCrash);
      var name := NameOf(|s.index| + 1, c);
      r.Refused? <==>
        !AlreadyLatest(s, c) && name in s.links && s.links[name] != Whole(Body(c, approvedAt, |s.index| + 1))
  {
    if AlreadyLatest(s, c) {
      assert EntryOk(s, |s.index| - 1);
    }
  }

  /** After a crash between the link and the index, the same call at the same time of approval
      completes, and the same configuration at another time is refused. */
  lemma {:induction false} RetryAfterOrphanedLink(s: Store, c: Config, approvedAt: string, again: string)
    requires Valid(s) && !AlreadyLatest(s, c) && NameOf(|s.index| + 1, c) !in s.links
    ensures var orphaned := Write(s, c, approvedAt, AfterLink).0;
      && Write(orphaned, c, again, NoCrash).1 == (if again == approvedAt then Recorded else Refused)
      && (again == approvedAt ==> Write(orphaned, c, again, NoCrash).0 == Write(s, c, approvedAt, NoCrash).0)
  {}

  // ------------------------------------------------------------ the program

  class ApprovalStore {
    var links: map<Name, Link>
    var index: seq<Entry>
    var current: Option<Body>

    function State(): Store
      reads this
    {
      Store(links, index, current)
    }

    constructor ()
      ensures State() == EMPTY && Valid(State())
    {
      links, index, current := map[], [], None;
    }

    /** _write_new, which a crash can leave half done. */
    method CreateLink(name: Name, body: Body, dies: bool) returns (ok: bool)
      modifies this`links
      ensures if dies && name !in old(links) then ok && links == old(links)[name := Torn]
        else
          && ok == WriteNew(old(links), name, body).Some?
          && links == (if ok then WriteNew(old(links), name, body).value else old(links))
    {
      if name !in links {
        links := links[name := if dies then Torn else Whole(body)];
        return true;
      }
      return links[name] == Whole(body);
    }

    /** write_approval_file */
    method WriteApproval(c: Config, approvedAt: string, crash: Crash) returns (r: Result)
      requires Valid(State())
      modifies this
      ensures (State(), r) == Write(old(State()), c, approvedAt, crash)
      ensures Valid(State()) && Extends(old(State()), State())
    {
      WriteKeeps(State(), c, approvedAt, crash);
      if index != [] && index[|index| - 1].config.digest == c.digest {
        var last := index[|index| - 1];
        if last.file !in links || links[last.file].Torn? || links[last.file].body.config.digest != c.digest {
          return Refused;
        }
        if !crash.NoCrash? {
          return Crashed;
        }
        current := Some(links[last.file].body);
        return Recorded;
      }
      if crash.BeforeLink? {
        return Crashed;
      }
      var sequence := |index| + 1;
      var body, name := Body(c, approvedAt, sequence), NameOf(sequence, c);
      var unfinished := crash.InsideLink? && name !in links;
      var ok := CreateLink(name, body, unfinished);
      if unfinished {
        return Crashed;
      }
      if !ok {
        return Refused;
      }
      if crash.InsideLink? || crash.AfterLink? {
        return Crashed;
      }
      index := index + [Entry(sequence, name, c, approvedAt)];
      if crash.AfterIndex? {
        return Crashed;
      }
      current := Some(body);
      return Recorded;
    }
  }
}
