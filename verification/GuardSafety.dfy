/** Allowances kept by every run of the durable Max Guard in pause mode, and conservation of its
    token counters. */
module GuardSafety {
  import opened Bytes
  import opened GuardLedger

  // ----- sums -----

  lemma {:induction false} TotalOfUpdate(rs: seq<Reservation>, w: Reservation -> int, i: nat, r: Reservation)
    requires i < |rs|
    ensures Total(rs[i := r], w) == Total(rs, w) - w(rs[i]) + w(r)
  {
    var n := |rs| - 1;
    if i == n {
      assert rs[i := r][..n] == rs[..n];
    } else {
      assert rs[i := r][..n] == rs[..n][i := r];
      TotalOfUpdate(rs[..n], w, i, r);
    }
  }

  lemma TotalOfAppend(rs: seq<Reservation>, w: Reservation -> int, r: Reservation)
    ensures Total(rs + [r], w) == Total(rs, w) + w(r)
  {
    assert (rs + [r])[..|rs|] == rs;
  }

  lemma {:induction false} TotalMonotone(rs: seq<Reservation>, v: Reservation -> int, w: Reservation -> int)
    requires forall r :: r in rs ==> v(r) <= w(r)
    ensures Total(rs, v) <= Total(rs, w)
  {
    if rs != [] {
      TotalMonotone(rs[..|rs| - 1], v, w);
      assert rs[|rs| - 1] in rs;
    }
  }

  lemma {:induction false} TotalAdds(rs: seq<Reservation>, u: Reservation -> int, v: Reservation -> int,
                                     w: Reservation -> int)
    requires forall r :: r in rs ==> w(r) == u(r) + v(r)
    ensures Total(rs, w) == Total(rs, u) + Total(rs, v)
  {
    if rs != [] {
      TotalAdds(rs[..|rs| - 1], u, v, w);
      assert rs[|rs| - 1] in rs;
    }
  }

  // ----- conservation -----

  // What a reconciled reservation of a session adds to each of its counters.
  datatype Counter = Fresh | CacheRead | CacheWrite | Output | Requests

  function CounterOf(session: Session, c: Counter): int {
    match c
    case Fresh => session.freshTokens
    case CacheRead => session.cacheRead
    case CacheWrite => session.cacheWrite
    case Output => session.output
    case Requests => session.requests
  }

  function Share(u: Usage, c: Counter): int {
    match c
    case Fresh => u.freshTokens
    case CacheRead => u.cacheRead
    case CacheWrite => u.cacheWrite
    case Output => u.output
    case Requests => 1
  }

  function ReconciledShare(identity: string, c: Counter): Reservation -> int {
    (r: Reservation) => if r.identity == identity && r.actual.Some? then Share(r.actual.value, c) else 0
  }

  // Every counter of every session is the sum over its reconciled reservations, and every
  // reservation belongs to a known session.
  ghost predicate Conserved(s: Ledger) {
    && (forall i :: 0 <= i < |s.reservations| ==> s.reservations[i].identity in s.sessions)
    && (forall id, c :: id in s.sessions ==>
      CounterOf(s.sessions[id], c) == Total(s.reservations, ReconciledShare(id, c)))
  }

  lemma {:induction false} NoReservationsNoTotal(rs: seq<Reservation>, identity: string, c: Counter)
    requires forall i :: 0 <= i < |rs| ==> rs[i].identity != identity
    ensures Total(rs, ReconciledShare(identity, c)) == 0
  {
    if rs != [] {
      NoReservationsNoTotal(rs[..|rs| - 1], identity, c);
    }
  }

  lemma ReserveConserves(policy: Policy, s: Ledger, identity: string, project: Option<string>, estimate: nat, now: int)
    requires Conserved(s)
    ensures Conserved(Reserve(policy, s, identity, project, estimate, now).0)
  {
    hide Requested, UseOverride;
    var t := Reserve(policy, s, identity, project, estimate, now).0;
    forall id, c | id in t.sessions
      ensures CounterOf(t.sessions[id], c) == Total(t.reservations, ReconciledShare(id, c))
    {
      if id !in s.sessions {
        NoReservationsNoTotal(s.reservations, id, c);
      }
      if t.reservations != s.reservations {
        TotalOfAppend(s.reservations, ReconciledShare(id, c), Reservation(identity, project, estimate, None, now));
      }
    }
  }

  lemma ReconcileConserves(s: Ledger, i: nat, reported: Reported)
    requires Conserved(s)
    ensures Conserved(Reconcile(s, i, reported))
  {
    var t := Reconcile(s, i, reported);
    if t != s {
      var r := t.reservations[i];
      forall id, c | id in t.sessions
        ensures CounterOf(t.sessions[id], c) == Total(t.reservations, ReconciledShare(id, c))
      {
        TotalOfUpdate(s.reservations, ReconciledShare(id, c), i, r);
      }
    }
  }

  // A second reconciliation of the same reservation changes nothing.
  lemma ReconcileOnce(s: Ledger, i: nat, first: Reported, second: Reported)
    ensures Reconcile(Reconcile(s, i, first), i, second) == Reconcile(s, i, first)
  {
  }

  // ----- allowances -----

  // A set of reservations an allowance is about; a window holds creation times in (from, from+width].
  datatype Scope =
    | InSession(identity: string)
    | InProjectHour(project: string, from: int)
    | InLaneFiveHours(from: int)
    | InLaneWeek(from: int)

  predicate Covers(scope: Scope, r: Reservation) {
    match scope
    case InSession(identity) => r.identity == identity
    case InProjectHour(project, from) => r.project == Some(project) && from < r.createdAt <= from + HOUR
    case InLaneFiveHours(from) => from < r.createdAt <= from + FIVE_HOURS
    case InLaneWeek(from) => from < r.createdAt <= from + WEEK
  }

  function Allowance(policy: Policy, scope: Scope): int {
    match scope
    case InSession(_) => policy.pauseFresh
    case InProjectHour(_, _) => policy.projectHour
    case InLaneFiveHours(_) => policy.laneFiveHour
    case InLaneWeek(_) => policy.laneWeek
  }

  function ChargeIn(scope: Scope, t: int): Reservation -> int {
    (r: Reservation) => if Covers(scope, r) then Charge(r, t) else 0
  }

  // Reported tokens plus live estimates of everything a scope covers.
  function Exposure(rs: seq<Reservation>, scope: Scope, clock: int): int {
    Total(rs, ChargeIn(scope, clock))
  }

  // Reported tokens alone.
  function Spent(rs: seq<Reservation>, scope: Scope): int {
    Total(rs, (r: Reservation) => if Covers(scope, r) && r.actual.Some? then r.actual.value.freshTokens else 0)
  }

  datatype World = World(clock: int, ledger: Ledger)

  ghost predicate WithinAllowances(policy: Policy, extra: nat, w: World) {
    forall scope :: Exposure(w.ledger.reservations, scope, w.clock) < Allowance(policy, scope) + extra
  }

  ghost predicate ExtraBounded(extra: nat, s: Ledger) {
    forall i :: 0 <= i < |s.overrides| ==> s.overrides[i].extra <= extra
  }

  // The sum a reservation is checked against, for a scope that will cover it.
  function Checked(s: Ledger, scope: Scope, project: Option<string>, identity: string, now: int): int {
    match scope
    case InSession(_) => SessionOf(s, identity).freshTokens + ActiveReserved(s.reservations, identity, now)
    case InProjectHour(_, _) => ProjectWindow(s.reservations, project, now)
    case InLaneFiveHours(_) => LaneWindow(s.reservations, FIVE_HOURS, now)
    case InLaneWeek(_) => LaneWindow(s.reservations, WEEK, now)
  }

  lemma SessionChecked(s: Ledger, identity: string, now: int)
    requires Conserved(s)
    ensures Exposure(s.reservations, InSession(identity), now)
         == SessionOf(s, identity).freshTokens + ActiveReserved(s.reservations, identity, now)
  {
    var rs := s.reservations;
    var live := (r: Reservation) =>
      if r.identity == identity && r.actual.None? && r.createdAt > now - LIVE then r.estimate else 0;
    TotalAdds(rs, ReconciledShare(identity, Fresh), live, ChargeIn(InSession(identity), now));
    if identity !in s.sessions {
      NoReservationsNoTotal(rs, identity, Fresh);
    } else {
      assert CounterOf(s.sessions[identity], Fresh) == Total(rs, ReconciledShare(identity, Fresh));
    }
    assert ActiveReserved(rs, identity, now) == Total(rs, live);
  }

  // What is checked at `now` is at least the exposure at any later clock of every scope that the
  // new reservation falls into.
  lemma CheckedCoversExposure(s: Ledger, scope: Scope, identity: string, project: Option<string>, estimate: nat,
                              now: int, clock: int)
    requires Conserved(s) && now <= clock
    requires Covers(scope, Reservation(identity, project, estimate, None, now))
    ensures Exposure(s.reservations, scope, clock) <= Checked(s, scope, project, identity, now)
  {
    var rs := s.reservations;
    var counted: Reservation -> int;
    match scope {
      case InSession(_) =>
        SessionChecked(s, identity, now);
        TotalMonotone(rs, ChargeIn(scope, clock), ChargeIn(scope, now));
      case InProjectHour(_, from) =>
        counted := (r: Reservation) =>
          if project.Some? && r.project == project && r.createdAt > now - HOUR then Charge(r, now) else 0;
        TotalMonotone(rs, ChargeIn(scope, clock), counted);
        assert ProjectWindow(rs, project, now) == Total(rs, counted);
      case InLaneFiveHours(from) =>
        counted := (r: Reservation) => if r.createdAt > now - FIVE_HOURS then Charge(r, now) else 0;
        TotalMonotone(rs, ChargeIn(scope, clock), counted);
        assert LaneWindow(rs, FIVE_HOURS, now) == Total(rs, counted);
      case InLaneWeek(from) =>
        counted := (r: Reservation) => if r.createdAt > now - WEEK then Charge(r, now) else 0;
        TotalMonotone(rs, ChargeIn(scope, clock), counted);
        assert LaneWindow(rs, WEEK, now) == Total(rs, counted);
    }
  }
}
