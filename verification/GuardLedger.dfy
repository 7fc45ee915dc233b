/** The durable Max Guard: reservations against session, project and lane allowances, and their
    reconciliation with provider-reported usage. Times are seconds. */
module GuardLedger {
  import opened Bytes

  datatype Mode = Observe | Warn | Pause

  datatype Policy = Policy(
    mode: Mode, warnFresh: int, pauseFresh: int, warnRequest: int, pauseRequest: int,
    uncachedWarnCalls: int, uncachedPauseCalls: int, uncachedMinTokens: int,
    projectHour: int, laneFiveHour: int, laneWeek: int)

  const LIVE := 15 * 60
  const HOUR := 60 * 60
  const FIVE_HOURS := 5 * HOUR
  const WEEK := 7 * 24 * HOUR

  datatype Usage = Usage(freshTokens: nat, cacheRead: nat, cacheWrite: nat, output: nat)

  datatype Session = Session(
    freshTokens: int, cacheRead: int, cacheWrite: int, output: int, requests: int, paused: bool, reason: Option<string>)

  // A row of max_guard_reservations; `actual` is None while the row is 'reserved'.
  datatype Reservation = Reservation(
    identity: string, project: Option<string>, estimate: nat, actual: Option<Usage>, createdAt: int)

  datatype Override = Override(identity: string, extra: int, remaining: Option<int>, createdAt: int, expiresAt: int)

  // The tables; a reservation's id is its index.
  datatype Ledger = Ledger(sessions: map<string, Session>, reservations: seq<Reservation>, overrides: seq<Override>)

  const EMPTY := Ledger(map[], [], [])

  // ----- sums over reservations -----

  function Total(rs: seq<Reservation>, weight: Reservation -> int): int {
    if rs == [] then 0 else Total(rs[..|rs| - 1], weight) + weight(rs[|rs| - 1])
  }

  // What a reservation counts for at time t: its reported tokens once reconciled, else its
  // estimate for fifteen minutes.
  function Charge(r: Reservation, t: int): int {
    if r.actual.Some? then r.actual.value.freshTokens
    else if r.createdAt > t - LIVE then r.estimate
    else 0
  }

  // SUM(estimated_fresh_tokens) of the session's live reservations
  function ActiveReserved(rs: seq<Reservation>, identity: string, now: int): int {
    Total(rs, (r: Reservation) =>
      if r.identity == identity && r.actual.None? && r.createdAt > now - LIVE then r.estimate else 0)
  }

  // A project's rolling window; project_id = NULL matches no row.
  function ProjectWindow(rs: seq<Reservation>, project: Option<string>, now: int): int {
    Total(rs, (r: Reservation) =>
      if project.Some? && r.project == project && r.createdAt > now - HOUR then Charge(r, now) else 0)
  }

  function LaneWindow(rs: seq<Reservation>, width: int, now: int): int {
    Total(rs, (r: Reservation) => if r.createdAt > now - width then Charge(r, now) else 0)
  }

  // ----- reserve -----

  predicate Applies(o: Override, identity: string, now: int) {
    o.identity == identity && o.expiresAt > now && (o.remaining.None? || o.remaining.value > 0)
  }

  // The applicable override created first.
  function FindOverride(os: seq<Override>, identity: string, now: int): (r: Option<nat>)
    ensures r.Some? ==> r.value < |os| && Applies(os[r.value], identity, now)
    ensures r.None? ==> forall i :: 0 <= i < |os| ==> !Applies(os[i], identity, now)
    ensures r.Some? ==> forall i :: 0 <= i < |os| && Applies(os[i], identity, now) ==>
      os[r.value].createdAt <= os[i].createdAt
  {
    if os == [] then None
    else
      var n := |os| - 1;
      var rest := FindOverride(os[..n], identity, now);
      if Applies(os[n], identity, now) && (rest.None? || os[rest.value].createdAt > os[n].createdAt) then Some(n)
      else rest
  }

  datatype Action = Proceed | WarnOnly | Stop

  datatype Reason =
    | Within | SessionPaused(text: Option<string>) | RequestTooLarge | SessionAllowance | ProjectHourAllowance
    | LaneFiveHourAllowance | LaneWeekAllowance | FreshTokenWarning

  datatype Decision = Decision(action: Action, reason: Reason, freshTokens: int, estimate: int, requests: int)

  function NewSession(): Session {
    Session(0, 0, 0, 0, 0, false, None)
  }

  function SessionOf(s: Ledger, identity: string): Session {
    if identity in s.sessions then s.sessions[identity] else NewSession()
  }

  function Requested(policy: Policy, s: Ledger, identity: string, project: Option<string>, estimate: nat,
                     now: int): (Action, Reason) {
    var session, override := SessionOf(s, identity), FindOverride(s.overrides, identity, now);
    var extra := if override.Some? then s.overrides[override.value].extra else 0;
    var projected := session.freshTokens + ActiveReserved(s.reservations, identity, now) + estimate;
    if session.paused && override.None? then (Stop, SessionPaused(session.reason))
    else if estimate >= policy.pauseRequest + extra then (Stop, RequestTooLarge)
    else if projected >= policy.pauseFresh + extra then (Stop, SessionAllowance)
    else if ProjectWindow(s.reservations, project, now) + estimate >= policy.projectHour + extra
      then (Stop, ProjectHourAllowance)
    else if LaneWindow(s.reservations, FIVE_HOURS, now) + estimate >= policy.laneFiveHour + extra
      then (Stop, LaneFiveHourAllowance)
    else if LaneWindow(s.reservations, WEEK, now) + estimate >= policy.laneWeek + extra then (Stop, LaneWeekAllowance)
    else if projected >= policy.warnFresh || estimate >= policy.warnRequest then (WarnOnly, FreshTokenWarning)
    else (Proceed, Within)
  }

  function Effective(mode: Mode, requested: Action): Action {
    match mode
    case Observe => Proceed
    case Warn => if requested == Stop then WarnOnly else requested
    case Pause => requested
  }

  // The text kept as pause_reason.
  function ReasonText(reason: Reason): string {
    match reason
    case Within => "within_configured_allowance"
    case SessionPaused(text) => if text.Some? && text.value != "" then text.value else "session_paused"
    case RequestTooLarge => "estimated_request_tokens"
    case SessionAllowance => "session_fresh_token_allowance"
    case ProjectHourAllowance => "project_rolling_hour_allowance"
    case LaneFiveHourAllowance => "lane_rolling_five_hour_allowance"
    case LaneWeekAllowance => "lane_rolling_week_allowance"
    case FreshTokenWarning => "fresh_token_warning"
  }

  function UseOverride(os: seq<Override>, used: Option<nat>): seq<Override>
    requires used.Some? ==> used.value < |os|
  {
    if used.Some? && os[used.value].remaining.Some? then
      os[used.value := os[used.value].(remaining := Some(os[used.value].remaining.value - 1))]
    else os
  }

  // reserve_durable as one serialised transaction; `now` is the transaction's start time.
  function Reserve(policy: Policy, s: Ledger, identity: string, project: Option<string>, estimate: nat, now: int)
      : (Ledger, Decision, Option<nat>) {
    var session := SessionOf(s, identity);
    var (requested, reason) := Requested(policy, s, identity, project, estimate, now);
    var action := Effective(policy.mode, requested);
    var decision := Decision(action, reason, session.freshTokens, estimate, session.requests);
    if action == Stop then
      (s.(sessions := s.sessions[identity := session.(paused := true, reason := Some(ReasonText(reason)))]),
       decision, None)
    else
      (Ledger(s.sessions[identity := session],
              s.reservations + [Reservation(identity, project, estimate, None, now)],
              UseOverride(s.overrides, FindOverride(s.overrides, identity, now))),
       decision, Some(|s.reservations|))
  }

  // ----- reconcile, pause, authorize -----

  // max(0, int(x or 0))
  function Clean(x: Option<int>): nat {
    if x.Some? && x.value > 0 then x.value else 0
  }

  datatype Reported =
    Reported(freshTokens: Option<int>, cacheRead: Option<int>, cacheWrite: Option<int>, output: Option<int>)

  function UsageOf(reported: Reported): Usage {
    Usage(Clean(reported.freshTokens), Clean(reported.cacheRead), Clean(reported.cacheWrite), Clean(reported.output))
  }

  function AddUsage(session: Session, u: Usage): Session {
    session.(freshTokens := session.freshTokens + u.freshTokens, cacheRead := session.cacheRead + u.cacheRead,
             cacheWrite := session.cacheWrite + u.cacheWrite, output := session.output + u.output,
             requests := session.requests + 1)
  }

  function Reconcile(s: Ledger, id: nat, reported: Reported): Ledger {
    if id >= |s.reservations| || s.reservations[id].actual.Some? then s
    else
      var r, u := s.reservations[id], UsageOf(reported);
      s.(reservations := s.reservations[id := r.(actual := Some(u))],
         sessions := if r.identity !in s.sessions then s.sessions
                     else s.sessions[r.identity := AddUsage(s.sessions[r.identity], u)])
  }

  function SetPause(s: Ledger, identity: string, paused: bool, reason: string): Ledger {
    if identity !in s.sessions then s
    else
      var why := if reason == "" then "operator_pause" else reason;
      s.(sessions := s.sessions[identity :=
        s.sessions[identity].(paused := paused, reason := if paused then Some(why) else None)])
  }

  function Bounded(x: int, lo: int, hi: int): int {
    if x > hi then hi else if x < lo then lo else x
  }

  // The foreign key refuses an unknown identity and the check a negative remaining count.
  function Authorize(s: Ledger, identity: string, extra: int, remaining: Option<int>, ttl: int, now: int): Ledger {
    if identity !in s.sessions || (remaining.Some? && remaining.value < 0) then s
    else
      s.(overrides :=
           s.overrides + [Override(identity, if extra < 0 then 0 else extra, remaining, now,
                                   now + Bounded(ttl, 60, 86400))])
  }
}
