/** Exactly when Max Guard grants, refuses and warns, with the sums and limits written out. */
module GuardVerdicts {
  import opened Bytes
  import opened GuardLedger
  import opened GuardSafety
  import opened GuardReports
  import Memory = GuardMemory

  // ----- the sums, from the first reservation on -----

  // What a reservation weighs: its report, or its estimate for 900 seconds.
  function Weight(r: Reservation, now: int): int {
    match r.actual
    case Some(u) => u.freshTokens
    case None => if now - r.createdAt < 900 then r.estimate else 0
  }

  datatype Window = OfSession(identity: string) | OfProject(project: string) | OfLane(seconds: int)

  predicate In(window: Window, r: Reservation, now: int) {
    match window
    case OfSession(identity) => r.identity == identity && r.actual.None?
    case OfProject(project) => r.project == Some(project) && now - r.createdAt < 3600
    case OfLane(seconds) => now - r.createdAt < seconds
  }

  function SumOf(rs: seq<Reservation>, window: Window, now: int): int {
    if rs == [] then 0 else (if In(window, rs[0], now) then Weight(rs[0], now) else 0) + SumOf(rs[1..], window, now)
  }

  lemma {:induction false} SumAppends(rs: seq<Reservation>, r: Reservation, window: Window, now: int)
    ensures SumOf(rs + [r], window, now) == SumOf(rs, window, now) + if In(window, r, now) then Weight(r, now) else 0
  {
    if rs == [] {
      assert [] + [r] == [r] && [r][1..] == [];
    } else {
      assert (rs + [r])[1..] == rs[1..] + [r];
      SumAppends(rs[1..], r, window, now);
    }
  }

  lemma {:induction false} SumsAre(rs: seq<Reservation>, identity: string, project: string, now: int)
    ensures ActiveReserved(rs, identity, now) == SumOf(rs, OfSession(identity), now)
    ensures ProjectWindow(rs, Some(project), now) == SumOf(rs, OfProject(project), now)
    ensures ProjectWindow(rs, None, now) == 0
    ensures LaneWindow(rs, FIVE_HOURS, now) == SumOf(rs, OfLane(18000), now)
    ensures LaneWindow(rs, WEEK, now) == SumOf(rs, OfLane(604800), now)
  {
    if rs != [] {
      var front, r := rs[..|rs| - 1], rs[|rs| - 1];
      SumsAre(front, identity, project, now);
      assert rs == front + [r];
      SumAppends(front, r, OfSession(identity), now);
      SumAppends(front, r, OfProject(project), now);
      SumAppends(front, r, OfLane(18000), now);
      SumAppends(front, r, OfLane(604800), now);
    }
  }

  // ----- the durable guard -----

  function HourOf(s: Ledger, project: Option<string>, now: int): int {
    match project
    case Some(p) => SumOf(s.reservations, OfProject(p), now)
    case None => 0
  }

  // The request stays below every limit, each raised by the same extra.
  predicate Fits(policy: Policy, s: Ledger, identity: string, project: Option<string>, estimate: nat, now: int,
                 extra: int) {
    && estimate < policy.pauseRequest + extra
    && SessionOf(s, identity).freshTokens + SumOf(s.reservations, OfSession(identity), now) + estimate
       < policy.pauseFresh + extra
    && HourOf(s, project, now) + estimate < policy.projectHour + extra
    && SumOf(s.reservations, OfLane(18000), now) + estimate < policy.laneFiveHour + extra
    && SumOf(s.reservations, OfLane(604800), now) + estimate < policy.laneWeek + extra
  }

  function ExtraOf(s: Ledger, identity: string, now: int): int {
    match FindOverride(s.overrides, identity, now)
    case Some(i) => s.overrides[i].extra
    case None => 0
  }

  predicate HasOverride(s: Ledger, identity: string, now: int) {
    exists i :: 0 <= i < |s.overrides| && Applies(s.overrides[i], identity, now)
  }

  predicate Passes(policy: Policy, s: Ledger, identity: string, project: Option<string>, estimate: nat, now: int) {
    && Fits(policy, s, identity, project, estimate, now, ExtraOf(s, identity, now))
    && (SessionOf(s, identity).paused ==> HasOverride(s, identity, now))
  }

  // One row for the request; the session is known and otherwise as it was.
  predicate Granted(s: Ledger, t: Ledger, identity: string, project: Option<string>, estimate: nat, now: int, id: nat) {
    && id == |s.reservations|
    && t.reservations == s.reservations + [Reservation(identity, project, estimate, None, now)]
    && t.sessions == s.sessions[identity := SessionOf(s, identity)]
  }

  // No row; the session is known and paused, for a reason.
  predicate Refused(s: Ledger, t: Ledger, identity: string) {
    && t.reservations == s.reservations && t.overrides == s.overrides
    && identity in t.sessions && t.sessions[identity].paused && t.sessions[identity].reason.Some?
    && t.sessions == s.sessions[identity :=
         SessionOf(s, identity).(paused := true, reason := t.sessions[identity].reason)]
  }

  lemma RequestedIff(policy: Policy, s: Ledger, identity: string, project: Option<string>, estimate: nat, now: int)
    ensures Requested(policy, s, identity, project, estimate, now).0 != Stop <==>
      Passes(policy, s, identity, project, estimate, now)
  {
    SumsAre(s.reservations, identity, project.GetOr(""), now);
    hide ActiveReserved, ProjectWindow, LaneWindow, SumOf, FindOverride;
    var found := FindOverride(s.overrides, identity, now);
    assert found.Some? <==> HasOverride(s, identity, now);
  }

  /** In pause mode a request is granted exactly when it stays below the request, session, project and lane
      limits, each raised by the extra tokens of the override in force, and the session is not paused or has
      an override. The other modes grant every request. */
  lemma GrantedIff(policy: Policy, s: Ledger, identity: string, project: Option<string>, estimate: nat, now: int)
    ensures
      var (t, decision, id) := Reserve(policy, s, identity, project, estimate, now);
      && (id.Some? <==> (policy.mode == Pause ==> Passes(policy, s, identity, project, estimate, now)))
      && (id.Some? <==> decision.action != Stop)
      && (if id.Some? then Granted(s, t, identity, project, estimate, now, id.value) else Refused(s, t, identity))
  {
    RequestedIff(policy, s, identity, project, estimate, now);
    hide Requested, UseOverride, Passes, FindOverride, ReasonText;
  }

  /** An operator's extra tokens let a request through that exceeds the plain limits: right after an
      override is authorized, and until it expires, a request of a known session without another override
      is granted exactly when it fits with the extra tokens, paused or not. */
  lemma AuthorizedPasses(policy: Policy, s: Ledger, identity: string, project: Option<string>, estimate: nat,
                         extra: nat, remaining: Option<int>, ttl: int, at: int, now: int)
    requires policy.mode == Pause && identity in s.sessions && !HasOverride(s, identity, now)
    requires (remaining.None? || remaining.value > 0) && 60 <= ttl <= 86400 && at <= now < at + ttl
    ensures
      var after := Authorize(s, identity, extra, remaining, ttl, at);
      Reserve(policy, after, identity, project, estimate, now).2.Some? <==>
        Fits(policy, s, identity, project, estimate, now, extra)
  {
    var after := Authorize(s, identity, extra, remaining, ttl, at);
    var o := after.overrides[|s.overrides|];
    assert Applies(o, identity, now);
    assert forall i :: 0 <= i < |s.overrides| ==> after.overrides[i] == s.overrides[i];
    assert FindOverride(after.overrides, identity, now) == Some(|s.overrides|);
    assert HasOverride(after, identity, now);
    hide FindOverride, HasOverride, SumOf, Reserve;
    GrantedIff(policy, after, identity, project, estimate, now);
  }

  // An override is in force from its authorization until its lifetime, 60 to 86400 seconds, has passed.
  lemma OverrideLifetime(s: Ledger, identity: string, extra: int, remaining: Option<int>, ttl: int, at: int, now: int)
    requires identity in s.sessions && (remaining.None? || remaining.value > 0)
    ensures
      var after := Authorize(s, identity, extra, remaining, ttl, at);
      && |after.overrides| == |s.overrides| + 1 && after.overrides[..|s.overrides|] == s.overrides
      && after.overrides[|s.overrides|].extra == AtLeastZero(Some(extra))
      && (Applies(after.overrides[|s.overrides|], identity, now) <==>
          now < at + (if ttl < 60 then 60 else if ttl > 86400 then 86400 else ttl))
  {
  }

  /** What a granted request is told: nothing in observe mode, a warning in warn mode where pause mode
      refuses, and otherwise a warning exactly at the warning limits. */
  lemma WarnedIff(policy: Policy, s: Ledger, identity: string, project: Option<string>, estimate: nat, now: int)
    requires policy.mode != Pause || Passes(policy, s, identity, project, estimate, now)
    ensures
      var projected := SessionOf(s, identity).freshTokens + SumOf(s.reservations, OfSession(identity), now) + estimate;
      var decision := Reserve(policy, s, identity, project, estimate, now).1;
      && decision.action == (
           if policy.mode != Observe
              && (!Passes(policy, s, identity, project, estimate, now)
                  || projected >= policy.warnFresh || estimate >= policy.warnRequest)
           then WarnOnly else Proceed)
      && decision.freshTokens == SessionOf(s, identity).freshTokens && decision.estimate == estimate
      && decision.requests == SessionOf(s, identity).requests
      && (Passes(policy, s, identity, project, estimate, now) ==>
            ReasonText(decision.reason)
            == if projected >= policy.warnFresh || estimate >= policy.warnRequest then "fresh_token_warning"
               else "within_configured_allowance")
  {
    RequestedIff(policy, s, identity, project, estimate, now);
    SumsAre(s.reservations, identity, "", now);
    hide Passes, SumOf, ActiveReserved, ProjectWindow, LaneWindow, FindOverride, UseOverride;
  }

  predicate Explains(policy: Policy, s: Ledger, identity: string, project: Option<string>, estimate: nat, now: int,
                     reason: string) {
    var session, extra := SessionOf(s, identity), ExtraOf(s, identity, now);
    var spent := session.freshTokens + SumOf(s.reservations, OfSession(identity), now);
    if session.paused && !HasOverride(s, identity, now) then
      reason == if session.reason.GetOr("") == "" then "session_paused" else session.reason.value
    else
      || (reason == "estimated_request_tokens" && estimate >= policy.pauseRequest + extra)
      || (reason == "session_fresh_token_allowance" && spent + estimate >= policy.pauseFresh + extra)
      || (reason == "project_rolling_hour_allowance"
          && HourOf(s, project, now) + estimate >= policy.projectHour + extra)
      || (reason == "lane_rolling_five_hour_allowance"
          && SumOf(s.reservations, OfLane(18000), now) + estimate >= policy.laneFiveHour + extra)
      || (reason == "lane_rolling_week_allowance"
          && SumOf(s.reservations, OfLane(604800), now) + estimate >= policy.laneWeek + extra)
  }

  /** The reason kept with a refusal names a limit the request exceeds, or the reason of the pause. */
  lemma ReasonIsTrue(policy: Policy, s: Ledger, identity: string, project: Option<string>, estimate: nat, now: int)
    requires policy.mode == Pause && !Passes(policy, s, identity, project, estimate, now)
    ensures
      var t := Reserve(policy, s, identity, project, estimate, now).0;
      identity in t.sessions && t.sessions[identity].reason.Some?
      && Explains(policy, s, identity, project, estimate, now, t.sessions[identity].reason.value)
  {
    RequestedIff(policy, s, identity, project, estimate, now);
    SumsAre(s.reservations, identity, project.GetOr(""), now);
    var found := FindOverride(s.overrides, identity, now);
    assert found.Some? <==> HasOverride(s, identity, now);
    hide Passes, HasOverride, SumOf, ActiveReserved, ProjectWindow, LaneWindow, FindOverride, UseOverride;
  }

  // An operator's pause or resume is written to a known session and to nothing else.
  lemma OperatorSets(s: Ledger, identity: string, paused: bool, reason: string)
    ensures identity !in s.sessions ==> SetPause(s, identity, paused, reason) == s
    ensures identity in s.sessions ==>
      SetPause(s, identity, paused, reason) == s.(sessions := s.sessions[identity :=
        s.sessions[identity].(paused := paused,
          reason := if !paused then None else if |reason| == 0 then Some("operator_pause") else Some(reason))])
  {
  }

  // ----- in process -----

  /** A preflight stops, warns or passes by the session's reported fresh tokens and the estimate. */
  lemma PreflightIff(policy: Policy, calls: seq<Memory.Call>, estimate: nat)
    ensures
      var state := Memory.Run(policy, Memory.FRESH, calls);
      var projected := Reports(calls, Fresh) + estimate;
      var stops := state.session.paused || estimate >= policy.pauseRequest || projected >= policy.pauseFresh;
      var warns := estimate >= policy.warnRequest || projected >= policy.warnFresh;
      var (after, verdict) := Memory.Preflight(policy, state, estimate);
      && (verdict.action == Stop <==> policy.mode == Pause && stops)
      && (verdict.action == WarnOnly <==>
          (policy.mode == Warn && (stops || warns)) || (policy.mode == Pause && !stops && warns))
      && verdict.freshTokens == Reports(calls, Fresh) && verdict.requests == Reports(calls, Requests)
      && verdict.estimate == estimate
      && (verdict.action != Stop ==> after == state)
      && (verdict.action == Stop ==> after.session.paused && after.session.reason == Some(verdict.reason))
  {
    CallsAreReports(policy, calls, Fresh);
    CallsAreReports(policy, calls, Requests);
    hide Memory.Run, Reports;
  }

  /** A report stops its session by the fresh tokens reported so far, this report included, or by the
      uncached calls of its prefix so far. */
  lemma ReconcileIff(policy: Policy, calls: seq<Memory.Call>, reported: Reported, prefix: string)
    ensures
      var state := Memory.Run(policy, Memory.FRESH, calls);
      var total := Reports(calls, Fresh) + AtLeastZero(reported.freshTokens);
      var before := UncachedReports(policy, calls, prefix);
      var uncached := if CountsAsUncached(policy, reported, prefix) then before + 1 else 0;
      var stops := total >= policy.pauseFresh || (uncached > 0 && uncached >= policy.uncachedPauseCalls);
      var warns := total >= policy.warnFresh || (uncached > 0 && uncached >= policy.uncachedWarnCalls);
      var verdict := Memory.ReconcileCall(policy, state, reported, prefix).1;
      && (verdict.action == Stop <==> policy.mode == Pause && stops)
      && (verdict.action == WarnOnly <==>
          (policy.mode == Warn && (stops || warns)) || (policy.mode == Pause && !stops && warns))
      && verdict.freshTokens == total && verdict.requests == Reports(calls, Requests) + 1 && verdict.estimate == 0
  {
    CallsAreReports(policy, calls, Fresh);
    CallsAreReports(policy, calls, Requests);
    PrefixCounts(policy, calls, prefix);
    hide Memory.Run, Reports, UncachedReports;
  }

  // An operator's pause or resume of a session in process.
  lemma OperatorSetsState(state: Memory.State, paused: bool, reason: string)
    ensures
      Memory.Operator(state, paused, reason) == state.(session := state.session.(paused := paused,
        reason := if !paused then None else if |reason| == 0 then Some("operator_pause") else Some(reason)))
  {
  }
}
