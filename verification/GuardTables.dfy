/** The guard's three tables, updated in place by each transaction. */
module GuardTables {
  import opened Bytes
  import opened GuardLedger

  class DurableGuard {
    const policy: Policy
    var sessions: map<string, Session>
    var reservations: seq<Reservation>
    var overrides: seq<Override>

    constructor (policy: Policy)
      ensures this.policy == policy && Contents() == EMPTY
    {
      this.policy := policy;
      sessions, reservations, overrides := map[], [], [];
    }

    function Contents(): Ledger
      reads this
    {
      Ledger(sessions, reservations, overrides)
    }

    // Selects the applicable override created first.
    method OldestOverride(identity: string, now: int) returns (found: Option<nat>)
      ensures found == FindOverride(overrides, identity, now)
    {
      found := None;
      for i := 0 to |overrides|
        invariant found == FindOverride(overrides[..i], identity, now)
      {
        assert overrides[..i + 1][..i] == overrides[..i];
        if Applies(overrides[i], identity, now)
           && (found.None? || overrides[found.value].createdAt > overrides[i].createdAt) {
          found := Some(i);
        }
      }
      assert overrides[..|overrides|] == overrides;
    }

    // The four sums of one pass over the reservations.
    method Sums(identity: string, project: Option<string>, now: int)
      returns (active: int, hour: int, five: int, week: int)
      ensures active == ActiveReserved(reservations, identity, now)
      ensures hour == ProjectWindow(reservations, project, now)
      ensures five == LaneWindow(reservations, FIVE_HOURS, now)
      ensures week == LaneWindow(reservations, WEEK, now)
    {
      active, hour, five, week := 0, 0, 0, 0;
      for i := 0 to |reservations|
        invariant active == ActiveReserved(reservations[..i], identity, now)
        invariant hour == ProjectWindow(reservations[..i], project, now)
        invariant five == LaneWindow(reservations[..i], FIVE_HOURS, now)
        invariant week == LaneWindow(reservations[..i], WEEK, now)
      {
        var r := reservations[i];
        assert reservations[..i + 1][..i] == reservations[..i];
        if r.identity == identity && r.actual.None? && r.createdAt > now - LIVE {
          active := active + r.estimate;
        }
        if project.Some? && r.project == project && r.createdAt > now - HOUR {
          hour := hour + Charge(r, now);
        }
        if r.createdAt > now - FIVE_HOURS {
          five := five + Charge(r, now);
        }
        if r.createdAt > now - WEEK {
          week := week + Charge(r, now);
        }
      }
      assert reservations[..|reservations|] == reservations;
    }

    // What the sums and the limits ask for, before the mode has its say.
    method Ask(session: Session, override: Option<nat>, identity: string, project: Option<string>, estimate: nat,
               now: int)
      returns (requested: Action, reason: Reason)
      requires session == SessionOf(Contents(), identity) && override == FindOverride(overrides, identity, now)
      ensures (requested, reason) == Requested(policy, Contents(), identity, project, estimate, now)
    {
      hide ActiveReserved, ProjectWindow, LaneWindow, FindOverride;
      var active, hour, five, week := Sums(identity, project, now);
      var extra := if override.Some? then overrides[override.value].extra else 0;
      var projected := session.freshTokens + active + estimate;
      requested, reason := Proceed, Within;
      if session.paused && override.None? {
        requested, reason := Stop, SessionPaused(session.reason);
      } else if estimate >= policy.pauseRequest + extra {
        requested, reason := Stop, RequestTooLarge;
      } else if projected >= policy.pauseFresh + extra {
        requested, reason := Stop, SessionAllowance;
      } else if hour + estimate >= policy.projectHour + extra {
        requested, reason := Stop, ProjectHourAllowance;
      } else if five + estimate >= policy.laneFiveHour + extra {
        requested, reason := Stop, LaneFiveHourAllowance;
      } else if week + estimate >= policy.laneWeek + extra {
        requested, reason := Stop, LaneWeekAllowance;
      } else if projected >= policy.warnFresh || estimate >= policy.warnRequest {
        requested, reason := WarnOnly, FreshTokenWarning;
      }
    }

    method ReserveDurable(identity: string, project: Option<string>, estimate: nat, now: int)
      returns (decision: Decision, id: Option<nat>)
      modifies this
      ensures (Contents(), decision, id) == Reserve(policy, old(Contents()), identity, project, estimate, now)
    {
      hide FindOverride, ReasonText, Effective, Requested;
      var session := if identity in sessions then sessions[identity] else NewSession();
      var override := OldestOverride(identity, now);
      var requested, reason := Ask(session, override, identity, project, estimate, now);
      sessions := sessions[identity := session];
      var effective := Effective(policy.mode, requested);
      decision := Decision(effective, reason, session.freshTokens, estimate, session.requests);
      if effective == Stop {
        sessions := sessions[identity := session.(paused := true, reason := Some(ReasonText(reason)))];
        assert sessions == old(sessions)[identity := sessions[identity]];
        return decision, None;
      }
      if override.Some? && overrides[override.value].remaining.Some? {
        var used := overrides[override.value];
        overrides := overrides[override.value := used.(remaining := Some(used.remaining.value - 1))];
      }
      id := Some(|reservations|);
      reservations := reservations + [Reservation(identity, project, estimate, None, now)];
    }

    method ReconcileDurable(id: nat, reported: Reported)
      modifies this
      ensures Contents() == Reconcile(old(Contents()), id, reported)
    {
      if id >= |reservations| || reservations[id].actual.Some? {
        return;
      }
      var identity, usage := reservations[id].identity, UsageOf(reported);
      reservations := reservations[id := reservations[id].(actual := Some(usage))];
      if identity in sessions {
        sessions := sessions[identity := AddUsage(sessions[identity], usage)];
      }
    }

    method SetDurablePause(identity: string, paused: bool, reason: string) returns (found: bool)
      modifies this
      ensures found == (identity in old(sessions))
      ensures Contents() == SetPause(old(Contents()), identity, paused, reason)
    {
      found := identity in sessions;
      if found {
        var why := if reason == "" then "operator_pause" else reason;
        var session := sessions[identity];
        sessions := sessions[identity := session.(paused := paused, reason := if paused then Some(why) else None)];
      }
    }

    method CreateDurableOverride(identity: string, extra: int, remaining: Option<int>, ttl: int, now: int)
      modifies this
      ensures Contents() == Authorize(old(Contents()), identity, extra, remaining, ttl, now)
    {
      if identity in sessions && (remaining.None? || remaining.value >= 0) {
        var granted := if extra < 0 then 0 else extra;
        overrides := overrides + [Override(identity, granted, remaining, now, now + Bounded(ttl, 60, 86400))];
      }
    }
  }
}
