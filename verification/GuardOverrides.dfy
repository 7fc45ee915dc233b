/** What the overrides of a paused session let through. */
module GuardOverrides {
  import opened Bytes
  import opened GuardLedger
  import opened GuardSafety
  import opened GuardRuns

  // Every override of the session is limited to a number of requests.
  ghost predicate Limited(os: seq<Override>, identity: string) {
    forall i :: 0 <= i < |os| && os[i].identity == identity ==> os[i].remaining.Some? && os[i].remaining.value >= 0
  }

  // The requests those overrides still allow.
  function Budget(os: seq<Override>, identity: string): int {
    if os == [] then 0
    else
      var o := os[|os| - 1];
      Budget(os[..|os| - 1], identity) + if o.identity == identity && o.remaining.Some? then o.remaining.value else 0
  }

  lemma {:induction false} BudgetOfUse(os: seq<Override>, i: nat, left: int, identity: string)
    requires i < |os| && os[i].remaining.Some?
    ensures Budget(os[i := os[i].(remaining := Some(left))], identity)
         == Budget(os, identity) - if os[i].identity == identity then os[i].remaining.value - left else 0
  {
    var n := |os| - 1;
    var after := os[i := os[i].(remaining := Some(left))];
    if i == n {
      assert after[..n] == os[..n];
    } else {
      assert after[..n] == os[..n][i := os[i].(remaining := Some(left))];
      BudgetOfUse(os[..n], i, left, identity);
    }
  }

  lemma {:induction false} BudgetNotNegative(os: seq<Override>, identity: string)
    requires Limited(os, identity)
    ensures Budget(os, identity) >= 0
  {
    if os != [] {
      BudgetNotNegative(os[..|os| - 1], identity);
    }
  }

  function GrantOf(policy: Policy, w: World, step: Step, identity: string): nat {
    if step.DoReserve? && step.identity == identity
       && Reserve(policy, w.ledger, identity, step.project, step.estimate, step.now).2.Some? then 1 else 0
  }

  // How many requests of the session a run grants.
  function Grants(policy: Policy, w: World, steps: seq<Step>, identity: string): nat
    decreases |steps|
  {
    if steps == [] then 0
    else GrantOf(policy, w, steps[0], identity) + Grants(policy, Next(policy, w, steps[0]), steps[1..], identity)
  }

  predicate Adds(step: Step, identity: string) {
    step.DoAuthorize? && step.identity == identity
  }

  lemma UseKeepsLimited(os: seq<Override>, used: nat, identity: string)
    requires used < |os| && os[used].remaining.Some? && os[used].remaining.value > 0 && Limited(os, identity)
    ensures Limited(UseOverride(os, Some(used)), identity)
  {
  }

  lemma ReserveSpends(policy: Policy, s: Ledger, who: string, project: Option<string>, estimate: nat, now: int,
                      identity: string)
    requires policy.mode == Pause && identity in s.sessions && s.sessions[identity].paused
      && Limited(s.overrides, identity)
    ensures var (after, _, granted) := Reserve(policy, s, who, project, estimate, now);
            && Limited(after.overrides, identity)
            && Budget(after.overrides, identity)
               == Budget(s.overrides, identity) - if who == identity && granted.Some? then 1 else 0
  {
    hide Limited, Budget, ActiveReserved, ProjectWindow, LaneWindow;
    var used := FindOverride(s.overrides, who, now);
    if used.Some? && s.overrides[used.value].remaining.Some? {
      var i := used.value;
      BudgetOfUse(s.overrides, i, s.overrides[i].remaining.value - 1, identity);
      UseKeepsLimited(s.overrides, i, identity);
    } else if used.Some? && who == identity {
      LimitedAt(s.overrides, used.value, identity);
    }
  }

  lemma LimitedAt(os: seq<Override>, i: nat, identity: string)
    requires Limited(os, identity) && i < |os| && os[i].identity == identity
    ensures os[i].remaining.Some?
  {
  }

  lemma AuthorizeElsewhere(s: Ledger, who: string, extra: int, remaining: Option<int>, ttl: int, now: int,
                           identity: string)
    requires who != identity && Limited(s.overrides, identity)
    ensures var after := Authorize(s, who, extra, remaining, ttl, now);
            Limited(after.overrides, identity) && Budget(after.overrides, identity) == Budget(s.overrides, identity)
  {
    var o := Override(who, if extra < 0 then 0 else extra, remaining, now, now + Bounded(ttl, 60, 86400));
    assert (s.overrides + [o])[..|s.overrides|] == s.overrides;
  }

  lemma StepSpends(policy: Policy, w: World, step: Step, identity: string)
    requires policy.mode == Pause && Paused(w, identity) && Limited(w.ledger.overrides, identity)
    requires !Resumes(step, identity) && !Adds(step, identity)
    ensures var v := Next(policy, w, step);
            && Paused(v, identity) && Limited(v.ledger.overrides, identity)
            && Budget(v.ledger.overrides, identity)
               == Budget(w.ledger.overrides, identity) - GrantOf(policy, w, step, identity)
  {
    PauseLasts(policy, w, [step], identity);
    assert [step][1..] == [];
    assert Run(policy, w, [step]) == Next(policy, w, step);
    hide Limited, Budget, Reserve, Run;
    match step
    case Tick(_) =>
    case DoReserve(who, project, estimate, now) =>
      ReserveSpends(policy, w.ledger, who, project, estimate, now, identity);
    case DoReconcile(_, _) =>
    case DoPause(_, _, _) =>
    case DoAuthorize(who, extra, remaining, ttl) =>
      AuthorizeElsewhere(w.ledger, who, extra, remaining, ttl, w.clock, identity);
  }

  /** While a session stays paused and gets no new override, each request granted to it uses up one
      request of its overrides: a run grants exactly what their budget loses, so never more than it
      held. */
  lemma {:induction false} PausedGrantsAreBudgeted(policy: Policy, w: World, steps: seq<Step>, identity: string)
    requires policy.mode == Pause && Paused(w, identity) && Limited(w.ledger.overrides, identity)
    requires forall i :: 0 <= i < |steps| ==> !Resumes(steps[i], identity) && !Adds(steps[i], identity)
    ensures Grants(policy, w, steps, identity)
         == Budget(w.ledger.overrides, identity) - Budget(Run(policy, w, steps).ledger.overrides, identity)
         <= Budget(w.ledger.overrides, identity)
    decreases |steps|
  {
    hide Next, GrantOf, Paused, Limited, Budget, Resumes, Adds;
    if steps == [] {
      BudgetNotNegative(w.ledger.overrides, identity);
    } else {
      StepSpends(policy, w, steps[0], identity);
      PausedGrantsAreBudgeted(policy, Next(policy, w, steps[0]), steps[1..], identity);
    }
  }
}
