/** Whole runs of the durable Max Guard: reservations, reconciliations, operator pauses and
    overrides in any order, against a clock that only moves forward. */
module GuardRuns {
  import opened Bytes
  import opened GuardLedger
  import opened GuardSafety

  datatype Step =
    | Tick(seconds: nat)
    | DoReserve(identity: string, project: Option<string>, estimate: nat, now: int)
    | DoReconcile(id: nat, reported: Reported)
    | DoPause(identity: string, paused: bool, reason: string)
    | DoAuthorize(identity: string, extra: int, remaining: Option<int>, ttl: int)

  function Next(policy: Policy, w: World, step: Step): World {
    match step
    case Tick(seconds) => World(w.clock + seconds, w.ledger)
    case DoReserve(identity, project, estimate, now) =>
      World(w.clock, Reserve(policy, w.ledger, identity, project, estimate, now).0)
    case DoReconcile(id, reported) => World(w.clock, Reconcile(w.ledger, id, reported))
    case DoPause(identity, paused, reason) => World(w.clock, SetPause(w.ledger, identity, paused, reason))
    case DoAuthorize(identity, extra, remaining, ttl) =>
      World(w.clock, Authorize(w.ledger, identity, extra, remaining, ttl, w.clock))
  }

  function Run(policy: Policy, w: World, steps: seq<Step>): World
    decreases |steps|
  {
    if steps == [] then w else Run(policy, Next(policy, w, steps[0]), steps[1..])
  }

  // A reconciliation that reports no more than the reservation counts for when it arrives: at
  // most the estimate within fifteen minutes, nothing after that.
  predicate Prompt(w: World, id: nat, reported: Reported) {
    id < |w.ledger.reservations| && w.ledger.reservations[id].actual.None? ==>
      Clean(reported.freshTokens) <= Charge(w.ledger.reservations[id], w.clock)
  }

  // A transaction starts before it commits; overrides grant at most `extra`.
  predicate Orderly(extra: nat, w: World, step: Step) {
    match step
    case DoReserve(_, _, _, now) => now <= w.clock
    case DoReconcile(id, reported) => Prompt(w, id, reported)
    case DoAuthorize(_, granted, _, _) => granted <= extra
    case _ => true
  }

  predicate AllOrderly(policy: Policy, extra: nat, w: World, steps: seq<Step>)
    decreases |steps|
  {
    steps != [] ==> Orderly(extra, w, steps[0]) && AllOrderly(policy, extra, Next(policy, w, steps[0]), steps[1..])
  }

  ghost predicate Inv(policy: Policy, extra: nat, w: World) {
    && Conserved(w.ledger)
    && ExtraBounded(extra, w.ledger)
    && WithinAllowances(policy, extra, w)
  }

  // ----- one step -----

  // What a granted reservation was checked against.
  lemma GrantedIsChecked(policy: Policy, s: Ledger, scope: Scope, identity: string, project: Option<string>,
                         estimate: nat, now: int, extra: nat)
    requires policy.mode == Pause && ExtraBounded(extra, s)
    requires Requested(policy, s, identity, project, estimate, now).0 != Stop
    requires Covers(scope, Reservation(identity, project, estimate, None, now))
    ensures Checked(s, scope, project, identity, now) + estimate < Allowance(policy, scope) + extra
  {
    hide ActiveReserved, ProjectWindow, LaneWindow;
  }

  lemma ReserveWithinAllowances(policy: Policy, extra: nat, w: World, identity: string, project: Option<string>,
                                estimate: nat, now: int)
    requires Inv(policy, extra, w) && policy.mode == Pause && now <= w.clock
    ensures WithinAllowances(policy, extra, Next(policy, w, DoReserve(identity, project, estimate, now)))
  {
    hide Requested, UseOverride, Conserved, Checked, ExtraBounded;
    var s, t := w.ledger, Next(policy, w, DoReserve(identity, project, estimate, now)).ledger;
    var r := Reservation(identity, project, estimate, None, now);
    if t.reservations != s.reservations {
      forall scope ensures Exposure(t.reservations, scope, w.clock) < Allowance(policy, scope) + extra {
        TotalOfAppend(s.reservations, ChargeIn(scope, w.clock), r);
        if Covers(scope, r) {
          GrantedIsChecked(policy, s, scope, identity, project, estimate, now, extra);
          CheckedCoversExposure(s, scope, identity, project, estimate, now, w.clock);
        } else {
          assert Exposure(s.reservations, scope, w.clock) < Allowance(policy, scope) + extra;
        }
      }
    }
  }

  function Shift(w: World, id: nat, reported: Reported, scope: Scope): int
    requires id < |w.ledger.reservations|
  {
    var r := w.ledger.reservations[id];
    if Covers(scope, r) then Clean(reported.freshTokens) - Charge(r, w.clock) else 0
  }

  // A reconciliation moves the exposure of each scope that covers its reservation from the charge
  // to the report, so it raises none of them exactly when it is prompt.
  lemma ReconcileMovesExposure(w: World, id: nat, reported: Reported, scope: Scope)
    requires id < |w.ledger.reservations| && w.ledger.reservations[id].actual.None?
    ensures Exposure(Reconcile(w.ledger, id, reported).reservations, scope, w.clock)
         == Exposure(w.ledger.reservations, scope, w.clock) + Shift(w, id, reported, scope)
  {
    var r := w.ledger.reservations[id];
    TotalOfUpdate(w.ledger.reservations, ChargeIn(scope, w.clock), id, r.(actual := Some(UsageOf(reported))));
  }

  ghost predicate RaisesNone(before: World, after: World) {
    forall scope ::
      Exposure(after.ledger.reservations, scope, after.clock)
      <= Exposure(before.ledger.reservations, scope, before.clock)
  }

  lemma PromptIffRaisesNone(policy: Policy, w: World, id: nat, reported: Reported)
    ensures RaisesNone(w, Next(policy, w, DoReconcile(id, reported))) <==> Prompt(w, id, reported)
  {
    var after := Next(policy, w, DoReconcile(id, reported));
    if id < |w.ledger.reservations| && w.ledger.reservations[id].actual.None? {
      var own := InSession(w.ledger.reservations[id].identity);
      ReconcileMovesExposure(w, id, reported, own);
      if Prompt(w, id, reported) {
        forall scope
          ensures Exposure(after.ledger.reservations, scope, after.clock)
                  <= Exposure(w.ledger.reservations, scope, w.clock)
        {
          ReconcileMovesExposure(w, id, reported, scope);
        }
      } else {
        assert Exposure(after.ledger.reservations, own, after.clock)
               > Exposure(w.ledger.reservations, own, w.clock);
      }
    }
  }

  predicate Below(w: World, scope: Scope, limit: int) {
    Exposure(w.ledger.reservations, scope, w.clock) < limit
  }

  // Every limit on every scope that held before holds after.
  ghost predicate KeepsEveryLimit(before: World, after: World) {
    forall scope, limit :: Below(before, scope, limit) ==> Below(after, scope, limit)
  }

  lemma PromptIffKeepsEveryLimit(policy: Policy, w: World, id: nat, reported: Reported)
    ensures KeepsEveryLimit(w, Next(policy, w, DoReconcile(id, reported))) <==> Prompt(w, id, reported)
  {
    hide Prompt, Exposure, Next;
    var after := Next(policy, w, DoReconcile(id, reported));
    PromptIffRaisesNone(policy, w, id, reported);
    if KeepsEveryLimit(w, after) {
      forall scope
        ensures Exposure(after.ledger.reservations, scope, after.clock)
                <= Exposure(w.ledger.reservations, scope, w.clock)
      {
        var limit := Exposure(w.ledger.reservations, scope, w.clock) + 1;
        assert Below(w, scope, limit);
        assert Below(after, scope, limit);
      }
    }
  }

  lemma TickRaisesNone(policy: Policy, w: World, seconds: nat)
    ensures RaisesNone(w, Next(policy, w, Tick(seconds)))
  {
    forall scope
      ensures Exposure(w.ledger.reservations, scope, w.clock + seconds)
              <= Exposure(w.ledger.reservations, scope, w.clock)
    {
      TotalMonotone(w.ledger.reservations, ChargeIn(scope, w.clock + seconds), ChargeIn(scope, w.clock));
    }
  }

  lemma StepConserves(policy: Policy, w: World, step: Step)
    requires Conserved(w.ledger)
    ensures Conserved(Next(policy, w, step).ledger)
  {
    match step
    case Tick(_) =>
    case DoReserve(identity, project, estimate, now) =>
      ReserveConserves(policy, w.ledger, identity, project, estimate, now);
    case DoReconcile(id, reported) => ReconcileConserves(w.ledger, id, reported);
    case DoPause(identity, paused, reason) =>
      hide Total;
      assert forall id, c :: id in w.ledger.sessions ==>
        CounterOf(Next(policy, w, step).ledger.sessions[id], c) == CounterOf(w.ledger.sessions[id], c);
    case DoAuthorize(_, _, _, _) =>
  }

  lemma StepKeepsExtra(policy: Policy, extra: nat, w: World, step: Step)
    requires ExtraBounded(extra, w.ledger) && Orderly(extra, w, step)
    ensures ExtraBounded(extra, Next(policy, w, step).ledger)
  {
    hide Requested;
  }

  lemma StepKeeps(policy: Policy, extra: nat, w: World, step: Step)
    requires Inv(policy, extra, w) && policy.mode == Pause && Orderly(extra, w, step)
    ensures Inv(policy, extra, Next(policy, w, step))
  {
    StepConserves(policy, w, step);
    StepKeepsExtra(policy, extra, w, step);
    hide Conserved, ExtraBounded, Reserve, Exposure, Allowance;
    var v := Next(policy, w, step);
    match step
    case Tick(seconds) =>
      TickRaisesNone(policy, w, seconds);
    case DoReserve(identity, project, estimate, now) =>
      ReserveWithinAllowances(policy, extra, w, identity, project, estimate, now);
    case DoReconcile(id, reported) =>
      PromptIffRaisesNone(policy, w, id, reported);
    case DoPause(_, _, _) =>
    case DoAuthorize(_, _, _, _) =>
  }

  // ----- runs -----

  lemma {:induction false} RunKeeps(policy: Policy, extra: nat, w: World, steps: seq<Step>)
    requires Inv(policy, extra, w) && policy.mode == Pause && AllOrderly(policy, extra, w, steps)
    ensures Inv(policy, extra, Run(policy, w, steps))
    decreases |steps|
  {
    hide Inv, Orderly, Next;
    if steps != [] {
      StepKeeps(policy, extra, w, steps[0]);
      RunKeeps(policy, extra, Next(policy, w, steps[0]), steps[1..]);
    }
  }

  ghost predicate Allowing(policy: Policy, extra: nat) {
    forall scope :: 0 < Allowance(policy, scope) + extra
  }

  lemma EmptyIsWithin(policy: Policy, extra: nat, clock: int)
    requires Allowing(policy, extra)
    ensures Inv(policy, extra, World(clock, EMPTY))
  {
  }

  lemma SpentWithinExposure(rs: seq<Reservation>, scope: Scope, clock: int)
    ensures Spent(rs, scope) <= Exposure(rs, scope, clock)
  {
    TotalMonotone(rs, (r: Reservation) => if Covers(scope, r) && r.actual.Some? then r.actual.value.freshTokens else 0,
                  ChargeIn(scope, clock));
  }

  /** In pause mode, with overrides of at most `extra` tokens and prompt reconciliations, from an
      empty ledger: fresh tokens plus live reservations of each session stay below the session
      allowance, and what the reservations of any project hour or lane window actually spent stays
      below that window's. */
  lemma AllowancesHold(policy: Policy, extra: nat, clock: int, steps: seq<Step>, identity: string, scope: Scope)
    requires policy.mode == Pause && Allowing(policy, extra) && AllOrderly(policy, extra, World(clock, EMPTY), steps)
    ensures var w := Run(policy, World(clock, EMPTY), steps);
            && SessionOf(w.ledger, identity).freshTokens + ActiveReserved(w.ledger.reservations, identity, w.clock)
               < policy.pauseFresh + extra
            && Spent(w.ledger.reservations, scope) < Allowance(policy, scope) + extra
  {
    hide Exposure, Spent, ActiveReserved, Conserved, AllOrderly, Run;
    EmptyIsWithin(policy, extra, clock);
    RunKeeps(policy, extra, World(clock, EMPTY), steps);
    var w := Run(policy, World(clock, EMPTY), steps);
    SessionChecked(w.ledger, identity, w.clock);
    assert Exposure(w.ledger.reservations, InSession(identity), w.clock)
           < Allowance(policy, InSession(identity)) + extra;
    SpentWithinExposure(w.ledger.reservations, scope, w.clock);
  }

  /** Whatever the mode and however late or large the reports, every counter of every session is
      the sum over its reconciled reservations, each counted once. */
  lemma {:induction false} RunConserves(policy: Policy, w: World, steps: seq<Step>)
    requires Conserved(w.ledger)
    ensures Conserved(Run(policy, w, steps).ledger)
    decreases |steps|
  {
    hide Conserved, Next;
    if steps != [] {
      StepConserves(policy, w, steps[0]);
      RunConserves(policy, Next(policy, w, steps[0]), steps[1..]);
    }
  }

  function LateReports(identity: string, estimate: nat): seq<Step> {
    var report := Reported(Some(estimate), None, None, None);
    [DoReserve(identity, None, estimate, 0), Tick(LIVE), DoReserve(identity, None, estimate, LIVE),
     DoReconcile(0, report), DoReconcile(1, report)]
  }

  lemma TotalOfOne(r: Reservation)
    ensures forall weight: Reservation -> int :: Total([r], weight) == weight(r)
  {
    forall weight: Reservation -> int ensures Total([r], weight) == weight(r) {
      TotalOfAppend([], weight, r);
      assert [] + [r] == [r];
    }
  }

  // Fifteen minutes after the first grant its estimate counts nowhere any more.
  lemma GrantedTwice(policy: Policy, identity: string, estimate: nat)
    requires policy.mode == Pause
    requires estimate < policy.pauseFresh && estimate < policy.pauseRequest
    requires estimate < policy.projectHour && estimate < policy.laneFiveHour && estimate < policy.laneWeek
    ensures var known, first := map[identity := NewSession()], Reservation(identity, None, estimate, None, 0);
            && Reserve(policy, EMPTY, identity, None, estimate, 0).0 == Ledger(known, [first], [])
            && Reserve(policy, Ledger(known, [first], []), identity, None, estimate, LIVE).0
               == Ledger(known, [first, Reservation(identity, None, estimate, None, LIVE)], [])
  {
    var first := Reservation(identity, None, estimate, None, 0);
    TotalOfOne(first);
    assert ActiveReserved([first], identity, LIVE) == 0 && ProjectWindow([first], None, LIVE) == 0;
    assert LaneWindow([first], FIVE_HOURS, LIVE) == 0 && LaneWindow([first], WEEK, LIVE) == 0;
    assert ActiveReserved([], identity, 0) == 0 && ProjectWindow([], None, 0) == 0;
    assert LaneWindow([], FIVE_HOURS, 0) == 0 && LaneWindow([], WEEK, 0) == 0;
    hide ActiveReserved, ProjectWindow, LaneWindow, Total, ReasonText;
  }

  // The allowance is lost once reports may arrive late: an estimate below the allowance but at
  // least half of it is granted twice, fifteen minutes apart, and both reports arrive.
  lemma LateReportsOverrun(policy: Policy, identity: string, estimate: nat)
    requires policy.mode == Pause
    requires estimate < policy.pauseFresh <= 2 * estimate
    requires estimate < policy.pauseRequest
    requires estimate < policy.projectHour && estimate < policy.laneFiveHour && estimate < policy.laneWeek
    ensures var w := Run(policy, World(0, EMPTY), LateReports(identity, estimate));
      SessionOf(w.ledger, identity).freshTokens >= policy.pauseFresh
  {
    var report := Reported(Some(estimate), None, None, None);
    var first := Reservation(identity, None, estimate, None, 0);
    var second := Reservation(identity, None, estimate, None, LIVE);
    GrantedTwice(policy, identity, estimate);
    var w1 := Next(policy, World(0, EMPTY), DoReserve(identity, None, estimate, 0));
    var w2 := Next(policy, w1, Tick(LIVE));
    var w3 := Next(policy, w2, DoReserve(identity, None, estimate, LIVE));
    hide Reserve;
    var w4 := Next(policy, w3, DoReconcile(0, report));
    assert w4.ledger.sessions[identity].freshTokens == estimate;
    assert w4.ledger.reservations[1] == second;
    var w5 := Next(policy, w4, DoReconcile(1, report));
    var steps := LateReports(identity, estimate);
    var rest := steps[1..][1..];
    assert rest == [steps[2], steps[3], steps[4]];
    assert Run(policy, World(0, EMPTY), steps) == Run(policy, w2, rest);
    assert rest[1..][1..] == [steps[4]] && [steps[4]][1..] == [];
    assert Run(policy, w2, rest) == Run(policy, w4, [steps[4]]);
  }

  // ----- the pause latch -----

  predicate Paused(w: World, identity: string) {
    identity in w.ledger.sessions && w.ledger.sessions[identity].paused
  }

  predicate Resumes(step: Step, identity: string) {
    step.DoPause? && step.identity == identity && !step.paused
  }

  // A paused session stays paused until an operator resumes it.
  lemma {:induction false} PauseLasts(policy: Policy, w: World, steps: seq<Step>, identity: string)
    requires Paused(w, identity)
    requires forall i :: 0 <= i < |steps| ==> !Resumes(steps[i], identity)
    ensures Paused(Run(policy, w, steps), identity)
    decreases |steps|
  {
    hide Requested, UseOverride;
    if steps != [] {
      assert !Resumes(steps[0], identity);
      assert Paused(Next(policy, w, steps[0]), identity);
      PauseLasts(policy, Next(policy, w, steps[0]), steps[1..], identity);
    }
  }

  /** A refusal latches: after it, and whatever else happens short of a resume, no later request of
      that session is granted except under an override then in force. */
  lemma RefusalLasts(policy: Policy, w: World, step: Step, steps: seq<Step>, project: Option<string>, estimate: nat,
                     now: int)
    requires policy.mode == Pause && step.DoReserve?
    requires Reserve(policy, w.ledger, step.identity, step.project, step.estimate, step.now).1.action == Stop
    requires forall i :: 0 <= i < |steps| ==> !Resumes(steps[i], step.identity)
    ensures var v := Run(policy, Next(policy, w, step), steps);
            var (after, decision, granted) := Reserve(policy, v.ledger, step.identity, project, estimate, now);
            FindOverride(v.ledger.overrides, step.identity, now).None? ==>
              decision.action == Stop && granted.None? && after.reservations == v.ledger.reservations
  {
    assert Paused(Next(policy, w, step), step.identity) by {
      hide Requested;
    }
    hide Run, ActiveReserved, ProjectWindow, LaneWindow, UseOverride;
    PauseLasts(policy, Next(policy, w, step), steps, step.identity);
  }
}
