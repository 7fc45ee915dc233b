/** What the counters of Max Guard hold, said of the reports themselves. */
module GuardReports {
  import opened Bytes
  import opened GuardLedger
  import opened GuardSafety
  import opened GuardRuns
  import Memory = GuardMemory

  // max(0, reported)
  function AtLeastZero(x: Option<int>): int {
    match x
    case Some(n) => if n < 0 then 0 else n
    case None => 0
  }

  // The report of one counter: each token counter has its own field, and a report is one request.
  function FieldOf(c: Counter, reported: Reported): Option<int> {
    match c
    case Fresh => reported.freshTokens
    case CacheRead => reported.cacheRead
    case CacheWrite => reported.cacheWrite
    case Output => reported.output
    case Requests => Some(1)
  }

  // Every counter rises by its own reported field.
  ghost predicate Rises(before: Session, after: Session, reported: Reported) {
    && after.freshTokens == before.freshTokens + AtLeastZero(reported.freshTokens)
    && after.cacheRead == before.cacheRead + AtLeastZero(reported.cacheRead)
    && after.cacheWrite == before.cacheWrite + AtLeastZero(reported.cacheWrite)
    && after.output == before.output + AtLeastZero(reported.output)
    && after.requests == before.requests + 1
  }

  /** The first report for a reservation raises each counter of its session by that counter's own field,
      and nothing else of any session changes; the reservation is charged its fresh tokens from then on. */
  lemma ReportRaises(s: Ledger, id: nat, reported: Reported)
    requires id < |s.reservations| && s.reservations[id].actual.None? && s.reservations[id].identity in s.sessions
    ensures
      var identity, t := s.reservations[id].identity, Reconcile(s, id, reported);
      && identity in t.sessions && Rises(s.sessions[identity], t.sessions[identity], reported)
      && t.sessions[identity].paused == s.sessions[identity].paused
      && t.sessions[identity].reason == s.sessions[identity].reason
      && t == s.(sessions := s.sessions[identity := t.sessions[identity]], reservations := t.reservations)
      && t.reservations == s.reservations[id := t.reservations[id]]
      && t.reservations[id] == s.reservations[id].(actual := t.reservations[id].actual)
      && forall clock :: Charge(t.reservations[id], clock) == AtLeastZero(reported.freshTokens)
  {
  }

  // ----- over runs -----

  // The reservations already reported for.
  ghost predicate AreReported(s: Ledger, done: set<nat>) {
    forall id: nat :: id in done <==> id < |s.reservations| && s.reservations[id].actual.Some?
  }

  // The first report for each reservation of a session, one counter's field of each, added up.
  function FirstReports(policy: Policy, w: World, steps: seq<Step>, done: set<nat>, identity: string, c: Counter): int
    decreases |steps|
  {
    if steps == [] then 0
    else
      var step, rest := steps[0], steps[1..];
      var v := Next(policy, w, step);
      if step.DoReconcile? && step.id < |w.ledger.reservations| && step.id !in done then
        (if w.ledger.reservations[step.id].identity == identity then AtLeastZero(FieldOf(c, step.reported)) else 0)
        + FirstReports(policy, v, rest, done + {step.id}, identity, c)
      else FirstReports(policy, v, rest, done, identity, c)
  }

  function NowDone(w: World, step: Step, done: set<nat>): set<nat> {
    if step.DoReconcile? && step.id < |w.ledger.reservations| then done + {step.id} else done
  }

  function Contribution(w: World, step: Step, done: set<nat>, identity: string, c: Counter): int {
    if step.DoReconcile? && step.id < |w.ledger.reservations| && step.id !in done
       && w.ledger.reservations[step.id].identity == identity then AtLeastZero(FieldOf(c, step.reported))
    else 0
  }

  lemma StepReported(policy: Policy, w: World, step: Step, done: set<nat>)
    requires AreReported(w.ledger, done)
    ensures AreReported(Next(policy, w, step).ledger, NowDone(w, step, done))
  {
    hide Requested, UseOverride, FindOverride;
  }

  lemma StepRaises(policy: Policy, w: World, step: Step, done: set<nat>, identity: string, c: Counter)
    requires Conserved(w.ledger) && AreReported(w.ledger, done)
    ensures
      CounterOf(SessionOf(Next(policy, w, step).ledger, identity), c)
      == CounterOf(SessionOf(w.ledger, identity), c) + Contribution(w, step, done, identity, c)
  {
    hide Total;
    match step {
      case DoReconcile(id, reported) =>
        if id < |w.ledger.reservations| && w.ledger.reservations[id].actual.None? {
          assert w.ledger.reservations[id].identity in w.ledger.sessions;
          ReportRaises(w.ledger, id, reported);
          hide Conserved, AreReported, Reconcile;
        }
      case _ =>
        hide Requested, UseOverride, FindOverride, Conserved, AreReported;
    }
  }

  /** Over every run, in every mode and under any interleaving and duplicates, each counter of a session
      rises by its own field of the first report for each of the session's reservations, and requests by
      one each. */
  lemma {:induction false} RunReports(policy: Policy, w: World, steps: seq<Step>, done: set<nat>, identity: string,
                                      c: Counter)
    requires Conserved(w.ledger) && AreReported(w.ledger, done)
    ensures
      CounterOf(SessionOf(Run(policy, w, steps).ledger, identity), c)
      == CounterOf(SessionOf(w.ledger, identity), c) + FirstReports(policy, w, steps, done, identity, c)
    decreases |steps|
  {
    hide Conserved, AreReported, Next, CounterOf, FieldOf;
    if steps != [] {
      StepConserves(policy, w, steps[0]);
      StepReported(policy, w, steps[0], done);
      StepRaises(policy, w, steps[0], done, identity, c);
      RunReports(policy, Next(policy, w, steps[0]), steps[1..], NowDone(w, steps[0], done), identity, c);
      if steps[0].DoReconcile? && steps[0].id in done {
        assert done + {steps[0].id} == done;
      }
    }
  }

  /** From the empty tables the four token counters are the sums of the first reports, field by field. */
  lemma CountersAreReports(policy: Policy, clock: int, steps: seq<Step>, identity: string)
    ensures
      var w := World(clock, EMPTY);
      var session := SessionOf(Run(policy, w, steps).ledger, identity);
      && session.freshTokens == FirstReports(policy, w, steps, {}, identity, Fresh)
      && session.cacheRead == FirstReports(policy, w, steps, {}, identity, CacheRead)
      && session.cacheWrite == FirstReports(policy, w, steps, {}, identity, CacheWrite)
      && session.output == FirstReports(policy, w, steps, {}, identity, Output)
      && session.requests == FirstReports(policy, w, steps, {}, identity, Requests)
  {
    var w := World(clock, EMPTY);
    assert Conserved(w.ledger) && AreReported(w.ledger, {});
    hide Conserved, AreReported, Run, FirstReports;
    RunReports(policy, w, steps, {}, identity, Fresh);
    RunReports(policy, w, steps, {}, identity, CacheRead);
    RunReports(policy, w, steps, {}, identity, CacheWrite);
    RunReports(policy, w, steps, {}, identity, Output);
    RunReports(policy, w, steps, {}, identity, Requests);
  }

  // ----- in process -----

  /** In process every report, not only the first, raises each counter by its own field. */
  lemma CallRaises(policy: Policy, state: Memory.State, reported: Reported, prefix: string)
    ensures Rises(state.session, Memory.ReconcileCall(policy, state, reported, prefix).0.session, reported)
  {
    hide Memory.ReconcileRequest;
  }

  // The sum of one field over the reports of a session's calls.
  function Reports(calls: seq<Memory.Call>, c: Counter): int {
    if calls == [] then 0
    else
      var last := calls[|calls| - 1];
      Reports(calls[..|calls| - 1], c) + if last.DoReconcile? then AtLeastZero(FieldOf(c, last.reported)) else 0
  }

  lemma {:induction false} CallsAreReports(policy: Policy, calls: seq<Memory.Call>, c: Counter)
    ensures CounterOf(Memory.Run(policy, Memory.FRESH, calls).session, c) == Reports(calls, c)
  {
    if calls != [] {
      var front, last := calls[..|calls| - 1], calls[|calls| - 1];
      CallsAreReports(policy, front, c);
      if last.DoReconcile? {
        CallRaises(policy, Memory.Run(policy, Memory.FRESH, front), last.reported, last.prefix);
        hide Memory.ReconcileCall;
      }
    }
  }

  // A call that reports enough fresh tokens and no cache read, on a prefix.
  predicate CountsAsUncached(policy: Policy, reported: Reported, prefix: string) {
    && prefix != "" && AtLeastZero(reported.freshTokens) >= policy.uncachedMinTokens
    && AtLeastZero(reported.cacheRead) == 0
  }

  function UncachedReports(policy: Policy, calls: seq<Memory.Call>, prefix: string): nat {
    if calls == [] then 0
    else
      var last := calls[|calls| - 1];
      UncachedReports(policy, calls[..|calls| - 1], prefix)
      + if last.DoReconcile? && last.prefix == prefix && CountsAsUncached(policy, last.reported, prefix) then 1 else 0
  }

  /** How often a prefix was used without the cache is counted over the whole session. */
  lemma {:induction false} PrefixCounts(policy: Policy, calls: seq<Memory.Call>, prefix: string)
    ensures
      var uncached := Memory.Run(policy, Memory.FRESH, calls).uncached;
      (if prefix in uncached then uncached[prefix] else 0) == UncachedReports(policy, calls, prefix)
  {
    if calls != [] {
      PrefixCounts(policy, calls[..|calls| - 1], prefix);
      hide Memory.PreflightRequest, Memory.ReconcileRequest;
    }
  }
}
