/** The in-process Max Guard: one state per session identity. */
module GuardMemory {
  import opened Bytes
  import opened GuardLedger

  datatype State = State(session: Session, uncached: map<string, nat>)

  const FRESH := State(NewSession(), map[])

  datatype Verdict = Verdict(action: Action, reason: string, freshTokens: int, estimate: int, requests: int)

  function Latched(state: State, action: Action, reason: string): State {
    if action == Stop then state.(session := state.session.(paused := true, reason := Some(reason))) else state
  }

  function PreflightRequest(policy: Policy, session: Session, estimate: nat): (Action, string) {
    if session.paused then (Stop, if session.reason.GetOr("") != "" then session.reason.value else "session_paused")
    else if estimate >= policy.pauseRequest then (Stop, "estimated_request_tokens")
    else if session.freshTokens + estimate >= policy.pauseFresh then (Stop, "session_fresh_token_allowance")
    else if estimate >= policy.warnRequest then (WarnOnly, "large_estimated_request")
    else if session.freshTokens + estimate >= policy.warnFresh then (WarnOnly, "session_fresh_token_warning")
    else (Proceed, "within_configured_allowance")
  }

  function Preflight(policy: Policy, state: State, estimate: nat): (State, Verdict) {
    var (requested, reason) := PreflightRequest(policy, state.session, estimate);
    var action := Effective(policy.mode, requested);
    (Latched(state, action, reason),
     Verdict(action, reason, state.session.freshTokens, estimate, state.session.requests))
  }

  predicate Uncached(policy: Policy, u: Usage, prefix: string) {
    prefix != "" && u.freshTokens >= policy.uncachedMinTokens && u.cacheRead == 0
  }

  function CountPrefix(policy: Policy, uncached: map<string, nat>, u: Usage, prefix: string): map<string, nat> {
    if Uncached(policy, u, prefix) then uncached[prefix := (if prefix in uncached then uncached[prefix] else 0) + 1]
    else uncached
  }

  // On the state after the usage was added and the prefix counted.
  function ReconcileRequest(policy: Policy, state: State, u: Usage, prefix: string): (Action, string) {
    var (requested, reason) :=
      if !Uncached(policy, u, prefix) || prefix !in state.uncached then (Proceed, "usage_reconciled")
      else if state.uncached[prefix] >= policy.uncachedPauseCalls then (Stop, "repeated_stable_prefix_without_cache")
      else if state.uncached[prefix] >= policy.uncachedWarnCalls then (WarnOnly, "stable_prefix_without_cache")
      else (Proceed, "usage_reconciled");
    if state.session.freshTokens >= policy.pauseFresh then (Stop, "session_fresh_token_allowance")
    else if state.session.freshTokens >= policy.warnFresh && requested == Proceed
      then (WarnOnly, "session_fresh_token_warning")
    else (requested, reason)
  }

  function ReconcileCall(policy: Policy, state: State, reported: Reported, prefix: string): (State, Verdict) {
    var u := UsageOf(reported);
    var added := State(AddUsage(state.session, u), CountPrefix(policy, state.uncached, u, prefix));
    var (requested, reason) := ReconcileRequest(policy, added, u, prefix);
    var action := Effective(policy.mode, requested);
    (Latched(added, action, reason), Verdict(action, reason, added.session.freshTokens, 0, added.session.requests))
  }

  function Operator(state: State, paused: bool, reason: string): State {
    var why := if reason == "" then "operator_pause" else reason;
    state.(session := state.session.(paused := paused, reason := if paused then Some(why) else None))
  }

  class MaxGuard {
    const policy: Policy
    var states: map<string, State>

    constructor (policy: Policy)
      ensures this.policy == policy && states == map[]
    {
      this.policy, states := policy, map[];
    }

    function StateOf(identity: string): State
      reads this
    {
      if identity in states then states[identity] else FRESH
    }

    method SetPause(identity: string, paused: bool, reason: string)
      modifies this
      ensures states == old(states)[identity := Operator(old(StateOf(identity)), paused, reason)]
    {
      var state := StateOf(identity);
      var why := if reason == "" then "operator_pause" else reason;
      state := state.(session := state.session.(paused := paused));
      state := state.(session := state.session.(reason := if paused then Some(why) else None));
      states := states[identity := state];
    }

    method PreflightCheck(identity: string, estimate: nat) returns (verdict: Verdict)
      modifies this
      ensures states == old(states)[identity := Preflight(policy, old(StateOf(identity)), estimate).0]
      ensures verdict == Preflight(policy, old(StateOf(identity)), estimate).1
    {
      var state := StateOf(identity);
      var (requested, reason) := PreflightRequest(policy, state.session, estimate);
      var action := Effective(policy.mode, requested);
      verdict := Verdict(action, reason, state.session.freshTokens, estimate, state.session.requests);
      if action == Stop {
        state := state.(session := state.session.(paused := true, reason := Some(reason)));
      }
      states := states[identity := state];
    }

    method Reconcile(identity: string, reported: Reported, prefix: string) returns (verdict: Verdict)
      modifies this
      ensures states == old(states)[identity := ReconcileCall(policy, old(StateOf(identity)), reported, prefix).0]
      ensures verdict == ReconcileCall(policy, old(StateOf(identity)), reported, prefix).1
    {
      var state, u := StateOf(identity), UsageOf(reported);
      state := state.(session := AddUsage(state.session, u));
      var requested, reason := Proceed, "usage_reconciled";
      if prefix != "" && u.freshTokens >= policy.uncachedMinTokens && u.cacheRead == 0 {
        var count := (if prefix in state.uncached then state.uncached[prefix] else 0) + 1;
        state := state.(uncached := state.uncached[prefix := count]);
        if count >= policy.uncachedPauseCalls {
          requested, reason := Stop, "repeated_stable_prefix_without_cache";
        } else if count >= policy.uncachedWarnCalls {
          requested, reason := WarnOnly, "stable_prefix_without_cache";
        }
      }
      if state.session.freshTokens >= policy.pauseFresh {
        requested, reason := Stop, "session_fresh_token_allowance";
      } else if state.session.freshTokens >= policy.warnFresh && requested == Proceed {
        requested, reason := WarnOnly, "session_fresh_token_warning";
      }
      var action := Effective(policy.mode, requested);
      if action == Stop {
        state := state.(session := state.session.(paused := true, reason := Some(reason)));
      }
      states := states[identity := state];
      verdict := Verdict(action, reason, state.session.freshTokens, 0, state.session.requests);
    }
  }

  // ----- runs of one session -----

  datatype Call =
    | DoPreflight(estimate: nat)
    | DoReconcile(reported: Reported, prefix: string)
    | DoOperator(paused: bool, reason: string)

  function After(policy: Policy, state: State, call: Call): State {
    match call
    case DoPreflight(estimate) => Preflight(policy, state, estimate).0
    case DoReconcile(reported, prefix) => ReconcileCall(policy, state, reported, prefix).0
    case DoOperator(paused, reason) => Operator(state, paused, reason)
  }

  // The action a call answers with; an operator gets none.
  function ActionOf(policy: Policy, state: State, call: Call): Action {
    match call
    case DoPreflight(estimate) => Preflight(policy, state, estimate).1.action
    case DoReconcile(reported, prefix) => ReconcileCall(policy, state, reported, prefix).1.action
    case DoOperator(_, _) => Proceed
  }

  function Run(policy: Policy, state: State, calls: seq<Call>): State {
    if calls == [] then state else After(policy, Run(policy, state, calls[..|calls| - 1]), calls[|calls| - 1])
  }

  lemma {:induction false} PausedLasts(policy: Policy, state: State, calls: seq<Call>)
    requires state.session.paused && NeverCleared(calls)
    ensures Run(policy, state, calls).session.paused
  {
    hide PreflightRequest, ReconcileRequest;
    if calls != [] {
      PausedLasts(policy, state, calls[..|calls| - 1]);
      assert !(calls[|calls| - 1].DoOperator? && !calls[|calls| - 1].paused);
    }
  }

  // No operator clears the pause.
  predicate NeverCleared(calls: seq<Call>) {
    forall i :: 0 <= i < |calls| ==> !(calls[i].DoOperator? && !calls[i].paused)
  }

  /** Once either method has answered stop, every later preflight is stopped until an operator
      clears the pause, however small the request. Only pause mode ever answers stop. */
  lemma StopLatches(policy: Policy, state: State, call: Call, calls: seq<Call>, estimate: nat)
    requires ActionOf(policy, state, call) == Stop && NeverCleared(calls)
    ensures policy.mode == Pause
    ensures Preflight(policy, Run(policy, After(policy, state, call), calls), estimate).1.action == Stop
  {
    hide ReconcileRequest;
    PausedLasts(policy, After(policy, state, call), calls);
  }

  // How many of the calls were uncached ones of this prefix.
  function UncachedCalls(policy: Policy, calls: seq<Call>, prefix: string): nat {
    if calls == [] then 0
    else
      var last := calls[|calls| - 1];
      UncachedCalls(policy, calls[..|calls| - 1], prefix)
      + if last.DoReconcile? && last.prefix == prefix && Uncached(policy, UsageOf(last.reported), prefix) then 1 else 0
  }

  lemma {:induction false} CountsUncached(policy: Policy, calls: seq<Call>, prefix: string)
    ensures var uncached := Run(policy, FRESH, calls).uncached;
            (if prefix in uncached then uncached[prefix] else 0) == UncachedCalls(policy, calls, prefix)
  {
    hide PreflightRequest, ReconcileRequest, UsageOf, Uncached;
    if calls != [] {
      CountsUncached(policy, calls[..|calls| - 1], prefix);
    }
  }

  /** In pause mode a stable prefix stops its session with the first uncached call that brings it to
      the limit, however many other calls, cached or not, lie between. */
  lemma UncachedPrefixStops(policy: Policy, calls: seq<Call>, reported: Reported, prefix: string)
    requires policy.mode == Pause && Uncached(policy, UsageOf(reported), prefix)
    requires UncachedCalls(policy, calls, prefix) + 1 >= policy.uncachedPauseCalls
    ensures ReconcileCall(policy, Run(policy, FRESH, calls), reported, prefix).1.action == Stop
  {
    hide UsageOf, Uncached, Run;
    CountsUncached(policy, calls, prefix);
  }
}
