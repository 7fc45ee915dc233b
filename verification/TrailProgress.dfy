/** How the trail moves on and how it stops: forced stagings empty the outbox, a silent sidecar makes
    the newest checkpoint fail, and every staging after that only records the same gap again. */
module TrailProgress {
  import opened Bytes
  import opened Evidence
  import opened SequenceOrder
  import opened Trail
  import opened TrailSafety
  import opened TrailRuns

  // ----- forced stagings empty the outbox -----

  // Receipts no checkpoint covers yet.
  function Backlog(s: State): int {
    s.next - 1 - Covered(s.checkpoints)
  }

  lemma BacklogIsOutbox(cfg: Config, s: State)
    requires Inv(cfg, s)
    ensures Backlog(s) >= 0 && (Backlog(s) == 0 <==> s.outbox == {}) && (s.outbox == {} <==> Queued(s) == {})
  {
    hide Anchored, Authentic, ListOk;
    if s.outbox == {} {
      assert s.next - 1 !in s.outbox;
    } else {
      var k := Pick(s.outbox);
      assert k in Queued(s);
    }
  }

  lemma StagingAllocatesNothing(cfg: Config, s: State, step: Step)
    requires step.DoStage?
    ensures Next(cfg, s, step).next == s.next
  {
    hide BuildNext, FirstSequences, Newest;
  }

  lemma ForcedIsBatch(cfg: Config, s: State, step: Step)
    requires step.DoStage? && step.force && Queued(s) != {}
    ensures Next(cfg, s, step) == StageBatch(cfg, s, Clamp(step.maxReceipts), step.stageKey).0
    ensures Clash(cfg, s, step) <==>
      var r := StageBatch(cfg, s, Clamp(step.maxReceipts), step.stageKey).1; r.Staged? && IdTaken(s.checkpoints, r.id)
  {
    hide StageBatch, IdTaken;
  }

  lemma NextRowGrows(cfg: Config, s: State, c: CheckpointRow)
    requires NextRow(cfg, s, c)
    ensures Covered(s.checkpoints + [c]) > Covered(s.checkpoints) && !NewestFailed(s.checkpoints + [c])
  {
    hide Built;
  }

  lemma ForcedStaging(cfg: Config, s: State, step: Step)
    requires Inv(cfg, s) && !NewestFailed(s.checkpoints) && step.DoStage? && step.force && !Clash(cfg, s, step)
    ensures var t := Next(cfg, s, step);
            && Inv(cfg, t) && !NewestFailed(t.checkpoints)
            && (Backlog(s) > 0 ==> Backlog(t) < Backlog(s)) && (Backlog(s) == 0 ==> t == s)
  {
    StepKeeps(cfg, s, step);
    BacklogIsOutbox(cfg, s);
    if Queued(s) != {} {
      StagingAllocatesNothing(cfg, s, step);
      ForcedIsBatch(cfg, s, step);
      hide Inv, StageBatch, Covered, Next, NextRow, NewestFailed;
      var c := StagesNext(cfg, s, Clamp(step.maxReceipts), step.stageKey);
      NextRowGrows(cfg, s, c);
    }
  }

  /** While the newest checkpoint is not failed, as many forced stagings as there are waiting receipts
      leave the outbox empty. */
  lemma {:induction false} StagingsEmptyOutbox(cfg: Config, s: State, steps: seq<Step>)
    requires Inv(cfg, s) && !NewestFailed(s.checkpoints) && NoClash(cfg, s, steps)
    requires forall i :: 0 <= i < |steps| ==> steps[i].DoStage? && steps[i].force
    requires |s.outbox| <= |steps| || Backlog(s) <= |steps|
    ensures Run(cfg, s, steps).outbox == {}
    decreases |steps|
  {
    hide Inv, Next, Clash, Backlog, NewestFailed;
    BacklogIsOutbox(cfg, s);
    BacklogCounts(cfg, s);
    if steps != [] {
      ForcedStaging(cfg, s, steps[0]);
      BacklogIsOutbox(cfg, Next(cfg, s, steps[0]));
      BacklogCounts(cfg, Next(cfg, s, steps[0]));
      StagingsEmptyOutbox(cfg, Next(cfg, s, steps[0]), steps[1..]);
    }
  }

  function Interval(lo: int, hi: int): (r: set<int>)
    ensures forall k :: k in r <==> lo < k < hi
    ensures |r| == if hi - lo > 1 then hi - lo - 1 else 0
    decreases hi - lo
  {
    if hi - lo <= 1 then {} else Interval(lo, hi - 1) + {hi - 1}
  }

  lemma BacklogCounts(cfg: Config, s: State)
    requires Inv(cfg, s)
    ensures Backlog(s) == |s.outbox|
  {
    hide Anchored, Authentic, ListOk;
    assert s.outbox == Interval(Covered(s.checkpoints), s.next);
  }

  // ----- how a checkpoint comes to fail -----

  // Only the newest checkpoint still waits to be signed.
  predicate OnlyNewestStaged(cps: seq<CheckpointRow>) {
    && cps != [] && cps[|cps| - 1].status == Signing
    && forall i :: 0 <= i < |cps| - 1 ==> cps[i].status != Signing
  }

  lemma NewestIsOldest(cps: seq<CheckpointRow>)
    requires OnlyNewestStaged(cps)
    ensures OldestSigning(cps) == Some(|cps| - 1)
  {
  }

  lemma SilentAttempt(cfg: Config, s: State, key: string, fingerprint: string)
    requires Inv(cfg, s) && OnlyNewestStaged(s.checkpoints)
    ensures Sign(cfg, s, key, fingerprint, NoResponse).0 == Fail(cfg, s, |s.checkpoints| - 1).0
  {
    hide Inv, Fail, CheckpointPayload, OldestSigning, ValidReply, Finalize;
    StoredHashMatches(cfg, s, |s.checkpoints| - 1);
    NewestIsOldest(s.checkpoints);
  }

  lemma RemainingOfNewest(cfg: Config, cps: seq<CheckpointRow>)
    requires OnlyNewestStaged(cps)
    ensures Remaining(cfg, cps) == Cap(cfg) - cps[|cps| - 1].attempts
  {
    hide Cap;
    var front := cps[..|cps| - 1];
    NoSigningNoneRemaining(cfg, front);
  }

  // One unanswered attempt on the newest checkpoint.
  lemma FailedAttempt(cfg: Config, s: State)
    requires OnlyNewestStaged(s.checkpoints) && SigningOk(cfg, s.checkpoints[|s.checkpoints| - 1])
    ensures var n, t := |s.checkpoints| - 1, Fail(cfg, s, |s.checkpoints| - 1).0;
            |t.checkpoints| == |s.checkpoints| &&
            if s.checkpoints[n].attempts + 1 == Cap(cfg) then NewestFailed(t.checkpoints)
            else OnlyNewestStaged(t.checkpoints) && t.checkpoints[n].attempts == s.checkpoints[n].attempts + 1
  {
  }

  lemma SilentStep(cfg: Config, s: State, key: string, fingerprint: string)
    requires Inv(cfg, s) && OnlyNewestStaged(s.checkpoints)
    ensures var t := Next(cfg, s, DoSign(key, fingerprint, NoResponse));
            && Inv(cfg, t) && Remaining(cfg, s.checkpoints) > 0
            && if Remaining(cfg, s.checkpoints) == 1 then NewestFailed(t.checkpoints)
               else OnlyNewestStaged(t.checkpoints)
                    && Remaining(cfg, t.checkpoints) == Remaining(cfg, s.checkpoints) - 1
  {
    hide Inv, Sign, Fail, Remaining, Cap;
    AttemptsOf(cfg, s, |s.checkpoints| - 1);
    RemainingOfNewest(cfg, s.checkpoints);
    SilentAttempt(cfg, s, key, fingerprint);
    FailedAttempt(cfg, s);
    SignKeeps(cfg, s, key, fingerprint, NoResponse);
    var t := Next(cfg, s, DoSign(key, fingerprint, NoResponse));
    if OnlyNewestStaged(t.checkpoints) {
      RemainingOfNewest(cfg, t.checkpoints);
    }
  }

  lemma RunOfRepeated(cfg: Config, s: State, step: Step, n: nat)
    requires n > 0
    ensures Run(cfg, s, Repeated(step, n)) == Run(cfg, Next(cfg, s, step), Repeated(step, n - 1))
  {
    hide Next;
    assert Repeated(step, n)[1..] == Repeated(step, n - 1);
  }

  lemma RunOfNothing(cfg: Config, s: State, step: Step)
    ensures Run(cfg, s, Repeated(step, 0)) == s
  {
  }

  /** From every reachable state whose only staged checkpoint is the newest, as many unanswered
      attempts as remain leave a failed newest checkpoint. */
  lemma {:induction false} SilenceFailsNewest(cfg: Config, s: State, key: string, fingerprint: string)
    requires Inv(cfg, s) && OnlyNewestStaged(s.checkpoints)
    ensures Remaining(cfg, s.checkpoints) > 0
    ensures var t := Run(cfg, s, Repeated(DoSign(key, fingerprint, NoResponse), Remaining(cfg, s.checkpoints)));
            Inv(cfg, t) && NewestFailed(t.checkpoints)
    decreases Remaining(cfg, s.checkpoints)
  {
    hide *;
    var step := DoSign(key, fingerprint, NoResponse);
    SilentStep(cfg, s, key, fingerprint);
    var left, t := Remaining(cfg, s.checkpoints), Next(cfg, s, step);
    RunOfRepeated(cfg, s, step, left);
    if left == 1 {
      RunOfNothing(cfg, t, step);
    } else {
      SilenceFailsNewest(cfg, t, key, fingerprint);
    }
  }

  // ----- the gap table after a failure -----

  // A staging that finds enough, or old enough, receipts to go on.
  predicate Proceeds(s: State, step: Step) {
    step.DoStage? && Queued(s) != {} &&
    (step.force || |Queued(s)| >= Clamp(step.maxReceipts)
     || !forall k :: k in Queued(s) ==> step.now - s.receipts[k].createdAt < step.maxAge)
  }

  function Proceeding(cfg: Config, s: State, steps: seq<Step>): nat
    decreases |steps|
  {
    if steps == [] then 0
    else (if Proceeds(s, steps[0]) then 1 else 0) + Proceeding(cfg, Next(cfg, s, steps[0]), steps[1..])
  }

  function Copies(gap: (int, int), n: nat): seq<(int, int)> {
    if n == 0 then [] else [gap] + Copies(gap, n - 1)
  }

  // The gap the worker sees.
  function GapOf(s: State): (int, int) {
    (Expected(s.checkpoints), Covered(s.checkpoints) + 1)
  }

  lemma AppendRecordsNoGap(cfg: Config, s: State, step: Step)
    requires step.DoAppend?
    ensures Next(cfg, s, step).gaps == s.gaps
  {
    hide ReceiptBody, ReceiptHash;
  }

  lemma StagingRecordsGap(cfg: Config, s: State, step: Step)
    requires Inv(cfg, s) && NewestFailed(s.checkpoints) && step.DoStage?
    ensures Next(cfg, s, step).gaps == s.gaps + if Proceeds(s, step) then [GapOf(s)] else []
  {
    hide Inv, StageBatch, Expected, Covered, NewestFailed, Queued;
    if Queued(s) != {} {
      FailedNewestBlocks(cfg, s, Clamp(step.maxReceipts), step.stageKey);
    }
  }

  lemma SigningRecordsNoGap(cfg: Config, s: State, step: Step)
    requires Inv(cfg, s) && NewestFailed(s.checkpoints) && step.DoSign?
    ensures Next(cfg, s, step).gaps == s.gaps
  {
    hide *;
    ListOfInv(cfg, s);
    NothingSigning(cfg, s.checkpoints);
    IdleSigner(cfg, s, step);
  }

  lemma GapStep(cfg: Config, s: State, step: Step)
    requires Inv(cfg, s) && NewestFailed(s.checkpoints)
    ensures Next(cfg, s, step).gaps == s.gaps + if Proceeds(s, step) then [GapOf(s)] else []
  {
    hide Inv, NewestFailed, GapOf, Next, Queued;
    match step
    case DoAppend(_, _, _) => AppendRecordsNoGap(cfg, s, step);
    case DoStage(_, _, _, _, _) => StagingRecordsGap(cfg, s, step);
    case DoSign(_, _, _) => SigningRecordsNoGap(cfg, s, step);
  }

  lemma SameGap(s: State, t: State)
    requires s.checkpoints == t.checkpoints
    ensures GapOf(s) == GapOf(t)
  {
  }

  /** After a failed newest checkpoint every staging that proceeds appends one more row to the gap
      table, always the same one, over every run. */
  lemma {:induction false} GapsPileUp(cfg: Config, s: State, steps: seq<Step>)
    requires Inv(cfg, s) && NewestFailed(s.checkpoints)
    ensures Run(cfg, s, steps).gaps == s.gaps + Copies(GapOf(s), Proceeding(cfg, s, steps))
    decreases |steps|
  {
    hide Inv, Next, NewestFailed, Proceeds, GapOf, Clash;
    if steps != [] {
      var t := Next(cfg, s, steps[0]);
      FailedNewestStep(cfg, s, steps[0]);
      StepKeeps(cfg, s, steps[0]);
      GapStep(cfg, s, steps[0]);
      SameGap(s, t);
      GapsPileUp(cfg, t, steps[1..]);
    }
  }
}
