/** The audit trail over whole runs: safety, immutability of history, and signing progress. */
module TrailRuns {
  import opened Bytes
  import opened Json
  import opened Merkle
  import opened Evidence
  import opened Checkpoint
  import opened SequenceOrder
  import opened Trail
  import opened TrailSafety

  // A stage step whose new checkpoint id is already taken: the insert is skipped.
  predicate Clash(cfg: Config, s: State, step: Step) {
    step.DoStage? &&
      var r := Stage(cfg, s, step.maxReceipts, step.maxAge, step.force, step.now, step.stageKey).1;
      r.Staged? && IdTaken(s.checkpoints, r.id)
  }

  ghost predicate NoClash(cfg: Config, s: State, steps: seq<Step>)
    decreases |steps|
  {
    steps == [] || (!Clash(cfg, s, steps[0]) && NoClash(cfg, Next(cfg, s, steps[0]), steps[1..]))
  }

  lemma StageKeeps(cfg: Config, s: State, step: Step)
    requires Inv(cfg, s) && step.DoStage? && !Clash(cfg, s, step)
    ensures Inv(cfg, Next(cfg, s, step))
  {
    hide Inv, StageBatch;
    var limit := Clamp(step.maxReceipts);
    var t := Next(cfg, s, step);
    if Queued(s) != {} && t != s {
      assert t == StageBatch(cfg, s, limit, step.stageKey).0;
      if NewestFailed(s.checkpoints) {
        FailedNewestBlocks(cfg, s, limit, step.stageKey);
        GapKeeps(cfg, s);
      } else {
        OnlyStagedMoves(cfg, s, limit, step.stageKey);
        var c := StagesNext(cfg, s, limit, step.stageKey);
      }
    }
  }

  // Without a failed newest checkpoint, the tables move only when a checkpoint is staged.
  lemma OnlyStagedMoves(cfg: Config, s: State, limit: nat, keyId: string)
    requires Inv(cfg, s) && Queued(s) != {} && 0 < limit <= 10000 && !NewestFailed(s.checkpoints)
    ensures StageBatch(cfg, s, limit, keyId).0 == s || StageBatch(cfg, s, limit, keyId).1.Staged?
  {
    hide Inv, BuildNext, Commit, FirstSequences, Newest;
    GapIffNewestFailed(cfg, s.checkpoints) by { ListOfInv(cfg, s); }
    BatchIsNext(cfg, s, limit);
    BuildSucceeds(cfg, s, limit, keyId);
  }

  lemma StepKeeps(cfg: Config, s: State, step: Step)
    requires Inv(cfg, s) && !Clash(cfg, s, step)
    ensures Inv(cfg, Next(cfg, s, step))
  {
    hide Inv, Append, Stage, Sign, Clash;
    match step
    case DoAppend(members, control, createdAt) => AppendKeeps(cfg, s, members, control, createdAt);
    case DoStage(_, _, _, _, _) => StageKeeps(cfg, s, step);
    case DoSign(key, fingerprint, response) => SignKeeps(cfg, s, key, fingerprint, response);
  }

  // Safety over whole runs, from the empty trail or any state that keeps the invariant.
  lemma {:induction false} RunKeeps(cfg: Config, s: State, steps: seq<Step>)
    requires Inv(cfg, s) && NoClash(cfg, s, steps)
    ensures Inv(cfg, Run(cfg, s, steps))
    decreases |steps|
  {
    hide Inv, Next, Clash;
    if steps != [] {
      StepKeeps(cfg, s, steps[0]);
      RunKeeps(cfg, Next(cfg, s, steps[0]), steps[1..]);
    }
  }

  lemma EmptyTrail(cfg: Config)
    ensures Inv(cfg, EMPTY)
  {
  }

  // ----- an id clash is a uuid5 collision -----

  function NameOf(cfg: Config, s: State, c: CheckpointRow): string
    requires InRange(s.receipts, c)
  {
    RowsName(cfg.lib, RowsOfCheckpoint(s.receipts, c), cfg.instanceId, c.keyId, c.previous)
  }

  lemma NumberEndsAtColon(m: nat, n: nat, x: string, y: string)
    requires Decimal(m) + (":" + x) == Decimal(n) + (":" + y)
    ensures m == n
  {
    JsonParser.NatReads(m, ":" + x);
    JsonParser.NatReads(n, ":" + y);
  }

  // Checkpoints of one instance that start at different numbers have different stable names.
  lemma NamesDiffer(instanceId: string, m: nat, n: nat, x: string, y: string)
    requires m != n
    ensures instanceId + ":" + IntText(m) + ":" + x != instanceId + ":" + IntText(n) + ":" + y
  {
    var p := instanceId + ":";
    var a, b := p + (Decimal(m) + (":" + x)), p + (Decimal(n) + (":" + y));
    assert instanceId + ":" + IntText(m) + ":" + x == a;
    assert instanceId + ":" + IntText(n) + ":" + y == b;
    hide *;
    if a == b {
      assert Decimal(m) + (":" + x) == a[|p|..] == b[|p|..] == Decimal(n) + (":" + y);
      NumberEndsAtColon(m, n, x, y);
    }
  }

  // The tail of a stable name after the first sequence number.
  function NameTail(cfg: Config, s: State, c: CheckpointRow): string
    requires InRange(s.receipts, c)
  {
    var rows := RowsOfCheckpoint(s.receipts, c);
    IntText(c.last) + ":" + Hex(Root(cfg.lib.sha256, Digests(rows))) + ":" + PreviousText(c.previous) + ":" + c.keyId
  }

  lemma RowEnds(receipts: map<int, ReceiptRow>, c: CheckpointRow)
    requires InRange(receipts, c)
    ensures var rows := RowsOfCheckpoint(receipts, c);
      rows[0].sequence == c.first && rows[|rows| - 1].sequence == c.last
  {
  }

  lemma NameForm(cfg: Config, s: State, c: CheckpointRow)
    requires InRange(s.receipts, c)
    ensures NameOf(cfg, s, c) == cfg.instanceId + ":" + IntText(c.first) + ":" + NameTail(cfg, s, c)
  {
    RowEnds(s.receipts, c);
    hide Root, Digests, RowsOfCheckpoint, IntText, Hex, PreviousText;
    hide BatchRows, InRange;
    var root := Root(cfg.lib.sha256, Digests(RowsOfCheckpoint(s.receipts, c)));
    var front := cfg.instanceId + ":" + IntText(c.first) + ":";
    Regroup(front, IntText(c.last), Hex(root), PreviousText(c.previous), c.keyId);
  }

  lemma Regroup(front: string, a: string, b: string, c: string, d: string)
    ensures front + a + ":" + b + ":" + c + ":" + d == front + (a + ":" + b + ":" + c + ":" + d)
  {
    Associate(front, a, ":");
    Associate(front, a + ":", b);
    Associate(front, a + ":" + b, ":");
    Associate(front, a + ":" + b + ":", c);
    Associate(front, a + ":" + b + ":" + c, ":");
    Associate(front, a + ":" + b + ":" + c + ":", d);
    hide *;
  }

  lemma Associate(x: string, y: string, z: string)
    ensures x + y + z == x + (y + z)
  {
  }

  // The only way the invariant can be lost is a uuid5 collision between two different names.
  lemma ClashIsCollision(cfg: Config, s: State, step: Step) returns (c: CheckpointRow, i: nat)
    requires Inv(cfg, s) && Clash(cfg, s, step)
    ensures i < |s.checkpoints| && InRange(s.receipts, s.checkpoints[i]) && InRange(s.receipts, c)
    ensures NameOf(cfg, s, c) != NameOf(cfg, s, s.checkpoints[i])
    ensures cfg.lib.uuid5(NameOf(cfg, s, c)) == cfg.lib.uuid5(NameOf(cfg, s, s.checkpoints[i]))
  {
    hide StageBatch, Inv, NewestFailed, Expected, Covered, NextRow, InRange;
    var limit := Clamp(step.maxReceipts);
    if NewestFailed(s.checkpoints) {
      FailedNewestBlocks(cfg, s, limit, step.stageKey);
      assert false;
    } else {
      c := StagesNext(cfg, s, limit, step.stageKey);
      i :| 0 <= i < |s.checkpoints| && s.checkpoints[i].id == c.id;
      ClashingNames(cfg, s, c, i);
    }
  }

  lemma ClashingNames(cfg: Config, s: State, c: CheckpointRow, i: nat)
    requires Inv(cfg, s) && NextRow(cfg, s, c) && i < |s.checkpoints| && s.checkpoints[i].id == c.id
    ensures InRange(s.receipts, s.checkpoints[i]) && InRange(s.receipts, c)
    ensures NameOf(cfg, s, c) != NameOf(cfg, s, s.checkpoints[i])
    ensures cfg.lib.uuid5(NameOf(cfg, s, c)) == cfg.lib.uuid5(NameOf(cfg, s, s.checkpoints[i]))
  {
    hide Anchored, Authentic, Root, Digests, RowsOfCheckpoint, BuildCheckpoint, NameTail, RowsName, IntText;
    var d := s.checkpoints[i];
    TileBounds(s.checkpoints, i);
    AnchoredBuilt(cfg, s.receipts, d);
    NameForm(cfg, s, c);
    NameForm(cfg, s, d);
    NamesDiffer(cfg.instanceId, c.first, d.first, NameTail(cfg, s, c), NameTail(cfg, s, d));
  }

  lemma AnchoredBuilt(cfg: Config, receipts: map<int, ReceiptRow>, c: CheckpointRow)
    requires Anchored(cfg, receipts, c)
    ensures Built(cfg, receipts, c)
  {
  }

  // ----- history is never rewritten -----

  // Earlier checkpoints keep everything but their signing status, resolved ones keep everything,
  // and receipts keep everything that was hashed.
  ghost predicate Extends(s: State, t: State) {
    && |s.checkpoints| <= |t.checkpoints|
    && (forall i :: 0 <= i < |s.checkpoints| ==> SameButStatus(s.checkpoints[i], t.checkpoints[i]))
    && (forall i :: 0 <= i < |s.checkpoints| && s.checkpoints[i].status != Signing ==>
      t.checkpoints[i] == s.checkpoints[i])
    && (forall k :: k in s.receipts ==> k in t.receipts && t.receipts[k].body == s.receipts[k].body
                                        && t.receipts[k].digest == s.receipts[k].digest)
    && (forall k :: k in s.receipts && s.receipts[k].status == InVerified ==> t.receipts[k].status == InVerified)
  }

  lemma AppendExtends(cfg: Config, s: State, members: Object, control: bool, createdAt: int)
    ensures Extends(s, Append(cfg, s, members, control, createdAt))
  {
    hide ReceiptBody, ReceiptHash;
  }

  lemma FailExtends(cfg: Config, s: State, i: nat)
    requires i < |s.checkpoints| && s.checkpoints[i].status == Signing
    ensures Extends(s, Fail(cfg, s, i).0)
  {
  }

  lemma FinalizeExtends(s: State, i: nat, seal: Seal)
    requires i < |s.checkpoints| && s.checkpoints[i].status == Signing
    ensures Extends(s, Finalize(s, i, seal))
  {
  }

  lemma SignExtends(cfg: Config, s: State, key: string, fingerprint: string, response: Response)
    ensures Extends(s, Sign(cfg, s, key, fingerprint, response).0)
  {
    assert Extends(s, s);
    hide Fail, Finalize, Extends, CheckpointPayload;
    match OldestSigning(s.checkpoints) {
      case None =>
      case Some(i) =>
        FailExtends(cfg, s, i);
        if response.Reply? && ValidReply(cfg, response, s.checkpoints[i], key, fingerprint) {
          match StoredFingerprint(response.fingerprint) {
            case None =>
            case Some(stored) =>
              FinalizeExtends(s, i, Seal(response.signature.value, response.algorithm.value, stored));
          }
        }
    }
  }

  lemma GapExtends(cfg: Config, s: State)
    requires Inv(cfg, s)
    ensures Extends(s, RecordGap(s, Expected(s.checkpoints), Covered(s.checkpoints) + 1))
  {
    hide Inv, Expected, Covered;
    GapKeeps(cfg, s);
  }

  lemma StageExtends(cfg: Config, s: State, step: Step)
    requires Inv(cfg, s) && step.DoStage? && !Clash(cfg, s, step)
    ensures Extends(s, Next(cfg, s, step))
  {
    assert Extends(s, s);
    hide Inv, StageBatch, Extends, Queued, NewestFailed, Expected, Covered, IdTaken;
    var limit := Clamp(step.maxReceipts);
    if Queued(s) != {} {
      if NewestFailed(s.checkpoints) {
        FailedNewestBlocks(cfg, s, limit, step.stageKey);
        GapExtends(cfg, s);
      } else {
        OnlyStagedMoves(cfg, s, limit, step.stageKey);
        if StageBatch(cfg, s, limit, step.stageKey).1.Staged? {
          CommitExtends(cfg, s, limit, step.stageKey);
        }
      }
    }
  }

  lemma StepExtends(cfg: Config, s: State, step: Step)
    requires Inv(cfg, s) && !Clash(cfg, s, step)
    ensures Extends(s, Next(cfg, s, step))
  {
    hide Inv, Append, Stage, Sign, Clash, Extends;
    match step
    case DoAppend(members, control, createdAt) => AppendExtends(cfg, s, members, control, createdAt);
    case DoStage(_, _, _, _, _) => StageExtends(cfg, s, step);
    case DoSign(key, fingerprint, response) => SignExtends(cfg, s, key, fingerprint, response);
  }

  lemma CommitExtends(cfg: Config, s: State, limit: nat, keyId: string)
    requires Inv(cfg, s) && Queued(s) != {} && 0 < limit <= 10000
    requires StageBatch(cfg, s, limit, keyId).1.Staged?
    ensures Extends(s, StageBatch(cfg, s, limit, keyId).0)
  {
    hide AllAnchored, Authentic, ListOk, Newest, BuildNext, RangeTaken, IdTaken, FirstSequences, Numbered, RecordGap;
  }

  lemma ExtendsTransitive(s: State, t: State, u: State)
    requires Extends(s, t) && Extends(t, u)
    ensures Extends(s, u)
  {
  }

  lemma {:induction false} RunExtends(cfg: Config, s: State, steps: seq<Step>)
    requires Inv(cfg, s) && NoClash(cfg, s, steps)
    ensures Extends(s, Run(cfg, s, steps))
    decreases |steps|
  {
    assert Extends(s, s);
    hide Inv, Next, Clash, Extends;
    if steps != [] {
      StepKeeps(cfg, s, steps[0]);
      StepExtends(cfg, s, steps[0]);
      RunExtends(cfg, Next(cfg, s, steps[0]), steps[1..]);
      ExtendsTransitive(s, Next(cfg, s, steps[0]), Run(cfg, s, steps));
    }
  }

  // ----- a failed newest checkpoint stops the trail -----

  lemma StageOverFailed(cfg: Config, s: State, step: Step)
    requires Inv(cfg, s) && NewestFailed(s.checkpoints) && step.DoStage?
    ensures !Clash(cfg, s, step) && Next(cfg, s, step).checkpoints == s.checkpoints
  {
    hide Inv, StageBatch, NewestFailed, Expected, Covered;
    if Queued(s) != {} {
      FailedNewestBlocks(cfg, s, Clamp(step.maxReceipts), step.stageKey);
    }
  }

  lemma AppendKeepsList(cfg: Config, s: State, members: Object, control: bool, createdAt: int)
    ensures Append(cfg, s, members, control, createdAt).checkpoints == s.checkpoints
  {
    hide ReceiptBody, ReceiptHash;
  }

  lemma FailedNewestStep(cfg: Config, s: State, step: Step)
    requires Inv(cfg, s) && NewestFailed(s.checkpoints)
    ensures !Clash(cfg, s, step) && Next(cfg, s, step).checkpoints == s.checkpoints
  {
    ListOfInv(cfg, s);
    hide Inv, Append, NewestFailed, ListOk, Numbered, OldestSigning, Stage, Sign, Clash;
    NothingSigning(cfg, s.checkpoints);
    if !step.DoStage? {
      OnlyStagingClashes(cfg, s, step);
    }
    match step
    case DoAppend(members, control, createdAt) => AppendKeepsList(cfg, s, members, control, createdAt);
    case DoStage(_, _, _, _, _) => StageOverFailed(cfg, s, step);
    case DoSign(_, _, _) => IdleSigner(cfg, s, step);
  }

  lemma OnlyStagingClashes(cfg: Config, s: State, step: Step)
    requires !step.DoStage?
    ensures !Clash(cfg, s, step)
  {
  }

  lemma NothingSigning(cfg: Config, cps: seq<CheckpointRow>)
    requires ListOk(cfg, cps) && NewestFailed(cps)
    ensures OldestSigning(cps) == None
  {
    if OldestSigning(cps).Some? {
      OldestIsFirst(cfg, cps);
    }
  }

  // Once the newest checkpoint has failed, no run of these steps ever adds or changes a
  // checkpoint again, while receipts go on being appended.
  lemma {:induction false} FailedNewestIsForever(cfg: Config, s: State, steps: seq<Step>)
    requires Inv(cfg, s) && NewestFailed(s.checkpoints)
    ensures Run(cfg, s, steps).checkpoints == s.checkpoints
    decreases |steps|
  {
    hide Inv, Next, Clash;
    if steps != [] {
      FailedNewestStep(cfg, s, steps[0]);
      StepKeeps(cfg, s, steps[0]);
      FailedNewestIsForever(cfg, Next(cfg, s, steps[0]), steps[1..]);
    }
  }

  // ----- verified receipts -----

  // A receipt is marked verified exactly when the one checkpoint that covers it is.
  lemma VerifiedIffCheckpointIs(cfg: Config, s: State, k: int)
    requires Inv(cfg, s) && k in s.receipts
    ensures s.receipts[k].status == InVerified <==>
      exists i :: 0 <= i < |s.checkpoints| && s.checkpoints[i].first <= k <= s.checkpoints[i].last
                  && s.checkpoints[i].status == Verified
  {
    hide Anchored, Authentic;
    if k <= Covered(s.checkpoints) {
      var i := TileOf(s.checkpoints, k);
      CoveredReceipt(cfg, s, i, k);
    } else {
      assert k in s.outbox;
      forall i | 0 <= i < |s.checkpoints| ensures s.checkpoints[i].last < k {
        TileBounds(s.checkpoints, i);
      }
    }
  }

  // ----- signing empties a fixed backlog -----

  // Attempts left over all checkpoints still being signed.
  function Remaining(cfg: Config, cps: seq<CheckpointRow>): int {
    if cps == [] then 0
    else
      var c := cps[|cps| - 1];
      Remaining(cfg, cps[..|cps| - 1]) + if c.status == Signing then Cap(cfg) - c.attempts else 0
  }

  lemma {:induction false} RemainingUpdated(cfg: Config, cps: seq<CheckpointRow>, i: nat, d: CheckpointRow)
    requires i < |cps| && cps[i].status == Signing
    ensures Remaining(cfg, cps[i := d]) ==
      Remaining(cfg, cps) - (Cap(cfg) - cps[i].attempts) + if d.status == Signing then Cap(cfg) - d.attempts else 0
  {
    var n := |cps| - 1;
    if i == n {
      assert cps[i := d][..n] == cps[..n];
    } else {
      assert cps[i := d][..n] == cps[..n][i := d];
      RemainingUpdated(cfg, cps[..n], i, d);
    }
  }

  lemma {:induction false} RemainingPositive(cfg: Config, cps: seq<CheckpointRow>)
    requires forall i :: 0 <= i < |cps| ==> SigningOk(cfg, cps[i])
    ensures 0 <= Remaining(cfg, cps)
    ensures Remaining(cfg, cps) == 0 ==> OldestSigning(cps) == None
  {
    if cps != [] {
      RemainingPositive(cfg, cps[..|cps| - 1]);
      assert SigningOk(cfg, cps[|cps| - 1]);
    }
  }

  lemma FailProgress(cfg: Config, s: State, i: nat)
    requires i < |s.checkpoints| && s.checkpoints[i].status == Signing && SigningOk(cfg, s.checkpoints[i])
    ensures Remaining(cfg, Fail(cfg, s, i).0.checkpoints) < Remaining(cfg, s.checkpoints)
  {
    RemainingUpdated(cfg, s.checkpoints, i, Fail(cfg, s, i).0.checkpoints[i]);
    hide Remaining;
  }

  lemma FinalizeProgress(cfg: Config, s: State, i: nat, seal: Seal)
    requires i < |s.checkpoints| && s.checkpoints[i].status == Signing && SigningOk(cfg, s.checkpoints[i])
    ensures Remaining(cfg, Finalize(s, i, seal).checkpoints) < Remaining(cfg, s.checkpoints)
  {
    RemainingUpdated(cfg, s.checkpoints, i, Finalize(s, i, seal).checkpoints[i]);
    hide Remaining, MarkVerified;
  }

  // A reply that passes validation but whose fingerprint cannot be stored: the update raises, the
  // transaction rolls back, and the attempt is not counted.
  predicate Uncounted(cfg: Config, row: CheckpointRow, key: string, fingerprint: string, r: Response) {
    row.keyId == key && r.Reply? && ValidReply(cfg, r, row, key, fingerprint) && StoredFingerprint(r.fingerprint).None?
  }

  // What the signer computes for a reachable staged row always matches what is stored.
  lemma StoredHashMatches(cfg: Config, s: State, i: nat)
    requires Inv(cfg, s) && i < |s.checkpoints|
    ensures CheckpointPayload(s.checkpoints[i].doc).Some?
    ensures cfg.lib.sha256(CheckpointPayload(s.checkpoints[i].doc).value) == s.checkpoints[i].hash
  {
    assert Anchored(cfg, s.receipts, s.checkpoints[i]);
    hide Placed, Authentic, ListOk, Numbered, BuildCheckpoint, Digests, RowsOfCheckpoint, Document, CheckpointPayload,
      RowsName;
    var c := s.checkpoints[i];
    BuiltRows(cfg.lib, RowsOfCheckpoint(s.receipts, c), cfg.instanceId, c.keyId, c.previous);
  }

  /** An attempt on a staged checkpoint uses up at least one of the remaining ones exactly when its
      reply is not an uncounted one; an uncounted reply raises and leaves the tables as they were. */
  lemma AttemptMakesProgress(cfg: Config, s: State, key: string, fingerprint: string, response: Response)
    requires Inv(cfg, s) && OldestSigning(s.checkpoints).Some?
    ensures var (t, r) := Sign(cfg, s, key, fingerprint, response);
            var row := s.checkpoints[OldestSigning(s.checkpoints).value];
            && (Remaining(cfg, t.checkpoints) < Remaining(cfg, s.checkpoints) <==>
              !Uncounted(cfg, row, key, fingerprint, response))
            && (Uncounted(cfg, row, key, fingerprint, response) ==> t == s && r == SignRaised)
  {
    hide Inv, Fail, Finalize, Remaining, SigningOk, CheckpointPayload;
    var i := OldestSigning(s.checkpoints).value;
    AttemptsOf(cfg, s, i);
    StoredHashMatches(cfg, s, i);
    FailProgress(cfg, s, i);
    if response.Reply? && ValidReply(cfg, response, s.checkpoints[i], key, fingerprint) {
      match StoredFingerprint(response.fingerprint) {
        case None =>
        case Some(stored) =>
          FinalizeProgress(cfg, s, i, Seal(response.signature.value, response.algorithm.value, stored));
      }
    }
  }

  // A configured fingerprint rules such replies out.
  lemma ConfiguredFingerprintCounts(cfg: Config, row: CheckpointRow, key: string, fingerprint: string, r: Response)
    requires fingerprint != "" && Storable(fingerprint)
    ensures !Uncounted(cfg, row, key, fingerprint, r)
  {
  }

  // A complete and correct answer that only leaves the fingerprint out.
  function WithoutFingerprint(row: CheckpointRow, signature: string): Response {
    Answer(row, None, signature)
  }

  // An answer that is right but for, perhaps, its fingerprint.
  function Answer(row: CheckpointRow, fingerprint: Option<Value>, signature: string): Response {
    Reply(true, Some(row.id), Some(Hex(row.hash)), Some(row.keyId), Some(SIGNATURE_ALGORITHM), Some(SIGNATURE_ENCODING),
          fingerprint, Some(signature))
  }

  function Repeated(step: Step, n: nat): seq<Step> {
    if n == 0 then [] else [step] + Repeated(step, n - 1)
  }

  lemma {:induction false} IdleSteps(cfg: Config, s: State, step: Step, n: nat)
    requires Next(cfg, s, step) == s
    ensures Run(cfg, s, Repeated(step, n)) == s
  {
    hide Next;
    if n > 0 {
      IdleSteps(cfg, s, step, n - 1);
      assert Repeated(step, n)[1..] == Repeated(step, n - 1);
    }
  }

  lemma WithoutFingerprintIsUncounted(cfg: Config, row: CheckpointRow, signature: string)
    requires cfg.lib.base64(signature).Some? && cfg.lib.base64(signature).value != []
    ensures Uncounted(cfg, row, row.keyId, "", WithoutFingerprint(row, signature))
  {
    hide Hex;
  }

  /** The raising input: while no fingerprint is configured, a sidecar that keeps leaving it out of
      otherwise correct answers is asked again for ever, beyond any maximum of attempts. */
  lemma UncountedForever(cfg: Config, s: State, signature: string, n: nat)
    requires Inv(cfg, s) && OldestSigning(s.checkpoints).Some?
    requires cfg.lib.base64(signature).Some? && cfg.lib.base64(signature).value != []
    ensures var row := s.checkpoints[OldestSigning(s.checkpoints).value];
            Run(cfg, s, Repeated(DoSign(row.keyId, "", WithoutFingerprint(row, signature)), n)) == s
  {
    hide Inv, Sign, Uncounted, WithoutFingerprint, Run, Repeated, Remaining;
    var row := s.checkpoints[OldestSigning(s.checkpoints).value];
    WithoutFingerprintIsUncounted(cfg, row, signature);
    AttemptMakesProgress(cfg, s, row.keyId, "", WithoutFingerprint(row, signature));
    IdleSteps(cfg, s, DoSign(row.keyId, "", WithoutFingerprint(row, signature)), n);
  }

  lemma AttemptsOf(cfg: Config, s: State, i: nat)
    requires Inv(cfg, s) && i < |s.checkpoints|
    ensures SigningOk(cfg, s.checkpoints[i])
  {
    hide Anchored, Authentic, Numbered;
  }

  // Signing attempts only, none of which gets an uncounted reply.
  ghost predicate Attempts(cfg: Config, s: State, steps: seq<Step>)
    decreases |steps|
  {
    steps == [] || (
      && steps[0].DoSign?
      && Counted(cfg, s, steps[0])
      && Attempts(cfg, Next(cfg, s, steps[0]), steps[1..]))
  }

  predicate Counted(cfg: Config, s: State, step: Step)
    requires step.DoSign?
  {
    match OldestSigning(s.checkpoints)
    case None => true
    case Some(i) => !Uncounted(cfg, s.checkpoints[i], step.expectedKey, step.expectedFingerprint, step.response)
  }

  /** However the sidecar answers, as many counted attempts as remain leave nothing to be signed. */
  lemma {:induction false} AttemptsDrainBacklog(cfg: Config, s: State, steps: seq<Step>)
    requires Inv(cfg, s) && Attempts(cfg, s, steps) && Remaining(cfg, s.checkpoints) <= |steps|
    ensures OldestSigning(Run(cfg, s, steps).checkpoints) == None
    decreases |steps|
  {
    hide Sign, Remaining, OldestSigning, Inv, Uncounted;
    RemainingNotNegative(cfg, s);
    if steps != [] {
      var step := steps[0];
      var t := Next(cfg, s, step);
      SignKeeps(cfg, s, step.expectedKey, step.expectedFingerprint, step.response);
      if OldestSigning(s.checkpoints) == None {
        IdleSigner(cfg, s, step);
        assert Remaining(cfg, t.checkpoints) == 0 by { NoSigningNoneRemaining(cfg, s.checkpoints); }
      } else {
        AttemptMakesProgress(cfg, s, step.expectedKey, step.expectedFingerprint, step.response);
      }
      AttemptsDrainBacklog(cfg, t, steps[1..]);
    }
  }

  lemma RemainingNotNegative(cfg: Config, s: State)
    requires Inv(cfg, s)
    ensures 0 <= Remaining(cfg, s.checkpoints)
    ensures Remaining(cfg, s.checkpoints) == 0 ==> OldestSigning(s.checkpoints) == None
  {
    ListOfInv(cfg, s);
    RemainingPositive(cfg, s.checkpoints);
  }

  // An attempt under a configured fingerprint, which the database can hold.
  predicate Fingerprinted(step: Step) {
    step.DoSign? && step.expectedFingerprint != "" && Storable(step.expectedFingerprint)
  }

  lemma {:induction false} FingerprintedAttempts(cfg: Config, s: State, steps: seq<Step>)
    requires forall i :: 0 <= i < |steps| ==> Fingerprinted(steps[i])
    ensures Attempts(cfg, s, steps)
    decreases |steps|
  {
    hide Next, OldestSigning, Uncounted;
    if steps != [] {
      var step := steps[0];
      match OldestSigning(s.checkpoints) {
        case None =>
        case Some(i) =>
          ConfiguredFingerprintCounts(cfg, s.checkpoints[i], step.expectedKey, step.expectedFingerprint, step.response);
      }
      FingerprintedAttempts(cfg, Next(cfg, s, steps[0]), steps[1..]);
    }
  }

  /** With a fingerprint configured, every run of as many attempts as remain empties the backlog,
      whatever the sidecar answers. */
  lemma FingerprintedAttemptsDrain(cfg: Config, s: State, steps: seq<Step>)
    requires Inv(cfg, s) && Remaining(cfg, s.checkpoints) <= |steps|
    requires forall i :: 0 <= i < |steps| ==> Fingerprinted(steps[i])
    ensures OldestSigning(Run(cfg, s, steps).checkpoints) == None
  {
    hide *;
    FingerprintedAttempts(cfg, s, steps);
    AttemptsDrainBacklog(cfg, s, steps);
  }

  lemma IdleSigner(cfg: Config, s: State, step: Step)
    requires step.DoSign? && OldestSigning(s.checkpoints) == None
    ensures Next(cfg, s, step) == s
  {
  }

  lemma {:induction false} NoSigningNoneRemaining(cfg: Config, cps: seq<CheckpointRow>)
    requires OldestSigning(cps) == None
    ensures Remaining(cfg, cps) == 0
  {
    if cps != [] {
      NoSigningNoneRemaining(cfg, cps[..|cps| - 1]);
    }
  }
}
