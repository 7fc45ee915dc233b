/** Which replies of the sidecar seal a checkpoint, and what a sealed checkpoint is worth under an honest
    sidecar. */
module TrailReplies {
  import opened Bytes
  import opened Json
  import opened Evidence
  import opened Checkpoint
  import opened BundleVerifier
  import opened SequenceOrder
  import opened Trail
  import opened TrailSafety
  import opened TrailRuns
  import opened TrailProofs

  // The reply says that it verified its signature, names the row's id and hash and the expected key,
  // the algorithm, the encoding and, if one is configured, the fingerprint, and carries a signature.
  predicate Vouches(cfg: Config, row: CheckpointRow, key: string, fingerprint: string, r: Response) {
    && r.Reply? && r.verified
    && r.checkpointId == Some(row.id) && r.checkpointHash == Some(Hex(row.hash))
    && r.keyId == Some(key) && row.keyId == key
    && r.algorithm == Some("SHA256_WITH_RSA") && r.encoding == Some("base64-der")
    && (fingerprint == "" || r.fingerprint == Some(Str(fingerprint)))
    && r.signature.Some? && cfg.lib.base64(r.signature.value).Some? && cfg.lib.base64(r.signature.value) != Some([])
  }

  // A text without NUL, or null.
  predicate Stores(fingerprint: Option<Value>) {
    fingerprint == Some(Null) || (fingerprint.Some? && fingerprint.value.Str? && '\0' !in fingerprint.value.s)
  }

  function FingerprintText(fingerprint: Option<Value>): Option<string>
    requires Stores(fingerprint)
  {
    if fingerprint.value.Str? then Some(fingerprint.value.s) else None
  }

  // The receipts of a checkpoint count as verified, and nothing else about any receipt changes.
  ghost predicate VerifiesRange(s: State, t: State, c: CheckpointRow) {
    && t.receipts.Keys == s.receipts.Keys
    && forall k :: k in s.receipts ==>
         t.receipts[k] == if c.first <= k <= c.last then s.receipts[k].(status := InVerified) else s.receipts[k]
  }

  // One checkpoint row is replaced, and nothing besides it but, perhaps, receipts.
  ghost predicate RowBecomes(s: State, t: State, i: nat, row: CheckpointRow) {
    i < |s.checkpoints| && t == s.(checkpoints := s.checkpoints[i := row], receipts := t.receipts)
  }

  // One more attempt, the last of which fails the checkpoint.
  ghost predicate Attempted(cfg: Config, s: State, t: State, i: nat) {
    && i < |s.checkpoints| && t.receipts == s.receipts
    && var c := s.checkpoints[i];
      RowBecomes(s, t, i, c.(attempts := c.attempts + 1,
                             status := if c.attempts + 1 < cfg.maxAttempts then Signing else Failed))
  }

  // The checkpoint is verified under this signature and fingerprint, and so are its receipts.
  ghost predicate Sealed(s: State, t: State, i: nat, signature: string, fingerprint: Option<string>) {
    && i < |s.checkpoints|
    && var c := s.checkpoints[i];
      && RowBecomes(s, t, i, c.(attempts := c.attempts + 1, status := Verified,
                                seal := Some(Seal(signature, "SHA256_WITH_RSA", fingerprint))))
      && VerifiesRange(s, t, c)
  }

  /** What one signing attempt does to the oldest staged checkpoint. A reply that does not vouch for it is
      one more attempt and moves no receipt; one whose fingerprint cannot be stored changes nothing; any
      other seals it. */
  lemma SignedIff(cfg: Config, s: State, key: string, fingerprint: string, r: Response)
    requires Inv(cfg, s) && OldestSigning(s.checkpoints).Some?
    ensures
      var i := OldestSigning(s.checkpoints).value;
      var t := Sign(cfg, s, key, fingerprint, r).0;
      if !Vouches(cfg, s.checkpoints[i], key, fingerprint, r) then Attempted(cfg, s, t, i)
      else if !Stores(r.fingerprint) then t == s
      else Sealed(s, t, i, r.signature.value, FingerprintText(r.fingerprint))
  {
    hide Inv, Fail, Finalize, Hex, CheckpointPayload, OldestSigning, Attempted, Sealed;
    var i := OldestSigning(s.checkpoints).value;
    StoredHashMatches(cfg, s, i);
    FailIsAttempt(cfg, s, i);
    if r.Reply? && r.signature.Some? && Stores(r.fingerprint) {
      FinalizeSeals(cfg, s, i, r.signature.value, FingerprintText(r.fingerprint));
    }
  }

  lemma FailIsAttempt(cfg: Config, s: State, i: nat)
    requires i < |s.checkpoints|
    ensures Attempted(cfg, s, Fail(cfg, s, i).0, i)
  {
  }

  lemma FinalizeSeals(cfg: Config, s: State, i: nat, signature: string, fingerprint: Option<string>)
    requires Inv(cfg, s) && i < |s.checkpoints|
    ensures Sealed(s, Finalize(s, i, Seal(signature, "SHA256_WITH_RSA", fingerprint)), i, signature, fingerprint)
  {
    hide Inv;
    forall k | k in s.receipts
      ensures s.receipts[k].checkpointId == Some(s.checkpoints[i].id) <==>
        s.checkpoints[i].first <= k <= s.checkpoints[i].last
    {
      MarkedExactly(cfg, s, i, k);
    }
  }

  // ----- runs -----

  lemma StageSealsNone(cfg: Config, s: State, step: Step, j: nat)
    requires step.DoStage?
    ensures
      var t := Next(cfg, s, step);
      j < |t.checkpoints| && t.checkpoints[j].status == Verified ==>
        j < |s.checkpoints| && s.checkpoints[j] == t.checkpoints[j]
  {
    hide Newest, BuildNext, FirstSequences, RangeTaken, IdTaken, Queued;
  }

  // The only step that seals a checkpoint is an attempt whose reply vouches for it.
  lemma StepSeals(cfg: Config, s: State, step: Step, j: nat)
    requires Inv(cfg, s) && j < |Next(cfg, s, step).checkpoints|
    requires Next(cfg, s, step).checkpoints[j].status == Verified
    requires !(j < |s.checkpoints| && s.checkpoints[j].status == Verified)
    ensures step.DoSign? && OldestSigning(s.checkpoints) == Some(j)
    ensures Vouches(cfg, s.checkpoints[j], step.expectedKey, step.expectedFingerprint, step.response)
    ensures Stores(step.response.fingerprint)
    ensures Sealed(s, Next(cfg, s, step), j, step.response.signature.value, FingerprintText(step.response.fingerprint))
  {
    hide Inv, Append, Stage, Sign, OldestSigning, Vouches, Stores, VerifiesRange;
    match step
    case DoAppend(members, control, createdAt) =>
      AppendSealsNone(cfg, s, members, control, createdAt);
      assert false;
    case DoStage(_, _, _, _, _) =>
      StageSealsNone(cfg, s, step, j);
      assert false;
    case DoSign(key, fingerprint, response) =>
      if OldestSigning(s.checkpoints).Some? {
        SignedIff(cfg, s, key, fingerprint, response);
      } else {
        IdleSigner(cfg, s, step);
        assert false;
      }
  }

  lemma AppendSealsNone(cfg: Config, s: State, members: Object, control: bool, createdAt: int)
    ensures Append(cfg, s, members, control, createdAt).checkpoints == s.checkpoints
  {
    hide ReceiptBody, ReceiptHash;
  }

  /** A checkpoint that becomes verified in a run was sealed by one signing attempt of it, made on that
      checkpoint, whose reply vouched for it and whose signature and fingerprint it keeps. */
  lemma {:induction false} SealedInRun(cfg: Config, s: State, steps: seq<Step>, j: nat) returns (n: nat)
    requires Inv(cfg, s) && NoClash(cfg, s, steps) && j < |Run(cfg, s, steps).checkpoints|
    requires Run(cfg, s, steps).checkpoints[j].status == Verified
    requires !(j < |s.checkpoints| && s.checkpoints[j].status == Verified)
    ensures n < |steps| && steps[n].DoSign? && SealedAt(cfg, s, steps, j, n)
    decreases |steps|
  {
    hide Inv, Next, Clash, Sealed, Vouches, Stores, OldestSigning, Extends;
    var t, rest := Next(cfg, s, steps[0]), steps[1..];
    StepKeeps(cfg, s, steps[0]);
    if j < |t.checkpoints| && t.checkpoints[j].status == Verified {
      n := 0;
      StepSeals(cfg, s, steps[0], j);
      RunExtends(cfg, t, rest);
      ResolvedStays(t, Run(cfg, t, rest), j);
      VouchingReply(cfg, s.checkpoints[j], steps[0].expectedKey, steps[0].expectedFingerprint, steps[0].response);
      SealOf(s, t, j, steps[0].response.signature.value, FingerprintText(steps[0].response.fingerprint));
      assert steps[..0] == [];
    } else {
      var m := SealedInRun(cfg, t, rest, j);
      n := m + 1;
      assert steps[..n][1..] == rest[..m];
    }
  }

  // Attempt n of a run is made on checkpoint j, its reply vouches for it, and the run ends with its seal.
  ghost predicate SealedAt(cfg: Config, s: State, steps: seq<Step>, j: nat, n: nat)
    requires n < |steps| && steps[n].DoSign?
  {
    var u, v, step := Run(cfg, s, steps[..n]), Run(cfg, s, steps), steps[n];
    && OldestSigning(u.checkpoints) == Some(j) && j < |v.checkpoints|
    && v.checkpoints[j].hash == u.checkpoints[j].hash && v.checkpoints[j].id == u.checkpoints[j].id
    && Vouches(cfg, u.checkpoints[j], step.expectedKey, step.expectedFingerprint, step.response)
    && Stores(step.response.fingerprint)
    && v.checkpoints[j].seal == Some(Seal(step.response.signature.value, "SHA256_WITH_RSA",
                                          FingerprintText(step.response.fingerprint)))
  }

  lemma ResolvedStays(t: State, u: State, j: nat)
    requires Extends(t, u) && j < |t.checkpoints| && t.checkpoints[j].status == Verified
    ensures j < |u.checkpoints| && u.checkpoints[j] == t.checkpoints[j]
  {
    hide SameButStatus;
  }

  lemma SealOf(s: State, t: State, j: nat, signature: string, fingerprint: Option<string>)
    requires Sealed(s, t, j, signature, fingerprint)
    ensures j < |s.checkpoints| == |t.checkpoints|
    ensures t.checkpoints[j].hash == s.checkpoints[j].hash && t.checkpoints[j].id == s.checkpoints[j].id
    ensures t.checkpoints[j].seal == Some(Seal(signature, "SHA256_WITH_RSA", fingerprint))
  {
    hide VerifiesRange;
  }

  lemma VouchingReply(cfg: Config, row: CheckpointRow, key: string, fingerprint: string, r: Response)
    requires Vouches(cfg, row, key, fingerprint, r)
    ensures r.Reply? && r.verified && r.signature.Some? && cfg.lib.base64(r.signature.value).Some?
    ensures r.checkpointHash == Some(Hex(row.hash))
    ensures fingerprint != "" ==> r.fingerprint == Some(Str(fingerprint))
  {
  }

  // ----- an honest sidecar -----

  // When the reply says that a signature verified under this key, the signature is good for every
  // payload with the hash it names.
  ghost predicate Honest(lib: Library, key: PublicKey, r: Response) {
    key.Rsa? && (
      && r.Reply? && r.verified && r.fingerprint == Some(Str(key.fingerprint))
      && r.signature.Some? && lib.base64(r.signature.value).Some?
      ==> forall p :: r.checkpointHash == Some(Hex(lib.sha256(p))) ==>
            key.verify(lib.base64(r.signature.value).value, p))
  }

  ghost predicate AllHonest(lib: Library, key: PublicKey, steps: seq<Step>) {
    forall n :: 0 <= n < |steps| && steps[n].DoSign? ==> Honest(lib, key, steps[n].response)
  }

  /** Under an honest sidecar every checkpoint that a run seals with a key's fingerprint carries a
      signature of that key over its payload. */
  lemma HonestSeals(cfg: Config, steps: seq<Step>, key: PublicKey, j: nat)
    requires NoClash(cfg, EMPTY, steps) && key.Rsa? && AllHonest(cfg.lib, key, steps)
    requires
      var cps := Run(cfg, EMPTY, steps).checkpoints;
      j < |cps| && cps[j].status == Verified && cps[j].seal.Some?
      && cps[j].seal.value.fingerprint == Some(key.fingerprint)
    ensures
      var c := Run(cfg, EMPTY, steps).checkpoints[j];
      KeyVouches(cfg.lib, key, c, c.seal.value)
  {
    EmptyTrail(cfg);
    assert |EMPTY.checkpoints| == 0;
    hide *;
    RunKeeps(cfg, EMPTY, steps);
    var n := SealedInRun(cfg, EMPTY, steps, j);
    StoredHashMatches(cfg, Run(cfg, EMPTY, steps), j);
    SealingReply(cfg, EMPTY, steps, j, n);
    HonestStep(cfg.lib, key, steps, n);
    HonestReply(cfg.lib, key, steps[n].response, Run(cfg, EMPTY, steps).checkpoints[j]);
  }

  lemma HonestStep(lib: Library, key: PublicKey, steps: seq<Step>, n: nat)
    requires AllHonest(lib, key, steps) && n < |steps| && steps[n].DoSign?
    ensures Honest(lib, key, steps[n].response)
  {
  }

  // What the reply that sealed a checkpoint says.
  lemma SealingReply(cfg: Config, s: State, steps: seq<Step>, j: nat, n: nat)
    requires n < |steps| && steps[n].DoSign? && SealedAt(cfg, s, steps, j, n)
    ensures j < |Run(cfg, s, steps).checkpoints|
    ensures
      var r, c := steps[n].response, Run(cfg, s, steps).checkpoints[j];
      && r.Reply? && r.verified && r.signature.Some? && cfg.lib.base64(r.signature.value).Some?
      && r.checkpointHash == Some(Hex(c.hash)) && Stores(r.fingerprint)
      && (steps[n].expectedFingerprint != "" ==> r.fingerprint == Some(Str(steps[n].expectedFingerprint)))
      && c.seal == Some(Seal(r.signature.value, "SHA256_WITH_RSA", FingerprintText(r.fingerprint)))
  {
    hide Run, OldestSigning, Vouches, Stores;
    var u := Run(cfg, s, steps[..n]);
    VouchingReply(cfg, u.checkpoints[j], steps[n].expectedKey, steps[n].expectedFingerprint, steps[n].response);
  }

  lemma HonestReply(lib: Library, key: PublicKey, r: Response, c: CheckpointRow)
    requires key.Rsa? && Honest(lib, key, r) && r.Reply? && r.verified && Stores(r.fingerprint)
    requires r.signature.Some? && lib.base64(r.signature.value).Some? && r.checkpointHash == Some(Hex(c.hash))
    requires CheckpointPayload(c.doc).Some? && lib.sha256(CheckpointPayload(c.doc).value) == c.hash
    requires c.seal == Some(Seal(r.signature.value, "SHA256_WITH_RSA", FingerprintText(r.fingerprint)))
    requires c.seal.value.fingerprint == Some(key.fingerprint)
    ensures KeyVouches(lib, key, c, c.seal.value)
  {
    hide Hex, CheckpointPayload;
  }

  /** End to end: with a configured fingerprint and an honest sidecar, every receipt that any run of an
      empty trail has marked verified exports a bundle that the offline verifier accepts under that key. */
  lemma VerifiedReceiptsVerify(cfg: Config, steps: seq<Step>, key: PublicKey, k: int)
    requires NoClash(cfg, EMPTY, steps) && key.Rsa? && key.fingerprint != "" && AllHonest(cfg.lib, key, steps)
    requires forall n :: 0 <= n < |steps| && steps[n].DoSign? ==> steps[n].expectedFingerprint == key.fingerprint
    requires
      var receipts := Run(cfg, EMPTY, steps).receipts;
      k in receipts && receipts[k].status == InVerified
    ensures
      var bundle := Export(Run(cfg, EMPTY, steps), k);
      && bundle.Some?
      && var v := VerifyBundle(cfg.lib, bundle.value, key, "", key.fingerprint);
        v.Accepted? && v.report.evidenceSequence == k
  {
    EmptyTrail(cfg);
    hide Inv, Run, NoClash, Honest, Vouches, OldestSigning, VerifyBundle, Export, KeyVouches;
    RunKeeps(cfg, EMPTY, steps);
    var t := Run(cfg, EMPTY, steps);
    var j := VerifiedCovering(cfg, t, k);
    var n := SealedInRun(cfg, EMPTY, steps, j);
    SealingReply(cfg, EMPTY, steps, j, n);
    HonestSeals(cfg, steps, key, j);
    var i, bundle := ExportedBundleVerifies(cfg, t, k, key, "", key.fingerprint);
    OneTile(cfg, t, i, j, k);
  }
}
