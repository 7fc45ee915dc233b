/** End to end: what the trail exports is accepted offline, what is accepted offline is in the
    trail, and the newest checkpoint hash commits to the whole trail. */
module TrailProofs {
  import opened Bytes
  import opened Json
  import opened TreeShape
  import opened Merkle
  import opened Evidence
  import opened Checkpoint
  import opened Sidecar
  import opened BundleVerifier
  import opened Trail
  import opened TrailSafety
  import opened TrailRuns

  // ----- export_evidence_bundle -----

  function ItemJson(item: ProofItem): Value {
    Obj(map["side" := Str(if item.side == Left then "left" else "right"), "hash" := Str(Hex(item.sibling))])
  }

  function ProofJson(proof: seq<ProofItem>): seq<Value> {
    if proof == [] then [] else [ItemJson(proof[0])] + ProofJson(proof[1..])
  }

  function SignatureJson(row: CheckpointRow, seal: Seal): Object {
    map["algorithm" := Str(seal.algorithm), "encoding" := Str(SIGNATURE_ENCODING), "value" := Str(seal.signature),
        "key_id" := Str(row.keyId),
        "public_key_fingerprint" := if seal.fingerprint.Some? then Str(seal.fingerprint.value) else Null]
  }

  function Bundle(body: Object, digest: Digest, leafIndex: int, proof: seq<ProofItem>, doc: Object,
                  signature: Object): Object {
    map["bundle_schema" := Str(BUNDLE_SCHEMA), "receipt" := Obj(body), "receipt_hash" := Str(Hex(digest)),
        "leaf_index" := Int(leafIndex), "merkle_proof" := Arr(ProofJson(proof)), "checkpoint" := Obj(doc),
        "signature" := Obj(signature)]
  }

  // The first verified checkpoint with a given id.
  function VerifiedWithId(cps: seq<CheckpointRow>, id: string, from: nat): (r: Option<nat>)
    requires from <= |cps|
    ensures r.Some? ==> from <= r.value < |cps| && cps[r.value].id == id && cps[r.value].status == Verified
    ensures r.None? ==> forall i :: from <= i < |cps| ==> cps[i].id != id || cps[i].status != Verified
    decreases |cps| - from
  {
    if from == |cps| then None
    else if cps[from].id == id && cps[from].status == Verified then Some(from)
    else VerifiedWithId(cps, id, from + 1)
  }

  // The bundle of receipt k, if the receipt and its checkpoint are verified.
  function Export(s: State, k: int): Option<Object> {
    if k !in s.receipts || s.receipts[k].status != InVerified || s.receipts[k].checkpointId.None?
       || s.receipts[k].leafIndex.None? || s.receipts[k].proof.None? then None
    else
      match VerifiedWithId(s.checkpoints, s.receipts[k].checkpointId.value, 0)
      case None => None
      case Some(i) =>
        var c, r := s.checkpoints[i], s.receipts[k];
        if c.seal.None? then None
        else Some(Bundle(r.body, r.digest, r.leafIndex.value, r.proof.value, c.doc, SignatureJson(c, c.seal.value)))
  }

  lemma ItemParses(item: ProofItem)
    ensures ParseItem(ItemJson(item)) == Some(item)
  {
    HexRoundTrip(item.sibling);
    hide Hex, FromHex;
    var m := ItemJson(item).members;
    assert "hash" != "side";
    assert "left"[0] != "right"[0];
    assert Get(m, "hash") == Some(Str(Hex(item.sibling)));
  }

  lemma {:induction false} ProofParses(proof: seq<ProofItem>)
    ensures ParseProof(ProofJson(proof)) == Some(proof)
  {
    if proof != [] {
      ItemParses(proof[0]);
      hide ParseItem, ItemJson;
      ProofParses(proof[1..]);
      assert ProofJson(proof)[1..] == ProofJson(proof[1..]);
      assert proof == [proof[0]] + proof[1..];
    }
  }

  lemma BundleGets(body: Object, digest: Digest, leafIndex: int, proof: seq<ProofItem>, doc: Object, signature: Object)
    ensures var b := Bundle(body, digest, leafIndex, proof, doc, signature);
      && Get(b, "bundle_schema") == Some(Str(BUNDLE_SCHEMA)) && Get(b, "receipt") == Some(Obj(body))
      && Get(b, "receipt_hash") == Some(Str(Hex(digest))) && Get(b, "leaf_index") == Some(Int(leafIndex))
      && Get(b, "merkle_proof") == Some(Arr(ProofJson(proof))) && Get(b, "checkpoint") == Some(Obj(doc))
      && Get(b, "signature") == Some(Obj(signature))
  {
    hide Hex, ProofJson;
  }

  lemma SignatureGets(row: CheckpointRow, seal: Seal)
    ensures var m := SignatureJson(row, seal);
      && Get(m, "algorithm") == Some(Str(seal.algorithm)) && Get(m, "encoding") == Some(Str(SIGNATURE_ENCODING))
      && Get(m, "value") == Some(Str(seal.signature)) && Get(m, "key_id") == Some(Str(row.keyId))
      && Get(m, "public_key_fingerprint") == Some(if seal.fingerprint.Some? then Str(seal.fingerprint.value) else Null)
  {
  }

  // ----- completeness -----

  // The verification key of a sealed checkpoint: its fingerprint is the recorded one and the
  // recorded signature is good for the checkpoint's payload.
  predicate KeyVouches(lib: Library, key: PublicKey, row: CheckpointRow, seal: Seal) {
    && key.Rsa?
    && seal.fingerprint == Some(key.fingerprint)
    && lib.base64(seal.signature).Some?
    && CheckpointPayload(row.doc).Some?
    && key.verify(lib.base64(seal.signature).value, CheckpointPayload(row.doc).value)
  }

  lemma InclusionHolds(h: HashFunction, bundle: Object, body: Object, doc: Object, ds: seq<Digest>, i: nat,
                       proof: seq<ProofItem>)
    requires i < |ds| && ReceiptHash(h, body) == Some(ds[i]) && proof == Proof(h, ds, i)
    requires Get(bundle, "receipt_hash") == Some(Str(Hex(ds[i])))
    requires Get(bundle, "merkle_proof") == Some(Arr(ProofJson(proof)))
    requires Get(doc, "merkle_root") == Some(Str(Hex(Root(h, ds))))
    ensures CheckInclusion(h, bundle, body, doc) == None
  {
    ProofParses(proof);
    ProofReachesRoot(h, ds, i);
    hide Hex, ReceiptHash, ParseProof, ProofJson, ProofRoot, Root, Proof, Get;
  }

  lemma PositionHolds(bundle: Object, body: Object, doc: Object, k: int, first: int, last: int)
    requires first <= k <= last
    requires Get(bundle, "leaf_index") == Some(Int(k - first)) && Get(body, "sequence") == Some(Int(k))
    requires Get(doc, "first_sequence") == Some(Int(first)) && Get(doc, "last_sequence") == Some(Int(last))
    requires Get(doc, "receipt_count") == Some(Int(last + 1 - first))
    ensures CheckPosition(bundle, body, doc) == None
  {
    hide Get;
  }

  // The key vouches for the seal, and key id and fingerprint are the expected ones, if any are.
  predicate Trusts(lib: Library, key: PublicKey, row: CheckpointRow, seal: Seal, expectedKeyId: string,
                   expectedFingerprint: string) {
    && KeyVouches(lib, key, row, seal)
    && (expectedKeyId == "" || expectedKeyId == row.keyId)
    && (expectedFingerprint == "" || expectedFingerprint == key.fingerprint)
  }

  lemma SignatureHoldsIff(lib: Library, row: CheckpointRow, seal: Seal, key: PublicKey, expectedKeyId: string,
                          expectedFingerprint: string)
    requires seal.algorithm == SIGNATURE_ALGORITHM
    requires Get(row.doc, "signing_key_id") == Some(Str(row.keyId))
    ensures CheckSignature(lib, SignatureJson(row, seal), row.doc, key, expectedKeyId, expectedFingerprint) == None
       <==> Trusts(lib, key, row, seal, expectedKeyId, expectedFingerprint)
  {
    SignatureGets(row, seal);
    hide Get, SignatureJson, CheckpointPayload;
  }

  lemma AnchoredAt(cfg: Config, s: State, i: nat)
    requires Inv(cfg, s) && i < |s.checkpoints|
    ensures Built(cfg, s.receipts, s.checkpoints[i]) && Placed(cfg, s.receipts, s.checkpoints[i])
    ensures InRange(s.receipts, s.checkpoints[i])
  {
    assert Anchored(cfg, s.receipts, s.checkpoints[i]);
    hide Authentic, ListOk, Numbered, BuildCheckpoint, Digests, RowsOfCheckpoint, Proof;
  }

  // The digests a checkpoint was built over.
  function DigestsOf(s: State, c: CheckpointRow): (ds: seq<Digest>)
    requires InRange(s.receipts, c)
    ensures |ds| == c.last + 1 - c.first
    ensures forall k :: c.first <= k <= c.last ==> ds[k - c.first] == s.receipts[k].digest
  {
    Digests(RowsOfCheckpoint(s.receipts, c))
  }

  // What is stored with receipt k, covered by checkpoint i.
  lemma CoveredReceiptProof(cfg: Config, s: State, i: nat, k: int)
    requires Inv(cfg, s) && i < |s.checkpoints| && s.checkpoints[i].first <= k <= s.checkpoints[i].last
    ensures var c := s.checkpoints[i];
      && InRange(s.receipts, c)
      && s.receipts[k].checkpointId == Some(c.id)
      && s.receipts[k].leafIndex == Some(k - c.first)
      && s.receipts[k].proof == Some(Proof(cfg.lib.sha256, DigestsOf(s, c), k - c.first))
  {
    hide Inv, Built, Root, Proof, RowsOfCheckpoint, Digests;
    AnchoredAt(cfg, s, i);
  }

  // The fields of checkpoint i's document.
  lemma CheckpointGets(cfg: Config, s: State, i: nat)
    requires Inv(cfg, s) && i < |s.checkpoints|
    ensures var c := s.checkpoints[i];
      && InRange(s.receipts, c)
      && Get(c.doc, "schema") == Some(Str(CHECKPOINT_SCHEMA))
      && Get(c.doc, "first_sequence") == Some(Int(c.first))
      && Get(c.doc, "last_sequence") == Some(Int(c.last))
      && Get(c.doc, "receipt_count") == Some(Int(c.last + 1 - c.first))
      && Get(c.doc, "merkle_root") == Some(Str(Hex(Root(cfg.lib.sha256, DigestsOf(s, c)))))
      && Get(c.doc, "signing_key_id") == Some(Str(c.keyId))
      && Get(c.doc, "previous_checkpoint_sha256") == Some(if c.previous.Some? then Str(Hex(c.previous.value)) else Null)
      && c.doc == Document(cfg.lib, RowsOfCheckpoint(s.receipts, c), cfg.instanceId, c.keyId, c.previous)
      && CheckpointPayload(c.doc).Some? && c.hash == cfg.lib.sha256(CheckpointPayload(c.doc).value)
  {
    hide Inv, Placed, Root, Hex, BuildCheckpoint, Document, Get, RowsName, Digests, CheckpointPayload, RowsOfCheckpoint;
    AnchoredAt(cfg, s, i);
    var c := s.checkpoints[i];
    var rows := RowsOfCheckpoint(s.receipts, c);
    RowEnds(s.receipts, c);
    BuiltRows(cfg.lib, rows, cfg.instanceId, c.keyId, c.previous);
    DocumentGets(cfg.lib, rows, cfg.instanceId, c.keyId, c.previous);
  }

  lemma CoveredUnlessWaiting(cfg: Config, s: State, k: int)
    requires Inv(cfg, s) && k in s.receipts
    ensures 1 <= k <= Covered(s.checkpoints) || Waits(s.receipts[k])
  {
    hide Anchored, Authentic, ListOk;
    if k > Covered(s.checkpoints) {
      assert k in s.outbox;
    }
  }

  lemma OnlyOneWithId(cfg: Config, cps: seq<CheckpointRow>, i: nat)
    requires ListOk(cfg, cps) && i < |cps| && cps[i].status == Verified
    ensures VerifiedWithId(cps, cps[i].id, 0) == Some(i)
  {
    hide ListOk, VerifiedWithId;
    var r := VerifiedWithId(cps, cps[i].id, 0);
    if r != Some(i) {
      DistinctIds(cfg, cps, i, r.value);
    }
  }

  lemma VerifiedCovering(cfg: Config, s: State, k: int) returns (i: nat)
    requires Inv(cfg, s) && k in s.receipts && s.receipts[k].status == InVerified
    ensures i < |s.checkpoints| && s.checkpoints[i].first <= k <= s.checkpoints[i].last
    ensures s.checkpoints[i].status == Verified && s.checkpoints[i].seal.Some?
    ensures s.checkpoints[i].seal.value.algorithm == SIGNATURE_ALGORITHM
    ensures VerifiedWithId(s.checkpoints, s.checkpoints[i].id, 0) == Some(i)
  {
    hide Anchored, Authentic, VerifiedWithId;
    CoveredUnlessWaiting(cfg, s, k);
    i := TileOf(s.checkpoints, k);
    CoveredReceipt(cfg, s, i, k);
    OnlyOneWithId(cfg, s.checkpoints, i);
    assert SigningOk(cfg, s.checkpoints[i]);
  }

  lemma ReceiptAuthentic(cfg: Config, s: State, k: int)
    requires Inv(cfg, s) && k in s.receipts
    ensures ReceiptHash(cfg.lib.sha256, s.receipts[k].body) == Some(s.receipts[k].digest)
    ensures Get(s.receipts[k].body, "sequence") == Some(Int(k)) && IsReceiptSchema(Get(s.receipts[k].body, "schema"))
  {
    hide Anchored, ListOk, Numbered, ReceiptHash, Get, IsReceiptSchema;
  }

  /** Every verified receipt has an exportable bundle, and the offline verifier accepts it exactly under
      a key that vouches for the checkpoint, then reporting the receipt's own number. */
  lemma ExportedBundleVerifies(cfg: Config, s: State, k: int, key: PublicKey, expectedKeyId: string,
                               expectedFingerprint: string)
      returns (i: nat, bundle: Object)
    requires Inv(cfg, s) && k in s.receipts && s.receipts[k].status == InVerified
    ensures i < |s.checkpoints| && s.checkpoints[i].first <= k <= s.checkpoints[i].last && s.checkpoints[i].seal.Some?
    ensures Export(s, k) == Some(bundle)
    ensures
      var v := VerifyBundle(cfg.lib, bundle, key, expectedKeyId, expectedFingerprint);
      && (v.Accepted? <==> Trusts(cfg.lib, key, s.checkpoints[i], s.checkpoints[i].seal.value, expectedKeyId,
                                  expectedFingerprint))
      && (v.Accepted? ==> v.report.evidenceSequence == k)
  {
    hide Inv, VerifyBundle, Bundle, SignatureJson, VerifiedWithId, DigestsOf, Proof, Export, CheckpointPayload, Trusts;
    i := VerifiedCovering(cfg, s, k);
    CoveredReceiptProof(cfg, s, i, k);
    var c, r := s.checkpoints[i], s.receipts[k];
    bundle := Bundle(r.body, r.digest, r.leafIndex.value, r.proof.value, c.doc, SignatureJson(c, c.seal.value));
    ExportIs(s, k, i);
    BundleAccepts(cfg, s, i, k, key, expectedKeyId, expectedFingerprint, bundle);
  }

  lemma ExportIs(s: State, k: int, i: nat)
    requires k in s.receipts && i < |s.checkpoints| && s.receipts[k].status == InVerified
    requires s.receipts[k].checkpointId == Some(s.checkpoints[i].id)
    requires s.receipts[k].leafIndex.Some? && s.receipts[k].proof.Some? && s.checkpoints[i].seal.Some?
    requires VerifiedWithId(s.checkpoints, s.checkpoints[i].id, 0) == Some(i)
    ensures var c, r := s.checkpoints[i], s.receipts[k];
      Export(s, k)
        == Some(Bundle(r.body, r.digest, r.leafIndex.value, r.proof.value, c.doc, SignatureJson(c, c.seal.value)))
  {
    hide Bundle, SignatureJson, VerifiedWithId;
  }

  lemma BundleAccepts(cfg: Config, s: State, i: nat, k: int, key: PublicKey, expectedKeyId: string,
                      expectedFingerprint: string, bundle: Object)
    requires Inv(cfg, s) && i < |s.checkpoints| && s.checkpoints[i].first <= k <= s.checkpoints[i].last
    requires s.checkpoints[i].seal.Some? && s.checkpoints[i].seal.value.algorithm == SIGNATURE_ALGORITHM
    requires k in s.receipts && s.receipts[k].leafIndex.Some? && s.receipts[k].proof.Some?
    requires var c, r := s.checkpoints[i], s.receipts[k];
      bundle == Bundle(r.body, r.digest, r.leafIndex.value, r.proof.value, c.doc, SignatureJson(c, c.seal.value))
    ensures
      var v := VerifyBundle(cfg.lib, bundle, key, expectedKeyId, expectedFingerprint);
      && (v.Accepted? <==> Trusts(cfg.lib, key, s.checkpoints[i], s.checkpoints[i].seal.value, expectedKeyId,
                                  expectedFingerprint))
      && (v.Accepted? ==> v.report.evidenceSequence == k)
  {
    hide Inv, VerifyBundle, Trusts, Bundle, SignatureJson, CheckInclusion, CheckPosition, CheckSignature, Get,
      ReceiptHash, Root, Proof, Hex, ProofJson, Document, DigestsOf, CheckpointPayload;
    var c, r := s.checkpoints[i], s.receipts[k];
    var signature := SignatureJson(c, c.seal.value);
    BundleGets(r.body, r.digest, r.leafIndex.value, r.proof.value, c.doc, signature);
    CoveredReceiptProof(cfg, s, i, k);
    CheckpointGets(cfg, s, i);
    ReceiptAuthentic(cfg, s, k);
    InclusionHolds(cfg.lib.sha256, bundle, r.body, c.doc, DigestsOf(s, c), k - c.first, r.proof.value);
    PositionHolds(bundle, r.body, c.doc, k, c.first, c.last);
    SignatureHoldsIff(cfg.lib, c, c.seal.value, key, expectedKeyId, expectedFingerprint);
    AcceptedWhen(cfg.lib, bundle, r.body, c.doc, signature, key, expectedKeyId, expectedFingerprint, k);
  }

  lemma AcceptedWhen(lib: Library, bundle: Object, receipt: Object, checkpoint: Object, signature: Object,
                     key: PublicKey, expectedKeyId: string, expectedFingerprint: string, k: int)
    requires Get(bundle, "bundle_schema") == Some(Str(BUNDLE_SCHEMA))
    requires Get(bundle, "receipt") == Some(Obj(receipt)) && Get(bundle, "checkpoint") == Some(Obj(checkpoint))
    requires Get(bundle, "signature") == Some(Obj(signature))
    requires IsReceiptSchema(Get(receipt, "schema")) && Get(checkpoint, "schema") == Some(Str(CHECKPOINT_SCHEMA))
    requires CheckInclusion(lib.sha256, bundle, receipt, checkpoint) == None
    requires CheckPosition(bundle, receipt, checkpoint) == None
    requires Get(receipt, "sequence") == Some(Int(k))
    ensures
      var v := VerifyBundle(lib, bundle, key, expectedKeyId, expectedFingerprint);
      && (v.Accepted? <==>
          CheckSignature(lib, signature, checkpoint, key, expectedKeyId, expectedFingerprint) == None)
      && (v.Accepted? ==> v.report.evidenceSequence == k)
  {
    hide CheckInclusion, CheckPosition, CheckSignature, Get;
  }

  // ----- a seal without a fingerprint -----

  // An otherwise correct answer whose fingerprint is null.
  function NullFingerprint(row: CheckpointRow, signature: string): Response {
    Answer(row, Some(Null), signature)
  }

  lemma NullFingerprintSeals(cfg: Config, s: State, signature: string)
    requires Inv(cfg, s) && OldestSigning(s.checkpoints).Some?
    requires cfg.lib.base64(signature).Some? && cfg.lib.base64(signature).value != []
    ensures var i := OldestSigning(s.checkpoints).value;
      var row := s.checkpoints[i];
      Sign(cfg, s, row.keyId, "", NullFingerprint(row, signature))
      == (Finalize(s, i, Seal(signature, SIGNATURE_ALGORITHM, None)), SignedOff(row.id))
  {
    hide Inv, Finalize, Hex, CheckpointPayload, OldestSigning;
    StoredHashMatches(cfg, s, OldestSigning(s.checkpoints).value);
  }

  lemma SealedReceipt(cfg: Config, s: State, i: nat, k: int, seal: Seal)
    requires Inv(cfg, s) && i < |s.checkpoints| && s.checkpoints[i].first <= k <= s.checkpoints[i].last
    ensures var t := Finalize(s, i, seal);
      && |t.checkpoints| == |s.checkpoints| && t.checkpoints[i].status == Verified
      && t.checkpoints[i].seal == Some(seal)
      && t.checkpoints[i].first <= k <= t.checkpoints[i].last
      && k in t.receipts && t.receipts[k].status == InVerified
  {
    hide Inv;
    CoveredReceipt(cfg, s, i, k);
    MarkedExactly(cfg, s, i, k);
  }

  lemma OneTile(cfg: Config, s: State, i: nat, j: nat, k: int)
    requires Inv(cfg, s) && i < |s.checkpoints| && j < |s.checkpoints|
    requires s.checkpoints[i].first <= k <= s.checkpoints[i].last
    requires s.checkpoints[j].first <= k <= s.checkpoints[j].last
    ensures i == j
  {
    hide AllAnchored, Authentic, Numbered, OutboxWaits;
    TileBounds(s.checkpoints, i);
    var tile := TileOf(s.checkpoints, k);
  }

  /** While no fingerprint is configured, an answer with a null one is sealed and its receipts count as
      verified; but whatever happens afterwards, no key ever makes the verifier accept their bundles. */
  lemma NullFingerprintNeverVerifies(cfg: Config, s: State, signature: string, steps: seq<Trail.Step>, k: int,
                                     key: PublicKey, expectedKeyId: string, expectedFingerprint: string)
    requires Inv(cfg, s) && OldestSigning(s.checkpoints).Some?
    requires cfg.lib.base64(signature).Some? && cfg.lib.base64(signature).value != []
    requires
      var row := s.checkpoints[OldestSigning(s.checkpoints).value];
      row.first <= k <= row.last
      && NoClash(cfg, Sign(cfg, s, row.keyId, "", NullFingerprint(row, signature)).0, steps)
    ensures
      var row := s.checkpoints[OldestSigning(s.checkpoints).value];
      var (t, result) := Sign(cfg, s, row.keyId, "", NullFingerprint(row, signature));
      var u := Run(cfg, t, steps);
      && result == SignedOff(row.id)
      && k in u.receipts && u.receipts[k].status == InVerified && Export(u, k).Some?
      && !VerifyBundle(cfg.lib, Export(u, k).value, key, expectedKeyId, expectedFingerprint).Accepted?
  {
    hide Inv, Sign, Run, NoClash, Finalize, Export, VerifyBundle, NullFingerprint, OldestSigning;
    var i := OldestSigning(s.checkpoints).value;
    var row, seal := s.checkpoints[i], Seal(signature, SIGNATURE_ALGORITHM, None);
    NullFingerprintSeals(cfg, s, signature);
    SealedReceipt(cfg, s, i, k, seal);
    SignKeeps(cfg, s, row.keyId, "", NullFingerprint(row, signature));
    StaysUnverifiable(cfg, Finalize(s, i, seal), steps, i, k, key, expectedKeyId, expectedFingerprint);
  }

  lemma StaysUnverifiable(cfg: Config, t: State, steps: seq<Trail.Step>, i: nat, k: int, key: PublicKey,
                          expectedKeyId: string, expectedFingerprint: string)
    requires Inv(cfg, t) && NoClash(cfg, t, steps) && i < |t.checkpoints| && t.checkpoints[i].status == Verified
    requires t.checkpoints[i].seal.Some? && t.checkpoints[i].seal.value.fingerprint.None?
    requires t.checkpoints[i].first <= k <= t.checkpoints[i].last
    requires k in t.receipts && t.receipts[k].status == InVerified
    ensures var u := Run(cfg, t, steps);
      && k in u.receipts && u.receipts[k].status == InVerified && Export(u, k).Some?
      && !VerifyBundle(cfg.lib, Export(u, k).value, key, expectedKeyId, expectedFingerprint).Accepted?
  {
    hide *;
    RunKeeps(cfg, t, steps);
    RunExtends(cfg, t, steps);
    var u := Run(cfg, t, steps);
    StillSealed(t, u, i, k);
    var j, bundle := ExportedBundleVerifies(cfg, u, k, key, expectedKeyId, expectedFingerprint);
    OneTile(cfg, u, i, j, k);
    NoKeyTrusts(cfg.lib, key, u.checkpoints[j], u.checkpoints[j].seal.value, expectedKeyId, expectedFingerprint);
  }

  lemma NoKeyTrusts(lib: Library, key: PublicKey, row: CheckpointRow, seal: Seal, expectedKeyId: string,
                    expectedFingerprint: string)
    requires seal.fingerprint.None?
    ensures !Trusts(lib, key, row, seal, expectedKeyId, expectedFingerprint)
  {
  }

  lemma StillSealed(t: State, u: State, i: nat, k: int)
    requires Extends(t, u) && i < |t.checkpoints| && t.checkpoints[i].status == Verified
    requires k in t.receipts && t.receipts[k].status == InVerified
    ensures i < |u.checkpoints| && u.checkpoints[i] == t.checkpoints[i]
    ensures k in u.receipts && u.receipts[k].status == InVerified
  {
    hide SameButStatus;
  }

  // ----- soundness over the trail -----

  // The key has only ever signed payloads of this trail's checkpoints.
  ghost predicate SignsOnly(key: PublicKey, cps: seq<CheckpointRow>) {
    key.Rsa? && forall sig, p :: key.verify(sig, p) ==>
      exists i :: 0 <= i < |cps| && CheckpointPayload(cps[i].doc) == Some(p)
  }

  lemma SignedCheckpoint(lib: Library, signature: Object, checkpoint: Object, key: PublicKey, expectedKeyId: string,
                         expectedFingerprint: string, cps: seq<CheckpointRow>) returns (i: nat)
    requires CheckSignature(lib, signature, checkpoint, key, expectedKeyId, expectedFingerprint) == None
    requires SignsOnly(key, cps)
    ensures i < |cps| && cps[i].doc == checkpoint
  {
    hide Get, CheckpointPayload;
    var payload := CheckpointPayload(checkpoint).value;
    i :| 0 <= i < |cps| && CheckpointPayload(cps[i].doc) == Some(payload);
    CheckpointPayloadInjective(checkpoint, cps[i].doc);
  }

  function Bodies(s: State, c: CheckpointRow): (bodies: seq<Object>)
    requires InRange(s.receipts, c)
    ensures |bodies| == c.last + 1 - c.first
    ensures forall i :: 0 <= i < |bodies| ==> bodies[i] == s.receipts[c.first + i].body
  {
    seq(c.last + 1 - c.first, i requires 0 <= i < c.last + 1 - c.first => s.receipts[c.first + i].body)
  }

  lemma BodiesMatchRows(cfg: Config, s: State, c: CheckpointRow)
    requires Inv(cfg, s) && InRange(s.receipts, c)
    ensures RowsOf(cfg.lib.sha256, Bodies(s, c), RowsOfCheckpoint(s.receipts, c))
    ensures forall i :: 0 <= i < c.last + 1 - c.first ==> RowsOfCheckpoint(s.receipts, c)[i].sequence == c.first + i
  {
    hide Inv, ReceiptHash, Get;
    forall i | 0 <= i < c.last + 1 - c.first
      ensures ReceiptHash(cfg.lib.sha256, Bodies(s, c)[i]) == Some(RowsOfCheckpoint(s.receipts, c)[i].digest)
      ensures Get(Bodies(s, c)[i], "sequence") == Some(Int(RowsOfCheckpoint(s.receipts, c)[i].sequence))
    {
      ReceiptAuthentic(cfg, s, c.first + i);
    }
  }

  // The bundle's checkpoint is number i of the trail, and the bundle discloses that checkpoint's own
  // receipt with the reported number, or the walk computes a collision.
  ghost predicate DisclosesOwn(cfg: Config, s: State, i: nat, bundle: Object, receipt: Object, checkpoint: Object,
                               report: Report) {
    && i < |s.checkpoints| && checkpoint == s.checkpoints[i].doc && InRange(s.receipts, s.checkpoints[i])
    && var c, k := s.checkpoints[i], report.evidenceSequence;
      var r := Disclose(cfg.lib.sha256, Bodies(s, c), RowsOfCheckpoint(s.receipts, c), bundle, receipt, checkpoint);
      || (r.Broken? && Collides(cfg.lib.sha256, r.c))
      || (c.first <= k <= c.last && receipt == s.receipts[k].body
        && PyInt(Get(bundle, "leaf_index")) == Some(k - c.first))
  }

  // A receipt found at place j of the batch is the trail's receipt number first + j.
  lemma PlaceInTrail(s: State, c: CheckpointRow, j: nat)
    requires InRange(s.receipts, c) && j < |RowsOfCheckpoint(s.receipts, c)| == |Bodies(s, c)|
    ensures var k := RowsOfCheckpoint(s.receipts, c)[j].sequence;
      c.first <= k <= c.last && k - c.first == j && Bodies(s, c)[j] == s.receipts[k].body
  {
    assert |Bodies(s, c)| == c.last + 1 - c.first;
  }

  /** Soundness: a bundle accepted under a key that only signs this trail's checkpoints discloses
      exactly the trail's receipt with the reported number, or a hash collision is computed. */
  lemma AcceptedBundleIsInTrail(cfg: Config, s: State, bundle: Object, receipt: Object, checkpoint: Object,
                                key: PublicKey, expectedKeyId: string, expectedFingerprint: string, report: Report)
    returns (i: nat)
    requires Inv(cfg, s) && SignsOnly(key, s.checkpoints)
    requires BundleAccepted(cfg.lib, bundle, receipt, checkpoint, key, expectedKeyId, expectedFingerprint, report)
    ensures DisclosesOwn(cfg, s, i, bundle, receipt, checkpoint, report)
  {
    hide *;
    i := SignerOf(cfg.lib, bundle, receipt, checkpoint, key, expectedKeyId, expectedFingerprint, report, s.checkpoints);
    BundleOfCheckpoint(cfg, s, i, bundle, receipt, key, expectedKeyId, expectedFingerprint, report);
  }

  lemma BundleOfCheckpoint(cfg: Config, s: State, i: nat, bundle: Object, receipt: Object, key: PublicKey,
                           expectedKeyId: string, expectedFingerprint: string, report: Report)
    requires Inv(cfg, s) && i < |s.checkpoints|
    requires BundleAccepted(cfg.lib, bundle, receipt, s.checkpoints[i].doc, key, expectedKeyId, expectedFingerprint,
                            report)
    ensures DisclosesOwn(cfg, s, i, bundle, receipt, s.checkpoints[i].doc, report)
  {
    hide *;
    var c := s.checkpoints[i];
    CheckpointBuilt(cfg, s, i);
    BodiesMatchRows(cfg, s, c);
    AcceptedBundleDiscloses(cfg.lib, Bodies(s, c), RowsOfCheckpoint(s.receipts, c), cfg.instanceId, c.keyId,
                            c.previous, bundle, receipt, c.doc, key, expectedKeyId, expectedFingerprint, report);
    DisclosedIsOwn(cfg, s, i, bundle, receipt, report);
  }

  lemma DisclosedIsOwn(cfg: Config, s: State, i: nat, bundle: Object, receipt: Object, report: Report)
    requires i < |s.checkpoints| && InRange(s.receipts, s.checkpoints[i])
    requires
      var c := s.checkpoints[i];
      var bodies, rows := Bodies(s, c), RowsOfCheckpoint(s.receipts, c);
      var r := Disclose(cfg.lib.sha256, bodies, rows, bundle, receipt, c.doc);
      || (r.Broken? && Collides(cfg.lib.sha256, r.c))
      || (r.Disclosed? && r.index < |rows| == |bodies| && receipt == bodies[r.index]
          && PyInt(Get(bundle, "leaf_index")) == Some(r.index)
          && report.evidenceSequence == rows[r.index].sequence)
    ensures DisclosesOwn(cfg, s, i, bundle, receipt, s.checkpoints[i].doc, report)
  {
    hide Disclose, RowsOfCheckpoint, InRange, Get, PyInt, Collides, Bodies;
    var c := s.checkpoints[i];
    var r := Disclose(cfg.lib.sha256, Bodies(s, c), RowsOfCheckpoint(s.receipts, c), bundle, receipt, c.doc);
    if r.Disclosed? {
      PlaceInTrail(s, c, r.index);
    }
  }

  lemma SignerOf(lib: Library, bundle: Object, receipt: Object, checkpoint: Object, key: PublicKey,
                 expectedKeyId: string, expectedFingerprint: string, report: Report, cps: seq<CheckpointRow>)
    returns (i: nat)
    requires SignsOnly(key, cps)
    requires BundleAccepted(lib, bundle, receipt, checkpoint, key, expectedKeyId, expectedFingerprint, report)
    ensures i < |cps| && cps[i].doc == checkpoint
  {
    hide VerifyBundle, CheckInclusion, CheckPosition, CheckSignature, SignsOnly, Get;
    AcceptedMeans(lib, bundle, key, expectedKeyId, expectedFingerprint);
    i := SignedCheckpoint(lib, Get(bundle, "signature").value.members, checkpoint, key, expectedKeyId,
                          expectedFingerprint, cps);
  }

  lemma CheckpointBuilt(cfg: Config, s: State, i: nat)
    requires Inv(cfg, s) && i < |s.checkpoints|
    ensures var c := s.checkpoints[i];
      && InRange(s.receipts, c)
      && var r := BuildCheckpoint(cfg.lib, RowsOfCheckpoint(s.receipts, c), cfg.instanceId, c.keyId, c.previous);
      r.Complete? && r.built.doc == c.doc
  {
    hide Inv, BuildCheckpoint, Placed, RowsOfCheckpoint;
    AnchoredAt(cfg, s, i);
  }

  // ----- what the sidecar is asked to sign -----

  /** The sidecar accepts a checkpoint of a reachable state, with the gateway's payload, exactly when
      it was staged for the sidecar's own key. */
  lemma SidecarAcceptsIff(cfg: Config, s: State, i: nat, key: string)
    requires Inv(cfg, s) && i < |s.checkpoints|
    ensures var c := s.checkpoints[i];
      AttestPayload(c.doc, key) == if c.keyId == key then CheckpointPayload(c.doc) else None
  {
    hide *;
    var c := s.checkpoints[i];
    CheckpointBuilt(cfg, s, i);
    StartsAtOne(cfg, s, i);
    BuiltIsAccepted(cfg, s.receipts, c, key);
  }

  lemma StartsAtOne(cfg: Config, s: State, i: nat)
    requires Inv(cfg, s) && i < |s.checkpoints|
    ensures 1 <= s.checkpoints[i].first
  {
    hide Anchored, Authentic, Numbered;
    TileBounds(s.checkpoints, i);
  }

  lemma BuiltIsAccepted(cfg: Config, receipts: map<int, ReceiptRow>, c: CheckpointRow, key: string)
    requires InRange(receipts, c) && c.first >= 1
    requires var r := BuildCheckpoint(cfg.lib, RowsOfCheckpoint(receipts, c), cfg.instanceId, c.keyId, c.previous);
      r.Complete? && r.built.doc == c.doc
    ensures AttestPayload(c.doc, key) == if c.keyId == key then CheckpointPayload(c.doc) else None
  {
    RowEnds(receipts, c);
    hide *;
    var rows := RowsOfCheckpoint(receipts, c);
    AttestAcceptsBuilt(cfg.lib, rows, cfg.instanceId, c.keyId, c.previous, key);
    BuiltRows(cfg.lib, rows, cfg.instanceId, c.keyId, c.previous);
  }

  /** Whatever key the worker is configured with, it stages a checkpoint for it, so a reachable state
      can hold one that the sidecar refuses. */
  lemma AnyKeyIsStaged(cfg: Config, s: State, limit: nat, keyId: string, key: string) returns (c: CheckpointRow)
    requires Inv(cfg, s) && Queued(s) != {} && 0 < limit <= 10000 && !NewestFailed(s.checkpoints)
    ensures StageBatch(cfg, s, limit, keyId).1 == Staged(c.id, c.last + 1 - c.first) && c.keyId == keyId
    ensures AttestPayload(c.doc, key).Some? <==> keyId == key
  {
    hide StageBatch, Queued;
    c := StagesNext(cfg, s, limit, keyId);
    NextIsAccepted(cfg, s, c, key);
  }

  lemma NextIsAccepted(cfg: Config, s: State, c: CheckpointRow, key: string)
    requires Inv(cfg, s) && NextRow(cfg, s, c)
    ensures AttestPayload(c.doc, key).Some? <==> c.keyId == key
  {
    NextStartsLater(cfg, s, c);
    hide Inv, BuildCheckpoint, AttestPayload, CheckpointPayload, Document, RowsOfCheckpoint;
    BuiltIsAccepted(cfg, s.receipts, c, key);
    BuiltRows(cfg.lib, RowsOfCheckpoint(s.receipts, c), cfg.instanceId, c.keyId, c.previous);
  }

  lemma NextStartsLater(cfg: Config, s: State, c: CheckpointRow)
    requires Inv(cfg, s) && NextRow(cfg, s, c)
    ensures c.first >= 1
  {
    hide Anchored, Authentic, ListOk, Built;
  }
}
