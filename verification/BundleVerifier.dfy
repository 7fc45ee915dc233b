/** Offline verification of a portable evidence bundle, and what an accepted bundle proves. */
module BundleVerifier {
  import opened Bytes
  import opened Json
  import opened TreeShape
  import opened Merkle
  import opened Evidence
  import opened Checkpoint

  const BUNDLE_SCHEMA := "dev.nautgate.evidence-bundle/v1"

  // A loaded key; `verify(signature, payload)` is the RSA check, left abstract.
  datatype PublicKey =
    | Rsa(fingerprint: string, verify: (seq<Byte>, seq<Byte>) -> bool)
    | NotRsa

  datatype Report = Report(
    receiptId: Option<Value>, decisionId: Option<Value>, checkpointId: Option<Value>, keyId: Option<Value>,
    fingerprint: string, evidenceSequence: int)

  // `Raised` is a Python exception the verifier does not turn into a verdict.
  datatype Reason =
    | BundleSchema | MissingPart | ReceiptSchema | CheckpointSchema | ReceiptFormat | ReceiptHashMismatch
    | ProofNotArray | ProofItemFormat | RootMismatch | LeafIndex | SequenceMismatch | LeafOutside | CountMismatch
    | KeyMismatch | UnexpectedKey | AlgorithmUnsupported | KeyNotRsa | FingerprintMismatch | FingerprintUntrusted
    | BadSignature | Raised

  datatype Verdict = Accepted(report: Report) | Rejected(reason: Reason)

  // The number Python sees in arithmetic: booleans count as 0 and 1.
  function Number(v: Option<Value>, default: real): Option<real> {
    match v
    case None => Some(default)
    case Some(Int(n)) => Some(n as real)
    case Some(Bool(b)) => Some(if b then 1.0 else 0.0)
    case Some(Float(r)) => Some(r)
    case _ => None
  }

  // isinstance(value, int): booleans are integers.
  function PyInt(v: Option<Value>): Option<int> {
    match v
    case Some(Int(n)) => Some(n)
    case Some(Bool(b)) => Some(if b then 1 else 0)
    case _ => None
  }

  function ParseItem(v: Value): Option<ProofItem> {
    if !v.Obj? then None
    else
      match (Get(v.members, "hash"), Get(v.members, "side"))
      case (Some(Str(hash)), Some(side)) =>
        (match FromHex(hash)
         case None => None
         case Some(bytes) =>
           if |bytes| != 32 then None
           else
             var sibling: Digest := bytes;
             if side == Str("left") then Some(Step(Left, sibling))
             else if side == Str("right") then Some(Step(Right, sibling))
             else None)
      case _ => None
  }

  function ParseProof(items: seq<Value>): Option<seq<ProofItem>> {
    if items == [] then Some([])
    else
      match (ParseItem(items[0]), ParseProof(items[1..]))
      case (Some(item), Some(rest)) => Some([item] + rest)
      case _ => None
  }

  // receipt and proof: from the receipt to the root the checkpoint names
  function CheckInclusion(h: HashFunction, bundle: Object, receipt: Object, checkpoint: Object): Option<Reason> {
    match ReceiptHash(h, receipt)
    case None => Some(ReceiptFormat)
    case Some(digest) =>
      if Get(bundle, "receipt_hash") != Some(Str(Hex(digest))) then Some(ReceiptHashMismatch)
      else
        match Get(bundle, "merkle_proof")
        case Some(Arr(items)) =>
          (match ParseProof(items)
           case None => Some(ProofItemFormat)
           case Some(proof) =>
             if Get(checkpoint, "merkle_root") != Some(Str(Hex(ProofRoot(h, digest, proof)))) then Some(RootMismatch)
             else None)
        case _ => Some(ProofNotArray)
  }

  // sequence, leaf index and range
  function CheckPosition(bundle: Object, receipt: Object, checkpoint: Object): Option<Reason> {
    match PyInt(Get(bundle, "leaf_index"))
    case None => Some(LeafIndex)
    case Some(index) =>
      if index < 0 then Some(LeafIndex)
      else
        match Number(Get(checkpoint, "first_sequence"), 0.0)
        case None => Some(Raised)
        case Some(first) =>
          if Get(receipt, "sequence") == None
             || Number(Get(receipt, "sequence"), 0.0) != Some(first + index as real) then
            Some(SequenceMismatch)
          else
            match Number(Get(checkpoint, "receipt_count"), 0.0)
            case None => Some(Raised)
            case Some(count) =>
              if index as real >= count then Some(LeafOutside)
              else
                match Number(Get(checkpoint, "last_sequence"), 0.0)
                case None => Some(Raised)
                case Some(last) => if count != last - first + 1.0 then Some(CountMismatch) else None
  }

  // key, algorithm and the signature over the checkpoint
  function CheckSignature(lib: Library, signature: Object, checkpoint: Object, key: PublicKey,
                          expectedKeyId: string, expectedFingerprint: string): Option<Reason> {
    var keyId := Get(signature, "key_id");
    if keyId.GetOr(Null) != Get(checkpoint, "signing_key_id").GetOr(Null) then Some(KeyMismatch)
    else if expectedKeyId != "" && keyId != Some(Str(expectedKeyId)) then Some(UnexpectedKey)
    else if Get(signature, "algorithm") != Some(Str(SIGNATURE_ALGORITHM))
         || Get(signature, "encoding") != Some(Str(SIGNATURE_ENCODING)) then Some(AlgorithmUnsupported)
    else if key.NotRsa? then Some(KeyNotRsa)
    else if Get(signature, "public_key_fingerprint") != Some(Str(key.fingerprint)) then Some(FingerprintMismatch)
    else if expectedFingerprint != "" && key.fingerprint != expectedFingerprint then Some(FingerprintUntrusted)
    else
      match (Get(signature, "value"), CheckpointPayload(checkpoint))
      case (Some(Str(text)), Some(payload)) =>
        (match lib.base64(text)
         case Some(bytes) => if key.verify(bytes, payload) then None else Some(BadSignature)
         case None => Some(BadSignature))
      case _ => Some(BadSignature)
  }

  // Set membership of an unhashable schema raises.
  predicate Unhashable(v: Option<Value>) {
    v.Some? && (v.value.Arr? || v.value.Obj?)
  }

  function VerifyBundle(lib: Library, bundle: Object, key: PublicKey, expectedKeyId: string,
                        expectedFingerprint: string): Verdict {
    if Get(bundle, "bundle_schema") != Some(Str(BUNDLE_SCHEMA)) then Rejected(BundleSchema)
    else
      match (Get(bundle, "receipt"), Get(bundle, "checkpoint"), Get(bundle, "signature"))
      case (Some(Obj(receipt)), Some(Obj(checkpoint)), Some(Obj(signature))) =>
        if Unhashable(Get(receipt, "schema")) then Rejected(Raised)
        else if !IsReceiptSchema(Get(receipt, "schema")) then Rejected(ReceiptSchema)
        else if Get(checkpoint, "schema") != Some(Str(CHECKPOINT_SCHEMA)) then Rejected(CheckpointSchema)
        else
          (match CheckInclusion(lib.sha256, bundle, receipt, checkpoint)
           case Some(reason) => Rejected(reason)
           case None =>
             match CheckPosition(bundle, receipt, checkpoint)
             case Some(reason) => Rejected(reason)
             case None =>
               match CheckSignature(lib, signature, checkpoint, key, expectedKeyId, expectedFingerprint)
               case Some(reason) => Rejected(reason)
               case None =>
                 Accepted(Report(Get(receipt, "receipt_id"), Get(receipt, "decision_id"),
                                 Get(checkpoint, "checkpoint_id"),
                                 Get(signature, "key_id"), key.fingerprint, PyInt(Get(receipt, "sequence")).GetOr(0))))
      case _ => Rejected(MissingPart)
  }

  // ----- soundness -----

  // What acceptance establishes, read off the guards.
  lemma AcceptedMeans(lib: Library, bundle: Object, key: PublicKey, expectedKeyId: string, expectedFingerprint: string)
    requires VerifyBundle(lib, bundle, key, expectedKeyId, expectedFingerprint).Accepted?
    ensures var v := VerifyBundle(lib, bundle, key, expectedKeyId, expectedFingerprint);
      && Get(bundle, "receipt").Some? && Get(bundle, "receipt").value.Obj?
      && Get(bundle, "checkpoint").Some? && Get(bundle, "checkpoint").value.Obj?
      && Get(bundle, "signature").Some? && Get(bundle, "signature").value.Obj?
      && var receipt := Get(bundle, "receipt").value.members;
      var checkpoint := Get(bundle, "checkpoint").value.members;
      && CheckInclusion(lib.sha256, bundle, receipt, checkpoint) == None
      && CheckPosition(bundle, receipt, checkpoint) == None
      && CheckSignature(lib, Get(bundle, "signature").value.members, checkpoint, key, expectedKeyId,
                        expectedFingerprint) == None
      && v.report.evidenceSequence == PyInt(Get(receipt, "sequence")).GetOr(0)
  {
    hide CheckInclusion, CheckPosition, CheckSignature;
  }

  // The proof an accepted inclusion check used.
  function AcceptedProof(h: HashFunction, bundle: Object, receipt: Object, checkpoint: Object): (proof: seq<ProofItem>)
    requires CheckInclusion(h, bundle, receipt, checkpoint) == None
    ensures ReceiptHash(h, receipt).Some?
    ensures Get(checkpoint, "merkle_root") == Some(Str(Hex(ProofRoot(h, ReceiptHash(h, receipt).value, proof))))
  {
    ParseProof(Get(bundle, "merkle_proof").value.items).value
  }

  // The receipts of a batch, with the hashes and sequence numbers its rows carry.
  predicate RowsOf(h: HashFunction, receipts: seq<Object>, rows: seq<BatchRow>) {
    && |receipts| == |rows| > 0
    && forall i :: 0 <= i < |rows| ==>
         && ReceiptHash(h, receipts[i]) == Some(rows[i].digest)
         && Get(receipts[i], "sequence") == Some(Int(rows[i].sequence))
  }

  datatype Disclosure = Disclosed(index: nat) | Broken(c: Collision) | NotIncluded

  // The inclusion check accepts the bundle for the root of this batch.
  predicate Included(h: HashFunction, receipts: seq<Object>, rows: seq<BatchRow>, bundle: Object, receipt: Object,
                     checkpoint: Object) {
    && RowsOf(h, receipts, rows) && CheckInclusion(h, bundle, receipt, checkpoint) == None
    && Get(checkpoint, "merkle_root") == Some(Str(Hex(Root(h, Digests(rows)))))
  }

  lemma IncludedRoot(h: HashFunction, receipts: seq<Object>, rows: seq<BatchRow>, bundle: Object, receipt: Object,
                     checkpoint: Object)
    requires Included(h, receipts, rows, bundle, receipt, checkpoint)
    ensures ReceiptHash(h, receipt).Some? && rows != [] && |rows| == |receipts| == |Digests(rows)|
    ensures forall i :: 0 <= i < |rows| ==> ReceiptHash(h, receipts[i]) == Some(Digests(rows)[i])
    ensures
      var proof := AcceptedProof(h, bundle, receipt, checkpoint);
      ProofRoot(h, ReceiptHash(h, receipt).value, proof) == Root(h, Digests(rows))
  {
    hide CheckInclusion, ReceiptHash, Root, ProofRoot, Hex;
    var proof := AcceptedProof(h, bundle, receipt, checkpoint);
    HexInjective(ProofRoot(h, ReceiptHash(h, receipt).value, proof), Root(h, Digests(rows)));
  }

  // Finds the receipt of a batch that an accepted inclusion check discloses.
  function Disclose(h: HashFunction, receipts: seq<Object>, rows: seq<BatchRow>, bundle: Object, receipt: Object,
                    checkpoint: Object): (r: Disclosure)
    ensures r.Disclosed? ==> r.index < |rows| == |receipts| && receipt == receipts[r.index]
    ensures r.Broken? ==> Collides(h, r.c)
    ensures r.NotIncluded? <==> !Included(h, receipts, rows, bundle, receipt, checkpoint)
  {
    hide CheckInclusion, ReceiptHash, Root, ProofRoot, Hex, Proof, RowsOf, Digests;
    if !Included(h, receipts, rows, bundle, receipt, checkpoint) then NotIncluded
    else
      IncludedRoot(h, receipts, rows, bundle, receipt, checkpoint);
      var digest := ReceiptHash(h, receipt).value;
      match Locate(h, Digests(rows), digest, AcceptedProof(h, bundle, receipt, checkpoint))
      case Broken(c) => Disclosure.Broken(c)
      case At(i) =>
        if receipt == receipts[i] then Disclosed(i)
        else Disclosure.Broken(ReceiptCollision(h, receipt, receipts[i]))
  }

  // A bundle over a given checkpoint document, with the receipt it discloses and the verdict on it.
  ghost predicate BundleAccepted(lib: Library, bundle: Object, receipt: Object, checkpoint: Object, key: PublicKey,
                                 expectedKeyId: string, expectedFingerprint: string, report: Report) {
    && Get(bundle, "receipt") == Some(Obj(receipt))
    && Get(bundle, "checkpoint") == Some(Obj(checkpoint))
    && VerifyBundle(lib, bundle, key, expectedKeyId, expectedFingerprint) == Accepted(report)
  }

  // End-to-end soundness: an accepted bundle over a checkpoint built from a batch discloses the
  // batch's receipt with that sequence number at that leaf index, or the walk above computes a
  // hash collision.
  lemma AcceptedBundleDiscloses(lib: Library, receipts: seq<Object>, rows: seq<BatchRow>, instanceId: string,
                                keyId: string, previous: Option<Digest>, bundle: Object, receipt: Object,
                                checkpoint: Object, key: PublicKey, expectedKeyId: string, expectedFingerprint: string,
                                report: Report)
    requires BuildCheckpoint(lib, rows, instanceId, keyId, previous).Complete?
    requires checkpoint == BuildCheckpoint(lib, rows, instanceId, keyId, previous).built.doc
    requires RowsOf(lib.sha256, receipts, rows)
    requires BundleAccepted(lib, bundle, receipt, checkpoint, key, expectedKeyId, expectedFingerprint, report)
    ensures var r := Disclose(lib.sha256, receipts, rows, bundle, receipt, checkpoint);
      || (r.Broken? && Collides(lib.sha256, r.c))
      || (r.Disclosed? && r.index < |rows| == |receipts| && receipt == receipts[r.index]
          && PyInt(Get(bundle, "leaf_index")) == Some(r.index)
          && report.evidenceSequence == rows[r.index].sequence)
  {
    hide VerifyBundle, CheckInclusion, CheckPosition, CheckSignature, BuildCheckpoint, Document, Root, Hex, ReceiptHash,
      Disclose, RowsOf, ProofRoot, Digests, RowsName, Get;
    AcceptedMeans(lib, bundle, key, expectedKeyId, expectedFingerprint);
    BuiltRows(lib, rows, instanceId, keyId, previous);
    DocumentGets(lib, rows, instanceId, keyId, previous);
    var r := Disclose(lib.sha256, receipts, rows, bundle, receipt, checkpoint);
    assert !r.NotIncluded?;
    if r.Disclosed? {
      RowsCarry(lib.sha256, receipts, rows, r.index);
      PositionPinned(bundle, receipt, checkpoint, rows[0].sequence, rows[r.index].sequence);
    }
  }

  lemma RowsCarry(h: HashFunction, receipts: seq<Object>, rows: seq<BatchRow>, i: nat)
    requires RowsOf(h, receipts, rows) && i < |rows|
    ensures |receipts| == |rows| && Get(receipts[i], "sequence") == Some(Int(rows[i].sequence))
  {
  }

  // With an integer sequence and an integer first sequence, the leaf index is their difference.
  lemma PositionPinned(bundle: Object, receipt: Object, checkpoint: Object, first: int, sequence: int)
    requires CheckPosition(bundle, receipt, checkpoint) == None
    requires Get(checkpoint, "first_sequence") == Some(Int(first))
    requires Get(receipt, "sequence") == Some(Int(sequence))
    ensures PyInt(Get(bundle, "leaf_index")) == Some(sequence - first)
  {
  }
}
