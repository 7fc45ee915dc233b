/** An accepted bundle, or an admitted checkpoint, with one part replaced. */
module BundleTampering {
  import opened Bytes
  import opened Json
  import opened Evidence
  import opened Sidecar
  import opened Checkpoint
  import opened BundleVerifier

  // The verifier accepts the bundle.
  predicate Passes(lib: Library, bundle: Object, key: PublicKey, keyId: string, fingerprint: string) {
    VerifyBundle(lib, bundle, key, keyId, fingerprint).Accepted?
  }

  const PARTS := {
    "bundle_schema", "receipt", "receipt_hash", "leaf_index", "merkle_proof", "checkpoint", "signature"
  }

  /** No part may be missing. */
  lemma NoPartMayBeMissing(lib: Library, bundle: Object, part: string, key: PublicKey, keyId: string,
                           fingerprint: string)
    requires part in PARTS
    ensures !Passes(lib, bundle - {part}, key, keyId, fingerprint)
  {
    var b := bundle - {part};
    assert Get(b, part) == None;
    hide Get, ReceiptHash, Hex, ParseProof, CheckSignature, IsReceiptSchema;
  }

  // The other parts of a bundle whose one part is replaced.
  lemma OthersStay(bundle: Object, part: string, v: Value)
    ensures Get(bundle[part := v], part) == Some(v)
    ensures forall other :: other != part ==> Get(bundle[part := v], other) == Get(bundle, other)
  {
  }


  /** With the rest of an accepted bundle no other schema is accepted, */
  lemma OnlyThisSchema(lib: Library, bundle: Object, v: Value, key: PublicKey, keyId: string, fingerprint: string)
    requires Passes(lib, bundle, key, keyId, fingerprint)
    ensures Passes(lib, bundle["bundle_schema" := v], key, keyId, fingerprint) <==>
      v == Str("dev.nautgate.evidence-bundle/v1")
  {
    OthersStay(bundle, "bundle_schema", v);
    hide ReceiptHash, Hex, ParseProof, CheckSignature, IsReceiptSchema;
  }

  /** no other receipt hash, */
  lemma OnlyItsReceiptHash(lib: Library, bundle: Object, v: Value, key: PublicKey, keyId: string,
                           fingerprint: string)
    requires Passes(lib, bundle, key, keyId, fingerprint)
    ensures "receipt_hash" in bundle
    ensures Passes(lib, bundle["receipt_hash" := v], key, keyId, fingerprint) <==> v == bundle["receipt_hash"]
  {
    OthersStay(bundle, "receipt_hash", v);
    hide ReceiptHash, Hex, ParseProof, CheckSignature, IsReceiptSchema;
  }

  // An integer, as Python takes it: true is 1 and false is 0.
  function WholeOf(v: Value): Option<int> {
    if v.Int? then Some(v.n) else if v == Bool(true) then Some(1) else if v == Bool(false) then Some(0) else None
  }

  // A number, as Python compares it; a missing one is 0.
  function NumberIn(o: Object, key: string): Option<real> {
    if key !in o then Some(0.0)
    else if o[key].Float? then Some(o[key].r)
    else
      match WholeOf(o[key])
      case Some(n) => Some(n as real)
      case None => None
  }

  /** and no other leaf index. */
  lemma OnlyItsLeafIndex(lib: Library, bundle: Object, v: Value, key: PublicKey, keyId: string, fingerprint: string)
    requires Passes(lib, bundle, key, keyId, fingerprint)
    ensures "leaf_index" in bundle && WholeOf(bundle["leaf_index"]) != None
    ensures Passes(lib, bundle["leaf_index" := v], key, keyId, fingerprint) <==>
      WholeOf(v) == WholeOf(bundle["leaf_index"])
  {
    OthersStay(bundle, "leaf_index", v);
    hide ReceiptHash, Hex, ParseProof, CheckSignature, IsReceiptSchema;
  }

  const SIGNATURE_FIELDS := {"key_id", "algorithm", "encoding", "public_key_fingerprint"}

  lemma SignatureOf(lib: Library, bundle: Object, key: PublicKey, keyId: string, fingerprint: string)
    requires Passes(lib, bundle, key, keyId, fingerprint)
    ensures "signature" in bundle && bundle["signature"].Obj? && "checkpoint" in bundle && bundle["checkpoint"].Obj?
    ensures CheckSignature(lib, bundle["signature"].members, bundle["checkpoint"].members, key, keyId, fingerprint)
      == None
  {
    hide CheckInclusion, CheckPosition, CheckSignature, IsReceiptSchema;
  }

  lemma SignatureDecides(lib: Library, bundle: Object, signature: Object, key: PublicKey, keyId: string,
                         fingerprint: string)
    requires Passes(lib, bundle, key, keyId, fingerprint)
    requires "checkpoint" in bundle && bundle["checkpoint"].Obj?
    ensures Passes(lib, bundle["signature" := Obj(signature)], key, keyId, fingerprint) <==>
      CheckSignature(lib, signature, bundle["checkpoint"].members, key, keyId, fingerprint) == None
  {
    OthersStay(bundle, "signature", Obj(signature));
    hide ReceiptHash, Hex, ParseProof, CheckSignature, IsReceiptSchema;
  }

  lemma OnlyItsField(lib: Library, signature: Object, checkpoint: Object, field: string, v: Value, key: PublicKey,
                     keyId: string, fingerprint: string)
    requires CheckSignature(lib, signature, checkpoint, key, keyId, fingerprint) == None
    requires field in SIGNATURE_FIELDS && field in signature
    ensures CheckSignature(lib, signature[field := v], checkpoint, key, keyId, fingerprint) == None <==>
      v == signature[field]
  {
    OthersStay(signature, field, v);
    hide CheckpointPayload;
  }

  /** Of the signature part no other key id, algorithm, encoding or fingerprint is accepted. */
  lemma OnlyItsSignatureField(lib: Library, bundle: Object, field: string, v: Value, key: PublicKey, keyId: string,
                              fingerprint: string)
    requires Passes(lib, bundle, key, keyId, fingerprint) && field in SIGNATURE_FIELDS
    ensures "signature" in bundle && bundle["signature"].Obj?
    ensures
      var signature := bundle["signature"].members;
      field in signature ==>
        (Passes(lib, bundle["signature" := Obj(signature[field := v])], key, keyId, fingerprint) <==>
          v == signature[field])
  {
    hide Passes, CheckSignature;
    SignatureOf(lib, bundle, key, keyId, fingerprint);
    var signature := bundle["signature"].members;
    if field in signature {
      SignatureDecides(lib, bundle, signature[field := v], key, keyId, fingerprint);
      OnlyItsField(lib, signature, bundle["checkpoint"].members, field, v, key, keyId, fingerprint);
    }
  }

  /** Whatever the key, an accepted checkpoint's range and count agree, and the receipt lies in it at its leaf
      index; all four are numbers. */
  lemma RangeAgrees(lib: Library, bundle: Object, key: PublicKey, keyId: string, fingerprint: string)
    requires Passes(lib, bundle, key, keyId, fingerprint)
    ensures "checkpoint" in bundle && bundle["checkpoint"].Obj? && "receipt" in bundle && bundle["receipt"].Obj?
    ensures "leaf_index" in bundle && WholeOf(bundle["leaf_index"]).Some?
    ensures
      var checkpoint, index := bundle["checkpoint"].members, WholeOf(bundle["leaf_index"]).value;
      var first, last := NumberIn(checkpoint, "first_sequence"), NumberIn(checkpoint, "last_sequence");
      var count, sequence := NumberIn(checkpoint, "receipt_count"), NumberIn(bundle["receipt"].members, "sequence");
      && first.Some? && last.Some? && count.Some? && sequence.Some? && "sequence" in bundle["receipt"].members
      && count.value == last.value - first.value + 1.0 && sequence.value == first.value + index as real
      && 0 <= index && index as real < count.value
  {
    hide CheckInclusion, CheckSignature, IsReceiptSchema;
  }

  /** The report repeats the names in the receipt, the checkpoint and the signature, the key's fingerprint and
      the receipt's number. */
  lemma ReportSays(lib: Library, bundle: Object, key: PublicKey, keyId: string, fingerprint: string)
    requires Passes(lib, bundle, key, keyId, fingerprint)
    ensures
      var report := VerifyBundle(lib, bundle, key, keyId, fingerprint).report;
      && "receipt" in bundle && bundle["receipt"].Obj? && "checkpoint" in bundle && bundle["checkpoint"].Obj?
      && "signature" in bundle && bundle["signature"].Obj? && key.Rsa?
      && report.receiptId == Get(bundle["receipt"].members, "receipt_id")
      && report.decisionId == Get(bundle["receipt"].members, "decision_id")
      && report.checkpointId == Get(bundle["checkpoint"].members, "checkpoint_id")
      && report.keyId == Get(bundle["signature"].members, "key_id") && report.fingerprint == key.fingerprint
      && (keyId == "" || report.keyId == Some(Str(keyId))) && (fingerprint == "" || report.fingerprint == fingerprint)
  {
    hide CheckInclusion, CheckPosition, IsReceiptSchema, CheckpointPayload;
  }

  // ----- the sidecar -----

  predicate Admitted(checkpoint: Object, key: string) {
    AttestPayload(checkpoint, key).Some?
  }

  lemma AdmittedIsAdmitted(checkpoint: Object, key: string)
    requires Admitted(checkpoint, key)
    ensures Admits(checkpoint, key)
  {
    hide Admits, AttestJson;
  }

  /** The sidecar signs no checkpoint with a field missing or one too many, */
  lemma OnlyTheseFields(checkpoint: Object, field: string, v: Value, key: string)
    requires Admitted(checkpoint, key)
    ensures field in FIELDS ==> !Admitted(checkpoint - {field}, key)
    ensures field !in FIELDS ==> !Admitted(checkpoint[field := v], key)
  {
    var other := if field in FIELDS then checkpoint - {field} else checkpoint[field := v];
    assert field in other.Keys <==> field !in FIELDS;
    KeysAdmitted(other, key);
    hide *;
  }

  lemma KeysAdmitted(checkpoint: Object, key: string)
    ensures Admitted(checkpoint, key) ==> checkpoint.Keys == FIELDS
  {
    hide AttestJson, IsSha256Hex, RangeAccepted, FIELDS;
  }

  /** and with the rest of one that it signs no other schema, algorithm, key, number or count. */
  lemma OnlyItsValue(checkpoint: Object, field: string, v: Value, key: string)
    requires Admitted(checkpoint, key)
    requires field in {
      "schema", "merkle_algorithm", "signing_key_id", "first_sequence", "last_sequence", "receipt_count"}
    ensures field in checkpoint && (Admitted(checkpoint[field := v], key) <==> v == checkpoint[field])
  {
    hide Admitted, Admits;
    AdmittedIsAdmitted(checkpoint, key);
    ValuesAdmitted(checkpoint, key);
    if v == checkpoint[field] {
      assert checkpoint[field := v] == checkpoint;
    } else if Admitted(checkpoint[field := v], key) {
      OthersStay(checkpoint, field, v);
      AdmittedIsAdmitted(checkpoint[field := v], key);
      ValuesAdmitted(checkpoint[field := v], key);
      assert false;
    }
  }

  lemma ValuesAdmitted(checkpoint: Object, key: string)
    requires Admits(checkpoint, key)
    ensures Get(checkpoint, "schema") == Some(Str("dev.nautgate.audit-checkpoint/v1"))
    ensures Get(checkpoint, "merkle_algorithm") == Some(Str("sha256-binary-v1"))
    ensures Get(checkpoint, "signing_key_id") == Some(Str(key))
    ensures Get(checkpoint, "first_sequence").Some? && Get(checkpoint, "first_sequence").value.Int?
    ensures Get(checkpoint, "last_sequence").Some? && Get(checkpoint, "last_sequence").value.Int?
    ensures Get(checkpoint, "receipt_count").Some?
    ensures
      var first, last := Get(checkpoint, "first_sequence").value.n, Get(checkpoint, "last_sequence").value.n;
      1 <= first <= last && Get(checkpoint, "receipt_count").value == Int(last - first + 1)
  {
    hide IsSha256Hex;
  }

  // 64 lower-case hexadecimal digits.
  predicate IsDigest(s: string) {
    |s| == 64 && forall i :: 0 <= i < 64 ==> 48 <= s[i] as int <= 57 || 97 <= s[i] as int <= 102
  }

  predicate NoSpace(s: string) {
    forall i :: 0 <= i < |s| ==> s[i] as int != 32 && !(9 <= s[i] as int <= 13)
  }

  lemma {:induction false} PlainHexReads(s: string)
    requires NoSpace(s)
    ensures FromHex(s).Some? <==> |s| % 2 == 0 && forall i :: 0 <= i < |s| ==> IsHexDigit(s[i])
    ensures FromHex(s).Some? ==> 2 * |FromHex(s).value| == |s|
  {
    if s != "" {
      assert !IsAsciiSpace(s[0]);
      if |s| >= 2 && IsHexDigit(s[0]) && IsHexDigit(s[1]) {
        PlainHexReads(s[2..]);
      }
    }
  }

  lemma DigestIff(s: string)
    requires NoSpace(s)
    ensures IsSha256Hex(Str(s)) <==> IsDigest(s)
  {
    PlainHexReads(s);
    hide FromHex, NoSpace;
  }

  lemma DigestFields(checkpoint: Object, v: Value, key: string)
    requires Admits(checkpoint, key)
    ensures Admits(checkpoint["merkle_root" := v], key) <==> IsSha256Hex(v)
    ensures Admits(checkpoint["previous_checkpoint_sha256" := v], key) <==> v == Null || IsSha256Hex(v)
  {
    hide IsSha256Hex, RangeAccepted;
  }

  lemma AdmittedIff(checkpoint: Object, key: string)
    ensures Admitted(checkpoint, key) <==> Admits(checkpoint, key) && AttestJson(Obj(checkpoint)).Some?
  {
    hide Admits, AttestJson;
  }

  /** The root must be a digest in lower-case hexadecimal, and the predecessor one or null. */
  lemma OnlyDigests(checkpoint: Object, s: string, key: string)
    requires Admitted(checkpoint, key) && NoSpace(s)
    ensures Admitted(checkpoint["merkle_root" := Str(s)], key) <==> IsDigest(s)
    ensures Admitted(checkpoint["previous_checkpoint_sha256" := Str(s)], key) <==> IsDigest(s)
  {
    hide *;
    AdmittedIff(checkpoint, key);
    AdmittedIff(checkpoint["merkle_root" := Str(s)], key);
    AdmittedIff(checkpoint["previous_checkpoint_sha256" := Str(s)], key);
    DigestFields(checkpoint, Str(s), key);
    DigestIff(s);
    TextStaysAccepted(checkpoint, "merkle_root", s);
    TextStaysAccepted(checkpoint, "previous_checkpoint_sha256", s);
  }

  // A text in place of another value keeps a checkpoint representable.
  lemma TextStaysAccepted(checkpoint: Object, field: string, s: string)
    ensures AttestJson(Obj(checkpoint)).Some? ==> AttestJson(Obj(checkpoint[field := Str(s)])).Some?
  {
    hide Text;
    var other := checkpoint[field := Str(s)];
    if Accepts(Obj(checkpoint)) {
      forall k | k in other ensures Accepts(other[k]) {
        if k != field {
          assert other[k] == checkpoint[k];
        }
      }
    }
  }
}
