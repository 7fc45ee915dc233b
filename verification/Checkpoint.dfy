/** Deterministic construction of unsigned checkpoints over one contiguous batch of receipts. */
module Checkpoint {
  import opened Bytes
  import opened Json
  import opened Merkle
  import opened Evidence
  import opened Sidecar

  // Library functions whose insides are not modelled.
  datatype Library = Library(
    sha256: HashFunction,
    iso: int -> string,                     // _iso: a point in time as text
    uuid5: string -> string,                // uuid.uuid5 in the checkpoint namespace
    base64: string -> Option<seq<Byte>>)    // base64.b64decode(validate=True)

  datatype BatchRow = BatchRow(sequence: int, digest: Digest, createdAt: int)

  datatype Batch = Batch(id: string, doc: Object, payload: seq<Byte>, hash: Digest, proofs: seq<seq<ProofItem>>)

  datatype BuildResult =
    | EmptyBatch
    | EvidenceGap(expected: int, observed: int)
    | Unrepresentable
    | Complete(built: Batch)

  function Digests(rows: seq<BatchRow>): (ds: seq<Digest>)
    ensures |ds| == |rows|
    ensures forall i :: 0 <= i < |rows| ==> ds[i] == rows[i].digest
  {
    seq(|rows|, i requires 0 <= i < |rows| => rows[i].digest)
  }

  // The first row out of sequence, counted from the first row's own number.
  function FirstMismatch(rows: seq<BatchRow>, from: nat): (r: Option<nat>)
    requires rows != [] && from <= |rows|
    ensures r.None? ==> forall i :: from <= i < |rows| ==> rows[i].sequence == rows[0].sequence + i
    ensures r.Some? ==> from <= r.value < |rows| && rows[r.value].sequence != rows[0].sequence + r.value
    ensures r.Some? ==> forall i :: from <= i < r.value ==> rows[i].sequence == rows[0].sequence + i
    decreases |rows| - from
  {
    if from == |rows| then None
    else if rows[from].sequence != rows[0].sequence + from then Some(from)
    else FirstMismatch(rows, from + 1)
  }

  function Earliest(rows: seq<BatchRow>): (t: int)
    requires rows != []
    ensures forall r :: r in rows ==> t <= r.createdAt
    ensures exists r :: r in rows && t == r.createdAt
  {
    if |rows| == 1 then rows[0].createdAt
    else
      var rest := Earliest(rows[1..]);
      assert rows == [rows[0]] + rows[1..];
      if rest < rows[0].createdAt then rest else assert rows[0] in rows; rows[0].createdAt
  }

  function Latest(rows: seq<BatchRow>): (t: int)
    requires rows != []
    ensures forall r :: r in rows ==> t >= r.createdAt
    ensures exists r :: r in rows && t == r.createdAt
  {
    if |rows| == 1 then rows[0].createdAt
    else
      var rest := Latest(rows[1..]);
      assert rows == [rows[0]] + rows[1..];
      if rest > rows[0].createdAt then rest else assert rows[0] in rows; rows[0].createdAt
  }

  function PreviousText(previous: Option<Digest>): string {
    if previous.Some? then Hex(previous.value) else "genesis"
  }

  function StableName(instanceId: string, first: int, last: int, root: Digest, previous: Option<Digest>,
                      keyId: string): string {
    instanceId + ":" + IntText(first) + ":" + IntText(last) + ":" + Hex(root) + ":"
    + PreviousText(previous) + ":" + keyId
  }

  function RowsName(lib: Library, rows: seq<BatchRow>, instanceId: string, keyId: string,
                    previous: Option<Digest>): string
    requires rows != []
  {
    StableName(instanceId, rows[0].sequence, rows[|rows| - 1].sequence, Root(lib.sha256, Digests(rows)),
               previous, keyId)
  }

  function Document(lib: Library, rows: seq<BatchRow>, instanceId: string, keyId: string,
                    previous: Option<Digest>): Object
    requires rows != []
  {
    Fields(lib.uuid5(RowsName(lib, rows, instanceId, keyId, previous)), instanceId, rows[0].sequence,
           rows[|rows| - 1].sequence, |rows|, Hex(Root(lib.sha256, Digests(rows))), lib.iso(Earliest(rows)),
           lib.iso(Latest(rows)), if previous.Some? then Str(Hex(previous.value)) else Null, keyId)
  }

  // The literal of the checkpoint document.
  function Fields(id: string, instanceId: string, first: int, last: int, count: int, root: string,
                  openedAt: string, closedAt: string, previous: Value, keyId: string): (doc: Object)
    ensures doc.Keys == FIELDS
    ensures doc["schema"] == Str(CHECKPOINT_SCHEMA) && doc["merkle_algorithm"] == Str(MERKLE_ALGORITHM)
    ensures doc["checkpoint_id"] == Str(id) && doc["instance_id"] == Str(instanceId)
      && doc["signing_key_id"] == Str(keyId)
    ensures doc["first_sequence"] == Int(first) && doc["last_sequence"] == Int(last)
      && doc["receipt_count"] == Int(count)
    ensures doc["merkle_root"] == Str(root) && doc["previous_checkpoint_sha256"] == previous
    ensures doc["opened_at"] == Str(openedAt) && doc["closed_at"] == Str(closedAt)
  {
    map[
      "schema" := Str(CHECKPOINT_SCHEMA),
      "checkpoint_id" := Str(id),
      "instance_id" := Str(instanceId),
      "first_sequence" := Int(first),
      "last_sequence" := Int(last),
      "receipt_count" := Int(count),
      "merkle_algorithm" := Str(MERKLE_ALGORITHM),
      "merkle_root" := Str(root),
      "opened_at" := Str(openedAt),
      "closed_at" := Str(closedAt),
      "previous_checkpoint_sha256" := previous,
      "signing_key_id" := Str(keyId)
    ]
  }

  function Proofs(h: HashFunction, ds: seq<Digest>): (proofs: seq<seq<ProofItem>>)
    ensures |proofs| == |ds|
    ensures forall i :: 0 <= i < |ds| ==> proofs[i] == Proof(h, ds, i)
  {
    seq(|ds|, i requires 0 <= i < |ds| => Proof(h, ds, i))
  }

  function BuildCheckpoint(lib: Library, rows: seq<BatchRow>, instanceId: string, keyId: string,
                           previous: Option<Digest>): BuildResult {
    if rows == [] then EmptyBatch
    else
      match FirstMismatch(rows, 0)
      case Some(i) => EvidenceGap(rows[0].sequence + i, rows[i].sequence)
      case None =>
        var doc := Document(lib, rows, instanceId, keyId, previous);
        match CheckpointPayload(doc)
        case None => Unrepresentable
        case Some(payload) =>
          Complete(Batch(lib.uuid5(RowsName(lib, rows, instanceId, keyId, previous)), doc, payload, lib.sha256(payload),
                         Proofs(lib.sha256, Digests(rows))))
  }

  lemma DocumentFields(lib: Library, rows: seq<BatchRow>, instanceId: string, keyId: string, previous: Option<Digest>)
    requires rows != []
    ensures var doc := Document(lib, rows, instanceId, keyId, previous);
      && doc.Keys == FIELDS
      && doc["schema"] == Str(CHECKPOINT_SCHEMA)
      && doc["checkpoint_id"] == Str(lib.uuid5(RowsName(lib, rows, instanceId, keyId, previous)))
      && doc["first_sequence"] == Int(rows[0].sequence)
      && doc["last_sequence"] == Int(rows[|rows| - 1].sequence)
      && doc["receipt_count"] == Int(|rows|)
      && doc["merkle_algorithm"] == Str(MERKLE_ALGORITHM)
      && doc["merkle_root"] == Str(Hex(Root(lib.sha256, Digests(rows))))
      && doc["previous_checkpoint_sha256"] == (if previous.Some? then Str(Hex(previous.value)) else Null)
      && doc["signing_key_id"] == Str(keyId)
  {
    hide Root, Hex, Digests, RowsName, Earliest, Latest, Fields;
  }

  lemma DocumentGets(lib: Library, rows: seq<BatchRow>, instanceId: string, keyId: string, previous: Option<Digest>)
    requires rows != []
    ensures var doc := Document(lib, rows, instanceId, keyId, previous);
      && Get(doc, "schema") == Some(Str(CHECKPOINT_SCHEMA))
      && Get(doc, "first_sequence") == Some(Int(rows[0].sequence))
      && Get(doc, "last_sequence") == Some(Int(rows[|rows| - 1].sequence))
      && Get(doc, "receipt_count") == Some(Int(|rows|))
      && Get(doc, "merkle_root") == Some(Str(Hex(Root(lib.sha256, Digests(rows)))))
      && Get(doc, "signing_key_id") == Some(Str(keyId))
      && Get(doc, "previous_checkpoint_sha256") == Some(if previous.Some? then Str(Hex(previous.value)) else Null)
  {
    DocumentFields(lib, rows, instanceId, keyId, previous);
    hide Document, Root, Hex, Digests, RowsName, Earliest, Latest;
  }

  lemma DocumentValid(lib: Library, rows: seq<BatchRow>, instanceId: string, keyId: string, previous: Option<Digest>)
    requires rows != []
    ensures Valid(Obj(Document(lib, rows, instanceId, keyId, previous))) <==>
      && -MAX_SAFE_INTEGER <= rows[0].sequence <= MAX_SAFE_INTEGER
      && -MAX_SAFE_INTEGER <= rows[|rows| - 1].sequence <= MAX_SAFE_INTEGER
      && |rows| <= MAX_SAFE_INTEGER
  {
    hide Root, Hex, Digests, RowsName, Earliest, Latest, Fields;
    var doc := Document(lib, rows, instanceId, keyId, previous);
    DocumentFields(lib, rows, instanceId, keyId, previous);
    assert Valid(Obj(doc)) ==>
      Valid(doc["first_sequence"]) && Valid(doc["last_sequence"]) && Valid(doc["receipt_count"]);
  }

  lemma BuiltRowsFollow(lib: Library, rows: seq<BatchRow>, instanceId: string, keyId: string, previous: Option<Digest>)
    requires BuildCheckpoint(lib, rows, instanceId, keyId, previous).Complete?
    ensures rows != [] && forall i :: 0 <= i < |rows| ==> rows[i].sequence == rows[0].sequence + i
  {
    BuiltRows(lib, rows, instanceId, keyId, previous);
  }

  lemma BuiltRows(lib: Library, rows: seq<BatchRow>, instanceId: string, keyId: string, previous: Option<Digest>)
    requires BuildCheckpoint(lib, rows, instanceId, keyId, previous).Complete?
    ensures rows != []
    ensures forall i :: 0 <= i < |rows| ==> rows[i].sequence == rows[0].sequence + i
    ensures BuildCheckpoint(lib, rows, instanceId, keyId, previous).built.doc
         == Document(lib, rows, instanceId, keyId, previous)
    ensures var built := BuildCheckpoint(lib, rows, instanceId, keyId, previous).built;
      && CheckpointPayload(built.doc) == Some(built.payload) && built.hash == lib.sha256(built.payload)
      && built.id == lib.uuid5(RowsName(lib, rows, instanceId, keyId, previous))
      && built.proofs == Proofs(lib.sha256, Digests(rows))
  {
    hide Document, CheckpointPayload, Proofs, RowsName, Digests;
  }

  // The sidecar accepts a built checkpoint exactly when it starts at sequence 1 or later and was
  // built for the configured key, and then signs exactly the submitted bytes.
  lemma AttestAcceptsBuilt(lib: Library, rows: seq<BatchRow>, instanceId: string, keyId: string,
                           previous: Option<Digest>, expectedKey: string)
    requires BuildCheckpoint(lib, rows, instanceId, keyId, previous).Complete?
    ensures var b := BuildCheckpoint(lib, rows, instanceId, keyId, previous).built;
      AttestPayload(b.doc, expectedKey)
      == if rows[0].sequence >= 1 && keyId == expectedKey then Some(b.payload) else None
  {
    hide BuildCheckpoint, Document, Root, Hex, Digests, IsSha256Hex, CheckpointPayload, AttestPayload;
    BuiltRows(lib, rows, instanceId, keyId, previous);
    DocumentFields(lib, rows, instanceId, keyId, previous);
    HexIsSha256(Root(lib.sha256, Digests(rows)));
    if previous.Some? {
      HexIsSha256(previous.value);
    }
    var built := BuildCheckpoint(lib, rows, instanceId, keyId, previous).built;
    AttestAcceptsFields(built.doc, built.payload, keyId, rows[0].sequence, |rows|, expectedKey);
  }

  lemma AttestAcceptsFields(doc: Object, payload: seq<Byte>, keyId: string, first: int, count: nat, expectedKey: string)
    requires CheckpointPayload(doc) == Some(payload) && doc.Keys == FIELDS && count > 0
    requires doc["schema"] == Str(CHECKPOINT_SCHEMA) && doc["merkle_algorithm"] == Str(MERKLE_ALGORITHM)
    requires doc["signing_key_id"] == Str(keyId) && IsSha256Hex(doc["merkle_root"])
    requires doc["first_sequence"] == Int(first) && doc["last_sequence"] == Int(first + count - 1)
    requires doc["receipt_count"] == Int(count)
    requires doc["previous_checkpoint_sha256"] == Null || IsSha256Hex(doc["previous_checkpoint_sha256"])
    ensures AttestPayload(doc, expectedKey) == if first >= 1 && keyId == expectedKey then Some(payload) else None
  {
    assert Admits(doc, expectedKey) <==> first >= 1 && keyId == expectedKey by {
      hide IsSha256Hex, CheckpointPayload, AttestPayload;
    }
    hide Admits, AttestJson, CheckpointPayload;
    if Admits(doc, expectedKey) {
      AttestAgreesWithGateway(doc, expectedKey);
    }
  }

  lemma HexIsSha256(d: Digest)
    ensures IsSha256Hex(Str(Hex(d)))
  {
    HexRoundTrip(d);
    hide FromHex;
  }
}
