/** The Verified Audit Trail as a state machine: one atomic step per database transaction of the
    receipt writer, the checkpoint worker and the signer. */
module Trail {
  import opened Bytes
  import opened Json
  import opened Merkle
  import opened Evidence
  import opened Checkpoint
  import opened SequenceOrder

  datatype ReceiptStatus = Pending | Batched | InVerified | InGap

  // A row of audit_receipts, keyed by its evidence_sequence.
  datatype ReceiptRow = ReceiptRow(
    body: Object, digest: Digest, createdAt: int, status: ReceiptStatus,
    checkpointId: Option<string>, leafIndex: Option<int>, proof: Option<seq<ProofItem>>)

  datatype CheckpointStatus = Signing | Verified | Failed

  datatype Seal = Seal(signature: string, algorithm: string, fingerprint: Option<string>)

  // A row of audit_checkpoints.
  datatype CheckpointRow = CheckpointRow(
    id: string, first: int, last: int, doc: Object, hash: Digest, previous: Option<Digest>, keyId: string,
    status: CheckpointStatus, attempts: int, seal: Option<Seal>)

  datatype Config = Config(lib: Library, instanceId: string, maxAttempts: int)

  // The tables; `gaps` are the (expected, observed) rows of audit_gaps.
  datatype State = State(
    next: int, receipts: map<int, ReceiptRow>, outbox: set<int>, checkpoints: seq<CheckpointRow>, gaps: seq<(int, int)>)

  const EMPTY := State(1, map[], {}, [], [])

  // ----- append a receipt -----

  // The receipt written for sequence number n: the schema and the number are the writer's own.
  function ReceiptBody(members: Object, control: bool, n: int): Object {
    members["schema" := Str(if control then CONTROL_RECEIPT_SCHEMA else RECEIPT_SCHEMA)]["sequence" := Int(n)]
  }

  // A refused receipt or a taken number rolls the transaction back.
  function Append(cfg: Config, s: State, members: Object, control: bool, createdAt: int): State {
    var body := ReceiptBody(members, control, s.next);
    match ReceiptHash(cfg.lib.sha256, body)
    case None => s
    case Some(digest) =>
      if s.next in s.receipts then s
      else s.(next := s.next + 1,
              receipts := s.receipts[s.next := ReceiptRow(body, digest, createdAt, Pending, None, None, None)],
              outbox := s.outbox + {s.next})
  }

  // ----- stage a checkpoint -----

  datatype StageResult =
    | Empty
    | Waiting
    | GapFound(expected: int, observed: int)
    | Staged(id: string, count: int)
    | StageRaised

  function Clamp(maxReceipts: int): (n: nat)
    ensures 1 <= n <= 10000
  {
    if maxReceipts < 1 then 1 else if maxReceipts > 10000 then 10000 else maxReceipts
  }

  // The newest checkpoint that is not failed, by last sequence.
  function Newest(cps: seq<CheckpointRow>): (r: Option<CheckpointRow>)
    ensures r.None? ==> forall c :: c in cps ==> c.status == Failed
    ensures r.Some? ==> r.value in cps && r.value.status != Failed
    ensures r.Some? ==> forall c :: c in cps && c.status != Failed ==> c.last <= r.value.last
  {
    if cps == [] then None
    else
      var c, rest := cps[|cps| - 1], Newest(cps[..|cps| - 1]);
      assert cps == cps[..|cps| - 1] + [c];
      if c.status == Failed || (rest.Some? && rest.value.last > c.last) then rest else Some(c)
  }

  function RowFor(receipts: map<int, ReceiptRow>, k: int): BatchRow
    requires k in receipts
  {
    BatchRow(k, receipts[k].digest, receipts[k].createdAt)
  }

  function BatchRows(receipts: map<int, ReceiptRow>, order: seq<int>): (rows: seq<BatchRow>)
    requires forall k :: k in order ==> k in receipts
    ensures |rows| == |order|
    ensures forall i :: 0 <= i < |rows| ==> rows[i] == RowFor(receipts, order[i])
  {
    seq(|order|, i requires 0 <= i < |order| => RowFor(receipts, order[i]))
  }

  // Insert the gap row and mark the skipped receipts.
  function RecordGap(s: State, expected: int, observed: int): State {
    s.(gaps := s.gaps + [(expected, observed)],
       receipts := map k | k in s.receipts ::
         if expected <= k < observed then s.receipts[k].(status := InGap) else s.receipts[k])
  }

  function NewRow(order: seq<int>, built: Batch, keyId: string, previous: Option<Digest>): CheckpointRow
    requires order != []
  {
    CheckpointRow(built.id, order[0], order[|order| - 1], built.doc, built.hash, previous, keyId, Signing, 0, None)
  }

  predicate IdTaken(cps: seq<CheckpointRow>, id: string) {
    exists i :: 0 <= i < |cps| && cps[i].id == id
  }

  // UNIQUE (instance_id, first_sequence, last_sequence)
  predicate RangeTaken(cps: seq<CheckpointRow>, row: CheckpointRow) {
    exists i :: 0 <= i < |cps| && cps[i].id != row.id && cps[i].first == row.first && cps[i].last == row.last
  }

  // The insert (skipped when the id is taken), the receipt updates and the outbox delete.
  function Commit(s: State, order: seq<int>, row: CheckpointRow, proofs: seq<seq<ProofItem>>): State
    requires |proofs| == |order| > 0
  {
    s.(checkpoints := if IdTaken(s.checkpoints, row.id) then s.checkpoints else s.checkpoints + [row],
       receipts := map k | k in s.receipts ::
         if k in order && 0 <= k - order[0] < |proofs| then
           s.receipts[k].(status := Batched, checkpointId := Some(row.id), leafIndex := Some(k - order[0]),
                          proof := Some(proofs[k - order[0]]))
         else s.receipts[k],
       outbox := s.outbox - set k | k in order)
  }

  // audit_outbox JOIN audit_receipts
  function Queued(s: State): (ks: set<int>)
    ensures forall k :: k in ks ==> k in s.receipts
  {
    set k | k in s.outbox && k in s.receipts
  }

  function BuildNext(cfg: Config, s: State, limit: nat, keyId: string): BuildResult {
    var newest := Newest(s.checkpoints);
    var previous := if newest.Some? then Some(newest.value.hash) else None;
    BuildCheckpoint(cfg.lib, BatchRows(s.receipts, FirstSequences(Queued(s), limit)), cfg.instanceId, keyId, previous)
  }

  function Stage(cfg: Config, s: State, maxReceipts: int, maxAge: int, force: bool, now: int,
                 keyId: string): (State, StageResult) {
    var limit, queued := Clamp(maxReceipts), Queued(s);
    if queued == {} then (s, Empty)
    else if !force && |queued| < limit && forall k :: k in queued ==> now - s.receipts[k].createdAt < maxAge then
      (s, Waiting)
    else StageBatch(cfg, s, limit, keyId)
  }

  function StageBatch(cfg: Config, s: State, limit: nat, keyId: string): (State, StageResult)
    requires Queued(s) != {} && limit > 0
  {
    var newest := Newest(s.checkpoints);
    var order := FirstSequences(Queued(s), limit);
    var expected := if newest.Some? then newest.value.last + 1 else 1;
    if order[0] != expected then (RecordGap(s, expected, order[0]), GapFound(expected, order[0]))
    else
      match BuildNext(cfg, s, limit, keyId)
      case EvidenceGap(e, o) => (RecordGap(s, e, o), GapFound(e, o))
      case Complete(built) =>
        var row := NewRow(order, built, keyId, if newest.Some? then Some(newest.value.hash) else None);
        if |built.proofs| != |order| || RangeTaken(s.checkpoints, row) then (s, StageRaised)
        else (Commit(s, order, row, built.proofs), Staged(row.id, |order|))
      case _ => (s, StageRaised)
  }

  // ----- sign a checkpoint -----

  // The sidecar's answer, or a failed call. `signature` is the text and its decoded bytes.
  datatype Response =
    | NoResponse
    | Reply(verified: bool, checkpointId: Option<string>, checkpointHash: Option<string>, keyId: Option<string>,
            algorithm: Option<string>, encoding: Option<string>, fingerprint: Option<Value>, signature: Option<string>)

  datatype SignResult = Idle | SignedOff(id: string) | Retry(id: string) | GaveUp(id: string) | SignRaised

  // The staged checkpoint with the smallest first sequence.
  function OldestSigning(cps: seq<CheckpointRow>): (r: Option<nat>)
    ensures r.None? ==> forall i :: 0 <= i < |cps| ==> cps[i].status != Signing
    ensures r.Some? ==> r.value < |cps| && cps[r.value].status == Signing
    ensures r.Some? ==> forall i :: 0 <= i < |cps| && cps[i].status == Signing ==> cps[r.value].first <= cps[i].first
  {
    if cps == [] then None
    else
      var n := |cps| - 1;
      var rest := OldestSigning(cps[..n]);
      if cps[n].status == Signing && (rest.None? || cps[rest.value].first > cps[n].first) then Some(n) else rest
  }

  // _validate_response
  predicate ValidReply(cfg: Config, r: Response, row: CheckpointRow, expectedKey: string, expectedFingerprint: string)
    requires r.Reply?
  {
    && r.verified
    && r.checkpointId == Some(row.id)
    && r.checkpointHash == Some(Hex(row.hash))
    && r.keyId == Some(expectedKey)
    && r.algorithm == Some(SIGNATURE_ALGORITHM) && r.encoding == Some(SIGNATURE_ENCODING)
    && (expectedFingerprint != "" ==> r.fingerprint == Some(Str(expectedFingerprint)))
    && r.signature.Some? && cfg.lib.base64(r.signature.value).Some? && cfg.lib.base64(r.signature.value).value != []
  }

  function Fail(cfg: Config, s: State, i: nat): (State, SignResult)
    requires i < |s.checkpoints|
  {
    var row := s.checkpoints[i];
    var terminal := row.attempts + 1 >= cfg.maxAttempts;
    (s.(checkpoints := s.checkpoints[i :=
       row.(status := if terminal then Failed else Signing, attempts := row.attempts + 1)]),
     if terminal then GaveUp(row.id) else Retry(row.id))
  }

  function MarkVerified(receipts: map<int, ReceiptRow>, id: string): map<int, ReceiptRow> {
    map k | k in receipts ::
      if receipts[k].checkpointId == Some(id) then receipts[k].(status := InVerified) else receipts[k]
  }

  function Finalize(s: State, i: nat, seal: Seal): State
    requires i < |s.checkpoints|
  {
    var row := s.checkpoints[i];
    s.(checkpoints := s.checkpoints[i := row.(status := Verified, attempts := row.attempts + 1, seal := Some(seal))],
       receipts := MarkVerified(s.receipts, row.id))
  }

  // A text column holds any text without NUL.
  predicate Storable(text: string) {
    '\0' !in text
  }

  // The text stored for the reported fingerprint; None when the update raises.
  function StoredFingerprint(v: Option<Value>): Option<Option<string>> {
    match v
    case Some(Str(text)) => if Storable(text) then Some(Some(text)) else None
    case Some(Null) => Some(None)
    case _ => None
  }

  function Sign(cfg: Config, s: State, expectedKey: string, expectedFingerprint: string,
                response: Response): (State, SignResult) {
    match OldestSigning(s.checkpoints)
    case None => (s, Idle)
    case Some(i) =>
      var row := s.checkpoints[i];
      match CheckpointPayload(row.doc)
      case None => (s, SignRaised)
      case Some(payload) =>
        if cfg.lib.sha256(payload) != row.hash || row.keyId != expectedKey then Fail(cfg, s, i)
        else if response.NoResponse? || !ValidReply(cfg, response, row, expectedKey, expectedFingerprint)
          then Fail(cfg, s, i)
        else
          match StoredFingerprint(response.fingerprint)
          case None => (s, SignRaised)
          case Some(fingerprint) =>
            (Finalize(s, i, Seal(response.signature.value, response.algorithm.value, fingerprint)), SignedOff(row.id))
  }

  // ----- runs -----

  datatype Step =
    | DoAppend(members: Object, control: bool, createdAt: int)
    | DoStage(maxReceipts: int, maxAge: int, force: bool, now: int, stageKey: string)
    | DoSign(expectedKey: string, expectedFingerprint: string, response: Response)

  function Next(cfg: Config, s: State, step: Step): State {
    match step
    case DoAppend(members, control, createdAt) => Append(cfg, s, members, control, createdAt)
    case DoStage(m, age, force, now, key) => Stage(cfg, s, m, age, force, now, key).0
    case DoSign(key, fingerprint, response) => Sign(cfg, s, key, fingerprint, response).0
  }

  function Run(cfg: Config, s: State, steps: seq<Step>): State
    decreases |steps|
  {
    if steps == [] then s else Run(cfg, Next(cfg, s, steps[0]), steps[1..])
  }
}
