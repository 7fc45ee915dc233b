/** The tables as the workers update them: each method is one database transaction, and leaves
    exactly the state and result of the corresponding atomic step. */
module TrailTables {
  import opened Bytes
  import opened Merkle
  import opened Evidence
  import opened Checkpoint
  import opened SequenceOrder
  import opened Trail
  import opened TrailSafety

  class AuditTables {
    const cfg: Config
    var nextSequence: int
    var receipts: map<int, ReceiptRow>
    var outbox: set<int>
    var checkpoints: seq<CheckpointRow>
    var gaps: seq<(int, int)>

    function Contents(): State
      reads this
    {
      State(nextSequence, receipts, outbox, checkpoints, gaps)
    }

    constructor (cfg: Config)
      ensures this.cfg == cfg && Contents() == EMPTY && Inv(cfg, Contents())
    {
      this.cfg := cfg;
      nextSequence, receipts, outbox, checkpoints, gaps := 1, map[], {}, [], [];
    }

    // The receipt writer: allocate a number, insert the receipt, queue it.
    method AppendReceipt(members: Object, control: bool, createdAt: int) returns (sequence: Option<int>)
      modifies this
      ensures Contents() == Append(cfg, old(Contents()), members, control, createdAt)
      ensures sequence == if Contents() == old(Contents()) then None else Some(old(nextSequence))
    {
      hide ReceiptBody, ReceiptHash;
      var n := nextSequence;
      var body := ReceiptBody(members, control, n);
      var digest := ReceiptHash(cfg.lib.sha256, body);
      if digest == None || n in receipts {
        return None;  // the exception rolls the allocation back
      }
      nextSequence := n + 1;
      receipts := receipts[n := ReceiptRow(body, digest.value, createdAt, Pending, None, None, None)];
      outbox := outbox + {n};
      return Some(n);
    }

    // INSERT into audit_gaps, then UPDATE the receipts in between.
    method InsertGap(expected: int, observed: int)
      modifies this
      ensures Contents() == RecordGap(old(Contents()), expected, observed)
    {
      gaps := gaps + [(expected, observed)];
      var todo := receipts.Keys;
      ghost var was := receipts;
      while todo != {}
        invariant todo <= was.Keys && receipts.Keys == was.Keys
        invariant forall k :: k in was && k in todo ==> receipts[k] == was[k]
        invariant forall k :: k in was && k !in todo ==>
          receipts[k] == if expected <= k < observed then was[k].(status := InGap) else was[k]
        invariant nextSequence == old(nextSequence) && outbox == old(outbox) && checkpoints == old(checkpoints)
        invariant gaps == old(gaps) + [(expected, observed)]
        decreases todo
      {
        var k := PickSome(todo);
        if expected <= k < observed {
          receipts := receipts[k := receipts[k].(status := InGap)];
        }
        todo := todo - {k};
      }
      assert receipts == RecordGap(old(Contents()), expected, observed).receipts;
    }

    // INSERT the checkpoint (ON CONFLICT DO NOTHING), UPDATE each receipt, DELETE from the outbox.
    method InsertBatch(material: seq<int>, row: CheckpointRow, proofs: seq<seq<ProofItem>>)
      requires |proofs| == |material| > 0
      requires forall i :: 0 <= i < |material| ==> material[i] == material[0] + i && material[i] in receipts
      modifies this
      ensures Contents() == Commit(old(Contents()), material, row, proofs)
    {
      if !IdTaken(checkpoints, row.id) {
        checkpoints := checkpoints + [row];
      }
      ghost var was := receipts;
      for index := 0 to |material|
        invariant receipts.Keys == was.Keys
        invariant PlacedUpTo(was, receipts, material, row, proofs, index)
        invariant nextSequence == old(nextSequence) && outbox == old(outbox) && gaps == old(gaps)
        invariant checkpoints
                  == if IdTaken(old(checkpoints), row.id) then old(checkpoints) else old(checkpoints) + [row]
      {
        hide PlacedUpTo, IdTaken, Commit;
        var k := material[index];
        PlaceNext(was, receipts, material, row, proofs, index);
        receipts := receipts[k := receipts[k].(status := Batched, checkpointId := Some(row.id),
                                               leafIndex := Some(index),
                                               proof := Some(proofs[index]))];
      }
      outbox := outbox - set k | k in material;
      hide PlacedUpTo, IdTaken;
      AllPlaced(old(Contents()), receipts, material, row, proofs);
    }

    // The worker's transaction over one contiguous range of the outbox.
    method StageCheckpointOnce(maxReceipts: int, maxAge: int, force: bool, now: int, keyId: string)
      returns (result: StageResult)
      modifies this
      ensures (Contents(), result) == Stage(cfg, old(Contents()), maxReceipts, maxAge, force, now, keyId)
    {
      hide StageBatch;
      var limit, queued := Clamp(maxReceipts), Queued(Contents());
      if queued == {} {
        return Empty;
      }
      if !force && |queued| < limit && forall k :: k in queued ==> now - receipts[k].createdAt < maxAge {
        return Waiting;
      }
      result := StageRange(limit, keyId);
    }

    method StageRange(limit: nat, keyId: string) returns (result: StageResult)
      requires Queued(Contents()) != {} && limit > 0
      modifies this
      ensures (Contents(), result) == StageBatch(cfg, old(Contents()), limit, keyId)
    {
      hide BuildCheckpoint, Newest, FirstSequences, Commit, RecordGap, RangeTaken, BatchRows;
      var newest := Newest(checkpoints);
      var material := FirstSequences(Queued(Contents()), limit);
      var expected := if newest.Some? then newest.value.last + 1 else 1;
      if material[0] != expected {
        InsertGap(expected, material[0]);
        return GapFound(expected, material[0]);
      }
      var previous := if newest.Some? then Some(newest.value.hash) else None;
      match BuildCheckpoint(cfg.lib, BatchRows(receipts, material), cfg.instanceId, keyId, previous) {
        case EvidenceGap(e, o) =>
          InsertGap(e, o);
          return GapFound(e, o);
        case Complete(built) =>
          var row := NewRow(material, built, keyId, previous);
          if |built.proofs| != |material| || RangeTaken(checkpoints, row) {
            return StageRaised;
          }
          ContiguousBatch(cfg, receipts, material, keyId, previous);
          InsertBatch(material, row, built.proofs);
          return Staged(row.id, |material|);
        case _ =>
          return StageRaised;
      }
    }

    // One failed attempt on checkpoint i.
    method RecordFailure(i: nat) returns (result: SignResult)
      requires i < |checkpoints|
      modifies this
      ensures (Contents(), result) == Fail(cfg, old(Contents()), i)
    {
      var row := checkpoints[i];
      var terminal := row.attempts + 1 >= cfg.maxAttempts;
      checkpoints := checkpoints[i :=
        row.(status := if terminal then Failed else Signing, attempts := row.attempts + 1)];
      return if terminal then GaveUp(row.id) else Retry(row.id);
    }

    // The signer's transaction: claim the oldest staged checkpoint, submit it, record the outcome.
    method SignCheckpointOnce(expectedKey: string, expectedFingerprint: string, response: Response)
      returns (result: SignResult)
      modifies this
      ensures (Contents(), result) == Sign(cfg, old(Contents()), expectedKey, expectedFingerprint, response)
    {
      hide CheckpointPayload, ValidReply, OldestSigning;
      var oldest := OldestSigning(checkpoints);
      if oldest == None {
        return Idle;
      }
      var i := oldest.value;
      var row := checkpoints[i];
      var payload := CheckpointPayload(row.doc);
      if payload == None {
        return SignRaised;
      }
      if cfg.lib.sha256(payload.value) != row.hash || row.keyId != expectedKey
         || response.NoResponse? || !ValidReply(cfg, response, row, expectedKey, expectedFingerprint) {
        result := RecordFailure(i);
        return;
      }
      var fingerprint := StoredFingerprint(response.fingerprint);
      if fingerprint == None {
        return SignRaised;
      }
      assert response.signature.Some? && response.algorithm.Some? by {
        ReplyComplete(cfg, response, row, expectedKey, expectedFingerprint);
      }
      var seal := Seal(response.signature.value, response.algorithm.value, fingerprint.value);
      checkpoints := checkpoints[i := row.(status := Verified, attempts := row.attempts + 1, seal := Some(seal))];
      receipts := MarkVerified(receipts, row.id);
      return SignedOff(row.id);
    }
  }

  // The receipts after the first `n` of a gapless batch were placed.
  ghost predicate PlacedUpTo(was: map<int, ReceiptRow>, now: map<int, ReceiptRow>, material: seq<int>,
                             row: CheckpointRow, proofs: seq<seq<ProofItem>>, n: nat)
    requires |proofs| == |material| > 0 && n <= |material|
  {
    now.Keys == was.Keys && forall k :: k in was ==>
      now[k] == if material[0] <= k < material[0] + n then PlacedRow(was[k], row, proofs, k - material[0]) else was[k]
  }

  lemma PlaceNext(was: map<int, ReceiptRow>, now: map<int, ReceiptRow>, material: seq<int>, row: CheckpointRow,
                  proofs: seq<seq<ProofItem>>, n: nat)
    requires |proofs| == |material| > 0 && n < |material| && material[n] == material[0] + n && material[n] in was
    requires PlacedUpTo(was, now, material, row, proofs, n)
    ensures material[n] in now
    ensures PlacedUpTo(was, now[material[n] := now[material[n]].(status := Batched, checkpointId := Some(row.id),
                                                                 leafIndex := Some(n), proof := Some(proofs[n]))],
                       material, row, proofs, n + 1)
  {
  }

  lemma AllPlaced(s: State, now: map<int, ReceiptRow>, material: seq<int>, row: CheckpointRow,
                  proofs: seq<seq<ProofItem>>)
    requires |proofs| == |material| > 0 && forall i :: 0 <= i < |material| ==> material[i] == material[0] + i
    requires PlacedUpTo(s.receipts, now, material, row, proofs, |material|)
    ensures now == Commit(s, material, row, proofs).receipts
  {
    hide IdTaken;
    forall k ensures k in material <==> material[0] <= k < material[0] + |material| {
      if material[0] <= k < material[0] + |material| {
        assert material[k - material[0]] == k;
      }
    }
  }

  lemma ContiguousBatch(cfg: Config, receipts: map<int, ReceiptRow>, order: seq<int>, keyId: string,
                        previous: Option<Digest>)
    requires order != [] && forall k :: k in order ==> k in receipts
    requires BuildCheckpoint(cfg.lib, BatchRows(receipts, order), cfg.instanceId, keyId, previous).Complete?
    ensures forall i :: 0 <= i < |order| ==> order[i] == order[0] + i && order[i] in receipts
  {
    hide BuildCheckpoint, BatchRows;
    var rows := BatchRows(receipts, order);
    BuiltRowsFollow(cfg.lib, rows, cfg.instanceId, keyId, previous);
    assert forall i :: 0 <= i < |order| ==> rows[i].sequence == order[i];
  }

  lemma ReplyComplete(cfg: Config, r: Response, row: CheckpointRow, expectedKey: string, expectedFingerprint: string)
    requires r.Reply? && ValidReply(cfg, r, row, expectedKey, expectedFingerprint)
    ensures r.signature.Some? && r.algorithm.Some?
  {
  }

  method PickSome(ks: set<int>) returns (k: int)
    requires ks != {}
    ensures k in ks
  {
    ghost var x := Pick(ks);
    assert x in ks;
    k :| k in ks;
  }
}
