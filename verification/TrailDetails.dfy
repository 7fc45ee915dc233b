/** What single steps of the audit trail store, wait for and mark, with limits and texts written out. */
module TrailDetails {
  import opened Bytes
  import opened Json
  import opened Evidence
  import opened Merkle
  import opened Sidecar
  import opened Checkpoint
  import opened SequenceOrder
  import opened Trail
  import opened TrailSafety
  import opened TrailProofs

  // ----- append -----

  // A member besides the two that are filled in is not representable.
  predicate Unfit(members: Object, n: int) {
    n > 9007199254740991 || exists k :: k in members && k != "schema" && k != "sequence" && !Valid(members[k])
  }

  // The stored body: the given members with the number and the schema of its kind.
  function Body(members: Object, control: bool, n: int): Object {
    members["sequence" := Int(n)]["schema" := Str(
      if control then "dev.nautgate.max-guard-control-receipt/v1" else "dev.nautgate.decision-receipt/v1")]
  }

  // One new row, pending, which waits in the outbox.
  ghost predicate Stored(s: State, t: State, body: Object, createdAt: int) {
    && s.next !in s.receipts && s.next in t.receipts
    && var r := t.receipts[s.next];
      && t == s.(next := s.next + 1, outbox := s.outbox + {s.next}, receipts := s.receipts[s.next := r])
      && r.body == body && r.createdAt == createdAt && r.status == Pending
      && r.checkpointId == None && r.leafIndex == None && r.proof == None
  }

  /** A receipt is refused, and nothing changes, exactly when one of its members is not representable or no
      safe number is left. Otherwise it is stored under the next number with that number, the schema of its
      kind and its own members. */
  lemma AppendStores(cfg: Config, s: State, members: Object, control: bool, createdAt: int)
    requires Inv(cfg, s)
    ensures
      var t := Append(cfg, s, members, control, createdAt);
      if Unfit(members, s.next) then t == s else Stored(s, t, Body(members, control, s.next), createdAt)
  {
    NumberedOf(cfg, s);
    BodyIs(members, control, s.next);
    BodyValid(members, control, s.next);
    hide Inv, Unfit, ReceiptBody, Body;
    HashedIff(cfg.lib.sha256, ReceiptBody(members, control, s.next));
    hide ReceiptHash;
  }

  lemma HashedIff(h: HashFunction, body: Object)
    requires IsReceiptSchema(Get(body, "schema"))
    ensures ReceiptHash(h, body).Some? <==> Valid(Obj(body))
  {
    hide CanonicalJson;
  }

  lemma BodyIs(members: Object, control: bool, n: int)
    ensures ReceiptBody(members, control, n) == Body(members, control, n)
  {
    assert "schema"[1] != "sequence"[1];
  }

  lemma NumberedOf(cfg: Config, s: State)
    requires Inv(cfg, s)
    ensures 1 <= s.next && s.next !in s.receipts
  {
    hide AllAnchored, Authentic, ListOk, OutboxWaits;
  }

  lemma BodyValid(members: Object, control: bool, n: int)
    requires 1 <= n
    ensures Valid(Obj(ReceiptBody(members, control, n))) <==> !Unfit(members, n)
    ensures IsReceiptSchema(Get(ReceiptBody(members, control, n), "schema"))
  {
    var body := ReceiptBody(members, control, n);
    assert "schema"[1] != "sequence"[1];
    if Unfit(members, n) {
      if n > 9007199254740991 {
        assert !Valid(body["sequence"]);
      } else {
        var k :| k in members && k != "schema" && k != "sequence" && !Valid(members[k]);
        assert body[k] == members[k];
      }
    } else {
      forall k | k in body ensures Valid(body[k]) {
        if k != "schema" && k != "sequence" {
          assert body[k] == members[k];
        }
      }
    }
  }

  // ----- stage -----

  function Limit(maxReceipts: int): int {
    if maxReceipts < 1 then 1 else if maxReceipts > 10000 then 10000 else maxReceipts
  }

  /** A staging that is not forced waits exactly while the outbox is not empty, holds fewer receipts than
      the limit, and none of them is as old as the maximum. */
  lemma WaitsIff(cfg: Config, s: State, maxReceipts: int, maxAge: int, force: bool, now: int, keyId: string)
    requires Inv(cfg, s)
    ensures
      var (t, result) := Stage(cfg, s, maxReceipts, maxAge, force, now, keyId);
      && (forall k :: k in s.outbox ==> k in s.receipts)
      && (result == Empty <==> s.outbox == {})
      && (result == Waiting <==>
          && s.outbox != {} && !force && |s.outbox| < Limit(maxReceipts)
          && forall k :: k in s.outbox ==> now - s.receipts[k].createdAt < maxAge)
      && (result == Empty || result == Waiting ==> t == s)
  {
    OutboxIsQueued(cfg, s);
    hide Inv, StageBatch;
    if Queued(s) != {} {
      StageBatchActs(cfg, s, Clamp(maxReceipts), keyId);
    }
  }

  lemma OutboxIsQueued(cfg: Config, s: State)
    requires Inv(cfg, s)
    ensures Queued(s) == s.outbox && forall k :: k in s.outbox ==> k in s.receipts
  {
    assert OutboxWaits(s);
    hide Inv;
    assert forall k :: k in Queued(s) <==> k in s.outbox;
  }

  lemma StageBatchActs(cfg: Config, s: State, limit: nat, keyId: string)
    requires Queued(s) != {} && limit > 0
    ensures !StageBatch(cfg, s, limit, keyId).1.Empty? && !StageBatch(cfg, s, limit, keyId).1.Waiting?
    ensures StageBatch(cfg, s, limit, keyId).0.next == s.next
  {
    hide Newest, BuildNext, RangeTaken, IdTaken, Queued;
  }

  /** A staged checkpoint takes as many of the waiting receipts as the limit allows, the lowest first. */
  lemma StagedTakes(cfg: Config, s: State, limit: nat, keyId: string) returns (c: CheckpointRow)
    requires Inv(cfg, s) && s.outbox != {} && 0 < limit <= 10000 && !NewestFailed(s.checkpoints)
    ensures Queued(s) != {} && StageBatch(cfg, s, limit, keyId).1 == Staged(c.id, c.last + 1 - c.first)
    ensures c.first == Covered(s.checkpoints) + 1
    ensures c.last + 1 - c.first == if |s.outbox| < limit then |s.outbox| else limit
    ensures !IdTaken(s.checkpoints, c.id) ==> StageBatch(cfg, s, limit, keyId).0.checkpoints == s.checkpoints + [c]
    ensures !IdTaken(s.checkpoints, c.id) ==>
      StageBatch(cfg, s, limit, keyId).0.outbox == set k | k in s.outbox && k > c.last
  {
    OutboxIsQueued(cfg, s);
    hide Inv, StageBatch, Queued, Covered, Built;
    c := StagesNext(cfg, s, limit, keyId);
    BatchSize(cfg, s, limit, keyId, c);
    hide Inv, StageBatch, Queued, Covered;
    if !IdTaken(s.checkpoints, c.id) {
      StageBatchActs(cfg, s, limit, keyId);
      StagedLeaves(cfg, s, StageBatch(cfg, s, limit, keyId).0, c);
    }
  }

  lemma BatchSize(cfg: Config, s: State, limit: nat, keyId: string, c: CheckpointRow)
    requires Queued(s) != {} && limit > 0
    requires StageBatch(cfg, s, limit, keyId).1 == Staged(c.id, c.last + 1 - c.first)
    ensures c.last + 1 - c.first == if |Queued(s)| < limit then |Queued(s)| else limit
  {
    hide Newest, BuildNext, RangeTaken, IdTaken, Commit, RecordGap, Queued;
  }

  lemma StagedLeaves(cfg: Config, s: State, t: State, c: CheckpointRow)
    requires Inv(cfg, s) && Inv(cfg, t) && t.checkpoints == s.checkpoints + [c] && t.next == s.next
    requires c.first == Covered(s.checkpoints) + 1 <= c.last
    ensures t.outbox == set k | k in s.outbox && k > c.last
  {
    hide AllAnchored, Authentic, ListOk, OutboxWaits;
    assert Covered(t.checkpoints) == c.last;
    assert forall k :: k in t.outbox <==> k in s.outbox && k > c.last;
  }

  // ----- gaps -----

  // The highest number of a checkpoint that has not failed.
  ghost predicate IsLastUnfailed(cps: seq<CheckpointRow>, n: int) {
    && (forall i :: 0 <= i < |cps| && cps[i].status != Failed ==> cps[i].last <= n)
    && (n == 0 || exists i :: 0 <= i < |cps| && cps[i].status != Failed && cps[i].last == n)
  }

  // The numbers above n up to `covered` are one more gap, and exactly their receipts are marked.
  ghost predicate MarksGap(s: State, t: State, n: int, covered: int) {
    && n < covered && t == s.(gaps := s.gaps + [(n + 1, covered + 1)], receipts := t.receipts)
    && t.receipts.Keys == s.receipts.Keys
    && forall k :: k in s.receipts ==>
         t.receipts[k] == if n < k <= covered then s.receipts[k].(status := InGap) else s.receipts[k]
  }

  lemma RecordGapMarks(s: State, n: int, covered: int)
    requires n < covered
    ensures MarksGap(s, RecordGap(s, n + 1, covered + 1), n, covered)
  {
  }

  /** Over a failed newest checkpoint a staging records the failed numbers as one gap and marks exactly their
      receipts. */
  lemma GapMarks(cfg: Config, s: State, limit: nat, keyId: string, n: int)
    requires Inv(cfg, s) && Queued(s) != {} && 0 < limit <= 10000 && NewestFailed(s.checkpoints)
    requires n >= 0 && IsLastUnfailed(s.checkpoints, n)
    ensures MarksGap(s, StageBatch(cfg, s, limit, keyId).0, n, s.checkpoints[|s.checkpoints| - 1].last)
  {
    hide Inv, StageBatch, Expected, Queued, IsLastUnfailed, MarksGap, RecordGap;
    FailedNewestBlocks(cfg, s, limit, keyId);
    ExpectedIs(cfg, s, n);
    RecordGapMarks(s, n, s.checkpoints[|s.checkpoints| - 1].last);
  }

  lemma ExpectedIs(cfg: Config, s: State, n: int)
    requires Inv(cfg, s) && n >= 0 && IsLastUnfailed(s.checkpoints, n)
    ensures Expected(s.checkpoints) == n + 1
  {
    ListOfInv(cfg, s);
    hide Inv, Numbered;
    forall i | 0 <= i < |s.checkpoints| ensures 1 <= s.checkpoints[i].last {
      TileBounds(s.checkpoints, i);
    }
    hide ListOk;
    NewestEnds(s.checkpoints, n);
  }

  lemma NewestEnds(cps: seq<CheckpointRow>, n: int)
    requires n >= 0 && IsLastUnfailed(cps, n) && forall i :: 0 <= i < |cps| ==> 1 <= cps[i].last
    ensures Expected(cps) == n + 1
  {
    hide Newest;
    var newest := Newest(cps);
    if newest.Some? {
      var i :| 0 <= i < |cps| && cps[i] == newest.value;
    }
    assert forall i :: 0 <= i < |cps| ==> cps[i] in cps;
  }

  // ----- the document -----

  /** What a checkpoint's document says: its format, its instance, and when its first and last receipts were
      made. */
  lemma DocumentSays(cfg: Config, s: State, i: nat) returns (a: int, b: int)
    requires Inv(cfg, s) && i < |s.checkpoints|
    ensures
      var c := s.checkpoints[i];
      && InRange(s.receipts, c) && c.first <= a <= c.last && c.first <= b <= c.last
      && (forall k :: c.first <= k <= c.last ==>
            s.receipts[a].createdAt <= s.receipts[k].createdAt <= s.receipts[b].createdAt)
      && Get(c.doc, "opened_at") == Some(Str(cfg.lib.iso(s.receipts[a].createdAt)))
      && Get(c.doc, "closed_at") == Some(Str(cfg.lib.iso(s.receipts[b].createdAt)))
      && Get(c.doc, "instance_id") == Some(Str(cfg.instanceId))
      && Get(c.doc, "checkpoint_id") == Some(Str(c.id))
      && Get(c.doc, "schema") == Some(Str("dev.nautgate.audit-checkpoint/v1"))
      && Get(c.doc, "merkle_algorithm") == Some(Str("sha256-binary-v1"))
      && c.doc.Keys == FIELDS
  {
    hide Inv, Document, Built, Placed, Hex, RowsOfCheckpoint, CheckpointPayload, Root, RowsName;
    var c := s.checkpoints[i];
    CheckpointGets(cfg, s, i);
    IdIs(cfg, s, i);
    var rows := RowsOfCheckpoint(s.receipts, c);
    SaysRest(cfg, rows, c.keyId, c.previous);
    a := RowOf(s.receipts, c, Earliest(rows));
    b := RowOf(s.receipts, c, Latest(rows));
    hide Earliest, Latest;
    forall k | c.first <= k <= c.last
      ensures s.receipts[a].createdAt <= s.receipts[k].createdAt <= s.receipts[b].createdAt
    {
      RowTime(s.receipts, c, k);
    }
  }

  lemma IdIs(cfg: Config, s: State, i: nat)
    requires Inv(cfg, s) && i < |s.checkpoints|
    ensures InRange(s.receipts, s.checkpoints[i])
    ensures
      var c := s.checkpoints[i];
      c.id == cfg.lib.uuid5(RowsName(cfg.lib, RowsOfCheckpoint(s.receipts, c), cfg.instanceId, c.keyId, c.previous))
  {
    AnchoredAt(cfg, s, i);
    hide Inv, RowsName, RowsOfCheckpoint, BuildCheckpoint, Placed;
  }

  lemma SaysRest(cfg: Config, rows: seq<BatchRow>, keyId: string, previous: Option<Digest>)
    requires rows != []
    ensures
      var doc := Document(cfg.lib, rows, cfg.instanceId, keyId, previous);
      && Get(doc, "opened_at") == Some(Str(cfg.lib.iso(Earliest(rows))))
      && Get(doc, "closed_at") == Some(Str(cfg.lib.iso(Latest(rows))))
      && Get(doc, "instance_id") == Some(Str(cfg.instanceId))
      && Get(doc, "checkpoint_id") == Some(Str(cfg.lib.uuid5(RowsName(cfg.lib, rows, cfg.instanceId, keyId, previous))))
      && Get(doc, "schema") == Some(Str("dev.nautgate.audit-checkpoint/v1"))
      && Get(doc, "merkle_algorithm") == Some(Str("sha256-binary-v1"))
      && doc.Keys == FIELDS
  {
    hide Root, Hex, RowsName, Earliest, Latest, Digests;
  }

  // The number of a receipt of the checkpoint made at time t.
  lemma RowOf(receipts: map<int, ReceiptRow>, c: CheckpointRow, t: int) returns (k: int)
    requires InRange(receipts, c)
    requires exists r :: r in RowsOfCheckpoint(receipts, c) && t == r.createdAt
    ensures c.first <= k <= c.last && receipts[k].createdAt == t
  {
    var rows := RowsOfCheckpoint(receipts, c);
    var r :| r in rows && t == r.createdAt;
    var j :| 0 <= j < |rows| && rows[j] == r;
    k := c.first + j;
  }

  lemma RowTime(receipts: map<int, ReceiptRow>, c: CheckpointRow, k: int)
    requires InRange(receipts, c) && c.first <= k <= c.last
    ensures Earliest(RowsOfCheckpoint(receipts, c)) <= receipts[k].createdAt <= Latest(RowsOfCheckpoint(receipts, c))
  {
    var rows := RowsOfCheckpoint(receipts, c);
    assert rows[k - c.first].createdAt == receipts[k].createdAt && rows[k - c.first] in rows;
    hide Earliest, Latest;
  }

  // ":".join(parts)
  function Colons(parts: seq<string>): string {
    if parts == [] then ""
    else if |parts| == 1 then parts[0]
    else Colons(parts[..|parts| - 1]) + ":" + parts[|parts| - 1]
  }

  lemma ColonsOfMore(parts: seq<string>, last: string)
    requires parts != []
    ensures Colons(parts + [last]) == Colons(parts) + ":" + last
  {
    assert (parts + [last])[..|parts|] == parts;
  }

  /** A checkpoint's id is made from its instance, range, root, predecessor and key, in this order; the first
      one's predecessor is "genesis". */
  lemma NameIs(cfg: Config, rows: seq<BatchRow>, keyId: string, previous: Option<Digest>)
    requires rows != []
    ensures RowsName(cfg.lib, rows, cfg.instanceId, keyId, previous) == Colons([
      cfg.instanceId, IntText(rows[0].sequence), IntText(rows[|rows| - 1].sequence),
      Hex(Root(cfg.lib.sha256, Digests(rows))), if previous.Some? then Hex(previous.value) else "genesis", keyId])
  {
    var a, b, c := cfg.instanceId, IntText(rows[0].sequence), IntText(rows[|rows| - 1].sequence);
    var d, e := Hex(Root(cfg.lib.sha256, Digests(rows))), if previous.Some? then Hex(previous.value) else "genesis";
    assert Colons([a]) == a;
    hide Root, Hex, Digests, IntText;
    ColonsOfMore([a], b);
    ColonsOfMore([a, b], c);
    ColonsOfMore([a, b, c], d);
    ColonsOfMore([a, b, c, d], e);
    ColonsOfMore([a, b, c, d, e], keyId);
    hide Colons;
    assert [a] + [b] == [a, b] && [a, b] + [c] == [a, b, c] && [a, b, c] + [d] == [a, b, c, d];
    assert [a, b, c, d] + [e] == [a, b, c, d, e] && [a, b, c, d, e] + [keyId] == [a, b, c, d, e, keyId];
  }

  /** Rows that are not consecutive build nothing but a report of the first number that is missing and the one
      found in its place. */
  lemma BuildReportsGap(lib: Library, rows: seq<BatchRow>, instanceId: string, keyId: string,
                        previous: Option<Digest>, i: nat)
    requires i < |rows| && rows[i].sequence != rows[0].sequence + i
    requires forall j :: 0 <= j < i ==> rows[j].sequence == rows[0].sequence + j
    ensures BuildCheckpoint(lib, rows, instanceId, keyId, previous)
      == EvidenceGap(rows[i - 1].sequence + 1, rows[i].sequence)
  {
    hide FirstMismatch, Document, CheckpointPayload, RowsName;
    var found := FirstMismatch(rows, 0);
    assert rows[i - 1].sequence == rows[0].sequence + (i - 1);
  }

  predicate HasRange(c: CheckpointRow, first: int, last: int) {
    c.first == first && c.last == last
  }

  /** A batch that could be staged is refused exactly when another checkpoint already has its range. */
  lemma TakenRangeRaises(cfg: Config, s: State, limit: nat, keyId: string, built: Batch)
    requires Queued(s) != {} && limit > 0 && BuildNext(cfg, s, limit, keyId) == Complete(built)
    requires FirstSequences(Queued(s), limit)[0] == Expected(s.checkpoints)
    requires |built.proofs| == |FirstSequences(Queued(s), limit)|
    ensures
      var order := FirstSequences(Queued(s), limit);
      var taken := exists c :: c in s.checkpoints && c.id != built.id && HasRange(c, order[0], order[|order| - 1]);
      var (t, result) := StageBatch(cfg, s, limit, keyId);
      if taken then result == StageRaised && t == s else result == Staged(built.id, |order|)
  {
    hide Newest, BuildNext, IdTaken, Queued, Commit, RecordGap, FirstSequences;
    var order := FirstSequences(Queued(s), limit);
    forall c | c in s.checkpoints && c.id != built.id && HasRange(c, order[0], order[|order| - 1])
      ensures exists i :: 0 <= i < |s.checkpoints| && s.checkpoints[i] == c
    {
    }
  }
}
