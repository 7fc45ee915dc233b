/** What every reachable state of the audit trail keeps, and how signing progresses. */
module TrailSafety {
  import opened Bytes
  import opened Json
  import opened Merkle
  import opened Evidence
  import opened Checkpoint
  import opened SequenceOrder
  import opened Trail

  // ----- the invariant, one aspect at a time -----

  // The last sequence number any checkpoint covers.
  function Covered(cps: seq<CheckpointRow>): int {
    if cps == [] then 0 else cps[|cps| - 1].last
  }

  // The checkpoints, failed ones included, tile 1..Covered without hole or overlap.
  ghost predicate Tiled(cps: seq<CheckpointRow>) {
    && (cps != [] ==> cps[0].first == 1)
    && (forall i, j :: 0 <= i && j == i + 1 && j < |cps| ==> cps[j].first == cps[i].last + 1)
    && (forall i :: 0 <= i < |cps| ==> cps[i].first <= cps[i].last)
  }

  // The receipts are numbered 1..next-1, and the outbox holds exactly those above Covered.
  ghost predicate Numbered(s: State) {
    && 0 <= Covered(s.checkpoints) < s.next
    && (forall k :: k in s.receipts <==> 1 <= k < s.next)
    && (forall k :: k in s.outbox <==> Covered(s.checkpoints) < k < s.next)
  }

  // Each checkpoint names the hash of its immediate predecessor.
  ghost predicate Chained(cps: seq<CheckpointRow>) {
    && (cps != [] ==> cps[0].previous == None)
    && (forall i, j :: 0 <= i && j == i + 1 && j < |cps| ==> cps[j].previous == Some(cps[i].hash))
  }

  // Every stored receipt hashes to its digest and carries its own number.
  ghost predicate Authentic(cfg: Config, receipts: map<int, ReceiptRow>) {
    forall k :: k in receipts ==>
      && ReceiptHash(cfg.lib.sha256, receipts[k].body) == Some(receipts[k].digest)
      && Get(receipts[k].body, "sequence") == Some(Int(k))
      && IsReceiptSchema(Get(receipts[k].body, "schema"))
  }

  ghost predicate InRange(receipts: map<int, ReceiptRow>, c: CheckpointRow) {
    c.first <= c.last && forall k :: c.first <= k <= c.last ==> k in receipts
  }

  function RowsOfCheckpoint(receipts: map<int, ReceiptRow>, c: CheckpointRow): (rows: seq<BatchRow>)
    requires InRange(receipts, c)
    ensures |rows| == c.last + 1 - c.first
  {
    BatchRows(receipts, Upto(c.first, c.last))
  }

  // A checkpoint row is exactly what build_checkpoint makes from the receipts it covers.
  ghost predicate Built(cfg: Config, receipts: map<int, ReceiptRow>, c: CheckpointRow) {
    && InRange(receipts, c)
    && var rows := RowsOfCheckpoint(receipts, c);
      var r := BuildCheckpoint(cfg.lib, rows, cfg.instanceId, c.keyId, c.previous);
      && r.Complete? && r.built.doc == c.doc && r.built.hash == c.hash
      && c.id == cfg.lib.uuid5(RowsName(cfg.lib, rows, cfg.instanceId, c.keyId, c.previous))
  }

  ghost predicate StatusMatches(c: CheckpointStatus, r: ReceiptStatus) {
    match c
    case Signing => r == Batched
    case Verified => r == InVerified
    case Failed => r == Batched || r == InGap
  }

  // The receipts a checkpoint covers point back to it, with their own leaf index and proof.
  ghost predicate Placed(cfg: Config, receipts: map<int, ReceiptRow>, c: CheckpointRow) {
    && InRange(receipts, c)
    && var ds := Digests(RowsOfCheckpoint(receipts, c));
      forall k :: c.first <= k <= c.last ==>
        && receipts[k].checkpointId == Some(c.id)
        && receipts[k].leafIndex == Some(k - c.first)
        && receipts[k].proof == Some(Proof(cfg.lib.sha256, ds, k - c.first))
        && StatusMatches(c.status, receipts[k].status)
  }

  ghost predicate Waits(r: ReceiptRow) {
    r.status == Pending && r.checkpointId == None
  }

  ghost predicate UniqueIds(cps: seq<CheckpointRow>) {
    forall i, j :: 0 <= i < j < |cps| ==> cps[i].id != cps[j].id
  }

  // Verified and failed checkpoints come before every one still being signed.
  ghost predicate ResolvedFirst(cps: seq<CheckpointRow>) {
    forall i, j :: 0 <= i < j < |cps| && cps[i].status == Signing ==> cps[j].status == Signing
  }

  // The number of attempts after which a checkpoint is resolved at the latest.
  function Cap(cfg: Config): int {
    if cfg.maxAttempts < 1 then 1 else cfg.maxAttempts
  }

  // Attempts stay below the limit, and exactly the verified checkpoints hold a signature.
  ghost predicate SigningOk(cfg: Config, c: CheckpointRow) {
    && (if c.status == Signing then 0 <= c.attempts < Cap(cfg) else 1 <= c.attempts <= Cap(cfg))
    && (c.status == Verified <==> c.seal.Some?)
    && (c.seal.Some? ==> c.seal.value.algorithm == SIGNATURE_ALGORITHM)
  }

  // The list of checkpoints on its own.
  ghost predicate ListOk(cfg: Config, cps: seq<CheckpointRow>) {
    && Tiled(cps) && Chained(cps) && UniqueIds(cps) && ResolvedFirst(cps)
    && forall i :: 0 <= i < |cps| ==> SigningOk(cfg, cps[i])
  }

  ghost predicate Anchored(cfg: Config, receipts: map<int, ReceiptRow>, c: CheckpointRow) {
    Built(cfg, receipts, c) && Placed(cfg, receipts, c)
  }

  ghost predicate AllAnchored(cfg: Config, s: State) {
    forall i :: 0 <= i < |s.checkpoints| ==> Anchored(cfg, s.receipts, s.checkpoints[i])
  }

  ghost predicate OutboxWaits(s: State) {
    forall k :: k in s.outbox ==> k in s.receipts && Waits(s.receipts[k])
  }

  ghost predicate Inv(cfg: Config, s: State) {
    ListOk(cfg, s.checkpoints) && Numbered(s) && Authentic(cfg, s.receipts) && AllAnchored(cfg, s) && OutboxWaits(s)
  }

  // ----- tiling -----

  lemma {:induction false} TilesAscend(cps: seq<CheckpointRow>, i: nat, j: nat)
    requires Tiled(cps) && i < j < |cps|
    ensures cps[i].last < cps[j].first
    decreases j
  {
    if i < j - 1 {
      TilesAscend(cps, i, j - 1);
    }
  }

  lemma TileBounds(cps: seq<CheckpointRow>, i: nat)
    requires Tiled(cps) && i < |cps|
    ensures 1 <= cps[i].first <= cps[i].last <= Covered(cps)
  {
    assert cps[0].first == 1;
    if i > 0 {
      TilesAscend(cps, 0, i);
    }
    if i < |cps| - 1 {
      TilesAscend(cps, i, |cps| - 1);
    }
  }

  // Every covered number lies in exactly one checkpoint.
  lemma {:induction false} TileOf(cps: seq<CheckpointRow>, k: int) returns (i: nat)
    requires Tiled(cps) && 1 <= k <= Covered(cps)
    ensures i < |cps| && cps[i].first <= k <= cps[i].last
    ensures forall j :: 0 <= j < |cps| && cps[j].first <= k <= cps[j].last ==> j == i
    decreases |cps|
  {
    i := |cps| - 1;
    while k < cps[i].first
      invariant 0 <= i < |cps| && k <= cps[i].last
    {
      assert cps[0].first == 1;
      assert cps[i - 1].last + 1 == cps[i].first;
      i := i - 1;
    }
    forall j | 0 <= j < |cps| && cps[j].first <= k <= cps[j].last ensures j == i {
      if j < i {
        TilesAscend(cps, j, i);
      } else if i < j {
        TilesAscend(cps, i, j);
      }
    }
  }

  // ----- changes that leave a checkpoint's own facts alone -----

  lemma AnchoredFacts(cfg: Config, receipts: map<int, ReceiptRow>, c: CheckpointRow, k: int)
    requires Anchored(cfg, receipts, c) && c.first <= k <= c.last
    ensures k in receipts && receipts[k].checkpointId == Some(c.id) && StatusMatches(c.status, receipts[k].status)
  {
    hide Built;
  }

  lemma SameRows(a: map<int, ReceiptRow>, b: map<int, ReceiptRow>, c: CheckpointRow, d: CheckpointRow)
    requires InRange(a, c) && d.first == c.first && d.last == c.last
    requires forall k :: c.first <= k <= c.last ==> k in b && RowFor(a, k) == RowFor(b, k)
    ensures InRange(b, d) && RowsOfCheckpoint(a, c) == RowsOfCheckpoint(b, d)
  {
  }

  lemma SameRow(a: map<int, ReceiptRow>, b: map<int, ReceiptRow>, k: int)
    requires k in a && k in b && b[k] == a[k].(status := b[k].status)
    ensures RowFor(a, k) == RowFor(b, k)
  {
  }

  // One checkpoint's rows before and after: only statuses, attempts and the seal may differ.
  ghost predicate SameButStatus(c: CheckpointRow, d: CheckpointRow) {
    d == c.(status := d.status, attempts := d.attempts, seal := d.seal)
  }

  lemma AnchoredKept(cfg: Config, a: map<int, ReceiptRow>, b: map<int, ReceiptRow>, c: CheckpointRow, d: CheckpointRow)
    requires Anchored(cfg, a, c) && SameButStatus(c, d)
    requires forall k :: c.first <= k <= c.last ==>
      k in a && k in b && b[k] == a[k].(status := b[k].status) && StatusMatches(d.status, b[k].status)
    ensures Anchored(cfg, b, d)
  {
    hide BuildCheckpoint, RowsName, Root, Proof, Digests, RowsOfCheckpoint, RowFor;
    forall k | c.first <= k <= c.last ensures RowFor(a, k) == RowFor(b, k) {
      SameRow(a, b, k);
    }
    SameRows(a, b, c, d);
  }

  // ----- append -----

  lemma BodyFields(members: Object, control: bool, n: int)
    ensures var body := ReceiptBody(members, control, n);
      Get(body, "sequence") == Some(Int(n)) && IsReceiptSchema(Get(body, "schema"))
  {
    assert |"schema"| != |"sequence"|;
  }

  // A covered receipt is not in the outbox.
  lemma CoveredReceipt(cfg: Config, s: State, i: nat, k: int)
    requires Inv(cfg, s) && i < |s.checkpoints| && s.checkpoints[i].first <= k <= s.checkpoints[i].last
    ensures k in s.receipts && k !in s.outbox && k < s.next
    ensures s.receipts[k].checkpointId == Some(s.checkpoints[i].id)
    ensures StatusMatches(s.checkpoints[i].status, s.receipts[k].status)
  {
    hide Anchored;
    TileBounds(s.checkpoints, i);
    AnchoredFacts(cfg, s.receipts, s.checkpoints[i], k);
  }

  lemma AppendKeeps(cfg: Config, s: State, members: Object, control: bool, createdAt: int)
    requires Inv(cfg, s)
    ensures Inv(cfg, Append(cfg, s, members, control, createdAt))
  {
    hide Anchored, ReceiptBody, ReceiptHash, IsReceiptSchema, ListOk;
    var t := Append(cfg, s, members, control, createdAt);
    if t != s {
      BodyFields(members, control, s.next);
      forall i | 0 <= i < |s.checkpoints| ensures Anchored(cfg, t.receipts, t.checkpoints[i]) {
        var c := s.checkpoints[i];
        forall k | c.first <= k <= c.last ensures k in s.receipts && t.receipts[k] == s.receipts[k]
          && StatusMatches(c.status, s.receipts[k].status)
        {
          CoveredReceipt(cfg, s, i, k);
        }
        AnchoredKept(cfg, s.receipts, t.receipts, c, c);
      }
    }
  }

  // ----- sign -----

  lemma OldestIsFirst(cfg: Config, cps: seq<CheckpointRow>)
    requires ListOk(cfg, cps) && OldestSigning(cps).Some?
    ensures var i := OldestSigning(cps).value;
      forall j :: 0 <= j < |cps| ==> (cps[j].status == Signing <==> i <= j)
  {
    var i := OldestSigning(cps).value;
    forall j | 0 <= j < i ensures cps[j].status != Signing {
      TilesAscend(cps, j, i);
      hide OldestSigning;
    }
    hide OldestSigning;
  }

  // Failing or finalising touches only the first unresolved checkpoint.
  lemma ListKept(cfg: Config, cps: seq<CheckpointRow>, i: nat, d: CheckpointRow)
    requires ListOk(cfg, cps) && OldestSigning(cps) == Some(i)
    requires SameButStatus(cps[i], d) && SigningOk(cfg, d)
    ensures ListOk(cfg, cps[i := d]) && Covered(cps[i := d]) == Covered(cps)
  {
    OldestIsFirst(cfg, cps);
    hide OldestSigning;
  }

  lemma FailKeeps(cfg: Config, s: State, i: nat)
    requires Inv(cfg, s) && OldestSigning(s.checkpoints) == Some(i)
    ensures Inv(cfg, Fail(cfg, s, i).0)
  {
    hide Anchored, Authentic, OldestSigning;
    var t := Fail(cfg, s, i).0;
    var c, d := s.checkpoints[i], t.checkpoints[i];
    assert SigningOk(cfg, c);
    assert c.status == Signing by { OldestIsFirst(cfg, s.checkpoints); }
    ListKept(cfg, s.checkpoints, i, d);
    hide ListOk;
    forall k | c.first <= k <= c.last ensures k in s.receipts && StatusMatches(d.status, s.receipts[k].status) {
      CoveredReceipt(cfg, s, i, k);
    }
    AnchoredKept(cfg, s.receipts, t.receipts, c, d);
  }

  // Marking by checkpoint id reaches exactly the receipts that checkpoint covers.
  lemma MarkedExactly(cfg: Config, s: State, i: nat, k: int)
    requires Inv(cfg, s) && i < |s.checkpoints| && k in s.receipts
    ensures s.receipts[k].checkpointId == Some(s.checkpoints[i].id) <==>
      s.checkpoints[i].first <= k <= s.checkpoints[i].last
  {
    hide Anchored, Authentic;
    var cps := s.checkpoints;
    if cps[i].first <= k <= cps[i].last {
      CoveredReceipt(cfg, s, i, k);
    } else if k <= Covered(cps) {
      var j := TileOf(cps, k);
      CoveredReceipt(cfg, s, j, k);
    }
  }

  lemma FinalizeKeeps(cfg: Config, s: State, i: nat, seal: Seal)
    requires Inv(cfg, s) && OldestSigning(s.checkpoints) == Some(i)
    requires seal.algorithm == SIGNATURE_ALGORITHM
    ensures Inv(cfg, Finalize(s, i, seal))
  {
    hide Anchored, Authentic, OldestSigning;
    var t := Finalize(s, i, seal);
    var c, d := s.checkpoints[i], t.checkpoints[i];
    assert SigningOk(cfg, c);
    assert c.status == Signing by { OldestIsFirst(cfg, s.checkpoints); }
    ListKept(cfg, s.checkpoints, i, d);
    hide ListOk, Numbered;
    forall k | k in s.receipts ensures t.receipts[k] ==
      if c.first <= k <= c.last then s.receipts[k].(status := InVerified) else s.receipts[k]
    {
      MarkedExactly(cfg, s, i, k);
    }
    AuthenticKept(cfg, s.receipts, t.receipts);
    forall j | 0 <= j < |t.checkpoints| ensures Anchored(cfg, t.receipts, t.checkpoints[j]) {
      FinalizeKeepsOne(cfg, s, t, i, j);
    }
    forall k | k in t.outbox ensures k in t.receipts && Waits(t.receipts[k]) {
      if c.first <= k <= c.last {
        CoveredReceipt(cfg, s, i, k);
      }
    }
    assert Numbered(t) by { NumberedKept(s, t); }
  }

  lemma NumberedKept(s: State, t: State)
    requires Numbered(s) && t.next == s.next && t.receipts.Keys == s.receipts.Keys && t.outbox == s.outbox
    requires Covered(t.checkpoints) == Covered(s.checkpoints)
    ensures Numbered(t)
  {
    assert forall k :: k in t.receipts <==> k in t.receipts.Keys;
  }

  lemma AuthenticKept(cfg: Config, a: map<int, ReceiptRow>, b: map<int, ReceiptRow>)
    requires Authentic(cfg, a) && b.Keys == a.Keys
    requires forall k :: k in a ==> b[k].body == a[k].body && b[k].digest == a[k].digest
    ensures Authentic(cfg, b)
  {
    hide ReceiptHash, IsReceiptSchema;
  }

  lemma FinalizeKeepsOne(cfg: Config, s: State, t: State, i: nat, j: nat)
    requires Inv(cfg, s) && i < |s.checkpoints| && j < |s.checkpoints| == |t.checkpoints|
    requires SameButStatus(s.checkpoints[i], t.checkpoints[i]) && t.checkpoints[i].status == Verified
    requires j != i ==> t.checkpoints[j] == s.checkpoints[j]
    requires t.receipts.Keys == s.receipts.Keys
    requires var c := s.checkpoints[i]; forall k :: k in s.receipts ==>
      (t.receipts[k] == if c.first <= k <= c.last then s.receipts[k].(status := InVerified) else s.receipts[k])
    ensures Anchored(cfg, t.receipts, t.checkpoints[j])
  {
    hide Anchored, Authentic, ListOk;
    var c, d := s.checkpoints[j], t.checkpoints[j];
    forall k | c.first <= k <= c.last ensures k in s.receipts && k in t.receipts
      && t.receipts[k] == s.receipts[k].(status := t.receipts[k].status)
      && StatusMatches(d.status, t.receipts[k].status)
    {
      CoveredReceipt(cfg, s, j, k);
      if j != i && s.checkpoints[i].first <= k <= s.checkpoints[i].last {
        CoveredReceipt(cfg, s, i, k);
        DistinctIds(cfg, s.checkpoints, i, j);
      }
    }
    AnchoredKept(cfg, s.receipts, t.receipts, c, d);
  }

  lemma DistinctIds(cfg: Config, cps: seq<CheckpointRow>, i: nat, j: nat)
    requires ListOk(cfg, cps) && i < |cps| && j < |cps| && i != j
    ensures cps[i].id != cps[j].id
  {
  }

  lemma SignKeeps(cfg: Config, s: State, expectedKey: string, expectedFingerprint: string, response: Response)
    requires Inv(cfg, s)
    ensures Inv(cfg, Sign(cfg, s, expectedKey, expectedFingerprint, response).0)
  {
    hide Inv, Fail, Finalize;
    match OldestSigning(s.checkpoints) {
      case None =>
      case Some(i) =>
        FailKeeps(cfg, s, i);
        if response.Reply? && ValidReply(cfg, response, s.checkpoints[i], expectedKey, expectedFingerprint) {
          match StoredFingerprint(response.fingerprint) {
            case None =>
            case Some(fingerprint) =>
              FinalizeKeeps(cfg, s, i, Seal(response.signature.value, response.algorithm.value, fingerprint));
          }
        }
    }
  }

  // ----- stage -----

  // The batch the worker looks at: the lowest queued numbers, which start right above Covered.
  lemma BatchIsNext(cfg: Config, s: State, limit: nat)
    requires Inv(cfg, s) && Queued(s) != {} && limit > 0
    ensures var hi := if Covered(s.checkpoints) + limit < s.next then Covered(s.checkpoints) + limit else s.next - 1;
      Covered(s.checkpoints) < hi && FirstSequences(Queued(s), limit) == Upto(Covered(s.checkpoints) + 1, hi)
  {
    hide Anchored, ListOk, Authentic;
    var k := Pick(Queued(s));
    FirstOfInterval(Queued(s), limit, Covered(s.checkpoints) + 1, s.next - 1);
  }

  // The newest checkpoint that is not failed is the last one, unless the last one is failed.
  lemma NewestOfList(cfg: Config, cps: seq<CheckpointRow>)
    requires ListOk(cfg, cps) && cps != []
    ensures cps[|cps| - 1].status != Failed ==> Newest(cps) == Some(cps[|cps| - 1])
    ensures cps[|cps| - 1].status == Failed && Newest(cps).Some? ==> Newest(cps).value.last < Covered(cps)
  {
    var n := |cps| - 1;
    if Newest(cps).Some? {
      var b := Newest(cps).value;
      var j :| 0 <= j < |cps| && cps[j] == b;
      hide Newest;
      if j < n {
        TilesAscend(cps, j, n);
      }
    }
  }

  function Expected(cps: seq<CheckpointRow>): int {
    if Newest(cps).Some? then Newest(cps).value.last + 1 else 1
  }

  // The worker sees a gap exactly when the newest checkpoint has failed.
  lemma GapIffNewestFailed(cfg: Config, cps: seq<CheckpointRow>)
    requires ListOk(cfg, cps)
    ensures Expected(cps) != Covered(cps) + 1 <==> cps != [] && cps[|cps| - 1].status == Failed
    ensures Expected(cps) <= Covered(cps) + 1
  {
    if cps != [] {
      NewestOfList(cfg, cps);
      TileBounds(cps, |cps| - 1);
    }
  }

  lemma GapKeeps(cfg: Config, s: State)
    requires Inv(cfg, s)
    ensures Inv(cfg, RecordGap(s, Expected(s.checkpoints), Covered(s.checkpoints) + 1))
    ensures forall k :: k in s.receipts && s.receipts[k].status == InVerified ==>
      RecordGap(s, Expected(s.checkpoints), Covered(s.checkpoints) + 1).receipts[k] == s.receipts[k]
  {
    hide *;
    var e, o := Expected(s.checkpoints), Covered(s.checkpoints) + 1;
    var t := RecordGap(s, e, o);
    GapEffect(s, e, o);
    BehindExpected(s.checkpoints);
    GapKeepsList(cfg, s, t, e, o);
    GapKeepsReceipts(cfg, s, t, e, o);
  }

  // The tables before and after a gap from e to o - 1 is recorded.
  ghost predicate GapMade(s: State, t: State, e: int, o: int) {
    && t.next == s.next && t.outbox == s.outbox && t.checkpoints == s.checkpoints && t.receipts.Keys == s.receipts.Keys
    && forall k :: k in s.receipts ==>
         t.receipts[k] == s.receipts[k].(status := if e <= k < o then InGap else s.receipts[k].status)
  }

  lemma GapEffect(s: State, e: int, o: int)
    ensures GapMade(s, RecordGap(s, e, o), e, o)
  {
  }

  // Only failed checkpoints reach the expected number.
  ghost predicate FailedBehind(cps: seq<CheckpointRow>, e: int) {
    forall j :: 0 <= j < |cps| && cps[j].status != Failed ==> cps[j].last < e
  }

  lemma BehindExpected(cps: seq<CheckpointRow>)
    ensures FailedBehind(cps, Expected(cps))
  {
    forall j | 0 <= j < |cps| && cps[j].status != Failed ensures cps[j].last < Expected(cps) {
      assert cps[j] in cps;
    }
  }

  lemma GapKeepsOne(cfg: Config, s: State, t: State, e: int, o: int, j: nat)
    requires Inv(cfg, s) && GapMade(s, t, e, o) && FailedBehind(s.checkpoints, e) && j < |s.checkpoints|
    ensures Anchored(cfg, t.receipts, s.checkpoints[j])
  {
    var c := s.checkpoints[j];
    AnchoredOf(cfg, s, j);
    hide Inv, Anchored;
    forall k | c.first <= k <= c.last ensures k in s.receipts && k in t.receipts
      && t.receipts[k] == s.receipts[k].(status := t.receipts[k].status)
      && StatusMatches(c.status, t.receipts[k].status)
    {
      CoveredReceipt(cfg, s, j, k);
    }
    AnchoredKept(cfg, s.receipts, t.receipts, c, c);
  }

  lemma AnchoredOf(cfg: Config, s: State, j: nat)
    requires Inv(cfg, s) && j < |s.checkpoints|
    ensures Anchored(cfg, s.receipts, s.checkpoints[j])
  {
    hide Anchored, Authentic, ListOk, Numbered;
  }

  lemma GapWaits(s: State, t: State, e: int, o: int)
    requires Numbered(s) && OutboxWaits(s) && GapMade(s, t, e, o) && o == Covered(s.checkpoints) + 1
    ensures OutboxWaits(t)
  {
  }

  lemma GapKeepsParts(cfg: Config, s: State, t: State, e: int, o: int)
    requires Numbered(s) && Authentic(cfg, s.receipts) && GapMade(s, t, e, o)
    ensures Numbered(t) && Authentic(cfg, t.receipts)
  {
    hide Authentic, Numbered;
    AuthenticKept(cfg, s.receipts, t.receipts);
    NumberedKept(s, t);
  }

  lemma SameList(s: State, t: State, e: int, o: int)
    requires GapMade(s, t, e, o)
    ensures t.checkpoints == s.checkpoints
  {
  }

  lemma GapKeepsList(cfg: Config, s: State, t: State, e: int, o: int)
    requires Inv(cfg, s) && GapMade(s, t, e, o) && FailedBehind(s.checkpoints, e) && o == Covered(s.checkpoints) + 1
    ensures Inv(cfg, t)
  {
    hide ListOk, Numbered, Authentic, AllAnchored, OutboxWaits, GapMade, FailedBehind, Covered;
    SameList(s, t, e, o);
    GapKeepsParts(cfg, s, t, e, o);
    GapWaits(s, t, e, o);
    GapKeepsAnchors(cfg, s, t, e, o);
  }

  lemma GapKeepsAnchors(cfg: Config, s: State, t: State, e: int, o: int)
    requires Inv(cfg, s) && GapMade(s, t, e, o) && FailedBehind(s.checkpoints, e)
    ensures AllAnchored(cfg, t)
  {
    SameList(s, t, e, o);
    hide Inv, Anchored, GapMade, FailedBehind;
    forall j | 0 <= j < |s.checkpoints| ensures Anchored(cfg, t.receipts, s.checkpoints[j]) {
      GapKeepsOne(cfg, s, t, e, o, j);
    }
  }

  lemma NumberedTile(cfg: Config, s: State, k: int) returns (j: nat)
    requires Inv(cfg, s) && k in s.receipts && k <= Covered(s.checkpoints)
    ensures j < |s.checkpoints| && s.checkpoints[j].first <= k <= s.checkpoints[j].last
  {
    hide Anchored, Authentic;
    j := TileOf(s.checkpoints, k);
  }

  lemma GapKeepsReceipts(cfg: Config, s: State, t: State, e: int, o: int)
    requires Inv(cfg, s) && GapMade(s, t, e, o) && FailedBehind(s.checkpoints, e) && o == Covered(s.checkpoints) + 1
    ensures forall k :: k in s.receipts && s.receipts[k].status == InVerified ==> t.receipts[k] == s.receipts[k]
  {
    hide Inv, Covered;
    forall k | k in s.receipts && s.receipts[k].status == InVerified ensures t.receipts[k] == s.receipts[k] {
      if e <= k < o {
        var j := NumberedTile(cfg, s, k);
        CoveredReceipt(cfg, s, j, k);
      }
    }
  }

  lemma SequencesRepresentable(cfg: Config, receipts: map<int, ReceiptRow>, k: int)
    requires Authentic(cfg, receipts) && k in receipts
    ensures -MAX_SAFE_INTEGER <= k <= MAX_SAFE_INTEGER
  {
    HashedIsValid(cfg, receipts[k].body);
    hide ReceiptHash, IsReceiptSchema;
    ValidMember(receipts[k].body, "sequence");
  }

  lemma ValidMember(body: Object, key: string)
    requires Valid(Obj(body)) && key in body
    ensures Valid(body[key])
  {
    assert Obj(body).members == body;
  }

  lemma HashedIsValid(cfg: Config, body: Object)
    requires ReceiptHash(cfg.lib.sha256, body).Some?
    ensures Valid(Obj(body))
  {
    hide Canonical;
  }

  // With the newest checkpoint not failed, the batch is always built.
  lemma BuildSucceeds(cfg: Config, s: State, limit: nat, keyId: string)
    requires Inv(cfg, s) && Queued(s) != {} && 0 < limit <= 10000
    ensures BuildNext(cfg, s, limit, keyId).Complete?
    ensures |BuildNext(cfg, s, limit, keyId).built.proofs| == |FirstSequences(Queued(s), limit)|
  {
    hide AllAnchored, ListOk, BuildCheckpoint, Newest, Authentic, FirstSequences, BatchRows, Covered, OutboxWaits,
      Numbered;
    BatchIsNext(cfg, s, limit);
    var order := FirstSequences(Queued(s), limit);
    var rows := BatchRows(s.receipts, order);
    SequencesRepresentable(cfg, s.receipts, order[0]);
    SequencesRepresentable(cfg, s.receipts, order[|order| - 1]);
    BuildTotal(cfg.lib, rows, cfg.instanceId, keyId,
               if Newest(s.checkpoints).Some? then Some(Newest(s.checkpoints).value.hash) else None);
  }

  lemma BuildTotal(lib: Library, rows: seq<BatchRow>, instanceId: string, keyId: string, previous: Option<Digest>)
    requires rows != [] && |rows| <= MAX_SAFE_INTEGER
    requires forall i :: 0 <= i < |rows| ==> rows[i].sequence == rows[0].sequence + i
    requires -MAX_SAFE_INTEGER <= rows[0].sequence && rows[|rows| - 1].sequence <= MAX_SAFE_INTEGER
    ensures var r := BuildCheckpoint(lib, rows, instanceId, keyId, previous);
      r.Complete? && |r.built.proofs| == |rows|
  {
    hide Document, CheckpointPayload, RowsName, Proofs, Digests, FirstMismatch;
    PayloadTotal(lib, rows, instanceId, keyId, previous);
  }

  lemma PayloadTotal(lib: Library, rows: seq<BatchRow>, instanceId: string, keyId: string, previous: Option<Digest>)
    requires rows != [] && |rows| <= MAX_SAFE_INTEGER
    requires -MAX_SAFE_INTEGER <= rows[0].sequence <= rows[|rows| - 1].sequence <= MAX_SAFE_INTEGER
    ensures CheckpointPayload(Document(lib, rows, instanceId, keyId, previous)).Some?
  {
    hide Document, Root, Digests, CanonicalJson, Get;
    DocumentGets(lib, rows, instanceId, keyId, previous);
    DocumentValid(lib, rows, instanceId, keyId, previous);
  }

  ghost predicate NextRow(cfg: Config, s: State, c: CheckpointRow) {
    && c.first == Covered(s.checkpoints) + 1 <= c.last < s.next
    && c.previous == (if s.checkpoints == [] then None else Some(s.checkpoints[|s.checkpoints| - 1].hash))
    && c.status == Signing && c.attempts == 0 && c.seal == None
    && Built(cfg, s.receipts, c)
  }

  lemma RangeIsNew(cfg: Config, s: State, c: CheckpointRow)
    requires Inv(cfg, s) && NextRow(cfg, s, c)
    ensures !RangeTaken(s.checkpoints, c)
  {
    hide Anchored, Authentic, Built;
    forall i | 0 <= i < |s.checkpoints| ensures s.checkpoints[i].first < c.first {
      TileBounds(s.checkpoints, i);
    }
  }

  lemma ListGrows(cfg: Config, s: State, c: CheckpointRow)
    requires Inv(cfg, s) && NextRow(cfg, s, c) && !IdTaken(s.checkpoints, c.id)
    ensures ListOk(cfg, s.checkpoints + [c]) && Covered(s.checkpoints + [c]) == c.last
  {
    hide Anchored, Authentic, Built;
    forall i | 0 <= i < |s.checkpoints| ensures s.checkpoints[i].first < c.first {
      TileBounds(s.checkpoints, i);
    }
  }

  lemma UptoContains(lo: int, hi: int)
    requires lo <= hi + 1
    ensures forall k :: k in Upto(lo, hi) <==> lo <= k <= hi
  {
    forall k ensures k in Upto(lo, hi) <==> lo <= k <= hi {
      if lo <= k <= hi {
        assert Upto(lo, hi)[k - lo] == k;
      }
    }
  }

  // What one commit does to each receipt and to the outbox.
  lemma CommitEffect(s: State, c: CheckpointRow, proofs: seq<seq<ProofItem>>)
    requires c.first <= c.last && |proofs| == c.last + 1 - c.first
    ensures var t := Commit(s, Upto(c.first, c.last), c, proofs);
      && t.receipts.Keys == s.receipts.Keys && t.next == s.next
      && (forall k :: k in t.outbox <==> k in s.outbox && !(c.first <= k <= c.last))
      && (forall k :: k in s.receipts && !(c.first <= k <= c.last) ==> t.receipts[k] == s.receipts[k])
      && (forall k :: k in s.receipts && c.first <= k <= c.last ==>
            0 <= k - c.first < |proofs| && t.receipts[k] == PlacedRow(s.receipts[k], c, proofs, k - c.first))
  {
    UptoContains(c.first, c.last);
  }

  function PlacedRow(r: ReceiptRow, c: CheckpointRow, proofs: seq<seq<ProofItem>>, i: nat): ReceiptRow
    requires i < |proofs|
  {
    r.(status := Batched, checkpointId := Some(c.id), leafIndex := Some(i), proof := Some(proofs[i]))
  }

  lemma CommitKeeps(cfg: Config, s: State, c: CheckpointRow, proofs: seq<seq<ProofItem>>)
    requires Inv(cfg, s) && NextRow(cfg, s, c) && !IdTaken(s.checkpoints, c.id)
    requires InRange(s.receipts, c)
    requires proofs == Proofs(cfg.lib.sha256, Digests(RowsOfCheckpoint(s.receipts, c)))
    ensures |proofs| == |Upto(c.first, c.last)| && Inv(cfg, Commit(s, Upto(c.first, c.last), c, proofs))
  {
    hide Commit, Placed, Authentic, Anchored, Proofs, Digests, RowsOfCheckpoint, ListOk, IdTaken, Upto, BuildCheckpoint,
      RowsName, OutboxWaits, AllAnchored, Numbered, Built;
    var t := Commit(s, Upto(c.first, c.last), c, proofs);
    CommitEffect(s, c, proofs);
    CommitAppends(s, c, proofs);
    ListGrows(cfg, s, c);
    AuthenticKept(cfg, s.receipts, t.receipts);
    CommitNumbered(s, t, c);
    OthersAnchored(cfg, s, t, c);
    NewAnchored(cfg, s.receipts, t.receipts, c, proofs);
    OneMoreAnchored(cfg, s, t, c);
    QueueShrinks(cfg, s, t, c);
  }

  lemma OneMoreAnchored(cfg: Config, s: State, t: State, c: CheckpointRow)
    requires t.checkpoints == s.checkpoints + [c] && Anchored(cfg, t.receipts, c)
    requires forall j :: 0 <= j < |s.checkpoints| ==> Anchored(cfg, t.receipts, s.checkpoints[j])
    ensures AllAnchored(cfg, t)
  {
    hide Anchored;
  }

  lemma SameAsBefore(c: CheckpointRow)
    ensures SameButStatus(c, c)
  {
  }

  lemma OthersAnchored(cfg: Config, s: State, t: State, c: CheckpointRow)
    requires Inv(cfg, s) && c.first == Covered(s.checkpoints) + 1 && t.receipts.Keys == s.receipts.Keys
    requires forall k :: k in s.receipts && !(c.first <= k <= c.last) ==> t.receipts[k] == s.receipts[k]
    ensures forall j :: 0 <= j < |s.checkpoints| ==> Anchored(cfg, t.receipts, s.checkpoints[j])
  {
    hide Inv, Anchored, StatusMatches, SameButStatus;
    forall j | 0 <= j < |s.checkpoints| ensures Anchored(cfg, t.receipts, s.checkpoints[j]) {
      var d := s.checkpoints[j];
      BeforeNext(cfg, s, j, c);
      AnchoredOf(cfg, s, j);
      SameAsBefore(d);
      forall k | d.first <= k <= d.last ensures k in s.receipts && k in t.receipts
        && t.receipts[k] == s.receipts[k] && StatusMatches(d.status, s.receipts[k].status)
      {
        CoveredReceipt(cfg, s, j, k);
      }
      AnchoredKept(cfg, s.receipts, t.receipts, d, d);
    }
  }

  lemma BeforeNext(cfg: Config, s: State, j: nat, c: CheckpointRow)
    requires Inv(cfg, s) && j < |s.checkpoints| && c.first == Covered(s.checkpoints) + 1
    ensures s.checkpoints[j].last < c.first
  {
    hide Anchored, Authentic;
    TileBounds(s.checkpoints, j);
  }

  lemma CommitNumbered(s: State, t: State, c: CheckpointRow)
    requires Numbered(s) && t.receipts.Keys == s.receipts.Keys && t.next == s.next
    requires c.first == Covered(s.checkpoints) + 1 <= c.last < s.next && Covered(t.checkpoints) == c.last
    requires forall k :: k in t.outbox <==> k in s.outbox && !(c.first <= k <= c.last)
    ensures Numbered(t)
  {
    assert forall k :: k in t.receipts <==> k in t.receipts.Keys;
  }

  lemma QueueShrinks(cfg: Config, s: State, t: State, c: CheckpointRow)
    requires Inv(cfg, s)
    requires forall k :: k in t.outbox <==> k in s.outbox && !(c.first <= k <= c.last)
    requires t.receipts.Keys == s.receipts.Keys
    requires forall k :: k in s.receipts && !(c.first <= k <= c.last) ==> t.receipts[k] == s.receipts[k]
    ensures OutboxWaits(t)
  {
    hide AllAnchored, Authentic, ListOk, Numbered;
  }

  lemma CommitAppends(s: State, c: CheckpointRow, proofs: seq<seq<ProofItem>>)
    requires c.first <= c.last && |proofs| == c.last + 1 - c.first && !IdTaken(s.checkpoints, c.id)
    ensures Commit(s, Upto(c.first, c.last), c, proofs).checkpoints == s.checkpoints + [c]
  {
  }

  lemma NewAnchored(cfg: Config, a: map<int, ReceiptRow>, b: map<int, ReceiptRow>, c: CheckpointRow,
                    proofs: seq<seq<ProofItem>>)
    requires Built(cfg, a, c) && c.status == Signing
    requires proofs == Proofs(cfg.lib.sha256, Digests(RowsOfCheckpoint(a, c)))
    requires forall k :: c.first <= k <= c.last ==>
      0 <= k - c.first < |proofs| && k in a && k in b && b[k] == PlacedRow(a[k], c, proofs, k - c.first)
    ensures Anchored(cfg, b, c)
  {
    hide BuildCheckpoint, RowsName, Root, Proof, Digests, RowsOfCheckpoint;
    SameRows(a, b, c, c);
  }

  // The row inserted for a built batch carries the batch's own range, id and proofs.
  lemma NewRowBuilt(cfg: Config, receipts: map<int, ReceiptRow>, rows: seq<BatchRow>, r: BuildResult, c: CheckpointRow)
    requires InRange(receipts, c) && rows == RowsOfCheckpoint(receipts, c)
    requires r == BuildCheckpoint(cfg.lib, rows, cfg.instanceId, c.keyId, c.previous) && r.Complete?
    requires c.doc == r.built.doc && c.hash == r.built.hash && c.id == r.built.id
    ensures Built(cfg, receipts, c) && r.built.proofs == Proofs(cfg.lib.sha256, Digests(RowsOfCheckpoint(receipts, c)))
  {
    hide BuildCheckpoint, RowsName, Digests, Proofs, RowsOfCheckpoint;
    BuiltRows(cfg.lib, rows, cfg.instanceId, c.keyId, c.previous);
  }

  lemma RowsOfRange(receipts: map<int, ReceiptRow>, order: seq<int>, c: CheckpointRow)
    requires c.first <= c.last && order == Upto(c.first, c.last)
    requires forall k :: k in order ==> k in receipts
    ensures InRange(receipts, c) && RowsOfCheckpoint(receipts, c) == BatchRows(receipts, order)
  {
    UptoContains(c.first, c.last);
    hide Upto, BatchRows;
  }

  // The checkpoint the worker builds is the next one of the list.
  lemma BuiltIsNext(cfg: Config, s: State, limit: nat, keyId: string, order: seq<int>, built: Batch, c: CheckpointRow)
    requires Inv(cfg, s) && Queued(s) != {} && 0 < limit <= 10000
    requires Expected(s.checkpoints) == Covered(s.checkpoints) + 1
    requires BuildNext(cfg, s, limit, keyId) == Complete(built)
    requires order == FirstSequences(Queued(s), limit)
    requires c == NewRow(order, built, keyId,
                         if Newest(s.checkpoints).Some? then Some(Newest(s.checkpoints).value.hash) else None)
    ensures NextRow(cfg, s, c) && order == Upto(c.first, c.last) && InRange(s.receipts, c)
    ensures built.proofs == Proofs(cfg.lib.sha256, Digests(RowsOfCheckpoint(s.receipts, c)))
  {
    hide Anchored, Authentic, ListOk, Newest, FirstSequences, BuildCheckpoint, Proofs, Digests, Upto, Built,
      RowsOfCheckpoint,
      BatchRows;
    BatchIsNext(cfg, s, limit);
    PreviousIsLast(cfg, s.checkpoints);
    RowsOfRange(s.receipts, order, c);
    NewRowBuilt(cfg, s.receipts, BatchRows(s.receipts, order), BuildNext(cfg, s, limit, keyId), c);
  }

  lemma PreviousIsLast(cfg: Config, cps: seq<CheckpointRow>)
    requires ListOk(cfg, cps) && Expected(cps) == Covered(cps) + 1
    ensures (if Newest(cps).Some? then Some(Newest(cps).value.hash) else None)
         == (if cps == [] then None else Some(cps[|cps| - 1].hash))
  {
    GapIffNewestFailed(cfg, cps);
    if cps != [] {
      NewestOfList(cfg, cps);
    }
  }

  predicate NewestFailed(cps: seq<CheckpointRow>) {
    cps != [] && cps[|cps| - 1].status == Failed
  }

  // Over a failed newest checkpoint nothing is staged: the worker records a gap instead.
  lemma FailedNewestBlocks(cfg: Config, s: State, limit: nat, keyId: string)
    requires Inv(cfg, s) && Queued(s) != {} && 0 < limit <= 10000 && NewestFailed(s.checkpoints)
    ensures var e, o := Expected(s.checkpoints), Covered(s.checkpoints) + 1;
      e < o && StageBatch(cfg, s, limit, keyId) == (RecordGap(s, e, o), GapFound(e, o))
  {
    ListOfInv(cfg, s);
    GapIffNewestFailed(cfg, s.checkpoints);
    FirstOfBatch(cfg, s, limit);
    hide *;
    MismatchIsGap(cfg, s, limit, keyId);
  }

  lemma MismatchIsGap(cfg: Config, s: State, limit: nat, keyId: string)
    requires Queued(s) != {} && 0 < limit && FirstSequences(Queued(s), limit)[0] != Expected(s.checkpoints)
    ensures var e, o := Expected(s.checkpoints), FirstSequences(Queued(s), limit)[0];
      StageBatch(cfg, s, limit, keyId) == (RecordGap(s, e, o), GapFound(e, o))
  {
    hide BuildNext, RecordGap, FirstSequences, Commit, Queued, Newest, RangeTaken, NewRow;
  }

  lemma FirstOfBatch(cfg: Config, s: State, limit: nat)
    requires Inv(cfg, s) && Queued(s) != {} && 0 < limit
    ensures FirstSequences(Queued(s), limit) != [] && FirstSequences(Queued(s), limit)[0] == Covered(s.checkpoints) + 1
  {
    hide Inv, Queued, FirstSequences;
    BatchIsNext(cfg, s, limit);
  }

  // Otherwise the lowest queued receipts become the next checkpoint; only a taken id keeps its row
  // out of the table.
  lemma StagesNext(cfg: Config, s: State, limit: nat, keyId: string) returns (c: CheckpointRow)
    requires Inv(cfg, s) && Queued(s) != {} && 0 < limit <= 10000 && !NewestFailed(s.checkpoints)
    ensures NextRow(cfg, s, c) && c.keyId == keyId && InRange(s.receipts, c)
    ensures StageBatch(cfg, s, limit, keyId).1 == Staged(c.id, c.last + 1 - c.first)
    ensures !IdTaken(s.checkpoints, c.id) ==>
      StageBatch(cfg, s, limit, keyId).0.checkpoints == s.checkpoints + [c]
        && Inv(cfg, StageBatch(cfg, s, limit, keyId).0)
  {
    hide Inv, BuildNext, Commit, FirstSequences, NextRow, Built, RowsOfCheckpoint, Proofs, Newest;
    GapIffNewestFailed(cfg, s.checkpoints) by { ListOfInv(cfg, s); }
    BatchIsNext(cfg, s, limit);
    BuildSucceeds(cfg, s, limit, keyId);
    var built := BuildNext(cfg, s, limit, keyId).built;
    var order := FirstSequences(Queued(s), limit);
    c := NewRow(order, built, keyId,
                if Newest(s.checkpoints).Some? then Some(Newest(s.checkpoints).value.hash) else None);
    BuiltIsNext(cfg, s, limit, keyId, order, built, c);
    RangeIsNew(cfg, s, c);
    if !IdTaken(s.checkpoints, c.id) {
      CommitKeeps(cfg, s, c, built.proofs);
      CommitAppends(s, c, built.proofs);
    }
  }

  lemma ListOfInv(cfg: Config, s: State)
    requires Inv(cfg, s)
    ensures ListOk(cfg, s.checkpoints) && Numbered(s)
  {
  }
}

