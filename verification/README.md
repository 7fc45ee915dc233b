# NautGate, modelled and proved in Dafny

NautGate is a gateway in front of language-model providers. This project models the parts of it
whose correctness is hardest to see by reading one function, and proves what they promise:

* the **Verified Audit Trail**: canonical JSON, domain-separated receipt hashes, the Merkle tree and
  its inclusion proofs, the staging and signing workers as a state machine over database
  transactions, and the offline bundle verifier (`Bytes`, `Unicode`, `Json`, `JsonParser`,
  `CanonicalText`, `TreeShape`, `Merkle`, `Evidence`, `ByteFormats`, `Sidecar`, `Checkpoint`,
  `SequenceOrder`, `Trail*`, `BundleVerifier`, `BundleTampering`);
* **Max Guard**, in process (`GuardMemory`) and durable (`GuardLedger`, `GuardSafety`, `GuardRuns`,
  `GuardOverrides`, `GuardTables`), and what its counters and verdicts mean (`GuardReports`,
  `GuardVerdicts`);
* the bounded **stream capture**, the event reader and the assembly of text and tool calls
  (`StreamCapture`, `ServerEvents`, `EventText`, `OutcomeParser`);
* **drift baselines** (`Drift`, `DriftEngine`), the privacy log's **hash chain** (`HashChain`), the
  LRU and TTL **hint cache** (`HintCache`, `HintCacheRuns`), the outcome **spool** (`OutcomeSpool`),
  **overlap resolution and redaction** (`Spans`, `SpanPicks`, `Redaction`) and **check digits** (`Iban`,
  `IbanText`, `CheckDigits`).

SHA-256 is an arbitrary function. A binding theorem says that two inputs are equal or that a given
function of the inputs computes an explicit collision, so none rests on an injectivity axiom. RSA
verification, base64, uuid5 and ISO time formatting are parameters. A mutable object of the source is
a class whose methods are proved to leave exactly the state a specification function gives, or
exactly the state a whole history determines; the theorems about runs are about those functions. Each
specification function is in turn tied to a statement of its own that does not use it: the order of
keys as numbers, sums over reports, the returned text, the reply a seal needs, limits and texts as
literals.

## What the proofs found

* A checkpoint that fails while it is the newest one stops the trail: no later step ever adds or
  changes a checkpoint (`TrailRuns.FailedNewestIsForever`). Silence of the sidecar is enough to get
  there (`TrailProgress.SilenceFailsNewest`). Every staging attempt after it that finds receipts and
  does not wait appends one more equal row to `audit_gaps` (`TrailProgress.GapsPileUp`), because its unique key
  includes a column that is NULL (`core/app/db/migrations/029_audit_checkpoints.sql:60`). Otherwise
  forced stagings empty the outbox (`TrailProgress.StagingsEmptyOutbox`).
* The offline verifier never compares a proof's sides with `leaf_index`. The position is still bound,
  because the receipt carries its sequence number (`BundleVerifier.AcceptedBundleDiscloses`).
* The verifier compares `sequence`, `first_sequence` and `receipt_count` as Python numbers, so `true`
  counts as 1; for documents this system builds that changes nothing.
* The gateway would build a checkpoint that starts below 1; the sidecar refuses exactly those, and
  those that name another key (`Checkpoint.AttestAcceptsBuilt`). In a reachable state only the key is
  left (`TrailProofs.SidecarAcceptsIff`), and a worker stages under whatever key it is configured
  with (`TrailProofs.AnyKeyIsStaged`).
* A reply that validates but carries no `public_key_fingerprint`, or one that is no storable text,
  while none is configured, raises after validation (`core/app/audit_signer.py:121`), so that attempt
  is not counted and changes nothing. An attempt makes progress exactly when this does not happen
  (`TrailRuns.AttemptMakesProgress`). A sidecar that never sends one keeps the trail where it is for
  any number of attempts (`TrailRuns.UncountedForever`), and a configured fingerprint rules it out
  (`TrailRuns.FingerprintedAttemptsDrain`).
* A reply whose fingerprint is null, while none is configured, is sealed instead: its receipts count
  as verified, but no key ever makes the offline verifier accept their bundles
  (`TrailProofs.NullFingerprintNeverVerifies`).
* A session's allowance in Max Guard holds only for prompt reports; reports that arrive after
  fifteen minutes can take a session past it (`GuardRuns.LateReportsOverrun`), and
  `GuardRuns.PromptIffRaisesNone` and `GuardRuns.PromptIffKeepsEveryLimit` say exactly which reports
  do so.
* A truncated capture without a blank line can read as an event the stream never held; it is safe for
  every continuation exactly when it holds a blank line or no event (`ServerEvents.SafeTruncations`).
* The comment that three anomalies in a row never happen (`core/app/drift.py:52-53`) does not hold.
  From a warm baseline there are streaks of every length (`DriftEngine.StreaksAreUnbounded`). For a
  constant value `DriftEngine.ThreeInARow` gives the exact condition, 22 in a row do happen
  (`DriftEngine.TwentyTwoHappen`) and 23 never do (`DriftEngine.NeverTwentyThree`).
* The module text says `|z| > 3`; the code compares with `>=`, which differs exactly where the squared
  distance is nine variances (`DriftEngine.ReadingsDifferIff`). The constant for
  resolution is five normal samples (`core/app/drift.py:62-63`); the code resolves on the first normal sample more than 25 seconds after
  the alert started, and on no number of them before that (`DriftEngine.ResolutionIsByAge`).
* "Longer spans win" (`core/bowden_pii/rules.py:295`) does not hold. Of a list of just two overlapping
  detections the longer is kept exactly when it starts no later (`Spans.LongerOfTwoWinsIff`); in a
  longer list it may start earlier and still be dropped, for a third one
  (`SpanPicks.LongerEarlierMayLose`). For any list, no detection is dropped for a shorter one exactly
  when none that begins within a pick is longer than the pick (`SpanPicks.LongerWinsIff`), where picks
  are what the list alone says is kept (`SpanPicks.KeptIsPicked`).
* Redaction does not always hide all that was detected. `Redaction.AllHiddenIff` gives the exact
  condition on the list. It holds when no detection crosses another (`Redaction.LaminarIsHidden`). In
  a list of just two that cross, the tail of the dropped one stays in the text
  (`Redaction.PairHiddenIff`, `Redaction.DroppedTailStays`); in a longer list a third one may cover it
  (`Redaction.ThirdMayCoverTail`).
* A swap of two neighbours of one class in an IBAN is always noticed, also where the rearrangement
  cuts between them (`IbanText.SwapCaught`). A digit and a letter swapped go unnoticed exactly behind
  the check digits and for 1B, 2M and 3X (`IbanText.MixedSwapIff`).
* A country code longer than two characters can make an IBAN that validates
  (`IbanText.LongCountryMayPass`); `IbanText.MadeIbansValidate` says exactly when.

## Model

| member | source | states |
|---|---|---|
| Unicode.Utf8RoundTrip | core/app/audit_evidence.py:85-88 | decoding with replacement undoes UTF-8 encoding for every string of scalar values |
| Unicode.DecodeSplitsAtLineFeed | core/app/streaming.py:63-64 | decoding arbitrary, even ill-formed, bytes splits at every line feed |
| Unicode.Utf16Injective | core/app/audit_evidence.py:79-80 | distinct keys never share a UTF-16 sort key |
| ByteFormats.Utf8Shows | core/app/audit_evidence.py:85-88 | one to four bytes by size, the first telling how many, six bits in each further one |
| ByteFormats.DecodeIsStrict | core/app/streaming.py:63-64 | bytes that decode without a replacement character are the encoding of the text: nothing ill-formed passes |
| ByteFormats.HexShows | core/app/audit_checkpoint.py:57-77 | two lower-case digits per byte, the high one first |
| ByteFormats.HexReads | core/app/audit_evidence.py:164-178 | either letter case is read, and white space between bytes is skipped |
| ByteFormats.IllFormedShows | core/app/streaming.py:63-64 | one replacement character up to the first byte that cannot go on |
| Json.SortedKeys | core/app/audit_evidence.py:78-81 | the printed key order lists every key once and ascends by the UTF-16 bytes |
| CanonicalText.KeysInUnitOrder | core/app/audit_evidence.py:78-81 | of two keys the one printed first is a proper prefix of the other or has the smaller 16-bit unit where they first differ, surrogate pairs taken by arithmetic |
| CanonicalText.ObjectText | core/app/audit_evidence.py:78-81 | whichever listing of an object's keys ascends by code units, the text is the members in that order, joined by commas |
| CanonicalText.ArrayText | core/app/audit_evidence.py:82 | the items in their own order, joined by commas |
| CanonicalText.IntegerText | core/app/audit_evidence.py:76-77 | safe integers only, in decimal notation, without a leading zero, behind a minus sign if negative |
| CanonicalText.StringText | core/app/audit_evidence.py:63-64 | character by character between quotes: seven short escapes, six characters for other control characters, anything else as it is |
| CanonicalText.AcceptedIff | core/app/audit_evidence.py:37-60 | null, truth values, texts and integers within 53 bits have a text, floating-point numbers and other kinds none, and containers exactly when all they hold has |
| CanonicalText.FixedTexts | core/app/audit_evidence.py:68-73 | null, true and false |
| CanonicalText.PublishedVector | docs/fixtures/audit-v1/vectors.json:2-16 | the published canonicalization vector |
| Json.SortingForgetsOrder | core/app/audit_evidence.py:78-81 | any ascending listing of a mapping's keys is that one list, so insertion order never matters |
| JsonParser.StringReads | core/app/audit_evidence.py:63-64 | every escaped string is read back from in front of any following text |
| JsonParser.ValueReads | core/app/audit_evidence.py:67-82 | a reader recovers every accepted value, nested or not, from its text and stops exactly at its end |
| JsonParser.ParseRecovers | core/app/audit_evidence.py:85-88 | canonical JSON has a left inverse on bytes for every value that validates |
| JsonParser.CanonicalInjective | core/app/audit_evidence.py:85-88 | two values that validate and share canonical bytes are equal |
| TreeShape.LevelKeepsFold | core/app/audit_evidence.py:123-131 | one level of pairing with promotion of an odd last node keeps the value of the recursively split tree |
| TreeShape.LevelKeepsPath | core/app/audit_evidence.py:143-160 | recording one sibling per level builds the recursively defined sibling path |
| TreeShape.FoldByLevels | core/app/audit_evidence.py:118-131 | the level loop computes the tree split at the largest power of two below n |
| TreeShape.PathByLevels | core/app/audit_evidence.py:134-161 | the proof loop computes the recursive sibling path of its leaf |
| TreeShape.PathReachesFold | core/app/audit_evidence.py:134-178 | applying a leaf's path gives the value of the whole tree |
| TreeShape.PathLength | core/app/audit_evidence.py:134-161 | a path has at most ceil(log2 n) steps |
| Merkle.MerkleRoot | core/app/audit_evidence.py:118-131 | refuses an empty batch, else returns the root of the recursively split tree |
| Merkle.MerkleProof | core/app/audit_evidence.py:134-161 | refuses an empty batch and an index outside it, else returns the recursive path |
| Merkle.VerifyMerkleProof | core/app/audit_evidence.py:164-178 | the walk computes the root the proof claims for the digest |
| ByteFormats.RootIs | core/app/audit_evidence.py:106-131 | one digest is hashed behind the leaf text; more are split at the largest power of two below their number and hashed behind the node text, left before right |
| ByteFormats.StepIs | core/app/audit_evidence.py:164-178 | each step of a proof hashes the sibling on its own side |
| Merkle.ProofReachesRoot | core/app/audit_evidence.py:134-178 | every generated proof verifies for its own digest and is at most ceil(log2 n) long |
| Merkle.RootCollision | core/app/audit_evidence.py:106-131 | two different batches of any sizes with one root yield an explicit collision |
| Merkle.Locate | core/app/audit_evidence.py:164-178 | a proof accepted for a batch's root is exactly the generated proof of that digest's position, or yields an explicit collision |
| Evidence.ReceiptPreimageInjective | core/app/audit_evidence.py:95-103 | hash inputs of two receipts, of either schema, are equal only for equal receipts |
| Evidence.ReceiptCollision | core/app/audit_evidence.py:95-103 | two different receipts with one hash yield an explicit collision |
| ByteFormats.ReceiptHashIs | core/app/audit_evidence.py:95-103 | the hash of canonical JSON behind the text of its schema; any other schema is refused |
| ByteFormats.CheckpointPayloadIs | core/app/audit_evidence.py:181-185 | canonical JSON behind the checkpoint text; any other schema is refused |
| Evidence.CheckpointPayloadInjective | core/app/audit_evidence.py:181-185 | equal signed bytes come only from equal checkpoints |
| Sidecar.CanonicalisersAgree | extensions/sb-attest/evidence.py:32-84 | the sidecar's own validation and printing give the gateway's bytes, or its refusal, for every value |
| Sidecar.AttestAgreesWithGateway | extensions/sb-attest/evidence.py:87-117 | whatever checkpoint the sidecar admits it turns into the gateway's own payload bytes |
| BundleTampering.OnlyItsValue | extensions/sb-attest/evidence.py:87-117 | with the rest of a checkpoint that the sidecar signs, it signs no other schema, algorithm, key id, sequence number or count |
| BundleTampering.OnlyTheseFields | extensions/sb-attest/evidence.py:87-117 | nor one with a field missing or one too many |
| BundleTampering.OnlyDigests | extensions/sb-attest/evidence.py:87-117 | nor one whose root is not a digest in lower-case hexadecimal or whose predecessor is neither one nor null |
| Checkpoint.BuiltRows | core/app/audit_checkpoint.py:36-81 | a build succeeds only for consecutive numbers, and its document, hash, id and proofs are those of its rows |
| Checkpoint.DocumentValid | core/app/audit_checkpoint.py:62-78 | the document is representable exactly when its range and count are exact integers |
| Checkpoint.AttestAcceptsBuilt | extensions/sb-attest/evidence.py:87-117 | the sidecar accepts a built checkpoint, with the same payload, exactly when it starts at 1 or later and names the sidecar's key |
| BundleVerifier.Disclose | core/app/audit_verify.py:90-98 | an accepted inclusion check discloses a receipt of the batch or yields an explicit collision |
| BundleVerifier.AcceptedBundleDiscloses | core/app/audit_verify.py:71-150 | over a built checkpoint, any accepted bundle discloses the batch's receipt with the reported sequence number at that leaf index, or a collision is computed |
| BundleVerifier.PositionPinned | core/app/audit_verify.py:100-111 | integer numbers leave one leaf index, whatever the proof's sides say |
| BundleTampering.OnlyThisSchema | core/app/audit_verify.py:78-79 | with the rest of an accepted bundle no other bundle schema is accepted |
| BundleTampering.OnlyItsReceiptHash | core/app/audit_verify.py:90-92 | nor any other receipt hash |
| BundleTampering.OnlyItsLeafIndex | core/app/audit_verify.py:100-111 | nor any other leaf index |
| BundleTampering.OnlyItsSignatureField | core/app/audit_verify.py:113-128 | nor another key id, algorithm, encoding or fingerprint in the signature |
| BundleTampering.NoPartMayBeMissing | core/app/audit_verify.py:78-135 | a bundle without any one of its seven parts is refused |
| BundleTampering.RangeAgrees | core/app/audit_verify.py:100-111 | whatever the key, range and count of an accepted checkpoint agree, and the receipt lies in it at its index |
| BundleTampering.ReportSays | core/app/audit_verify.py:137-150 | the report repeats the names in the bundle and the key's fingerprint, which are the expected ones |
| SequenceOrder.FirstOfInterval | core/app/audit_worker.py:77-90 | the first rows of a gapless outbox are a gapless run from its smallest number |
| Trail.Newest | core/app/audit_worker.py:67-76 | selects a checkpoint that is not failed and ends last among those |
| Trail.OldestSigning | core/app/audit_signer.py:45-57 | selects a staged checkpoint that starts first |
| TrailSafety.AppendKeeps | core/app/db/queries.py:219-271 | writing a receipt keeps the trail invariant |
| TrailSafety.FailKeeps | core/app/audit_signer.py:162-177 | a failed attempt keeps the invariant; attempts never exceed the maximum |
| TrailSafety.FinalizeKeeps | core/app/audit_signer.py:109-131 | sealing the oldest staged checkpoint keeps the invariant |
| TrailSafety.SignKeeps | core/app/audit_signer.py:26-131 | the whole signing transaction keeps the invariant for every reply of the sidecar |
| TrailSafety.BatchIsNext | core/app/audit_worker.py:77-92 | the batch read from the outbox is the gapless run right above the covered numbers |
| TrailSafety.GapIffNewestFailed | core/app/audit_worker.py:67-99 | in a reachable state the expected number differs from the next one exactly when the newest checkpoint has failed |
| TrailSafety.GapKeeps | core/app/audit_worker.py:174-192 | recording that gap keeps the invariant and touches no verified receipt |
| TrailSafety.BuildSucceeds | core/app/audit_worker.py:100-115 | in a reachable state the build of the batch read neither raises nor reports a gap |
| TrailSafety.StagesNext | core/app/audit_worker.py:36-171 | unless the newest checkpoint has failed, staging a non-empty outbox succeeds: the new checkpoint covers the numbers right after the covered ones, names the hash of its immediate predecessor and keeps the invariant; only a taken id keeps its row out |
| TrailSafety.FailedNewestBlocks | core/app/audit_worker.py:93-99 | nothing is staged over a failed newest checkpoint; only a gap is recorded |
| TrailSafety.TileOf | core/app/audit_worker.py:36-171 | every covered number lies in exactly one checkpoint |
| TrailDetails.AppendStores | core/app/db/queries.py:219-271 | a receipt is refused exactly for an unrepresentable member or number; else stored under the next number with its own members, schema and time |
| TrailDetails.WaitsIff | core/app/audit_worker.py:36-66 | exactly when a staging waits: not forced, fewer receipts than the limit, none as old as the maximum |
| TrailDetails.StagedTakes | core/app/audit_worker.py:77-171 | a checkpoint takes as many of the waiting receipts as the limit allows, the lowest first |
| TrailDetails.GapMarks | core/app/audit_worker.py:174-192 | over a failed newest checkpoint exactly the numbers above the last unfailed one are recorded and marked |
| TrailDetails.TakenRangeRaises | core/app/audit_worker.py:117-147 | a batch is refused exactly when a checkpoint of another id has its range |
| TrailDetails.DocumentSays | core/app/audit_checkpoint.py:62-78 | a reachable checkpoint's document names its instance, its format, and the times of its earliest and latest receipts |
| TrailDetails.NameIs | core/app/audit_checkpoint.py:53-61 | a checkpoint's id is made from instance, range, root, predecessor and key in this order, "genesis" standing for no predecessor |
| TrailDetails.BuildReportsGap | core/app/audit_checkpoint.py:36-50 | rows out of sequence build nothing but a report of the number missing and the one found |
| TrailRuns.StepKeeps | core/app/audit_worker.py:36-192 | every step keeps the invariant: the checkpoints tile 1..N, the outbox is exactly the receipts above N, each checkpoint is what its receipts build, resolved ones come first |
| TrailRuns.RunKeeps | core/app/audit_worker.py:36-192 | the same over every run of appends, stagings and signing attempts without a checkpoint id clash |
| TrailRuns.EmptyTrail | core/app/db/migrations/029_audit_checkpoints.sql:5-42 | the fresh tables satisfy the invariant |
| TrailRuns.ClashIsCollision | core/app/audit_checkpoint.py:57-61 | a clash is a uuid5 collision between two different stable names, so it is the only way out of the invariant |
| TrailRuns.RunExtends | core/app/audit_signer.py:37-131 | over every run no hashed field of a receipt or checkpoint changes, no resolved checkpoint changes at all, and verified receipts stay verified |
| TrailRuns.FailedNewestIsForever | core/app/audit_worker.py:67-99 | once the newest checkpoint has failed, no run ever adds or changes a checkpoint |
| TrailRuns.VerifiedIffCheckpointIs | core/app/audit_signer.py:109-130 | a receipt is marked verified exactly when the checkpoint that covers it is |
| TrailReplies.SignedIff | core/app/audit_signer.py:134-159 | a staged checkpoint is sealed exactly when the reply says verified and names its id, hash, key, algorithm, encoding and configured fingerprint and carries a signature; any other reply is one more attempt, the last of which fails it, and moves no receipt |
| TrailReplies.SealedInRun | core/app/audit_signer.py:26-131 | over every run a checkpoint becomes verified only by one such reply, whose signature and fingerprint it keeps |
| TrailReplies.HonestSeals | core/app/audit_signer.py:26-131 | if the sidecar says verified only of good signatures, every checkpoint a run seals carries one by the key of its fingerprint |
| TrailReplies.VerifiedReceiptsVerify | core/app/audit_verify.py:71-150 | end to end: under an honest sidecar and a configured fingerprint every verified receipt of any run exports a bundle that verifies under that key |
| TrailRuns.AttemptMakesProgress | core/app/audit_signer.py:37-131 | a signing attempt lowers the attempts left exactly unless a valid reply lacks a usable fingerprint; then it raises and changes nothing |
| TrailRuns.UncountedForever | core/app/audit_signer.py:109-123 | with no fingerprint configured, a sidecar that always leaves it out keeps the trail unchanged over any number of attempts |
| TrailRuns.AttemptsDrainBacklog | core/app/audit_signer.py:37-131 | as many counted attempts as are left leave no checkpoint of a fixed backlog unresolved |
| TrailRuns.FingerprintedAttemptsDrain | core/app/audit_signer.py:37-131 | with a configured fingerprint (free of NUL) any attempts are counted ones, so as many as are left resolve the backlog whatever the sidecar answers |
| TrailProgress.StagingsEmptyOutbox | core/app/audit_worker.py:36-171 | unless the newest checkpoint has failed, as many forced stagings as the outbox has rows empty it |
| TrailProgress.SilenceFailsNewest | core/app/audit_signer.py:162-177 | when only the newest checkpoint is staged, the attempts left, all unanswered, reach a state whose newest checkpoint has failed |
| TrailProgress.GapsPileUp | core/app/audit_worker.py:93-99 | from such a state every run adds exactly one equal gap row for each staging that finds a receipt in the outbox and does not wait, and none for any other step |
| TrailProofs.CoveredReceiptProof | core/app/audit_worker.py:150-162 | every covered receipt is stored with its own checkpoint, leaf index and generated proof |
| TrailProofs.SidecarAcceptsIff | extensions/sb-attest/evidence.py:87-117 | in a reachable state the sidecar accepts exactly the checkpoints staged for its own key, with the gateway's payload |
| TrailProofs.AnyKeyIsStaged | core/app/audit_worker.py:100-145 | staging succeeds under any key id, and the sidecar accepts the result only for its own |
| TrailProofs.ExportedBundleVerifies | core/app/db/queries.py:2797-2842 | every verified receipt of a reachable state exports a bundle that the offline verifier accepts, reporting its own number, exactly under a key that vouches for the seal and the expected key id and fingerprint |
| TrailProofs.NullFingerprintNeverVerifies | core/app/audit_signer.py:109-131 | with no fingerprint configured, a null one is sealed and its receipts become verified, yet after any later run no key makes the verifier accept their bundles |
| TrailProofs.AcceptedBundleIsInTrail | core/app/audit_verify.py:71-150 | any bundle accepted under a key that signs only this trail's checkpoints discloses the trail's own receipt of the reported number, or a collision is computed |
| TrailBinding.DocumentsDifference | core/app/audit_checkpoint.py:73-75 | two chains of checkpoints with one newest hash hold the same documents, or a collision is computed |
| TrailBinding.BatchDifference | core/app/audit_evidence.py:95-131 | two batches of receipts with one root are equal receipt by receipt, or a collision is computed |
| TrailBinding.TrailDifference | core/app/audit_checkpoint.py:36-81 | the newest checkpoint hash binds every checkpoint and every covered receipt of trails of any lengths, or a collision is computed |
| TrailTables.AuditTables.AppendReceipt | core/app/db/queries.py:219-271 | leaves exactly the state of the append step; a refused receipt consumes no number |
| TrailTables.AuditTables.InsertGap | core/app/audit_worker.py:174-192 | the row-by-row update leaves exactly the state of the gap step |
| TrailTables.AuditTables.InsertBatch | core/app/audit_worker.py:117-166 | insert, per-receipt updates and outbox delete leave exactly the committed state |
| TrailTables.AuditTables.StageCheckpointOnce | core/app/audit_worker.py:36-171 | state and result are those of the staging step |
| TrailTables.AuditTables.RecordFailure | core/app/audit_signer.py:162-177 | state and result are those of the failure step |
| TrailTables.AuditTables.SignCheckpointOnce | core/app/audit_signer.py:26-131 | state and result are those of the signing step |
| GuardLedger.FindOverride | core/app/max_guard.py:224-231 | finds an applicable override, created before every other applicable one, exactly when there is one |
| GuardSafety.ReserveConserves | core/app/max_guard.py:145-288 | a reservation keeps every session counter equal to the sum over its reconciled reservations |
| GuardSafety.ReconcileConserves | core/app/max_guard.py:475-517 | so does a reconciliation, for any report |
| GuardSafety.ReconcileOnce | core/app/max_guard.py:475-492 | a second report for a reservation changes nothing |
| GuardReports.ReportRaises | core/app/max_guard.py:475-517 | a first report raises each counter of its session by its own field, or by nothing if negative, requests by one, and changes nothing else |
| GuardReports.RunReports | core/app/max_guard.py:475-517 | over every run each counter rises by its own field of the first report for each of the session's reservations |
| GuardReports.CountersAreReports | core/app/max_guard.py:475-517 | from empty tables the five counters are those sums |
| GuardSafety.SessionChecked | core/app/max_guard.py:180-190 | the session sum the guard checks is the exposure of exactly that session's reservations |
| GuardSafety.CheckedCoversExposure | core/app/max_guard.py:180-223 | what is checked at transaction start bounds the exposure, at any later time, of every session, project hour and lane window the reservation falls into |
| GuardRuns.ReserveWithinAllowances | core/app/max_guard.py:145-288 | in pause mode a granted reservation keeps every exposure below its allowance |
| GuardRuns.PromptIffRaisesNone | core/app/max_guard.py:475-517 | a reconciliation raises no exposure exactly when it reports at most what the reservation still counts for |
| GuardRuns.PromptIffKeepsEveryLimit | core/app/max_guard.py:475-517 | a reconciliation keeps every upper limit on every scope that held before exactly when it is prompt |
| GuardRuns.StepKeeps | core/app/max_guard.py:145-517 | every orderly step keeps conservation and all allowances |
| GuardRuns.AllowancesHold | core/app/max_guard.py:145-288 | over every orderly run, fresh tokens plus live reservations stay below the session cap, and what is spent in any one-hour project window or lane window stays below its cap |
| GuardRuns.RunConserves | core/app/max_guard.py:475-517 | in every mode, under any interleaving and duplicates, the four counters and the request count are sums over reconciled reservations, each counted once |
| GuardRuns.LateReportsOverrun | core/app/max_guard.py:180-190 | a family of runs whose late reports take a session past its cap |
| GuardRuns.RefusalLasts | core/app/max_guard.py:237-273 | after a refusal no request of the session is granted until an operator resumes it or an override applies |
| GuardVerdicts.GrantedIff | core/app/max_guard.py:180-288 | in pause mode a request is granted exactly when it stays below the request, session, hour, five-hour and week limits, each raised by the override's extra tokens, and is not paused without one; other modes grant all |
| GuardVerdicts.AuthorizedPasses | core/app/max_guard.py:224-247 | an override's extra tokens let through exactly what fits with them, until it expires |
| GuardVerdicts.OverrideLifetime | core/app/max_guard.py:367-392 | an override is in force for its lifetime, 60 to 86400 seconds, with no negative extra tokens |
| GuardVerdicts.OperatorSets | core/app/max_guard.py:337-356 | a pause or resume is written to a known session and to nothing else |
| GuardVerdicts.WarnedIff | core/app/max_guard.py:248-268 | exactly which granted requests are warned |
| GuardVerdicts.ReasonIsTrue | core/app/max_guard.py:237-273 | the reason kept with a refusal names a limit the request exceeds, or the reason of the pause |
| GuardOverrides.PausedGrantsAreBudgeted | core/app/max_guard.py:224-278 | while a session stays paused and gets no new override, a run grants exactly as many of its requests as its overrides lose |
| GuardTables.DurableGuard.Sums | core/app/max_guard.py:180-223 | one pass computes the four sums of the specification |
| GuardTables.DurableGuard.ReserveDurable | core/app/max_guard.py:145-288 | tables, decision and reservation id are those of the reserve step |
| GuardTables.DurableGuard.ReconcileDurable | core/app/max_guard.py:475-517 | the tables are those of the reconcile step |
| GuardTables.DurableGuard.SetDurablePause | core/app/max_guard.py:337-356 | the tables are those of the pause step; reports whether the session exists |
| GuardTables.DurableGuard.CreateDurableOverride | core/app/max_guard.py:367-392 | the tables are those of the authorize step |
| GuardMemory.MaxGuard.SetPause | core/app/max_guard.py:58-62 | changes that one session's pause and nothing else |
| GuardMemory.MaxGuard.PreflightCheck | core/app/max_guard.py:64-84 | state and verdict are those of the preflight function |
| GuardMemory.MaxGuard.Reconcile | core/app/max_guard.py:86-124 | state and verdict are those of the reconcile function |
| GuardMemory.StopLatches | core/app/max_guard.py:64-124 | once either method answers stop, every later preflight is stopped until an operator clears the pause; only pause mode ever answers stop |
| GuardMemory.UncachedPrefixStops | core/app/max_guard.py:106-114 | in pause mode the uncached call that brings a prefix to the limit stops the session, whatever calls lie between |
| GuardReports.CallRaises | core/app/max_guard.py:86-102 | in process every report raises each counter by its own field |
| GuardReports.CallsAreReports | core/app/max_guard.py:86-124 | over every sequence of calls the counters are sums of the reports |
| GuardReports.PrefixCounts | core/app/max_guard.py:104-107 | a prefix's count is the number of its reports with enough fresh and no cached tokens |
| GuardVerdicts.PreflightIff | core/app/max_guard.py:64-84 | exactly when a preflight stops or warns, by what was reported so far and the estimate |
| GuardVerdicts.ReconcileIff | core/app/max_guard.py:104-124 | exactly when a report stops or warns its session |
| GuardVerdicts.OperatorSetsState | core/app/max_guard.py:58-62 | the same in process |
| StreamCapture.StreamCapture.Append | core/app/streaming.py:29-50 | the four fields are a function of the whole stream so far, for every way of cutting it into chunks |
| StreamCapture.CaptureAll | core/app/streaming.py:21-50 | any chunks leave the stream itself or the first cap bytes cut back to the last blank line |
| StreamCapture.Captured | core/app/streaming.py:35-50 | what is kept is a prefix of the stream no longer than the cap |
| StreamCapture.CapturedIsLongest | core/app/streaming.py:39-48 | of all prefixes within the cap that end at a blank line it is the longest |
| ServerEvents.IterSseEvents | core/app/streaming.py:53-81 | yields the events of the decoded text, in order |
| ServerEvents.EventsOfCompleteText | core/app/streaming.py:63-67 | text that ends a block reads as a prefix of any continuation, across runs of three or more newlines |
| ServerEvents.CapturedEventsArePrefix | core/app/streaming.py:39-81 | a capture cut at a blank line reads as a prefix of the stream's events and loses at most one event of the bytes that fitted |
| ServerEvents.SafeTruncations | core/app/streaming.py:44-48 | a truncated capture reads as a prefix of every possible stream exactly when it holds a blank line or no event |
| EventText.MessagesAreRead | core/app/streaming.py:53-81 | any messages written out as a stream are read back in order: name, data lines joined by line feeds, and the end marker |
| EventText.SentMessagesAreRead | core/app/streaming.py:53-81 | the same of the bytes sent |
| OutcomeParser.Assemble | core/app/streaming.py:137-158 | each tool call's slot is what its own pieces say in order, however calls interleave |
| OutcomeParser.SlotNames | core/app/streaming.py:140-158 | a call's name and id are those of its last parts that have one |
| OutcomeParser.PiecesAdd | core/app/streaming.py:137-158 | texts and arguments are strung together in order |
| OutcomeParser.PiecesOfMore | core/app/streaming.py:84-136 | the pieces are those of the events in order, without the end marker; an event that cannot be read leaves no outcome |
| OutcomeParser.CapturedOutcomeIsPrefix | core/app/streaming.py:84-158 | for every JSON reader, also one that raises on some payloads: when the full stream has an outcome so has the cut capture, and its text and arguments are beginnings of the full stream's |
| Drift.BaselineIsWeighted | core/app/drift.py:91-138 | for every history and mix of rates, weights none negative and 1 in all make the stored numbers the exact weighted mean and variance |
| Drift.BaselineBounds | core/app/drift.py:91-138 | the mean stays in the range of the observations, the variance between 0 and a quarter of the range squared |
| DriftEngine.Engine.Observe | core/app/drift_engine.py:129-238 | each row is the baseline of its metric's whole history, and a running cluster always has its alert open |
| DriftEngine.ConstantOutlier | core/app/drift.py:115-130 | exactly when, from a warm baseline, k equal observations in a row all count as anomalies |
| DriftEngine.ThreeInARow | core/app/drift.py:50-60 | exactly when a constant value makes three anomalies in a row from a warm baseline, with the shipped settings |
| DriftEngine.NeverTwentyThree | core/app/drift.py:56-60 | from a warm baseline no constant value counts as an anomaly 23 times in a row |
| DriftEngine.TwentyTwoHappen | core/app/drift.py:56-60 | from every warm baseline some constant value counts 22 times in a row |
| DriftEngine.StreaksAreUnbounded | core/app/drift.py:50-60 | from every warm baseline, for every k, some k observations all count, at any settings |
| DriftEngine.ReadingsDifferIff | core/app/drift.py:115-124 | the comparison with `>=` and the documented `>` differ exactly at a squared distance of nine variances |
| DriftEngine.ResolutionIsByAge | core/app/drift_engine.py:360-381 | any normal samples leave an alert open exactly when none comes more than the cooldown after its start |
| DriftEngine.OpensIff | core/app/drift_engine.py:215-232 | an alert is opened by the second anomaly in a row and by no single one |
| DriftEngine.ColdNeverFlags | core/app/drift.py:43-46 | the first nine observations never count as anomalies |
| DriftEngine.FlagsIff | core/app/drift.py:105-130 | from the tenth observation on one is an anomaly exactly at three standard deviations or more, and none before |
| DriftEngine.QuietWeights | core/app/drift.py:91-138 | without anomalies an observation weighs a twentieth, less a twentieth for each one after it |
| HashChain.VerifyChain | extensions/sb-privacy/chain.py:45-66 | accepts exactly the logs linked from the genesis value, else names the first broken row |
| HashChain.LinkTextIs | extensions/sb-privacy/chain.py:24-42 | six fields in their order, joined by bars |
| HashChain.LogIsLinked | extensions/sb-privacy/main.py:148-179 | every log the service appends is accepted |
| HashChain.LogHolds | extensions/sb-privacy/main.py:148-179 | a log holds its entries in order, each with its own fields |
| HashChain.LinkTextParses | extensions/sb-privacy/chain.py:34-42 | with only the agent name free to hold the separator, the joined text has one reading |
| HashChain.TwoFreeFieldsAreAmbiguous | extensions/sb-privacy/chain.py:34-42 | were the payload hash free to hold it too, different rows would hash alike |
| HashChain.HeadBindsLog | extensions/sb-privacy/chain.py:24-66 | accepted logs of any lengths with one head agree in all hashed fields, or a collision or a preimage of the genesis value is computed |
| HashChain.RewritingIsCaught | extensions/sb-privacy/chain.py:3-8 | rewriting one row under its old hash is rejected at that row, or exhibits a collision |
| HintCache.HintCache.Get | extensions/sb-brain/brain.py:59-73 | slots and answer are those of the LRU and TTL list; a given time of zero counts as none |
| HintCache.HintCache.Put | extensions/sb-brain/brain.py:75-83 | the slots are the newest `max` of the list; a negative maximum raises with the cache emptied |
| HintCache.HintCache.Invalidate | extensions/sb-brain/brain.py:85-88 | exactly that key leaves the list |
| HintCacheRuns.RunExplained | extensions/sb-brain/brain.py:46-91 | after any run the access order has no duplicate, is never longer than the maximum, and each slot holds its key's last put |
| HintCacheRuns.HitIsLastPut | extensions/sb-brain/brain.py:59-73 | a get hits exactly when the key is listed and its latest put is neither invalidated nor expired, and returns that put |
| HintCacheRuns.EvictedAfterMax | extensions/sb-brain/brain.py:81-83 | a key is evicted only after at least `max` distinct other keys were touched since its last touch |
| HintCacheRuns.MissExplained | extensions/sb-brain/brain.py:46-91 | a key put and not invalidated is missing only through an expired get or through `max` other keys, after that put |
| OutcomeSpool.OutcomeSpool.Append | core/app/spool.py:60-64 | adds one line and keeps conservation |
| OutcomeSpool.OutcomeSpool.Drain | core/app/spool.py:69-133 | for any number of successful writes: written then pending outcomes are the appended ones in order, each once, and each malformed line is set aside once |
| Spans.SortBySorts | core/bowden_pii/rules.py:321-324 | the sort orders by start, then length, then priority, and keeps every detection |
| Spans.OnlyLastOverlaps | core/bowden_pii/rules.py:327-328 | a candidate overlaps at most the last kept span |
| Spans.MergeReport | core/bowden_pii/rules.py:303-339 | the quadratic scan equals comparing with the last kept span, and the final sort moves nothing |
| Spans.Resolves | core/bowden_pii/rules.py:303-339 | kept spans are disjoint and ordered, each dropped one begins inside its kept one, and together they are the input |
| Spans.LongerOfTwoWinsIff | core/bowden_pii/rules.py:292-339 | of a list of just two overlapping detections, in either order, the longer is kept exactly when it starts no later; else the shorter is |
| SpanPicks.KeptIsPicked | core/bowden_pii/rules.py:303-339 | the kept spans are, kinds aside, the only ones to be had by always picking the earliest detection past the last pick and there the longest |
| SpanPicks.TieGoesToRank | core/bowden_pii/rules.py:308-324 | of detections of one span the kept one has the first kind in the order of kinds |
| SpanPicks.LongerWinsIff | core/bowden_pii/rules.py:292-339 | for any list, no detection is dropped for a shorter one exactly when none that begins within a pick is longer than it |
| SpanPicks.LongerEarlierMayLose | core/bowden_pii/rules.py:292-339 | of three, one that is longer and starts earlier than the last it overlaps is dropped, and the last kept |
| Redaction.RedactBowden | core/app/confidentiality.py:144-162 | the returned string is the text up to the first kept span, its marker with the kind in lower case, and so on from the span's end; the skip branch is never taken |
| Redaction.RedactionKeepsOutside | core/app/confidentiality.py:144-162 | besides markers it shows exactly the characters outside kept spans, in order |
| Redaction.AllHiddenIff | core/app/confidentiality.py:144-162 | for any list, every detected position is covered exactly when each detection lies within detections laid end to end, each the longest at its start, from a place no detection straddles |
| Redaction.CoveredIffPicked | core/app/confidentiality.py:144-162 | a position is covered exactly when it lies in a pick |
| Redaction.LaminarIsHidden | core/app/confidentiality.py:144-162 | a list of detections of which none crosses another leaves no detected position uncovered |
| Redaction.PairHiddenIff | core/app/confidentiality.py:144-162 | a list of just two leaves nothing uncovered exactly when neither crosses the other |
| Redaction.DroppedTailStays | core/app/confidentiality.py:150-162 | of a list of just two that cross the returned string holds all that follows the first, the second's tail included |
| Redaction.ThirdMayCoverTail | core/app/confidentiality.py:144-162 | three of which two cross may be hidden whole all the same |
| Iban.NumberIsExpansion | core/bowden_pii/rules.py:366-373 | the expanded digits write the number of the text |
| Iban.IbanMod97 | core/bowden_pii/validators.py:175-187 | the digit loop gives the remainder of the whole number at any length; other characters are refused |
| Iban.MiddleDecides | core/bowden_pii/validators.py:175-187 | a changed middle is missed exactly when 97 divides the difference |
| Iban.SubstitutionChanges | core/bowden_pii/validators.py:175-187 | one character replaced within its class always changes the remainder |
| Iban.SwapChanges | core/bowden_pii/validators.py:175-187 | two neighbours of one class swapped always change it |
| Iban.MixedSwap | core/bowden_pii/validators.py:175-187 | a digit and a letter swapped leave the remainder exactly for 1B, 2M and 3X |
| IbanText.FormatKeepsIban | core/bowden_pii/validators.py:203-205 | formatting is undone by compacting |
| IbanText.GroupedShows | core/bowden_pii/validators.py:203-205 | a space after every fourth character that another follows, and nothing else |
| IbanText.CompactShows | core/bowden_pii/validators.py:72-73 | letters as capitals and digits, in order, and nothing else |
| IbanText.MadeIbansValidate | core/bowden_pii/rules.py:358-363 | a made IBAN validates, for a two-character country exactly when the country is listed and the length is its own, for a shorter one never, for a longer one exactly when it reads as a listed country with two digits after it and 97 divides a difference that the rotation makes |
| IbanText.LongCountryMayPass | core/bowden_pii/rules.py:358-363 | a longer code may validate: a concrete one does |
| IbanText.SubstitutionCaught | core/bowden_pii/validators.py:190-200 | a valid IBAN with one character replaced within its class is invalid |
| IbanText.SwapCaught | core/bowden_pii/validators.py:190-200 | so is one with any two neighbours of one class swapped, the fourth and fifth characters included |
| IbanText.MixedSwapIff | core/bowden_pii/validators.py:190-200 | a digit and a letter that are neighbours in a valid IBAN leave it valid when swapped exactly at the fifth character or later and for 1B, 2M and 3X, in either order |
| CheckDigits.LuhnChecksum | core/bowden_pii/validators.py:216-227 | the loop from the left computes the sum defined from the right |
| CheckDigits.LuhnFromRight | core/bowden_pii/validators.py:216-227 | the last digit counts once, the one before it is doubled with its digits added, and so on in pairs |
| CheckDigits.LuhnCheckDigit | core/bowden_pii/validators.py:216-227 | every payload has exactly one check digit |
| CheckDigits.DigitsKept | core/bowden_pii/validators.py:68-69 | the digits of a text, in order, and nothing else |
| CheckDigits.LuhnCatchesDigit | core/bowden_pii/validators.py:216-227 | one wrong digit always changes the checksum |
| CheckDigits.LuhnCatchesSwap | core/bowden_pii/validators.py:216-227 | a swap of neighbours is missed exactly for equal digits and for 0 and 9 |
| CheckDigits.Ean13CheckDigit | core/bowden_pii/validators.py:76-82 | the digit is the only one that makes the weighted sum a multiple of ten |
| CheckDigits.WeightsAlternate | core/bowden_pii/validators.py:76-82 | weights one and three by turns from the left |
| CheckDigits.AhvHasCheckDigit | core/bowden_pii/validators.py:85-96 | valid exactly with thirteen digits, the prefix 756 and the check digit of the first twelve |
| CheckDigits.AhvCatchesDigit | core/bowden_pii/validators.py:85-96 | one wrong digit of a valid AHV number is always caught |
| CheckDigits.AhvSwap | core/bowden_pii/validators.py:85-96 | a swap of different neighbours is missed exactly behind the prefix and five apart |

## Left out

- HTTP, SQL text, asyncpg and advisory locks: each transaction is one atomic step; a second signer that finds the lock taken ("busy") does nothing.
- RSA, base64, hex of keys, PEM loading and the TSB call: verification is an arbitrary relation, the sidecar's reply an arbitrary value.
- The schedulers' sleep loops, clocks and randomness: times and ids are parameters; `uuid4` ids are not modelled.
- Several instances sharing the tables: one instance id, as the newest-checkpoint query assumes.
- Storage of documents as JSONB: a document is read back as written; JSONB refuses text that holds NUL.
- Deletion of receipts by cascade from routing decisions, and operators who re-queue a failed checkpoint by hand.
- The content of receipts beyond their schema and sequence: any members.
- Lone surrogates, bytes and non-string keys: one value without text stands for all of them.
- GuardRuns.AllowancesHold: states the lane windows for reserves that run one after another; reserves of different sessions and projects take no common lock in the source. The project bound is about named projects, as an empty one compares with NULL.
- GuardLedger: control receipts written by pause and override are the trail's append step and are not repeated there; the `app`, `native_session` and time columns play no part.
- Token estimation from the payload (core/app/max_guard.py:134-142): the estimate is a parameter.
- The rest of the outcome parser: usage counters, model names, the Anthropic block shape, and the final sorted list of named calls.
- StreamCapture: a negative cap, which the source never configures.
- Floating-point rounding, and the stored z-score, which needs a square root: the test is on squares.
- Drift alerts' peaks and direction, session ids, metric extraction and the investigator; compaction detection (core/app/drift.py:176-190), which is two comparisons.
- HintCache: the value is any type; time is a real number.
- OutcomeSpool: a crash between a write and the rewrite of the file (a repeated write) or between that and the append to the bad file.
- Detection patterns: detections are given, non-empty and inside the text.
- Non-ASCII digits and letters in check digits.
- UID and VAT check digits, card networks, phone numbers: tables and patterns that would add only easy members.
- Insights, bench, shadow, quality, compliance, pricing and provider health.
