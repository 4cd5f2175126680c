# Encrypted Spaces: verified models

Encrypted Spaces is an end-to-end encrypted shared database. A client keeps a
verified position in a hash-committed changelog, caches rows, and derives its
keys from a chain; a bridge process multiplexes requests over standard input
and output; a prover replays changes into a succinct proof. This project models
that logic in Dafny and proves what it promises.

- **Bridge** (`Bridge`, `BridgeReplies`, `BridgeThreads`, `Frames`): the JSONL request
  coordinator. A reader, the coordinator, one runtime worker and any number of
  waiters are interleaved action by action over shared state cells (PENDING,
  CANCELED, COMPLETING, DONE) and two FIFO channels. The right to answer a
  pending request is conserved: it is in its cell, on its way through the worker,
  or with a cancellation that won. `BridgeReplies` is about what is
  answered. `BridgeThreads.Process` is the same process as
  one object with a method per thread; `Frames` is the byte loop in front of it.
- **Changelog commitment** (`Mmr`): the Merkle mountain range over changelog
  entries, its head, and inclusion proofs. Hashes are free terms, so equal
  digests mean equal inputs.
- **Client changelog** (`Changelog`, `ChangelogRuns`, `ChangelogAnswers`,
  `ChangelogHonest`, `ChangelogForks`, `ChangelogClient`, `Interleaving`, `Signers`, `Rollbacks`): single changes, broadcasts with a deferred signature check,
  fast-forward proofs with a ragged tail, rollback and completion of local
  submissions. The client stores no log; `Represents` says which log a state
  stands for, and the theorems are about that log. `ChangelogAnswers` says when
  success is reported, `ChangelogHonest` that an honest server always brings it about. `ChangelogClient.Client` is
  the same state machine updated in place. `Interleaving` runs many tasks side by
  side; `Signers` adds signers, the mutation guard and rollbacks, and `Rollbacks`
  says which states then still stand for a log.
- **Row cache** (`Cache`, `CacheHits`, `CacheWrites`, `RowCache`): rows, secondary indexes and
  the two kinds of completeness claim, against the server tables they stand in
  for; `CacheWrites` goes from the column writes of an accepted change to the rows
  that are landed.
- **Prover overlay** (`Overlay`): reads through an overlay of earlier writes over
  an immutable tree.
- **Keys** (`Limbs`, `Mkem`, `FieldCrypto`, `KeyStore`, `KeyChain`): base-p limb
  encoding, the field one-time pad, one key for many recipients, ciphertext
  framing, row encryption, and the backward chain of group keys.
- **X-Wing script** (`Ntt`, `NttLoops`, `NttProduct`): the number-theoretic
  transform of section 4.3 of FIPS 203, its inverse, and multiplication.
- **Access rules** (`AccessRules`): translation to an SQL condition, read back by
  an independent parser and evaluated with SQL's three-valued logic.

`dafny verify dfyconfig.toml` checks everything.

## What the model takes as given

- `Mmr`: no hash collisions (leaf, initial and inner hashes are free constructors).
- `Changelog`: the per-change proof checker is a relation on entry, roots and
  position; the fast-forward verifier accepts only proofs of some log from
  genesis, in which every entry names a root at most ten changes back (`Sound`);
  signature checks, clocks and server answers are arguments.
- `ChangelogForks.BranchKeptIff`: different roots have different bytes.
- `Mkem`: a single-recipient mechanism opens what it encapsulated (`Correct`); for
  X-Wing this is proved from ML-KEM's correctness and the symmetry of
  Diffie-Hellman (`Lawful`).
- `Bridge`: the runtime answers a dispatched job once, under its own request, and
  asks for shutdown only after a shutdown request.
- `FieldCrypto` and `KeyChain`: the cipher is a key stream, base64 and UTF-8
  checks are functions with their round trips, rounding an integer to a double is
  a function, key derivation and commitments are
  functions. Random keys and nonces are arguments.

## Results that are not what one might expect

- The tail of a fast-forward checks every root step but not that the steps meet.
  `ChangelogRuns.UnlinkedTail` is a successful fast-forward that leaves an
  unlinked log, and `ChangelogRuns.LinkedIffChained` says exactly when it is
  linked.
- `sdk/src/state.rs:70-76` says the stored anchor entry is the one at the current
  position and absent only at genesis. `ChangelogRuns.StaleAnchor` is a
  fast-forward after which it is absent at position 1;
  `ChangelogRuns.AnchorFreshIff` gives the exact condition.
- `backend/acl-types/src/lib.rs:239-240` says a missing operand matches SQL's NULL.
  Under NOT it does not (`AccessRules.MissingUnderNot`). The clause selects exactly
  the rows that the rule accepts with every NOT moved down to the comparisons, so
  the two agree on a row if and only if that leaves the rule's answer as it is
  (`AccessRules.ClauseSelects`).
- For an absent user the clause binds user 0, while the rule treats the user as
  missing: the clause can select a row that the rule denies
  (`AccessRules.AbsentUserSelects`); `AccessRules.ClauseSelects` covers that case too.
- A broadcast that is applied before its signature can be checked rolls back
  without the mutation guard. A signer may have captured the position in between
  and is left above the client (`Signers.SignerLeftAbove`);
  `Signers.CapturedNeverRolledBackIff` is the exact condition over all runs.
- A fast-forward proof keeps the anchor entry where it was. It keeps the client's log
  up to the change that entry was signed on top of exactly when the client's own log
  has the root there that the entry carries (`ChangelogForks.BranchKeptIff`). The up
  to nine entries in between may be replaced
  (`ChangelogForks.ProofReplacesHistory`).
- A checked change is applied if the client is at the position it was checked at,
  also when a rollback and other changes have put another log there. The client may
  then stand for no verified log at all (`Rollbacks.StaleApply`). Over all
  interleavings it always stands for one exactly when every applied change is still
  fresh (`Rollbacks.AlwaysStandsIff`).
- Recovery from a candidate key never compares it with the commitment: on a chain
  of one key it succeeds with any candidate. Every id gets its original key exactly
  when the candidate is the newest key (`KeyChain.RecoveredHoldsIff`).
- A bucket fetch that brings a new index leaves other cached rows out of it
  (`Cache.FetchUnlists`); `Cache.StepListed` says exactly when.
- A text that reads as base64 in a numeric column is stored in the clear and taken
  for a ciphertext when read back. A column that is encrypted twice so reads back as
  the number of the first time (`FieldCrypto.EncryptedTwice`), and the empty text is
  an error (`FieldCrypto.EmptyText`). A row comes back exactly when every such text
  in it is a ciphertext with a known key whose body is no number for the column
  (`FieldCrypto.RowRoundTrip`).
- The ciphertext header names the key used exactly when the serialized key id is
  shorter than 65536 bytes (`FieldCrypto.HeaderNamesKeyIff`).
- The comment at `ffproof/src/prover.rs:77-78` says prefix and range reads see the
  snapshot only. The code merges the overlay into them; the model follows the code.

## Model

| member | source | states |
|---|---|---|
| Bridge.NextKeeps | bridge/src/protocol.rs:131-425 | Every action of every thread keeps the invariant: the right to answer each pending request is in exactly one place, the output so far is orderly, shutdown is accepted and answered last. |
| Bridge.Run | bridge/src/protocol.rs:131-591 | The state after any schedule of thread actions satisfies that invariant. |
| Bridge.AtMostOneFinalResponse | bridge/src/protocol.rs:131-305 | In no interleaving does an accepted request get two final responses. |
| Bridge.NoForeignLineWhilePending | bridge/src/protocol.rs:490-552 | From acceptance to final response, every line under the request id is that response, and the id is not accepted again, even if it was used and canceled before. |
| Bridge.AnsweredOnCleanExit | bridge/src/protocol.rs:267-304 | When the coordinator leaves because input ended or shutdown completed, every accepted request has its final response under its own id. |
| Bridge.CanceledNeverRuns | bridge/src/protocol.rs:339-385 | A request that the runtime executed is executed once and is never reported as canceled; so a canceled wait is never dispatched. |
| Bridge.CellsMoveForward | bridge/src/protocol.rs:339-411 | Along every run a state cell only moves forward: a wait that reached COMPLETING is never canceled, a canceled one never completes. |
| Bridge.ShutdownDrainsNothing | bridge/src/protocol.rs:579-591 | When the shutdown completion is handled nothing is pending, and the final drain writes no line. |
| Bridge.WaitIsCanceled | bridge/src/protocol.rs:490-552 | A concrete schedule that meets the premises of the theorems above: a wait is accepted, canceled and answered, and the bridge leaves when its input ends. |
| Bridge.RightsClaim | bridge/src/protocol.rs:339-350 | The worker's compare-and-exchange moves the right to answer from the cell into the pipe, and nothing else. |
| Bridge.RightsAccept | bridge/src/protocol.rs:214-265 | A new request brings one new right, in its cell for a wait, at the end of the pipe otherwise. |
| Bridge.AcceptKeeps | bridge/src/protocol.rs:214-265 | Accepting a request within the limit and under a free id keeps the invariant. |
| Bridge.CancelKeeps | bridge/src/protocol.rs:490-552 | A cancellation that wins answers the target and then the canceler, and keeps the invariant. |
| Bridge.CompletedKeeps | bridge/src/protocol.rs:267-287 | Handling a completion answers the front of the pipe and keeps the invariant, also when the same id has been reused. |
| Bridge.ScanKeeps | bridge/src/protocol.rs:554-577 | Canceling all waits one by one, with other threads in between, keeps the invariant. |
| Bridge.ShutdownKeeps | bridge/src/protocol.rs:209-212 | Queuing the shutdown after all waits were canceled keeps the invariant. |
| Bridge.ExecuteKeeps | bridge/src/protocol.rs:339-385 | The worker's execution of a claimed request keeps the invariant. |
| BridgeReplies.CancelReportedIff | bridge/src/protocol.rs:528-552 | In every interleaving a canceler is told that its target was canceled exactly when the line written just before is the response of a canceled request. |
| BridgeReplies.FrameAnswered | bridge/src/protocol.rs:146-266 | In every interleaving, from what was observed so far: a refused frame gets the one line that says why and changes nothing else; a call or a wait is accepted while fewer than 64 are open; a cancellation cancels a wait that nobody has claimed and is otherwise told that it did not. |
| BridgeReplies.CancelAcknowledged | bridge/src/protocol.rs:537-552 | A cancellation that wins tells its canceler so as soon as the coordinator goes on. |
| BridgeReplies.EventAnswered | bridge/src/protocol.rs:267-305 | A completion answers its own open request, the end of input starts with all open requests, an oversized frame and a read error end the bridge. |
| BridgeReplies.NeverWaitsForNothing | bridge/src/protocol.rs:267-304 | In every interleaving, once input has ended the coordinator only goes on receiving while some request is open. |
| BridgeReplies.AnsweredWasRun | bridge/src/protocol.rs:325-425 | In every interleaving a final response is an answer or a cancellation, and a call or shutdown that is answered had been executed before. |
| BridgeThreads.Process.Execute | bridge/src/protocol.rs:131-591 | Any schedule carried out on the object, thread method by thread method, ends in the state `Run` gives. |
| BridgeThreads.Process.CompareExchange | bridge/src/protocol.rs:339-350 | Succeeds exactly when the cell holds the expected value, and changes only then. |
| BridgeThreads.Process.CancelPending | bridge/src/protocol.rs:490-552 | The in-place cancellation, with all its refusals, is the action `HandleCancel`, whose answers `BridgeReplies.FrameAnswered` gives. |
| BridgeThreads.Process.AcceptRequest | bridge/src/protocol.rs:214-265 | In-place acceptance is the action `Accept`. |
| BridgeThreads.Process.OnFrame | bridge/src/protocol.rs:146-266 | In-place handling of a decoded frame is the action `HandleFrame`. |
| BridgeThreads.Process.OnCompleted | bridge/src/protocol.rs:267-287 | In-place handling of a completion is the action `HandleCompleted`. |
| BridgeThreads.Process.ReceiveEvent | bridge/src/protocol.rs:141-305 | One turn of the event loop is the action `Receive`. |
| BridgeThreads.Process.WorkerStep | bridge/src/protocol.rs:325-425 | One atomic step of the worker thread is the action `Work`. |
| Frames.Reader.ReadFrame | bridge/src/protocol.rs:666-686 | The byte loop returns the bytes up to the newline, the end of input, or "too large" exactly when 65537 bytes come without a newline, and consumes just that. |
| Frames.ReadAll | bridge/src/protocol.rs:666-686 | Frames without newlines and within the limit, written as lines, are read back as the same frames and then the end. |
| Frames.LineRead | bridge/src/protocol.rs:666-686 | A line of at most 65536 bytes before a newline, or the rest of the input, is a frame; 65537 bytes without a newline are too large. |
| Mmr.AppendHash | ffproof/changelog_core/src/mmr_tree.rs:186-214 | The carry loop over the peaks is the binary increment `PushPeak`. |
| Mmr.FoldPeaks | ffproof/changelog_core/src/mmr_tree.rs:242-249 | The loop folds the peaks from the right. |
| Mmr.FoldIsTreeHash | ffproof/changelog_core/src/mmr_tree.rs:242-249 | Folding the peaks of a log gives its Merkle tree hash as defined in section 2.1 of RFC 6962. |
| Mmr.AppendExtends | ffproof/changelog_core/src/mmr_tree.rs:318-331 | Appending to the head of a log gives the head of the longer log, and heads of logs are well formed. |
| Mmr.HeadBinds | ffproof/changelog_core/src/mmr_tree.rs:598-608 | Equal roots of logs of one length mean equal logs. |
| Mmr.PeaksCount | ffproof/changelog_core/src/mmr_tree.rs:257-262 | A log has as many peaks as its length has one bits. |
| Mmr.ProofDirections | ffproof/changelog_core/src/mmr_tree.rs:615-644 | The loop gives the left/right decisions for an index, and fails exactly when the index is out of range. |
| Mmr.VerifyWithLeafHash | ffproof/changelog_core/src/mmr_tree.rs:651-683 | The loop accepts exactly what the recursive definition accepts. |
| Mmr.InclusionSound | ffproof/changelog_core/src/mmr_tree.rs:651-683 | Whatever verifies against the head of a log is in that log at that index. |
| Mmr.InclusionIff | ffproof/changelog_core/src/mmr_tree.rs:578-683 | At each index exactly one proof and one leaf verify: the audit path and the leaf that is there. |
| Mmr.DirectionsShort | ffproof/changelog_core/src/mmr_tree.rs:615-644 | A tree of at most 2^d leaves needs at most d siblings, so the cap never rejects an honest proof. |
| Changelog.LastSignedIsLast | sdk/src/changelog.rs:1539-1542 | The per-user map holds exactly the signers, each with the position of its newest entry. |
| Changelog.LatestIsGreatest | sdk/src/changelog.rs:343-352 | The high-water mark is the greatest timestamp of the log. |
| Changelog.ApplyKeeps | sdk/src/changelog.rs:1489-1565 | Appending a record that may follow keeps commitment, position, signer map, high-water mark and root the fold of the log. |
| Changelog.ValidateAndApplyKeeps | sdk/src/changelog.rs:1370-1486 | A single change leaves the state alone or appends exactly itself, at its own id and linked to the client's root. |
| Changelog.RollbackRestores | sdk/src/changelog.rs:138-172 | Rolling back to a saved state restores every field and every discharge flag, whatever was applied in between. |
| Changelog.FailedFastForwardChangesNothing | sdk/src/changelog.rs:1953-2449 | Wherever a fast-forward fails, the state is exactly as at entry. |
| Changelog.InclusionAt | sdk/src/changelog.rs:2076-2114 | A verified inclusion proof against a proven range puts that entry at that position of the proven log. |
| Changelog.AdoptKeeps | sdk/src/changelog.rs:2001-2279 | Adopting a proof makes the state stand for the proven log, with the client's last entry at its old position and only submissions of that log discharged. |
| ChangelogRuns.TailKeeps | sdk/src/changelog.rs:2293-2403 | A tail that is not rejected appends exactly the elements that continue the position, each once and in order. |
| ChangelogRuns.FastForwardLands | sdk/src/changelog.rs:1953-2479 | A successful fast-forward ends at the server's head, not below the anchor, on the proven (or own) log plus the continuing tail, with matching prefixes. |
| ChangelogRuns.NoGap | sdk/src/changelog.rs:206-268 | A successful fast-forward had a tail element for every position up to the highest tail id: a gap is always an error. |
| ChangelogRuns.TailAccepted | sdk/src/changelog.rs:354-362 | Every tail element that is appended had been taken by the server from 5 seconds before to 100 seconds after its timestamp. |
| ChangelogRuns.SignaturesVerified | sdk/src/changelog.rs:2405-2449 | A fast-forward succeeds only when every tail signature is verified and, for each signer of the proven log, that signer's newest entry itself was supplied; a log with signers also needs those signatures verified. |
| ChangelogRuns.LinkedIffChained | sdk/src/changelog.rs:2163-2172 | After a successful fast-forward the data commitments chain exactly when the responses that continue the client's position (or the proof's end) chain from the client's root (or the proof's end root). |
| ChangelogRuns.UnlinkedTail | sdk/src/changelog.rs:2293-2403 | A concrete successful fast-forward whose log is not linked. |
| ChangelogRuns.NoReplay | sdk/src/changelog.rs:325-328 | A verified log never holds one entry at two positions. |
| ChangelogRuns.AnchorFreshIff | sdk/src/changelog.rs:2120-2155 | After a successful fast-forward the stored anchor is the entry at the position, except exactly when a proof moved the client and none of a non-empty tail continued it. |
| ChangelogRuns.StaleAnchor | sdk/src/changelog.rs:2325-2332 | A concrete successful fast-forward that leaves no anchor entry at position 1. |
| ChangelogRuns.CompletedEntryIsOnChain | sdk/src/changelog.rs:1642-1769 | A submission reported as successful and not a no-op is on the client's log: exactly that entry at the acknowledged id, however it was discharged. |
| ChangelogAnswers.SingleOutcome | sdk/src/changelog.rs:1370-1486 | A single change is appended exactly when it is next in position, starts from the client's root, is proven, continues its signer's chain, is at most 105 seconds behind and within both clock windows; the cases for a fast-forward, for a passed change and for a failed proof are exact too. |
| ChangelogAnswers.RecoveryConfirmsIff | sdk/src/changelog.rs:2176-2290 | A recovery that succeeds confirms an open submission exactly when the recovered log has its entry, by an inclusion proof or in the tail. |
| ChangelogAnswers.SubmissionSucceedsIff | sdk/src/changelog.rs:1642-1769 | A submission that is not a no-op is reported as successful exactly when it is appended, or is ahead or behind and the recovery succeeds and confirms it. |
| ChangelogAnswers.NoOpSucceedsIff | sdk/src/changelog.rs:1642-1769 | A no-op is successful exactly when it passes as the next or a passed change, or is ahead and the recovery succeeds. |
| ChangelogAnswers.SubmissionCloses | sdk/src/changelog.rs:1694-1705 | Whatever is reported, the submission is no longer open and no other is lost. |
| ChangelogAnswers.BroadcastOutcomeIff | sdk/src/changelog.rs:1171-1309 | A broadcast counts as applied exactly when its signature is right and it is the next change, and as applied with the cache invalidated exactly when it was verified afterwards or the client recovered to a later position. |
| ChangelogHonest.HonestFastForward | sdk/src/changelog.rs:1953-2479 | From a server with any verified log that has the client's anchor entry where it was, a fast-forward with or without a proof succeeds and ends exactly on that log; if the head it reports is another, the client reports that it diverged and stays where it was. |
| ChangelogRuns.RejectedBroadcastLeavesNoTrace | sdk/src/changelog.rs:1231-1257 | A broadcast whose signature fails after the apply leaves the state as it was. |
| ChangelogRuns.BroadcastKeeps | sdk/src/changelog.rs:1171-1309 | A broadcast, with deferred check, rollback or recovery, leaves a state that stands for a verified log. |
| ChangelogRuns.StepKeeps | sdk/src/changelog.rs:1171-2479 | Every operation takes a state that stands for a log to one that does. |
| ChangelogRuns.EveryRun | sdk/src/changelog.rs:1171-2479 | Along any run every state is the fold of one log of distinct, individually justified entries (head, length, newest entry per signer, greatest timestamp), and the logs follow one another as in `EveryRunMoves`. |
| ChangelogRuns.EveryRunMoves | sdk/src/changelog.rs:1171-2479 | Along any run an operation without a proof only adds to the log; one with a proof gives a log that is no shorter and has the stored anchor entry where it was. |
| ChangelogRuns.RunExtends | sdk/src/changelog.rs:1171-2479 | Between two proofs no entry is ever taken back, moved or replaced. |
| ChangelogRuns.HistoryKeptIff | sdk/src/changelog.rs:2047-2114 | All entries of the client's log are still in the new one exactly when the new log, cut at the old position, has the head the client was at. |
| ChangelogForks.BranchKeptIff | sdk/src/changelog.rs:2069-2114 | After a successful fast-forward with a proof the log up to the anchor entry's parent, at most nine entries before the anchor, is the client's own exactly when the client's log has the root there that the anchor entry carries; if the proof ends at the client's position, the whole log is kept exactly when the two heads have one root. |
| ChangelogForks.ProofReplacesHistory | ffproof/changelog_core/src/changelog.rs:1268-1279 | A concrete run: a proof leaves a third user's client at its position with the same anchor entry and another entry before it, within the parent window. |
| ChangelogClient.Client.ApplyUpdate | sdk/src/changelog.rs:1489-1565 | The in-place compare-and-swap append is `ApplyStateUpdate`. |
| ChangelogClient.Client.Validate | sdk/src/changelog.rs:1370-1486 | In-place validation of a single change is `ValidateAndApply`. |
| ChangelogClient.Client.SaveState | sdk/src/changelog.rs:138-154 | The saved snapshot holds all fields and exactly the undischarged submissions. |
| ChangelogClient.Client.RollbackTo | sdk/src/changelog.rs:156-172 | The in-place rollback, with its loop over submissions, is `Rollback`. |
| ChangelogClient.Client.AdoptProof | sdk/src/changelog.rs:2001-2279 | The in-place proof block, with its loops over expected submissions, is `ProofBlock`. |
| ChangelogClient.Client.RunTail | sdk/src/changelog.rs:2293-2403 | The loop over ragged changes is `Tail`, errors included. |
| ChangelogClient.Client.FastForwardFrom | sdk/src/changelog.rs:1953-2479 | The whole in-place fast-forward is `FastForward`. |
| ChangelogClient.Client.OnBroadcast | sdk/src/changelog.rs:1171-1309 | The in-place broadcast handler is `Broadcast`. |
| ChangelogClient.Client.Complete | sdk/src/changelog.rs:1642-1769 | Registration, completion and removal of a submission in place are `CompleteSubmitted`. |
| ChangelogClient.Client.Perform | sdk/src/changelog.rs:1171-2479 | Any operation of a run, carried out on the object, is that step of the run. |
| Interleaving.BackToBack | sdk/src/changelog.rs:1370-1486 | A snapshot directly followed by its apply is the sequential operation. |
| Interleaving.NextKeeps | sdk/src/changelog.rs:1512-1563 | Every step of any task keeps: a waiting task is behind, or everything it checked still holds. |
| Interleaving.EachIdOnce | sdk/src/changelog.rs:1512-1563 | Over every interleaving of snapshot-check-apply tasks the k-th append has change id k, and the state is the fold of what was appended. |
| Interleaving.AlwaysLinked | sdk/src/changelog.rs:1410-1452 | Over every interleaving of single-change tasks the data commitments chain. |
| Interleaving.LinkedIffMeets | sdk/src/changelog.rs:1512-1563 | Over every interleaving the data commitments chain exactly when every tail element that was appended met the root the client was at; single changes always do, whatever tails run beside them. |
| Signers.AdoptForward | sdk/src/changelog.rs:2047-2114 | Adopting a proof never moves the client back, and keeps the anchor entry where it was. |
| Signers.MoveTracks | sdk/src/changelog.rs:1961-1981 | Every move of signers, fast-forwards, broadcasts and appliers leaves state, guard and saved positions each the head of its log. |
| Signers.MoveSafeIff | sdk/src/changelog.rs:1231-1265 | One move keeps captured positions at or below the client, and below where an abort goes, exactly when it does not undo a broadcast to below one of them. |
| Signers.CapturedNeverRolledBackIff | sdk/src/changelog.rs:467-501 | Over every interleaving no captured position is ever above the client exactly when no deferred-signature broadcast is undone to below one. |
| Signers.SignerLeftAbove | sdk/src/changelog.rs:1231-1265 | A concrete run: a signer captures position 1 between the checked apply and the undo of a broadcast and is left above the client. |
| Signers.StandsIff | sdk/src/changelog.rs:480-501 | Captured roots that are heads of prefixes of one log are so of another exactly when the two have the same entries up to the highest captured position. |
| Signers.MoveRootedIff | sdk/src/changelog.rs:1961-1981 | One move keeps captured roots heads of prefixes of the log exactly when it puts no other entry below a captured position. |
| Signers.CapturedRootStaysIff | sdk/src/changelog.rs:480-501 | Over every interleaving each captured root stays the head of the client's log cut at the captured position exactly when no proof and no undone broadcast replaces an entry below one. |
| Signers.CapturedStays | sdk/src/changelog.rs:480-501 | What a signer captured is never changed by a later move. |
| Rollbacks.CommitStandsIff | sdk/src/changelog.rs:1512-1563 | A checked change that lands on the client's position leaves a state that stands for the longer log exactly when its signature reference, age, high-water mark and own last id are still those of the state. |
| Rollbacks.MoveStandsIff | sdk/src/changelog.rs:1512-1563 | One move of any task keeps the state, and every state a rollback may restore, standing for its log exactly when what it applies is still fresh. |
| Rollbacks.AlwaysStandsIff | sdk/src/changelog.rs:1231-1265 | Over every interleaving of checks, applies, proofs and rollbacks the client stands for a verified log at every moment exactly when every applied change is still fresh. |
| Rollbacks.StaleApply | sdk/src/changelog.rs:1512-1563 | A concrete run: after an undo and another user's change a waiting change is applied at the right position on the wrong log, and the client stands for no verified log. |
| Cache.InsertAgrees | sdk/src/cache.rs:489-517 | A full row written to the server and inserted here keeps rows, indexes and all claims true of the server. |
| Cache.UpdateAgrees | sdk/src/cache.rs:519-552 | A patch of a resident row keeps them true. |
| Cache.LeaveBucketsAgrees | sdk/src/cache.rs:375-389 | A patch of a row that is not here keeps them true by withdrawing claims on the destination buckets. |
| Cache.RemoveAllAgrees | sdk/src/cache.rs:554-566 | Deleting rows on both sides keeps them true. |
| Cache.PopulateFullAgrees | sdk/src/cache.rs:242-284 | A full fetch makes the table cache true of the server. |
| Cache.PopulateForValueAgrees | sdk/src/cache.rs:293-364 | Fetching a whole bucket keeps the cache true of the server, with the bucket claimed. |
| Cache.RefreshIsAuthoritative | sdk/src/cache.rs:293-364 | Even for a cache that fell behind, after a bucket refresh the bucket lists only rows just fetched. |
| Cache.PopulatePartialAgrees | sdk/src/cache.rs:439-477 | Partial rows, with the buckets they cover claimed, keep the cache true of the server. |
| Cache.LandAgrees | sdk/src/cache.rs:694-774 | Landing an accepted write keeps the cache true of the server after that write. |
| Cache.HitIsServerAnswer | sdk/src/cache.rs:128-220 | Whatever a cache that is true of the server serves is, after the caller's filter, the server's answer in id order. |
| Cache.IdHitIsServerRows | sdk/src/cache.rs:192-210 | A hit on a list of ids gives the server's row for each, in the asked order. |
| Cache.StepCoherent | sdk/src/cache.rs:242-587 | Every mirrored operation keeps all table caches true of the server. |
| Cache.EveryHitIsServerAnswer | sdk/src/cache.rs:128-774 | After any mirrored run from an empty cache, every hit is the server's answer. |
| Cache.NewIndexListedIff | sdk/src/cache.rs:310-316 | Adding indexes to a cached table keeps every row listed exactly when no resident row has an integer in a new column. |
| Cache.StepListed | sdk/src/cache.rs:242-587 | An operation keeps every resident row listed in every index exactly when it is not a bucket fetch whose new indexes leave one out. |
| Cache.FetchListedIff | sdk/src/cache.rs:293-364 | A bucket fetch keeps every row listed exactly when no row that stays and was not fetched has an integer in a newly indexed column. |
| Cache.EveryIndexIsExact | sdk/src/cache.rs:128-774 | After any mirrored run without such a fetch an index lists a row under a value exactly when the row is resident and has it. |
| Cache.FetchUnlists | sdk/src/cache.rs:310-316 | A concrete mirrored fetch that leaves a cached row out of a new index. |
| CacheHits.HitsIff | sdk/src/cache.rs:128-220 | A query is served exactly from a complete table, from a claimed bucket, or for the id of a resident row. |
| CacheHits.FullFetchServes | sdk/src/cache.rs:242-284 | After a full fetch the table is complete, its rows are the server's, and every query is served with the server's answer. |
| CacheHits.BucketFetchServes | sdk/src/cache.rs:293-364 | After a bucket fetch on an indexed column the bucket is claimed and the query for it served with the server's answer; whatever was served before still is. |
| CacheHits.PartialFetchServes | sdk/src/cache.rs:439-477 | After a partial fetch every fetched row is served by its id and, with an indexed primary key, by its value. |
| CacheHits.LandedClaimsIff | sdk/src/cache.rs:694-774 | A landed write keeps the table complete, and the claim on a bucket exactly when it moves no row into or out of it. |
| CacheHits.StaleClaimsIff | sdk/src/cache.rs:318-352 | Rows that a refresh no longer finds take with them exactly the claims on the values they had. |
| CacheHits.EveryQueryHits | sdk/src/cache.rs:128-774 | After any mirrored run that fetched a table whole and has not dropped it since, every query on it is served with the server's answer of that moment. |
| CacheWrites.AcceptedRows | backend/src/merk_storage/mod.rs:1594-1621 | The rows put together from the column writes of an accepted change are the server's own writes: each patches a row it has or is a new row with every column, and the table has one. |
| CacheWrites.AcceptedChangeLands | sdk/src/cache.rs:694-774 | Landing them keeps the cache true of the store after the column by column write. |
| CacheWrites.AcceptedMirrors | ffproof/changelog_core/src/ops/insert_op.rs:46-101 | Accepted inserts and updates, each checked after the earlier ones, are operations after which every hit is the server's answer. |
| CacheWrites.AcceptedCovers | ffproof/changelog_core/src/ops/insert_op.rs:86-101 | Whatever inserts and updates a change makes, a row that was not there gets every column. |
| RowCache.RowCache.TryQuery | sdk/src/cache.rs:128-220 | The in-place query is `Query` on the table as it was, and touches only its access time. |
| RowCache.RowCache.EvictIfNeeded | sdk/src/cache.rs:572-587 | Internal tables stay, others go least recently used first, no further than below the limit. |
| RowCache.RowCache.InsertRow | sdk/src/cache.rs:489-517 | The in-place insert, with its index loops, is `Insert`. |
| RowCache.RowCache.UpdateRow | sdk/src/cache.rs:519-552 | The loop over updates is `Update`, in any order of columns, and reports whether the row was here. |
| RowCache.RowCache.RemoveRow | sdk/src/cache.rs:554-566 | The in-place removal is `Remove`. |
| RowCache.RowCache.InvalidateDestinationBuckets | sdk/src/cache.rs:375-389 | The loop withdraws exactly the claims on the destination buckets. |
| RowCache.RowCache.PopulateFullTable | sdk/src/cache.rs:242-284 | After eviction, the in-place population is `PopulateFull`. |
| RowCache.RowCache.PopulateBucket | sdk/src/cache.rs:293-364 | After eviction, the in-place refresh, with its stale-row loop, is `PopulateForValue`. |
| RowCache.RowCache.PopulateSome | sdk/src/cache.rs:439-477 | The in-place partial population is `PopulatePartial`. |
| RowCache.RowCache.LandChange | sdk/src/cache.rs:694-774 | Deletes first, then the remaining rows: the loops are `RemoveAll` and `LandAll`. |
| RowCache.SortById | sdk/src/cache.rs:142-143 | Collecting in any order and sorting gives the one ascending order of the ids. |
| Overlay.PrefixSuccessor | ffproof/tracer/shared/src/lib.rs:133-143 | The loop gives the successor of a prefix. |
| Overlay.PrefixIsRange | ffproof/tracer/shared/src/lib.rs:133-143 | A key has the prefix exactly if it lies between the prefix and its successor, if there is one. |
| Overlay.CollectRangeReads | ffproof/tracer/shared/src/lib.rs:152-202 | The pruned traversal of a search tree returns exactly the pairs in the range, once each and in key order. |
| Overlay.LookupStored | ffproof/src/prover.rs:126-151 | Key lookup in the tree finds exactly the stored value. |
| Overlay.ReadUnique | ffproof/src/prover.rs:36-63 | A range read has only one answer. |
| Overlay.ThroughIsWritten | ffproof/src/prover.rs:200-216 | The snapshot seen through the noted writes is the tree with the writes applied in order. |
| Overlay.ApplyOverlayToRange | ffproof/src/prover.rs:36-63 | Merging the overlay into a range read of the snapshot gives the range read of the written tree: sorted, without duplicates or deleted keys. |
| Overlay.Extractor.Resolve | ffproof/src/prover.rs:114-184 | A key, prefix or range read through the overlay gets the written tree's answer. |
| Overlay.Extractor.Extract | ffproof/src/prover.rs:92-228 | Every read of every operation in a batch gets the answer of the tree with all writes of earlier operations, and the steps come out in order. |
| Limbs.DecodeBytes | crypto/src/algebraic_encoding.rs:202-226 | The division loop, with its early stop, accepts exactly 32-byte integers below p^8 and gives their limbs. |
| Limbs.EncodeLimbs | crypto/src/key_material.rs:170-195 | The accumulator loop writes the limbs' integer as 32 bytes. |
| Limbs.DecodeEncode | crypto/src/key_material.rs:170-195 | Eight limbs written as bytes read back as the same limbs. |
| Limbs.EncodeDecode | crypto/src/algebraic_encoding.rs:202-226 | Accepted bytes are written back as they were. |
| Limbs.DecodeInjective | crypto/src/key_derivation.rs:60-80 | Distinct canonical byte strings, keys or tags, have distinct limbs. |
| Limbs.CapacityFits | crypto/src/key_material.rs:170-195 | p^8 is at most 256^32, so eight limbs always fit 32 bytes. |
| Limbs.ClampLaws | crypto/src/key_material.rs:36-45 | Clamping reduces modulo p^8, always gives a canonical key, is idempotent, and changes exactly the non-canonical bytes. |
| Limbs.LimbWeights | crypto/src/algebraic_encoding.rs:202-226 | The limbs of a key are the weights of p^0 to p^7 in its integer. |
| Limbs.LeastFirst | crypto/src/key_material.rs:170-195 | The first byte or limb is the least significant one. |
| Limbs.TagLimbs | crypto/src/key_derivation.rs:48-80 | A tag is between 1 and p^8 - 1 and its limbs are not all zero. |
| Limbs.TagFromHash | crypto/src/key_derivation.rs:36-46 | The loop returns the first hash output that reduces to a valid tag: no earlier one does. |
| Limbs.AddAssign | crypto/src/algebraic_encoding.rs:36-45 | The in-place loop adds limb by limb in the field. |
| Limbs.LimbArithmetic | crypto/src/algebraic_encoding.rs:36-56 | Limb by limb, sum and difference are those of the integers modulo 2130706433. |
| Limbs.SubAssign | crypto/src/algebraic_encoding.rs:47-56 | The in-place loop subtracts limb by limb in the field. |
| Limbs.PadRoundTrip | crypto/src/key_material.rs:468-478 | Decryption undoes encryption and encryption undoes decryption, for all canonical keys and messages. |
| Limbs.PadInjective | crypto/src/key_material.rs:468-471 | For one message, different keys give different ciphertexts. |
| Mkem.Encaps | crypto/src/pke.rs:133-146 | The loop gives each recipient its mechanism's ciphertext and the key under its shared key. |
| Mkem.EveryRecipientGetsTheKey | crypto/src/pke.rs:133-155 | With a correct mechanism every recipient's decapsulation of the ciphertext at its own index gives the one key, and an index beyond gives nothing. |
| Mkem.OpensIff | crypto/src/pke.rs:152-155 | A pad opens to its key for exactly those whose decapsulation of the ciphertext finds the shared key. |
| Mkem.XWingCorrect | crypto/src/pke/xwing.rs:347-445 | X-Wing is a correct mechanism whose shared keys are canonical. |
| Mkem.XWingHashes | crypto/src/pke/xwing.rs:311-445 | On either side the shared key is the clamped digest of the hash of both shared secrets, the ephemeral key, the recipient's key and the label, in this order. |
| Mkem.EncapsShared | crypto/src/pke/xwing.rs:565-619 | The loop with one ephemeral key for all recipients computes each recipient's ciphertext. |
| Mkem.SharedIsPlain | crypto/src/pke/xwing.rs:565-619 | A ciphertext with the common ephemeral key is the plain one with that key as half of the randomness. |
| Mkem.SharedDecapsIsPlain | crypto/src/pke/xwing.rs:625-652 | Opening it is opening the plain one. |
| Mkem.EverySharedRecipientGetsTheKey | crypto/src/pke/xwing.rs:565-652 | Every recipient of the shared form opens its own ciphertext to the one key, and all carry the same ephemeral key. |
| FieldCrypto.StreamTwice | crypto/src/encryption.rs:73-75 | Applying the key stream twice gives the data back. |
| FieldCrypto.CiphertextBytes | crypto/src/encryption.rs:69-86 | A ciphertext is version 2, the length of the key id, the key id, the nonce, and the plaintext with the cipher's key stream for this key and nonce over it, bit by bit. |
| FieldCrypto.DecryptsToIff | crypto/src/encryption.rs:69-116 | Another key gives the plaintext exactly when its key stream under the nonce is the same on every byte of it. |
| FieldCrypto.BigEndianBytes | crypto/src/encryption.rs:147-149 | An integer is its eight bytes in two's complement, most significant first. |
| FieldCrypto.SealedIsEncrypted | crypto/src/encryption.rs:136-172 | A value is left as it is exactly when its column does not encrypt it; otherwise it becomes the base64 of a ciphertext under the key, of bytes that stand for it. |
| FieldCrypto.FieldRoundTrip | crypto/src/encryption.rs:69-116 | Decrypting an encrypted field gives the plaintext, for key ids shorter than 65536 bytes. |
| FieldCrypto.HeaderNamesKeyIff | crypto/src/encryption.rs:119-132 | The header yields the key id used exactly when it is shorter than 65536 bytes. |
| FieldCrypto.OpenSealedIff | crypto/src/encryption.rs:136-239 | Any JSON value, sealed and opened, comes back (booleans as 0 or 1, an integer in a real column as the nearest double) exactly when it is not a text that the column leaves in the clear and that reads as base64, or that base64 is a ciphertext with a known key whose body has no length, or no finite value, for the column. |
| FieldCrypto.StrayText | crypto/src/encryption.rs:136-239 | Such a text is left in the clear, and reads back as an error for a bad header or an unknown key, as a number, or as itself, each in exactly one case. |
| FieldCrypto.EncryptedTwice | sdk/src/crypto.rs:50-109 | An integer column that is encrypted twice keeps the first ciphertext and reads back as the number. |
| FieldCrypto.EmptyText | crypto/src/encryption.rs:136-239 | The base64 of nothing in a numeric column cannot be read back. |
| FieldCrypto.DecryptsIff | crypto/src/encryption.rs:91-132 | Data decrypts, under any key, exactly when its header is readable, and the body is what the header leaves. |
| FieldCrypto.SealedColumns | crypto/src/encryption.rs:136-172 | Encrypting a row changes only the named columns, each to its own sealed value. |
| FieldCrypto.OpenedColumns | crypto/src/encryption.rs:179-239 | Decrypting a row succeeds exactly when every named column opens, and then each is what it opens to. |
| FieldCrypto.RowRoundTrip | crypto/src/encryption.rs:136-239 | Encrypting then decrypting a row of any JSON values with distinct columns gives the row back, encrypted columns normalised, exactly when every named column meets the condition of `OpenSealedIff`; other columns are untouched throughout. |
| FieldCrypto.Record.EncryptFields | crypto/src/encryption.rs:136-172 | The in-place loop over columns is `SealFirst`. |
| FieldCrypto.Record.DecryptFields | crypto/src/encryption.rs:179-239 | The in-place loop over columns is `OpenFirst`, stopping at the first error. |
| KeyStore.NewestWins | key_manager/src/operation.rs:104-115 | A read is answered by the newest write of the key, or else by the base. |
| KeyStore.Scan | key_manager/src/operation.rs:202-212 | The backward scan finds exactly the newest write, and nothing else. |
| KeyStore.CollectingBuilder.Get | key_manager/src/operation.rs:104-115 | Reads see the base with the pending writes on top. |
| KeyStore.CollectingBuilder.Put | key_manager/src/operation.rs:117-121 | A put is a map update to readers. |
| KeyStore.SamePutsSameReads | key_manager/src/operation.rs:158-169 | After the same puts the write-log builder and the map builder answer every read alike. |
| KeyChain.NamesDistinct | key_manager/src/no_retention.rs:247-262 | No two storage entries share a name. |
| KeyChain.RotatedChain | key_manager/src/no_retention.rs:118-140 | Generating a new key extends the stored chain by exactly that key. |
| KeyChain.OpensUnderParentIff | key_manager/src/no_retention.rs:265-295 | A sealed key is encrypted under the chain key of its parent, and another key opens it exactly when the two chain keys have the same key stream on its 32 bytes. |
| KeyChain.StoredUnderNext | key_manager/src/no_retention.rs:273-284 | On a chain every key but the last is stored under the chain key of the next. |
| KeyChain.RotationSeals | key_manager/src/no_retention.rs:118-140 | Generating a key stores its commitment, the next id, and the old root so that the new key opens it and another key exactly when its chain key has the same key stream there. |
| KeyChain.WalkFindsKey | key_manager/src/no_retention.rs:297-324 | From the newest key the backward walk finds the original key at every earlier id. |
| KeyChain.KeyForIsOriginal | key_manager/src/no_retention.rs:86-106 | A holder gets the original key for every id up to the current one and an error beyond, whatever is cached. |
| KeyChain.ReducedStillHolds | key_manager/src/no_retention.rs:171-178 | Dropping cached keys changes no answer. |
| KeyChain.SpaceKey.Create | key_manager/src/no_retention.rs:48-66 | A new space key starts a chain of one. |
| KeyChain.SpaceKey.Resolve | key_manager/src/no_retention.rs:297-324 | The loop is the backward walk, errors included. |
| KeyChain.SpaceKey.DataKey | key_manager/src/no_retention.rs:86-106 | The data key is derived from the key the holder gets for the id. |
| KeyChain.SpaceKey.GenerateGroupKey | key_manager/src/no_retention.rs:118-140 | The three puts take storage to `Rotated`, or nothing is written on a bad counter. |
| KeyChain.SpaceKey.ApplyNewGroupKey | key_manager/src/no_retention.rs:142-162 | Succeeds exactly when the commitment at the current id matches, and changes root and cache only then. |
| KeyChain.SpaceKey.Rotate | key_manager/src/no_retention.rs:118-162 | Any number of generate-then-apply rounds succeed, and the holder holds the chain of all keys so far. |
| KeyChain.SpaceKey.Recover | key_manager/src/no_retention.rs:202-217 | With any candidate: the root becomes it, the cache becomes exactly the keys it opens walking back, and it succeeds exactly when the walk reaches id 0; only an unreadable counter changes nothing. |
| KeyChain.RecoveredHoldsIff | key_manager/src/no_retention.rs:202-217 | On a chain, after recovery every id gets its original key exactly when the candidate is the newest key, and the client then holds all keys; on a chain of one recovery always succeeds; the commitment tells a wrong candidate unless it commits alike. |
| KeyChain.SpaceKey.SyncGroupKey | key_manager/src/no_retention.rs:180-200 | Asks for a delivery exactly when a commitment is stored and the root does not match it. |
| Ntt.HalfTurn | scripts/xwing_test_vectors.py:148-161 | 17 to the 128th power is -1 modulo 3329. |
| Ntt.ReversedMirror | scripts/xwing_test_vectors.py:129-130 | The bit reversals of mirrored nodes of one layer add up to 128. |
| Ntt.MirrorFactor | scripts/xwing_test_vectors.py:163-176 | The factor the inverse uses for a block is minus the inverse of the forward one. |
| Ntt.ButterflyUndone | scripts/xwing_test_vectors.py:148-176 | The inverse butterfly undoes the forward one. |
| Ntt.InverseOfTransform | scripts/xwing_test_vectors.py:148-176 | The inverse transform undoes the transform, block by block, for all coefficients. |
| Ntt.TransformOfInverse | scripts/xwing_test_vectors.py:148-176 | The transform undoes the inverse transform. |
| Ntt.LayerStep | scripts/xwing_test_vectors.py:148-161 | One layer over all blocks is one step of every block's transform. |
| Ntt.InverseLayerStep | scripts/xwing_test_vectors.py:163-176 | One inverse layer, with its descending factors, joins all blocks in pairs. |
| NttLoops.Forward | scripts/xwing_test_vectors.py:148-161 | The three nested in-place loops compute the transform. |
| NttLoops.Backward | scripts/xwing_test_vectors.py:163-176 | The three nested in-place loops compute the inverse transform. |
| NttLoops.RoundTrips | scripts/xwing_test_vectors.py:148-176 | The two transforms that the loops compute undo each other on all 256 coefficients, in either order. |
| NttProduct.FoldProduct | scripts/xwing_test_vectors.py:178-188 | Taking remainders modulo X^m - z is multiplicative. |
| NttProduct.ZetaSquared | scripts/xwing_test_vectors.py:148-161 | Each node's factor is a square root of the constant of its modulus. |
| NttProduct.LeafWeight | scripts/xwing_test_vectors.py:178-188 | The power used for the i-th pair is the constant of the i-th leaf's modulus. |
| NttProduct.TransformProduct | scripts/xwing_test_vectors.py:148-188 | The transform of a product is the pairwise product of the transforms. |
| NttProduct.MultiplicationTheorem | scripts/xwing_test_vectors.py:148-188 | Transform, multiply pairwise, transform back: the product modulo X^256 + 1 and 3329, for all polynomials. |
| NttProduct.MulNtt | scripts/xwing_test_vectors.py:178-188 | The loop over pairs computes the pairwise product. |
| AccessRules.FailsIffSelf | backend/src/access_control.rs:97-118 | Translation fails exactly when a self-row column occurs. |
| AccessRules.ParsesBack | backend/src/access_control.rs:48-95 | The translated tokens parse, with SQL precedences, to the rule's shape. |
| AccessRules.ClauseIsRule | backend/src/access_control.rs:48-118 | The clause parses to the rule with the user id in its place, using each parameter once, left to right, none left over. |
| AccessRules.ClauseSelects | backend/src/access_control.rs:48-118 | For every rule, user and row the clause selects exactly what the rule with NOT moved down accepts for the bound user, and agrees with the rule if and only if that leaves its answer as it is; for a present user a selected row is accepted, and both agree when all columns are present or there is no NOT. |
| AccessRules.SelectIsPushed | backend/acl-types/src/lib.rs:219-261 | SQL's answer is True exactly when the rule with NOT moved down accepts, False exactly when its pushed negation does. |
| AccessRules.Comparisons | backend/acl-types/src/lib.rs:225-243 | What the six operators mean on integers, for the rule and for SQL alike. |
| AccessRules.PushedBelow | backend/acl-types/src/lib.rs:219-261 | Moving NOT down never accepts more, and changes nothing when every operand is there or there is no NOT. |
| AccessRules.AbsentUser | backend/src/access_control.rs:103-106 | An absent user's clause is that of user 0; the rule's own answer is that for user 0 when the user does not occur, and without NOT accepts no more. |
| AccessRules.AbsentUserSelects | backend/src/access_control.rs:103-106 | A concrete row that an absent user's clause selects and the rule denies. |
| AccessRules.MissingUnderNot | backend/acl-types/src/lib.rs:219-261 | A concrete rule and row, with a missing column under NOT, that the rule accepts and SQL does not select. |
| AccessRules.Combine | backend/src/access_control.rs:180-211 | The combination accepts exactly when every relevant stored rule does; it is absent exactly when there is none, an error exactly when one cannot be read. |

## Left out

- Bridge.AnsweredOnCleanExit: says nothing about exits on an oversized frame, a read error or a failed write, which the model has but which may leave requests unanswered.
- Interleaving.EachIdOnce: is about runs without rollbacks; a rollback beside other tasks may undo their appends. Rollbacks are in `Signers` and `Rollbacks`.
- Interleaving.AlwaysLinked: leaves out tail tasks, whose roots are not compared with the client's; `Interleaving.LinkedIffMeets` has them.
- Cache.EveryHitIsServerAnswer: takes exact fetches and no row both deleted and written by one change.
- CacheWrites.AcceptedRows: inserts and updates of one table; list operations write existing rows as updates do; operations on internal tables (invitations, removals, key changes) are not modelled.
- FieldCrypto.RowRoundTrip: floats are their eight bytes; integers range over what a JSON number holds, from -2^63 to 2^64 - 1.
- Signers.CapturedRootStaysIff: a signer also reads its own last change id, which is not followed here.
- FieldCrypto.StrayText: a key id that does not deserialize counts as an unknown key here; the source reports it as an invalid ciphertext.
- Mkem.EverySharedRecipientGetsTheKey: the X25519 form; the Ristretto form has the same shape.
- Bounded channels (128 events, 64 jobs) of the bridge are unbounded queues here; deadlock freedom and liveness are not claimed, and a panic of the worker is not modelled.
- JSON decoding of bridge requests and encoding of responses: a frame is already a request, a cancellation or malformed.
- Overflow of 32-bit change ids: positions are natural numbers.
- Retry budgets, sleeps and cache clearing inside recovery: a recovery is one fast-forward from the client's own position, or no answer.
- Production of inclusion proofs from cached subtree roots: proofs are checked, and the honest path is defined.
- Join queries of the cache, decryption of landed rows and schema lookup; a change that cannot be decoded drops the table.
- Pruned tree nodes, hash checks during traversal and failing operations in the prover, which end with an error.
- Failing key-store readers, retention proofs and delivery of group keys.
- ML-KEM, X25519, hashes, Poseidon2, HKDF, AES, signatures and zero-knowledge proving: arguments of the model.
- Coefficient compression, sampling and the test-vector driver of the script: small finite cases.
- Schema parsing, the SDK's query builder, transports, demos and tooling: shape conversion that would only add easy members.
