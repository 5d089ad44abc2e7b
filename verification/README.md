# Looseberry: a verified model of the DAG mempool

Looseberry is a mempool in the style of Narwhal.  Workers cut pending transactions into batches and
broadcast them; peers store and acknowledge them; primaries put acknowledged batch digests into
signed headers that cite a quorum of certificates of the previous round; a quorum of votes turns a
header into a certificate; certificates form a DAG that consensus reaps in a canonical order; old
rounds are garbage collected and what was never committed is recovered.

This project models that pipeline in Dafny and proves what it keeps.  Each core file has a
specification module (state as values, operations as functions or relations, theorems over whole
runs) and, where the code updates objects in place, classes whose methods carry the code's loops and
are proved equal to the specification.

| modules | part of the system |
|---|---|
| `Types`, `Lists`, `Quorum`, `Signers` | the values exchanged, small facts about sequences and sets, quorum arithmetic, signer masks |
| `History`, `Dag`, `Staleness`, `Shape`, `Ordering`, `DagImpl` | the certificate DAG, its shape, its history cache with and without writes that bypass it, pruning and canonical order |
| `Reap` | reaping certified batches within a byte budget |
| `Orphans`, `Confluence`, `Admission`, `Delivery` | certificates that arrive before their parents, and those that do not verify |
| `Sync`, `SyncImpl` | catching up from a peer |
| `Fetcher`, `Wakeups`, `Retries` | headers waiting for batches, when they wait in vain, and whom they ask how often |
| `Votes`, `Voting`, `Tally`, `DoubleVotes`, `VotingImpl` | collecting votes into certificates, which votes count, and who is accused of voting twice |
| `CertStore`, `Rounds`, `RoundsImpl` | certificates by round, round advance, parents, headers |
| `Acks`, `Protocol`, `Availability`, `Provenance`, `Simulation` | acknowledgments, data availability across all validators with and without deletions, where headers come from, and the programs as steps of that protocol |
| `Heap`, `Worker`, `Selection`, `WorkerImpl` | the priority queue, the transaction pool, and which transactions are cut |
| `TxIndex`, `BatchStore`, `LevelDb` | the transaction index and the two batch stores |
| `Gc`, `GcImpl` | garbage collection and transaction recovery |

## What is assumed

- Digests identify what they are digests of.  A signature verifies only under the key of the
  validator that made it (`Sig` records who signed what); nobody forges a correct validator's.
- Theorems about the history cache and about deliveries take certificates from a fixed universe in
  which parents lie in lower rounds; those about deliveries also take one certificate per round and
  author.  `Shape` assumes neither.
- Each handler is one atomic step; a timeout is a step that may happen at any time with any set of
  expired entries.  Clocks, random nonces, fresh header digests and the application's priorities are
  parameters.
- Writes to stores succeed unless the step says otherwise (a worker's failed save is modelled).
- Rounds, counters and byte totals are unbounded integers, except in `LevelDb`, where rounds are
  64-bit and digests 256-bit numbers, and in `Signers`, where words are 64-bit vectors and indices
  16-bit.  Elsewhere validator indices are naturals.  The set of validators is fixed.
- Garbage collection may delete batches at any time: the fetcher and the protocol between validators
  both have deletion steps.

## Where the code does not meet what one might expect

Each of these is proved as an exact condition, most with a concrete or general witness.

- Adding a certificate under a digest that is already indexed breaks the agreement of the two views
  (`Dag.AddKeepsAgreementIff`, `Dag.SharedDigestBreaksAgreement`).
- The primary writes to the store the DAG reads.  A query then answers with an old list if and only
  if such a write has made a digest resolvable that the cached history cites
  (`Staleness.AnswerIsFreshIff`, `Staleness.StaleAnswer`).
- The handler goes on when verification fails, so certificates that do not verify can be indexed
  (`Admission.AdmitsOnlyGoodIff`, `Admission.UnverifiedIsIndexed`).
- Parents are looked up only above round 0, so the graph is closed under parents and free of cycles
  exactly when round-0 certificates do not spoil it (`Shape.ClosedIff`, `Shape.AcyclicIff`); two that
  cite each other do (`Shape.RoundZeroCycle`).
- Orphan replay: the primary stores a certificate before the DAG takes it, so a certificate can be
  added over a parent that is only stored.  All orders of a set end in the same DAG if and only if
  every certificate delivered with its parents is delivered with all its ancestors
  (`Confluence.ConfluentIff`; two certificates that fail it: `Orphans.OpenSetsDiverge`).  A redelivered
  orphan can stay in the buffer for good (`Orphans.LeakIff`, `Orphans.RedeliveryLeaks`); a refused
  delivery, or a locally formed certificate, can leave an addable orphan behind
  (`Orphans.LeftBehindIff`, `Orphans.OrphanLeftBehind`, `Orphans.FormedLeavesBehindIff`,
  `Orphans.FormedLeavesOrphan`).
- Two quorums are sure to share a correct validator only when n = 3f + 1 (`Quorum.ShareCorrectIff`).
- `HasVoteFrom` is wrong about voters with an index of 256 or more (`Signers.MaskIsExactIff`).
- A quorum of genuine votes does not always make a certificate: early votes that were cleaned up and
  votes after the header timed out do not count (`Tally.CertifiedIff`, `Tally.LateVotesDoNotCount`).
  The votes of a header that timed out stay on record for good (`Tally.TimedOutVotesStay`).
  `RecordVote`'s comment promises detection of votes for conflicting headers; the code records two
  different signatures over the same header.
- A batch whose acknowledgments time out never becomes ready (`Acks.ReadyIff`, `Acks.ExpiredStrands`).
- A batch stored without telling the fetcher, as sync does, can strand a header, at once or at a later
  delivery (`Wakeups.StrandedIff`, `Wakeups.StrandedByDelivery`).
  A header can be handed on as ready although a batch it cites has been deleted since it was tracked
  (`Fetcher.ReadyHoldsAllIff`, `Fetcher.ReadyWithoutBatch`).
- Sync does not move off round 0 with responses of one round (`Sync.ResponseAdvancesIff`), and never
  crosses a gap of empty rounds wider than a response (`Sync.RepeatedSyncConvergesIff`); the retry
  delay is capped only if the initial delay is (`SyncImpl.BackoffCappedIff`).
- A batch saved at a round the recovery scan has passed is deleted without its transactions being
  recovered (`Gc.RecoveredIffTimely`, `Gc.LateBatchIsLost`).  The worker pool's round is never set when
  the parts are wired together, so batches are saved at round 0: every collection deletes all of them,
  and none is recovered once round 0 has been collected (`Gc.RoundZeroCollects`).
- The scan looks only at certificates of the batch's own round, so a batch that only certificates of
  other rounds cite is recovered and batched again (`Gc.CitedElsewhereIff`,
  `Gc.CitedBatchIsRecovered`).
- A range query reloads stored certificates of rounds that are closed in memory
  (`Dag.RangeCertsAreIndexed`), and a refused certificate of such a round hides them
  (`Dag.RefusalHidesStored`).
- With deletions, an author may sign a header without holding its batches, so fewer than f + 1 correct
  signers of a certificate may have held them (`Availability.EnoughHoldersIff`), even none
  (`Availability.NoHolders`).

## Model

| member | source | states |
|---|---|---|
| Quorum.CorrectMembers | types/validator.go:82-89 | a quorum contains at least f + 1 correct validators |
| Quorum.CorrectSuffice | types/validator.go:82-89 | the n - f correct validators always make a quorum |
| Quorum.QuorumsOverlap | types/certificate.go:70-74 | any two quorums overlap in at least 4f + 2 - n validators |
| Quorum.OverlapIsTight | types/validator.go:82-89 | for every n > 0 that overlap is attained |
| Quorum.ShareCorrect | types/validator.go:82-89 | for n = 3f + 1 two quorums share f + 1 validators, one of them correct |
| Quorum.ShareCorrectIff | types/validator.go:82-89 | two quorums are sure to share a correct validator if and only if n = 3f + 1 |
| Signers.Set | types/certificate.go:147-153 | shifts, ors in place, and drops a bit past the last word: the array is as `WithBit` says |
| Signers.SetIsLocal | types/certificate.go:147-153 | a bit is set afterwards if and only if it was or it is the given one and has a word |
| Signers.SetCounts | types/certificate.go:147-153 | the number of one bits grows by one exactly when the bit was clear and has a word |
| Signers.SignerMask | types/certificate.go:30-34 | the loop over the signers builds the specified 256-bit mask |
| Signers.MaskSays | types/certificate.go:30-34 | the mask holds exactly the signers with an index below 256 |
| Signers.MaskCounts | types/certificate.go:30-34 | it has as many one bits as there are different signers with an index below 256 |
| Signers.MaskIsExactIff | types/certificate.go:77-79 | reading voters off the mask is right for everyone if and only if no voter has an index of 256 or more |
| Signers.ClearLowest | types/certificate.go:195 | `x & (x - 1)` has exactly one one bit less than x |
| Signers.PopCount | types/certificate.go:191-199 | clearing the lowest bit until none is left counts the one bits |
| Signers.Count | types/certificate.go:175-181 | the sum over words is the number of one bits |
| History.WithinIsPath | dag/dag.go:446-476 | distance at most k is the existence of a parent path of at most k steps |
| History.HistoryIsBall | dag/dag.go:446-476 | the traversal returns exactly the certificates at resolvable distance below the limit, once each, nearest first, starting with its argument |
| History.NewDigestChangesHistoryIff | dag/dag.go:446-476 | making a digest resolvable changes what a fresh traversal returns if and only if a member one level short of the limit cites it |
| Dag.AddKeepsAgreementIff | dag/dag.go:123-180 | an accepted certificate keeps index and rounds in agreement if and only if its digest was not indexed |
| Dag.SharedDigestBreaksAgreement | dag/dag.go:123-180 | two round-0 certificates of different authors under one digest are both accepted, and then the views disagree |
| Dag.RejectKeepsAgreement | dag/dag.go:123-180 | a rejected certificate leaves the index as it was and the views in agreement |
| Dag.PruneRoundExact | dag/dag.go:528-547 | pruning a round removes exactly its certificates from both views |
| Dag.PruneBeforeExact | dag/dag.go:550-570 | pruning keeps exactly the certificates and rounds not below the given one |
| Dag.HistoryUnaffected | dag/dag.go:207-246 | a history with no member above the new certificate's round does not change |
| Dag.AddKeepsCacheExact | dag/dag.go:207-246 | partial invalidation drops every cached history that the new certificate changes |
| Dag.RunKeepsInv | dag/dag.go:123-246 | over all runs of adds, queries, prunes and collections the views agree, the highest round bounds them, and the key list enumerates an exact cache within its size |
| Dag.CacheIsTransparent | dag/dag.go:431-498 | after any run a query returns what a fresh traversal returns |
| Dag.CachedSurvivesIff | dag/dag.go:207-246 | in every run an accepted certificate drops exactly the cached histories of certificates of higher rounds |
| Dag.QueryEvicts | dag/dag.go:478-498 | in every run a query that misses the cache keeps all lists while there is room and otherwise drops the oldest tenth, but at least one |
| Staleness.AnswerIsFreshIff | dag/dag.go:431-498 | after any run of the DAG's operations and the primary's store writes, a query answers with what a fresh traversal returns if and only if no write since the list was cached has made a digest resolvable that the history cites one level short of the limit |
| Staleness.StaleAnswer | looseberry.go:1375-1382 | adds, a collection, a query and a redelivery after which the query still answers without a certificate that a fresh traversal finds |
| Dag.InsertionRanksParents | dag/dag.go:123-198 | without pruning every certificate above round 0 was accepted after all it cites, and the index holds exactly the accepted digests |
| Shape.ClosedIff | dag/dag.go:123-198 | after any adds the index is closed under parents if and only if what its round-0 certificates cite is indexed |
| Shape.CyclesPassRoundZero | dag/dag.go:123-198 | with distinct digests every cycle leaves a round-0 certificate |
| Shape.AcyclicIff | dag/dag.go:123-198 | with distinct digests the graph is acyclic if and only if no round-0 certificate cites one that descends from it |
| Shape.GenesisWithoutParents | dag/dag.go:147-154 | when round-0 certificates cite nothing the graph is closed and acyclic |
| Shape.RoundZeroCycle | dag/dag.go:147-154 | two round-0 certificates that cite each other are both accepted |
| Dag.RangeCertsAre | dag/dag.go:312-338 | a range query sees exactly the indexed certificates of the range and the stored ones of rounds closed in memory |
| Dag.RefusalHidesStored | dag/dag.go:123-143 | a refused certificate opens its round, which hides the stored certificates of a round closed in memory, and changes no other round |
| Dag.RangeCertsAreIndexed | dag/dag.go:312-338 | it sees just the index if and only if the store holds nothing of a closed round in the range; the index has one certificate per round and author |
| Ordering.SortedIsUnique | dag/dag.go:502-524 | a set with one certificate per round and author has a single canonical order |
| Ordering.SortByAuthor | dag/dag.go:512-519 | sorting by author keeps the certificates and orders them |
| DagImpl.DAG.constructor | dag/dag.go:110-119 | a new DAG is empty |
| DagImpl.DAG.GetCertificate | dag/dag.go:259-274 | looks in the index, then in the store |
| DagImpl.DAG.AddCertificate | dag/dag.go:123-180 | slot, parents and insertion, equal to the specification in result and new state |
| DagImpl.DAG.HasAll | dag/dag.go:183-198 | true if and only if every reference resolves |
| DagImpl.DAG.InvalidateHistoryCacheFor | dag/dag.go:207-246 | removes exactly the entries with a member above the round, from cache and key list |
| DagImpl.DAG.CausalHistory | dag/dag.go:431-498 | the cached or traversed history, with eviction of the oldest keys |
| DagImpl.DAG.Traverse | dag/dag.go:446-476 | the level-by-level loop computes the specified traversal |
| DagImpl.DAG.PruneRound | dag/dag.go:528-547 | the whole new state after pruning one round |
| DagImpl.DAG.PruneRoundsBefore | dag/dag.go:550-570 | the whole new state after pruning all lower rounds |
| DagImpl.DAG.GetCertificatesForRound | dag/dag.go:312-338 | exactly the round's certificates, once each, from memory or else the store |
| DagImpl.DAG.GetOrderedCertificates | dag/dag.go:502-524 | exactly the range's certificates, once each, in (round, author) order |
| Reap.BatchSize | types/batch.go:81-87 | the byte size of a batch is the sum over its transactions |
| Reap.AvailableMeaning | looseberry.go:887-918 | every cited and stored batch is listed once, with its first citing certificate, in order of first citation |
| Reap.CitationsInOrder | looseberry.go:887-918 | every reference of every certificate is cited once, by certificate and then by reference |
| Reap.ResultIsCited | looseberry.go:887-918 | every item reaped is a stored batch that its certificate, one of those considered, cites |
| Reap.LongestFitMeaning | looseberry.go:887-918 | a result of more than one item is within the budget; when something available is left out, something was taken and one more item would exceed the budget |
| Reap.LargerBudgetExtends | looseberry.go:860-923 | a larger byte budget only extends the result |
| Reap.ReapDependsOnCertificatesOnly | looseberry.go:860-923 | equal certificate sets and batches give equal results, whatever the arrival order |
| Reap.Reaper.ReapCertifiedBatches | looseberry.go:860-923 | the certificates considered are exactly those of the DAG up to its highest round and above the committed round, in canonical order; the result is the longest within-budget prefix, or the first item alone, of their available batches, all of certificates above the committed round |
| Orphans.DeliverySettles | looseberry.go:1367-1397 | one delivery keeps every delivered certificate in the DAG or the buffer, and the DAG only grows |
| Orphans.RunSettles | looseberry.go:1367-1448 | the same over any sequence of deliveries |
| Orphans.DagIsSandwiched | looseberry.go:1367-1448 | the DAG ends with at least what was delivered with all ancestors and at most what was delivered with all parents |
| Orphans.ClosedSetsConverge | looseberry.go:1367-1448 | a parent-closed set delivered in any order, with repetition, ends up in the DAG exactly |
| Orphans.ClosedSetsEmptyTheBuffer | looseberry.go:1367-1448 | delivered once each, a closed set leaves the buffer empty |
| Orphans.LeakIff | looseberry.go:1367-1397 | a certificate ends in both DAG and buffer if and only if it was buffered and is now accepted directly |
| Orphans.LeakPersists | looseberry.go:1419-1448 | such a certificate never leaves the buffer |
| Orphans.SecondIsIgnored | looseberry.go:1367-1397 | a certificate for a slot that is taken, whatever it cites, is neither indexed nor buffered |
| Orphans.RedeliveryLeaks | looseberry.go:1367-1448 | four concrete deliveries after which this has happened |
| Orphans.LeftBehindIff | looseberry.go:1367-1397 | a refused delivery, for missing parents or a taken slot, leaves an addable orphan if and only if its stored certificate was the one missing parent of an orphan whose slot is free |
| Orphans.OrphanLeftBehind | looseberry.go:1367-1397 | two deliveries after which an addable orphan stays in the buffer |
| Orphans.FormedLeavesBehindIff | looseberry.go:1709-1736 | a locally formed certificate, accepted or refused, leaves an addable orphan under the same condition for another slot |
| Orphans.FormedLeavesOrphan | looseberry.go:1709-1736 | two deliveries after which forming the certificate between them leaves the orphan behind |
| Orphans.SmallSetsAreNotDropped | looseberry.go:1402-1413 | a set no larger than the cap is never dropped |
| Orphans.BufferStaysBounded | looseberry.go:1402-1413 | the buffer never exceeds its cap |
| Orphans.DagOnlyStoreConverges | looseberry.go:1367-1448 | if only the DAG writes the store, the DAG ends as exactly what was delivered with all ancestors |
| Orphans.OpenSetsDiverge | looseberry.go:1367-1448 | two orders of the same two certificates end in different DAGs |
| Confluence.RunExists | looseberry.go:1367-1448 | every sequence of deliveries within the cap has a run |
| Confluence.GroundedConverges | looseberry.go:1367-1448 | a set in which every certificate delivered with its parents has all its ancestors ends, in any order, as exactly its grounded part |
| Confluence.OrdersDiffer | looseberry.go:1367-1448 | a certificate delivered with its parents but not all its ancestors is added in one order and not in another |
| Confluence.ConfluentIff | looseberry.go:1367-1448 | all orders of a set, each certificate once, end in the same DAG if and only if every certificate delivered with its parents is delivered with all its ancestors |
| Admission.AdmitsOnlyGoodIff | looseberry.go:1367-1397 | every order of delivery indexes only certificates that verify if and only if each delivered one that does not is above round 0 and cites one that does not verify or was not delivered |
| Admission.UnblockedGetsIn | looseberry.go:1375-1382 | a certificate of round 0, or one whose parents were all delivered and verify, is indexed in some order whether it verifies or not |
| Admission.UnverifiedIsIndexed | looseberry.go:1375-1382 | a round-0 certificate without votes does not verify and is indexed |
| Delivery.Looseberry.HandleCertificateMessage | looseberry.go:1367-1397 | save if verified, add, buffer or replay: an allowed delivery step |
| Delivery.Looseberry.BufferOrphanCert | looseberry.go:1402-1413 | buffers the certificate unless the cap is reached |
| Delivery.Looseberry.ReplayOrphanCerts | looseberry.go:1419-1448 | terminates, and ends with no addable certificate in the buffer |
| Delivery.Looseberry.OnCertificateFormed | looseberry.go:1709-1736 | adds the certificate and replays nothing |
| Sync.ParentsComeFirst | network/sync.go:185-232 | in canonical order every parent precedes its child or lies below the window |
| Sync.HeldParentsMeanAdded | network/sync.go:235-293 | a certificate whose parents are held is accepted at once or already held |
| Sync.WindowExtends | network/sync.go:235-293 | a window of a complete DAG extends the requester by exactly that window |
| Sync.WindowAccepts | network/sync.go:235-293 | no certificate of the window is refused for missing parents |
| Sync.FullSyncRebuilds | network/sync.go:185-293 | a sync from round 0 that fits one response rebuilds exactly the peer's DAG |
| Sync.ResponseAdvancesIff | network/sync.go:198-201 | a response gains ground if and only if the requester is past round 0 or responses span two rounds |
| Sync.WindowMeaning | network/sync.go:198-201 | a response holds at most the given number of rounds, and all that were asked for exactly if they fit |
| Sync.SyncOnceExtends | network/sync.go:185-293 | one exchange extends what the requester holds exactly to the end of the response |
| Sync.RepeatedSyncConvergesIff | network/sync.go:371-431 | a fresh node that keeps asking reaches exactly the peer's DAG within its number of rounds if and only if no gap in the peer's rounds is wider than a response |
| SyncImpl.SyncManager.HandleSyncRequest | network/sync.go:185-232 | the window, wrap-around of its length included, its certificates in canonical order and every stored batch they cite, once |
| SyncImpl.SyncManager.HandleSyncResponse | network/sync.go:235-293 | each new digest is stored with the first batch that has it and nothing else changes in the batch store; then every verifying certificate goes through delivery in order |
| SyncImpl.AllVerify | network/sync.go:256-285 | a response of verifying certificates delivers all of them |
| SyncImpl.Backoff | network/sync.go:539-546 | the delay is the initial one doubled per retry and capped, or the initial one if that exceeds the cap |
| SyncImpl.BackoffCappedIff | network/sync.go:539-546 | the delay is the capped exponential if and only if the initial delay is within the cap |
| SyncImpl.BackoffDoubles | network/sync.go:539-546 | the delay starts at the initial one and each retry doubles it up to the cap |
| Fetcher.RunKeepsInv | primary/batch_fetcher.go:154-428 | in every reachable state each pending header misses something, each missing digest is requested and lists it, and the limits hold |
| Fetcher.RunAccounts | primary/batch_fetcher.go:154-428 | in every run each batch a pending header cites is missing, stored, or was deleted since the header was tracked and not saved again |
| Fetcher.ReadyIff | primary/batch_fetcher.go:208-258 | a header becomes ready, once, if and only if its last missing batch arrives, and is then no longer pending |
| Fetcher.ReadyHoldsAllIff | looseberry.go:1553-1561 | in every run a ready header has all its batches stored if and only if none was deleted after it was tracked without being saved again |
| Fetcher.ReadyWithoutBatch | looseberry.go:1553-1561 | a run in which a header becomes ready although a batch it cites is gone |
| Fetcher.HeadersAreConserved | primary/batch_fetcher.go:154-428 | every time a header was tracked it became ready once, was dropped, or is pending |
| Wakeups.PendingWaits | primary/batch_fetcher.go:154-258 | in every run a pending header waits for exactly the batches it cites that were neither stored when it was last tracked nor delivered since |
| Wakeups.NoMissedWakeups | primary/batch_fetcher.go:208-258 | if every stored batch is announced, no header waits for a stored batch |
| Wakeups.StrandedIff | network/sync.go:249-254 | in every run a pending header waits only for stored batches if and only if each batch it cites was stored when it was last tracked, was delivered since, or was saved since without telling the fetcher and not deleted again |
| Wakeups.StrandedByDelivery | network/sync.go:249-254 | a header that a silent save does not strand but the later delivery of its other batch does |
| Retries.NextValidatorIs | primary/batch_fetcher.go:361-390 | a retry goes to the first listed validator other than the one just asked, and to that one again only if there is no other |
| Retries.RetriesAreExpirations | primary/batch_fetcher.go:154-390 | in every run an outstanding request was opened by tracking a header that misses the batch, asked the header's author first, and was retried once for each expiry since, at most the limit |
| Retries.EndsIff | primary/batch_fetcher.go:321-359 | it ends if and only if the batch arrives or it expires after the last retry |
| Fetcher.BatchFetcher.RequestBatchesForHeader | primary/batch_fetcher.go:154-205 | says whether all batches are stored, else tracks the header and requests what is missing |
| Fetcher.BatchFetcher.NotifyBatchReceived | primary/batch_fetcher.go:208-258 | the new maps and the list of ready headers |
| Fetcher.BatchFetcher.HandleBatch | primary/batch_fetcher.go:261-274 | stores the batch before waking headers |
| Fetcher.BatchFetcher.CleanupTimedOutRequests | primary/batch_fetcher.go:321-390 | expired requests are retried at the next validator or given up with their headers |
| Fetcher.BatchFetcher.CleanupFailedBatchHeaders | primary/batch_fetcher.go:393-409 | exactly the headers waiting for a failed batch are dropped |
| Fetcher.BatchFetcher.CleanupTimedOutHeaders | primary/batch_fetcher.go:412-428 | the two loops are the expiry step of the runs above: exactly the expired headers that are pending go, and nothing else changes |
| Votes.Verify | types/certificate.go:90-121 | succeeds if and only if there is a quorum of votes, a known author signed the header, and every vote is good; which failure each error means, a bad signature included |
| Votes.SecondDuplicateCheckUnreachable | primary/vote_tracker.go:136-143 | the second duplicate check of RecordVote is dead code |
| Votes.RecordKeepsFiled | primary/vote_tracker.go:97-156 | both views of the votes stay filed under voter and header |
| Votes.RemoveRecorded | primary/vote_tracker.go:172-186 | removing a header forgets exactly its votes |
| DoubleVotes.AccusedDoubleVoted | primary/vote_tracker.go:110-128 | in every run each accusation names two votes that were cast, by one validator for one header, with different signatures |
| DoubleVotes.SingleSignerIsNotAccused | primary/vote_tracker.go:110-128 | a validator that signs each header once is never accused, however often its votes arrive |
| DoubleVotes.AccusesIff | primary/vote_tracker.go:110-128 | a vote adds an accusation if and only if its header is tracked and another signature of its validator for it is on record |
| Voting.RunKeepsInv | primary/primary.go:320-380 | over every run, cleanup included, tracked headers are short of a quorum of genuine votes and certificates are complete and unique |
| Voting.CompleteVerifies | primary/vote_tracker.go:303-314 | a tracker's certificate has exactly a quorum of votes in strictly increasing validator order, holds all collected votes, and verifies |
| Voting.CertificatesAreEarned | primary/primary.go:320-380 | in every run a header gets at most one certificate, only after it was created and a quorum of distinct validators supported it, and the certificate verifies |
| Tally.CountAllKept | primary/primary.go:601-635 | counting a list of votes completes the header if and only if old and new voters reach the quorum, and otherwise keeps them all |
| Tally.RunKeepsFull | primary/primary.go:320-652 | over every run, cleanup included, a tracked header holds exactly the votes that count |
| Tally.CertifiedIff | primary/primary.go:320-652 | in every run, cleanup included, a header has a certificate if and only if it was created and a quorum's votes count: the author's, those still buffered at creation, and those since then until it timed out |
| Tally.QuorumCertifies | primary/primary.go:320-635 | in every run without cleanup it has one if and only if it was created and a quorum supports it |
| Tally.OrderIrrelevant | primary/primary.go:320-635 | such runs with the same events in different orders certify the same headers |
| Tally.TimedOutVotesStay | primary/vote_tracker.go:240-255 | a header that timed out short of a quorum is no longer tracked, and exactly its counted voters stay on record |
| Tally.LateVotesDoNotCount | primary/vote_tracker.go:240-255 | after a header of more than one vote timed out with its author's vote, no votes complete it |
| Voting.SupportersMeaning | primary/primary.go:320-380 | a supporter is one who sent a genuine vote, or the author |
| VotingImpl.VoteTracker.TrackHeader | primary/vote_tracker.go:51-69 | tracks a header once |
| VotingImpl.VoteTracker.RecordVote | primary/vote_tracker.go:97-156 | the new state, and a certificate if and only if the header then has a quorum |
| VotingImpl.VoteTracker.RemoveHeader | primary/vote_tracker.go:172-186 | the loop drops exactly the header's votes and emptied entries |
| VotingImpl.VoteTracker.RemoveTimedOut | primary/vote_tracker.go:240-255 | drops and returns exactly the expired headers, and leaves the per-validator record |
| VotingImpl.FormCertificate | primary/vote_tracker.go:303-314 | up to a quorum of the collected votes, in any order taken, sorted by validator |
| VotingImpl.NewCertificate | types/certificate.go:22-41 | the same votes in strictly increasing validator order |
| VotingImpl.VoteCollector.HandleVote | primary/primary.go:320-380 | rejects, buffers or counts a vote, equal to the specification |
| VotingImpl.VoteCollector.HandleCreated | primary/primary.go:532-558 | tracks the new header, counts the own vote, then the buffered ones |
| VotingImpl.VoteCollector.ProcessPendingVotes | primary/primary.go:601-635 | counts buffered votes in order until the certificate forms |
| VotingImpl.VoteCollector.CleanupPendingVotes | primary/primary.go:638-652 | drops exactly the old buffered votes and timed-out headers |
| CertStore.SaveKeepsConsistent | store/memory_cert.go:29-58 | the three maps keep describing the same certificates |
| CertStore.DeleteKeepsConsistent | store/memory_cert.go:142-168 | so do deletions |
| CertStore.SaveOfRound | store/memory_cert.go:29-58 | a saved certificate joins its round and no other |
| CertStore.SaveKeepsFindable | store/memory_cert.go:29-58 | every stored certificate's round and author lead to a stored certificate, the newest one saved, and deletions lose none |
| CertStore.MemoryCertificateStore.SaveCertificate | store/memory_cert.go:29-58 | the new contents of all three maps |
| CertStore.MemoryCertificateStore.GetCertificatesByRound | store/memory_cert.go:91-112 | exactly the stored certificates of the round, once each |
| CertStore.MemoryCertificateStore.DeleteCertificatesBefore | store/memory_cert.go:142-168 | keeps exactly the rounds not below the cutoff, in all three maps |
| Rounds.RunEarned | primary/primary.go:438-457 | in every run the round rises by one exactly when it is tried past a round with a quorum of stored certificates, and never otherwise |
| Rounds.ParentsAreQuorum | primary/primary.go:567-598 | in every run a header past round 0 gets exactly a quorum of distinct parents, all stored and of the round before |
| Rounds.ParentsAreLowest | primary/primary.go:567-598 | a certificate left out has an author no lower than any chosen, and a full quorum is chosen |
| Rounds.AcceptedIff | primary/primary.go:655-697 | a peer accepts a header so made if and only if it is in the same epoch, holds the parents, and its round is at most the header's and at most the gap behind |
| Rounds.ValidIff | primary/primary.go:655-697 | a peer accepts exactly the headers of its epoch that a validator signed, within the round gap, that above round 0 cite a quorum of certificates it holds |
| Rounds.SplitConserves | primary/primary.go:488-515 | splitting the queue loses and duplicates nothing |
| Rounds.SplitTakesFirst | primary/primary.go:488-515 | a header takes exactly the first acked digests, in order, up to its maximum |
| Rounds.TakenAreAcked | primary/primary.go:488-515 | only digests with an ack quorum go into a header |
| Rounds.QueueConserves | primary/primary.go:470-530 | over a whole run every enqueued digest is in exactly one header or still queued |
| RoundsImpl.Primary.TryAdvanceRound | primary/primary.go:438-457 | advances, by one, if and only if the store holds a quorum of certificates of the current round |
| RoundsImpl.Primary.SelectParents | primary/primary.go:567-598 | the refs of the first quorum of the previous round's certificates by author |
| RoundsImpl.Primary.TakeReady | primary/primary.go:488-515 | the queue-splitting loop gives the specified split |
| RoundsImpl.Primary.TryCreateHeader | primary/primary.go:470-564 | exactly when a header is made, what is in it, and what stays queued |
| RoundsImpl.Primary.ValidateHeader | primary/primary.go:655-697 | which check fails first, or none |
| RoundsImpl.Primary.HandleHeader | primary/primary.go:277-316 | votes if and only if the header is valid and every batch is stored; otherwise hands it to the fetcher |
| RoundsImpl.Primary.HandleCertificate | primary/primary.go:383-407 | a verifying certificate is stored and may advance the round; another changes nothing |
| Acks.ReadyIff | worker/ack_tracker.go:79-125 | a batch has its quorum if and only if that many distinct validators acknowledged it since a tracking that has not expired |
| Acks.ExpiredStrands | worker/ack_tracker.go:223-238 | a batch that expired and is not tracked again never has its quorum |
| Acks.OfferedReachesAll | worker/pool.go:266-276 | while one worker tracks a batch, stopping at the first quorum leaves no worker out |
| Acks.AckTracker.TrackBatch | worker/ack_tracker.go:49-67 | tracks a batch once, without acks |
| Acks.AckTracker.RecordAck | worker/ack_tracker.go:79-104 | counts each validator once; says whether the quorum holds and whether this ack was the one that reached it |
| Acks.AckTracker.RemoveTimedOut | worker/ack_tracker.go:223-238 | drops exactly the expired batches |
| Acks.PoolRecordAck | worker/pool.go:266-276 | offers the ack to workers in turn until one reports a quorum |
| Acks.HasBatchAckQuorum | worker/pool.go:299-309 | true if and only if some worker has a quorum for the batch |
| Protocol.RunKeepsInv | worker/worker.go:448-476 | in every run acknowledgments, signatures and stores of correct validators stay truthful |
| Protocol.CertificatesAreBacked | primary/primary.go:277-316 | at least f + 1 correct voters had saved every batch of a certificate when they signed, at least f of which held all of them and every parent at that moment |
| Protocol.TrackerCertificatesAreBacked | primary/vote_tracker.go:97-156 | the same for every certificate a vote tracker builds, in any run of votes, headers and cleanup; it has exactly a quorum of votes |
| Protocol.TwoCertificatesMeet | primary/vote_tracker.go:303-314 | with n = 3f + 1 any two certificates share f + 1 voters, one of them correct |
| Protocol.HeadersAreAcked | looseberry.go:1279-1327 | every digest in a correct validator's header was acknowledged by a quorum of distinct validators and saved by at least f + 1 correct ones |
| Provenance.VotedWereMade | primary/primary.go:655-697 | in every run a correct validator votes only for headers of validators, and one of a correct author was made by that author |
| Provenance.CertifiedWereMade | types/certificate.go:90-121 | a verifying certificate is for a header of a validator; if that is correct, it made the header, and at least f + 1 correct validators had saved each of its batches |
| Availability.StoredIff | gc/gc.go:241-284 | at every point of a run a correct validator stores a batch if and only if it stored it at some step and has not deleted it since |
| Availability.HoldsIff | primary/primary.go:470-564 | it signed a header while holding its batches if and only if at some step it signed having stored each batch and deleted none since |
| Availability.EnoughHoldersIff | primary/primary.go:277-316 | at least f + 1 correct voters of a certificate signed while holding its batches if and only if f + 1 of them are not the author, or the author signed having stored each batch and deleted none since |
| Availability.NoHolders | primary/primary.go:470-564 | a run of the protocol whose certificate verifies although no correct voter held its batch when it signed |
| Simulation.HandleHeader | primary/primary.go:277-316 | a call votes if and only if the protocol's vote step is enabled, adds that step's signature, and leaves the state the step leaves |
| Simulation.TryCreateHeader | primary/primary.go:470-564 | a header made is an enabled header step with the same signature and the same queue left; a tick that makes none changes nothing |
| Heap.RootIsFirst | worker/worker.go:68-86 | nothing in a heap comes before its root |
| Heap.PriorityQueue.Push | worker/worker.go:276-284 | adds exactly the entry and keeps the heap order |
| Heap.PriorityQueue.Pop | worker/worker.go:435 | removes the entry that no other comes before |
| Worker.RankingMeaning | worker/worker.go:71-76 | the ranking lists every entry once, each before all that follow |
| Selection.RankingByFields | worker/worker.go:71-76 | of two entries the earlier one has the higher priority, or the same priority and the lower sequence number |
| Selection.CutOutranks | worker/worker.go:425-439 | every entry cut has a higher priority than every entry left, or the same and a lower sequence number |
| Selection.CutFills | worker/worker.go:420-439 | a cut keeps to both caps, a single transaction excepted, and stops only where the next entry would break one |
| Selection.AdmittedIff | worker/worker.go:251-284 | a transaction is admitted if and only if it is neither pending nor batched and the pool stays within both limits with it; it then has the given priority and comes after all others of that priority |
| Selection.EntriesWerePut | worker/worker.go:276-511 | in every run each pending entry was put there by one event, with that event's transaction and priority, or priority 0 when put back |
| Selection.EarlierIsCutFirst | worker/worker.go:425-439 | in every run, of two entries of one priority the one put in the pool by the earlier event is cut first |
| Worker.CutIsProductive | worker/worker.go:425-439 | a batch has at least one transaction when there is one and the size cap allows any |
| Worker.LongestAtLeast | worker/worker.go:425-439 | the cut fits both caps and is at least as long as any prefix that does |
| Worker.FailedBatchRestores | worker/worker.go:486-511 | a batch that cannot be saved leaves the same transactions, hashes and byte count |
| Worker.RunKeepsSound | worker/worker.go:233-511 | in every reachable state hash set, byte counter and heap describe the same duplicate-free pool within both limits |
| WorkerImpl.BatchWorker.AddTx | worker/worker.go:233-305 | the outcome and the whole new pool |
| WorkerImpl.BatchWorker.TryCreateBatch | worker/worker.go:412-477 | cuts exactly the longest fitting prefix of the ranking, or puts it back |
| WorkerImpl.BatchWorker.CutBatch | worker/worker.go:420-441 | the greedy peek-and-pop loop computes that prefix |
| WorkerImpl.BatchWorker.Requeue | worker/worker.go:486-511 | puts transactions back until a limit is met |
| WorkerImpl.BatchWorker.DrainPending | worker/worker.go:320-340 | returns every pending transaction once and empties the pool |
| TxIndex.RunKeepsInverse | store/memory_txindex.go:29-198 | through every run the two maps are exact inverses without duplicates |
| TxIndex.AddBatchTruthful | store/memory_txindex.go:130-161 | indexing a batch covers all its transactions and maps each to a batch that carries it |
| TxIndex.RunTruthful | store/memory_txindex.go:84-198 | after any run of indexing, removing and pruning batches every indexed transaction maps to a batch that carries it |
| TxIndex.RoundsAreRecorded | store/memory_txindex.go:130-198 | in every run the round on record for a batch is that of its last indexing, unless a pruning past that round came since |
| TxIndex.PruneKeepsIff | store/memory_txindex.go:166-198 | pruning keeps exactly the transactions whose batch is not on record at a round below the cutoff |
| TxIndex.StillIndexedIff | store/memory_txindex.go:84-107 | after any run, removing batches leaves a transaction indexed if and only if some other batch lists it |
| TxIndex.RemovedIsUnindexed | store/memory_txindex.go:84-107 | so when every batch that carries a transaction is removed, it is no longer indexed |
| TxIndex.MemoryTxIndex.AddTx | store/memory_txindex.go:29-51 | the first batch to claim a transaction keeps it; refused for another |
| TxIndex.MemoryTxIndex.AddBatch | store/memory_txindex.go:130-161 | the loop gives the specified index |
| TxIndex.MemoryTxIndex.RemoveTxsForBatch | store/memory_txindex.go:84-107 | removes exactly the transactions mapped to the batch |
| TxIndex.MemoryTxIndex.PruneOlderThan | store/memory_txindex.go:166-198 | removes exactly the batches of old rounds and counts them |
| BatchStore.MemoryBatchStore.SaveBatch | store/memory_batch.go:27-47 | stores a new batch once and keeps the round index exact |
| BatchStore.MemoryBatchStore.GetBatch | store/memory_batch.go:50-64 | the stored batch or none |
| BatchStore.MemoryBatchStore.GetBatchesByRound | store/memory_batch.go:80-101 | exactly the stored batches of the round, once each |
| BatchStore.MemoryBatchStore.DeleteBatchesBefore | store/memory_batch.go:104-129 | keeps exactly the batches not below the cutoff |
| BatchStore.HoldsIff | store/memory_batch.go:27-129 | in every run the store holds under each digest exactly the batch first saved under it since it was last free, unless a deletion has passed its round |
| LevelDb.BERoundTrip | store/leveldb_batch.go:310-323 | big-endian numbers read back |
| LevelDb.BEOrdered | store/leveldb_batch.go:310-323 | keys of numbers are in the order of the numbers |
| LevelDb.RoundKeyParses | store/leveldb_batch.go:325-347 | a round key parses back to its round and digest |
| LevelDb.BatchKeyInjective | store/leveldb_batch.go:303-308 | different digests have different batch keys |
| LevelDb.FamiliesDisjoint | store/leveldb_batch.go:14-19 | batch keys, round keys and the highest-round key never coincide, and only round keys carry the round prefix |
| LevelDb.PrefixSelectsRound | store/leveldb_batch.go:310-323 | a round's prefix selects exactly that round's keys |
| LevelDb.SaveRepresents | store/leveldb_batch.go:47-95 | the writes of a save represent the abstract save |
| LevelDb.DeleteRepresents | store/leveldb_batch.go:178-232 | deleting the keys of some batches represents the contents without them |
| LevelDb.LevelDBBatchStore.SaveBatch | store/leveldb_batch.go:47-95 | refines the memory store's save |
| LevelDb.LevelDBBatchStore.GetBatch | store/leveldb_batch.go:98-121 | refines get |
| LevelDb.LevelDBBatchStore.HasBatch | store/leveldb_batch.go:124-135 | refines has |
| LevelDb.LevelDBBatchStore.HighestRound | store/leveldb_batch.go:267-287 | the highest round ever saved, which deletions do not lower, and no stored batch is above it |
| LevelDb.LevelDBBatchStore.GetBatchesByRound | store/leveldb_batch.go:138-175 | refines by-round, as a set without repetition |
| LevelDb.LevelDBBatchStore.DeleteBatchesBefore | store/leveldb_batch.go:178-232 | refines delete-before |
| Gc.CollectsExactly | gc/gc.go:241-284 | a collection keeps in the DAG and the stores exactly what is not below the cutoff |
| Gc.SurvivesIff | gc/gc.go:205-284 | in every run a notification keeps exactly the batches whose round is at most the depth below the highest round notified so far |
| Gc.CertificateSurvivesIff | gc/gc.go:205-284 | and exactly such certificates, in the DAG and in the store |
| Gc.LateBatchIsLost | gc/gc.go:342-383 | a batch saved at a round the scan has passed is deleted unrecovered |
| Gc.RecoveredStillIndexedIff | gc/gc.go:323-337 | a recovered transaction is still indexed when it is added back if and only if some batch not taken out with it lists it, and only then can the worker drop it as already batched |
| Gc.RecoveredAreUnindexed | gc/gc.go:323-337 | when every indexed batch that carries it is taken out, the worker does not drop it |
| Gc.CutoffMonotone | gc/gc.go:205-238 | over every run the cutoff never decreases |
| Gc.NoGap | gc/gc.go:342-383 | with recovery on, the rounds scanned so far are exactly those below the cutoff; with it off, none |
| Gc.HandedIsDeleted | gc/gc.go:241-338 | what is handed to recovery is deleted by the same event, and no certificate of its round cites it |
| Gc.BatchesAreConserved | gc/gc.go:241-383 | over every run, each time a batch was stored it was recovered once, was deleted while cited, was lost, or is still stored |
| Gc.RecoveredIffTimely | gc/gc.go:300-383 | a deleted batch is recovered if and only if recovery is on, its own save was at a round the scan had not passed by then, and no certificate of its round cites it |
| Gc.RecoveredByRounds | gc/gc.go:300-383 | the same in rounds: recovery is on, no certificate of its round cites it, and when saved its round was at most the depth below the highest round notified, or none past round 0 had been collected |
| Gc.CitedElsewhereIff | gc/gc.go:342-383 | a timely batch is recovered, to be batched again, if and only if every certificate the DAG has that cites it is of another round |
| Gc.CitedBatchIsRecovered | gc/gc.go:342-383 | a run in which a batch that a certificate of the next round cites is recovered |
| Gc.BelowCutoffIff | gc/gc.go:241-284 | at every point of a run a stored batch is below the cutoff if and only if it was when it was saved |
| Gc.RoundZeroCollects | gc/gc.go:241-383 | when all batches are saved at round 0, each collection deletes every stored batch, and recovers one if and only if recovery is on, at most round 0 was collected before, and no round-0 certificate cites it |
| GcImpl.GCManager.NotifyCommitted | gc/gc.go:205-224 | the whole new state, and the transactions of each recovered batch once |
| GcImpl.GCManager.PerformGC | gc/gc.go:241-284 | recovery, then deletion, equal to the specification |
| GcImpl.GCManager.ExtractUncommittedTxs | gc/gc.go:300-338 | tracked batches first, the scan when there are none |
| GcImpl.GCManager.ExtractFallback | gc/gc.go:342-383 | the scanning loops find exactly the uncited batches and take them out of the index |

## Left out

- Ed25519, SHA-256 and the wire encoding: a signature is a record of who signed what, a digest an
  opaque number, and the codec of stored batches any invertible function.
- Goroutines, channels, mutexes, tickers, lifecycle, metrics, logging and configuration checks.
- Worker scaling, flow control, rebroadcast and stuck-sync heuristics: thresholds and counters.
- The LevelDB certificate store and transaction index, and `LoadRound`: they differ from the memory
  versions on purpose when certificates share a slot or batches share transactions.
- Changes of the validator set and of the epoch, and `SetRound`: validators and epoch are fixed.
- Injectivity of header digests: that equal digests mean equal headers is assumed.
- Heap.PriorityQueue.Push: models the library's sift-up as part of the queue, with the slice as a sequence.
- SyncImpl.SyncManager.HandleSyncRequest: a request from round 0 with a response size of 0 is excluded, because its last round wraps to the largest 64-bit number; otherwise rounds are unbounded, and only the length of the window wraps around.
- SyncImpl.SyncManager.HandleSyncResponse: whether a certificate verifies is a parameter; the choice of peer and request bookkeeping are not modelled.
- VotingImpl.VoteTracker.RemoveTimedOut: which headers are too old is given, as it is for every other timeout.
- LevelDb.LevelDBBatchStore.GetBatchesByRound: the result is a set without order, and asks for digests and rounds within their widths.
- Delivery.Looseberry.HandleCertificateMessage: the order in which a pass visits the buffer is left open, as map iteration leaves it.
- GcImpl.GCManager.PerformGC: store errors are not modelled, and the certificate store is the one the DAG reads.
- Protocol.RunKeepsInv: a correct validator's steps are abstracted to what they read and write; `Simulation` ties the vote and header steps to the primary's methods, the other steps are not tied.
- Simulation.TryCreateHeader: ties the call to a step only if the new header is the one its digest identifies.
