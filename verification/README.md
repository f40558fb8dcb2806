# Verified reliability core of the platform Go SDK

A Dafny model of the parts of the SDK whose promises are hard to keep, with proofs
of those promises. `dafny verify dfyconfig.toml` checks the project.

Concurrent protocols are state machines. `Run(s, actions)` takes any sequence of
actions and skips one that is not possible yet, so a statement about `Run` of an
arbitrary sequence is a statement about every interleaving of any number of callers,
with a failure, a lost reply or a crash at any step. The imperative code on top of
them is a class whose methods issue the actions of one call while other clients act
in between (`Around`, `Round`, `Gap`, `Net`), and whose invariant says that the shared state is the
result of one such run.

- `Inbox`, `Attempts`, `InboxStore`: transactional inbox, its SQL statements as actions, what an undisturbed call comes to, and `Process`.
- `Consumer`, `Backoff`: the event consumer over the inbox, its settlement of each delivery and its retry delay.
- `Idempotency`, `Interceptor`, `Answers`: the Redis scripts with expiry, the gRPC interceptor as their client, and what it tells its callers.
- `Outbox`, `Claims`, `Dispatcher`: the outbox table with leases, when events can be claimed, and the publish-then-mark loop.
- `LockLease`, `RenewalLease`: the two lease renewers as threads over a channel and a context.
- `TreeSpec`, `Tree`: forests from flat records, as values and as linked nodes.
- `RoundRobin`, `Discovery`, `Listing`: weighted picks and watch application.
- `Redact`, `Redactor`, `SensitiveKeys`: redaction as a function of trees, in place on shared maps, and the key test.
- `Text`, `RouteKey`: canonical route keys.
- `Utf8`, `Encoding`: trimming, repairing and cutting the bytes of error texts, and what that does to the text they encode (sections 3 and 4 of RFC 3629).

Where the code falls short of what one would expect of it, the model keeps the code
and states the exact condition:

- A lease renewal that fails while the lease is live is reported if and only if the
  context is still live when the renewer looks at it (`FailedRenewalReported`,
  `FailureCanBeDropped`).
- The outbox cuts an error text at 4096 bytes; the text stays well formed if and only
  if that is not inside a character (`RawCutValid`, `RawCutSplitsCharacter`).
- The retry delay exceeds the capped exponential by one nanosecond if and only if the
  doubling stops one short of the maximum (`DelayIsCappedExponential`, `OddMaximumOvershoots`).
- A round of picks takes each slot once if and only if the 64-bit cursor does not wrap
  inside it, or wraps onto a slot boundary; with weights it is fair if and only if the
  picks after the wrap match those that would have followed (`FairIffEven`,
  `FairIffSameAfterWrap`, `WrapIsUneven`).
- Two watch responses in turn act as one if and only if the last effective change of
  each id in the first carries that id (`ResponsesComposeIffConsistent`, `MismatchSurvivesDelete`).
- Route keys are equal if and only if service, protocol and the list of method parts
  and segments are; a colon in a method makes routes collide (`SameKeyIffSameParts`,
  `ColonCollides`, `ExampleCollides`).
- An event without an aggregate id is never dead-lettered: the dead letter cannot be
  built, and its delivery is put back at the limit (`NoLetterWithoutAggregate`).
- Redaction keeps sensitive keys and masks their values, so the test for sensitive
  keys answers the same afterwards (`ContainsAfter`).
- The table of sensitive names adds nothing to the test on words (`TableIsRedundant`).
- No guarded handler starts while an outcome is stored, but one may still be running: a
  holder that neither finished nor aborted has lost its key if and only if the key
  expired while it held it (`StrandedIffExpired`, `StrandedBesideOutcome`).
- A replayed failure is the original if and only if that had no status details
  (`ReplayIsOriginal`, `DetailsAreDropped`).
- An outbox event can be claimed next with a given clock reading if and only if the
  reading has reached the availability set last. So claims at one instant are disjoint
  as long as failed marks land before their retry time, and a late mark breaks that
  (`NextClaimIffDue`, `SecondClaimIffDue`, `PromptClaimsDisjoint`, `LateMarkClaimsTwice`).
- An outbox insert that reuses a purged id is safe if and only if no dispatcher still
  holds an earlier event of the id, unpublished or unmarked (`InsertKeptIffNotHeld`,
  `PurgedWhileHeld`).

## Model

| member | source | states |
|---|---|---|
| `Inbox.StepKeepsInv` | inbox/sqlstore.go:70-128 | every statement, handler step, commit (landing or not, reported or not), loss and retention step keeps the protocol invariant: one lock holder per row, uncommitted views consistent with the committed row, successes balanced against completed rows |
| `Inbox.RunKeepsInv` | inbox/sqlstore.go:70-128 | the invariant holds after every interleaving |
| `Inbox.EffectivelyOnce` | inbox/sqlstore.go:70-128 | in every interleaving the committed handler successes of an event are one if its row is completed and none otherwise, plus one per deletion of its completed row by retention |
| `Inbox.DomainEffectIsOneRun` | inbox/sqlstore.go:97-127 | while retention has not deleted the row, the durable domain writes of an event are nothing, or exactly what the handler wrote in the transaction of that event that committed its success, and the latter exactly when the row is completed |
| `Inbox.CommittedRowShape` | inbox/sqlstore.go:179-216 | a committed row is failed or completed, attempted at least once, has version 2*attempts+1, and has a completion time exactly if completed |
| `Inbox.ReportedResult` | inbox/sqlstore.go:82-127 | a non-zero attempt count is that of the row version the call committed for its event; no error means the effect of the event is durable |
| `Inbox.CompletedIsFinal` | inbox/sqlstore.go:86-95 | from completion on the row never changes and no transaction is inside the handler of the event, until retention deletes rows completed before some moment later than its completion |
| `Inbox.RetentionDeletesOld` | inbox/sqlstore.go:133-159 | retention deletes a row exactly if it is completed before the given moment and nobody holds it |
| `Inbox.WritesOfWinner` | inbox/sqlstore.go:97-127 | committed writes of an event are those of its one committed success, whole; failed attempts leave none |
| `Attempts.SuccessGoesThrough` | inbox/sqlstore.go:70-128 | from every state in which the row is free and not completed, a new call whose handler succeeds can go through: row completed at its time with one more attempt, writes durable, result told, nothing else changed |
| `Attempts.FailureGoesThrough` | inbox/sqlstore.go:70-128 | the same for a handler that fails: row failed with one more attempt and the first 4096 bytes of the error, no write left |
| `Attempts.DuplicateGoesThrough` | inbox/sqlstore.go:86-95 | on a completed row that is free a call commits without the handler, changes nothing and reports a duplicate |
| `Attempts.WaitsForHolder` | inbox/sqlstore.go:171-199 | an insert waits only for an uncommitted insert of the row, the lock for whoever holds it |
| `InboxStore.SqlStore.Send` | inbox/sqlstore.go:171-231 | a statement takes effect on the database as others left it, exactly if it does not fail and the database allows it then; otherwise the call loses its transaction |
| `InboxStore.SqlStore.SendOwn` | inbox/sqlstore.go:98-124 | once the row is locked nobody else can keep a statement from succeeding: only its own failure does |
| `InboxStore.SqlStore.Commit` | inbox/sqlstore.go:91-126 | the reply matches what was attempted; a reported commit is the newest in the log, an unreported one may be too |
| `InboxStore.SqlStore.Handle` | inbox/sqlstore.go:105 | the handler's writes are sent in order on the transaction, nothing else of the transaction changes |
| `InboxStore.SqlStore.RecordFailure` | inbox/sqlstore.go:105-116 | after a failed handler the call ends with an error whatever happens; unless a statement fails, the failed attempt is committed and counted |
| `InboxStore.SqlStore.RecordSuccess` | inbox/sqlstore.go:117-127 | no error exactly if savepoint, update and commit work; then this success is the newest commit |
| `InboxStore.SqlStore.Attempt` | inbox/sqlstore.go:97-127 | no error exactly if the handler returned none and every statement worked; then its writes, whole, were committed by this call |
| `InboxStore.SqlStore.GetRow` | inbox/sqlstore.go:82-90 | the row is had exactly if insert and lock work on the database of their moment, and is seen completed exactly if it is |
| `InboxStore.SqlStore.InTransaction` | inbox/sqlstore.go:81-127 | the same from the start of the transaction; a duplicate runs no handler |
| `InboxStore.SqlStore.Process` | inbox/sqlstore.go:70-128 | whatever others do and wherever it fails: no error exactly if the input is valid, the row is had, and either the event is found completed and the commit works or the handler and every statement succeed; then the effect of the event is durable, by this handler in full with the time of this call as completion time, or by an earlier call with this handler not run; a failed attempt is committed with its cut error text; attempts are those committed; invalid input touches nothing |
| `InboxStore.ValidInputIff` | inbox/sqlstore.go:161-169 | consumer, event id and actor of 1 to 255 bytes and a handler, and nothing else, are required |
| `Backoff.AcceptedBounds` | eventbus/config.go:30-98 | after defaults and validation the base delay is positive and at most the maximum |
| `Backoff.DefaultsKept` | eventbus/config.go:40-98 | a positive setting is kept, any other gets its default |
| `Backoff.AcceptedIff` | eventbus/config.go:30-98 | a running bus holds exactly the configurations with positive settings, the handler cut off before the acknowledgement is due, and a base delay no longer than the maximum |
| `Backoff.RetryDelay` | eventbus/consumer.go:217-233 | the doubling loop computes the specified delay and no doubling overflows 64 bits |
| `Backoff.DelayIsCappedExponential` | eventbus/consumer.go:217-233 | the delay is min(base*2^min(max(d-1,0),16), maximum), plus one nanosecond exactly when the exponential is one short of the maximum; never for an even maximum |
| `Backoff.OddMaximumOvershoots` | eventbus/consumer.go:217-233 | the one-nanosecond case occurs |
| `Backoff.DelayBoundedAndMonotone` | eventbus/consumer.go:217-233 | the delay lies between base and maximum and never falls with the delivery count |
| `Backoff.DefaultDelays` | eventbus/consumer.go:217-233 | with the default delays: 1, 2, 4, 8, 16, 32, then 60 seconds |
| `Consumer.Report` | eventbus/consumer.go:235-239 | reporting an error settles nothing |
| `Consumer.Retry` | eventbus/consumer.go:204-209 | the delivery is settled once, by a delayed nak |
| `Consumer.Terminate` | eventbus/consumer.go:211-215 | allowed only after a dead letter of this delivery or for a dead letter at its limit; settles once |
| `Consumer.WriteLetter` | eventbus/consumer.go:154-194 | the letter carries the event or the raw data cut at its limit, marked as cut exactly if it was, the delivery count and a bounded reason |
| `Consumer.LetterFor` | eventbus/consumer.go:162-166 | the letter carries the trimmed, repaired and cut text of the failure |
| `Consumer.PublishDeadLetter` | eventbus/consumer.go:154-202 | succeeds exactly if the letter can be built and the broker takes it; settles nothing |
| `Consumer.GiveUp` | eventbus/consumer.go:111-117 | one settlement: terminated exactly if its dead letter is out, else put back |
| `Consumer.HandleFailure` | eventbus/consumer.go:127-146 | one settlement, never an ack; dead letter and termination exactly at the limit |
| `Consumer.Conclude` | eventbus/consumer.go:127-151 | the verdict on a decoded event follows from the handler outcome, the limit, the broker and a shutdown |
| `Consumer.Processor.CallHandler` | README.md:5 | the handler is the inbox: no error exactly if the inbox call works, and then the effect of the event is committed; an attempt that works is committed; earlier acknowledgements stay justified |
| `Consumer.Processor.Process` | eventbus/consumer.go:102-152 | over all deliveries: acknowledged only with the domain effect committed, terminated only after a dead letter of the same delivery or for a dead letter at its limit, settled at most once; a decoded event is acknowledged exactly if its inbox call works; each verdict is decided by message, handler outcome and surroundings |
| `Consumer.LimitDecides` | eventbus/consumer.go:127-146 | the n-th delivery of an event whose handler fails is dead-lettered and terminated exactly if n has reached the configured number, with a broker that takes letters; before that it is put back with the delay for n |
| `Consumer.DeadLetterEnds` | eventbus/consumer.go:131-141 | a failing dead letter is never lettered again and terminated exactly from the configured number of deliveries on |
| `Consumer.UnreadableIsKept` | eventbus/consumer.go:103-117 | unreadable metadata puts the delivery back like a first one; undecodable data is terminated exactly if the broker took its letter |
| `Consumer.NoLetterWithoutAggregate` | eventbus/envelope.go:27-30 | an event without aggregate id is put back, never dead-lettered or terminated |
| `Utf8.ContinuationMask` | inbox/sqlstore.go:233-241 | the mask test is the continuation-byte range |
| `Utf8.ValidPrefix` | inbox/sqlstore.go:233-241 | a prefix of well-formed text is well formed exactly if it does not stop inside a character |
| `Utf8.Truncate` | inbox/sqlstore.go:233-241 | the longest well-formed prefix within the limit, losing at most three bytes |
| `Utf8.LimitReason` | eventbus/consumer.go:247-252 | the cut that re-checks validity gives the longest well-formed prefix within the limit, for any input it cuts |
| `Utf8.RepairedChanges` | eventbus/consumer.go:246 | replacing runs of stray bytes leaves just the well-formed texts alone |
| `Utf8.TrimKeepsValid` | eventbus/consumer.go:245 | trimming white space does not break a character |
| `Utf8.LimitedReason` | eventbus/consumer.go:241-254 | the reason is always well formed and within 4096 bytes, the longest such prefix of the trimmed and repaired text; a well-formed text is only trimmed and cut |
| `Utf8.CutsAgree` | eventbus/consumer.go:245-253 | the two cuts agree on every well-formed text and limit |
| `Utf8.RawCutValid` | outbox/sqlstore.go:122-129 | the plain byte cut keeps a text well formed exactly if the limit is not inside a character |
| `Utf8.RawCutSplitsCharacter` | outbox/sqlstore.go:122-129 | a well-formed text that the plain cut breaks |
| `Encoding.ValidIffEncoding` | eventbus/consumer.go:249 | the byte sequences taken as well formed are exactly the encodings of strings of code points |
| `Encoding.EncodeInjective` | eventbus/consumer.go:249 | different texts have different bytes |
| `Encoding.TrimEncoded` | eventbus/consumer.go:245 | trimming the bytes of a text gives the bytes of the trimmed text |
| `Encoding.CutEncoded` | inbox/sqlstore.go:233-241 | cutting the bytes of a text keeps whole characters, as many as fit |
| `Encoding.RunRepaired` | eventbus/consumer.go:246 | repair keeps the text before the first stray byte, puts one replacement character for the whole run of stray bytes, and goes on behind it |
| `Encoding.ReasonOfText` | eventbus/consumer.go:241-254 | the recorded reason is the trimmed text, cut between characters, with as many of them as 4096 bytes hold |
| `TreeSpec.Records.ForestIsPermutation` | tree/tree.go:85-92 | the depth-first listing of a sound input is a permutation of it |
| `TreeSpec.Records.AncestorFirst` | tree/tree.go:75-92 | every record stands before everything beneath it |
| `TreeSpec.Records.ParentFirst` | tree/tree.go:75-92 | every record stands after its parent |
| `TreeSpec.Records.SiblingsInOrder` | tree/tree.go:29-46 | roots and siblings keep input order, each with everything beneath it |
| `TreeSpec.Records.ListingCount` | tree/tree.go:75-92 | a record occurs once in a listing if it lies under one of the listed siblings, else not at all |
| `TreeSpec.CycleNeverEnds` | tree/tree.go:49-72 | no key on a cycle of parents has a chain that ends |
| `Tree.HasCycle` | tree/tree.go:49-72 | terminates on every input and is true exactly if the parent relation has a cycle |
| `Tree.MakeNodes` | tree/tree.go:21-28 | one fresh childless node per id, or a duplicate exactly if ids are not distinct |
| `Tree.LinkNodes` | tree/tree.go:29-42 | a missing parent exactly if there is one; else children and roots in input order |
| `Tree.Build` | tree/tree.go:20-47 | decided by the input: duplicate id, else missing parent, else cycle, else the linked forest of fresh nodes |
| `Tree.Walk` | tree/tree.go:75-82 | visits as specified, a false result ending the current sibling list |
| `Tree.Flatten` | tree/tree.go:85-92 | the values in preorder |
| `Tree.PreorderIsListing` | tree/tree.go:75-92 | nodes that mirror records list them in the order of the specification |
| `Tree.BuiltMirrors` | tree/tree.go:29-46 | the linked heap mirrors the records level by level |
| `Tree.BuildAndFlatten` | tree/tree.go:20-92 | flattening a built forest gives the depth-first listing, and succeeds exactly for distinct ids, present parents and no cycle |
| `Idempotency.RunKeepsInv` | idempotency/manager.go:73-211 | the store's invariant holds after every run of the four scripts and the clock |
| `Idempotency.TokenEndsOnce` | idempotency/manager.go:180-211 | an owner token makes at most one successful finish or abort |
| `Idempotency.AcquisitionsSeparated` | idempotency/manager.go:73-82 | between two acquisitions of a key lies an expiry or an abort with the earlier token |
| `Idempotency.SupersededIsPowerless` | idempotency/manager.go:111-115 | renew, finish and abort with a superseded token change nothing |
| `Idempotency.RenewExtends` | idempotency/manager.go:111-115 | a renewal by the owner makes its lease last ttl from then on, and exactly that, whatever others do |
| `Idempotency.BeginLeases` | idempotency/manager.go:73-78 | a begin that finds nothing takes the key for ttl, and exactly that |
| `Idempotency.LeaseLasts` | idempotency/manager.go:73-115 | while its owner makes no call a lease lasts exactly until it expires |
| `Idempotency.RecordShape` | idempotency/manager.go:180-186 | owner, response and failure are present exactly in the state they belong to |
| `Idempotency.FingerprintFixed` | idempotency/manager.go:73-82 | a record keeps the fingerprint of its acquisition until it is removed |
| `Idempotency.OwnersFingerprint` | idempotency/manager.go:73-82 | a token owns its key with the fingerprint it was acquired for |
| `Idempotency.FinishOpensWindow` | idempotency/manager.go:180-186 | a finish stores its outcome for its time to live |
| `Idempotency.OutcomeReplayed` | idempotency/manager.go:73-109 | until expiry each begin with the fingerprint gets that outcome and each other a conflict, and nobody acquires the key |
| `Idempotency.StrandedIffExpired` | idempotency/manager.go:73-211 | over every run, a holder has neither finished nor aborted and no longer owns its key exactly if the key expired while it owned it |
| `Idempotency.StrandedBesideOutcome` | idempotency/manager.go:73-186 | a run in which such a holder is still at work while the outcome of another is replayed |
| `Interceptor.ReplayIsOriginal` | idempotency/grpc.go:50-111 | the replay of a remembered outcome is what the first caller got but for the details of a status, so the same exactly if there were none |
| `Interceptor.DetailsAreDropped` | idempotency/grpc.go:57-58 | a refusal with details that is replayed without them |
| `Interceptor.FinishHolds` | idempotency/manager.go:180-186 | a finish by the token of a begin leaves the outcome to be answered to the fingerprint of that begin |
| `Interceptor.RetryIsAnswered` | idempotency/grpc.go:50-66 | once a call reported its outcome kept, a retry that begins before expiry runs no handler and gets the first answer without details, whatever others did |
| `Answers.ReplayAnswers` | idempotency/grpc.go:54-66 | without the handler run, a response is given exactly for a completed record of this request, and is the stored one; a request in progress is Aborted, the key of another request AlreadyExists, a failure keeps its code and message |
| `Answers.SuccessIsStored` | idempotency/grpc.go:54-56 | a success told without running the handler is the stored response of a completed run of the same request |
| `Answers.HandlerAnswers` | idempotency/grpc.go:76-109 | the response or error of the handler is passed on exactly if the lease held; a lost lease is Aborted or Unavailable whatever the handler returned |
| `Answers.RetryableCodes` | idempotency/grpc.go:113-121 | which status codes are not remembered |
| `Answers.KeptFor` | idempotency/grpc.go:86-105 | which result is kept, with which time to live, and which releases the key |
| `Answers.RememberedIff` | idempotency/grpc.go:86-105 | a result is remembered exactly if it is a response that encodes within the limit or an error that is not retryable |
| `Interceptor.Manager.Begin` | idempotency/manager.go:84-109 | the answer of the script on the store it ran on; a win with a new token owns the key |
| `Interceptor.Manager.Abort` | idempotency/manager.go:215-227 | no error exactly if the answer arrives and the token owned the key; the key is then free, and else nothing changed |
| `Interceptor.Manager.Finish` | idempotency/manager.go:180-186 | no error exactly if the answer arrives and the token owned the key; the outcome is then stored, and else nothing changed |
| `Interceptor.Manager.Complete` | idempotency/manager.go:188-213 | no error exactly for an owned key, an answer and a response within the limit; a larger one releases the key and is an error |
| `Interceptor.Manager.Fail` | idempotency/manager.go:229-242 | no error exactly for an owned key and an answer; the failure is then stored |
| `Interceptor.Manager.Persist` | idempotency/grpc.go:86-105 | which script is called for which handler result, and no error exactly if it could be kept, the key was owned and the answer arrived |
| `Interceptor.Manager.Guarded` | idempotency/grpc.go:50-111 | the handler runs exactly if the begin won, with the key acquired for this call; else the answer is the replay; nothing is stored after a lost lease; the result is reported kept exactly if its keeping call found the key owned and was answered, and then the record holds it for this fingerprint |
| `Interceptor.Manager.Intercept` | idempotency/grpc.go:40-111 | unguarded requests pass, requests without fingerprint are refused, when a result is kept is exact, and in the window of a stored outcome no handler runs and the outcome or a conflict is answered, whatever others do |
| `Outbox.NothingLost` | outbox/sqlstore.go:58-129 | an event whose id was not inserted before is at all times in the table or accepted by the broker; marked published, it was accepted |
| `Outbox.RunKeepsSecure` | outbox/dispatcher.go:71-88 | an event that is accepted, or unpublished with no other event of its id held by a dispatcher, stays so over every run |
| `Outbox.InsertKeptIffNotHeld` | outbox/sqlstore.go:58-129 | any inserted event is in the table or accepted ever after, in every continuation, exactly if no dispatcher still holds an earlier event of its id, to publish it or to mark it published |
| `Outbox.PurgedWhileHeld` | outbox/dispatcher.go:71-88 | runs that leave a dispatcher with its old copy of a purged event, not yet published or not yet marked |
| `Outbox.PublishedIsFinal` | outbox/sqlstore.go:116-193 | a published row does not change until a cleanup of rows published before some moment later than its publication |
| `Outbox.PurgeKeepsUnpublished` | outbox/sqlstore.go:172-193 | no step deletes an unpublished row |
| `Outbox.RowTallies` | outbox/sqlstore.go:72-127 | the attempts of a row are its claims since the insert, its version counts the insert and every claim and mark |
| `Outbox.ClaimWaits` | outbox/sqlstore.go:79-114 | a claim comes no earlier than the availability set last, by insert, claim or failed mark |
| `Outbox.ClaimsApart` | outbox/sqlstore.go:79-129 | with positive leases two claims of an event are the first lease apart unless a failed mark or a new insert between them set an availability that the second had reached |
| `Claims.ClaimPossible` | outbox/sqlstore.go:88-113 | whatever is due at a moment that has come can be claimed with that reading |
| `Claims.EarlierNotLeftOut` | outbox/sqlstore.go:94-97 | a claim never leaves out a due event for one available or, at the same time, created later, and takes all due events that fit |
| `Claims.NextClaimIffDue` | outbox/sqlstore.go:79-129 | in every reachable state an unpublished event that is not being claimed can be claimed next with reading t, a moment that has come, exactly if t has reached the availability set last |
| `Claims.SecondClaimIffDue` | outbox/sqlstore.go:79-129 | a claim can be followed by another of the event with the same reading exactly if what set its availability last set one that the reading has reached; never by the claim itself with a positive lease |
| `Outbox.PromptClaimsDisjoint` | outbox/sqlstore.go:79-129 | claims at one instant are disjoint if each failed mark between lands before its retry time and no id is inserted anew |
| `Outbox.LateMarkClaimsTwice` | outbox/dispatcher.go:75-83 | a failed mark that lands after its retry time lets two dispatchers claim one event at one instant |
| `Outbox.PastRetryClaimsTwice` | outbox/sqlstore.go:122-129 | so does a retry time that is past when it is given |
| `Dispatcher.Outboxes.Claim` | outbox/sqlstore.go:79-114 | the batch is dispatched exactly if select and commit are reported and it is what the select returns when it runs; the claim carries the clock read before |
| `Dispatcher.Outboxes.PublishNext` | outbox/dispatcher.go:75-83 | a reported publish was accepted by the broker |
| `Dispatcher.Outboxes.MarkSent` | outbox/sqlstore.go:116-120 | no error exactly if it is reported and the row is unpublished and free when it runs; then that row alone is published, with the time read before |
| `Dispatcher.Outboxes.MarkUnsent` | outbox/dispatcher.go:75-83 | a mark that takes effect sets the retry time to the clock read before plus the delay and the error text to its first 4096 bytes |
| `Dispatcher.Outboxes.Dispatch` | outbox/dispatcher.go:75-88 | the event counts exactly if publish and mark are reported and the mark found the row unpublished; a mark that takes effect is in the log; the batch goes on in any case |
| `Dispatcher.Outboxes.RunOnce` | outbox/dispatcher.go:64-91 | the claim is dispatched exactly if it works; what the dispatcher does, in order, is the claim, one publish and one mark for each event tried, and the return, until the context is found cancelled; exactly those whose publish and mark were reported on an unpublished row count, distinct and each marked in the log; each other one tried, and a cancellation, leave an error |
| `Dispatcher.CountedAreMarked` | outbox/dispatcher.go:84-88 | the events counted are distinct and each has its mark in the log |
| `LockLease.UnlockOnceAndLast` | distlock/redis.go:170-214 | one unlock per finished call, after the callback and the renewer, with nothing after it |
| `LockLease.ResultHasCheckedError` | distlock/redis.go:176-213 | the renewal error in the result is the one found with the lease live |
| `LockLease.FailedRenewalReported` | distlock/redis.go:176-213 | the error a renewal returns reaches the result exactly if the context is live when the renewer looks, whatever happens before and after |
| `LockLease.FailureCanBeDropped` | distlock/redis.go:176-213 | an interleaving in which a failure of a live lease is not reported |
| `LockLease.CallbackReported` | distlock/redis.go:198-213 | what the callback returns is in the result |
| `LockLease.UnlockReported` | distlock/redis.go:211-213 | what the unlock returns is in the result, next to the errors found before |
| `LockLease.FailureCancels` | distlock/redis.go:187-207 | a renewal error to be reported also cancels the context of the callback, and nothing is left in the channel |
| `LockLease.OutsideCancelHides` | distlock/redis.go:187-193 | a failed renewal is not reported if the context is cancelled from outside before the renewer looks |
| `LockLease.CanFinish` | distlock/redis.go:198-213 | once the callback has returned the call can always finish |
| `RenewalLease.StopReportsFailure` | idempotency/manager.go:136-178 | each return of stop reports exactly the renewer's failure, after it is gone, with no later renewal |
| `RenewalLease.FailedRenewalReported` | idempotency/manager.go:136-178 | the error a renewal returns is what every later return of stop reports |
| `RenewalLease.NoFailureNoError` | idempotency/manager.go:136-178 | if every renewal succeeds stop reports no error |
| `RenewalLease.LeaseEndCancels` | idempotency/manager.go:159-175 | the context is cancelled once a failed renewal is dealt with, and once stop has returned |
| `RenewalLease.OneRenewalEach` | idempotency/manager.go:147-177 | runs in which a renewal fails, succeeds, or is forestalled by a cancelled context, each with what stop returns |
| `RenewalLease.SendNeverBlocks` | idempotency/manager.go:136-178 | the renewer's send always finds room |
| `RenewalLease.StopCanReturn` | idempotency/manager.go:136-178 | stop can always reach its return |
| `RoundRobin.RoundIsPermutation` | serviceregistry/discovery.go:174-175 | an even round takes every slot once, from any cursor |
| `RoundRobin.FairIffEven` | serviceregistry/discovery.go:174-175 | a round repeats no slot exactly if the cursor does not wrap inside it or wraps onto a slot boundary |
| `Discovery.SlotCount` | serviceregistry/discovery.go:159-170 | an instance has its weight in slots, zero counting as one, if it is healthy and not ejected, else none |
| `Discovery.RoundIsFair` | serviceregistry/discovery.go:153-176 | with the slots unchanged, as many picks as slots choose each eligible instance exactly its weight times and no other, from any cursor of an even round |
| `Discovery.UnitRoundFairIffEven` | serviceregistry/discovery.go:153-176 | where every weight counts as one, the round is fair exactly if it is even |
| `Discovery.FairIffSameAfterWrap` | serviceregistry/discovery.go:153-176 | for any weights, a round is fair exactly if its picks after the wrap are of the same instances as those that would have followed without it |
| `Discovery.WrapIsUneven` | serviceregistry/discovery.go:174-175 | a wrap at which three slots are taken as 0, 0, 1 |
| `Discovery.ListedIffPickable` | serviceregistry/discovery.go:153-193 | something is listed exactly if something can be picked |
| `Discovery.PickableIff` | serviceregistry/discovery.go:153-173 | something can be picked exactly if there is a snapshot within the allowed age with an instance that is healthy and not ejected any more |
| `Discovery.ListedInOrder` | serviceregistry/discovery.go:183-188 | the instances listed are those at the eligible positions, each once, in order |
| `Discovery.View.Pick` | serviceregistry/discovery.go:153-176 | the instance under the cursor among the weighted slots, cursor moved by one modulo 2^64; nothing and no move when stale, missing or without slots |
| `Discovery.View.Instances` | serviceregistry/discovery.go:177-193 | the eligible instances in order, succeeding exactly when a pick would |
| `Discovery.View.ReportFailure` | serviceregistry/discovery.go:194-198 | the instance is ineligible until the cooldown ends; others are as before |
| `Discovery.View.ReportSuccess` | serviceregistry/discovery.go:199-203 | the instance is eligible if healthy; others are as before |
| `Discovery.View.Apply` | serviceregistry/discovery.go:123-146 | the new snapshot shows, sorted by id, the map the ordered changes make of the old one |
| `Listing.LastChangeWins` | serviceregistry/discovery.go:132-138 | the last effective change of an id decides its entry; without one it stays |
| `Listing.ShowsLists` | serviceregistry/discovery.go:139-143 | when keys match ids the snapshot is strictly sorted, complete and exact |
| `Listing.ListingUnique` | serviceregistry/discovery.go:139-143 | the snapshot does not depend on the order the map was iterated in |
| `Listing.KeysMatchIffConsistent` | serviceregistry/discovery.go:132-138 | keys match ids after the changes exactly if the last effective change of each id carries that id |
| `Listing.ReadBackIffConsistent` | serviceregistry/discovery.go:126-143 | reading the snapshot back gives the map exactly for consistent changes |
| `Listing.ResponsesComposeIffConsistent` | serviceregistry/discovery.go:123-146 | two responses in turn equal their concatenation, whatever the second, exactly if the first is consistent |
| `Listing.SnapshotsCompose` | serviceregistry/discovery.go:123-146 | for consistent changes two responses in turn leave the very sequence of instances that one with their changes in order leaves |
| `Listing.MismatchSurvivesDelete` | serviceregistry/discovery.go:132-138 | a mismatched upsert that a later delete of its id does not remove |
| `Listing.Index` | serviceregistry/discovery.go:126-131 | the snapshot as a map by id, later entries winning |
| `Listing.ApplyChanges` | serviceregistry/discovery.go:132-138 | deletes and upserts in order, an upsert without instance doing nothing |
| `Listing.Collect` | serviceregistry/discovery.go:139-142 | every value once per key, in any order |
| `Listing.SortById` | serviceregistry/discovery.go:143 | a sorted permutation |
| `Listing.LessIsLexicographic` | serviceregistry/discovery.go:143 | ids are compared as in a dictionary |
| `Redact.VisibleKept` | redact/json.go:70-85 | redaction changes nothing that a path without sensitive keys reaches |
| `Redact.HiddenMasked` | redact/json.go:70-85 | a sensitive key holds the mask and nothing lies beneath it |
| `Redact.SameIffAgree` | redact/json.go:70-85 | two trees redact to the same tree exactly if they agree on every path without sensitive keys |
| `Redact.Idempotent` | redact/json.go:70-85 | redacting twice is redacting once |
| `Redact.ContainsIffSeen` | redact/json.go:87-103 | the test is true exactly if some object reached by a path without sensitive keys has one |
| `Redact.UnchangedIffMasked` | redact/json.go:70-103 | a tree is left as it is exactly if it is masked already, in particular when the test is false |
| `Redact.ContainsAfter` | redact/json.go:70-103 | the test answers the same after redaction |
| `Redactor.RedactValue` | redact/json.go:70-85 | in place, in any iteration order and even with shared maps: afterwards nothing sensitive is left under the value, and only sensitive entries were written, with the mask |
| `Redactor.RedactInPlace` | redact/json.go:70-85 | a heap value that represented a tree represents the redacted tree |
| `Redactor.CleanRepresentsRedacted` | redact/json.go:70-85 | masking a value clean amounts to redacting its tree |
| `Redactor.ContainsSensitive` | redact/json.go:87-103 | the traversal with early return computes the test |
| `SensitiveKeys.TableIsRedundant` | redact/json.go:12-15 | every name in the table is recognised by its words |
| `SensitiveKeys.OneWord` | redact/json.go:48-62 | a name of one word is sensitive only as that whole word |
| `SensitiveKeys.NameReads` | redact/json.go:51-55 | neither the case of ASCII letters nor which separator stands between two words matters |
| `SensitiveKeys.WordChars` | redact/json.go:55 | in ASCII exactly the letters and digits belong to words |
| `SensitiveKeys.HarmlessNames` | redact/json.go:48-49 | names that only contain a telling word are not sensitive |
| `SensitiveKeys.TellingWords` | redact/json.go:56-61 | the words that make a name sensitive wherever they stand |
| `SensitiveKeys.TellingKeys` | redact/json.go:62-66 | the word key does after api, access or private |
| `SensitiveKeys.SensitiveKey` | redact/json.go:50-68 | the words of the lowered name alone decide; trimming and the table change nothing |
| `Text.SplitJoin` | routepolicy/route.go:42 | splitting undoes joining parts without the separator |
| `Text.JoinSplit` | routepolicy/route.go:28 | joining undoes splitting |
| `Text.TrimSpaceTakesOff` | routepolicy/route.go:22-23 | trimming takes off white space on both sides and nothing else |
| `Text.WhiteSpace` | routepolicy/route.go:22-23 | the code points that trimming takes off |
| `Text.LowerCase` | redact/json.go:51 | lower case by code point, with the two characters outside ASCII that become ASCII |
| `RouteKey.EscapeUndone` | routepolicy/route.go:33-35 | the x- escape can be undone |
| `RouteKey.DecodeKey` | routepolicy/route.go:27-42 | a key of a route without colon in its method decodes to service, protocol, method and segments |
| `RouteKey.SameKeyIffSameParts` | routepolicy/route.go:27-42 | any two keys are equal exactly if service, protocol and the list of method parts and escaped segments are |
| `RouteKey.RoutesApart` | routepolicy/route.go:21-42 | accepted routes without colon in the method share a key exactly if they are the same |
| `RouteKey.ColonCollides` | routepolicy/route.go:27-42 | every accepted route of two or more segments shares its key with an accepted one whose method holds a colon |
| `RouteKey.ExampleCollides` | routepolicy/route.go:27-42 | two concrete routes with one key |
| `RouteKey.CanonicalIffWellFormed` | stableid/stableid.go:17 | the joined key matches the pattern exactly if its parts are well formed |
| `RouteKey.CanonicalIsNormal` | stableid/stableid.go:37 | a key that matches the pattern is trimmed and in lower case |
| `RouteKey.AcceptsKey` | stableid/stableid.go:33-41 | the generator accepts exactly the keys that match the pattern |
| `RouteKey.CollectSegments` | routepolicy/route.go:28-37 | the segments normalised and escaped in order, or a refusal exactly if one is not a name |
| `RouteKey.NewRoute` | routepolicy/route.go:21-47 | a route is made exactly from the acceptable identities, under their key |
| `RouteKey.PathReads` | routepolicy/route.go:28-29 | a path of names with or without parameter and wildcard marks, in any ASCII case, between any slashes, reads as those names |
| `RouteKey.NameChars` | routepolicy/route.go:15 | the characters of a name |
| `RouteKey.KeyStarts` | routepolicy/route.go:27 | a key starts with route and the separator |
| `RouteKey.TwoPartsSuffice` | stableid/stableid.go:17 | the pattern takes keys of two parts but not of one |

## Left out

- SQL text, dialects, rebinding, audit columns and actors: each statement is one atomic step on rows; a lock wait that times out is a failed statement.
- `DeleteCompletedBefore` and `DeletePublishedBefore`: modelled as guarded deletions at any time; their batching, limits and the retention cleaners' loops are not, since a batch deletes the same rows as a series of such deletions.
- Redis, NATS, gRPC, protobuf and redsync themselves: scripts and broker calls are atomic steps that may land without being reported; codecs are taken to round-trip.
- JetStream's redelivery: statements about the consumer are per delivery, and none says that a nak at the limit is delivered again.
- Interceptor.Manager.Intercept: takes the status code of a handler error not to be OK; an error value that claims to be OK is not modelled.
- Hashing (SHA-256, HMAC, UUID v5): the model stops at the bytes or key that are hashed; distinct owner tokens are a precondition of `Guarded`, as they come from random UUIDs.
- Callback panics in `runLease`: only callbacks that return are modelled; `WithLock` and `TryWithLock` before the lease starts are not.
- `StartLease` refusing to start, and the interceptor's answer to that: decided by reading one branch.
- Tree.Walk: a false result ends only the current sibling list, as in the code; the forest theorems are about `Flatten`, whose visitor always goes on.
- Discovery.View.Pick: one reading of the clock per call where the code reads it per instance, and a missing ejection counts as past; `Run`, `watch`, `restore` and the snapshot files depend on remote services.
- Discovery.RoundIsFair: speaks of rounds in which snapshot and ejections stay and the slots are the same at each moment of a pick.
- Redactor.RedactValue: decoded arrays are values because the code never writes to one; the test for sensitive keys is a parameter, and `SensitiveKey` computes the one the code uses.
- `redact.JSON` and `ContainsSensitiveJSON` around the recursion: decoding and encoding are not part of this model.
- Text.ToLower: lower case and letters outside ASCII, apart from spaces, U+0130 and U+212A, are parameters, so the results hold for any Unicode tables; strings are code points, not invalid bytes.
- Packages authn, authz, appaccess, principal, audit, errorcode, cache, operationlog, securitylog, dynamicconfig, dynamicgrpc, dictionaryprovider, the import and export providers and the CEL policies: validation and plumbing, or wrappers over libraries not shown.
