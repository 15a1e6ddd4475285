# Stormchaser, modelled in Dafny

Stormchaser is a distributed workflow engine: replicas of an API and an engine share a database, a
message stream and a cache of git repositories. This project models the protocols and
transformations its correctness rests on, and proves what they keep over every input, every
interleaving and every run.

| file | what it models |
|---|---|
| `ByteStrings`, `Base64`, `EncodedForms`, `Redactor` | scrubbing a run's secrets, plain and encoded, from text and JSON |
| `JsonValues`, `OrderedMaps` | JSON values, and maps that keep the order of their entries |
| `ConfigMask` | masking a connection's config for display and restoring it when it is saved |
| `Decimals`, `TokenBucket`, `RateLimiter` | one token bucket shared by replicas through compare-and-set |
| `RunLifecycle` | a run's status machine under optimistic concurrency, its outbox messages, and crash recovery |
| `OutboxRelay` | publishing the outbox to the stream through crashes, failures and rollbacks |
| `EventDelivery` | redelivery, back-off and giving up; writes that are tried again |
| `LeaderElection` | the lock-based election of the replica that runs the workers, in time |
| `GitCache` | staged clones, renames and refreshes by racing and crashing processes |
| `JinjaTemplate` | wrapping interpolated values as Jinja string literals |
| `MergeSpec` | merging a step's spec onto its library's |
| `RunnerAuth` | subject normalisation and what a runner's signature covers |
| `Hydration` | the loop that runs a form's queries and reports their progress |

A protocol is a state machine: a `State`, a `Step` for each atomic action, `Next`, and runs as
sequences of linked states; an invariant is carried through every step and the theorems speak of all
runs. Code that updates fields or loops is also written as classes and methods (`Connection`,
`WorkflowMachine`, `Message`, `RefreshRecord`, and the methods named below) and proved equal to the
functions the theorems are about. Clocks, the network, the database, git, HMAC, JSON printing, the HCL
evaluator and query results are parameters or steps of the surroundings.

Some laws hold only under a condition. There the code is kept as it is, the condition is proved to be
exact, and a lemma gives an input or a run that fails without it:

- The window bound of the rate limiter, and forgetting idle buckets, need `burst <= 3600 * perSecond`
  (`LimitsHoldExactly`, `ForgettingChangesNothing`, `TwoBursts`). The bound needs a clock that does not go
  back, too; one that does costs what the time it went back brings, and no more (`DriftBound`,
  `ClockGoingBackGrantsTwice`).
- Restoring a masked config gives it back exactly if each hidden query value is the first of its key
  (`MaskRestoreRoundTrip`, `RepeatedKeyIsLost`). Distinct keys are enough.
- One leader at a time holds exactly if sessions in use end by the idle timeout only and workers start
  within twenty seconds (`OneLeaderExactlyWhenSteady`, `AbruptEndGivesTwoLeaders`,
  `SlowStartGivesTwoLeaders`).
- A Jinja literal survives exactly if the template's own text before it does not end in `{`
  (`WrappingPreservesText`, `BraceBeforeInterpolationFails`).
- Merging a spec is idempotent exactly if, where it does not meet a named list of the library's, the
  first and last entries of each name agree (`MergeIsIdempotent`, `RepeatedNameIsNotIdempotent`).
- Normalising a subject is idempotent exactly if no shard follows another (`NormalizeIsIdempotent`,
  `TwoShardsAreTakenInTurn`).
- Hydration results, looked up by name, do not depend on the order of completion exactly if queries that
  share a name agree (`OrderDoesNotMatter`). Their order does, and with it the schema of a form that walks
  over them, unless at most one name succeeds (`EntryOrderMatters`, `LastEventExactly`,
  `LastEventTellsTheOrder`).
- A secret is hidden in every text exactly if it is sealed: it starts and ends in something else than a
  star, and no mask stands inside it (`HiddenExactlyIfSealed`, `UnsealedSurvives`, `StarredSecretSurvives`).
- An entry for a full commit id is on that commit exactly if no branch or tag of that name leads elsewhere
  (`CommitEntriesAreOnTheirId`, `BranchNamedByAnIdGoesFirst`).

## Model

| member | source | states |
|---|---|---|
| ByteStrings.Search | crates/stormchaser-api/src/redact.rs:400-408 | the search finds a needle exactly when it occurs somewhere in the text |
| ByteStrings.ReplaceMakesNothing | crates/stormchaser-api/src/redact.rs:400-408 | replacing any needle by the mask creates no sealed substring that was not there, and leaves none of the needle if that is sealed |
| ByteStrings.UnsealedSurvives | crates/stormchaser-api/src/redact.rs:400-408 | for every needle that is not sealed there is a text whose replacement still holds it |
| ByteStrings.ReplaceAbsent | crates/stormchaser-api/src/redact.rs:400-408 | a text without the needle is left as it is |
| ByteStrings.ReplaceKeepsPieces | crates/stormchaser-api/src/redact.rs:400-408 | pieces joined by the needle, none with an occurrence starting inside it, come out as the same pieces joined by the mask: every occurrence is replaced and every byte between kept |
| ByteStrings.TextIsCut | crates/stormchaser-api/src/redact.rs:400-408 | every text is such a join, so this is what replacing does to any text |
| Base64.DecodeEncode | crates/stormchaser-api/src/redact.rs:460-498 | the encoding, in either alphabet, decodes to what was encoded (sections 4 and 5 of RFC 4648) |
| Base64.EncodeAt | crates/stormchaser-api/src/redact.rs:460-498 | each character of the encoding depends on six bits of the input, at any group and position |
| Base64.FragmentOccurs | crates/stormchaser-api/src/redact.rs:460-498 | the fragment kept for an alignment stands in the encoding of any text around the secret at that alignment |
| EncodedForms.CollectEncodedForms | crates/stormchaser-api/src/redact.rs:460-498 | the loop pushes every form and retains exactly the long ones that are not the secret itself |
| EncodedForms.CollectBase64Forms | crates/stormchaser-api/src/redact.rs:460-487 | for one alphabet, the fragments of all three alignments |
| EncodedForms.EncodedFormsStarFree | crates/stormchaser-api/src/redact.rs:460-498 | no form of a star-free secret holds a star |
| EncodedForms.EncodedFormsAreSealed | crates/stormchaser-api/src/redact.rs:460-498 | every form of a sealed secret is sealed, stars inside it or not |
| EncodedForms.Base64IsCovered | crates/stormchaser-api/src/redact.rs:460-498 | for every prefix, suffix and secret that fills eight characters at the prefix's alignment, the base64 of the whole contains one of the secret's forms, and a star-free one |
| EncodedForms.LongSecretsAreKept | crates/stormchaser-api/src/redact.rs:460-498 | that is six bytes at the start of a group and seven elsewhere, no fewer |
| EncodedForms.ByteCodeIsCovered | crates/stormchaser-api/src/redact.rs:460-498 | the same for percent-encoding, JSON escapes and hex, once the form is long enough to be kept |
| EncodedForms.DecodeEncodeBytes | crates/stormchaser-api/src/redact.rs:489-494 | what percent-encoding, JSON escaping and hex write reads back as the text, by decoders of their own; percent digits are read in upper case only, hex in lower case only |
| EncodedForms.ByteForms | crates/stormchaser-api/src/redact.rs:489-494 | which bytes stand for themselves in a URL and in JSON, and how long the others are written |
| EncodedForms.PlusForSpaces | crates/stormchaser-api/src/redact.rs:489-494 | the form with `+` for spaces is the text, byte for byte, but for its spaces |
| EncodedForms.WholeIsUnpadded | crates/stormchaser-api/src/redact.rs:460-487 | the whole encoding is kept up to the last character the secret reaches into, without padding |
| EncodedForms.UnpaddedIsCovered | crates/stormchaser-api/src/redact.rs:460-498 | a secret encoded by itself without padding is one of its forms, once that is long enough |
| Redactor.LeavesAreAtPaths | crates/stormchaser-api/src/redact.rs:501-509 | what is collected from a JSON value are exactly the strings and numbers at the end of some path into it |
| Redactor.CollectedAre | crates/stormchaser-api/src/redact.rs:326-348 | the redactor collects exactly the sensitive values, the leaves of the secrets, and the leaves of the inputs the schema marks as secret |
| Redactor.NeedlesAre | crates/stormchaser-api/src/redact.rs:350-356 | the needles are exactly the collected values that are long enough and not the mask, and their forms, longest first |
| Redactor.NeedlesAreOrdered | crates/stormchaser-api/src/redact.rs:350-356 | the needles come in one order only, longest first and by bytes among equals, none twice |
| Redactor.NeedlesAreStarFree | crates/stormchaser-api/src/redact.rs:350-356 | if no scrubbed secret holds a star, no needle does |
| Redactor.NeedlesAreSealed | crates/stormchaser-api/src/redact.rs:350-356 | the needles are all sealed if and only if the scrubbed secrets are |
| Redactor.ScrubText | crates/stormchaser-api/src/redact.rs:400-408 | the loop over the needles is the sequence of replacements |
| Redactor.TextHidesNeedles | crates/stormchaser-api/src/redact.rs:400-408 | a sealed needle is left nowhere in the output, whatever the other needles are and the later replacements do |
| Redactor.HiddenExactlyIfSealed | crates/stormchaser-api/src/redact.rs:400-408 | a needle is hidden in every text if and only if it is sealed |
| Redactor.IdempotentExactlyIfSealed | crates/stormchaser-api/src/redact.rs:400-408 | scrubbing a secret twice is scrubbing it once, for every text, if and only if it is sealed |
| Redactor.TextOfClean | crates/stormchaser-api/src/redact.rs:400-408 | a text without needles is left as it is |
| Redactor.TextIdempotent | crates/stormchaser-api/src/redact.rs:400-408 | with any number of sealed needles, scrubbing twice is scrubbing once |
| Redactor.NeedleIsMaskedWhole | crates/stormchaser-api/src/redact.rs:350-408 | a secret that contains another is masked whole |
| Redactor.PlainSecretHidden | crates/stormchaser-api/src/redact.rs:326-408 | the output holds no text with a sealed secret in it, whatever the other secrets are |
| Redactor.Base64SecretHidden | crates/stormchaser-api/src/redact.rs:326-498 | nor the base64 of any text with the secret in it, in either alphabet and wherever the secret fills eight characters, stars in it or not |
| Redactor.UnpaddedSecretHidden | crates/stormchaser-api/src/redact.rs:326-498 | nor the secret encoded by itself without padding, from six bytes on |
| Redactor.ByteCodedSecretHidden | crates/stormchaser-api/src/redact.rs:326-498 | nor its percent-encoded or hex form, stars in it or not, nor its other forms if it is sealed |
| Redactor.RunSecretsAreHidden | crates/stormchaser-api/src/redact.rs:326-498 | from the run's context to the output: every string or number at any depth of the secrets or of a secret input, and every sensitive value, is hidden |
| Redactor.StarredSecretSurvives | crates/stormchaser-api/src/redact.rs:400-408 | a secret that ends in stars reappears out of the mask |
| Redactor.ValueHidesNeedles | crates/stormchaser-api/src/redact.rs:411-433 | no string or key at any depth of a scrubbed JSON value holds a sealed needle, whatever the others are |
| Redactor.ScrubbedInPlace | crates/stormchaser-api/src/redact.rs:411-433 | every value stays at its path, under the scrubbed names of its keys: strings scrubbed, numbers that are secrets masked, the rest as it was |
| Redactor.ScrubbedExactlyIfUnclean | crates/stormchaser-api/src/redact.rs:411-433 | scrubbing changes a JSON value exactly if there is a needle in it, and a second time changes nothing |
| ConfigMask.ConfigRoundTrip | crates/stormchaser-api/src/redact.rs:173-284 | a config saved back as it was shown is the stored one, if and only if its hidden query values can be put back |
| ConfigMask.MaskRestoreRoundTrip | crates/stormchaser-api/src/redact.rs:119-284 | the same at every depth, under any key and through `headers` |
| ConfigMask.DistinctKeysAreRestorable | crates/stormchaser-api/src/redact.rs:218-253 | URLs with distinct query keys can always be restored |
| ConfigMask.RepeatedKeyIsLost | crates/stormchaser-api/src/redact.rs:44-253 | under the API's own lists of keys, a hidden value under a repeated query key comes back as the first one |
| ConfigMask.EditedRestore | crates/stormchaser-api/src/redact.rs:257-284 | a masked form edited at any leaves to mask-free values restores to those edits with every other leaf as stored |
| ConfigMask.MaskingHidesCredentials | crates/stormchaser-api/src/redact.rs:111-215 | two configs have equal masked forms if and only if they differ in credentials only, through any nesting |
| ConfigMask.MaskIdempotent | crates/stormchaser-api/src/redact.rs:111-215 | masking a masked config changes nothing |
| ConfigMask.PlainTextIsMasked | crates/stormchaser-api/src/redact.rs:151-168 | a plain text is masked whole if it holds one of the five keywords in any case, and otherwise shown as it is |
| ConfigMask.ConnectionStringIsMasked | crates/stormchaser-api/src/redact.rs:151-168 | whatever stands before and after the keyword |
| ConfigMask.SecretKeyIsNamed | crates/stormchaser-api/src/redact.rs:18-36 | which keys name a secret: the words, in any case, written out |
| ConfigMask.PublicKeysAre | crates/stormchaser-api/src/redact.rs:111-117 | a key is public exactly if it is listed, in any case, and does not name a secret |
| ConfigMask.UrlIsMasked | crates/stormchaser-api/src/redact.rs:119-148 | a URL keeps everything but its password and the non-empty values of query keys that are not public |
| ConfigMask.MaskedInPlace | crates/stormchaser-api/src/redact.rs:179-215 | every value stays at its path, and is shown or masked by its nearest key, under `headers` by the list for headers |
| ConfigMask.UrlIsRestored | crates/stormchaser-api/src/redact.rs:218-253 | a masked URL gets the stored password and the first stored value of each masked key; the rest is the update's |
| ConfigMask.FirstValueIs | crates/stormchaser-api/src/redact.rs:218-253 | the stored value put back is the first of its key, and nothing exactly if there is none |
| ConfigMask.RestoredInPlace | crates/stormchaser-api/src/redact.rs:257-284 | every value of an update stays at its path and is saved against what was stored at that path |
| Decimals.ParsePrint | crates/stormchaser-api/src/rate_limit.rs:141-153 | a number read back from its decimal text is that number |
| TokenBucket.DecodeEncode | crates/stormchaser-api/src/rate_limit.rs:140-154 | a stored bucket reads back unchanged: tokens are whole thousandths, times are 64-bit |
| TokenBucket.ParseShorter | crates/stormchaser-api/src/rate_limit.rs:140-150 | one, two or three digits after the point stand for tenths, hundredths and thousandths |
| TokenBucket.GarbageIsNoBucket | crates/stormchaser-api/src/rate_limit.rs:140-150 | text without a colon, with a second one, or without tokens is no bucket |
| TokenBucket.TakeTokenInRange | crates/stormchaser-api/src/rate_limit.rs:159-174 | a bucket never holds less than nothing or more than the burst |
| TokenBucket.TopUpBy | crates/stormchaser-api/src/rate_limit.rs:159-174 | every millisecond brings the rate in thousandths, up to the burst, and a clock that goes back brings nothing |
| TokenBucket.TopUpComposes | crates/stormchaser-api/src/rate_limit.rs:159-174 | no time is lost: topping up on the way to a time comes to topping up at that time |
| TokenBucket.ForgettingChangesNothing | crates/stormchaser-api/src/rate_limit.rs:159-193 | forgetting a bucket idle for an hour changes no decision, exactly if an hour refills the burst |
| RateLimiter.RunsAreSequential | crates/stormchaser-api/src/rate_limit.rs:178-241 | however reads and writes interleave and answers get lost, the writes that are applied are those of one process handling requests in turn |
| RateLimiter.GrantedAreAdmitted | crates/stormchaser-api/src/rate_limit.rs:208-234 | the requests let through by a write of their own are no more than the admissions the writes record |
| RateLimiter.WindowBound | crates/stormchaser-api/src/rate_limit.rs:159-234 | a sequential history admits at most the burst and what the window earns, in every window |
| RateLimiter.TokensAreConserved | crates/stormchaser-api/src/rate_limit.rs:159-174 | while the bucket is short of the burst and nothing is forgotten, a thousand times the admissions and the tokens left are the tokens at the start and what time brought |
| RateLimiter.SpacedWritesAreAllowed | crates/stormchaser-api/src/rate_limit.rs:159-174 | with a burst of at least one, writes no faster than the rate are all admitted |
| RateLimiter.RunsStayWithinLimits | crates/stormchaser-api/src/rate_limit.rs:159-234 | so do the requests let through in every run of any number of replicas whose clock does not go back in write order |
| RateLimiter.SpacedRequestsAreAdmitted | crates/stormchaser-api/src/rate_limit.rs:159-234 | over every run whose writes come no faster than the rate, every request that is decided on is let through |
| RateLimiter.DriftBound | crates/stormchaser-api/src/rate_limit.rs:159-174 | whatever the clock does, a window goes over that by no more than the time the clock went back, all in all, would bring |
| RateLimiter.RunsStayWithinDrift | crates/stormchaser-api/src/rate_limit.rs:159-234 | so over every run, for the requests let through |
| RateLimiter.HistoriesAreRuns | crates/stormchaser-api/src/rate_limit.rs:178-241 | every sequential history is that of some run |
| RateLimiter.TwoBursts | crates/stormchaser-api/src/rate_limit.rs:159-193 | with a larger burst, an hour's idling gives a history over the limit |
| RateLimiter.LimitsHoldExactly | crates/stormchaser-api/src/rate_limit.rs:159-234 | the bound holds over all windows of all runs if and only if an hour refills the burst |
| RateLimiter.ClockGoingBackGrantsTwice | crates/stormchaser-api/src/rate_limit.rs:159-174 | a clock that goes back a second hands that second out twice: over the limit, and exactly at the bound for such clocks |
| RateLimiter.TriesAreBounded | crates/stormchaser-api/src/rate_limit.rs:208-241 | a request is undecided for a bounded number of tries before it is let through uncounted |
| RateLimiter.DecisionsAreLogged | crates/stormchaser-api/src/rate_limit.rs:208-234 | over every run, a decided request was decided by a write that was applied |
| RateLimiter.OwnStepsEnd | crates/stormchaser-api/src/rate_limit.rs:208-241 | every step of a request's own brings it nearer to its end, and it has at most nineteen |
| RunLifecycle.Connection.PersistRun | crates/stormchaser-engine/src/persistence.rs:10-52 | the row is replaced exactly if version and status are as expected and the database allows the move |
| RunLifecycle.WorkflowMachine.Save | crates/stormchaser-engine/src/workflow_machine.rs:109-119 | a save moves machine and row together, or leaves the row alone |
| RunLifecycle.WorkflowMachine.Finish | crates/stormchaser-engine/src/workflow_machine.rs:122-129 | the ending is recorded, and an earlier error kept when there is no new one |
| RunLifecycle.WorkflowMachine.StartResolving | crates/stormchaser-engine/src/workflow_machine.rs:164-171 | the whole new state of machine, row and outbox, saved or refused |
| RunLifecycle.WorkflowMachine.BecomePending | crates/stormchaser-engine/src/workflow_machine.rs:177-183 | likewise from resolving to waiting for a start |
| RunLifecycle.WorkflowMachine.Start | crates/stormchaser-engine/src/workflow_machine.rs:189-196 | likewise to running |
| RunLifecycle.WorkflowMachine.Succeed | crates/stormchaser-engine/src/workflow_machine.rs:202-209 | likewise to succeeded, with no message |
| RunLifecycle.WorkflowMachine.Fail | crates/stormchaser-engine/src/workflow_machine.rs:137-222 | likewise to failed, with a cancel message exactly if it was running |
| RunLifecycle.WorkflowMachine.Abort | crates/stormchaser-engine/src/workflow_machine.rs:148-267 | likewise to aborted, with a cancel message exactly if it was running |
| RunLifecycle.WorkflowMachine.Load | crates/stormchaser-engine/src/workflow_machine.rs:84-97 | a machine of a state is had exactly from a row in that state |
| RunLifecycle.GuardIsTheTransitions | migrations/20261020000002_guard_run_transitions.sql:8-21 | the database lets a status change exactly where some state's machine has a transition |
| RunConcurrency.CopyAtVersionIsRow | crates/stormchaser-engine/src/persistence.rs:10-52 | a copy at the stored version is the stored row, so no save overwrites what it has not seen |
| RunConcurrency.RunsKeepInv | crates/stormchaser-engine/src/workflow_machine.rs:82-234 | every step of every interleaving, with open and rolled-back transactions, keeps the invariant |
| RunConcurrency.StatusesFollowTheDiagram | crates/stormchaser-engine/src/workflow_machine.rs:82-234 | the stored statuses are a path of the diagram and nothing follows a finished one |
| RunConcurrency.CommittedStays | crates/stormchaser-engine/src/persistence.rs:10-52 | history, saves and outbox only grow |
| RunConcurrency.FinishedIsFinal | crates/stormchaser-engine/src/workflow_machine.rs:82-234 | a finished run is never changed again |
| RunConcurrency.VersionCountsSaves | crates/stormchaser-engine/src/persistence.rs:10-52 | the stored version is the first one plus the committed saves |
| RunConcurrency.OneSavePerVersion | crates/stormchaser-engine/src/persistence.rs:10-52 | of all machines loaded at one version at most one saves |
| RunConcurrency.AtMostFourSaves | crates/stormchaser-engine/src/workflow_machine.rs:82-234 | a run takes at most four saves, a direct one at most two |
| RunConcurrency.CancelledExactlyOnce | crates/stormchaser-engine/src/workflow_machine.rs:199-267 | one cancel message if the run went from running to failed or aborted, and none otherwise, in every reachable state |
| RunConcurrency.OneWayOutOfResolving | crates/stormchaser-engine/src/workers.rs:232-268 | when crash recovery races a live resolver at most one moves the run on |
| RunConcurrency.RecoveryReportedExactly | crates/stormchaser-engine/src/workers.rs:232-268 | recovery's failed event is in the outbox exactly if recovery's save was committed |
| RunConcurrency.RowTellsTheRun | crates/stormchaser-engine/src/workflow_machine.rs:109-234 | in every reachable state the row's times are those of the saves that brought it there, it has an end and an error as its status says, and after a recovery the error says so |
| RunConcurrency.TimesNotReached | crates/stormchaser-engine/src/workflow_machine.rs:109-234 | a time no save of the run has written is what the row began with |
| RunConcurrency.SaverCanGoOn | crates/stormchaser-engine/src/persistence.rs:10-52 | the machine whose save was committed holds the new row and can save again; no other machine changed |
| OutboxRelay.NothingIsLost | crates/stormchaser-engine/src/workers.rs:270-346 | in every reachable state an event was committed exactly if it is in the outbox or the stream |
| OutboxRelay.StoredAtMostOnce | crates/stormchaser-engine/src/workers.rs:270-346 | a stream that drops repeated ids stores each event at most once |
| OutboxRelay.StreamOnlyGrows | crates/stormchaser-engine/src/workers.rs:270-346 | what is stored or committed stays |
| OutboxRelay.OlderRowsGoFirst | crates/stormchaser-core/src/db/outbox.rs:174-230 | a row older than one in the batch comes before it, unless it is locked |
| OutboxRelay.ShortBatchTakesAll | crates/stormchaser-core/src/db/outbox.rs:174-230 | a batch that is not full leaves out no row that is not locked |
| OutboxRelay.FailedEventGoesBack | crates/stormchaser-engine/src/workers.rs:300-336 | an event that could not be published queues by the time it was put back, once the pass commits, and no other row has moved |
| OutboxRelay.SpoiltPassChangesNothing | crates/stormchaser-engine/src/workers.rs:284-346 | a statement that fails spoils the pass, and a spoilt pass, a failed commit or a crash leaves the outbox as it was |
| OutboxRelay.PublishOutcomes | crates/stormchaser-engine/src/workers.rs:284-336 | only a publish lost on the way leaves the event out of the stream, only an answered one counts as published |
| OutboxRelay.PassesStayApart | crates/stormchaser-core/src/db/outbox.rs:174-230 | over every run no row is in the hands of two passes |
| OutboxRelay.StoredOnceIfSmooth | crates/stormchaser-engine/src/workers.rs:270-346 | over every run without failures each event is stored once even by a stream that drops nothing |
| OutboxRelay.WithoutDedupStoredTwice | crates/stormchaser-engine/src/workers.rs:270-346 | without dropping repeated ids a crash after publishing stores an event twice |
| OutboxRelay.RelayEvent | crates/stormchaser-engine/src/workers.rs:284-336 | publishing one event is two steps of the protocol; if both go well the event is stored and its row deleted |
| OutboxRelay.RelayPass | crates/stormchaser-engine/src/workers.rs:280-346 | a pass over a batch is a path of the protocol; if all goes well the batch left the outbox and is in the stream, and a pass that does not commit leaves the outbox alone |
| EventDelivery.BackoffValues | crates/stormchaser-engine/src/retry.rs:75-78 | the waits double from a second up to a minute |
| EventDelivery.Message.Settle | crates/stormchaser-engine/src/router.rs:78-100 | success and giving up acknowledge, a transient failure waits, and which is which |
| EventDelivery.Message.Handle | crates/stormchaser-engine/src/router.rs:306-339 | one delivery: refuse when delivered too often, run the handler, settle, abandon |
| EventDelivery.Message.Abandon | crates/stormchaser-engine/src/router.rs:33-52 | only an event that starts a run is abandoned |
| EventDelivery.Redeliver | crates/stormchaser-engine/src/router.rs:306-339 | any number of deliveries in a row, as the function the laws are about |
| EventDelivery.HandlerStartsAtMostTenTimes | crates/stormchaser-engine/src/router.rs:320-339 | for every sequence of outcomes, heard or not, at most ten starts and 243 seconds of waits |
| EventDelivery.TransientFailuresWait | crates/stormchaser-engine/src/retry.rs:75-78 | transient failures in a row wait exactly the doubled sum: the bound of 243 is reached |
| EventDelivery.AckedByTheEleventh | crates/stormchaser-engine/src/router.rs:320-339 | if acknowledgements are heard the event is acknowledged by its eleventh delivery |
| EventDelivery.AbandonedExactlyIfGivenUp | crates/stormchaser-engine/src/router.rs:33-100 | if acknowledgements are heard, an event is abandoned once if it is a run event acknowledged without having succeeded or been refused, and otherwise never |
| EventDelivery.SettlingDeliveryDecides | crates/stormchaser-engine/src/router.rs:33-100 | the first delivery that settles decides, whatever comes after: a success or a refusal is no failure of the run, a permanent failure or an eleventh delivery is |
| EventDelivery.UnheardSuccessRunsAgain | crates/stormchaser-engine/src/router.rs:78-100 | a success whose acknowledgement is not heard runs again, and can then be abandoned |
| EventDelivery.Persist | crates/stormchaser-engine/src/retry.rs:82-112 | the result is the first one not worth another try, within sixteen tries |
| LeaderElection.StopsWithinFifteenSeconds | crates/stormchaser-engine/src/leader.rs:55-133 | a leader whose session was alive at the start has stopped its workers within fifteen seconds of the session's end |
| LeaderElection.OneLeaderWhenSteady | crates/stormchaser-engine/src/leader.rs:21-133 | where sessions in use end by the idle timeout only, two replicas' workers never run together |
| LeaderElection.AbruptEndGivesTwoLeaders | crates/stormchaser-engine/src/leader.rs:103-133 | a session that ends otherwise lets a second leader start beside the first |
| LeaderElection.SlowStartGivesTwoLeaders | crates/stormchaser-engine/src/leader.rs:30-133 | so does a start twenty seconds after the lock was last served |
| LeaderElection.OneLeaderExactlyWhenSteady | crates/stormchaser-engine/src/leader.rs:21-133 | one leader over every run, if and only if the world is steady |
| GitCache.RefreshRecord.constructor | crates/stormchaser-core/src/git_cache.rs:284-301 | the record starts empty |
| GitCache.RefreshRecord.RefreshIsDue | crates/stormchaser-core/src/git_cache.rs:284-294 | due exactly if never recorded or long enough ago, and then claimed at once |
| GitCache.RefreshRecord.MarkRefreshed | crates/stormchaser-core/src/git_cache.rs:296-301 | a clone counts as a refresh |
| GitCache.RunsKeepInv | crates/stormchaser-core/src/git_cache.rs:217-317 | every step of racing, failing and crashing calls keeps the invariant of entries, staging directories and calls |
| GitCache.EntriesAreOnTheirRevision | crates/stormchaser-core/src/git_cache.rs:217-280 | an entry that exists is a complete clone on a commit its revision named at some clone or refresh |
| GitCache.ClonesHoldRemoteRefs | crates/stormchaser-core/src/git_cache.rs:264-317 | every reference in a clone is one its remote had at some point of the run |
| GitCache.HeadsComeFromTheRemote | crates/stormchaser-core/src/git_cache.rs:304-382 | an entry's commit was the remote's branch or tag of that name, or git's own reading of the revision where there was neither |
| GitCache.TagsArePeeled | crates/stormchaser-core/src/git_cache.rs:362-382 | a tag of any depth comes down to its commit, and to nothing if there is none |
| GitCache.ResolveOrder | crates/stormchaser-core/src/git_cache.rs:362-382 | the branch goes before the tag and the tag before git's own reading |
| GitCache.FetchBringsUpToDate | crates/stormchaser-core/src/git_cache.rs:304-317 | a fetch brings every branch and tag of the remote up to date and drops none |
| GitCache.RefreshFollowsTheBranch | crates/stormchaser-core/src/git_cache.rs:304-382 | a refresh brings the entry to where the remote's branch was at the fetch, whatever happens between its steps, unless another call writes the entry |
| GitCache.CommitEntriesNeverChange | crates/stormchaser-core/src/git_cache.rs:217-230 | entries stay, and one for a full commit id stays as it is |
| GitCache.CommitEntriesAreOnTheirId | crates/stormchaser-core/src/git_cache.rs:362-382 | an entry for a full commit id is on that commit if and only if the branch of that name in its clone, or else the tag, leads there too; so it is where the remote had neither |
| GitCache.BranchNamedByAnIdGoesFirst | crates/stormchaser-core/src/git_cache.rs:362-382 | a run in which a branch named by the id takes the entry |
| GitCache.CallsCleanUp | crates/stormchaser-core/src/git_cache.rs:240-262 | a call that fails without a crash leaves no staging directory and made no entry; one that succeeds leaves the entry; staging directories belong to calls at work or crashed |
| GitCache.EntryServesLaterCalls | crates/stormchaser-core/src/git_cache.rs:217-238 | over every run, a call that begins once its entry is there never clones, and does not fail, whatever becomes of a refresh |
| GitCache.OnlyCommitIdsAreNotRefreshed | crates/stormchaser-core/src/git_cache.rs:217-230 | an entry found is fetched again exactly if it is due and its revision is not 40 or 64 hex digits |
| GitCache.RefreshesAreApart | crates/stormchaser-core/src/git_cache.rs:284-301 | in one process, refreshes of an entry start at least the interval apart |
| GitCache.RefreshWaitsAfterClone | crates/stormchaser-core/src/git_cache.rs:284-301 | nor does a process refresh an entry sooner than that after cloning it |
| JinjaTemplate.JinjaStringLiteral | crates/stormchaser-engine/src/hcl_eval.rs:315-331 | the loop writes the quoted, escaped literal |
| JinjaTemplate.EscapeReads | crates/stormchaser-engine/src/hcl_eval.rs:318-327 | every character's escape reads back as that character, control characters included |
| JinjaTemplate.EscapeForms | crates/stormchaser-engine/src/hcl_eval.rs:318-327 | which characters are written as themselves, with a short escape, and by number |
| JinjaTemplate.LiteralHoldsNoControls | crates/stormchaser-engine/src/hcl_eval.rs:315-331 | a literal holds no control character, whatever its text holds |
| JinjaTemplate.LiteralReads | crates/stormchaser-engine/src/hcl_eval.rs:315-331 | a literal prints as exactly its text, whatever the text and whatever follows |
| JinjaTemplate.WrapInterpolations | crates/stormchaser-engine/src/hcl_eval.rs:289-312 | every interpolation, at any depth of if and for, is wrapped, and nothing else changes |
| JinjaTemplate.TemplateOutput | crates/stormchaser-engine/src/hcl_eval.rs:257-312 | the wrapped template's output is the original's with each value written as a literal |
| JinjaTemplate.ChunksRead | crates/stormchaser-engine/src/hcl_eval.rs:315-331 | reading the output back gives the plain text, or fails exactly if a value follows an opening brace |
| JinjaTemplate.WrappingPreservesText | crates/stormchaser-engine/src/hcl_eval.rs:257-331 | both passes together give the text of the original template, if and only if no value follows an opening brace of the template's own; and they fail together |
| JinjaTemplate.ClosedTemplatesKeepText | crates/stormchaser-engine/src/hcl_eval.rs:257-331 | a template whose own texts hold no markup and end in no brace keeps its text in every scope |
| JinjaTemplate.BraceBeforeInterpolationFails | crates/stormchaser-engine/src/hcl_eval.rs:315-331 | a brace before an interpolation makes the first pass's output unreadable |
| MergeSpec.MergeNamedLists | crates/stormchaser-dsl/src/libraries.rs:102-111 | the loop replaces the first entry of the name, or appends |
| MergeSpec.MergeValues | crates/stormchaser-dsl/src/libraries.rs:89-114 | removing and inserting key by key, in any order of keys, is the merge |
| MergeSpec.MergedNames | crates/stormchaser-dsl/src/libraries.rs:102-111 | base entries keep names and places; new names follow, once each, in the step's order |
| MergeSpec.PlacesKept | crates/stormchaser-dsl/src/libraries.rs:102-111 | each place of the base holds the step's last entry of that name if it is the name's first place, and otherwise what it held |
| MergeSpec.EntryByName | crates/stormchaser-dsl/src/libraries.rs:102-111 | looked up by name, the step's entry wins and the others are the base's |
| MergeSpec.NamedListsMerge | crates/stormchaser-dsl/src/libraries.rs:102-119 | two lists that are not empty, of objects with a string for a name, merge to the library's names and the step's new ones, each answered by the step or else the library |
| MergeSpec.OtherListsReplace | crates/stormchaser-dsl/src/libraries.rs:102-119 | where either is empty or has an item that is not such an object, the step's list stands |
| MergeSpec.SingleEntriesMerge | crates/stormchaser-dsl/src/libraries.rs:102-119 | an entry each: both are there, or the step's if they share a name |
| MergeSpec.MergedAt | crates/stormchaser-dsl/src/libraries.rs:89-114 | what stands at every path: both merged, the step's, the library's, or nothing where the step hides it; under null the base |
| MergeSpec.StepValueWins | crates/stormchaser-dsl/src/libraries.rs:83-114 | at every path: a null leaves the library's value, any other leaf replaces it, and named entries go by name |
| MergeSpec.UnmentionedStays | crates/stormchaser-dsl/src/libraries.rs:89-114 | what the step does not mention is as the library has it, at every path |
| MergeSpec.ListSettles | crates/stormchaser-dsl/src/libraries.rs:102-111 | a list is left as it is exactly if it answers every name the step uses as the step does |
| MergeSpec.MergeWithItself | crates/stormchaser-dsl/src/libraries.rs:89-114 | a spec merged onto itself is itself exactly if it is stable |
| MergeSpec.MergeIsIdempotent | crates/stormchaser-dsl/src/libraries.rs:89-114 | for any library and step, merging twice is merging once exactly if the step's lists settle |
| MergeSpec.IdempotentForEveryBase | crates/stormchaser-dsl/src/libraries.rs:89-114 | idempotent on every library exactly if the step's spec is stable |
| MergeSpec.DistinctNamesAreStable | crates/stormchaser-dsl/src/libraries.rs:102-119 | distinct names are enough |
| MergeSpec.RepeatedNameIsNotIdempotent | crates/stormchaser-dsl/src/libraries.rs:102-111 | two different entries of one name are not |
| RunnerAuth.SplitJoin | crates/stormchaser-model/src/runner_auth.rs:240-247 | joining dot-free parts and splitting gives the parts |
| RunnerAuth.NormalizeIsIdempotent | crates/stormchaser-model/src/runner_auth.rs:240-247 | normalising twice is normalising once exactly if no shard follows another |
| RunnerAuth.TwoShardsAreTakenInTurn | crates/stormchaser-model/src/runner_auth.rs:240-247 | a subject with two shards loses one each time |
| RunnerAuth.GeneratedSubjectsNormalize | crates/stormchaser-model/src/nats.rs:176-254 | every generated subject, normalised any number of times, is its route, whatever its shard |
| RunnerAuth.RoutesAreDistinct | crates/stormchaser-model/src/nats.rs:176-254 | subjects of different kinds never normalise alike |
| RunnerAuth.ShardsAre | crates/stormchaser-model/src/runner_auth.rs:240-247 | a number is a shard exactly if it fits 32 bits, signed with a plus or not, and besides those only `global` is |
| RunnerAuth.SignedBytesAreUnambiguous | crates/stormchaser-model/src/runner_auth.rs:327-332 | equal signed bytes mean equal normalised subject, time and payload, and the other way round |
| RunnerAuth.SignThenVerify | crates/stormchaser-model/src/runner_auth.rs:253-314 | a signed payload verifies exactly with the same key, on subjects that normalise alike, within 300 seconds |
| RunnerAuth.AcceptedIsWhatWasSigned | crates/stormchaser-model/src/runner_auth.rs:281-314 | whatever verifies holds exactly the fields, route and time its MAC was made for |
| RunnerAuth.RefusedBecause | crates/stormchaser-model/src/runner_auth.rs:281-314 | which message gets which refusal, in the order the checks are made |
| RunnerAuth.SigningReplaces | crates/stormchaser-model/src/runner_auth.rs:253-267 | signing again leaves no trace of an earlier signature; what is no object stays as it is |
| Hydration.StartTasks | crates/stormchaser-query/src/hydration.rs:280-295 | tasks whose dependencies are all there start, the others wait |
| Hydration.RunHydrationLoop | crates/stormchaser-query/src/hydration.rs:263-404 | for any order of completion: each task's final status, the results as entries in the order they were first inserted, and the whole list of events |
| Hydration.StatusesNeverGoBack | crates/stormchaser-query/src/hydration.rs:358-385 | from any completion to any later one a status stays or moves on from running |
| Hydration.EventsNeverGoBack | crates/stormchaser-query/src/hydration.rs:291-404 | so do the statuses from any event to any later event |
| Hydration.EventsReportPending | crates/stormchaser-query/src/hydration.rs:147-404 | every event before the last reports pending when anything runs; the last does exactly if a task panicked |
| Hydration.LastReportIs | crates/stormchaser-query/src/hydration.rs:147-204 | the last event reports completed, incomplete or failed exactly as the inputs fare against the resolved schema |
| Hydration.EarlierEventsShowTheSchema | crates/stormchaser-query/src/hydration.rs:291-404 | until the last, every event shows the schema as declared |
| Hydration.StatusMapIs | crates/stormchaser-query/src/hydration.rs:149-160 | an event shows, for every name, the status of the last query of that name |
| Hydration.CompletionsAreReported | crates/stormchaser-query/src/hydration.rs:358-385 | after every completion that leaves something running there is an event with the statuses then |
| Hydration.OrderDoesNotMatter | crates/stormchaser-query/src/hydration.rs:357-385 | looked up by name, the results are the same for every order of completion if and only if successful queries that share a name agree |
| Hydration.EntryOrderMatters | crates/stormchaser-query/src/hydration.rs:357-385 | as entries in order they are the same if and only if, besides, at most one name succeeds |
| Hydration.DistinctNamesAgree | crates/stormchaser-query/src/hydration.rs:357-385 | distinct names are enough |
| Hydration.LastEventIsTheSame | crates/stormchaser-query/src/hydration.rs:387-404 | the last event, with its schema, statuses and report, is the same for every order if the schema reads results by name, or at most one name succeeds |
| Hydration.LastEventExactly | crates/stormchaser-query/src/hydration.rs:387-404 | for a schema that shows all results, it is the same if and only if shared names agree and at most one succeeds |
| Hydration.LastEventTellsTheOrder | crates/stormchaser-query/src/hydration.rs:387-404 | a schema that walks over the results of two queries ends as `a,b,` or `b,a,` |

## Left out

- TokenBucket: tokens are exact thousandths; rounding of `f64`, and texts with an exponent, a bare point or more than three digits after it, which `encode` never writes, are not modelled.
- ConfigMask: a URL is its password, its query pairs and the rest; the URL library's parsing and normalisation, and setting an empty password, are not modelled. JSON is transformed as a value, not in place.
- Redactor: `value` rewrites JSON in place in the source; here it returns the new value. Which step outputs are sensitive is given.
- RateLimiter: client addresses, trusted proxies and the key of a bucket.
- RunLifecycle: timestamps other than those a transition sets, and the step state machine.
- OutboxRelay: the stream drops repeated ids for ever, not for its window of two minutes, and drops nothing for age.
- EventDelivery: a message without delivery information counts as its tenth delivery in the source; deliveries here are always numbered. Progress signals while a handler runs are not modelled.
- LeaderElection: timers fire when they are due; a replica that is paused between them is not modelled.
- GitCache: a full commit id is compared with git's own as text, upper case being another text. Staging names never collide, `remove_dir_all` succeeds, and the truncated hashes in directory names are taken to be unique. Checking files out into the working tree is left out.
- JinjaTemplate: strip markers, the trailing newline Jinja drops, and Jinja expressions of the template author's own. The texts of values are the evaluator's.
- MergeSpec: the order of object keys, which JSON equality ignores. Params and their references are left out.
- RunnerAuth: key exchange, session state and real cryptography; times close to the limits of 64 bits, where the difference of two would overflow.
- Hydration: a receiver that closes early, the texts of validation errors, and the flattening of the schema for display.
- Configuration, permissions, SQL, NATS and HTTP clients, the HCL parser, telemetry, the command line and the web interface: plumbing or easy members.
