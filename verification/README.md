# VerificationStation, modelled and proved in Dafny

VerificationStation is a single-process Node service that verifies e-mail addresses. Its input and output are thin;
around them sit a job queue, a batch scheduler, a stream parser, a probe loop, sliding windows with backoff, a verdict
table, a list-file writer and a cache table. This project models those parts and proves what they promise over every
input, every run and every interleaving. DNS, sockets, the clock, `Math.random` and the outcome of a verification are
inputs of the model.

Run `dafny verify dfyconfig.toml` to check everything.

| component | files |
|---|---|
| values and text | `Results`, `Sequences`, `Text`, `StableSort` |
| asynchronous job queue | `JobProtocol` (state machine), `JobTheorems` (runs), `AsyncJobs` (the mutable module) |
| batch verification | `BatchPlan` (dedupe and grouping), `BatchScheduler` (nested limiters), `BatchSafety`, `BatchProgress`, `BatchOrder`, `BatchVerify` |
| SMTP replies | `SmtpReply` (lines), `LineReading` (the reader), `ReplyReading` (multi-line replies) |
| SMTP sessions | `SmtpDialogue` (a client on the reader), `SmtpReadings` (which reply each reading returns), `SmtpDecision` (which one decides) |
| verdicts | `SmtpVerdict` |
| mail exchangers | `MxLookup` (resolver, cache, addresses), `MxProbe` (the probe loop) |
| windows and backoff | `SlidingWindow`, `ProviderCooldown`, `MxFailures` |
| disposable domains | `DisposableList`, `DisposableFile`, `MergeChain` |
| cache table | `SqliteCache`, `CacheLayers` |

Where the source mutates an object, a class does too: its methods are proved against functions on the value of the
object, and the theorems are about those functions and the runs made of them.

## Where the code departs from its apparent intent

The model follows the code; these lemmas say what follows from it.

- `LineReader.pushData` queues a line and also resolves a waiting read with it. Delivery is exactly-once on exactly the
  runs in which no read waits when a line completes (`LineReading.DeliveryLaw`); a client that always asks first reads
  every line twice (`LineReading.EveryLineTwice`). In a session the lines of a reply before its last are doubled harmlessly,
  but a reply whose last line was handed to a waiting read is read again, as a reply of that one line, by the next reading
  (`SmtpReadings.OfLaw`). The session then runs behind the server: the verdict on the recipient is made from the answer to
  RCPT if and only if no reply before it was read again or cut off as too large (`SmtpDecision.VerdictFromRcptExactly`).
  Of a dialogue the client accepts up to the recipient, it is made from the EHLO answer when banner and EHLO answer are
  read again, from the RCPT answer when none of the three is, and from the MAIL answer otherwise; unless that answer is a
  252, the address is then `valid` whatever the server says about it (`SmtpDecision.DialogueVerdict`).
- A timeout on the last mail exchanger returns before the failure accounting, so the timeout branch of the accounting,
  and its ECONNABORTED branch, are never taken (`MxProbe.TailNeverSeesTimeout`).
- An accepted recipient clears the failure stamps and the persistent entry but not the dead-domain entry, so a domain
  that was ever escalated, or found dead in DNS while the caches were in use, stays undeliverable for verifications that
  use them (`MxFailures.AcceptLeavesDeadEntry`).
- The verification of an asynchronous job does not pass the station-wide limiter, but takes provider slots; the bounds,
  the progress and the termination of a batch are proved with such verifications beside it.
- From the fifth block on, a new block may end before the one it replaces (`ProviderCooldown.FifthBumpMayShorten`); blocks are
  sure to advance exactly up to the fourth (`ProviderCooldown.SecondBumpAdvancesExactly`).
- The counter of unknown-response bursts is never fed, because a reply classified as a protocol error is turned into a
  failed exchanger before it gets there (`ProviderCooldown.UnknownBurstIsDead`).
- A readable `dns:` row of an older release answers a lookup whenever the `mx:` row is gone (`CacheLayers.LegacyShowsExactly`).
- Dead code: the stale-entry branch of `pump` (`JobTheorems.QueueHeadIsPending`), the missing-result branch of a batch
  (`BatchVerify.BatchRefinesRows`), the "dns exhausted" error behind the lookup loop, and the last answer of the
  address check (marked where they would stand in `MxLookup`).
- The pattern `/greylist/gi` keeps its position between calls of `test`, so whether a text matches depends on earlier
  texts; the match is an input of `ProviderCooldown`.

## Model

| member | source | states |
|---|---|---|
| JobProtocol.OldestLaw | src/services/async-verify-jobs.service.ts:33-40 | sorting the finished jobs by creation time and taking the head selects a stored finished job that no other finished job precedes |
| JobProtocol.OldestIsFirst | src/services/async-verify-jobs.service.ts:33-40 | of finished jobs created at the same time the one stored first is selected |
| JobTheorems.EvictionLaw | src/services/async-verify-jobs.service.ts:30-43 | eviction deletes finished jobs only, each no younger than any finished job that stays, stops as soon as there is room, and leaves the pending jobs and their order alone |
| JobTheorems.QueueFullExactly | src/services/async-verify-jobs.service.ts:124-133 | a request is refused if and only if the unfinished jobs fill the map |
| JobTheorems.StepKeepsInv | src/services/async-verify-jobs.service.ts:90-147 | every step keeps: distinct ids, queue = pending jobs, at most one job in processing and only while running, a bounded map, a scheduled pump whenever the queue is not empty and nothing runs, and accepted ids = started ids followed by the queue |
| JobTheorems.RunKeepsInv | src/services/async-verify-jobs.service.ts:90-147 | the same over every run |
| JobTheorems.QueueHeadIsPending | src/services/async-verify-jobs.service.ts:98-103 | the head of the queue is stored and pending, so the stale-entry branch is dead |
| JobTheorems.PumpStartsHead | src/services/async-verify-jobs.service.ts:90-108 | a scheduled call of `pump` does nothing while a job runs or none waits, and otherwise takes the head off the queue, moves its job and no other to `processing`, and opens its flight |
| JobTheorems.ExactlyOnePlace | src/services/async-verify-jobs.service.ts:90-147 | every accepted id is in exactly one of queue, processing, stored final, evicted; none is started twice |
| JobTheorems.NoLostWakeUp | src/services/async-verify-jobs.service.ts:117-120 | while an accepted job is not served, a step that brings it nearer is enabled |
| JobTheorems.WeightFalls | src/services/async-verify-jobs.service.ts:90-122 | every step but a new request lowers a weight made of queue length, flight phase and scheduled pumps |
| JobTheorems.QuietRunsAreBounded | src/services/async-verify-jobs.service.ts:90-122 | runs without new requests are no longer than the weight at their start |
| JobTheorems.QuietRunsServeAll | src/services/async-verify-jobs.service.ts:90-147 | a run that only a new request could continue has brought every accepted job to `completed` or `failed`, or evicted it after that |
| JobTheorems.ServedAfterDistance | src/services/async-verify-jobs.service.ts:90-147 | under every interleaving an accepted job is served if and only if the run has made as many progress steps as the job was away |
| JobTheorems.OutcomeLandsOnItsJob | src/services/async-verify-jobs.service.ts:107-115 | a verification that returned completes its own job with its result, one that threw fails it with its message; id, address, time and the other field stay as they were, and no other job changes |
| JobTheorems.JobHistory | src/services/async-verify-jobs.service.ts:90-147 | after any run a stored job carries the address and time of the request accepted under its id; a job found completed is one whose own verification returned, with the result it shows; one found failed is one whose own verification threw the message it shows; any other shows neither |
| JobTheorems.FinalIsFinal | src/services/async-verify-jobs.service.ts:30-43 | a finished job never changes again until it is evicted |
| JobTheorems.RunKeepsFinal | src/services/async-verify-jobs.service.ts:30-43 | over any run a finished job stays as it is, or has been evicted |
| AsyncJobs.JobQueue.EvictOldTerminalIfNeeded | src/services/async-verify-jobs.service.ts:30-43 | the in-place loop leaves the map that the specification of eviction gives |
| AsyncJobs.JobQueue.EnqueueAsyncVerify | src/services/async-verify-jobs.service.ts:124-147 | stores, queues and schedules, or refuses, as the protocol step does, and keeps the invariant |
| AsyncJobs.JobQueue.Pump | src/services/async-verify-jobs.service.ts:90-122 | all branches of a pump call as one protocol step, also from states outside the invariant |
| AsyncJobs.JobQueue.VerificationSettled | src/services/async-verify-jobs.service.ts:108-116 | writes the outcome through the job object the flight holds, which is the stored one: completed with the result, or failed with the message |
| AsyncJobs.JobQueue.WebhookSettled | src/services/async-verify-jobs.service.ts:116-120 | lowers the flag and schedules the next pump if and only if somebody waits |
| AsyncJobs.JobQueue.GetAsyncJob | src/services/async-verify-jobs.service.ts:149-151 | returns the stored job with the id, or none when there is none |
| BatchPlan.Dedupe | src/services/batch-verify.service.ts:83-90 | distinct addresses in order of first occurrence; each of the three options of an address is that of the first row naming it where that row gives it, and otherwise that of the batch |
| BatchPlan.GroupByDomain | src/services/batch-verify.service.ts:92-98 | the insertion-ordered map from domain key to addresses |
| BatchPlan.UniqueKeepsOrder | src/services/batch-verify.service.ts:83-90 | the deduplicated addresses stand in order of first occurrence |
| BatchPlan.GroupsPartition | src/services/batch-verify.service.ts:92-100 | one group a key, in order of first occurrence, holding exactly the addresses of that key in order |
| BatchPlan.WithKeyKeepsOrder | src/services/batch-verify.service.ts:92-98 | the addresses of a group are exactly those of its key, in the order in which they stand |
| BatchSafety.StepKeepsInv | src/services/batch-verify.service.ts:100-129 | every step of the nested limiters keeps: each limiter's queue and count are exactly the tasks that wait for it and hold it, within its bound, and group, item and probe stages agree |
| BatchSafety.RunKeepsInv | src/services/batch-verify.service.ts:100-129 | the same over every run |
| BatchProgress.InitialInv | src/services/batch-verify.service.ts:100-106 | a new batch satisfies the invariant |
| BatchOrder.SlotsAreNested | src/services/batch-verify.service.ts:104-113 | over every run, counting only what the limiters handed out and got back: an address waits for or has a provider slot only while it has its station slot, that only while it has its domain slot, that only while its group has its own |
| BatchOrder.QueuedInRowOrder | src/services/batch-verify.service.ts:104-113 | groups are queued in the order of their domains, and the addresses of a group in their order |
| BatchOrder.ServedInTurn | src/services/provider-smtp-concurrency.service.ts:7-24 | first come, first served at every limiter, however many others arrive: a waiting task is still waiting if and only if no more tasks were started than stood before it |
| BatchOrder.OwnStepsAreBounded | src/services/batch-verify.service.ts:104-129 | the steps of the batch itself are bounded by the stages ahead of its own tasks, whatever else arrives and runs |
| BatchProgress.ConcurrencyBounds | src/services/concurrency.service.ts:6-11 | in every reachable state, beside other limited verifications and job verifications, at most min(M, D times I) verifications of the batch run, at most I for a domain, and at most P probes of anybody for a provider |
| BatchProgress.BatchMoves | src/services/batch-verify.service.ts:104-129 | while a group of the batch is not settled some step is enabled |
| BatchProgress.NoDeadlock | src/services/async-verify-jobs.service.ts:107-121 | while anything on the station is unfinished, job verifications included, some step is enabled |
| BatchProgress.StepGoesForward | src/services/batch-verify.service.ts:104-129 | every step takes one task forward and none back |
| BatchProgress.RunsAreBounded | src/services/batch-verify.service.ts:104-129 | every run is finite, bounded by the stages ahead of the tasks of the station |
| BatchProgress.CanFinish | src/services/batch-verify.service.ts:104-129 | from every reachable state some run finishes the batch |
| BatchVerify.RunKeepsResults | src/services/batch-verify.service.ts:114-126 | over every run the result map holds exactly the recorded addresses, each with its own outcome |
| BatchVerify.FillRejected | src/services/batch-verify.service.ts:131-147 | rejected groups fill in what they did not record, and overwrite nothing |
| BatchVerify.GroupsHaveDistinctEmails | src/services/batch-verify.service.ts:92-100 | no address is in two places of the groups |
| BatchVerify.Located | src/services/batch-verify.service.ts:149-157 | every row's address is in some group |
| BatchVerify.BatchRefinesRows | src/services/batch-verify.service.ts:76-158 | under every completion order and every item or group rejection, as soon as its groups have settled, row j carries row j's address with the result or the rejection of that address's one verification, under options that are each the first row's where it gives them and else the batch's, or else its group's rejection; the missing-result branch is never taken |
| BatchVerify.BatchIsRowByRow | src/services/batch-verify.service.ts:76-158 | without a rejected group every interleaving gives each row the result of its own address under those options |
| SmtpReply.StatusLineRoundTrip | src/services/smtp-code-parser.service.ts:6-14 | parsing inverts printing on every status line with a three-digit code (section 4.2 of RFC 5321) |
| SmtpReply.StatusLinePrintsBack | src/services/smtp-code-parser.service.ts:6-14 | printing inverts parsing on every line the pattern accepts |
| SmtpReply.UnparsedExactly | src/services/smtp-code-parser.service.ts:6-14 | the lines that printing a status gives are exactly those the pattern accepts; any other line is text with code zero |
| SmtpReply.LinesOfConcat | src/services/smtp-code-parser.service.ts:151-162 | cutting a text that arrives in two pieces gives the lines of the whole |
| SmtpReply.LinesArePieces | src/services/smtp-code-parser.service.ts:151-162 | the lines are the pieces of the text between line breaks, each without one carriage return at its end, and what is buffered is the piece behind the last |
| LineReading.LineReader.PushData | src/services/smtp-code-parser.service.ts:151-162 | the loop over the buffer completes the lines of buffer and chunk in order and keeps the unfinished tail |
| LineReading.LineReader.ReadLine | src/services/smtp-code-parser.service.ts:170-176 | takes the queue's head, ends on a closed stream, or waits |
| LineReading.LineReader.End | src/services/smtp-code-parser.service.ts:164-168 | settles every waiting read with the end of the stream |
| LineReading.RunKeepsInv | src/services/smtp-code-parser.service.ts:145-177 | over all interleavings of push, read and end: the lines taken off the queue are the input's lines in order and the queue is the rest of them; the lines handed over on arrival are exactly the marked ones, in order, and went to the reads that waited, oldest first |
| LineReading.PushLaw | src/services/smtp-code-parser.service.ts:151-162 | a push hands its first lines to the waiting reads, oldest first, one each, and queues all of them |
| LineReading.DeliveryLaw | src/services/smtp-code-parser.service.ts:145-177 | exactly-once in-order delivery holds if and only if no read waited when a line completed |
| LineReading.EveryLineTwice | src/services/smtp-code-parser.service.ts:158-160 | a reader that always asks first gets every line twice |
| ReplyReading.ReadSmtpResponse | src/services/smtp-code-parser.service.ts:181-199 | the loop reads one reply off the reader as the specification does, and consumes exactly its lines |
| ReplyReading.ReplyEndsExactly | src/services/smtp-code-parser.service.ts:181-199 | a reply ends with three digits that are not all zero, a space, and text without line terminators, and carries that code; any other line is collected, up to 201 of them |
| ReplyReading.ChunksDoNotMatter | src/services/smtp-code-parser.service.ts:151-162 | any cutting of a text into chunks fills the queue with the lines of the text |
| ReplyReading.OneReply | src/services/smtp-code-parser.service.ts:179-199 | a reply of at most 201 lines is read whole, a longer one is refused |
| ReplyReading.ReplyRoundTrip | src/services/smtp-code-parser.service.ts:145-199 | replies printed on the wire, cut anywhere, come back one at a time with codes and texts, nothing left over (section 4.2.1 of RFC 5321) |
| SmtpVerdict.TextOfReply | src/services/smtp-code-parser.service.ts:16-18 | the text a verdict is made from is what the server wrote behind the codes, joined by single spaces and trimmed |
| SmtpVerdict.StripCodeLaw | src/services/smtp-code-parser.service.ts:16-18 | behind three digits one separator goes with them and nothing else; any other line stays as it is |
| SmtpVerdict.AnswerOfReply | src/services/smtp.service.ts:25-41 | a reply is an answer for the recipient if and only if it is a 2xx, 4xx or 5xx, and its class, semantic and block hint by code and text; any other is a protocol failure |
| SmtpVerdict.VerdictFollowsPolicy | src/services/verification.service.ts:155-321 | for every code and text, classification, narrowing and all mapping branches give the verdict of one policy table |
| SmtpVerdict.VerdictSafety | src/services/smtp-code-parser.service.ts:103-142 | for every code and text: `valid` if and only if 2xx other than 252; `greylisted` if and only if an unblocked 4xx other than 421 and 452; `undeliverable` if and only if an unblocked 5xx, neither a 552 nor a 551 about routing; `unknown` if and only if an unblocked 252, such a 551, or a 552 that is not about space; otherwise `retry_later` |
| SmtpVerdict.ReasonOfReply | src/services/verification.service.ts:141-321 | the reason and the message that go with each verdict, for every code and text |
| SmtpVerdict.EffectsOfReplies | src/services/verification.service.ts:106-180 | a reply clears the failure stamps if and only if it is valid, and counts as a failure only outside 2xx, 4xx and 5xx |
| SmtpVerdict.NoProtocolErrorReply | src/services/smtp.service.ts:25-41 | no reply keeps the class that the last mapping branches look for |
| SmtpDialogue.HearingIsReading | src/services/smtp-code-parser.service.ts:181-199 | hearing line by line gives what the reply loop gives on a queue |
| SmtpDialogue.RunKeepsClient | src/services/smtp.service.ts:81-144 | over all interleavings of pushes, one read at a time and the end of the stream, what a client has read followed by its queue is the input with exactly the handed lines doubled |
| SmtpReadings.OfLaw | src/services/smtp-code-parser.service.ts:151-199 | a reply that fits is read by one reading, with handed lines before its last doubled, and its last line again by the next reading if and only if it was handed to a waiting read |
| SmtpReadings.InStepExactly | src/services/smtp-code-parser.service.ts:151-199 | a reading never runs ahead of the replies, and the k-th reading returns the k-th reply if and only if every reply before it was read by one reading |
| SmtpReadings.ResponsesOfRun | src/services/smtp.service.ts:146-181 | over any run, for replies of any number of lines cut anywhere, the readings return in order what the replies give with the lines that were handed over, and after the end only its end |
| SmtpDecision.SessionByLastReading | src/services/smtp.service.ts:146-181 | a session is decided by its last reading: it times out when that waits, judges the recipient when it is a reply to MAIL or RCPT, and has failed otherwise |
| SmtpDecision.VerdictFromRcptExactly | src/services/smtp.service.ts:146-181 | the verdict carries the code of the reply that the reading behind RCPT returns, and that is the answer to RCPT if and only if every reply before it fits and had its last line queued, not handed over |
| SmtpDecision.DialogueVerdict | src/services/smtp.service.ts:146-181 | for an accepted dialogue, which of the EHLO, MAIL and RCPT answers decides, by which last lines were handed over; not the RCPT answer means `valid`, unless the code is 252 |
| SmtpDecision.LockStepVerdict | src/services/smtp.service.ts:146-181 | when the last lines of banner and EHLO answer arrive while their reads wait, the EHLO answer decides |
| SmtpDecision.DeliveredOnceVerdict | src/services/smtp.service.ts:146-181 | when no last line does, the answer to RCPT decides |
| MxProbe.ProbeRcpt | src/services/smtp.service.ts:219-347 | the labelled nested loop computes the recursive walk: its sessions, its answer, its accounting |
| MxProbe.ProbeLaw | src/services/smtp.service.ts:238-347 | from the behaviour of the servers alone: hosts in order, none skipped; another attempt only after a timeout, or on the last host a protocol failure, while retries last; an answer for the recipient is passed over only with fallback on, if class and semantic allow it, up to the cap; a probe ends before the last host only with an answer that may not be passed over, and on the last host with a timeout or protocol failure only when the retries are used up; the answer is that of the last session; `all_mx_failed` if and only if there are no hosts; accounting if and only if the last session counts as a failure |
| MxProbe.ProbeExactly | src/services/smtp.service.ts:238-347 | those conditions leave no choice: any sessions that obey them are the sessions of the probe |
| MxProbe.EveryHostIsTried | src/services/smtp.service.ts:238-320 | unless the last session answered for the recipient every host was tried, and a timeout or protocol failure at the end was the last retry |
| MxProbe.PassedOverReplies | src/utils/mx-transient-fallback.ts:7-32 | of the replies to a recipient exactly the unblocked 4xx and 552 may be passed over for the next host |
| MxProbe.AccountingExactly | src/services/smtp.service.ts:321-342 | the accounting is reached if and only if the last host's last session ended in a protocol failure or one of six socket errors; it marks that host and reports a refusal, a reset or broken pipe, or else a failed connection, to large providers only |
| MxProbe.WalkLaw | src/services/smtp.service.ts:238-320 | the same from any point of the loops |
| MxProbe.TailNeverSeesTimeout | src/services/smtp.service.ts:321-342 | the accounting never sees a timeout nor ECONNABORTED |
| MxProbe.SessionResults | src/services/smtp.service.ts:78-205 | a session itself ends with an answer or a protocol failure |
| MxProbe.NeverBack | src/services/smtp.service.ts:238-241 | later sessions are later in the order of host and attempt |
| MxLookup.NormalizeLaw | src/services/mx.service.ts:26-35 | every record of the resolver is used once, with its preference, its name without one final dot and in lower case; preferences do not decrease, and equal ones keep resolver order (section 5.1 of RFC 5321) |
| MxLookup.MxResolver.LookupMx | src/services/mx.service.ts:37-94 | a lookup with its cache effect and number of resolver calls, as the specification gives them |
| MxLookup.MxResolver.Resolve | src/services/mx.service.ts:50-94 | the attempt loop |
| MxLookup.LookupLaw | src/services/mx.service.ts:50-94 | what is cached replays the same answer, errors are never cached, at most DNS_RETRIES+1 calls |
| MxLookup.DecidingAnswer | src/services/mx.service.ts:50-92 | the first answer with records, ENOTFOUND, EAI_NONAME or ENODATA decides, and which result and cache entry each gives; without one the failure of the last attempt is passed on, transient or not by its code |
| MxLookup.LookupOnce | src/services/mx.service.ts:37-94 | a cached entry answers without a call unless a refresh is forced; otherwise the resolver does, the entry of this key becomes its answer or goes, and no other entry changes |
| MxLookup.AloneIsOneLookup | src/services/mx.service.ts:37-94 | in the world of overlapping lookups, one that none overlaps is one call of `lookupMx`: same cache, result and number of resolver calls |
| MxLookup.RunKeepsCacheInv | src/services/mx.service.ts:37-94 | however lookups overlap across the waits for the resolver, the cache holds sorted lists that replay what was stored last, and no errors |
| MxLookup.LookupAfterRun | src/services/mx.service.ts:37-94 | however lookups overlap, a finished lookup is a hit or had at most retries+1 resolver calls and the result its own answers give a lookup alone, and its records are sorted |
| MxLookup.HitRepeatsStored | src/services/mx.service.ts:43-48 | after any run a lookup is a hit if and only if its key is cached and no refresh is forced, and then repeats the result stored last |
| MxLookup.RecordsComeFromAnswers | src/services/mx.service.ts:43-67 | over any run the records of any lookup, cached or not, are some answer of the resolver, normalised |
| MxLookup.PermanentExactly | src/services/mx.service.ts:101-133 | a host has an address if and only if A or AAAA has one, and is given up for good if and only if both are authoritatively absent |
| MxLookup.CheckMxExchangesAddressable | src/services/mx.service.ts:136-160 | routable if and only if some host has an address; permanent if and only if no failure was transient |
| MxLookup.RoutableAt | src/services/mx.service.ts:142-154 | the routable hosts are the exchanges at the routable positions, in order |
| MxLookup.RoutableLaw | src/services/mx.service.ts:142-154 | those positions are increasing and are exactly the hosts with an address |
| MxLookup.ContactOrder | src/services/verification.service.ts:441-467 | from the resolver to the wire: every run contacts hosts in non-decreasing preference as the resolver gave it, equal preferences in its order, each under its own record's name |
| SlidingWindow.WindowExtends | src/services/provider-cooldown.service.ts:71-74 | pruning the kept list at an event is pruning the whole history |
| SlidingWindow.WindowCounts | src/services/mx-failure-tracker.service.ts:7-31 | the kept list with the new event is as long as the window of the full history is full |
| SlidingWindow.HitRefinesFullHit | src/services/provider-cooldown.service.ts:250-258 | with a threshold that clears the list, the kept list and the full history fire at the same events and the list stays below the threshold |
| ProviderCooldown.TierIntervals | src/services/provider-cooldown.service.ts:51-69 | the durations of the tiers lie in disjoint increasing intervals from 765000, 3060000, 12240000 and 43200000 ms, below 24 h |
| ProviderCooldown.TierDurationsExactly | src/services/provider-cooldown.service.ts:51-69 | a duration is possible for a tier if and only if it is one of the milliseconds of its interval |
| ProviderCooldown.BumpsEscalate | src/services/provider-cooldown.service.ts:149-171 | the first four blocks strictly advance `until`; from the fourth on every block leaves 12 to 24 h |
| ProviderCooldown.FifthBumpMayShorten | src/services/provider-cooldown.service.ts:66-68 | from the fifth block on there are draws with which a block ends sooner than the one before |
| ProviderCooldown.SecondBumpAdvancesExactly | src/services/provider-cooldown.service.ts:149-171 | two blocks in a row advance `until` at every clock and every draw if and only if the second is at most the fourth |
| ProviderCooldown.CoolState.NetworkFailure | src/services/provider-cooldown.service.ts:247-276 | the field updates of a network failure, as the specification records it |
| ProviderCooldown.CoolState.ApplicationResult | src/services/provider-cooldown.service.ts:285-325 | the same for a reply, through all its early returns |
| ProviderCooldown.Cooldowns.GetOrInit | src/services/provider-cooldown.service.ts:76-90 | the provider's one state object, created empty on first use |
| ProviderCooldown.Cooldowns.RecordSmtpNetworkFailure | src/services/provider-cooldown.service.ts:236-277 | records for the named provider and no other; nothing for `other` |
| ProviderCooldown.Cooldowns.RecordSmtpApplicationResult | src/services/provider-cooldown.service.ts:282-326 | the same for replies; nothing for failed exchangers |
| ProviderCooldown.Cooldowns.IsProviderSmtpBlocked | src/services/provider-cooldown.service.ts:173-188 | blocked if and only if enabled, a named provider, and its `until` lies ahead |
| ProviderCooldown.Cooldowns.ResetProviderCooldown | src/services/provider-cooldown.service.ts:345-352 | forgets one provider or all |
| ProviderCooldown.RecordRefines | src/services/provider-cooldown.service.ts:236-326 | one hook call on pruned lists and on full histories blocks alike, for the same time |
| ProviderCooldown.RunRefinesHistory | src/services/provider-cooldown.service.ts:236-326 | over any run of hook calls under a non-decreasing clock each list is its history's window, shorter than its threshold (2, 2, 5), and all decisions agree |
| ProviderCooldown.RepeatsBlockExactly | src/services/provider-cooldown.service.ts:250-316 | after any run a timeout, or a 450/451, starts a block if and only if enough of its kind since the last clearing lie in (now-W, now] |
| ProviderCooldown.RepliesThatBlock | src/services/provider-cooldown.service.ts:282-326 | after any run, one more answer starts a block if and only if it is a 252, 4xx or 5xx with block-listed or policy text, a 421, or the second 450/451 within ten minutes; an accepted recipient never does |
| ProviderCooldown.FailuresThatBlock | src/services/provider-cooldown.service.ts:236-277 | after any run, one more failure of transport starts a block if and only if it is no timeout, or the second timeout within ten minutes |
| ProviderCooldown.HistoriesAre | src/services/provider-cooldown.service.ts:250-316 | the histories the two rows above count in hold the calls of their kind since two of them last lay within ten minutes |
| ProviderCooldown.BlockEnds | src/services/provider-cooldown.service.ts:149-171 | whatever starts the first, second, third or a later block, it ends 765000 to 1035000, 3060000 to 4140000, 12240000 to 16560000, or 43200000 to 86400000 ms after the clock |
| ProviderCooldown.BlockHolds | src/services/provider-cooldown.service.ts:149-171 | whatever is recorded meanwhile, a block holds at least its tier's least duration |
| ProviderCooldown.ProbeFailureBlocks | src/services/smtp.service.ts:329-342 | every failure the probe accounts for blocks its provider at once, for at least 765000 ms |
| ProviderCooldown.UnknownBurstIsDead | src/services/provider-cooldown.service.ts:318-325 | no classified reply feeds the unknown-response counter |
| MxFailures.MxFailureTracker.RecordMxPathFailure | src/services/mx-failure-tracker.service.ts:15-32 | prunes, appends, counts, and compares with the threshold; a timeout does nothing |
| MxFailures.MxFailureTracker.ClearMxPathFailures | src/services/mx-failure-tracker.service.ts:34-38 | forgets the domain's stamps and its persistent entry |
| MxFailures.MxFailureTracker.WithMxPersistent | src/services/verification.service.ts:75-92 | escalates a soft verdict and writes both caches when the stamps suffice |
| MxFailures.MxFailureTracker.Conclude | src/services/verification.service.ts:390-460 | the verdict of a verification that ended in DNS, at the exchangers or after a probe, with the effect on stamps and caches |
| MxFailures.EffectsOfOutcomes | src/services/verification.service.ts:106-180 | what counts against a domain (every transport failure but a timeout, and unresolvable hosts), what clears it (a valid recipient, nothing else), what alone makes it a dead-domain entry (a missing domain or missing MX without a forced refresh), and the code and reason of each ending in DNS |
| MxFailures.EffectsOfSessions | src/services/verification.service.ts:118-156 | by how the last session of a probe failed: always `retry_later`, the reason of each socket error, and a count against the domain unless it was a timeout, of the session or ETIMEDOUT |
| MxFailures.StampsAreTheWindow | src/services/mx-failure-tracker.service.ts:7-32 | after any run a domain's stamps are the window of its full failure history since its last accepted recipient |
| MxFailures.EscalatesExactly | src/services/verification.service.ts:75-92 | over any run a soft failure becomes `undeliverable` with reason `mx_unreachable_persistent`, writing both caches, if and only if the threshold of non-timeout failures of the domain since its last accepted recipient lies in (now-W, now]; otherwise only DNS writes a dead-domain entry |
| MxFailures.TimeoutsNeverEscalate | src/services/mx-failure-tracker.service.ts:19-21 | a domain without counted failures is never escalated; a dead-domain entry it has comes from DNS |
| MxFailures.CachesAfterRun | src/services/verification.service.ts:89-90 | the persistent entry is there if and only if an escalation followed the last acceptance, the dead-domain entry if and only if the domain was ever escalated, or found dead in DNS without a forced refresh |
| MxFailures.AcceptLeavesDeadEntry | src/services/verification.service.ts:355-368 | after an acceptance the next verification that may use the caches is answered from them if and only if the domain was ever escalated, or found dead in DNS without a forced refresh |
| MxFailures.CachedVerdicts | src/services/verification.service.ts:355-368 | after any run of verifications whatever the two caches answer is about the address asked for and undeliverable, for a reason of DNS or as repeatedly failed; nothing on a forced refresh |
| DisposableList.MergeDomains | src/jobs/mergeDisposableDomainSources.ts:51-59 | the loops and the sort compute the merged list |
| DisposableList.KeptExactly | src/jobs/mergeDisposableDomainSources.ts:17-22 | a line gives the text on it without the white space around it, in lower case, or nothing when there is none or it is a comment |
| DisposableList.KeptFinds | src/jobs/mergeDisposableDomainSources.ts:17-22 | whatever text stands so on a line is read off it |
| DisposableList.MergedIsTheUnion | src/jobs/mergeDisposableDomainSources.ts:51-59 | strictly ascending, and exactly the domains of the sources, each as reading its own line gives it |
| DisposableList.BeforeExactly | src/jobs/mergeDisposableDomainSources.ts:58-59 | the order of the list: a proper beginning first, and otherwise by the first place where two domains differ |
| DisposableList.SortAscends | src/jobs/mergeDisposableDomainSources.ts:58-59 | sorting distinct strings puts exactly them in strictly ascending order |
| DisposableList.AscendingIsUnique | src/jobs/mergeDisposableDomainSources.ts:58-59 | a strictly ascending list is determined by its members, so the order of fetching cannot show |
| DisposableFile.BodyLines | src/jobs/mergeDisposableDomainSources.ts:61-82 | the lines of the written file are the header lines, an empty one, the domains |
| DisposableFile.DecimalReadsBack | src/jobs/mergeDisposableDomainSources.ts:74-76 | a printed count reads back as itself, without leading zeros |
| DisposableFile.ReadBack | src/services/disposable.service.ts:15-18 | parsing the written file gives exactly the merged list: no header line leaks in, no domain is lost |
| DisposableFile.SameBodies | src/jobs/mergeDisposableDomainSources.ts:61-82 | two merges write the same file if and only if date, per-source counts and union agree |
| DisposableFile.MergeAgain | src/jobs/mergeDisposableDomainSources.ts:83-107 | merging the same lists again on the same day changes nothing, whatever the digest |
| DisposableFile.ChangedExactly | src/jobs/mergeDisposableDomainSources.ts:83-107 | on a file of the same sources, a change is reported if and only if date, counts or union changed, when the digest tells the texts apart |
| DisposableFile.ReportCounts | src/jobs/mergeDisposableDomainSources.ts:91-106 | the report counts the different domains of all sources, and for each source its lines with a domain |
| DisposableFile.ReportedChange | src/jobs/mergeDisposableDomainSources.ts:83-106 | a change is reported if and only if the file was not already the new text, which it is then, when the digest tells the two apart |
| DisposableFile.DisposableDomains.ReadDisposableFiles | src/services/disposable.service.ts:8-24 | the loaded set is exactly the union of the readable files |
| DisposableFile.MergeThenLoad | src/services/disposable.service.ts:8-24 | the merge leaves the new text if and only if the digest tells the old file from it, and loading it gives exactly the union of the source lists and the additional file |
| DisposableFile.ListedExactly | src/services/disposable.service.ts:45-47 | a domain in any case is disposable if and only if it is one of the eight built in or was loaded |
| MergeChain.StepKeepsInv | src/jobs/mergeDisposableDomainSources.ts:109-114 | every step of overlapping merges keeps: runs in request order, the file of the settled runs, and no stale decision to write |
| MergeChain.AloneIsMerge | src/jobs/mergeDisposableDomainSources.ts:37-107 | a run of the chain on its own is one merge |
| MergeChain.MergesAreSerial | src/jobs/mergeDisposableDomainSources.ts:109-114 | under every interleaving and failure at most one merge is under way, and file and reports are those of the merges one after the other |
| MergeChain.AlwaysProceeds | src/jobs/mergeDisposableDomainSources.ts:110-113 | a failed merge does not stop the next |
| MergeChain.StepsRunOut | src/jobs/mergeDisposableDomainSources.ts:109-114 | every step but a new request brings the end nearer |
| MergeChain.QuietRunsAreBounded | src/jobs/mergeDisposableDomainSources.ts:109-114 | runs without new requests are no longer than what remained at their start |
| MergeChain.QuietRunsSettleAll | src/jobs/mergeDisposableDomainSources.ts:109-114 | a run that only a new request could continue has settled every request |
| SqliteCache.CacheTable.GetJson | src/repositories/sqlite-cache.repository.ts:59-72 | purges, then reads a row that is still readable |
| SqliteCache.CacheTable.SetJson | src/repositories/sqlite-cache.repository.ts:74-81 | replaces the row, readable for at least one millisecond |
| SqliteCache.CacheTable.GetDns | src/repositories/sqlite-cache.repository.ts:83-88 | reads the lookup row, or else the row of an older release |
| SqliteCache.CacheTable.Delete | src/services/cache.service.ts:128-135 | deletes one entry, for lookups with the row of an older release |
| SqliteCache.CacheTable.Clear | src/repositories/sqlite-cache.repository.ts:124-140 | deletes the rows that the patterns of a clear type match |
| CacheLayers.KeysNeverCollide | src/services/cache.service.ts:67-77 | a full key determines its namespace and its id |
| CacheLayers.EntriesAre | src/services/cache.service.ts:67-77 | two ids address one entry, and one row, if and only if the layers are equal and the ids are: as given for results and lookups, and in any case for the other layers |
| CacheLayers.LikePrefix | src/repositories/sqlite-cache.repository.ts:98-107 | the patterns match exactly the keys that begin with their plain part, in either case of letters |
| CacheLayers.ClearMatchesExactly | src/repositories/sqlite-cache.repository.ts:98-139 | the pattern of one namespace matches a key if and only if the key belongs to it |
| CacheLayers.ClearExactly | src/services/cache.service.ts:338-360 | each clear type empties exactly its own layer, and leaves every other entry readable as before |
| CacheLayers.PurgeUnobservable | src/repositories/sqlite-cache.repository.ts:47-49 | purging changes no reading from its own moment on |
| CacheLayers.StepRefines | src/services/cache.service.ts:90-360 | each operation on the one table answers and moves as on ten maps |
| CacheLayers.TableRefinesMaps | src/services/cache.service.ts:90-360 | over any run under a non-decreasing clock the one table answers as ten independent expiring maps that never purge |
| CacheLayers.FreshTableIsTenMaps | src/repositories/sqlite-cache.repository.ts:22-96 | in particular from an empty table |
| CacheLayers.GetFindsLastSet | src/services/cache.service.ts:90-360 | over any run from an empty table a get finds the value of a set if and only if that set was of the same entry, no later operation set, deleted or cleared it, and its lifetime has not passed |
| CacheLayers.LegacyShowsExactly | src/repositories/sqlite-cache.repository.ts:83-88 | a row of an older release shows if and only if it is readable and the lookup's own row is not |
| CacheLayers.LegacyIsForgotten | src/services/cache.service.ts:128-135 | deleting a lookup, or clearing lookups or everything, also forgets the row of an older release |
| StableSort.SortIsStable | src/services/mx.service.ts:29-34 | sorting keeps equal keys in order |
| StableSort.SortPlaces | src/services/mx.service.ts:29-34 | sorting puts the element of one place of the input at each place, none twice, by key and then by place |
| StableSort.StableSortIsUnique | src/services/mx.service.ts:29-34 | a sorted arrangement that keeps equal keys in order is the one the sort gives |

## Left out

- MxFailures.CachesAfterRun: does not model the expiry of the two cache entries, nor an operator clearing a cache, because lifetimes and clearing are the subject of `CacheLayers`; an entry counts as present until an acceptance deletes it.
- MxFailures.EscalatesExactly: is about one tracker in one process, as the source keeps it; the stamps are not persisted.
- DisposableFile.MergeThenLoad: SHA-256 is an arbitrary function here, so collisions are a case; a file that changes while it is read is not modelled.
- DisposableFile.BodyLines: the fixed wording of the header is arbitrary as long as its lines are comments; the layout, the bullets and the counts are those of the source.
- MergeChain.MergesAreSerial: a write either happens whole or fails before it changes the file.
- ProviderCooldown.TierIntervals: jitter is exact real arithmetic, without floating-point rounding.
- CacheLayers.TableRefinesMaps: is about a table without readable `dns:` rows, which this release never writes; JSON encoding is taken to round-trip, and the switch that disables the result layer is not modelled.
- LineReading.RunKeepsInv: chunks are texts; decoding bytes is not modelled.
- MxLookup.NormalizeLaw: lower case is that of ASCII letters, here and wherever names are compared.
- SmtpVerdict.VerdictFollowsPolicy: the regular expressions on reply text are arbitrary predicates, so nothing is said about which wording they match; scores and explanations are not part of a verdict here.
- SmtpDecision.VerdictFromRcptExactly: a read that times out ends the session, so nothing is read behind it; the timeouts themselves are a reading that has not returned.
- JobTheorems.ServedAfterDistance: assumes that a verification and its webhook settle, as the source does.
- BatchVerify.BatchRefinesRows: the domain key is an arbitrary total function of the address; parsing addresses is not modelled, and the limiter library is a counter with a first-in-first-out queue.
- How long each kind of value is kept in the cache: the lifetime is a parameter of `Set`.
- The options and the callback address carried by an asynchronous job, the signing and posting of the webhook: only that the webhook settles matters to the queue.
- The persisted copy of cooldowns, its reload at start and its mirror in the cache: they copy state, and a clock ahead at reload would only add cases.
- The minimum interval between probes of a provider: the source records a use only after the probe, so no spacing holds for concurrent verifications.
- Equality of cached and fresh verdicts: results with and without SMTP share a cache key, so it does not hold.
- The in-memory cache backend: its expiry differs from that of the table, and its library is not part of this model.
- Catch-all probing, which is for domains of no large provider and so takes no provider slot, role prefixes, risk signals, scoring, metrics, HTTP routes, configuration parsing and scheduling: tables, one-branch facts and plumbing.
