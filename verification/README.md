# Verified model of the issue platform's concurrent core

This project models the parts of the platform whose correctness rests on several functions, processes or services
agreeing under concurrency and failure, and proves what they promise. Processes interleave freely: each protocol is a
state machine over atomic steps, its properties are proved for every run, and beside it the code that takes the steps is
written as classes and methods, statement by statement, with everybody else acting in between.

## The event pipeline

| file | what it models |
|---|---|
| `Issues`, `IssueDatabase`, `IssueHistory` | versioned issue rows, compare-and-swap writes on stale snapshots, history and outbox rows in the same transaction |
| `IssueRepository` | the repository and the service as objects, with rollback and other clients' commits between read and write |
| `Outbox`, `OutboxRuns`, `OutboxLease`, `OutboxWitness`, `OutboxDrain` | publishers that lease the heads of the unpublished events, send them ambiguously, and mark or fail them; what the lease protects and where it ends |
| `OutboxPublisher` | the publisher's poll as code, a refinement of that protocol |
| `Projection`, `ReadTimes`, `RedisStore` | which notifications an event asks for and how Redis stores them: deterministic ids, fields set if absent; readers whose calls race; pipeline and round trips as code |
| `Consumer`, `ConsumerSafety` | replicas that hold one record each and move it through processing, the dead-letter topic and the commit |
| `ConsumerService` | the consumer's loop as code, a refinement of that protocol |
| `Pipeline` | all of it as one state machine, and what follows end to end |

## The other parts

| file | what it models |
|---|---|
| `Cursor`, `Base64Url`, `Calendar`, `Like`, `Listing` | keyset paging with an opaque cursor, and the client that collects all pages |
| `Workspace`, `WorkspaceService` | membership requests that count owners and write later, and the deferred trigger that locks and looks again |
| `RefreshTokens`, `RefreshService` | refresh-token rotation, logout and cleanup over one table |
| `RateLimit` | the fixed-window limiter's commands, round trip by round trip |
| `Planning`, `Slug`, `Text` | calendar dates as text, slug normal form, text order |

## How interference is modelled

A method `Interfere` stands for whatever the other processes do between two statements. Its contract is all its callers
know: the shared state has moved by some run of the protocol that leaves the caller's own place alone. Its body is empty,
doing nothing being one of the runs it may stand for. Ghost fields (`origin`, `trace`, `steps`) record the
run, so a method's contract can say which protocol steps it took. Answers of services outside the model (whether a send
was written, whether a commit was confirmed, whether a user is eligible) are parameters, and every combination is covered.

## Where the code and its documentation differ

- `contracts/events/README.md` and decision record 0004 say an issue's events are published in version order. For first
  occurrences that holds in every run (`OutboxRuns.FirstOccurrencesInOrder`). For every record it takes two things, and
  no less (`OutboxWitness.OrderHoldsExactlyWhen`): there is one publisher, or every publisher works off each claim before
  its 30-second lease ends; and the record of a send that was given up arrives, if at all, before its row falls due again
  (a backoff of at least one second after the failure record, the end of the lease after a crash). Without the first, a
  send at the moment the lease ends can make the log read 1, 2, 1 (`DuplicatesCanStepBack`); without the second, so can
  one publisher that keeps every deadline, when its first attempt arrives after all (`LateRecordCanStepBack`).
- The budget of 20 attempts needs the first of these only (`OutboxWitness.BudgetHoldsExactlyWhen`); with no deadline n
  publishers can make 19 + n attempts and no more (`OutboxWitness.MostAttempts`).
- `docs/product/business-rules.md` and `docs/flows/notification.md` say that mark-read is idempotent. MarkAllRead is: it
  keeps the first read time. MarkRead checks and writes in separate commands, and of two calls that overlap the second
  replaces the first one's read time (`ReadTimes.OverlappingCallsMoveIt`). The first read time moves exactly when a call
  that checked before the first read writes after it, last and another time (`ReadTimes.FirstReadTimeMovesExactlyWhen`),
  so it is fixed once no such call is in flight.
- A token that expires between the lookup and the rotation is still rotated: the rotation tests only `revoked`
  (`RefreshTokens.ExpiredTokenCanRotate`; `RotationTestsRevocationOnly` says exactly when: the request takes at least as
  long as the token had left at its lookup).

## Model

| member | source | states |
|---|---|---|
| Pipeline.NextKeepsInv | apps/issue-service-nest/src/infrastructure/outbox.publisher.ts:52-119 | Every step of the whole pipeline (issue transactions, publishers, clock, network, consumers, rebalances, readers), in any interleaving, keeps the joint invariant: the outbox rows are the protocol's rows, the consumers' topic is the published log, and each part's own invariant holds. |
| Pipeline.PartsKeepTheirProtocols | apps/issue-service-nest/src/infrastructure/outbox.publisher.ts:52-119 | Each step of the pipeline is, for every part, a step of that part's own protocol: an issue step inserts at most one event into the outbox, an outbox step adds at most one record to the group's topic and only does bookkeeping on the events. |
| Pipeline.AddedEventIsNext | apps/issue-service-nest/src/infrastructure/postgres-issue.repository.ts:474-548 | The outbox row that an issue transaction adds is, for the publishers, the next version of its issue: unpublished, no attempts, above all its versions, with no gap below it. |
| Pipeline.EveryWriteIsAccountedFor | apps/notification-service-go/internal/consumer/issue_events.go:125-193 | No loss, end to end: in every reachable state each version of each issue was announced by exactly one event, and that event is unpublished in the outbox, or stands in the log, where once the group has committed past it it has been projected or dead-lettered. |
| Pipeline.EarlierVersionsAreSettledFirst | apps/notification-service-go/internal/consumer/issue_events.go:122-193 | Order, end to end: while a replica holds a record, every earlier version of its issue has already been projected or dead-lettered, whatever the publishers, duplicates, rebalances and restarts did. |
| Pipeline.EffectivelyOnce | apps/notification-service-go/internal/store/redis_store.go:36-63 | Effectively once, end to end and without hypotheses: for any duplicates, retries, crashes and reads, Redis holds exactly one notification per (event, user) that some handling found eligible and wrote, with that event's content and time, indexed, and nothing else. |
| Pipeline.NoPhantoms | apps/notification-service-go/internal/consumer/issue_events.go:201-270 | Every stored notification announces a committed event to a user that event names, never to its actor, and tells what the event did: its issue, project, time, kind, title and text; and it is in the user's index. |
| Pipeline.SuccessNotifiesEveryone | apps/notification-service-go/internal/consumer/issue_events.go:201-270 | When a record was handled successfully, it is the envelope of a committed event, and every user that event names, other than the actor, was decided: found to have access, with the notification stored, or found to have none. |
| Pipeline.ReporterAndAssigneeHear | apps/issue-service-nest/src/infrastructure/postgres-issue.repository.ts:474-553 | From the issue to the inbox: once the record of an issue's version was handled successfully, its reporter and its assignee in that version have been reached, unless one of them made the change. |
| Pipeline.PublishedEventsAreNeverRejected | apps/notification-service-go/internal/consumer/issue_events.go:324-334 | What the issue service publishes is never a permanent failure for the consumer: it reaches the dead-letter topic only after transient failures. |
| Pipeline.EnvelopeIsValid | apps/notification-service-go/internal/consumer/issue_events.go:324-334 | Every published envelope passes the consumer's validation. |
| Issues.WorkflowEdges | apps/issue-service-nest/src/domain/issue.ts:143-157 | A transition is accepted exactly along the edges to do - in progress - done, in either direction. |
| IssueDatabase.RecipientsExact | apps/issue-service-nest/src/infrastructure/postgres-issue.repository.ts:546-553 | The recipients of an event are exactly the non-blank users named, other than the actor, each once. |
| IssueDatabase.CreateStoresRequest | apps/issue-service-nest/src/infrastructure/postgres-issue.repository.ts:84-142 | A creation stores, field by field, the issue asked for, unchanged by anybody yet, and one event due at once that announces it; no other issue, event or comment changes. |
| IssueDatabase.WriteAnnounces | apps/issue-service-nest/src/infrastructure/postgres-issue.repository.ts:195-344 | The event of every write carries the version, project, actor, time and key of the row it produces, is due at once, and names exactly that row's reporter and assignee, less the actor; a comment's event shows its first 160 characters. |
| IssueHistory.NextKeepsInv | apps/issue-service-nest/src/infrastructure/postgres-issue.repository.ts:84-342 | Every create, load and save, committed or rolled back, keeps versions, history rows, events and numbers in agreement. |
| IssueHistory.EqualVersionsEqualRows | apps/issue-service-nest/src/infrastructure/postgres-issue.repository.ts:474-497 | A snapshot, however old, whose version equals the stored version is the stored row. |
| IssueHistory.StaleChecksHold | apps/issue-service-nest/src/application/issue-application.service.ts:168-187 | A request checked on an old snapshot whose compare-and-swap succeeds was checked on the row stored at that moment: it is accepted on that row (the version it names, a legal edge) and changes it as it asks and in nothing else. |
| IssueHistory.FreshRequestGoesThrough | apps/issue-service-nest/src/application/issue-application.service.ts:97-199 | In every reachable state a client that loads an issue and sends a request the service accepts on that row, with new ids and a commit that succeeds, gets it fulfilled. |
| IssueHistory.PreparedAsAsked | apps/issue-service-nest/src/application/issue-application.service.ts:97-199 | The service's checks pass exactly when the request names the row's version and a status change follows the workflow; the write they become gives every field the value asked for, or leaves it. |
| IssueHistory.EventsNameReporterAndAssignee | apps/issue-service-nest/src/infrastructure/postgres-issue.repository.ts:515-553 | In every reachable state each event announces one version of its issue to the reporter and assignee of that version, less the author of that version's history row. |
| IssueHistory.FromValuesAreTrue | apps/issue-service-nest/src/infrastructure/postgres-issue.repository.ts:269-302 | Every history row's from-value, copied from a snapshot, is what the previous version held, and between adjacent versions the status kept still or moved along a workflow edge. |
| IssueHistory.HistoryReplaysToRow | apps/issue-service-nest/src/infrastructure/postgres-issue.repository.ts:499-513 | Replaying an issue's history in commit order gives its current summary, type, priority, status and assignee, and its description once recorded. |
| IssueHistory.VersionCountsWrites | apps/issue-service-nest/src/infrastructure/postgres-issue.repository.ts:195-344 | version = number of history rows = number of outbox rows, and the outbox versions are exactly 1..version. |
| IssueHistory.NumbersHaveNoGaps | apps/issue-service-nest/src/infrastructure/postgres-issue.repository.ts:84-142 | A project's issues carry exactly the numbers 1..last_number, one each, however many transactions rolled back. |
| IssueRepository.VersionGuardsRow | apps/issue-service-nest/src/infrastructure/postgres-issue.repository.ts:474-497 | Whatever transactions run, a row that still has the same version is unchanged. |
| IssueRepository.Repository.UpdateWithVersion | apps/issue-service-nest/src/infrastructure/postgres-issue.repository.ts:474-497 | Compare-and-swap: the row is replaced and its version raised exactly when the expected version is stored; otherwise nothing changes. |
| IssueRepository.Repository.CreateIssue | apps/issue-service-nest/src/infrastructure/postgres-issue.repository.ts:84-142 | The transaction, statement by statement with rollback, equals the atomic creation; what it returns is the issue asked for, field by field; it fails as a duplicate exactly when one of its ids is taken. |
| IssueRepository.Repository.WriteIssue | apps/issue-service-nest/src/infrastructure/postgres-issue.repository.ts:195-344 | updateIssue, assignIssue, transitionIssue and addComment, statement by statement with rollback, equal the atomic write; a conflict is reported exactly when the row is gone or the version differs. |
| IssueRepository.Service.Save | apps/issue-service-nest/src/application/issue-application.service.ts:97-199 | Read, let any other transactions commit, check, compare-and-swap. The answer, error by error, depends on what was read and what the others left exactly as stated, a stale version or an illegal edge included. A success makes the row stored after the others its next version, each field as asked or as it was, with one true history row of the right action, one fresh event to the right users, and the comment; nothing else changes. A failure leaves the others' result alone. |
| Outbox.NextKeepsInv | apps/issue-service-nest/src/infrastructure/postgres-issue.repository.ts:374-449 | Every step of the outbox protocol, for any number of publishers, keeps: published means logged, every event ever claimed is the head of its issue, and each log record has all earlier versions of its issue before it. |
| OutboxRuns.FirstOccurrencesInOrder | apps/issue-service-nest/src/infrastructure/postgres-issue.repository.ts:374-427 | For any number of publishers, crashes, ambiguous sends and expired leases, the first occurrences of an issue's events in the log are versions 1, 2, 3, ... in order, without a gap. |
| OutboxRuns.NothingIsLost | apps/issue-service-nest/src/infrastructure/outbox.publisher.ts:62-95 | Every committed event is unpublished in the outbox or stands in the log of its key. |
| OutboxRuns.RunsOnlyAdd | apps/issue-service-nest/src/infrastructure/outbox.publisher.ts:52-119 | Runs never remove or change an event, never unpublish one, and only append to the log. |
| OutboxRuns.BatchHoldsOneEventPerIssue | apps/issue-service-nest/src/infrastructure/postgres-issue.repository.ts:383-402 | A claim never holds two events of one issue. |
| OutboxRuns.AttemptsBounded | apps/issue-service-nest/src/infrastructure/postgres-issue.repository.ts:429-449 | No event makes more than 19 attempts plus one per publisher. |
| OutboxRuns.OthersLeavePublisher | apps/issue-service-nest/src/infrastructure/outbox.publisher.ts:52-119 | What others do leaves a publisher's batch and its progress alone. |
| OutboxLease.StepKeepsLeases | apps/issue-service-nest/src/infrastructure/postgres-issue.repository.ts:374-402 | Step by step, for one publisher without any deadline or several whose sends, marks and failure records come before the lease of their claim has run out: no event is held by two publishers under running leases; a leased row is not due, has attempts left, and is unpublished while it is sent; and while a record of a given-up send may still arrive in time, its row is unpublished, not due, and held by nobody but the publisher that gave it up. |
| OutboxLease.LeasesProtect | docs/decisions/0004-outbox-claim-and-per-aggregate-ordering.md:16-18 | One publisher, however slow, or any number that work off each claim before its lease ends, at the end of every run: leases are exclusive and no event has made more than 20 attempts; and if records of given-up sends arrive, if at all, before their row falls due again, no issue's versions have stepped back in the log. |
| OutboxWitness.DuplicatesCanStepBack | contracts/events/README.md:5 | For any two of any publishers and any deadline beyond the lease there is a run that keeps the deadline, without any late record, in which an issue's log reads 1, 2, 1: the documented order then holds for first occurrences only. |
| OutboxWitness.LateRecordCanStepBack | apps/issue-service-nest/src/infrastructure/outbox.publisher.ts:62-79 | For any publishers, even one, that work off every claim in the second it is made, there is a run in which an issue's log reads 1, 2, 1 because the record of a send given up arrives at the moment its row falls due again. |
| OutboxWitness.OrderHoldsExactlyWhen | docs/decisions/0004-outbox-claim-and-per-aggregate-ordering.md:18 | The documented order, exactly. For given publishers, a deadline for working off a claim and a time after its row fell due again within which the record of a given-up send may still arrive: order holds in every run that keeps these bounds if and only if there is at most one publisher or the deadline is not beyond the 30-second lease, and no record may arrive once its row is due again (or nobody can publish at all: no publishers, or a deadline of zero). |
| OutboxWitness.BudgetHoldsExactlyWhen | apps/issue-service-nest/src/infrastructure/postgres-issue.repository.ts:429-449 | The budget of 20 attempts, exactly: it holds in every such run if and only if there is at most one publisher or the deadline is not beyond the lease, whenever late records arrive. |
| OutboxWitness.PublishersOverrun | apps/issue-service-nest/src/infrastructure/postgres-issue.repository.ts:429-449 | Any m of the publishers, with room for m - 1 leases before the deadline, can make 19 + m attempts at one event. |
| OutboxWitness.MostAttempts | apps/issue-service-nest/src/infrastructure/postgres-issue.repository.ts:429-449 | Without a deadline, the most attempts that n publishers can make at one event is 19 + n, for every n >= 1: no run makes more, and some run makes that many. |
| OutboxDrain.PollPublishesHeads | apps/issue-service-nest/src/infrastructure/postgres-issue.repository.ts:374-427 | A successful poll that finds the heads due publishes min(50, number of heads) of them, and at least one if any event is left. |
| OutboxDrain.UndisturbedPollIsPoll | apps/issue-service-nest/src/infrastructure/outbox.publisher.ts:52-79 | The steps that PublishBatch takes when every send is acknowledged and the mark succeeds are a run of the protocol, and with nobody in between they leave exactly the rows function Poll states. |
| OutboxDrain.PollsEmptyTheOutbox | apps/issue-service-nest/src/infrastructure/outbox.publisher.ts:62-79 | Over the protocol's own steps: while nobody else acts and each poll finds the heads due, as many successful polls as there are unpublished events empty the outbox. |
| OutboxDrain.TotalDelayClosedForm | apps/issue-service-nest/src/infrastructure/postgres-issue.repository.ts:433-448 | The delays of the first n failures sum to 2^n - 1 seconds up to n = 9 and to 511 + 300(n - 9) after that; 3811 seconds for 20. |
| OutboxDrain.RequeueRevives | docs/api/health.md:27-32 | After the operator's reset no unpublished event is abandoned: those that were are due at once with a fresh budget, and no other row changes. |
| OutboxDrain.ScheduleFollowsBackoff | apps/issue-service-nest/src/infrastructure/postgres-issue.repository.ts:429-449 | A row that fails whenever it is due waits exactly that schedule and is abandoned after 20 failures. |
| OutboxPublisher.Shared.ClaimPendingEvents | apps/issue-service-nest/src/infrastructure/postgres-issue.repository.ts:374-420 | The claim takes claimable events that nobody has locked, oldest first, up to the limit; any such event it leaves means the limit was reached and is no older; taken rows are due again in 30 seconds, nothing else changes; and it is a step of the protocol. |
| OutboxPublisher.Shared.MarkEventsPublished | apps/issue-service-nest/src/infrastructure/postgres-issue.repository.ts:422-427 | Marks exactly the batch published, or, when the answer is lost, possibly so; no row changes otherwise. |
| OutboxPublisher.Shared.RecordPublishFailure | apps/issue-service-nest/src/infrastructure/postgres-issue.repository.ts:429-449 | One more attempt on this row only, the next one due after the backoff of the attempts before; abandoned exactly when the budget is used up. |
| OutboxPublisher.Replica.PublishBatch | apps/issue-service-nest/src/infrastructure/outbox.publisher.ts:52-119 | One poll, with anything the other replicas, the issue service, the clock and the network do before the claim, before each send, before the mark and before each failure record, is a run of the protocol whose own steps are exactly those of the poll: a claim of the oldest heads due at that moment, one send per event, then one mark or a failure record per event; claim, mark and failure records may each be committed with the answer lost. |
| OutboxPublisher.PollDoes | apps/issue-service-nest/src/infrastructure/outbox.publisher.ts:62-95 | What those steps do with a batch: every event is sent; the batch is marked exactly if every send was acknowledged and the mark is confirmed; otherwise a failure is recorded for exactly the events that come before the database stops answering. |
| OutboxPublisher.Replica.SendAll | apps/issue-service-nest/src/infrastructure/outbox.publisher.ts:62-70 | Every event of the batch is sent once; the batch counts as delivered exactly when every send was acknowledged. |
| OutboxPublisher.Replica.RecordAll | apps/issue-service-nest/src/infrastructure/outbox.publisher.ts:71-95 | A failure record for every event of the batch, until the database stops answering, the last of them possibly committed unanswered. |
| Projection.ValidMeansComplete | apps/notification-service-go/internal/consumer/issue_events.go:324-334 | An event is accepted exactly when it has schema version 1, a known type, and an event id, an issue id and a project id that are not blank. |
| Projection.NormalUserId | apps/notification-service-go/internal/consumer/issue_events.go:336-352 | Spellings of a user id that differ in letter case or outer white space are one id, with one normal form. |
| Projection.HandleMeans | apps/notification-service-go/internal/consumer/issue_events.go:201-270 | Exactly when handling succeeds: a valid event, an access checker, every addressed user decided one way or the other, and the save confirmed if anybody is eligible; exactly when it fails for good: an undecodable or incomplete event; everything else is to be tried again. It writes for exactly the eligible addressed users, each once, and only after all are decided. |
| Projection.RecipientsExact | apps/notification-service-go/internal/consumer/issue_events.go:336-352 | The recipients are exactly the normalised texts that are not blank and not the actor. |
| Projection.RecipientsDistinct | apps/notification-service-go/internal/consumer/issue_events.go:336-352 | No recipient occurs twice. |
| Projection.NormalizeRecipients | apps/notification-service-go/internal/consumer/issue_events.go:336-352 | The loop with its set of seen users computes that list. |
| Projection.KeyInjective | apps/notification-service-go/internal/store/redis_store.go:133-138 | Different (event, user) pairs have different notification keys. |
| Projection.NotifiedAreRecipients | apps/notification-service-go/internal/consumer/issue_events.go:215-235 | Only an eligible recipient the event names, never the actor, has a notification written. |
| Projection.NotifiedMeaning | apps/notification-service-go/internal/consumer/issue_events.go:262-267 | The notified pairs are exactly those some processing found eligible and whose pipeline reached Redis. |
| Projection.ExactlyOnce | apps/notification-service-go/internal/store/redis_store.go:36-63 | After any records, duplicates, failures, lost replies and reads, the store holds exactly one notification per notified pair, with that event's content. |
| Projection.ReprocessingChangesNothing | apps/notification-service-go/internal/store/redis_store.go:50-56 | Processing a record whose eligible users were all notified before changes nothing: no content, no read time, no index. |
| Projection.DuplicatesDoNotShow | apps/notification-service-go/internal/store/redis_store.go:36-63 | With fixed access answers, a log with duplicates projects to what its de-duplicated log projects to. |
| Projection.NeverUnreadAgain | apps/notification-service-go/internal/store/redis_store.go:93-131 | No operation makes a read notification unread, and only MarkRead's write can move a read time. |
| ReadTimes.RunsAreStoreRuns | apps/notification-service-go/internal/store/redis_store.go:93-131 | With MarkRead as the commands it sends and any calls racing, every run does to the store what some run of module Projection does, so all that is proved there holds. |
| ReadTimes.MovesByLastWrite | apps/notification-service-go/internal/store/redis_store.go:93-131 | Over any run with any calls racing, the read time of a read notification at the end differs from the one at the start exactly when some MarkRead wrote it in between and the last to do so wrote another time: records, MarkAllRead and checks never move it. |
| ReadTimes.OverlappingCallsMoveIt | apps/notification-service-go/internal/store/redis_store.go:100-107 | On any unread notification, two calls that both check before either writes: the second write replaces the first read time, whatever the two times are. |
| ReadTimes.FirstReadTimeMovesExactlyWhen | apps/notification-service-go/internal/store/redis_store.go:93-108 | From no call in flight, for every run: a notification first read at some step has another read time at the end exactly when a call that checked before that step, and was in flight ever since, writes after it, no later write follows, and it writes another time. |
| ReadTimes.FirstReadTimeIsFixedExactlyWhen | apps/notification-service-go/internal/store/redis_store.go:93-108 | What is known beforehand: the read time of a read notification stays the same in every continuation exactly when no MarkRead of it is in flight. |
| Projection.RedeliveryIsHarmlessExactlyWhen | apps/notification-service-go/internal/consumer/issue_events.go:257-261 | A redelivery leaves the store unchanged exactly when the event carries a time or the clock has not moved. |
| Projection.MarkAllMarksExactly | apps/notification-service-go/internal/store/redis_store.go:110-131 | MarkAllRead gives exactly the listed notifications that exist and are unread the time of the call; no other hash, field or index entry changes. |
| Projection.ReadExactlyWhenMarked | apps/notification-service-go/internal/store/redis_store.go:46-48 | Over any run: a notification is stored unread, and it is read, with a time, exactly from the first MarkRead write or MarkAllRead on that found it there. |
| RedisStore.Store.SaveEventNotifications | apps/notification-service-go/internal/store/redis_store.go:36-63 | The queued commands, with a hash's fields in any order, have together exactly the effect Save states, or none. |
| RedisStore.Store.QueueSave | apps/notification-service-go/internal/store/redis_store.go:41-58 | The commands of one notification store it field by field if absent, whatever the order of the fields. |
| RedisStore.Store.MarkRead | apps/notification-service-go/internal/store/redis_store.go:93-108 | Three round trips, each of which may go unanswered, with anything in between: a run of the machine above in which the call's own steps are a check and, exactly when that finds the notification unread, a write; so a call begun on a read notification writes nothing, and moves no read time unless another call was in flight. Not found exactly when the hash did not exist; acknowledged means read. |
| RedisStore.Store.MarkAllRead | apps/notification-service-go/internal/store/redis_store.go:110-131 | The ids are read from the index first; then, whatever others did in between, the scripts run together on all of them, or not at all. Every notification that was in the index at the call and is still stored is read at the end. |
| RedisStore.RunGoesOn | apps/notification-service-go/internal/store/redis_store.go:93-131 | However a run goes on, a notification once stored stays, one that is read stays read, and it keeps its read time if no MarkRead of it was in flight. |
| RedisStore.Handler.HandleRecord | apps/notification-service-go/internal/consumer/issue_events.go:201-270 | The handler with its early returns has exactly the outcome and the effect on Redis that Handle and Project state: Redis is written only after every access check has answered, and it succeeds only if each answered yes or no. |
| RedisStore.Handler.BuildNotifications | apps/notification-service-go/internal/consumer/issue_events.go:242-261 | Every eligible user gets one notification, stamped with the event's time, or the clock when the event has none. |
| Consumer.NextKeepsInv | apps/notification-service-go/internal/consumer/issue_events.go:125-193 | Every step of the consumer group (fetch, attempt, dead-letter write, commit, each with lost answers; rebalance; restart) keeps: everything below a committed offset or a held record is settled. |
| Consumer.CommittedMeansSettled | apps/notification-service-go/internal/consumer/issue_events.go:122-193 | In every reachable state each record below a committed offset was projected successfully or copied to the dead-letter topic. |
| Consumer.ResumesPastLastCommit | apps/notification-service-go/internal/consumer/issue_events.go:287-303 | In every reachable state a partition's committed offset lies just past the last record whose commit took effect, and there a replica resumes that is given the partition or restarts. |
| Consumer.FetchesAreConsecutive | apps/notification-service-go/internal/consumer/issue_events.go:128-142 | A replica fetches the record at its position, and the next it fetches from the partition is the one after, whatever happens in between, unless it was given the partition anew or restarted. |
| ConsumerSafety.RunsPassTheAudit | apps/notification-service-go/internal/consumer/issue_events.go:125-193 | Every run passes, for every replica, an audit that sees only its actions and rejects any fetch, attempt, copy or commit out of turn. |
| ConsumerSafety.FetchWaitsForCommit | apps/notification-service-go/internal/consumer/issue_events.go:128-142 | Between two fetches of a replica its first record was committed (or the replica restarted): at most one record is outstanding. |
| ConsumerSafety.CommitIsEarned | apps/notification-service-go/internal/consumer/issue_events.go:145-191 | A replica commits a record only after it projected it or copied it to the dead-letter topic itself. |
| ConsumerSafety.TriesAreBounded | apps/notification-service-go/internal/consumer/issue_events.go:152-157 | A record is handled at most maxProcessAttempts times before the replica lets go of it. |
| ConsumerSafety.CopyIsFaithful | apps/notification-service-go/internal/consumer/issue_events.go:279-285 | A dead-letter copy keeps key, value and prior headers and adds the reason of the last failure, which was permanent or the last allowed attempt. |
| ConsumerSafety.RunsProjectTheLog | apps/notification-service-go/internal/consumer/issue_events.go:125-193 | Redis is exactly the projection of what was handled, the dead-letter topic exactly the copies written, and only records of the log are fetched. |
| ConsumerSafety.EveryIterationMakesProgress | apps/notification-service-go/internal/consumer/issue_events.go:144-191 | Each iteration of a replica brings its record nearer to the commit, by a measure of at most maxProcessAttempts + 2, whatever handling does. |
| ConsumerService.Group.Process | apps/notification-service-go/internal/consumer/issue_events.go:145-157 | One attempt: handles the held record and moves its stage as the outcome demands. |
| ConsumerService.Group.WriteDlq | apps/notification-service-go/internal/consumer/issue_events.go:279-285 | Publishes one copy, with the record's key and value, and moves on only when the write is confirmed. |
| ConsumerService.Group.CommitMessages | apps/notification-service-go/internal/consumer/issue_events.go:287-291 | A commit that takes effect, confirmed or not, sets the partition's committed offset to one past the record; one that does not changes none; other partitions keep theirs; the record is let go only when the commit is confirmed. |
| ConsumerService.IssueEventConsumer.constructor | apps/notification-service-go/internal/consumer/issue_events.go:100-120 | Attempt limits below one are raised to one. |
| ConsumerService.IssueEventConsumer.RunLoop | apps/notification-service-go/internal/consumer/issue_events.go:125-193 | The loop, with anything in between, takes exactly the steps function Run computes from the answers it gets, each allowed by the protocol, and returns exactly where the source does. |
| ConsumerService.IssueEventConsumer.IterateOnce | apps/notification-service-go/internal/consumer/issue_events.go:144-191 | The switch over the stage does what function Iterate states. |
| ConsumerService.IssueEventConsumer.CommitBatch | apps/notification-service-go/internal/consumer/issue_events.go:287-303 | The bounded commit loop: done exactly when an attempt within the limit succeeds with no cancellation before it. |
| ConsumerService.FetchedRecordIsDone | apps/notification-service-go/internal/consumer/issue_events.go:125-193 | Over the loop itself: a record fetched in iteration n is committed, and the loop free for the next, within maxProcessAttempts + 2 iterations, however handling fares, once dead-letter writes and commits answer. |
| ConsumerService.LoopEndsExactlyWhen | apps/notification-service-go/internal/consumer/issue_events.go:125-193 | The loop returns in an iteration exactly when it finds the context cancelled at one of the points where it looks, and lets go of a record exactly when a commit attempt within the limit is confirmed; otherwise it keeps that record. |
| Calendar.DayNumberCountsDays | apps/issue-service-nest/src/domain/planning.ts:38-41 | The day arithmetic behind Date agrees with the calendar: one more per calendar day, across months, leap years and centuries. |
| Calendar.ParsePrintFixpoint | apps/issue-service-nest/src/application/issue-list-query.ts:50-63 | Parsing a timestamp and printing it again gives it back exactly when it names a real instant. |
| Planning.AcceptsExactlyRealDates | apps/issue-service-nest/src/domain/planning.ts:33-43 | optionalDate accepts, unchanged, exactly the texts of real Gregorian dates of the years 0000-9999; what does not have the shape of a date is told apart from a date that does not exist. |
| Planning.TextOrderIsCalendarOrder | apps/issue-service-nest/src/domain/planning.ts:45-51 | planDates rejects exactly a plan that has both days and whose target day is before its start day: on accepted dates the text comparison is that of the days. |
| Slug.SlugIsJoinedWords | apps/project-service-dotnet/Application/RequestValidation.cs:47-69 | Under any case mapping and notion of white space that leave slug characters alone, as those of ASCII do (`Slug.AsciiIsSound`): the slug of a text is its lower-cased alphanumeric runs joined by single hyphens, and there is one exactly when the text is of allowed length and characters (`Slug.SlugCharactersAre`) and has a run. |
| Slug.NormalizeIsIdempotent | apps/project-service-dotnet/Application/RequestValidation.cs:47-69 | Normalising a slug again changes nothing, under the same proviso. |
| Slug.TooLongOnlyFromInput | apps/project-service-dotnet/Application/RequestValidation.cs:58-61 | The second length check can never fail: the replacements only shorten. |
| Slug.ErrorsExactly | apps/project-service-dotnet/Application/RequestValidation.cs:47-69 | Of a text that is not too long: bad characters are reported exactly when it has some, and a missing slug exactly when it has none but no alphanumeric run either. |
| Base64Url.RoundTrip | apps/issue-service-nest/src/application/issue-list-query.ts:45-51 | Decoding inverts encoding on every byte sequence. |
| Base64Url.CutKeepsBits | apps/issue-service-nest/src/application/issue-list-query.ts:45-47 | Each three bytes become the four digits that write the same 24 bits, and a last group of two or one those of its bits and zeros (section 5 of RFC 4648); `Base64Url.AlphabetIsUrlSafe` says how digits are written. |
| Cursor.RoundTrip | apps/issue-service-nest/src/application/issue-list-query.ts:45-67 | decode(encode(p)) = p for every position the repository hands out. |
| Cursor.AcceptsExactlyCanonicalCursors | apps/issue-service-nest/src/application/issue-list-query.ts:49-67 | A cursor decodes to p if and only if it is the canonical unpadded base64url text of a real instant and a UUID that is p's up to letter case. |
| Cursor.UuidShapeMeans | apps/issue-service-nest/src/domain/issue.ts:130-140 | An id is accepted exactly when it has 36 characters, hyphens in the four usual places, hexadecimal digits elsewhere, a version of 1 to 5 and the RFC variant. |
| Cursor.AcceptsExactlyRealInstants | apps/issue-service-nest/src/application/issue-list-query.ts:52-60 | The re-print check lets through exactly the timestamps that name a real instant. |
| Cursor.TextOrderIsTimeOrder | apps/issue-service-nest/src/infrastructure/postgres-issue.repository.ts:162-166 | The text order of accepted timestamps is the order of the instants. |
| Like.MatchesExactlySubstrings | apps/issue-service-nest/src/infrastructure/postgres-issue.repository.ts:158-161 | For all texts, the LIKE matcher accepts s against the escaped, wrapped q exactly when q occurs in s. |
| Like.SearchIsCaseBlindSubstring | apps/issue-service-nest/src/infrastructure/postgres-issue.repository.ts:158-161 | The same with letter case folded on both sides by any character mapping that leaves the pattern characters alone and makes no others, as that of ASCII does (`Like.AsciiKeepsPatterns`). |
| Like.SearchPatternIsWellFormed | apps/issue-service-nest/src/infrastructure/postgres-issue.repository.ts:158-161 | No search text escapes into a pattern that ends in a bare escape character. |
| Like.EscapingIsNeeded | apps/issue-service-nest/src/infrastructure/postgres-issue.repository.ts:158-161 | Unescaped, a search for an underscore would find every text but the empty one, and one for a percent sign every text. |
| Like.BareEscapeIsAnError | apps/issue-service-nest/src/infrastructure/postgres-issue.repository.ts:158-161 | One more escape character at the end of a well-formed pattern makes it an error. |
| Listing.MatchingIsAsked | apps/issue-service-nest/src/infrastructure/postgres-issue.repository.ts:152-161 | The statement selects exactly the rows of the table that have the project, and the status, assignee and sprint where given, and whose summary contains the text where given, under any folding of letter case that keeps the pattern characters; a blank filter is none. |
| Listing.NewestIsTop | apps/issue-service-nest/src/infrastructure/postgres-issue.repository.ts:167-176 | ORDER BY ... DESC LIMIT n: distinct rows of the set, descending, min(n, size) of them, and everything left out is older. |
| Listing.DescendingIsUnique | apps/issue-service-nest/src/infrastructure/postgres-issue.repository.ts:167-176 | A set of rows has only one descending list, so filter-then-sort is well defined. |
| Listing.PageIsExact | apps/issue-service-nest/src/infrastructure/postgres-issue.repository.ts:144-185 | A page holds matching rows older than the position; there is a next page exactly when more match than fit; it is full unless it is the last; and what it leaves out is older than its last row. |
| Listing.PagesDescend | apps/web-client/src/features/issue/api.ts:41-54 | Whatever happens between the reads, the concatenated pages are strictly descending in (created_at, id). |
| Listing.PagesWereRead | apps/web-client/src/features/issue/api.ts:41-54 | Every issue listed was in the table at some read and matched the filter there. |
| Listing.NoIssueRepeats | apps/web-client/src/features/issue/api.ts:41-54 | With created_at and id never rewritten, no issue is listed twice. |
| Listing.CompleteList | apps/web-client/src/features/issue/api.ts:41-54 | The finished list contains every issue that existed and matched the filter at every page read. |
| Listing.ListedWasAsked | apps/web-client/src/features/issue/api.ts:41-54 | In the client's terms: every issue listed was in the table at some read with the project, status, assignee, sprint and text asked for. |
| Listing.AskedIsListed | apps/web-client/src/features/issue/api.ts:41-54 | And every issue that was there with all of these at every read is listed. |
| Listing.NewestFirst | apps/issue-service-nest/src/infrastructure/postgres-issue.repository.ts:167-176 | The concatenated pages run from the newest instant to the oldest, and by id within one instant. |
| Listing.FixedTableIsFilterThenSort | apps/web-client/src/features/issue/api.ts:41-54 | On a table at rest the client stops for every page size of at least one, and its list is exactly filter-then-sort. |
| Listing.CursorsAreAccepted | apps/issue-service-nest/src/application/issue-list-query.ts:45-67 | The cursors the client sends back are never rejected. |
| Listing.ListIssues | apps/web-client/src/features/issue/api.ts:41-54 | The client's loop computes WalkOver over the tables its reads meet and never sees its cursor rejected. |
| Workspace.NextKeepsInv | apps/project-service-dotnet/Infrastructure/Data/Migrations/20260824140000_EnforceWorkspaceOwnerInvariant.cs:16-54 | Every step of concurrent membership requests keeps: every workspace has an owner, row and workspace locks are exclusive, and a passed check stays true until its commit. |
| Workspace.EveryWorkspaceHasAnOwner | apps/project-service-dotnet/Infrastructure/Data/Migrations/20260824140000_EnforceWorkspaceOwnerInvariant.cs:16-54 | After any interleaving of creations, additions, role changes and removals, with owner counts as stale as you like, every workspace has at least one owner. |
| Workspace.CommitKeepsPassed | apps/project-service-dotnet/Infrastructure/Data/Migrations/20260824140000_EnforceWorkspaceOwnerInvariant.cs:27-43 | The lock at work: while a request waits to commit after its check, no other commit can take away the owner it has seen. |
| Workspace.WithoutTheLockOwnersCanVanish | apps/project-service-dotnet/Application/UseCases/ChangeWorkspaceMemberRoleUseCase.cs:34-43 | Without the trigger, or with a trigger that checks but does not lock, two overlapping demotions that each counted two owners leave none. |
| Workspace.CountAgreesWithTrigger | apps/project-service-dotnet/Application/UseCases/ChangeWorkspaceMemberRoleUseCase.cs:34-39 | On current data the use case's count and the trigger's check agree: an owner may go exactly when it is not the only one. |
| Workspace.ApplyTouchesOneRow | apps/project-service-dotnet/Infrastructure/Data/Repositories/EfWorkspaceMemberRepository.cs:49-66 | A write leaves every row but its own alone, and gives its own the role asked for, or leaves the stored one, or removes it. |
| Workspace.NeverStuck | apps/project-service-dotnet/Infrastructure/Data/Migrations/20260824140000_EnforceWorkspaceOwnerInvariant.cs:27-43 | The locks never stop everybody: some request in its transaction can always move. |
| WorkspaceService.Database.Create | apps/project-service-dotnet/Application/UseCases/CreateWorkspaceUseCase.cs:29-53 | The workspace and its first owner are inserted together or not at all. |
| WorkspaceService.Database.CountOwners | apps/project-service-dotnet/Infrastructure/Data/Repositories/EfWorkspaceMemberRepository.cs:41-47 | The count is the number of committed owner rows at that moment. |
| WorkspaceService.Database.CheckOwners | apps/project-service-dotnet/Infrastructure/Data/Migrations/20260824140000_EnforceWorkspaceOwnerInvariant.cs:35-43 | The trigger passes exactly when the workspace would keep an owner. |
| WorkspaceService.Database.SaveChanges | apps/project-service-dotnet/Infrastructure/Data/Repositories/EfWorkspaceMemberRepository.cs:62-93 | The write, the row lock, the deferred trigger and the commit, each with others acting in between, end in one of: committed, and the table shows the write; rejected, and the write would leave the workspace no owner; given up, and the row was gone or locked, or the workspace locked. Its steps are exactly those of that way. |
| WorkspaceService.Database.ChangeRole | apps/project-service-dotnet/Application/UseCases/ChangeWorkspaceMemberRoleUseCase.cs:27-45 | A role change goes one of the ways of Path with exactly its steps. The member not found was not there at the lookup; the owners were counted exactly when an owner would lose the role, and the request was refused exactly when at most one was counted; a request that is done has written the role asked for, unless the member had it at the lookup, and then none. Every workspace keeps an owner. |
| WorkspaceService.Database.Remove | apps/project-service-dotnet/Application/UseCases/RemoveWorkspaceMemberUseCase.cs:20-34 | A removal likewise: the owners are counted exactly when an owner would go, and one that is done has removed the row. |
| RefreshTokens.NextKeepsInv | apps/iam-service-java/src/main/java/com/example/iam/infrastructure/persistence/RefreshTokenRepositoryAdapter.java:38-51 | Every login, lookup, rotation (committed or not), logout, cleanup and clock step keeps: a login's tokens succeed one another, all but the last retired. |
| RefreshTokens.OneActiveTokenPerLogin | apps/iam-service-java/src/main/java/com/example/iam/infrastructure/persistence/RefreshTokenRepositoryAdapter.java:38-51 | A login has at most one active token, and it is the last one issued to it. |
| RefreshTokens.EveryTokenHasItsLogin | apps/iam-service-java/src/main/java/com/example/iam/infrastructure/persistence/RefreshTokenRepositoryAdapter.java:38-51 | Every stored token belongs to exactly one login. |
| RefreshTokens.OneWinnerPerToken | apps/iam-service-java/src/main/java/com/example/iam/infrastructure/persistence/jpa/RefreshTokenJpaRepository.java:14-17 | However many requests refresh one token at once, at most one of them succeeds. |
| RefreshTokens.RevokedStaysRevoked | apps/iam-service-java/src/main/java/com/example/iam/infrastructure/persistence/jpa/RefreshTokenJpaRepository.java:14-17 | A token that was revoked is never active again, whatever follows. |
| RefreshTokens.RefreshReplaces | apps/iam-service-java/src/main/java/com/example/iam/application/usecase/RefreshSessionUseCase.java:30-53 | A successful refresh revokes the active token of its login and adds one, of the same user, with the secret and expiry drawn for it; it touches no other; the token was unrevoked and unexpired when it was looked up. |
| RefreshTokens.LoginAndLogout | apps/iam-service-java/src/main/java/com/example/iam/infrastructure/persistence/RefreshTokenRepositoryAdapter.java:26-51 | A login adds one token of the user with what was drawn for it, a logout revokes the token it names; neither touches another. |
| RefreshTokens.CleanupDeletesOnlyUnusable | apps/iam-service-java/src/main/java/com/example/iam/infrastructure/persistence/jpa/RefreshTokenJpaRepository.java:19-21 | The cleanup deletes a token exactly when it is revoked or expired before the cutoff; it deletes none that can be used now or later. |
| RefreshTokens.RotationTestsRevocationOnly | apps/iam-service-java/src/main/java/com/example/iam/application/usecase/RefreshSessionUseCase.java:32-53 | Whatever others do between a request's lookup and its rotation: the rotation succeeds exactly when the token is still active, and the token it rotates is still usable if and only if the request took less time than the token had left at its lookup. |
| RefreshTokens.ExpiredTokenCanRotate | apps/iam-service-java/src/main/java/com/example/iam/application/usecase/RefreshSessionUseCase.java:32-53 | A run in which a token that expired after its lookup is rotated all the same. |
| RefreshService.Repository.RevokeActiveById | apps/iam-service-java/src/main/java/com/example/iam/infrastructure/persistence/jpa/RefreshTokenJpaRepository.java:14-17 | Revokes the token and reports one row exactly when it was active. |
| RefreshService.Repository.DeleteUnusableTokens | apps/iam-service-java/src/main/java/com/example/iam/infrastructure/persistence/jpa/RefreshTokenJpaRepository.java:19-21 | Deletes, row by row in any order, exactly the tokens DeleteUnusable leaves out, and reports how many. |
| RefreshService.Repository.RotateToken | apps/iam-service-java/src/main/java/com/example/iam/infrastructure/persistence/RefreshTokenRepositoryAdapter.java:38-45 | Revocation and insertion happen together, exactly when the current token was still active. |
| RefreshService.RefreshSessionUseCase.Execute | apps/iam-service-java/src/main/java/com/example/iam/application/usecase/RefreshSessionUseCase.java:30-64 | Lookup, anything in between, then the rotation that alone decides: the refresh succeeds exactly when the hash names a token that is neither revoked nor expired at the lookup, the user exists and is not blocked, and the token is still active at the rotation; then exactly that token is revoked and one of the same user, with the secret and expiry drawn, added, no token is won twice, and the steps are a lookup and a rotation. |
| RateLimit.WindowsBoundHits | apps/api-gateway-nest/src/infrastructure/rate-limit/redis-rate-limit.adapter.ts:32-56 | However concurrent callers' commands interleave and whoever dies between them, a half-open span of at most k windows admits at most Quota(k) hits on a key: (k + 1) * limit - 1, or k * limit when a window has a single moment, and none for limit 0. |
| RateLimit.SpanBound | apps/api-gateway-nest/src/infrastructure/rate-limit/redis-rate-limit.adapter.ts:39-49 | The same bound for every log of counts the key can produce. |
| RateLimit.QuotaIsReached | apps/api-gateway-nest/src/infrastructure/rate-limit/redis-rate-limit.adapter.ts:39-49 | The bound is exact: for every k, limit and window some run admits exactly Quota(k) hits in a span of k windows. |
| RateLimit.SurvivorSetsExpiry | apps/api-gateway-nest/src/infrastructure/rate-limit/redis-rate-limit.adapter.ts:44-48 | A caller that lives through its hit leaves the key with an expiry, or gone. |
| RateLimit.ExpiryStays | apps/api-gateway-nest/src/infrastructure/rate-limit/redis-rate-limit.adapter.ts:39-48 | An expiry once set stays until the key is gone, so no key counts for ever. |
| RateLimit.Redis.IncrKey | apps/api-gateway-nest/src/infrastructure/rate-limit/redis-rate-limit.adapter.ts:39-39 | INCR returns one more than the live count, and one on an expired key. |
| RateLimit.RateLimitAdapter.Hit | apps/api-gateway-nest/src/infrastructure/rate-limit/redis-rate-limit.adapter.ts:32-56 | One hit issues exactly its commands (EXPIRE on one, a repair on a negative TTL). Its count is one more than the live count its own INCR met, it is limited exactly above the limit, and it reports the time the key had left when it asked, or a whole window if the key had no expiry. |

## Left out

- HTTP controllers, gateways, exception filters, tracing, logging, health endpoints, DTO mapping and the rest of the web client: no state to reason about.
- JWTs, password hashing and secret generation: a hash is an injective function of its text (`Projection.Digest`, the `hash` of a token) and new ids and secrets are fresh.
- PostgreSQL, Kafka and Redis internals: a statement, a transaction's commit, an append, a pipeline and a command are each one atomic step; a lost answer is an outcome of the step.
- JSON: the consumer decodes the record the publisher built (`Pipeline.Envelope`); serialisation itself, and the trace context in the record headers, are not modelled.
- Outbox sends within one batch are modelled in list order inside one poll; in the protocol, deliveries of different publishers and late deliveries interleave freely.
- `SELECT ... FOR UPDATE SKIP LOCKED` is a parameter: the set of rows other claims have locked.
- The migration that creates the outbox's bookkeeping columns is not part of this model: new rows start unpublished, with no attempts, due at once.
- Key expiry of notifications (90 days) and the Redis `List` reader: an expired hash can be written again, which the code accepts; what is said of read times is about notifications that have not expired.
- Records without an event time (`occurredAt` zero) can move their index score on redelivery: `Projection.ExactlyOnce` asks for times, and `Pipeline.EffectivelyOnce` shows that published events have them.
- Letter case and white space: slugs and the search allow any character mapping (`Slug.Sound`, `Like.KeepsPatterns`), user ids those of ASCII; mappings that change a text's length are not modelled. Multi-byte characters of a cursor are decoded byte by byte to a replacement character, which is enough because an accepted cursor is ASCII.
- Issue-list rows are those whose creation time has a four-digit year, as PostgreSQL prints it; `parseLimit` and the other query-string checks of parseIssueListQuery are plain range checks.
- Role authorisation of membership requests, membership of assignees, and sprint and epic links: checked on reads that may be stale, so nothing holds for them under interleaving beyond what each body says.
- A lock wait is bounded: `WorkspaceService.Database.WriteRow` and `LockWorkspace` ask again a number of times and then give up, which stands for a time-out or a cancelled request.
- Deleting workspaces: no use case does it; the trigger's branch for a workspace that is not found is modelled.
- Fail-open answers of the rate limiter when Redis does not answer, and `isAtLimit`: the bound is claimed only while Redis answers.
- The rate limiter's keys are independent, so one key is modelled; a window of zero seconds, which would delete the key, is not.
- Liveness of an issue whose head event was abandoned: the code promises none (order over liveness).
- `listHistory`'s display order: rows can tie on their time stamp, so replay uses commit order.
- Length and presence checks of free texts (`requiredText`, project keys, e-mail addresses).
- Listing.NoIssueRepeats: assumes that created_at and id are never rewritten, as no statement of the service does.
