# Toi no Mori: verified model

Toi no Mori ("forest of questions") lets people write questions that a second person reviews before they are
published. This project models the parts of its server and of its repository automation where a mistake in
state, ordering or text handling would be hard to see, and proves what they promise.

**Questions and their two stores.** `Question.dfy` is the aggregate with its four states and optimistic version.
`MemoryStore.dfy` is the store that keeps aggregates in a dictionary under one lock; `Tables.dfy` is the same
service as serial transactions over question, revision, idempotency and audit tables. `Ledger.dfy` proves what
every reachable table state keeps, `Agreement.dfy` that the two stores cannot be told apart by results, question
states, live idempotency entries and success audit rows. `Transactions.dfy` splits each transaction into its
statements (begin, key lock, key lookup, row lock, write, commit), interleaves them freely and proves that every
interleaving is a serial run in finishing order; `Liveness.dfy` adds freedom from deadlock and completion.
`Remembered.dfy` carries the 24-hour memory of approvals over to the in-memory store and to interleaved calls.
`Search.dfy` covers the public search. `CommandLaws.dfy`, `StoreLaws.dfy` and `SearchLaws.dfy` tell what commands, calls
and pages promise in the terms of their inputs alone, without the functions that compute them.

**The security audit pipeline.** `AuditPipeline.dfy` interleaves any number of writers, their trimming
enumerations and the one worker; `AuditQueue.dfy` has the objects as one caller sees them, and
`AuditRefinement.dfy` shows that those objects do what uninterrupted moves of the machine do, and
`AuditReadmission.dfy` a run that needs the bound on disorder. `AuditLaws.dfy` tells which envelopes are stored and how
the others are counted, for the drained channel and for every interleaving. Times are counted in ticks of 100
nanoseconds.

**The automation controller.** `Json.dfy` prints and reads canonical JSON, `Record.dfy` derives content hashes and
record paths from it. `Schema.dfy` is the walk over schema definitions, `Instance.dfy` the specification of the
instance validator with its declarative reading (keywords as in section 6 of JSON Schema Validation draft
2020-12), `Validator.dfy` the validator as it runs, appending to a shared list. `ReviewLoop.dfy` has the twenty
review gates and the bounded retry loop, `Scope.dfy` the check of changed paths. `ApprovedSchemas.dfy` transcribes
the two shipped schemas of review requests and technical reviews and proves them accepted, `ApprovedDocuments.dfy`
builds documents that satisfy them, and `Examples.dfy` holds concrete inputs under them: two on which a natural
promise fails and one on which a strong hypothesis is met.

Each of these has its laws beside it, told without its own functions: `JsonText.dfy` says which text is printed,
`JsonGrammar.dfy` which texts are read, `RecordLaws.dfy` where a review is filed, `SchemaLaws.dfy` which definitions are
refused and why, `InstanceLaws.dfy` which errors are reported, `GateLaws.dfy` what each of the twenty gates asks,
`LoopLaws.dfy` when the loop stops and retries, `ScopeLaws.dfy` which paths are refused.

**Evidence and migrations.** `EvidenceLog.dfy` is the test runner's printer and the recognisers of its lines,
`Evidence.dfy` the parser, totals and acceptance, `EvidenceStrays.dfy` what one doubtful line behind a line boundary
does to it, `EvidenceOpen.dfy` what any number of them does. `Migrator.dfy` applies embedded migrations, alone and with
concurrent callers. `EvidenceLaws.dfy` and `MigratorLaws.dfy` tell the recognised lines and the applied migrations as
texts, `TextLaws.dfy` numerals and ids digit by digit. `Base.dfy`, `Text.dfy` and `Order.dfy` hold shared types,
numerals, ids and sorting.

Objects that the program updates in place are classes whose methods are proved against functions over values; the
results over whole runs are lemmas about those functions. Clock readings, fresh ids, lock hashes, SHA-256, regular
expressions, format checks, case folding and the outcomes of tests, writes and migration statements are
parameters, so every statement holds for all of them.

`{:induction false}` stands on the inductive lemmas, whose recursive calls are the induction, and on a few others
where the induction Dafny would add gets in the way of the proof or does without it.

Five promises turned out to hold only under a condition:

- The stores' results agree exactly when the call names a tenant: for the empty tenant the in-memory store answers
  `question.not_found` where PostgreSQL rejects the argument (`Agreement.StepAgrees`).
- An accepted schema makes the validator total exactly when no node gives `properties`, `required`, `enum` or
  `items` the value null, which the definition walk skips (`Instance.TotalExactlyWhenNullFree`); a schema of that kind
  is `Examples.AcceptedSchemaCrashes`. A null `type` is read as absent and a null `const` as the value null; both are
  harmless.
- A green review gate does not mean the decision PASS: it means no findings, and the decision is PASS exactly when
  the review is not blocking (`ReviewLoop.GreenMeansNoFindings`). The shipped schemas do not rule the other case out:
  `Examples.GreenDespiteFail` is a complete review that fails, ends green and is handed to organizer acceptance.
- Prohibited prefixes keep accepted work out of the places they name exactly when no such place slips through spelled
  with a leading "./" (`Scope.KeepsOutExactly`): "./x" is accepted although "x" is prohibited when no list of allowed
  prefixes is given (`Scope.DotSlashSlipsThrough`).
- The log parser recovers what the runner printed as long as whatever stands behind a line boundary in a test's text
  is inert or its own suite's heading (`Evidence.ParsedLogIsExact`). With one other line there, it does exactly when
  that line is the run's own final result line after its last test (`EvidenceStrays.StrayRecovered`). It does not
  with any number of other lines that are neither results nor other suites' headings
  (`EvidenceOpen.OpenLogRecovered`); once those are among them lines can cancel (`EvidenceOpen.TwoLinesCancel`). The runner
  replaces only CR and LF, so a failing run can be read as fully passed (`EvidenceStrays.BoundaryMisleads`); only the
  other acceptance checks, such as the exit code, then stand against it (`EvidenceStrays.AcceptedDespiteFailure`).

## Model

| member | source | states |
|---|---|---|
| Domain.Question.constructor | src/ToiNoMori.Domain/Question.cs:41-75 | a new aggregate is the draft snapshot at version 1 with the given owner and content and the given clock reading |
| Domain.Question.Rehydrate | src/ToiNoMori.Domain/Question.cs:93-97 | an aggregate rebuilt from a stored snapshot has that snapshot again |
| Domain.Question.Update | src/ToiNoMori.Domain/Question.cs:99-117 | returns and leaves exactly what the command means: the first failing guard, in guard order, and nothing changed, or the updated draft |
| Domain.Question.Submit | src/ToiNoMori.Domain/Question.cs:119-126 | the same for submission |
| Domain.Question.ReturnForChanges | src/ToiNoMori.Domain/Question.cs:128-144 | the same for a return with a reason |
| Domain.Question.Approve | src/ToiNoMori.Domain/Question.cs:146-169 | the same for approval: only of a question in review at the expected version, by a reviewer other than its owner; it records that version and the reviewer (spelled out in CommandLaws.ExecuteAnswers) |
| Domain.Question.Withdraw | src/ToiNoMori.Domain/Question.cs:171-188 | the same for withdrawal with a reason |
| Domain.Question.Advance | src/ToiNoMori.Domain/Question.cs:233-237 | the version grows by one and the update time is the clock reading |
| Domain.ExecuteKeepsConsistent | src/ToiNoMori.Domain/Question.cs:99-188 | an accepted command keeps the rules between status, approval data, reasons and version, and raises the version by one |
| Domain.HistoryConsistent | src/ToiNoMori.Domain/Question.cs:71-188 | over any command history: Version is 1 plus the successes; approval data is present exactly in Published and Withdrawn with ApprovedVersion = Version-1 and Version-2; the approver is not the owner; a review reason only in Draft, a withdrawal reason only in Withdrawn; id, tenant, owner and creation time never change |
| Domain.PublishedNeverReopens | src/ToiNoMori.Domain/Question.cs:119-188 | publication can only be withdrawn and withdrawal is final, whatever follows |
| CommandLaws.ExecuteAnswers | src/ToiNoMori.Domain/Question.cs:99-231 | told without the guards' own functions: each refusal code comes back exactly when its guard is the first that fails; an accepted update has expectedVersion+1 and the given title, body and tags, an accepted approval was at expectedVersion, which becomes ApprovedVersion, and stored reasons are the trimmed ones; every other field is as it was |
| CommandLaws.TrimIsTrimmed | src/ToiNoMori.Domain/Question.cs:131-142 | trimming leaves the text between its outer white space, the 25 code points .NET counts as such |
| CommandLaws.TrimmedOnce | src/ToiNoMori.Domain/Question.cs:131-142 | there is only one such text |
| Text.TrimBlank | src/ToiNoMori.Domain/Question.cs:131-142 | trimming leaves nothing exactly when the text is blank, so the guards on a reason and the trimmed reason that is stored agree |
| Text.GuidTextInjective | src/ToiNoMori.Api/InMemoryQuestionStore.cs:112 | the printed form of an id determines it |
| Text.FingerprintInjective | src/ToiNoMori.Api/InMemoryQuestionStore.cs:112 | the approval fingerprint determines tenant, question, reviewer and expected version although a reviewer may contain a colon |
| Text.LockTextInjective | src/ToiNoMori.Api/Persistence/PostgreSqlQuestionStore.cs:155-162 | the text hashed for the key lock determines tenant and key |
| TextLaws.GuidDigits | src/ToiNoMori.Api/InMemoryQuestionStore.cs:112 | a printed id is its 32 lower-case hexadecimal digits, with hyphens after the 8th, 12th, 16th and 20th |
| TextLaws.KeyTexts | src/ToiNoMori.Api/Persistence/PostgreSqlQuestionStore.cs:155-162 | the approval fingerprint and the text of the key lock, part by part |
| MemoryStore.InMemoryQuestionStore.Create | src/ToiNoMori.Api/InMemoryQuestionStore.cs:18-39 | the new question, audit row and result are those of the specified step; nothing is stored when the constructor throws |
| MemoryStore.InMemoryQuestionStore.Update | src/ToiNoMori.Api/InMemoryQuestionStore.cs:41-64 | questions, idempotency entries, audit rows and result after the call are those of the specified step; a rejection adds only an audit row |
| MemoryStore.InMemoryQuestionStore.Submit | src/ToiNoMori.Api/InMemoryQuestionStore.cs:66-83 | the same for submission |
| MemoryStore.InMemoryQuestionStore.ReturnForChanges | src/ToiNoMori.Api/InMemoryQuestionStore.cs:85-99 | the same for a return, whose rejection leaves no audit row |
| MemoryStore.InMemoryQuestionStore.Replay | src/ToiNoMori.Api/InMemoryQuestionStore.cs:113-132 | a remembered key answers with the first result or key_reused and changes nothing; an expired one is removed |
| MemoryStore.InMemoryQuestionStore.Decide | src/ToiNoMori.Api/InMemoryQuestionStore.cs:133-147 | the first use of a key: on success the entry expires 24 hours later, on rejection only the audit row is added |
| MemoryStore.InMemoryQuestionStore.Approve | src/ToiNoMori.Api/InMemoryQuestionStore.cs:101-148 | the whole approval under one lock, including the removal of an expired key when the approval that follows fails |
| MemoryStore.InMemoryQuestionStore.Withdraw | src/ToiNoMori.Api/InMemoryQuestionStore.cs:150-164 | the same for withdrawal |
| MemoryStore.InMemoryQuestionStore.GetRequired | src/ToiNoMori.Api/InMemoryQuestionStore.cs:266-269 | finds the question exactly when it exists under that tenant |
| MemoryStore.InMemoryQuestionStore.AddAudit | src/ToiNoMori.Api/InMemoryQuestionStore.cs:271-289 | appends exactly one row with the given data |
| Tables.PostgreSqlQuestionStore.CreateAsync | src/ToiNoMori.Api/Persistence/PostgreSqlQuestionStore.cs:45-81 | question row, first revision, audit row and result after the transaction are those of the specified step |
| Tables.PostgreSqlQuestionStore.MutateAsync | src/ToiNoMori.Api/Persistence/PostgreSqlQuestionStore.cs:438-487 | the serial mutation transaction: accepted rows or a committed refusal row, and the result |
| Tables.PostgreSqlQuestionStore.ApproveAsync | src/ToiNoMori.Api/Persistence/PostgreSqlQuestionStore.cs:140-239 | the serial approval transaction: expired key removed, live key answered, otherwise decided and recorded |
| Tables.PostgreSqlQuestionStore.Transact | src/ToiNoMori.Api/Persistence/PostgreSqlQuestionStore.cs:453-486 | load, command and either the accepted rows or the refusal row |
| Tables.PostgreSqlQuestionStore.UpdateQuestion | src/ToiNoMori.Api/Persistence/PostgreSqlQuestionStore.cs:534-571 | the row becomes the snapshot, and its publication pointer is re-read from the revisions |
| Tables.PostgreSqlQuestionStore.FindRevision | src/ToiNoMori.Api/Persistence/PostgreSqlQuestionStore.cs:540-556 | the scan returns the first revision of the question at a version, or none |
| Tables.PostgreSqlQuestionStore.DeleteExpiredIdempotency | src/ToiNoMori.Api/Persistence/PostgreSqlQuestionStore.cs:678-699 | removes the key exactly when its expiry is not after the clock reading |
| Ledger.LookupFinds | src/ToiNoMori.Api/Persistence/PostgreSqlQuestionStore.cs:540-556 | with gap-free revisions the publication subquery for version v finds revision number v, and nothing beyond the last |
| Ledger.PointedExtended | src/ToiNoMori.Api/Persistence/PostgreSqlQuestionStore.cs:534-571 | re-reading published_revision_id on every update finds the approved revision when a question is published and keeps it after withdrawal |
| Ledger.AcceptedKeepsRow | src/ToiNoMori.Api/Persistence/PostgreSqlQuestionStore.cs:534-617 | an accepted command appends exactly the next revision and keeps pointer and audit counts right |
| Ledger.CommitKeeps | src/ToiNoMori.Api/Persistence/PostgreSqlQuestionStore.cs:454-486 | a commit about one question leaves the history, pointer and counts of every other question alone |
| Ledger.RunKeeps | src/ToiNoMori.Api/Persistence/PostgreSqlQuestionStore.cs:45-258 | after any calls: a question's revisions are its versions 1..Version without gap or repeat, the last being its state; an approved question points at the revision of ApprovedVersion, IN_REVIEW with the published title, body and tags, also after withdrawal; success rows number Version with at most one approval |
| Ledger.RevisionIdsDistinct | src/ToiNoMori.Api/Persistence/PostgreSqlQuestionStore.cs:595-617 | with fresh ids no two revision rows share one, so published_revision_id names one row |
| Ledger.KeySurvives | src/ToiNoMori.Api/Persistence/PostgreSqlQuestionStore.cs:678-733 | a remembered key stays as it is while every call on it reads a clock before its expiry |
| Ledger.ApprovalIsRemembered | src/ToiNoMori.Api/Persistence/PostgreSqlQuestionStore.cs:149-239 | after an approval at time t, whatever other calls run, every call under its tenant and key with a clock before t+24h changes nothing and returns the first result, or key_reused for another command |
| Remembered.MemoryApprovalIsRemembered | src/ToiNoMori.Api/InMemoryQuestionStore.cs:109-147 | the same for the in-memory store: questions, idempotency entries and audit trail stay as they are |
| Remembered.InterleavedApprovalIsRemembered | src/ToiNoMori.Api/Persistence/PostgreSqlQuestionStore.cs:149-239 | the same in every interleaving, by position in the finishing order |
| StoreLaws.CallAnswered | src/ToiNoMori.Api/Persistence/PostgreSqlQuestionStore.cs:45-239 | what each call to the tables promises, told without the store's own functions: its result or error, the question it leaves, the revision, its one audit row with actor, target, action and outcome, and the key it files for 24 hours or drops |
| StoreLaws.RunAnswered | src/ToiNoMori.Api/Persistence/PostgreSqlQuestionStore.cs:45-239 | every call of every run keeps those promises |
| StoreLaws.InterleavedAnswered | src/ToiNoMori.Api/Persistence/PostgreSqlQuestionStore.cs:140-239 | in every interleaving every finished call keeps them, at its place in the finishing order |
| StoreLaws.ApprovedAsReviewed | src/ToiNoMori.Domain/Question.cs:146-169 | in every interleaving, a first-use approval that succeeded found the question in review at the expected version, which is the approved one, and its content is the content published |
| StoreLaws.MemoryCallAnswered | src/ToiNoMori.Api/InMemoryQuestionStore.cs:18-148 | what each call to the in-memory store promises, in the same terms |
| Agreement.StepAgrees | src/ToiNoMori.Api/InMemoryQuestionStore.cs:18-164 | one call on both stores keeps question states, idempotency entries and success rows equal, and the two results are equal exactly when the call names a tenant |
| Agreement.RunAgrees | src/ToiNoMori.Api/Persistence/PostgreSqlQuestionStore.cs:45-258 | any call sequence from empty stores leaves them in agreement |
| Agreement.ResultsAgree | src/ToiNoMori.Api/Persistence/PostgreSqlQuestionStore.cs:45-258 | each call of a sequence gets the same result or error code from both stores exactly when it names a tenant |
| Agreement.ApproveAgrees | src/ToiNoMori.Api/Persistence/PostgreSqlQuestionStore.cs:140-239 | approval agrees, including the removal of an expired key when the approval then fails |
| Agreement.SuccessRowsNumberVersion | src/ToiNoMori.Api/InMemoryQuestionStore.cs:271-289 | in both stores the success rows about a question number its Version, with at most one approval |
| Transactions.EarlyStepKeeps | src/ToiNoMori.Api/Persistence/PostgreSqlQuestionStore.cs:150-193 | each statement from the start of a transaction to the locked read of its question keeps the whole invariant |
| Transactions.LateStepKeeps | src/ToiNoMori.Api/Persistence/PostgreSqlQuestionStore.cs:454-467 | so does each statement that judges the command and writes its rows |
| Transactions.CommitStepKeeps | src/ToiNoMori.Api/Persistence/PostgreSqlQuestionStore.cs:468 | so does the commit, which makes the rows visible and releases the locks |
| Transactions.CommitSpares | src/ToiNoMori.Api/Persistence/PostgreSqlQuestionStore.cs:155-193 | a commit cannot touch the key or the row another transaction is working on, even when two keys hash to one lock |
| Transactions.StepInv | src/ToiNoMori.Api/Persistence/PostgreSqlQuestionStore.cs:140-239 | every step of every transaction keeps the lock ownership, faithfulness and serial-equivalence invariant |
| Transactions.ReachableInv | src/ToiNoMori.Api/Persistence/PostgreSqlQuestionStore.cs:438-509 | the invariant holds in every state any schedule reaches |
| Liveness.EveryInterleavingIsSerial | src/ToiNoMori.Api/Persistence/PostgreSqlQuestionStore.cs:140-239 | every interleaving of create, mutate and approve transactions leaves the tables and returns the results of running the finished calls one at a time in finishing order, each with the clock value it read; the revision, pointer and audit rules hold in between |
| Liveness.InterleavedStoreAgrees | src/ToiNoMori.Api/Persistence/PostgreSqlQuestionStore.cs:140-258 | the interleaved store agrees with the locked in-memory store that takes the calls in finishing order |
| Liveness.NoDeadlock | src/ToiNoMori.Api/Persistence/PostgreSqlQuestionStore.cs:155-193 | a chain of waiting transactions has at most two waits and never returns to its start |
| Liveness.SomeoneCanStep | src/ToiNoMori.Api/Persistence/PostgreSqlQuestionStore.cs:496-502 | while a transaction is unfinished some transaction can take a step |
| Liveness.SchedulesAreBounded | src/ToiNoMori.Api/Persistence/PostgreSqlQuestionStore.cs:438-487 | no schedule takes more than eight steps a transaction |
| Liveness.EveryCallFinishes | src/ToiNoMori.Api/Persistence/PostgreSqlQuestionStore.cs:140-239 | every schedule extends to one in which every call has finished |
| Search.EscapeLikeIsOnePass | src/ToiNoMori.Api/Persistence/PostgreSqlQuestionStore.cs:792-795 | the three sequential replacements equal escaping every special character once |
| Search.LikeEscapedPrefix | src/ToiNoMori.Api/Persistence/PostgreSqlQuestionStore.cs:792-795 | an escaped query followed by a percent sign matches exactly the texts that begin with the query |
| Search.LikeIsContains | src/ToiNoMori.Api/Persistence/PostgreSqlQuestionStore.cs:349-390 | for every text and query, the escaped pattern under LIKE matches exactly when the text contains the query |
| Search.FiltersAgree | src/ToiNoMori.Api/InMemoryQuestionStore.cs:212-234 | the LINQ filter and the WHERE clause select the same published questions |
| Search.PageUnique | src/ToiNoMori.Api/InMemoryQuestionStore.cs:225-233 | a set of candidates has exactly one ordered page of a given size |
| Search.SearchPublic | src/ToiNoMori.Api/InMemoryQuestionStore.cs:212-234 | returns the ordered page of the published questions that match, at most the clamped limit |
| Search.SearchPublicAsync | src/ToiNoMori.Api/Persistence/PostgreSqlQuestionStore.cs:349-390 | the same for the SQL query, read row by row |
| Search.SearchesAgree | src/ToiNoMori.Api/Persistence/PostgreSqlQuestionStore.cs:349-390 | over agreeing stores both searches return the same list, however the dictionary and the table order their rows |
| SearchLaws.SelectsExactly | src/ToiNoMori.Api/InMemoryQuestionStore.cs:212-234 | both filters take exactly the published questions of the tenant whose title, body or a tag shows the trimmed text and, if a tag is asked for, that have it, up to case |
| SearchLaws.PageExactly | src/ToiNoMori.Api/InMemoryQuestionStore.cs:225-233 | the page of both searches lists wanted questions, each once, published later first and smaller id first among equals; what it leaves out comes after all of it, and then it is as long as the limit, which is held between 1 and 50 |
| AuditPipeline.SuppressionKeyInjective | src/ToiNoMori.Api/PlatformSecurityAudit.cs:246-250 | equal suppression keys mean equal partition, action and window although an action may contain a colon |
| AuditPipeline.SameKeySameMinute | src/ToiNoMori.Api/PlatformSecurityAudit.cs:370-388 | envelopes with one key fall into one minute |
| AuditPipeline.PipelineInv | src/ToiNoMori.Api/PlatformSecurityAudit.cs:219-346 | in every interleaving of writers and worker, the counter increments being steps of their own: envelopes that left TryEnqueue = suppressed + write failures + stored + queued + held by the worker; the channel never exceeds its capacity; the sink holds no two rate-limited rows with one partition, action and window |
| AuditPipeline.ReadmittedIsLate | src/ToiNoMori.Api/PlatformSecurityAudit.cs:272-287 | a trimmed window can only be claimed again by an envelope more than one minute older than the one that trimmed it, by a minute and two ticks at least |
| AuditReadmission.LateEnvelopeReadmits | src/ToiNoMori.Api/PlatformSecurityAudit.cs:242-287 | a run in which an envelope exactly that late claims its trimmed window a second time and reaches the channel after the first one: the bound cannot be improved |
| AuditPipeline.EachKeyClaimedOnce | src/ToiNoMori.Api/PlatformSecurityAudit.cs:242-287 | with at most that much disorder every key is claimed at most once per run |
| AuditPipeline.EachWindowReachesChannelOnce | src/ToiNoMori.Api/PlatformSecurityAudit.cs:242-270 | so no two rate-limited envelopes of one window reach the channel |
| AuditQueue.SecurityAuditQueue.constructor | src/ToiNoMori.Api/PlatformSecurityAudit.cs:225-240 | an empty table and channel of the configured capacity |
| AuditQueue.SecurityAuditQueue.TryEnqueue | src/ToiNoMori.Api/PlatformSecurityAudit.cs:242-267 | the result, the windows, the channel and both counters in every case |
| AuditQueue.SecurityAuditQueue.TrimExpiredWindows | src/ToiNoMori.Api/PlatformSecurityAudit.cs:272-287 | from 4096 windows on exactly the entries more than two minutes old go; below that none |
| AuditQueue.InMemoryPlatformSecurityAuditStore.WriteAsync | src/ToiNoMori.Api/PlatformSecurityAudit.cs:101-131 | suppresses exactly the duplicates and appends everything else |
| AuditQueue.SecurityAuditWorker.ExecuteAsync | src/ToiNoMori.Api/PlatformSecurityAudit.cs:306-335 | draining delivers every envelope in order, counting failed and suppressed writes |
| AuditQueue.DrainedConserves | src/ToiNoMori.Api/PlatformSecurityAudit.cs:306-335 | draining loses nothing, never stores a second row for a window and covers the window of every envelope whose write did not fail |
| AuditRefinement.TrimAlone | src/ToiNoMori.Api/PlatformSecurityAudit.cs:272-287 | the enumeration steps of one undisturbed writer remove exactly the expired windows |
| AuditRefinement.TryEnqueueIsOneWriter | src/ToiNoMori.Api/PlatformSecurityAudit.cs:242-267 | one writer's steps of the concurrent machine, uninterrupted, have exactly the contracted effect of TryEnqueue |
| AuditRefinement.WorkerTurn | src/ToiNoMori.Api/PlatformSecurityAudit.cs:306-335 | one take, delivery and count of the concurrent machine is one turn of the worker's loop |
| AuditLaws.WindowIsMinute | src/ToiNoMori.Api/PlatformSecurityAudit.cs:378-387 | a window starts at the last full minute |
| AuditLaws.AdmittedExactly | src/ToiNoMori.Api/PlatformSecurityAudit.cs:242-259 | an envelope is stopped at the windows exactly when it is rate-limited and its partition, action and minute are there |
| AuditLaws.TrimmedExactly | src/ToiNoMori.Api/PlatformSecurityAudit.cs:272-287 | from 4096 windows on exactly those more than two minutes old go, below that none |
| AuditLaws.DuplicateExactly | src/ToiNoMori.Api/PlatformSecurityAudit.cs:101-131 | the sink suppresses a rate-limited row exactly when it holds one with the same partition, action and window |
| AuditLaws.DrainedExactly | src/ToiNoMori.Api/PlatformSecurityAudit.cs:306-335 | draining stores the rows of exactly those places whose write does not fail and whose window is new, in order, and counts each other place as a failure or as suppressed |
| AuditLaws.PipelineTold | src/ToiNoMori.Api/PlatformSecurityAudit.cs:219-346 | in every interleaving, of the envelopes delivered so far, which are those accepted first, the sink holds exactly the rows whose write did not fail and whose window was new; each counter is exact, apart from an outcome not counted yet |
| Order.SortedUnique | scripts/ai_controller/core.py:141-142 | a collection with distinct keys has one sorted listing |
| Order.LessIsPrecedes | scripts/ai_controller/core.py:141-142 | texts are compared by their first difference, a beginning before what it begins |
| JsonText.CanonicalIsShortest | scripts/ai_controller/core.py:141-142 | told without the printer: no text that json.loads reads as the value is shorter than what canonical_json prints, and one as long whose keys ascend is the same but for capital hexadecimal digits. So every character has its shortest escape, nothing is escaped without need, the digits of an escape are lower-case and there are no spaces |
| JsonText.CanonicalTextReads | scripts/ai_controller/core.py:141-142 | json.loads reads the canonical text as the value, with the keys of every dictionary in ascending order |
| JsonGrammar.LoadsExactly | scripts/ai_controller/core.py:153-159 | json.loads reads exactly the documents of an independent grammar (RFC 8259, with integers), each as the value the grammar gives it |
| Json.ValueReadsBack | scripts/ai_controller/core.py:141-142 | parsing printed JSON, followed by the end or a separator, gives back the value and the rest |
| Json.TextReadsBack | scripts/ai_controller/core.py:141-142 | an escaped string reads back (section 7 of RFC 8259); which of the possible spellings is printed is JsonText.CanonicalIsShortest |
| Json.CanonicalReadsBack | scripts/ai_controller/core.py:141-142 | json.loads of canonical_json gives the value with its keys sorted; the text itself is settled by JsonText.CanonicalIsShortest |
| Json.CanonicalKeeps | scripts/ai_controller/core.py:141-142 | the canonical form is well formed and canonical |
| Json.CanonicalDecidesSame | scripts/ai_controller/core.py:141-142 | equal canonical forms mean equal values up to the order of keys, and conversely |
| Json.CanonicalJsonDecidesSame | scripts/ai_controller/core.py:141-142 | canonical_json of two values is equal exactly when the values are equal up to the order of keys |
| Json.LoadsWellFormed | scripts/ai_controller/core.py:153-159 | json.loads never returns a dictionary with a repeated key |
| Json.CollapseKeepsLast | scripts/ai_controller/core.py:153-159 | a parsed dictionary holds exactly the last pair of each key, and every key |
| Json.PrintHasNoControls | scripts/ai_controller/core.py:141-142 | printed JSON has no line ending and no other control character |
| Record.SamePathWhenCanonical | scripts/ai_controller/core.py:1194-1199 | sorting the keys of a review changes neither its content hash nor its record path |
| Record.WrittenRecordReadsBack | scripts/qf-ai-controller.py:190-202 | an accepted review record, written canonically and read back in text mode, has the same content, hash and path, and filing it again under that path is accepted and writes the same text |
| RecordLaws.PathExactly | scripts/ai_controller/core.py:1194-1199 | a review has a record path exactly when its commit is 40 lower-case hexadecimal digits; the path is made of these and of the hash of the canonical text |
| RecordLaws.NewlinesExactly | scripts/ai_controller/core.py:153-159 | reading in text mode turns each CR LF, CR and LF into one LF and changes nothing else |
| RecordLaws.FiledExactly | scripts/qf-ai-controller.py:190-202 | a record is filed, as its canonical text, exactly when no other path than its own is asked for and the review is not known to be missing on the default branch; each reason is given exactly when it applies |
| RecordLaws.NotFiledExactly | scripts/qf-ai-controller.py:190-202 | nothing is filed exactly for a text that is no JSON or a record without a path |
| SchemaLaws.WalkExactly | scripts/ai_controller/core.py:182-324 | the walk accepts exactly the definitions in which no node has a fault, each kind of fault told from the node's keywords alone; otherwise the verdict, a refusal of one of 21 kinds or an exception, names a fault that some node has |
| SchemaLaws.FitsExactly | scripts/ai_controller/core.py:290-299 | an integer bound is taken as finite exactly when it is nearer to the largest double than to 2^1024 |
| Schema.RepeatsIffNotDistinct | scripts/ai_controller/core.py:262-270 | comparing a list's length with its set's detects exactly the repeats |
| Schema.PropertiesSound | scripts/ai_controller/core.py:234-241 | every declared property of an accepted node is an accepted definition |
| Schema.ItemsSound | scripts/ai_controller/core.py:273-275 | the items schema of an accepted node is an accepted definition |
| Instance.SoundIsTidy | scripts/ai_controller/core.py:182-324 | in an accepted, null-free schema, at every nested node: types are known and distinct, required names are declared, counts are non-negative, bounds are ordered integers |
| Instance.TypeNamed | scripts/ai_controller/core.py:338-358 | exactly one of the six type names matches a value, the one of its kind |
| Instance.TypeDecided | scripts/ai_controller/core.py:380-392 | type reports nothing exactly when the value is of the named kind or of one of those listed |
| InstanceLaws.ErrorsExactly | scripts/ai_controller/core.py:360-436 | for every accepted null-free schema the reported texts are exactly those that name a keyword the value violates at a place, or below it by its path |
| InstanceLaws.ExtrasAscend | scripts/ai_controller/core.py:404-408 | undeclared names are reported in ascending order, each once |
| Instance.ValueDecided | scripts/ai_controller/core.py:394-399 | const and enum report nothing exactly when the value equals structurally |
| Instance.SizeDecided | scripts/ai_controller/core.py:412-419 | minItems and uniqueItems report nothing exactly when there are enough, pairwise different items |
| Instance.NamesDecided | scripts/ai_controller/core.py:401-408 | required and additionalProperties report nothing exactly when all required names are present and, if closed, all names are declared |
| Instance.ValidateDecides | scripts/ai_controller/core.py:380-436 | for every accepted null-free schema and every value the validator does not raise, and reports nothing exactly when the value satisfies the declarative reading of all keywords, in which a type name stands for one kind of value and a boolean is no integer |
| Instance.NullCrashes | scripts/ai_controller/core.py:398-410 | a null for properties, required, enum or items anywhere in an accepted schema makes the validator raise on some value |
| Instance.TotalExactlyWhenNullFree | scripts/ai_controller/core.py:338-436 | for an accepted schema the validator is total exactly when no node has such a null |
| Examples.AcceptedSchemaCrashes | scripts/ai_controller/core.py:234-241 | a schema with null for properties that the walk accepts and on which the validator raises for the empty object |
| Validator.ErrorList.Append | scripts/ai_controller/core.py:390-436 | one error is added at the end |
| Validator.ValidateInstance | scripts/ai_controller/core.py:380-436 | the run only appends to the shared list: exactly the specified errors in order, or it raises exactly when the specification does; which texts those are is InstanceLaws.ErrorsExactly |
| Validator.ValidateProperties | scripts/ai_controller/core.py:409-411 | the loop over declared properties appends the errors of each present one in schema order |
| Validator.ValidateItems | scripts/ai_controller/core.py:420-422 | the loop over items appends the errors of each item in order |
| Validator.SchemaValidationErrors | scripts/ai_controller/core.py:439-445 | for a null-free schema the returned list is empty exactly when the document satisfies it; a refused definition is reported |
| ReviewLoop.LoopTransition | scripts/ai_controller/core.py:1161-1191 | the decision built from the list of stop reasons is the specified one, including when reading the findings raises |
| GateLaws.ReasonExactly | scripts/ai_controller/core.py:939-1152 | for null-free schemas the gate does not raise, and the name of each of the twenty gates is among the reasons exactly when what that gate asks, told from the documents, is not so |
| GateLaws.AcceptedExactly | scripts/ai_controller/core.py:939-1152 | the gate accepts exactly when all twenty things are so |
| GateLaws.StateExactly | scripts/ai_controller/core.py:1146-1158 | the state is stopped unless accepted, and else green exactly when there is no finding |
| GateLaws.ReasonsInOrder | scripts/ai_controller/core.py:1138-1145 | the reasons are names of gates, each once and in the order of the gates |
| GateLaws.AcceptedFitsSchemas | scripts/ai_controller/core.py:999-1030 | an accepted gate had a request and a review that satisfy their schemas |
| GateLaws.PyEqualIsSame | scripts/ai_controller/core.py:1017 | the comparison of work-order ids is structural equality with booleans taken as numbers |
| LoopLaws.RaisesExactly | scripts/ai_controller/core.py:1171-1181 | the loop raises exactly when the findings cannot be iterated over or an unreadable one comes before any unverified P0 or P1 |
| LoopLaws.MovesExactly | scripts/ai_controller/core.py:1161-1191 | otherwise it stops with exactly the reasons that apply, accepts when there is no finding, and else retries exactly while the phase (B once, C three times) and the work order allow it |
| LoopLaws.RetriesByPhase | scripts/ai_controller/core.py:1187-1191 | whole runs: at most one retry in phase B, three in phase C and none elsewhere, and exactly as many when every review can be sent back |
| ReviewLoop.ReviewFitsOneRequest | scripts/ai_controller/core.py:1060-1061 | two requests that one accepted review fits are equal up to the order of keys, at the same head and tree, unless their canonical texts collide under the hash |
| ReviewLoop.ReasonsNameRedGates | scripts/ai_controller/core.py:1138-1145 | the reasons name exactly the red gates |
| ReviewLoop.VerifiedWasFixed | scripts/ai_controller/core.py:1083-1122 | a finding an accepted gate saw VERIFIED is eligible, in a re-verification, with a fix candidate and record hash at the current head |
| ReviewLoop.SeverePassesOnlyFixed | scripts/ai_controller/core.py:1161-1191 | after an accepted gate the loop passes over a P0 or P1 finding only if it was so fixed |
| ReviewLoop.GreenMeansNoFindings | scripts/ai_controller/core.py:1146-1152 | a green gate has no findings, and its decision is PASS exactly when the review is not blocking and FAIL exactly when it is |
| ReviewLoop.AcceptanceIsGreen | scripts/ai_controller/core.py:1161-1191 | after an accepted gate, unless something stops it, the loop reaches acceptance exactly when the gate was green |
| ApprovedSchemas.RequestSchemaAccepted | scripts/ai_controller/core.py:327-335 | the shipped request schema (.github/ai/schemas/review-request.schema.json) is accepted under its id, and the validator is total on it, wherever the four patterns compile |
| ApprovedSchemas.ReviewSchemaAccepted | scripts/ai_controller/core.py:327-335 | the same for the shipped review schema (.github/ai/schemas/technical-review.schema.json) |
| ApprovedSchemas.ReviewSchemaDescribesFindings | scripts/ai_controller/core.py:951-956 | the shipped review schema describes findings as objects with a textual severity |
| Examples.ApprovedReviewNeverRaises | scripts/ai_controller/core.py:1171-1181 | so under the shipped schemas the loop never raises on a review an accepted gate let through |
| Examples.DraftAccepted | scripts/ai_controller/core.py:943-1152 | under the shipped schemas a request and a review that satisfy them, are bound to the head and to each other, and pass the gates about decision, mode and findings are accepted, and end green exactly when there is no finding; that no other request or review is, is GateLaws.AcceptedExactly |
| Examples.GreenDespiteFail | scripts/ai_controller/core.py:1031-1041 | under the shipped schemas, for every hash that gives 64 hexadecimal digits and every search that knows the four patterns: a complete request and review with decision FAIL, blocking true and no findings pass all twenty gates, end green and are handed to organizer acceptance |
| Examples.VerifiedPassesGate | scripts/ai_controller/core.py:1083-1122 | under the shipped schemas a re-verification that reports a P0 finding VERIFIED, with a fix candidate at the head, is accepted, and the loop is not stopped by it |
| ReviewLoop.RetriesAreBounded | scripts/ai_controller/core.py:1161-1191 | from iteration 0 with an allowed budget a run retries at most min(phase limit, max_iterations) times, at most 3 |
| ReviewLoop.RetriesReachTheBound | scripts/ai_controller/core.py:1187-1191 | a run of returnable reviews retries exactly until that bound is used up |
| ReviewLoop.OwnRetriesNeverStop | scripts/ai_controller/core.py:1172-1174 | a run's own retries keep the iteration within max_iterations, so STOP-020 arises exactly when the budget is exceeded |
| ReviewLoop.AcceptedReviewNeverRaises | scripts/ai_controller/core.py:1171-1181 | with a review schema that describes findings as objects with a textual severity, the loop never raises on a review an accepted gate let through |
| Scope.SegmentsJoin | scripts/ai_controller/core.py:590-592 | joining the segments of a path gives the path |
| Scope.AllowedPathResolves | scripts/ai_controller/core.py:582-594 | a path that is not denied resolves, under full "." and ".." and empty-segment resolution, to its normalized form inside the repository, which is neither a control-plane file nor under a control-plane prefix |
| Scope.EverySpellingDenied | scripts/ai_controller/core.py:582-594 | every spelling of a control-plane place, and every path that leaves the repository, is denied |
| Scope.PlainPathAllowed | scripts/ai_controller/core.py:582-594 | a plainly spelled path, with or without a leading "./", is denied only when it is a control-plane place |
| Scope.ValidateScope | scripts/ai_controller/core.py:597-613 | the loop over the sorted paths builds exactly the specified reasons and decision; which those are is ScopeLaws.DecidesExactly |
| Scope.AcceptedExactly | scripts/ai_controller/core.py:597-613 | accepted exactly when every changed path is undenied, under no prohibited prefix and, if any are given, under an allowed one; what a prefix is to its entry is ScopeLaws.CoveredIs |
| Scope.UnionAccepted | scripts/ai_controller/core.py:597-613 | a union of path sets is accepted exactly when each set is |
| Scope.OrderIrrelevant | scripts/ai_controller/core.py:597-613 | the decision with its reasons depends only on the set of changed paths |
| Scope.ProhibitedPlace | scripts/ai_controller/core.py:598-605 | prefixes are compared with the path as spelled: an accepted path lies, once normalized, under a prohibited prefix exactly when it begins with "./" and the prohibition covers the rest but not that spelling |
| Scope.KeepsOutExactly | scripts/ai_controller/core.py:597-613 | the lists keep all accepted work out of the prohibited places exactly when no place slips through by its "./" spelling |
| Scope.PlainAllowedKeepsOut | scripts/ai_controller/core.py:606-607 | a list of allowed prefixes, none of which begins or continues "./", is enough for that |
| Scope.DotSlashSlipsThrough | scripts/ai_controller/core.py:604-605 | without such a list "./x" is accepted although everything that begins with "x" is prohibited |
| Scope.AcceptedScopeIsSafe | scripts/ai_controller/core.py:597-613 | everything an accepted scope touches lies inside the repository and outside the control plane |
| ScopeLaws.CoveredIs | scripts/ai_controller/core.py:597-607 | a path is under a prefix of the list exactly when some entry is a beginning of it followed by stars only, the beginning ending in none |
| ScopeLaws.TwoStarsCover | scripts/ai_controller/core.py:597-607 | an entry that ends in two stars covers exactly the paths that begin with what stands before them |
| ScopeLaws.SegmentsStand | scripts/ai_controller/core.py:590-592 | the segments of a path are exactly what stands between its slashes and ends |
| ScopeLaws.DeniedExactly | scripts/ai_controller/core.py:582-593 | denied exactly: empty, rooted, with NUL, backslash, empty or dotted segment, or in one of the five files and seven directories of the control plane |
| ScopeLaws.ReasonsExactly | scripts/ai_controller/core.py:601-607 | each of the three reasons for a path is given exactly when the path was changed and the entries as given refuse it so |
| ScopeLaws.DecidesExactly | scripts/ai_controller/core.py:596-613 | the decision lists the changed paths in ascending order, each once, the reasons by path and then by kind and no others, and accepts exactly when nothing is refused |
| EvidenceLaws.SplitLinesExactly | scripts/ci/write-stage6r11-evidence.py:58 | splitlines gives the one way to break a text at its ten boundary characters, CR LF being one boundary |
| EvidenceLaws.ResultExactly | scripts/ci/write-stage6r11-evidence.py:16 | a line is read as a result exactly when it has the text of one, with any numerals |
| EvidenceLaws.TestExactly | scripts/ci/write-stage6r11-evidence.py:17 | a line is read as a test exactly when it has the text of one: outcome, number, an ID of three digits with its capitals, and anything after it |
| EvidenceLaws.HeadingExactly | scripts/ci/write-stage6r11-evidence.py:28-36 | a line opens a suite exactly when it is one of the seven headings |
| EvidenceLaws.StatusTold | scripts/ci/write-stage6r11-evidence.py:73-85 | for every log: a suite is not run without counts, passed with exactly its expected passes, and else failed |
| EvidenceLaws.NinetyExpected | scripts/ci/write-stage6r11-evidence.py:37 | ninety tests are expected in all |
| EvidenceLaws.TestPrinted | tests/ToiNoMori.Testing/SpecTestRunner.cs:24-44 | the lines printed for a test, with the message of a failure on one line |
| EvidenceLaws.RunPrinted | tests/ToiNoMori.Testing/SpecTestRunner.cs:5-41 | a run prints its heading, its plan and at the end the numbers of its passed and failed tests, or the bail-out |
| EvidenceLog.Repeated | tests/ToiNoMori.Testing/SpecTestRunner.cs:9-15 | an ID is listed as a duplicate exactly when it occurs twice |
| EvidenceLog.SpecTestRunner.RunAsync | tests/ToiNoMori.Testing/SpecTestRunner.cs:5-41 | prints exactly the lines of the run, or the bail-out for repeated IDs, and returns 0 exactly when IDs are unique and nothing failed |
| EvidenceLog.SpecTestRunner.RunTests | tests/ToiNoMori.Testing/SpecTestRunner.cs:24-38 | the loop prints each test's lines in order and counts the failures |
| EvidenceLog.SplitConcat | scripts/ci/write-stage6r11-evidence.py:58 | splitting never joins two printed lines, whatever boundaries they hold |
| EvidenceLog.SplitLinesOfLog | scripts/ci/write-stage6r11-evidence.py:58 | the log splits into the fragments of its printed lines, in order |
| EvidenceLog.ResultMatches | scripts/ci/write-stage6r11-evidence.py:16 | the result pattern reads back the three counts of a printed result line |
| EvidenceLog.TestLineMatches | scripts/ci/write-stage6r11-evidence.py:17 | the test pattern reads back outcome and ID of a test line for every ID of the expected form, whatever follows the ID |
| EvidenceLog.ExpectedIdIsOneLine | scripts/ci/write-stage6r11-evidence.py:17 | an ID of the expected form holds no line boundary |
| Evidence.ParseSuites | scripts/ci/write-stage6r11-evidence.py:41-85 | the loop over lines computes the specified results |
| Evidence.RunRead | scripts/ci/write-stage6r11-evidence.py:56-85 | reading the split lines of one run, whatever came before, adds exactly its IDs and counts to its suite |
| Evidence.CleanByFragments | scripts/ci/write-stage6r11-evidence.py:56-85 | a test is clean when every fragment behind a boundary in its text or message is inert or its own suite's heading |
| Evidence.OneLineIsClean | tests/ToiNoMori.Testing/SpecTestRunner.cs:24-44 | text without line boundaries is clean, and so is a failure message whose only boundaries are CR and LF |
| Evidence.ParsedLogIsExact | scripts/ci/write-stage6r11-evidence.py:41-85 | for every log with at most one run per registered heading, clean tests and other output between, parsing recovers the exact counts, the ordered passed and failed IDs and the status of each suite |
| Evidence.PassedMeansTotalsMatch | scripts/ci/write-stage6r11-evidence.py:88-109 | when every suite passed, the summed totals match |
| Evidence.AcceptedExactly | scripts/ci/write-stage6r11-evidence.py:112-135 | for every log text, acceptance holds exactly when the other checks do and each registered suite reported exactly its expected passes and no failure |
| Evidence.AcceptedLogRanEverything | scripts/ci/write-stage6r11-evidence.py:112-135 | for such a log, acceptance means each registered suite ran exactly its expected number of tests, without repeated IDs, and all passed |
| EvidenceStrays.StrayRead | scripts/ci/write-stage6r11-evidence.py:56-85 | what the parser reports for a run with one doubtful line behind a boundary, by the kind of line and where it stands |
| EvidenceStrays.StrayRecovered | scripts/ci/write-stage6r11-evidence.py:41-85 | such a log is recovered exactly when that line is inert, is the suite's own heading, or is the run's own final result line standing after its last test |
| EvidenceOpen.OpenLogRecovered | scripts/ci/write-stage6r11-evidence.py:41-85 | with any number of doubtful lines in any runs, as long as none is a result or another suite's heading, the log is recovered exactly when every run without repeated IDs is clean |
| EvidenceOpen.TwoLinesCancel | scripts/ci/write-stage6r11-evidence.py:56-85 | for every suite: a message that holds a result line with any counts and then the suite's own heading is not clean, and the log is recovered all the same |
| EvidenceStrays.BoundaryMisleads | tests/ToiNoMori.Testing/SpecTestRunner.cs:44 | for every suite and every run: a failing test whose message is a boundary other than CR and LF and then a full result line makes parse_suites report the run as fully passed, and every other suite correctly |
| EvidenceStrays.AcceptedDespiteFailure | scripts/ci/write-stage6r11-evidence.py:112-135 | with every other suite fully passed and the other checks holding, acceptance then holds although a test failed |
| EvidenceStrays.OneFailingTestReportedPassed | tests/ToiNoMori.Testing/SpecTestRunner.cs:32-44 | one concrete failing test, reported as twelve passes of the domain suite |
| MigratorLaws.PlanExactly | src/ToiNoMori.Api/Persistence/PostgreSqlMigrator.cs:37-42 | the plan lists the SQL resources of the migrations folder, each once, by code point |
| MigratorLaws.TablesTold | src/ToiNoMori.Api/Persistence/PostgreSqlMigrator.cs:12-81 | however many callers start and wherever they fail: the tables are as they were until one commits, and from then on hold besides exactly the migrations that were missing, each once and by code point |
| Migrator.PlanIsOrdered | src/ToiNoMori.Api/Persistence/PostgreSqlMigrator.cs:37-42 | the embedded migrations are listed in ordinal order, each once |
| Migrator.MissingCompletes | src/ToiNoMori.Api/Persistence/PostgreSqlMigrator.cs:44-70 | what the loop records completes the ledger with the plan |
| Migrator.MissingIsNew | src/ToiNoMori.Api/Persistence/PostgreSqlMigrator.cs:44-70 | what the loop records was not in the ledger and is recorded once |
| Migrator.PostgreSqlMigrator.ApplyAsync | src/ToiNoMori.Api/Persistence/PostgreSqlMigrator.cs:12-81 | one call looks each migration up, executes it and records it: it either commits every missing migration in order or, when an execution, a record or the grants fail, changes nothing |
| Migrator.MoveKeeps | src/ToiNoMori.Api/Persistence/PostgreSqlMigrator.cs:12-81 | every step of every concurrent caller (lock, look, execute, record, commit, abort) keeps the invariant: one caller works under the lock, and what it has executed is what it has recorded and, while it records, the one migration at hand |
| Migrator.AppliedExactlyOnce | src/ToiNoMori.Api/Persistence/PostgreSqlMigrator.cs:12-81 | in every interleaving of callers the committed ledger and executed migrations are the initial ones until some call commits, and from then on the initial ones and every missing migration once, in order |
| Migrator.NeverTwice | src/ToiNoMori.Api/Persistence/PostgreSqlMigrator.cs:155-168 | no migration is ever committed twice |
| Migrator.EmptyLedgerFillsInOrder | src/ToiNoMori.Api/Persistence/PostgreSqlMigrator.cs:37-70 | from an empty ledger: nothing, or every embedded migration in ordinal order |
| Migrator.TablesChangeOnce | src/ToiNoMori.Api/Persistence/PostgreSqlMigrator.cs:46-49 | a failing call changes nothing; after the first commit no later step changes the tables, no caller executes or records a migration, and each one a working caller looks at is in the ledger |
| Migrator.SomeoneCanMove | src/ToiNoMori.Api/Persistence/PostgreSqlMigrator.cs:17-22 | while a caller is unfinished some caller can take the lock, its next statement or the commit |

## Left out

- Integer widths: the version is unbounded here and a 32-bit integer in the program; the evidence counters likewise.
- Clock precision: question times are counted in microseconds, the precision PostgreSQL stores, so a snapshot and its stored copy are equal; finer clock ticks are not modelled.
- Column limits and types: varchar lengths, jsonb normalisation and numeric overflow of the tables.
- Audit sequence numbers: rows are listed in commit order; numbers drawn by concurrent transactions may differ from it.
- Rejected audit rows: the two stores write different ones, so they are not compared; each store's own are in its step.
- Transactions.IdKnown: a call may start on a question only after the create that issued its id has finished, since nobody else knows the id; creates are given distinct new ids.
- Availability errors, cancellation and connection loss in the question store: a transaction that breaks off leaves no rows and is not a step here; for the migrator they are (`Migrator.Move.Abort`).
- Snapshot JSON in the idempotency table: stored and read back unchanged.
- Administrative reads, FindPublic, ReadAudit and their orders: queries without updates; only the public search is modelled.
- Agreement.SameRow: ids are numbers below 2^128 with their numeric order, standing for any total order on ids.
- Search.LikeIsContains: both engines are given one character-wise case fold, and one backslash as the LIKE escape.
- HTTP endpoints, sign-in, CSRF and tenant filters, row-level security, grants, hosting and logging.
- Write-duration metrics and the security audit reader; reasons other than rate limiting are one constructor with a code.
- AuditPipeline.PipelineInv: envelopes and their times are fixed before the run; stopping the worker in the middle of a write is a failed write.
- Json.ValueReadsBack: numbers are integers, so 1 and 1.0 do not meet; lone surrogates, NaN, nesting depth and the limit on digits of huge integers are not modelled.
- Schema.ValidateSchemaDefinition: the kind of the first fault is modelled, not the text and location of its message; exceptions of the regular expression compiler other than its own error are not.
- Instance.Validate: floats as instances or bounds.
- ReviewLoop.ReviewGate: the evidence dictionary and the stop-condition listing; the registry is given as its set of ids, and the schemas as accepted definitions.
- The remaining work-order, appointment, disposition, threat-baseline and manufacturing checks: long conjunctions over one document.
- Scope.ValidateScope: paths are texts; non-text entries, which are always denied, are not modelled.
- Order.Sort: strings compare by code point; .NET ordinal order differs for characters beyond U+FFFF, which resource names and test IDs do not use.
- EvidenceLog.TakeNumber: digits are 0 to 9; the pattern also takes other decimal digits.
- Evidence.ParsedLogIsExact: output between runs must not look like a heading, test or result line, and each suite has at most one run; the warning counts and the ID-uniqueness phrase of the log are parameters of acceptance.
- EvidenceStrays.StrayRecovered: with several doubtful lines among which are results or other suites' headings, no condition is stated; what recovers the log then depends on how the lines cancel, which is what the parser itself computes.
- Migrator.PostgreSqlMigrator.ApplyAsync: the statements of one migration with its constraint check are one outcome, and so are the grants; creating the ledger table is no step of its own; cancellation is an abort.
- The evidence summary, the older evidence writers, the sealing of failover evidence, the web front end and the shell scripts.
