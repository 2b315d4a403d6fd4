# HookCode: verified model of its core algorithms

HookCode runs coding agents on repositories. This project models the algorithms it depends on and
proves what they are for: the SQL migration engine, keyset pagination and the approval queue, cache
keys, branch filters, the log queue and the TTL cache, tokens and cursors, the router, change
tracking, provider failover and cost totals. `dafny verify dfyconfig.toml` checks everything.

How it is arranged:

- `SqlSplit`, `SqlLexemes`, `SqlResplit`, `SqlLineEnds`, `SqlComments`, `SqlCommentAware`: cutting a
  migration file into statements.
- `MigrationRunner`, `MigrationUpgrade`: the runner's loops on one database session, and what they make
  of a schema that is partly upgraded. `Migrations`, `MigrationSafety`: the
  same code query by query, for any number of processes, with server errors and lost connections
  anywhere. `MigrationProgress` ties the two together; `MigrationRetry` is the loop over attempts, and
  `MigrationPrefix` says what a lost attempt leaves. The PostgreSQL semantics of a statement, the
  recognisers and rewriters of SQL texts and the probes of a legacy schema are functions in `Env`.
- `Pagination`, `Approvals`, `ApprovalSafety`, `ApprovalRules`, `ApprovalHistory`, `Regex`: the approval
  queue, its page walk and its allow rules.
- `Json`, `StableKey`: the printer behind the cache keys, and when two keys collide.
- `Glob`: branch filters as compiled text. The text is read back as an ECMAScript pattern.
- `LineLogger`, `TtlCache`, `CacheRuns`, `GetCache`, `GetCacheRuns`: concurrent structures. A stretch of
  JavaScript between two awaits is one step.
- `Utf8`, `Base64Url`, `Token`, `Cursor`, `Router`, `RouterHashes`, `ChangedFiles`: encoders and decoders.
- `LineBuffer`, `FilteredPage`, `ChangeTracker`, `ChangeTrackerItem`: incremental forms against
  whole-input definitions.
- `Failover`, `FailoverRecord`, `Cost`: provider routing, estimates and breakdowns.

Lemmas outside the table whose names end in `Is` or `Are` write a small definition out with its literal
characters and names, so that no two definitions can drift together.

What is false of the code, and exactly when it holds:

- Re-splitting fails for files in which a CR CR LF stands between two texts of a segment, and only for
  those (`SqlLineEnds`).
- The splitter reads comments as code. It is right about a file exactly when every segment of the
  file with its comments understood reads without a cut, and each but the last to a plain end
  (`SqlCommentAware`).
- A start-up that loses its connection in the middle of the bootstrap applies migrations on its retry
  that it would have recorded; lost anywhere else, the retry ends as if nothing had happened
  (`MigrationRetry`).
- Branch filters are plain globs only for subjects without a line terminator: with one, the filter
  `*` accepts nothing (`Glob`).
- Two requests share a cache key when one has no parameters and a URL that spells the other's key,
  and in no other case, whatever the URLs are (`StableKey`).
- A response that was under way when its key was invalidated is cached and served all the same; nothing
  else that the browser's cache serves is older than the last invalidation (`GetCacheRuns`).
- Requests for one key are not always shared: an invalidation and the end of any request for the key,
  also of one that was not shared, take the registration away; nothing else does (`GetCacheRuns`).
- A waiting task that is stopped, retried without being asked for again, or given a status by its
  worker leaves its request pending, and a later decision still moves the task; nothing else does
  (`ApprovalSafety`).
- The queue reads its guard outside its transaction. A decision that commits late breaks the log, a
  creation that commits late breaks "one pending request a task", and a refresh that commits late
  leaves a task waiting for nothing or a rule that was never approved; each under an exact condition
  (`ApprovalSafety`).
- Pages that are read straight from a provider ask for one item more than they show, with the page
  number of the shown size: every (pageSize + 1)-th item is on no page (`FilteredPage`).
- Filtered pages end before the list does when an item that passes lies behind the last provider page
  that may be read, and only then (`FilteredPage`).
- Ids in hash paths are encoded when written and not decoded when read (`Router`).
- Target paths with a backslash, a leading `./` or white space at an end are rewritten (`ChangedFiles`).

## Model

| member | source | states |
|---|---|---|
| SqlSplit.SplitSqlStatements | backend/src/db/schemaMigrations.ts:72-132 | the scanner loop with its quote flags, dollar tag, look-back and index jumps computes `Split`: normalise line ends, cut at the semicolons outside every quoted part, trim, drop blanks; no statement is empty or has white space at an end |
| SqlSplit.IsTagSpelled | backend/src/db/schemaMigrations.ts:85 | which texts are dollar tags, letter by letter |
| SqlSplit.TryReadDollarTag | backend/src/db/schemaMigrations.ts:80-87 | find the next dollar, then test what lies between: exactly the recogniser `TagAt` |
| SqlSplit.TagAtIsText | backend/src/db/schemaMigrations.ts:80-87 | a tag is recognised at a place exactly when its text stands there |
| SqlLexemes.ScannerReadsLexemes | backend/src/db/schemaMigrations.ts:89-127 | partner: a reader that takes a whole quoted part at a time, up to the first place that can close it, cuts at the same semicolons |
| SqlLexemes.QuotedPart | backend/src/db/schemaMigrations.ts:111-117 | inside quotes only the first quote without a backslash before it matters |
| SqlLexemes.DollarPart | backend/src/db/schemaMigrations.ts:93-109 | inside a dollar-quoted part only the next occurrence of the same tag matters |
| SqlResplit.SegmentsConserve | backend/src/db/schemaMigrations.ts:89-131 | conservation, for every file: the raw segments joined with semicolons are the normalised file |
| SqlResplit.StepLocal | backend/src/db/schemaMigrations.ts:80-117 | tag recognition and the look-back are local: a step inside a segment does not depend on what surrounds it |
| SqlResplit.CutterIsLexical | backend/src/db/schemaMigrations.ts:89-127 | every segment but the last reads from plain to plain, and none could be cut inside |
| SqlResplit.SegmentsUnique | backend/src/db/schemaMigrations.ts:89-131 | a list of texts is what cutting its join gives back exactly when it is lexical: the cut is unique |
| SqlResplit.TrimReading | backend/src/db/schemaMigrations.ts:120-130 | trimming a segment does not change how it reads |
| SqlResplit.Resplit | backend/src/db/schemaMigrations.ts:72-132 | re-splitting the joined output gives the same statements exactly when the joined output holds no CRLF |
| SqlResplit.ResplitOne | backend/src/db/schemaMigrations.ts:72-132 | a single output statement splits to itself exactly when it holds no CRLF |
| SqlResplit.ResplitOrdinary | backend/src/db/schemaMigrations.ts:72-132 | so it holds for every file without CR CR LF, in particular without carriage returns |
| SqlResplit.ResplitCounterexample | backend/src/db/schemaMigrations.ts:73 | a file with CR CR LF whose output is not a fixed point |
| SqlLineEnds.SegmentsOfNormal | backend/src/db/schemaMigrations.ts:72-127 | normalising line ends and cutting commute, for every file |
| SqlLineEnds.ResplitExactly | backend/src/db/schemaMigrations.ts:72-132 | on the file itself: its statements survive a second splitting exactly when no segment has a CR CR LF with text before and behind it |
| SqlComments.StripSqlLeadingComments | backend/src/db/schemaMigrations.ts:43-70 | the loop computes `StripLeadingComments` |
| SqlComments.StripUndoesHeader | backend/src/db/schemaMigrations.ts:43-70 | whatever header of blanks, line and block comments stands before a statement, stripping gives the statement back |
| SqlComments.TextIsHeaderAndRest | backend/src/db/schemaMigrations.ts:43-70 | and nothing else is taken away: every text is a header and what is left, unless it ends in an unfinished line comment |
| SqlCommentAware.CommentsHarmlessExactly | backend/src/db/schemaMigrations.ts:89-127 | against a reading that passes over comments outside quotes: the splitter is right about a file exactly when it reads each comment-aware segment without a cut and each but the last to its plain end |
| SqlCommentAware.QuietCommentsAreHarmless | backend/src/db/schemaMigrations.ts:89-127 | so it is right whenever every comment, read on its own, holds no cut and leaves nothing open |
| SqlCommentAware.OrdinaryCommentIsQuiet | backend/src/db/schemaMigrations.ts:89-127 | which is so for a comment without quotes, dollar signs and semicolons |
| SqlCommentAware.LoudComment | backend/src/db/schemaMigrations.ts:89-127 | the first other comment: the splitter is right exactly if it reads plainly from there to the first semicolon outside comments and quotes behind it, and is right from there on; so it is wrong when the comment holds a cut, or leaves open what is still open at that semicolon |
| SqlCommentAware.ApostropheInComment | backend/src/db/schemaMigrations.ts:89-127 | a comment that opens with the only apostrophe of a file: right exactly when no semicolon stands outside comments and quotes |
| MigrationRunner.Session.ApplyStatement | backend/src/db/schemaMigrations.ts:423-468 | for each answer of the server: the schema it gives; for 42701 and 42P07 exactly what the rewritten text does, for 42710 nothing exactly when the named constraint exists, otherwise a failure |
| MigrationUpgrade.PartlyUpgradedEndsAlike | backend/src/db/schemaMigrations.ts:423-497 | where each text works exactly when none of its objects is there and its rewrite adds what is missing: whatever part is there already, the migrations lead to the schema that they lead to from a clean one, and change nothing a second time |
| MigrationRunner.Session.ApplySqlMigrations | backend/src/db/schemaMigrations.ts:470-497 | what is committed is the effect of the first migrations and their records, nothing of the one that stopped it; it applies all exactly when all are allowed and have an effect |
| MigrationRunner.Session.BootstrapLegacyMigrationRecords | backend/src/db/schemaMigrations.ts:334-362 | records the longest prefix that looks applied, at least the first migration, and only on an untracked schema with the core tables |
| MigrationRunner.Session.EnsureUnderLock | backend/src/db.ts:134-167 | succeeds exactly when the checksums agree and what is pending is nothing or may be applied and can be; then everything shipped is recorded, and no record is changed or lost |
| MigrationRetry.EnsureSchema | backend/src/db.ts:120-181 | the loop over the attempts, each the work under the lock or the first writes of it: whole final state, which attempts are made, and all recorded on success |
| MigrationPrefix.FirstWritesStay | backend/src/db.ts:120-168 | query by query: after any number of queries of a process that works alone, exactly its first writes are committed, baseline records and then whole migrations; so that is what a lost connection leaves |
| MigrationRetry.ResumeExactly | backend/src/db.ts:132-168 | an attempt that takes over from a lost one ends as one undisturbed attempt would, schema, records and verdict alike, exactly when the connection was not lost inside the bootstrap |
| MigrationRetry.RetriesAreInvisible | backend/src/db.ts:132-180 | so does the whole loop, exactly when no attempt was lost there |
| MigrationSafety.TxStep | backend/src/db/schemaMigrations.ts:423-490 | in a migration transaction the working schema is always the effect of the statements run so far, at each of its queries |
| MigrationSafety.StepKeepsInv | backend/src/db.ts:81-181 | the invariant survives every query, server error and lost connection of any process |
| MigrationSafety.RunKeepsInv | backend/src/db.ts:81-181 | so it holds after every run of competing processes |
| MigrationSafety.TrackedIsPrefix | backend/src/db/schemaMigrations.ts:334-497 | the tracked ids are a prefix of the list, first baselined and then migrated ones, with their checksums, and the committed schema is exactly the effect of the migrated ones |
| MigrationSafety.NothingCommitsTwice | backend/src/db/schemaMigrations.ts:470-497 | no migration is recorded twice in a run |
| MigrationSafety.FlaggedNeedsConsent | backend/src/db/schemaMigrations.ts:470-480 | no statement of a flagged migration reaches the server without the data-loss flag |
| MigrationSafety.OneHolder | backend/src/db.ts:81-118 | at most one process is past the advisory lock |
| MigrationSafety.DoneMeansCurrent | backend/src/db.ts:120-168 | a process that finished well finds all it ships recorded with its checksum |
| MigrationSafety.ChecksumsHold | backend/src/db.ts:143-152 | with an append-only list no recorded checksum ever differs from a shipped one |
| MigrationSafety.StepIsAtomic | backend/src/db/schemaMigrations.ts:484-493 | a step commits nothing, one baseline record, or one whole migration with its record |
| MigrationProgress.StatementRuns | backend/src/db/schemaMigrations.ts:423-468 | query by query, a statement ends in the next one with its effect, or in a rolled back transaction |
| MigrationProgress.TxRuns | backend/src/db/schemaMigrations.ts:483-496 | and a transaction in a commit with its record, or in a rollback |
| MigrationProgress.HolderRuns | backend/src/db.ts:134-167 | the holder of the lock that nobody disturbs ends with the schema, records and verdict of the sequential runner |
| MigrationProgress.AloneIsSequential | backend/src/db.ts:120-168 | so a process left alone in the system is done after finitely many queries, with that outcome: the interleaved model refines the loops |
| MigrationProgress.StartedRunsAlone | backend/src/db.ts:120-168 | the same from its start, for every release of at least one migration that has shipped |
| MigrationProgress.LostConnection | backend/src/db.ts:120-181 | a lost connection leaves the database as it was, but for a baseline record or a commit already carried out; the lock is given back and the process begins again or gives up |
| Pagination.SelectIsExact | backend/src/policyEngine/approvalQueue.service.ts:392-434 | a query returns exactly the matching rows after the cursor, strictly descending |
| Pagination.PageIsPrefix | backend/src/policyEngine/approvalQueue.service.ts:400-405 | a page is the first rows of the selection and has a cursor exactly when there are more, the empty scope included |
| Pagination.PageShows | backend/src/policyEngine/approvalQueue.service.ts:392-434 | a page, field by field: rows behind the cursor that equal every given filter and lie in the scope, newest first and by id, none of them left out before the next cursor |
| Pagination.WalkShowsExactly | backend/src/policyEngine/approvalQueue.service.ts:392-468 | a walk over a table at rest, field by field: exactly the rows that equal every given filter and lie in the scope, newest first and by id |
| Pagination.WalkStaysInScope | backend/src/policyEngine/approvalQueue.service.ts:399-404 | whatever happens to the table, a walk never shows a row outside its filters and its scope |
| Pagination.WalkDescends | backend/src/policyEngine/approvalQueue.service.ts:410-416 | whatever happens to the table between pages, a walk goes strictly downwards: no row comes back |
| Pagination.WalkMissesNothing | backend/src/policyEngine/approvalQueue.service.ts:392-468 | a finished walk has returned every row that was there and matched each time a page was read |
| Pagination.WalkInventsNothing | backend/src/policyEngine/approvalQueue.service.ts:392-468 | what a walk returns was in the table of some page and matched |
| Pagination.WalkEnds | backend/src/policyEngine/approvalQueue.service.ts:436-467 | a walk ends when only finitely many rows ever appear |
| Pagination.FixedTableWalk | backend/src/policyEngine/approvalQueue.service.ts:392-468 | on a table at rest the pages are the whole selection in order, and their number is the least possible |
| Approvals.Newest | backend/src/policyEngine/approvalQueue.service.ts:130-133 | the pending request that an enqueue finds, if any: the newest of its task |
| Approvals.ApprovalQueue.FindPending | backend/src/policyEngine/approvalQueue.service.ts:130-133 | the query as a loop |
| Approvals.ApprovalQueue.EnqueueApproval | backend/src/policyEngine/approvalQueue.service.ts:122-207 | whole new state: refresh the pending request or create one with its first action, and hold the task |
| Approvals.ApprovalQueue.RejectApproval | backend/src/policyEngine/approvalQueue.service.ts:209-253 | whole new state and result, for both refusals and for a request that is gone or resolved |
| Approvals.ApprovalQueue.ApproveRequestOnce | backend/src/policyEngine/approvalQueue.service.ts:255-295 | whole new state and result |
| Approvals.ApprovalQueue.ApproveRequestAlways | backend/src/policyEngine/approvalQueue.service.ts:297-371 | whole new state and result, with the allow rule |
| ApprovalHistory.AskCreates | backend/src/policyEngine/approvalQueue.service.ts:165-206 | asking for a task without a pending request: every field of the new request, of its first action and of the held task comes from the event, and nothing else changes |
| ApprovalHistory.AskRefreshes | backend/src/policyEngine/approvalQueue.service.ts:137-163 | asking for one with a pending request rewrites its evaluation and time of change, holds the task, and nothing else |
| ApprovalHistory.DecisionTells | backend/src/policyEngine/approvalQueue.service.ts:209-371 | what each kind of decision tells the task and the log, word by word, and the rule that it leaves or does not leave |
| ApprovalHistory.RequestTellsEvents | backend/src/policyEngine/approvalQueue.service.ts:122-371 | after any run the repository, robot, requester and creation time of a request are those of the event that created it, and its evaluation is that of the last event that asked while it was pending |
| ApprovalSafety.StartIsInv | backend/src/policyEngine/approvalQueue.service.ts:122-207 | before the first request, with no task waiting, the invariant and the equivalence hold |
| ApprovalSafety.StepKeepsInv | backend/src/policyEngine/approvalQueue.service.ts:122-371 | each operation of the queue, and each write to a task's status anywhere else (creation, retry, unguarded patch, claim, failure of a running task, stop), keeps the invariant |
| ApprovalSafety.RunKeepsInv | backend/src/policyEngine/approvalQueue.service.ts:122-371 | after any run: one pending request a task at most, one "requested" action and one fitting resolving action, one rule for each approval for always, every waiting task has a pending request |
| ApprovalSafety.StrayExactly | backend/src/modules/tasks/task.service.ts:1801-1901 | exactly when a task has a pending request that it does not wait for: it had one that this step neither refreshes nor decides, or it waited and is stopped, queued again or given another status |
| ApprovalSafety.WaitingExactly | backend/src/modules/tasks/task.service.ts:1801-1901 | so where every pending request's task waits, it goes on waiting exactly when the step is not one of those |
| ApprovalSafety.RetryExactly | backend/src/modules/tasks/task.service.ts:1845-1867 | a retry with its cost and policy guards leaves a task with a request it does not wait for exactly when the task had a pending request and no guard asks again; other tasks are as before |
| ApprovalSafety.DroppedIsStillDecided | backend/src/policyEngine/approvalQueue.service.ts:209-371 | after that the next decision on the request queues or fails the task, whatever has become of it |
| ApprovalSafety.DecisionTakesEffect | backend/src/policyEngine/approvalQueue.service.ts:209-371 | a decision queues or fails its task, is told alike by request and log, and touches nothing else |
| ApprovalSafety.FirstDecisionWins | backend/src/policyEngine/approvalQueue.service.ts:209-211 | a later decision on the same request changes nothing and gets nothing |
| ApprovalSafety.AskingAgainRefreshes | backend/src/policyEngine/approvalQueue.service.ts:130-163 | a second enqueue for a task refreshes its request and adds neither request nor action |
| ApprovalSafety.ResolvedIsFrozen | backend/src/policyEngine/approvalQueue.service.ts:209-371 | no run changes a resolved request, its actions or its rule, nor the task and creation time of any request |
| ApprovalSafety.LateDecision | backend/src/policyEngine/approvalQueue.service.ts:209-241 | a decision that commits later than its guard was read keeps the invariant exactly when the request is still pending |
| ApprovalSafety.LateCreation | backend/src/policyEngine/approvalQueue.service.ts:130-207 | a creation that commits late keeps it exactly when there still is no pending request |
| ApprovalSafety.LateRefresh | backend/src/policyEngine/approvalQueue.service.ts:130-163 | a refresh that commits late keeps it exactly when its task has a pending request all the same, and the rewritten evaluation still gives the rule that an approval for always has left |
| ApprovalRules.RuleCoversExactly | backend/src/policyEngine/policyEngine.service.ts:168-191 | after any run, exactly which tasks the rule of an approval for always covers: those of the request's repository, robot, provider, source, risk level and network access as far as it names them, with its sandbox if that is a known one, and with at least one of its files and one of its commands, up to letter case, if it names any |
| ApprovalHistory.RuleCoversItsTask | backend/src/policyEngine/policyEngine.service.ts:168-191 | after any run the rule covers the task as the policy guard saw it when it asked last, exactly when trimming does not change the texts that describe the task |
| ApprovalRules.NamelessRule | backend/src/policyEngine/approvalQueue.service.ts:309-318 | without files and commands in the request the rule looks at neither |
| Regex.EscapeParses | backend/src/policyEngine/approvalQueue.service.ts:28 | an escaped text reads back as its own characters |
| Regex.LiteralPatternMatchesItself | backend/src/policyEngine/approvalQueue.service.ts:316-317 | an anchored escaped text matches exactly itself, up to letter case |
| Glob.CompileIsBody | backend/src/services/automationEngine.ts:62-67 | the three replacements do not disturb one another: together they write one piece for each character |
| Glob.CompileIs | backend/src/services/automationEngine.ts:62-67 | the compiled text of every glob, character by character |
| Glob.CompileParses | backend/src/services/automationEngine.ts:62-67 | the compiled text is a regular expression: start, one term for each character, end |
| Glob.CompiledMeansGlob | backend/src/services/automationEngine.ts:62-67 | read back and matched, it accepts a subject exactly when the subject can be cut into pieces that fit the glob, wildcards staying on one line |
| Glob.PlainGlobExactly | backend/src/services/automationEngine.ts:62-67 | the compiled filters are plain globs exactly for subjects without a line terminator |
| Glob.ClauseMeansGlobs | backend/src/services/automationEngine.ts:101-111 | a `matchesAny` clause holds exactly when some non-blank trimmed pattern accepts the trimmed value, or the negation of that |
| Json.ReadEscapedBody | frontend/src/api/client.ts:22 | string quoting of section 7 of RFC 8259 is undone by reading, up to the closing quote |
| Json.ReadPrint | frontend/src/api/client.ts:20-26 | a reader gives back every printed value and leaves what follows |
| Json.PrintIsInjective | frontend/src/api/client.ts:20-26 | so texts of values are distinct, also when something follows them |
| Json.PrintIs | frontend/src/api/client.ts:20-26 | the text of each kind of value |
| StableKey.StringifyIsPrint | frontend/src/api/client.ts:20-26 | `stableStringify` prints the form with sorted fields at every depth |
| StableKey.CanonIsSame | frontend/src/api/client.ts:24 | sorted forms are equal exactly when the values are the same up to the order of fields |
| StableKey.StringifyExactly | frontend/src/api/client.ts:20-26 | two values have the same text exactly when they are the same up to the order of fields |
| StableKey.NoTextEndsAnother | frontend/src/api/client.ts:28-32 | a question mark and a whole object text are never the end of another text |
| StableKey.CacheKeyExactly | frontend/src/api/client.ts:28-32 | for all URLs: keys are equal exactly for the same request, or when one request has no parameters and its URL spells the other's key |
| StableKey.PlainUrlsDoNotCollide | frontend/src/api/client.ts:28-32 | for URLs without a question mark keys are equal exactly for the same request, absent and empty parameters being one |
| StableKey.EveryKeyCollides | frontend/src/api/client.ts:28-32 | every request with parameters has such a partner |
| StableKey.ObjectText | frontend/src/api/client.ts:20-26 | an object's text: each field once, its key quoted, the keys in ascending order |
| StableKey.BeforeIs | frontend/src/api/client.ts:20-26 | that order: the first difference decides, and what is only longer comes later |
| LineLogger.Logger.EnqueueLine | backend/src/utils/providerRuntime.ts:49-65 | whole new state: drop when full, append, start a pump if none is kept |
| LineLogger.Logger.SinkSettled | backend/src/utils/providerRuntime.ts:26-37 | whole new state when the sink has answered |
| LineLogger.Logger.PumpEnded | backend/src/utils/providerRuntime.ts:40-47 | whole new state of the `finally` callback, with the restart |
| LineLogger.StepKeepsInv | backend/src/utils/providerRuntime.ts:19-65 | each step keeps the invariant |
| LineLogger.LoggerIsSafe | backend/src/utils/providerRuntime.ts:19-65 | in every interleaving: bounded queue, at most one pump, a non-empty queue has one, every line is exactly one of sent, queued or dropped, sent in order, important lines dropped only from a full queue of important lines |
| LineLogger.QueueDrains | backend/src/utils/providerRuntime.ts:23-47 | when no more lines come, every queued line is sent in order and the pump stops |
| TtlCache.Cache.Get | backend/src/utils/ttlCache.ts:15-23 | result and new store |
| TtlCache.Cache.Set | backend/src/utils/ttlCache.ts:25-29 | new store, unchanged for a TTL that is not positive |
| TtlCache.WithoutExpired | backend/src/utils/ttlCache.ts:54-56 | the walk that deletes expired entries while it goes keeps exactly the others, in their order |
| TtlCache.Cache.Prune | backend/src/utils/ttlCache.ts:53-62 | the two loops: expired entries, then the oldest places while too many |
| TtlCache.Cache.BeginGetOrSet | backend/src/utils/ttlCache.ts:31-50 | up to the first await: serve, bypass, join or begin |
| CacheRuns.PruneIsOldestFirst | backend/src/utils/ttlCache.ts:53-62 | only a full cache pushes entries out, those in the oldest places |
| CacheRuns.StepKeepsInv | backend/src/utils/ttlCache.ts:15-62 | each stretch between awaits keeps the invariant |
| CacheRuns.CacheIsPlainMap | backend/src/utils/ttlCache.ts:15-62 | after any run a read is a hit exactly when the last effective write of the key has neither expired nor been pushed out, with that write's value; and the size limit holds |
| CacheRuns.OneFactoryAKey | backend/src/utils/ttlCache.ts:31-51 | at most one factory of a key is under way |
| CacheRuns.JoinsWhatIsUnderWay | backend/src/utils/ttlCache.ts:35-50 | after any run a miss joins a task exactly when one of its key is under way, and then that one |
| CacheRuns.SharersGetOneAnswer | backend/src/utils/ttlCache.ts:36-50 | whoever began a task and whoever joined it are answered alike, with the outcome of its factory |
| CacheRuns.ServedIsYoung | backend/src/utils/ttlCache.ts:31-51 | a served value that a factory made is younger than its TTL, counted from the call that began it |
| CacheRuns.FailuresAreNotCached | backend/src/utils/ttlCache.ts:38-47 | an entry that a factory made is what a factory that succeeded produced |
| CacheRuns.StepIsMethod | backend/src/utils/ttlCache.ts:15-62 | each step changes the store as the method does that it stands for |
| GetCache.Cache.BeginGet | frontend/src/api/client.ts:57-90 | up to the request: answer from the cache, share a registered request, or send one |
| GetCache.Cache.Respond | frontend/src/api/client.ts:35-43 | what a response leaves in the cache, after the two loops of the prune |
| GetCache.Cache.Invalidate | frontend/src/api/client.ts:45-53 | both loops: nothing whose key starts with the prefix stays cached or registered, and the rest stays as it was |
| GetCacheRuns.CachedExactly | frontend/src/api/client.ts:45-90 | after any run a cached answer is within its TTL, and its response came after every invalidation of its key; it was asked for before one exactly when that invalidation came while its request was under way |
| GetCacheRuns.SharedIsCurrent | frontend/src/api/client.ts:71-75 | a request that is shared is for the key, not over, and was sent after every invalidation of it |
| GetCacheRuns.OldResponseComesBack | frontend/src/api/client.ts:77-87 | from any state: a request that an invalidation covers while it is under way is cached and served afterwards |
| GetCacheRuns.RegisteredExactly | frontend/src/api/client.ts:45-88 | after any run a request can be shared exactly while three things hold: its own call shares, no invalidation has covered its key since it was sent, and no request for its key has ended since |
| GetCacheRuns.SentExactly | frontend/src/api/client.ts:71-90 | a call that misses shares exactly the request that can be shared, if it may, and sends one beside whatever is under way exactly when it may not share or none can be shared |
| GetCacheRuns.SecondHasCause | frontend/src/api/client.ts:71-90 | of two requests for a key, the later sent by a call that shares, the earlier could not be shared by then, for one of those reasons |
| GetCacheRuns.EndTakesRegistration | frontend/src/api/client.ts:84-88 | from any state: the end of one request unregisters every other for its key, and the next sharing call that misses sends one more |
| GetCacheRuns.OneRequestAKey | frontend/src/api/client.ts:71-90 | at most one request of a key is under way, if its calls share and no invalidation covers it |
| GetCacheRuns.TwoCauses | frontend/src/api/client.ts:45-90 | both causes occur: two requests of sharing calls for one key are under way after an invalidation, and without one after the end of a request that was not shared |
| Utf8.RoundTrip | backend/src/auth/authService.ts:30-33 | decoding undoes UTF-8 encoding of every text |
| Utf8.EncodeCharIs | backend/src/auth/authService.ts:30-40 | the bytes of a character by range, as section 3 of RFC 3629 tabulates them |
| Utf8.DecodeExactly | backend/src/auth/authService.ts:30-40 | exactly the encodings of texts are read, each as its text: no overlong form |
| Base64Url.Decode64Encode64 | backend/src/auth/authService.ts:30-40 | padded base64 round trip |
| Base64Url.PaddingComesBack | backend/src/auth/authService.ts:32-39 | the padding that is put back is the padding that was removed |
| Base64Url.DecodeUrlEncodeUrl | backend/src/auth/authService.ts:30-40 | decoding undoes encoding for every byte string |
| Base64Url.EncodeUrlAlphabet | backend/src/auth/authService.ts:30-33 | an encoded text holds none of the characters ".", "+", "/" and "=" |
| Base64Url.EncodeUrlIs | backend/src/auth/authService.ts:30-40 | digit by digit: the URL letter of its six bits, and none missing (sections 4 and 5 of RFC 4648) |
| Token.VerifyIssued | backend/src/auth/authService.ts:147-190 | verifying an issued token gives back id, name and times exactly while it has not expired and names a user; which error otherwise |
| Token.OnlySignedTokensPass | backend/src/auth/authService.ts:162-168 | exactly the payload parts that carry their own signature get past it |
| Token.PayloadText | backend/src/auth/authService.ts:147-158 | what is signed: the claims as JSON text, key by key |
| Token.VerifyBare | backend/src/auth/authService.ts:171-189 | a signed payload without user name and time of issue |
| Cursor.CursorRoundTrip | backend/src/utils/pagination.ts:25-64 | a page cursor comes back exactly when its id looks like a UUID, and one with blanks around its id comes back trimmed |
| Cursor.EncodeCursorIs | backend/src/utils/pagination.ts:25-28 | what goes on the wire: the record as JSON text, key by key |
| FilteredPage.ListFilteredPage | backend/src/services/repoProviderActivity.ts:230-257 | with either early exit: the page-th slice of the filtered items that may be read, and whether one more exists |
| FilteredPage.WalkFilteredPages | backend/src/services/repoProviderActivity.ts:230-257 | turning pages while there are more gives all the items that may be read, in order, each once, in the least number of pages |
| FilteredPage.VisibleIsAll | backend/src/services/repoProviderActivity.ts:230-257 | these are all items that pass the filter exactly when none of those passes that lies behind the provider pages that may be read |
| FilteredPage.DirectPageIsSlice | backend/src/services/repoProviderActivity.ts:187-204 | what a direct page shows |
| FilteredPage.DirectPagesShow | backend/src/services/repoProviderActivity.ts:187-228 | which item shows on which direct page: none for every (pageSize + 1)-th |
| FilteredPage.DirectPagesJoinExactly | backend/src/services/repoProviderActivity.ts:187-228 | direct pages put together give the list back exactly when it fits on one page |
| ChangeTracker.Tracker.HasSnapshotChanged | backend/src/utils/workspaceChangeTracker.ts:91-104 | the comparison loop |
| ChangeTracker.Tracker.Sync | backend/src/utils/workspaceChangeTracker.ts:54-89 | whole new state of a poll |
| ChangeTracker.Tracker.EmitTimelineSnapshot | backend/src/utils/workspaceChangeTracker.ts:106-140 | whole new state of the timeline events |
| ChangeTracker.StartIsInv | backend/src/utils/workspaceChanges.ts:222-233 | nothing has changed against the baseline itself |
| ChangeTracker.PollIsFaithful | backend/src/utils/workspaceChangeTracker.ts:54-140 | after a poll the saved snapshot lists the current changes in order, and a reader of the newest diffs holds the current diff of each listed file |
| ChangeTracker.RunIsFaithful | backend/src/utils/workspaceChangeTracker.ts:39-140 | so after any run of polls from the start |
| ChangeTracker.PollStreamsWhatItSaves | backend/src/utils/workspaceChangeTracker.ts:61-65 | the snapshot streamed last is the snapshot saved last |
| ChangeTracker.PollListsChanges | backend/src/utils/workspaceChangeTracker.ts:106-126 | with timeline events the newest item event lists the paths and kinds of the current changes |
| ChangeTracker.RunListsChanges | backend/src/utils/workspaceChangeTracker.ts:39-140 | so after any run of polls from the start |
| ChangeTracker.RunTells | backend/src/utils/workspaceChangeTracker.ts:125-139 | after any run of polls the newest diff event of a path tells the file as it was last sent, and when it is sent is told from the polls alone |
| ChangeTracker.RunTellsKind | backend/src/utils/workspaceChangeTracker.ts:125-139 | so it names the current kind exactly when this is the last poll, the file was never sent, its digest has changed since it was, or it was of this kind already |
| ChangeTracker.AnnouncedOnce | backend/src/utils/workspaceChangeTracker.ts:117-123 | the item is announced at most once and before any other of its events |
| ChangeTrackerItem.SinceIs | backend/src/utils/workspaceChanges.ts:222-233 | a file counts as changed exactly when the baseline has none of its path with the same digest |
| ChangeTrackerItem.SavedIsCurrent | backend/src/utils/workspaceChangeTracker.ts:54-104 | after any run of polls the saved snapshot agrees with the current changes in every path, kind and digest |
| ChangeTrackerItem.RunCompletes | backend/src/utils/workspaceChangeTracker.ts:67-126 | after any run whose polls but the last are not terminal, the item exists exactly when some poll has found a change, and stands as completed exactly when the last poll is terminal |
| LineBuffer.Buffer.Push | backend/src/agent/agent.ts:2773-2782 | the loop hands on every line that the data completes |
| LineBuffer.Buffer.Flush | backend/src/agent/agent.ts:2783-2787 | the remainder, if any |
| LineBuffer.StreamIsBatch | backend/src/agent/agent.ts:2770-2789 | however a text is cut into chunks, the lines are those of the whole text |
| LineBuffer.LinesAre | backend/src/agent/agent.ts:2773-2787 | what those are: the lines with an LF or CR LF after each are the text, no line holds an LF, and no CR is dropped but one before an LF or at the very end |
| Failover.Normalize | backend/src/providerRouting/providerRouting.types.ts:82-102 | the fallback is never the primary, and the policy needs a fallback |
| Failover.NormalizeExactly | backend/src/providerRouting/providerRouting.types.ts:72-102 | which texts give which mode, policy and fallback provider |
| Failover.NormalizeUndoesWrite | backend/src/providerRouting/providerRouting.types.ts:82-102 | every configuration that can be meant comes back from its texts |
| Failover.SelectedExactly | backend/src/providerRouting/providerRouting.service.ts:200-280 | which provider runs first, from the texts and the credentials: the named fallback exactly when availability comes first and only it is available |
| Failover.PlanIsShaped | backend/src/providerRouting/providerRouting.service.ts:200-280 | which provider is selected, and which attempts a plan has |
| Failover.RunAttempts | backend/src/agent/agent.ts:2377-2577 | the attempt loop: records, saves and result for every way an attempt can end |
| Failover.TurnIsHonest | backend/src/agent/agent.ts:2385-2575 | each turn keeps the record honest |
| Failover.RunIsHonest | backend/src/agent/agent.ts:2377-2577 | every saved record: final provider, skipped primary, failover flag and start of the fallback mean what they say; an attempt stays "running" exactly after an abort |
| Failover.KeysMustDiffer | backend/src/providerRouting/providerRouting.service.ts:191-198 | were the two keys equal, and only then, a run would mark a fallback that never started as failed, and a failed primary as succeeded |
| FailoverRecord.PrimaryRunTells | backend/src/agent/agent.ts:2377-2577 | a run that begins with the primary, from the outcomes alone: status and reason of both attempts, word for word, final provider, failover flag, number of saved records and result |
| FailoverRecord.FallbackRunTells | backend/src/agent/agent.ts:2377-2577 | the same for a run that availability has given to the fallback |
| ChangedFiles.ParseChangedFiles | backend/src/utils/workspaceChanges.ts:111-138 | the loop with its jumping index computes `FilesFrom` |
| ChangedFiles.ParsePrinted | backend/src/utils/workspaceChanges.ts:106-138 | parsing what git prints gives every change's target and kind in order, paths normalised |
| ChangedFiles.ParseUndoesPrint | backend/src/utils/workspaceChanges.ts:106-138 | it gives the changes back exactly when no target path is one that it rewrites |
| ChangedFiles.NormalExactly | backend/src/utils/workspaceChanges.ts:31-34 | which paths it does not rewrite |
| ChangedFiles.DropDotIs | backend/src/utils/workspaceChanges.ts:32 | what is dropped: a leading dot with all the slashes after it, if there is one |
| Router.DecodeEncoded | frontend/src/router.ts:100-106 | percent-decoding undoes percent-encoding of every text (section 2.1 of RFC 3986) |
| Router.ParseQuery | frontend/src/router.ts:108-120 | the loop computes the map of the query |
| Router.QueryIsRead | frontend/src/router.ts:108-120 | a written query reads back as its keys and values |
| Router.ParseVerifyEmail | frontend/src/router.ts:204-211 | both values come back trimmed, blank ones as absent |
| Router.ParseAcceptInvite | frontend/src/router.ts:212-219 | both values come back trimmed, blank ones as absent |
| Router.ParseTasks | frontend/src/router.ts:221-228 | both values come back trimmed, blank ones as absent |
| Router.ParseTaskGroups | frontend/src/router.ts:235-241 | the value comes back trimmed, a blank one as absent |
| Router.ParseTask | frontend/src/router.ts:230 | an id in a path comes back encoded: the same id exactly when it is not empty and encoding keeps all its characters |
| Router.ParseTaskGroup | frontend/src/router.ts:232-233 | the same for task groups |
| Router.ParseRepo | frontend/src/router.ts:245-249 | the same for repositories, with any listed tab |
| Router.ParseArchive | frontend/src/router.ts:252-255 | page and tab come back |
| Router.ParseSkills | frontend/src/router.ts:258-261 | page and tab come back |
| Router.ParseSettings | frontend/src/router.ts:264-267 | page and tab come back |
| RouterHashes.QueryTextIs | frontend/src/router.ts:204-241 | the query of up to two values: a blank one is left out with its key |
| RouterHashes.WithPartsIs | frontend/src/router.ts:112-118 | what any query says: exactly the keys that some part names, each with the value of the last such part |
| RouterHashes.QueryOfIs | frontend/src/router.ts:108-112 | its parts are what stands between the ampersands, behind a first question mark |
| RouterHashes.EncodeComponentIs | frontend/src/router.ts:100-106 | percent-encoding character by character: kept, or three characters for each byte |
| RouterHashes.UnknownTabs | frontend/src/router.ts:152-183 | a name that is none of a page's tabs is passed over |
| RouterHashes.PlainPages | frontend/src/router.ts:122-199 | the pages whose hash is a name alone |
| Cost.EstimateIsMonotone | backend/src/costGovernance/costRateCard.ts:87-100 | more tokens of either kind never cost less |
| Cost.SumAgainstCombined | backend/src/costGovernance/costRateCard.ts:87-100 | n estimates and the estimate of their combined tokens differ by at most 2 * (n / 2) upwards and 2 * round(0.499 n) downwards |
| Cost.BoundsAreMet | backend/src/costGovernance/costRateCard.ts:97-99 | both bounds are tight: each is met for every n |
| Cost.Summarize | backend/src/costGovernance/usageAggregation.service.ts:450-535 | the loop: the head of the summary is the sum over all samples, in tokens and dollars; each group of the five breakdowns the sum over exactly the samples with its repository, robot, user, provider or day, and every one that occurs has one group |
| Cost.GroupsConserve | backend/src/costGovernance/usageAggregation.service.ts:450-535 | each group holds the totals of the samples with its key, no key has two groups, all groups together hold the totals of the samples with a key |
| Cost.ProvidersAndDaysAddUp | backend/src/costGovernance/usageAggregation.service.ts:450-535 | the provider groups and the day groups each add up to the head of the summary, micro-dollars to dollars |

## Left out

- Text is a sequence of whole characters: surrogate pairs and lone surrogates are not modelled, nor is the per-chunk UTF-8 decoding in front of the line buffer.
- MigrationSafety.TrackedIsPrefix: the SQL recognisers, rewriters, destructive-statement patterns and schema probes are parameters, so what they recognise is not modelled.
- Migrations: a probe of the schema counts as one query; `ROLLBACK` and `pg_advisory_unlock` fail only with the connection; creating the tracking table and reading the migration directory are not modelled.
- MigrationRetry.EnsureSchema: which attempts lose their connection, and after how many writes, is given, and a transient error counts as that; the delays are not modelled, and no other process writes between two attempts (`MigrationSafety` has those runs).
- SqlCommentAware.CommentsHarmlessExactly: block comments do not nest, as in the runner's own stripping; a backslash before a quote means there what it means to the splitter.
- ApprovalSafety.RetryExactly: the verdicts of the two guards are given, and who may retry or stop a task is not modelled; a worker reports only the statuses its endpoint declares.
- Pagination: rows are their listed columns; joining task, repository and robot names to a page is not modelled.
- Approvals: ids are positions in the tables, so fresh; the queries that load one request or the latest of several tasks, and deletions that cascade, are not modelled. A rule's columns that are constants are left to its comment.
- Glob.ClauseMeansGlobs: only the `matchesAny` operator; for issue events the clause on a branch holds without looking at the value.
- Regex: patterns outside assertions, atoms and the greedy star are not understood; case folding is a parameter.
- StableKey.StringifyExactly: numbers are the texts that `JSON.stringify` gives them, so NaN, infinities and minus zero do not occur, nor do functions, symbols and objects with a `toJSON`.
- GetCacheRuns.CachedExactly: what the server answers is not modelled; a response stands for the request that brought it.
- LineLogger: without a sink the logger does nothing and is not modelled; the limit is a whole number, the sink does not call the logger, and waiting for a flush is not modelled.
- CacheRuns: TTLs are finite whole numbers, and keys are not `undefined`.
- Token.VerifyIssued: the keyed hash, the clock and the configured lifetime are parameters; numbers in a payload are read when they are plain digits, and times stay below 10^21 seconds; a payload that no encoder produces counts as an invalid payload.
- Cursor.CursorRoundTrip: writing and reading a time are parameters that undo one another; other cursors of the same file are alike.
- FilteredPage: the provider's list does not change during a walk; mapping of provider records and page-size limits are not modelled.
- ChangeTracker.PollIsFaithful: sinks do not reject, the digest is taken as injective, and collecting the changes from git is given; whether a file can change its kind and keep its digest is git's matter and not modelled.
- ApprovalRules.RuleCoversExactly: which of several matching rules decides, and the conditions that only hand-written rules have, are not modelled.
- Failover.RunAttempts: model runs, credentials and log texts are given as outcomes; the budget override of the primary provider is not modelled.
- Cost: token counts are whole numbers, and products and dollars are exact; the rate table, rounding of sums in floating point, labels, sorting and the limit of ten shown items are not modelled.
- Git and model processes, mail, HTTP plumbing, permissions, prompt assembly and all user interface code: they hold no algorithm of this kind.
