# Three-replica exam store: a Dafny model

This project models the server side of an online examination system that keeps the same
business rows (users, questions, papers with their paper_question child rows, and exam
results) in three databases: MySQL, Oracle and SQL Server. One of them is the current
master, chosen at run time. Business writes go to the master. A synchronisation engine
then makes the three replicas converge: for every id it picks the copy with the latest
update time and writes it wherever a copy is missing or differs.

The model covers:

- **The sync engine** (`SyncService`). This includes:
  - the winner resolver;
  - the four bidirectional passes, including a paper's children following the winning copy;
  - the native upserts and the child replacement;
  - the global deletes;
  - the conflict detector, the alert watchdog with its cooldown, and the alert mail;
  - the scheduled sweep with its log entry, and the immediate sync;
  - the single-paper copies used for manual repair.
- **`Paper.equals`**: business equality on name and total score.
- **The conflict controller.** It lists MySQL-to-standby conflicts with a counter that
  advances twice per row. It resolves a conflict by ignoring it or by forcing MySQL's row
  onto both standbys.
- **The business services**:
  - users: login, uniqueness in the master, register, add, update;
  - papers: random assembly by type, and the detail view;
  - exams: grading, submission, and the marked detail view.
- **The table-status report**: per-table counts and a SYNCED / DIFF verdict.

Each replica is a `Db` value: a map from id to row for each entity, plus a set of
`(paperId, questionId, score)` child rows. The service object `Engine.SyncService` is a
class that holds the three replicas, `lastAlertTime`, the sync log and an outbox of
alerts; its methods update them in place. The resolver, the conflict checks, the passes'
outcomes and the deletes are functions. Each method is proved against them, and the
lemmas about those functions state what the system promises:

- convergence after a fault-free pass;
- a second pass writes nothing;
- deletes are not undone;
- conflict ids increase;
- alerts are spaced by the cooldown;
- the children's scores add up to the paper's total;
- grading is bounded by the paper's maximum.

Writes that throw are a parameter: a map `faults` from a (table, replica, id) write to its
exception message.

- The user pass swallows a failing write and carries on.
- The question, paper and result passes stop at the first failing write they need, and
  the error propagates.
- The current master, the clock, fresh identity ids, repository listing order, the mail
  sender's presence, the serialised and decoded answer blob, and the question shuffle are
  parameters or arbitrary choices.

## Model

| member | source | states |
|---|---|---|
| Resolver.Pick | backend/src/main/java/com/exam/backend/service/SyncService.java:252-270 | the resolver loop's answer is a present candidate; PickIsWinner ties it to the reference definition |
| Resolver.PickIsWinner | backend/src/main/java/com/exam/backend/service/SyncService.java:252-270 | null exactly when every candidate is null; otherwise the picked candidate is the winner by the reference definition (latest non-null time, earliest replica on ties, a null time only when no other time beats it) |
| Resolver.WinnerIsUnique | backend/src/main/java/com/exam/backend/service/SyncService.java:252-270 | at most one candidate meets the winner definition |
| Resolver.PickCharacterized | backend/src/main/java/com/exam/backend/service/SyncService.java:252-270 | the loop picks k if and only if k meets the winner definition |
| Resolver.DetermineWinner | backend/src/main/java/com/exam/backend/service/SyncService.java:252-270 | null iff all three copies are null; otherwise the winning replica holds a copy and meets the winner definition |
| Resolver.WinnerIsLatest | backend/src/main/java/com/exam/backend/service/SyncService.java:263 | no present copy's time would replace the winner's: none is non-null and later, or non-null against a null winner time |
| Resolver.TieGoesToEarlierReplica | backend/src/main/java/com/exam/backend/service/SyncService.java:263 | a copy earlier than the winner in MySQL, Oracle, SQL Server order lost because the winner's time is non-null and strictly later, or its own is null |
| Resolver.LatestOfThreeWins | backend/src/main/java/com/exam/backend/service/SyncService.java:252-270 | with three distinct non-null times the latest copy wins wherever it sits |
| Resolver.LoneCopyWins | backend/src/main/java/com/exam/backend/service/SyncService.java:256-261 | a single copy wins; no copy gives null |
| Resolver.EqualCopiesGoToMySql | backend/src/main/java/com/exam/backend/service/SyncService.java:263 | equal copies go to MySQL, since isAfter is strict |
| Tables.Upsert | backend/src/main/java/com/exam/backend/service/SyncService.java:391-398 | the row with the id is replaced or inserted under that same id; every other row is unchanged |
| Tables.UpsertIdempotent | backend/src/main/java/com/exam/backend/service/SyncService.java:391-398 | applying the same upsert twice equals applying it once |
| Tables.UpsertOfStoredRow | backend/src/main/java/com/exam/backend/service/SyncService.java:294-296 | upserting the row already stored changes nothing |
| Tables.ChildrenOf | backend/src/main/java/com/exam/backend/service/SyncService.java:356-358 | exactly the paper_question rows whose paper is the given one |
| Tables.ReplaceChildren | backend/src/main/java/com/exam/backend/service/SyncService.java:418-423 | afterwards the paper's children are exactly the given rows re-parented to it, and rows of other papers are untouched |
| Tables.ReparentedOwnChildren | backend/src/main/java/com/exam/backend/service/SyncService.java:418-423 | children that already belong to the paper are re-inserted unchanged |
| Tables.ReplaceChildrenIdempotent | backend/src/main/java/com/exam/backend/service/SyncService.java:418-423 | replacing the same children twice equals replacing them once |
| Tables.DeletePaper | backend/src/main/java/com/exam/backend/service/SyncService.java:665-689 | the paper, its children and the results that name it are gone; every other row of every table is kept |
| Tables.DeletePaperIdempotent | backend/src/main/java/com/exam/backend/service/SyncService.java:665-689 | deleting a paper twice equals deleting it once |
| Tables.DeleteUser | backend/src/main/java/com/exam/backend/service/SyncService.java:690-713 | the user and their results are gone, other results are kept; with detaching, no paper names them as teacher and other papers are unchanged; without it, papers are unchanged |
| Tables.DeleteUserIdempotent | backend/src/main/java/com/exam/backend/service/SyncService.java:690-713 | deleting a user twice equals deleting them once |
| Tables.DeleteQuestion | backend/src/main/java/com/exam/backend/service/SyncService.java:714-736 | the question and exactly its paper_question rows are gone; the other tables are unchanged |
| Tables.DeleteQuestionIdempotent | backend/src/main/java/com/exam/backend/service/SyncService.java:714-736 | deleting a question twice equals deleting it once |
| Entities.PaperEqualsObject | backend/src/main/java/com/exam/backend/entity/Paper.java:36-43 | false for null and for another class; for a paper, true iff paperName and totalScore are equal |
| Entities.PaperEqualsReflexive | backend/src/main/java/com/exam/backend/entity/Paper.java:38 | a paper equals itself |
| Entities.PaperEqualsSymmetric | backend/src/main/java/com/exam/backend/entity/Paper.java:41-42 | equality is symmetric |
| Entities.PaperEqualsTransitive | backend/src/main/java/com/exam/backend/entity/Paper.java:41-42 | equality is transitive |
| Entities.PaperEqualsIgnoresBookkeeping | backend/src/main/java/com/exam/backend/entity/Paper.java:41-42 | id, teacher, createTime and updateTime never affect equality |
| Entities.NewPaper | backend/src/main/java/com/exam/backend/entity/Paper.java:31-34 | a fresh paper has both timestamps set to the current instant and no name, score or teacher |
| Entities.FillCreate | backend/src/main/java/com/exam/backend/service/ExamService.java:69 | createTime is filled in only when it is null, and is never null afterwards |
| Entities.FailingWrites | backend/src/main/java/com/exam/backend/service/SyncService.java:294-296 | a write is failing exactly when the fault map names it |
| Text.EqualsIgnoreCase | backend/src/main/java/com/exam/backend/service/ExamService.java:58 | equal lengths and equal characters after ASCII lower-casing |
| Text.EqualsIgnoreCaseNullable | backend/src/main/java/com/exam/backend/controller/ConflictController.java:85 | false for a null argument, otherwise case-insensitive equality |
| Text.EqualsIgnoreCaseReflexive | backend/src/main/java/com/exam/backend/controller/ConflictController.java:85 | every string equals itself ignoring case |
| Text.EqualsIgnoreCaseSymmetric | backend/src/main/java/com/exam/backend/controller/ConflictController.java:85 | ignoring-case equality is symmetric |
| Text.DecimalString | backend/src/main/java/com/exam/backend/controller/ConflictController.java:113 | String.valueOf(long): the decimal digits, with a minus sign for negatives |
| Text.ParseLong | backend/src/main/java/com/exam/backend/controller/ConflictController.java:83 | a value comes back iff the text is an optional '+' or '-' followed by at least one ASCII digit and its signed value lies in the long range; the value is that signed value |
| Text.ParseLongRejectsNonDigit | backend/src/main/java/com/exam/backend/controller/ConflictController.java:83 | a character that is not a digit, other than a leading sign, makes the parse fail |
| Text.ParseLongAcceptsPlus | backend/src/main/java/com/exam/backend/controller/ConflictController.java:83 | a leading '+' is accepted: "+n" parses to n |
| Text.ParseLongOfDecimalString | backend/src/main/java/com/exam/backend/controller/ConflictController.java:83 | parsing what String.valueOf printed gives back the same long |
| Text.Truncate | backend/src/main/java/com/exam/backend/service/SyncService.java:134 | the log message is at most 3900 characters, a prefix of the error, equal to it iff it fits, and exactly 3900 characters long when it does not |
| Listing.NumberIdsInRange | backend/src/main/java/com/exam/backend/controller/ConflictController.java:46 | every id a scan emits lies between the first id and first + 2 x rows |
| Listing.NumberIncreasing | backend/src/main/java/com/exam/backend/controller/ConflictController.java:53-56 | emitted ids are strictly increasing |
| Listing.NumberReports | backend/src/main/java/com/exam/backend/controller/ConflictController.java:53-56 | the conflict at id first + 2i + target offset is exactly what row i reports for that target |
| Listing.NumberSource | backend/src/main/java/com/exam/backend/controller/ConflictController.java:53-56 | every emitted conflict comes from one MySQL row at its own id pair |
| Conflicts.PaperDiffersIsNotEquals | backend/src/main/java/com/exam/backend/controller/ConflictController.java:132-133 | the paper mismatch test is exactly the negation of Paper.equals |
| Conflicts.CheckUser | backend/src/main/java/com/exam/backend/controller/ConflictController.java:110-124 | a finding iff the target row is missing or username or role differ; MISSING_IN_TARGET iff missing; names the source id and the target |
| Conflicts.CheckPaper | backend/src/main/java/com/exam/backend/controller/ConflictController.java:127-140 | a finding iff the target row is missing or the papers are not equal; MISSING_IN_TARGET iff missing; names the source id and the target |
| Conflicts.RenderedIdParses | backend/src/main/java/com/exam/backend/controller/ConflictController.java:83 | the sourceId text of a listed conflict parses back to its id |
| Conflicts.RenderedTableRecognised | backend/src/main/java/com/exam/backend/controller/ConflictController.java:85-95 | the listed table name matches sys_user or paper ignoring case iff the conflict is about that table |
| Conflicts.ScanUsers | backend/src/main/java/com/exam/backend/controller/ConflictController.java:53-56 | the user loop's list equals the numbered findings; the counter ends at 1 + 2 x users |
| Conflicts.ScanPapers | backend/src/main/java/com/exam/backend/controller/ConflictController.java:63-66 | the paper loop's list equals the numbered findings, continuing the counter |
| Conflicts.Detect | backend/src/main/java/com/exam/backend/controller/ConflictController.java:44-69 | the scan produces the whole conflict list |
| Conflicts.ConflictIdsIncreasing | backend/src/main/java/com/exam/backend/controller/ConflictController.java:46 | conflict ids are strictly increasing, gaps allowed |
| Conflicts.UserReported | backend/src/main/java/com/exam/backend/controller/ConflictController.java:54-55 | user i's report for a target sits at id 1 + 2i + offset and is exactly CheckUser's answer |
| Conflicts.PaperReported | backend/src/main/java/com/exam/backend/controller/ConflictController.java:64-65 | paper i's report sits after the user ids and is exactly CheckPaper's answer |
| Conflicts.OnlyMySqlRowsReported | backend/src/main/java/com/exam/backend/controller/ConflictController.java:53-63 | every conflict names a MySQL row: the scan never looks from a standby back to MySQL |
| Watchdog.ComposeAlert | backend/src/main/java/com/exam/backend/service/SyncService.java:202-228 | the mail counts every conflict, lists the first ten with their numbers, and adds the more line iff there are more than ten |
| Watchdog.AlertAccountsForEvery | backend/src/main/java/com/exam/backend/service/SyncService.java:213-218 | every conflict is either listed or covered by the more line |
| Watchdog.AlertsAreSpaced | backend/src/main/java/com/exam/backend/service/SyncService.java:80-93 | successive alerts are more than ALERT_INTERVAL apart, whatever the ticks |
| Watchdog.LastAlertIsLastSent | backend/src/main/java/com/exam/backend/service/SyncService.java:84-89 | lastAlertTime ends at the last alert sent, or stays put when none is sent |
| Watchdog.QuietRunSendsNothing | backend/src/main/java/com/exam/backend/service/SyncService.java:80 | a run with no conflicts sends nothing and keeps lastAlertTime |
| Reconcile.Winners | backend/src/main/java/com/exam/backend/service/SyncService.java:282-293 | every id in the union of the three tables has its resolver winner, and no other id has one |
| Reconcile.Needed | backend/src/main/java/com/exam/backend/service/SyncService.java:294-296 | a write is needed at a replica iff its copy is missing or differs from the winner |
| Reconcile.Pass | backend/src/main/java/com/exam/backend/service/SyncService.java:290-297 | a pass writes only needed, non-failing writes; swallowing passes make all the others; stopping passes finish iff no needed write fails, else stop on one |
| Reconcile.ResolveId | backend/src/main/java/com/exam/backend/service/SyncService.java:291-296 | one id's writes: exactly its needed, non-failing writes, or a stop on a failing one |
| Reconcile.WinnerReplicaNotNeeded | backend/src/main/java/com/exam/backend/service/SyncService.java:294-296 | the replica that holds the winner is never written |
| Reconcile.CompletePassConverges | backend/src/main/java/com/exam/backend/service/SyncService.java:290-297 | with full equality, a pass that makes every needed write leaves each replica holding exactly the winners |
| Reconcile.CompletedAgreesWithWinner | backend/src/main/java/com/exam/backend/service/SyncService.java:290-297 | after a complete pass every replica holds a copy equal to the winner |
| Reconcile.AfterKeepsAbsent | backend/src/main/java/com/exam/backend/service/SyncService.java:282-293 | an id in no replica is not created by any writes |
| Reconcile.SecondPassWritesNothing | backend/src/main/java/com/exam/backend/service/SyncService.java:290-297 | when the comparison is an equivalence, a second pass needs no write |
| Sweeps.UsersConverge | backend/src/main/java/com/exam/backend/service/SyncService.java:278-298 | after a fault-free user pass every replica holds exactly the winner of every user id |
| Sweeps.QuestionsConverge | backend/src/main/java/com/exam/backend/service/SyncService.java:309-329 | after a fault-free question pass every replica holds exactly the winner of every question id |
| Sweeps.ResultsConverge | backend/src/main/java/com/exam/backend/service/SyncService.java:364-384 | when the replicas agree on the users and papers that results refer to, after a fault-free result pass every replica holds every result id, and its copy, loaded with that replica's own student and paper, equals the winner as ExamResult.equals compares: scalar fields, the student by all fields, the paper by Paper.equals; the stored foreign-key ids need not match |
| Sweeps.LoadAgrees | backend/src/main/java/com/exam/backend/entity/ExamResult.java:8-24 | two replicas that agree on users and papers load any result row to equal ExamResult values |
| Sweeps.ResultSameIsEquivalence | backend/src/main/java/com/exam/backend/entity/ExamResult.java:8 | the generated ExamResult.equals, over loaded rows, is reflexive, symmetric and transitive |
| Sweeps.ResultsEverywhere | backend/src/main/java/com/exam/backend/service/SyncService.java:364-384 | after a fault-free result pass each replica holds exactly the result ids of the union |
| Sweeps.SweptContextAgrees | backend/src/main/java/com/exam/backend/service/SyncService.java:117-121 | after fault-free user, question and paper passes the replicas agree on users and on papers by Paper.equals, which is what the result pass needs to settle |
| Sweeps.PapersAgreeWithWinner | backend/src/main/java/com/exam/backend/service/SyncService.java:333-354 | after a fault-free paper pass every replica holds every paper id, equal to the winner by Paper.equals |
| Sweeps.PaperChildrenFollowWinner | backend/src/main/java/com/exam/backend/service/SyncService.java:349-352 | a replica whose paper is written gets exactly the winner replica's children; otherwise it keeps its own |
| Sweeps.WinnerChildrenStayPut | backend/src/main/java/com/exam/backend/service/SyncService.java:355-359 | the winner replica's children are never replaced |
| Sweeps.PaperSameIsEquivalence | backend/src/main/java/com/exam/backend/entity/Paper.java:41-42 | Paper.equals is reflexive, symmetric and transitive over papers |
| Sweeps.UsersSyncedSettles | backend/src/main/java/com/exam/backend/service/SyncService.java:278-298 | a fault-free user pass leaves nothing for a second pass |
| Sweeps.QuestionsSyncedSettles | backend/src/main/java/com/exam/backend/service/SyncService.java:309-329 | a fault-free question pass leaves nothing for a second pass |
| Sweeps.ResultsSyncedSettles | backend/src/main/java/com/exam/backend/service/SyncService.java:364-384 | when the replicas agree on the users and papers results refer to, a fault-free result pass leaves nothing for a second pass under ExamResult.equals |
| Sweeps.PapersSyncedSettles | backend/src/main/java/com/exam/backend/service/SyncService.java:333-354 | a fault-free paper pass leaves nothing for a second pass |
| Sweeps.SettledUsersUntouched | backend/src/main/java/com/exam/backend/service/SyncService.java:294-296 | a pass over a settled user table changes nothing |
| Sweeps.SettledPapersUntouched | backend/src/main/java/com/exam/backend/service/SyncService.java:350-352 | a pass over a settled paper table changes nothing, children included |
| Sweeps.PassesKeepOtherTables | backend/src/main/java/com/exam/backend/service/SyncService.java:309-384 | each pass only touches its own table (the paper pass also the children) |
| Sweeps.SweepIsIdempotent | backend/src/main/java/com/exam/backend/service/SyncService.java:117-121 | a sweep after a fault-free sweep changes nothing; the result pass compares as ExamResult.equals does, and the earlier passes make the replicas agree on the rows it loads |
| Sweeps.UserPassNeverResurrects | backend/src/main/java/com/exam/backend/service/SyncService.java:282-293 | a user no replica holds stays absent after the user pass |
| Sweeps.PaperPassNeverResurrects | backend/src/main/java/com/exam/backend/service/SyncService.java:337-353 | a paper no replica holds stays absent after the paper pass, and each replica keeps whatever paper_question rows it had under that id |
| Engine.Finished | backend/src/main/java/com/exam/backend/service/SyncService.java:123-135 | SUCCESS with the fixed message on success; on failure FAILED with a prefix of the error text that is the whole text when it fits in 3900 characters and exactly its first 3900 characters otherwise |
| Engine.PaperCopiedMatchesMySql | backend/src/main/java/com/exam/backend/service/SyncService.java:645-661 | the target then holds MySQL's paper and exactly its MySQL children |
| Engine.SyncService.SyncUsers | backend/src/main/java/com/exam/backend/service/SyncService.java:278-298 | the replicas become the user pass's result with failing writes skipped |
| Engine.SyncService.SyncQuestions | backend/src/main/java/com/exam/backend/service/SyncService.java:309-329 | completes iff no needed write fails; then the replicas are the pass's result; else it stops on a failing needed write with only non-failing needed writes made |
| Engine.SyncService.SyncPapers | backend/src/main/java/com/exam/backend/service/SyncService.java:333-354 | as SyncQuestions, for papers with their children |
| Engine.SyncService.SyncResults | backend/src/main/java/com/exam/backend/service/SyncService.java:364-384 | as SyncQuestions, for exam results, where a write is needed iff the copy is missing or, loaded with its replica's student and paper, is not equal to the winner by ExamResult.equals |
| Engine.SyncService.ReplacePaperChildren | backend/src/main/java/com/exam/backend/service/SyncService.java:418-423 | the replica's children of the paper become the given rows |
| Engine.SyncService.UpsertUser | backend/src/main/java/com/exam/backend/service/SyncService.java:391-398 | fails iff the write faults, changing nothing; otherwise upserts the row into that replica only |
| Engine.SyncService.UpsertPaper | backend/src/main/java/com/exam/backend/service/SyncService.java:409-416 | fails iff the write faults, changing nothing; otherwise upserts the paper into that replica only |
| Engine.SyncService.SyncSinglePaperTo | backend/src/main/java/com/exam/backend/service/SyncService.java:645-661 | a paper missing from MySQL is a no-op; otherwise the target gets MySQL's paper and its children, unless the write faults |
| Engine.SyncService.DeletePaperGlobally | backend/src/main/java/com/exam/backend/service/SyncService.java:665-689 | every replica loses the paper, its children and its results |
| Engine.SyncService.DeleteUserGlobally | backend/src/main/java/com/exam/backend/service/SyncService.java:690-713 | every replica loses the user and their results; only Oracle and SQL Server detach them as teacher |
| Engine.SyncService.DeleteQuestionGlobally | backend/src/main/java/com/exam/backend/service/SyncService.java:714-736 | every replica loses the question and its paper_question rows |
| Engine.SyncService.DetectConflicts | backend/src/main/java/com/exam/backend/service/SyncService.java:142-197 | the list is the conflict scan of MySQL in listing order against both standbys |
| Engine.SyncService.SendConflictNotification | backend/src/main/java/com/exam/backend/service/SyncService.java:202-228 | with a mail sender, the outbox gains the alert for the list; without one, nothing |
| Engine.SyncService.MonitorConflicts | backend/src/main/java/com/exam/backend/service/SyncService.java:75-100 | when conflicts exist and the cooldown has strictly passed, an alert is sent and lastAlertTime becomes now; otherwise both stay |
| Engine.SyncService.RunPasses | backend/src/main/java/com/exam/backend/service/SyncService.java:118-121 | users, questions, papers, results in order, the result pass comparing as ExamResult.equals does; it fails iff one of the question, paper and result passes meets a failing needed write; the first such pass stops on one with the earlier passes complete and some of its own non-failing needed writes made; otherwise the replicas are the full sweep; no faults means no failure |
| Engine.SyncService.ScheduledSync | backend/src/main/java/com/exam/backend/service/SyncService.java:107-137 | RunPasses' outcome, plus one log entry that reads FAILED iff a pass meets a failing needed write, SUCCESS otherwise |
| Engine.SyncService.ExecuteImmediateSync | backend/src/main/java/com/exam/backend/service/SyncService.java:233-243 | RunPasses' outcome, failure condition and stopped state included, with the failure swallowed and no log |
| Engine.ImmediateSyncTwice | backend/src/main/java/com/exam/backend/service/SyncService.java:233-247 | two fault-free sweeps leave the replicas as one does, with exam results compared as ExamResult.equals does |
| ConflictControl.Failed | backend/src/main/java/com/exam/backend/controller/ConflictController.java:103-106 | code 500 with the failure prefix and the message |
| ConflictControl.GetConflictList | backend/src/main/java/com/exam/backend/controller/ConflictController.java:44-69 | code 200 with the rendered scan of MySQL against both standbys |
| ConflictControl.ForceUser | backend/src/main/java/com/exam/backend/controller/ConflictController.java:87-93 | a user missing from MySQL gives 400 and no write; otherwise Oracle then SQL Server get MySQL's row, stopping at the first faulting write with 500 and its message, with the earlier write kept; 200 when both succeed |
| ConflictControl.ForcePaper | backend/src/main/java/com/exam/backend/controller/ConflictController.java:98-99 | a paper missing from MySQL writes nothing and gives 200; otherwise Oracle then SQL Server get MySQL's paper and exactly its children, stopping at the first faulting write with 500 and its message; 200 when both succeed |
| ConflictControl.ResolveConflict | backend/src/main/java/com/exam/backend/controller/ConflictController.java:73-107 | ignore gives 200 and no write; a bad id gives 500; unknown tables give 200 and no write; for sys_user the reply and the replicas are exactly ForceUser's, for paper exactly ForcePaper's; codes are 200, 400 or 500; 400 only for a user missing from MySQL, with nothing changed |
| ConflictControl.ForcedUserIsClean | backend/src/main/java/com/exam/backend/controller/ConflictController.java:87-90 | after forcing a user, the scan reports nothing for it on either standby |
| ConflictControl.ForcedPaperIsClean | backend/src/main/java/com/exam/backend/controller/ConflictController.java:98-99 | after forcing a paper, the scan reports nothing for it and both standbys hold MySQL's children |
| ConflictControl.ListedConflictRoutes | backend/src/main/java/com/exam/backend/controller/ConflictController.java:83-99 | every listed conflict's id parses and its table name routes to the matching branch |
| SyncStats.BuildRow | backend/src/main/java/com/exam/backend/controller/SyncStatsController.java:86-98 | name and counts copied; SYNCED iff all three counts are equal, DIFF otherwise |
| SyncStats.TableStatus | backend/src/main/java/com/exam/backend/controller/SyncStatsController.java:49-59 | five rows in user, question, paper, paper_question, exam_result order, each with that table's counts and the SYNCED iff |
| SyncStats.SweptTablesReadSynced | backend/src/main/java/com/exam/backend/controller/SyncStatsController.java:52-56 | after a fault-free sweep the user, question, paper and exam-result rows read SYNCED (the paper_question row may not: a replica whose paper already equals the winner by Paper.equals keeps its own children, and orphan child rows stay) |
| Routing.MasterReplica | backend/src/main/java/com/exam/backend/service/UserService.java:105-116 | Oracle and SQLServer select those replicas, any other master selects MySQL |
| UserService.Named | backend/src/main/java/com/exam/backend/service/UserService.java:29 | the rows findByUsername matches |
| UserService.Login | backend/src/main/java/com/exam/backend/service/UserService.java:28-37 | a user iff exactly one MySQL row has the username, with a non-null password equal to the one given; several rows or a null stored password raise |
| UserService.LoginFindsStoredUser | backend/src/main/java/com/exam/backend/service/UserService.java:28-37 | a stored user with a unique username logs in with its password and no other |
| UserService.CheckUsernameUnique | backend/src/main/java/com/exam/backend/service/UserService.java:101-121 | an error iff the master already holds the username, with the source's message |
| UserService.Registered | backend/src/main/java/com/exam/backend/service/UserService.java:45-46 | the fresh id, createTime filled only when null, updateTime now, every other field kept |
| UserService.AddedPassword | backend/src/main/java/com/exam/backend/service/UserService.java:61-63 | a null or empty password becomes 123456, any other is kept; never empty |
| UserService.Updated | backend/src/main/java/com/exam/backend/service/UserService.java:79-84 | realName and role from the request, password only when non-empty, updateTime now; id, username, createTime kept |
| UserService.UpdateIsIdempotent | backend/src/main/java/com/exam/backend/service/UserService.java:79-84 | the same update twice equals it once |
| UserService.SaveUserInternal | backend/src/main/java/com/exam/backend/service/UserService.java:126-147 | the row goes into the master only, then the user pass runs |
| UserService.Register | backend/src/main/java/com/exam/backend/service/UserService.java:40-49 | a taken username gives the error and no write; otherwise the registered row is saved and synced |
| UserService.AddUser | backend/src/main/java/com/exam/backend/service/UserService.java:57-68 | as Register, with the default password rule |
| UserService.UpdateUser | backend/src/main/java/com/exam/backend/service/UserService.java:71-87 | an id missing from MySQL gives the error and no write; otherwise the updated row is saved and synced |
| UserService.RegisteredRowInMaster | backend/src/main/java/com/exam/backend/service/UserService.java:40-49 | registration adds exactly the new row to the master's users |
| PaperService.GetPaperDetail | backend/src/main/java/com/exam/backend/service/PaperService.java:47-65 | missing paper gives the error; otherwise the paper and one item per paper_question row with its question and score |
| PaperService.DetailListsEveryChild | backend/src/main/java/com/exam/backend/service/PaperService.java:51-59 | every child row of the paper appears in the detail with its question and score |
| PaperService.OfType | backend/src/main/java/com/exam/backend/service/PaperService.java:165-175 | exactly the bank's questions of the given type |
| PaperService.RandomQuestions | backend/src/main/java/com/exam/backend/service/PaperService.java:162-183 | min(count, available) distinct questions, all of the type |
| PaperService.DrawType | backend/src/main/java/com/exam/backend/service/PaperService.java:81-94 | a type is drawn only when its count is non-null and positive, then as RandomQuestions |
| PaperService.DrawAll | backend/src/main/java/com/exam/backend/service/PaperService.java:80-94 | the five types drawn in fixed order, each as requested; the combined draw names no question twice and only questions of the bank |
| PaperService.FlattenDistinct | backend/src/main/java/com/exam/backend/service/PaperService.java:80-94 | segments of pairwise different types concatenate without repeats |
| PaperService.DrawIsDistinct | backend/src/main/java/com/exam/backend/service/PaperService.java:80-94 | the whole draw has no repeated question, its size is the sum of the per-type takes, and every drawn id is in the bank |
| PaperService.Assembled | backend/src/main/java/com/exam/backend/service/PaperService.java:100-109 | totalScore is 10 x questions drawn, teacher and name from the request, both timestamps now |
| PaperService.ChildRows | backend/src/main/java/com/exam/backend/service/PaperService.java:115-121 | one row per drawn question, all under the paper with score 10 |
| PaperService.ChildRowsCount | backend/src/main/java/com/exam/backend/service/PaperService.java:115-121 | without repeats there are as many rows as drawn questions |
| PaperService.ChildScoresMakeTotal | backend/src/main/java/com/exam/backend/service/PaperService.java:100-119 | the children's scores sum to the paper's totalScore |
| PaperService.SaveChildren | backend/src/main/java/com/exam/backend/service/PaperService.java:140-146 | the master gains exactly the child rows; nothing else changes |
| PaperService.CreatePaper | backend/src/main/java/com/exam/backend/service/PaperService.java:70-150 | missing teacher or empty draw gives its error and no write; otherwise paper and children go into the master and the paper pass follows; its failure propagates, naming a failing needed write, and the replicas then hold the paper pass's result for some set of non-failing needed writes |
| ExamService.PaperOf | backend/src/main/java/com/exam/backend/service/ExamService.java:39-42 | MySQL's paper, or the missing-paper error |
| ExamService.Grade | backend/src/main/java/com/exam/backend/service/ExamService.java:52-62 | the loop's total is the score: the sum of scores of correctly answered questions |
| ExamService.ScoreBounds | backend/src/main/java/com/exam/backend/service/ExamService.java:55-62 | with non-negative question scores, 0 <= score <= the paper's maximum |
| ExamService.NoAnswersScoresZero | backend/src/main/java/com/exam/backend/service/ExamService.java:57-58 | an empty answer sheet scores 0 |
| ExamService.AllCorrectScoresFull | backend/src/main/java/com/exam/backend/service/ExamService.java:57-61 | answering every question right scores the paper's maximum |
| ExamService.ScoreIgnoresOtherAnswers | backend/src/main/java/com/exam/backend/service/ExamService.java:57 | answers to questions not on the paper do not change the score |
| ExamService.Submitted | backend/src/main/java/com/exam/backend/service/ExamService.java:65-79 | student, paper, score, both timestamps now, the serialised answers |
| ExamService.SubmitExam | backend/src/main/java/com/exam/backend/service/ExamService.java:45-104 | missing paper, then missing student, raise with no write; otherwise the result goes into the master only; Oracle and SQL Server run the result pass, MySQL does not; a failing pass propagates, naming a failing needed write, with the replicas holding the pass's result for some set of non-failing needed writes |
| ExamService.MarkAll | backend/src/main/java/com/exam/backend/service/ExamService.java:133-142 | each item marked in place, in order |
| ExamService.ExamResultDetail | backend/src/main/java/com/exam/backend/service/ExamService.java:116-149 | a missing result gives the error, a null paper a NullDereference; otherwise the paper detail with each item marked |
| ExamService.MarkingAgreesWithGrading | backend/src/main/java/com/exam/backend/service/ExamService.java:133-141 | an item is marked correct iff grading counts it, or it is unanswered and its stored answer is empty |
| ExamService.DetailScoreMatchesGrade | backend/src/main/java/com/exam/backend/service/ExamService.java:55-62 | with no empty stored answers, the items marked correct add up to the graded score |

## Left out

- Transactions and rollback: each replica write is one atomic map update. A pass that stops on a failing write keeps the writes it made before.
- Exceptions from writes of paper_question rows and from the delete statements are not modelled. Only the row upserts of the four passes and of the manual repair can fail.
- paper_question rows are a set of (paper, question, score) values. Duplicate rows and row identities are not modelled.
- A failure while reading a table (`findAll`) is not modelled. Every read returns the replica's rows.
- `MysqlExamResultRepository.deleteByStudentId` is not part of the shipped repository. `Engine.SyncService.DeleteUserGlobally` gives it its evident meaning: delete that student's results.
- The shipped entities lack fields that the services and the sync engine read and write. `ExamResult` has no `createTime`, `updateTime` or `studentAnswers`. `User` has `createTime` but no `updateTime`, and `Question` has no timestamp at all. The model gives these rows those fields; the `updateTime` of users and questions is what orders their winners.
- The current master is a string parameter. "Oracle" and "SQLServer" select those replicas, and any other value selects MySQL, as the switch's default does. A null master, which would throw, is not modelled.
- `LocalDateTime.now()` and `System.currentTimeMillis()` are parameters. One call that reads the clock twice is given one instant for both reads.
- Identity ids for new rows are a parameter. `UserService.Register`, `UserService.AddUser` and `ExamService.SubmitExam` require it to be absent from the master's table, as an identity column guarantees, so `Register` and `AddUser` ignore an id carried by the request. `PaperService.CreatePaper` does not require it: a paper id already in the master is overwritten, as the model's upsert does.
- The mail transport is left out: the outbox records the composed alert. A missing mail sender sends nothing, and a send that throws is `Mailer(delivers := false)`: the alert is composed, the exception swallowed, and nothing reaches the outbox.
- Repository listing order (`findAll`) is a parameter that lists the keys of the table.
- `Collections.shuffle` is modelled as an arbitrary choice of distinct questions of the type. The distribution of the draw is not modelled.
- Jackson (de)serialisation of the answers is left out. The stored text on submit and the decoded map in the detail view are parameters. The decoded map is empty when the stored text is null or empty.
- `ExamService.ExamResultDetail`: the fallback lookup by the id's decimal string is made on a map keyed by numbers, so it never finds an entry. The model shows "" for every unanswered question.
- A null value in the submitted answers map behaves like a missing key in both the grading and the detail view, so the model's answers map simply omits it. A null answers map, which would throw, is not modelled.
- `UserService.Login`: several rows with one username are reported as a distinct outcome (the repository throws). The database's unique constraint on usernames normally rules this out.
- UserService.CheckUsernameUnique: several master rows with the username give the "already exists" error, where `findByUsername(...).isPresent()` throws IncorrectResultSizeDataAccessException. `UserService.Register` and `UserService.AddUser` inherit this. The database's unique constraint on usernames normally rules the case out.
- `scheduledSync` does not run the conflict detector. The sweep's passes are the whole job, as in the code.
- `syncData` is an alias of `executeImmediateSync` and has no separate member.
- The dashboard endpoint (`getDashboardData`) is left out: its statistics are database aggregations. It filters recent errors on status "FAIL", while the sweep writes "FAILED" (`Engine.Finished`), so that list is always empty.
- Console logging and the `@Lazy` self-proxy are left out, and so are cron triggers, which become explicit method calls.
- Null ids in requests are not modelled. Ids are integers, and a conflict's sourceId text is parsed in the long range.
- EqualsIgnoreCase: folds only ASCII A-Z. Java's `equalsIgnoreCase` also folds other letters through `Character.toUpperCase`/`toLowerCase`, so "É" and "é" are equal there and unequal here.
- EqualsIgnoreCaseNullable: the same ASCII-only fold, so a table name such as "ſys_user" (long s, which Java upper-cases to 'S') is not recognised as sys_user.
- ExamService.Grade: the answer check uses the ASCII-only fold, so an answer differing from the key only in the case of a non-ASCII letter scores 0 where Java would award the question.
- ExamService.MarkAll: marking uses the same ASCII-only fold, with the same difference on non-ASCII letters.
- ConflictControl.ResolveConflict: the table names are compared with the ASCII-only fold, with the same difference on non-ASCII letters. The action is compared exactly with "ignore", as in the code.
- ParseLong: only ASCII digits are accepted. `Long.parseLong` also accepts other Unicode decimal digits through `Character.digit`, such as the Arabic-Indic "١٢".
- Truncate: counts characters as code points. Java's `substring(0, 3900)` counts UTF-16 units, so a message with characters outside the Basic Multilingual Plane is cut at a different place.
- Sweeps.ResultsConverge: exam results are loaded per replica, with the student and paper that replica holds for the row's foreign keys. A dangling foreign key loads as null, where Hibernate would fail the read. The winning row is written with its foreign-key ids as they are.
- Sweeps.ResultsSyncedSettles: requires the replicas to agree on users and on papers by Paper.equals. Without that, the result pass writes the same rows again on every run, as the code does; the sweep establishes it before the result pass runs.
- UserService.UpdateUser: when the master is Oracle or SQL Server and lacks the id that MySQL holds (after a user pass whose write there failed), the model writes the updated row under that id. Hibernate's merge of a detached entity with an identity id inserts it under a fresh id (before 6.6) or throws an OptimisticLockException (6.6 on). The Hibernate version is not part of this model, so neither outcome is modelled.
- UserService.SaveUserInternal: saves under the id it is given, as an upsert. The merge behaviour for an id the master lacks, described for UpdateUser, is not modelled. Register and AddUser always pass a fresh id, so they are not affected.
- PaperService.GetPaperDetail, ExamService.SubmitExam and the grading members (`ListsChildren`, `Linked`): every paper_question row's question must exist. The schema's foreign key guarantees this, and a dangling reference, which would make Hibernate fail the read, is not modelled.
