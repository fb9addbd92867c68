/**
  SyncService as an object: the three replicas it reads and writes, the watchdog's
  lastAlertTime, the sys_sync_log rows it writes and the alert mails it hands to the mail
  sender. Its methods are the two scheduled jobs, the four reconciliation passes, the
  manual-fix writes the conflict controller calls, and the global deletes.

  A write that throws is named by the `faults` parameter (see Entities.Faults); the clock
  is a parameter of the methods that read it.
*/
module Engine {
  import opened Wrappers
  import opened Entities
  import opened Text
  import Tables
  import opened Listing
  import opened Conflicts
  import opened Watchdog
  import opened Reconcile
  import opened Sweeps

  /** A write that threw: which write, and the exception's message (a null message is None). */
  datatype Failure = Failure(fault: Fault, message: Option<string>)

  /** The failure raised by a write that the fault map says throws. */
  function FailureAt(faults: Faults, table: Table, p: (Replica, int)): (f: Failure)
    requires Fault(table, p.0, p.1) in faults
    ensures f.fault in faults && f.message == faults[f.fault]
    ensures f.fault == Fault(table, p.0, p.1)
  {
    var k := Fault(table, p.0, p.1);
    Failure(k, faults[k])
  }

  /** A pass stopped on one of the writes it needed, and that write throws. */
  predicate StoppedOn(failure: Failure, faults: Faults, table: Table, needed: set<(Replica, int)>)
  {
    failure.fault.table == table && failure.fault in faults && failure.message == faults[failure.fault]
    && (failure.fault.replica, failure.fault.id) in needed
  }

  /** No pass of a sweep from `c` meets a failing needed write: the users pass swallows its failures, the other three would stop. */
  predicate SweepCompletes(c: Cluster, faults: Faults)
  {
    var u := UsersSynced(c, faults);
    var q := QuestionsSynced(u, faults);
    var p := PapersSynced(q, faults);
    QuestionsNeeded(u) !! FailingWrites(faults, QuestionTable)
    && PapersNeeded(q) !! FailingWrites(faults, PaperTable)
    && ResultsNeeded(p) !! FailingWrites(faults, ResultTable)
  }

  /**
    How a sweep from `c` ends: the first of the question, paper and result passes that meets
    a failing needed write stops on one, with some of that pass's other needed writes made
    and the earlier passes complete; with none, the sweep completes.
  */
  predicate SweepEnded(c: Cluster, faults: Faults, failure: Option<Failure>, c': Cluster)
  {
    var u := UsersSynced(c, faults);
    var q := QuestionsSynced(u, faults);
    var p := PapersSynced(q, faults);
    if !(QuestionsNeeded(u) !! FailingWrites(faults, QuestionTable)) then
      failure.Some? && StoppedOn(failure.value, faults, QuestionTable, QuestionsNeeded(u))
      && exists w :: w <= QuestionsNeeded(u) && w !! FailingWrites(faults, QuestionTable) && c' == QuestionsAfter(u, w)
    else if !(PapersNeeded(q) !! FailingWrites(faults, PaperTable)) then
      failure.Some? && StoppedOn(failure.value, faults, PaperTable, PapersNeeded(q))
      && exists w :: w <= PapersNeeded(q) && w !! FailingWrites(faults, PaperTable) && c' == PapersAfter(q, w)
    else if !(ResultsNeeded(p) !! FailingWrites(faults, ResultTable)) then
      failure.Some? && StoppedOn(failure.value, faults, ResultTable, ResultsNeeded(p))
      && exists w :: w <= ResultsNeeded(p) && w !! FailingWrites(faults, ResultTable) && c' == ResultsAfter(p, w)
    else
      failure.None? && c' == Sweep(c, faults)
  }

  lemma InhabitedPairs(s: set<(Replica, int)>)
    ensures s != {} ==> exists p :: p in s
  {
    if forall p :: p !in s {
      assert s == {};
    }
  }

  lemma InhabitedKids(s: set<PaperQuestion>)
    ensures s != {} ==> exists k :: k in s
  {
    if forall k :: k !in s {
      assert s == {};
    }
  }

  // ---------------------------------------------------------------
  // sys_sync_log rows
  // ---------------------------------------------------------------

  /** A sys_sync_log row: start, end (null while running), status and message. */
  datatype SyncLog = SyncLog(startTime: int, endTime: Option<int>, status: string, message: string)

  /** The longest message the scheduled job stores. */
  const MessageCap: nat := 3900

  /** The row scheduledSync saves before the sweep. */
  function Started(start: int): SyncLog
  {
    SyncLog(start, None, "RUNNING", "全量自动修复开始...")
  }

  /** `e.getMessage() != null ? e.getMessage() : "Unknown Error"`. */
  function ErrorText(f: Failure): string
  {
    if f.message.Some? then f.message.value else "Unknown Error"
  }

  /** The row scheduledSync saves once the sweep has ended, well or not. */
  function Finished(start: int, end: int, failure: Option<Failure>): (l: SyncLog)
    ensures l.startTime == start && l.endTime == Some(end)
    ensures l.status == (if failure.None? then "SUCCESS" else "FAILED")
    ensures failure.None? ==> l.message == "自动修复完成"
    ensures failure.Some? ==> |l.message| <= MessageCap && l.message <= ErrorText(failure.value)
    ensures failure.Some? ==> (l.message == ErrorText(failure.value) <==> |ErrorText(failure.value)| <= MessageCap)
    ensures failure.Some? && |ErrorText(failure.value)| > MessageCap ==> |l.message| == MessageCap
  {
    match failure
    case None => SyncLog(start, Some(end), "SUCCESS", "自动修复完成")
    case Some(f) => SyncLog(start, Some(end), "FAILED", Truncate(ErrorText(f), MessageCap))
  }

  /** The mail sender: not configured, or configured, with `delivers` false when sending throws. */
  datatype Mailer = NoMailer | Mailer(delivers: bool)

  // ---------------------------------------------------------------
  // findAll listings
  // ---------------------------------------------------------------

  /** `order` lists every key of the table exactly once: the order findAll returns the rows in. */
  predicate Lists<T>(order: seq<int>, m: map<int, T>)
  {
    (forall i :: 0 <= i < |order| ==> order[i] in m)
    && (forall k :: k in m ==> k in order)
    && (forall i, j :: 0 <= i < j < |order| ==> order[i] != order[j])
  }

  /** The rows of a table in a listing order. */
  function Listed<T>(m: map<int, T>, order: seq<int>): (rows: seq<T>)
    requires forall i :: 0 <= i < |order| ==> order[i] in m
    ensures |rows| == |order|
    ensures forall i :: 0 <= i < |order| ==> rows[i] == m[order[i]]
  {
    seq(|order|, i requires 0 <= i < |order| => m[order[i]])
  }

  // ---------------------------------------------------------------
  // The manual-fix copy of one paper
  // ---------------------------------------------------------------

  /** A standby after syncSinglePaperTo*: MySQL's paper row upserted, then its children replaced by MySQL's. */
  function PaperCopied(c: Cluster, r: Replica, paperId: int): Db
    requires paperId in c.mysql.papers
  {
    var t := c.At(r);
    t.(papers := Tables.Upsert(t.papers, paperId, c.mysql.papers[paperId]),
       paperQuestions := Tables.ReplaceChildren(t.paperQuestions, paperId, Tables.ChildrenOf(c.mysql.paperQuestions, paperId)))
  }

  /**
    After the copy the standby holds MySQL's paper row and exactly MySQL's children of
    that paper; its other papers, other children and other tables are as they were.
  */
  lemma PaperCopiedMatchesMySql(c: Cluster, r: Replica, paperId: int)
    requires paperId in c.mysql.papers
    ensures var db := PaperCopied(c, r, paperId);
      paperId in db.papers && db.papers[paperId] == c.mysql.papers[paperId]
      && Tables.ChildrenOf(db.paperQuestions, paperId) == Tables.ChildrenOf(c.mysql.paperQuestions, paperId)
      && (forall k :: k in c.At(r).papers && k != paperId ==> k in db.papers && db.papers[k] == c.At(r).papers[k])
      && (forall x: PaperQuestion :: x.paperId != paperId ==> (x in db.paperQuestions <==> x in c.At(r).paperQuestions))
      && db.users == c.At(r).users && db.questions == c.At(r).questions && db.results == c.At(r).results
  {
    Tables.ReparentedOwnChildren(Tables.ChildrenOf(c.mysql.paperQuestions, paperId), paperId);
  }

  // ---------------------------------------------------------------
  // The service
  // ---------------------------------------------------------------

  class SyncService {
    var mysql: Db
    var oracle: Db
    var sqlServer: Db
    /** When the last alert mail went out; 0 when none has. */
    var lastAlertTime: int
    /** The sys_sync_log table, oldest row first. */
    var logs: seq<SyncLog>
    /** The alert mails handed to the mail sender, oldest first. */
    var outbox: seq<Alert>

    constructor (c: Cluster)
      ensures Replicas() == c
      ensures lastAlertTime == 0 && logs == [] && outbox == []
    {
      mysql, oracle, sqlServer := c.mysql, c.oracle, c.sqlServer;
      lastAlertTime := 0;
      logs := [];
      outbox := [];
    }

    /** The three replicas as one value. */
    function Replicas(): Cluster
      reads this`mysql, this`oracle, this`sqlServer
    {
      Cluster(mysql, oracle, sqlServer)
    }

    method Store(c: Cluster)
      modifies this`mysql, this`oracle, this`sqlServer
      ensures Replicas() == c
    {
      mysql, oracle, sqlServer := c.mysql, c.oracle, c.sqlServer;
    }

    method SetDb(r: Replica, db: Db)
      modifies this`mysql, this`oracle, this`sqlServer
      ensures Replicas() == old(Replicas()).With(r, db)
    {
      match r
      case MySql => mysql := db;
      case Oracle => oracle := db;
      case SqlServer => sqlServer := db;
    }

    // -------------------------------------------------------------
    // The reconciliation passes
    // -------------------------------------------------------------

    /** syncUsersBidirectional: every needed write is attempted; one that throws is skipped. */
    method SyncUsers(faults: Faults)
      modifies this`mysql, this`oracle, this`sqlServer
      ensures Replicas() == UsersSynced(old(Replicas()), faults)
    {
      var c := Replicas();
      var sn := UserSnap(c);
      var ch := Winners(sn, UserTime);
      var failing := FailingWrites(faults, UserTable);
      var out, written, stop := Pass(sn, ch, UserSame, failing, true);
      PassLeavesAfter(sn, ch, out, written);
      assert written == Made(sn, ch, UserSame, failing);
      Store(WithUsers(c, out));
    }

    /**
      syncQuestionsBidirectional: the first needed write that throws ends the pass and
      propagates; the writes made before it stay.
    */
    method SyncQuestions(faults: Faults) returns (failure: Option<Failure>)
      modifies this`mysql, this`oracle, this`sqlServer
      ensures failure.None? <==> QuestionsNeeded(old(Replicas())) !! FailingWrites(faults, QuestionTable)
      ensures failure.None? ==> Replicas() == QuestionsSynced(old(Replicas()), faults)
      ensures failure.Some? ==> StoppedOn(failure.value, faults, QuestionTable, QuestionsNeeded(old(Replicas())))
      ensures failure.Some? ==> exists w :: w <= QuestionsNeeded(old(Replicas())) && w !! FailingWrites(faults, QuestionTable)
                                             && Replicas() == QuestionsAfter(old(Replicas()), w)
    {
      var c := Replicas();
      var sn := QuestionSnap(c);
      var ch := Winners(sn, QuestionTime);
      var failing := FailingWrites(faults, QuestionTable);
      var out, written, stop := Pass(sn, ch, QuestionSame, failing, false);
      PassLeavesAfter(sn, ch, out, written);
      Store(WithQuestions(c, out));
      assert Replicas() == QuestionsAfter(c, written);
      if stop.Some? {
        failure := Some(FailureAt(faults, QuestionTable, stop.value));
      } else {
        assert written == Made(sn, ch, QuestionSame, failing);
        failure := None;
      }
    }

    method SyncResults(faults: Faults) returns (failure: Option<Failure>)
      modifies this`mysql, this`oracle, this`sqlServer
      ensures failure.None? <==> ResultsNeeded(old(Replicas())) !! FailingWrites(faults, ResultTable)
      ensures failure.None? ==> Replicas() == ResultsSynced(old(Replicas()), faults)
      ensures failure.Some? ==> StoppedOn(failure.value, faults, ResultTable, ResultsNeeded(old(Replicas())))
      ensures failure.Some? ==> exists w :: w <= ResultsNeeded(old(Replicas())) && w !! FailingWrites(faults, ResultTable)
                                             && Replicas() == ResultsAfter(old(Replicas()), w)
    {
      var c := Replicas();
      var sn := ResultSnap(c);
      var ch := Winners(sn, ResultTime);
      var failing := FailingWrites(faults, ResultTable);
      var out, written, stop := Pass(sn, ch, ResultSame, failing, false);
      PassLeavesAfter(sn, ch, out, written);
      Store(WithResults(c, out));
      assert Replicas() == ResultsAfter(c, written);
      if stop.Some? {
        failure := Some(FailureAt(faults, ResultTable, stop.value));
      } else {
        assert written == Made(sn, ch, ResultSame, failing);
        failure := None;
      }
    }

    /**
      syncPapersBidirectional: the paper rows are reconciled like the other tables, and on
      every replica that received a paper, the paper's paper_question rows are replaced by
      those of the replica the winner came from.
    */
    method SyncPapers(faults: Faults) returns (failure: Option<Failure>)
      modifies this`mysql, this`oracle, this`sqlServer
      ensures failure.None? <==> PapersNeeded(old(Replicas())) !! FailingWrites(faults, PaperTable)
      ensures failure.None? ==> Replicas() == PapersSynced(old(Replicas()), faults)
      ensures failure.Some? ==> StoppedOn(failure.value, faults, PaperTable, PapersNeeded(old(Replicas())))
      ensures failure.Some? ==> exists w :: w <= PapersNeeded(old(Replicas())) && w !! FailingWrites(faults, PaperTable)
                                             && Replicas() == PapersAfter(old(Replicas()), w)
    {
      var c := Replicas();
      var sn := PaperSnap(c);
      var ch := Winners(sn, PaperTime);
      var failing := FailingWrites(faults, PaperTable);
      var out, written, stop := Pass(sn, ch, PaperSame, failing, false);
      PassLeavesAfter(sn, ch, out, written);
      Store(WithPapers(c, out));
      forall p | p in written
        ensures (ch[p.1], p.1) !in written
      {
        PaperSameIsEquivalence();
        WinnerReplicaNotNeeded(sn, ch, PaperSame, p.1);
      }
      ReplaceWrittenChildren(c, ch, written);
      assert Replicas() == PapersAfter(c, written);
      if stop.Some? {
        failure := Some(FailureAt(faults, PaperTable, stop.value));
      } else {
        assert written == Made(sn, ch, PaperSame, failing);
        failure := None;
      }
    }

    /**
      The children half of the paper pass: for each write (r, id) the pass made, the
      paper's children are read from the winner's replica as it is now (fetchPaperQuestions)
      and written over r's (syncTo*PaperQuestions).
    */
    method ReplaceWrittenChildren(c0: Cluster, ch: map<int, Replica>, written: set<(Replica, int)>)
      requires forall p :: p in written ==> p.1 in ch && (ch[p.1], p.1) !in written
      requires mysql.paperQuestions == c0.mysql.paperQuestions && oracle.paperQuestions == c0.oracle.paperQuestions
               && sqlServer.paperQuestions == c0.sqlServer.paperQuestions
      modifies this`mysql, this`oracle, this`sqlServer
      ensures Replicas() == WithChildren(old(Replicas()), c0, ch, written)
    {
      ghost var start := Replicas();
      NoChildrenReplaced(start, c0, ch);
      var todo := written;
      ghost var done: set<(Replica, int)> := {};
      while todo != {}
        invariant todo <= written && done == written - todo
        invariant Replicas() == WithChildren(start, c0, ch, done)
        decreases todo
      {
        InhabitedPairs(todo);
        var p :| p in todo;
        assert p in written && (ch[p.1], p.1) !in done;
        ReplaceWrittenChild(start, c0, ch, done, p.0, p.1);
        todo := todo - {p};
        done := done + {p};
      }
      assert done == written;
    }

    /** One turn of the children loop: paper `id` on replica `r`. */
    method ReplaceWrittenChild(ghost start: Cluster, c0: Cluster, ch: map<int, Replica>, ghost done: set<(Replica, int)>,
                               r: Replica, id: int)
      requires forall p :: p in done ==> p.1 in ch
      requires id in ch && (ch[id], id) !in done
      requires Replicas() == WithChildren(start, c0, ch, done)
      modifies this`mysql, this`oracle, this`sqlServer
      ensures Replicas() == WithChildren(start, c0, ch, done + {(r, id)})
    {
      assert id !in WrittenTo(done, ch[id]);
      var kids := Tables.ChildrenOf(Replicas().At(ch[id]).paperQuestions, id);
      SyncedChildrenOf(c0, ch, ch[id], WrittenTo(done, ch[id]), id);
      assert kids == Tables.ChildrenOf(c0.At(ch[id]).paperQuestions, id);
      ReplacePaperChildren(r, id, kids);
      WithChildrenStep(start, c0, ch, done, r, id);
    }

    /** syncTo*PaperQuestions: delete the paper's child rows in replica r, then insert each given child under the paper. */
    method ReplacePaperChildren(r: Replica, paperId: int, kids: set<PaperQuestion>)
      modifies this`mysql, this`oracle, this`sqlServer
      ensures Replicas() == old(Replicas()).With(r, old(Replicas()).At(r).(
        paperQuestions := Tables.ReplaceChildren(old(Replicas()).At(r).paperQuestions, paperId, kids)))
    {
      var db := Replicas().At(r);
      var kept := set x | x in db.paperQuestions && x.paperId != paperId;
      var rows := kept;
      var rest := kids;
      while rest != {}
        invariant rest <= kids
        invariant rows == kept + Tables.Reparented(kids - rest, paperId)
        invariant Replicas() == old(Replicas())
        decreases rest
      {
        InhabitedKids(rest);
        var k :| k in rest;
        rows := rows + {PaperQuestion(paperId, k.questionId, k.score)};
        rest := rest - {k};
      }
      assert kids - rest == kids;
      assert rows == Tables.ReplaceChildren(db.paperQuestions, paperId, kids);
      SetDb(r, db.(paperQuestions := rows));
    }

    // -------------------------------------------------------------
    // Single-row writes the conflict controller calls
    // -------------------------------------------------------------

    /**
      syncTo*Native(User): upsert the user into replica r under its id, unless the write
      throws. The id is the key the row was read under (the row's own id in the source).
    */
    method UpsertUser(r: Replica, id: int, u: User, faults: Faults) returns (failure: Option<Failure>)
      modifies this`mysql, this`oracle, this`sqlServer
      ensures failure.None? <==> Fault(UserTable, r, id) !in faults
      ensures failure.None? ==> Replicas() == old(Replicas()).With(r, old(Replicas()).At(r).(
        users := Tables.Upsert(old(Replicas()).At(r).users, id, u)))
      ensures failure.Some? ==> failure.value == FailureAt(faults, UserTable, (r, id)) && Replicas() == old(Replicas())
    {
      if Fault(UserTable, r, id) in faults {
        return Some(FailureAt(faults, UserTable, (r, id)));
      }
      var db := Replicas().At(r);
      SetDb(r, db.(users := Tables.Upsert(db.users, id, u)));
      failure := None;
    }

    /** syncTo*Paper: upsert the paper row into replica r under its id, unless the write throws. */
    method UpsertPaper(r: Replica, id: int, p: Paper, faults: Faults) returns (failure: Option<Failure>)
      modifies this`mysql, this`oracle, this`sqlServer
      ensures failure.None? <==> Fault(PaperTable, r, id) !in faults
      ensures failure.None? ==> Replicas() == old(Replicas()).With(r, old(Replicas()).At(r).(
        papers := Tables.Upsert(old(Replicas()).At(r).papers, id, p)))
      ensures failure.Some? ==> failure.value == FailureAt(faults, PaperTable, (r, id)) && Replicas() == old(Replicas())
    {
      if Fault(PaperTable, r, id) in faults {
        return Some(FailureAt(faults, PaperTable, (r, id)));
      }
      var db := Replicas().At(r);
      SetDb(r, db.(papers := Tables.Upsert(db.papers, id, p)));
      failure := None;
    }

    /**
      syncSinglePaperToOracle / syncSinglePaperToSqlServer: copy MySQL's paper and its
      children to the standby r; nothing happens when MySQL has no such paper.
    */
    method SyncSinglePaperTo(r: Replica, paperId: int, faults: Faults) returns (failure: Option<Failure>)
      requires r != MySql
      modifies this`mysql, this`oracle, this`sqlServer
      ensures paperId !in old(mysql.papers) ==> failure.None? && Replicas() == old(Replicas())
      ensures paperId in old(mysql.papers) ==> (failure.None? <==> Fault(PaperTable, r, paperId) !in faults)
      ensures failure.Some? ==> failure.value == FailureAt(faults, PaperTable, (r, paperId)) && Replicas() == old(Replicas())
      ensures paperId in old(mysql.papers) && failure.None? ==>
        Replicas() == old(Replicas()).With(r, PaperCopied(old(Replicas()), r, paperId))
    {
      if paperId !in mysql.papers {
        return None;
      }
      ghost var c := Replicas();
      var p := mysql.papers[paperId];
      failure := UpsertPaper(r, paperId, p, faults);
      if failure.None? {
        assert mysql == c.mysql;
        var kids := Tables.ChildrenOf(mysql.paperQuestions, paperId);
        ReplacePaperChildren(r, paperId, kids);
        assert Replicas().At(r) == PaperCopied(c, r, paperId);
        assert Replicas() == c.With(r, PaperCopied(c, r, paperId));
      }
    }

    // -------------------------------------------------------------
    // Global deletes
    // -------------------------------------------------------------

    /** deletePaperGlobally: the paper, its children and its exam results go from every replica. */
    method DeletePaperGlobally(paperId: int)
      modifies this`mysql, this`oracle, this`sqlServer
      ensures mysql == Tables.DeletePaper(old(mysql), paperId)
      ensures oracle == Tables.DeletePaper(old(oracle), paperId)
      ensures sqlServer == Tables.DeletePaper(old(sqlServer), paperId)
    {
      mysql := Tables.DeletePaper(mysql, paperId);
      oracle := Tables.DeletePaper(oracle, paperId);
      sqlServer := Tables.DeletePaper(sqlServer, paperId);
    }

    /**
      deleteUserGlobally: the user and their exam results go from every replica; the
      standbys also clear teacher_id on the papers the user set, MySQL does not.
    */
    method DeleteUserGlobally(userId: int)
      modifies this`mysql, this`oracle, this`sqlServer
      ensures mysql == Tables.DeleteUser(old(mysql), userId, false)
      ensures oracle == Tables.DeleteUser(old(oracle), userId, true)
      ensures sqlServer == Tables.DeleteUser(old(sqlServer), userId, true)
    {
      mysql := Tables.DeleteUser(mysql, userId, false);
      oracle := Tables.DeleteUser(oracle, userId, true);
      sqlServer := Tables.DeleteUser(sqlServer, userId, true);
    }

    /** deleteQuestionGlobally: the question and every paper_question row using it go from every replica. */
    method DeleteQuestionGlobally(questionId: int)
      modifies this`mysql, this`oracle, this`sqlServer
      ensures mysql == Tables.DeleteQuestion(old(mysql), questionId)
      ensures oracle == Tables.DeleteQuestion(old(oracle), questionId)
      ensures sqlServer == Tables.DeleteQuestion(old(sqlServer), questionId)
    {
      mysql := Tables.DeleteQuestion(mysql, questionId);
      oracle := Tables.DeleteQuestion(oracle, questionId);
      sqlServer := Tables.DeleteQuestion(sqlServer, questionId);
    }

    // -------------------------------------------------------------
    // The watchdog
    // -------------------------------------------------------------

    /**
      detectConflicts: MySQL's users and papers in listing order, each checked against
      both standbys.
    */
    method DetectConflicts(userOrder: seq<int>, paperOrder: seq<int>) returns (conflicts: seq<Conflict>)
      requires Lists(userOrder, mysql.users) && Lists(paperOrder, mysql.papers)
      ensures conflicts == Conflicts.Conflicts(EngineCopy, Listed(mysql.users, userOrder), oracle.users, sqlServer.users,
                                     Listed(mysql.papers, paperOrder), oracle.papers, sqlServer.papers)
    {
      conflicts := Detect(EngineCopy, Listed(mysql.users, userOrder), oracle.users, sqlServer.users,
                          Listed(mysql.papers, paperOrder), oracle.papers, sqlServer.papers);
    }

    /** sendConflictNotification: nothing without a mail sender; a send that throws is swallowed. */
    method SendConflictNotification(conflicts: seq<Conflict>, mailer: Mailer)
      modifies this`outbox
      ensures outbox == old(outbox) + (if mailer == Mailer(true) then [AlertFor(conflicts)] else [])
    {
      if mailer.NoMailer? {
        return;
      }
      var alert := ComposeAlert(conflicts);
      if mailer.delivers {
        outbox := outbox + [alert];
      }
    }

    /**
      monitorConflicts: when the detector finds conflicts and more than ALERT_INTERVAL has
      passed since the last alert, an alert is sent and the clock reading recorded.
    */
    method MonitorConflicts(now: int, userOrder: seq<int>, paperOrder: seq<int>, mailer: Mailer)
      requires Lists(userOrder, mysql.users) && Lists(paperOrder, mysql.papers)
      modifies this`lastAlertTime, this`outbox
      ensures var found := Conflicts.Conflicts(EngineCopy, Listed(mysql.users, userOrder), oracle.users, sqlServer.users,
                                     Listed(mysql.papers, paperOrder), oracle.papers, sqlServer.papers);
        && lastAlertTime == (if Due(|found|, now, old(lastAlertTime)) then now else old(lastAlertTime))
        && outbox == old(outbox) + (if Due(|found|, now, old(lastAlertTime)) && mailer == Mailer(true) then [AlertFor(found)] else [])
    {
      var conflicts := DetectConflicts(userOrder, paperOrder);
      if |conflicts| > 0 {
        if now - lastAlertTime > AlertInterval {
          SendConflictNotification(conflicts, mailer);
          lastAlertTime := now;
        }
      }
    }

    // -------------------------------------------------------------
    // The sweeps
    // -------------------------------------------------------------

    /** The four passes in order, users, questions, papers, exam results; a propagated failure ends the run. */
    method RunPasses(faults: Faults) returns (failure: Option<Failure>)
      modifies this`mysql, this`oracle, this`sqlServer
      ensures failure.None? ==> Replicas() == Sweep(old(Replicas()), faults)
      ensures failure.Some? ==> failure.value.fault in faults && failure.value.message == faults[failure.value.fault]
      ensures faults == map[] ==> failure.None?
      ensures failure.None? <==> SweepCompletes(old(Replicas()), faults)
      ensures SweepEnded(old(Replicas()), faults, failure, Replicas())
    {
      NoFaultsNoFailingWrites(QuestionTable);
      NoFaultsNoFailingWrites(PaperTable);
      NoFaultsNoFailingWrites(ResultTable);
      SyncUsers(faults);
      failure := SyncQuestions(faults);
      if failure.Some? {
        return;
      }
      failure := SyncPapers(faults);
      if failure.Some? {
        return;
      }
      failure := SyncResults(faults);
    }

    /**
      scheduledSync: a RUNNING log row, the four passes, then the same row closed as
      SUCCESS, or as FAILED with the failure's message cut to 3900 characters.
    */
    method ScheduledSync(start: int, end: int, faults: Faults) returns (ghost failure: Option<Failure>)
      modifies this`mysql, this`oracle, this`sqlServer, this`logs
      ensures logs == old(logs) + [Finished(start, end, failure)]
      ensures failure.None? ==> Replicas() == Sweep(old(Replicas()), faults)
      ensures failure.Some? ==> failure.value.fault in faults && failure.value.message == faults[failure.value.fault]
      ensures faults == map[] ==> failure.None?
      ensures failure.None? <==> SweepCompletes(old(Replicas()), faults)
      ensures SweepEnded(old(Replicas()), faults, failure, Replicas())
    {
      ghost var c := Replicas();
      var before := logs;
      logs := logs + [Started(start)];
      var outcome := RunPasses(faults);
      failure := outcome;
      ghost var ended := Replicas();
      assert SweepEnded(c, faults, failure, ended);
      logs := before + [Finished(start, end, outcome)];
      assert Replicas() == ended;
    }

    /** executeImmediateSync (and syncData): the four passes, with a propagated failure swallowed. */
    method ExecuteImmediateSync(faults: Faults) returns (ghost failure: Option<Failure>)
      modifies this`mysql, this`oracle, this`sqlServer
      ensures failure.None? ==> Replicas() == Sweep(old(Replicas()), faults)
      ensures failure.Some? ==> failure.value.fault in faults && failure.value.message == faults[failure.value.fault]
      ensures faults == map[] ==> failure.None?
      ensures failure.None? <==> SweepCompletes(old(Replicas()), faults)
      ensures SweepEnded(old(Replicas()), faults, failure, Replicas())
    {
      failure := RunPasses(faults);
    }
  }

  /**
    Two immediate syncs in a row without faults leave the replicas as one does: the
    second finds every table settled.
  */
  method ImmediateSyncTwice(svc: SyncService)
    modifies svc
    ensures svc.Replicas() == Sweep(old(svc.Replicas()), map[])
  {
    var first := svc.ExecuteImmediateSync(map[]);
    var second := svc.ExecuteImmediateSync(map[]);
    SweepIsIdempotent(old(svc.Replicas()), map[]);
  }
}
