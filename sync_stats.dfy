/**
  The table-status report: for each of the five replicated tables, the row count in
  every replica and a SYNCED / DIFF verdict that compares the counts alone.
*/
module SyncStats {
  import opened Entities
  import opened Reconcile
  import opened Sweeps

  /** One row of the report, as the endpoint's map holds it. */
  datatype StatusRow = StatusRow(tableName: string, mysqlCount: int, oracleCount: int, sqlServerCount: int, status: string)

  const Synced: string := "SYNCED"
  const Diff: string := "DIFF"

  /** buildRow: the counts as given, SYNCED exactly when all three agree. */
  function BuildRow(tableName: string, mysql: int, oracle: int, sqlServer: int): (row: StatusRow)
    ensures row.tableName == tableName
    ensures row.mysqlCount == mysql && row.oracleCount == oracle && row.sqlServerCount == sqlServer
    ensures row.status == Synced <==> mysql == oracle && mysql == sqlServer
    ensures row.status == Diff <==> mysql != oracle || mysql != sqlServer
  {
    StatusRow(tableName, mysql, oracle, sqlServer, if mysql == oracle && mysql == sqlServer then Synced else Diff)
  }

  /** The report's labels, in the order the rows are listed. */
  const Labels: seq<string> := [
    "用户表 (sys_user)",
    "题库表 (question)",
    "试卷表 (paper)",
    "试卷题目关联 (paper_question)",
    "考试成绩表 (exam_result)"
  ]

  /** `count()` of each table of one replica, in the report's order. */
  function Counts(db: Db): (n: seq<int>)
    ensures |n| == 5
    ensures n[0] == |db.users| && n[1] == |db.questions| && n[2] == |db.papers|
    ensures n[3] == |db.paperQuestions| && n[4] == |db.results|
  {
    [|db.users|, |db.questions|, |db.papers|, |db.paperQuestions|, |db.results|]
  }

  /** getTableStatus: five rows, user, question, paper, paper_question, exam_result. */
  function TableStatus(c: Cluster): (rows: seq<StatusRow>)
    ensures |rows| == 5
    ensures forall k :: 0 <= k < 5 ==> rows[k].tableName == Labels[k]
    ensures forall k :: 0 <= k < 5 ==>
      rows[k].mysqlCount == Counts(c.mysql)[k] && rows[k].oracleCount == Counts(c.oracle)[k]
      && rows[k].sqlServerCount == Counts(c.sqlServer)[k]
    ensures forall k :: 0 <= k < 5 ==>
      (rows[k].status == Synced <==> Counts(c.mysql)[k] == Counts(c.oracle)[k] == Counts(c.sqlServer)[k])
  {
    var m, o, s := Counts(c.mysql), Counts(c.oracle), Counts(c.sqlServer);
    seq(5, k requires 0 <= k < 5 => BuildRow(Labels[k], m[k], o[k], s[k]))
  }

  /** A fault-free user pass leaves the same users in every replica. */
  lemma UserPassAgrees(c: Cluster)
    ensures var u := UsersSynced(c, map[]); u.mysql.users == u.oracle.users && u.mysql.users == u.sqlServer.users
  {
    var u := UsersSynced(c, map[]);
    var sn := UserSnap(c);
    var m := Merged(sn, Winners(sn, UserTime));
    UsersConverge(c, MySql);
    assert u.mysql.users == m;
    UsersConverge(c, Oracle);
    assert u.oracle.users == m;
    UsersConverge(c, SqlServer);
    assert u.sqlServer.users == m;
  }

  /** A fault-free question pass leaves the same questions in every replica. */
  lemma QuestionPassAgrees(c: Cluster)
    ensures var q := QuestionsSynced(c, map[]); q.mysql.questions == q.oracle.questions && q.mysql.questions == q.sqlServer.questions
  {
    var q := QuestionsSynced(c, map[]);
    var sn := QuestionSnap(c);
    var m := Merged(sn, Winners(sn, QuestionTime));
    QuestionsConverge(c, MySql);
    assert q.mysql.questions == m;
    QuestionsConverge(c, Oracle);
    assert q.oracle.questions == m;
    QuestionsConverge(c, SqlServer);
    assert q.sqlServer.questions == m;
  }

  /** A fault-free paper pass leaves the same paper ids in every replica (the papers agree by Paper.equals). */
  lemma PaperPassAgrees(c: Cluster)
    ensures var p := PapersSynced(c, map[]);
      p.mysql.papers.Keys == p.oracle.papers.Keys && p.mysql.papers.Keys == p.sqlServer.papers.Keys
  {
    PapersEverywhere(c, MySql);
    PapersEverywhere(c, Oracle);
    PapersEverywhere(c, SqlServer);
  }

  /**
    A fault-free exam-result pass leaves the same result ids in every replica (the rows
    themselves agree only up to ExamResult.equals).
  */
  lemma ResultPassAgrees(c: Cluster)
    ensures var s := ResultsSynced(c, map[]);
      s.mysql.results.Keys == s.oracle.results.Keys && s.mysql.results.Keys == s.sqlServer.results.Keys
  {
    ResultsEverywhere(c, MySql);
    ResultsEverywhere(c, Oracle);
    ResultsEverywhere(c, SqlServer);
  }

  /**
    After a fault-free sweep the user, question, paper and exam-result rows of the report
    read SYNCED: every replica holds the same ids in those tables.
  */
  lemma SweptTablesReadSynced(c: Cluster)
    ensures var rows := TableStatus(Sweep(c, map[]));
      rows[0].status == Synced && rows[1].status == Synced && rows[2].status == Synced
      && rows[4].status == Synced
  {
    var u := UsersSynced(c, map[]);
    var q := QuestionsSynced(u, map[]);
    var p := PapersSynced(q, map[]);
    var s := ResultsSynced(p, map[]);
    assert s == Sweep(c, map[]);
    UserPassAgrees(c);
    QuestionPassAgrees(u);
    PaperPassAgrees(q);
    ResultPassAgrees(p);
    PassesKeepOtherTables(u, map[]);
    PassesKeepOtherTables(q, map[]);
    PassesKeepOtherTables(p, map[]);
    assert UserSnap(s) == UserSnap(u);
    assert QuestionSnap(s) == QuestionSnap(q);
    assert s.mysql.users == s.oracle.users == s.sqlServer.users;
    assert s.mysql.questions == s.oracle.questions == s.sqlServer.questions;
    assert s.mysql.papers.Keys == s.oracle.papers.Keys == s.sqlServer.papers.Keys;
  }
}
