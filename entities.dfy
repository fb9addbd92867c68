/**
  The business rows that live in every replica, the replicas themselves, and the
  business-value equality of papers (Paper.equals).

  Timestamps are instants on an integer clock; a Java `null` timestamp is `None`.
*/
module Entities {
  import opened Wrappers

  /** The three stores, listed in the priority order the winner resolver uses. */
  datatype Replica = MySql | Oracle | SqlServer

  const AllReplicas: set<Replica> := {MySql, Oracle, SqlServer}

  /** A nullable LocalDateTime. */
  type Stamp = Option<int>

  datatype User = User(
    id: int,
    username: Option<string>,
    password: Option<string>,
    role: Option<string>,
    realName: Option<string>,
    createTime: Stamp,
    updateTime: Stamp)

  datatype Question = Question(
    id: int,
    content: Option<string>,
    qtype: Option<string>,
    difficulty: Option<string>,
    knowledgePoint: Option<string>,
    answer: Option<string>,
    updateTime: Stamp)

  datatype Paper = Paper(
    id: int,
    paperName: Option<string>,
    totalScore: Option<int>,
    teacherId: Option<int>,
    createTime: Stamp,
    updateTime: Stamp)

  /** A paper_question row: composite identity (paperId, questionId) and the question's score. */
  datatype PaperQuestion = PaperQuestion(paperId: int, questionId: int, score: int)

  datatype ExamResult = ExamResult(
    id: int,
    studentId: Option<int>,
    paperId: Option<int>,
    score: int,
    createTime: Stamp,
    updateTime: Stamp,
    studentAnswers: Option<string>)

  /** One replica: a table per entity, rows keyed by id; paper_question rows as a set. */
  datatype Db = Db(
    users: map<int, User>,
    questions: map<int, Question>,
    papers: map<int, Paper>,
    paperQuestions: set<PaperQuestion>,
    results: map<int, ExamResult>)

  /** All three replicas at once. */
  datatype Cluster = Cluster(mysql: Db, oracle: Db, sqlServer: Db) {
    function At(r: Replica): Db
    {
      match r
      case MySql => mysql
      case Oracle => oracle
      case SqlServer => sqlServer
    }

    function With(r: Replica, db: Db): (c: Cluster)
      ensures c.At(r) == db
      ensures forall r' :: r' != r ==> c.At(r') == At(r')
    {
      match r
      case MySql => this.(mysql := db)
      case Oracle => this.(oracle := db)
      case SqlServer => this.(sqlServer := db)
    }
  }

  /** The tables a replica write can target, used to name the write that fails. */
  datatype Table = UserTable | QuestionTable | PaperTable | ResultTable
  {
    /** The table's name in every replica's schema. */
    function Name(): string
    {
      match this
      case UserTable => "sys_user"
      case QuestionTable => "question"
      case PaperTable => "paper"
      case ResultTable => "exam_result"
    }
  }

  /** A write of row `id` of `table` into `replica`; a fault map says which of them throw and with what message. */
  datatype Fault = Fault(table: Table, replica: Replica, id: int)

  type Faults = map<Fault, Option<string>>

  /** The (replica, id) writes of one table that throw. */
  function FailingWrites(faults: Faults, table: Table): (w: set<(Replica, int)>)
    ensures forall r, id :: (r, id) in w <==> Fault(table, r, id) in faults
  {
    set f | f in faults && f.table == table :: (f.replica, f.id)
  }

  // ---------------------------------------------------------------
  // Paper.equals: business-value equality on paperName and totalScore
  // ---------------------------------------------------------------

  /** The argument of Object.equals: null, a Paper, or an object of another class. */
  datatype JavaObject = Null | PaperObject(paper: Paper) | OtherObject

  /** Two papers are the same business row when their names and total scores agree. */
  predicate PaperEquals(a: Paper, b: Paper)
  {
    a.paperName == b.paperName && a.totalScore == b.totalScore
  }

  /** Paper.equals(Object): false for null and for other classes, else field comparison. */
  function PaperEqualsObject(p: Paper, o: JavaObject): (r: bool)
    ensures o.Null? || o.OtherObject? ==> !r
    ensures o.PaperObject? ==> (r <==> p.paperName == o.paper.paperName && p.totalScore == o.paper.totalScore)
  {
    match o
    case Null => false
    case OtherObject => false
    case PaperObject(q) => PaperEquals(p, q)
  }

  lemma PaperEqualsReflexive(p: Paper)
    ensures PaperEqualsObject(p, PaperObject(p))
  {
  }

  lemma PaperEqualsSymmetric(a: Paper, b: Paper)
    ensures PaperEquals(a, b) <==> PaperEquals(b, a)
  {
  }

  lemma PaperEqualsTransitive(a: Paper, b: Paper, c: Paper)
    requires PaperEquals(a, b) && PaperEquals(b, c)
    ensures PaperEquals(a, c)
  {
  }

  /** Bookkeeping fields never affect equality. */
  lemma PaperEqualsIgnoresBookkeeping(p: Paper, id: int, teacher: Option<int>, created: Stamp, updated: Stamp)
    ensures PaperEquals(p, p.(id := id, teacherId := teacher, createTime := created, updateTime := updated))
  {
  }

  /** `new Paper()` with the identity the insert assigns: both timestamps are the current instant. */
  function NewPaper(id: int, now: int): (p: Paper)
    ensures p.id == id && p.createTime == Some(now) && p.updateTime == Some(now)
    ensures p.paperName.None? && p.totalScore.None? && p.teacherId.None?
  {
    Paper(id, None, None, None, Some(now), Some(now))
  }

  // ---------------------------------------------------------------
  // Timestamp maintenance shared by the business write paths
  // ---------------------------------------------------------------

  /** `if (createTime == null) createTime = now`. */
  function FillCreate(created: Stamp, now: int): (r: Stamp)
    ensures r.Some?
    ensures created.Some? ==> r == created
    ensures created.None? ==> r == Some(now)
  {
    if created.None? then Some(now) else created
  }
}
