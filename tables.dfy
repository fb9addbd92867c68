/**
  What each replica does on a write, abstracted from the per-dialect native SQL:
  upsert by id (UPDATE ... WHERE id, else INSERT with the explicit id), replacement of a
  paper's paper_question rows (DELETE ... WHERE paper_id, then INSERT each child), and the
  cascading deletes of a paper, a user and a question.
*/
module Tables {
  import opened Wrappers
  import opened Entities

  /** Upsert: the row with this id is updated if present, otherwise inserted with that same id. */
  function Upsert<T>(m: map<int, T>, id: int, row: T): (r: map<int, T>)
    ensures r.Keys == m.Keys + {id}
    ensures r[id] == row
    ensures forall k :: k in m && k != id ==> r[k] == m[k]
  {
    m[id := row]
  }

  lemma UpsertIdempotent<T>(m: map<int, T>, id: int, row: T)
    ensures Upsert(Upsert(m, id, row), id, row) == Upsert(m, id, row)
  {
  }

  /** Upserting a row equal to the stored one changes nothing. */
  lemma UpsertOfStoredRow<T>(m: map<int, T>, id: int)
    requires id in m
    ensures Upsert(m, id, m[id]) == m
  {
  }

  /** The paper_question rows of one paper. */
  function ChildrenOf(c: set<PaperQuestion>, paperId: int): (r: set<PaperQuestion>)
    ensures forall x :: x in r <==> x in c && x.paperId == paperId
  {
    set x | x in c && x.paperId == paperId
  }

  /** The rows the re-insert loop writes: the paper's id with each child's question id and score. */
  function Reparented(kids: set<PaperQuestion>, paperId: int): (r: set<PaperQuestion>)
    ensures forall x :: x in r ==> x.paperId == paperId
    ensures forall k :: k in kids ==> PaperQuestion(paperId, k.questionId, k.score) in r
  {
    set k | k in kids :: PaperQuestion(paperId, k.questionId, k.score)
  }

  /** syncTo*PaperQuestions: delete every child row of the paper, then insert the given set. */
  function ReplaceChildren(c: set<PaperQuestion>, paperId: int, kids: set<PaperQuestion>): (r: set<PaperQuestion>)
    ensures ChildrenOf(r, paperId) == Reparented(kids, paperId)
    ensures forall x: PaperQuestion :: x.paperId != paperId ==> (x in r <==> x in c)
  {
    (set x | x in c && x.paperId != paperId) + Reparented(kids, paperId)
  }

  /** Children that already belong to the paper are re-inserted unchanged. */
  lemma ReparentedOwnChildren(kids: set<PaperQuestion>, paperId: int)
    requires forall k :: k in kids ==> k.paperId == paperId
    ensures Reparented(kids, paperId) == kids
  {
    forall x | x in Reparented(kids, paperId) ensures x in kids {
      var k :| k in kids && x == PaperQuestion(paperId, k.questionId, k.score);
    }
  }

  lemma ReplaceChildrenIdempotent(c: set<PaperQuestion>, paperId: int, kids: set<PaperQuestion>)
    ensures ReplaceChildren(ReplaceChildren(c, paperId, kids), paperId, kids) == ReplaceChildren(c, paperId, kids)
  {
  }

  // ---------------------------------------------------------------
  // Cascading deletes, one replica at a time
  // ---------------------------------------------------------------

  function ResultsWithout(results: map<int, ExamResult>, keep: ExamResult -> bool): (r: map<int, ExamResult>)
    ensures forall k :: k in r <==> k in results && keep(results[k])
    ensures forall k :: k in r ==> r[k] == results[k]
  {
    map k | k in results && keep(results[k]) :: results[k]
  }

  /** deletePaper*: exam results of the paper, then its paper_question rows, then the paper. */
  function DeletePaper(db: Db, paperId: int): (r: Db)
    ensures paperId !in r.papers
    ensures ChildrenOf(r.paperQuestions, paperId) == {}
    ensures forall k :: k in r.results ==> r.results[k].paperId != Some(paperId)
    ensures r.papers == db.papers - {paperId}
    ensures forall x: PaperQuestion :: x.paperId != paperId ==> (x in r.paperQuestions <==> x in db.paperQuestions)
    ensures forall k :: k in db.results && db.results[k].paperId != Some(paperId) ==> k in r.results && r.results[k] == db.results[k]
    ensures r.results.Keys <= db.results.Keys
    ensures r.users == db.users && r.questions == db.questions
  {
    db.(results := ResultsWithout(db.results, (e: ExamResult) => e.paperId != Some(paperId)),
        paperQuestions := (set x | x in db.paperQuestions && x.paperId != paperId),
        papers := db.papers - {paperId})
  }

  lemma DeletePaperIdempotent(db: Db, paperId: int)
    ensures DeletePaper(DeletePaper(db, paperId), paperId) == DeletePaper(db, paperId)
  {
  }

  /**
    deleteUser*: the user's exam results, then (only where `detachTeacher`) clearing the
    teacher of the papers the user set, then the user.
  */
  function DeleteUser(db: Db, userId: int, detachTeacher: bool): (r: Db)
    ensures userId !in r.users && r.users == db.users - {userId}
    ensures forall k :: k in r.results ==> r.results[k].studentId != Some(userId)
    ensures forall k :: k in db.results && db.results[k].studentId != Some(userId) ==> k in r.results && r.results[k] == db.results[k]
    ensures r.results.Keys <= db.results.Keys
    ensures r.papers.Keys == db.papers.Keys
    ensures detachTeacher ==> forall k :: k in r.papers ==> r.papers[k].teacherId != Some(userId)
    ensures detachTeacher ==> forall k :: k in db.papers ==>
      r.papers[k] == (if db.papers[k].teacherId == Some(userId) then db.papers[k].(teacherId := None) else db.papers[k])
    ensures !detachTeacher ==> r.papers == db.papers
    ensures r.questions == db.questions && r.paperQuestions == db.paperQuestions
  {
    var papers := if detachTeacher
      then map k | k in db.papers :: if db.papers[k].teacherId == Some(userId) then db.papers[k].(teacherId := None) else db.papers[k]
      else db.papers;
    db.(results := ResultsWithout(db.results, (e: ExamResult) => e.studentId != Some(userId)),
        papers := papers,
        users := db.users - {userId})
  }

  lemma DeleteUserIdempotent(db: Db, userId: int, detachTeacher: bool)
    ensures DeleteUser(DeleteUser(db, userId, detachTeacher), userId, detachTeacher) == DeleteUser(db, userId, detachTeacher)
  {
  }

  /** deleteQuestion*: the question's paper_question rows, then the question. */
  function DeleteQuestion(db: Db, questionId: int): (r: Db)
    ensures r.questions == db.questions - {questionId}
    ensures forall x :: x in r.paperQuestions <==> x in db.paperQuestions && x.questionId != questionId
    ensures r.users == db.users && r.papers == db.papers && r.results == db.results
  {
    db.(paperQuestions := (set x | x in db.paperQuestions && x.questionId != questionId),
        questions := db.questions - {questionId})
  }

  lemma DeleteQuestionIdempotent(db: Db, questionId: int)
    ensures DeleteQuestion(DeleteQuestion(db, questionId), questionId) == DeleteQuestion(db, questionId)
  {
  }
}
