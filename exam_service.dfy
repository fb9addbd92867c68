/**
  Exam submission and the marked exam detail. submitExam reads the paper, the student
  and the paper's questions from MySQL, grades the answers, and saves the result into
  the current master; in Oracle and SQL Server mode the exam-result pass follows at once.
  The detail view lists the paper's questions with the student's answer and whether it
  matches the correct one.

  The answer blob is opaque: its serialised text (on submit) and its decoded map (on
  the detail view) are parameters.
*/
module ExamService {
  import opened Wrappers
  import opened Entities
  import opened Text
  import opened Routing
  import opened Engine
  import opened Sweeps
  import opened PaperService

  /** ExamSubmitRequest; a null answer counts as no answer, so it is absent from the map. */
  datatype SubmitRequest = SubmitRequest(studentId: int, paperId: int, answers: map<int, string>)

  const MissingStudentMessage: string := "学生不存在"
  const MissingResultMessage: string := "考试记录不存在"

  /** ExamService.getPaperDetail: MySQL's paper, or the missing-paper error. */
  function PaperOf(db: Db, paperId: int): (r: Result<Paper, Error>)
    ensures r.Ok? <==> paperId in db.papers
    ensures r.Ok? ==> r.value == db.papers[paperId]
    ensures r.Err? ==> r.error == Raised(MissingPaperMessage)
  {
    if paperId in db.papers then Ok(db.papers[paperId]) else Err(Raised(MissingPaperMessage))
  }

  // ---------------------------------------------------------------
  // Grading
  // ---------------------------------------------------------------

  /** A submitted answer is right when it is present and equals the correct one ignoring case. */
  predicate Correct(answers: map<int, string>, q: Question)
  {
    q.id in answers && q.answer.Some? && EqualsIgnoreCase(answers[q.id], q.answer.value)
  }

  /** Every paper_question row points to an existing question. */
  predicate Linked(pqs: seq<PaperQuestion>, questions: map<int, Question>)
  {
    forall k :: 0 <= k < |pqs| ==> pqs[k].questionId in questions
  }

  /** What one paper_question row adds to the score. */
  function Earned(pq: PaperQuestion, questions: map<int, Question>, answers: map<int, string>): int
    requires pq.questionId in questions
  {
    if Correct(answers, questions[pq.questionId]) then pq.score else 0
  }

  /** The score: the scores of the rows whose question was answered right. */
  function Score(pqs: seq<PaperQuestion>, questions: map<int, Question>, answers: map<int, string>): int
    requires Linked(pqs, questions)
  {
    if |pqs| == 0 then 0 else Earned(pqs[0], questions, answers) + Score(pqs[1..], questions, answers)
  }

  /** The most a paper can give: the sum of its rows' scores. */
  function MaxScore(pqs: seq<PaperQuestion>): int
  {
    if |pqs| == 0 then 0 else pqs[0].score + MaxScore(pqs[1..])
  }

  /** The grading loop of submitExam. */
  method Grade(pqs: seq<PaperQuestion>, questions: map<int, Question>, answers: map<int, string>) returns (total: int)
    requires Linked(pqs, questions)
    ensures total == Score(pqs, questions, answers)
  {
    total := 0;
    for i := 0 to |pqs|
      invariant total + Score(pqs[i..], questions, answers) == Score(pqs, questions, answers)
    {
      assert pqs[i..][1..] == pqs[i + 1..];
      total := total + Earned(pqs[i], questions, answers);
    }
    assert pqs[|pqs|..] == [];
  }

  /** With non-negative row scores the score lies between 0 and the paper's maximum. */
  lemma {:induction false} ScoreBounds(pqs: seq<PaperQuestion>, questions: map<int, Question>, answers: map<int, string>)
    requires Linked(pqs, questions)
    requires forall k :: 0 <= k < |pqs| ==> pqs[k].score >= 0
    ensures 0 <= Score(pqs, questions, answers) <= MaxScore(pqs)
  {
    if |pqs| > 0 {
      ScoreBounds(pqs[1..], questions, answers);
    }
  }

  /** Unanswered questions contribute nothing: an empty answer sheet scores 0. */
  lemma {:induction false} NoAnswersScoresZero(pqs: seq<PaperQuestion>, questions: map<int, Question>)
    requires Linked(pqs, questions)
    ensures Score(pqs, questions, map[]) == 0
  {
    if |pqs| > 0 {
      NoAnswersScoresZero(pqs[1..], questions);
    }
  }

  /** A sheet that answers every question right scores the paper's maximum. */
  lemma {:induction false} AllCorrectScoresFull(pqs: seq<PaperQuestion>, questions: map<int, Question>, answers: map<int, string>)
    requires Linked(pqs, questions)
    requires forall k :: 0 <= k < |pqs| ==> Correct(answers, questions[pqs[k].questionId])
    ensures Score(pqs, questions, answers) == MaxScore(pqs)
  {
    if |pqs| > 0 {
      AllCorrectScoresFull(pqs[1..], questions, answers);
    }
  }

  /** Answers to questions that are not on the paper change nothing. */
  lemma {:induction false} ScoreIgnoresOtherAnswers(pqs: seq<PaperQuestion>, questions: map<int, Question>,
                                                     answers: map<int, string>, id: int, text: string)
    requires Linked(pqs, questions)
    requires forall k :: 0 <= k < |pqs| ==> questions[pqs[k].questionId].id != id
    ensures Score(pqs, questions, answers[id := text]) == Score(pqs, questions, answers)
  {
    if |pqs| > 0 {
      ScoreIgnoresOtherAnswers(pqs[1..], questions, answers, id, text);
    }
  }

  // ---------------------------------------------------------------
  // submitExam
  // ---------------------------------------------------------------

  /** The result row submitExam saves: student, paper, score, timestamps now, the serialised answers. */
  function Submitted(req: SubmitRequest, id: int, score: int, now: int, blob: Option<string>): (r: ExamResult)
    ensures r.id == id && r.studentId == Some(req.studentId) && r.paperId == Some(req.paperId)
    ensures r.score == score && r.createTime == Some(now) && r.updateTime == Some(now)
    ensures r.studentAnswers == blob
  {
    ExamResult(id, Some(req.studentId), Some(req.paperId), score, FillCreate(None, now), Some(now), blob)
  }

  /** The cluster after `save` of result `res` into replica m. */
  function SavedResult(c: Cluster, m: Replica, res: ExamResult): Cluster
  {
    c.With(m, c.At(m).(results := c.At(m).results[res.id := res]))
  }

  /**
    submitExam: paper then student must exist in MySQL; the result is graded from MySQL's
    rows and saved into the master only; Oracle and SQL Server mode then run the
    exam-result pass, whose failure propagates.
  */
  method SubmitExam(svc: SyncService, master: string, req: SubmitRequest, pqs: seq<PaperQuestion>,
                    blob: Option<string>, id: int, now: int, faults: Faults)
    returns (r: Result<ExamResult, Error>)
    requires ListsChildren(pqs, svc.mysql, req.paperId)
    requires id !in svc.Replicas().At(MasterReplica(master)).results
    modifies svc`mysql, svc`oracle, svc`sqlServer
    ensures req.paperId !in old(svc.mysql.papers) ==>
      r == Err(Raised(MissingPaperMessage)) && svc.Replicas() == old(svc.Replicas())
    ensures req.paperId in old(svc.mysql.papers) && req.studentId !in old(svc.mysql.users) ==>
      r == Err(Raised(MissingStudentMessage)) && svc.Replicas() == old(svc.Replicas())
    ensures var res := Submitted(req, id, Score(pqs, old(svc.mysql.questions), req.answers), now, blob);
      var saved := SavedResult(old(svc.Replicas()), MasterReplica(master), res);
      req.paperId in old(svc.mysql.papers) && req.studentId in old(svc.mysql.users) ==>
        && (MasterReplica(master) == MySql ==> r == Ok(res) && svc.Replicas() == saved)
        && (MasterReplica(master) != MySql ==>
              && (r.Ok? <==> ResultsNeeded(saved) !! FailingWrites(faults, ResultTable))
              && (r.Ok? ==> r.value == res && svc.Replicas() == ResultsSynced(saved, faults))
              && (r.Err? ==> r.error.SyncFailed? && StoppedOn(r.error.failure, faults, ResultTable, ResultsNeeded(saved)))
              && (r.Err? ==> exists w :: w <= ResultsNeeded(saved) && w !! FailingWrites(faults, ResultTable)
                                         && svc.Replicas() == ResultsAfter(saved, w)))
  {
    if req.paperId !in svc.mysql.papers {
      return Err(Raised(MissingPaperMessage));
    }
    if req.studentId !in svc.mysql.users {
      return Err(Raised(MissingStudentMessage));
    }
    var score := Grade(pqs, svc.mysql.questions, req.answers);
    var res := Submitted(req, id, score, now, blob);
    var m := MasterReplica(master);
    var db := svc.Replicas().At(m);
    svc.SetDb(m, db.(results := db.results[id := res]));
    if m == MySql {
      return Ok(res);
    }
    var failure := svc.SyncResults(faults);
    r := if failure.Some? then Err(SyncFailed(failure.value)) else Ok(res);
  }

  // ---------------------------------------------------------------
  // getExamResultDetail
  // ---------------------------------------------------------------

  /** The examResult / paperInfo / questions map. */
  datatype ResultDetail = ResultDetail(examResult: ExamResult, paperInfo: Paper, questions: seq<QuestionItem>)

  /**
    The answer shown for a question: the decoded map's entry, or "" (the string-key
    fallback looks a string up in a map keyed by numbers, so it never finds one).
  */
  function ShownAnswer(decoded: map<int, string>, q: Question): string
  {
    if q.id in decoded then decoded[q.id] else ""
  }

  /** One item after marking: the shown answer, and whether it equals the correct one ignoring case. */
  function Marked(item: QuestionItem, decoded: map<int, string>): (m: QuestionItem)
    ensures m.question == item.question && m.score == item.score
    ensures m.studentAnswer == Some(ShownAnswer(decoded, item.question))
    ensures m.isCorrect == Some(item.question.answer.Some? && EqualsIgnoreCase(ShownAnswer(decoded, item.question), item.question.answer.value))
  {
    var shown := ShownAnswer(decoded, item.question);
    item.(studentAnswer := Some(shown), isCorrect := Some(item.question.answer.Some? && EqualsIgnoreCase(shown, item.question.answer.value)))
  }

  /** The marking loop. */
  method MarkAll(items: seq<QuestionItem>, decoded: map<int, string>) returns (marked: seq<QuestionItem>)
    ensures |marked| == |items|
    ensures forall k :: 0 <= k < |items| ==> marked[k] == Marked(items[k], decoded)
  {
    marked := [];
    for i := 0 to |items|
      invariant |marked| == i
      invariant forall k :: 0 <= k < i ==> marked[k] == Marked(items[k], decoded)
    {
      marked := marked + [Marked(items[i], decoded)];
    }
  }

  /**
    getExamResultDetail: MySQL's result, the detail of its paper, and each question
    marked against the decoded answers. `decoded` is empty when the stored blob is null
    or empty.
  */
  method ExamResultDetail(db: Db, resultId: int, pqs: seq<PaperQuestion>, decoded: map<int, string>)
    returns (r: Result<ResultDetail, Error>)
    requires resultId in db.results && db.results[resultId].paperId.Some? ==>
      ListsChildren(pqs, db, db.results[resultId].paperId.value)
    requires resultId in db.results && (db.results[resultId].studentAnswers.None? || db.results[resultId].studentAnswers == Some("")) ==>
      decoded == map[]
    ensures resultId !in db.results ==> r == Err(Raised(MissingResultMessage))
    ensures resultId in db.results && db.results[resultId].paperId.None? ==> r == Err(NullDereference)
    ensures resultId in db.results && db.results[resultId].paperId.Some? ==>
      var res := db.results[resultId];
      var detail := GetPaperDetail(db, res.paperId.value, pqs);
      && (detail.Err? ==> r == Err(detail.error))
      && (detail.Ok? ==>
            && r.Ok? && r.value.examResult == res && r.value.paperInfo == detail.value.paperInfo
            && |r.value.questions| == |detail.value.questionList|
            && forall k :: 0 <= k < |r.value.questions| ==> r.value.questions[k] == Marked(detail.value.questionList[k], decoded))
  {
    if resultId !in db.results {
      return Err(Raised(MissingResultMessage));
    }
    var res := db.results[resultId];
    if res.paperId.None? {
      return Err(NullDereference);
    }
    var detail := GetPaperDetail(db, res.paperId.value, pqs);
    if detail.Err? {
      return Err(detail.error);
    }
    var marked := MarkAll(detail.value.questionList, decoded);
    r := Ok(ResultDetail(res, detail.value.paperInfo, marked));
  }

  /**
    Marking and grading agree, except on one input: an unanswered question whose stored
    correct answer is "" is shown correct (the shown answer "" equals it) but earns
    nothing when graded.
  */
  lemma MarkingAgreesWithGrading(item: QuestionItem, answers: map<int, string>)
    ensures Marked(item, answers).isCorrect == Some(
      Correct(answers, item.question) || (item.question.id !in answers && item.question.answer == Some("")))
  {
  }

  /** The score of the items the detail view marks correct. */
  function MarkedScore(items: seq<QuestionItem>): int
  {
    if |items| == 0 then 0
    else (if items[0].isCorrect == Some(true) then items[0].score else 0) + MarkedScore(items[1..])
  }

  /**
    When the detail view decodes the answers that were graded and no question's correct
    answer is "", the questions it marks correct add up to the graded score.
  */
  lemma {:induction false} DetailScoreMatchesGrade(items: seq<QuestionItem>, pqs: seq<PaperQuestion>,
                                                    questions: map<int, Question>, answers: map<int, string>)
    requires Linked(pqs, questions) && |items| == |pqs|
    requires forall k :: 0 <= k < |pqs| ==> items[k].question == questions[pqs[k].questionId] && items[k].score == pqs[k].score
    requires forall k :: 0 <= k < |pqs| ==> questions[pqs[k].questionId].answer != Some("")
    ensures MarkedScore(seq(|items|, k requires 0 <= k < |items| => Marked(items[k], answers))) == Score(pqs, questions, answers)
  {
    var marked := seq(|items|, k requires 0 <= k < |items| => Marked(items[k], answers));
    if |items| > 0 {
      DetailScoreMatchesGrade(items[1..], pqs[1..], questions, answers);
      var rest := seq(|items[1..]|, k requires 0 <= k < |items[1..]| => Marked(items[1..][k], answers));
      assert marked[1..] == rest;
      MarkingAgreesWithGrading(items[0], answers);
    }
  }
}
