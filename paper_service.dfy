/**
  Paper assembly and the paper detail view. createPaper looks the teacher up in the
  current master, draws questions of five types from the master's question bank (each
  type shuffled and cut to the requested count), prices every drawn question at 10
  points, saves the paper and its paper_question rows into the master and runs the
  paper pass.

  The shuffle is an arbitrary choice: the draw picks any of the type's questions not
  drawn yet, one at a time.
*/
module PaperService {
  import opened Wrappers
  import opened Entities
  import opened Text
  import opened Routing
  import opened Engine
  import opened Sweeps
  import Tables
  import Reconcile

  // ---------------------------------------------------------------
  // getPaperDetail
  // ---------------------------------------------------------------

  /**
    `pqs` is what findByPaperId returns: every paper_question row of the paper, each
    once, and the question each points to exists (the foreign key holds).
  */
  predicate ListsChildren(pqs: seq<PaperQuestion>, db: Db, paperId: int)
  {
    && (forall k :: 0 <= k < |pqs| ==> pqs[k] in db.paperQuestions && pqs[k].paperId == paperId && pqs[k].questionId in db.questions)
    && (forall i, j :: 0 <= i < j < |pqs| ==> pqs[i] != pqs[j])
    && (forall x :: x in db.paperQuestions && x.paperId == paperId ==> x in pqs)
  }

  /** One entry of the question list: the question and its score, later marked by the exam detail view. */
  datatype QuestionItem = QuestionItem(question: Question, score: int, studentAnswer: Option<string>, isCorrect: Option<bool>)

  /** The paperInfo / questionList map. */
  datatype PaperDetail = PaperDetail(paperInfo: Paper, questionList: seq<QuestionItem>)

  const MissingPaperMessage: string := "试卷不存在"

  /** getPaperDetail: MySQL's paper and one entry per paper_question row, in listing order. */
  function GetPaperDetail(db: Db, paperId: int, pqs: seq<PaperQuestion>): (r: Result<PaperDetail, Error>)
    requires ListsChildren(pqs, db, paperId)
    ensures r.Err? <==> paperId !in db.papers
    ensures r.Err? ==> r.error == Raised(MissingPaperMessage)
    ensures r.Ok? ==> r.value.paperInfo == db.papers[paperId] && |r.value.questionList| == |pqs|
    ensures r.Ok? ==> forall k :: 0 <= k < |pqs| ==>
      r.value.questionList[k] == QuestionItem(db.questions[pqs[k].questionId], pqs[k].score, None, None)
  {
    if paperId !in db.papers then Err(Raised(MissingPaperMessage))
    else
      Ok(PaperDetail(db.papers[paperId],
                     seq(|pqs|, k requires 0 <= k < |pqs| => QuestionItem(db.questions[pqs[k].questionId], pqs[k].score, None, None))))
  }

  /** The detail lists every paper_question row of the paper, with its question and its score. */
  lemma DetailListsEveryChild(db: Db, paperId: int, pqs: seq<PaperQuestion>, x: PaperQuestion)
    requires ListsChildren(pqs, db, paperId) && paperId in db.papers
    requires x in Tables.ChildrenOf(db.paperQuestions, paperId)
    ensures x.questionId in db.questions
    ensures var items := GetPaperDetail(db, paperId, pqs).value.questionList;
      exists k :: (0 <= k < |items| && items[k].question == db.questions[x.questionId] && items[k].score == x.score)
  {
    assert x in pqs;
    var k :| 0 <= k < |pqs| && pqs[k] == x;
    assert GetPaperDetail(db, paperId, pqs).value.questionList[k].question == db.questions[x.questionId];
  }

  // ---------------------------------------------------------------
  // getRandomQuestions
  // ---------------------------------------------------------------

  /** The five question types, in the order createPaper draws them. */
  const QuestionTypes: seq<string> := ["单选", "多选", "判断", "填空", "简答"]

  const ScorePerQuestion: int := 10

  /** The ids of the bank's questions whose type is exactly `qtype`. */
  function OfType(pool: map<int, Question>, qtype: string): (ids: set<int>)
    ensures forall k :: k in ids <==> k in pool && pool[k].qtype == Some(qtype)
  {
    set k | k in pool && pool[k].qtype == Some(qtype)
  }

  function Min(a: int, b: int): int
  {
    if a < b then a else b
  }

  predicate Distinct(s: seq<int>)
  {
    forall i, j :: 0 <= i < j < |s| ==> s[i] != s[j]
  }

  /** getRandomQuestions: `count` of the type's questions, or all of them when there are fewer. */
  method RandomQuestions(pool: map<int, Question>, qtype: string, count: int) returns (drawn: seq<int>)
    requires count > 0
    ensures |drawn| == Min(count, |OfType(pool, qtype)|)
    ensures forall k :: 0 <= k < |drawn| ==> drawn[k] in OfType(pool, qtype)
    ensures Distinct(drawn)
  {
    var all := OfType(pool, qtype);
    var remaining := all;
    drawn := [];
    while |drawn| < count && remaining != {}
      invariant remaining <= all
      invariant |drawn| + |remaining| == |all|
      invariant |drawn| <= count
      invariant forall k :: 0 <= k < |drawn| ==> drawn[k] in all && drawn[k] !in remaining
      invariant Distinct(drawn)
      decreases |remaining|
    {
      Reconcile.Inhabited(remaining);
      var id :| id in remaining;
      drawn := drawn + [id];
      remaining := remaining - {id};
    }
  }

  // ---------------------------------------------------------------
  // createPaper
  // ---------------------------------------------------------------

  /** PaperCreateRequest. */
  datatype CreateRequest = CreateRequest(
    paperName: Option<string>,
    teacherId: int,
    singleCount: Option<int>,
    multiCount: Option<int>,
    judgeCount: Option<int>,
    fillCount: Option<int>,
    essayCount: Option<int>)
  {
    /** The requested counts, in the order of QuestionTypes. */
    function Counts(): seq<Option<int>>
    {
      [singleCount, multiCount, judgeCount, fillCount, essayCount]
    }
  }

  /** How many questions of a type a request gets from a bank holding `available` of them. */
  function Take(count: Option<int>, available: nat): nat
  {
    if count.Some? && count.value > 0 then Min(count.value, available) else 0
  }

  /**
    The draw of each type: as many as requested and available, all of the type, none
    twice.
  */
  ghost predicate DrawnAsRequested(segments: seq<seq<int>>, pool: map<int, Question>, req: CreateRequest)
  {
    |segments| == 5
    && forall t :: 0 <= t < 5 ==>
      && |segments[t]| == Take(req.Counts()[t], |OfType(pool, QuestionTypes[t])|)
      && (forall k :: 0 <= k < |segments[t]| ==> segments[t][k] in OfType(pool, QuestionTypes[t]))
      && Distinct(segments[t])
  }

  function Flatten(segments: seq<seq<int>>): seq<int>
  {
    if |segments| == 0 then [] else segments[0] + Flatten(segments[1..])
  }

  lemma FlattenFive(a: seq<int>, b: seq<int>, c: seq<int>, d: seq<int>, e: seq<int>)
    ensures Flatten([a, b, c, d, e]) == a + b + c + d + e
  {
    var segments := [a, b, c, d, e];
    assert Flatten(segments[4..]) == e;
    assert Flatten(segments[3..]) == d + e;
    assert Flatten(segments[2..]) == c + d + e;
    assert Flatten(segments[1..]) == b + c + d + e;
  }

  /** One `if (count != null && count > 0) addAll(getRandomQuestions(...))`. */
  method DrawType(pool: map<int, Question>, qtype: string, count: Option<int>) returns (drawn: seq<int>)
    ensures |drawn| == Take(count, |OfType(pool, qtype)|)
    ensures forall k :: 0 <= k < |drawn| ==> drawn[k] in OfType(pool, qtype)
    ensures Distinct(drawn)
  {
    drawn := [];
    if count.Some? && count.value > 0 {
      drawn := RandomQuestions(pool, qtype, count.value);
    }
  }

  /** The five draws, in type order. */
  method DrawAll(pool: map<int, Question>, req: CreateRequest) returns (drawn: seq<int>, ghost segments: seq<seq<int>>)
    ensures DrawnAsRequested(segments, pool, req) && drawn == Flatten(segments)
    ensures Distinct(drawn)
    ensures forall k :: 0 <= k < |drawn| ==> drawn[k] in pool
  {
    var single := DrawType(pool, QuestionTypes[0], req.singleCount);
    var multi := DrawType(pool, QuestionTypes[1], req.multiCount);
    var judge := DrawType(pool, QuestionTypes[2], req.judgeCount);
    var fill := DrawType(pool, QuestionTypes[3], req.fillCount);
    var essay := DrawType(pool, QuestionTypes[4], req.essayCount);
    drawn := single + multi + judge + fill + essay;
    segments := [single, multi, judge, fill, essay];
    FlattenFive(single, multi, judge, fill, essay);
    DrawIsDistinct(segments, pool, req);
  }

  /** Segments whose elements have pairwise different types. */
  ghost predicate TypedSegments(segments: seq<seq<int>>, pool: map<int, Question>, types: seq<string>)
  {
    && |segments| == |types|
    && (forall t :: 0 <= t < |segments| ==> Distinct(segments[t]))
    && (forall t, k :: 0 <= t < |segments| && 0 <= k < |segments[t]| ==> segments[t][k] in OfType(pool, types[t]))
    && (forall s, t :: 0 <= s < t < |types| ==> types[s] != types[t])
  }

  lemma {:induction false} FlattenHasTypes(segments: seq<seq<int>>, pool: map<int, Question>, types: seq<string>, x: int)
    requires TypedSegments(segments, pool, types)
    requires x in Flatten(segments)
    ensures exists t :: 0 <= t < |segments| && x in OfType(pool, types[t])
  {
    if x in segments[0] {
      var k :| 0 <= k < |segments[0]| && segments[0][k] == x;
      assert segments[0][k] in OfType(pool, types[0]);
    } else {
      assert TypedSegments(segments[1..], pool, types[1..]);
      FlattenHasTypes(segments[1..], pool, types[1..], x);
      var t :| 0 <= t < |segments[1..]| && x in OfType(pool, types[1..][t]);
      assert x in OfType(pool, types[t + 1]);
    }
  }

  /** Questions of different types are different questions, so the whole draw has no repeats. */
  lemma {:induction false} FlattenDistinct(segments: seq<seq<int>>, pool: map<int, Question>, types: seq<string>)
    requires TypedSegments(segments, pool, types)
    ensures Distinct(Flatten(segments))
  {
    if |segments| > 0 {
      var head, rest := segments[0], Flatten(segments[1..]);
      assert TypedSegments(segments[1..], pool, types[1..]);
      FlattenDistinct(segments[1..], pool, types[1..]);
      forall i, j | 0 <= i < |head| && 0 <= j < |rest| ensures head[i] != rest[j] {
        FlattenHasTypes(segments[1..], pool, types[1..], rest[j]);
        var t :| 0 <= t < |segments[1..]| && rest[j] in OfType(pool, types[1..][t]);
        assert head[i] in OfType(pool, types[0]);
        assert types[0] != types[t + 1];
      }
      assert Flatten(segments) == head + rest;
    }
  }

  /** The number of questions in the draw: the sum of the per-type takes. */
  function Total(segments: seq<seq<int>>): nat
  {
    if |segments| == 0 then 0 else |segments[0]| + Total(segments[1..])
  }

  lemma {:induction false} FlattenLength(segments: seq<seq<int>>)
    ensures |Flatten(segments)| == Total(segments)
  {
    if |segments| > 0 {
      FlattenLength(segments[1..]);
    }
  }

  /**
    A draw made as requested has no repeats and holds, for each type, as many questions
    as were requested and are in the bank.
  */
  lemma DrawIsDistinct(segments: seq<seq<int>>, pool: map<int, Question>, req: CreateRequest)
    requires DrawnAsRequested(segments, pool, req)
    ensures Distinct(Flatten(segments))
    ensures |Flatten(segments)| == Total(segments)
    ensures forall k :: 0 <= k < |Flatten(segments)| ==> Flatten(segments)[k] in pool
  {
    assert TypedSegments(segments, pool, QuestionTypes);
    FlattenDistinct(segments, pool, QuestionTypes);
    FlattenLength(segments);
    forall k | 0 <= k < |Flatten(segments)|
      ensures Flatten(segments)[k] in pool
    {
      FlattenHasTypes(segments, pool, QuestionTypes, Flatten(segments)[k]);
    }
  }

  /** The message of a teacher id the master does not hold. */
  function TeacherMessage(master: string, teacherId: int): string
  {
    "在 [" + master + "] 中未找到 ID=" + DecimalString(teacherId) + " 的教师信息"
  }

  /** The message of a request that draws nothing. */
  function EmptyDrawMessage(master: string): string
  {
    "【" + master + "】库中未找到符合条件的题目，请检查题库或减少抽题数量！"
  }

  /** The paper row createPaper saves: 10 points per drawn question, the teacher, both timestamps now. */
  function Assembled(req: CreateRequest, id: int, questions: nat, now: int): (p: Paper)
    ensures p.id == id && p.paperName == req.paperName && p.teacherId == Some(req.teacherId)
    ensures p.totalScore == Some(ScorePerQuestion * questions)
    ensures p.createTime == Some(now) && p.updateTime == Some(now)
  {
    var p := NewPaper(id, now).(paperName := req.paperName, teacherId := Some(req.teacherId), totalScore := Some(ScorePerQuestion * questions));
    p.(createTime := FillCreate(p.createTime, now), updateTime := Some(now))
  }

  /** The paper_question rows createPaper saves: one per drawn question, each worth 10 points. */
  function ChildRows(paperId: int, drawn: seq<int>): (rows: set<PaperQuestion>)
    ensures forall x :: x in rows <==> x.paperId == paperId && x.score == ScorePerQuestion && x.questionId in drawn
  {
    set q | q in drawn :: PaperQuestion(paperId, q, ScorePerQuestion)
  }

  /** Without repeats in the draw there is one row per drawn question. */
  lemma {:induction false} ChildRowsCount(paperId: int, drawn: seq<int>)
    requires Distinct(drawn)
    ensures |ChildRows(paperId, drawn)| == |drawn|
  {
    if |drawn| > 0 {
      var init, last := drawn[..|drawn| - 1], drawn[|drawn| - 1];
      assert Distinct(init);
      ChildRowsCount(paperId, init);
      assert drawn == init + [last];
      assert last !in init;
      assert ChildRows(paperId, drawn) == ChildRows(paperId, init) + {PaperQuestion(paperId, last, ScorePerQuestion)};
    }
  }

  /** The sum of a set of rows' scores. */
  ghost function ScoreSum(rows: set<PaperQuestion>): int
  {
    if rows == {} then 0
    else
      var x :| x in rows;
      x.score + ScoreSum(rows - {x})
  }

  lemma {:induction false} ScoreSumOfEqualScores(rows: set<PaperQuestion>, score: int)
    requires forall x :: x in rows ==> x.score == score
    ensures ScoreSum(rows) == score * |rows|
    decreases |rows|
  {
    if rows != {} {
      var x :| x in rows && ScoreSum(rows) == x.score + ScoreSum(rows - {x});
      ScoreSumOfEqualScores(rows - {x}, score);
    }
  }

  /** The children's scores add up to the paper's totalScore. */
  lemma ChildScoresMakeTotal(req: CreateRequest, paperId: int, drawn: seq<int>, now: int)
    requires Distinct(drawn)
    ensures Assembled(req, paperId, |drawn|, now).totalScore == Some(ScoreSum(ChildRows(paperId, drawn)))
  {
    ChildRowsCount(paperId, drawn);
    ScoreSumOfEqualScores(ChildRows(paperId, drawn), ScorePerQuestion);
  }

  /** The cluster after the paper and its children are saved into replica m. */
  function SavedPaper(c: Cluster, m: Replica, p: Paper, children: set<PaperQuestion>): Cluster
  {
    c.With(m, c.At(m).(papers := c.At(m).papers[p.id := p], paperQuestions := c.At(m).paperQuestions + children))
  }

  /** The save loop: one paper_question row per drawn question into replica m. */
  method SaveChildren(svc: SyncService, m: Replica, paperId: int, drawn: seq<int>)
    modifies svc`mysql, svc`oracle, svc`sqlServer
    ensures svc.Replicas() == old(svc.Replicas()).With(m, old(svc.Replicas()).At(m).(
      paperQuestions := old(svc.Replicas()).At(m).paperQuestions + ChildRows(paperId, drawn)))
  {
    ghost var c := svc.Replicas();
    for i := 0 to |drawn|
      invariant svc.Replicas() == c.With(m, c.At(m).(paperQuestions := c.At(m).paperQuestions + ChildRows(paperId, drawn[..i])))
    {
      var db := svc.Replicas().At(m);
      svc.SetDb(m, db.(paperQuestions := db.paperQuestions + {PaperQuestion(paperId, drawn[i], ScorePerQuestion)}));
      assert drawn[..i + 1] == drawn[..i] + [drawn[i]];
      assert ChildRows(paperId, drawn[..i + 1]) == ChildRows(paperId, drawn[..i]) + {PaperQuestion(paperId, drawn[i], ScorePerQuestion)};
    }
    assert drawn[..|drawn|] == drawn;
  }

  /**
    createPaper: the teacher must be in the master; the draw must not be empty; the paper
    and its children go into the master only, and the paper pass follows, whose failure
    propagates.
  */
  method CreatePaper(svc: SyncService, master: string, req: CreateRequest, id: int, now: int, faults: Faults)
    returns (error: Option<Error>, drawn: seq<int>, ghost segments: seq<seq<int>>)
    modifies svc`mysql, svc`oracle, svc`sqlServer
    ensures var c := old(svc.Replicas()); var m := MasterReplica(master);
      req.teacherId !in c.At(m).users ==>
        error == Some(Raised(TeacherMessage(master, req.teacherId))) && drawn == [] && svc.Replicas() == c
    ensures var c := old(svc.Replicas()); var m := MasterReplica(master);
      req.teacherId in c.At(m).users ==> DrawnAsRequested(segments, c.At(m).questions, req) && drawn == Flatten(segments)
    ensures var c := old(svc.Replicas()); var m := MasterReplica(master);
      req.teacherId in c.At(m).users && drawn == [] ==>
        error == Some(Raised(EmptyDrawMessage(master))) && svc.Replicas() == c
    ensures var c := old(svc.Replicas()); var m := MasterReplica(master);
      var saved := SavedPaper(c, m, Assembled(req, id, |drawn|, now), ChildRows(id, drawn));
      req.teacherId in c.At(m).users && drawn != [] ==>
        && (error.None? <==> PapersNeeded(saved) !! FailingWrites(faults, PaperTable))
        && (error.None? ==> svc.Replicas() == PapersSynced(saved, faults))
        && (error.Some? ==> error.value.SyncFailed? && StoppedOn(error.value.failure, faults, PaperTable, PapersNeeded(saved)))
        && (error.Some? ==> exists w :: w <= PapersNeeded(saved) && w !! FailingWrites(faults, PaperTable)
                                        && svc.Replicas() == PapersAfter(saved, w))
  {
    var m := MasterReplica(master);
    if req.teacherId !in svc.Replicas().At(m).users {
      return Some(Raised(TeacherMessage(master, req.teacherId))), [], [];
    }
    drawn, segments := DrawAll(svc.Replicas().At(m).questions, req);
    if |drawn| == 0 {
      return Some(Raised(EmptyDrawMessage(master))), drawn, segments;
    }
    var paper := Assembled(req, id, |drawn|, now);
    var db := svc.Replicas().At(m);
    svc.SetDb(m, db.(papers := db.papers[id := paper]));
    SaveChildren(svc, m, id, drawn);
    var failure := svc.SyncPapers(faults);
    error := if failure.Some? then Some(SyncFailed(failure.value)) else None;
  }
}
