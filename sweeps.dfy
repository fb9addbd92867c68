/**
  What each of the engine's four passes does to the whole cluster, stated as functions of
  the cluster before the pass: the users, questions and exam-results passes settle their
  own table; the paper pass settles the paper table and, on every replica that received a
  paper, replaces that paper's paper_question rows with the winner's.

  `faults` says which row writes throw. The functions describe the writes a pass makes
  when every needed write that does not throw is made; the user pass always ends that
  way, the other passes do when no needed write throws.
*/
module Sweeps {
  import opened Wrappers
  import opened Entities
  import Tables
  import opened Reconcile

  // ---------------------------------------------------------------
  // The four tables: update-time accessors, equality, snapshots
  // ---------------------------------------------------------------

  function UserTime(u: User): Stamp { u.updateTime }
  function QuestionTime(q: Question): Stamp { q.updateTime }
  function PaperTime(p: Paper): Stamp { p.updateTime }
  function ResultTime(e: LoadedResult): Stamp { e.row.updateTime }

  /** Lombok's generated `equals` compares every field. */
  predicate UserSame(a: User, b: User) { a == b }
  predicate QuestionSame(a: Question, b: Question) { a == b }

  /**
    An exam_result row as the repository's findAll returns it from one replica: the
    `@ManyToOne` student and paper are the rows its foreign keys name in that same replica
    (null when the key is null or names no row there).
  */
  datatype LoadedResult = LoadedResult(row: ExamResult, student: Option<User>, paper: Option<Paper>)

  function Load(db: Db, e: ExamResult): (l: LoadedResult)
    ensures l.row == e
  {
    LoadedResult(e,
      if e.studentId.Some? && e.studentId.value in db.users then Some(db.users[e.studentId.value]) else None,
      if e.paperId.Some? && e.paperId.value in db.papers then Some(db.papers[e.paperId.value]) else None)
  }

  /** A replica's exam_result table as loaded entities. */
  function Loaded(db: Db): (t: map<int, LoadedResult>)
    ensures t.Keys == db.results.Keys
    ensures forall id :: id in t ==> t[id] == Load(db, db.results[id])
  {
    map id | id in db.results :: Load(db, db.results[id])
  }

  /** The rows the native upserts store: the foreign-key ids of the entity written. */
  function Rows(t: map<int, LoadedResult>): (rows: map<int, ExamResult>)
    ensures rows.Keys == t.Keys
    ensures forall id :: id in rows ==> rows[id] == t[id].row
  {
    map id | id in t :: t[id].row
  }

  /** `Objects.equals` on two nullable papers, with Paper's own equals. */
  predicate PaperRefSame(a: Option<Paper>, b: Option<Paper>)
  {
    if a.None? || b.None? then a == b else PaperEquals(a.value, b.value)
  }

  /**
    Lombok's generated ExamResult.equals: the plain fields compared directly, the nested
    student by User.equals (every field) and the nested paper by Paper.equals (name and
    total score), so the foreign-key ids themselves are never compared.
  */
  predicate ResultSame(a: LoadedResult, b: LoadedResult)
  {
    && a.row.id == b.row.id && a.row.score == b.row.score && a.row.createTime == b.row.createTime
    && a.row.updateTime == b.row.updateTime && a.row.studentAnswers == b.row.studentAnswers
    && a.student == b.student && PaperRefSame(a.paper, b.paper)
  }

  /** Paper overrides `equals`: name and total score only. */
  predicate PaperSame(a: Paper, b: Paper) { PaperEquals(a, b) }

  function UserSnap(c: Cluster): Snap<User> { Snap(c.mysql.users, c.oracle.users, c.sqlServer.users) }
  function QuestionSnap(c: Cluster): Snap<Question> { Snap(c.mysql.questions, c.oracle.questions, c.sqlServer.questions) }
  function PaperSnap(c: Cluster): Snap<Paper> { Snap(c.mysql.papers, c.oracle.papers, c.sqlServer.papers) }
  function ResultSnap(c: Cluster): Snap<LoadedResult> { Snap(Loaded(c.mysql), Loaded(c.oracle), Loaded(c.sqlServer)) }

  /** The stored exam_result rows, foreign keys as ids. */
  function ResultRows(c: Cluster): Snap<ExamResult> { Snap(c.mysql.results, c.oracle.results, c.sqlServer.results) }

  function WithUsers(c: Cluster, sn: Snap<User>): (c': Cluster)
    ensures UserSnap(c') == sn
    ensures QuestionSnap(c') == QuestionSnap(c) && PaperSnap(c') == PaperSnap(c) && ResultRows(c') == ResultRows(c)
    ensures forall r :: c'.At(r).paperQuestions == c.At(r).paperQuestions
  {
    Cluster(c.mysql.(users := sn.m), c.oracle.(users := sn.o), c.sqlServer.(users := sn.s))
  }

  function WithQuestions(c: Cluster, sn: Snap<Question>): (c': Cluster)
    ensures QuestionSnap(c') == sn
    ensures UserSnap(c') == UserSnap(c) && PaperSnap(c') == PaperSnap(c) && ResultRows(c') == ResultRows(c)
    ensures forall r :: c'.At(r).paperQuestions == c.At(r).paperQuestions
  {
    Cluster(c.mysql.(questions := sn.m), c.oracle.(questions := sn.o), c.sqlServer.(questions := sn.s))
  }

  function WithPapers(c: Cluster, sn: Snap<Paper>): (c': Cluster)
    ensures PaperSnap(c') == sn
    ensures UserSnap(c') == UserSnap(c) && QuestionSnap(c') == QuestionSnap(c) && ResultRows(c') == ResultRows(c)
    ensures forall r :: c'.At(r).paperQuestions == c.At(r).paperQuestions
  {
    Cluster(c.mysql.(papers := sn.m), c.oracle.(papers := sn.o), c.sqlServer.(papers := sn.s))
  }

  /** Stores the entities of `sn` as exam_result rows; the other tables stay. */
  function WithResults(c: Cluster, sn: Snap<LoadedResult>): (c': Cluster)
    ensures c'.mysql.results == Rows(sn.m) && c'.oracle.results == Rows(sn.o) && c'.sqlServer.results == Rows(sn.s)
    ensures UserSnap(c') == UserSnap(c) && QuestionSnap(c') == QuestionSnap(c) && PaperSnap(c') == PaperSnap(c)
    ensures forall r :: c'.At(r).paperQuestions == c.At(r).paperQuestions
  {
    Cluster(c.mysql.(results := Rows(sn.m)), c.oracle.(results := Rows(sn.o)), c.sqlServer.(results := Rows(sn.s)))
  }

  /** The writes a pass makes when the needed writes listed in `failing` throw and the others succeed. */
  function Made<T>(sn: Snap<T>, ch: map<int, Replica>, same: (T, T) -> bool, failing: set<(Replica, int)>): (w: set<(Replica, int)>)
    requires Chooses(sn, ch)
    ensures w == Needed(sn, ch, same) - failing
    ensures forall p :: p in w ==> p.1 in ch
  {
    Needed(sn, ch, same) - failing
  }

  lemma NoFaultsNoFailingWrites(table: Table)
    ensures FailingWrites(map[], table) == {}
  {
  }

  /** The writes each table's pass needs: one per replica whose copy of an id is missing or differs from the winner. */
  function UsersNeeded(c: Cluster): (n: set<(Replica, int)>)
    ensures forall p :: p in n ==> p.1 in UserSnap(c).Ids()
  {
    var sn := UserSnap(c);
    Needed(sn, Winners(sn, UserTime), UserSame)
  }

  function QuestionsNeeded(c: Cluster): (n: set<(Replica, int)>)
    ensures forall p :: p in n ==> p.1 in QuestionSnap(c).Ids()
  {
    var sn := QuestionSnap(c);
    Needed(sn, Winners(sn, QuestionTime), QuestionSame)
  }

  function PapersNeeded(c: Cluster): (n: set<(Replica, int)>)
    ensures forall p :: p in n ==> p.1 in PaperSnap(c).Ids()
  {
    var sn := PaperSnap(c);
    Needed(sn, Winners(sn, PaperTime), PaperSame)
  }

  function ResultsNeeded(c: Cluster): (n: set<(Replica, int)>)
    ensures forall p :: p in n ==> p.1 in ResultSnap(c).Ids()
  {
    var sn := ResultSnap(c);
    Needed(sn, Winners(sn, ResultTime), ResultSame)
  }

  // ---------------------------------------------------------------
  // The users, questions and exam-results passes
  // ---------------------------------------------------------------

  /** The cluster once the user pass has made the writes `w`. */
  function UsersAfter(c: Cluster, w: set<(Replica, int)>): Cluster
    requires forall p :: p in w ==> p.1 in UserSnap(c).Ids()
  {
    var sn := UserSnap(c);
    WithUsers(c, After(sn, Winners(sn, UserTime), w))
  }

  /** syncUsersBidirectional: every needed write is made, except those that throw, which are skipped. */
  function UsersSynced(c: Cluster, faults: Faults): Cluster
  {
    var sn := UserSnap(c);
    UsersAfter(c, Made(sn, Winners(sn, UserTime), UserSame, FailingWrites(faults, UserTable)))
  }

  function QuestionsAfter(c: Cluster, w: set<(Replica, int)>): Cluster
    requires forall p :: p in w ==> p.1 in QuestionSnap(c).Ids()
  {
    var sn := QuestionSnap(c);
    WithQuestions(c, After(sn, Winners(sn, QuestionTime), w))
  }

  function QuestionsSynced(c: Cluster, faults: Faults): Cluster
  {
    var sn := QuestionSnap(c);
    QuestionsAfter(c, Made(sn, Winners(sn, QuestionTime), QuestionSame, FailingWrites(faults, QuestionTable)))
  }

  function ResultsAfter(c: Cluster, w: set<(Replica, int)>): Cluster
    requires forall p :: p in w ==> p.1 in ResultSnap(c).Ids()
  {
    var sn := ResultSnap(c);
    WithResults(c, After(sn, Winners(sn, ResultTime), w))
  }

  function ResultsSynced(c: Cluster, faults: Faults): Cluster
  {
    var sn := ResultSnap(c);
    ResultsAfter(c, Made(sn, Winners(sn, ResultTime), ResultSame, FailingWrites(faults, ResultTable)))
  }

  // ---------------------------------------------------------------
  // The paper pass and the paper_question rows
  // ---------------------------------------------------------------

  function AllChildren(c: Cluster): set<PaperQuestion>
  {
    c.mysql.paperQuestions + c.oracle.paperQuestions + c.sqlServer.paperQuestions
  }

  lemma ChildIsSomewhere(c: Cluster, r: Replica, x: PaperQuestion)
    requires x in c.At(r).paperQuestions
    ensures x in AllChildren(c)
  {
  }

  /**
    Replica `r`'s paper_question rows once, for every paper in `ids`, its rows have been
    replaced by those of the replica its winner came from (fetchPaperQuestions followed by
    syncTo*PaperQuestions). Children of every other paper are `r`'s own.
  */
  function SyncedChildren(c: Cluster, ch: map<int, Replica>, r: Replica, ids: set<int>): (pq: set<PaperQuestion>)
    requires ids <= ch.Keys
    ensures forall x: PaperQuestion :: x in pq <==>
      if x.paperId in ids then x in c.At(ch[x.paperId]).paperQuestions else x in c.At(r).paperQuestions
  {
    var kept := set x | x in c.At(r).paperQuestions && x.paperId !in ids;
    var copied := set x | x in AllChildren(c) && x.paperId in ids && x in c.At(ch[x.paperId]).paperQuestions;
    assert forall x: PaperQuestion :: x.paperId in ids && x in c.At(ch[x.paperId]).paperQuestions ==> x in copied by {
      forall x: PaperQuestion | x.paperId in ids && x in c.At(ch[x.paperId]).paperQuestions ensures x in copied {
        ChildIsSomewhere(c, ch[x.paperId], x);
      }
    }
    kept + copied
  }

  /** Every replica's paper_question rows once the children of the papers written by `w` have been replaced. */
  function WithChildren(c: Cluster, c0: Cluster, ch: map<int, Replica>, w: set<(Replica, int)>): (c': Cluster)
    requires forall p :: p in w ==> p.1 in ch
    ensures forall r :: c'.At(r) == c.At(r).(paperQuestions := SyncedChildren(c0, ch, r, WrittenTo(w, r)))
  {
    Cluster(c.mysql.(paperQuestions := SyncedChildren(c0, ch, MySql, WrittenTo(w, MySql))),
            c.oracle.(paperQuestions := SyncedChildren(c0, ch, Oracle, WrittenTo(w, Oracle))),
            c.sqlServer.(paperQuestions := SyncedChildren(c0, ch, SqlServer, WrittenTo(w, SqlServer))))
  }

  /** The cluster once the paper pass has made the writes `w`, each a paper upsert followed by its children. */
  function PapersAfter(c: Cluster, w: set<(Replica, int)>): Cluster
    requires forall p :: p in w ==> p.1 in PaperSnap(c).Ids()
  {
    var sn := PaperSnap(c);
    var ch := Winners(sn, PaperTime);
    WithChildren(WithPapers(c, After(sn, ch, w)), c, ch, w)
  }

  function PapersSynced(c: Cluster, faults: Faults): Cluster
  {
    var sn := PaperSnap(c);
    PapersAfter(c, Made(sn, Winners(sn, PaperTime), PaperSame, FailingWrites(faults, PaperTable)))
  }

  /**
    On a replica that received paper `id`, the paper's children become exactly those of
    the replica the winner came from; on a replica that did not, they stay as they were.
    Children of other papers are untouched either way.
  */
  lemma PaperChildrenFollowWinner(c: Cluster, w: set<(Replica, int)>, r: Replica, id: int)
    requires forall p :: p in w ==> p.1 in PaperSnap(c).Ids()
    ensures var ch := Winners(PaperSnap(c), PaperTime);
      Tables.ChildrenOf(PapersAfter(c, w).At(r).paperQuestions, id)
        == if (r, id) in w then Tables.ChildrenOf(c.At(ch[id]).paperQuestions, id)
           else Tables.ChildrenOf(c.At(r).paperQuestions, id)
  {
    var ch := Winners(PaperSnap(c), PaperTime);
    var pq := PapersAfter(c, w).At(r).paperQuestions;
    assert pq == SyncedChildren(c, ch, r, WrittenTo(w, r));
    SyncedChildrenOf(c, ch, r, WrittenTo(w, r), id);
  }

  /** One paper's children after the replacement: the chosen replica's when the paper was written, else the replica's own. */
  lemma SyncedChildrenOf(c: Cluster, ch: map<int, Replica>, r: Replica, ids: set<int>, id: int)
    requires ids <= ch.Keys
    ensures Tables.ChildrenOf(SyncedChildren(c, ch, r, ids), id)
      == if id in ids then Tables.ChildrenOf(c.At(ch[id]).paperQuestions, id)
         else Tables.ChildrenOf(c.At(r).paperQuestions, id)
  {
    var got := Tables.ChildrenOf(SyncedChildren(c, ch, r, ids), id);
    var src := if id in ids then c.At(ch[id]).paperQuestions else c.At(r).paperQuestions;
    forall x: PaperQuestion ensures x in got <==> x in Tables.ChildrenOf(src, id) {
    }
  }

  /**
    The children a pass copies are read from the replica the winner came from, and that
    replica never receives the winner back: so reading them before or after the id's
    other writes gives the same rows.
  */
  lemma WinnerChildrenStayPut(c: Cluster, faults: Faults, id: int)
    requires id in PaperSnap(c).Ids()
    ensures var sn := PaperSnap(c); var ch := Winners(sn, PaperTime);
      (ch[id], id) !in Made(sn, ch, PaperSame, FailingWrites(faults, PaperTable))
  {
    var sn := PaperSnap(c);
    var ch := Winners(sn, PaperTime);
    forall a: Paper ensures PaperSame(a, a) {
      PaperEqualsReflexive(a);
    }
    WinnerReplicaNotNeeded(sn, ch, PaperSame, id);
  }

  // ---------------------------------------------------------------
  // A sweep: users, questions, papers, exam results
  // ---------------------------------------------------------------

  /** scheduledSync / executeImmediateSync when no pass stops on a failing write. */
  function Sweep(c: Cluster, faults: Faults): Cluster
  {
    ResultsSynced(PapersSynced(QuestionsSynced(UsersSynced(c, faults), faults), faults), faults)
  }

  /** A table is settled when a pass over it would write nothing. */
  predicate UsersSettled(c: Cluster)
  {
    var sn := UserSnap(c);
    Needed(sn, Winners(sn, UserTime), UserSame) == {}
  }

  predicate QuestionsSettled(c: Cluster)
  {
    var sn := QuestionSnap(c);
    Needed(sn, Winners(sn, QuestionTime), QuestionSame) == {}
  }

  predicate PapersSettled(c: Cluster)
  {
    var sn := PaperSnap(c);
    Needed(sn, Winners(sn, PaperTime), PaperSame) == {}
  }

  predicate ResultsSettled(c: Cluster)
  {
    var sn := ResultSnap(c);
    Needed(sn, Winners(sn, ResultTime), ResultSame) == {}
  }

  /** With no faults, a pass makes every needed write. */
  lemma MadeWithoutFaults<T>(sn: Snap<T>, ch: map<int, Replica>, same: (T, T) -> bool, table: Table)
    requires Chooses(sn, ch)
    ensures Made(sn, ch, same, FailingWrites(map[], table)) == Needed(sn, ch, same)
  {
    NoFaultsNoFailingWrites(table);
  }

  /** A pass over a table that needs no write leaves it as it was. */
  lemma MadeNothing<T>(sn: Snap<T>, ch: map<int, Replica>, same: (T, T) -> bool, failing: set<(Replica, int)>)
    requires Chooses(sn, ch) && Needed(sn, ch, same) == {}
    ensures After(sn, ch, Made(sn, ch, same, failing)) == sn
  {
    assert Made(sn, ch, same, failing) == {};
    AfterNothing(sn, ch);
  }

  lemma WithOwnUsers(c: Cluster) ensures WithUsers(c, UserSnap(c)) == c {}
  lemma WithOwnQuestions(c: Cluster) ensures WithQuestions(c, QuestionSnap(c)) == c {}
  lemma WithOwnPapers(c: Cluster) ensures WithPapers(c, PaperSnap(c)) == c {}
  lemma WithOwnResults(c: Cluster)
    ensures WithResults(c, ResultSnap(c)) == c
  {
    var c' := WithResults(c, ResultSnap(c));
    assert c'.mysql.results == c.mysql.results;
    assert c'.oracle.results == c.oracle.results;
    assert c'.sqlServer.results == c.sqlServer.results;
  }

  /** A fault-free user pass settles the user table. */
  lemma UsersSyncedSettles(c: Cluster)
    ensures UsersSettled(UsersSynced(c, map[]))
  {
    var sn := UserSnap(c);
    var ch := Winners(sn, UserTime);
    MadeWithoutFaults(sn, ch, UserSame, UserTable);
    var u := UsersSynced(c, map[]);
    assert u == WithUsers(c, Completed(sn, ch, UserSame));
    assert UserSnap(u) == Completed(sn, ch, UserSame);
    SecondPassWritesNothing(sn, ch, UserSame, Winners(UserSnap(u), UserTime));
  }

  lemma QuestionsSyncedSettles(c: Cluster)
    ensures QuestionsSettled(QuestionsSynced(c, map[]))
  {
    var sn := QuestionSnap(c);
    var ch := Winners(sn, QuestionTime);
    MadeWithoutFaults(sn, ch, QuestionSame, QuestionTable);
    var q := QuestionsSynced(c, map[]);
    assert q == WithQuestions(c, Completed(sn, ch, QuestionSame));
    assert QuestionSnap(q) == Completed(sn, ch, QuestionSame);
    SecondPassWritesNothing(sn, ch, QuestionSame, Winners(QuestionSnap(q), QuestionTime));
  }

  /**
    A fault-free exam-result pass settles the result table when the replicas agree on the
    rows a result's foreign keys load (the same users, papers equal by Paper.equals): the
    row written into a replica then loads there as an entity equal to the winner.
  */
  lemma ResultsSyncedSettles(c: Cluster)
    requires ContextAgrees(c)
    ensures ResultsSettled(ResultsSynced(c, map[]))
  {
    var sn2 := ResultSnap(ResultsSynced(c, map[]));
    var ch2 := Winners(sn2, ResultTime);
    if Needed(sn2, ch2, ResultSame) != {} {
      var p :| p in Needed(sn2, ch2, ResultSame);
      ResultNotNeededAgain(c, p.0, p.1);
    }
  }

  /** No replica needs a result id again after a fault-free pass over agreeing replicas. */
  lemma ResultNotNeededAgain(c: Cluster, r: Replica, id: int)
    requires ContextAgrees(c)
    ensures var sn2 := ResultSnap(ResultsSynced(c, map[]));
      (r, id) !in Needed(sn2, Winners(sn2, ResultTime), ResultSame)
  {
    var sn := ResultSnap(c);
    var ch := Winners(sn, ResultTime);
    var sn2 := ResultSnap(ResultsSynced(c, map[]));
    var ch2 := Winners(sn2, ResultTime);
    if id in ch2 {
      ResultIdsKept(c);
      ReloadedAgrees(c, r, id);
      ReloadedAgrees(c, ch2[id], id);
      ResultsMeet(sn2.At(r)[id], sn2.At(ch2[id])[id], WinnerRow(sn, ch, id));
      NotNeededWhenSame(sn2, ch2, ResultSame, r, id);
    }
  }

  /** Two entities equal to a third are equal to each other. */
  lemma ResultsMeet(a: LoadedResult, b: LoadedResult, w: LoadedResult)
    requires ResultSame(a, w) && ResultSame(b, w)
    ensures ResultSame(a, b)
  {
    if a.paper.Some? && b.paper.Some? && w.paper.Some? {
      PaperEqualsSymmetric(b.paper.value, w.paper.value);
      PaperEqualsTransitive(a.paper.value, w.paper.value, b.paper.value);
    }
  }

  /** The ids of the result table survive a fault-free pass. */
  lemma ResultIdsKept(c: Cluster)
    ensures ResultSnap(ResultsSynced(c, map[])).Ids() == ResultSnap(c).Ids()
  {
    ResultsEverywhere(c, MySql);
    ResultsEverywhere(c, Oracle);
    ResultsEverywhere(c, SqlServer);
  }

  /** ResultsConverge, read through the snapshot a second pass takes. */
  lemma ReloadedAgrees(c: Cluster, r: Replica, id: int)
    requires ContextAgrees(c)
    requires id in ResultSnap(c).Ids()
    ensures var sn := ResultSnap(c); var sn2 := ResultSnap(ResultsSynced(c, map[]));
      id in sn2.At(r) && ResultSame(sn2.At(r)[id], WinnerRow(sn, Winners(sn, ResultTime), id))
  {
    var e := ResultsSynced(c, map[]);
    ResultsConverge(c, r, id);
    ReloadedAt(e, r);
  }

  /**
    A fault-free exam-result pass stores the completed snapshot's rows and leaves the rows
    a result loads untouched.
  */
  lemma ResultsSyncedIsCompleted(c: Cluster, r: Replica)
    ensures var sn := ResultSnap(c); var e := ResultsSynced(c, map[]);
      && e.At(r).results == Rows(Completed(sn, Winners(sn, ResultTime), ResultSame).At(r))
      && e.At(r).users == c.At(r).users && e.At(r).papers == c.At(r).papers
  {
    var sn := ResultSnap(c);
    var ch := Winners(sn, ResultTime);
    MadeWithoutFaults(sn, ch, ResultSame, ResultTable);
    var out := Completed(sn, ch, ResultSame);
    assert ResultsSynced(c, map[]) == WithResults(c, out);
    WithResultsAt(c, out, r);
  }

  /** A replica's loaded result table in the snapshot. */
  lemma ReloadedAt(c: Cluster, r: Replica)
    ensures ResultSnap(c).At(r) == Loaded(c.At(r))
  {
  }

  lemma WithResultsAt(c: Cluster, sn: Snap<LoadedResult>, r: Replica)
    ensures WithResults(c, sn).At(r) == c.At(r).(results := Rows(sn.At(r)))
  {
  }

  lemma ResultSameReflexive()
    ensures forall a: LoadedResult :: ResultSame(a, a)
  {
    forall a: LoadedResult ensures ResultSame(a, a) {
      if a.paper.Some? {
        PaperEqualsReflexive(a.paper.value);
      }
    }
  }

  /** ExamResult.equals is an equivalence relation. */
  lemma ResultSameIsEquivalence()
    ensures forall a: LoadedResult :: ResultSame(a, a)
    ensures forall a: LoadedResult, b: LoadedResult :: ResultSame(a, b) ==> ResultSame(b, a)
    ensures forall a: LoadedResult, b: LoadedResult, d: LoadedResult :: ResultSame(a, b) && ResultSame(b, d) ==> ResultSame(a, d)
  {
    forall a: LoadedResult ensures ResultSame(a, a) {
      if a.paper.Some? {
        PaperEqualsReflexive(a.paper.value);
      }
    }
    forall a: LoadedResult, b: LoadedResult, d: LoadedResult | ResultSame(a, b) && ResultSame(b, d) ensures ResultSame(a, d) {
      if a.paper.Some? && b.paper.Some? && d.paper.Some? {
        PaperEqualsTransitive(a.paper.value, b.paper.value, d.paper.value);
      }
    }
  }

  /**
    Two replicas agree on what a result's foreign keys load: the same sys_user rows, and
    under every paper id papers equal by Paper.equals.
  */
  predicate RefsAgree(a: Db, b: Db)
  {
    && a.users == b.users
    && a.papers.Keys == b.papers.Keys
    && forall k :: k in a.papers && k in b.papers ==> PaperEquals(a.papers[k], b.papers[k])
  }

  /** All three replicas agree on the rows results refer to. */
  predicate ContextAgrees(c: Cluster)
  {
    RefsAgree(c.mysql, c.oracle) && RefsAgree(c.mysql, c.sqlServer)
  }

  lemma ContextAgreesAt(c: Cluster, r1: Replica, r2: Replica)
    requires ContextAgrees(c)
    ensures RefsAgree(c.At(r1), c.At(r2))
  {
    var a, b := c.At(r1), c.At(r2);
    forall k | k in a.papers && k in b.papers ensures PaperEquals(a.papers[k], b.papers[k]) {
      var m := c.mysql.papers[k];
      PaperEqualsSymmetric(m, a.papers[k]);
      PaperEqualsTransitive(a.papers[k], m, b.papers[k]);
    }
  }

  /** A row loads the same way in two replicas with the same users and papers. */
  lemma LoadSameRefs(a: Db, b: Db, e: ExamResult)
    requires a.users == b.users && a.papers == b.papers
    ensures Load(a, e) == Load(b, e)
  {
  }

  /** In replicas that agree on the referenced rows, one stored row loads as equal entities. */
  lemma LoadAgrees(a: Db, b: Db, e: ExamResult)
    requires RefsAgree(a, b)
    ensures ResultSame(Load(a, e), Load(b, e))
  {
    if e.paperId.Some? && e.paperId.value in a.papers {
      var k := e.paperId.value;
      assert k in b.papers;
      assert PaperEquals(a.papers[k], b.papers[k]);
    }
  }

  /** A fault-free exam-result pass leaves every id of the union, and no other, in every replica. */
  lemma ResultsEverywhere(c: Cluster, r: Replica)
    ensures ResultsSynced(c, map[]).At(r).results.Keys == ResultSnap(c).Ids()
  {
    var sn := ResultSnap(c);
    var ch := Winners(sn, ResultTime);
    MadeWithoutFaults(sn, ch, ResultSame, ResultTable);
    var out := Completed(sn, ch, ResultSame);
    assert ResultsSynced(c, map[]) == WithResults(c, out);
    WithResultsAt(c, out, r);
    ResultSameReflexive();
    CompletedHoldsAll(sn, ch, ResultSame, r);
  }

  /** Paper.equals is an equivalence relation. */
  lemma PaperSameIsEquivalence()
    ensures forall a: Paper :: PaperSame(a, a)
    ensures forall a: Paper, b: Paper :: PaperSame(a, b) ==> PaperSame(b, a)
    ensures forall a: Paper, b: Paper, d: Paper :: PaperSame(a, b) && PaperSame(b, d) ==> PaperSame(a, d)
  {
    forall a: Paper ensures PaperSame(a, a) {
      PaperEqualsReflexive(a);
    }
    forall a: Paper, b: Paper | PaperSame(a, b) ensures PaperSame(b, a) {
      PaperEqualsSymmetric(a, b);
    }
    forall a: Paper, b: Paper, d: Paper | PaperSame(a, b) && PaperSame(b, d) ensures PaperSame(a, d) {
      PaperEqualsTransitive(a, b, d);
    }
  }

  /** Paper.equals is an equivalence, so a fault-free paper pass settles the paper table too. */
  lemma PapersSyncedSettles(c: Cluster)
    ensures PapersSettled(PapersSynced(c, map[]))
  {
    var sn := PaperSnap(c);
    var ch := Winners(sn, PaperTime);
    MadeWithoutFaults(sn, ch, PaperSame, PaperTable);
    var p := PapersSynced(c, map[]);
    var rows := WithPapers(c, Completed(sn, ch, PaperSame));
    assert p == WithChildren(rows, c, ch, Needed(sn, ch, PaperSame));
    assert PaperSnap(p) == PaperSnap(rows);
    PaperSameIsEquivalence();
    SecondPassWritesNothing(sn, ch, PaperSame, Winners(PaperSnap(p), PaperTime));
  }

  /** A pass over a settled table changes nothing. */
  lemma SettledUsersUntouched(c: Cluster, faults: Faults)
    requires UsersSettled(c)
    ensures UsersSynced(c, faults) == c
  {
    var sn := UserSnap(c);
    MadeNothing(sn, Winners(sn, UserTime), UserSame, FailingWrites(faults, UserTable));
    WithOwnUsers(c);
  }

  lemma SettledQuestionsUntouched(c: Cluster, faults: Faults)
    requires QuestionsSettled(c)
    ensures QuestionsSynced(c, faults) == c
  {
    var sn := QuestionSnap(c);
    MadeNothing(sn, Winners(sn, QuestionTime), QuestionSame, FailingWrites(faults, QuestionTable));
    WithOwnQuestions(c);
  }

  lemma SettledResultsUntouched(c: Cluster, faults: Faults)
    requires ResultsSettled(c)
    ensures ResultsSynced(c, faults) == c
  {
    var sn := ResultSnap(c);
    MadeNothing(sn, Winners(sn, ResultTime), ResultSame, FailingWrites(faults, ResultTable));
    WithOwnResults(c);
  }

  /** With nothing written, every replica keeps its own paper_question rows. */
  lemma NoChildrenReplaced(c: Cluster, c0: Cluster, ch: map<int, Replica>)
    requires forall r :: c.At(r).paperQuestions == c0.At(r).paperQuestions
    ensures WithChildren(c, c0, ch, {}) == c
  {
    var c' := WithChildren(c, c0, ch, {});
    forall r ensures c'.At(r) == c.At(r) {
      assert WrittenTo({}, r) == {};
      assert SyncedChildren(c0, ch, r, {}) == c0.At(r).paperQuestions;
    }
    assert c'.mysql == c.At(MySql) && c'.oracle == c.At(Oracle) && c'.sqlServer == c.At(SqlServer);
  }

  /** Replacing one more written paper's children with the chosen replica's extends the replaced ids by that paper. */
  lemma ChildrenStep(c0: Cluster, ch: map<int, Replica>, r: Replica, ids: set<int>, id: int)
    requires ids <= ch.Keys && id in ch
    ensures Tables.ReplaceChildren(SyncedChildren(c0, ch, r, ids), id, Tables.ChildrenOf(c0.At(ch[id]).paperQuestions, id))
         == SyncedChildren(c0, ch, r, ids + {id})
  {
    var kids := Tables.ChildrenOf(c0.At(ch[id]).paperQuestions, id);
    Tables.ReparentedOwnChildren(kids, id);
    var a := Tables.ReplaceChildren(SyncedChildren(c0, ch, r, ids), id, kids);
    var b := SyncedChildren(c0, ch, r, ids + {id});
    forall x: PaperQuestion ensures x in a <==> x in b {
      if x.paperId == id {
        assert x in a <==> x in Tables.ChildrenOf(a, id);
      }
    }
  }

  /** The cluster-wide form of ChildrenStep: one more (replica, paper) pair replaced. */
  lemma WithChildrenStep(c: Cluster, c0: Cluster, ch: map<int, Replica>, done: set<(Replica, int)>, r: Replica, id: int)
    requires forall p :: p in done ==> p.1 in ch
    requires id in ch
    ensures var before := WithChildren(c, c0, ch, done);
      before.With(r, before.At(r).(paperQuestions := Tables.ReplaceChildren(before.At(r).paperQuestions, id,
                                                      Tables.ChildrenOf(c0.At(ch[id]).paperQuestions, id))))
        == WithChildren(c, c0, ch, done + {(r, id)})
  {
    var before := WithChildren(c, c0, ch, done);
    var kids := Tables.ChildrenOf(c0.At(ch[id]).paperQuestions, id);
    var lhs := before.With(r, before.At(r).(paperQuestions := Tables.ReplaceChildren(before.At(r).paperQuestions, id, kids)));
    var rhs := WithChildren(c, c0, ch, done + {(r, id)});
    assert WrittenTo(done + {(r, id)}, r) == WrittenTo(done, r) + {id};
    ChildrenStep(c0, ch, r, WrittenTo(done, r), id);
    forall r' | r' != r ensures lhs.At(r') == rhs.At(r') {
      assert WrittenTo(done + {(r, id)}, r') == WrittenTo(done, r');
    }
    assert lhs.At(r) == rhs.At(r);
    assert lhs.mysql == rhs.At(MySql) && lhs.oracle == rhs.At(Oracle) && lhs.sqlServer == rhs.At(SqlServer);
  }

  lemma SettledPapersUntouched(c: Cluster, faults: Faults)
    requires PapersSettled(c)
    ensures PapersSynced(c, faults) == c
  {
    var sn := PaperSnap(c);
    var ch := Winners(sn, PaperTime);
    var w := Made(sn, ch, PaperSame, FailingWrites(faults, PaperTable));
    MadeNothing(sn, ch, PaperSame, FailingWrites(faults, PaperTable));
    assert w == {};
    WithOwnPapers(c);
    assert WithPapers(c, After(sn, ch, w)) == c;
    NoChildrenReplaced(c, c, ch);
  }

  /** Each pass only touches its own table (and the paper pass the paper_question rows). */
  lemma PassesKeepOtherTables(c: Cluster, faults: Faults)
    ensures UserSnap(QuestionsSynced(c, faults)) == UserSnap(c)
    ensures UserSnap(PapersSynced(c, faults)) == UserSnap(c) && QuestionSnap(PapersSynced(c, faults)) == QuestionSnap(c)
    ensures UserSnap(ResultsSynced(c, faults)) == UserSnap(c) && QuestionSnap(ResultsSynced(c, faults)) == QuestionSnap(c)
    ensures PaperSnap(ResultsSynced(c, faults)) == PaperSnap(c)
    ensures forall r :: ResultsSynced(c, faults).At(r).paperQuestions == c.At(r).paperQuestions
  {
  }

  /**
    Idempotence: once a fault-free sweep has run, a further sweep changes nothing, whatever
    writes would throw, because it needs no write at all.
  */
  lemma SweepIsIdempotent(c: Cluster, faults: Faults)
    ensures Sweep(Sweep(c, map[]), faults) == Sweep(c, map[])
  {
    var u := UsersSynced(c, map[]);
    var q := QuestionsSynced(u, map[]);
    var p := PapersSynced(q, map[]);
    var s := ResultsSynced(p, map[]);
    UsersSyncedSettles(c);
    QuestionsSyncedSettles(u);
    PapersSyncedSettles(q);
    SweptContextAgrees(c);
    ResultsSyncedSettles(p);
    PassesKeepOtherTables(u, map[]);
    PassesKeepOtherTables(q, map[]);
    PassesKeepOtherTables(p, map[]);
    assert UserSnap(s) == UserSnap(u) && QuestionSnap(s) == QuestionSnap(q) && PaperSnap(s) == PaperSnap(p);
    SettledUsersUntouched(s, faults);
    SettledQuestionsUntouched(s, faults);
    SettledPapersUntouched(s, faults);
    SettledResultsUntouched(s, faults);
  }

  /**
    Convergence of the tables compared with Lombok's equality: after a fault-free pass all
    three replicas hold exactly the winner of every id in the union.
  */
  lemma UsersConverge(c: Cluster, r: Replica)
    ensures var sn := UserSnap(c);
      UsersSynced(c, map[]).At(r).users == Merged(sn, Winners(sn, UserTime))
  {
    var sn := UserSnap(c);
    var ch := Winners(sn, UserTime);
    MadeWithoutFaults(sn, ch, UserSame, UserTable);
    assert UsersSynced(c, map[]).At(r).users == Completed(sn, ch, UserSame).At(r);
    CompletePassConverges(sn, ch, UserSame, r);
  }

  lemma QuestionsConverge(c: Cluster, r: Replica)
    ensures var sn := QuestionSnap(c);
      QuestionsSynced(c, map[]).At(r).questions == Merged(sn, Winners(sn, QuestionTime))
  {
    var sn := QuestionSnap(c);
    var ch := Winners(sn, QuestionTime);
    MadeWithoutFaults(sn, ch, QuestionSame, QuestionTable);
    assert QuestionsSynced(c, map[]).At(r).questions == Completed(sn, ch, QuestionSame).At(r);
    CompletePassConverges(sn, ch, QuestionSame, r);
  }

  /**
    Results converge up to ExamResult.equals: after a fault-free pass over replicas that
    agree on the referenced rows, every replica holds every result id, and its row loads
    there as an entity equal to the winner. The foreign-key ids need not match: a copy
    whose paper is a different paper of the same name and score is left as it is.
  */
  lemma ResultsConverge(c: Cluster, r: Replica, id: int)
    requires ContextAgrees(c)
    requires id in ResultSnap(c).Ids()
    ensures var sn := ResultSnap(c); var ch := Winners(sn, ResultTime); var e := ResultsSynced(c, map[]);
      id in e.At(r).results && ResultSame(Load(e.At(r), e.At(r).results[id]), WinnerRow(sn, ch, id))
  {
    var sn := ResultSnap(c);
    var ch := Winners(sn, ResultTime);
    var out := Completed(sn, ch, ResultSame);
    var e := ResultsSynced(c, map[]);
    ResultsSyncedIsCompleted(c, r);
    CompletedCopy(sn, ch, ResultSame, r, id);
    var x := out.At(r)[id];
    assert e.At(r).results[id] == x.row;
    LoadSameRefs(e.At(r), c.At(r), x.row);
    if x == WinnerRow(sn, ch, id) {
      ReloadedAt(c, ch[id]);
      ContextAgreesAt(c, r, ch[id]);
      LoadAgrees(c.At(r), c.At(ch[id]), x.row);
    } else {
      ReloadedAt(c, r);
    }
  }

  /**
    Papers converge only up to Paper.equals: after a fault-free pass every replica holds
    every paper id, with a copy of the same name and total score as the winner.
  */
  lemma PapersAgreeWithWinner(c: Cluster, r: Replica, id: int)
    requires id in PaperSnap(c).Ids()
    ensures var sn := PaperSnap(c); var ch := Winners(sn, PaperTime);
      id in PapersSynced(c, map[]).At(r).papers
      && PaperEquals(PapersSynced(c, map[]).At(r).papers[id], WinnerRow(sn, ch, id))
  {
    var sn := PaperSnap(c);
    var ch := Winners(sn, PaperTime);
    MadeWithoutFaults(sn, ch, PaperSame, PaperTable);
    assert PapersSynced(c, map[]).At(r).papers == Completed(sn, ch, PaperSame).At(r);
    PaperSameIsEquivalence();
    CompletedAgreesWithWinner(sn, ch, PaperSame, r, id);
  }

  /** After a fault-free paper pass every replica holds exactly the paper ids of the union. */
  lemma PapersEverywhere(c: Cluster, r: Replica)
    ensures PapersSynced(c, map[]).At(r).papers.Keys == PaperSnap(c).Ids()
  {
    var sn := PaperSnap(c);
    var ch := Winners(sn, PaperTime);
    MadeWithoutFaults(sn, ch, PaperSame, PaperTable);
    assert PapersSynced(c, map[]).At(r).papers == Completed(sn, ch, PaperSame).At(r);
    PaperSameIsEquivalence();
    CompletedHoldsAll(sn, ch, PaperSame, r);
  }

  /** After a fault-free paper pass two replicas hold the same paper ids, equal by Paper.equals. */
  lemma PapersAgree(c: Cluster, r1: Replica, r2: Replica)
    ensures var p := PapersSynced(c, map[]);
      && p.At(r1).papers.Keys == p.At(r2).papers.Keys
      && forall k :: k in p.At(r1).papers && k in p.At(r2).papers ==> PaperEquals(p.At(r1).papers[k], p.At(r2).papers[k])
  {
    var p := PapersSynced(c, map[]);
    PapersEverywhere(c, r1);
    PapersEverywhere(c, r2);
    forall k | k in p.At(r1).papers && k in p.At(r2).papers
      ensures PaperEquals(p.At(r1).papers[k], p.At(r2).papers[k])
    {
      var sn := PaperSnap(c);
      var w := WinnerRow(sn, Winners(sn, PaperTime), k);
      PapersAgreeWithWinner(c, r1, k);
      PapersAgreeWithWinner(c, r2, k);
      PaperEqualsSymmetric(p.At(r2).papers[k], w);
      PaperEqualsTransitive(p.At(r1).papers[k], w, p.At(r2).papers[k]);
    }
  }

  /**
    Fault-free user, question and paper passes leave the replicas agreeing on every row a
    result loads, so the exam-result pass that follows them settles.
  */
  lemma SweptContextAgrees(c: Cluster)
    ensures ContextAgrees(PapersSynced(QuestionsSynced(UsersSynced(c, map[]), map[]), map[]))
  {
    var q := QuestionsSynced(UsersSynced(c, map[]), map[]);
    var p := PapersSynced(q, map[]);
    SweptUsersAgree(c);
    PapersAgree(q, MySql, Oracle);
    PapersAgree(q, MySql, SqlServer);
    assert p.At(MySql) == p.mysql && p.At(Oracle) == p.oracle && p.At(SqlServer) == p.sqlServer;
  }

  /** After fault-free user, question and paper passes all three user tables are the same. */
  lemma SweptUsersAgree(c: Cluster)
    ensures var p := PapersSynced(QuestionsSynced(UsersSynced(c, map[]), map[]), map[]);
      p.mysql.users == p.oracle.users && p.mysql.users == p.sqlServer.users
  {
    var u := UsersSynced(c, map[]);
    var q := QuestionsSynced(u, map[]);
    var p := PapersSynced(q, map[]);
    UsersConverge(c, MySql);
    UsersConverge(c, Oracle);
    UsersConverge(c, SqlServer);
    PassesKeepOtherTables(u, map[]);
    PassesKeepOtherTables(q, map[]);
    assert UserSnap(p) == UserSnap(u);
  }

  // ---------------------------------------------------------------
  // Global deletes are not undone by the passes
  // ---------------------------------------------------------------

  /** A user that no replica holds is not brought back by the user pass. */
  lemma UserPassNeverResurrects(c: Cluster, faults: Faults, id: int)
    requires id !in c.mysql.users && id !in c.oracle.users && id !in c.sqlServer.users
    ensures var after := UsersSynced(c, faults);
      id !in after.mysql.users && id !in after.oracle.users && id !in after.sqlServer.users
  {
    var sn := UserSnap(c);
    var ch := Winners(sn, UserTime);
    var w := Made(sn, ch, UserSame, FailingWrites(faults, UserTable));
    UsersStayAbsent(c, ch, w, id);
    assert UsersSynced(c, faults) == WithUsers(c, After(sn, ch, w));
  }

  lemma UsersStayAbsent(c: Cluster, ch: map<int, Replica>, w: set<(Replica, int)>, id: int)
    requires Chooses(UserSnap(c), ch) && forall p :: p in w ==> p.1 in ch
    requires id !in c.mysql.users && id !in c.oracle.users && id !in c.sqlServer.users
    ensures var after := WithUsers(c, After(UserSnap(c), ch, w));
      id !in after.mysql.users && id !in after.oracle.users && id !in after.sqlServer.users
  {
    var sn := UserSnap(c);
    AfterKeepsAbsent(sn, ch, w, id);
    var out := After(sn, ch, w);
    assert id !in out.At(MySql) && id !in out.At(Oracle) && id !in out.At(SqlServer);
    var after := WithUsers(c, out);
    assert after.mysql.users == out.m && after.oracle.users == out.o && after.sqlServer.users == out.s;
  }

  /** A paper that no replica holds is not brought back by the paper pass; paper_question rows left under its id stay as they are. */
  lemma PaperPassNeverResurrects(c: Cluster, faults: Faults, id: int)
    requires id !in c.mysql.papers && id !in c.oracle.papers && id !in c.sqlServer.papers
    ensures var after := PapersSynced(c, faults);
      id !in after.mysql.papers && id !in after.oracle.papers && id !in after.sqlServer.papers
    ensures forall r :: Tables.ChildrenOf(PapersSynced(c, faults).At(r).paperQuestions, id)
                        == Tables.ChildrenOf(c.At(r).paperQuestions, id)
  {
    var sn := PaperSnap(c);
    var ch := Winners(sn, PaperTime);
    var w := Made(sn, ch, PaperSame, FailingWrites(faults, PaperTable));
    PapersStayAbsent(c, ch, w, id);
    assert PapersSynced(c, faults) == WithChildren(WithPapers(c, After(sn, ch, w)), c, ch, w) == PapersAfter(c, w);
    forall r ensures Tables.ChildrenOf(PapersSynced(c, faults).At(r).paperQuestions, id)
                     == Tables.ChildrenOf(c.At(r).paperQuestions, id)
    {
      assert (r, id) !in w;
      PaperChildrenFollowWinner(c, w, r, id);
    }
  }

  lemma PapersStayAbsent(c: Cluster, ch: map<int, Replica>, w: set<(Replica, int)>, id: int)
    requires Chooses(PaperSnap(c), ch) && forall p :: p in w ==> p.1 in ch
    requires id !in c.mysql.papers && id !in c.oracle.papers && id !in c.sqlServer.papers
    ensures var after := WithChildren(WithPapers(c, After(PaperSnap(c), ch, w)), c, ch, w);
      id !in after.mysql.papers && id !in after.oracle.papers && id !in after.sqlServer.papers
  {
    var sn := PaperSnap(c);
    AfterKeepsAbsent(sn, ch, w, id);
    var out := After(sn, ch, w);
    assert id !in out.At(MySql) && id !in out.At(Oracle) && id !in out.At(SqlServer);
    var rows := WithPapers(c, out);
    assert rows.mysql.papers == out.m && rows.oracle.papers == out.o && rows.sqlServer.papers == out.s;
    var after := WithChildren(rows, c, ch, w);
    assert after.mysql.papers == out.m && after.oracle.papers == out.o && after.sqlServer.papers == out.s;
  }
}
