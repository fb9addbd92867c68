/**
  The conflict detector: a one-directional scan of the MySQL users and papers against
  the Oracle and SQL Server copies. Each MySQL row is checked against Oracle and then
  against SQL Server, and every check consumes one temporary list id whether or not it
  reports anything. A missing target row is MISSING_IN_TARGET; a present one is
  DATA_MISMATCH only when the compared business fields differ.

  The same scan exists twice, in SyncService (detectConflicts) and in ConflictController
  (getConflictList); the two copies differ only in the text of a user mismatch.
*/
module Conflicts {
  import opened Wrappers
  import opened Entities
  import opened Text
  import opened Listing

  /** The conflict type, and the name the listing gives it. */
  datatype Kind = MissingInTarget | DataMismatch
  {
    function Name(): string
    {
      match this
      case MissingInTarget => "MISSING_IN_TARGET"
      case DataMismatch => "DATA_MISMATCH"
    }
  }

  /** Which copy of the check helpers is running. */
  datatype Copy = EngineCopy | ControllerCopy

  /**
    The human-readable description of a finding, kept as the values it is built from;
    `Text()` renders it the way the check helpers concatenate it.
  */
  datatype Description =
    | UserMissing(target: Target, id: int)
    | UserMismatch(copy: Copy, target: Target, sourceName: Option<string>, sourceRole: Option<string>,
                   targetName: Option<string>, targetRole: Option<string>)
    | PaperMissing(target: Target, id: int)
    | PaperMismatch(target: Target, paperName: Option<string>)
  {
    function Text(): string
    {
      match this
      case UserMissing(t, id) => t.Name() + " 备库缺少用户 ID: " + DecimalString(id)
      case UserMismatch(EngineCopy, t, su, sr, tu, tr) =>
        "数据不一致 [" + t.Name() + "]。主库: " + Show(su) + "(" + Show(sr) + "), 备库: " + Show(tu) + "(" + Show(tr) + ")"
      case UserMismatch(ControllerCopy, t, su, _, tu, _) =>
        "数据不一致 [" + t.Name() + "]。主库: " + Show(su) + ", 备库: " + Show(tu)
      case PaperMissing(t, id) => t.Name() + " 备库缺少试卷 ID: " + DecimalString(id)
      case PaperMismatch(t, name) => "试卷信息不一致 [" + t.Name() + "]。主库: " + Show(name)
    }
  }

  /** What a check reports about one MySQL row against one target, before it is given a list id. */
  datatype Finding = Finding(table: Table, kind: Kind, description: Description, sourceId: int)

  /** ConflictDTO: the temporary list id and the finding, without the instant it was created at. */
  type Conflict = Entry<Finding>

  /** ConflictDTO as the listing serialises it: every field rendered to text. */
  datatype ConflictRow = ConflictRow(id: int, tableName: string, conflictType: string, description: string, sourceId: string)

  function Render(c: Conflict): (r: ConflictRow)
    ensures r.id == c.id && |r.sourceId| > 0
  {
    ConflictRow(c.id, c.item.table.Name(), c.item.kind.Name(), c.item.description.Text(), DecimalString(c.item.sourceId))
  }

  /** A nullable string as Java's string concatenation renders it. */
  function Show(s: Option<string>): string
  {
    match s
    case None => "null"
    case Some(v) => v
  }

  function Lookup<T>(m: map<int, T>, id: int): (r: Option<T>)
    ensures r.None? <==> id !in m
    ensures r.Some? ==> r.value == m[id]
  {
    if id in m then Some(m[id]) else None
  }

  // ---------------------------------------------------------------
  // checkUserConflict / checkPaperConflict
  // ---------------------------------------------------------------

  /** `!Objects.equals(username) || !Objects.equals(role)`. */
  predicate UserDiffers(s: User, t: User)
  {
    s.username != t.username || s.role != t.role
  }

  /** `!Objects.equals(paperName) || !Objects.equals(totalScore)`: exactly `!Paper.equals`. */
  predicate PaperDiffers(s: Paper, t: Paper)
  {
    s.paperName != t.paperName || s.totalScore != t.totalScore
  }

  lemma PaperDiffersIsNotEquals(s: Paper, t: Paper)
    ensures PaperDiffers(s, t) <==> !PaperEquals(s, t)
  {
  }

  /** checkUserConflict: the finding (if any) for one MySQL user against one target's copy. */
  function CheckUser(copy: Copy, target: Target, s: User, t: Option<User>): (r: Option<Finding>)
    ensures r.Some? <==> t.None? || UserDiffers(s, t.value)
    ensures r.Some? ==> r.value.table == UserTable && r.value.sourceId == s.id
    ensures r.Some? ==> (r.value.kind == MissingInTarget <==> t.None?)
    ensures r.Some? ==> r.value.description.target == target
  {
    match t
    case None =>
      Some(Finding(UserTable, MissingInTarget, UserMissing(target, s.id), s.id))
    case Some(u) =>
      if UserDiffers(s, u) then
        Some(Finding(UserTable, DataMismatch, UserMismatch(copy, target, s.username, s.role, u.username, u.role), s.id))
      else None
  }

  /** checkPaperConflict: identical in both copies. */
  function CheckPaper(target: Target, s: Paper, t: Option<Paper>): (r: Option<Finding>)
    ensures r.Some? <==> t.None? || !PaperEquals(s, t.value)
    ensures r.Some? ==> r.value.table == PaperTable && r.value.sourceId == s.id
    ensures r.Some? ==> (r.value.kind == MissingInTarget <==> t.None?)
    ensures r.Some? ==> r.value.description.target == target
  {
    match t
    case None =>
      Some(Finding(PaperTable, MissingInTarget, PaperMissing(target, s.id), s.id))
    case Some(p) =>
      if PaperDiffers(s, p) then Some(Finding(PaperTable, DataMismatch, PaperMismatch(target, s.paperName), s.id))
      else None
  }

  /** The rendered source id parses back to the row's id, as resolveConflict reads it. */
  lemma RenderedIdParses(c: Conflict)
    requires MinLong <= c.item.sourceId <= MaxLong
    ensures ParseLong(Some(Render(c).sourceId)) == Some(c.item.sourceId)
  {
    ParseLongOfDecimalString(c.item.sourceId);
  }

  /**
    The rendered table name is recognised case-insensitively as the table the finding
    came from, and not as the other one.
  */
  lemma RenderedTableRecognised(c: Conflict)
    ensures EqualsIgnoreCase(Render(c).tableName, UserTable.Name()) <==> c.item.table == UserTable
    ensures EqualsIgnoreCase(Render(c).tableName, PaperTable.Name()) <==> c.item.table == PaperTable
  {
    match c.item.table
    case UserTable => EqualsIgnoreCaseReflexive(UserTable.Name());
    case PaperTable => EqualsIgnoreCaseReflexive(PaperTable.Name());
    case QuestionTable => assert Lower(QuestionTable.Name()[0]) != Lower(UserTable.Name()[0]);
    case ResultTable =>
  }

  // ---------------------------------------------------------------
  // detectConflicts / getConflictList
  // ---------------------------------------------------------------

  /** What the user loop finds for one MySQL user. */
  function UserRow(copy: Copy, u: User, oracleUsers: map<int, User>, sqlServerUsers: map<int, User>): Row<Finding>
  {
    Row(CheckUser(copy, OracleTarget, u, Lookup(oracleUsers, u.id)),
                CheckUser(copy, SqlServerTarget, u, Lookup(sqlServerUsers, u.id)))
  }

  /** What the paper loop finds for one MySQL paper. */
  function PaperRow(p: Paper, oraclePapers: map<int, Paper>, sqlServerPapers: map<int, Paper>): Row<Finding>
  {
    Row(CheckPaper(OracleTarget, p, Lookup(oraclePapers, p.id)),
                CheckPaper(SqlServerTarget, p, Lookup(sqlServerPapers, p.id)))
  }

  /** The findings of the user loop, row by row in MySQL's listing order. */
  function UserFindings(copy: Copy, users: seq<User>, oracleUsers: map<int, User>, sqlServerUsers: map<int, User>): seq<Row<Finding>>
  {
    seq(|users|, i requires 0 <= i < |users| => UserRow(copy, users[i], oracleUsers, sqlServerUsers))
  }

  /** The findings of the paper loop, row by row in MySQL's listing order. */
  function PaperFindings(papers: seq<Paper>, oraclePapers: map<int, Paper>, sqlServerPapers: map<int, Paper>): seq<Row<Finding>>
  {
    seq(|papers|, i requires 0 <= i < |papers| => PaperRow(papers[i], oraclePapers, sqlServerPapers))
  }

  /** The whole listing: the users numbered from 1, then the papers continuing the counter. */
  function Conflicts(copy: Copy, users: seq<User>, oracleUsers: map<int, User>, sqlServerUsers: map<int, User>,
                     papers: seq<Paper>, oraclePapers: map<int, Paper>, sqlServerPapers: map<int, Paper>): seq<Conflict>
  {
    Number(UserFindings(copy, users, oracleUsers, sqlServerUsers), 1)
      + Number(PaperFindings(papers, oraclePapers, sqlServerPapers), 1 + 2 * |users|)
  }

  /** One turn of the user loop: the Oracle check, then the SQL Server check, each taking the next id. */
  method VisitUser(copy: Copy, u: User, oracleUsers: map<int, User>, sqlServerUsers: map<int, User>, tempId: int)
    returns (found: seq<Conflict>, next: int)
    ensures found == RowEntries(UserRow(copy, u, oracleUsers, sqlServerUsers), tempId)
    ensures next == tempId + 2
  {
    next := tempId;
    found := Emit(next, CheckUser(copy, OracleTarget, u, Lookup(oracleUsers, u.id)));
    next := next + 1;
    found := found + Emit(next, CheckUser(copy, SqlServerTarget, u, Lookup(sqlServerUsers, u.id)));
    next := next + 1;
  }

  /** One turn of the paper loop. */
  method VisitPaper(p: Paper, oraclePapers: map<int, Paper>, sqlServerPapers: map<int, Paper>, tempId: int)
    returns (found: seq<Conflict>, next: int)
    ensures found == RowEntries(PaperRow(p, oraclePapers, sqlServerPapers), tempId)
    ensures next == tempId + 2
  {
    next := tempId;
    found := Emit(next, CheckPaper(OracleTarget, p, Lookup(oraclePapers, p.id)));
    next := next + 1;
    found := found + Emit(next, CheckPaper(SqlServerTarget, p, Lookup(sqlServerPapers, p.id)));
    next := next + 1;
  }

  /**
    The user loop of detectConflicts (and of getConflictList): every MySQL user checked
    against Oracle and then SQL Server, the counter advancing after each check.
  */
  method ScanUsers(copy: Copy, users: seq<User>, oracleUsers: map<int, User>, sqlServerUsers: map<int, User>)
    returns (conflicts: seq<Conflict>, tempId: int)
    ensures conflicts == Number(UserFindings(copy, users, oracleUsers, sqlServerUsers), 1)
    ensures tempId == 1 + 2 * |users|
  {
    ghost var rows := UserFindings(copy, users, oracleUsers, sqlServerUsers);
    conflicts, tempId := [], 1;
    var i := 0;
    while i < |users|
      invariant 0 <= i <= |users|
      invariant tempId == 1 + 2 * i
      invariant conflicts + Number(rows[i..], tempId) == Number(rows, 1)
    {
      var found;
      ghost var at := tempId;
      found, tempId := VisitUser(copy, users[i], oracleUsers, sqlServerUsers, tempId);
      NumberStep(conflicts, found, rows, i, at);
      conflicts := conflicts + found;
      i := i + 1;
    }
    assert conflicts + [] == conflicts;
  }

  /** The paper loop, its counter continuing from where the user loop left it. */
  method ScanPapers(papers: seq<Paper>, oraclePapers: map<int, Paper>, sqlServerPapers: map<int, Paper>, first: int)
    returns (conflicts: seq<Conflict>, tempId: int)
    ensures conflicts == Number(PaperFindings(papers, oraclePapers, sqlServerPapers), first)
    ensures tempId == first + 2 * |papers|
  {
    ghost var rows := PaperFindings(papers, oraclePapers, sqlServerPapers);
    conflicts, tempId := [], first;
    var i := 0;
    while i < |papers|
      invariant 0 <= i <= |papers|
      invariant tempId == first + 2 * i
      invariant conflicts + Number(rows[i..], tempId) == Number(rows, first)
    {
      var found;
      ghost var at := tempId;
      found, tempId := VisitPaper(papers[i], oraclePapers, sqlServerPapers, tempId);
      NumberStep(conflicts, found, rows, i, at);
      conflicts := conflicts + found;
      i := i + 1;
    }
    assert conflicts + [] == conflicts;
  }

  /** detectConflicts / getConflictList: the user loop, then the paper loop, sharing one counter. */
  method Detect(copy: Copy, users: seq<User>, oracleUsers: map<int, User>, sqlServerUsers: map<int, User>,
                papers: seq<Paper>, oraclePapers: map<int, Paper>, sqlServerPapers: map<int, Paper>)
    returns (conflicts: seq<Conflict>)
    ensures conflicts == Conflicts(copy, users, oracleUsers, sqlServerUsers, papers, oraclePapers, sqlServerPapers)
  {
    var userConflicts, tempId := ScanUsers(copy, users, oracleUsers, sqlServerUsers);
    var paperConflicts, _ := ScanPapers(papers, oraclePapers, sqlServerPapers, tempId);
    conflicts := userConflicts + paperConflicts;
  }

  /** The listing's ids are strictly increasing across both tables. */
  lemma ConflictIdsIncreasing(copy: Copy, users: seq<User>, oracleUsers: map<int, User>, sqlServerUsers: map<int, User>,
                              papers: seq<Paper>, oraclePapers: map<int, Paper>, sqlServerPapers: map<int, Paper>)
    ensures Increasing(Conflicts(copy, users, oracleUsers, sqlServerUsers, papers, oraclePapers, sqlServerPapers))
  {
    var userRows := UserFindings(copy, users, oracleUsers, sqlServerUsers);
    var paperRows := PaperFindings(papers, oraclePapers, sqlServerPapers);
    NumberIncreasing(userRows, 1);
    NumberIncreasing(paperRows, 1 + 2 * |users|);
    NumberIdsInRange(userRows, 1);
    NumberIdsInRange(paperRows, 1 + 2 * |users|);
    IncreasingConcat(Number(userRows, 1), Number(paperRows, 1 + 2 * |users|), 1 + 2 * |users|);
  }

  /**
    The user at listing position i is listed against target `t` under list id
    `2i + 1 + t.Offset()`, with exactly what checkUserConflict finds for it there.
  */
  lemma UserReported(copy: Copy, users: seq<User>, oracleUsers: map<int, User>, sqlServerUsers: map<int, User>,
                     papers: seq<Paper>, oraclePapers: map<int, Paper>, sqlServerPapers: map<int, Paper>, i: nat, t: Target)
    requires i < |users|
    ensures var id := 1 + 2 * i + t.Offset();
      WithId(Conflicts(copy, users, oracleUsers, sqlServerUsers, papers, oraclePapers, sqlServerPapers), id)
        == Emit(id, CheckUser(copy, t, users[i], Lookup(t.Pick(oracleUsers, sqlServerUsers), users[i].id)))
  {
    var id := 1 + 2 * i + t.Offset();
    var userRows := UserFindings(copy, users, oracleUsers, sqlServerUsers);
    var paperRows := PaperFindings(papers, oraclePapers, sqlServerPapers);
    NumberIdsInRange(paperRows, 1 + 2 * |users|);
    WithIdLeft(Number(userRows, 1), Number(paperRows, 1 + 2 * |users|), id);
    NumberReports(userRows, 1, i, t);
  }

  /** The paper at listing position i, with list ids continuing after the users'. */
  lemma PaperReported(copy: Copy, users: seq<User>, oracleUsers: map<int, User>, sqlServerUsers: map<int, User>,
                      papers: seq<Paper>, oraclePapers: map<int, Paper>, sqlServerPapers: map<int, Paper>, i: nat, t: Target)
    requires i < |papers|
    ensures var id := 1 + 2 * |users| + 2 * i + t.Offset();
      WithId(Conflicts(copy, users, oracleUsers, sqlServerUsers, papers, oraclePapers, sqlServerPapers), id)
        == Emit(id, CheckPaper(t, papers[i], Lookup(t.Pick(oraclePapers, sqlServerPapers), papers[i].id)))
  {
    var id := 1 + 2 * |users| + 2 * i + t.Offset();
    var userRows := UserFindings(copy, users, oracleUsers, sqlServerUsers);
    var paperRows := PaperFindings(papers, oraclePapers, sqlServerPapers);
    NumberIdsInRange(userRows, 1);
    WithIdRight(Number(userRows, 1), Number(paperRows, 1 + 2 * |users|), id);
    NumberReports(paperRows, 1 + 2 * |users|, i, t);
  }

  /**
    Rows that exist only in a target are never reported: every conflict names a MySQL
    user or a MySQL paper as its source.
  */
  lemma OnlyMySqlRowsReported(copy: Copy, users: seq<User>, oracleUsers: map<int, User>, sqlServerUsers: map<int, User>,
                              papers: seq<Paper>, oraclePapers: map<int, Paper>, sqlServerPapers: map<int, Paper>, c: Conflict)
    requires c in Conflicts(copy, users, oracleUsers, sqlServerUsers, papers, oraclePapers, sqlServerPapers)
    ensures c.item.table == UserTable ==> exists i :: 0 <= i < |users| && c.item.sourceId == users[i].id
    ensures c.item.table == PaperTable ==> exists i :: 0 <= i < |papers| && c.item.sourceId == papers[i].id
  {
    var userRows := UserFindings(copy, users, oracleUsers, sqlServerUsers);
    var paperRows := PaperFindings(papers, oraclePapers, sqlServerPapers);
    if c in Number(userRows, 1) {
      var i := NumberSource(userRows, 1, c);
      assert c.item.table == UserTable && c.item.sourceId == users[i].id;
    } else {
      var i := NumberSource(paperRows, 1 + 2 * |users|, c);
      assert c.item.table == PaperTable && c.item.sourceId == papers[i].id;
    }
  }
}
