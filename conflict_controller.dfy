/**
  The conflict REST endpoints: the listing (the controller's own copy of the MySQL to
  standby scan) and the resolve dispatch, which either ignores a conflict or pushes
  MySQL's row for it to both standbys through the sync engine's write methods.

  The controller reads the same three replicas the engine holds, so its methods take the
  engine; the JSON payload is three nullable strings, and the text of the
  NumberFormatException that Long.parseLong raises is a parameter.
*/
module ConflictControl {
  import opened Wrappers
  import opened Entities
  import opened Text
  import opened Listing
  import opened Conflicts
  import opened Engine
  import Tables

  /** The `{code, msg}` map the resolve endpoint answers with. */
  datatype Reply = Reply(code: int, msg: string)

  /** The `{code, data}` map the listing endpoint answers with. */
  datatype ListReply = ListReply(code: int, data: seq<ConflictRow>)

  /** The resolve request body: tableName, sourceId and action, each possibly absent. */
  datatype Payload = Payload(tableName: Option<string>, sourceId: Option<string>, action: Option<string>)

  const IgnoredMessage: string := "已忽略"
  const MissingSourceMessage: string := "源数据不存在(MySQL)，无法同步"
  const ForcedMessage: string := "全平台强制同步成功"
  const FailedPrefix: string := "处理失败: "

  /** The 500 answer for an exception with the given message. */
  function Failed(message: Option<string>): (r: Reply)
    ensures r.code == 500 && r.msg == FailedPrefix + Show(message)
  {
    Reply(500, FailedPrefix + Show(message))
  }

  /** The listing as JSON renders it, conflict by conflict in list order. */
  function RenderAll(conflicts: seq<Conflict>): (rows: seq<ConflictRow>)
    ensures |rows| == |conflicts|
    ensures forall i :: 0 <= i < |conflicts| ==> rows[i] == Render(conflicts[i])
  {
    seq(|conflicts|, i requires 0 <= i < |conflicts| => Render(conflicts[i]))
  }

  /** A standby after syncTo*Native of MySQL's user `id`: that row upserted, nothing else changed. */
  function UserCopied(c: Cluster, r: Replica, id: int): (db: Db)
    requires id in c.mysql.users
    ensures id in db.users && db.users[id] == c.mysql.users[id]
    ensures forall k :: k in c.At(r).users && k != id ==> k in db.users && db.users[k] == c.At(r).users[k]
    ensures db.users.Keys == c.At(r).users.Keys + {id}
    ensures db.(users := c.At(r).users) == c.At(r)
  {
    var t := c.At(r);
    t.(users := Tables.Upsert(t.users, id, c.mysql.users[id]))
  }

  /** getConflictList: code 200 and the scan's findings, rendered. */
  method GetConflictList(svc: SyncService, userOrder: seq<int>, paperOrder: seq<int>) returns (reply: ListReply)
    requires Lists(userOrder, svc.mysql.users) && Lists(paperOrder, svc.mysql.papers)
    ensures reply.code == 200
    ensures reply.data == RenderAll(Conflicts.Conflicts(ControllerCopy, Listed(svc.mysql.users, userOrder),
                                                        svc.oracle.users, svc.sqlServer.users,
                                                        Listed(svc.mysql.papers, paperOrder),
                                                        svc.oracle.papers, svc.sqlServer.papers))
  {
    var found := Detect(ControllerCopy, Listed(svc.mysql.users, userOrder), svc.oracle.users, svc.sqlServer.users,
                        Listed(svc.mysql.papers, paperOrder), svc.oracle.papers, svc.sqlServer.papers);
    reply := ListReply(200, RenderAll(found));
  }

  /** `"sys_user".equalsIgnoreCase(tableName)`. */
  predicate NamesUsers(tableName: Option<string>)
  {
    EqualsIgnoreCaseNullable(UserTable.Name(), tableName)
  }

  /** `"paper".equalsIgnoreCase(tableName)`. */
  predicate NamesPapers(tableName: Option<string>)
  {
    EqualsIgnoreCaseNullable(PaperTable.Name(), tableName)
  }

  /**
    The outcome of a forced user resolve, from the replicas `c` before it to `c'` after:
    400 and no write for a user MySQL does not hold; otherwise MySQL's row copied to
    Oracle, then to SQL Server, a write that throws ending the request with 500 and an
    Oracle copy already made staying.
  */
  predicate UserForced(c: Cluster, id: int, faults: Faults, reply: Reply, c': Cluster)
  {
    if id !in c.mysql.users then
      reply == Reply(400, MissingSourceMessage) && c' == c
    else if Fault(UserTable, Oracle, id) in faults then
      reply == Failed(faults[Fault(UserTable, Oracle, id)]) && c' == c
    else if Fault(UserTable, SqlServer, id) in faults then
      reply == Failed(faults[Fault(UserTable, SqlServer, id)])
      && c' == c.With(Oracle, UserCopied(c, Oracle, id))
    else
      reply == Reply(200, ForcedMessage)
      && c' == c.With(Oracle, UserCopied(c, Oracle, id)).With(SqlServer, UserCopied(c, SqlServer, id))
  }

  /**
    The outcome of a forced paper resolve: a paper MySQL does not hold is a silent 200;
    otherwise syncSinglePaperToOracle, then syncSinglePaperToSqlServer, a write that
    throws ending the request with 500 and an Oracle copy already made staying.
  */
  predicate PaperForced(c: Cluster, id: int, faults: Faults, reply: Reply, c': Cluster)
  {
    if id !in c.mysql.papers then
      reply == Reply(200, ForcedMessage) && c' == c
    else if Fault(PaperTable, Oracle, id) in faults then
      reply == Failed(faults[Fault(PaperTable, Oracle, id)]) && c' == c
    else if Fault(PaperTable, SqlServer, id) in faults then
      reply == Failed(faults[Fault(PaperTable, SqlServer, id)])
      && c' == c.With(Oracle, PaperCopied(c, Oracle, id))
    else
      reply == Reply(200, ForcedMessage)
      && c' == c.With(Oracle, PaperCopied(c, Oracle, id)).With(SqlServer, PaperCopied(c, SqlServer, id))
  }

  /** The forced resolve of user `id`. */
  method ForceUser(svc: SyncService, id: int, faults: Faults) returns (reply: Reply)
    modifies svc`mysql, svc`oracle, svc`sqlServer
    ensures UserForced(old(svc.Replicas()), id, faults, reply, svc.Replicas())
  {
    if id !in svc.mysql.users {
      return Reply(400, MissingSourceMessage);
    }
    ghost var c := svc.Replicas();
    var u := svc.mysql.users[id];
    var failure := svc.UpsertUser(Oracle, id, u, faults);
    if failure.Some? {
      return Failed(failure.value.message);
    }
    assert svc.Replicas() == c.With(Oracle, UserCopied(c, Oracle, id));
    failure := svc.UpsertUser(SqlServer, id, u, faults);
    if failure.Some? {
      return Failed(failure.value.message);
    }
    reply := Reply(200, ForcedMessage);
  }

  /** The forced resolve of paper `id`. */
  method ForcePaper(svc: SyncService, id: int, faults: Faults) returns (reply: Reply)
    modifies svc`mysql, svc`oracle, svc`sqlServer
    ensures PaperForced(old(svc.Replicas()), id, faults, reply, svc.Replicas())
  {
    ghost var c := svc.Replicas();
    var failure := svc.SyncSinglePaperTo(Oracle, id, faults);
    if failure.Some? {
      return Failed(failure.value.message);
    }
    ghost var c1 := svc.Replicas();
    failure := svc.SyncSinglePaperTo(SqlServer, id, faults);
    if failure.Some? {
      return Failed(failure.value.message);
    }
    if id in c.mysql.papers {
      assert c1 == c.With(Oracle, PaperCopied(c, Oracle, id));
      assert PaperCopied(c1, SqlServer, id) == PaperCopied(c, SqlServer, id);
    }
    reply := Reply(200, ForcedMessage);
  }

  /**
    resolveConflict: "ignore" answers 200 and writes nothing; otherwise the source id is
    parsed (500 on failure) and the table name, matched case-insensitively, picks the
    user or the paper resolve. Any other table name answers 200 and writes nothing.
  */
  method ResolveConflict(svc: SyncService, payload: Payload, faults: Faults, parseError: Option<string>)
    returns (reply: Reply)
    modifies svc`mysql, svc`oracle, svc`sqlServer
    ensures payload.action == Some("ignore") ==>
      reply == Reply(200, IgnoredMessage) && svc.Replicas() == old(svc.Replicas())
    ensures payload.action != Some("ignore") && ParseLong(payload.sourceId).None? ==>
      reply == Failed(parseError) && svc.Replicas() == old(svc.Replicas())
    ensures payload.action != Some("ignore") && ParseLong(payload.sourceId).Some?
            && !NamesUsers(payload.tableName) && !NamesPapers(payload.tableName) ==>
      reply == Reply(200, ForcedMessage) && svc.Replicas() == old(svc.Replicas())
    ensures payload.action != Some("ignore") && ParseLong(payload.sourceId).Some? && NamesUsers(payload.tableName) ==>
      UserForced(old(svc.Replicas()), ParseLong(payload.sourceId).value, faults, reply, svc.Replicas())
    ensures payload.action != Some("ignore") && ParseLong(payload.sourceId).Some? && NamesPapers(payload.tableName) ==>
      PaperForced(old(svc.Replicas()), ParseLong(payload.sourceId).value, faults, reply, svc.Replicas())
    ensures reply.code == 200 || reply.code == 400 || reply.code == 500
    ensures reply.code == 400 ==>
      NamesUsers(payload.tableName) && ParseLong(payload.sourceId).Some?
      && ParseLong(payload.sourceId).value !in old(svc.mysql.users) && svc.Replicas() == old(svc.Replicas())
  {
    if payload.action == Some("ignore") {
      return Reply(200, IgnoredMessage);
    }
    var parsed := ParseLong(payload.sourceId);
    if parsed.None? {
      return Failed(parseError);
    }
    var id := parsed.value;
    if NamesUsers(payload.tableName) {
      TableNamesExclusive(payload.tableName);
      reply := ForceUser(svc, id, faults);
    } else if NamesPapers(payload.tableName) {
      TableNamesExclusive(payload.tableName);
      reply := ForcePaper(svc, id, faults);
    } else {
      reply := Reply(200, ForcedMessage);
    }
  }

  /** The two table names are told apart, so a request reaches at most one resolve branch. */
  lemma TableNamesExclusive(tableName: Option<string>)
    ensures !(NamesUsers(tableName) && NamesPapers(tableName))
  {
  }

  /**
    Once a user resolve has gone through, the listing finds nothing for that user, on
    either standby, in either copy of the scan.
  */
  lemma ForcedUserIsClean(c: Cluster, id: int, copy: Copy)
    requires id in c.mysql.users && c.mysql.users[id].id == id
    ensures var after := c.With(Oracle, UserCopied(c, Oracle, id)).With(SqlServer, UserCopied(c, SqlServer, id));
      UserRow(copy, after.mysql.users[id], after.oracle.users, after.sqlServer.users) == Row(None, None)
  {
    var after := c.With(Oracle, UserCopied(c, Oracle, id)).With(SqlServer, UserCopied(c, SqlServer, id));
    var u := c.mysql.users[id];
    assert after.mysql.users[id] == u;
    assert Lookup(after.oracle.users, id) == Some(u);
    assert Lookup(after.sqlServer.users, id) == Some(u);
  }

  /**
    Once a paper resolve has gone through, the listing finds nothing for that paper, and
    both standbys hold exactly MySQL's children of it.
  */
  lemma ForcedPaperIsClean(c: Cluster, id: int)
    requires id in c.mysql.papers && c.mysql.papers[id].id == id
    ensures var after := c.With(Oracle, PaperCopied(c, Oracle, id)).With(SqlServer, PaperCopied(c, SqlServer, id));
      && PaperRow(after.mysql.papers[id], after.oracle.papers, after.sqlServer.papers) == Row(None, None)
      && Tables.ChildrenOf(after.oracle.paperQuestions, id) == Tables.ChildrenOf(c.mysql.paperQuestions, id)
      && Tables.ChildrenOf(after.sqlServer.paperQuestions, id) == Tables.ChildrenOf(c.mysql.paperQuestions, id)
  {
    var after := c.With(Oracle, PaperCopied(c, Oracle, id)).With(SqlServer, PaperCopied(c, SqlServer, id));
    var p := c.mysql.papers[id];
    PaperCopiedMatchesMySql(c, Oracle, id);
    PaperCopiedMatchesMySql(c, SqlServer, id);
    assert after.mysql.papers[id] == p;
    assert Lookup(after.oracle.papers, id) == Some(p);
    assert Lookup(after.sqlServer.papers, id) == Some(p);
  }

  /**
    A listed conflict carries what its resolve needs: its rendered source id parses back
    to the row's id and its rendered table name selects the branch of the row's table.
  */
  lemma ListedConflictRoutes(c: Conflict)
    requires c.item.table == UserTable || c.item.table == PaperTable
    requires MinLong <= c.item.sourceId <= MaxLong
    ensures ParseLong(Some(Render(c).sourceId)) == Some(c.item.sourceId)
    ensures NamesUsers(Some(Render(c).tableName)) <==> c.item.table == UserTable
    ensures NamesPapers(Some(Render(c).tableName)) <==> c.item.table == PaperTable
  {
    RenderedIdParses(c);
    RenderedTableRecognised(c);
    EqualsIgnoreCaseSymmetric(Render(c).tableName, UserTable.Name());
    EqualsIgnoreCaseSymmetric(Render(c).tableName, PaperTable.Name());
  }
}
