/**
  The user business rules: the login check against MySQL, username uniqueness in the
  current master, the registration and back-office creation of users, the profile
  update, and the save that writes to the master and then runs the user pass.
*/
module UserService {
  import opened Wrappers
  import opened Entities
  import opened Routing
  import opened Engine
  import opened Sweeps
  import Tables
  import Conflicts
  import Reconcile

  /** addUser's password for a request that brings none. */
  const DefaultPassword: string := "123456"

  /** The ids of the rows `findByUsername` matches. */
  function Named(users: map<int, User>, username: Option<string>): (ids: set<int>)
    ensures forall k :: k in ids <==> k in users && users[k].username == username
  {
    set k | k in users && users[k].username == username
  }

  /**
    What login answers: the user; null (a wrong password or no such user); or one of the
    exceptions, from a lookup that matches several rows or a stored null password.
  */
  datatype LoginOutcome = LoggedIn(user: User) | Rejected | NotUnique | NullPassword

  /** login: MySQL's row for the username, when its password equals the one given. */
  ghost function Login(users: map<int, User>, username: Option<string>, password: Option<string>): (r: LoginOutcome)
    ensures r.NotUnique? <==> |Named(users, username)| > 1
    ensures r.LoggedIn? <==>
      exists k :: Named(users, username) == {k} && users[k].password.Some? && users[k].password == password
    ensures r.NullPassword? <==> exists k :: Named(users, username) == {k} && users[k].password.None?
    ensures r.LoggedIn? ==> r.user in users.Values && r.user.username == username && r.user.password == password
  {
    var ids := Named(users, username);
    if |ids| == 0 then Rejected
    else if |ids| > 1 then NotUnique
    else
      Reconcile.Inhabited(ids);
      var k :| k in ids;
      assert ids == {k} by {
        assert |ids - {k}| == 0;
      }
      var u := users[k];
      if u.password.None? then NullPassword
      else if u.password == password then LoggedIn(u)
      else Rejected
  }

  /** A stored user whose username no other row carries logs in with exactly its own password. */
  lemma LoginFindsStoredUser(users: map<int, User>, k: int, other: Option<string>)
    requires k in users && users[k].password.Some?
    requires forall j :: j in users && j != k ==> users[j].username != users[k].username
    ensures Login(users, users[k].username, users[k].password) == LoggedIn(users[k])
    ensures other != users[k].password ==> Login(users, users[k].username, other) == Rejected
  {
    var ids := Named(users, users[k].username);
    forall x ensures x in ids <==> x == k {
    }
    assert ids == {k};
  }

  /** The message checkUsernameUnique raises. */
  function TakenMessage(username: Option<string>, master: string): string
  {
    "用户名 " + Conflicts.Show(username) + " 已存在于 [" + master + "] 中，无法重复添加！"
  }

  /** checkUsernameUnique: an error when the master already holds the username. */
  function CheckUsernameUnique(c: Cluster, master: string, username: Option<string>): (r: Option<Error>)
    ensures r.None? <==> Named(c.At(MasterReplica(master)).users, username) == {}
    ensures r.Some? ==> r.value == Raised(TakenMessage(username, master))
  {
    if Named(c.At(MasterReplica(master)).users, username) != {} then Some(Raised(TakenMessage(username, master)))
    else None
  }

  /** The row register writes: the fresh id, createTime kept or filled in, updateTime now. */
  function Registered(user: User, id: int, now: int): (u: User)
    ensures u.id == id && u.updateTime == Some(now)
    ensures u.createTime == (if user.createTime.None? then Some(now) else user.createTime)
    ensures u.(id := user.id, createTime := user.createTime, updateTime := user.updateTime) == user
  {
    user.(id := id, createTime := FillCreate(user.createTime, now), updateTime := Some(now))
  }

  /** addUser's password rule: a null or empty password becomes the default one. */
  function AddedPassword(password: Option<string>): (p: Option<string>)
    ensures p.Some? && |p.value| > 0
    ensures password.Some? && password.value != "" ==> p == password
    ensures password.None? || password.value == "" ==> p == Some(DefaultPassword)
  {
    if password.None? || password.value == "" then Some(DefaultPassword) else password
  }

  /** The row addUser writes: registration's row with the password rule applied. */
  function Added(user: User, id: int, now: int): (u: User)
    ensures u == Registered(user, id, now).(password := AddedPassword(user.password))
  {
    Registered(user.(password := AddedPassword(user.password)), id, now)
  }

  /**
    updateUser's row: realName and role from the request, the password only when the
    request brings a non-empty one, updateTime now; id, username and createTime stay.
  */
  function Updated(existing: User, request: User, now: int): (u: User)
    ensures u.id == existing.id && u.username == existing.username && u.createTime == existing.createTime
    ensures u.realName == request.realName && u.role == request.role && u.updateTime == Some(now)
    ensures u.password == if request.password.Some? && request.password.value != "" then request.password else existing.password
  {
    existing.(realName := request.realName, role := request.role,
              password := if request.password.Some? && request.password.value != "" then request.password else existing.password,
              updateTime := Some(now))
  }

  /** Applying the same update twice at the same instant is the same as applying it once. */
  lemma UpdateIsIdempotent(existing: User, request: User, now: int)
    ensures Updated(Updated(existing, request, now), request, now) == Updated(existing, request, now)
  {
  }

  /** The cluster after `save` of row `u` under `id` into the master. */
  function SavedUser(c: Cluster, master: string, id: int, u: User): Cluster
  {
    var m := MasterReplica(master);
    c.With(m, c.At(m).(users := Tables.Upsert(c.At(m).users, id, u)))
  }

  /** saveUserInternal: save into the current master, then the user pass over all replicas. */
  method SaveUserInternal(svc: SyncService, master: string, id: int, u: User, faults: Faults) returns (saved: User)
    modifies svc`mysql, svc`oracle, svc`sqlServer
    ensures saved == u
    ensures svc.Replicas() == UsersSynced(SavedUser(old(svc.Replicas()), master, id, u), faults)
  {
    var m := MasterReplica(master);
    var db := svc.Replicas().At(m);
    svc.SetDb(m, db.(users := Tables.Upsert(db.users, id, u)));
    svc.SyncUsers(faults);
    saved := u;
  }

  /** register: the uniqueness check, then the row with its timestamps saved under a fresh id. */
  method Register(svc: SyncService, master: string, user: User, id: int, now: int, faults: Faults)
    returns (r: Result<User, Error>)
    requires id !in svc.Replicas().At(MasterReplica(master)).users
    modifies svc`mysql, svc`oracle, svc`sqlServer
    ensures var taken := CheckUsernameUnique(old(svc.Replicas()), master, user.username);
      && (taken.Some? ==> r == Err(taken.value) && svc.Replicas() == old(svc.Replicas()))
      && (taken.None? ==>
            r == Ok(Registered(user, id, now))
            && svc.Replicas() == UsersSynced(SavedUser(old(svc.Replicas()), master, id, Registered(user, id, now)), faults))
  {
    var taken := CheckUsernameUnique(svc.Replicas(), master, user.username);
    if taken.Some? {
      return Err(taken.value);
    }
    var saved := SaveUserInternal(svc, master, id, Registered(user, id, now), faults);
    r := Ok(saved);
  }

  /** addUser: as register, with a null or empty password replaced by the default one. */
  method AddUser(svc: SyncService, master: string, user: User, id: int, now: int, faults: Faults)
    returns (r: Result<User, Error>)
    requires id !in svc.Replicas().At(MasterReplica(master)).users
    modifies svc`mysql, svc`oracle, svc`sqlServer
    ensures var taken := CheckUsernameUnique(old(svc.Replicas()), master, user.username);
      && (taken.Some? ==> r == Err(taken.value) && svc.Replicas() == old(svc.Replicas()))
      && (taken.None? ==>
            r == Ok(Added(user, id, now))
            && svc.Replicas() == UsersSynced(SavedUser(old(svc.Replicas()), master, id, Added(user, id, now)), faults))
  {
    var taken := CheckUsernameUnique(svc.Replicas(), master, user.username);
    if taken.Some? {
      return Err(taken.value);
    }
    var saved := SaveUserInternal(svc, master, id, Added(user, id, now), faults);
    r := Ok(saved);
  }

  /** updateUser: MySQL's row for the request's id, updated, saved into the master. */
  method UpdateUser(svc: SyncService, master: string, request: User, now: int, faults: Faults)
    returns (r: Result<User, Error>)
    modifies svc`mysql, svc`oracle, svc`sqlServer
    ensures request.id !in old(svc.mysql.users) ==>
      r == Err(Raised("用户不存在 (MySQL)")) && svc.Replicas() == old(svc.Replicas())
    ensures request.id in old(svc.mysql.users) ==>
      var u := Updated(old(svc.mysql.users)[request.id], request, now);
      r == Ok(u) && svc.Replicas() == UsersSynced(SavedUser(old(svc.Replicas()), master, request.id, u), faults)
  {
    if request.id !in svc.mysql.users {
      return Err(Raised("用户不存在 (MySQL)"));
    }
    var existing := svc.mysql.users[request.id];
    var saved := SaveUserInternal(svc, master, request.id, Updated(existing, request, now), faults);
    r := Ok(saved);
  }

  /**
    A registration the uniqueness check lets through puts the new row into the master
    and leaves no other row of the master changed.
  */
  lemma RegisteredRowInMaster(c: Cluster, master: string, user: User, id: int, now: int)
    requires id !in c.At(MasterReplica(master)).users
    ensures var m := MasterReplica(master); var after := SavedUser(c, master, id, Registered(user, id, now)).At(m);
      && after.users == c.At(m).users[id := Registered(user, id, now)]
      && after.(users := c.At(m).users) == c.At(m)
  {
  }
}
