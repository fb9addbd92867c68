/**
  Write routing of the business services: the current master, a name held by
  DbSwitchContext, picks the replica a save goes to, and the errors a service call can
  end with.
*/
module Routing {
  import opened Entities
  import Engine

  /**
    The replica a `switch (currentDb)` sends writes to: "Oracle" and "SQLServer" name
    those stores, and every other name, "MySQL" included, falls to the MySQL default.
  */
  function MasterReplica(master: string): (r: Replica)
    ensures r == Oracle <==> master == "Oracle"
    ensures r == SqlServer <==> master == "SQLServer"
    ensures r == MySql <==> master != "Oracle" && master != "SQLServer"
  {
    if master == "Oracle" then Oracle
    else if master == "SQLServer" then SqlServer
    else MySql
  }

  /**
    How a service call fails: a RuntimeException the service raises with its own message,
    a null dereference, or a failure propagated out of a sync pass.
  */
  datatype Error = Raised(message: string) | NullDereference | SyncFailed(failure: Engine.Failure)
}
