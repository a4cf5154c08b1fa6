/** The statements of the session table are the operations of the session history. */
module SessionStatements {
  import opened Common
  import opened AuthSessions
  import opened SessionHistory

  /** An operation that, when its guard holds, always changes its row. */
  predicate AlwaysChanges(op: Op) { op.Login? || op.Rotate? || op.Revoke? }

  /** Runs the statement behind an operation. The table moves as the history says exactly when the guard
      holds, and otherwise stays. A login, rotation or revocation reports one affected row exactly when its
      guard holds; a touch or a status update only when besides the row, or its update time, changes. A
      write that would break a unique key is an error. */
  method Execute(table: SessionTable, op: Op, clockMoved: bool, ghost users: map<UserId, UserStatus>)
    returns (r: Result<nat, DbError>)
    requires table.Valid() && !op.SetUser? && (op.Login? ==> op.user in users)
    modifies table
    ensures table.Valid()
    ensures Db(table.rows, users) ==
              if Guard(Db(old(table.rows), users), op) then Apply(Db(old(table.rows), users), op)
              else Db(old(table.rows), users)
    ensures AlwaysChanges(op) ==> (r == Ok(1) <==> Guard(Db(old(table.rows), users), op))
    ensures !AlwaysChanges(op) ==>
              (r == Ok(1) <==> Guard(Db(old(table.rows), users), op) && (clockMoved || table.rows != old(table.rows)))
    ensures r.Ok? ==> r.value <= 1
    ensures r.Err? ==> Mints(op) && (op.sid in old(table.rows) || !HashFree(old(table.rows), op.sid, op.hash))
  {
    match op
    case Login(_, sid, user, hash, at, expires, _) =>
      var created := table.Create(sid, LoginRow(user, hash, at, expires));
      r := if created.Ok? then Ok(1) else Err(created.error);
    case Rotate(_, sid, oldHash, oldVersion, hash, at, expires, _) =>
      r := table.ConditionalRotate(sid, oldHash, oldVersion, hash, at, expires);
    case Revoke(_, sid, at, reason) =>
      var affected := table.RevokeBySessionID(sid, at, reason);
      r := Ok(affected);
    case Touch(_, sid, at) =>
      var affected := table.UpdateLastSeenAt(sid, at, clockMoved);
      r := Ok(affected);
    case SetStatus(_, sid, status) =>
      var affected := table.UpdateStatus(sid, status, clockMoved);
      r := Ok(affected);
  }
}
