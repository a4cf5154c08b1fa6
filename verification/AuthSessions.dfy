/** The auth_sessions table: its rows, what each SQL statement does to one row,
    and the table itself as a class whose hash index is the unique key on
    refresh_token_hash. */
module AuthSessions {
  import opened Common

  type Time = int
  type SessionId = string
  type UserId = int
  type Hash = string

  datatype SessionStatus = Active | Revoked

  datatype UserStatus = Enabled | Disabled

  datatype Session = Session(
    userId: UserId,
    hash: Hash,
    status: SessionStatus,
    issuedAt: Time,
    expiresAt: Time,
    lastRefreshedAt: Option<Time>,
    lastSeenAt: Option<Time>,
    revokedAt: Option<Time>,
    revokeReason: Option<string>,
    version: nat)

  /** The WHERE clause of the conditional rotation, beyond the session id. */
  predicate RotateMatches(s: Session, oldHash: Hash, oldVersion: nat, at: Time) {
    s.hash == oldHash && s.version == oldVersion && s.status.Active? && s.expiresAt > at
  }

  /** The SET clause of the conditional rotation. */
  function Rotated(s: Session, newHash: Hash, at: Time, expires: Time): Session {
    s.(hash := newHash, expiresAt := expires, lastRefreshedAt := Some(at), lastSeenAt := Some(at),
       version := s.version + 1)
  }

  /** The SET clause of the revocation. */
  function RevokedRow(s: Session, at: Time, reason: string): Session {
    s.(status := Revoked, revokedAt := Some(at),
       revokeReason := if reason == "" then None else Some(reason),
       version := s.version + 1)
  }

  /** The row a login inserts. */
  function LoginRow(user: UserId, hash: Hash, issuedAt: Time, expires: Time): Session {
    Session(user, hash, Active, issuedAt, expires, None, Some(issuedAt), None, None, 0)
  }

  /** The time of the last issue or refresh of a session. */
  function LastTime(s: Session): Time {
    if s.lastRefreshedAt.Some? then s.lastRefreshedAt.value else s.issuedAt
  }

  /** No other session holds hash h. */
  ghost predicate HashFree(rows: map<SessionId, Session>, sid: SessionId, h: Hash) {
    forall other :: other in rows && other != sid ==> rows[other].hash != h
  }

  ghost predicate UniqueHashes(rows: map<SessionId, Session>) {
    forall a, b :: a in rows && b in rows && a != b ==> rows[a].hash != rows[b].hash
  }

  datatype DbError = DuplicateKey

  class SessionTable {
    var rows: map<SessionId, Session>
    var byHash: map<Hash, SessionId>

    ghost predicate Valid()
      reads this
    {
      && (forall sid :: sid in rows ==> rows[sid].hash in byHash && byHash[rows[sid].hash] == sid)
      && (forall h :: h in byHash ==> byHash[h] in rows && rows[byHash[h]].hash == h)
    }

    constructor ()
      ensures Valid() && rows == map[]
    {
      rows, byHash := map[], map[];
    }

    /** A valid index leaves no two sessions with one hash. */
    lemma IndexMeansUnique()
      requires Valid()
      ensures UniqueHashes(rows)
    {
      forall a, b | a in rows && b in rows && a != b
        ensures rows[a].hash != rows[b].hash
      {
        assert byHash[rows[a].hash] == a;
      }
    }

    /** The index answers exactly what a scan of the table would. */
    method FindByRefreshTokenHash(h: Hash) returns (found: Option<(SessionId, Session)>)
      requires Valid()
      ensures found.Some? <==> exists sid :: sid in rows && rows[sid].hash == h
      ensures found.Some? ==> found.value.0 in rows && rows[found.value.0] == found.value.1
      ensures found.Some? ==> found.value.1.hash == h && HashFree(rows, found.value.0, h)
    {
      if h in byHash {
        found := Some((byHash[h], rows[byHash[h]]));
      } else {
        found := None;
      }
    }

    method Create(sid: SessionId, row: Session) returns (r: Result<(), DbError>)
      requires Valid()
      modifies this
      ensures Valid()
      ensures r.Ok? <==> sid !in old(rows) && HashFree(old(rows), sid, row.hash)
      ensures rows == if r.Ok? then old(rows)[sid := row] else old(rows)
    {
      if sid in rows || row.hash in byHash {
        assert row.hash in byHash ==> byHash[row.hash] in rows;
        return Err(DuplicateKey);
      }
      rows, byHash := rows[sid := row], byHash[row.hash := sid];
      r := Ok(());
    }

    /** The affected-row count is 1 exactly when the guards hold; a hash that another
        session owns violates the unique key and changes nothing. */
    method ConditionalRotate(sid: SessionId, oldHash: Hash, oldVersion: nat, newHash: Hash, at: Time, expires: Time)
      returns (r: Result<nat, DbError>)
      requires Valid()
      modifies this
      ensures Valid()
      ensures var hit :=
                && sid in old(rows) && old(rows[sid]).hash == oldHash && old(rows[sid]).version == oldVersion
                && old(rows[sid]).status == Active && at < old(rows[sid]).expiresAt;
              var owned := exists other :: other in old(rows) && other != sid && old(rows)[other].hash == newHash;
              r == if !hit then Ok(0) else if owned then Err(DuplicateKey) else Ok(1)
      ensures r == Ok(1) ==>
                rows == old(rows)[sid := old(rows[sid]).(hash := newHash, expiresAt := expires,
                                                         lastRefreshedAt := Some(at), lastSeenAt := Some(at),
                                                         version := old(rows[sid]).version + 1)]
      ensures r != Ok(1) ==> rows == old(rows)
    {
      if sid !in rows || !RotateMatches(rows[sid], oldHash, oldVersion, at) {
        return Ok(0);
      }
      if newHash in byHash && byHash[newHash] != sid {
        assert rows[byHash[newHash]].hash == newHash;
        return Err(DuplicateKey);
      }
      assert HashFree(rows, sid, newHash);
      byHash := (byHash - {rows[sid].hash})[newHash := sid];
      rows := rows[sid := Rotated(rows[sid], newHash, at, expires)];
      r := Ok(1);
    }

    method RevokeBySessionID(sid: SessionId, at: Time, reason: string) returns (affected: nat)
      requires Valid()
      modifies this`rows
      ensures Valid()
      ensures affected == if sid in old(rows) && old(rows[sid]).status == Active then 1 else 0
      ensures affected == 1 ==>
                rows == old(rows)[sid := old(rows[sid]).(status := Revoked, revokedAt := Some(at),
                                                         revokeReason := if reason == "" then None else Some(reason),
                                                         version := old(rows[sid]).version + 1)]
      ensures affected == 0 ==> rows == old(rows)
    {
      if sid in rows && rows[sid].status.Active? {
        rows := rows[sid := RevokedRow(rows[sid], at, reason)];
        return 1;
      }
      return 0;
    }

    /** Touches an active session. The driver counts changed rows, not matched ones: a row that already
        holds the time is counted only if the update time of the row, in whole seconds, moves. */
    method UpdateLastSeenAt(sid: SessionId, at: Time, clockMoved: bool) returns (affected: nat)
      requires Valid()
      modifies this`rows
      ensures Valid()
      ensures rows == if sid in old(rows) && old(rows[sid]).status.Active?
                      then old(rows)[sid := old(rows[sid]).(lastSeenAt := Some(at))] else old(rows)
      ensures affected == if rows != old(rows) || (clockMoved && sid in rows && rows[sid].status.Active?) then 1 else 0
    {
      if sid !in rows || !rows[sid].status.Active? {
        return 0;
      }
      affected := if clockMoved || rows[sid].lastSeenAt != Some(at) then 1 else 0;
      rows := rows[sid := rows[sid].(lastSeenAt := Some(at))];
      assert affected == 1 && !clockMoved ==> rows[sid] != old(rows)[sid];
    }

    /** Sets any status, whatever the current one, and leaves the version alone; counted like a touch. */
    method UpdateStatus(sid: SessionId, status: SessionStatus, clockMoved: bool) returns (affected: nat)
      requires Valid()
      modifies this`rows
      ensures Valid()
      ensures rows == if sid in old(rows) then old(rows)[sid := old(rows[sid]).(status := status)] else old(rows)
      ensures affected == if rows != old(rows) || (clockMoved && sid in rows) then 1 else 0
    {
      if sid !in rows {
        return 0;
      }
      affected := if clockMoved || rows[sid].status != status then 1 else 0;
      rows := rows[sid := rows[sid].(status := status)];
      assert affected == 1 && !clockMoved ==> rows[sid] != old(rows)[sid];
    }
  }
}
