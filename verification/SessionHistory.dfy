/** The atomic specification of the session store: committed databases linked by
    committed operations, and what holds of every such history. */
module SessionHistory {
  import opened Common
  import opened AuthSessions

  type ReqId = nat

  datatype Db = Db(sessions: map<SessionId, Session>, users: map<UserId, UserStatus>)

  /** The two claims of an access token that tie it to a session. */
  datatype AccessToken = AccessToken(subject: UserId, session: SessionId)

  datatype Op =
    | Login(req: ReqId, sid: SessionId, user: UserId, hash: Hash, at: Time, expires: Time, access: AccessToken)
    | Rotate(req: ReqId, sid: SessionId, oldHash: Hash, oldVersion: nat, hash: Hash, at: Time, expires: Time,
             access: AccessToken)
    | Revoke(req: ReqId, sid: SessionId, at: Time, reason: string)
    | Touch(req: ReqId, sid: SessionId, at: Time)
    | SetStatus(req: ReqId, sid: SessionId, status: SessionStatus)
    | SetUser(req: ReqId, user: UserId, userStatus: UserStatus)

  predicate Mints(op: Op) { op.Login? || op.Rotate? }

  /** When the statement behind an operation affects exactly one row. */
  ghost predicate Guard(db: Db, op: Op) {
    match op
    case Login(_, sid, user, hash, _, _, _) =>
      sid !in db.sessions && HashFree(db.sessions, sid, hash) && user in db.users
    case Rotate(_, sid, oldHash, oldVersion, hash, at, _, _) =>
      sid in db.sessions && RotateMatches(db.sessions[sid], oldHash, oldVersion, at) && HashFree(db.sessions, sid, hash)
    case Revoke(_, sid, _, _) => sid in db.sessions && db.sessions[sid].status.Active?
    case Touch(_, sid, _) => sid in db.sessions && db.sessions[sid].status.Active?
    case SetStatus(_, sid, _) => sid in db.sessions
    case SetUser(_, _, _) => true
  }

  /** What an operation does to the database; an update of a missing row does nothing. */
  function Apply(db: Db, op: Op): Db {
    match op
    case Login(_, sid, user, hash, at, expires, _) =>
      db.(sessions := db.sessions[sid := LoginRow(user, hash, at, expires)])
    case SetUser(_, user, status) => db.(users := db.users[user := status])
    case _ =>
      if op.sid !in db.sessions then db
      else db.(sessions := db.sessions[op.sid := Updated(db.sessions[op.sid], op)])
  }

  function Updated(row: Session, op: Op): Session
    requires !op.Login? && !op.SetUser?
  {
    match op
    case Rotate(_, _, _, _, hash, at, expires, _) => Rotated(row, hash, at, expires)
    case Revoke(_, _, at, reason) => RevokedRow(row, at, reason)
    case Touch(_, _, at) => row.(lastSeenAt := Some(at))
    case SetStatus(_, _, status) => row.(status := status)
  }

  /** dbs is the sequence of committed databases that the operations ops produce one by one. */
  ghost predicate History(dbs: seq<Db>, ops: seq<Op>) {
    && |dbs| == |ops| + 1
    && dbs[0].sessions == map[]
    && forall i :: 0 <= i < |ops| ==> Guard(dbs[i], ops[i]) && dbs[i + 1] == Apply(dbs[i], ops[i])
  }

  /** At db the token with hash h would be accepted by a refresh that read the clock at `at`. */
  ghost predicate Usable(db: Db, h: Hash, at: Time) {
    exists sid :: sid in db.sessions && UsableBy(db, sid, h, at)
  }

  ghost predicate UsableBy(db: Db, sid: SessionId, h: Hash, at: Time)
    requires sid in db.sessions
  {
    var row := db.sessions[sid];
    row.hash == h && row.status.Active? && row.expiresAt > at
    && row.userId in db.users && db.users[row.userId].Enabled?
  }

  /** The snapshot facts a refresh relies on when it reaches its conditional update. */
  ghost predicate SeenAt(db: Db, sid: SessionId, h: Hash, version: nat) {
    sid in db.sessions && db.sessions[sid].hash == h && db.sessions[sid].version == version
  }

  lemma HistoryMore(dbs: seq<Db>, ops: seq<Op>, op: Op)
    requires History(dbs, ops) && Guard(Last(dbs), op)
    ensures History(dbs + [Apply(Last(dbs), op)], ops + [op])
  {
  }

  // Every history keeps one session per hash and never loses or re-owns a row.

  lemma {:induction false} HistoryUnique(dbs: seq<Db>, ops: seq<Op>, i: nat)
    requires History(dbs, ops) && i < |dbs|
    ensures UniqueHashes(dbs[i].sessions)
  {
    if i > 0 {
      HistoryUnique(dbs, ops, i - 1);
      assert Guard(dbs[i - 1], ops[i - 1]);
    }
  }

  lemma {:induction false} RowsPersist(dbs: seq<Db>, ops: seq<Op>, i: nat, j: nat, sid: SessionId)
    requires History(dbs, ops) && i <= j < |dbs| && sid in dbs[i].sessions
    ensures sid in dbs[j].sessions
    ensures dbs[j].sessions[sid].userId == dbs[i].sessions[sid].userId
    ensures dbs[j].sessions[sid].issuedAt == dbs[i].sessions[sid].issuedAt
    ensures dbs[j].sessions[sid].version >= dbs[i].sessions[sid].version
    decreases j - i
  {
    if i < j {
      RowsPersist(dbs, ops, i, j - 1, sid);
      assert Guard(dbs[j - 1], ops[j - 1]);
    }
  }

  /** Whatever the tokens are and however status updates interleave, a (session, version)
      pair is consumed by at most one rotation. */
  lemma OneRotationPerVersion(dbs: seq<Db>, ops: seq<Op>, i: nat, j: nat)
    requires History(dbs, ops) && i < |ops| && j < |ops|
    requires ops[i].Rotate? && ops[j].Rotate?
    requires ops[i].sid == ops[j].sid && ops[i].oldVersion == ops[j].oldVersion
    ensures i == j
  {
    if i < j {
      RowsPersist(dbs, ops, i + 1, j, ops[i].sid);
    } else if j < i {
      RowsPersist(dbs, ops, j + 1, i, ops[i].sid);
    }
  }

  // Why a conditional update that matches no row rejects a token that was already unusable.

  /** A rotation that consumes hash h and mints it again. */
  predicate SelfRotates(op: Op, h: Hash) { op.Rotate? && op.oldHash == h && op.hash == h }

  /** No operation from i to before j re-mints the token with hash h. */
  ghost predicate NoSelfRotation(ops: seq<Op>, i: nat, j: nat, h: Hash) {
    forall n :: i <= n < j && n < |ops| ==> !SelfRotates(ops[n], h)
  }

  /** If the session that held h no longer does, the unique key leaves an instant at which
      no session held h. */
  lemma {:induction false} HashLeft(dbs: seq<Db>, ops: seq<Op>, i: nat, j: nat, sid: SessionId, h: Hash, at: Time)
    returns (k: nat)
    requires History(dbs, ops) && i <= j < |dbs|
    requires sid in dbs[i].sessions && dbs[i].sessions[sid].hash == h
    requires sid in dbs[j].sessions && dbs[j].sessions[sid].hash != h
    ensures i <= k <= j && !Usable(dbs[k], h, at)
    decreases j - i
  {
    RowsPersist(dbs, ops, i, j - 1, sid);
    if dbs[j - 1].sessions[sid].hash != h {
      k := HashLeft(dbs, ops, i, j - 1, sid, h, at);
    } else {
      HistoryUnique(dbs, ops, j - 1);
      k := j;
    }
  }

  /** A session that kept its hash but not its version was revoked in between. */
  lemma {:induction false} VersionMoved(dbs: seq<Db>, ops: seq<Op>, i: nat, j: nat, sid: SessionId, h: Hash,
                                        version: nat, at: Time)
    returns (k: nat)
    requires History(dbs, ops) && i <= j < |dbs| && NoSelfRotation(ops, i, j, h)
    requires SeenAt(dbs[i], sid, h, version)
    requires sid in dbs[j].sessions && dbs[j].sessions[sid].hash == h && dbs[j].sessions[sid].version != version
    ensures i <= k <= j && !Usable(dbs[k], h, at)
    decreases j - i
  {
    RowsPersist(dbs, ops, i, j - 1, sid);
    var before := dbs[j - 1].sessions[sid];
    if before.hash != h {
      k := HashLeft(dbs, ops, i, j - 1, sid, h, at);
    } else if before.version != version {
      k := VersionMoved(dbs, ops, i, j - 1, sid, h, version, at);
    } else {
      assert Guard(dbs[j - 1], ops[j - 1]) && !SelfRotates(ops[j - 1], h);
      HistoryUnique(dbs, ops, j);
      k := j;
    }
  }

  /** The row was seen at instant i with the hash and version of the guard. If the guard fails
      at instant j and the token was not re-minted in between, then at some instant from i to j it was
      not usable. */
  lemma MissIsJustified(dbs: seq<Db>, ops: seq<Op>, i: nat, j: nat, sid: SessionId, h: Hash, version: nat, at: Time)
    requires History(dbs, ops) && i <= j < |dbs| && NoSelfRotation(ops, i, j, h)
    requires SeenAt(dbs[i], sid, h, version)
    requires !(sid in dbs[j].sessions && RotateMatches(dbs[j].sessions[sid], h, version, at))
    ensures exists k :: i <= k <= j && !Usable(dbs[k], h, at)
  {
    RowsPersist(dbs, ops, i, j, sid);
    var row := dbs[j].sessions[sid];
    if row.hash != h {
      var k := HashLeft(dbs, ops, i, j, sid, h, at);
    } else if row.version != version {
      var k := VersionMoved(dbs, ops, i, j, sid, h, version, at);
    } else {
      HistoryUnique(dbs, ops, j);
      assert !Usable(dbs[j], h, at);
    }
  }

  /** The exact condition: a token that stays usable from i to j is missed at j exactly when some
      rotation in between consumed it and minted it again. */
  lemma MissWhileUsable(dbs: seq<Db>, ops: seq<Op>, i: nat, j: nat, sid: SessionId, h: Hash, version: nat, at: Time)
    requires History(dbs, ops) && i <= j < |dbs| && SeenAt(dbs[i], sid, h, version)
    requires forall k :: i <= k <= j ==> Usable(dbs[k], h, at)
    ensures !(sid in dbs[j].sessions && RotateMatches(dbs[j].sessions[sid], h, version, at))
            <==> exists n :: i <= n < j && SelfRotates(ops[n], h)
  {
    RowsPersist(dbs, ops, i, j, sid);
    forall n | i <= n < j && SelfRotates(ops[n], h)
      ensures dbs[j].sessions[sid].version > version
    {
      RowsPersist(dbs, ops, i, n, sid);
      if dbs[n].sessions[sid].hash != h {
        var k := HashLeft(dbs, ops, i, n, sid, h, at);
      }
      HistoryUnique(dbs, ops, n);
      assert Guard(dbs[n], ops[n]);
      RowsPersist(dbs, ops, n + 1, j, sid);
    }
    if NoSelfRotation(ops, i, j, h) && !RotateMatches(dbs[j].sessions[sid], h, version, at) {
      MissIsJustified(dbs, ops, i, j, sid, h, version, at);
    }
  }

  /** Such runs exist: if a rotation could mint the hash it consumes, a refresh that saw
      version 0 would miss its update although the token was usable throughout. */
  lemma SelfRotationMisleads(dbs: seq<Db>, ops: seq<Op>)
    requires |dbs| == 3 && dbs[0] == Db(map[], map[1 := Enabled])
    requires ops == [Login(0, "s", 1, "h", 10, 30, AccessToken(1, "s")),
                     Rotate(1, "s", "h", 0, "h", 11, 31, AccessToken(1, "s"))]
    requires dbs[1] == Apply(dbs[0], ops[0]) && dbs[2] == Apply(dbs[1], ops[1])
    ensures History(dbs, ops) && SeenAt(dbs[1], "s", "h", 0)
    ensures "s" in dbs[2].sessions && !RotateMatches(dbs[2].sessions["s"], "h", 0, 12)
    ensures Usable(dbs[1], "h", 12) && Usable(dbs[2], "h", 12)
  {
    assert Guard(dbs[0], ops[0]) && Guard(dbs[1], ops[1]);
    assert UsableBy(dbs[1], "s", "h", 12) && UsableBy(dbs[2], "s", "h", 12);
  }

  /** What the last status update of a session from i to before k wrote, if there was one. */
  function LastStatus(ops: seq<Op>, i: nat, k: nat, sid: SessionId): Option<SessionStatus>
    requires i <= k <= |ops|
    decreases k
  {
    if i == k then None
    else if SetsStatus(ops[k - 1], sid) then Some(ops[k - 1].status)
    else LastStatus(ops, i, k - 1, sid)
  }

  predicate SetsStatus(op: Op, sid: SessionId) { op.SetStatus? && op.sid == sid }

  lemma {:induction false} LastStatusIsLast(ops: seq<Op>, i: nat, k: nat, sid: SessionId, status: SessionStatus)
    requires i <= k <= |ops|
    ensures LastStatus(ops, i, k, sid) == Some(status) <==>
              exists n :: i <= n < k && SetsStatus(ops[n], sid) && ops[n].status == status
                          && forall m :: n < m < k ==> !SetsStatus(ops[m], sid)
    decreases k
  {
    if i < k && !SetsStatus(ops[k - 1], sid) {
      LastStatusIsLast(ops, i, k - 1, sid, status);
    }
  }

  /** Between two instants at which a session has one version, its hash and expiry do not move. */
  lemma {:induction false} SameVersionSameRow(dbs: seq<Db>, ops: seq<Op>, i: nat, k: nat, j: nat, sid: SessionId)
    requires History(dbs, ops) && i <= k <= j < |dbs| && sid in dbs[i].sessions && sid in dbs[j].sessions
    requires dbs[i].sessions[sid].version == dbs[j].sessions[sid].version
    ensures sid in dbs[k].sessions && dbs[k].sessions[sid].version == dbs[i].sessions[sid].version
    ensures dbs[k].sessions[sid].hash == dbs[i].sessions[sid].hash
    ensures dbs[k].sessions[sid].expiresAt == dbs[i].sessions[sid].expiresAt
    decreases k - i
  {
    if i < k {
      SameVersionSameRow(dbs, ops, i, k - 1, j, sid);
      assert Guard(dbs[k - 1], ops[k - 1]);
      RowsPersist(dbs, ops, i, k - 1, sid);
      RowsPersist(dbs, ops, k, j, sid);
    }
  }

  /** And its status is what the last status update in between wrote, if there was one. */
  lemma {:induction false} SameVersionStatus(dbs: seq<Db>, ops: seq<Op>, i: nat, k: nat, j: nat, sid: SessionId)
    requires History(dbs, ops) && i <= k <= j < |dbs| && sid in dbs[i].sessions && sid in dbs[j].sessions
    requires dbs[i].sessions[sid].version == dbs[j].sessions[sid].version
    ensures var last := LastStatus(ops, i, k, sid);
            sid in dbs[k].sessions
            && dbs[k].sessions[sid].status == if last.Some? then last.value else dbs[i].sessions[sid].status
    decreases k - i
  {
    if i < k {
      SameVersionStatus(dbs, ops, i, k - 1, j, sid);
      SameVersionSameRow(dbs, ops, i, k - 1, j, sid);
      SameVersionSameRow(dbs, ops, i, k, j, sid);
      StatusStep(dbs[k - 1], ops[k - 1], sid);
    }
  }

  /** An operation that leaves a session's version alone changes its status only as a status update. */
  lemma StatusStep(db: Db, op: Op, sid: SessionId)
    requires Guard(db, op) && sid in db.sessions
    requires Apply(db, op).sessions[sid].version == db.sessions[sid].version
    ensures Apply(db, op).sessions[sid].status ==
              if SetsStatus(op, sid) then op.status else db.sessions[sid].status
  {
  }

  // Every column of a row is told by the history.

  datatype Kind = OfLogin | OfRotate | OfRevoke | OfTouch | OfStatus

  predicate IsOf(op: Op, sid: SessionId, kinds: set<Kind>) {
    match op
    case Login(_, s, _, _, _, _, _) => s == sid && OfLogin in kinds
    case Rotate(_, s, _, _, _, _, _, _) => s == sid && OfRotate in kinds
    case Revoke(_, s, _, _) => s == sid && OfRevoke in kinds
    case Touch(_, s, _) => s == sid && OfTouch in kinds
    case SetStatus(_, s, _) => s == sid && OfStatus in kinds
    case SetUser(_, _, _) => false
  }

  /** The last operation of these kinds on a session. */
  function LastOf(ops: seq<Op>, sid: SessionId, kinds: set<Kind>): (last: Option<Op>)
    ensures last.Some? ==> IsOf(last.value, sid, kinds)
  {
    if ops == [] then None
    else if IsOf(Last(ops), sid, kinds) then Some(Last(ops))
    else LastOf(ops[..|ops| - 1], sid, kinds)
  }

  lemma {:induction false} LastOfIsLast(ops: seq<Op>, sid: SessionId, kinds: set<Kind>, op: Op)
    ensures LastOf(ops, sid, kinds) == Some(op) <==>
              exists n :: 0 <= n < |ops| && ops[n] == op && IsOf(op, sid, kinds)
                          && forall m :: n < m < |ops| ==> !IsOf(ops[m], sid, kinds)
    decreases |ops|
  {
    if ops != [] {
      var init := ops[..|ops| - 1];
      assert forall n :: 0 <= n < |init| ==> init[n] == ops[n];
      if !IsOf(Last(ops), sid, kinds) {
        LastOfIsLast(init, sid, kinds, op);
      }
    }
  }

  /** The owner and issue time are the login's; hash and expiry are those of the last mint; the other
      columns are those of the last operation that writes them. */
  ghost predicate RowTold(row: Session, ops: seq<Op>, sid: SessionId) {
    var login, mint := LastOf(ops, sid, {OfLogin}), LastOf(ops, sid, {OfLogin, OfRotate});
    var seen, refreshed := LastOf(ops, sid, {OfLogin, OfRotate, OfTouch}), LastOf(ops, sid, {OfRotate});
    var revoked, stated := LastOf(ops, sid, {OfRevoke}), LastOf(ops, sid, {OfLogin, OfRevoke, OfStatus});
    && login.Some? && row.userId == login.value.user && row.issuedAt == login.value.at
    && mint.Some? && row.hash == mint.value.hash && row.expiresAt == mint.value.expires
    && seen.Some? && row.lastSeenAt == Some(seen.value.at)
    && row.lastRefreshedAt == (if refreshed.None? then None else Some(refreshed.value.at))
    && row.revokedAt == (if revoked.None? then None else Some(revoked.value.at))
    && row.revokeReason
       == (if revoked.None? || revoked.value.reason == "" then None else Some(revoked.value.reason))
    && stated.Some?
    && row.status
       == (if stated.value.Login? then Active else if stated.value.Revoke? then Revoked else stated.value.status)
    && row.version == Bumps(ops, sid)
  }

  /** A session that is not in the table has no operation. */
  lemma {:induction false} NeverOpened(dbs: seq<Db>, ops: seq<Op>, sid: SessionId, kinds: set<Kind>)
    requires History(dbs, ops) && sid !in Last(dbs).sessions
    ensures LastOf(ops, sid, kinds) == None
    decreases |ops|
  {
    if ops != [] {
      var n := |ops| - 1;
      HistoryPrefix(dbs, ops, n);
      assert Last(dbs[..n + 1]) == dbs[n] && Guard(dbs[n], ops[n]);
      NeverOpened(dbs[..n + 1], ops[..n], sid, kinds);
    }
  }

  lemma RowStep(db: Db, ops: seq<Op>, sid: SessionId)
    requires ops != [] && Guard(db, Last(ops)) && sid in db.sessions
    requires RowTold(db.sessions[sid], ops[..|ops| - 1], sid)
    ensures sid in Apply(db, Last(ops)).sessions && RowTold(Apply(db, Last(ops)).sessions[sid], ops, sid)
  {
    var op := Last(ops);
    if op.SetUser? || op.sid != sid {
      OtherStep(db.sessions[sid], ops, sid);
      assert Apply(db, op).sessions[sid] == db.sessions[sid];
    } else {
      OwnStep(db.sessions[sid], ops, sid);
      assert Apply(db, op).sessions[sid] == Updated(db.sessions[sid], op);
    }
  }

  lemma OtherStep(row: Session, ops: seq<Op>, sid: SessionId)
    requires ops != [] && RowTold(row, ops[..|ops| - 1], sid) && (Last(ops).SetUser? || Last(ops).sid != sid)
    ensures RowTold(row, ops, sid)
  {
  }

  lemma OwnStep(row: Session, ops: seq<Op>, sid: SessionId)
    requires ops != [] && RowTold(row, ops[..|ops| - 1], sid)
    requires !Last(ops).SetUser? && !Last(ops).Login? && Last(ops).sid == sid
    ensures RowTold(Updated(row, Last(ops)), ops, sid)
  {
  }

  lemma RowStart(dbs: seq<Db>, ops: seq<Op>, sid: SessionId)
    requires History(dbs, ops) && ops != [] && sid in Last(dbs).sessions && sid !in dbs[|ops| - 1].sessions
    ensures RowTold(Last(dbs).sessions[sid], ops, sid)
  {
    var n := |ops| - 1;
    HistoryPrefix(dbs, ops, n);
    assert Guard(dbs[n], ops[n]) && Last(dbs[..n + 1]) == dbs[n];
    ChainShape(dbs[..n + 1], ops[..n], sid);
    NeverOpened(dbs[..n + 1], ops[..n], sid, {OfRotate});
    NeverOpened(dbs[..n + 1], ops[..n], sid, {OfRevoke});
  }

  /** In every history each column of each row is what the operations on its session last wrote there. */
  lemma {:induction false} RowTellsHistory(dbs: seq<Db>, ops: seq<Op>, sid: SessionId)
    requires History(dbs, ops) && sid in Last(dbs).sessions
    ensures RowTold(Last(dbs).sessions[sid], ops, sid)
    decreases |ops|
  {
    var n := |ops| - 1;
    if sid in dbs[n].sessions {
      HistoryPrefix(dbs, ops, n);
      RowTellsHistory(dbs[..n + 1], ops[..n], sid);
      assert Guard(dbs[n], ops[n]);
      RowStep(dbs[n], ops, sid);
    } else {
      RowStart(dbs, ops, sid);
    }
  }

  // The chain of tokens of a session.

  /** The hashes that committed logins and rotations minted for sid, oldest first. */
  function Chain(ops: seq<Op>, sid: SessionId): seq<Hash> {
    if ops == [] then [] else
      var rest := Chain(ops[..|ops| - 1], sid);
      var op := Last(ops);
      if Mints(op) && op.sid == sid then rest + [op.hash] else rest
  }

  /** The hashes that committed rotations of sid consumed, oldest first. */
  function Consumed(ops: seq<Op>, sid: SessionId): seq<Hash> {
    if ops == [] then [] else
      var rest := Consumed(ops[..|ops| - 1], sid);
      var op := Last(ops);
      if op.Rotate? && op.sid == sid then rest + [op.oldHash] else rest
  }

  /** Committed rotations and revocations of sid. */
  function Bumps(ops: seq<Op>, sid: SessionId): nat {
    if ops == [] then 0 else
      Bumps(ops[..|ops| - 1], sid) + if (Last(ops).Rotate? || Last(ops).Revoke?) && Last(ops).sid == sid then 1 else 0
  }

  lemma HistoryPrefix(dbs: seq<Db>, ops: seq<Op>, n: nat)
    requires History(dbs, ops) && n <= |ops|
    ensures History(dbs[..n + 1], ops[..n])
  {
  }

  /** The minted tokens of a session form one chain: every rotation consumes the last minted one,
      the row holds the last one, and the version counts the rotations and revocations. */
  lemma {:induction false} ChainShape(dbs: seq<Db>, ops: seq<Op>, sid: SessionId)
    requires History(dbs, ops)
    ensures sid !in Last(dbs).sessions ==> Chain(ops, sid) == [] && Consumed(ops, sid) == [] && Bumps(ops, sid) == 0
    ensures sid in Last(dbs).sessions ==>
              && Chain(ops, sid) == Consumed(ops, sid) + [Last(dbs).sessions[sid].hash]
              && Last(dbs).sessions[sid].version == Bumps(ops, sid)
    decreases |ops|
  {
    if ops != [] {
      var n := |ops| - 1;
      HistoryPrefix(dbs, ops, n);
      ChainShape(dbs[..n + 1], ops[..n], sid);
      assert Last(dbs[..n + 1]) == dbs[n];
      assert Guard(dbs[n], ops[n]);
    }
  }

  /** No two committed operations mint one hash. */
  ghost predicate FreshMints(ops: seq<Op>) {
    forall i, j :: 0 <= i < j < |ops| && Mints(ops[i]) && Mints(ops[j]) ==> ops[i].hash != ops[j].hash
  }

  /** A hash held at instant i was minted before. */
  lemma {:induction false} HeldWasMinted(dbs: seq<Db>, ops: seq<Op>, i: nat, sid: SessionId) returns (m: nat)
    requires History(dbs, ops) && i < |dbs| && sid in dbs[i].sessions
    ensures m < i && Mints(ops[m]) && ops[m].sid == sid && ops[m].hash == dbs[i].sessions[sid].hash
  {
    var op := ops[i - 1];
    assert Guard(dbs[i - 1], op);
    if Mints(op) && op.sid == sid {
      m := i - 1;
    } else {
      m := HeldWasMinted(dbs, ops, i - 1, sid);
    }
  }

  /** With fresh mints a consumed hash never comes back to the table. */
  lemma {:induction false} ConsumedIsGone(dbs: seq<Db>, ops: seq<Op>, k: nat, j: nat, sid: SessionId)
    requires History(dbs, ops) && FreshMints(ops) && k < j < |dbs| && ops[k].Rotate?
    requires sid in dbs[j].sessions
    ensures dbs[j].sessions[sid].hash != ops[k].oldHash
    decreases j
  {
    var held := HeldWasMinted(dbs, ops, k, ops[k].sid);
    assert Guard(dbs[k], ops[k]) && Guard(dbs[j - 1], ops[j - 1]);
    if j == k + 1 {
      HistoryUnique(dbs, ops, k);
    } else if sid in dbs[j - 1].sessions {
      ConsumedIsGone(dbs, ops, k, j - 1, sid);
    }
  }

  /** With fresh mints at most one rotation ever succeeds per refresh token, and once it has,
      no session holds the token's hash. */
  lemma OneRotationPerToken(dbs: seq<Db>, ops: seq<Op>, i: nat, j: nat)
    requires History(dbs, ops) && FreshMints(ops) && i < |ops| && j < |ops|
    requires ops[i].Rotate? && ops[j].Rotate? && ops[i].oldHash == ops[j].oldHash
    ensures i == j
  {
    if i < j {
      ConsumedIsGone(dbs, ops, i, j, ops[j].sid);
    } else if j < i {
      ConsumedIsGone(dbs, ops, j, i, ops[i].sid);
    }
  }

  /** With fresh mints only the last element of a session's chain has its hash in the table,
      and no element occurs twice. */
  lemma OnlyLastIsHeld(dbs: seq<Db>, ops: seq<Op>, sid: SessionId, other: SessionId, n: nat)
    requires History(dbs, ops) && FreshMints(ops)
    requires sid in Last(dbs).sessions && other in Last(dbs).sessions && n < |Chain(ops, sid)|
    ensures Last(dbs).sessions[other].hash == Chain(ops, sid)[n] <==> other == sid && n == |Chain(ops, sid)| - 1
  {
    ChainShape(dbs, ops, sid);
    HistoryUnique(dbs, ops, |ops|);
    if n < |Chain(ops, sid)| - 1 {
      var k := ConsumedAt(ops, sid, n);
      ConsumedIsGone(dbs, ops, k, |ops|, other);
    }
  }

  lemma {:induction false} ConsumedAt(ops: seq<Op>, sid: SessionId, n: nat) returns (k: nat)
    requires n < |Consumed(ops, sid)|
    ensures k < |ops| && ops[k].Rotate? && ops[k].sid == sid && ops[k].oldHash == Consumed(ops, sid)[n]
    decreases |ops|
  {
    var rest := ops[..|ops| - 1];
    if n < |Consumed(rest, sid)| {
      k := ConsumedAt(rest, sid, n);
    } else {
      k := |ops| - 1;
    }
  }

  /** A status update that makes session sid active. */
  predicate Reactivates(op: Op, sid: SessionId) { op.SetStatus? && op.sid == sid && op.status.Active? }

  /** A revoked row stays as it is, in every column, exactly until a status update makes it active. */
  lemma {:induction false} RevokedIsFrozen(dbs: seq<Db>, ops: seq<Op>, i: nat, j: nat, sid: SessionId)
    requires History(dbs, ops) && i <= j < |dbs|
    requires sid in dbs[i].sessions && dbs[i].sessions[sid].status.Revoked?
    ensures (forall k :: i <= k <= j ==> sid in dbs[k].sessions && dbs[k].sessions[sid] == dbs[i].sessions[sid])
            <==> forall n :: i <= n < j ==> !Reactivates(ops[n], sid)
    decreases j - i
  {
    if i < j {
      RevokedIsFrozen(dbs, ops, i, j - 1, sid);
      RowsPersist(dbs, ops, i, j - 1, sid);
      assert Guard(dbs[j - 1], ops[j - 1]);
      if dbs[j - 1].sessions[sid] == dbs[i].sessions[sid] {
        assert sid in dbs[j].sessions;
        assert dbs[j].sessions[sid] == dbs[i].sessions[sid] <==> !Reactivates(ops[j - 1], sid);
      }
    }
  }

  /** With status updates it can: revoke, reactivate, rotate is a history. */
  lemma RevokedCanComeBack(dbs: seq<Db>, ops: seq<Op>)
    requires |dbs| == 5 && dbs[0] == Db(map[], map[1 := Enabled])
    requires ops == [Login(0, "s", 1, "h", 10, 20, AccessToken(1, "s")), Revoke(1, "s", 11, "r"),
                     SetStatus(2, "s", Active), Rotate(3, "s", "h", 1, "g", 12, 22, AccessToken(1, "s"))]
    requires forall i :: 0 <= i < 4 ==> dbs[i + 1] == Apply(dbs[i], ops[i])
    ensures History(dbs, ops)
    ensures "s" in dbs[2].sessions && dbs[2].sessions["s"].status.Revoked?
    ensures "s" in dbs[4].sessions && dbs[4].sessions["s"].hash == "g"
  {
    assert dbs[1] == Apply(dbs[0], ops[0]);
    assert dbs[2] == Apply(dbs[1], ops[1]);
    assert dbs[3] == Apply(dbs[2], ops[2]);
    assert dbs[4] == Apply(dbs[3], ops[3]);
    assert Guard(dbs[0], ops[0]) && Guard(dbs[1], ops[1]) && Guard(dbs[2], ops[2]);
    assert Guard(dbs[3], ops[3]);
  }

  // Times along a session.

  /** Every row expires a lifetime after its last issue or refresh, and was issued no later. */
  ghost predicate RowTimes(ttl: Time, row: Session) {
    row.issuedAt <= LastTime(row) < row.expiresAt && row.expiresAt == LastTime(row) + ttl
  }

  ghost predicate OpTimes(ttl: Time, db: Db, op: Op) {
    match op
    case Login(_, _, _, _, at, expires, _) => expires == at + ttl
    case Rotate(_, sid, _, _, _, at, expires, _) =>
      expires == at + ttl && (sid in db.sessions ==> LastTime(db.sessions[sid]) <= at)
    case _ => true
  }

  ghost predicate HistoryTimes(ttl: Time, dbs: seq<Db>, ops: seq<Op>)
    requires |dbs| == |ops| + 1
  {
    forall i :: 0 <= i < |ops| ==> OpTimes(ttl, dbs[i], ops[i])
  }

  lemma {:induction false} TimesMonotone(ttl: Time, dbs: seq<Db>, ops: seq<Op>, i: nat, j: nat, sid: SessionId)
    requires ttl > 0 && History(dbs, ops) && HistoryTimes(ttl, dbs, ops)
    requires i <= j < |dbs| && sid in dbs[i].sessions
    ensures sid in dbs[j].sessions && RowTimes(ttl, dbs[i].sessions[sid]) && RowTimes(ttl, dbs[j].sessions[sid])
    ensures LastTime(dbs[i].sessions[sid]) <= LastTime(dbs[j].sessions[sid])
    ensures dbs[i].sessions[sid].expiresAt <= dbs[j].sessions[sid].expiresAt
    decreases j
  {
    if j > 0 {
      assert Guard(dbs[j - 1], ops[j - 1]) && OpTimes(ttl, dbs[j - 1], ops[j - 1]);
      if i < j {
        TimesMonotone(ttl, dbs, ops, i, j - 1, sid);
      } else if sid in dbs[j - 1].sessions {
        TimesMonotone(ttl, dbs, ops, j - 1, j - 1, sid);
      }
    }
  }
}
