/** Any number of logins, refreshes, revocations and status updates in flight at once,
    each a transaction of several steps, and the proof that every interleaving of them
    is a history of the atomic session store. */
module SessionProtocol {
  import opened Common
  import opened AuthSessions
  import opened SessionHistory

  /** Where a request is. `began` and the snapshots are instants: indexes into the committed
      databases. A plain read may return any database committed since the transaction's
      previous read, so it may be stale when the request writes. */
  datatype Req =
    | RefreshStarted(began: nat, hash: Hash, at: Time)
    | RefreshSession(began: nat, hash: Hash, at: Time, read: SessionRead)
    | RefreshUser(began: nat, hash: Hash, at: Time, read: SessionRead, userSnap: nat)
    | LoginStarted(began: nat)
    | LoginUser(began: nat, user: UserId, userSnap: nat)
    | LoginStamped(began: nat, user: UserId, userSnap: nat, at: Time)
    | Pending(began: nat, proof: Proof, updated: nat, op: Op)

  /** The columns a refresh keeps of the session it read at instant snap. */
  datatype SessionRead = SessionRead(snap: nat, sid: SessionId, user: UserId, version: nat)

  /** What a transaction read before it wrote. */
  datatype Proof = ByRefresh(read: SessionRead, userSnap: nat) | ByLogin(userSnap: nat) | ByWrite

  datatype Outcome =
    | Refreshed(began: nat, read: SessionRead, userSnap: nat, updated: nat, index: nat)
    | InvalidToken(began: nat, ended: nat, hash: Hash, at: Time)
    | Written(began: nat, updated: nat, index: nat)
    | Failed

  datatype State = State(
    now: Time,
    dbs: seq<Db>,
    ops: seq<Op>,
    minted: set<Hash>,
    reqs: map<ReqId, Req>,
    done: map<ReqId, Outcome>)

  datatype Action =
    | Tick(to: Time)
    | BeginRefresh(r: ReqId, hash: Hash)
    | ReadSession(r: ReqId, snap: nat)
    | ReadUser(r: ReqId, snap: nat)
    | UpdateRotate(r: ReqId, newHash: Hash)
    | BeginLogin(r: ReqId)
    | ReadLoginUser(r: ReqId, snap: nat, user: UserId)
    | StampLogin(r: ReqId)
    | InsertLogin(r: ReqId, sid: SessionId, newHash: Hash)
    | Write(r: ReqId, op: Op)
    | Commit(r: ReqId)
    | Fail(r: ReqId)

  ghost predicate Init(s: State) {
    |s.dbs| == 1 && s.dbs[0].sessions == map[] && s.ops == [] && s.minted == {} && s.reqs == map[] && s.done == map[]
  }

  /** Two uncommitted writes that cannot both hold their locks: one row, or one unique hash. */
  predicate Conflict(a: Op, b: Op) {
    || (!a.SetUser? && !b.SetUser? && a.sid == b.sid)
    || (Mints(a) && Mints(b) && a.hash == b.hash)
  }

  ghost predicate LockFree(s: State, op: Op) {
    forall q :: q in s.reqs && s.reqs[q].Pending? ==> !Conflict(s.reqs[q].op, op)
  }

  /** The operation a refresh performs when its conditional update matches. */
  function RotateOp(ttl: Time, r: ReqId, q: Req, newHash: Hash): Op
    requires q.RefreshUser?
  {
    Rotate(r, q.read.sid, q.hash, q.read.version, newHash, q.at, q.at + ttl, AccessToken(q.read.user, q.read.sid))
  }

  function LoginOp(ttl: Time, r: ReqId, q: Req, sid: SessionId, newHash: Hash): Op
    requires q.LoginStamped?
  {
    Login(r, sid, q.user, newHash, q.at, q.at + ttl, AccessToken(q.user, sid))
  }

  /** The conditional update looks at the latest committed row, not at the snapshot. */
  predicate UpdateHits(db: Db, q: Req)
    requires q.RefreshUser?
  {
    q.read.sid in db.sessions && RotateMatches(db.sessions[q.read.sid], q.hash, q.read.version, q.at)
  }

  /** The session the first read of a refresh finds at instant snap, when it passes the checks. */
  ghost predicate FindsSession(db: Db, h: Hash, at: Time, sid: SessionId) {
    sid in db.sessions && db.sessions[sid].hash == h && db.sessions[sid].status.Active?
      && db.sessions[sid].expiresAt > at
  }

  ghost predicate Enables(ttl: Time, s: State, a: Action)
    requires s.dbs != []
  {
    match a
    case Tick(to) => s.now <= to
    case BeginRefresh(r, _) => r !in s.reqs && r !in s.done
    case ReadSession(r, snap) =>
      r in s.reqs && s.reqs[r].RefreshStarted? && s.reqs[r].began <= snap < |s.dbs|
    case ReadUser(r, snap) =>
      r in s.reqs && s.reqs[r].RefreshSession? && s.reqs[r].read.snap <= snap < |s.dbs|
    case UpdateRotate(r, newHash) =>
      r in s.reqs && s.reqs[r].RefreshUser?
      && (UpdateHits(Last(s.dbs), s.reqs[r]) ==>
            HashFree(Last(s.dbs).sessions, s.reqs[r].read.sid, newHash)
            && LockFree(s, RotateOp(ttl, r, s.reqs[r], newHash)))
    case BeginLogin(r) => r !in s.reqs && r !in s.done
    case ReadLoginUser(r, snap, user) =>
      r in s.reqs && s.reqs[r].LoginStarted? && s.reqs[r].began <= snap < |s.dbs|
      && user in s.dbs[snap].users && !s.dbs[snap].users[user].Disabled?
    case StampLogin(r) => r in s.reqs && s.reqs[r].LoginUser?
    case InsertLogin(r, sid, newHash) =>
      r in s.reqs && s.reqs[r].LoginStamped?
      && (var op := LoginOp(ttl, r, s.reqs[r], sid, newHash); Guard(Last(s.dbs), op) && LockFree(s, op))
    case Write(r, op) =>
      r !in s.reqs && r !in s.done && op.req == r && !Mints(op) && Guard(Last(s.dbs), op) && LockFree(s, op)
    case Commit(r) => r in s.reqs && s.reqs[r].Pending?
    case Fail(r) => r in s.reqs
  }

  ghost function Next(ttl: Time, s: State, a: Action): State
    requires s.dbs != [] && Enables(ttl, s, a)
  {
    match a
    case Tick(to) => s.(now := to)
    case BeginRefresh(r, h) => s.(reqs := s.reqs[r := RefreshStarted(|s.ops|, h, s.now)])
    case ReadSession(r, snap) => AfterSessionRead(s, r, snap)
    case ReadUser(r, snap) =>
      var q, db := s.reqs[r], s.dbs[snap];
      if q.read.user in db.users && db.users[q.read.user].Enabled?
      then s.(reqs := s.reqs[r := RefreshUser(q.began, q.hash, q.at, q.read, snap)])
      else Reject(s, r, q)
    case UpdateRotate(r, newHash) =>
      var q := s.reqs[r];
      if UpdateHits(Last(s.dbs), q)
      then s.(reqs := s.reqs[r := Pending(q.began, ByRefresh(q.read, q.userSnap), |s.ops|,
        RotateOp(ttl, r, q, newHash))],
              minted := s.minted + {newHash})
      else Reject(s, r, q)
    case BeginLogin(r) => s.(reqs := s.reqs[r := LoginStarted(|s.ops|)])
    case ReadLoginUser(r, snap, user) => s.(reqs := s.reqs[r := LoginUser(s.reqs[r].began, user, snap)])
    case StampLogin(r) =>
      s.(reqs := s.reqs[r := LoginStamped(s.reqs[r].began, s.reqs[r].user, s.reqs[r].userSnap, s.now)])
    case InsertLogin(r, sid, newHash) =>
      var q := s.reqs[r];
      s.(reqs := s.reqs[r := Pending(q.began, ByLogin(q.userSnap), |s.ops|, LoginOp(ttl, r, q, sid, newHash))],
         minted := s.minted + {newHash})
    case Write(r, op) => s.(reqs := s.reqs[r := Pending(|s.ops|, ByWrite, |s.ops|, op)])
    case Commit(r) =>
      var q := s.reqs[r];
      s.(ops := s.ops + [q.op], dbs := s.dbs + [Apply(Last(s.dbs), q.op)],
         reqs := s.reqs - {r}, done := s.done[r := Committed(q, |s.ops|)])
    case Fail(r) => s.(reqs := s.reqs - {r}, done := s.done[r := Failed])
  }

  ghost function AfterSessionRead(s: State, r: ReqId, snap: nat): State
    requires r in s.reqs && s.reqs[r].RefreshStarted? && snap < |s.dbs|
  {
    var q, db := s.reqs[r], s.dbs[snap];
    if exists sid :: FindsSession(db, q.hash, q.at, sid) then
      var sid :| FindsSession(db, q.hash, q.at, sid);
      var row := db.sessions[sid];
      s.(reqs := s.reqs[r := RefreshSession(q.began, q.hash, q.at, SessionRead(snap, sid, row.userId, row.version))])
    else Reject(s, r, q)
  }

  function Reject(s: State, r: ReqId, q: Req): State
    requires q.RefreshStarted? || q.RefreshSession? || q.RefreshUser?
  {
    s.(reqs := s.reqs - {r}, done := s.done[r := InvalidToken(q.began, |s.ops|, q.hash, q.at)])
  }

  function Committed(q: Req, index: nat): Outcome
    requires q.Pending?
  {
    if q.proof.ByRefresh? then Refreshed(q.began, q.proof.read, q.proof.userSnap, q.updated, index)
    else Written(q.began, q.updated, index)
  }

  // What every reachable state satisfies.

  /** The operation is enabled, and the row it writes does not change, at every instant of from..to. */
  ghost predicate Held(dbs: seq<Db>, from: nat, to: nat, op: Op)
    requires from <= to < |dbs|
  {
    forall i :: from <= i <= to ==> Guard(dbs[i], op) && SameRow(dbs[from], dbs[i], op)
  }

  ghost predicate SameRow(a: Db, b: Db, op: Op) {
    !op.SetUser? && !op.Login? && op.sid in a.sessions ==>
      op.sid in b.sessions && a.sessions[op.sid] == b.sessions[op.sid]
  }

  ghost predicate ReadOk(dbs: seq<Db>, began: nat, h: Hash, at: Time, read: SessionRead) {
    && began <= read.snap < |dbs|
    && FindsSession(dbs[read.snap], h, at, read.sid)
    && dbs[read.snap].sessions[read.sid].version == read.version
    && dbs[read.snap].sessions[read.sid].userId == read.user
  }

  ghost predicate UserOk(dbs: seq<Db>, from: nat, userSnap: nat, user: UserId) {
    from <= userSnap < |dbs| && user in dbs[userSnap].users && dbs[userSnap].users[user].Enabled?
  }

  /** What a transaction read justifies what it writes. */
  ghost predicate ProofOk(dbs: seq<Db>, began: nat, proof: Proof, updated: nat, op: Op) {
    match proof
    case ByRefresh(read, userSnap) =>
      && op.Rotate?
      && ReadOk(dbs, began, op.oldHash, op.at, read) && UserOk(dbs, read.snap, userSnap, read.user)
      && userSnap <= updated && op.sid == read.sid && op.oldVersion == read.version
      && op.access == AccessToken(read.user, read.sid)
    case ByLogin(userSnap) =>
      op.Login? && UserOk(dbs, began, userSnap, op.user) && userSnap <= updated
        && op.access == AccessToken(op.user, op.sid)
    case ByWrite => !Mints(op)
  }

  ghost predicate ReqOk(dbs: seq<Db>, n: nat, r: ReqId, q: Req)
    requires |dbs| == n + 1
  {
    q.began <= n &&
    match q
    case RefreshStarted(_, _, _) => true
    case RefreshSession(began, h, at, read) => ReadOk(dbs, began, h, at, read)
    case RefreshUser(began, h, at, read, userSnap) =>
      ReadOk(dbs, began, h, at, read) && UserOk(dbs, read.snap, userSnap, read.user)
    case LoginStarted(_) => true
    case LoginUser(began, user, userSnap) => UserOk(dbs, began, userSnap, user)
    case LoginStamped(began, user, userSnap, _) => UserOk(dbs, began, userSnap, user)
    case Pending(began, proof, updated, op) =>
      op.req == r && began <= updated <= n && ProofOk(dbs, began, proof, updated, op) && Held(dbs, updated, n, op)
  }

  /** A successful refresh: its operation is in the history at `index`, inside the request's own
      interval, and could have been placed at any instant from its conditional update on. */
  ghost predicate EffectOk(dbs: seq<Db>, ops: seq<Op>, r: ReqId, began: nat, proof: Proof, updated: nat, index: nat)
    requires |dbs| == |ops| + 1
  {
    && began <= updated <= index < |ops| && ops[index].req == r
    && ProofOk(dbs, began, proof, updated, ops[index]) && Held(dbs, updated, index, ops[index])
  }

  ghost predicate OutcomeOk(dbs: seq<Db>, ops: seq<Op>, r: ReqId, o: Outcome)
    requires |dbs| == |ops| + 1
  {
    match o
    case Refreshed(began, read, userSnap, updated, index) =>
      EffectOk(dbs, ops, r, began, ByRefresh(read, userSnap), updated, index)
    case InvalidToken(began, ended, h, at) =>
      began <= ended <= |ops|
      && (NoSelfRotation(ops, began, ended, h) ==> exists k :: began <= k <= ended && !Usable(dbs[k], h, at))
    case Written(began, updated, index) =>
      exists proof: Proof :: !proof.ByRefresh? && EffectOk(dbs, ops, r, began, proof, updated, index)
    case Failed => true
  }

  /** The k-th committed operation belongs to the one request that reported it. */
  ghost predicate Reported(s: State, k: nat)
    requires k < |s.ops|
  {
    s.ops[k].req in s.done &&
    match s.done[s.ops[k].req]
    case Refreshed(_, _, _, _, index) => index == k
    case Written(_, _, index) => index == k
    case _ => false
  }

  ghost predicate Inv(s: State) {
    && History(s.dbs, s.ops)
    && (forall r :: r in s.reqs ==> r !in s.done && ReqOk(s.dbs, |s.ops|, r, s.reqs[r]))
    && (forall r :: r in s.done ==> OutcomeOk(s.dbs, s.ops, r, s.done[r]))
    && (forall k :: 0 <= k < |s.ops| ==> Reported(s, k))
    && (forall a, b :: a in s.reqs && b in s.reqs && a != b && s.reqs[a].Pending? && s.reqs[b].Pending?
          ==> !Conflict(s.reqs[a].op, s.reqs[b].op))
  }

  /** Two enabled operations that hold different locks commute: neither disables the other. */
  lemma GuardSurvives(db: Db, a: Op, b: Op)
    requires Guard(db, a) && Guard(db, b) && !Conflict(a, b)
    ensures Guard(Apply(db, a), b) && SameRow(db, Apply(db, a), b)
  {
  }

  /** A held operation stays held when one that holds other locks commits. */
  lemma HeldMore(dbs: seq<Db>, from: nat, n: nat, a: Op, op: Op)
    requires |dbs| == n + 1 && from <= n && Held(dbs, from, n, op) && Guard(dbs[n], a) && !Conflict(a, op)
    ensures Held(dbs + [Apply(dbs[n], a)], from, n + 1, op)
  {
    assert Guard(dbs[n], op) && SameRow(dbs[from], dbs[n], op);
    GuardSurvives(dbs[n], a, op);
    var more := dbs + [Apply(dbs[n], a)];
    forall i | from <= i <= n + 1
      ensures Guard(more[i], op) && SameRow(more[from], more[i], op)
    {
      if i <= n {
        assert more[i] == dbs[i];
      }
    }
  }

  lemma ProofMore(dbs: seq<Db>, began: nat, proof: Proof, updated: nat, op: Op, db: Db)
    requires ProofOk(dbs, began, proof, updated, op)
    ensures ProofOk(dbs + [db], began, proof, updated, op)
  {
  }

  lemma ReadMore(dbs: seq<Db>, n: nat, r: ReqId, q: Req, db: Db)
    requires |dbs| == n + 1 && !q.Pending? && ReqOk(dbs, n, r, q)
    ensures ReqOk(dbs + [db], n + 1, r, q)
  {
  }

  lemma CommitKeepsReq(s: State, r: ReqId, p: ReqId)
    requires Inv(s) && r in s.reqs && s.reqs[r].Pending? && p in s.reqs && p != r
    ensures ReqOk(s.dbs + [Apply(Last(s.dbs), s.reqs[r].op)], |s.ops| + 1, p, s.reqs[p])
  {
    var q, n, op := s.reqs[p], |s.ops|, s.reqs[r].op;
    assert ReqOk(s.dbs, n, p, q) && ReqOk(s.dbs, n, r, s.reqs[r]);
    if q.Pending? {
      assert Guard(s.dbs[n], op);
      HeldMore(s.dbs, q.updated, n, op, q.op);
      ProofMore(s.dbs, q.began, q.proof, q.updated, q.op, Apply(s.dbs[n], op));
    } else {
      ReadMore(s.dbs, n, p, q, Apply(s.dbs[n], op));
    }
  }

  lemma CommitKeepsOutcome(dbs: seq<Db>, ops: seq<Op>, db: Db, op: Op, r: ReqId, o: Outcome)
    requires |dbs| == |ops| + 1 && OutcomeOk(dbs, ops, r, o)
    ensures OutcomeOk(dbs + [db], ops + [op], r, o)
  {
    match o
    case Refreshed(began, read, userSnap, updated, index) =>
      assert EffectOk(dbs + [db], ops + [op], r, began, ByRefresh(read, userSnap), updated, index);
    case Written(began, updated, index) =>
      var proof: Proof :| !proof.ByRefresh? && EffectOk(dbs, ops, r, began, proof, updated, index);
      assert EffectOk(dbs + [db], ops + [op], r, began, proof, updated, index);
    case InvalidToken(began, ended, h, at) =>
      if NoSelfRotation(ops + [op], began, ended, h) {
        assert forall n :: began <= n < ended ==> (ops + [op])[n] == ops[n];
        var k :| began <= k <= ended && !Usable(dbs[k], h, at);
        assert (dbs + [db])[k] == dbs[k];
      }
    case Failed =>
  }

  /** The committing request reports its operation. */
  lemma CommitReports(ttl: Time, s: State, r: ReqId)
    requires Inv(s) && Enables(ttl, s, Commit(r))
    ensures var s' := Next(ttl, s, Commit(r));
            |s'.dbs| == |s'.ops| + 1 && OutcomeOk(s'.dbs, s'.ops, r, s'.done[r])
  {
    var s', q := Next(ttl, s, Commit(r)), s.reqs[r];
    assert ReqOk(s.dbs, |s.ops|, r, q);
    ProofMore(s.dbs, q.began, q.proof, q.updated, q.op, Apply(Last(s.dbs), q.op));
    assert Held(s'.dbs, q.updated, |s.ops|, q.op) by {
      assert forall i :: q.updated <= i <= |s.ops| ==> s'.dbs[i] == s.dbs[i] && Guard(s.dbs[i], q.op);
    }
    assert EffectOk(s'.dbs, s'.ops, r, q.began, q.proof, q.updated, |s.ops|);
  }

  lemma CommitKeepsHistory(ttl: Time, s: State, r: ReqId)
    requires Inv(s) && Enables(ttl, s, Commit(r))
    ensures History(Next(ttl, s, Commit(r)).dbs, Next(ttl, s, Commit(r)).ops)
  {
    var q := s.reqs[r];
    assert ReqOk(s.dbs, |s.ops|, r, q);
    assert Guard(s.dbs[|s.ops|], q.op);
    HistoryMore(s.dbs, s.ops, q.op);
  }

  lemma CommitKeepsReported(ttl: Time, s: State, r: ReqId, k: nat)
    requires Inv(s) && Enables(ttl, s, Commit(r)) && k <= |s.ops|
    ensures Reported(Next(ttl, s, Commit(r)), k)
  {
    assert ReqOk(s.dbs, |s.ops|, r, s.reqs[r]);
    assert k < |s.ops| ==> Reported(s, k);
  }

  lemma CommitKeepsInv(ttl: Time, s: State, r: ReqId)
    requires Inv(s) && Enables(ttl, s, Commit(r))
    ensures Inv(Next(ttl, s, Commit(r)))
  {
    var s', q := Next(ttl, s, Commit(r)), s.reqs[r];
    CommitKeepsHistory(ttl, s, r);
    CommitReports(ttl, s, r);
    forall p | p in s'.reqs
      ensures p !in s'.done && ReqOk(s'.dbs, |s'.ops|, p, s'.reqs[p])
    {
      CommitKeepsReq(s, r, p);
    }
    forall p | p in s'.done
      ensures OutcomeOk(s'.dbs, s'.ops, p, s'.done[p])
    {
      if p != r {
        CommitKeepsOutcome(s.dbs, s.ops, Apply(Last(s.dbs), q.op), q.op, p, s.done[p]);
      }
    }
    forall k | 0 <= k < |s'.ops|
      ensures Reported(s', k)
    {
      CommitKeepsReported(ttl, s, r, k);
    }
  }

  /** A user read that finds the session's owner not enabled: either the token has left the
      session since the session read, or it is unusable at the user read. */
  lemma UserReadRejects(dbs: seq<Db>, ops: seq<Op>, began: nat, h: Hash, at: Time, read: SessionRead, snap: nat)
    requires History(dbs, ops) && ReadOk(dbs, began, h, at, read) && read.snap <= snap < |dbs|
    requires !(read.user in dbs[snap].users && dbs[snap].users[read.user].Enabled?)
    ensures exists k :: began <= k <= snap && !Usable(dbs[k], h, at)
  {
    RowsPersist(dbs, ops, read.snap, snap, read.sid);
    if dbs[snap].sessions[read.sid].hash != h {
      var k := HashLeft(dbs, ops, read.snap, snap, read.sid, h, at);
    } else {
      HistoryUnique(dbs, ops, snap);
      assert !Usable(dbs[snap], h, at);
    }
  }

  /** The three places where a refresh answers "invalid token". */
  ghost predicate Rejects(s: State, a: Action)
    requires s.dbs != []
  {
    match a
    case ReadSession(r, snap) =>
      r in s.reqs && s.reqs[r].RefreshStarted? && snap < |s.dbs|
      && !exists sid :: FindsSession(s.dbs[snap], s.reqs[r].hash, s.reqs[r].at, sid)
    case ReadUser(r, snap) =>
      r in s.reqs && s.reqs[r].RefreshSession? && snap < |s.dbs|
      && !(s.reqs[r].read.user in s.dbs[snap].users && s.dbs[snap].users[s.reqs[r].read.user].Enabled?)
    case UpdateRotate(r, _) => r in s.reqs && s.reqs[r].RefreshUser? && !UpdateHits(Last(s.dbs), s.reqs[r])
    case _ => false
  }

  /** Each rejection has an instant of its own interval at which the token was not usable; one by a
      conditional update that matches no row, if the token was not re-minted in that interval. */
  lemma RejectIsJustified(ttl: Time, s: State, a: Action)
    requires Inv(s) && Enables(ttl, s, a) && Rejects(s, a)
    requires a.UpdateRotate? ==> NoSelfRotation(s.ops, s.reqs[a.r].began, |s.ops|, s.reqs[a.r].hash)
    ensures exists k :: s.reqs[a.r].began <= k <= |s.ops| && !Usable(s.dbs[k], s.reqs[a.r].hash, s.reqs[a.r].at)
  {
    var q := s.reqs[a.r];
    match a
    case ReadSession(_, snap) =>
      forall sid | sid in s.dbs[snap].sessions
        ensures !UsableBy(s.dbs[snap], sid, q.hash, q.at)
      {
        assert !FindsSession(s.dbs[snap], q.hash, q.at, sid);
      }
      assert !Usable(s.dbs[snap], q.hash, q.at);
    case ReadUser(_, snap) =>
      UserReadRejects(s.dbs, s.ops, q.began, q.hash, q.at, q.read, snap);
    case UpdateRotate(_, _) =>
      MissIsJustified(s.dbs, s.ops, q.read.snap, |s.ops|, q.read.sid, q.hash, q.read.version, q.at);
  }

  /** Dropping a request with a justified outcome keeps the invariant. */
  lemma DropKeepsInv(s: State, s': State, r: ReqId, o: Outcome)
    requires Inv(s) && r in s.reqs && s'.dbs == s.dbs && s'.ops == s.ops
    requires s'.reqs == s.reqs - {r} && s'.done == s.done[r := o]
    requires OutcomeOk(s.dbs, s.ops, r, o)
    ensures Inv(s')
  {
    forall k | 0 <= k < |s'.ops|
      ensures Reported(s', k)
    {
      assert Reported(s, k);
    }
  }

  lemma RejectKeepsInv(ttl: Time, s: State, a: Action)
    requires Inv(s) && Enables(ttl, s, a) && Rejects(s, a)
    ensures Inv(Next(ttl, s, a))
  {
    var q := s.reqs[a.r];
    if NoSelfRotation(s.ops, q.began, |s.ops|, q.hash) {
      RejectIsJustified(ttl, s, a);
    }
    assert Next(ttl, s, a) == Reject(s, a.r, q);
    DropKeepsInv(s, Reject(s, a.r, q), a.r, InvalidToken(q.began, |s.ops|, q.hash, q.at));
  }

  /** Replacing one request's phase keeps the invariant when the new phase is justified and
      holds no lock that another request holds. */
  lemma PhaseKeepsInv(s: State, s': State, r: ReqId, q: Req)
    requires Inv(s) && s'.dbs == s.dbs && s'.ops == s.ops && s'.done == s.done && r !in s.done
    requires s'.reqs == s.reqs[r := q] && ReqOk(s.dbs, |s.ops|, r, q)
    requires q.Pending? ==> forall p :: p in s.reqs && p != r && s.reqs[p].Pending? ==> !Conflict(s.reqs[p].op, q.op)
    ensures Inv(s')
  {
    assert forall k :: 0 <= k < |s'.ops| ==> Reported(s, k) ==> Reported(s', k);
  }

  lemma RotatePending(ttl: Time, s: State, r: ReqId, newHash: Hash)
    requires Inv(s) && Enables(ttl, s, UpdateRotate(r, newHash)) && UpdateHits(Last(s.dbs), s.reqs[r])
    ensures var q := s.reqs[r];
            ReqOk(s.dbs, |s.ops|, r,
              Pending(q.began, ByRefresh(q.read, q.userSnap), |s.ops|, RotateOp(ttl, r, q, newHash)))
  {
    var q := s.reqs[r];
    assert ReqOk(s.dbs, |s.ops|, r, q);
    assert Guard(s.dbs[|s.ops|], RotateOp(ttl, r, q, newHash));
  }

  lemma LoginPending(ttl: Time, s: State, r: ReqId, sid: SessionId, newHash: Hash)
    requires Inv(s) && Enables(ttl, s, InsertLogin(r, sid, newHash))
    ensures var q := s.reqs[r];
            ReqOk(s.dbs, |s.ops|, r, Pending(q.began, ByLogin(q.userSnap), |s.ops|, LoginOp(ttl, r, q, sid, newHash)))
  {
    assert ReqOk(s.dbs, |s.ops|, r, s.reqs[r]);
  }

  lemma WriteKeepsInv(ttl: Time, s: State, a: Action)
    requires Inv(s) && Enables(ttl, s, a) && (a.UpdateRotate? || a.InsertLogin? || a.Write?)
    requires a.r in Next(ttl, s, a).reqs && Next(ttl, s, a).reqs[a.r].Pending?
    ensures Inv(Next(ttl, s, a))
  {
    if a.UpdateRotate? {
      RotatePending(ttl, s, a.r, a.newHash);
    } else if a.InsertLogin? {
      LoginPending(ttl, s, a.r, a.sid, a.newHash);
    }
    var s' := Next(ttl, s, a);
    PhaseKeepsInv(s, s', a.r, s'.reqs[a.r]);
  }

  lemma ReadKeepsInv(ttl: Time, s: State, a: Action)
    requires Inv(s) && Enables(ttl, s, a) && !Rejects(s, a)
    requires a.BeginRefresh? || a.ReadSession? || a.ReadUser? || a.BeginLogin? || a.ReadLoginUser? || a.StampLogin?
    ensures Inv(Next(ttl, s, a))
  {
    var s' := Next(ttl, s, a);
    PhaseKeepsInv(s, s', a.r, s'.reqs[a.r]);
  }

  /** Every step of every request keeps the invariant. */
  lemma StepKeepsInv(ttl: Time, s: State, a: Action)
    requires Inv(s) && Enables(ttl, s, a)
    ensures Inv(Next(ttl, s, a))
  {
    if Rejects(s, a) {
      RejectKeepsInv(ttl, s, a);
    } else {
      match a
      case Tick(to) => assert forall k :: 0 <= k < |s.ops| && Reported(s, k) ==> Reported(s.(now := to), k);
      case Commit(r) => CommitKeepsInv(ttl, s, r);
      case Fail(r) => DropKeepsInv(s, Next(ttl, s, a), r, Failed);
      case UpdateRotate(_, _) => WriteKeepsInv(ttl, s, a);
      case InsertLogin(_, _, _) => WriteKeepsInv(ttl, s, a);
      case Write(_, _) => WriteKeepsInv(ttl, s, a);
      case _ => ReadKeepsInv(ttl, s, a);
    }
  }
}
