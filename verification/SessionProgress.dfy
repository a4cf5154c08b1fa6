/** What the session protocol lets a request do: from every reachable state a usable token can be refreshed and
    an enabled user can log in, whatever else is in flight, as long as no other uncommitted write holds a lock
    they need. */
module SessionProgress {
  import opened Common
  import opened AuthSessions
  import opened SessionHistory
  import opened SessionProtocol

  /** s can take these actions and end up as s'. */
  ghost predicate Leads(ttl: Time, s: State, acts: seq<Action>, s': State)
    decreases |acts|
  {
    if acts == [] then s == s'
    else s.dbs != [] && Enables(ttl, s, acts[0]) && Leads(ttl, Next(ttl, s, acts[0]), acts[1..], s')
  }

  lemma LeadsOn(ttl: Time, s: State, a: Action, rest: seq<Action>, s': State)
    requires s.dbs != [] && Enables(ttl, s, a) && Leads(ttl, Next(ttl, s, a), rest, s')
    ensures Leads(ttl, s, [a] + rest, s')
  {
    assert ([a] + rest)[1..] == rest;
  }

  /** The state with request r in phase q. */
  function At(s: State, r: ReqId, q: Req): State { s.(reqs := s.reqs[r := q]) }

  lemma AtAgain(s: State, r: ReqId, before: Req, q: Req)
    ensures At(At(s, r, before), r, q) == At(s, r, q)
  {
    assert s.reqs[r := before][r := q] == s.reqs[r := q];
  }

  /** No uncommitted write holds the row of sid or the new hash, and no other session has that hash. */
  ghost predicate Unlocked(s: State, sid: SessionId, newHash: Hash)
    requires s.dbs != []
  {
    && (forall other :: other in Last(s.dbs).sessions && other != sid ==>
          Last(s.dbs).sessions[other].hash != newHash)
    && forall p :: p in s.reqs && s.reqs[p].Pending? ==>
         && (s.reqs[p].op.SetUser? || s.reqs[p].op.sid != sid)
         && (s.reqs[p].op.Login? || s.reqs[p].op.Rotate? ==> s.reqs[p].op.hash != newHash)
  }

  lemma FiveInARow<T>(a: T, b: T, c: T, d: T, e: T)
    ensures [a] + ([b] + ([c] + ([d] + [e]))) == [a, b, c, d, e]
  {
  }

  /** A pending write commits. */
  lemma CommitLeads(ttl: Time, s: State, r: ReqId, q: Req, last: State)
    requires s.dbs != [] && r !in s.reqs && q.Pending?
    requires last == s.(ops := s.ops + [q.op], dbs := s.dbs + [Apply(Last(s.dbs), q.op)],
                        done := s.done[r := Committed(q, |s.ops|)])
    ensures Leads(ttl, At(s, r, q), [Commit(r)], last)
  {
    assert At(s, r, q).reqs - {r} == s.reqs;
    assert Next(ttl, At(s, r, q), Commit(r)) == last;
    LeadsOn(ttl, At(s, r, q), Commit(r), [], last);
    assert [Commit(r)] + [] == [Commit(r)];
  }

  // A refresh.

  /** The session's row, at the latest instant, holds the token, is active and unexpired, and its owner is
      enabled. */
  ghost predicate Ready(s: State, sid: SessionId, h: Hash)
    requires s.dbs != []
  {
    var db := Last(s.dbs);
    && sid in db.sessions && db.sessions[sid].hash == h && db.sessions[sid].status == Active
    && s.now < db.sessions[sid].expiresAt
    && db.sessions[sid].userId in db.users && db.users[db.sessions[sid].userId] == Enabled
  }

  lemma SessionIsFound(ttl: Time, s: State, r: ReqId, sid: SessionId, h: Hash)
    requires Inv(s) && r !in s.reqs && r !in s.done && Ready(s, sid, h)
    ensures var n, row := |s.ops|, Last(s.dbs).sessions[sid];
            var started := At(s, r, RefreshStarted(n, h, s.now));
            && Enables(ttl, s, BeginRefresh(r, h)) && Next(ttl, s, BeginRefresh(r, h)) == started
            && Enables(ttl, started, ReadSession(r, n))
            && Next(ttl, started, ReadSession(r, n))
               == At(s, r, RefreshSession(n, h, s.now, SessionRead(n, sid, row.userId, row.version)))
  {
    var n, row, db := |s.ops|, Last(s.dbs).sessions[sid], Last(s.dbs);
    var started := At(s, r, RefreshStarted(n, h, s.now));
    HistoryUnique(s.dbs, s.ops, n);
    assert FindsSession(db, h, s.now, sid) && s.dbs[n] == db;
    AtAgain(s, r, RefreshStarted(n, h, s.now), RefreshSession(n, h, s.now,
      SessionRead(n, sid, row.userId, row.version)));
    assert AfterSessionRead(started, r, n)
        == At(started, r, RefreshSession(n, h, s.now, SessionRead(n, sid, row.userId, row.version)));
  }

  lemma UserIsFound(ttl: Time, s: State, r: ReqId, sid: SessionId, h: Hash)
    requires Inv(s) && r !in s.reqs && r !in s.done && Ready(s, sid, h)
    ensures var n, row := |s.ops|, Last(s.dbs).sessions[sid];
            var read := SessionRead(n, sid, row.userId, row.version);
            var found := At(s, r, RefreshSession(n, h, s.now, read));
            && Enables(ttl, found, ReadUser(r, n))
            && Next(ttl, found, ReadUser(r, n)) == At(s, r, RefreshUser(n, h, s.now, read, n))
  {
    var n, row := |s.ops|, Last(s.dbs).sessions[sid];
    var read := SessionRead(n, sid, row.userId, row.version);
    assert s.dbs[n] == Last(s.dbs);
    AtAgain(s, r, RefreshSession(n, h, s.now, read), RefreshUser(n, h, s.now, read, n));
  }

  lemma UpdateMatches(ttl: Time, s: State, r: ReqId, sid: SessionId, h: Hash, newHash: Hash)
    requires Inv(s) && r !in s.reqs && r !in s.done && Ready(s, sid, h) && Unlocked(s, sid, newHash)
    ensures var n, row := |s.ops|, Last(s.dbs).sessions[sid];
            var read := SessionRead(n, sid, row.userId, row.version);
            var op := Rotate(r, sid, h, row.version, newHash, s.now, s.now + ttl, AccessToken(row.userId, sid));
            var found := At(s, r, RefreshUser(n, h, s.now, read, n));
            && Enables(ttl, found, UpdateRotate(r, newHash))
            && Next(ttl, found, UpdateRotate(r, newHash))
               == At(s.(minted := s.minted + {newHash}), r, Pending(n, ByRefresh(read, n), n, op))
  {
    var n, row := |s.ops|, Last(s.dbs).sessions[sid];
    var read := SessionRead(n, sid, row.userId, row.version);
    var op := Rotate(r, sid, h, row.version, newHash, s.now, s.now + ttl, AccessToken(row.userId, sid));
    AtAgain(s, r, RefreshUser(n, h, s.now, read, n), Pending(n, ByRefresh(read, n), n, op));
  }

  /** A usable token whose row and new hash are not locked can be refreshed at once. */
  lemma UsableRefreshes(ttl: Time, s: State, r: ReqId, sid: SessionId, h: Hash, newHash: Hash)
    requires Inv(s) && r !in s.reqs && r !in s.done && Ready(s, sid, h) && Unlocked(s, sid, newHash)
    ensures var n, row := |s.ops|, Last(s.dbs).sessions[sid];
            var op := Rotate(r, sid, h, row.version, newHash, s.now, s.now + ttl, AccessToken(row.userId, sid));
            Leads(ttl, s,
                  [BeginRefresh(r, h), ReadSession(r, n), ReadUser(r, n), UpdateRotate(r, newHash), Commit(r)],
                  s.(minted := s.minted + {newHash}, ops := s.ops + [op], dbs := s.dbs + [Apply(Last(s.dbs), op)],
                     done := s.done[r := Refreshed(n, SessionRead(n, sid, row.userId, row.version), n, n, n)]))
  {
    var n, row := |s.ops|, Last(s.dbs).sessions[sid];
    var read := SessionRead(n, sid, row.userId, row.version);
    var op := Rotate(r, sid, h, row.version, newHash, s.now, s.now + ttl, AccessToken(row.userId, sid));
    var minted := s.(minted := s.minted + {newHash});
    var last := minted.(ops := s.ops + [op], dbs := s.dbs + [Apply(Last(s.dbs), op)],
                        done := s.done[r := Refreshed(n, read, n, n, n)]);
    CommitLeads(ttl, minted, r, Pending(n, ByRefresh(read, n), n, op), last);
    UpdateMatches(ttl, s, r, sid, h, newHash);
    LeadsOn(ttl, At(s, r, RefreshUser(n, h, s.now, read, n)), UpdateRotate(r, newHash), [Commit(r)], last);
    UserIsFound(ttl, s, r, sid, h);
    LeadsOn(ttl, At(s, r, RefreshSession(n, h, s.now, read)), ReadUser(r, n),
      [UpdateRotate(r, newHash)] + [Commit(r)], last);
    SessionIsFound(ttl, s, r, sid, h);
    LeadsOn(ttl, At(s, r, RefreshStarted(n, h, s.now)), ReadSession(r, n),
      [ReadUser(r, n)] + ([UpdateRotate(r, newHash)] + [Commit(r)]), last);
    LeadsOn(ttl, s, BeginRefresh(r, h),
      [ReadSession(r, n)] + ([ReadUser(r, n)] + ([UpdateRotate(r, newHash)] + [Commit(r)])), last);
    FiveInARow(BeginRefresh(r, h), ReadSession(r, n), ReadUser(r, n), UpdateRotate(r, newHash), Commit(r));
  }

  // A login.

  lemma LoginIsStamped(ttl: Time, s: State, r: ReqId, user: UserId)
    requires Inv(s) && r !in s.reqs && r !in s.done
    requires user in Last(s.dbs).users && Last(s.dbs).users[user] == Enabled
    ensures var n := |s.ops|;
            var started, found := At(s, r, LoginStarted(n)), At(s, r, LoginUser(n, user, n));
            && Enables(ttl, s, BeginLogin(r)) && Next(ttl, s, BeginLogin(r)) == started
            && Enables(ttl, started, ReadLoginUser(r, n, user))
            && Next(ttl, started, ReadLoginUser(r, n, user)) == found
            && Enables(ttl, found, StampLogin(r))
            && Next(ttl, found, StampLogin(r)) == At(s, r, LoginStamped(n, user, n, s.now))
  {
    var n := |s.ops|;
    assert s.dbs[n] == Last(s.dbs);
    AtAgain(s, r, LoginStarted(n), LoginUser(n, user, n));
    AtAgain(s, r, LoginUser(n, user, n), LoginStamped(n, user, n, s.now));
  }

  lemma InsertWorks(ttl: Time, s: State, r: ReqId, user: UserId, sid: SessionId, newHash: Hash)
    requires Inv(s) && r !in s.reqs && r !in s.done && user in Last(s.dbs).users
    requires sid !in Last(s.dbs).sessions && Unlocked(s, sid, newHash)
    ensures var n := |s.ops|;
            var op := Login(r, sid, user, newHash, s.now, s.now + ttl, AccessToken(user, sid));
            var stamped := At(s, r, LoginStamped(n, user, n, s.now));
            && Enables(ttl, stamped, InsertLogin(r, sid, newHash))
            && Next(ttl, stamped, InsertLogin(r, sid, newHash))
               == At(s.(minted := s.minted + {newHash}), r, Pending(n, ByLogin(n), n, op))
  {
    var n := |s.ops|;
    var op := Login(r, sid, user, newHash, s.now, s.now + ttl, AccessToken(user, sid));
    AtAgain(s, r, LoginStamped(n, user, n, s.now), Pending(n, ByLogin(n), n, op));
  }

  /** An enabled user can log in at once, at any time from now on, under a new session id and hash. */
  lemma EnabledLogsIn(ttl: Time, s: State, r: ReqId, user: UserId, sid: SessionId, newHash: Hash)
    requires Inv(s) && r !in s.reqs && r !in s.done
    requires user in Last(s.dbs).users && Last(s.dbs).users[user] == Enabled
    requires sid !in Last(s.dbs).sessions && Unlocked(s, sid, newHash)
    ensures var n := |s.ops|;
            var op := Login(r, sid, user, newHash, s.now, s.now + ttl, AccessToken(user, sid));
            Leads(ttl, s,
                  [BeginLogin(r), ReadLoginUser(r, n, user), StampLogin(r), InsertLogin(r, sid, newHash), Commit(r)],
                  s.(minted := s.minted + {newHash}, ops := s.ops + [op], dbs := s.dbs + [Apply(Last(s.dbs), op)],
                     done := s.done[r := Written(n, n, n)]))
  {
    var n := |s.ops|;
    var op := Login(r, sid, user, newHash, s.now, s.now + ttl, AccessToken(user, sid));
    var minted := s.(minted := s.minted + {newHash});
    var last := minted.(ops := s.ops + [op], dbs := s.dbs + [Apply(Last(s.dbs), op)],
                        done := s.done[r := Written(n, n, n)]);
    CommitLeads(ttl, minted, r, Pending(n, ByLogin(n), n, op), last);
    InsertWorks(ttl, s, r, user, sid, newHash);
    LeadsOn(ttl, At(s, r, LoginStamped(n, user, n, s.now)), InsertLogin(r, sid, newHash), [Commit(r)], last);
    LoginIsStamped(ttl, s, r, user);
    LeadsOn(ttl, At(s, r, LoginUser(n, user, n)), StampLogin(r), [InsertLogin(r, sid, newHash)] + [Commit(r)], last);
    LeadsOn(ttl, At(s, r, LoginStarted(n)), ReadLoginUser(r, n, user),
      [StampLogin(r)] + ([InsertLogin(r, sid, newHash)] + [Commit(r)]), last);
    LeadsOn(ttl, s, BeginLogin(r),
      [ReadLoginUser(r, n, user)] + ([StampLogin(r)] + ([InsertLogin(r, sid, newHash)] + [Commit(r)])), last);
    FiveInARow(BeginLogin(r), ReadLoginUser(r, n, user), StampLogin(r), InsertLogin(r, sid, newHash), Commit(r));
  }

  /** Time can pass, and nothing else happens with it. */
  lemma TimePasses(ttl: Time, s: State, to: Time)
    requires s.dbs != [] && s.now <= to
    ensures Leads(ttl, s, [Tick(to)], s.(now := to))
  {
    LeadsOn(ttl, s, Tick(to), [], s.(now := to));
    assert [Tick(to)] + [] == [Tick(to)];
  }
}
