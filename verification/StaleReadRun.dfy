/** A run in which a refresh succeeds on a token that was unusable when it read the user: its session is
    revoked between the session read and the user read, and made active again before the conditional
    update. The two reads see different instants, so this needs a snapshot for each statement. */
module StaleReadRun {
  import opened Common
  import opened AuthSessions
  import opened SessionHistory
  import opened SessionProtocol
  import opened SessionRuns

  ghost predicate Moves(ttl: Time, s: State, a: Action, s': State) {
    s.dbs != [] && Enables(ttl, s, a) && s' == Next(ttl, s, a)
  }

  ghost predicate Reached(ttl: Time, s: State) {
    exists states, acts :: Run(ttl, states, acts) && Last(states) == s
  }

  lemma ReachedNext(ttl: Time, s: State, a: Action, s': State)
    requires Reached(ttl, s) && Moves(ttl, s, a, s')
    ensures Reached(ttl, s')
  {
    var states, acts :| Run(ttl, states, acts) && Last(states) == s;
    var more, last := states + [s'], acts + [a];
    forall i | 0 <= i < |last|
      ensures more[i].dbs != [] && Enables(ttl, more[i], last[i]) && more[i + 1] == Next(ttl, more[i], last[i])
    {
      assert i < |acts| ==> more[i] == states[i] && more[i + 1] == states[i + 1] && last[i] == acts[i];
    }
    assert Run(ttl, more, last);
  }

  const LOGIN := Login(0, "s", 1, "h", 10, 20, AccessToken(1, "s"))
  const REVOKED := SetStatus(1, "s", Revoked)
  const RESTORED := SetStatus(2, "s", Active)
  const ROTATION := Rotate(3, "s", "h", 0, "g", 10, 20, AccessToken(1, "s"))
  const DB0 := Db(map[], map[1 := Enabled])
  const DB1 := Apply(DB0, LOGIN)
  const DB2 := Apply(DB1, REVOKED)
  const DB3 := Apply(DB2, RESTORED)
  const DB4 := Apply(DB3, ROTATION)
  const READ := SessionRead(1, "s", 1, 0)

  /** User 1 logs in as session "s" with hash "h", at time 10. */
  const START := State(10, [DB0], [], {}, map[], map[])
  const ASKED := START.(reqs := map[0 := LoginStarted(0)])
  const KNOWN := START.(reqs := map[0 := LoginUser(0, 1, 0)])
  const STAMPED := START.(reqs := map[0 := LoginStamped(0, 1, 0, 10)])
  const INSERTED := START.(reqs := map[0 := Pending(0, ByLogin(0), 0, LOGIN)], minted := {"h"})
  const LOGGED_IN := State(10, [DB0, DB1], [LOGIN], {"h"}, map[], map[0 := Written(0, 0, 0)])

  lemma LoginMoves()
    ensures Moves(10, START, BeginLogin(0), ASKED) && Moves(10, ASKED, ReadLoginUser(0, 0, 1), KNOWN)
    ensures Moves(10, KNOWN, StampLogin(0), STAMPED) && Moves(10, STAMPED, InsertLogin(0, "s", "h"), INSERTED)
    ensures Moves(10, INSERTED, Commit(0), LOGGED_IN)
  {
  }

  lemma LoginReached()
    ensures Reached(10, LOGGED_IN)
  {
    LoginMoves();
    assert Run(10, [START], []) && Last([START]) == START;
    ReachedNext(10, START, BeginLogin(0), ASKED);
    ReachedNext(10, ASKED, ReadLoginUser(0, 0, 1), KNOWN);
    ReachedNext(10, KNOWN, StampLogin(0), STAMPED);
    ReachedNext(10, STAMPED, InsertLogin(0, "s", "h"), INSERTED);
    ReachedNext(10, INSERTED, Commit(0), LOGGED_IN);
  }

  /** Request 3 presents the token and reads its session. */
  const PRESENTED := LOGGED_IN.(reqs := map[3 := RefreshStarted(1, "h", 10)])
  const SESSION_READ := LOGGED_IN.(reqs := map[3 := RefreshSession(1, "h", 10, READ)])

  lemma SessionReadReached()
    ensures Reached(10, SESSION_READ)
  {
    LoginReached();
    assert Moves(10, LOGGED_IN, BeginRefresh(3, "h"), PRESENTED);
    ReachedNext(10, LOGGED_IN, BeginRefresh(3, "h"), PRESENTED);
    assert FindsSession(DB1, "h", 10, "s");
    assert Moves(10, PRESENTED, ReadSession(3, 1), SESSION_READ);
    ReachedNext(10, PRESENTED, ReadSession(3, 1), SESSION_READ);
  }

  /** The session is revoked, and request 3 reads the user. */
  const REVOKING := SESSION_READ.(reqs := SESSION_READ.reqs[1 := Pending(1, ByWrite, 1, REVOKED)])
  const AFTER_REVOKED := State(10, [DB0, DB1, DB2], [LOGIN, REVOKED], {"h"}, SESSION_READ.reqs,
    map[0 := Written(0, 0, 0), 1 := Written(1, 1, 1)])
  const USER_READ := AFTER_REVOKED.(reqs := map[3 := RefreshUser(1, "h", 10, READ, 2)])

  lemma RevocationMoves()
    ensures Moves(10, SESSION_READ, Write(1, REVOKED), REVOKING) && Moves(10, REVOKING, Commit(1), AFTER_REVOKED)
  {
    assert REVOKING.reqs - {1} == AFTER_REVOKED.reqs;
  }

  lemma UserReadReached()
    ensures Reached(10, USER_READ)
  {
    SessionReadReached();
    RevocationMoves();
    ReachedNext(10, SESSION_READ, Write(1, REVOKED), REVOKING);
    ReachedNext(10, REVOKING, Commit(1), AFTER_REVOKED);
    assert Moves(10, AFTER_REVOKED, ReadUser(3, 2), USER_READ);
    ReachedNext(10, AFTER_REVOKED, ReadUser(3, 2), USER_READ);
  }

  /** The session is made active again. */
  const RESTORING := USER_READ.(reqs := USER_READ.reqs[2 := Pending(2, ByWrite, 2, RESTORED)])
  const AFTER_RESTORED := State(10, [DB0, DB1, DB2, DB3], [LOGIN, REVOKED, RESTORED], {"h"}, USER_READ.reqs,
    map[0 := Written(0, 0, 0), 1 := Written(1, 1, 1), 2 := Written(2, 2, 2)])

  lemma RestoringMoves()
    ensures Moves(10, USER_READ, Write(2, RESTORED), RESTORING) && Moves(10, RESTORING, Commit(2), AFTER_RESTORED)
  {
    assert RESTORING.reqs - {2} == AFTER_RESTORED.reqs;
  }

  lemma RestoredReached()
    ensures Reached(10, AFTER_RESTORED)
  {
    UserReadReached();
    RestoringMoves();
    ReachedNext(10, USER_READ, Write(2, RESTORED), RESTORING);
    ReachedNext(10, RESTORING, Commit(2), AFTER_RESTORED);
  }

  /** The conditional update matches, and the refresh commits. */
  const ROTATING := AFTER_RESTORED.(reqs := map[3 := Pending(1, ByRefresh(READ, 2), 3, ROTATION)],
    minted := {"h", "g"})
  const ROTATED := State(10, [DB0, DB1, DB2, DB3, DB4], [LOGIN, REVOKED, RESTORED, ROTATION], {"h", "g"}, map[],
    AFTER_RESTORED.done[3 := Refreshed(1, READ, 2, 3, 3)])

  lemma UpdateMoves()
    ensures Moves(10, AFTER_RESTORED, UpdateRotate(3, "g"), ROTATING)
  {
    assert DB3.sessions == DB1.sessions;
    assert UpdateHits(DB3, AFTER_RESTORED.reqs[3]);
  }

  lemma RotatedReached()
    ensures Reached(10, ROTATED)
  {
    RestoredReached();
    UpdateMoves();
    ReachedNext(10, AFTER_RESTORED, UpdateRotate(3, "g"), ROTATING);
    assert Moves(10, ROTATING, Commit(3), ROTATED);
    ReachedNext(10, ROTATING, Commit(3), ROTATED);
  }

  /** The refresh of request 3 succeeds although the token was unusable at its user read. */
  lemma StaleReadSucceeds()
    ensures Reached(10, ROTATED) && 3 in ROTATED.done && ROTATED.done[3].Refreshed?
    ensures var o, op := ROTATED.done[3], ROTATION;
            && o.index < |ROTATED.ops| && ROTATED.ops[o.index] == op
            && o.read.snap < o.userSnap < |ROTATED.dbs| && !Usable(ROTATED.dbs[o.userSnap], op.oldHash, op.at)
            && LastStatus(ROTATED.ops, o.read.snap, o.userSnap, o.read.sid) == Some(Revoked)
  {
    RotatedReached();
  }
}
