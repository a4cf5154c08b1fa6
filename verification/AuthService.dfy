/** Login and Refresh, one at a time: the whole use case from the presented text to the issued pair,
    over the session table, inside one transaction. */
module AuthService {
  import opened Common
  import opened AuthSessions
  import opened SessionHistory
  import opened RefreshTokens
  import Base64Url
  import Decimal
  import Jwt
  import Text

  datatype User = User(username: string, email: string, passwordHash: string, status: UserStatus)

  datatype ServiceError = InvalidRefreshToken | BadCredentials | DisabledUser | Internal

  /** The outside calls of a request; a request is given the set of those that would fail. */
  datatype Call = Begin | FindSession | FindUser | MatchPassword | LoadRoles | WriteSession | Sign | Commit

  /** What the service was built with: the token codec, the two lifetimes, and the library functions. */
  datatype Settings = Settings(
    codec: Jwt.Codec, accessTTL: int, configuredTTL: int, sha: string -> seq<Base64Url.Byte>,
    matches: (string, string) -> bool, toLower: string -> string)

  /** The readings of the access-token codec: its own clock and its token id. */
  datatype Stamp = Stamp(now: int, tokenId: string)

  datatype TokenPair = TokenPair(access: string, refresh: string, sessionId: SessionId, user: UserId)

  /** An identifier with an @ is compared in lower case. */
  function NormalizeLoginIdentifier(s: Settings, identifier: string): (r: string)
    ensures r == if '@' in identifier then s.toLower(Text.TrimSpace(identifier)) else Text.TrimSpace(identifier)
  {
    var trimmed := Text.TrimSpace(identifier);
    Text.TrimKeeps(identifier, '@');
    if '@' in trimmed then s.toLower(trimmed) else trimmed
  }

  predicate Named(u: User, identifier: string) { u.username == identifier || u.email == identifier }

  /** The account of the identifier, and whether the password fits it. */
  predicate Account(s: Settings, u: User, identifier: string, password: string, fits: bool) {
    Named(u, identifier) && s.matches(password, u.passwordHash) == fits
  }

  /** The refresh token that the next 32 random bytes give, and its stored form. */
  function NextToken(random: seq<Base64Url.Byte>): string
    requires |random| >= RANDOM_BYTES
  {
    Base64Url.Encode(random[..RANDOM_BYTES])
  }

  function Stored(s: Settings, token: string): (h: AuthSessions.Hash)
    requires Parse(token).Ok?
    ensures RefreshTokens.Hash(s.sha, token) == Ok(h)
  {
    RefreshTokens.Hash(s.sha, token).value
  }

  function NextHash(s: Settings, random: seq<Base64Url.Byte>): AuthSessions.Hash
    requires |random| >= RANDOM_BYTES
  {
    GeneratedShape(random[..RANDOM_BYTES]);
    Stored(s, NextToken(random))
  }

  function Statuses(users: map<UserId, User>): map<UserId, UserStatus> { map id | id in users :: users[id].status }

  /** None of these calls would fail. */
  predicate Spared(failing: set<Call>, calls: set<Call>) { forall c :: c in calls ==> c !in failing }

  /** Nothing keeps the request from a new token pair for session sid of `user`. */
  ghost predicate CanIssue(s: Settings, rows: map<SessionId, Session>, sid: SessionId, user: UserId,
                           random: seq<Base64Url.Byte>)
  {
    |random| >= RANDOM_BYTES && HashFree(rows, sid, NextHash(s, random))
    && user > 0 && Text.TrimSpace(sid) != ""
  }

  ghost predicate IsPairFor(s: Settings, pair: TokenPair, sid: SessionId, user: UserId, random: seq<Base64Url.Byte>,
                            stamp: Stamp) {
    && |random| >= RANDOM_BYTES && pair.refresh == NextToken(random) && pair.sessionId == sid && pair.user == user
    && Jwt.IssueAccessToken(s.codec, user, sid, s.accessTTL, stamp.now, stamp.tokenId) == Ok(pair.access)
  }

  function Lifetime(s: Settings): (ttl: int)
    ensures ttl > 0
  {
    RefreshTokenTTL(s.configuredTTL)
  }

  /** The operation of a refresh at `at` that found session sid. */
  function RefreshOp(s: Settings, row: Session, sid: SessionId, h: AuthSessions.Hash, newHash: AuthSessions.Hash,
                     at: Time): Op {
    Rotate(0, sid, h, row.version, newHash, at, at + Lifetime(s), AccessToken(row.userId, sid))
  }

  function LoginOp(s: Settings, sid: SessionId, user: UserId, hash: AuthSessions.Hash, at: Time): Op {
    Op.Login(0, sid, user, hash, at, at + Lifetime(s), AccessToken(user, sid))
  }

  /** What a successful refresh has done: the token was usable, the pair is for its session and owner,
      and the one change to the database is the session's row. */
  ghost predicate Refreshed(s: Settings, before: Db, after: Db, pair: TokenPair, h: AuthSessions.Hash, at: Time,
                            random: seq<Base64Url.Byte>, stamp: Stamp)
  {
    && |random| >= RANDOM_BYTES && pair.sessionId in before.sessions && UsableBy(before, pair.sessionId, h, at)
    && HashFree(before.sessions, pair.sessionId, NextHash(s, random))
    && (var row := before.sessions[pair.sessionId];
        && IsPairFor(s, pair, pair.sessionId, row.userId, random, stamp)
        && after.users == before.users
        && after.sessions
           == before.sessions[pair.sessionId := row.(hash := NextHash(s, random), expiresAt := at + Lifetime(s),
                                                     lastRefreshedAt := Some(at), lastSeenAt := Some(at),
                                                     version := row.version + 1)])
  }

  /** The change that the conditional update makes is that of a successful refresh. */
  lemma RotationRefreshes(s: Settings, users: map<UserId, UserStatus>, rows: map<SessionId, Session>,
                          rows': map<SessionId, Session>, pair: TokenPair, sid: SessionId, row: Session,
                          h: AuthSessions.Hash, at: Time, random: seq<Base64Url.Byte>, stamp: Stamp)
    requires |random| >= RANDOM_BYTES && sid in rows && rows[sid] == row
    requires UsableBy(Db(rows, users), sid, h, at) && CanIssue(s, rows, sid, row.userId, random)
    requires IsPairFor(s, pair, sid, row.userId, random, stamp)
    requires rows' == rows[sid := Rotated(row, NextHash(s, random), at, at + Lifetime(s))]
    ensures Refreshed(s, Db(rows, users), Db(rows', users), pair, h, at, random, stamp)
  {
  }

  /** What a successful login has done. */
  ghost predicate LoggedIn(s: Settings, before: Db, after: Db, pair: TokenPair, sid: SessionId, at: Time,
                           random: seq<Base64Url.Byte>, stamp: Stamp)
  {
    && |random| >= RANDOM_BYTES && sid !in before.sessions && HashFree(before.sessions, sid, NextHash(s, random))
    && IsPairFor(s, pair, sid, pair.user, random, stamp)
    && after.users == before.users
    && after.sessions
       == before.sessions[sid := Session(pair.user, NextHash(s, random), Active, at, at + Lifetime(s), None, Some(at),
                                         None, None, 0)]
  }

  const REFRESH_CALLS := {Begin, FindSession, FindUser, LoadRoles, WriteSession, Sign, Commit}
  const LOGIN_CALLS := {Begin, FindUser, MatchPassword, LoadRoles, WriteSession, Sign, Commit}

  class Service {
    const settings: Settings
    const table: SessionTable
    const random: Reader
    var users: map<UserId, User>

    constructor (settings: Settings, table: SessionTable, random: Reader, users: map<UserId, User>)
      ensures this.settings == settings && this.table == table && this.random == random && this.users == users
    {
      this.settings, this.table, this.random, this.users := settings, table, random, users;
    }

    /** The committed database the service works on. */
    ghost function Snapshot(): Db
      reads this, table
    {
      Db(table.rows, Statuses(users))
    }

    /** A new refresh token and its stored form, unless the random source dries up. */
    method NewToken() returns (r: Option<(string, AuthSessions.Hash)>)
      modifies random
      ensures r.Some? <==> |old(random.remaining)| >= RANDOM_BYTES
      ensures r.Some? ==> r.value == (NextToken(old(random.remaining)), NextHash(settings, old(random.remaining)))
    {
      var generated := Generate(random);
      if generated.Err? {
        return None;
      }
      r := Some((generated.value, Stored(settings, generated.value)));
    }

    method SignFor(sid: SessionId, user: UserId, stamp: Stamp, failing: set<Call>) returns (r: Option<string>)
      ensures r.Some? <==> Sign !in failing && user > 0 && Text.TrimSpace(sid) != ""
      ensures r.Some? ==>
                Jwt.IssueAccessToken(settings.codec, user, sid, settings.accessTTL, stamp.now,
                  stamp.tokenId) == Ok(r.value)
    {
      if Sign in failing {
        return None;
      }
      var access := Jwt.IssueAccessToken(settings.codec, user, sid, settings.accessTTL, stamp.now, stamp.tokenId);
      r := if access.Ok? then Some(access.value) else None;
    }

    /** The reads of a refresh. */
    method FindUsable(h: AuthSessions.Hash, at: Time, failing: set<Call>)
      returns (r: Result<(SessionId, Session), ServiceError>)
      requires table.Valid()
      ensures r.Ok? <==> Usable(Snapshot(), h, at) && Spared(failing, {FindSession, FindUser, LoadRoles})
      ensures r.Ok? ==>
                r.value.0 in table.rows && table.rows[r.value.0] == r.value.1 && UsableBy(Snapshot(), r.value.0, h, at)
      ensures r.Ok? ==> forall sid :: sid in table.rows && UsableBy(Snapshot(), sid, h, at) ==> sid == r.value.0
      ensures r == Err(InvalidRefreshToken) ==> !Usable(Snapshot(), h, at)
      ensures !Usable(Snapshot(), h, at) && Spared(failing, {FindSession, FindUser}) ==> r == Err(InvalidRefreshToken)
    {
      if FindSession in failing {
        return Err(Internal);
      }
      var found := table.FindByRefreshTokenHash(h);
      if found.None? || !found.value.1.status.Active? || !(found.value.1.expiresAt > at) {
        return Err(InvalidRefreshToken);
      }
      var session := found.value.1;
      if FindUser in failing {
        return Err(Internal);
      }
      if session.userId !in users || users[session.userId].status != Enabled {
        return Err(InvalidRefreshToken);
      }
      assert UsableBy(Snapshot(), found.value.0, h, at);
      if LoadRoles in failing {
        return Err(Internal);
      }
      r := Ok(found.value);
    }

    /** The conditional update of a refresh that found session sid, with the new token it stores. */
    method RotateRow(sid: SessionId, session: Session, h: AuthSessions.Hash, at: Time, failing: set<Call>)
      returns (r: Option<string>)
      requires table.Valid() && sid in table.rows && table.rows[sid] == session && UsableBy(Snapshot(), sid, h, at)
      modifies table, random
      ensures table.Valid()
      ensures r.Some? <==> WriteSession !in failing && |old(random.remaining)| >= RANDOM_BYTES
                           && HashFree(old(table.rows), sid, NextHash(settings, old(random.remaining)))
      ensures r.Some? ==> r.value == NextToken(old(random.remaining))
      ensures r.Some? ==>
                table.rows == old(table.rows)[sid := Rotated(session, NextHash(settings, old(random.remaining)), at,
                                                                     at + Lifetime(settings))]
    {
      var generated := NewToken();
      if generated.None? || WriteSession in failing {
        return None;
      }
      var rows := table.ConditionalRotate(sid, h, session.version, generated.value.1, at, at + Lifetime(settings));
      if rows.Err? {
        return None;
      }
      r := Some(generated.value.0);
    }

    /** The writes of a refresh that found session sid. */
    method RotateFor(sid: SessionId, session: Session, h: AuthSessions.Hash, at: Time, stamp: Stamp, failing: set<Call>)
      returns (r: Result<TokenPair, ServiceError>)
      requires table.Valid() && sid in table.rows && table.rows[sid] == session && UsableBy(Snapshot(), sid, h, at)
      modifies table, random
      ensures table.Valid()
      ensures r.Err? ==> r.error == Internal
      ensures r.Ok? <==> Spared(failing, {WriteSession, Sign})
                         && CanIssue(settings, old(table.rows), sid, session.userId, old(random.remaining))
      ensures r.Ok? ==> IsPairFor(settings, r.value, sid, session.userId, old(random.remaining), stamp)
      ensures r.Ok? ==>
                table.rows == old(table.rows)[sid := Rotated(session, NextHash(settings, old(random.remaining)), at,
                                                                     at + Lifetime(settings))]
    {
      var token := RotateRow(sid, session, h, at, failing);
      if token.None? {
        return Err(Internal);
      }
      var access := SignFor(sid, session.userId, stamp, failing);
      if access.None? {
        return Err(Internal);
      }
      r := Ok(TokenPair(access.value, token.value, sid, session.userId));
    }

    /** What the writes mean for the database as a whole. */
    method RefreshFound(sid: SessionId, session: Session, h: AuthSessions.Hash, at: Time, stamp: Stamp,
                        failing: set<Call>)
      returns (r: Result<TokenPair, ServiceError>)
      requires table.Valid() && sid in table.rows && table.rows[sid] == session && UsableBy(Snapshot(), sid, h, at)
      modifies table, random
      ensures table.Valid()
      ensures r.Err? ==> r.error == Internal
      ensures r.Ok? <==> Spared(failing, {WriteSession, Sign})
                         && CanIssue(settings, old(table.rows), sid, session.userId, old(random.remaining))
      ensures r.Ok? ==> Refreshed(settings, old(Snapshot()), Snapshot(), r.value, h, at, old(random.remaining), stamp)
    {
      ghost var rows, bytes := table.rows, random.remaining;
      r := RotateFor(sid, session, h, at, stamp, failing);
      if r.Ok? {
        RotationRefreshes(settings, Statuses(users), rows, table.rows, r.value, sid, session, h, at, bytes, stamp);
      }
    }

    /** What a refresh does inside its transaction, for a token with the stored form h. */
    method RefreshBody(h: AuthSessions.Hash, at: Time, stamp: Stamp, failing: set<Call>)
      returns (r: Result<TokenPair, ServiceError>)
      requires table.Valid()
      modifies table, random
      ensures table.Valid()
      ensures r == Err(InvalidRefreshToken) ==> !Usable(old(Snapshot()), h, at)
      ensures !Usable(old(Snapshot()), h, at) ==>
                r.Err? && (Spared(failing, {FindSession, FindUser}) ==> r.error == InvalidRefreshToken)
      ensures forall sid :: sid in old(table.rows) && UsableBy(old(Snapshot()), sid, h, at) ==>
                (r.Ok? <==> Spared(failing, {FindSession, FindUser, LoadRoles, WriteSession, Sign})
                            && CanIssue(settings, old(table.rows), sid, old(table.rows[sid]).userId,
                              old(random.remaining)))
      ensures r.Ok? ==> Refreshed(settings, old(Snapshot()), Snapshot(), r.value, h, at, old(random.remaining), stamp)
    {
      var found := FindUsable(h, at, failing);
      if found.Err? {
        return Err(found.error);
      }
      var sid, session := found.value.0, found.value.1;
      r := RefreshFound(sid, session, h, at, stamp, failing);
    }

    /** The transaction of a refresh. */
    method RefreshTx(h: AuthSessions.Hash, at: Time, stamp: Stamp, failing: set<Call>)
      returns (r: Result<TokenPair, ServiceError>)
      requires table.Valid()
      modifies table, random
      ensures table.Valid()
      ensures r == Err(InvalidRefreshToken) ==> !Usable(old(Snapshot()), h, at)
      ensures !Usable(old(Snapshot()), h, at) ==>
                r.Err? && (Spared(failing, {Begin, FindSession, FindUser}) ==> r.error == InvalidRefreshToken)
      ensures forall sid :: sid in old(table.rows) && UsableBy(old(Snapshot()), sid, h, at) ==>
                (r.Ok? <==> Spared(failing, REFRESH_CALLS)
                            && CanIssue(settings, old(table.rows), sid, old(table.rows[sid]).userId,
                              old(random.remaining)))
      ensures r.Ok? ==> Refreshed(settings, old(Snapshot()), Snapshot(), r.value, h, at, old(random.remaining), stamp)
      ensures r.Err? ==> table.rows == old(table.rows) && table.byHash == old(table.byHash)
    {
      if Begin in failing {
        return Err(Internal);
      }
      var rows, byHash := table.rows, table.byHash;
      r := RefreshBody(h, at, stamp, failing);
      if r.Ok? && Commit in failing {
        r := Err(Internal);
      }
      if r.Err? {
        table.rows, table.byHash := rows, byHash;
      }
    }

    /** Without interference a refresh answers "invalid token" exactly when the text is malformed or
        the token is not usable, unless an outside call failed before it could tell; a usable token is
        rotated exactly when nothing fails, and a refresh that does not succeed changes nothing. */
    method Refresh(token: string, at: Time, stamp: Stamp, failing: set<Call>)
      returns (r: Result<TokenPair, ServiceError>)
      requires table.Valid()
      modifies table, random
      ensures table.Valid()
      ensures Parse(token).Err? ==> r == Err(InvalidRefreshToken)
      ensures Parse(token).Ok? && r == Err(InvalidRefreshToken) ==>
                !Usable(old(Snapshot()), Stored(settings, token), at)
      ensures Parse(token).Ok? && !Usable(old(Snapshot()), Stored(settings, token), at) ==>
                r.Err? && (Spared(failing, {Begin, FindSession, FindUser}) ==> r.error == InvalidRefreshToken)
      ensures Parse(token).Ok? ==>
                forall sid :: sid in old(table.rows) && UsableBy(old(Snapshot()), sid, Stored(settings, token), at) ==>
                  (r.Ok? <==> Spared(failing, REFRESH_CALLS)
                              && CanIssue(settings, old(table.rows), sid, old(table.rows[sid]).userId,
                                old(random.remaining)))
      ensures r.Ok? ==>
                Parse(token).Ok?
                && Refreshed(settings, old(Snapshot()), Snapshot(), r.value, Stored(settings, token), at,
                  old(random.remaining), stamp)
      ensures r.Err? ==> table.rows == old(table.rows) && table.byHash == old(table.byHash)
    {
      if Parse(token).Err? {
        return Err(InvalidRefreshToken);
      }
      r := RefreshTx(Stored(settings, token), at, stamp, failing);
    }

    /** The database returns some user of that name. */
    method FindByUsernameOrEmail(identifier: string) returns (found: Option<UserId>)
      ensures found.Some? ==> found.value in users && Named(users[found.value], identifier)
      ensures found.None? ==> forall u :: u in users ==> !Named(users[u], identifier)
    {
      if exists u :: u in users && Named(users[u], identifier) {
        var u :| u in users && Named(users[u], identifier);
        return Some(u);
      }
      found := None;
    }

    /** Everything in a login before its session is created. */
    method Authenticate(identifier: string, password: string, failing: set<Call>)
      returns (r: Result<UserId, ServiceError>)
      ensures r.Ok? ==> r.value in users && Account(settings, users[r.value], identifier, password, true)
                        && users[r.value].status == Enabled
                        && Spared(failing, {FindUser, MatchPassword, LoadRoles})
      ensures r == Err(BadCredentials) ==>
                || (forall u :: u in users ==> users[u].username != identifier && users[u].email != identifier)
                || (exists u :: u in users && Account(settings, users[u], identifier, password, false))
      ensures r == Err(DisabledUser) ==>
                exists u :: u in users && Account(settings, users[u], identifier, password, true)
                  && users[u].status == Disabled
      ensures r.Err? && Spared(failing, {FindUser, MatchPassword, LoadRoles}) ==> r.error != Internal
      ensures r != Err(InvalidRefreshToken)
    {
      if FindUser in failing {
        return Err(Internal);
      }
      var found := FindByUsernameOrEmail(identifier);
      if found.None? {
        return Err(BadCredentials);
      }
      var id := found.value;
      var user := users[id];
      if MatchPassword in failing {
        return Err(Internal);
      }
      var fits := settings.matches(password, user.passwordHash);
      if !fits {
        assert id in users && Account(settings, users[id], identifier, password, false);
        return Err(BadCredentials);
      }
      if user.status == Disabled {
        assert id in users && Account(settings, users[id], identifier, password, true);
        return Err(DisabledUser);
      }
      if LoadRoles in failing {
        return Err(Internal);
      }
      r := Ok(found.value);
    }

    /** The writes of a login. */
    method CreateFor(user: UserId, sid: SessionId, at: Time, stamp: Stamp, failing: set<Call>)
      returns (r: Result<TokenPair, ServiceError>)
      requires table.Valid()
      modifies table, random
      ensures table.Valid()
      ensures r.Err? ==> r.error == Internal
      ensures r.Ok? <==> Spared(failing, {WriteSession, Sign}) && sid !in old(table.rows)
                         && CanIssue(settings, old(table.rows), sid, user, old(random.remaining))
      ensures r.Ok? ==> IsPairFor(settings, r.value, sid, user, old(random.remaining), stamp)
      ensures r.Ok? ==>
                table.rows == old(table.rows)[sid := LoginRow(user, NextHash(settings, old(random.remaining)), at,
                                                                      at + Lifetime(settings))]
    {
      var generated := NewToken();
      if generated.None? || WriteSession in failing {
        return Err(Internal);
      }
      var created := table.Create(sid, LoginRow(user, generated.value.1, at, at + Lifetime(settings)));
      if created.Err? {
        return Err(Internal);
      }
      var access := SignFor(sid, user, stamp, failing);
      if access.None? {
        return Err(Internal);
      }
      r := Ok(TokenPair(access.value, generated.value.0, sid, user));
    }

    /** A login opens a session at version 0 only for an enabled user whose name and password it was
        given, always does when nothing fails and only one user bears the name, and otherwise changes
        nothing. */
    method Login(identifier: string, password: string, sid: SessionId, at: Time, stamp: Stamp, failing: set<Call>)
      returns (r: Result<TokenPair, ServiceError>)
      requires table.Valid()
      modifies table, random
      ensures table.Valid()
      ensures r.Ok? ==>
                && r.value.user in users && users[r.value.user].status == Enabled
                && (var name := NormalizeLoginIdentifier(settings, identifier);
                    users[r.value.user].username == name || users[r.value.user].email == name)
                && settings.matches(password, users[r.value.user].passwordHash)
                && LoggedIn(settings, old(Snapshot()), Snapshot(), r.value, sid, at, old(random.remaining), stamp)
      ensures Spared(failing, LOGIN_CALLS) && sid !in old(table.rows) ==>
                forall u :: u in users && OnlyNamed(users, u, NormalizeLoginIdentifier(settings, identifier)) ==>
                  && (r == Err(BadCredentials) <==> !settings.matches(password, users[u].passwordHash))
                  && (r == Err(DisabledUser) <==>
                        settings.matches(password, users[u].passwordHash) && users[u].status == Disabled)
                  && (r.Ok? <==> settings.matches(password, users[u].passwordHash) && users[u].status == Enabled
                                 && CanIssue(settings, old(table.rows), sid, u, old(random.remaining)))
      ensures Spared(failing, LOGIN_CALLS)
              && (var name := NormalizeLoginIdentifier(settings, identifier);
                  forall u :: u in users ==> users[u].username != name && users[u].email != name) ==>
                r == Err(BadCredentials)
      ensures r.Err? ==> table.rows == old(table.rows) && table.byHash == old(table.byHash)
    {
      if Begin in failing {
        return Err(Internal);
      }
      var rows, byHash := table.rows, table.byHash;
      var user := Authenticate(NormalizeLoginIdentifier(settings, identifier), password, failing);
      if user.Err? {
        return Err(user.error);
      }
      r := CreateFor(user.value, sid, at, stamp, failing);
      if r.Ok? && Commit in failing {
        r := Err(Internal);
      }
      if r.Err? {
        table.rows, table.byHash := rows, byHash;
      }
    }
  }

  /** The identifier names user u and nobody else. */
  ghost predicate OnlyNamed(users: map<UserId, User>, u: UserId, name: string)
    requires u in users
  {
    && (users[u].username == name || users[u].email == name)
    && forall v :: v in users && v != u ==> users[v].username != name && users[v].email != name
  }

  // What a token pair is good for.

  /** The access token of an issued pair names the user and the session to the codec that signed it,
      until it expires. */
  lemma AccessIsReadable(s: Settings, access: string, sid: SessionId, user: UserId, stamp: Stamp, t: int)
    requires Jwt.IssueAccessToken(s.codec, user, sid, s.accessTTL, stamp.now, stamp.tokenId) == Ok(access)
    requires Jwt.Lawful(s.codec.lib) && user <= Decimal.MAX_INT64 && Text.TrimSpace(stamp.tokenId) != ""
    ensures var claims := Jwt.ParseAccessToken(s.codec, access, t);
            if t < Jwt.Unix(stamp.now + s.accessTTL) * Jwt.SECOND
            then claims.Ok? && claims.value.subjectId == user && claims.value.sessionId == Text.TrimSpace(sid)
            else claims == Err(Jwt.Expired)
  {
    Jwt.IssueThenParse(s.codec, user, sid, s.accessTTL, stamp.now, stamp.tokenId, t);
  }

  /** Its refresh token passes Parse and has the stored form that the session row holds. */
  lemma RefreshIsReadable(s: Settings, pair: TokenPair, sid: SessionId, user: UserId, random: seq<Base64Url.Byte>,
                          stamp: Stamp)
    requires IsPairFor(s, pair, sid, user, random, stamp)
    ensures Parse(pair.refresh) == Ok(pair.refresh) && Stored(s, pair.refresh) == NextHash(s, random)
  {
    GeneratedShape(random[..RANDOM_BYTES]);
  }

  /** A successful refresh is the rotation of the session history: enabled before, applied after. */
  lemma RefreshIsRotation(s: Settings, before: Db, after: Db, pair: TokenPair, h: AuthSessions.Hash, at: Time,
                          random: seq<Base64Url.Byte>, stamp: Stamp)
    requires Refreshed(s, before, after, pair, h, at, random, stamp)
    ensures var op := RefreshOp(s, before.sessions[pair.sessionId], pair.sessionId, h, NextHash(s, random), at);
            Guard(before, op) && after == Apply(before, op) && op.access == AccessToken(pair.user, pair.sessionId)
  {
  }

  /** A successful login is the login of the session history. */
  lemma LoginIsLogin(s: Settings, before: Db, after: Db, pair: TokenPair, sid: SessionId, at: Time,
                     random: seq<Base64Url.Byte>, stamp: Stamp)
    requires LoggedIn(s, before, after, pair, sid, at, random, stamp) && pair.user in before.users
    ensures var op := LoginOp(s, sid, pair.user, NextHash(s, random), at);
            Guard(before, op) && after == Apply(before, op)
  {
  }

  /** A rotation hands the session over: afterwards the new token is usable exactly until its expiry
      and the old one never again, while every other token is as usable as it was. */
  lemma RotationHandsOver(db: Db, op: Op, other: AuthSessions.Hash, t: Time)
    requires op.Rotate? && UniqueHashes(db.sessions) && Guard(db, op) && UsableBy(db, op.sid, op.oldHash, op.at)
    requires op.hash != op.oldHash && other != op.hash && other != op.oldHash
    ensures Usable(Apply(db, op), op.hash, t) <==> t < op.expires
    ensures !Usable(Apply(db, op), op.oldHash, t)
    ensures Usable(Apply(db, op), other, t) <==> Usable(db, other, t)
  {
    var after := Apply(db, op);
    if t < op.expires {
      assert UsableBy(after, op.sid, op.hash, t);
    }
    if Usable(db, other, t) {
      var sid :| sid in db.sessions && UsableBy(db, sid, other, t);
      assert UsableBy(after, sid, other, t);
    }
    if Usable(after, other, t) {
      var sid :| sid in after.sessions && UsableBy(after, sid, other, t);
      assert UsableBy(db, sid, other, t);
    }
  }

  /** A login adds one usable token, until its expiry, and leaves every other token as it was. */
  lemma LoginMintsOne(db: Db, op: Op, other: AuthSessions.Hash, t: Time)
    requires op.Login? && Guard(db, op) && db.users[op.user].Enabled? && other != op.hash
    ensures Usable(Apply(db, op), op.hash, t) <==> t < op.expires
    ensures Usable(Apply(db, op), other, t) <==> Usable(db, other, t)
  {
    var after := Apply(db, op);
    if t < op.expires {
      assert UsableBy(after, op.sid, op.hash, t);
    }
    if Usable(db, other, t) {
      var sid :| sid in db.sessions && UsableBy(db, sid, other, t);
      assert UsableBy(after, sid, other, t);
    }
    if Usable(after, other, t) {
      var sid :| sid in after.sessions && UsableBy(after, sid, other, t);
      assert UsableBy(db, sid, other, t);
    }
  }
}
