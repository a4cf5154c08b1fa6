/** Register: check, insert, bind the USER role, commit; any number of them at once, settled by the
    unique keys on username and email. */
module Registration {
  import opened Common
  import Text

  type ReqId = nat
  type UserId = int
  type RoleId = int

  datatype UserRow = UserRow(username: string, email: string, passwordHash: string, enabled: bool)

  /** users, user_roles, and the id of the USER role if it exists. */
  datatype Db = Db(users: map<UserId, UserRow>, userRoles: set<(UserId, RoleId)>, userRole: Option<RoleId>)

  predicate NameTaken(db: Db, name: string) { exists id :: id in db.users && db.users[id].username == name }

  predicate EmailTaken(db: Db, email: string) { exists id :: id in db.users && db.users[id].email == email }

  predicate Clash(a: UserRow, b: UserRow) { a.username == b.username || a.email == b.email }

  /** One of the two unique keys refuses the row. */
  predicate Taken(db: Db, row: UserRow) { exists id :: id in db.users && Clash(db.users[id], row) }

  ghost predicate Distinct(db: Db) {
    forall a, b :: a in db.users && b in db.users && a != b ==> !Clash(db.users[a], db.users[b])
  }

  /** A user with its USER binding, as one registration commits them. */
  datatype Op = Op(req: ReqId, id: UserId, row: UserRow, role: RoleId)

  function Apply(db: Db, op: Op): Db {
    db.(users := db.users[op.id := op.row], userRoles := db.userRoles + {(op.id, op.role)})
  }

  // One registration on its own.

  /** The three conflict messages: from the two checks, and from the unique keys. */
  datatype Duplicate = Username | Email | Account

  /** What a conflict message says of a database. */
  predicate Says(d: Duplicate, db: Db, row: UserRow) {
    match d
    case Username => NameTaken(db, row.username)
    case Email => EmailTaken(db, row.email)
    case Account => Taken(db, row)
  }

  datatype RegisterError = Conflict(which: Duplicate) | Internal

  /** The calls of a registration that can fail besides a conflict, in the order it makes them. */
  datatype Call = BeginTx | UsernameQuery | EmailQuery | Hashing | Insertion | Binding | CommitTx | FinalRead

  datatype Command = Command(username: string, email: string, password: string)

  class UserStore {
    var db: Db

    constructor (db: Db)
      requires Distinct(db)
      ensures this.db == db
    {
      this.db := db;
    }

    /** Without interference: which conflict is given and exactly when, the username first and the unique
        keys never reached; both rows exactly when everything up to the commit succeeds, and otherwise no
        change at all; and an error although both rows are there exactly when only reading the new user
        back fails. */
    method Register(command: Command, lower: string -> string, hash: string -> string, id: UserId, failing: set<Call>)
      returns (r: Result<UserId, RegisterError>)
      requires Distinct(db) && id !in db.users
      modifies this
      ensures Distinct(db)
      ensures r == Err(Conflict(Username)) <==>
                && BeginTx !in failing && UsernameQuery !in failing
                && exists u :: u in old(db).users && old(db).users[u].username == Text.TrimSpace(command.username)
      ensures r == Err(Conflict(Email)) <==>
                && BeginTx !in failing && UsernameQuery !in failing && EmailQuery !in failing
                && (forall u :: u in old(db).users ==> old(db).users[u].username != Text.TrimSpace(command.username))
                && exists u :: u in old(db).users && old(db).users[u].email == lower(Text.TrimSpace(command.email))
      ensures r != Err(Conflict(Account))
      ensures var row := UserRow(Text.TrimSpace(command.username), lower(Text.TrimSpace(command.email)),
                                 hash(command.password), true);
              var commits :=
                && (forall u :: u in old(db).users ==>
                      old(db).users[u].username != row.username && old(db).users[u].email != row.email)
                && old(db).userRole.Some? && failing <= {FinalRead};
              && (commits ==> db == old(db).(users := old(db).users[id := row],
                                             userRoles := old(db).userRoles + {(id, old(db).userRole.value)}))
              && (!commits ==> r.Err? && db == old(db))
              && (r.Ok? <==> commits && FinalRead !in failing)
      ensures r.Ok? ==> r.value == id
    {
      var row := UserRow(Text.TrimSpace(command.username), lower(Text.TrimSpace(command.email)),
                         hash(command.password), true);
      var before := db;
      if BeginTx in failing || UsernameQuery in failing {
        return Err(Internal);
      }
      if NameTaken(db, row.username) {
        return Err(Conflict(Username));
      }
      if EmailQuery in failing {
        return Err(Internal);
      }
      if EmailTaken(db, row.email) {
        return Err(Conflict(Email));
      }
      if Hashing in failing || Insertion in failing {
        return Err(Internal);
      }
      db := db.(users := db.users[id := row]);
      if db.userRole.None? || Binding in failing {
        db := before;
        return Err(Internal);
      }
      db := db.(userRoles := db.userRoles + {(id, db.userRole.value)});
      if CommitTx in failing {
        db := before;
        return Err(Internal);
      }
      DistinctApply(before, Op(0, id, row, before.userRole.value));
      assert forall c :: c in failing ==>
        c.BeginTx? || c.UsernameQuery? || c.EmailQuery? || c.Hashing? || c.Insertion? || c.Binding? || c.CommitTx?
          || c.FinalRead?;
      if FinalRead in failing {
        return Err(Internal);
      }
      r := Ok(id);
    }
  }

  lemma DistinctApply(db: Db, op: Op)
    requires Distinct(db) && !Taken(db, op.row) && op.id !in db.users
    ensures Distinct(Apply(db, op))
  {
  }

  // Any number of registrations at once.

  /** Where a registration is; began and the snapshots index the committed databases. */
  datatype Req =
    | Started(began: nat, row: UserRow)
    | NameFree(began: nat, row: UserRow, snap: nat)
    | BothFree(began: nat, row: UserRow, snap: nat)
    | Inserted(began: nat, row: UserRow, id: UserId)
    | Bound(began: nat, row: UserRow, id: UserId, role: RoleId)
    | ReadingBack(row: UserRow, index: nat)

  datatype Outcome =
    | Registered(row: UserRow, index: nat)
    | NotReadBack(row: UserRow, index: nat)
    | Conflicted(began: nat, ended: nat, row: UserRow, which: Duplicate)
    | Failed

  datatype State = State(dbs: seq<Db>, ops: seq<Op>, reqs: map<ReqId, Req>, done: map<ReqId, Outcome>)

  datatype Action =
    | Begin(r: ReqId, row: UserRow)
    | CheckName(r: ReqId, snap: nat)
    | CheckEmail(r: ReqId, snap: nat)
    | Insert(r: ReqId, id: UserId)
    | Bind(r: ReqId)
    | Commit(r: ReqId)
    | ReadBack(r: ReqId, found: bool)
    | Fail(r: ReqId)

  /** The request holds the unique keys of an uncommitted user row. */
  predicate Holds(q: Req) { q.Inserted? || q.Bound? }

  ghost predicate Enables(s: State, a: Action)
    requires s.dbs != []
  {
    match a
    case Begin(r, _) => r !in s.reqs && r !in s.done
    case CheckName(r, snap) => r in s.reqs && s.reqs[r].Started? && s.reqs[r].began <= snap < |s.dbs|
    case CheckEmail(r, snap) => r in s.reqs && s.reqs[r].NameFree? && s.reqs[r].snap <= snap < |s.dbs|
    case Insert(r, id) =>
      r in s.reqs && s.reqs[r].BothFree? && id !in Last(s.dbs).users
      && (Taken(Last(s.dbs), s.reqs[r].row) || KeysFree(s, s.reqs[r].row, id))
    case Bind(r) => r in s.reqs && s.reqs[r].Inserted? && Last(s.dbs).userRole.Some?
    case Commit(r) => r in s.reqs && s.reqs[r].Bound?
    case ReadBack(r, _) => r in s.reqs && s.reqs[r].ReadingBack?
    case Fail(r) => r in s.reqs && !s.reqs[r].ReadingBack?
  }

  /** An insert waits while another transaction holds one of its keys. */
  ghost predicate KeysFree(s: State, row: UserRow, id: UserId) {
    forall p :: p in s.reqs && Holds(s.reqs[p]) ==> !Clash(s.reqs[p].row, row) && s.reqs[p].id != id
  }

  ghost function Next(s: State, a: Action): State
    requires s.dbs != [] && Enables(s, a)
  {
    match a
    case Begin(r, row) => s.(reqs := s.reqs[r := Started(|s.ops|, row)])
    case CheckName(r, snap) =>
      var q := s.reqs[r];
      if NameTaken(s.dbs[snap], q.row.username) then Reject(s, r, q.began, q.row, Username)
      else s.(reqs := s.reqs[r := NameFree(q.began, q.row, snap)])
    case CheckEmail(r, snap) =>
      var q := s.reqs[r];
      if EmailTaken(s.dbs[snap], q.row.email) then Reject(s, r, q.began, q.row, Email)
      else s.(reqs := s.reqs[r := BothFree(q.began, q.row, snap)])
    case Insert(r, id) =>
      var q := s.reqs[r];
      if Taken(Last(s.dbs), q.row) then Reject(s, r, q.began, q.row, Account)
      else s.(reqs := s.reqs[r := Inserted(q.began, q.row, id)])
    case Bind(r) =>
      var q := s.reqs[r];
      s.(reqs := s.reqs[r := Bound(q.began, q.row, q.id, Last(s.dbs).userRole.value)])
    case Commit(r) =>
      var op := PendingOp(r, s.reqs[r]);
      s.(ops := s.ops + [op], dbs := s.dbs + [Apply(Last(s.dbs), op)],
         reqs := s.reqs[r := ReadingBack(op.row, |s.ops|)])
    case ReadBack(r, found) =>
      var q := s.reqs[r];
      s.(reqs := s.reqs - {r},
        done := s.done[r := if found then Registered(q.row, q.index) else NotReadBack(q.row, q.index)])
    case Fail(r) => s.(reqs := s.reqs - {r}, done := s.done[r := Failed])
  }

  function PendingOp(r: ReqId, q: Req): Op
    requires q.Bound?
  {
    Op(r, q.id, q.row, q.role)
  }

  function Reject(s: State, r: ReqId, began: nat, row: UserRow, which: Duplicate): State {
    s.(reqs := s.reqs - {r}, done := s.done[r := Conflicted(began, |s.ops|, row, which)])
  }

  // What every reachable state satisfies.

  /** The committed databases grow by whole registrations whose keys were free. */
  ghost predicate History(dbs: seq<Db>, ops: seq<Op>) {
    && |dbs| == |ops| + 1 && Distinct(dbs[0])
    && forall i :: 0 <= i < |ops| ==>
        && ops[i].id !in dbs[i].users && !Taken(dbs[i], ops[i].row) && dbs[i].userRole == Some(ops[i].role)
        && dbs[i + 1] == Apply(dbs[i], ops[i])
  }

  ghost predicate ReqOk(s: State, r: ReqId, q: Req)
    requires s.dbs != []
  {
    match q
    case Started(began, _) => began <= |s.ops|
    case NameFree(began, _, snap) => began <= snap <= |s.ops|
    case BothFree(began, _, snap) => began <= snap <= |s.ops|
    case Inserted(began, row, id) => id !in Last(s.dbs).users && !Taken(Last(s.dbs), row)
    case Bound(began, row, id, role) =>
      id !in Last(s.dbs).users && !Taken(Last(s.dbs), row) && Last(s.dbs).userRole == Some(role)
    case ReadingBack(row, index) => index < |s.ops| && s.ops[index].req == r && s.ops[index].row == row
  }

  ghost predicate OutcomeOk(s: State, r: ReqId, o: Outcome)
    requires |s.dbs| == |s.ops| + 1
  {
    match o
    case Registered(row, index) => index < |s.ops| && s.ops[index].req == r && s.ops[index].row == row
    case NotReadBack(row, index) => index < |s.ops| && s.ops[index].req == r && s.ops[index].row == row
    case Conflicted(began, ended, row, which) =>
      began <= ended <= |s.ops| && exists i :: began <= i <= ended && Says(which, s.dbs[i], row)
    case Failed => true
  }

  /** The k-th committed registration belongs to the one request that is past its commit. */
  ghost predicate Owned(s: State, k: nat)
    requires k < |s.ops|
  {
    var r := s.ops[k].req;
    || (r in s.reqs && s.reqs[r].ReadingBack? && s.reqs[r].index == k)
    || (r in s.done && (s.done[r].Registered? || s.done[r].NotReadBack?) && s.done[r].index == k)
  }

  ghost predicate Inv(s: State) {
    && History(s.dbs, s.ops)
    && (forall r :: r in s.reqs ==> r !in s.done && ReqOk(s, r, s.reqs[r]))
    && (forall r :: r in s.done ==> OutcomeOk(s, r, s.done[r]))
    && (forall k :: 0 <= k < |s.ops| ==> Owned(s, k))
    && (forall p, q :: p in s.reqs && q in s.reqs && p != q && Holds(s.reqs[p]) && Holds(s.reqs[q]) ==>
          !Clash(s.reqs[p].row, s.reqs[q].row) && s.reqs[p].id != s.reqs[q].id)
  }

  ghost predicate Init(s: State) {
    |s.dbs| == 1 && Distinct(s.dbs[0]) && s.ops == [] && s.reqs == map[] && s.done == map[]
  }

  lemma PhaseKeepsInv(s: State, r: ReqId, q: Req)
    requires Inv(s) && r !in s.done && (r in s.reqs ==> !s.reqs[r].ReadingBack?) && ReqOk(s, r, q)
    requires Holds(q) ==> forall p :: p in s.reqs && p != r && Holds(s.reqs[p]) ==>
               !Clash(s.reqs[p].row, q.row) && s.reqs[p].id != q.id
    ensures Inv(s.(reqs := s.reqs[r := q]))
  {
    var s' := s.(reqs := s.reqs[r := q]);
    PhaseKeepsOthers(s, s', r, q);
    forall k | 0 <= k < |s'.ops|
      ensures Owned(s', k)
    {
      assert Owned(s, k);
    }
  }

  lemma PhaseKeepsOthers(s: State, s': State, r: ReqId, q: Req)
    requires Inv(s) && r !in s.done && ReqOk(s, r, q) && s' == s.(reqs := s.reqs[r := q])
    ensures History(s'.dbs, s'.ops)
    ensures forall p :: p in s'.reqs ==> p !in s'.done && ReqOk(s', p, s'.reqs[p])
    ensures forall p :: p in s'.done ==> OutcomeOk(s', p, s'.done[p])
  {
    forall p | p in s'.reqs
      ensures p !in s'.done && ReqOk(s', p, s'.reqs[p])
    {
      assert p != r ==> ReqOk(s, p, s.reqs[p]);
    }
    forall p | p in s'.done
      ensures OutcomeOk(s', p, s'.done[p])
    {
      assert OutcomeOk(s, p, s.done[p]);
    }
  }

  lemma DropKeepsInv(s: State, r: ReqId, o: Outcome)
    requires Inv(s) && r in s.reqs && OutcomeOk(s, r, o)
    requires s.reqs[r].ReadingBack? ==> (o.Registered? || o.NotReadBack?) && o.index == s.reqs[r].index
    ensures Inv(s.(reqs := s.reqs - {r}, done := s.done[r := o]))
  {
    var s' := s.(reqs := s.reqs - {r}, done := s.done[r := o]);
    forall k | 0 <= k < |s'.ops|
      ensures Owned(s', k)
    {
      assert Owned(s, k);
    }
  }

  lemma CommitKeepsReq(s: State, r: ReqId, p: ReqId)
    requires Inv(s) && Enables(s, Commit(r)) && p in s.reqs && p != r
    ensures ReqOk(Next(s, Commit(r)), p, s.reqs[p])
  {
    if Holds(s.reqs[p]) {
      KeptFree(Last(s.dbs), PendingOp(r, s.reqs[r]), s.reqs[p].row);
    }
  }

  lemma CommitKeepsOutcome(s: State, r: ReqId, p: ReqId)
    requires Inv(s) && Enables(s, Commit(r)) && p in s.done
    ensures OutcomeOk(Next(s, Commit(r)), p, s.done[p])
  {
    var s', o := Next(s, Commit(r)), s.done[p];
    assert OutcomeOk(s, p, o);
    if o.Conflicted? {
      var i :| o.began <= i <= o.ended && Says(o.which, s.dbs[i], o.row);
      assert s'.dbs[i] == s.dbs[i];
    }
  }

  lemma CommitKeepsOwned(s: State, r: ReqId, k: nat)
    requires Inv(s) && Enables(s, Commit(r)) && k <= |s.ops|
    ensures Owned(Next(s, Commit(r)), k)
  {
    if k < |s.ops| {
      assert Owned(s, k);
    }
  }

  lemma CommitKeepsHistory(s: State, r: ReqId)
    requires Inv(s) && Enables(s, Commit(r))
    ensures History(Next(s, Commit(r)).dbs, Next(s, Commit(r)).ops)
  {
    assert ReqOk(s, r, s.reqs[r]);
  }

  lemma CommitKeepsInv(s: State, r: ReqId)
    requires Inv(s) && Enables(s, Commit(r))
    ensures Inv(Next(s, Commit(r)))
  {
    var s' := Next(s, Commit(r));
    CommitKeepsHistory(s, r);
    forall k | 0 <= k < |s'.ops|
      ensures Owned(s', k)
    {
      CommitKeepsOwned(s, r, k);
    }
    forall p | p in s'.done
      ensures OutcomeOk(s', p, s'.done[p])
    {
      CommitKeepsOutcome(s, r, p);
    }
    forall p | p in s'.reqs
      ensures p !in s'.done && ReqOk(s', p, s'.reqs[p])
    {
      if p != r {
        CommitKeepsReq(s, r, p);
      }
    }
  }

  lemma KeptFree(db: Db, op: Op, row: UserRow)
    requires !Taken(db, row) && !Clash(op.row, row)
    ensures !Taken(Apply(db, op), row)
  {
  }

  lemma RejectKeepsInv(s: State, r: ReqId, began: nat, row: UserRow, which: Duplicate, i: nat)
    requires Inv(s) && r in s.reqs && !s.reqs[r].ReadingBack? && began <= i <= |s.ops| && Says(which, s.dbs[i], row)
    ensures Inv(Reject(s, r, began, row, which))
  {
    DropKeepsInv(s, r, Conflicted(began, |s.ops|, row, which));
  }

  lemma StepKeepsInv(s: State, a: Action)
    requires Inv(s) && Enables(s, a)
    ensures Inv(Next(s, a))
  {
    match a
    case Begin(r, row) => PhaseKeepsInv(s, r, Started(|s.ops|, row));
    case CheckName(r, snap) =>
      var q := s.reqs[r];
      if NameTaken(s.dbs[snap], q.row.username) {
        RejectKeepsInv(s, r, q.began, q.row, Username, snap);
      } else {
        PhaseKeepsInv(s, r, NameFree(q.began, q.row, snap));
      }
    case CheckEmail(r, snap) =>
      var q := s.reqs[r];
      if EmailTaken(s.dbs[snap], q.row.email) {
        RejectKeepsInv(s, r, q.began, q.row, Email, snap);
      } else {
        PhaseKeepsInv(s, r, BothFree(q.began, q.row, snap));
      }
    case Insert(r, id) =>
      var q := s.reqs[r];
      if Taken(Last(s.dbs), q.row) {
        RejectKeepsInv(s, r, q.began, q.row, Account, |s.ops|);
      } else {
        PhaseKeepsInv(s, r, Inserted(q.began, q.row, id));
      }
    case Bind(r) => PhaseKeepsInv(s, r,
      Bound(s.reqs[r].began, s.reqs[r].row, s.reqs[r].id, Last(s.dbs).userRole.value));
    case Commit(r) => CommitKeepsInv(s, r);
    case ReadBack(r, found) =>
      DropKeepsInv(s, r,
        if found then Registered(s.reqs[r].row, s.reqs[r].index) else NotReadBack(s.reqs[r].row, s.reqs[r].index));
    case Fail(r) => DropKeepsInv(s, r, Failed);
  }

  ghost predicate Run(states: seq<State>, acts: seq<Action>) {
    && |states| == |acts| + 1 && Init(states[0])
    && forall i :: 0 <= i < |acts| ==>
        states[i].dbs != [] && Enables(states[i], acts[i]) && states[i + 1] == Next(states[i], acts[i])
  }

  lemma {:induction false} RunKeepsInv(states: seq<State>, acts: seq<Action>, i: nat)
    requires Run(states, acts) && i < |states|
    ensures Inv(states[i])
  {
    if i > 0 {
      RunKeepsInv(states, acts, i - 1);
      StepKeepsInv(states[i - 1], acts[i - 1]);
    }
  }

  lemma {:induction false} HistoryDistinct(dbs: seq<Db>, ops: seq<Op>, i: nat)
    requires History(dbs, ops) && i < |dbs|
    ensures Distinct(dbs[i])
  {
    if i > 0 {
      HistoryDistinct(dbs, ops, i - 1);
      assert !Taken(dbs[i - 1], ops[i - 1].row);
      DistinctApply(dbs[i - 1], ops[i - 1]);
    }
  }

  lemma {:induction false} RegisteredStays(dbs: seq<Db>, ops: seq<Op>, k: nat, j: nat)
    requires History(dbs, ops) && k < j < |dbs|
    ensures ops[k].id in dbs[j].users && dbs[j].users[ops[k].id] == ops[k].row
              && (ops[k].id, ops[k].role) in dbs[j].userRoles
    decreases j
  {
    if j > k + 1 {
      RegisteredStays(dbs, ops, k, j - 1);
      assert ops[j - 1].id !in dbs[j - 1].users;
    }
  }

  /** In every interleaving the committed users keep pairwise distinct usernames and emails. */
  lemma UsersStayDistinct(states: seq<State>, acts: seq<Action>, i: nat)
    requires Run(states, acts) && i < |Last(states).dbs|
    ensures Distinct(Last(states).dbs[i])
  {
    RunKeepsInv(states, acts, |acts|);
    HistoryDistinct(Last(states).dbs, Last(states).ops, i);
  }

  /** The request got as far as its commit. */
  predicate Committed(o: Outcome) { o.Registered? || o.NotReadBack? }

  /** A registration that reached its commit has both its user row and its USER binding in every later
      committed database. */
  lemma CommittedHasBoth(states: seq<State>, acts: seq<Action>, r: ReqId)
    requires Run(states, acts) && r in Last(states).done && Committed(Last(states).done[r])
    ensures var s := Last(states); var k := s.done[r].index;
            k < |s.ops| && s.dbs != [] && s.ops[k].req == r && s.ops[k].id in Last(s.dbs).users
            && Last(s.dbs).users[s.ops[k].id] == s.done[r].row && (s.ops[k].id, s.ops[k].role) in Last(s.dbs).userRoles
  {
    RunKeepsInv(states, acts, |acts|);
    var s := Last(states);
    assert OutcomeOk(s, r, s.done[r]);
    RegisteredStays(s.dbs, s.ops, s.done[r].index, |s.ops|);
  }

  /** A row of the user table that was not there at the start. */
  predicate NewUser(dbs: seq<Db>, i: nat, id: UserId)
    requires 0 < |dbs| && i < |dbs|
  {
    id in dbs[i].users && id !in dbs[0].users
  }

  lemma {:induction false} HistoryBinds(dbs: seq<Db>, ops: seq<Op>, i: nat, id: UserId, role: RoleId)
    requires History(dbs, ops) && i < |dbs|
    ensures dbs[0].users.Keys <= dbs[i].users.Keys && dbs[i].userRole == dbs[0].userRole
    ensures NewUser(dbs, i, id) ==> dbs[0].userRole.Some? && (id, dbs[0].userRole.value) in dbs[i].userRoles
    ensures (id, role) in dbs[i].userRoles && (id, role) !in dbs[0].userRoles ==>
              NewUser(dbs, i, id) && dbs[0].userRole == Some(role)
  {
    if i > 0 {
      HistoryBinds(dbs, ops, i - 1, id, role);
      assert ops[i - 1].id !in dbs[i - 1].users;
    }
  }

  /** In no committed database is there a new user without its USER binding, or a new binding without
      its new user. */
  lemma BothRowsOrNeither(states: seq<State>, acts: seq<Action>, i: nat, id: UserId, role: RoleId)
    requires Run(states, acts) && i < |Last(states).dbs|
    ensures var dbs := Last(states).dbs;
            NewUser(dbs, i, id) ==> dbs[0].userRole.Some? && (id, dbs[0].userRole.value) in dbs[i].userRoles
    ensures var dbs := Last(states).dbs;
            (id, role) in dbs[i].userRoles && (id, role) !in dbs[0].userRoles ==>
              NewUser(dbs, i, id) && dbs[0].userRole == Some(role)
  {
    RunKeepsInv(states, acts, |acts|);
    HistoryBinds(Last(states).dbs, Last(states).ops, i, id, role);
  }

  /** The conflict answer is justified by a committed user with one of the keys at an instant of the
      request's own interval, and neither it nor any failure before the commit leaves a trace. */
  lemma LoserLeavesNoTrace(states: seq<State>, acts: seq<Action>, r: ReqId, k: nat)
    requires Run(states, acts) && r in Last(states).done
    requires Last(states).done[r].Conflicted? || Last(states).done[r].Failed?
    ensures var s := Last(states); k < |s.ops| ==> s.ops[k].req != r
    ensures var s := Last(states); var o := s.done[r];
            o.Conflicted? ==>
              o.began <= o.ended < |s.dbs| && exists i :: o.began <= i <= o.ended && Says(o.which, s.dbs[i], o.row)
  {
    RunKeepsInv(states, acts, |acts|);
    var s := Last(states);
    assert OutcomeOk(s, r, s.done[r]);
    if k < |s.ops| {
      assert Owned(s, k);
    }
  }

  /** What each step answers. A request that is in flight ends with its step exactly when a check, on the
      snapshot it reads, or the unique keys, on the latest rows, find the name or address of another user,
      when it has read back its user or tried to, or when it fails; and it ends with that answer. */
  lemma AnswersExactly(states: seq<State>, acts: seq<Action>, i: nat, r: ReqId)
    requires Run(states, acts) && i < |acts| && r in states[i].reqs
    ensures states[i].dbs != []
    ensures var s, a, row, done := states[i], acts[i], states[i].reqs[r].row, states[i + 1].done;
            && (r in done && done[r].Conflicted? && done[r].which == Username <==>
                  && a.CheckName? && a.r == r && a.snap < |s.dbs|
                  && exists u :: u in s.dbs[a.snap].users && s.dbs[a.snap].users[u].username == row.username)
            && (r in done && done[r].Conflicted? && done[r].which == Email <==>
                  && a.CheckEmail? && a.r == r && a.snap < |s.dbs|
                  && exists u :: u in s.dbs[a.snap].users && s.dbs[a.snap].users[u].email == row.email)
            && (r in done && done[r].Conflicted? && done[r].which == Account <==>
                  && a.Insert? && a.r == r
                  && exists u :: u in Last(s.dbs).users
                                 && (Last(s.dbs).users[u].username == row.username
                                     || Last(s.dbs).users[u].email == row.email))
            && (r in done && done[r].Registered? <==> a == ReadBack(r, true))
            && (r in done && done[r].NotReadBack? <==> a == ReadBack(r, false))
            && (r in done && done[r].Failed? <==> a == Fail(r))
            && (r in done && done[r].Conflicted? ==> done[r].ended == |s.ops|)
  {
    RunKeepsInv(states, acts, i);
    assert states[i + 1] == Next(states[i], acts[i]);
  }

  /** An answer stays, and comes to a request in flight. */
  lemma AnswerStep(states: seq<State>, acts: seq<Action>, i: nat, r: ReqId)
    requires Run(states, acts) && i < |acts|
    ensures r in states[i].done ==> r in states[i + 1].done && states[i + 1].done[r] == states[i].done[r]
    ensures r !in states[i].done && r in states[i + 1].done ==> r in states[i].reqs
  {
    RunKeepsInv(states, acts, i);
    assert states[i + 1] == Next(states[i], acts[i]);
  }

  /** Every answered request was answered by one step of the run. */
  lemma {:induction false} AnsweredOnce(states: seq<State>, acts: seq<Action>, n: nat, r: ReqId) returns (i: nat)
    requires Run(states, acts) && n < |states| && r in states[n].done
    ensures i < n && r in states[i].reqs && r in states[i + 1].done && states[i + 1].done[r] == states[n].done[r]
    decreases n
  {
    i := n - 1;
    AnswerStep(states, acts, i, r);
    if r in states[i].done {
      i := AnsweredOnce(states, acts, n - 1, r);
    }
  }

  // What the model lets a registration do.

  /** s can take these actions and end up as s'. */
  ghost predicate Leads(s: State, acts: seq<Action>, s': State)
    decreases |acts|
  {
    if acts == [] then s == s'
    else s.dbs != [] && Enables(s, acts[0]) && Leads(Next(s, acts[0]), acts[1..], s')
  }

  lemma LeadsOn(s: State, a: Action, rest: seq<Action>, s': State)
    requires s.dbs != [] && Enables(s, a) && Leads(Next(s, a), rest, s')
    ensures Leads(s, [a] + rest, s')
  {
    assert ([a] + rest)[1..] == rest;
  }

  lemma SevenInARow<T>(a: T, b: T, c: T, d: T, e: T, f: T, g: T)
    ensures [a] + ([b] + ([c] + ([d] + ([e] + [f, g])))) == [a, b, c, d, e, f, g]
  {
  }

  /** The keys of a row and its id are free, in the latest table and among the rows in flight. */
  ghost predicate Free(s: State, row: UserRow, id: UserId)
    requires s.dbs != []
  {
    && (forall u :: u in Last(s.dbs).users ==>
          u != id && Last(s.dbs).users[u].username != row.username && Last(s.dbs).users[u].email != row.email)
    && forall p :: p in s.reqs && Holds(s.reqs[p]) ==>
         s.reqs[p].id != id && s.reqs[p].row.username != row.username && s.reqs[p].row.email != row.email
  }

  /** From any reachable state a registration whose keys are free, in the table and among the rows in flight,
      goes through: its steps are enabled, one after the other, and lead to the answer and to both rows. */
  lemma FreeKeysRegister(s: State, r: ReqId, row: UserRow, id: UserId)
    requires Inv(s) && r !in s.reqs && r !in s.done && Last(s.dbs).userRole.Some? && Free(s, row, id)
    ensures var n, op := |s.ops|, Op(r, id, row, Last(s.dbs).userRole.value);
            Leads(s, [Begin(r, row), CheckName(r, n), CheckEmail(r, n), Insert(r, id), Bind(r), Commit(r),
                      ReadBack(r, true)],
                  s.(ops := s.ops + [op], dbs := s.dbs + [Apply(Last(s.dbs), op)],
                     done := s.done[r := Registered(row, n)]))
  {
    var n, op := |s.ops|, Op(r, id, row, Last(s.dbs).userRole.value);
    var bound := At(s, r, Bound(n, row, id, op.role));
    var last := s.(ops := s.ops + [op], dbs := s.dbs + [Apply(Last(s.dbs), op)],
                   done := s.done[r := Registered(row, n)]);
    BoundLeads(s, bound, r, op, last);
    var tail := [Commit(r), ReadBack(r, true)];
    KeysLead(s, r, row, id, tail, last);
    ChecksLead(s, r, row, id, [Insert(r, id)] + ([Bind(r)] + tail), last);
    SevenInARow(Begin(r, row), CheckName(r, n), CheckEmail(r, n), Insert(r, id), Bind(r), Commit(r), ReadBack(r, true));
  }

  /** The state with request r in phase q. */
  function At(s: State, r: ReqId, q: Req): State { s.(reqs := s.reqs[r := q]) }

  lemma AtAgain(s: State, r: ReqId, before: Req, q: Req)
    ensures At(At(s, r, before), r, q) == At(s, r, q)
  {
    assert s.reqs[r := before][r := q] == s.reqs[r := q];
  }

  lemma ChecksPass(s: State, r: ReqId, row: UserRow, id: UserId)
    requires Inv(s) && r !in s.reqs && r !in s.done && Free(s, row, id)
    ensures var n := |s.ops|;
            && s.dbs != [] && Enables(s, Begin(r, row)) && Next(s, Begin(r, row)) == At(s, r, Started(n, row))
            && Enables(At(s, r, Started(n, row)), CheckName(r, n))
            && Enables(At(s, r, NameFree(n, row, n)), CheckEmail(r, n))
    ensures !NameTaken(s.dbs[|s.ops|], row.username) && !EmailTaken(s.dbs[|s.ops|], row.email)
  {
    assert |s.dbs| == |s.ops| + 1 && s.dbs[|s.ops|] == Last(s.dbs);
  }

  lemma ChecksLead(s: State, r: ReqId, row: UserRow, id: UserId, rest: seq<Action>, last: State)
    requires Inv(s) && r !in s.reqs && r !in s.done && Free(s, row, id)
    requires Leads(At(s, r, BothFree(|s.ops|, row, |s.ops|)), rest, last)
    ensures Leads(s, [Begin(r, row)] + ([CheckName(r, |s.ops|)] + ([CheckEmail(r, |s.ops|)] + rest)), last)
  {
    var n := |s.ops|;
    var started, named := Started(n, row), NameFree(n, row, n);
    ChecksPass(s, r, row, id);
    AtAgain(s, r, named, BothFree(n, row, n));
    LeadsOn(At(s, r, named), CheckEmail(r, n), rest, last);
    AtAgain(s, r, started, named);
    LeadsOn(At(s, r, started), CheckName(r, n), [CheckEmail(r, n)] + rest, last);
    LeadsOn(s, Begin(r, row), [CheckName(r, n)] + ([CheckEmail(r, n)] + rest), last);
  }

  lemma KeysLead(s: State, r: ReqId, row: UserRow, id: UserId, rest: seq<Action>, last: State)
    requires Inv(s) && r !in s.reqs && r !in s.done && Last(s.dbs).userRole.Some? && Free(s, row, id)
    requires Leads(At(s, r, Bound(|s.ops|, row, id, Last(s.dbs).userRole.value)), rest, last)
    ensures Leads(At(s, r, BothFree(|s.ops|, row, |s.ops|)), [Insert(r, id)] + ([Bind(r)] + rest), last)
  {
    var n := |s.ops|;
    var both, inserted := BothFree(n, row, n), Inserted(n, row, id);
    AtAgain(s, r, inserted, Bound(n, row, id, Last(s.dbs).userRole.value));
    LeadsOn(At(s, r, inserted), Bind(r), rest, last);
    AtAgain(s, r, both, inserted);
    InsertWorks(s, r, row, id);
    LeadsOn(At(s, r, both), Insert(r, id), [Bind(r)] + rest, last);
  }

  lemma InsertWorks(s: State, r: ReqId, row: UserRow, id: UserId)
    requires s.dbs != [] && r !in s.reqs && Free(s, row, id)
    ensures var both := At(s, r, BothFree(|s.ops|, row, |s.ops|));
            Enables(both, Insert(r, id)) && !Taken(Last(s.dbs), row)
  {
  }

  lemma BoundLeads(s: State, bound: State, r: ReqId, op: Op, last: State)
    requires Inv(s) && r !in s.reqs && r !in s.done && op.req == r
    requires bound == s.(reqs := s.reqs[r := Bound(|s.ops|, op.row, op.id, op.role)])
    requires last == s.(ops := s.ops + [op], dbs := s.dbs + [Apply(Last(s.dbs), op)],
                        done := s.done[r := Registered(op.row, |s.ops|)])
    ensures Leads(bound, [Commit(r), ReadBack(r, true)], last)
  {
    var committed := Next(bound, Commit(r));
    assert committed.reqs - {r} == s.reqs;
    assert Next(committed, ReadBack(r, true)) == last;
    LeadsOn(committed, ReadBack(r, true), [], last);
    LeadsOn(bound, Commit(r), [ReadBack(r, true)], last);
    assert [Commit(r)] + [ReadBack(r, true)] == [Commit(r), ReadBack(r, true)];
    assert [ReadBack(r, true)] + [] == [ReadBack(r, true)];
  }

  /** When the request began it presented this row, and n registrations had committed. */
  ghost predicate Began(states: seq<State>, acts: seq<Action>, i: nat, r: ReqId, row: UserRow, n: nat) {
    i < |states| == |acts| + 1
    && exists b :: 0 <= b < i && acts[b] == Begin(r, row) && |states[b].ops| == n
  }

  ghost predicate OwnReq(states: seq<State>, acts: seq<Action>, i: nat, r: ReqId, q: Req) {
    exists n :: Began(states, acts, i, r, q.row, n) && (q.Started? || q.NameFree? || q.BothFree? ==> q.began == n)
  }

  ghost predicate OwnOutcome(states: seq<State>, acts: seq<Action>, i: nat, r: ReqId, o: Outcome) {
    o.Failed? || exists n :: Began(states, acts, i, r, o.row, n) && (o.Conflicted? ==> o.began == n)
  }

  ghost predicate Origin(states: seq<State>, acts: seq<Action>, i: nat, r: ReqId)
    requires i < |states|
  {
    && (r in states[i].reqs ==> OwnReq(states, acts, i, r, states[i].reqs[r]))
    && (r in states[i].done ==> OwnOutcome(states, acts, i, r, states[i].done[r]))
  }

  lemma ReqLasts(states: seq<State>, acts: seq<Action>, i: nat, r: ReqId, q: Req)
    requires OwnReq(states, acts, i, r, q) && i < |acts|
    ensures OwnReq(states, acts, i + 1, r, q)
  {
    assert forall row, n :: Began(states, acts, i, r, row, n) ==> Began(states, acts, i + 1, r, row, n);
  }

  lemma OutcomeLasts(states: seq<State>, acts: seq<Action>, i: nat, r: ReqId, o: Outcome)
    requires OwnOutcome(states, acts, i, r, o) && i < |acts|
    ensures OwnOutcome(states, acts, i + 1, r, o)
  {
    assert forall row, n :: Began(states, acts, i, r, row, n) ==> Began(states, acts, i + 1, r, row, n);
  }

  /** What a step makes of a request's phase keeps its row, and its beginning while checks go on. */
  lemma PhaseKeepsOrigin(states: seq<State>, acts: seq<Action>, i: nat, r: ReqId)
    requires Run(states, acts) && i < |acts| && r in states[i].reqs && OwnReq(states, acts, i + 1, r, states[i].reqs[r])
    ensures r in states[i + 1].reqs ==> OwnReq(states, acts, i + 1, r, states[i + 1].reqs[r])
    ensures r in states[i + 1].done ==>
              r in states[i].done || OwnOutcome(states, acts, i + 1, r, states[i + 1].done[r])
  {
    assert states[i + 1] == Next(states[i], acts[i]);
  }

  lemma OriginStep(states: seq<State>, acts: seq<Action>, i: nat, r: ReqId)
    requires Run(states, acts) && i < |acts| && Inv(states[i]) && Origin(states, acts, i, r)
    ensures Origin(states, acts, i + 1, r)
  {
    var s, a := states[i], acts[i];
    if r in s.reqs {
      ReqLasts(states, acts, i, r, s.reqs[r]);
      PhaseKeepsOrigin(states, acts, i, r);
    } else if r in s.done {
      AnswerStep(states, acts, i, r);
      OutcomeLasts(states, acts, i, r, s.done[r]);
    } else if a.Begin? && a.r == r {
      assert Began(states, acts, i + 1, r, a.row, |s.ops|);
    }
  }

  /** The row that an answer speaks of, and the beginning of a conflict's interval, are the request's own. */
  lemma {:induction false} RowIsOwn(states: seq<State>, acts: seq<Action>, i: nat, r: ReqId)
    requires Run(states, acts) && i < |states|
    ensures Origin(states, acts, i, r)
  {
    if i > 0 {
      RowIsOwn(states, acts, i - 1, r);
      RunKeepsInv(states, acts, i - 1);
      OriginStep(states, acts, i - 1, r);
    }
  }

  /** Over any run a request is registered exactly when its own final read found the user, and not read back
      exactly when that read did not. */
  lemma RegisteredExactly(states: seq<State>, acts: seq<Action>, r: ReqId, found: bool)
    requires Run(states, acts)
    ensures (r in Last(states).done
             && if found then Last(states).done[r].Registered? else Last(states).done[r].NotReadBack?)
            <==> ReadBack(r, found) in acts
  {
    if r in Last(states).done {
      var i := AnsweredOnce(states, acts, |acts|, r);
      AnswersExactly(states, acts, i, r);
    }
    if ReadBack(r, found) in acts {
      var i :| 0 <= i < |acts| && acts[i] == ReadBack(r, found);
      AnswersExactly(states, acts, i, r);
      DoneStays(states, acts, i + 1, |acts|, r);
    }
  }

  lemma {:induction false} DoneStays(states: seq<State>, acts: seq<Action>, i: nat, n: nat, r: ReqId)
    requires Run(states, acts) && i <= n < |states| && r in states[i].done
    ensures r in states[n].done && states[n].done[r] == states[i].done[r]
    decreases n
  {
    if i < n {
      DoneStays(states, acts, i, n - 1, r);
      AnswerStep(states, acts, n - 1, r);
    }
  }

  /** Of the registrations that share a username or an email at most one commits, however their
      checks interleave. */
  lemma OneWinner(states: seq<State>, acts: seq<Action>, a: ReqId, b: ReqId)
    requires Run(states, acts) && a in Last(states).done && b in Last(states).done && a != b
    requires Committed(Last(states).done[a]) && Committed(Last(states).done[b])
    ensures !Clash(Last(states).done[a].row, Last(states).done[b].row)
  {
    RunKeepsInv(states, acts, |acts|);
    var s := Last(states);
    assert OutcomeOk(s, a, s.done[a]) && OutcomeOk(s, b, s.done[b]);
    var i, j := s.done[a].index, s.done[b].index;
    if i < j {
      RegisteredStays(s.dbs, s.ops, i, j);
      assert !Taken(s.dbs[j], s.ops[j].row);
    } else {
      RegisteredStays(s.dbs, s.ops, j, i);
      assert !Taken(s.dbs[i], s.ops[i].row);
    }
  }
}
