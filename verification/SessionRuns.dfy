/** The theorems about whole runs of the session protocol. */
module SessionRuns {
  import opened Common
  import opened AuthSessions
  import opened SessionHistory
  import opened SessionProtocol

  ghost predicate Run(ttl: Time, states: seq<State>, acts: seq<Action>) {
    && |states| == |acts| + 1
    && Init(states[0])
    && forall i :: 0 <= i < |acts| ==>
        states[i].dbs != [] && Enables(ttl, states[i], acts[i]) && states[i + 1] == Next(ttl, states[i], acts[i])
  }

  lemma {:induction false} RunKeepsInv(ttl: Time, states: seq<State>, acts: seq<Action>, i: nat)
    requires Run(ttl, states, acts) && i < |states|
    ensures Inv(states[i])
  {
    if i > 0 {
      RunKeepsInv(ttl, states, acts, i - 1);
      StepKeepsInv(ttl, states[i - 1], acts[i - 1]);
    }
  }

  /** Every interleaving refines the atomic store: the committed databases are a history of the
      committed operations, and a successful refresh is one of them, inside its own interval,
      enabled at every instant from its conditional update to its commit. */
  lemma SuccessLinearizes(ttl: Time, states: seq<State>, acts: seq<Action>, r: ReqId)
    requires Run(ttl, states, acts) && r in Last(states).done && Last(states).done[r].Refreshed?
    ensures var s := Last(states); History(s.dbs, s.ops)
    ensures var s := Last(states); var o := s.done[r];
            && o.began <= o.userSnap <= o.updated <= o.index < |s.ops|
            && s.ops[o.index].req == r && s.ops[o.index].Rotate?
            && (forall i :: o.updated <= i <= o.index ==>
                  var op, rows := s.ops[o.index], s.dbs[i].sessions;
                  && op.sid in rows && rows[op.sid].hash == op.oldHash && rows[op.sid].version == op.oldVersion
                  && rows[op.sid].status == Active && op.at < rows[op.sid].expiresAt
                  && forall other :: other in rows && other != op.sid ==> rows[other].hash != op.hash)
            && o.read.user in s.dbs[o.userSnap].users && s.dbs[o.userSnap].users[o.read.user].Enabled?
  {
    RunKeepsInv(ttl, states, acts, |acts|);
    var s := Last(states);
    assert OutcomeOk(s.dbs, s.ops, r, s.done[r]);
  }

  /** A login that commits read its user enabled at an instant between its own beginning and its insert, and
      its access token is that user's for the new session. */
  lemma LoginWasEnabled(ttl: Time, states: seq<State>, acts: seq<Action>, r: ReqId)
    requires Run(ttl, states, acts) && r in Last(states).done && Last(states).done[r].Written?
    ensures var s := Last(states); var o := s.done[r];
            && o.began <= o.updated <= o.index < |s.ops| < |s.dbs| && s.ops[o.index].req == r
            && (s.ops[o.index].Login? ==>
                  var op := s.ops[o.index];
                  && op.access == AccessToken(op.user, op.sid)
                  && exists i :: o.began <= i <= o.updated && op.user in s.dbs[i].users
                                 && s.dbs[i].users[op.user] == Enabled)
  {
    RunKeepsInv(ttl, states, acts, |acts|);
    var s := Last(states);
    var o := s.done[r];
    assert OutcomeOk(s.dbs, s.ops, r, o);
    var proof: Proof :| !proof.ByRefresh? && EffectOk(s.dbs, s.ops, r, o.began, proof, o.updated, o.index);
    if s.ops[o.index].Login? {
      assert s.ops[o.index].user in s.dbs[proof.userSnap].users;
    }
  }

  /** In every reachable state each column of each session row is what the committed operations on it last
      wrote there. */
  lemma RunRowsTellHistory(ttl: Time, states: seq<State>, acts: seq<Action>, sid: SessionId)
    requires Run(ttl, states, acts)
    requires Last(states).dbs != [] && sid in Last(Last(states).dbs).sessions
    ensures RowTold(Last(Last(states).dbs).sessions[sid], Last(states).ops, sid)
  {
    RunKeepsInv(ttl, states, acts, |acts|);
    RowTellsHistory(Last(states).dbs, Last(states).ops, sid);
  }

  // The intervals the outcomes report are the requests' own.

  /** Before step i, request r presented the token with hash h and read the clock as `at`, when n
      operations had committed. */
  ghost predicate Began(states: seq<State>, acts: seq<Action>, i: nat, r: ReqId, n: nat, h: Hash, at: Time) {
    i < |states| == |acts| + 1
    && exists b :: 0 <= b < i && acts[b] == BeginRefresh(r, h) && states[b].now == at && |states[b].ops| == n
  }

  /** Before step i, request r ended, when n operations had committed. */
  ghost predicate Ended(states: seq<State>, i: nat, r: ReqId, n: nat) {
    i < |states|
    && exists e :: 0 <= e < i && r in states[e].reqs && r in states[e + 1].done && |states[e].ops| == n
  }

  ghost predicate ReqOrigin(states: seq<State>, acts: seq<Action>, i: nat, r: ReqId, q: Req) {
    match q
    case RefreshStarted(began, h, at) => Began(states, acts, i, r, began, h, at)
    case RefreshSession(began, h, at, _) => Began(states, acts, i, r, began, h, at)
    case RefreshUser(began, h, at, _, _) => Began(states, acts, i, r, began, h, at)
    case Pending(began, proof, _, op) =>
      proof.ByRefresh? ==> op.Rotate? && Began(states, acts, i, r, began, op.oldHash, op.at)
    case _ => true
  }

  ghost predicate OutcomeOrigin(states: seq<State>, acts: seq<Action>, i: nat, r: ReqId, o: Outcome) {
    i < |states| &&
    match o
    case Refreshed(began, _, _, _, index) =>
      && index < |states[i].ops| && states[i].ops[index].Rotate?
      && Began(states, acts, i, r, began, states[i].ops[index].oldHash, states[i].ops[index].at)
      && Ended(states, i, r, index)
    case InvalidToken(began, ended, h, at) => Began(states, acts, i, r, began, h, at) && Ended(states, i, r, ended)
    case _ => true
  }

  ghost predicate Origins(states: seq<State>, acts: seq<Action>, i: nat)
    requires i < |states|
  {
    && (forall r :: r in states[i].reqs ==> ReqOrigin(states, acts, i, r, states[i].reqs[r]))
    && (forall r :: r in states[i].done ==> OutcomeOrigin(states, acts, i, r, states[i].done[r]))
  }

  /** A request that takes no part in step i keeps its origin. */
  lemma OtherOrigin(ttl: Time, states: seq<State>, acts: seq<Action>, i: nat, r: ReqId)
    requires Run(ttl, states, acts) && i < |acts| && Origins(states, acts, i)
    ensures r in states[i].reqs ==> ReqOrigin(states, acts, i + 1, r, states[i].reqs[r])
    ensures r in states[i].done ==> OutcomeOrigin(states, acts, i + 1, r, states[i].done[r])
  {
    assert states[i + 1] == Next(ttl, states[i], acts[i]);
    assert r in states[i].reqs ==> ReqOrigin(states, acts, i, r, states[i].reqs[r]);
    assert r in states[i].done ==> OutcomeOrigin(states, acts, i, r, states[i].done[r]);
  }

  /** The request that takes step i gets its origin from the step or keeps it. */
  lemma StepOrigin(ttl: Time, states: seq<State>, acts: seq<Action>, i: nat)
    requires Run(ttl, states, acts) && i < |acts| && Origins(states, acts, i) && !acts[i].Tick?
    ensures var r := acts[i].r; r in states[i + 1].reqs ==> ReqOrigin(states, acts, i + 1, r, states[i + 1].reqs[r])
    ensures var r := acts[i].r; r in states[i + 1].done ==> OutcomeOrigin(states, acts, i + 1, r, states[i + 1].done[r])
  {
    OtherOrigin(ttl, states, acts, i, acts[i].r);
    assert states[i + 1] == Next(ttl, states[i], acts[i]);
    var a := acts[i];
    if a.r in states[i].reqs && a.r in states[i + 1].done {
      assert Ended(states, i + 1, a.r, |states[i].ops|);
    }
    if a.BeginRefresh? {
      assert Began(states, acts, i + 1, a.r, |states[i].ops|, a.hash, states[i].now);
    }
  }

  /** A step changes nothing of the requests that do not take it. */
  lemma OthersUntouched(ttl: Time, s: State, a: Action, r: ReqId)
    requires s.dbs != [] && Enables(ttl, s, a) && (a.Tick? || a.r != r)
    ensures var s' := Next(ttl, s, a);
            && (r in s'.reqs <==> r in s.reqs) && (r in s.reqs ==> s'.reqs[r] == s.reqs[r])
            && (r in s'.done <==> r in s.done) && (r in s.done ==> s'.done[r] == s.done[r])
  {
  }

  lemma NextOrigin(ttl: Time, states: seq<State>, acts: seq<Action>, i: nat, r: ReqId)
    requires Run(ttl, states, acts) && i < |acts| && Origins(states, acts, i)
    ensures r in states[i + 1].reqs ==> ReqOrigin(states, acts, i + 1, r, states[i + 1].reqs[r])
    ensures r in states[i + 1].done ==> OutcomeOrigin(states, acts, i + 1, r, states[i + 1].done[r])
  {
    if acts[i].Tick? || acts[i].r != r {
      OthersUntouched(ttl, states[i], acts[i], r);
      OtherOrigin(ttl, states, acts, i, r);
    } else {
      StepOrigin(ttl, states, acts, i);
    }
  }

  lemma {:induction false} RunKeepsOrigins(ttl: Time, states: seq<State>, acts: seq<Action>, i: nat)
    requires Run(ttl, states, acts) && i < |states|
    ensures Origins(states, acts, i)
  {
    if i > 0 {
      RunKeepsOrigins(ttl, states, acts, i - 1);
      forall r
        ensures r in states[i].reqs ==> ReqOrigin(states, acts, i, r, states[i].reqs[r])
        ensures r in states[i].done ==> OutcomeOrigin(states, acts, i, r, states[i].done[r])
      {
        NextOrigin(ttl, states, acts, i - 1, r);
      }
    }
  }

  /** A refresh that succeeds rotates the token it presented, at the clock reading it began with,
      between the instant it began and the instant it ended; a rejected one reports that interval. */
  lemma IntervalIsOwn(ttl: Time, states: seq<State>, acts: seq<Action>, r: ReqId)
    requires Run(ttl, states, acts) && r in Last(states).done
    ensures var s := Last(states); var o := s.done[r];
            o.Refreshed? ==>
              && o.index < |s.ops| && s.ops[o.index].Rotate? && s.ops[o.index].req == r
              && Began(states, acts, |acts|, r, o.began, s.ops[o.index].oldHash, s.ops[o.index].at)
              && Ended(states, |acts|, r, o.index)
    ensures var s := Last(states); var o := s.done[r];
            o.InvalidToken? ==>
              Began(states, acts, |acts|, r, o.began, o.hash, o.at) && Ended(states, |acts|, r, o.ended)
  {
    RunKeepsOrigins(ttl, states, acts, |acts|);
    RunKeepsInv(ttl, states, acts, |acts|);
    var s := Last(states);
    assert OutcomeOk(s.dbs, s.ops, r, s.done[r]);
    assert OutcomeOrigin(states, acts, |acts|, r, s.done[r]);
  }

  /** A request that was rejected or failed leaves no trace in the history. */
  lemma LosersLeaveNoTrace(ttl: Time, states: seq<State>, acts: seq<Action>, r: ReqId, k: nat)
    requires Run(ttl, states, acts) && r in Last(states).done && k < |Last(states).ops|
    requires Last(states).done[r].InvalidToken? || Last(states).done[r].Failed?
    ensures Last(states).ops[k].req != r
  {
    RunKeepsInv(ttl, states, acts, |acts|);
    assert Reported(Last(states), k);
  }

  /** At most one refresh ever succeeds per (session, version) pair: no assumption on the tokens. */
  lemma OneSuccessPerVersion(ttl: Time, states: seq<State>, acts: seq<Action>, a: ReqId, b: ReqId)
    requires Run(ttl, states, acts) && a in Last(states).done && b in Last(states).done
    requires Last(states).done[a].Refreshed? && Last(states).done[b].Refreshed?
    requires Last(states).done[a].read.sid == Last(states).done[b].read.sid
    requires Last(states).done[a].read.version == Last(states).done[b].read.version
    ensures a == b
  {
    RunKeepsInv(ttl, states, acts, |acts|);
    var s := Last(states);
    assert OutcomeOk(s.dbs, s.ops, a, s.done[a]) && OutcomeOk(s.dbs, s.ops, b, s.done[b]);
    OneRotationPerVersion(s.dbs, s.ops, s.done[a].index, s.done[b].index);
  }

  /** A successful refresh found its token wholly usable at the instant it read the user, exactly unless
      the last status update between its session read and its user read had revoked the session. */
  lemma SuccessWasUsable(ttl: Time, states: seq<State>, acts: seq<Action>, r: ReqId)
    requires Run(ttl, states, acts) && r in Last(states).done && Last(states).done[r].Refreshed?
    ensures var s := Last(states); var o := s.done[r];
            && o.began <= o.read.snap <= o.userSnap <= o.index < |s.ops| < |s.dbs| && s.ops[o.index].Rotate?
            && (Usable(s.dbs[o.userSnap], s.ops[o.index].oldHash, s.ops[o.index].at)
                <==> LastStatus(s.ops, o.read.snap, o.userSnap, o.read.sid) != Some(Revoked))
  {
    RunKeepsInv(ttl, states, acts, |acts|);
    var s := Last(states);
    var o := s.done[r];
    assert OutcomeOk(s.dbs, s.ops, r, o);
    var op := s.ops[o.index];
    assert Guard(s.dbs[o.updated], op);
    SameVersionSameRow(s.dbs, s.ops, o.read.snap, o.userSnap, o.updated, op.sid);
    SameVersionStatus(s.dbs, s.ops, o.read.snap, o.userSnap, o.updated, op.sid);
    RowsPersist(s.dbs, s.ops, o.read.snap, o.userSnap, op.sid);
    HistoryUnique(s.dbs, s.ops, o.userSnap);
    assert UsableBy(s.dbs[o.userSnap], op.sid, op.oldHash, op.at)
        <==> s.dbs[o.userSnap].sessions[op.sid].status.Active?;
  }

  /** When both reads of a successful refresh see one snapshot, its token was wholly usable there. */
  lemma OneSnapshotWasUsable(ttl: Time, states: seq<State>, acts: seq<Action>, r: ReqId)
    requires Run(ttl, states, acts) && r in Last(states).done && Last(states).done[r].Refreshed?
    requires Last(states).done[r].read.snap == Last(states).done[r].userSnap
    ensures var s := Last(states); var o := s.done[r];
            && o.index < |s.ops| && o.userSnap < |s.dbs| && s.ops[o.index].Rotate?
            && Usable(s.dbs[o.userSnap], s.ops[o.index].oldHash, s.ops[o.index].at)
  {
    SuccessWasUsable(ttl, states, acts, r);
  }

  /** Every access token issued with a minted refresh token names its session and the owner. */
  lemma AccessNamesOwner(ttl: Time, states: seq<State>, acts: seq<Action>, k: nat)
    requires Run(ttl, states, acts) && k < |Last(states).ops| && Mints(Last(states).ops[k])
    ensures var s := Last(states); var op := s.ops[k];
            s.dbs != [] && op.sid in Last(s.dbs).sessions
            && op.access == AccessToken(Last(s.dbs).sessions[op.sid].userId, op.sid)
  {
    RunKeepsInv(ttl, states, acts, |acts|);
    var s := Last(states);
    var proof := ReportedEffect(s, k);
    ProofNamesOwner(s.dbs, s.ops, k, proof);
  }

  lemma ReportedEffect(s: State, k: nat) returns (p: (nat, Proof, nat))
    requires Inv(s) && k < |s.ops|
    ensures EffectOk(s.dbs, s.ops, s.ops[k].req, p.0, p.1, p.2, k)
  {
    var r := s.ops[k].req;
    assert Reported(s, k);
    var o := s.done[r];
    assert OutcomeOk(s.dbs, s.ops, r, o);
    if o.Refreshed? {
      p := (o.began, ByRefresh(o.read, o.userSnap), o.updated);
    } else {
      var proof: Proof :| !proof.ByRefresh? && EffectOk(s.dbs, s.ops, r, o.began, proof, o.updated, o.index);
      p := (o.began, proof, o.updated);
    }
  }

  lemma ProofNamesOwner(dbs: seq<Db>, ops: seq<Op>, k: nat, p: (nat, Proof, nat))
    requires History(dbs, ops) && k < |ops| && Mints(ops[k])
    requires EffectOk(dbs, ops, ops[k].req, p.0, p.1, p.2, k)
    ensures ops[k].sid in Last(dbs).sessions
    ensures ops[k].access == AccessToken(Last(dbs).sessions[ops[k].sid].userId, ops[k].sid)
  {
    assert Guard(dbs[k], ops[k]);
    RowsPersist(dbs, ops, k + 1, |ops|, ops[k].sid);
    if p.1.ByRefresh? {
      RowsPersist(dbs, ops, p.1.read.snap, |ops|, ops[k].sid);
    }
  }

  // Runs in which every generated hash is new.

  ghost predicate Fresh(s: State, a: Action) {
    (a.UpdateRotate? || a.InsertLogin?) ==> a.newHash !in s.minted
  }

  ghost predicate FreshRun(states: seq<State>, acts: seq<Action>)
    requires |states| == |acts| + 1
  {
    forall i :: 0 <= i < |acts| ==> Fresh(states[i], acts[i])
  }

  ghost predicate FreshInv(s: State) {
    && FreshMints(s.ops) && (forall k, h :: 0 <= k < |s.ops| ==> !SelfRotates(s.ops[k], h))
    && (forall k :: 0 <= k < |s.ops| && Mints(s.ops[k]) ==> s.ops[k].hash in s.minted)
    && (forall r :: r in s.reqs && s.reqs[r].Pending? && Mints(s.reqs[r].op) ==>
          FreshOp(s.minted, s.ops, s.reqs[r].op))
  }

  ghost predicate FreshOp(minted: set<Hash>, ops: seq<Op>, op: Op)
    requires Mints(op)
  {
    && op.hash in minted
    && (forall k :: 0 <= k < |ops| && Mints(ops[k]) ==> ops[k].hash != op.hash)
    && (op.Rotate? ==> op.hash != op.oldHash)
  }

  /** The hash a refresh is about to mint is new, so it is not the one it consumes. */
  lemma FreshRotate(ttl: Time, s: State, r: ReqId, newHash: Hash)
    requires Inv(s) && FreshInv(s) && Enables(ttl, s, UpdateRotate(r, newHash)) && newHash !in s.minted
    requires UpdateHits(Last(s.dbs), s.reqs[r])
    ensures FreshOp(s.minted + {newHash}, s.ops, RotateOp(ttl, r, s.reqs[r], newHash))
  {
    var q := s.reqs[r];
    assert ReqOk(s.dbs, |s.ops|, r, q);
    var m := HeldWasMinted(s.dbs, s.ops, q.read.snap, q.read.sid);
    assert q.hash in s.minted;
  }

  lemma FreshCommit(ttl: Time, s: State, r: ReqId)
    requires Inv(s) && FreshInv(s) && Enables(ttl, s, Commit(r))
    ensures FreshInv(Next(ttl, s, Commit(r)))
  {
    var s', op := Next(ttl, s, Commit(r)), s.reqs[r].op;
    forall p | p in s'.reqs && s'.reqs[p].Pending? && Mints(s'.reqs[p].op)
      ensures FreshOp(s'.minted, s'.ops, s'.reqs[p].op)
    {
      assert FreshOp(s.minted, s.ops, s.reqs[p].op) && !Conflict(op, s.reqs[p].op);
    }
  }

  /** A hash never minted before is new to the history as well. */
  lemma FreshLogin(ttl: Time, s: State, r: ReqId, sid: SessionId, newHash: Hash)
    requires FreshInv(s) && s.dbs != [] && Enables(ttl, s, InsertLogin(r, sid, newHash)) && newHash !in s.minted
    ensures FreshOp(s.minted + {newHash}, s.ops, LoginOp(ttl, r, s.reqs[r], sid, newHash))
  {
  }

  /** A step that commits nothing leaves the pending writes of the others as fresh as they were. */
  lemma FreshOthers(ttl: Time, s: State, a: Action, p: ReqId)
    requires FreshInv(s) && s.dbs != [] && Enables(ttl, s, a) && !a.Commit?
    requires p in s.reqs && s.reqs[p].Pending? && Mints(s.reqs[p].op)
    ensures FreshOp(Next(ttl, s, a).minted, Next(ttl, s, a).ops, s.reqs[p].op)
  {
  }

  lemma FreshStep(ttl: Time, s: State, a: Action)
    requires Inv(s) && FreshInv(s) && Enables(ttl, s, a) && Fresh(s, a)
    ensures FreshInv(Next(ttl, s, a))
  {
    if a.Commit? {
      FreshCommit(ttl, s, a.r);
    } else {
      var s' := Next(ttl, s, a);
      if a.UpdateRotate? && UpdateHits(Last(s.dbs), s.reqs[a.r]) {
        FreshRotate(ttl, s, a.r, a.newHash);
      } else if a.InsertLogin? {
        FreshLogin(ttl, s, a.r, a.sid, a.newHash);
      }
      forall p | p in s'.reqs && s'.reqs[p].Pending? && Mints(s'.reqs[p].op)
        ensures FreshOp(s'.minted, s'.ops, s'.reqs[p].op)
      {
        if p in s.reqs && s.reqs[p] == s'.reqs[p] {
          FreshOthers(ttl, s, a, p);
        }
      }
    }
  }

  lemma {:induction false} FreshRunKeeps(ttl: Time, states: seq<State>, acts: seq<Action>, i: nat)
    requires Run(ttl, states, acts) && FreshRun(states, acts) && i < |states|
    ensures Inv(states[i]) && FreshInv(states[i])
  {
    RunKeepsInv(ttl, states, acts, i);
    if i > 0 {
      FreshRunKeeps(ttl, states, acts, i - 1);
      assert Fresh(states[i - 1], acts[i - 1]);
      FreshStep(ttl, states[i - 1], acts[i - 1]);
    }
  }

  /** With fresh hashes at most one refresh ever succeeds per refresh token. */
  lemma OneSuccessPerToken(ttl: Time, states: seq<State>, acts: seq<Action>, a: ReqId, b: ReqId)
    requires Run(ttl, states, acts) && FreshRun(states, acts)
    requires a in Last(states).done && b in Last(states).done
    requires Last(states).done[a].Refreshed? && Last(states).done[b].Refreshed?
    requires var s := Last(states);
             s.done[a].index < |s.ops| && s.done[b].index < |s.ops|
             && s.ops[s.done[a].index].Rotate? && s.ops[s.done[b].index].Rotate?
             && s.ops[s.done[a].index].oldHash == s.ops[s.done[b].index].oldHash
    ensures a == b
  {
    FreshRunKeeps(ttl, states, acts, |acts|);
    var s := Last(states);
    assert OutcomeOk(s.dbs, s.ops, a, s.done[a]) && OutcomeOk(s.dbs, s.ops, b, s.done[b]);
    OneRotationPerToken(s.dbs, s.ops, s.done[a].index, s.done[b].index);
  }

  /** In any run, fresh or not, a rejection is justified unless its own token was consumed and minted
      again within its own interval. */
  lemma RejectionIsJustified(ttl: Time, states: seq<State>, acts: seq<Action>, r: ReqId)
    requires Run(ttl, states, acts) && r in Last(states).done && Last(states).done[r].InvalidToken?
    ensures var s := Last(states); var o := s.done[r];
            && o.began <= o.ended < |s.dbs|
            && (NoSelfRotation(s.ops, o.began, o.ended, o.hash) ==>
                  exists i :: o.began <= i <= o.ended && !Usable(s.dbs[i], o.hash, o.at))
  {
    RunKeepsInv(ttl, states, acts, |acts|);
    assert OutcomeOk(Last(states).dbs, Last(states).ops, r, Last(states).done[r]);
  }

  /** With fresh hashes every rejection is justified. */
  lemma EveryRejectionIsJustified(ttl: Time, states: seq<State>, acts: seq<Action>, r: ReqId)
    requires Run(ttl, states, acts) && FreshRun(states, acts)
    requires r in Last(states).done && Last(states).done[r].InvalidToken?
    ensures var s := Last(states); var o := s.done[r];
            o.began <= o.ended < |s.dbs| && exists i :: o.began <= i <= o.ended && !Usable(s.dbs[i], o.hash, o.at)
  {
    FreshRunKeeps(ttl, states, acts, |acts|);
    RejectionIsJustified(ttl, states, acts, r);
  }

  /** In every reachable state the tokens of a session form one chain, of which the row holds the last,
      and the version counts rotations and revocations; in a fresh run only the last element has its hash
      in the table. */
  lemma TokensFormOneChain(ttl: Time, states: seq<State>, acts: seq<Action>, sid: SessionId)
    requires Run(ttl, states, acts)
    requires Last(states).dbs != [] && sid in Last(Last(states).dbs).sessions
    ensures var s := Last(states); var rows := Last(s.dbs).sessions;
            Chain(s.ops, sid) == Consumed(s.ops, sid) + [rows[sid].hash] && rows[sid].version == Bumps(s.ops, sid)
    ensures var s := Last(states); var rows := Last(s.dbs).sessions; var chain := Chain(s.ops, sid);
            FreshRun(states, acts) ==>
              forall n, other :: 0 <= n < |chain| && other in rows ==>
                (rows[other].hash == chain[n] <==> other == sid && n == |chain| - 1)
  {
    RunKeepsInv(ttl, states, acts, |acts|);
    var s := Last(states);
    ChainShape(s.dbs, s.ops, sid);
    if FreshRun(states, acts) {
      FreshRunKeeps(ttl, states, acts, |acts|);
      forall n, other | 0 <= n < |Chain(s.ops, sid)| && other in Last(s.dbs).sessions
        ensures Last(s.dbs).sessions[other].hash == Chain(s.ops, sid)[n]
                <==> other == sid && n == |Chain(s.ops, sid)| - 1
      {
        OnlyLastIsHeld(s.dbs, s.ops, sid, other, n);
      }
    }
  }

  /** In any run a revoked row stays as it is exactly until a status update makes it active. */
  lemma RevokedStaysRevoked(ttl: Time, states: seq<State>, acts: seq<Action>, i: nat, j: nat, sid: SessionId)
    requires Run(ttl, states, acts) && i <= j < |Last(states).dbs| && sid in Last(states).dbs[i].sessions
    requires Last(states).dbs[i].sessions[sid].status.Revoked?
    ensures var s := Last(states);
            (forall k :: i <= k <= j ==> sid in s.dbs[k].sessions && s.dbs[k].sessions[sid] == s.dbs[i].sessions[sid])
            <==> forall n :: i <= n < j && n < |s.ops| ==> !Reactivates(s.ops[n], sid)
  {
    RunKeepsInv(ttl, states, acts, |acts|);
    RevokedIsFrozen(Last(states).dbs, Last(states).ops, i, j, sid);
  }

  // Runs in which clients present only tokens they were given, under one clock that never goes back.

  ghost predicate Delivered(ops: seq<Op>, h: Hash) {
    exists k :: 0 <= k < |ops| && Mints(ops[k]) && ops[k].hash == h
  }

  ghost predicate HonestRun(states: seq<State>, acts: seq<Action>)
    requires |states| == |acts| + 1
  {
    forall i :: 0 <= i < |acts| && acts[i].BeginRefresh? ==> Delivered(states[i].ops, acts[i].hash)
  }

  /** The presented token was delivered before the clock was read, so no row that holds it was
      issued or refreshed later than that reading. */
  ghost predicate PresentedOk(s: State, h: Hash, at: Time)
    requires s.dbs != []
  {
    && at <= s.now && Delivered(s.ops, h)
    && forall sid :: sid in Last(s.dbs).sessions && Last(s.dbs).sessions[sid].hash == h ==>
         LastTime(Last(s.dbs).sessions[sid]) <= at
  }

  ghost predicate ClockOk(ttl: Time, s: State, q: Req)
    requires s.dbs != []
  {
    match q
    case RefreshStarted(_, h, at) => PresentedOk(s, h, at)
    case RefreshSession(_, h, at, _) => PresentedOk(s, h, at)
    case RefreshUser(_, h, at, _, _) => PresentedOk(s, h, at)
    case LoginStamped(_, _, _, at) => at <= s.now
    case Pending(_, _, _, op) =>
      && (op.Rotate? ==> op.expires == op.at + ttl && PresentedOk(s, op.oldHash, op.at))
      && (op.Login? ==> op.expires == op.at + ttl && op.at <= s.now)
    case _ => true
  }

  ghost predicate TimeInv(ttl: Time, s: State) {
    && |s.dbs| == |s.ops| + 1 && HistoryTimes(ttl, s.dbs, s.ops)
    && (forall sid :: sid in Last(s.dbs).sessions ==> LastTime(Last(s.dbs).sessions[sid]) <= s.now)
    && (forall r :: r in s.reqs ==> ClockOk(ttl, s, s.reqs[r]))
  }

  /** An operation that does not mint h leaves no later row with h. */
  lemma RowsWithHash(db: Db, op: Op, h: Hash, at: Time, sid: SessionId)
    requires Guard(db, op) && (Mints(op) ==> op.hash != h)
    requires forall sid :: sid in db.sessions && db.sessions[sid].hash == h ==> LastTime(db.sessions[sid]) <= at
    requires sid in Apply(db, op).sessions && Apply(db, op).sessions[sid].hash == h
    ensures LastTime(Apply(db, op).sessions[sid]) <= at
  {
  }

  /** The hash a commit brings into the table was delivered to nobody before. */
  lemma CommitKeepsPresented(s: State, r: ReqId, s': State, h: Hash, at: Time)
    requires Inv(s) && FreshInv(s) && r in s.reqs && s.reqs[r].Pending? && PresentedOk(s, h, at)
    requires s'.now == s.now && s'.ops == s.ops + [s.reqs[r].op] && s'.dbs == s.dbs + [Apply(Last(s.dbs), s.reqs[r].op)]
    ensures PresentedOk(s', h, at)
  {
    var op := s.reqs[r].op;
    var k :| 0 <= k < |s.ops| && Mints(s.ops[k]) && s.ops[k].hash == h;
    assert s'.ops[k] == s.ops[k];
    assert ReqOk(s.dbs, |s.ops|, r, s.reqs[r]);
    assert Guard(s.dbs[|s.ops|], op);
    assert Mints(op) ==> FreshOp(s.minted, s.ops, op) && op.hash != h;
    forall sid | sid in Last(s'.dbs).sessions && Last(s'.dbs).sessions[sid].hash == h
      ensures LastTime(Last(s'.dbs).sessions[sid]) <= at
    {
      RowsWithHash(Last(s.dbs), op, h, at, sid);
    }
  }

  lemma CommitKeepsClock(ttl: Time, s: State, r: ReqId, s': State, p: ReqId)
    requires Inv(s) && FreshInv(s) && r in s.reqs && s.reqs[r].Pending? && p in s.reqs && ClockOk(ttl, s, s.reqs[p])
    requires s'.now == s.now && s'.ops == s.ops + [s.reqs[r].op] && s'.dbs == s.dbs + [Apply(Last(s.dbs), s.reqs[r].op)]
    ensures ClockOk(ttl, s', s.reqs[p])
  {
    var q := s.reqs[p];
    if q.RefreshStarted? || q.RefreshSession? || q.RefreshUser? {
      CommitKeepsPresented(s, r, s', q.hash, q.at);
    } else if q.Pending? && q.op.Rotate? {
      CommitKeepsPresented(s, r, s', q.op.oldHash, q.op.at);
    }
  }

  /** What a committing operation stamps is not later than the clock, and not earlier than the row. */
  lemma CommitTimes(ttl: Time, s: State, r: ReqId)
    requires Inv(s) && TimeInv(ttl, s) && Enables(ttl, s, Commit(r))
    ensures OpTimes(ttl, Last(s.dbs), s.reqs[r].op)
    ensures var rows := Apply(Last(s.dbs), s.reqs[r].op).sessions;
            forall sid :: sid in rows ==> LastTime(rows[sid]) <= s.now
  {
    assert ReqOk(s.dbs, |s.ops|, r, s.reqs[r]);
    assert Guard(s.dbs[|s.ops|], s.reqs[r].op) && ClockOk(ttl, s, s.reqs[r]);
  }

  lemma CommitKeepsTime(ttl: Time, s: State, r: ReqId)
    requires Inv(s) && FreshInv(s) && TimeInv(ttl, s) && Enables(ttl, s, Commit(r))
    ensures TimeInv(ttl, Next(ttl, s, Commit(r)))
  {
    var s' := Next(ttl, s, Commit(r));
    CommitTimes(ttl, s, r);
    forall p | p in s'.reqs
      ensures ClockOk(ttl, s', s'.reqs[p])
    {
      CommitKeepsClock(ttl, s, r, s', p);
    }
  }

  lemma UnchangedClock(ttl: Time, s: State, s': State, q: Req)
    requires s.dbs != [] && s'.dbs == s.dbs && s'.ops == s.ops && s.now <= s'.now && ClockOk(ttl, s, q)
    ensures ClockOk(ttl, s', q)
  {
  }

  lemma TimeStep(ttl: Time, s: State, a: Action)
    requires Inv(s) && FreshInv(s) && TimeInv(ttl, s) && Enables(ttl, s, a)
    requires a.BeginRefresh? ==> Delivered(s.ops, a.hash)
    ensures TimeInv(ttl, Next(ttl, s, a))
  {
    if a.Commit? {
      CommitKeepsTime(ttl, s, a.r);
    } else {
      var s' := Next(ttl, s, a);
      forall p | p in s'.reqs
        ensures ClockOk(ttl, s', s'.reqs[p])
      {
        if p in s.reqs && s'.reqs[p] == s.reqs[p] {
          UnchangedClock(ttl, s, s', s.reqs[p]);
        } else {
          ChangedClock(ttl, s, a);
        }
      }
    }
  }

  /** The request that takes a step keeps the clock reading it has, or reads the clock now. */
  lemma ChangedClock(ttl: Time, s: State, a: Action)
    requires Inv(s) && TimeInv(ttl, s) && Enables(ttl, s, a) && !a.Tick? && !a.Commit? && a.r in Next(ttl, s, a).reqs
    requires a.BeginRefresh? ==> Delivered(s.ops, a.hash)
    ensures ClockOk(ttl, Next(ttl, s, a), Next(ttl, s, a).reqs[a.r])
  {
    assert a.r in s.reqs ==> ClockOk(ttl, s, s.reqs[a.r]);
  }

  lemma {:induction false} TimeRunKeeps(ttl: Time, states: seq<State>, acts: seq<Action>, i: nat)
    requires Run(ttl, states, acts) && FreshRun(states, acts) && HonestRun(states, acts) && i < |states|
    ensures Inv(states[i]) && TimeInv(ttl, states[i])
  {
    FreshRunKeeps(ttl, states, acts, i);
    if i > 0 {
      FreshRunKeeps(ttl, states, acts, i - 1);
      TimeRunKeeps(ttl, states, acts, i - 1);
      TimeStep(ttl, states[i - 1], acts[i - 1]);
    }
  }

  /** Along each session's committed rotations the refresh times and expiries never decrease, and
      issue <= last refresh < expiry at every instant, although clocks are read before transactions. */
  lemma SessionTimesMonotone(ttl: Time, states: seq<State>, acts: seq<Action>, i: nat, j: nat, sid: SessionId)
    requires ttl > 0 && Run(ttl, states, acts) && FreshRun(states, acts) && HonestRun(states, acts)
    requires i <= j < |Last(states).dbs| && sid in Last(states).dbs[i].sessions
    ensures var dbs := Last(states).dbs;
            && sid in dbs[j].sessions
            && dbs[j].sessions[sid].issuedAt <= LastTime(dbs[j].sessions[sid]) < dbs[j].sessions[sid].expiresAt
            && LastTime(dbs[i].sessions[sid]) <= LastTime(dbs[j].sessions[sid])
            && dbs[i].sessions[sid].expiresAt <= dbs[j].sessions[sid].expiresAt
  {
    TimeRunKeeps(ttl, states, acts, |acts|);
    TimesMonotone(ttl, Last(states).dbs, Last(states).ops, i, j, sid);
  }
}
