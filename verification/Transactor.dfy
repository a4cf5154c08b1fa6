/** WithinTx: one outermost transaction, nested calls that join it, and statements routed by the context
    they are given. */
module Transactor {
  import opened Common

  /** How a transaction function ends. */
  datatype Verdict = Nil | Error | Panic

  /** A context: without a transaction, or with the transaction that was begun as the level-th open one. */
  datatype Context = NoTx | Carries(level: nat)

  /** A transaction function: statements and queries through queries(ctx), control flow on what the
      queries return, and WithinTx calls with what the caller does with their result. Each names the
      context it uses: being a closure, the function can use every context of the functions around it.
      The flags say whether the driver lets a transaction begin and commit there. */
  datatype Body<!Db> =
    | Return(verdict: Verdict)
    | Exec(ctx: Context, write: Db -> Db, next: Body<Db>)
    | Branch(ctx: Context, test: Db -> bool, yes: Body<Db>, no: Body<Db>)
    | Within(ctx: Context, inner: Body<Db>, begins: bool, commits: bool, onNil: Body<Db>, onErr: Body<Db>)

  predicate Open(ctx: Context, n: nat) { ctx.Carries? ==> ctx.level < n }

  /** Where n transactions are open the body only names those; a call without a transaction opens one more
      for the function it runs. */
  predicate Scoped<Db>(b: Body<Db>, n: nat) {
    match b
    case Return(_) => true
    case Exec(ctx, _, next) => Open(ctx, n) && Scoped(next, n)
    case Branch(ctx, _, yes, no) => Open(ctx, n) && Scoped(yes, n) && Scoped(no, n)
    case Within(ctx, inner, _, _, onNil, onErr) =>
      Open(ctx, n) && Scoped(inner, if ctx.NoTx? then n + 1 else n) && Scoped(onNil, n) && Scoped(onErr, n)
  }

  /** What the driver is told, and, after each statement, the committed data that others can see. */
  datatype Event<Db> = Begun | Committed | CommitFailed | RolledBack | Visible(data: Db)

  /** The committed data and what happened so far. */
  datatype World<Db> = World(data: Db, events: seq<Event<Db>>)

  function Told<Db>(w: World<Db>, e: Event<Db>): World<Db> { w.(events := w.events + [e]) }

  /** A statement that takes effect at once. */
  function Written<Db>(w: World<Db>, write: Db -> Db): World<Db> {
    Told(World(write(w.data), w.events), Visible(write(w.data)))
  }

  /** An open transaction: the data it began with and its statements so far. It reads its snapshot with
      its own statements applied; its commit applies them to what is committed by then. */
  datatype Tx<!Db> = Tx(snapshot: Db, log: seq<Db -> Db>)

  function Replay<Db>(log: seq<Db -> Db>, db: Db): Db {
    if log == [] then db else Last(log)(Replay(log[..|log| - 1], db))
  }

  function View<Db>(tx: Tx<Db>): Db { Replay(tx.log, tx.snapshot) }

  function Logged<Db>(tx: Tx<Db>, write: Db -> Db): Tx<Db> { tx.(log := tx.log + [write]) }

  // What a body means.

  /** Where a body ends up: its verdict, the world, and the transactions that are open. */
  datatype Ending<!Db> = Ending(verdict: Verdict, world: World<Db>, txs: seq<Tx<Db>>)

  /** The world after a statement through a context. */
  function WorldAfter<Db>(w: World<Db>, ctx: Context, write: Db -> Db): World<Db> {
    if ctx.Carries? then Told(w, Visible(w.data)) else Written(w, write)
  }

  function TxsAfter<Db>(txs: seq<Tx<Db>>, ctx: Context, write: Db -> Db): (after: seq<Tx<Db>>)
    requires Open(ctx, |txs|)
    ensures |after| == |txs|
  {
    if ctx.Carries? then txs[ctx.level := Logged(txs[ctx.level], write)] else txs
  }

  /** The data that a query through a context sees. */
  function Seen<Db>(w: World<Db>, txs: seq<Tx<Db>>, ctx: Context): Db
    requires Open(ctx, |txs|)
  {
    if ctx.Carries? then View(txs[ctx.level]) else w.data
  }

  /** A statement joins the transaction of its context, or takes effect at once if it has none; a WithinTx
      joins likewise, or is a transaction of its own. */
  function Meaning<Db>(b: Body<Db>, w: World<Db>, txs: seq<Tx<Db>>): (r: Ending<Db>)
    requires Scoped(b, |txs|)
    ensures |r.txs| == |txs|
    decreases b, 0
  {
    match b
    case Return(v) => Ending(v, w, txs)
    case Exec(ctx, write, next) => Meaning(next, WorldAfter(w, ctx, write), TxsAfter(txs, ctx, write))
    case Branch(ctx, test, yes, no) => if test(Seen(w, txs, ctx)) then Meaning(yes, w, txs) else Meaning(no, w, txs)
    case Within(ctx, inner, begins, commits, onNil, onErr) =>
      var r := if ctx.Carries? then Meaning(inner, w, txs) else Outermost(inner, begins, commits, w, txs);
      match r.verdict
      case Nil => Meaning(onNil, r.world, r.txs)
      case Error => Meaning(onErr, r.world, r.txs)
      case Panic => r
  }

  /** One outermost call, begun while the transactions txs are open. */
  function Outermost<Db>(b: Body<Db>, begins: bool, commits: bool, w: World<Db>, txs: seq<Tx<Db>>): (r: Ending<Db>)
    requires Scoped(b, |txs| + 1)
    ensures |r.txs| == |txs|
    decreases b, 1
  {
    if !begins then Ending(Error, w, txs) else Ended(Meaning(b, Told(w, Begun), Opened(w, txs)), commits)
  }

  function Opened<Db>(w: World<Db>, txs: seq<Tx<Db>>): seq<Tx<Db>> { txs + [Tx(w.data, [])] }

  /** How the transaction begun last ends. */
  function Ended<Db>(r: Ending<Db>, commits: bool): (ended: Ending<Db>)
    requires r.txs != []
    ensures ended.txs == r.txs[..|r.txs| - 1]
  {
    var others := r.txs[..|r.txs| - 1];
    if r.verdict.Nil? && commits then
      Ending(Nil, Told(World(Replay(Last(r.txs).log, r.world.data), r.world.events), Committed), others)
    else if r.verdict.Nil? then Ending(Error, Told(r.world, CommitFailed), others)
    else Ending(r.verdict, Told(r.world, RolledBack), others)
  }

  // Inlining nested calls.

  /** No call joins a transaction. */
  predicate Flat<Db>(b: Body<Db>) {
    match b
    case Return(_) => true
    case Exec(_, _, next) => Flat(next)
    case Branch(_, _, yes, no) => Flat(yes) && Flat(no)
    case Within(ctx, inner, _, _, onNil, onErr) => ctx.NoTx? && Flat(inner) && Flat(onNil) && Flat(onErr)
  }

  /** The body with each of its endings replaced by what follows it. */
  function Graft<Db>(b: Body<Db>, onNil: Body<Db>, onErr: Body<Db>): Body<Db>
    requires Flat(b)
  {
    match b
    case Return(v) => (match v case Nil => onNil case Error => onErr case Panic => Return(Panic))
    case Exec(ctx, write, next) => Exec(ctx, write, Graft(next, onNil, onErr))
    case Branch(ctx, test, yes, no) => Branch(ctx, test, Graft(yes, onNil, onErr), Graft(no, onNil, onErr))
    case Within(ctx, inner, begins, commits, onNil', onErr') =>
      Within(ctx, inner, begins, commits, Graft(onNil', onNil, onErr), Graft(onErr', onNil, onErr))
  }

  /** Every call that joins, at any depth, replaced by its body. */
  function Inline<Db>(b: Body<Db>): (flat: Body<Db>)
    ensures Flat(flat)
  {
    match b
    case Return(_) => b
    case Exec(ctx, write, next) => Exec(ctx, write, Inline(next))
    case Branch(ctx, test, yes, no) => Branch(ctx, test, Inline(yes), Inline(no))
    case Within(ctx, inner, begins, commits, onNil, onErr) =>
      if ctx.Carries? then
        GraftFlat(Inline(inner), Inline(onNil), Inline(onErr));
        Graft(Inline(inner), Inline(onNil), Inline(onErr))
      else Within(ctx, Inline(inner), begins, commits, Inline(onNil), Inline(onErr))
  }

  lemma {:induction false} GraftFlat<Db>(b: Body<Db>, onNil: Body<Db>, onErr: Body<Db>)
    requires Flat(b) && Flat(onNil) && Flat(onErr)
    ensures Flat(Graft(b, onNil, onErr))
  {
    match b
    case Return(_) =>
    case Exec(_, _, next) => GraftFlat(next, onNil, onErr);
    case Branch(_, _, yes, no) =>
      GraftFlat(yes, onNil, onErr);
      GraftFlat(no, onNil, onErr);
    case Within(_, _, _, _, onNil', onErr') =>
      GraftFlat(onNil', onNil, onErr);
      GraftFlat(onErr', onNil, onErr);
  }

  lemma {:induction false} GraftScoped<Db>(b: Body<Db>, onNil: Body<Db>, onErr: Body<Db>, n: nat)
    requires Flat(b) && Scoped(b, n) && Scoped(onNil, n) && Scoped(onErr, n)
    ensures Scoped(Graft(b, onNil, onErr), n)
  {
    match b
    case Return(_) =>
    case Exec(_, _, next) => GraftScoped(next, onNil, onErr, n);
    case Branch(_, _, yes, no) =>
      GraftScoped(yes, onNil, onErr, n);
      GraftScoped(no, onNil, onErr, n);
    case Within(_, _, _, _, onNil', onErr') =>
      GraftScoped(onNil', onNil, onErr, n);
      GraftScoped(onErr', onNil, onErr, n);
  }

  lemma {:induction false} InlineScoped<Db>(b: Body<Db>, n: nat)
    requires Scoped(b, n)
    ensures Scoped(Inline(b), n)
  {
    match b
    case Return(_) =>
    case Exec(_, _, next) => InlineScoped(next, n);
    case Branch(_, _, yes, no) =>
      InlineScoped(yes, n);
      InlineScoped(no, n);
    case Within(ctx, inner, _, _, onNil, onErr) =>
      InlineScoped(inner, if ctx.NoTx? then n + 1 else n);
      InlineScoped(onNil, n);
      InlineScoped(onErr, n);
      if ctx.Carries? {
        GraftScoped(Inline(inner), Inline(onNil), Inline(onErr), n);
      }
  }

  /** A run followed by the one of two bodies that its verdict picks. */
  function Then<Db>(r: Ending<Db>, onNil: Body<Db>, onErr: Body<Db>): Ending<Db>
    requires Scoped(onNil, |r.txs|) && Scoped(onErr, |r.txs|)
  {
    match r.verdict
    case Nil => Meaning(onNil, r.world, r.txs)
    case Error => Meaning(onErr, r.world, r.txs)
    case Panic => r
  }

  lemma {:induction false} GraftMeaning<Db>(b: Body<Db>, onNil: Body<Db>, onErr: Body<Db>, w: World<Db>,
                                            txs: seq<Tx<Db>>)
    requires Flat(b) && Scoped(b, |txs|) && Scoped(onNil, |txs|) && Scoped(onErr, |txs|)
    ensures Scoped(Graft(b, onNil, onErr), |txs|)
    ensures Meaning(Graft(b, onNil, onErr), w, txs) == Then(Meaning(b, w, txs), onNil, onErr)
  {
    GraftScoped(b, onNil, onErr, |txs|);
    match b
    case Return(_) =>
    case Exec(ctx, write, next) =>
      GraftMeaning(next, onNil, onErr, WorldAfter(w, ctx, write), TxsAfter(txs, ctx, write));
    case Branch(_, _, yes, no) =>
      GraftMeaning(yes, onNil, onErr, w, txs);
      GraftMeaning(no, onNil, onErr, w, txs);
    case Within(_, inner, begins, commits, onNil', onErr') =>
      var d := Outermost(inner, begins, commits, w, txs);
      if !d.verdict.Panic? {
        var rest := if d.verdict.Nil? then onNil' else onErr';
        GraftMeaning(rest, onNil, onErr, d.world, d.txs);
        assert Meaning(b, w, txs) == Meaning(rest, d.world, d.txs);
      }
  }

  /** Inside a transaction a nested call is its body, inlined, whatever its depth. */
  lemma {:induction false} InlineMeaning<Db>(b: Body<Db>, w: World<Db>, txs: seq<Tx<Db>>)
    requires Scoped(b, |txs|)
    ensures Scoped(Inline(b), |txs|) && Meaning(Inline(b), w, txs) == Meaning(b, w, txs)
  {
    InlineScoped(b, |txs|);
    match b
    case Return(_) =>
    case Exec(ctx, write, next) => InlineMeaning(next, WorldAfter(w, ctx, write), TxsAfter(txs, ctx, write));
    case Branch(_, _, yes, no) =>
      InlineMeaning(yes, w, txs);
      InlineMeaning(no, w, txs);
    case Within(ctx, inner, begins, commits, onNil, onErr) =>
      if ctx.Carries? {
        InlineMeaning(inner, w, txs);
        var r := Meaning(inner, w, txs);
        InlineMeaning(onNil, r.world, r.txs);
        InlineMeaning(onErr, r.world, r.txs);
        GraftMeaning(Inline(inner), Inline(onNil), Inline(onErr), w, txs);
      } else {
        InlineMeaning(inner, Told(w, Begun), Opened(w, txs));
        var d := Outermost(inner, begins, commits, w, txs);
        InlineMeaning(onNil, d.world, d.txs);
        InlineMeaning(onErr, d.world, d.txs);
      }
  }

  /** So an outermost call cannot tell nested calls from inlined ones: same result, same data, the driver
      is told the same and others see the same. */
  lemma NestingIsInvisible<Db>(b: Body<Db>, begins: bool, commits: bool, w: World<Db>, txs: seq<Tx<Db>>)
    requires Scoped(b, |txs| + 1)
    ensures Scoped(Inline(b), |txs| + 1)
    ensures Outermost(b, begins, commits, w, txs) == Outermost(Inline(b), begins, commits, w, txs)
  {
    InlineMeaning(b, Told(w, Begun), Opened(w, txs));
  }

  // All or nothing.

  lemma {:induction false} ReplayThen<Db>(a: seq<Db -> Db>, b: seq<Db -> Db>, db: Db)
    ensures Replay(a + b, db) == Replay(b, Replay(a, db))
  {
    if b == [] {
      assert a + b == a;
    } else {
      ReplayThen(a, b[..|b| - 1], db);
      assert (a + b)[..|a + b| - 1] == a + b[..|b| - 1];
    }
  }

  /** The statements of a body that arrive at one place: in the committed data (NoTx), without waiting for a
      transaction around the body, or in the log of one such transaction. */
  function Effects<Db>(b: Body<Db>, w: World<Db>, txs: seq<Tx<Db>>, at: Context): seq<Db -> Db>
    requires Scoped(b, |txs|) && Open(at, |txs|)
    decreases b, 0
  {
    match b
    case Return(_) => []
    case Exec(ctx, write, next) =>
      (if ctx == at then [write] else []) + Effects(next, WorldAfter(w, ctx, write), TxsAfter(txs, ctx, write), at)
    case Branch(ctx, test, yes, no) =>
      if test(Seen(w, txs, ctx)) then Effects(yes, w, txs, at) else Effects(no, w, txs, at)
    case Within(ctx, inner, begins, commits, onNil, onErr) =>
      var r := if ctx.Carries? then Meaning(inner, w, txs) else Outermost(inner, begins, commits, w, txs);
      (if ctx.Carries? then Effects(inner, w, txs, at) else CallEffects(inner, begins, commits, w, txs, at))
      + match r.verdict
        case Nil => Effects(onNil, r.world, r.txs, at)
        case Error => Effects(onErr, r.world, r.txs, at)
        case Panic => []
  }

  /** Of an outermost call: what its body sends there, and on success what was in its own transaction. */
  function CallEffects<Db>(b: Body<Db>, begins: bool, commits: bool, w: World<Db>, txs: seq<Tx<Db>>,
                           at: Context): seq<Db -> Db>
    requires Scoped(b, |txs| + 1) && Open(at, |txs|)
    decreases b, 1
  {
    if !begins then []
    else
      Effects(b, Told(w, Begun), Opened(w, txs), at)
      + if at.NoTx? && Outermost(b, begins, commits, w, txs).verdict.Nil?
        then Effects(b, Told(w, Begun), Opened(w, txs), Carries(|txs|)) else []
  }

  /** Between w, txs and the ending r exactly these statements arrived at that place. */
  ghost predicate Landed<Db>(w: World<Db>, txs: seq<Tx<Db>>, r: Ending<Db>, at: Context, writes: seq<Db -> Db>)
    requires Open(at, |txs|) && |r.txs| == |txs|
  {
    if at.NoTx? then r.world.data == Replay(writes, w.data)
    else r.txs[at.level] == Tx(txs[at.level].snapshot, txs[at.level].log + writes)
  }

  lemma LandedThen<Db>(w: World<Db>, txs: seq<Tx<Db>>, r: Ending<Db>, r': Ending<Db>, at: Context,
                       first: seq<Db -> Db>, second: seq<Db -> Db>)
    requires Open(at, |txs|) && |r.txs| == |r'.txs| == |txs|
    requires Landed(w, txs, r, at, first) && Landed(r.world, r.txs, r', at, second)
    ensures Landed(w, txs, r', at, first + second)
  {
    ReplayThen(first, second, w.data);
    if at.Carries? {
      var log := txs[at.level].log;
      assert log + first + second == log + (first + second);
    }
  }

  lemma StatementLands<Db>(w: World<Db>, txs: seq<Tx<Db>>, ctx: Context, write: Db -> Db, at: Context)
    requires Open(ctx, |txs|) && Open(at, |txs|)
    ensures Landed(w, txs, Ending(Nil, WorldAfter(w, ctx, write), TxsAfter(txs, ctx, write)), at,
                   if ctx == at then [write] else [])
  {
    assert [write][..0] == [];
    if at.Carries? {
      assert txs[at.level].log + [] == txs[at.level].log;
    }
  }

  /** Nothing else arrives anywhere. */
  lemma {:induction false} EffectsLand<Db>(b: Body<Db>, w: World<Db>, txs: seq<Tx<Db>>, at: Context)
    requires Scoped(b, |txs|) && Open(at, |txs|)
    ensures Landed(w, txs, Meaning(b, w, txs), at, Effects(b, w, txs, at))
    decreases b, 0
  {
    match b
    case Return(_) =>
      if at.Carries? {
        assert txs[at.level].log + [] == txs[at.level].log;
      }
    case Exec(ctx, write, next) =>
      var r := Ending(Nil, WorldAfter(w, ctx, write), TxsAfter(txs, ctx, write));
      StatementLands(w, txs, ctx, write, at);
      EffectsLand(next, r.world, r.txs, at);
      LandedThen(w, txs, r, Meaning(next, r.world, r.txs), at, if ctx == at then [write] else [],
        Effects(next, r.world, r.txs, at));
    case Branch(_, _, yes, no) =>
      EffectsLand(yes, w, txs, at);
      EffectsLand(no, w, txs, at);
    case Within(ctx, inner, begins, commits, onNil, onErr) =>
      var r := if ctx.Carries? then Meaning(inner, w, txs) else Outermost(inner, begins, commits, w, txs);
      var own := if ctx.Carries? then Effects(inner, w, txs, at)
                 else CallEffects(inner, begins, commits, w, txs, at);
      if ctx.Carries? {
        EffectsLand(inner, w, txs, at);
      } else {
        CallEffectsLand(inner, begins, commits, w, txs, at);
      }
      if r.verdict.Panic? {
        assert own + [] == own;
      } else {
        var rest := if r.verdict.Nil? then onNil else onErr;
        EffectsLand(rest, r.world, r.txs, at);
        LandedThen(w, txs, r, Meaning(rest, r.world, r.txs), at, own, Effects(rest, r.world, r.txs, at));
      }
  }

  lemma EndLands<Db>(w: World<Db>, txs: seq<Tx<Db>>, r: Ending<Db>, commits: bool, at: Context,
                     sent: seq<Db -> Db>, own: seq<Db -> Db>)
    requires Open(at, |txs|) && |r.txs| == |txs| + 1
    requires Landed(Told(w, Begun), Opened(w, txs), r, at, sent)
    requires Landed(Told(w, Begun), Opened(w, txs), r, Carries(|txs|), own)
    ensures Landed(w, txs, Ended(r, commits), at,
                   sent + if at.NoTx? && Ended(r, commits).verdict.Nil? then own else [])
  {
    assert [] + own == own && sent + [] == sent;
    ReplayThen(sent, own, w.data);
  }

  lemma {:induction false} CallEffectsLand<Db>(b: Body<Db>, begins: bool, commits: bool, w: World<Db>,
                                               txs: seq<Tx<Db>>, at: Context)
    requires Scoped(b, |txs| + 1) && Open(at, |txs|)
    ensures Landed(w, txs, Outermost(b, begins, commits, w, txs), at, CallEffects(b, begins, commits, w, txs, at))
    decreases b, 1
  {
    if begins {
      var start, stack := Told(w, Begun), Opened(w, txs);
      EffectsLand(b, start, stack, at);
      EffectsLand(b, start, stack, Carries(|txs|));
      EndLands(w, txs, Meaning(b, start, stack), commits, at, Effects(b, start, stack, at),
        Effects(b, start, stack, Carries(|txs|)));
    } else if at.Carries? {
      assert txs[at.level].log + [] == txs[at.level].log;
    }
  }

  /** Of any body: what it sends past its transaction is there whatever happens, and the statements of its
      transaction are there as well exactly when the body returns nil and the driver lets it commit. So a
      call that does not succeed leaves the data alone exactly when the former cancel out. */
  lemma StraysStay<Db>(b: Body<Db>, commits: bool, w: World<Db>, txs: seq<Tx<Db>>)
    requires Scoped(b, |txs| + 1)
    ensures var start, stack := Told(w, Begun), Opened(w, txs);
            var d, r := Outermost(b, true, commits, w, txs), Meaning(b, start, stack);
            var left := Replay(Effects(b, start, stack, NoTx), w.data);
            && d.verdict == (if r.verdict == Nil && !commits then Error else r.verdict)
            && d.world.data == (if d.verdict.Nil? then Replay(Effects(b, start, stack, Carries(|txs|)), left) else left)
            && (!d.verdict.Nil? ==> (d.world.data == w.data <==> left == w.data))
  {
    var start, stack := Told(w, Begun), Opened(w, txs);
    EffectsLand(b, start, stack, NoTx);
    EffectsLand(b, start, stack, Carries(|txs|));
    assert [] + Effects(b, start, stack, Carries(|txs|)) == Effects(b, start, stack, Carries(|txs|));
  }

  /** And what it sends to a transaction around it waits there, whatever becomes of the call: of that
      transaction nothing else changes. */
  lemma OuterKeepsItsOwn<Db>(b: Body<Db>, commits: bool, w: World<Db>, txs: seq<Tx<Db>>, level: nat)
    requires Scoped(b, |txs| + 1) && level < |txs|
    ensures var d := Outermost(b, true, commits, w, txs);
            && d.txs[level].snapshot == txs[level].snapshot
            && d.txs[level].log
               == txs[level].log + Effects(b, Told(w, Begun), Opened(w, txs), Carries(level))
  {
    EffectsLand(b, Told(w, Begun), Opened(w, txs), Carries(level));
  }

  /** Every statement of the body, at any depth, uses the transaction of that level. */
  predicate Routed<Db>(b: Body<Db>, level: nat) {
    match b
    case Return(_) => true
    case Exec(ctx, _, next) => ctx == Carries(level) && Routed(next, level)
    case Branch(ctx, _, yes, no) => ctx == Carries(level) && Routed(yes, level) && Routed(no, level)
    case Within(ctx, inner, _, _, onNil, onErr) =>
      ctx == Carries(level) && Routed(inner, level) && Routed(onNil, level) && Routed(onErr, level)
  }

  lemma {:induction false} RoutedIsScoped<Db>(b: Body<Db>, level: nat, n: nat)
    requires Routed(b, level) && level < n
    ensures Scoped(b, n)
  {
    match b
    case Return(_) =>
    case Exec(_, _, next) => RoutedIsScoped(next, level, n);
    case Branch(_, _, yes, no) =>
      RoutedIsScoped(yes, level, n);
      RoutedIsScoped(no, level, n);
    case Within(_, inner, _, _, onNil, onErr) =>
      RoutedIsScoped(inner, level, n);
      RoutedIsScoped(onNil, level, n);
      RoutedIsScoped(onErr, level, n);
  }

  /** Since some instant the committed data stayed the same, and nothing else happened. */
  ghost predicate OnlyLookedAt<Db>(before: World<Db>, after: World<Db>) {
    && after.data == before.data && before.events <= after.events
    && forall i :: |before.events| <= i < |after.events| ==> after.events[i] == Visible(before.data)
  }

  /** A run that touches one transaction only. */
  ghost predicate OnlyUses<Db>(w: World<Db>, txs: seq<Tx<Db>>, r: Ending<Db>, level: nat) {
    && OnlyLookedAt(w, r.world) && level < |txs| == |r.txs|
    && r.txs[level].snapshot == txs[level].snapshot
    && forall l :: 0 <= l < |txs| && l != level ==> r.txs[l] == txs[l]
  }

  lemma {:induction false} RoutedOnlyUses<Db>(b: Body<Db>, w: World<Db>, txs: seq<Tx<Db>>, level: nat)
    requires Routed(b, level) && level < |txs| && Scoped(b, |txs|)
    ensures OnlyUses(w, txs, Meaning(b, w, txs), level)
  {
    match b
    case Return(_) =>
    case Exec(ctx, write, next) => RoutedOnlyUses(next, WorldAfter(w, ctx, write), TxsAfter(txs, ctx, write), level);
    case Branch(_, _, yes, no) =>
      RoutedOnlyUses(yes, w, txs, level);
      RoutedOnlyUses(no, w, txs, level);
    case Within(_, inner, _, _, onNil, onErr) =>
      RoutedOnlyUses(inner, w, txs, level);
      var r := Meaning(inner, w, txs);
      RoutedOnlyUses(onNil, r.world, r.txs, level);
      RoutedOnlyUses(onErr, r.world, r.txs, level);
  }

  /** When all statements are routed to the transaction they become visible together exactly when the
      body returns nil and the driver lets it begin and commit, and otherwise none does; meanwhile others
      see the old data only, the driver is told of one begin and one end, and the transactions around it
      stay as they were. */
  lemma AllOrNothing<Db>(b: Body<Db>, begins: bool, commits: bool, w: World<Db>, txs: seq<Tx<Db>>)
    requires Routed(b, |txs|)
    ensures Scoped(b, |txs| + 1) && Scoped(Inline(b), |txs| + 1)
    ensures var d := Outermost(b, begins, commits, w, txs);
            var r := Meaning(Inline(b), Told(w, Begun), Opened(w, txs));
            && d.verdict == (if !begins || (r.verdict == Nil && !commits) then Error else r.verdict)
            && d.world.data == (if d.verdict.Nil? then View(Last(r.txs)) else w.data)
            && d.txs == txs && (!begins ==> d.world == w)
            && (begins ==>
                  exists during :: OnlyLookedAt(Told(w, Begun), during)
                                   && d.world.events == during.events + [EndOf(r.verdict, commits)])
  {
    RoutedIsScoped(b, |txs|, |txs| + 1);
    InlineMeaning(b, Told(w, Begun), Opened(w, txs));
    RoutedOnlyUses(b, Told(w, Begun), Opened(w, txs), |txs|);
  }

  function EndOf<Db>(v: Verdict, commits: bool): Event<Db> {
    if !v.Nil? then RolledBack else if commits then Committed else CommitFailed
  }

  /** One statement past the transaction is enough to break it: the call fails, its write stays. */
  lemma OneStrayIsEnough<Db>(write: Db -> Db, w: World<Db>, txs: seq<Tx<Db>>)
    requires write(w.data) != w.data
    ensures var d := Outermost(Exec(NoTx, write, Return(Error)), true, true, w, txs);
            d.verdict == Error && d.world.data == write(w.data) != w.data
  {
    assert Meaning(Return(Error), Written(Told(w, Begun), write), Opened(w, txs)).verdict == Error;
  }

  // The runner itself.

  /** TxFromContext. */
  predicate TxFromContext(ctx: Context) { ctx.Carries? }

  /** A database with its committed data, the open transactions in the order they were begun, and what
      happened. */
  class Database<Db> {
    var world: World<Db>
    var open: seq<Tx<Db>>

    constructor (initial: Db)
      ensures world == World(initial, []) && open == []
    {
      world, open := World(initial, []), [];
    }

    method Begin(lets: bool) returns (ok: bool)
      modifies this
      ensures ok == lets
      ensures ok ==> world == Told(old(world), Begun) && open == Opened(old(world), old(open))
      ensures !ok ==> world == old(world) && open == old(open)
    {
      ok := lets;
      if ok {
        world, open := Told(world, Begun), open + [Tx(world.data, [])];
      }
    }

    /** Either way the transaction is over: a failed commit leaves nothing to roll back. */
    method Commit(lets: bool) returns (ok: bool)
      requires open != []
      modifies this
      ensures ok == lets && open == old(open)[..|old(open)| - 1]
      ensures ok ==> world == Told(World(Replay(Last(old(open)).log, old(world).data), old(world).events), Committed)
      ensures !ok ==> world == Told(old(world), CommitFailed)
    {
      ok := lets;
      if ok {
        world := World(Replay(Last(open).log, world.data), world.events);
      }
      open := open[..|open| - 1];
      world := Told(world, if ok then Committed else CommitFailed);
    }

    /** Rolls back the transaction of a level; one that has ended already is left alone. */
    method Rollback(level: nat)
      requires |open| <= level + 1
      modifies this
      ensures |old(open)| <= level ==> world == old(world) && open == old(open)
      ensures |old(open)| == level + 1 ==> world == Told(old(world), RolledBack) && open == old(open)[..level]
    {
      if |open| == level + 1 {
        world, open := Told(world, RolledBack), open[..level];
      }
    }

    /** A statement through queries(ctx). */
    method Run(ctx: Context, write: Db -> Db)
      requires Open(ctx, |open|)
      modifies this
      ensures world == if TxFromContext(ctx) then Told(old(world), Visible(old(world).data))
                       else Written(old(world), write)
      ensures |open| == |old(open)|
      ensures forall l :: 0 <= l < |open| ==>
                open[l] == if ctx == Carries(l) then Logged(old(open)[l], write) else old(open)[l]
    {
      if TxFromContext(ctx) {
        world := Told(world, Visible(world.data));
        open := open[ctx.level := Logged(open[ctx.level], write)];
      } else {
        world := Written(world, write);
      }
    }
  }

  class Runner<Db> {
    const db: Database<Db>
    /** Whether the runner was given a database at all. */
    const ready: bool

    constructor (db: Database<Db>, ready: bool)
      ensures this.db == db && this.ready == ready
    {
      this.db, this.ready := db, ready;
    }

    /** With a transaction in its context it joins it; with none it is outermost, even if other
        transactions are open. */
    method WithinTx(ctx: Context, body: Body<Db>, begins: bool, commits: bool) returns (v: Verdict)
      requires Open(ctx, |db.open|) && Scoped(body, if ctx.NoTx? then |db.open| + 1 else |db.open|)
      modifies db
      ensures !ready ==> v == Error && db.world == old(db.world) && db.open == old(db.open)
      ensures ready && TxFromContext(ctx) ==>
                Ending(v, db.world, db.open) == Meaning(body, old(db.world), old(db.open))
      ensures ready && !TxFromContext(ctx) ==>
                Ending(v, db.world, db.open) == Outermost(body, begins, commits, old(db.world), old(db.open))
      decreases body, 1
    {
      if !ready {
        return Error;
      }
      if TxFromContext(ctx) {
        v := RunBody(body);
        return;
      }
      var began := db.Begin(begins);
      if !began {
        return Error;
      }
      var txCtx := Carries(|db.open| - 1);
      v := RunBody(body);
      if v.Nil? {
        var committed := db.Commit(commits);
        if !committed {
          v := Error;
        }
      }
      db.Rollback(txCtx.level);
    }

    /** A body, inside the functions whose transactions are open, if any. */
    method RunBody(body: Body<Db>) returns (v: Verdict)
      requires ready && Scoped(body, |db.open|)
      modifies db
      ensures Ending(v, db.world, db.open) == Meaning(body, old(db.world), old(db.open))
      decreases body, 0
    {
      match body
      case Return(verdict) => v := verdict;
      case Exec(ctx, write, next) =>
        ghost var txs := TxsAfter(db.open, ctx, write);
        db.Run(ctx, write);
        assert db.open == txs;
        v := RunBody(next);
      case Branch(ctx, test, yes, no) =>
        var holds := test(Seen(db.world, db.open, ctx));
        if holds {
          v := RunBody(yes);
        } else {
          v := RunBody(no);
        }
      case Within(ctx, inner, begins, commits, onNil, onErr) =>
        v := WithinTx(ctx, inner, begins, commits);
        if v.Nil? {
          v := RunBody(onNil);
        } else if v.Error? {
          v := RunBody(onErr);
        }
    }
  }
}
