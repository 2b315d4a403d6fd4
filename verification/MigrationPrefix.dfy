/**
 * Whenever a process that works alone is cut off, its first writes are what is committed.
 *
 * This ties `MigrationRetry.AfterWrites` to the query-by-query model: it is all that a lost
 * connection can leave behind, wherever it is lost.
 */
module MigrationPrefix {
  import opened Text
  import opened Migrations
  import opened MigrationRunner
  import opened MigrationRetry
  import Safety = MigrationSafety
  import Progress = MigrationProgress

  function Here<S>(db: Database<S>): Committed<S> {
    Committed(db.schema, db.rows)
  }

  ghost predicate SomeWrites<S>(job: Job<S>, at: Committed<S>, here: Committed<S>) {
    exists c: nat :: here == AfterWrites(job, at, c)
  }

  /** The first `k` migrations look applied, on an untracked schema with the core tables. */
  predicate Probing<S(==)>(job: Job<S>, at: Committed<S>, k: nat) {
    && at.rows == map[] && job.env.hasCoreTables(at.schema) && k <= |job.list|
    && LikelyPrefix(job.env, at.schema, job.list, 0) == LikelyPrefix(job.env, at.schema, job.list, k)
  }

  /** The first `k` pending migrations are applied, and the others are still to do. */
  predicate Applied<S(==)>(job: Job<S>, at: Committed<S>, here: Committed<S>, todo: seq<Migration>, k: nat) {
    var tracked := RowsAfterBootstrap(job.env, at.schema, at.rows, job.list);
    var all := Pending(job.list, tracked);
    && ChecksumsAgree(job.list, tracked) && job.autoMigrate
    && k <= |all| && todo == all[k..]
    && ApplyAll(job.env, at.schema, tracked, all[..k], job.acceptDataLoss) == End(here.schema, here.rows, true)
  }

  ghost predicate Applying<S>(job: Job<S>, at: Committed<S>, here: Committed<S>, todo: seq<Migration>) {
    exists k: nat :: Applied(job, at, here, todo, k)
  }

  /** What is committed when a process that started from `at` makes its next query. */
  ghost predicate On<S>(job: Job<S>, at: Committed<S>, spot: Spot<S>) {
    var here := Here(spot.db);
    match spot.pc
    case Waiting => here == at
    case ReadTracked => here == at
    case ReadCoreTables => here == at && at.rows == map[]
    case Probe(k) => Probing(job, at, k) && here == AfterWrites(job, at, k)
    case RecordBaseline(k, only) =>
      && Probing(job, at, k) && k < Bootstrap(job, at) && here == AfterWrites(job, at, k)
      && if only then Bootstrap(job, at) == k + 1 else job.env.likelyApplied(at.schema, job.list[k])
    case ReadApplied => here == AfterWrites(job, at, Bootstrap(job, at))
    case Plan(applied) => here == AfterWrites(job, at, Bootstrap(job, at)) && applied == here.rows
    case Next(todo) => Applying(job, at, here, todo)
    case Tx(todo, j, work, saved, phase) =>
      && todo != [] && Applying(job, at, here, todo)
      && (job.env.flagged(todo[0].statements) ==> job.acceptDataLoss)
      && Safety.TxOk(job.env, here.schema, todo[0].statements, j, work, saved, phase)
      && (phase.Commit? ==> todo[0].id !in here.rows)
    case _ => SomeWrites(job, at, here)
  }

  // ---------------------------------------------------------------- the bootstrap

  lemma AfterNone<S>(job: Job<S>, at: Committed<S>)
    ensures AfterWrites(job, at, 0) == at
  {
    hide Baselined;
    NothingRecorded(at.rows, job.list);
  }

  lemma AfterBaselines<S>(job: Job<S>, at: Committed<S>, k: nat)
    requires k <= Bootstrap(job, at)
    ensures AfterWrites(job, at, k) == Committed(at.schema, Recorded(at.rows, job.list[..k], Baseline))
  {
    hide Recorded, Baselined;
  }

  lemma ProbingBound<S>(job: Job<S>, at: Committed<S>, k: nat)
    requires Probing(job, at, k)
    ensures k <= Bootstrap(job, at)
    ensures var likely := k < |job.list| && job.env.likelyApplied(at.schema, job.list[k]);
            && (likely ==> Probing(job, at, k + 1) && k < Bootstrap(job, at))
            && (!likely && k == 0 && job.list != [] ==> Bootstrap(job, at) == 1)
            && (!likely && !(k == 0 && job.list != []) ==> Bootstrap(job, at) == k)
  {
    hide LikelyPrefix;
    LikelyNext(job.env, at.schema, job.list, k);
  }

  /** The first reads. */
  lemma ReadTurn<S>(job: Job<S>, at: Committed<S>, spot: Spot<S>)
    requires On(job, at, spot) && (spot.pc.Waiting? || spot.pc.ReadTracked? || spot.pc.ReadCoreTables?)
    ensures On(job, at, Turn(job, spot))
  {
    hide AfterWrites, LikelyPrefix, BaselineCount;
    AfterNone(job, at);
  }

  /** The probes. */
  lemma ProbeTurn<S>(job: Job<S>, at: Committed<S>, spot: Spot<S>)
    requires On(job, at, spot) && spot.pc.Probe?
    ensures On(job, at, Turn(job, spot))
  {
    hide AfterWrites, Bootstrap, Probing;
    var k := spot.pc.k;
    ProbingBound(job, at, k);
    ProbingMeans(job, at, k);
    AfterBaselines(job, at, k);
  }

  lemma ProbingMeans<S>(job: Job<S>, at: Committed<S>, k: nat)
    requires Probing(job, at, k)
    ensures k <= |job.list|
  {
  }

  /** The baseline records. */
  lemma BaselineTurn<S>(job: Job<S>, at: Committed<S>, spot: Spot<S>)
    requires UniqueIds(job.list) && On(job, at, spot) && spot.pc.RecordBaseline?
    ensures On(job, at, Turn(job, spot))
  {
    hide AfterWrites, LikelyPrefix, Recorded, Baselined, UniqueIds;
    var k := spot.pc.k;
    ProbingBound(job, at, k);
    AfterBaselines(job, at, k);
    AfterBaselines(job, at, k + 1);
    RecordedNext(map[], job.list, k, Baseline);
  }

  // ---------------------------------------------------------------- the pending migrations

  lemma AppliedIsWrites<S>(job: Job<S>, at: Committed<S>, here: Committed<S>, todo: seq<Migration>)
    requires Applying(job, at, here, todo)
    ensures SomeWrites(job, at, here)
  {
    hide ApplyAll, Pending, RowsAfterBootstrap, ChecksumsAgree, Baselined, Recorded;
    var k: nat :| Applied(job, at, here, todo, k);
    var b := Bootstrap(job, at);
    TrackedIs(job, at);
    if k == 0 {
      var tracked := RowsAfterBootstrap(job.env, at.schema, at.rows, job.list);
      assert Pending(job.list, tracked)[..0] == [];
      ApplyNothing(job.env, at.schema, tracked, job.acceptDataLoss);
      assert here == AfterWrites(job, at, b);
    } else {
      assert here == AfterWrites(job, at, b + k);
    }
  }

  lemma PlanTurn<S>(job: Job<S>, at: Committed<S>, spot: Spot<S>)
    requires On(job, at, spot) && (spot.pc.ReadApplied? || spot.pc.Plan?)
    ensures On(job, at, Turn(job, spot))
  {
    hide AfterWrites, ApplyAll, Pending, RowsAfterBootstrap, ChecksumsAgree, Baselined, Recorded, SomeWrites;
    if spot.pc.Plan? {
      var tracked := RowsAfterBootstrap(job.env, at.schema, at.rows, job.list);
      var all := Pending(job.list, tracked);
      TrackedIs(job, at);
      AfterBaselines(job, at, Bootstrap(job, at));
      IsSomeWrites(job, at, Bootstrap(job, at));
      ApplyNothing(job.env, at.schema, tracked, job.acceptDataLoss);
      assert all[..0] == [] && all[0..] == all;
      if ChecksumsAgree(job.list, tracked) && job.autoMigrate {
        assert Applied(job, at, Here(spot.db), all, 0);
      }
    }
  }

  lemma IsSomeWrites<S>(job: Job<S>, at: Committed<S>, c: nat)
    ensures SomeWrites(job, at, AfterWrites(job, at, c))
  {
    hide AfterWrites;
  }

  lemma NextTurn<S>(job: Job<S>, at: Committed<S>, spot: Spot<S>)
    requires On(job, at, spot) && spot.pc.Next?
    ensures On(job, at, Turn(job, spot))
  {
    hide Applying, SomeWrites;
    AppliedIsWrites(job, at, Here(spot.db), spot.pc.todo);
    if spot.pc.todo != [] {
      StatementsStart(job.env, spot.db.schema, spot.pc.todo[0].statements);
    }
  }

  lemma {:induction false} ApplySnoc<S>(env: Env<S>, schema: S, rows: map<string, Row>, list: seq<Migration>, k: nat,
                                        acceptDataLoss: bool, here: Committed<S>)
    requires k < |list| && ApplyAll(env, schema, rows, list[..k], acceptDataLoss) == End(here.schema, here.rows, true)
    requires !Stops(env, here.schema, here.rows, list[k], acceptDataLoss)
    ensures StatementsEffect(env, here.schema, list[k].statements).Some?
    ensures ApplyAll(env, schema, rows, list[..k + 1], acceptDataLoss)
            == End(StatementsEffect(env, here.schema, list[k].statements).value,
                   here.rows[list[k].id := Row(list[k].checksum, Migrate)], true)
    decreases k
  {
    hide *;
    StopsMeans(env, here.schema, here.rows, list[k], acceptDataLoss);
    ApplyFirst(env, schema, rows, list[..k + 1], acceptDataLoss);
    if k == 0 {
      assert list[..0] == [] && list[..1][1..] == [];
      ApplyNothing(env, schema, rows, acceptDataLoss);
      ApplyNothing(env, StatementsEffect(env, here.schema, list[k].statements).value,
                   rows[list[k].id := Row(list[k].checksum, Migrate)], acceptDataLoss);
    } else {
      var m := list[0];
      ApplyFirst(env, schema, rows, list[..k], acceptDataLoss);
      assert list[..k + 1][1..] == list[1..][..k] && list[..k][1..] == list[1..][..k - 1];
      StopsMeans(env, schema, rows, m, acceptDataLoss);
      ApplySnoc(env, StatementsEffect(env, schema, m.statements).value, rows[m.id := Row(m.checksum, Migrate)],
                list[1..], k - 1, acceptDataLoss, here);
    }
  }

  lemma RunsOn<S>(env: Env<S>, schema: S, rows: map<string, Row>, m: Migration, acceptDataLoss: bool, work: S)
    requires env.flagged(m.statements) ==> acceptDataLoss
    requires m.id !in rows && StatementsEffect(env, schema, m.statements) == Some(work)
    ensures !Stops(env, schema, rows, m, acceptDataLoss)
  {
  }

  lemma AllRunMeans<S>(env: Env<S>, schema: S, stmts: seq<string>, j: nat, work: S, saved: S)
    requires Safety.TxOk(env, schema, stmts, j, work, saved, Commit)
    ensures j == |stmts| && StatementsEffect(env, schema, stmts) == Some(work)
  {
    hide StatementsEffect;
    assert stmts[..|stmts|] == stmts;
  }

  lemma CommitTurn<S>(job: Job<S>, at: Committed<S>, spot: Spot<S>)
    requires On(job, at, spot) && spot.pc.Tx? && spot.pc.phase.Commit?
    ensures On(job, at, Turn(job, spot))
  {
    hide *;
    var todo, here := spot.pc.todo, Here(spot.db);
    OnTx(job, at, spot);
    var m := todo[0];
    var k: nat :| Applied(job, at, here, todo, k);
    AllRunMeans(job.env, here.schema, m.statements, spot.pc.j, spot.pc.work, spot.pc.saved);
    RunsOn(job.env, here.schema, here.rows, m, job.acceptDataLoss, spot.pc.work);
    AppliedNext(job, at, here, todo, k);
    OnNext(job, at, spot, k + 1);
  }

  lemma OnTx<S>(job: Job<S>, at: Committed<S>, spot: Spot<S>)
    requires On(job, at, spot) && spot.pc.Tx? && spot.pc.phase.Commit?
    ensures var todo, here := spot.pc.todo, Here(spot.db);
            && here == Committed(spot.db.schema, spot.db.rows)
            && todo != [] && (exists k: nat :: Applied(job, at, here, todo, k))
            && (job.env.flagged(todo[0].statements) ==> job.acceptDataLoss)
            && Safety.TxOk(job.env, here.schema, todo[0].statements, spot.pc.j, spot.pc.work, spot.pc.saved, Commit)
            && todo[0].id !in here.rows
  {
    hide Applied, Safety.TxOk;
  }

  lemma AppliedNext<S>(job: Job<S>, at: Committed<S>, here: Committed<S>, todo: seq<Migration>, k: nat)
    requires todo != [] && Applied(job, at, here, todo, k)
    requires !Stops(job.env, here.schema, here.rows, todo[0], job.acceptDataLoss)
    ensures StatementsEffect(job.env, here.schema, todo[0].statements).Some?
    ensures Applied(job, at, Committed(StatementsEffect(job.env, here.schema, todo[0].statements).value,
                                       here.rows[todo[0].id := Row(todo[0].checksum, Migrate)]), todo[1..], k + 1)
  {
    hide ApplyAll, Stops, Pending, RowsAfterBootstrap, ChecksumsAgree, StatementsEffect;
    var tracked := RowsAfterBootstrap(job.env, at.schema, at.rows, job.list);
    ApplySnoc(job.env, at.schema, tracked, Pending(job.list, tracked), k, job.acceptDataLoss, here);
  }

  lemma OnNext<S>(job: Job<S>, at: Committed<S>, spot: Spot<S>, k: nat)
    requires spot.pc.Tx? && spot.pc.phase.Commit? && spot.pc.todo != [] && spot.pc.j == |spot.pc.todo[0].statements|
    requires var m := spot.pc.todo[0];
             Applied(job, at, Committed(spot.pc.work, spot.db.rows[m.id := Row(m.checksum, Migrate)]), spot.pc.todo[1..], k)
    ensures On(job, at, Turn(job, spot))
  {
    hide Applied;
  }

  lemma ToCommit<S>(env: Env<S>, db: Database<S>, pc: Pc<S>)
    requires pc.Tx? && !pc.phase.Commit? && pc.todo != []
    ensures var after := TxTurn(env, db, pc).pc; after.Tx? && after.phase.Commit? ==> pc.todo[0].id !in db.rows
  {
    hide React, Trim;
  }

  lemma TxTurnStays<S>(job: Job<S>, at: Committed<S>, spot: Spot<S>)
    requires On(job, at, spot) && spot.pc.Tx? && !spot.pc.phase.Commit?
    ensures On(job, at, Turn(job, spot))
  {
    hide Applying, SomeWrites, Effect, React, TxTurn, StatementsEffect;
    var todo, here := spot.pc.todo, Here(spot.db);
    TxBound(job.env, here.schema, todo[0].statements, spot.pc.j, spot.pc.work, spot.pc.saved, spot.pc.phase);
    Safety.TxStep(job.env, spot.db, spot.pc);
    ToCommit(job.env, spot.db, spot.pc);
    AppliedIsWrites(job, at, here, todo);
  }

  lemma TxBound<S>(env: Env<S>, schema: S, stmts: seq<string>, j: nat, work: S, saved: S, phase: Phase)
    requires Safety.TxOk(env, schema, stmts, j, work, saved, phase)
    ensures j <= |stmts|
  {
    hide StatementsEffect, Effect, React;
  }

  // ---------------------------------------------------------------- every moment

  lemma TurnStaysOn<S>(job: Job<S>, at: Committed<S>, spot: Spot<S>)
    requires UniqueIds(job.list) && On(job, at, spot)
    ensures On(job, at, Turn(job, spot))
  {
    hide UniqueIds, Applying, SomeWrites, AfterWrites, Safety.TxOk, Baselined, Probing;
    match spot.pc
    case Waiting => ReadTurn(job, at, spot);
    case ReadTracked => ReadTurn(job, at, spot);
    case ReadCoreTables => ReadTurn(job, at, spot);
    case Probe(_) => ProbeTurn(job, at, spot);
    case RecordBaseline(_, _) => BaselineTurn(job, at, spot);
    case ReadApplied => PlanTurn(job, at, spot);
    case Plan(_) => PlanTurn(job, at, spot);
    case Next(_) => NextTurn(job, at, spot);
    case Tx(_, _, _, _, phase) =>
      if phase.Commit? { CommitTurn(job, at, spot); } else { TxTurnStays(job, at, spot); }
    case Rollback =>
    case Unlock(_) =>
    case Done(_) =>
  }

  lemma OnIsSomeWrites<S>(job: Job<S>, at: Committed<S>, spot: Spot<S>)
    requires On(job, at, spot)
    ensures SomeWrites(job, at, Here(spot.db))
  {
    hide AfterWrites, Applying, Safety.TxOk, Baselined, Probing;
    AfterNone(job, at);
    if spot.pc.Next? || spot.pc.Tx? { AppliedIsWrites(job, at, Here(spot.db), spot.pc.todo); }
  }

  lemma {:induction false} TurnsStayOn<S>(job: Job<S>, at: Committed<S>, spot: Spot<S>, n: nat)
    requires UniqueIds(job.list) && On(job, at, spot)
    ensures On(job, at, Progress.Turns(job, spot, n))
    decreases n
  {
    hide UniqueIds, On, Turn;
    if n > 0 {
      TurnStaysOn(job, at, spot);
      TurnsStayOn(job, at, Turn(job, spot), n - 1);
    }
  }

  /** After any number of queries of a process that works alone, its first writes are committed, and nothing else. */
  lemma FirstWritesStay<S>(job: Job<S>, db: Database<S>, n: nat)
    requires UniqueIds(job.list)
    ensures exists c: nat :: Here(Progress.Turns(job, Spot(db, Waiting), n).db) == AfterWrites(job, Here(db), c)
  {
    hide UniqueIds, Turn, Progress.Turns, AfterWrites;
    StartIsOn(job, db);
    TurnsStayOn(job, Here(db), Spot(db, Waiting), n);
    OnIsSomeWrites(job, Here(db), Progress.Turns(job, Spot(db, Waiting), n));
  }

  lemma StartIsOn<S>(job: Job<S>, db: Database<S>)
    ensures On(job, Here(db), Spot(db, Waiting))
  {
  }
}
