/**
 * A process that nobody disturbs gets through, and does what the sequential runner does.
 *
 * This ties the two models of the runner together: from any database, the process of `Migrations`
 * that takes the lock and makes one query after another ends with the schema, the records and the
 * verdict that `MigrationRunner.Outcome` gives.
 */
module MigrationProgress {
  import opened Text
  import opened Migrations
  import opened MigrationRunner

  function Turns<S>(job: Job<S>, at: Spot<S>, n: nat): Spot<S>
    decreases n
  {
    if n == 0 then at else Turns(job, Turn(job, at), n - 1)
  }

  ghost predicate Reaches<S>(job: Job<S>, a: Spot<S>, b: Spot<S>) {
    exists n: nat :: Turns(job, a, n) == b
  }

  lemma {:induction false} TurnsAdd<S>(job: Job<S>, a: Spot<S>, m: nat, n: nat)
    ensures Turns(job, Turns(job, a, m), n) == Turns(job, a, m + n)
    decreases m
  {
    hide Turn;
    if m > 0 { TurnsAdd(job, Turn(job, a), m - 1, n); }
  }

  lemma ReachesOn<S>(job: Job<S>, a: Spot<S>, b: Spot<S>, c: Spot<S>)
    requires Reaches(job, a, b) && Reaches(job, b, c)
    ensures Reaches(job, a, c)
  {
    hide Turns;
    var m: nat :| Turns(job, a, m) == b;
    var n: nat :| Turns(job, b, n) == c;
    TurnsAdd(job, a, m, n);
  }

  lemma OneTurn<S>(job: Job<S>, a: Spot<S>, c: Spot<S>)
    requires Turn(job, a) == c || Reaches(job, Turn(job, a), c)
    ensures Reaches(job, a, c)
  {
    hide Turn;
    if Turn(job, a) == c {
      assert Turns(job, a, 1) == Turns(job, c, 0);
    } else {
      var n: nat :| Turns(job, Turn(job, a), n) == c;
      assert Turns(job, a, n + 1) == c;
    }
  }

  // ---------------------------------------------------------------- one statement

  /** The statement's savepoint, its error and its fallback: the next statement, or a rolled back transaction. */
  lemma StatementRuns<S>(job: Job<S>, db: Database<S>, todo: seq<Migration>, j: nat, work: S, saved: S)
    requires todo != [] && j < |todo[0].statements| && Trim(todo[0].statements[j]) != ""
    ensures var stmt := todo[0].statements[j];
            var a := Spot(db, Tx(todo, j, work, saved, Savepoint));
            && (Effect(job.env, work, stmt).Some? ==>
                  Reaches(job, a, Spot(db, Tx(todo, j + 1, Effect(job.env, work, stmt).value, work, Savepoint))))
            && (Effect(job.env, work, stmt).None? ==> Reaches(job, a, Spot(db, Unlock(false))))
  {
    hide Reaches, Turns, React, Trim;
    var env := job.env;
    var stmt := todo[0].statements[j];
    var a := Spot(db, Tx(todo, j, work, saved, Savepoint));
    var b := Spot(db, Tx(todo, j, work, work, Statement));
    if env.exec(work, stmt).Ok? {
      var after := env.exec(work, stmt).schema;
      ReleaseRuns(job, db, todo, j, after, work, Release);
      OneTurn(job, b, Spot(db, Tx(todo, j + 1, after, work, Savepoint)));
      OneTurn(job, a, Spot(db, Tx(todo, j + 1, after, work, Savepoint)));
    } else {
      var code := env.exec(work, stmt).code;
      var c := Spot(db, Tx(todo, j, work, work, RollbackTo(code)));
      var end := ErrorRuns(job, db, todo, j, work, code);
      OneTurn(job, b, end);
      OneTurn(job, a, end);
    }
  }

  lemma ReleaseRuns<S>(job: Job<S>, db: Database<S>, todo: seq<Migration>, j: nat, work: S, saved: S, phase: Phase)
    requires todo != [] && j < |todo[0].statements| && (phase.Release? || phase.ReleaseAfter?)
    ensures Reaches(job, Spot(db, Tx(todo, j, work, saved, phase)), Spot(db, Tx(todo, j + 1, work, saved, Savepoint)))
  {
    hide Reaches, Turns;
    OneTurn(job, Spot(db, Tx(todo, j, work, saved, phase)), Spot(db, Tx(todo, j + 1, work, saved, Savepoint)));
  }

  lemma RollbackRuns<S>(job: Job<S>, db: Database<S>)
    ensures Reaches(job, Spot(db, Rollback), Spot(db, Unlock(false)))
  {
    hide Reaches, Turns;
    OneTurn(job, Spot(db, Rollback), Spot(db, Unlock(false)));
  }

  lemma ErrorRuns<S>(job: Job<S>, db: Database<S>, todo: seq<Migration>, j: nat, work: S,
                     code: string) returns (end: Spot<S>)
    requires todo != [] && j < |todo[0].statements|
    requires job.env.exec(work, todo[0].statements[j]) == Err(code)
    ensures Reaches(job, Spot(db, Tx(todo, j, work, work, RollbackTo(code))), end)
    ensures var effect := Effect(job.env, work, todo[0].statements[j]);
            && (effect.Some? ==> end == Spot(db, Tx(todo, j + 1, effect.value, work, Savepoint)))
            && (effect.None? ==> end == Spot(db, Unlock(false)))
  {
    hide Reaches, Turns, React;
    var env := job.env;
    var reaction := React(env, work, todo[0].statements[j], code);
    var c := Spot(db, Tx(todo, j, work, work, RollbackTo(code)));
    if reaction.Rerun? {
      var f := Spot(db, Tx(todo, j, work, work, Fallback(reaction.sql)));
      if env.exec(work, reaction.sql).Ok? {
        var after := env.exec(work, reaction.sql).schema;
        end := Spot(db, Tx(todo, j + 1, after, work, Savepoint));
        ReleaseRuns(job, db, todo, j, after, work, ReleaseAfter);
      } else {
        end := Spot(db, Unlock(false));
        RollbackRuns(job, db);
      }
      OneTurn(job, f, end);
    } else if reaction.Skip? {
      end := Spot(db, Tx(todo, j + 1, work, work, Savepoint));
      ReleaseRuns(job, db, todo, j, work, work, ReleaseAfter);
    } else {
      end := Spot(db, Unlock(false));
      RollbackRuns(job, db);
    }
    OneTurn(job, c, end);
  }

  // ---------------------------------------------------------------- one migration

  /** Where the transaction of the first migration ends. */
  function TxEnd<S>(env: Env<S>, db: Database<S>, todo: seq<Migration>): Spot<S>
    requires todo != []
  {
    var effect := StatementsEffect(env, db.schema, todo[0].statements);
    if effect.Some? && todo[0].id !in db.rows then Spot(Insert(db, effect.value, todo[0], Migrate), Next(todo[1..]))
    else Spot(db, Unlock(false))
  }

  lemma {:induction false} TxRuns<S>(job: Job<S>, db: Database<S>, todo: seq<Migration>, j: nat, work: S, saved: S)
    requires todo != [] && j <= |todo[0].statements|
    requires StatementsEffect(job.env, db.schema, todo[0].statements[..j]) == Some(work)
    ensures Reaches(job, Spot(db, Tx(todo, j, work, saved, Savepoint)), TxEnd(job.env, db, todo))
    decreases |todo[0].statements| - j
  {
    hide Reaches, Turns, TxEnd, StatementsEffect, Effect, Turn, Trim;
    var stmts := todo[0].statements;
    var a := Spot(db, Tx(todo, j, work, saved, Savepoint));
    if j == |stmts| {
      assert stmts[..j] == stmts;
      CommitRuns(job, db, todo, work, saved);
    } else {
      StatementsNext(job.env, db.schema, stmts, j);
      if Trim(stmts[j]) == "" {
        TxRuns(job, db, todo, j + 1, work, saved);
        BlankTurn(job, db, todo, j, work, saved);
        OneTurn(job, a, TxEnd(job.env, db, todo));
      } else {
        StatementRuns(job, db, todo, j, work, saved);
        var effect := Effect(job.env, work, stmts[j]);
        if effect.Some? {
          TxRuns(job, db, todo, j + 1, effect.value, work);
          ReachesOn(job, a, Spot(db, Tx(todo, j + 1, effect.value, work, Savepoint)), TxEnd(job.env, db, todo));
        } else {
          StatementsFail(job.env, db.schema, stmts, j + 1);
          TxEndFails(job.env, db, todo);
        }
      }
    }
  }

  lemma BlankTurn<S>(job: Job<S>, db: Database<S>, todo: seq<Migration>, j: nat, work: S, saved: S)
    requires todo != [] && j < |todo[0].statements| && Trim(todo[0].statements[j]) == ""
    ensures Turn(job, Spot(db, Tx(todo, j, work, saved, Savepoint))) == Spot(db, Tx(todo, j + 1, work, saved, Savepoint))
  {
    hide Trim;
  }

  lemma TxEndFails<S>(env: Env<S>, db: Database<S>, todo: seq<Migration>)
    requires todo != [] && StatementsEffect(env, db.schema, todo[0].statements).None?
    ensures TxEnd(env, db, todo) == Spot(db, Unlock(false))
  {
    hide StatementsEffect;
  }

  lemma CommitRuns<S>(job: Job<S>, db: Database<S>, todo: seq<Migration>, work: S, saved: S)
    requires todo != [] && StatementsEffect(job.env, db.schema, todo[0].statements) == Some(work)
    ensures Reaches(job, Spot(db, Tx(todo, |todo[0].statements|, work, saved, Savepoint)), TxEnd(job.env, db, todo))
  {
    hide Reaches, Turns, StatementsEffect;
    var n := |todo[0].statements|;
    var a := Spot(db, Tx(todo, n, work, saved, Savepoint));
    var b := Spot(db, Tx(todo, n, work, saved, Record));
    var end := TxEnd(job.env, db, todo);
    if todo[0].id in db.rows {
      RollbackRuns(job, db);
    } else {
      OneTurn(job, Spot(db, Tx(todo, n, work, saved, Commit)), end);
    }
    OneTurn(job, b, end);
    OneTurn(job, a, end);
  }

  // ---------------------------------------------------------------- all pending migrations

  /** The spot tells the same as the runner's end. */
  predicate Agrees<S(==)>(at: Spot<S>, end: End<S>) {
    at.pc == Unlock(end.ok) && at.db.schema == end.schema && at.db.rows == end.rows
  }

  lemma {:induction false} NextRuns<S>(job: Job<S>, db: Database<S>, todo: seq<Migration>) returns (end: Spot<S>)
    ensures Reaches(job, Spot(db, Next(todo)), end)
    ensures Agrees(end, ApplyAll(job.env, db.schema, db.rows, todo, job.acceptDataLoss))
    decreases |todo|
  {
    hide Reaches, Turns, StatementsEffect;
    var a := Spot(db, Next(todo));
    if todo == [] {
      end := Spot(db, Unlock(true));
      OneTurn(job, a, end);
    } else if job.env.flagged(todo[0].statements) && !job.acceptDataLoss {
      end := Spot(db, Unlock(false));
      OneTurn(job, a, end);
    } else {
      var m := todo[0];
      var b := Spot(db, Tx(todo, 0, db.schema, db.schema, Savepoint));
      var c := TxEnd(job.env, db, todo);
      StatementsStart(job.env, db.schema, m.statements);
      TxRuns(job, db, todo, 0, db.schema, db.schema);
      OneTurn(job, a, c);
      if c.pc.Next? {
        end := NextRuns(job, c.db, todo[1..]);
        ReachesOn(job, a, c, end);
      } else {
        end := c;
      }
    }
  }

  // ---------------------------------------------------------------- the legacy records

  lemma {:induction false} ProbeRuns<S>(job: Job<S>, db: Database<S>, k: nat) returns (end: Spot<S>)
    requires UniqueIds(job.list) && k <= |job.list| && db.rows == Recorded(map[], job.list[..k], Baseline)
    requires LikelyPrefix(job.env, db.schema, job.list, 0) == LikelyPrefix(job.env, db.schema, job.list, k)
    ensures Reaches(job, Spot(db, Probe(k)), end)
    ensures end.pc == ReadApplied && end.db.schema == db.schema
    ensures end.db.rows == Recorded(map[], job.list[..BaselineCount(job.env, db.schema, job.list)], Baseline)
    decreases |job.list| - k
  {
    hide Reaches, Turns, Recorded, LikelyPrefix, UniqueIds;
    var a := Spot(db, Probe(k));
    LikelyNext(job.env, db.schema, job.list, k);
    if k < |job.list| && job.env.likelyApplied(db.schema, job.list[k]) {
      RecordedNext(map[], job.list, k, Baseline);
      var db' := Insert(db, db.schema, job.list[k], Baseline);
      end := ProbeRuns(job, db', k + 1);
      OneTurn(job, Spot(db, RecordBaseline(k, false)), end);
      OneTurn(job, a, end);
    } else if k == 0 && job.list != [] {
      RecordedNext(map[], job.list, 0, Baseline);
      end := Spot(Insert(db, db.schema, job.list[0], Baseline), ReadApplied);
      OneTurn(job, Spot(db, RecordBaseline(0, true)), end);
      OneTurn(job, a, end);
    } else {
      end := Spot(db, ReadApplied);
      OneTurn(job, a, end);
    }
  }

  lemma BootstrapRuns<S>(job: Job<S>, db: Database<S>) returns (end: Spot<S>)
    requires UniqueIds(job.list)
    ensures Reaches(job, Spot(db, Waiting), end)
    ensures end.pc == ReadApplied && end.db.schema == db.schema
    ensures end.db.rows == RowsAfterBootstrap(job.env, db.schema, db.rows, job.list)
  {
    hide Reaches, Turns, Recorded, BaselineCount, UniqueIds;
    var a := Spot(db, Waiting);
    var b := Spot(db, ReadTracked);
    NothingRecorded(db.rows, job.list);
    if db.rows != map[] {
      end := Spot(db, ReadApplied);
    } else {
      var c := Spot(db, ReadCoreTables);
      if job.env.hasCoreTables(db.schema) {
        NothingRecorded(map[], job.list);
        end := ProbeRuns(job, db, 0);
      } else {
        end := Spot(db, ReadApplied);
      }
      OneTurn(job, c, end);
    }
    OneTurn(job, b, end);
    OneTurn(job, a, end);
  }

  // ---------------------------------------------------------------- from the lock to the end

  lemma HolderRuns<S>(job: Job<S>, db: Database<S>) returns (end: Spot<S>)
    requires UniqueIds(job.list)
    ensures Reaches(job, Spot(db, Waiting), end)
    ensures Agrees(end, Outcome(job.env, db.schema, db.rows, job.list, job.autoMigrate, job.acceptDataLoss))
  {
    hide Reaches, Turns, RowsAfterBootstrap, ApplyAll, Pending, ChecksumsAgree, UniqueIds;
    var a := Spot(db, Waiting);
    var b := BootstrapRuns(job, db);
    var rows := b.db.rows;
    var c := Spot(b.db, Plan(rows));
    if !ChecksumsAgree(job.list, rows) {
      end := Spot(b.db, Unlock(false));
    } else if Pending(job.list, rows) == [] {
      end := Spot(b.db, Unlock(true));
    } else if !job.autoMigrate {
      end := Spot(b.db, Unlock(false));
    } else {
      end := NextRuns(job, b.db, Pending(job.list, rows));
    }
    OneTurn(job, c, end);
    OneTurn(job, b, end);
    ReachesOn(job, a, b, end);
  }

  // ---------------------------------------------------------------- in the system of processes

  /** Process p makes n queries, and nobody else does anything. */
  function Alone<S>(env: Env<S>, master: seq<Migration>, s: System<S>, p: nat, n: nat): System<S>
    decreases n
  {
    if n == 0 then s else Alone(env, master, Step(env, master, s, Go(p)), p, n - 1)
  }

  /** The lock is free while the process waits, and its own until it is done. */
  predicate Undisturbed<S>(s: System<S>, p: nat) {
    p in s.procs && (s.procs[p].pc.Waiting? ==> s.lock.None?)
  }

  /** A query of the system is a turn of the holder. */
  lemma GoIsTurn<S>(env: Env<S>, master: seq<Migration>, s: System<S>, p: nat)
    requires Undisturbed(s, p) && s.procs[p].release <= |master|
    ensures var s' := Step(env, master, s, Go(p));
            var spot := Turn(JobOf(env, master, s.procs[p]), Spot(s.db, s.procs[p].pc));
            p in s'.procs && s'.procs[p] == s.procs[p].(pc := spot.pc) && s'.db == spot.db
  {
    hide Turn, Sends;
  }

  lemma NeverWaitsAgain<S>(job: Job<S>, at: Spot<S>)
    ensures !Turn(job, at).pc.Waiting?
  {
    hide React, ChecksumsAgree, Pending, Insert, Trim;
  }

  lemma {:induction false} AloneIsTurns<S>(env: Env<S>, master: seq<Migration>, s: System<S>, p: nat, n: nat)
    requires Undisturbed(s, p) && s.procs[p].release <= |master|
    ensures var s' := Alone(env, master, s, p, n);
            var spot := Turns(JobOf(env, master, s.procs[p]), Spot(s.db, s.procs[p].pc), n);
            p in s'.procs && s'.procs[p] == s.procs[p].(pc := spot.pc) && s'.db == spot.db
    decreases n
  {
    hide Step, Turn;
    if n > 0 {
      GoIsTurn(env, master, s, p);
      NeverWaitsAgain(JobOf(env, master, s.procs[p]), Spot(s.db, s.procs[p].pc));
      AloneIsTurns(env, master, Step(env, master, s, Go(p)), p, n - 1);
    }
  }

  /** A process that is left alone is done after finitely many queries, with the runner's outcome. */
  lemma AloneIsSequential<S>(env: Env<S>, master: seq<Migration>, s: System<S>, p: nat) returns (n: nat)
    requires p in s.procs && s.procs[p].pc.Waiting? && s.lock.None? && s.procs[p].release <= |master|
    requires UniqueIds(master[..s.procs[p].release])
    ensures var proc := s.procs[p];
            var end := Outcome(env, s.db.schema, s.db.rows, master[..proc.release], proc.autoMigrate, proc.acceptDataLoss);
            var s' := Alone(env, master, s, p, n);
            p in s'.procs && s'.procs[p].pc == Done(end.ok) && s'.db.schema == end.schema && s'.db.rows == end.rows
  {
    hide Alone, Turns, Outcome, UniqueIds, Turn;
    var proc := s.procs[p];
    var job := JobOf(env, master, proc);
    var end := HolderRuns(job, s.db);
    var last := Spot(end.db, Done(end.pc.ok));
    UnlockTurn(job, end.db, end.pc.ok);
    OneTurn(job, end, last);
    ReachesOn(job, Spot(s.db, Waiting), end, last);
    n :| Turns(job, Spot(s.db, Waiting), n) == last;
    AloneIsTurns(env, master, s, p, n);
  }

  lemma UnlockTurn<S>(job: Job<S>, db: Database<S>, ok: bool)
    ensures Turn(job, Spot(db, Unlock(ok))) == Spot(db, Done(ok))
  {
  }

  /** The same from its start: every release of at least one migration that has shipped gets to run. */
  lemma StartedRunsAlone<S>(env: Env<S>, master: seq<Migration>, s: System<S>, p: nat, release: nat,
                            acceptDataLoss: bool, autoMigrate: bool) returns (n: nat)
    requires p !in s.procs || s.procs[p].pc.Done?
    requires s.lock.None? && 0 < release <= |master| && UniqueIds(master[..release])
    ensures var end := Outcome(env, s.db.schema, s.db.rows, master[..release], autoMigrate, acceptDataLoss);
            var s' := Alone(env, master, Step(env, master, s, Start(p, release, acceptDataLoss, autoMigrate)), p, n);
            p in s'.procs && s'.procs[p].pc == Done(end.ok) && s'.db.schema == end.schema && s'.db.rows == end.rows
  {
    hide Alone, Outcome, UniqueIds;
    n := AloneIsSequential(env, master, Step(env, master, s, Start(p, release, acceptDataLoss, autoMigrate)), p);
  }

  /**
   * A connection that is lost leaves the database as it was, but for a record of the bootstrap or a
   * commit that the server had already carried out. The lock is given back, and the process begins
   * again or gives up.
   */
  lemma LostConnection<S>(env: Env<S>, master: seq<Migration>, s: System<S>, p: nat, carriedOut: bool)
    requires p in s.procs && s.procs[p].release <= |master| && !s.procs[p].pc.Done?
    ensures var pc, attempt := s.procs[p].pc, s.procs[p].attempt;
            var s' := Step(env, master, s, ConnectionLost(p, carriedOut));
            var written := carriedOut && (pc.RecordBaseline? || (pc.Tx? && pc.phase.Commit?));
            && s'.db == (if written then Step(env, master, s, Go(p)).db else s.db)
            && s'.lock == (if s.lock == Some(p) then None else s.lock)
            && s'.procs == s.procs[p := s.procs[p].(
                 pc := if attempt < env.maxAttempts then Waiting else Done(false),
                 attempt := if attempt < env.maxAttempts then attempt + 1 else attempt)]
  {
    hide Turn, Sends;
    if Writes(s.procs[p].pc) { WriterGoesOn(JobOf(env, master, s.procs[p]), Spot(s.db, s.procs[p].pc)); }
  }

  lemma WriterGoesOn<S>(job: Job<S>, at: Spot<S>)
    requires Writes(at.pc)
    ensures !Turn(job, at).pc.Done?
  {
    hide Insert, Trim, React;
  }
}
