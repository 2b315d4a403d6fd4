/**
 * The migration runner as it is written: one process, driving its database session.
 *
 * `Migrations` takes the same code apart into single queries and lets many processes interleave;
 * here the loops run to their end on a session that nobody else uses and that stays connected.
 */
module MigrationRunner {
  import opened Text
  import opened Migrations

  const IN_FAILED_TRANSACTION := "25P02"

  /** The rows of the tracking table after a list of migrations has been recorded. */
  function Recorded(rows: map<string, Row>, migrations: seq<Migration>, reason: Reason): map<string, Row> {
    if migrations == [] then rows
    else
      var m := migrations[|migrations| - 1];
      Recorded(rows, migrations[..|migrations| - 1], reason)[m.id := Row(m.checksum, reason)]
  }

  function Ids(migrations: seq<Migration>): seq<string> {
    seq(|migrations|, i requires 0 <= i < |migrations| => migrations[i].id)
  }

  /** Why the runner stops before a migration is committed. */
  predicate Stops<S>(env: Env<S>, schema: S, rows: map<string, Row>, m: Migration, acceptDataLoss: bool) {
    || (env.flagged(m.statements) && !acceptDataLoss)
    || StatementsEffect(env, schema, m.statements).None?
    || m.id in rows
  }

  /** What a run leaves committed, and whether it succeeds. */
  datatype End<S> = End(schema: S, rows: map<string, Row>, ok: bool)

  /** Migrations applied one after the other, up to the first that must not or cannot be. */
  function ApplyAll<S>(env: Env<S>, schema: S, rows: map<string, Row>, todo: seq<Migration>,
                       acceptDataLoss: bool): End<S>
    decreases |todo|
  {
    if todo == [] then End(schema, rows, true)
    else
      var m := todo[0];
      if Stops(env, schema, rows, m, acceptDataLoss) then End(schema, rows, false)
      else
        ApplyAll(env, StatementsEffect(env, schema, m.statements).value, rows[m.id := Row(m.checksum, Migrate)],
                 todo[1..], acceptDataLoss)
  }

  /** All that a process does under the lock. */
  function Outcome<S>(env: Env<S>, schema: S, rows: map<string, Row>, migrations: seq<Migration>,
                      autoMigrate: bool, acceptDataLoss: bool): End<S>
  {
    var tracked := RowsAfterBootstrap(env, schema, rows, migrations);
    var todo := Pending(migrations, tracked);
    if !ChecksumsAgree(migrations, tracked) then End(schema, tracked, false)
    else if todo == [] then End(schema, tracked, true)
    else if !autoMigrate then End(schema, tracked, false)
    else ApplyAll(env, schema, tracked, todo, acceptDataLoss)
  }

  /** A session: what is committed, and the open transaction with its savepoint. */
  class Session<S> {
    const env: Env<S>
    var schema: S
    var rows: map<string, Row>
    var open: bool
    var aborted: bool
    var work: S
    var newRows: map<string, Row>
    var savepoint: Option<S>

    constructor (env: Env<S>, schema: S, rows: map<string, Row>)
      ensures this.env == env && this.schema == schema && this.rows == rows && !open
    {
      this.env, this.schema, this.rows := env, schema, rows;
      this.open, this.aborted, this.work, this.newRows, this.savepoint := false, false, schema, rows, None;
    }

    // -------------------------------------------------------------- the server

    method Begin()
      requires !open
      modifies this`open, this`aborted, this`work, this`newRows, this`savepoint
      ensures open && !aborted && work == schema && newRows == rows && savepoint.None?
    {
      open, aborted, work, newRows, savepoint := true, false, schema, rows, None;
    }

    method Commit()
      requires open
      modifies this`open, this`schema, this`rows
      ensures !open
      ensures schema == (if aborted then old(schema) else work) && rows == (if aborted then old(rows) else newRows)
    {
      if !aborted {
        schema, rows := work, newRows;
      }
      open := false;
    }

    method Rollback()
      modifies this`open
      ensures !open
    {
      open := false;
    }

    method SetSavepoint()
      requires open && !aborted
      modifies this`savepoint
      ensures savepoint == Some(work)
    {
      savepoint := Some(work);
    }

    method RollbackToSavepoint()
      requires open && savepoint.Some?
      modifies this`work, this`aborted
      ensures work == savepoint.value && !aborted
    {
      work, aborted := savepoint.value, false;
    }

    method ReleaseSavepoint()
      requires open && !aborted
      modifies this`savepoint
      ensures savepoint.None?
    {
      savepoint := None;
    }

    /** Runs a text; an error makes the transaction refuse everything until a rollback. */
    method Query(sql: string) returns (error: Option<string>)
      requires open
      modifies this`work, this`aborted
      ensures old(aborted) ==> error == Some(IN_FAILED_TRANSACTION) && aborted && work == old(work)
      ensures !old(aborted) && env.exec(old(work), sql).Ok? ==>
                error.None? && !aborted && work == env.exec(old(work), sql).schema
      ensures !old(aborted) && env.exec(old(work), sql).Err? ==>
                error == Some(env.exec(old(work), sql).code) && aborted && work == old(work)
    {
      if aborted {
        return Some(IN_FAILED_TRANSACTION);
      }
      match env.exec(work, sql) {
        case Ok(after) =>
          work := after;
          return None;
        case Err(code) =>
          aborted := true;
          return Some(code);
      }
    }

    method RecordMigration(m: Migration) returns (ok: bool)
      requires open && !aborted
      modifies this`newRows, this`aborted
      ensures ok <==> m.id !in old(newRows)
      ensures ok ==> !aborted && newRows == old(newRows)[m.id := Row(m.checksum, Migrate)]
    {
      if m.id in newRows {
        aborted := true;
        return false;
      }
      newRows := newRows[m.id := Row(m.checksum, Migrate)];
      return true;
    }

    // -------------------------------------------------------------- one statement

    /**
     * Runs a statement inside a savepoint. When its object is already there, a column or a table is
     * added by a text that adds only what is missing, and a constraint that exists is taken as done.
     */
    method ApplyStatement(stmt: string) returns (ok: bool)
      requires open && !aborted
      modifies this`work, this`aborted, this`savepoint
      ensures ok ==> !aborted
      ensures env.exec(old(work), stmt).Ok? ==> ok && work == env.exec(old(work), stmt).schema
      ensures env.exec(old(work), stmt) == Err("42701") ==>
                && (ok <==> env.idempotentAddColumn(stmt).Some?
                            && env.exec(old(work), env.idempotentAddColumn(stmt).value).Ok?)
                && (ok ==> work == env.exec(old(work), env.idempotentAddColumn(stmt).value).schema)
      ensures env.exec(old(work), stmt) == Err("42P07") ==>
                && (ok <==> env.idempotentCreate(stmt).Some? && env.exec(old(work), env.idempotentCreate(stmt).value).Ok?)
                && (ok ==> work == env.exec(old(work), env.idempotentCreate(stmt).value).schema)
      ensures env.exec(old(work), stmt) == Err("42710") ==>
                && (ok <==> env.addedConstraint(stmt).Some?
                            && env.constraintExists(old(work), env.addedConstraint(stmt).value))
                && (ok ==> work == old(work))
      ensures env.exec(old(work), stmt).Err? && env.exec(old(work), stmt).code !in {"42701", "42P07", "42710"} ==> !ok
    {
      hide React;
      ReactIs(env, work, stmt);
      SetSavepoint();
      var error := Query(stmt);
      if error.None? {
        ReleaseSavepoint();
        return true;
      }
      var code := error.value;
      RollbackToSavepoint();
      match React(env, work, stmt, code) {
        case Rerun(fallback) =>
          var again := Query(fallback);
          if again.Some? {
            return false;
          }
          ReleaseSavepoint();
          return true;
        case Skip =>
          ReleaseSavepoint();
          return true;
        case GiveUp =>
          return false;
      }
    }

    method ApplyStatements(statements: seq<string>) returns (ok: bool)
      requires open && !aborted
      modifies this`work, this`aborted, this`savepoint
      ensures ok <==> StatementsEffect(env, old(work), statements).Some?
      ensures ok ==> !aborted && work == StatementsEffect(env, old(work), statements).value
    {
      hide StatementsEffect, Effect;
      ghost var before := work;
      StatementsStart(env, before, statements);
      for i := 0 to |statements|
        invariant open && !aborted
        invariant StatementsEffect(env, before, statements[..i]) == Some(work)
      {
        StatementsNext(env, before, statements, i);
        if Trim(statements[i]) == "" {
          continue;
        }
        EffectIs(env, work, statements[i]);
        ok := ApplyStatement(statements[i]);
        if !ok {
          StatementsFail(env, before, statements, i + 1);
          return false;
        }
      }
      assert statements[..|statements|] == statements;
      return true;
    }

    // -------------------------------------------------------------- all pending migrations

    /**
     * Applies migrations in order, each in its own transaction. What is committed is the effect of
     * those applied, each recorded once; it stops at the first one that it must not or cannot apply.
     */
    method ApplySqlMigrations(migrations: seq<Migration>, acceptDataLoss: bool) returns (ok: bool, applied: seq<string>)
      requires !open
      modifies this
      ensures !open && |applied| <= |migrations| && applied == Ids(migrations[..|applied|])
      ensures MigrationsEffect(env, old(schema), migrations[..|applied|]) == Some(schema)
      ensures rows == Recorded(old(rows), migrations[..|applied|], Migrate)
      ensures End(schema, rows, ok) == ApplyAll(env, old(schema), old(rows), migrations, acceptDataLoss)
      ensures ok <==> |applied| == |migrations|
      ensures !ok ==> Stops(env, schema, rows, migrations[|applied|], acceptDataLoss)
      ensures UniqueIds(migrations) && (forall k :: 0 <= k < |migrations| ==> migrations[k].id !in old(rows)) ==>
                (ok <==> Allowed(env, migrations, acceptDataLoss) && MigrationsEffect(env, old(schema), migrations).Some?)
    {
      hide MigrationsEffect, StatementsEffect, Recorded, ApplyAll;
      applied := [];
      MigrationsStart(env, schema, rows, migrations);
      assert migrations[0..] == migrations;
      ApplyNothing(env, schema, rows, acceptDataLoss);
      for i := 0 to |migrations|
        invariant !open && applied == Ids(migrations[..i])
        invariant MigrationsEffect(env, old(schema), migrations[..i]) == Some(schema)
        invariant rows == Recorded(old(rows), migrations[..i], Migrate)
        invariant Allowed(env, migrations[..i], acceptDataLoss)
        invariant ApplyAll(env, old(schema), old(rows), migrations, acceptDataLoss)
                  == ApplyAll(env, schema, rows, migrations[i..], acceptDataLoss)
      {
        ApplyAllUnfolds(env, schema, rows, migrations, i, acceptDataLoss);
        var m := migrations[i];
        if env.flagged(m.statements) && !acceptDataLoss {
          return false, applied;
        }
        Begin();
        var done := ApplyStatements(m.statements);
        if !done {
          Rollback();
          MigrationsNext(env, old(schema), old(rows), migrations, i);
          MigrationsFail(env, old(schema), migrations, i + 1);
          return false, applied;
        }
        FreshId(old(rows), migrations, i);
        var recorded := RecordMigration(m);
        if !recorded {
          Rollback();
          return false, applied;
        }
        Commit();
        MigrationsNext(env, old(schema), old(rows), migrations, i);
        applied := applied + [m.id];
      }
      assert migrations[..|migrations|] == migrations && migrations[|migrations|..] == [];
      ApplyNothing(env, schema, rows, acceptDataLoss);
      return true, applied;
    }

    // -------------------------------------------------------------- a legacy schema

    /** Records a migration as already there; this commits by itself. */
    method RecordBaseline(m: Migration) returns (ok: bool)
      requires !open
      modifies this`rows
      ensures ok <==> m.id !in old(rows)
      ensures rows == if ok then old(rows)[m.id := Row(m.checksum, Baseline)] else old(rows)
    {
      if m.id in rows {
        return false;
      }
      rows := rows[m.id := Row(m.checksum, Baseline)];
      return true;
    }

    /** On an untracked schema with the core tables: records what looks applied, and the first migration in any case. */
    method BootstrapLegacyMigrationRecords(migrations: seq<Migration>) returns (ok: bool, baselined: nat)
      requires !open && UniqueIds(migrations)
      modifies this`rows
      ensures ok && baselined <= |migrations|
      ensures baselined == Baselined(env, schema, old(rows), migrations)
      ensures rows == Recorded(old(rows), migrations[..baselined], Baseline)
    {
      hide Recorded, LikelyPrefix;
      NothingRecorded(rows, migrations);
      if rows != map[] || !env.hasCoreTables(schema) {
        return true, 0;
      }
      baselined := 0;
      while baselined < |migrations| && env.likelyApplied(schema, migrations[baselined])
        invariant baselined <= |migrations|
        invariant rows == Recorded(map[], migrations[..baselined], Baseline)
        invariant LikelyPrefix(env, schema, migrations, 0) == LikelyPrefix(env, schema, migrations, baselined)
      {
        LikelyNext(env, schema, migrations, baselined);
        RecordedNext(map[], migrations, baselined, Baseline);
        var done := RecordBaseline(migrations[baselined]);
        baselined := baselined + 1;
      }
      LikelyNext(env, schema, migrations, baselined);
      if baselined == 0 && |migrations| > 0 {
        RecordedNext(map[], migrations, 0, Baseline);
        var done := RecordBaseline(migrations[0]);
        baselined := 1;
      }
      return true, baselined;
    }

    // -------------------------------------------------------------- under the lock

    method ChecksumsMatch(migrations: seq<Migration>) returns (agree: bool)
      ensures agree <==> ChecksumsAgree(migrations, rows)
    {
      for i := 0 to |migrations|
        invariant ChecksumsAgree(migrations[..i], rows)
      {
        if migrations[i].id in rows && rows[migrations[i].id].checksum != migrations[i].checksum {
          return false;
        }
      }
      return true;
    }

    /**
     * What a process does while it holds the lock. It succeeds exactly when the recorded checksums
     * agree and what is pending is nothing, or may be applied and can be; then every migration it
     * ships is recorded with its checksum, and the schema is the effect of the pending ones. No
     * record is ever changed or taken away.
     */
    method EnsureUnderLock(migrations: seq<Migration>, autoMigrate: bool, acceptDataLoss: bool) returns (ok: bool)
      requires !open && UniqueIds(migrations)
      modifies this
      ensures !open
      ensures End(schema, rows, ok) == Outcome(env, old(schema), old(rows), migrations, autoMigrate, acceptDataLoss)
      ensures var tracked := RowsAfterBootstrap(env, old(schema), old(rows), migrations);
              var todo := Pending(migrations, tracked);
              && (ok <==> && ChecksumsAgree(migrations, tracked)
                          && (todo == [] || (autoMigrate && Allowed(env, todo, acceptDataLoss)
                                             && MigrationsEffect(env, old(schema), todo).Some?)))
              && (ok ==> MigrationsEffect(env, old(schema), todo) == Some(schema))
      ensures ok ==> forall i :: 0 <= i < |migrations| ==>
                migrations[i].id in rows && rows[migrations[i].id].checksum == migrations[i].checksum
      ensures forall id :: id in old(rows) ==> id in rows && rows[id] == old(rows)[id]
      ensures !autoMigrate ==> schema == old(schema)
    {
      hide Recorded, Pending, MigrationsEffect, StatementsEffect, Baselined, Stops, Allowed, ChecksumsAgree, ApplyAll;
      var booted, baselined := BootstrapLegacyMigrationRecords(migrations);
      ghost var tracked := rows;
      RecordedKeeps(old(rows), migrations, baselined, Baseline);
      var agree := ChecksumsMatch(migrations);
      if !agree {
        return false;
      }
      var pending := Pending(migrations, rows);
      PendingIsUnrecorded(migrations, rows);
      if pending == [] {
        NoMigrations(env, schema);
        CoveredWhenNothingPending(migrations, rows);
        return true;
      }
      if !autoMigrate {
        return false;
      }
      var applied;
      ok, applied := ApplySqlMigrations(pending, acceptDataLoss);
      forall id | id in tracked ensures id in rows && rows[id] == tracked[id] {
        PrefixHasNoOld(pending, |applied|, tracked, id);
        RecordedFrom(tracked, pending[..|applied|], Migrate, id);
      }
      if ok {
        assert pending[..|applied|] == pending;
        AgreeingChecksum(migrations, tracked);
        forall i | 0 <= i < |pending| ensures pending[i].id in rows && rows[pending[i].id].checksum == pending[i].checksum {
          RecordedHas(tracked, pending, Migrate, i);
        }
      }
    }
  }

  /** How an error of a statement is met, by its code. */
  lemma ReactIs<S>(env: Env<S>, schema: S, stmt: string)
    ensures React(env, schema, stmt, "42701") ==
            if env.idempotentAddColumn(stmt).Some? then Rerun(env.idempotentAddColumn(stmt).value) else GiveUp
    ensures React(env, schema, stmt, "42P07") ==
            if env.idempotentCreate(stmt).Some? then Rerun(env.idempotentCreate(stmt).value) else GiveUp
    ensures React(env, schema, stmt, "42710") ==
            if env.addedConstraint(stmt).Some? && env.constraintExists(schema, env.addedConstraint(stmt).value)
            then Skip else GiveUp
    ensures forall code :: code !in {"42701", "42P07", "42710"} ==> React(env, schema, stmt, code) == GiveUp
  {
    assert DUPLICATE_COLUMN[2..] == "701" && DUPLICATE_TABLE[2..] == "P07" && DUPLICATE_OBJECT[2..] == "710";
  }

  /** The effect of a statement, in terms of the server's answers. */
  lemma EffectIs<S>(env: Env<S>, schema: S, stmt: string)
    ensures var first, effect := env.exec(schema, stmt), Effect(env, schema, stmt);
            && (first.Ok? ==> effect == Some(first.schema))
            && (first == Err("42701") ==>
                  && (effect.Some? <==> env.idempotentAddColumn(stmt).Some?
                                        && env.exec(schema, env.idempotentAddColumn(stmt).value).Ok?)
                  && (effect.Some? ==> env.exec(schema, env.idempotentAddColumn(stmt).value) == Ok(effect.value)))
            && (first == Err("42P07") ==>
                  && (effect.Some? <==> env.idempotentCreate(stmt).Some?
                                        && env.exec(schema, env.idempotentCreate(stmt).value).Ok?)
                  && (effect.Some? ==> env.exec(schema, env.idempotentCreate(stmt).value) == Ok(effect.value)))
            && (first == Err("42710") ==>
                  && (effect.Some? <==> env.addedConstraint(stmt).Some?
                                        && env.constraintExists(schema, env.addedConstraint(stmt).value))
                  && (effect.Some? ==> effect.value == schema))
            && (first.Err? && first.code !in {"42701", "42P07", "42710"} ==> effect.None?)
  {
    hide React;
    ReactIs(env, schema, stmt);
  }

  predicate UniqueIds(migrations: seq<Migration>) {
    forall i, j :: 0 <= i < j < |migrations| ==> migrations[i].id != migrations[j].id
  }

  /** Where the migrations that look applied end, from a place on. */
  function LikelyPrefix<S>(env: Env<S>, schema: S, migrations: seq<Migration>, i: nat): (n: nat)
    requires i <= |migrations|
    ensures i <= n <= |migrations|
    decreases |migrations| - i
  {
    if i < |migrations| && env.likelyApplied(schema, migrations[i]) then LikelyPrefix(env, schema, migrations, i + 1) else i
  }

  function BaselineCount<S>(env: Env<S>, schema: S, migrations: seq<Migration>): nat {
    var n := LikelyPrefix(env, schema, migrations, 0);
    if n == 0 && migrations != [] then 1 else n
  }

  /** How many migrations the bootstrap records. */
  function Baselined<S>(env: Env<S>, schema: S, rows: map<string, Row>, migrations: seq<Migration>): (n: nat)
    ensures n <= |migrations| && (rows != map[] ==> n == 0)
  {
    if rows != map[] || !env.hasCoreTables(schema) then 0 else BaselineCount(env, schema, migrations)
  }

  function RowsAfterBootstrap<S>(env: Env<S>, schema: S, rows: map<string, Row>,
                                 migrations: seq<Migration>): map<string, Row> {
    Recorded(rows, migrations[..Baselined(env, schema, rows, migrations)], Baseline)
  }

  lemma LikelyNext<S>(env: Env<S>, schema: S, migrations: seq<Migration>, i: nat)
    requires i <= |migrations|
    ensures i < |migrations| && env.likelyApplied(schema, migrations[i]) ==>
              LikelyPrefix(env, schema, migrations, i) == LikelyPrefix(env, schema, migrations, i + 1)
    ensures !(i < |migrations| && env.likelyApplied(schema, migrations[i])) ==>
              LikelyPrefix(env, schema, migrations, i) == i
  {
  }

  lemma NothingRecorded(rows: map<string, Row>, migrations: seq<Migration>)
    ensures Recorded(rows, migrations[..0], Baseline) == rows
  {
  }

  lemma RecordedNext(rows: map<string, Row>, migrations: seq<Migration>, i: nat, reason: Reason)
    requires i < |migrations|
    ensures Recorded(rows, migrations[..i + 1], reason)
            == Recorded(rows, migrations[..i], reason)[migrations[i].id := Row(migrations[i].checksum, reason)]
    ensures rows == map[] && UniqueIds(migrations) ==> migrations[i].id !in Recorded(rows, migrations[..i], reason)
  {
    assert migrations[..i + 1][..i] == migrations[..i];
    RecordedFrom(rows, migrations[..i], reason, migrations[i].id);
  }

  predicate HasId(migrations: seq<Migration>, id: string) {
    exists i :: 0 <= i < |migrations| && migrations[i].id == id
  }

  /** A row is an old one, or that of a migration that was recorded. */
  lemma {:induction false} RecordedFrom(rows: map<string, Row>, migrations: seq<Migration>, reason: Reason, id: string)
    ensures var after := Recorded(rows, migrations, reason);
            && (id in after <==> id in rows || HasId(migrations, id))
            && (id in rows && !HasId(migrations, id) ==> after[id] == rows[id])
  {
    if migrations != [] {
      var n := |migrations| - 1;
      RecordedFrom(rows, migrations[..n], reason, id);
      HasIdSnoc(migrations, id);
    }
  }

  lemma HasIdSnoc(migrations: seq<Migration>, id: string)
    requires migrations != []
    ensures var n := |migrations| - 1;
            HasId(migrations, id) <==> HasId(migrations[..n], id) || migrations[n].id == id
  {
    var n := |migrations| - 1;
    if HasId(migrations[..n], id) {
      var i :| 0 <= i < n && migrations[..n][i].id == id;
      assert migrations[i].id == id;
    }
    if HasId(migrations, id) && migrations[n].id != id {
      var i :| 0 <= i < |migrations| && migrations[i].id == id;
      assert migrations[..n][i].id == id;
    }
  }

  lemma {:induction false} RecordedHas(rows: map<string, Row>, migrations: seq<Migration>, reason: Reason, i: nat)
    requires UniqueIds(migrations) && i < |migrations|
    ensures var after := Recorded(rows, migrations, reason);
            migrations[i].id in after && after[migrations[i].id] == Row(migrations[i].checksum, reason)
  {
    var n := |migrations| - 1;
    if i < n {
      RecordedHas(rows, migrations[..n], reason, i);
    }
  }

  /** Old rows stay when the new ones have other ids. */
  lemma RecordedKeeps(rows: map<string, Row>, migrations: seq<Migration>, n: nat, reason: Reason)
    requires n <= |migrations| && (n == 0 || rows == map[])
    ensures var after := Recorded(rows, migrations[..n], reason);
            forall id :: id in rows ==> id in after && after[id] == rows[id]
  {
    if n == 0 {
      assert migrations[..0] == [];
    }
  }

  lemma NoMigrations<S>(env: Env<S>, schema: S)
    ensures MigrationsEffect(env, schema, []) == Some(schema)
  {
  }

  lemma AgreeingChecksum(migrations: seq<Migration>, rows: map<string, Row>)
    requires ChecksumsAgree(migrations, rows)
    ensures forall i :: 0 <= i < |migrations| && migrations[i].id in rows ==>
              rows[migrations[i].id].checksum == migrations[i].checksum
  {
  }

  lemma CoveredWhenNothingPending(migrations: seq<Migration>, rows: map<string, Row>)
    requires ChecksumsAgree(migrations, rows) && Pending(migrations, rows) == []
    requires forall i :: 0 <= i < |migrations| ==> migrations[i].id in rows || migrations[i] in Pending(migrations, rows)
    ensures forall i :: 0 <= i < |migrations| ==>
              migrations[i].id in rows && rows[migrations[i].id].checksum == migrations[i].checksum
  {
    hide Pending;
  }

  lemma PrefixHasNoOld(pending: seq<Migration>, n: nat, rows: map<string, Row>, id: string)
    requires n <= |pending| && id in rows && forall k :: 0 <= k < |pending| ==> pending[k].id !in rows
    ensures !HasId(pending[..n], id)
  {
  }

  /** What is pending is what is not recorded. */
  lemma {:induction false} PendingIsUnrecorded(migrations: seq<Migration>, rows: map<string, Row>)
    requires UniqueIds(migrations)
    ensures UniqueIds(Pending(migrations, rows))
    ensures forall k :: 0 <= k < |Pending(migrations, rows)| ==>
              Pending(migrations, rows)[k] in migrations && Pending(migrations, rows)[k].id !in rows
    ensures forall i :: 0 <= i < |migrations| ==> migrations[i].id in rows || migrations[i] in Pending(migrations, rows)
  {
    if migrations != [] {
      var n := |migrations| - 1;
      var before := Pending(migrations[..n], rows);
      PendingIsUnrecorded(migrations[..n], rows);
      assert migrations == migrations[..n] + [migrations[n]];
      forall k | 0 <= k < |before| ensures before[k].id != migrations[n].id {
        assert before[k] in migrations[..n];
        var i :| 0 <= i < n && migrations[..n][i] == before[k];
        assert migrations[i] == before[k];
      }
      forall i | 0 <= i < n && migrations[i].id !in rows ensures migrations[i] in before {
        assert migrations[..n][i] == migrations[i];
      }
    }
  }

  /** No migration needs a consent that was not given. */
  predicate Allowed<S>(env: Env<S>, migrations: seq<Migration>, acceptDataLoss: bool) {
    forall k :: 0 <= k < |migrations| ==> env.flagged(migrations[k].statements) ==> acceptDataLoss
  }

  lemma ApplyNothing<S>(env: Env<S>, schema: S, rows: map<string, Row>, acceptDataLoss: bool)
    ensures ApplyAll(env, schema, rows, [], acceptDataLoss) == End(schema, rows, true)
  {
  }

  lemma ApplyAllUnfolds<S>(env: Env<S>, schema: S, rows: map<string, Row>, migrations: seq<Migration>, i: nat,
                           acceptDataLoss: bool)
    requires i < |migrations|
    ensures var m := migrations[i];
            var end := ApplyAll(env, schema, rows, migrations[i..], acceptDataLoss);
            && (Stops(env, schema, rows, m, acceptDataLoss) ==> end == End(schema, rows, false))
            && (!Stops(env, schema, rows, m, acceptDataLoss) ==>
                  end == ApplyAll(env, StatementsEffect(env, schema, m.statements).value,
                                  rows[m.id := Row(m.checksum, Migrate)], migrations[i + 1..], acceptDataLoss))
  {
    hide StatementsEffect;
    assert migrations[i..][1..] == migrations[i + 1..];
  }

  lemma FreshId(rows: map<string, Row>, migrations: seq<Migration>, i: nat)
    requires i < |migrations|
    ensures UniqueIds(migrations) && migrations[i].id !in rows ==>
              migrations[i].id !in Recorded(rows, migrations[..i], Migrate)
  {
    hide Recorded;
    RecordedFrom(rows, migrations[..i], Migrate, migrations[i].id);
  }

  lemma {:induction false} MigrationsFail<S>(env: Env<S>, schema: S, migrations: seq<Migration>, i: nat)
    requires i <= |migrations| && MigrationsEffect(env, schema, migrations[..i]).None?
    ensures MigrationsEffect(env, schema, migrations).None?
    decreases |migrations| - i
  {
    hide StatementsEffect;
    if i < |migrations| {
      assert migrations[..i + 1][..i] == migrations[..i];
      MigrationsFail(env, schema, migrations, i + 1);
    } else {
      assert migrations[..i] == migrations;
    }
  }

  lemma StatementsStart<S>(env: Env<S>, schema: S, statements: seq<string>)
    ensures StatementsEffect(env, schema, statements[..0]) == Some(schema)
  {
  }

  lemma StatementsNext<S>(env: Env<S>, schema: S, statements: seq<string>, i: nat)
    requires i < |statements|
    ensures var before := StatementsEffect(env, schema, statements[..i]);
            var after := StatementsEffect(env, schema, statements[..i + 1]);
            && (before.None? ==> after.None?)
            && (before.Some? && Trim(statements[i]) == "" ==> after == before)
            && (before.Some? && Trim(statements[i]) != "" ==> after == Effect(env, before.value, statements[i]))
  {
    hide Effect;
    assert statements[..i + 1][..i] == statements[..i];
  }

  /** A list of statements fails when the first of them do. */
  lemma {:induction false} StatementsFail<S>(env: Env<S>, schema: S, statements: seq<string>, i: nat)
    requires i <= |statements| && StatementsEffect(env, schema, statements[..i]).None?
    ensures StatementsEffect(env, schema, statements).None?
    decreases |statements| - i
  {
    hide StatementsEffect;
    if i < |statements| {
      StatementsNext(env, schema, statements, i);
      StatementsFail(env, schema, statements, i + 1);
    } else {
      assert statements[..i] == statements;
    }
  }

  lemma MigrationsStart<S>(env: Env<S>, schema: S, rows: map<string, Row>, migrations: seq<Migration>)
    ensures MigrationsEffect(env, schema, migrations[..0]) == Some(schema)
    ensures Recorded(rows, migrations[..0], Migrate) == rows && Ids(migrations[..0]) == []
  {
  }

  lemma MigrationsNext<S>(env: Env<S>, schema: S, rows: map<string, Row>, migrations: seq<Migration>, i: nat)
    requires i < |migrations| && MigrationsEffect(env, schema, migrations[..i]).Some?
    ensures MigrationsEffect(env, schema, migrations[..i + 1])
            == StatementsEffect(env, MigrationsEffect(env, schema, migrations[..i]).value, migrations[i].statements)
    ensures Recorded(rows, migrations[..i + 1], Migrate)
            == Recorded(rows, migrations[..i], Migrate)[migrations[i].id := Row(migrations[i].checksum, Migrate)]
    ensures Ids(migrations[..i + 1]) == Ids(migrations[..i]) + [migrations[i].id]
  {
    hide StatementsEffect;
    assert migrations[..i + 1][..i] == migrations[..i];
  }
}
