/**
 * Applying migrations to one database from many processes.
 *
 * A process takes the advisory lock, records what a legacy schema already holds, and runs the
 * pending migrations, one transaction each. A run of the whole system is a list of events:
 * which process makes its next query, or loses its connection, or gets an error from the
 * server. Nothing is assumed about the order of the events.
 */
module Migrations {
  import opened Text

  // ---------------------------------------------------------------- one statement, one migration

  /** What the server answers to a statement: the schema it leaves, or an error code. */
  datatype Answer<S> = Ok(schema: S) | Err(code: string)

  datatype Migration = Migration(id: string, checksum: string, statements: seq<string>)

  /**
   * What the model takes as given: the server's semantics, the recognisers and rewriters of
   * SQL texts, the probes of a legacy schema, and the settings of the retry loop.
   */
  datatype Env<!S> = Env(
    exec: (S, string) -> Answer<S>,
    constraintExists: (S, string) -> bool,
    idempotentAddColumn: string -> Option<string>,
    idempotentCreate: string -> Option<string>,
    addedConstraint: string -> Option<string>,
    flagged: seq<string> -> bool,
    hasCoreTables: S -> bool,
    likelyApplied: (S, Migration) -> bool,
    maxAttempts: nat)

  const DUPLICATE_COLUMN := "42701"
  const DUPLICATE_TABLE := "42P07"
  const DUPLICATE_OBJECT := "42710"

  /** How the runner reacts to an error: run another text, take the statement as done, or give up. */
  datatype Reaction = Rerun(sql: string) | Skip | GiveUp

  function React<S>(env: Env<S>, schema: S, stmt: string, code: string): Reaction {
    if code == DUPLICATE_COLUMN && env.idempotentAddColumn(stmt).Some? then Rerun(env.idempotentAddColumn(stmt).value)
    else if code == DUPLICATE_TABLE && env.idempotentCreate(stmt).Some? then Rerun(env.idempotentCreate(stmt).value)
    else if code == DUPLICATE_OBJECT && env.addedConstraint(stmt).Some?
            && env.constraintExists(schema, env.addedConstraint(stmt).value) then Skip
    else GiveUp
  }

  /** The effect of one statement with its fallbacks, or None when it cannot be applied. */
  function Effect<S>(env: Env<S>, schema: S, stmt: string): Option<S> {
    match env.exec(schema, stmt)
    case Ok(after) => Some(after)
    case Err(code) =>
      match React(env, schema, stmt, code)
      case Rerun(sql) => (match env.exec(schema, sql) case Ok(after) => Some(after) case Err(_) => None)
      case Skip => Some(schema)
      case GiveUp => None
  }

  function StatementsEffect<S>(env: Env<S>, schema: S, stmts: seq<string>): Option<S> {
    if stmts == [] then Some(schema)
    else
      match StatementsEffect(env, schema, stmts[..|stmts| - 1])
      case None => None
      case Some(before) => if Trim(stmts[|stmts| - 1]) == "" then Some(before) else Effect(env, before, stmts[|stmts| - 1])
  }

  function MigrationsEffect<S>(env: Env<S>, schema: S, migrations: seq<Migration>): Option<S> {
    if migrations == [] then Some(schema)
    else
      match MigrationsEffect(env, schema, migrations[..|migrations| - 1])
      case None => None
      case Some(before) => StatementsEffect(env, before, migrations[|migrations| - 1].statements)
  }

  // ---------------------------------------------------------------- the system

  datatype Reason = Baseline | Migrate

  datatype Row = Row(checksum: string, reason: Reason)

  /** Where a transaction stands: which query of the statement loop comes next. */
  datatype Phase =
    | Savepoint
    | Statement
    | Release
    | RollbackTo(code: string)
    | Fallback(sql: string)
    | ReleaseAfter
    | Record
    | Commit

  /** The next thing a process does. `todo` is what it has still to apply, its first element being under way. */
  datatype Pc<S> =
    | Waiting
    | ReadTracked
    | ReadCoreTables
    | Probe(k: nat)
    | RecordBaseline(k: nat, only: bool)
    | ReadApplied
    | Plan(applied: map<string, Row>)
    | Next(todo: seq<Migration>)
    | Tx(todo: seq<Migration>, j: nat, work: S, saved: S, phase: Phase)
    | Rollback
    | Unlock(ok: bool)
    | Done(ok: bool)

  /** `release` is how many migrations of the master list the process ships. */
  datatype Proc<S> = Proc(release: nat, acceptDataLoss: bool, autoMigrate: bool, attempt: nat, pc: Pc<S>)

  /** A statement that a process sent to the server inside a migration. */
  datatype Sent = Sent(migration: Migration, sql: string, accepted: bool)

  /** What is committed, with the list of all insertions into the tracking table in their order. */
  datatype Database<S> = Database(schema: S, rows: map<string, Row>, history: seq<(string, Reason)>)

  datatype System<S> = System(
    db: Database<S>,
    lock: Option<nat>,
    procs: map<nat, Proc<S>>,
    sent: seq<Sent>)

  datatype Event =
    | Start(p: nat, release: nat, acceptDataLoss: bool, autoMigrate: bool)
    | Go(p: nat)
    | ServerError(p: nat)
    | ConnectionLost(p: nat, carriedOut: bool)

  function Init<S>(schema: S): System<S> {
    System(Database(schema, map[], []), None, map[], [])
  }

  predicate Holding<S>(pc: Pc<S>) {
    !pc.Waiting? && !pc.Done?
  }

  function At<S>(s: System<S>, p: nat, pc: Pc<S>): System<S>
    requires p in s.procs
  {
    s.(procs := s.procs[p := s.procs[p].(pc := pc)])
  }

  function Insert<S>(db: Database<S>, schema: S, m: Migration, reason: Reason): Database<S> {
    Database(schema, db.rows[m.id := Row(m.checksum, reason)], db.history + [(m.id, reason)])
  }

  function Pending(migrations: seq<Migration>, applied: map<string, Row>): seq<Migration> {
    if migrations == [] then []
    else Pending(migrations[..|migrations| - 1], applied)
         + if migrations[|migrations| - 1].id in applied then [] else [migrations[|migrations| - 1]]
  }

  predicate ChecksumsAgree(migrations: seq<Migration>, applied: map<string, Row>) {
    forall k :: 0 <= k < |migrations| && migrations[k].id in applied ==>
      applied[migrations[k].id].checksum == migrations[k].checksum
  }

  /** What a process ships, and its settings. */
  datatype Job<!S> = Job(env: Env<S>, list: seq<Migration>, autoMigrate: bool, acceptDataLoss: bool)

  /** The database and the next query of the holder of the lock. */
  datatype Spot<S> = Spot(db: Database<S>, pc: Pc<S>)

  /** A query of an open transaction. */
  function TxTurn<S>(env: Env<S>, db: Database<S>, pc: Pc<S>): Spot<S>
    requires pc.Tx?
  {
    if pc.todo == [] || pc.j > |pc.todo[0].statements| then Spot(db, Rollback)
    else
      var m := pc.todo[0];
      match pc.phase
      case Savepoint =>
        if pc.j == |m.statements| then Spot(db, pc.(phase := Record))
        else if Trim(m.statements[pc.j]) == "" then Spot(db, pc.(j := pc.j + 1))
        else Spot(db, pc.(saved := pc.work, phase := Statement))
      case Statement =>
        if pc.j == |m.statements| then Spot(db, Rollback)
        else if env.exec(pc.work, m.statements[pc.j]).Ok? then
          Spot(db, pc.(work := env.exec(pc.work, m.statements[pc.j]).schema, phase := Release))
        else Spot(db, pc.(phase := RollbackTo(env.exec(pc.work, m.statements[pc.j]).code)))
      case Release => Spot(db, pc.(j := pc.j + 1, phase := Savepoint))
      case RollbackTo(code) =>
        if pc.j == |m.statements| then Spot(db, Rollback)
        else
          var reaction := React(env, pc.saved, m.statements[pc.j], code);
          if reaction.Rerun? then Spot(db, pc.(work := pc.saved, phase := Fallback(reaction.sql)))
          else if reaction.Skip? then Spot(db, pc.(work := pc.saved, phase := ReleaseAfter))
          else Spot(db, Rollback)
      case Fallback(sql) =>
        if env.exec(pc.work, sql).Ok? then Spot(db, pc.(work := env.exec(pc.work, sql).schema, phase := ReleaseAfter))
        else Spot(db, Rollback)
      case ReleaseAfter => Spot(db, pc.(j := pc.j + 1, phase := Savepoint))
      case Record => Spot(db, if m.id in db.rows then Rollback else pc.(phase := Commit))
      case Commit => Spot(Insert(db, pc.work, m, Migrate), Next(pc.todo[1..]))
  }

  /** The query of the holder of the lock, or of a process that gets the lock, is carried out and answered. */
  function Turn<S>(job: Job<S>, at: Spot<S>): Spot<S> {
    var db, pc, list, env := at.db, at.pc, job.list, job.env;
    match pc
    case Waiting => Spot(db, ReadTracked)
    case ReadTracked => Spot(db, if db.rows == map[] then ReadCoreTables else ReadApplied)
    case ReadCoreTables => Spot(db, if env.hasCoreTables(db.schema) then Probe(0) else ReadApplied)
    case Probe(k) =>
      if k < |list| && env.likelyApplied(db.schema, list[k]) then Spot(db, RecordBaseline(k, false))
      else if k == 0 && list != [] then Spot(db, RecordBaseline(0, true))
      else Spot(db, ReadApplied)
    case RecordBaseline(k, only) =>
      if k >= |list| || list[k].id in db.rows then Spot(db, Unlock(false))
      else Spot(Insert(db, db.schema, list[k], Baseline), if only then ReadApplied else Probe(k + 1))
    case ReadApplied => Spot(db, Plan(db.rows))
    case Plan(applied) =>
      if !ChecksumsAgree(list, applied) then Spot(db, Unlock(false))
      else if Pending(list, applied) == [] then Spot(db, Unlock(true))
      else if !job.autoMigrate then Spot(db, Unlock(false))
      else Spot(db, Next(Pending(list, applied)))
    case Next(todo) =>
      if todo == [] then Spot(db, Unlock(true))
      else if env.flagged(todo[0].statements) && !job.acceptDataLoss then Spot(db, Unlock(false))
      else Spot(db, Tx(todo, 0, db.schema, db.schema, Savepoint))
    case Tx(_, _, _, _, _) => TxTurn(env, db, pc)
    case Rollback => Spot(db, Unlock(false))
    case Unlock(ok) => Spot(db, Done(ok))
    case Done(_) => at
  }

  function JobOf<S>(env: Env<S>, master: seq<Migration>, proc: Proc<S>): Job<S>
    requires proc.release <= |master|
  {
    Job(env, master[..proc.release], proc.autoMigrate, proc.acceptDataLoss)
  }

  /** The lock after the query of process `p`. */
  function LockAfter<S>(lock: Option<nat>, p: nat, pc: Pc<S>): Option<nat> {
    if pc.Waiting? then Some(p) else if pc.Unlock? then None else lock
  }

  /** The query of process `p` is carried out and answered; a process waits while the lock is taken. */
  function Advance<S>(env: Env<S>, master: seq<Migration>, s: System<S>, p: nat): System<S>
    requires p in s.procs && s.procs[p].release <= |master|
  {
    var proc := s.procs[p];
    if proc.pc.Waiting? && s.lock.Some? then s
    else
      var spot := Turn(JobOf(env, master, proc), Spot(s.db, proc.pc));
      s.(db := spot.db, procs := s.procs[p := proc.(pc := spot.pc)], lock := LockAfter(s.lock, p, proc.pc))
  }

  /** The server answers the query of process `p` with an error that has no fallback. */
  function Refuse<S>(s: System<S>, p: nat): System<S>
    requires p in s.procs
  {
    match s.procs[p].pc
    case Waiting => At(s, p, Done(false))
    case Tx(_, _, _, _, _) => At(s, p, Rollback)
    case Rollback => s
    case Unlock(_) => s
    case Done(_) => s
    case _ => At(s, p, Unlock(false))
  }

  /** The connection of process `p` is gone: the server drops its transaction and its lock. */
  function Drop<S>(env: Env<S>, s: System<S>, p: nat): System<S>
    requires p in s.procs
  {
    var proc := s.procs[p];
    if proc.pc.Done? then s else
    var freed := if s.lock == Some(p) then s.(lock := None) else s;
    if proc.attempt < env.maxAttempts
    then freed.(procs := s.procs[p := proc.(attempt := proc.attempt + 1, pc := Waiting)])
    else At(freed, p, Done(false))
  }

  /** Whether a query writes to the database by itself. */
  predicate Writes<S>(pc: Pc<S>) {
    pc.RecordBaseline? || (pc.Tx? && pc.phase.Commit?)
  }

  /** The SQL of a migration that the next query of a process carries, if any. */
  function Sends<S>(proc: Proc<S>): seq<Sent> {
    if !proc.pc.Tx? || proc.pc.todo == [] then []
    else
      var m := proc.pc.todo[0];
      if proc.pc.phase.Statement? && proc.pc.j < |m.statements| then [Sent(m, m.statements[proc.pc.j], proc.acceptDataLoss)]
      else if proc.pc.phase.Fallback? then [Sent(m, proc.pc.phase.sql, proc.acceptDataLoss)]
      else []
  }

  function Step<S>(env: Env<S>, master: seq<Migration>, s: System<S>, e: Event): System<S> {
    match e
    case Start(p, release, acceptDataLoss, autoMigrate) =>
      if p in s.procs && !s.procs[p].pc.Done? then s
      else if release == 0 || release > |master| then s
      else s.(procs := s.procs[p := Proc(release, acceptDataLoss, autoMigrate, 1, Waiting)])
    case _ =>
      if e.p !in s.procs || s.procs[e.p].release > |master| then s
      else Query(env, master, s.(sent := s.sent + Sends(s.procs[e.p])), e)
  }

  function Query<S>(env: Env<S>, master: seq<Migration>, s: System<S>, e: Event): System<S>
    requires !e.Start? && e.p in s.procs && s.procs[e.p].release <= |master|
  {
    match e
    case Go(p) => Advance(env, master, s, p)
    case ServerError(p) => Refuse(s, p)
    case ConnectionLost(p, carriedOut) =>
      if carriedOut && Writes(s.procs[p].pc) then Drop(env, Advance(env, master, s, p), p) else Drop(env, s, p)
  }

  function Run<S>(env: Env<S>, master: seq<Migration>, schema: S, events: seq<Event>): System<S> {
    if events == [] then Init(schema)
    else Step(env, master, Run(env, master, schema, events[..|events| - 1]), events[|events| - 1])
  }
}
