/**
 * What every run of the migration protocol keeps.
 *
 * `Inv` ties each process's next query to what is committed; it holds after any list of events.
 * The named results at the end read it off: the tracked ids are a prefix of the migration list,
 * the committed schema is the effect of exactly the recorded migrations, nothing is applied
 * twice, and a flagged migration is never sent without the operator's consent.
 */
module MigrationSafety {
  import opened Text
  import opened Migrations

  predicate DistinctIds(master: seq<Migration>) {
    forall i, j :: 0 <= i < j < |master| ==> master[i].id != master[j].id
  }

  /** How many baseline records come before the first migrated one. */
  function Leading(history: seq<(string, Reason)>): (b: nat)
    ensures b <= |history|
  {
    if history == [] then 0
    else if history[|history| - 1].1.Baseline? then |history|
    else Leading(history[..|history| - 1])
  }

  // ---------------------------------------------------------------- what is committed

  predicate Tracked<S>(master: seq<Migration>, db: Database<S>) {
    var n := |db.history|;
    && n <= |master|
    && (forall i :: 0 <= i < n ==> db.history[i].0 == master[i].id)
    && (forall i :: 0 <= i < n ==> db.history[i].1 == if i < Leading(db.history) then Baseline else Migrate)
    && (forall i :: 0 <= i < n ==> master[i].id in db.rows && db.rows[master[i].id] == Row(master[i].checksum, db.history[i].1))
    && (forall id :: id in db.rows ==> exists i :: 0 <= i < n && master[i].id == id)
  }

  ghost predicate Faithful<S>(env: Env<S>, master: seq<Migration>, base: S, db: Database<S>)
    requires |db.history| <= |master|
  {
    MigrationsEffect(env, base, master[Leading(db.history)..|db.history|]) == Some(db.schema)
  }

  ghost predicate DbOk<S>(env: Env<S>, master: seq<Migration>, base: S, db: Database<S>) {
    Tracked(master, db) && Faithful(env, master, base, db)
  }

  // ---------------------------------------------------------------- what a process knows

  function Rest(master: seq<Migration>, n: nat, release: nat): seq<Migration>
    requires release <= |master|
  {
    if n <= release then master[n..release] else []
  }

  predicate Ready(stmts: seq<string>, j: nat) {
    j < |stmts| && Trim(stmts[j]) != ""
  }

  /** The statements before `j` have led to `before`, and statement `j` is under way. */
  ghost predicate Under<S>(env: Env<S>, schema: S, stmts: seq<string>, j: nat, before: S) {
    Ready(stmts, j) && StatementsEffect(env, schema, stmts[..j]) == Some(before)
  }

  ghost predicate AllRun<S>(env: Env<S>, schema: S, stmts: seq<string>, j: nat, work: S) {
    j == |stmts| && StatementsEffect(env, schema, stmts[..j]) == Some(work)
  }

  /** The transaction's view is the effect of the statements run so far. */
  ghost predicate TxOk<S>(env: Env<S>, schema: S, stmts: seq<string>, j: nat, work: S, saved: S, phase: Phase) {
    match phase
    case Savepoint => j <= |stmts| && StatementsEffect(env, schema, stmts[..j]) == Some(work)
    case Statement => Under(env, schema, stmts, j, saved) && work == saved
    case Release => Under(env, schema, stmts, j, saved) && Effect(env, saved, stmts[j]) == Some(work)
    case RollbackTo(code) => Under(env, schema, stmts, j, saved) && env.exec(saved, stmts[j]) == Err(code)
    case Fallback(sql) =>
      && Under(env, schema, stmts, j, saved) && work == saved
      && env.exec(saved, stmts[j]).Err?
      && React(env, saved, stmts[j], env.exec(saved, stmts[j]).code) == Rerun(sql)
    case ReleaseAfter => Under(env, schema, stmts, j, saved) && Effect(env, saved, stmts[j]) == Some(work)
    case Record => AllRun(env, schema, stmts, j, work)
    case Commit => AllRun(env, schema, stmts, j, work)
  }

  ghost predicate ProcOk<S>(env: Env<S>, master: seq<Migration>, db: Database<S>, proc: Proc<S>) {
    var n := |db.history|;
    && 0 < proc.release <= |master|
    && 1 <= proc.attempt && (proc.attempt == 1 || proc.attempt <= env.maxAttempts)
    && match proc.pc
       case ReadCoreTables => n == 0
       case Probe(k) => n == k == Leading(db.history) && k <= proc.release
       case RecordBaseline(k, only) => n == k == Leading(db.history) && k < proc.release
       case Plan(applied) => applied == db.rows
       case Next(todo) => todo == Rest(master, n, proc.release)
       case Tx(todo, j, work, saved, phase) =>
         && n < proc.release
         && todo == Rest(master, n, proc.release)
         && (env.flagged(todo[0].statements) ==> proc.acceptDataLoss)
         && TxOk(env, db.schema, todo[0].statements, j, work, saved, phase)
       case Unlock(ok) => ok ==> proc.release <= n
       case Done(ok) => ok ==> proc.release <= n
       case _ => true
  }

  predicate Consented<S>(env: Env<S>, sent: seq<Sent>) {
    forall i :: 0 <= i < |sent| && env.flagged(sent[i].migration.statements) ==> sent[i].accepted
  }

  /** Only the holder of the lock is past the lock. */
  predicate LockOk<S>(s: System<S>) {
    && (forall p :: p in s.procs && Holding(s.procs[p].pc) ==> s.lock == Some(p))
    && (s.lock.Some? ==> s.lock.value in s.procs && Holding(s.procs[s.lock.value].pc))
  }

  ghost predicate ProcsOk<S>(env: Env<S>, master: seq<Migration>, s: System<S>) {
    forall p :: p in s.procs ==> ProcOk(env, master, s.db, s.procs[p])
  }

  ghost predicate Inv<S>(env: Env<S>, master: seq<Migration>, base: S, s: System<S>) {
    DbOk(env, master, base, s.db) && ProcsOk(env, master, s) && LockOk(s) && Consented(env, s.sent)
  }

  // ---------------------------------------------------------------- one process moves

  /** Those that do not hold the lock stand by whatever is committed meanwhile. */
  lemma BystanderOk<S>(env: Env<S>, master: seq<Migration>, db: Database<S>, db': Database<S>, proc: Proc<S>)
    requires ProcOk(env, master, db, proc) && !Holding(proc.pc) && |db.history| <= |db'.history|
    ensures ProcOk(env, master, db', proc)
  {
  }

  function Moved<S>(s: System<S>, p: nat, proc: Proc<S>, db: Database<S>, lock: Option<nat>): System<S> {
    s.(procs := s.procs[p := proc], db := db, lock := lock)
  }

  /** To keep `Inv` it is enough to look at the process that moved. */
  lemma MoveKeepsInv<S>(env: Env<S>, master: seq<Migration>, base: S, s: System<S>, p: nat, proc: Proc<S>,
                        db: Database<S>, lock: Option<nat>)
    requires Inv(env, master, base, s)
    requires DbOk(env, master, base, db) && |s.db.history| <= |db.history|
    requires db == s.db || s.lock == Some(p)
    requires ProcOk(env, master, db, proc)
    requires if Holding(proc.pc) then lock == Some(p) && (s.lock == Some(p) || s.lock.None?)
             else lock == if s.lock == Some(p) then None else s.lock
    ensures Inv(env, master, base, Moved(s, p, proc, db, lock))
  {
    hide DbOk, ProcOk, Consented, Holding;
    var s' := Moved(s, p, proc, db, lock);
    forall q | q in s'.procs ensures ProcOk(env, master, db, s'.procs[q]) {
      if q != p && db != s.db {
        BystanderOk(env, master, s.db, db, s.procs[q]);
      }
    }
  }

  /** The holder of the lock goes to another query. */
  lemma HolderGoes<S>(env: Env<S>, master: seq<Migration>, base: S, s: System<S>, p: nat, pc: Pc<S>)
    requires Inv(env, master, base, s) && s.lock == Some(p) && p in s.procs && Holding(pc)
    requires ProcOk(env, master, s.db, s.procs[p].(pc := pc))
    ensures Inv(env, master, base, At(s, p, pc))
  {
    hide ProcOk, Holding, DbOk, Consented, ProcsOk;
    MoveKeepsInv(env, master, base, s, p, s.procs[p].(pc := pc), s.db, s.lock);
  }

  lemma HoldsLock<S>(env: Env<S>, master: seq<Migration>, base: S, s: System<S>, p: nat)
    requires Inv(env, master, base, s) && p in s.procs
    ensures Holding(s.procs[p].pc) <==> s.lock == Some(p)
    ensures ProcOk(env, master, s.db, s.procs[p]) && DbOk(env, master, base, s.db)
  {
    hide DbOk, ProcOk, Consented;
  }

  // ---------------------------------------------------------------- the tracking table

  lemma {:induction false} LeadingAppend(history: seq<(string, Reason)>, id: string, reason: Reason)
    ensures Leading(history + [(id, reason)]) == if reason.Baseline? then |history| + 1 else Leading(history)
  {
    assert (history + [(id, reason)])[..|history|] == history;
  }

  lemma InsertRows<S>(master: seq<Migration>, db: Database<S>, schema: S, reason: Reason)
    requires DistinctIds(master) && Tracked(master, db) && |db.history| < |master|
    ensures var n, db' := |db.history|, Insert(db, schema, master[|db.history|], reason);
      && (forall i :: 0 <= i < n ==> master[i].id in db'.rows && db'.rows[master[i].id] == db.rows[master[i].id])
      && (forall id :: id in db'.rows ==> exists i :: 0 <= i < n + 1 && master[i].id == id)
  {
    hide Leading;
    var n := |db.history|;
    var db' := Insert(db, schema, master[n], reason);
    forall id | id in db'.rows ensures exists i :: 0 <= i < n + 1 && master[i].id == id {
      if id != master[n].id {
        assert id in db.rows;
      }
    }
  }

  lemma InsertTracked<S>(master: seq<Migration>, db: Database<S>, schema: S, reason: Reason)
    requires DistinctIds(master) && Tracked(master, db) && |db.history| < |master|
    requires reason.Baseline? ==> Leading(db.history) == |db.history|
    ensures Tracked(master, Insert(db, schema, master[|db.history|], reason))
  {
    hide Leading, DistinctIds;
    InsertRows(master, db, schema, reason);
    LeadingAppend(db.history, master[|db.history|].id, reason);
  }

  lemma TrackedSoFar<S>(master: seq<Migration>, db: Database<S>, k: nat)
    requires DistinctIds(master) && Tracked(master, db) && k < |master|
    ensures |db.history| <= |master|
    ensures master[k].id in db.rows <==> k < |db.history|
  {
    hide Leading;
  }

  lemma EmptyTracked<S>(master: seq<Migration>, db: Database<S>)
    requires Tracked(master, db)
    ensures db.rows == map[] <==> db.history == []
  {
    hide Leading;
    if db.history != [] {
      assert master[0].id in db.rows;
    } else {
      forall id ensures id !in db.rows {
      }
    }
  }

  lemma RestSnoc(master: seq<Migration>, n: nat, k: nat)
    requires k < |master|
    ensures Rest(master, n, k + 1) == Rest(master, n, k) + if k < n then [] else [master[k]]
  {
    if n <= k {
      assert master[n..k] + [master[k]] == master[n..k + 1];
    }
  }

  lemma PendingSnoc(master: seq<Migration>, k: nat, rows: map<string, Row>)
    requires k < |master|
    ensures Pending(master[..k + 1], rows) == Pending(master[..k], rows) + if master[k].id in rows then [] else [master[k]]
  {
    assert master[..k + 1][..k] == master[..k];
  }

  /** What is pending is exactly the rest of the list. */
  lemma {:induction false} PendingIsRest<S>(master: seq<Migration>, db: Database<S>, release: nat)
    requires DistinctIds(master) && Tracked(master, db) && release <= |master|
    ensures Pending(master[..release], db.rows) == Rest(master, |db.history|, release)
  {
    hide Tracked, DistinctIds;
    if release > 0 {
      PendingIsRest(master, db, release - 1);
      TrackedSoFar(master, db, release - 1);
      PendingSnoc(master, release - 1, db.rows);
      RestSnoc(master, |db.history|, release - 1);
    }
  }

  /** Processes that ship prefixes of one list never see a checksum that differs from their own. */
  lemma ChecksumsHold<S>(master: seq<Migration>, db: Database<S>, release: nat)
    requires DistinctIds(master) && Tracked(master, db) && release <= |master|
    ensures ChecksumsAgree(master[..release], db.rows)
  {
    hide Leading;
  }

  // ---------------------------------------------------------------- the committed schema

  lemma BaselineFaithful<S>(env: Env<S>, master: seq<Migration>, base: S, db: Database<S>)
    requires DistinctIds(master) && DbOk(env, master, base, db) && |db.history| < |master|
    requires Leading(db.history) == |db.history|
    ensures DbOk(env, master, base, Insert(db, db.schema, master[|db.history|], Baseline))
  {
    hide Tracked, MigrationsEffect, Leading;
    var n := |db.history|;
    InsertTracked(master, db, db.schema, Baseline);
    LeadingAppend(db.history, master[n].id, Baseline);
    assert master[n..n] == master[n + 1..n + 1] == [];
  }

  lemma CommitFaithful<S>(env: Env<S>, master: seq<Migration>, base: S, db: Database<S>, work: S)
    requires DistinctIds(master) && DbOk(env, master, base, db) && |db.history| < |master|
    requires StatementsEffect(env, db.schema, master[|db.history|].statements) == Some(work)
    ensures DbOk(env, master, base, Insert(db, work, master[|db.history|], Migrate))
  {
    hide Tracked, StatementsEffect, Leading;
    var n := |db.history|;
    InsertTracked(master, db, work, Migrate);
    LeadingAppend(db.history, master[n].id, Migrate);
    var done := master[Leading(db.history)..n + 1];
    assert done[..|done| - 1] == master[Leading(db.history)..n];
  }

  // ---------------------------------------------------------------- every query keeps the invariant

  lemma StatementsSnoc<S>(env: Env<S>, schema: S, stmts: seq<string>, j: nat, before: S)
    requires j < |stmts| && StatementsEffect(env, schema, stmts[..j]) == Some(before)
    ensures StatementsEffect(env, schema, stmts[..j + 1])
         == if Trim(stmts[j]) == "" then Some(before) else Effect(env, before, stmts[j])
  {
    hide Effect, Trim;
    assert stmts[..j + 1][..j] == stmts[..j];
  }

  /** The savepoint loop computes the effect of the statements, one query at a time. */
  lemma TxStep<S>(env: Env<S>, db: Database<S>, pc: Pc<S>)
    requires pc.Tx? && !pc.phase.Commit? && pc.todo != [] && pc.j <= |pc.todo[0].statements|
    requires TxOk(env, db.schema, pc.todo[0].statements, pc.j, pc.work, pc.saved, pc.phase)
    ensures var spot := TxTurn(env, db, pc);
      && spot.db == db
      && (spot.pc.Rollback? ||
          (spot.pc.Tx? && spot.pc.todo == pc.todo
           && TxOk(env, db.schema, pc.todo[0].statements, spot.pc.j, spot.pc.work, spot.pc.saved, spot.pc.phase)))
  {
    hide StatementsEffect, Trim, React;
    var stmts := pc.todo[0].statements;
    if pc.phase.Savepoint? {
      if pc.j < |stmts| {
        StatementsSnoc(env, db.schema, stmts, pc.j, pc.work);
      }
    } else if pc.phase.Release? || pc.phase.ReleaseAfter? {
      StatementsSnoc(env, db.schema, stmts, pc.j, pc.saved);
    }
  }

  /** Reads, probes and plans. */
  lemma QuietKeepsInv<S>(env: Env<S>, master: seq<Migration>, base: S, s: System<S>, p: nat)
    requires DistinctIds(master) && Inv(env, master, base, s) && p in s.procs
    requires s.procs[p].pc.ReadTracked? || s.procs[p].pc.ReadCoreTables? || s.procs[p].pc.Probe? || s.procs[p].pc.ReadApplied?
    ensures Inv(env, master, base, Advance(env, master, s, p))
  {
    hide Inv, DistinctIds, Tracked, Faithful, TxOk;
    HoldsLock(env, master, base, s, p);
    EmptyTracked(master, s.db);
    HolderGoes(env, master, base, s, p, Advance(env, master, s, p).procs[p].pc);
  }

  lemma PlanKeepsInv<S>(env: Env<S>, master: seq<Migration>, base: S, s: System<S>, p: nat)
    requires DistinctIds(master) && Inv(env, master, base, s) && p in s.procs
    requires s.procs[p].pc.Plan? || s.procs[p].pc.Next?
    ensures Inv(env, master, base, Advance(env, master, s, p))
  {
    hide Inv, DistinctIds, Tracked, Faithful, ChecksumsAgree, Pending;
    HoldsLock(env, master, base, s, p);
    PendingIsRest(master, s.db, s.procs[p].release);
    NothingRun(env, s.db.schema);
    HolderGoes(env, master, base, s, p, Advance(env, master, s, p).procs[p].pc);
  }

  lemma NothingRun<S>(env: Env<S>, schema: S)
    ensures forall stmts: seq<string> :: StatementsEffect(env, schema, stmts[..0]) == Some(schema)
  {
    forall stmts: seq<string> ensures StatementsEffect(env, schema, stmts[..0]) == Some(schema) {
      assert stmts[..0] == [];
    }
  }

  lemma BaselineKeepsInv<S>(env: Env<S>, master: seq<Migration>, base: S, s: System<S>, p: nat)
    requires DistinctIds(master) && Inv(env, master, base, s) && p in s.procs && s.procs[p].pc.RecordBaseline?
    ensures Inv(env, master, base, Advance(env, master, s, p))
  {
    hide Inv, DistinctIds, Tracked, Faithful, Leading;
    HoldsLock(env, master, base, s, p);
    var k := s.procs[p].pc.k;
    TrackedSoFar(master, s.db, k);
    BaselineFaithful(env, master, base, s.db);
    LeadingAppend(s.db.history, master[k].id, Baseline);
    var db' := Insert(s.db, s.db.schema, master[k], Baseline);
    var pc' := if s.procs[p].pc.only then ReadApplied else Probe(k + 1);
    MoveKeepsInv(env, master, base, s, p, s.procs[p].(pc := pc'), db', s.lock);
    assert master[..s.procs[p].release][k] == master[k];
    assert Advance(env, master, s, p) == Moved(s, p, s.procs[p].(pc := pc'), db', s.lock);
  }

  lemma TxKeepsInv<S>(env: Env<S>, master: seq<Migration>, base: S, s: System<S>, p: nat)
    requires DistinctIds(master) && Inv(env, master, base, s) && p in s.procs
    requires s.procs[p].pc.Tx? && !s.procs[p].pc.phase.Commit?
    ensures Inv(env, master, base, Advance(env, master, s, p))
  {
    hide Inv, DistinctIds, DbOk, TxOk, Rest, TxTurn;
    HoldsLock(env, master, base, s, p);
    RestStarts(master, |s.db.history|, s.procs[p].release);
    var pc := s.procs[p].pc;
    if pc.j <= |pc.todo[0].statements| {
      TxStep(env, s.db, pc);
    } else {
      TooFar(env, s.db, pc);
    }
    HolderGoes(env, master, base, s, p, TxTurn(env, s.db, pc).pc);
  }

  lemma TooFar<S>(env: Env<S>, db: Database<S>, pc: Pc<S>)
    requires pc.Tx? && pc.todo != [] && pc.j > |pc.todo[0].statements|
    ensures TxTurn(env, db, pc) == Spot(db, Rollback)
  {
  }

  lemma RestStarts(master: seq<Migration>, n: nat, release: nat)
    requires n < release <= |master|
    ensures Rest(master, n, release) != [] && Rest(master, n, release)[0] == master[n]
    ensures Rest(master, n, release)[1..] == Rest(master, n + 1, release)
  {
  }

  lemma CommitKeepsInv<S>(env: Env<S>, master: seq<Migration>, base: S, s: System<S>, p: nat)
    requires DistinctIds(master) && Inv(env, master, base, s) && p in s.procs
    requires s.procs[p].pc.Tx? && s.procs[p].pc.phase.Commit?
    ensures Inv(env, master, base, Advance(env, master, s, p))
  {
    hide Inv, DistinctIds, DbOk, Rest, StatementsEffect;
    HoldsLock(env, master, base, s, p);
    var n := |s.db.history|;
    RestStarts(master, n, s.procs[p].release);
    var pc := s.procs[p].pc;
    var m := pc.todo[0];
    assert m.statements[..pc.j] == m.statements;
    CommitFaithful(env, master, base, s.db, pc.work);
    var db' := Insert(s.db, pc.work, m, Migrate);
    MoveKeepsInv(env, master, base, s, p, s.procs[p].(pc := Next(pc.todo[1..])), db', s.lock);
    assert Advance(env, master, s, p) == Moved(s, p, s.procs[p].(pc := Next(pc.todo[1..])), db', s.lock);
  }

  lemma AdvanceKeepsInv<S>(env: Env<S>, master: seq<Migration>, base: S, s: System<S>, p: nat)
    requires DistinctIds(master) && Inv(env, master, base, s) && p in s.procs && s.procs[p].release <= |master|
    ensures Inv(env, master, base, Advance(env, master, s, p))
  {
    hide Inv, DistinctIds, DbOk;
    HoldsLock(env, master, base, s, p);
    var proc := s.procs[p];
    match proc.pc
    case Waiting =>
      if s.lock.None? {
        MoveKeepsInv(env, master, base, s, p, proc.(pc := ReadTracked), s.db, Some(p));
      }
    case Rollback => HolderGoes(env, master, base, s, p, Unlock(false));
    case Unlock(ok) => MoveKeepsInv(env, master, base, s, p, proc.(pc := Done(ok)), s.db, None);
    case Done(_) => assert s.procs[p := proc] == s.procs;
    case Plan(_) => PlanKeepsInv(env, master, base, s, p);
    case Next(_) => PlanKeepsInv(env, master, base, s, p);
    case RecordBaseline(_, _) => BaselineKeepsInv(env, master, base, s, p);
    case Tx(_, _, _, _, phase) =>
      if phase.Commit? {
        CommitKeepsInv(env, master, base, s, p);
      } else {
        TxKeepsInv(env, master, base, s, p);
      }
    case _ => QuietKeepsInv(env, master, base, s, p);
  }

  lemma RefuseKeepsInv<S>(env: Env<S>, master: seq<Migration>, base: S, s: System<S>, p: nat)
    requires Inv(env, master, base, s) && p in s.procs
    ensures Inv(env, master, base, Refuse(s, p))
  {
    hide Inv, DbOk;
    HoldsLock(env, master, base, s, p);
    var proc := s.procs[p];
    match proc.pc
    case Waiting => MoveKeepsInv(env, master, base, s, p, proc.(pc := Done(false)), s.db, s.lock);
    case Tx(_, _, _, _, _) => HolderGoes(env, master, base, s, p, Rollback);
    case Rollback =>
    case Unlock(_) =>
    case Done(_) =>
    case _ => HolderGoes(env, master, base, s, p, Unlock(false));
  }

  lemma DropKeepsInv<S>(env: Env<S>, master: seq<Migration>, base: S, s: System<S>, p: nat)
    requires Inv(env, master, base, s) && p in s.procs
    ensures Inv(env, master, base, Drop(env, s, p))
  {
    hide Inv, DbOk;
    HoldsLock(env, master, base, s, p);
    var proc := s.procs[p];
    if !proc.pc.Done? {
      var proc' := if proc.attempt < env.maxAttempts then proc.(attempt := proc.attempt + 1, pc := Waiting)
                   else proc.(pc := Done(false));
      var lock' := if s.lock == Some(p) then None else s.lock;
      MoveKeepsInv(env, master, base, s, p, proc', s.db, lock');
      assert Drop(env, s, p) == Moved(s, p, proc', s.db, lock');
    }
  }

  /** What a process sends is covered by its consent. */
  lemma SendsKeepInv<S>(env: Env<S>, master: seq<Migration>, base: S, s: System<S>, p: nat)
    requires Inv(env, master, base, s) && p in s.procs
    ensures Inv(env, master, base, s.(sent := s.sent + Sends(s.procs[p])))
  {
    hide DbOk, TxOk;
    HoldsLock(env, master, base, s, p);
  }

  lemma StartKeepsInv<S>(env: Env<S>, master: seq<Migration>, base: S, s: System<S>, p: nat, proc: Proc<S>)
    requires Inv(env, master, base, s) && (p in s.procs ==> s.procs[p].pc.Done?)
    requires proc.pc.Waiting? && proc.attempt == 1 && 0 < proc.release <= |master|
    ensures Inv(env, master, base, s.(procs := s.procs[p := proc]))
  {
    hide DbOk, TxOk, Consented;
  }

  lemma StepKeepsInv<S>(env: Env<S>, master: seq<Migration>, base: S, s: System<S>, e: Event)
    requires DistinctIds(master) && Inv(env, master, base, s)
    ensures Inv(env, master, base, Step(env, master, s, e))
  {
    hide Inv, DistinctIds, Advance, Refuse, Drop, Sends;
    if e.Start? {
      if !(e.p in s.procs && !s.procs[e.p].pc.Done?) && !(e.release == 0 || e.release > |master|) {
        StartKeepsInv(env, master, base, s, e.p, Proc(e.release, e.acceptDataLoss, e.autoMigrate, 1, Waiting));
      }
    } else if e.p in s.procs && s.procs[e.p].release <= |master| {
      SendsKeepInv(env, master, base, s, e.p);
      var s' := s.(sent := s.sent + Sends(s.procs[e.p]));
      AdvanceKeepsInv(env, master, base, s', e.p);
      RefuseKeepsInv(env, master, base, s', e.p);
      DropKeepsInv(env, master, base, s', e.p);
      AdvanceKeepsProcs(env, master, s', e.p);
      DropKeepsInv(env, master, base, Advance(env, master, s', e.p), e.p);
    }
  }

  lemma AdvanceKeepsProcs<S>(env: Env<S>, master: seq<Migration>, s: System<S>, p: nat)
    requires p in s.procs && s.procs[p].release <= |master|
    ensures p in Advance(env, master, s, p).procs
  {
  }

  /** Every run of any number of processes keeps the invariant. */
  lemma {:induction false} RunKeepsInv<S>(env: Env<S>, master: seq<Migration>, base: S, events: seq<Event>)
    requires DistinctIds(master)
    ensures Inv(env, master, base, Run(env, master, base, events))
  {
    if events == [] {
      hide DistinctIds;
      assert master[0..0] == [];
    } else {
      hide Inv, DistinctIds, Step;
      RunKeepsInv(env, master, base, events[..|events| - 1]);
      StepKeepsInv(env, master, base, Run(env, master, base, events[..|events| - 1]), events[|events| - 1]);
    }
  }

  // ---------------------------------------------------------------- what follows

  /** The tracked ids are the first `n` of the list, the first `b` of them baselined and the others migrated. */
  lemma TrackedIsPrefix<S>(env: Env<S>, master: seq<Migration>, base: S, events: seq<Event>) returns (b: nat, n: nat)
    requires DistinctIds(master)
    ensures var db := Run(env, master, base, events).db;
      && b <= n <= |master|
      && db.rows.Keys == (set i | 0 <= i < n :: master[i].id)
      && (forall i :: 0 <= i < n ==>
            db.rows[master[i].id] == Row(master[i].checksum, if i < b then Baseline else Migrate))
      && MigrationsEffect(env, base, master[b..n]) == Some(db.schema)
  {
    hide Leading, MigrationsEffect;
    RunKeepsInv(env, master, base, events);
    var db := Run(env, master, base, events).db;
    b, n := Leading(db.history), |db.history|;
  }

  /** No migration is recorded twice over a whole run. */
  lemma NothingCommitsTwice<S>(env: Env<S>, master: seq<Migration>, base: S, events: seq<Event>, i: nat, j: nat)
    requires DistinctIds(master) && i < j < |Run(env, master, base, events).db.history|
    ensures Run(env, master, base, events).db.history[i].0 != Run(env, master, base, events).db.history[j].0
  {
    hide Faithful;
    RunKeepsInv(env, master, base, events);
  }

  /** No SQL of a flagged migration ever reaches the server without the operator's consent. */
  lemma FlaggedNeedsConsent<S>(env: Env<S>, master: seq<Migration>, base: S, events: seq<Event>, i: nat)
    requires DistinctIds(master) && i < |Run(env, master, base, events).sent|
    requires env.flagged(Run(env, master, base, events).sent[i].migration.statements)
    ensures Run(env, master, base, events).sent[i].accepted
  {
    hide DbOk, ProcsOk;
    RunKeepsInv(env, master, base, events);
  }

  /** At most one process is past the lock. */
  lemma OneHolder<S>(env: Env<S>, master: seq<Migration>, base: S, events: seq<Event>, p: nat, q: nat)
    requires DistinctIds(master)
    requires var procs := Run(env, master, base, events).procs;
      p in procs && q in procs && Holding(procs[p].pc) && Holding(procs[q].pc)
    ensures p == q
  {
    hide DbOk, ProcsOk;
    RunKeepsInv(env, master, base, events);
  }

  /** A process that finished well finds every migration it ships recorded with its checksum. */
  lemma DoneMeansCurrent<S>(env: Env<S>, master: seq<Migration>, base: S, events: seq<Event>, p: nat, k: nat)
    requires DistinctIds(master)
    requires var s := Run(env, master, base, events);
      p in s.procs && s.procs[p].pc == Done(true) && k < s.procs[p].release
    ensures var s := Run(env, master, base, events);
      k < |master| && master[k].id in s.db.rows && s.db.rows[master[k].id].checksum == master[k].checksum
  {
    hide Faithful, Leading;
    RunKeepsInv(env, master, base, events);
    var s := Run(env, master, base, events);
    assert ProcOk(env, master, s.db, s.procs[p]);
  }

  /** Every step commits nothing, one baseline record, or one whole migration with its record. */
  lemma StepIsAtomic<S>(env: Env<S>, master: seq<Migration>, base: S, s: System<S>, e: Event)
    requires DistinctIds(master) && Inv(env, master, base, s)
    ensures var db, db' := s.db, Step(env, master, s, e).db;
      || db' == db
      || (|db.history| < |master|
          && (db' == Insert(db, db.schema, master[|db.history|], Baseline)
              || (StatementsEffect(env, db.schema, master[|db.history|].statements) == Some(db'.schema)
                  && db' == Insert(db, db'.schema, master[|db.history|], Migrate))))
  {
    hide Inv, DistinctIds, DbOk, Rest, StatementsEffect, Leading, TxTurn, ChecksumsAgree, Pending, React, Effect;
    if !e.Start? && e.p in s.procs && s.procs[e.p].release <= |master| {
      HoldsLock(env, master, base, s, e.p);
      if Writes(s.procs[e.p].pc) {
        WriteIsAtomic(env, master, base, s.(sent := s.sent + Sends(s.procs[e.p])), e.p);
      } else {
        OthersWriteNothing(env, master, s.(sent := s.sent + Sends(s.procs[e.p])), e.p);
      }
    }
  }

  lemma OthersWriteNothing<S>(env: Env<S>, master: seq<Migration>, s: System<S>, p: nat)
    requires p in s.procs && s.procs[p].release <= |master| && !Writes(s.procs[p].pc)
    ensures Advance(env, master, s, p).db == s.db
  {
  }

  lemma WriteIsAtomic<S>(env: Env<S>, master: seq<Migration>, base: S, s: System<S>, p: nat)
    requires p in s.procs && ProcOk(env, master, s.db, s.procs[p]) && Writes(s.procs[p].pc)
    requires s.procs[p].release <= |master|
    ensures var db, db' := s.db, Advance(env, master, s, p).db;
      || db' == db
      || (|db.history| < |master|
          && (db' == Insert(db, db.schema, master[|db.history|], Baseline)
              || (StatementsEffect(env, db.schema, master[|db.history|].statements) == Some(db'.schema)
                  && db' == Insert(db, db'.schema, master[|db.history|], Migrate))))
  {
    hide StatementsEffect, Leading, Rest;
    var n := |s.db.history|;
    var pc := s.procs[p].pc;
    if pc.RecordBaseline? {
      assert master[..s.procs[p].release][n] == master[n];
    } else {
      RestStarts(master, n, s.procs[p].release);
      assert pc.todo[0].statements[..pc.j] == pc.todo[0].statements;
    }
  }
}
