/**
 * The start-up loop: an attempt that loses its connection is made again.
 *
 * Each write of an attempt commits by itself, so a lost attempt leaves its first writes behind. A
 * retry goes on from there as if nothing had happened, except from the middle of the bootstrap.
 */
module MigrationRetry {
  import opened Text
  import opened Migrations
  import opened MigrationRunner

  datatype Committed<S> = Committed(schema: S, rows: map<string, Row>)

  /** What an attempt that nobody disturbs does. */
  function OneAttempt<S>(job: Job<S>, at: Committed<S>): End<S> {
    Outcome(job.env, at.schema, at.rows, job.list, job.autoMigrate, job.acceptDataLoss)
  }

  /** How many migrations the attempt baselines. */
  function Bootstrap<S>(job: Job<S>, at: Committed<S>): (n: nat)
    ensures n <= |job.list|
  {
    Baselined(job.env, at.schema, at.rows, job.list)
  }

  function Least(a: nat, b: nat): nat {
    if a < b then a else b
  }

  /** What is committed after the first `c` writes of an attempt: baseline records, then whole migrations. */
  function AfterWrites<S>(job: Job<S>, at: Committed<S>, c: nat): Committed<S> {
    var b := Bootstrap(job, at);
    if c <= b then Committed(at.schema, Recorded(at.rows, job.list[..c], Baseline))
    else
      var tracked := RowsAfterBootstrap(job.env, at.schema, at.rows, job.list);
      var todo := Pending(job.list, tracked);
      if !ChecksumsAgree(job.list, tracked) || !job.autoMigrate then Committed(at.schema, tracked)
      else
        var end := ApplyAll(job.env, at.schema, tracked, todo[..Least(c - b, |todo|)], job.acceptDataLoss);
        Committed(end.schema, end.rows)
  }

  /** The whole loop from attempt `i` on: `lost(i)` is how many writes an attempt makes that loses its connection. */
  function Attempts<S>(job: Job<S>, at: Committed<S>, lost: nat -> Option<nat>, i: nat, max: nat): End<S>
    requires i <= max
    decreases max - i
  {
    if lost(i).None? then OneAttempt(job, at)
    else
      var left := AfterWrites(job, at, lost(i).value);
      if i == max then End(left.schema, left.rows, false) else Attempts(job, left, lost, i + 1, max)
  }

  /**
   * The loop as it is written, on a session that stands for the connection of each attempt. An
   * error that counts as transient is a lost connection; any other ends the loop.
   */
  method EnsureSchema<S>(session: Session<S>, job: Job<S>, lost: nat -> Option<nat>,
                         max: nat) returns (ok: bool, attempts: nat)
    requires !session.open && UniqueIds(job.list) && session.env == job.env && max >= 1
    modifies session
    ensures job.list == [] ==>
              ok && attempts == 0 && session.schema == old(session.schema) && session.rows == old(session.rows)
    ensures job.list != [] ==>
              End(session.schema, session.rows, ok) == Attempts(job, Committed(old(session.schema), old(session.rows)), lost, 1, max)
    ensures job.list != [] ==>
              && 1 <= attempts <= max && (forall i :: 1 <= i < attempts ==> lost(i).Some?)
              && (lost(attempts).Some? ==> attempts == max)
    ensures ok ==> forall i :: 0 <= i < |job.list| ==>
              var m := job.list[i]; m.id in session.rows && session.rows[m.id].checksum == m.checksum
  {
    hide Outcome, AfterWrites;
    if |job.list| == 0 {
      return true, 0;
    }
    attempts := 1;
    while attempts <= max
      invariant 1 <= attempts <= max && !session.open
      invariant forall i :: 1 <= i < attempts ==> lost(i).Some?
      invariant Attempts(job, Committed(old(session.schema), old(session.rows)), lost, 1, max)
                == Attempts(job, Committed(session.schema, session.rows), lost, attempts, max)
      decreases max - attempts
    {
      if lost(attempts).None? {
        ok := session.EnsureUnderLock(job.list, job.autoMigrate, job.acceptDataLoss);
        return;
      }
      var left := AfterWrites(job, Committed(session.schema, session.rows), lost(attempts).value);
      session.schema, session.rows := left.schema, left.rows;
      if attempts == max {
        return false, attempts;
      }
      attempts := attempts + 1;
    }
  }

  // ---------------------------------------------------------------- the rows that applying leaves

  /** Applying keeps every row, and the rows it adds say "migrate". */
  lemma {:induction false} ApplyRows<S>(env: Env<S>, schema: S, rows: map<string, Row>, todo: seq<Migration>,
                                        acceptDataLoss: bool, id: string)
    ensures var end := ApplyAll(env, schema, rows, todo, acceptDataLoss);
            && (id in rows ==> id in end.rows && end.rows[id] == rows[id])
            && (id !in rows && id in end.rows ==> end.rows[id].reason.Migrate?)
    decreases |todo|
  {
    hide Stops;
    if todo != [] {
      var m := todo[0];
      if !Stops(env, schema, rows, m, acceptDataLoss) {
        StopsMeans(env, schema, rows, m, acceptDataLoss);
        ApplyRows(env, StatementsEffect(env, schema, m.statements).value, rows[m.id := Row(m.checksum, Migrate)],
                  todo[1..], acceptDataLoss, id);
      }
    }
  }

  lemma StopsMeans<S>(env: Env<S>, schema: S, rows: map<string, Row>, m: Migration, acceptDataLoss: bool)
    requires !Stops(env, schema, rows, m, acceptDataLoss)
    ensures StatementsEffect(env, schema, m.statements).Some? && m.id !in rows
  {
  }

  /** So does a whole attempt that is past the bootstrap. */
  lemma OneAttemptRows<S>(job: Job<S>, at: Committed<S>, id: string)
    ensures var tracked := RowsAfterBootstrap(job.env, at.schema, at.rows, job.list);
            var end := OneAttempt(job, at);
            && (id in tracked ==> id in end.rows && end.rows[id] == tracked[id])
            && (id !in tracked && id in end.rows ==> end.rows[id].reason.Migrate?)
  {
    hide RowsAfterBootstrap, ApplyAll, Pending, ChecksumsAgree;
    var tracked := RowsAfterBootstrap(job.env, at.schema, at.rows, job.list);
    ApplyRows(job.env, at.schema, tracked, Pending(job.list, tracked), job.acceptDataLoss, id);
  }

  // ---------------------------------------------------------------- one more migration is applied

  lemma {:induction false} NothingMorePending(migrations: seq<Migration>, rows: map<string, Row>, id: string, row: Row)
    requires Pending(migrations, rows) == []
    ensures Pending(migrations, rows[id := row]) == []
  {
    if migrations != [] {
      NothingMorePending(migrations[..|migrations| - 1], rows, id, row);
    }
  }

  /** Recording the first pending migration leaves the others pending. */
  lemma {:induction false} PendingAfterFirst(migrations: seq<Migration>, rows: map<string, Row>, row: Row)
    requires UniqueIds(migrations) && Pending(migrations, rows) != []
    ensures var todo := Pending(migrations, rows);
            Pending(migrations, rows[todo[0].id := row]) == todo[1..] && todo[0] in migrations
  {
    var n := |migrations| - 1;
    var before := Pending(migrations[..n], rows);
    assert migrations[n] in migrations;
    if before == [] {
      NothingMorePending(migrations[..n], rows, migrations[n].id, row);
    } else {
      PendingAfterFirst(migrations[..n], rows, row);
      var i :| 0 <= i < n && migrations[..n][i] == before[0];
      assert migrations[i] == before[0];
    }
  }

  lemma ChecksumsAfterFirst(migrations: seq<Migration>, rows: map<string, Row>, m: Migration)
    requires UniqueIds(migrations) && m in migrations && ChecksumsAgree(migrations, rows)
    ensures ChecksumsAgree(migrations, rows[m.id := Row(m.checksum, Migrate)])
  {
  }

  lemma BootstrapDone<S>(job: Job<S>, at: Committed<S>)
    ensures at.rows != map[] || Bootstrap(job, at) == 0 ==>
              RowsAfterBootstrap(job.env, at.schema, at.rows, job.list) == at.rows && Bootstrap(job, at) == 0
  {
    hide BaselineCount;
    NothingRecorded(at.rows, job.list);
  }

  lemma OneAttemptApplies<S>(job: Job<S>, at: Committed<S>)
    requires RowsAfterBootstrap(job.env, at.schema, at.rows, job.list) == at.rows
    requires ChecksumsAgree(job.list, at.rows) && job.autoMigrate
    ensures OneAttempt(job, at) == ApplyAll(job.env, at.schema, at.rows, Pending(job.list, at.rows), job.acceptDataLoss)
  {
    hide RowsAfterBootstrap, ChecksumsAgree, Pending, Stops;
  }

  lemma ApplyFirst<S>(env: Env<S>, schema: S, rows: map<string, Row>, todo: seq<Migration>, acceptDataLoss: bool)
    requires todo != []
    ensures var m := todo[0];
            ApplyAll(env, schema, rows, todo, acceptDataLoss) ==
            if Stops(env, schema, rows, m, acceptDataLoss) then End(schema, rows, false)
            else ApplyAll(env, StatementsEffect(env, schema, m.statements).value,
                          rows[m.id := Row(m.checksum, Migrate)], todo[1..], acceptDataLoss)
  {
    hide Stops, StatementsEffect;
    if !Stops(env, schema, rows, todo[0], acceptDataLoss) { StopsMeans(env, schema, rows, todo[0], acceptDataLoss); }
  }

  /** After the first `k` pending migrations, or as many as can be applied, an attempt ends as it would have ended. */
  lemma {:induction false} ResumeApplying<S>(job: Job<S>, at: Committed<S>, k: nat)
    requires UniqueIds(job.list) && job.autoMigrate && ChecksumsAgree(job.list, at.rows)
    requires RowsAfterBootstrap(job.env, at.schema, at.rows, job.list) == at.rows
    requires k <= |Pending(job.list, at.rows)|
    ensures var end := ApplyAll(job.env, at.schema, at.rows, Pending(job.list, at.rows)[..k], job.acceptDataLoss);
            OneAttempt(job, Committed(end.schema, end.rows)) == OneAttempt(job, at)
    decreases k
  {
    hide *;
    var todo := Pending(job.list, at.rows);
    if k == 0 {
      assert todo[..0] == [];
      ApplyNothing(job.env, at.schema, at.rows, job.acceptDataLoss);
    } else {
      var m := todo[0];
      assert todo[..k][0] == m && todo[..k][1..] == todo[1..][..k - 1];
      ApplyFirst(job.env, at.schema, at.rows, todo, job.acceptDataLoss);
      ApplyFirst(job.env, at.schema, at.rows, todo[..k], job.acceptDataLoss);
      if !Stops(job.env, at.schema, at.rows, m, job.acceptDataLoss) {
        StopsMeans(job.env, at.schema, at.rows, m, job.acceptDataLoss);
        var next := Committed(StatementsEffect(job.env, at.schema, m.statements).value, at.rows[m.id := Row(m.checksum, Migrate)]);
        PendingAfterFirst(job.list, at.rows, Row(m.checksum, Migrate));
        ChecksumsAfterFirst(job.list, at.rows, m);
        assert m.id in next.rows;
        BootstrapDone(job, next);
        ResumeApplying(job, next, k - 1);
        OneAttemptApplies(job, at);
        OneAttemptApplies(job, next);
      }
    }
  }

  // ---------------------------------------------------------------- what a retry makes of a lost attempt

  /** The rows of a finished bootstrap, and what is pending behind them. */
  lemma AfterBootstrap<S>(job: Job<S>, at: Committed<S>)
    ensures var tracked := RowsAfterBootstrap(job.env, at.schema, at.rows, job.list);
            && RowsAfterBootstrap(job.env, at.schema, tracked, job.list) == tracked
            && OneAttempt(job, Committed(at.schema, tracked)) == OneAttempt(job, at)
  {
    hide Recorded, BaselineCount, ApplyAll, Pending, ChecksumsAgree;
    var b := Bootstrap(job, at);
    BootstrapDone(job, at);
    if b > 0 {
      var tracked := RowsAfterBootstrap(job.env, at.schema, at.rows, job.list);
      RecordedFrom(at.rows, job.list[..b], Baseline, job.list[0].id);
      assert job.list[..b][0].id == job.list[0].id;
      assert job.list[0].id in tracked;
      BootstrapDone(job, Committed(at.schema, tracked));
    }
  }

  lemma LateCut<S>(job: Job<S>, at: Committed<S>, c: nat)
    requires UniqueIds(job.list) && c >= Bootstrap(job, at)
    ensures OneAttempt(job, AfterWrites(job, at, c)) == OneAttempt(job, at)
  {
    hide RowsAfterBootstrap, Recorded, Baselined, Outcome, Pending, ChecksumsAgree, ApplyAll;
    var tracked := RowsAfterBootstrap(job.env, at.schema, at.rows, job.list);
    var b := Bootstrap(job, at);
    AfterBootstrap(job, at);
    TrackedIs(job, at);
    var todo := Pending(job.list, tracked);
    if c > b && ChecksumsAgree(job.list, tracked) && job.autoMigrate {
      ResumeApplying(job, Committed(at.schema, tracked), Least(c - b, |todo|));
    }
  }

  lemma TrackedIs<S>(job: Job<S>, at: Committed<S>)
    ensures RowsAfterBootstrap(job.env, at.schema, at.rows, job.list)
            == Recorded(at.rows, job.list[..Bootstrap(job, at)], Baseline)
  {
  }

  /** A bootstrap that is cut short is not taken up again: a migration it would have recorded is applied instead. */
  lemma EarlyCut<S>(job: Job<S>, at: Committed<S>, c: nat)
    requires UniqueIds(job.list) && 0 < c < Bootstrap(job, at)
    ensures OneAttempt(job, AfterWrites(job, at, c)).rows != OneAttempt(job, at).rows
  {
    hide Recorded, Outcome, RowsAfterBootstrap, BaselineCount;
    var b := Bootstrap(job, at);
    var cut := AfterWrites(job, at, c);
    var id := job.list[c].id;
    var first := job.list[0].id;
    TrackedIs(job, at);
    assert UniqueIds(job.list[..b]);
    RecordedHas(at.rows, job.list[..b], Baseline, c);
    OneAttemptRows(job, at, id);
    RecordedFrom(at.rows, job.list[..c], Baseline, id);
    RecordedFrom(at.rows, job.list[..c], Baseline, first);
    assert job.list[..c][0].id == first;
    assert first in cut.rows && id !in cut.rows by { NotAmongFirst(job.list, c); }
    BootstrapDone(job, cut);
    OneAttemptRows(job, cut, id);
  }

  lemma NotAmongFirst(migrations: seq<Migration>, c: nat)
    requires UniqueIds(migrations) && c < |migrations|
    ensures !HasId(migrations[..c], migrations[c].id)
  {
  }

  /** A retry ends as an undisturbed attempt would have, exactly when the connection was not lost inside the bootstrap. */
  lemma ResumeExactly<S>(job: Job<S>, at: Committed<S>, c: nat)
    requires UniqueIds(job.list)
    ensures OneAttempt(job, AfterWrites(job, at, c)) == OneAttempt(job, at) <==> c == 0 || c >= Bootstrap(job, at)
  {
    hide Outcome, Recorded, Baselined, ApplyAll;
    if c >= Bootstrap(job, at) {
      LateCut(job, at, c);
    } else if c > 0 {
      EarlyCut(job, at, c);
    } else {
      NothingRecorded(at.rows, job.list);
    }
  }

  // ---------------------------------------------------------------- all attempts

  /** Some attempt before `n` loses its connection inside the bootstrap. */
  predicate CutInBootstrap<S>(job: Job<S>, at: Committed<S>, lost: nat -> Option<nat>, i: nat, n: nat)
    requires i <= n
    decreases n - i
  {
    i < n && lost(i).Some?
    && ((0 < lost(i).value < Bootstrap(job, at)) || CutInBootstrap(job, AfterWrites(job, at, lost(i).value), lost, i + 1, n))
  }

  /** After a first write nothing is baselined any more. */
  lemma BootstrapOnce<S>(job: Job<S>, at: Committed<S>, c: nat)
    requires c > 0 && Bootstrap(job, at) > 0
    ensures Bootstrap(job, AfterWrites(job, at, c)) == 0
  {
    hide Recorded, RowsAfterBootstrap, BaselineCount, ApplyAll;
    var b := Bootstrap(job, at);
    var first := job.list[0].id;
    var k := Least(b, c);
    RecordedFrom(at.rows, job.list[..k], Baseline, first);
    assert job.list[..k][0].id == first;
    TrackedIs(job, at);
    var tracked := RowsAfterBootstrap(job.env, at.schema, at.rows, job.list);
    if c > b {
      var todo := Pending(job.list, tracked);
      ApplyRows(job.env, at.schema, tracked, todo[..Least(c - b, |todo|)], job.acceptDataLoss, first);
    }
    assert first in AfterWrites(job, at, c).rows;
  }

  lemma {:induction false} NoCutLater<S>(job: Job<S>, at: Committed<S>, lost: nat -> Option<nat>, i: nat, n: nat)
    requires i <= n && Bootstrap(job, at) == 0 && at.rows != map[]
    ensures !CutInBootstrap(job, at, lost, i, n)
    decreases n - i
  {
    hide AfterWrites, Baselined;
    if i < n && lost(i).Some? {
      RowsStay(job, at, lost(i).value);
      NoCutLater(job, AfterWrites(job, at, lost(i).value), lost, i + 1, n);
    }
  }

  lemma RowsStay<S>(job: Job<S>, at: Committed<S>, c: nat)
    requires at.rows != map[]
    ensures AfterWrites(job, at, c).rows != map[] && Bootstrap(job, AfterWrites(job, at, c)) == 0
  {
    hide Recorded, ApplyAll, RowsAfterBootstrap, Pending;
    var id :| id in at.rows;
    NothingRecorded(at.rows, job.list);
    BootstrapDone(job, at);
    var todo := Pending(job.list, at.rows);
    if c > 0 {
      ApplyRows(job.env, at.schema, at.rows, todo[..Least(c, |todo|)], job.acceptDataLoss, id);
    }
    assert id in AfterWrites(job, at, c).rows;
  }

  lemma {:induction false} LaterAttempts<S>(job: Job<S>, at: Committed<S>, lost: nat -> Option<nat>, i: nat, n: nat, max: nat)
    requires UniqueIds(job.list) && i <= n <= max && lost(n).None?
    requires forall k :: i <= k < n ==> lost(k).Some?
    ensures !CutInBootstrap(job, at, lost, i, n) ==> Attempts(job, at, lost, i, max) == OneAttempt(job, at)
    ensures CutInBootstrap(job, at, lost, i, n) ==> Attempts(job, at, lost, i, max) != OneAttempt(job, at)
    decreases n - i
  {
    hide Outcome, AfterWrites, Baselined;
    if i < n {
      var c := lost(i).value;
      var left := AfterWrites(job, at, c);
      ResumeExactly(job, at, c);
      LaterAttempts(job, left, lost, i + 1, n, max);
      if 0 < c < Bootstrap(job, at) {
        BootstrapOnce(job, at, c);
        RowsAreThere(job, at, c);
        NoCutLater(job, left, lost, i + 1, n);
      }
    }
  }

  lemma RowsAreThere<S>(job: Job<S>, at: Committed<S>, c: nat)
    requires 0 < c < Bootstrap(job, at)
    ensures AfterWrites(job, at, c).rows != map[]
  {
    hide Recorded, BaselineCount;
    RecordedFrom(at.rows, job.list[..c], Baseline, job.list[0].id);
    assert job.list[..c][0].id == job.list[0].id;
  }

  /**
   * If any attempt within the limit keeps its connection, the loop ends as one undisturbed attempt
   * would have, schema, records and verdict alike, exactly when no attempt before it was cut inside
   * the bootstrap.
   */
  lemma RetriesAreInvisible<S>(job: Job<S>, at: Committed<S>, lost: nat -> Option<nat>, n: nat, max: nat)
    requires UniqueIds(job.list) && 1 <= n <= max && lost(n).None? && forall k :: 1 <= k < n ==> lost(k).Some?
    ensures Attempts(job, at, lost, 1, max) == OneAttempt(job, at) <==> !CutInBootstrap(job, at, lost, 1, n)
  {
    LaterAttempts(job, at, lost, 1, n, max);
  }
}
