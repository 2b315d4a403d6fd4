/**
 * A partly upgraded schema ends where a clean one does.
 *
 * A schema holds objects and can grow by some. A statement adds a set of objects: its text works
 * when none of them is there and is otherwise answered with one of the "already there" codes, and
 * the text that the runner then falls back on adds those that are missing.
 */
module MigrationUpgrade {
  import opened Text
  import opened Migrations
  import opened MigrationRunner

  ghost predicate Grows<S(!new), O(!new)>(has: S -> set<O>, grow: (S, set<O>) -> S) {
    && (forall s: S, a: set<O> :: has(grow(s, a)) == has(s) + a)
    && (forall s: S, a: set<O>, b: set<O> :: grow(grow(s, a), b) == grow(s, a + b))
    && (forall s: S, a: set<O> :: a <= has(s) ==> grow(s, a) == s)
  }

  /** The server's answer to a statement that adds `objects`, and to what the runner makes of it. */
  ghost predicate AnswersLikeAdding<S(!new), O(!new)>(env: Env<S>, has: S -> set<O>, grow: (S, set<O>) -> S, stmt: string,
                                                      objects: set<O>, s: S) {
    if objects !! has(s) then env.exec(s, stmt) == Ok(grow(s, objects))
    else
      || (env.exec(s, stmt) == Err("42701") && env.idempotentAddColumn(stmt).Some?
          && env.exec(s, env.idempotentAddColumn(stmt).value) == Ok(grow(s, objects)))
      || (env.exec(s, stmt) == Err("42P07") && env.idempotentCreate(stmt).Some?
          && env.exec(s, env.idempotentCreate(stmt).value) == Ok(grow(s, objects)))
      || (env.exec(s, stmt) == Err("42710") && env.addedConstraint(stmt).Some?
          && env.constraintExists(s, env.addedConstraint(stmt).value) && objects <= has(s))
  }

  ghost predicate Adds<S(!new), O(!new)>(env: Env<S>, has: S -> set<O>, grow: (S, set<O>) -> S, stmt: string, objects: set<O>) {
    if Trim(stmt) == "" then objects == {}
    else forall s :: AnswersLikeAdding(env, has, grow, stmt, objects, s)
  }

  /** Applying such a statement adds what is missing of its objects, whatever is there already. */
  lemma EffectAdds<S(!new), O(!new)>(env: Env<S>, has: S -> set<O>, grow: (S, set<O>) -> S, stmt: string, objects: set<O>, s: S)
    requires Grows(has, grow) && AnswersLikeAdding(env, has, grow, stmt, objects, s)
    ensures Effect(env, s, stmt) == Some(grow(s, objects))
  {
    hide Effect;
    EffectIs(env, s, stmt);
  }

  function Union<O>(sets: seq<set<O>>): set<O> {
    if sets == [] then {} else Union(sets[..|sets| - 1]) + sets[|sets| - 1]
  }

  ghost predicate AllAdd<S(!new), O(!new)>(env: Env<S>, has: S -> set<O>, grow: (S, set<O>) -> S, stmts: seq<string>,
                                           objects: seq<set<O>>) {
    |objects| == |stmts| && forall i :: 0 <= i < |stmts| ==> Adds(env, has, grow, stmts[i], objects[i])
  }

  lemma {:induction false} StatementsAdd<S(!new), O(!new)>(env: Env<S>, has: S -> set<O>, grow: (S, set<O>) -> S,
                                                           stmts: seq<string>, objects: seq<set<O>>, s: S)
    requires Grows(has, grow) && AllAdd(env, has, grow, stmts, objects)
    ensures StatementsEffect(env, s, stmts) == Some(grow(s, Union(objects)))
  {
    hide Effect, AnswersLikeAdding, Trim;
    if stmts == [] {
      assert {} <= has(s);
    } else {
      var n := |stmts| - 1;
      StatementsAdd(env, has, grow, stmts[..n], objects[..n], s);
      assert Adds(env, has, grow, stmts[n], objects[n]);
      var before := grow(s, Union(objects[..n]));
      if Trim(stmts[n]) == "" {
        assert Union(objects[..n]) + {} == Union(objects[..n]);
      } else {
        EffectAdds(env, has, grow, stmts[n], objects[n], before);
      }
    }
  }

  /** The same for whole migrations: `objects[i]` are those of the statements of migration i. */
  ghost predicate MigrationsAddThese<S(!new), O(!new)>(env: Env<S>, has: S -> set<O>, grow: (S, set<O>) -> S,
                                                       migrations: seq<Migration>, objects: seq<seq<set<O>>>) {
    |objects| == |migrations|
    && forall i :: 0 <= i < |migrations| ==> AllAdd(env, has, grow, migrations[i].statements, objects[i])
  }

  function UnionAll<O>(objects: seq<seq<set<O>>>): set<O> {
    if objects == [] then {} else UnionAll(objects[..|objects| - 1]) + Union(objects[|objects| - 1])
  }

  lemma {:induction false} MigrationsAdd<S(!new), O(!new)>(env: Env<S>, has: S -> set<O>, grow: (S, set<O>) -> S,
                                                           migrations: seq<Migration>, objects: seq<seq<set<O>>>, s: S)
    requires Grows(has, grow) && MigrationsAddThese(env, has, grow, migrations, objects)
    ensures MigrationsEffect(env, s, migrations) == Some(grow(s, UnionAll(objects)))
  {
    hide StatementsEffect, AllAdd, Union;
    if migrations == [] {
      assert {} <= has(s);
    } else {
      var n := |migrations| - 1;
      MigrationsAdd(env, has, grow, migrations[..n], objects[..n], s);
      StatementsAdd(env, has, grow, migrations[n].statements, objects[n], grow(s, UnionAll(objects[..n])));
    }
  }

  /**
   * Whichever of the objects are there already, from an earlier version or an earlier attempt, the
   * migrations can be applied and lead to the schema that they lead to from a clean one; and they
   * change nothing when they are applied once more.
   */
  lemma PartlyUpgradedEndsAlike<S(!new), O(!new)>(env: Env<S>, has: S -> set<O>, grow: (S, set<O>) -> S,
                                                  migrations: seq<Migration>, objects: seq<seq<set<O>>>, clean: S, there: set<O>)
    requires Grows(has, grow) && MigrationsAddThese(env, has, grow, migrations, objects) && there <= UnionAll(objects)
    ensures var end := MigrationsEffect(env, clean, migrations);
            && end.Some? && has(end.value) == has(clean) + UnionAll(objects)
            && MigrationsEffect(env, grow(clean, there), migrations) == end
            && MigrationsEffect(env, end.value, migrations) == end
  {
    hide MigrationsEffect, MigrationsAddThese;
    var all := UnionAll(objects);
    MigrationsAdd(env, has, grow, migrations, objects, clean);
    MigrationsAdd(env, has, grow, migrations, objects, grow(clean, there));
    MigrationsAdd(env, has, grow, migrations, objects, grow(clean, all));
    assert there + all == all && all + all == all;
  }
}
