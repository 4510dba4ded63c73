/** Builds resolved out of order: a run in which a late build does get rows, and the replay fails. */
module LateResolution {
  import opened Wrappers
  import opened DependencyCache
  import opened DependencyChanges
  import opened BuildResolver
  import opened DependencyHistory

  lemma {:induction false} NewestCandidate(builds: Builds, b: BuildId, among: set<BuildId>)
    returns (prev: Option<BuildId>)
    requires b in builds
    ensures prev.Some? ==> IsCandidate(builds, b, prev.value)
    ensures forall c | c in among && IsCandidate(builds, b, c) ::
      prev.Some? && builds[c].started <= builds[prev.value].started
    decreases among
  {
    prev := None;
    if among != {} {
      var c :| c in among;
      prev := NewestCandidate(builds, b, among - {c});
      if IsCandidate(builds, b, c) && (prev.None? || builds[prev.value].started < builds[c].started) {
        prev := Some(c);
      }
    }
  }

  lemma PickPrev(builds: Builds, b: BuildId) returns (prev: Option<BuildId>)
    requires b in builds
    ensures IsPrev(builds, b, prev)
  {
    prev := NewestCandidate(builds, b, builds.Keys);
  }

  lemma {:induction false} RemovedChanges(table: Table, removed: set<Nevra>) returns (changes: map<string, Change>)
    requires forall n | n in removed :: n in table.Values
    ensures Describes(table, removed, {}, changes)
  {
    changes := map[];
    if removed != {} {
      var n :| n in removed;
      changes := RemovedChanges(table, removed - {n});
      var id :| id in table && table[id] == n;
      DescribesRemoved(table, removed - {n}, changes, Dep(id, n));
      changes := changes[n.name := Change(Some(id), None, None)];
      assert removed - {n} + {n} == removed;
    }
  }

  lemma {:induction false} SomeChanges(table: Table, removed: set<Nevra>, added: set<Installed>)
    returns (changes: map<string, Change>)
    requires forall n | n in removed :: n in table.Values
    requires forall d | d in added :: d.nevra in table.Values
    ensures Describes(table, removed, added, changes)
    decreases added
  {
    if added == {} {
      changes := RemovedChanges(table, removed);
    } else {
      var d :| d in added;
      var rest := SomeChanges(table, removed, added - {d});
      var id :| id in table && table[id] == d.nevra;
      DescribesAdded(table, removed, added - {d}, rest, Dep(id, d.nevra), d.distance);
      var name := d.nevra.name;
      changes := rest[name := Change(if name in rest then rest[name].prev else None, Some(id), d.distance)];
      assert added - {d} + {d} == added;
    }
  }

  lemma {:induction false} SomeKeys(table: Table, deps: seq<Installed>) returns (keys: seq<DepId>)
    requires forall d | d in deps :: d.nevra in table.Values
    ensures (forall k | k in keys :: k in table) && KeyNevras(table, keys) == NevrasOf(deps)
  {
    keys := [];
    if deps != [] {
      var rest := SomeKeys(table, deps[1..]);
      assert deps[0] in deps;
      var id :| id in table && table[id] == deps[0].nevra;
      keys := [id] + rest;
      assert deps == [deps[0]] + deps[1..];
      assert KeyNevras(table, keys) == {table[id]} + KeyNevras(table, rest);
      assert NevrasOf(deps) == {deps[0].nevra} + NevrasOf(deps[1..]);
    }
  }

  lemma DifferenceTo(db: Db, deps: seq<Installed>, prev: Option<BuildId>) returns (changes: map<string, Change>)
    requires forall d | d in deps :: d.nevra in db.table.Values
    ensures
      var before := KeyNevras(db.table, Keys(db.builds, prev));
      if Keys(db.builds, prev) == [] || deps == [] then
        changes == map[]
      else
        Describes(db.table, before - NevrasOf(deps), Added(deps, before), changes)
  {
    var before := KeyNevras(db.table, Keys(db.builds, prev));
    changes := map[];
    if Keys(db.builds, prev) != [] && deps != [] {
      changes := SomeChanges(db.table, before - NevrasOf(deps), Added(deps, before));
    }
  }

  /** Any build that waits can be resolved with any dependencies that the table knows. */
  lemma CanResolve(db: Db, b: BuildId, deps: seq<Installed>) returns (db': Db, step: Step)
    requires Consistent(db) && b in db.builds && db.builds[b].depsResolved.None?
    requires Clean(deps) && forall d | d in deps :: d.nevra in db.table.Values
    ensures Takes(db, db', step) && Consistent(db') && db'.table == db.table
    ensures step.Resolve? && step.build == b && step.deps == deps
  {
    var prev := PickPrev(db.builds, b);
    var keys := SomeKeys(db.table, deps);
    assert DropSource(deps) == deps;
    var changes := DifferenceTo(db, deps, prev);
    var stored := db.builds[b := db.builds[b].(depsResolved := Some(true), dependencyKeys := Some(keys))];
    db' := Db(db.table, Cleared(stored, prev), db.applied + set c | c in changes.Values :: AppliedChange(b, c));
    step := Resolve(b, deps, prev, changes);
    assert Keys(db'.builds, Some(b)) == keys;
    assert StoredBuilds(db, db', b, deps, prev);
    assert Resolves(db, db', b, deps, prev, changes);
    ResolveRows(db, db', b, deps, prev, changes);
    ConsistentAfter(db, db', step);
  }

  const A := Nevra("a", None, "1", "1", "noarch")
  const B := Nevra("b", None, "1", "1", "noarch")

  /** Builds that started at 1 to 4, with none resolved */
  function FourBuilds(): Db {
    Db(map[1 := A, 2 := B],
       map[1 := Build(0, 1, None, None), 2 := Build(0, 2, None, None),
           3 := Build(0, 3, None, None), 4 := Build(0, 4, None, None)],
       {})
  }

  predicate Untouched(db: Db, ids: set<BuildId>) {
    && db.table == FourBuilds().table && db.builds.Keys == {1, 2, 3, 4}
    && (forall b | b in db.builds :: db.builds[b].package == 0 && db.builds[b].started == b)
    && (forall b | b in ids && b in db.builds :: db.builds[b].depsResolved.None?)
  }

  /** One more entry for a build of package 0 that started at `b` and has the single dependency `n` */
  lemma OneMore(db: Db, ids: set<BuildId>, b: BuildId, n: Nevra) returns (db': Db, step: Step)
    requires Consistent(db) && Untouched(db, ids) && b in ids && b in db.builds && (n == A || n == B)
    ensures Takes(db, db', step) && Consistent(db') && Untouched(db', ids - {b})
    ensures ResolvesOf(db, step, 0) && step.build == b && Clean(step.deps)
    ensures forall log :: After(log, db, step, 0) == Enter(log, b, b, {n})
  {
    var deps := [Installed(n, None)];
    assert NevrasOf(deps) == {n} by {
      assert deps[0].nevra == n;
    }
    assert db.table[1] == A && db.table[2] == B;
    db', step := CanResolve(db, b, deps);
    ResolveSchedule(db, db', step);
  }

  /** A run over the four builds that has not resolved those in `ids` */
  ghost predicate Running(dbs: seq<Db>, steps: seq<Step>, ids: set<BuildId>) {
    && IsRun(dbs, steps) && CleanRun(dbs, steps, 0) && Begins(dbs[0], 0)
    && Untouched(dbs[|steps|], ids)
  }

  lemma RunAppended(dbs: seq<Db>, steps: seq<Step>, db': Db, step: Step)
    requires IsRun(dbs, steps) && Takes(dbs[|steps|], db', step) && OneToOne(db'.table)
    ensures IsRun(dbs + [db'], steps + [step])
  {
    var dbs', steps' := dbs + [db'], steps + [step];
    forall i | 0 <= i < |dbs'| ensures OneToOne(dbs'[i].table) {
    }
    forall i | 0 <= i < |steps'| ensures Takes(dbs'[i], dbs'[i + 1], steps'[i]) {
      if i < |steps| {
        assert steps'[i] == steps[i] && dbs'[i] == dbs[i] && dbs'[i + 1] == dbs[i + 1];
      }
    }
  }

  lemma CleanAppended(dbs: seq<Db>, steps: seq<Step>, db': Db, step: Step)
    requires IsRun(dbs, steps) && CleanRun(dbs, steps, 0) && IsRun(dbs + [db'], steps + [step])
    requires ResolvesOf(dbs[|steps|], step, 0) && Clean(step.deps) && Distinct(db'.builds, 0)
    ensures CleanRun(dbs + [db'], steps + [step], 0)
    ensures Log(dbs + [db'], steps + [step], 0) == After(Log(dbs, steps, 0), dbs[|steps|], step, 0)
  {
    assert (dbs + [db'])[..|steps| + 1] == dbs && (steps + [step])[..|steps|] == steps;
  }

  lemma RunGoesOn(dbs: seq<Db>, steps: seq<Step>, ids: set<BuildId>, db': Db, step: Step)
    requires Running(dbs, steps, ids) && Takes(dbs[|steps|], db', step) && Consistent(db')
    requires ResolvesOf(dbs[|steps|], step, 0) && Clean(step.deps) && Untouched(db', ids - {step.build})
    ensures Running(dbs + [db'], steps + [step], ids - {step.build})
    ensures Log(dbs + [db'], steps + [step], 0) == After(Log(dbs, steps, 0), dbs[|steps|], step, 0)
  {
    RunAppended(dbs, steps, db', step);
    CleanAppended(dbs, steps, db', step);
  }

  lemma NoneResolved() returns (dbs: seq<Db>, steps: seq<Step>)
    ensures Running(dbs, steps, {1, 2, 3, 4}) && steps == [] && Log(dbs, steps, 0) == []
  {
    dbs, steps := [FourBuilds()], [];
    assert Untouched(dbs[0], {1, 2, 3, 4});
  }

  lemma Resolved(dbs: seq<Db>, steps: seq<Step>, ids: set<BuildId>, b: BuildId, n: Nevra)
    returns (dbs': seq<Db>, steps': seq<Step>)
    requires Running(dbs, steps, ids) && b in ids && b in {1, 2, 3, 4} && (n == A || n == B)
    ensures Running(dbs', steps', ids - {b}) && |steps'| == |steps| + 1
    ensures steps'[..|steps|] == steps && dbs'[..|dbs|] == dbs && steps'[|steps|].build == b
    ensures Log(dbs', steps', 0) == Enter(Log(dbs, steps, 0), b, b, {n})
  {
    RunMirrors(dbs, steps, 0);
    var db', step := OneMore(dbs[|steps|], ids, b, n);
    RunGoesOn(dbs, steps, ids, db', step);
    dbs', steps' := dbs + [db'], steps + [step];
  }

  /** Four entries after resolving 1, 4, 2 and 3 */
  lemma LateLog() returns (log: seq<Entry>)
    ensures log == Enter(Enter(Enter(Enter([], 1, 1, {A}), 4, 4, {A}), 2, 2, {B}), 3, 3, {A})
    ensures |log| == 4 && log[1] == Entry(2, 2, {B}, {B}, false) && log[2] == Entry(3, 3, {A}, {B}, true)
    ensures var log3 := Enter(Enter(Enter([], 1, 1, {A}), 4, 4, {A}), 2, 2, {B}); |log3| == 3 && log3[2].build == 4
    ensures !AllFit(log)
  {
    var log1, log2 := [Entry(1, 1, {A}, {A}, true)], [Entry(1, 1, {A}, {A}, false), Entry(4, 4, {A}, {A}, true)];
    assert Enter([], 1, 1, {A}) == log1;
    assert Before(log1, 4) == 1;
    assert Enter(log1, 4, 4, {A}) == log2;
    assert Before(log2, 2) == 1;
    var log3 := [Entry(1, 1, {A}, {A}, false), Entry(2, 2, {B}, {B}, true), Entry(4, 4, {A}, {A}, true)];
    assert Enter(log2, 2, 2, {B}) == log3;
    assert Before(log3[1..], 3) == 1;
    assert Before(log3, 3) == 2;
    log := [Entry(1, 1, {A}, {A}, false), Entry(2, 2, {B}, {B}, false),
            Entry(3, 3, {A}, {B}, true), Entry(4, 4, {A}, {A}, true)];
    assert Enter(log3, 3, 3, {A}) == log;
    assert B in log[1].deps * log[1].base && B !in log[0].deps;
    assert !Fits(log, 1);
  }

  lemma LateHasRows(dbs: seq<Db>, steps: seq<Step>, log: seq<Entry>)
    requires IsRun(dbs, steps) && CleanRun(dbs, steps, 0) && Begins(dbs[0], 0) && Log(dbs, steps, 0) == log
    requires |log| == 4 && log[2] == Entry(3, 3, {A}, {B}, true)
    ensures RowsOf(dbs[|steps|].applied, 3) != {}
  {
    RunMirrors(dbs, steps, 0);
    assert log[2] in log && Mirrored(dbs[|steps|], 0, log[2]);
    assert A in Currs(dbs[|steps|].table, RowsOf(dbs[|steps|].applied, 3));
  }

  lemma LateIsLate(dbs: seq<Db>, steps: seq<Step>)
    requires Running(dbs, steps, {3}) && |Log(dbs, steps, 0)| == 3 && Log(dbs, steps, 0)[2].build == 4
    ensures 3 in dbs[|steps|].builds && !InOrder(dbs[|steps|].builds, 3)
  {
    RunMirrors(dbs, steps, 0);
    var e := Log(dbs, steps, 0)[2];
    assert e in Log(dbs, steps, 0) && Mirrored(dbs[|steps|], 0, e);
  }

  lemma OneLess()
    ensures {1, 2, 3, 4} - {1} == {2, 3, 4} && {2, 3, 4} - {4} == {2, 3} && {2, 3} - {2} == {3}
  {
  }

  /** The second of two late builds gets rows, and the stored rows do not replay the history. */
  lemma LateRun() returns (dbs: seq<Db>, steps: seq<Step>)
    ensures IsRun(dbs, steps) && CleanRun(dbs, steps, 0) && Begins(dbs[0], 0)
    ensures |steps| == 4 && steps[0].build == 1 && steps[1].build == 4 && steps[2].build == 2 && steps[3].build == 3
    ensures 3 in dbs[3].builds && !InOrder(dbs[3].builds, 3) && RowsOf(dbs[4].applied, 3) != {}
    ensures !Replays(dbs[4], Log(dbs, steps, 0))
  {
    var dbs0, steps0 := NoneResolved();
    assert |steps0| == 0;
    var dbs1, steps1 := Resolved(dbs0, steps0, {1, 2, 3, 4}, 1, A);
    OneLess();
    var dbs2, steps2 := Resolved(dbs1, steps1, {2, 3, 4}, 4, A);
    var dbs3, steps3 := Resolved(dbs2, steps2, {2, 3}, 2, B);
    dbs, steps := Resolved(dbs3, steps3, {3}, 3, A);
    var log := LateLog();
    RunReplaysExactly(dbs, steps, 0);
    LateHasRows(dbs, steps, log);
    LateIsLate(dbs3, steps3);
    assert dbs[3] == dbs3[3];
  }
}
