/** `BuildResolver`: stores the dependencies of each resolved build and the changes from the previous
    one, so that the stored changes replay a package's whole dependency history. */
module BuildResolver {
  import opened Wrappers
  import opened Recency
  import opened DependencyCache
  import opened DependencyChanges

  type PackageId = nat

  type BuildId = nat

  datatype Build = Build(package: PackageId, started: int, depsResolved: Option<bool>,
                         dependencyKeys: Option<seq<DepId>>)

  type Builds = map<BuildId, Build>

  datatype AppliedChange = AppliedChange(build: BuildId, change: Change)

  datatype Db = Db(table: Table, builds: Builds, applied: set<AppliedChange>)

  predicate IsResolved(b: Build, p: PackageId) {
    b.package == p && b.depsResolved == Some(true)
  }

  predicate IsCandidate(builds: Builds, b: BuildId, c: BuildId)
    requires b in builds
  {
    c in builds && IsResolved(builds[c], builds[b].package) && builds[c].started < builds[b].started
  }

  /** `prev` is the last resolved build of the same package that started before `b`. */
  predicate IsPrev(builds: Builds, b: BuildId, prev: Option<BuildId>)
    requires b in builds
  {
    match prev
    case None => forall c | c in builds :: !IsCandidate(builds, b, c)
    case Some(p) => IsCandidate(builds, b, p) && forall c | c in builds && IsCandidate(builds, b, c) ::
                      builds[c].started <= builds[p].started
  }

  /** The arches kept by resolve_dependencies and store_dependencies */
  function DropSource(installs: seq<Installed>): (r: seq<Installed>)
    ensures forall d :: d in r <==> d in installs && d.nevra.arch != "src"
    ensures (forall d | d in installs :: d.nevra.arch != "src") ==> r == installs
  {
    if installs == [] then []
        else (if installs[0].nevra.arch != "src" then [installs[0]] else []) + DropSource(installs[1..])
  }

  function KeyNevras(table: Table, keys: seq<DepId>): set<Nevra> {
    set k | k in keys && k in table :: table[k]
  }

  /** The dependency list of a build, if it has one that is not empty */
  function Keys(builds: Builds, b: Option<BuildId>): seq<DepId> {
    if b.Some? && b.value in builds && builds[b.value].dependencyKeys.Some? then
        builds[b.value].dependencyKeys.value else []
  }

  ghost function RowsOf(applied: set<AppliedChange>, b: BuildId): set<Change> {
    set r | r in applied && r.build == b :: r.change
  }

  predicate Known(table: Table, c: Change) {
    && (c.prev.Some? ==> c.prev.value in table)
    && (c.curr.Some? ==> c.curr.value in table)
  }

  ghost predicate Consistent(db: Db) {
    && OneToOne(db.table)
    && (forall r | r in db.applied :: r.build in db.builds && db.builds[r.build].depsResolved == Some(true))
    && (forall r | r in db.applied :: Known(db.table, r.change) && RowAllowed(r.change))
    && (forall b, k | b in db.builds && k in Keys(db.builds, Some(b)) :: k in db.table)
  }

  datatype Step =
    | Resolve(build: BuildId, deps: seq<Installed>, prev: Option<BuildId>, changes: map<string, Change>)
    | Unresolve(build: BuildId)
    | Register(build: BuildId, row: Build)

  /** `b` becomes resolved with `deps`, and `prev` hands its list over to the rows in `changes`. */
  ghost predicate Resolves(db: Db, db': Db, b: BuildId, deps: seq<Installed>, prev: Option<BuildId>,
                           changes: map<string, Change>) {
    && b in db.builds && b in db'.builds && Extends(db.table, db'.table)
    && IsPrev(db.builds, b, prev)
    && StoredBuilds(db, db', b, deps, prev)
    && db'.applied == db.applied + (set c | c in changes.Values :: AppliedChange(b, c))
    && var before := KeyNevras(db.table, Keys(db.builds, prev));
       if Keys(db.builds, prev) == [] || deps == [] then
         changes == map[]
       else
         Describes(db'.table, before - NevrasOf(deps), Added(deps, before), changes)
  }

  ghost predicate StoredBuilds(db: Db, db': Db, b: BuildId, deps: seq<Installed>, prev: Option<BuildId>)
    requires b in db.builds && b in db'.builds
  {
    var keys := Keys(db'.builds, Some(b));
    && (forall k | k in keys :: k in db'.table)
    && KeyNevras(db'.table, keys) == NevrasOf(DropSource(deps))
    && db'.builds == Cleared(db.builds[b := db.builds[b].(depsResolved := Some(true), dependencyKeys := Some(keys))],
        prev)
  }

  function Cleared(builds: Builds, prev: Option<BuildId>): Builds {
    if prev.Some? && prev.value in builds then builds[prev.value := builds[prev.value].(dependencyKeys := None)]
        else builds
  }

  ghost predicate Takes(db: Db, db': Db, step: Step) {
    match step
    case Resolve(b, deps, prev, changes) =>
      b in db.builds && db.builds[b].depsResolved.None? && Resolves(db, db', b, deps, prev, changes)
    case Unresolve(b) =>
      && b in db.builds && db.builds[b].depsResolved.None?
      && db' == db.(builds := db.builds[b := db.builds[b].(depsResolved := Some(false))])
    case Register(b, row) =>
      && b !in db.builds && row.depsResolved.None? && row.dependencyKeys.None?
      && db' == db.(builds := db.builds[b := row])
  }

  lemma KeysExtend(table: Table, table': Table, keys: seq<DepId>)
    requires Extends(table, table') && forall k | k in keys :: k in table
    ensures KeyNevras(table', keys) == KeyNevras(table, keys)
  {
  }

  lemma KeysStillKnown(db: Db, db': Db, step: Step)
    requires Consistent(db) && Takes(db, db', step)
    ensures forall c, k | c in db'.builds && k in Keys(db'.builds, Some(c)) :: k in db'.table
  {
    forall c, k | c in db'.builds && k in Keys(db'.builds, Some(c)) ensures k in db'.table {
      if c in db.builds && Keys(db.builds, Some(c)) == Keys(db'.builds, Some(c)) {
        assert k in Keys(db.builds, Some(c));
      }
    }
  }

  /** A build that is resolved stays so. */
  lemma StaysResolved(db: Db, db': Db, step: Step, b: BuildId)
    requires Takes(db, db', step) && b in db.builds && db.builds[b].depsResolved == Some(true)
    ensures b in db'.builds && db'.builds[b].depsResolved == Some(true)
  {
  }

  lemma RowsStillOwned(db: Db, db': Db, step: Step)
    requires Consistent(db) && Takes(db, db', step)
    ensures forall r | r in db'.applied :: r.build in db'.builds && db'.builds[r.build].depsResolved == Some(true)
  {
    forall r | r in db'.applied ensures r.build in db'.builds && db'.builds[r.build].depsResolved == Some(true) {
      if r in db.applied {
        StaysResolved(db, db', step, r.build);
      }
    }
  }

  lemma ConsistentAfter(db: Db, db': Db, step: Step)
    requires Consistent(db) && Takes(db, db', step) && OneToOne(db'.table)
    requires step.Resolve? ==> forall c | c in step.changes.Values :: Known(db'.table, c) && RowAllowed(c)
    ensures Consistent(db')
  {
    KeysStillKnown(db, db', step);
    RowsStillOwned(db, db', step);
    forall r | r in db'.applied ensures Known(db'.table, r.change) && RowAllowed(r.change) {
      if r in db.applied {
        assert Known(db.table, r.change);
      }
    }
  }

  lemma ResolveRows(db: Db, db': Db, b: BuildId, deps: seq<Installed>, prev: Option<BuildId>,
                    changes: map<string, Change>)
    requires Consistent(db) && Resolves(db, db', b, deps, prev, changes) && OneToOne(db'.table)
    ensures forall c | c in changes.Values :: Known(db'.table, c) && RowAllowed(c)
  {
    if changes != map[] {
      var before := KeyNevras(db.table, Keys(db.builds, prev));
      DescribedRowsAllowed(db'.table, before - NevrasOf(deps), Added(deps, before), changes);
      forall c | c in changes.Values ensures Known(db'.table, c) {
        var n :| n in changes && changes[n] == c;
        assert PrevDescribes(db'.table, before - NevrasOf(deps), n, c) &&
            CurrDescribes(db'.table, Added(deps, before), n, c);
      }
    }
  }

  /** Nothing but dependency lists and the resolution of `b` differs. */
  ghost predicate SameSchedule(builds: Builds, builds': Builds, b: BuildId) {
    && builds.Keys == builds'.Keys && b in builds
    && (forall c | c in builds :: builds'[c].package == builds[c].package && builds'[c].started == builds[c].started)
    && (forall c | c in builds && c != b :: builds'[c].depsResolved == builds[c].depsResolved)
  }

  /** The columns of a package that matter when its build does not resolve */
  datatype Package = Package(lastBuild: Option<BuildId>, buildPriority: int)

  class Service {
    const cache: Cache
    const newlyAdded: int  // priorities.newly_added
    var builds: Builds
    var packages: map<PackageId, Package>
    var applied: set<AppliedChange>

    constructor (cache: Cache, newlyAdded: int, builds: Builds, packages: map<PackageId, Package>,
                 applied: set<AppliedChange>)
      ensures this.cache == cache && this.newlyAdded == newlyAdded
      ensures this.builds == builds && this.packages == packages && this.applied == applied
    {
      this.cache, this.newlyAdded, this.builds, this.packages, this.applied :=
        cache, newlyAdded, builds, packages, applied;
    }

    ghost function Contents(): Db
      reads this, cache
    {
      Db(cache.table, builds, applied)
    }

    ghost predicate Valid()
      reads this, cache
    {
      cache.Valid() && Consistent(Contents())
    }

    method GetPrevBuildForComparison(b: BuildId) returns (prev: Option<BuildId>)
      requires b in builds
      ensures IsPrev(builds, b, prev)
    {
      prev := None;
      var todo := builds.Keys;
      while todo != {}
        invariant todo <= builds.Keys
        invariant match prev
                  case None => forall c | c in builds && c !in todo :: !IsCandidate(builds, b, c)
                  case Some(p) => IsCandidate(builds, b, p) && forall c | c in builds && c !in todo &&
                      IsCandidate(builds, b, c) ::
                                    builds[c].started <= builds[p].started
      {
        var c :| c in todo;
        todo := todo - {c};
        if IsCandidate(builds, b, c) && (prev.None? || builds[prev.value].started < builds[c].started) {
          prev := Some(c);
        }
      }
    }

    /** None for no list and for an empty one */
    method GetBuildDependencies(b: BuildId) returns (deps: Option<seq<Installed>>)
      requires cache.Valid() && b in builds && forall k | k in Keys(builds, Some(b)) :: k in cache.table
      modifies cache
      ensures cache.Valid() && cache.table == old(cache.table)
      ensures deps.None? <==> Keys(builds, Some(b)) == []
      ensures deps.Some? ==> deps.value != [] && NevrasOf(deps.value) == KeyNevras(cache.table, Keys(builds, Some(b)))
    {
      var keys := Keys(builds, Some(b));
      if keys == [] {
        return None;
      }
      assert keys[0] in keys;
      var found := cache.GetByIds(keys);
      var rows := found.value;
      AnswerNevras(cache.table, keys, rows);
      return Some(seq(|rows|, i requires 0 <= i < |rows| => Installed(rows[i].nevra, None)));
    }

    method StoreDependencies(b: BuildId, installs: seq<Installed>)
      requires cache.Valid() && b in builds
      modifies cache, this`builds
      ensures cache.Valid() && Extends(old(cache.table), cache.table)
      ensures b in builds && builds == old(builds)[b := old(builds[b]).(dependencyKeys := Some(Keys(builds, Some(b))))]
      ensures forall k | k in Keys(builds, Some(b)) :: k in cache.table
      ensures KeyNevras(cache.table, Keys(builds, Some(b))) == NevrasOf(DropSource(installs))
    {
      var kept := DropSource(installs);
      var nevras := seq(|kept|, i requires 0 <= i < |kept| => kept[i].nevra);
      var deps := cache.GetOrCreateNevras(nevras);
      var keys := seq(|deps|, i requires 0 <= i < |deps| => deps[i].id);
      builds := builds[b := builds[b].(dependencyKeys := Some(keys))];
      KeysOfRows(cache.table, kept, deps, keys);
    }

    /** Stores the changes from `prev`, which then gives up its dependency list. */
    method StoreChanges(b: BuildId, deps: seq<Installed>, prev: BuildId) returns (changes: map<string, Change>)
      requires cache.Valid() && prev in builds && forall k | k in Keys(builds, Some(prev)) :: k in cache.table
      modifies cache, this`builds, this`applied
      ensures cache.Valid() && Extends(old(cache.table), cache.table)
      ensures builds == Cleared(old(builds), Some(prev))
      ensures applied == old(applied) + set c | c in changes.Values :: AppliedChange(b, c)
      ensures
        var keys := Keys(old(builds), Some(prev));
        var before := KeyNevras(old(cache.table), keys);
        if keys == [] || deps == [] then
          changes == map[]
        else
          Describes(cache.table, before - NevrasOf(deps), Added(deps, before), changes)
    {
      changes := map[];
      var prevDeps := GetBuildDependencies(prev);
      if prevDeps.Some? {
        changes := CreateDependencyChanges(cache, prevDeps.value, deps);
        applied := applied + set c | c in changes.Values :: AppliedChange(b, c);
      }
      builds := builds[prev := builds[prev].(dependencyKeys := None)];
    }

    method ProcessResolvedBuild(b: BuildId, deps: seq<Installed>) returns (ghost step: Step)
      requires Valid() && b in builds && builds[b].depsResolved.None?
      modifies cache, this`builds, this`applied
      ensures Valid() && Takes(old(Contents()), Contents(), step)
      ensures step.Resolve? && step.build == b && step.deps == deps
    {
      builds := builds[b := builds[b].(depsResolved := Some(true))];
      StoreDependencies(b, deps);
      ghost var stored := Contents();
      StoredIsUsable(old(Contents()), stored, b, deps);
      var prev := GetPrevBuildForComparison(b);
      var changes: map<string, Change> := map[];
      if prev.Some? {
        changes := StoreChanges(b, deps, prev.value);
      }
      step := Resolve(b, deps, prev, changes);
      StoredAndComparedResolves(old(Contents()), stored, Contents(), b, deps, prev, changes);
    }

    /** process_build with the outcome of the dependency solver: the installed packages, source
        packages included, or None when the build cannot be installed. */
    method ProcessBuild(b: BuildId, installs: Option<seq<Installed>>) returns (ghost step: Step)
      requires Valid() && b in builds && builds[b].depsResolved.None? && builds[b].package in packages
      modifies cache, this`builds, this`applied, this`packages
      ensures Valid() && Takes(old(Contents()), Contents(), step)
      ensures match installs
              case None => step == Unresolve(b)
              case Some(all) => step.Resolve? && step.build == b && step.deps == DropSource(all)
      ensures packages.Keys == old(packages).Keys
      ensures forall p | p in packages :: packages[p] == old(packages)[p].(buildPriority :=
                if installs.None? && p == old(builds)[b].package && old(packages)[p].lastBuild == Some(b)
                then newlyAdded else old(packages)[p].buildPriority)
    {
      if installs.None? {
        builds := builds[b := builds[b].(depsResolved := Some(false))];
        var p := builds[b].package;
        if packages[p].lastBuild == Some(b) {
          packages := packages[p := packages[p].(buildPriority := newlyAdded)];
        }
        step := Unresolve(b);
        ConsistentAfter(old(Contents()), Contents(), step);
      } else {
        step := ProcessResolvedBuild(b, DropSource(installs.value));
      }
    }
  }

  /** After store_dependencies */
  ghost predicate Stored(db: Db, stored: Db, b: BuildId, deps: seq<Installed>) {
    && b in db.builds && b in stored.builds
    && Extends(db.table, stored.table) && stored.applied == db.applied
    && var keys := Keys(stored.builds, Some(b));
       && stored.builds == db.builds[b := db.builds[b].(depsResolved := Some(true), dependencyKeys := Some(keys))]
       && (forall k | k in keys :: k in stored.table)
       && KeyNevras(stored.table, keys) == NevrasOf(DropSource(deps))
  }

  /** After the comparison with `prev` */
  ghost predicate Compared(stored: Db, db': Db, b: BuildId, deps: seq<Installed>, prev: Option<BuildId>,
                           changes: map<string, Change>) {
    && Extends(stored.table, db'.table)
    && db'.builds == Cleared(stored.builds, prev)
    && db'.applied == stored.applied + (set c | c in changes.Values :: AppliedChange(b, c))
    && var before := KeyNevras(stored.table, Keys(stored.builds, prev));
       if Keys(stored.builds, prev) == [] || deps == [] then
         changes == map[]
       else
         Describes(db'.table, before - NevrasOf(deps), Added(deps, before), changes)
  }

  lemma StoredIsUsable(db: Db, stored: Db, b: BuildId, deps: seq<Installed>)
    requires Consistent(db) && Stored(db, stored, b, deps)
    ensures forall c, k | c in stored.builds && k in Keys(stored.builds, Some(c)) :: k in stored.table
  {
    forall c, k | c in stored.builds && k in Keys(stored.builds, Some(c)) ensures k in stored.table {
      if c != b {
        assert k in Keys(db.builds, Some(c));
      }
    }
  }

  lemma StoredAndComparedResolves(db: Db, stored: Db, db': Db, b: BuildId, deps: seq<Installed>,
                                  prev: Option<BuildId>, changes: map<string, Change>)
    requires Consistent(db) && Stored(db, stored, b, deps) && db.builds[b].depsResolved.None?
    requires IsPrev(stored.builds, b, prev) && Compared(stored, db', b, deps, prev, changes) && OneToOne(db'.table)
    ensures Takes(db, db', Resolve(b, deps, prev, changes)) && Consistent(db')
  {
    IsPrevBefore(db.builds, stored.builds, b, prev);
    assert Keys(stored.builds, prev) == Keys(db.builds, prev);
    KeysExtend(db.table, stored.table, Keys(db.builds, prev));
    KeysExtend(stored.table, db'.table, Keys(stored.builds, Some(b)));
    assert Keys(db'.builds, Some(b)) == Keys(stored.builds, Some(b));
    assert StoredBuilds(db, db', b, deps, prev);
    ResolveRows(db, db', b, deps, prev, changes);
    ConsistentAfter(db, db', Resolve(b, deps, prev, changes));
  }

  lemma IsPrevBefore(builds: Builds, builds': Builds, b: BuildId, prev: Option<BuildId>)
    requires SameSchedule(builds, builds', b) && IsPrev(builds', b, prev)
    ensures IsPrev(builds, b, prev)
  {
    forall c | c in builds ensures IsCandidate(builds, b, c) == IsCandidate(builds', b, c) {
    }
  }

  lemma AnswerNevras(table: Table, keys: seq<DepId>, rows: seq<Dep>)
    requires Answers(table, keys, rows) && exists k :: k in keys && k in table
    ensures rows != []
    ensures NevrasOf(seq(|rows|, i requires 0 <= i < |rows| => Installed(rows[i].nevra, None))) ==
        KeyNevras(table, keys)
  {
    var deps := seq(|rows|, i requires 0 <= i < |rows| => Installed(rows[i].nevra, None));
    forall n | n in KeyNevras(table, keys) ensures n in NevrasOf(deps) {
      var k :| k in keys && k in table && table[k] == n;
      var i :| 0 <= i < |rows| && rows[i] == Dep(k, table[k]);
      assert deps[i] in deps;
    }
    forall n | n in NevrasOf(deps) ensures n in KeyNevras(table, keys) {
      var i :| 0 <= i < |deps| && deps[i].nevra == n;
      assert rows[i] in rows;
    }
  }

  lemma KeysOfRows(table: Table, kept: seq<Installed>, deps: seq<Dep>, keys: seq<DepId>)
    requires |kept| == |deps| == |keys|
    requires forall i | 0 <= i < |kept| ::
        IsRow(table, deps[i]) && deps[i].nevra == kept[i].nevra && keys[i] == deps[i].id
    ensures (forall k | k in keys :: k in table) && KeyNevras(table, keys) == NevrasOf(kept)
  {
    forall n | n in NevrasOf(kept) ensures n in KeyNevras(table, keys) {
      var i :| 0 <= i < |kept| && kept[i].nevra == n;
      assert keys[i] in keys;
    }
    forall n | n in KeyNevras(table, keys) ensures n in NevrasOf(kept) {
      var k :| k in keys && k in table && table[k] == n;
      var i :| 0 <= i < |keys| && keys[i] == k;
      assert kept[i] in kept;
    }
  }
}
