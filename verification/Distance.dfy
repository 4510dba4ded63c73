/** `compute_dependency_distances`: a depth-limited breadth-first search through the requirements of
    the packages that satisfy the BuildRequires. */
module Distance {
  import opened Wrappers

  type Reldep = string

  datatype Package = Package(name: string, evra: string, requirements: set<Reldep>)

  /** What the solver knows: the packages, which of them provides a capability, and which owns a file. */
  datatype Sack = Sack(packages: set<Package>, satisfies: (Package, Reldep) -> bool, owns: (Package, string) -> bool)

  const DEPTH_LIMIT: nat := 5

  function Providers(sack: Sack, reldeps: set<Reldep>): set<Package> {
    set x | x in sack.packages && exists r :: r in reldeps && sack.satisfies(x, r)
  }

  /** _get_builddep_selector(sack, dep).matches() */
  function Matches(sack: Sack, dep: Reldep): set<Package> {
    var found := Providers(sack, {dep});
    if found == {} && |dep| > 0 && dep[0] == '/' then set x | x in sack.packages && sack.owns(x, dep) else found
  }

  function Roots(sack: Sack, br: seq<Reldep>): set<Package> {
    set r, x | r in br && x in Matches(sack, r) :: x
  }

  /** A package satisfies a BuildRequires by what it provides; by a file of its own only if that is what is asked
      for and nothing provides it. */
  lemma RootsAre(sack: Sack, br: seq<Reldep>, x: Package)
    ensures x in Roots(sack, br) <==>
              (x in sack.packages && exists r | r in br :: sack.satisfies(x, r) || ByFile(sack, x, r))
  {
    forall r | r in br ensures x in Matches(sack, r) <==>
        (x in sack.packages && (sack.satisfies(x, r) || ByFile(sack, x, r))) {
      MatchesAre(sack, r, x);
    }
  }

  predicate ByFile(sack: Sack, x: Package, r: Reldep) {
    |r| > 0 && r[0] == '/' && sack.owns(x, r) && forall y | y in sack.packages :: !sack.satisfies(y, r)
  }

  lemma MatchesAre(sack: Sack, r: Reldep, x: Package)
    ensures x in Matches(sack, r) <==> (x in sack.packages && (sack.satisfies(x, r) || ByFile(sack, x, r)))
  {
    forall y ensures y in Providers(sack, {r}) <==> y in sack.packages && sack.satisfies(y, r) {
      assert r in {r};
    }
  }

  predicate Edge(sack: Sack, y: Package, x: Package) {
    x in sack.packages && exists r :: r in y.requirements && sack.satisfies(x, r)
  }

  // Shortest paths

  ghost predicate IsPath(sack: Sack, roots: set<Package>, path: seq<Package>) {
    && path != [] && path[0] in roots
    && forall i | 0 < i < |path| :: Edge(sack, path[i - 1], path[i])
  }

  /** Some package named `name` ends a path of `k` packages that begins at a root. */
  ghost predicate NamedAt(sack: Sack, roots: set<Package>, name: string, k: nat) {
    exists path: seq<Package> :: |path| == k && IsPath(sack, roots, path) && path[k - 1].name == name
  }

  /** `d` is the length of the shortest path to a package named `name`, if it is less than `limit`. */
  ghost predicate IsDistance(sack: Sack, roots: set<Package>, name: string, limit: nat, d: Option<nat>) {
    match d
    case Some(k) => k < limit && NamedAt(sack, roots, name, k) && forall j | 0 <= j < k ::
        !NamedAt(sack, roots, name, j)
    case None => forall j | 0 <= j < limit :: !NamedAt(sack, roots, name, j)
  }

  /** The packages at the ends of the paths of `k` packages */
  ghost function Reach(sack: Sack, roots: set<Package>, k: nat): set<Package> {
    if k == 0 then {} else if k == 1 then roots else
      set x | x in sack.packages && exists y :: y in Reach(sack, roots, k - 1) && Edge(sack, y, x)
  }

  /** The packages at the ends of the paths of less than `k` packages */
  ghost function Within(sack: Sack, roots: set<Package>, k: nat): set<Package> {
    if k == 0 then {} else Within(sack, roots, k - 1) + Reach(sack, roots, k - 1)
  }

  ghost predicate HasNamed(pkgs: set<Package>, name: string) {
    exists x :: x in pkgs && x.name == name
  }

  lemma {:induction false} PathsReach(sack: Sack, roots: set<Package>, path: seq<Package>)
    requires IsPath(sack, roots, path)
    ensures path[|path| - 1] in Reach(sack, roots, |path|)
    decreases |path|
  {
    if |path| > 1 {
      PathsReach(sack, roots, path[..|path| - 1]);
      assert Edge(sack, path[|path| - 2], path[|path| - 1]);
    }
  }

  lemma {:induction false} PathTo(sack: Sack, roots: set<Package>, k: nat, x: Package) returns (path: seq<Package>)
    requires x in Reach(sack, roots, k)
    ensures |path| == k && IsPath(sack, roots, path) && path[k - 1] == x
    decreases k
  {
    if k == 1 {
      path := [x];
    } else {
      var y :| y in Reach(sack, roots, k - 1) && Edge(sack, y, x);
      var front := PathTo(sack, roots, k - 1, y);
      path := front + [x];
      forall i | 0 < i < |path| ensures Edge(sack, path[i - 1], path[i]) {
        if i < |front| {
          assert path[i - 1] == front[i - 1] && path[i] == front[i];
        }
      }
    }
  }

  lemma NamedAtReach(sack: Sack, roots: set<Package>, name: string, k: nat)
    ensures NamedAt(sack, roots, name, k) <==> HasNamed(Reach(sack, roots, k), name)
  {
    if NamedAt(sack, roots, name, k) {
      var path: seq<Package> :| |path| == k && IsPath(sack, roots, path) && path[k - 1].name == name;
      PathsReach(sack, roots, path);
    }
    if HasNamed(Reach(sack, roots, k), name) {
      var x :| x in Reach(sack, roots, k) && x.name == name;
      var path := PathTo(sack, roots, k, x);
    }
  }

  lemma {:induction false} ReachIsWithin(sack: Sack, roots: set<Package>, k: nat, x: Package, j: nat)
    requires j < k && x in Reach(sack, roots, j)
    ensures x in Within(sack, roots, k)
    decreases k
  {
    if j < k - 1 {
      ReachIsWithin(sack, roots, k - 1, x, j);
    }
  }

  lemma {:induction false} WithinIsReach(sack: Sack, roots: set<Package>, k: nat, x: Package) returns (j: nat)
    requires x in Within(sack, roots, k)
    ensures j < k && x in Reach(sack, roots, j)
    decreases k
  {
    if x in Reach(sack, roots, k - 1) {
      j := k - 1;
    } else {
      j := WithinIsReach(sack, roots, k - 1, x);
    }
  }

  // The search

  /** `pkgs` are the ends of paths of `level` packages, all of them but some with shorter paths. */
  ghost predicate OnLevel(sack: Sack, roots: set<Package>, level: nat, pkgs: set<Package>) {
    && pkgs <= Reach(sack, roots, level)
    && Reach(sack, roots, level) <= pkgs + Within(sack, roots, level)
  }

  lemma NextLevel(sack: Sack, roots: set<Package>, level: nat, pkgs: set<Package>, reldeps: set<Reldep>)
    requires level > 0 && OnLevel(sack, roots, level, pkgs)
    requires reldeps == set p, r | p in pkgs && p !in Within(sack, roots, level) && r in p.requirements :: r
    ensures OnLevel(sack, roots, level + 1, Providers(sack, reldeps))
    ensures Within(sack, roots, level + 1) == Within(sack, roots, level) + pkgs
  {
    var next := Providers(sack, reldeps);
    forall x | x in next ensures x in Reach(sack, roots, level + 1) {
      var r :| r in reldeps && sack.satisfies(x, r);
      var p :| p in pkgs && r in p.requirements;
      assert Edge(sack, p, x);
    }
    var reach := Reach(sack, roots, level + 1);
    forall x | x in reach ensures x in next + Within(sack, roots, level + 1) {
      var y :| y in Reach(sack, roots, level) && Edge(sack, y, x);
      if y in Within(sack, roots, level) {
        CloserStep(sack, roots, level, y, x);
      } else {
        var r :| r in y.requirements && sack.satisfies(x, r);
        assert r in reldeps;
      }
    }
  }

  lemma CloserStep(sack: Sack, roots: set<Package>, level: nat, y: Package, x: Package)
    requires y in Within(sack, roots, level) && Edge(sack, y, x)
    ensures x in Within(sack, roots, level + 1)
  {
    var j := WithinIsReach(sack, roots, level, y);
    ReachIsWithin(sack, roots, level + 1, x, j + 1);
  }

  /** Once a level is empty, no package is first reached later. */
  lemma {:induction false} EmptyLevelEnds(sack: Sack, roots: set<Package>, level: nat, k: nat)
    requires 0 < level <= k && OnLevel(sack, roots, level, {})
    ensures Reach(sack, roots, k) <= Within(sack, roots, level)
    decreases k
  {
    if k > level {
      EmptyLevelEnds(sack, roots, level, k - 1);
      EmptyLevelWithin(sack, roots, level);
      forall x | x in Reach(sack, roots, k) ensures x in Within(sack, roots, level) {
        var y :| y in Reach(sack, roots, k - 1) && Edge(sack, y, x);
        CloserStep(sack, roots, level, y, x);
      }
    }
  }

  lemma EmptyLevelWithin(sack: Sack, roots: set<Package>, level: nat)
    requires OnLevel(sack, roots, level, {})
    ensures Within(sack, roots, level + 1) == Within(sack, roots, level)
  {
  }

  lemma NamedWithin(sack: Sack, roots: set<Package>, level: nat, x: Package) returns (j: nat)
    requires x in Within(sack, roots, level)
    ensures j < level && NamedAt(sack, roots, x.name, j)
  {
    j := WithinIsReach(sack, roots, level, x);
    NamedAtReach(sack, roots, x.name, j);
  }

  /** A name met for the first time on this level is at this distance. */
  lemma LevelDecides(sack: Sack, roots: set<Package>, level: nat, pkgs: set<Package>, name: string, d: Option<nat>)
    requires OnLevel(sack, roots, level, pkgs) && IsDistance(sack, roots, name, level, d)
    ensures IsDistance(sack, roots, name, level + 1, if d.None? && HasNamed(pkgs, name) then Some(level) else d)
  {
    NamedAtReach(sack, roots, name, level);
    if d.None? && !HasNamed(pkgs, name) && NamedAt(sack, roots, name, level) {
      var x :| x in Reach(sack, roots, level) && x.name == name;
      var j := NamedWithin(sack, roots, level, x);
      assert false;
    }
  }

  lemma EmptyLevelDecides(sack: Sack, roots: set<Package>, level: nat, limit: nat, name: string, d: Option<nat>)
    requires 0 < level <= limit && OnLevel(sack, roots, level, {}) && IsDistance(sack, roots, name, level, d)
    ensures IsDistance(sack, roots, name, limit, d)
  {
    if d.None? {
      forall j | level <= j < limit ensures !NamedAt(sack, roots, name, j) {
        NamedAtReach(sack, roots, name, j);
        EmptyLevelEnds(sack, roots, level, j);
        if HasNamed(Reach(sack, roots, j), name) {
          var x :| x in Reach(sack, roots, j) && x.name == name;
          var i := NamedWithin(sack, roots, level, x);
          assert false;
        }
      }
    }
  }

  class DependencyWithDistance {
    const name: string
    const evra: string
    var distance: Option<nat>

    constructor (name: string, evra: string)
      ensures this.name == name && this.evra == evra && distance == None
    {
      this.name, this.evra, this.distance := name, evra, None;
    }
  }

  /** The last object with that name */
  function Last(deps: seq<DependencyWithDistance>, name: string): (r: Option<DependencyWithDistance>)
    ensures r.Some? ==> r.value in deps && r.value.name == name
    ensures r.None? ==> forall d | d in deps :: d.name != name
  {
    if deps == [] then None else
      var front, last := deps[..|deps| - 1], deps[|deps| - 1];
      if last.name == name then Some(last) else Last(front, name)
  }

  /** No object after it has the name. */
  lemma {:induction false} LastMeans(deps: seq<DependencyWithDistance>, name: string, d: DependencyWithDistance)
    ensures Last(deps, name) == Some(d) <==>
              exists i: nat | i < |deps| ::
                deps[i] == d && d.name == name && forall j | i < j < |deps| :: deps[j].name != name
  {
    if deps != [] {
      var n := |deps| - 1;
      LastMeans(deps[..n], name, d);
      if deps[n].name != name {
        if i: nat :| i < n && deps[..n][i] == d && d.name == name && forall j | i < j < n :: deps[..n][j].name != name {
          assert deps[i] == d && forall j | i < j < |deps| :: deps[j].name != name;
        }
        if i: nat :| i < |deps| && deps[i] == d && d.name == name && forall j | i < j < |deps| :: deps[j].name != name {
          assert deps[..n][i] == d && forall j | i < j < n :: deps[..n][j].name != name;
        }
      } else {
        assert deps[n] == deps[n];
      }
    }
  }

  ghost predicate IsNameMap(deps: seq<DependencyWithDistance>, depMap: map<string, DependencyWithDistance>) {
    && (forall d | d in deps :: d.name in depMap && Last(deps, d.name) == Some(depMap[d.name]))
    && (forall n | n in depMap :: Last(deps, n) == Some(depMap[n]))
  }

  method NameMap(deps: seq<DependencyWithDistance>) returns (depMap: map<string, DependencyWithDistance>)
    ensures IsNameMap(deps, depMap)
  {
    depMap := map[];
    for k := 0 to |deps|
      invariant IsNameMap(deps[..k], depMap)
    {
      ghost var upTo := deps[..k + 1];
      assert upTo[..k] == deps[..k] && upTo[k] == deps[k];
      depMap := depMap[deps[k].name := deps[k]];
    }
    assert deps[..|deps|] == deps;
  }

  ghost function Distances(depMap: map<string, DependencyWithDistance>): (ds: map<string, Option<nat>>)
    reads depMap.Values
  {
    map n | n in depMap :: depMap[n].distance
  }

  /** The distances after a level: every name on it that had none gets this one. */
  ghost function MarkedBy(ds: map<string, Option<nat>>, pkgs: set<Package>, level: nat): map<string, Option<nat>> {
    map n | n in ds :: if ds[n].None? && HasNamed(pkgs, n) then Some(level) else ds[n]
  }

  ghost predicate Marked(sack: Sack, roots: set<Package>, limit: nat, initial: map<string, Option<nat>>,
                         ds: map<string, Option<nat>>) {
    && initial.Keys == ds.Keys
    && forall n | n in ds :: if initial[n].Some? then ds[n] == initial[n] else IsDistance(sack, roots, n, limit, ds[n])
  }

  lemma MarksLevel(sack: Sack, roots: set<Package>, level: nat, pkgs: set<Package>,
                   initial: map<string, Option<nat>>, ds: map<string, Option<nat>>)
    requires OnLevel(sack, roots, level, pkgs) && Marked(sack, roots, level, initial, ds)
    ensures Marked(sack, roots, level + 1, initial, MarkedBy(ds, pkgs, level))
  {
    forall n | n in ds && initial[n].None? ensures IsDistance(sack, roots, n, level + 1, MarkedBy(ds, pkgs, level)[n]) {
      LevelDecides(sack, roots, level, pkgs, n, ds[n]);
    }
  }

  lemma MarksRest(sack: Sack, roots: set<Package>, level: nat, limit: nat,
                  initial: map<string, Option<nat>>, ds: map<string, Option<nat>>)
    requires 0 < level <= limit && OnLevel(sack, roots, level, {}) && Marked(sack, roots, level, initial, ds)
    ensures Marked(sack, roots, limit, initial, ds)
  {
    forall n | n in ds && initial[n].None? ensures IsDistance(sack, roots, n, limit, ds[n]) {
      EmptyLevelDecides(sack, roots, level, limit, n, ds[n]);
    }
  }

  lemma MarkOne(ds: map<string, Option<nat>>, done: set<Package>, pkg: Package, level: nat)
    ensures MarkedBy(ds, done + {pkg}, level) ==
              var now := MarkedBy(ds, done, level);
              if pkg.name in now && now[pkg.name].None? then now[pkg.name := Some(level)] else now
  {
    Done(done, pkg);
  }

  method MarkLevel(depMap: map<string, DependencyWithDistance>, pkgs: set<Package>, level: nat)
    requires forall n | n in depMap :: depMap[n].name == n
    modifies depMap.Values
    ensures Distances(depMap) == MarkedBy(old(Distances(depMap)), pkgs, level)
  {
    var todo := pkgs;
    ghost var done: set<Package> := {};
    ghost var ds := Distances(depMap);
    while todo != {}
      invariant done + todo == pkgs
      invariant Distances(depMap) == MarkedBy(ds, done, level)
    {
      var pkg :| pkg in todo;
      MarkOne(ds, done, pkg, level);
      if pkg.name in depMap {
        var dep := depMap[pkg.name];
        if dep.distance.None? {
          dep.distance := Some(level);
        }
      }
      todo := todo - {pkg};
      done := done + {pkg};
    }
    assert done == pkgs;
  }

  lemma Done(done: set<Package>, pkg: Package)
    ensures forall n :: HasNamed(done + {pkg}, n) <==> HasNamed(done, n) || n == pkg.name
  {
    forall n | HasNamed(done, n) || n == pkg.name ensures HasNamed(done + {pkg}, n) {
      if HasNamed(done, n) {
        var x :| x in done && x.name == n;
        assert x in done + {pkg};
      } else {
        assert pkg in done + {pkg};
      }
    }
  }

  /** The levels of the search, from the roots on */
  method Search(sack: Sack, roots: set<Package>, depMap: map<string, DependencyWithDistance>)
    requires forall n | n in depMap :: depMap[n].name == n
    modifies depMap.Values
    ensures Marked(sack, roots, DEPTH_LIMIT, old(Distances(depMap)), Distances(depMap))
  {
    var visited: set<Package> := {};
    var level := 1;
    var pkgsOnLevel := roots;
    ghost var initial := Distances(depMap);
    while pkgsOnLevel != {}
      invariant 1 <= level < DEPTH_LIMIT
      invariant visited == Within(sack, roots, level) && OnLevel(sack, roots, level, pkgsOnLevel)
      invariant Marked(sack, roots, level, initial, Distances(depMap))
      decreases DEPTH_LIMIT - level
    {
      MarksLevel(sack, roots, level, pkgsOnLevel, initial, Distances(depMap));
      MarkLevel(depMap, pkgsOnLevel, level);
      level := level + 1;
      if level >= DEPTH_LIMIT {
        break;
      }
      var reldeps := set p, r | p in pkgsOnLevel && p !in visited && r in p.requirements :: r;
      NextLevel(sack, roots, level - 1, pkgsOnLevel, reldeps);
      visited := visited + pkgsOnLevel;
      pkgsOnLevel := Providers(sack, reldeps);
    }
    if level < DEPTH_LIMIT {
      MarksRest(sack, roots, level, DEPTH_LIMIT, initial, Distances(depMap));
    }
  }

  /** Objects that already have a distance keep it; each other one, the last of its name, gets the length
      of the shortest path, if it is at most 4. */
  method ComputeDependencyDistances(sack: Sack, br: seq<Reldep>, deps: seq<DependencyWithDistance>)
    modifies set d | d in deps
    ensures forall d | d in deps :: if old(d.distance).None? && Last(deps, d.name) == Some(d) then
                IsDistance(sack, Roots(sack, br), d.name, 5, d.distance)
              else
                d.distance == old(d.distance)
  {
    var depMap := NameMap(deps);
    ghost var initial := Distances(depMap);
    Search(sack, Roots(sack, br), depMap);
    forall d | d in deps
      ensures if old(d.distance).None? && Last(deps, d.name) == Some(d) then
                IsDistance(sack, Roots(sack, br), d.name, DEPTH_LIMIT, d.distance)
              else
                d.distance == old(d.distance)
    {
      if Last(deps, d.name) == Some(d) {
        assert initial[d.name] == old(d.distance) && Distances(depMap)[d.name] == d.distance;
      } else {
        assert d !in depMap.Values;
      }
    }
  }
}
