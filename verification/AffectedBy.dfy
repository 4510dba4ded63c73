/** The query of the affected-by page: which dependency changes touch a window of EVRs. */
module AffectedBy {
  import opened Wrappers
  import opened RpmVersion

  datatype Dependency = Dependency(name: string, evr: Evr, arch: string)

  type Dependencies = map<nat, Dependency>

  datatype AppliedChange = AppliedChange(id: nat, prevDep: Option<nat>, currDep: Option<nat>)

  // SQL comparisons on Dependency.evr are calls of rpmvercmp_evr.

  /** Dependencies in the evr1 to evr2 interval */
  function DepsIn(deps: Dependencies, name: string, evr1: Evr, evr2: Evr): set<nat> {
    set i | i in deps && deps[i].name == name && EvrCmp(deps[i].evr, evr1) > 0 && EvrCmp(deps[i].evr, evr2) < 0
  }

  /** Dependencies with greater or equal evr than evr2 */
  function DepsHigher(deps: Dependencies, name: string, evr2: Evr): set<nat> {
    set i | i in deps && deps[i].name == name && EvrCmp(deps[i].evr, evr2) >= 0
  }

  /** Dependencies with lesser or equal evr than evr1 */
  function DepsLower(deps: Dependencies, name: string, evr1: Evr): set<nat> {
    set i | i in deps && deps[i].name == name && EvrCmp(deps[i].evr, evr1) <= 0
  }

  /** id IN (...), which a NULL id is not */
  predicate IdIn(id: Option<nat>, ids: set<nat>) {
    id.Some? && id.value in ids
  }

  /** The union of the three queries. */
  function FilteredChanges(deps: Dependencies, changes: set<AppliedChange>, name: string, evr1: Evr,
                           evr2: Evr): set<AppliedChange> {
    (set c | c in changes && IdIn(c.prevDep, DepsIn(deps, name, evr1, evr2)))
    + (set c | c in changes && IdIn(c.currDep, DepsIn(deps, name, evr1, evr2)))
    + (set c | c in changes && IdIn(c.prevDep, DepsLower(deps, name, evr1)) &&
        IdIn(c.currDep, DepsHigher(deps, name, evr2)))
  }

  /** The changes that survive the inner joins with their two dependencies. */
  function ListedChanges(deps: Dependencies, changes: set<AppliedChange>, name: string, evr1: Evr,
                         evr2: Evr): set<AppliedChange> {
    set c | c in FilteredChanges(deps, changes, name, evr1, evr2) && IdIn(c.prevDep, deps.Keys) &&
        IdIn(c.currDep, deps.Keys)
  }

  predicate Before(x: Evr, y: Evr) { EvrCmp(x, y) < 0 }

  predicate IsChangeOf(deps: Dependencies, c: AppliedChange, name: string) {
    && IdIn(c.prevDep, deps.Keys) && IdIn(c.currDep, deps.Keys)
    && deps[c.prevDep.value].name == name && deps[c.currDep.value].name == name
  }

  /** The interval between the two EVRs of a change meets the window between `evr1` and `evr2`. */
  predicate Overlaps(prev: Evr, curr: Evr, evr1: Evr, evr2: Evr) {
    if Before(curr, prev) then Before(curr, evr2) && Before(evr1, prev)
    else Before(prev, evr2) && Before(evr1, curr)
  }

  /** A downgrade from the far side of the window to the near side. */
  predicate DropsAcross(prev: Evr, curr: Evr, evr1: Evr, evr2: Evr) {
    !Before(prev, evr2) && !Before(evr1, curr)
  }

  predicate Selected(prev: Evr, curr: Evr, evr1: Evr, evr2: Evr) {
    || (Before(evr1, prev) && Before(prev, evr2))
    || (Before(evr1, curr) && Before(curr, evr2))
    || (!Before(evr1, prev) && !Before(curr, evr2))
  }

  lemma BeforeOrder(x: Evr, y: Evr)
    requires Comparable(x) && Comparable(y)
    ensures !(Before(x, y) && Before(y, x))
    ensures EvrCmp(x, y) > 0 <==> Before(y, x)
    ensures EvrCmp(x, y) <= 0 <==> !Before(y, x)
    ensures EvrCmp(x, y) >= 0 <==> !Before(x, y)
  {
    EvrCmpOrder(x, y);
  }

  /** A strict weak order: what is not below `y` and above `x` lies between. */
  lemma BeforeMixes(x: Evr, y: Evr, z: Evr)
    requires Comparable(x) && Comparable(y) && Comparable(z)
    ensures Before(x, y) && !Before(z, y) ==> Before(x, z)
    ensures !Before(y, x) && Before(y, z) ==> Before(x, z)
  {
    EvrCmpOrder(x, y);
    EvrCmpOrder(y, z);
    EvrCmpOrder(x, z);
    if !(Before(x, z)) {
      if Before(x, y) && !Before(z, y) {
        EvrCmpTransitive(y, z, x);
      }
      if !Before(y, x) && Before(y, z) {
        EvrCmpTransitive(z, x, y);
      }
    }
  }

  lemma SelectedIsOverlap(prev: Evr, curr: Evr, evr1: Evr, evr2: Evr)
    requires Comparable(prev) && Comparable(curr) && Comparable(evr1) && Comparable(evr2) && Before(evr1, evr2)
    ensures Selected(prev, curr, evr1, evr2) <==>
        Overlaps(prev, curr, evr1, evr2) && !DropsAcross(prev, curr, evr1, evr2)
  {
    BeforeOrder(prev, curr);
    BeforeOrder(prev, evr1);
    BeforeOrder(prev, evr2);
    BeforeOrder(curr, evr1);
    BeforeOrder(curr, evr2);
    BeforeMixes(evr1, prev, curr);
    BeforeMixes(prev, curr, evr2);
    BeforeMixes(evr1, curr, prev);
    BeforeMixes(curr, prev, evr2);
    BeforeMixes(prev, evr1, evr2);
    BeforeMixes(curr, evr1, evr2);
    BeforeMixes(evr1, evr2, prev);
    BeforeMixes(evr1, evr2, curr);
    BeforeMixes(prev, curr, evr1);
    BeforeMixes(curr, prev, evr1);
    BeforeMixes(evr2, prev, curr);
    BeforeMixes(evr2, curr, prev);
  }

  /** The page lists a change exactly when its interval meets the window, except for a downgrade across
      the whole window, which it misses. */
  lemma ListedExactly(deps: Dependencies, changes: set<AppliedChange>, name: string, evr1: Evr, evr2: Evr,
                      c: AppliedChange)
    requires c in changes && IsChangeOf(deps, c, name)
    requires Comparable(deps[c.prevDep.value].evr) && Comparable(deps[c.currDep.value].evr)
    requires Comparable(evr1) && Comparable(evr2) && Before(evr1, evr2)
    ensures var prev, curr := deps[c.prevDep.value].evr, deps[c.currDep.value].evr;
      c in ListedChanges(deps, changes, name, evr1, evr2) <==>
        Overlaps(prev, curr, evr1, evr2) && !DropsAcross(prev, curr, evr1, evr2)
  {
    var prev, curr := deps[c.prevDep.value].evr, deps[c.currDep.value].evr;
    BeforeOrder(prev, evr1);
    BeforeOrder(prev, evr2);
    BeforeOrder(curr, evr1);
    BeforeOrder(curr, evr2);
    SelectedIsOverlap(prev, curr, evr1, evr2);
  }

  /** For an upgrade the three-way union is the plain interval test. */
  lemma UpgradeListedExactly(deps: Dependencies, changes: set<AppliedChange>, name: string, evr1: Evr, evr2: Evr,
                             c: AppliedChange)
    requires c in changes && IsChangeOf(deps, c, name)
    requires Comparable(deps[c.prevDep.value].evr) && Comparable(deps[c.currDep.value].evr)
    requires Comparable(evr1) && Comparable(evr2) && Before(evr1, evr2)
    requires Before(deps[c.prevDep.value].evr, deps[c.currDep.value].evr)
    ensures c in ListedChanges(deps, changes, name, evr1, evr2) <==>
      Before(deps[c.prevDep.value].evr, evr2) && Before(evr1, deps[c.currDep.value].evr)
  {
    var prev, curr := deps[c.prevDep.value].evr, deps[c.currDep.value].evr;
    ListedExactly(deps, changes, name, evr1, evr2, c);
    BeforeOrder(prev, curr);
    BeforeMixes(prev, curr, evr2);
    BeforeMixes(evr1, evr2, curr);
    BeforeMixes(prev, evr1, evr2);
  }

  /** A downgrade from epoch 3 to epoch 1 crosses the window from 1 to 2 and is not listed. */
  lemma DowngradeUnlisted() returns (deps: Dependencies, c: AppliedChange, evr1: Evr, evr2: Evr)
    ensures IsChangeOf(deps, c, "a") && Before(evr1, evr2)
    ensures Overlaps(deps[c.prevDep.value].evr, deps[c.currDep.value].evr, evr1, evr2)
    ensures c !in ListedChanges(deps, {c}, "a", evr1, evr2)
  {
    evr1, evr2 := Evr(Some(1), "1", "1"), Evr(Some(2), "1", "1");
    deps := map[1 := Dependency("a", Evr(Some(3), "1", "1"), "noarch"), 2 := Dependency("a", evr1, "noarch")];
    c := AppliedChange(1, Some(1), Some(2));
    assert IsNumber(Segments("1")[0]);
    EvrCmpOrder(evr1, evr1);
    ListedExactly(deps, {c}, "a", evr1, evr2, c);
  }

  /** Everything listed joins two dependencies, at least one of them of the name asked for. */
  lemma ListsOnlyChangesOf(deps: Dependencies, changes: set<AppliedChange>, name: string, evr1: Evr, evr2: Evr,
                           c: AppliedChange)
    requires c in ListedChanges(deps, changes, name, evr1, evr2)
    ensures c in changes && IdIn(c.prevDep, deps.Keys) && IdIn(c.currDep, deps.Keys)
    ensures deps[c.prevDep.value].name == name || deps[c.currDep.value].name == name
    ensures deps[c.prevDep.value].name == deps[c.currDep.value].name ==> IsChangeOf(deps, c, name)
  {
  }
}
