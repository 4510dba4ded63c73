/** The dependency history of a package, told from the rows stored for its builds, when builds are
    resolved in whatever order. */
module DependencyHistory {
  import opened Wrappers
  import opened DependencyCache
  import opened DependencyChanges
  import opened BuildResolver

  /** A resolved build: `base` is what its rows were compared with, its own dependencies if it has none;
      `kept` while it has its dependency list. */
  datatype Entry = Entry(build: BuildId, started: int, deps: set<Nevra>, base: set<Nevra>, kept: bool)

  ghost predicate Sorted(log: seq<Entry>) {
    forall i, j | 0 <= i < j < |log| :: log[i].started < log[j].started
  }

  /** How many builds of the history started before `t` */
  function Before(log: seq<Entry>, t: int): (k: nat)
    ensures k <= |log| && (forall i | 0 <= i < k :: log[i].started < t)
    ensures k < |log| ==> log[k].started >= t
  {
    if log == [] || log[0].started >= t then 0 else 1 + Before(log[1..], t)
  }

  /** The build before position `k` gives up its list. */
  function GivenUp(log: seq<Entry>, k: nat): (r: seq<Entry>)
    requires k <= |log|
    ensures |r| == |log|
  {
    if k == 0 then log else log[k - 1 := log[k - 1].(kept := false)]
  }

  function NewEntry(log: seq<Entry>, k: nat, b: BuildId, t: int, deps: set<Nevra>): Entry
    requires k <= |log|
  {
    Entry(b, t, deps, if k > 0 && log[k - 1].kept then log[k - 1].deps else deps, true)
  }

  /** The history with one more build, wherever it belongs */
  function Enter(log: seq<Entry>, b: BuildId, t: int, deps: set<Nevra>): seq<Entry> {
    var k := Before(log, t);
    GivenUp(log, k)[..k] + [NewEntry(log, k, b, t, deps)] + GivenUp(log, k)[k..]
  }

  lemma EnterAt(log: seq<Entry>, b: BuildId, t: int, deps: set<Nevra>)
    ensures
      var k, log' := Before(log, t), Enter(log, b, t, deps);
      && |log'| == |log| + 1 && log'[k] == NewEntry(log, k, b, t, deps)
      && (forall i | 0 <= i < k :: log'[i] == log[i].(kept := log[i].kept && i + 1 != k))
      && (forall i | k < i < |log'| :: log'[i] == log[i - 1])
  {
  }

  ghost predicate WellNamed(deps: set<Nevra>) {
    deps != {} && OneName(deps)
  }

  /** A resolution within reach of replay: binary packages, at least one, no two with one name. */
  ghost predicate Clean(deps: seq<Installed>) {
    (forall d | d in deps :: d.nevra.arch != "src") && WellNamed(NevrasOf(deps))
  }

  /** The tables say about a build what its entry does. */
  ghost predicate Mirrored(db: Db, p: PackageId, e: Entry) {
    && e.build in db.builds && IsResolved(db.builds[e.build], p) && db.builds[e.build].started == e.started
    && (if e.kept then KeyNevras(db.table, Keys(db.builds, Some(e.build))) == e.deps
        else Keys(db.builds, Some(e.build)) == [])
    && Prevs(db.table, RowsOf(db.applied, e.build)) == e.base - e.deps
    && Currs(db.table, RowsOf(db.applied, e.build)) == e.deps - e.base
    && WellNamed(e.deps)
  }

  ghost predicate Complete(builds: Builds, p: PackageId, log: seq<Entry>) {
    forall b | b in builds && IsResolved(builds[b], p) :: exists e :: e in log && e.build == b
  }

  ghost predicate Mirrors(db: Db, p: PackageId, log: seq<Entry>) {
    Sorted(log) && Complete(db.builds, p, log) && forall e | e in log :: Mirrored(db, p, e)
  }

  ghost predicate Distinct(builds: Builds, p: PackageId) {
    forall b, c | b in builds && c in builds && builds[b].package == p == builds[c].package
                  && builds[b].started == builds[c].started :: b == c
  }

  // One step

  lemma EnterSorted(log: seq<Entry>, b: BuildId, t: int, deps: set<Nevra>)
    requires Sorted(log) && forall e | e in log :: e.started != t
    ensures Sorted(Enter(log, b, t, deps))
  {
    EnterAt(log, b, t, deps);
    var k, log' := Before(log, t), Enter(log, b, t, deps);
    if k < |log| {
      assert log[k] in log;
    }
    forall i, j | 0 <= i < j < |log'| ensures log'[i].started < log'[j].started {
      if j > k {
        assert j == k + 1 || log[k].started < log[j - 1].started;
      }
    }
  }

  lemma EnterKeeps(log: seq<Entry>, b: BuildId, t: int, deps: set<Nevra>, e: Entry)
    requires e in log
    ensures exists e' :: e' in Enter(log, b, t, deps) && e'.build == e.build
    ensures exists e' :: e' in Enter(log, b, t, deps) && e'.build == b
  {
    EnterAt(log, b, t, deps);
    var k, log' := Before(log, t), Enter(log, b, t, deps);
    assert log'[k] in log' && log'[k].build == b;
    var i :| 0 <= i < |log| && log[i] == e;
    if i < k {
      assert log'[i] in log' && log'[i].build == e.build;
    } else {
      assert log'[i + 1] in log' && log'[i + 1].build == e.build;
    }
  }

  lemma EntriesDiffer(log: seq<Entry>, db: Db, p: PackageId, i: nat, j: nat)
    requires Mirrors(db, p, log) && i < |log| && j < |log| && i != j
    ensures log[i].build != log[j].build
  {
    assert log[i] in log && log[j] in log;
    assert log[i].started != log[j].started;
  }

  lemma BeforeIs(log: seq<Entry>, t: int)
    requires Sorted(log)
    ensures forall i | 0 <= i < |log| :: i < Before(log, t) <==> log[i].started < t
  {
    var k := Before(log, t);
    forall i | k <= i < |log| ensures log[i].started >= t {
      assert log[k].started <= log[i].started;
    }
  }

  lemma CandidateAt(db: Db, p: PackageId, log: seq<Entry>, b: BuildId, i: nat)
    requires Mirrors(db, p, log) && b in db.builds && db.builds[b].package == p && i < |log|
    ensures IsCandidate(db.builds, b, log[i].build) <==> i < Before(log, db.builds[b].started)
    ensures log[i].build in db.builds && db.builds[log[i].build].started == log[i].started
  {
    assert log[i] in log && Mirrored(db, p, log[i]);
    BeforeIs(log, db.builds[b].started);
  }

  lemma PlaceOfCandidate(db: Db, p: PackageId, log: seq<Entry>, b: BuildId, c: BuildId) returns (i: nat)
    requires Complete(db.builds, p, log) && b in db.builds && db.builds[b].package == p && IsCandidate(db.builds, b, c)
    ensures i < |log| && log[i].build == c
  {
    var e :| e in log && e.build == c;
    i :| 0 <= i < |log| && log[i] == e;
  }

  lemma SortedAt(log: seq<Entry>, i: nat, j: nat)
    requires Sorted(log) && i < |log| && j < |log| && log[i].started >= log[j].started
    ensures i >= j
  {
  }

  /** The build that a new one is compared with is the one before it in the history. */
  lemma PrevIsBefore(db: Db, p: PackageId, log: seq<Entry>, b: BuildId, prev: Option<BuildId>)
    requires Mirrors(db, p, log) && b in db.builds && db.builds[b].package == p && IsPrev(db.builds, b, prev)
    ensures
      var k := Before(log, db.builds[b].started);
      prev == if k == 0 then None else Some(log[k - 1].build)
  {
    var k := Before(log, db.builds[b].started);
    if k > 0 {
      CandidateAt(db, p, log, b, k - 1);
    }
    if prev.Some? {
      var i := PlaceOfCandidate(db, p, log, b, prev.value);
      CandidateAt(db, p, log, b, i);
      SortedAt(log, i, k - 1);
    }
  }

  lemma PlaceOf(log: seq<Entry>, i: nat, k: nat)
    requires i < |log| && k <= |log| && forall j | 0 <= j < |log| && j != i :: log[j].build != log[i].build
    ensures (if k == 0 then None else Some(log[k - 1].build)) == Some(log[i].build) <==> i + 1 == k
  {
  }

  lemma PrevAt(db: Db, p: PackageId, log: seq<Entry>, b: BuildId, prev: Option<BuildId>, i: nat)
    requires Mirrors(db, p, log) && b in db.builds && db.builds[b].package == p && IsPrev(db.builds, b, prev)
    requires i < |log|
    ensures prev == Some(log[i].build) <==> i + 1 == Before(log, db.builds[b].started)
  {
    PrevIsBefore(db, p, log, b, prev);
    forall j | 0 <= j < |log| && j != i ensures log[j].build != log[i].build {
      EntriesDiffer(log, db, p, i, j);
    }
    PlaceOf(log, i, Before(log, db.builds[b].started));
  }

  lemma SidesExtend(table: Table, table': Table, rows: set<Change>)
    requires Extends(table, table') && forall c | c in rows :: Known(table, c)
    ensures Prevs(table', rows) == Prevs(table, rows) && Currs(table', rows) == Currs(table, rows)
  {
  }

  lemma RowsOfOthers(db: Db, db': Db, b: BuildId, rows: set<Change>, c: BuildId)
    requires db'.applied == db.applied + (set r | r in rows :: AppliedChange(b, r))
    ensures c != b ==> RowsOf(db'.applied, c) == RowsOf(db.applied, c)
    ensures (forall r | r in db.applied :: r.build != b) ==> RowsOf(db'.applied, b) == rows
  {
    if c != b {
      forall x | x in RowsOf(db'.applied, c) ensures x in RowsOf(db.applied, c) {
        assert AppliedChange(c, x) in db.applied;
      }
      forall x | x in RowsOf(db.applied, c) ensures x in RowsOf(db'.applied, c) {
        assert AppliedChange(c, x) in db'.applied;
      }
    }
    if forall r | r in db.applied :: r.build != b {
      forall x | x in RowsOf(db'.applied, b) ensures x in rows {
        assert AppliedChange(b, x) in db'.applied;
      }
      forall x | x in rows ensures x in RowsOf(db'.applied, b) {
        assert AppliedChange(b, x) in db'.applied;
      }
    }
  }

  lemma RowsKnown(db: Db, b: BuildId)
    requires Consistent(db)
    ensures forall c | c in RowsOf(db.applied, b) :: Known(db.table, c)
  {
    forall c | c in RowsOf(db.applied, b) ensures Known(db.table, c) {
      assert AppliedChange(b, c) in db.applied;
    }
  }

  /** The entry of a build that the step leaves alone, or one whose list it takes. */
  lemma StillMirrored(db: Db, db': Db, p: PackageId, b: BuildId, rows: set<Change>, e: Entry, kept: bool)
    requires Consistent(db) && Extends(db.table, db'.table) && Mirrored(db, p, e) && e.build != b
    requires db'.applied == db.applied + (set r | r in rows :: AppliedChange(b, r))
    requires e.build in db'.builds
    requires db'.builds[e.build] == db.builds[e.build].(dependencyKeys := db'.builds[e.build].dependencyKeys)
    requires if kept then db'.builds[e.build] == db.builds[e.build] && e.kept else Keys(db'.builds, Some(e.build)) == []
    ensures Mirrored(db', p, e.(kept := kept))
  {
    RowsOfOthers(db, db', b, rows, e.build);
    RowsKnown(db, e.build);
    SidesExtend(db.table, db'.table, RowsOf(db.applied, e.build));
    KeysExtend(db.table, db'.table, Keys(db.builds, Some(e.build)));
  }

  /** The rows of a resolution tell the difference to the list of `prev`, if it has one. */
  lemma RowsTellDifference(db: Db, db': Db, step: Step)
    requires Consistent(db) && step.Resolve? && Takes(db, db', step) && Clean(step.deps)
    requires Keys(db.builds, step.prev) != [] ==> OneName(KeyNevras(db.table, Keys(db.builds, step.prev)))
    ensures
      var deps, keys := NevrasOf(step.deps), Keys(db.builds, step.prev);
      var base := if keys == [] then deps else KeyNevras(db.table, keys);
      && Prevs(db'.table, RowsOf(db'.applied, step.build)) == base - deps
      && Currs(db'.table, RowsOf(db'.applied, step.build)) == deps - base
  {
    RowsOfOthers(db, db', step.build, step.changes.Values, step.build);
    var deps, keys := NevrasOf(step.deps), Keys(db.builds, step.prev);
    if keys != [] {
      var base := KeyNevras(db.table, keys);
      PrevsAreRemoved(db'.table, base - deps, Added(step.deps, base), step.changes);
      CurrsAreAdded(db'.table, base - deps, Added(step.deps, base), step.changes);
    }
  }

  lemma ResolveSchedule(db: Db, db': Db, step: Step)
    requires step.Resolve? && Takes(db, db', step)
    ensures SameSchedule(db.builds, db'.builds, step.build) && db'.builds[step.build].depsResolved == Some(true)
    ensures forall c | c in db.builds && c != step.build :: db'.builds[c] ==
              if Some(c) == step.prev then db.builds[c].(dependencyKeys := None) else db.builds[c]
    ensures step.prev != Some(step.build)
  {
  }

  lemma ResolvedIsMirrored(db: Db, db': Db, step: Step, p: PackageId, base: set<Nevra>)
    requires Consistent(db) && step.Resolve? && Takes(db, db', step) && Clean(step.deps)
    requires db.builds[step.build].package == p
    requires var keys := Keys(db.builds, step.prev);
      if keys == [] then base == NevrasOf(step.deps) else base == KeyNevras(db.table, keys) && OneName(base)
    ensures Mirrored(db', p, Entry(step.build, db.builds[step.build].started, NevrasOf(step.deps), base, true))
  {
    ResolveSchedule(db, db', step);
    RowsTellDifference(db, db', step);
  }

  /** What is compared with: the dependencies of the entry before, if it has kept its list */
  lemma NewBase(db: Db, p: PackageId, log: seq<Entry>, b: BuildId, prev: Option<BuildId>, deps: set<Nevra>)
    requires Mirrors(db, p, log) && b in db.builds && db.builds[b].package == p && IsPrev(db.builds, b, prev)
    ensures
      var t, keys := db.builds[b].started, Keys(db.builds, prev);
      var base := NewEntry(log, Before(log, t), b, t, deps).base;
      if keys == [] then base == deps else base == KeyNevras(db.table, keys) && OneName(base)
  {
    var k := Before(log, db.builds[b].started);
    PrevIsBefore(db, p, log, b, prev);
    if k > 0 {
      assert log[k - 1] in log && Mirrored(db, p, log[k - 1]);
    }
  }

  lemma NewIsMirrored(db: Db, db': Db, step: Step, p: PackageId, log: seq<Entry>)
    requires Consistent(db) && step.Resolve? && Takes(db, db', step) && Clean(step.deps) && Mirrors(db, p, log)
    requires db.builds[step.build].package == p
    ensures
      var t := db.builds[step.build].started;
      Mirrored(db', p, NewEntry(log, Before(log, t), step.build, t, NevrasOf(step.deps)))
  {
    var t, deps := db.builds[step.build].started, NevrasOf(step.deps);
    NewBase(db, p, log, step.build, step.prev, deps);
    ResolvedIsMirrored(db, db', step, p, NewEntry(log, Before(log, t), step.build, t, deps).base);
  }

  lemma OldRow(db: Db, db': Db, step: Step, p: PackageId, log: seq<Entry>, i: nat)
    requires step.Resolve? && Takes(db, db', step) && Mirrors(db, p, log) && i < |log|
    requires db.builds[step.build].package == p
    ensures
      var k, b := Before(log, db.builds[step.build].started), log[i].build;
      b in db.builds && b in db'.builds && b != step.build
      && db'.builds[b] == if i + 1 == k then db.builds[b].(dependencyKeys := None) else db.builds[b]
  {
    assert log[i] in log && Mirrored(db, p, log[i]);
    PrevAt(db, p, log, step.build, step.prev, i);
    ResolveSchedule(db, db', step);
  }

  lemma OldIsMirrored(db: Db, db': Db, step: Step, p: PackageId, log: seq<Entry>, i: nat)
    requires Consistent(db) && step.Resolve? && Takes(db, db', step) && Mirrors(db, p, log) && i < |log|
    requires db.builds[step.build].package == p
    ensures
      var k := Before(log, db.builds[step.build].started);
      Mirrored(db', p, log[i].(kept := log[i].kept && i + 1 != k))
  {
    var k, e := Before(log, db.builds[step.build].started), log[i];
    assert e in log && Mirrored(db, p, e);
    OldRow(db, db', step, p, log, i);
    StillMirrored(db, db', p, step.build, step.changes.Values, e, e.kept && i + 1 != k);
  }

  lemma CompleteAfter(db: Db, db': Db, step: Step, p: PackageId, log: seq<Entry>)
    requires step.Resolve? && Takes(db, db', step) && Complete(db.builds, p, log)
    requires db.builds[step.build].package == p
    ensures Complete(db'.builds, p, Enter(log, step.build, db.builds[step.build].started, NevrasOf(step.deps)))
  {
    ResolveSchedule(db, db', step);
    var t, deps := db.builds[step.build].started, NevrasOf(step.deps);
    EnterAt(log, step.build, t, deps);
    forall c | c in db'.builds && IsResolved(db'.builds[c], p)
      ensures exists e :: e in Enter(log, step.build, t, deps) && e.build == c
    {
      if c == step.build {
        assert Enter(log, step.build, t, deps)[Before(log, t)].build == c;
      } else {
        var e :| e in log && e.build == c;
        EnterKeeps(log, step.build, t, deps, e);
      }
    }
  }

  /** Resolving a build enters it into the history of its package, at its place. */
  lemma ResolveEnters(db: Db, db': Db, step: Step, p: PackageId, log: seq<Entry>)
    requires Consistent(db) && step.Resolve? && Takes(db, db', step) && Clean(step.deps) && Mirrors(db, p, log)
    requires db.builds[step.build].package == p && Distinct(db.builds, p)
    ensures Mirrors(db', p, Enter(log, step.build, db.builds[step.build].started, NevrasOf(step.deps)))
  {
    var t, deps := db.builds[step.build].started, NevrasOf(step.deps);
    var log' := Enter(log, step.build, t, deps);
    forall e | e in log ensures e.started != t {
      assert Mirrored(db, p, e);
    }
    EnterSorted(log, step.build, t, deps);
    CompleteAfter(db, db', step, p, log);
    forall e | e in log' ensures Mirrored(db', p, e) {
      var i :| 0 <= i < |log'| && log'[i] == e;
      EntryIsMirrored(db, db', step, p, log, i);
    }
  }

  lemma EntryIsMirrored(db: Db, db': Db, step: Step, p: PackageId, log: seq<Entry>, i: nat)
    requires Consistent(db) && step.Resolve? && Takes(db, db', step) && Clean(step.deps) && Mirrors(db, p, log)
    requires db.builds[step.build].package == p
    requires i < |Enter(log, step.build, db.builds[step.build].started, NevrasOf(step.deps))|
    ensures Mirrored(db', p, Enter(log, step.build, db.builds[step.build].started, NevrasOf(step.deps))[i])
  {
    var t, deps := db.builds[step.build].started, NevrasOf(step.deps);
    var k := Before(log, t);
    EnterAt(log, step.build, t, deps);
    if i < k {
      OldIsMirrored(db, db', step, p, log, i);
    } else if i == k {
      NewIsMirrored(db, db', step, p, log);
    } else {
      OldIsMirrored(db, db', step, p, log, i - 1);
      assert log[i - 1].(kept := log[i - 1].kept) == log[i - 1];
    }
  }

  predicate ResolvesOf(db: Db, step: Step, p: PackageId) {
    step.Resolve? && step.build in db.builds && db.builds[step.build].package == p
  }

  /** Every other step leaves the history of the package as it is. */
  lemma OthersKeepMirrors(db: Db, db': Db, step: Step, p: PackageId, log: seq<Entry>)
    requires Consistent(db) && Takes(db, db', step) && Mirrors(db, p, log) && !ResolvesOf(db, step, p)
    ensures Mirrors(db', p, log)
  {
    var rows := if step.Resolve? then step.changes.Values else {};
    if step.Resolve? {
      ResolveSchedule(db, db', step);
    } else {
      assert db'.applied == db.applied + (set r | r in rows :: AppliedChange(step.build, r));
    }
    forall e | e in log ensures Mirrored(db', p, e) {
      assert Mirrored(db, p, e);
      StillMirrored(db, db', p, step.build, rows, e, e.kept);
    }
    forall b | b in db'.builds && IsResolved(db'.builds[b], p) ensures exists e :: e in log && e.build == b {
      assert b in db.builds && IsResolved(db.builds[b], p);
    }
  }

  // When the history replays

  /** The rows of an entry lead from the dependencies before it to its own. */
  ghost predicate ReplaysAt(db: Db, log: seq<Entry>, i: nat)
    requires 0 < i < |log|
  {
    Replay(db.table, log[i - 1].deps, RowsOf(db.applied, log[i].build)) == log[i].deps
  }

  /** What came before the entry lies between its dependencies and what they were compared with. */
  predicate Fits(log: seq<Entry>, i: nat)
    requires 0 < i < |log|
  {
    log[i].deps * log[i].base <= log[i - 1].deps <= log[i].deps + log[i].base
  }

  lemma DifferenceReplays(before: set<Nevra>, base: set<Nevra>, deps: set<Nevra>)
    ensures before - (base - deps) + (deps - base) == deps <==> deps * base <= before <= deps + base
  {
    var after := before - (base - deps) + (deps - base);
    if after == deps {
      forall n | n in deps * base ensures n in before {
        assert n in after;
      }
      forall n | n in before ensures n in deps + base {
        assert n !in base - deps ==> n in after;
      }
    }
    if deps * base <= before <= deps + base {
      forall n | n in deps ensures n in after {
      }
    }
  }

  lemma ReplaysAtExactly(db: Db, p: PackageId, log: seq<Entry>, i: nat)
    requires Mirrors(db, p, log) && 0 < i < |log|
    ensures ReplaysAt(db, log, i) <==> Fits(log, i)
  {
    assert log[i] in log && Mirrored(db, p, log[i]);
    DifferenceReplays(log[i - 1].deps, log[i].base, log[i].deps);
  }

  /** The dependencies of the first resolved build, changed by the rows of the next `k` ones */
  ghost function ReplayOver(db: Db, log: seq<Entry>, k: nat): set<Nevra>
    requires k < |log|
  {
    if k == 0 then log[0].deps else Replay(db.table, ReplayOver(db, log, k - 1), RowsOf(db.applied, log[k].build))
  }

  ghost predicate Replays(db: Db, log: seq<Entry>) {
    forall k | 0 <= k < |log| :: ReplayOver(db, log, k) == log[k].deps
  }

  predicate AllFit(log: seq<Entry>) {
    forall i | 0 < i < |log| :: Fits(log, i)
  }

  lemma {:induction false} FittingReplays(db: Db, p: PackageId, log: seq<Entry>, k: nat)
    requires Mirrors(db, p, log) && AllFit(log) && k < |log|
    ensures ReplayOver(db, log, k) == log[k].deps
  {
    if k > 0 {
      FittingReplays(db, p, log, k - 1);
      assert Fits(log, k);
      ReplaysAtExactly(db, p, log, k);
    }
  }

  /** The rows of a package's builds replay its history exactly when every entry fits the one before. */
  lemma ReplaysExactly(db: Db, p: PackageId, log: seq<Entry>)
    requires Mirrors(db, p, log)
    ensures Replays(db, log) <==> AllFit(log)
  {
    if AllFit(log) {
      forall k | 0 <= k < |log| ensures ReplayOver(db, log, k) == log[k].deps {
        FittingReplays(db, p, log, k);
      }
    }
    if Replays(db, log) {
      forall i | 0 < i < |log| ensures Fits(log, i) {
        assert ReplayOver(db, log, i - 1) == log[i - 1].deps && ReplayOver(db, log, i) == log[i].deps;
        ReplaysAtExactly(db, p, log, i);
      }
    }
  }

  // Order

  ghost predicate InOrder(builds: Builds, b: BuildId)
    requires b in builds
  {
    forall c | c in builds && IsResolved(builds[c], builds[b].package) :: builds[c].started < builds[b].started
  }

  lemma InOrderIsLast(db: Db, p: PackageId, log: seq<Entry>, b: BuildId)
    requires Mirrors(db, p, log) && b in db.builds && db.builds[b].package == p
    ensures InOrder(db.builds, b) <==> Before(log, db.builds[b].started) == |log|
  {
    var t := db.builds[b].started;
    if Before(log, t) == |log| {
      forall c | c in db.builds && IsResolved(db.builds[c], p) ensures db.builds[c].started < t {
        var e :| e in log && e.build == c;
        assert Mirrored(db, p, e);
      }
    } else {
      var e := log[Before(log, t)];
      assert e in log && Mirrored(db, p, e);
    }
  }

  /** Each build is compared with the one before it, and only the last one keeps its list. */
  predicate Straight(log: seq<Entry>) {
    && (forall i | 0 <= i < |log| :: log[i].kept <==> i == |log| - 1)
    && (forall i | 0 <= i < |log| :: log[i].base == Preceding(log, i))
  }

  /** The dependencies of the build before, or of the first one itself */
  function Preceding(log: seq<Entry>, i: nat): set<Nevra>
    requires i < |log|
  {
    if i == 0 then log[0].deps else log[i - 1].deps
  }

  lemma StraightFits(log: seq<Entry>)
    requires Straight(log)
    ensures AllFit(log)
  {
    forall i | 0 < i < |log| ensures Fits(log, i) {
      assert log[i].base == Preceding(log, i);
    }
  }

  /** A straight history stays so exactly when the next build comes after all others. */
  lemma StaysStraightExactly(log: seq<Entry>, b: BuildId, t: int, deps: set<Nevra>)
    requires Straight(log)
    ensures Straight(Enter(log, b, t, deps)) <==> Before(log, t) == |log|
  {
    EnterAt(log, b, t, deps);
    var k, log' := Before(log, t), Enter(log, b, t, deps);
    if k == |log| {
      forall i | 0 <= i < |log'|
        ensures log'[i].base == Preceding(log', i) && (log'[i].kept <==> i == |log'| - 1)
      {
        if i < |log| {
          assert log[i].base == Preceding(log, i);
        }
      }
    } else {
      assert log'[k].kept && k != |log'| - 1;
    }
  }

  /** A build that comes late into a straight history has no rows, and the history still replays exactly
      when its dependencies are those of the build before it, or of the next one if it comes first. */
  lemma LateFitsExactly(log: seq<Entry>, b: BuildId, t: int, deps: set<Nevra>)
    requires Straight(log) && Before(log, t) < |log|
    ensures NewEntry(log, Before(log, t), b, t, deps).base == deps
    ensures AllFit(Enter(log, b, t, deps)) <==> deps == Preceding(log, Before(log, t))
  {
    EnterAt(log, b, t, deps);
    StraightFits(log);
    var k, log' := Before(log, t), Enter(log, b, t, deps);
    if AllFit(log') {
      assert Fits(log', if k == 0 then 1 else k);
    }
    if deps == Preceding(log, k) {
      forall i | 0 < i < |log'| ensures Fits(log', i) {
        if i < k {
          assert Fits(log, i);
        } else if i > k + 1 {
          assert Fits(log, i - 1);
        }
      }
    }
  }

  // Runs

  ghost predicate IsRun(dbs: seq<Db>, steps: seq<Step>) {
    && |dbs| == |steps| + 1 && (forall i | 0 <= i < |dbs| :: OneToOne(dbs[i].table))
    && (forall i | 0 <= i < |steps| :: Takes(dbs[i], dbs[i + 1], steps[i]))
  }

  /** The builds of `p` start at different times, and their results are clean. */
  ghost predicate CleanRun(dbs: seq<Db>, steps: seq<Step>, p: PackageId)
    requires IsRun(dbs, steps)
  {
    && (forall i | 0 <= i < |dbs| :: Distinct(dbs[i].builds, p))
    && (forall i | 0 <= i < |steps| && ResolvesOf(dbs[i], steps[i], p) :: Clean(steps[i].deps))
  }

  /** Every resolution of a build of `p` comes in the order of `started`. */
  ghost predicate Orderly(dbs: seq<Db>, steps: seq<Step>, p: PackageId)
    requires IsRun(dbs, steps)
  {
    forall i | 0 <= i < |steps| && ResolvesOf(dbs[i], steps[i], p) :: InOrder(dbs[i].builds, steps[i].build)
  }

  /** The history of `p`, told from the order of its resolutions */
  ghost function Log(dbs: seq<Db>, steps: seq<Step>, p: PackageId): seq<Entry>
    requires IsRun(dbs, steps)
  {
    if steps == [] then [] else
      var n := |steps| - 1;
      var log := Log(dbs[..n + 1], steps[..n], p);
      After(log, dbs[n], steps[n], p)
  }

  function After(log: seq<Entry>, db: Db, step: Step, p: PackageId): seq<Entry> {
    if ResolvesOf(db, step, p) then Enter(log, step.build, db.builds[step.build].started, NevrasOf(step.deps)) else log
  }

  lemma StepMirrors(db: Db, db': Db, step: Step, p: PackageId, log: seq<Entry>)
    requires Consistent(db) && OneToOne(db'.table) && Takes(db, db', step) && Mirrors(db, p, log)
    requires ResolvesOf(db, step, p) ==> Clean(step.deps) && Distinct(db.builds, p)
    ensures Consistent(db') && Mirrors(db', p, After(log, db, step, p))
  {
    if step.Resolve? {
      ResolveRows(db, db', step.build, step.deps, step.prev, step.changes);
    }
    ConsistentAfter(db, db', step);
    if ResolvesOf(db, step, p) {
      ResolveEnters(db, db', step, p, log);
    } else {
      OthersKeepMirrors(db, db', step, p, log);
    }
  }

  ghost predicate Begins(db: Db, p: PackageId) {
    Consistent(db) && forall b | b in db.builds :: !IsResolved(db.builds[b], p)
  }

  /** Any run, in any order, leaves the tables as its history says. */
  lemma {:induction false} RunMirrors(dbs: seq<Db>, steps: seq<Step>, p: PackageId)
    requires IsRun(dbs, steps) && CleanRun(dbs, steps, p) && Begins(dbs[0], p)
    ensures Consistent(dbs[|steps|]) && Mirrors(dbs[|steps|], p, Log(dbs, steps, p))
  {
    if steps != [] {
      var n := |steps| - 1;
      RunMirrors(dbs[..n + 1], steps[..n], p);
      StepMirrors(dbs[n], dbs[n + 1], steps[n], p, Log(dbs[..n + 1], steps[..n], p));
    }
  }

  lemma {:induction false} OrderlyIsStraight(dbs: seq<Db>, steps: seq<Step>, p: PackageId)
    requires IsRun(dbs, steps) && CleanRun(dbs, steps, p) && Orderly(dbs, steps, p) && Begins(dbs[0], p)
    ensures Straight(Log(dbs, steps, p))
  {
    if steps != [] {
      var n := |steps| - 1;
      var log := Log(dbs[..n + 1], steps[..n], p);
      OrderlyIsStraight(dbs[..n + 1], steps[..n], p);
      if ResolvesOf(dbs[n], steps[n], p) {
        RunMirrors(dbs[..n + 1], steps[..n], p);
        InOrderIsLast(dbs[n], p, log, steps[n].build);
        StaysStraightExactly(log, steps[n].build, dbs[n].builds[steps[n].build].started, NevrasOf(steps[n].deps));
      }
    }
  }

  /** After a run in any order, the rows replay every dependency set of the package, from the first one
      on, exactly when every entry of the history that the order makes fits the one before it. */
  lemma RunReplaysExactly(dbs: seq<Db>, steps: seq<Step>, p: PackageId)
    requires IsRun(dbs, steps) && CleanRun(dbs, steps, p) && Begins(dbs[0], p)
    ensures Replays(dbs[|steps|], Log(dbs, steps, p)) <==> AllFit(Log(dbs, steps, p))
  {
    RunMirrors(dbs, steps, p);
    ReplaysExactly(dbs[|steps|], p, Log(dbs, steps, p));
  }

  /** In order they always do; and in any order each row tells two different ids. */
  lemma RunReplays(dbs: seq<Db>, steps: seq<Step>, p: PackageId)
    requires IsRun(dbs, steps) && CleanRun(dbs, steps, p) && Begins(dbs[0], p)
    ensures Orderly(dbs, steps, p) ==> Replays(dbs[|steps|], Log(dbs, steps, p))
    ensures forall r | r in dbs[|steps|].applied :: RowAllowed(r.change)
  {
    RunMirrors(dbs, steps, p);
    if Orderly(dbs, steps, p) {
      OrderlyIsStraight(dbs, steps, p);
      StraightFits(Log(dbs, steps, p));
      RunReplaysExactly(dbs, steps, p);
    }
  }

  /** From a straight history, with no row missing, one more resolution keeps the replay exactly when it
      comes in order or has the dependencies of its neighbour. */
  lemma ResolveReplaysExactly(db: Db, db': Db, step: Step, p: PackageId, log: seq<Entry>)
    requires Consistent(db) && step.Resolve? && Takes(db, db', step) && Clean(step.deps) && Mirrors(db, p, log)
    requires db.builds[step.build].package == p && Distinct(db.builds, p) && Straight(log)
    ensures
      var k := Before(log, db.builds[step.build].started);
      Replays(db', After(log, db, step, p)) <==>
        (InOrder(db.builds, step.build) || (k < |log| && NevrasOf(step.deps) == Preceding(log, k)))
  {
    var t, deps := db.builds[step.build].started, NevrasOf(step.deps);
    ResolveEnters(db, db', step, p, log);
    ReplaysExactly(db', p, After(log, db, step, p));
    InOrderIsLast(db, p, log, step.build);
    StaysStraightExactly(log, step.build, t, deps);
    if Before(log, t) == |log| {
      StraightFits(After(log, db, step, p));
    } else {
      LateFitsExactly(log, step.build, t, deps);
    }
  }

  /** A resolution, early or late, stores no rows exactly when the build before it has no list or the
      same dependencies. */
  lemma NoRowsExactly(db: Db, db': Db, step: Step)
    requires Consistent(db) && step.Resolve? && Takes(db, db', step) && Clean(step.deps)
    requires Keys(db.builds, step.prev) != [] ==> OneName(KeyNevras(db.table, Keys(db.builds, step.prev)))
    ensures RowsOf(db'.applied, step.build) == {} <==>
              (Keys(db.builds, step.prev) == []
               || KeyNevras(db.table, Keys(db.builds, step.prev)) == NevrasOf(step.deps))
  {
    RowsTellDifference(db, db', step);
    RowsOfOthers(db, db', step.build, step.changes.Values, step.build);
    var deps, base := NevrasOf(step.deps), KeyNevras(db.table, Keys(db.builds, step.prev));
    if RowsOf(db'.applied, step.build) == {} && Keys(db.builds, step.prev) != [] {
      assert base - deps == {} && deps - base == {};
      assert base <= deps && deps <= base;
    }
  }
}
