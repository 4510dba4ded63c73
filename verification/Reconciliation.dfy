/** `refresh_latest_builds`: bringing the build table in line with the latest tagged builds in Koji. */
module Reconciliation {
  import opened Wrappers
  import opened RpmVersion
  import opened Builds
  import opened Database

  /** koji.BUILD_STATES, as far as listed builds are in them */
  datatype KojiState = KojiComplete | KojiFailed

  /** One entry of Koji's listing: the latest tagged build of a package. */
  datatype Info = Info(package: PackageId, evr: Evr, task: TaskId, state: KojiState)

  /** What Koji says about a build's task. */
  datatype Task = Task(started: int, hasRepo: bool)

  /** What does not change during a refresh. `newer` is the order of RPM's own labelCompare. */
  datatype Koji = Koji(tasks: map<TaskId, Task>, pollUntracked: bool, newer: (Evr, Evr) -> bool)

  // ---- One package's share of the tables ----

  datatype Slice = Slice(row: Package, builds: map<BuildId, Build>)

  function Of(rows: Rows, pkg: PackageId): Slice
    requires pkg in rows.packages
  {
    Slice(rows.packages[pkg], map i | i in rows.builds && rows.builds[i].package == pkg :: rows.builds[i])
  }

  lemma SameForIsSameSlice(rows: Rows, rows': Rows, pkg: PackageId)
    requires pkg in rows.packages && SameFor(rows, rows', pkg)
    ensures Of(rows', pkg) == Of(rows, pkg)
  {
  }

  /** The last build is the newest tagged one. */
  predicate Current(s: Slice) {
    match s.row.lastBuild
    case None => forall i | i in s.builds :: s.builds[i].untagged
    case Some(l) =>
      l in s.builds && !s.builds[l].untagged
      && forall i | i in s.builds && !s.builds[i].untagged :: s.builds[i].started <= s.builds[l].started
  }

  predicate Distinct(s: Slice) {
    forall i, j | i in s.builds && j in s.builds && s.builds[i].started == s.builds[j].started :: i == j
  }

  /** Every build of the one is a build of the other, with the same identity. */
  predicate Grows(m: map<BuildId, Build>, m': map<BuildId, Build>) {
    forall i | i in m :: i in m' && SameIdentity(m[i], m'[i])
  }

  predicate SameIdentity(b: Build, b': Build) {
    b' == b.(untagged := b'.untagged, lastComplete := b'.lastComplete)
  }

  /** The last build is newer than the one that Koji lists. */
  predicate Ahead(k: Koji, s: Slice, info: Info) {
    s.row.lastBuild.Some? && s.row.lastBuild.value in s.builds
    && k.newer(s.builds[s.row.lastBuild.value].evr, info.evr)
  }

  /** The build that Koji lists is newer than the last one. */
  predicate Behind(k: Koji, s: Slice, info: Info) {
    (s.row.lastBuild.Some? && s.row.lastBuild.value in s.builds) ==>
      k.newer(info.evr, s.builds[s.row.lastBuild.value].evr)
  }

  predicate HasEvr(s: Slice, evr: Evr) {
    exists i | i in s.builds :: s.builds[i].evr == evr
  }

  /** The newest of the package's builds with that EVR. */
  predicate IsNewestWith(s: Slice, evr: Evr, l: BuildId) {
    l in s.builds && s.builds[l].evr == evr
    && forall i | i in s.builds && s.builds[i].evr == evr :: s.builds[i].started <= s.builds[l].started
  }

  predicate HasReal(s: Slice, task: TaskId) {
    exists i | i in s.builds :: s.builds[i].real_ && s.builds[i].task == task
  }

  predicate Registrable(k: Koji, info: Info) {
    info.task in k.tasks && k.tasks[info.task].hasRepo
  }

  function RealTasks(rows: Rows): set<TaskId> {
    set i | i in rows.builds && rows.builds[i].real_ :: rows.builds[i].task
  }

  // ---- What each pass does for a listed package ----

  predicate Kept(s: Slice, s': Slice) {
    Current(s') && Distinct(s') && Grows(s.builds, s'.builds) && s'.row.tracked == s.row.tracked
  }

  predicate WantsNew(k: Koji, existing: set<TaskId>, s: Slice, info: Info) {
    (s.row.tracked || k.pollUntracked) && info.task !in existing && Behind(k, s, info)
  }

  function StateMap(state: KojiState): BuildState {
    match state
    case KojiComplete => Complete
    case KojiFailed => Failed
  }

  function NewBuild(k: Koji, info: Info): Build
    requires Registrable(k, info)
  {
    Build(info.package, StateMap(info.state), k.tasks[info.task].started, false, false, info.evr, true, info.task)
  }

  /** Pointers aside, the package's builds are the same. */
  predicate SameBuilds(m: map<BuildId, Build>, m': map<BuildId, Build>) {
    m'.Keys == m.Keys && forall i | i in m :: m'[i] == m[i].(lastComplete := m'[i].lastComplete)
  }

  /** The listed build has joined the others, and that is all. */
  ghost predicate AddsListed(k: Koji, s: Slice, s': Slice, info: Info)
    requires Registrable(k, info)
  {
    exists id: BuildId :: id !in s.builds && SameBuilds(s.builds[id := NewBuild(k, info)], s'.builds)
  }

  predicate HasNoPriority(row: Package) {
    row.manualPriority == 0 && row.dependencyPriority == 0 && row.buildPriority == 0 && row.unappliedChanges == 0
  }

  /** _check_new_real_builds */
  ghost predicate AfterNew(k: Koji, existing: set<TaskId>, s: Slice, s': Slice, info: Info) {
    && Kept(s, s')
    && if WantsNew(k, existing, s, info) && Registrable(k, info) then AddsListed(k, s, s', info) &&
        HasNoPriority(s'.row)
       else s' == s
  }

  /** The builds that the listing does not contradict, the newest with the listed EVR and older ones */
  ghost predicate NotLater(s: Slice, info: Info, i: BuildId) {
    i in s.builds && HasEvr(s, info.evr) && forall l | IsNewestWith(s, info.evr, l) ::
        s.builds[i].started <= s.builds[l].started
  }

  /** The package has no new builds but the listed one. */
  predicate OnlyListedJoins(k: Koji, s: Slice, s': Slice, info: Info) {
    forall i | i in s'.builds && i !in s.builds ::
      Registrable(k, info) && SameIdentity(NewBuild(k, info), s'.builds[i])
  }

  /** _check_untagged_builds */
  ghost predicate AfterUntagged(k: Koji, s: Slice, s': Slice, info: Info) {
    if !Ahead(k, s, info) then s' == s
    else
      && Kept(s, s')
      && (HasEvr(s, info.evr) ==> s'.builds.Keys == s.builds.Keys) && OnlyListedJoins(k, s, s', info)
      && (Registrable(k, info) ==> HasEvr(s', info.evr) || HasReal(s', info.task))
      && (forall i | i in s'.builds && !s'.builds[i].untagged :: NotLater(s', info, i))
      && (forall i | i in s.builds && NotLater(s', info, i) :: s'.builds[i].untagged == s.builds[i].untagged)
  }

  /** _check_retagged_builds */
  predicate AfterRetagged(s: Slice, s': Slice, info: Info) {
    && Kept(s, s') && s'.builds.Keys == s.builds.Keys
    && forall i | i in s.builds ::
         s'.builds[i].untagged == (s.builds[i].untagged && s.builds[i].evr != info.evr)
  }

  // ---- What a refresh arrives at ----

  predicate NothingToRegister(k: Koji, existing: set<TaskId>, s: Slice, info: Info) {
    !WantsNew(k, existing, s, info) || !Registrable(k, info)
  }

  /** Nothing is left to do for a listed package. */
  predicate Settled(k: Koji, existing: set<TaskId>, s: Slice, info: Info) {
    && !Ahead(k, s, info)
    && (forall i | i in s.builds && s.builds[i].evr == info.evr :: !s.builds[i].untagged)
    && NothingToRegister(k, existing, s, info)
  }

  /** What became of a package that was ahead of Koji: it is back at the newest build with the listed
      EVR, or at none if there is no such build. */
  predicate Reset(s: Slice, info: Info) {
    match s.row.lastBuild
    case None => !HasEvr(s, info.evr)
    case Some(l) => IsNewestWith(s, info.evr, l)
  }

  ghost predicate Asymmetric(k: Koji) {
    forall x, y :: k.newer(x, y) ==> !k.newer(y, x)
  }

  lemma {:induction false} NewestExists(s: Slice, evr: Evr, among: set<BuildId>) returns (l: BuildId)
    requires among <= s.builds.Keys && (exists i | i in among :: s.builds[i].evr == evr)
    ensures l in among && s.builds[l].evr == evr
    ensures forall i | i in among && s.builds[i].evr == evr :: s.builds[i].started <= s.builds[l].started
    decreases among
  {
    l :| l in among && s.builds[l].evr == evr;
    if exists i | i in among - {l} :: s.builds[i].evr == evr {
      var other := NewestExists(s, evr, among - {l});
      if s.builds[l].started < s.builds[other].started {
        l := other;
      }
    }
  }

  /** A package that was ahead and was untagged is back at the listed build. */
  lemma RetaggingResets(k: Koji, s1: Slice, s2: Slice, s3: Slice, info: Info)
    requires Ahead(k, s1, info) && AfterUntagged(k, s1, s2, info) && AfterRetagged(s2, s3, info)
    ensures Reset(s3, info)
  {
    if HasEvr(s2, info.evr) {
      var l := NewestExists(s2, info.evr, s2.builds.Keys);
      assert IsNewestWith(s2, info.evr, l);
      assert !s3.builds[l].untagged;
      var last := s3.row.lastBuild.value;
      assert SameIdentity(s2.builds[last], s3.builds[last]) && SameIdentity(s2.builds[l], s3.builds[l]);
      assert s3.builds[last].started == s3.builds[l].started;
      assert forall i | i in s3.builds :: SameIdentity(s2.builds[i], s3.builds[i]);
    } else {
      forall i | i in s3.builds ensures s3.builds[i].untagged && s3.builds[i].evr != info.evr {
        assert SameIdentity(s2.builds[i], s3.builds[i]);
      }
    }
  }

  /** A package that was not ahead stays at its last build, unless a build with the listed EVR is back. */
  lemma RetaggingStays(s2: Slice, s3: Slice, info: Info)
    requires Current(s2) && AfterRetagged(s2, s3, info)
    ensures s3.row.lastBuild == s2.row.lastBuild
      || (s3.row.lastBuild.Some? && s3.row.lastBuild.value in s3.builds &&
          s3.builds[s3.row.lastBuild.value].evr == info.evr)
    ensures s3.row.lastBuild.Some? ==>
      s3.row.lastBuild.value in s2.builds &&
          s3.builds[s3.row.lastBuild.value].evr == s2.builds[s3.row.lastBuild.value].evr
  {
    assert forall i | i in s2.builds :: SameIdentity(s2.builds[i], s3.builds[i]);
    if s3.row.lastBuild.Some? && s3.builds[s3.row.lastBuild.value].evr != info.evr {
      var last := s3.row.lastBuild.value;
      assert !s2.builds[last].untagged;
      var prev := s2.row.lastBuild.value;
      assert !s3.builds[prev].untagged;
    }
  }

  lemma NotAheadAfterAll(k: Koji, existing: set<TaskId>, s0: Slice, s1: Slice, s2: Slice, s3: Slice, info: Info)
    requires Asymmetric(k) && Current(s0)
    requires AfterNew(k, existing, s0, s1, info) && AfterUntagged(k, s1, s2, info) && AfterRetagged(s2, s3, info)
    ensures !Ahead(k, s3, info)
  {
    if Ahead(k, s1, info) {
      RetaggingResets(k, s1, s2, s3, info);
    } else {
      RetaggingStays(s2, s3, info);
    }
  }

  lemma RealAfterAll(k: Koji, s1: Slice, s2: Slice, s3: Slice, info: Info)
    requires AfterUntagged(k, s1, s2, info) && AfterRetagged(s2, s3, info) && HasReal(s1, info.task)
    ensures HasReal(s3, info.task)
  {
    if s2 != s1 {
      RealKept(s1, s2, info.task);
    }
    RealKept(s2, s3, info.task);
  }

  /** A package that was ahead is at the listed build or none, and has that build if it can be registered. */
  lemma NotBehindIfReset(k: Koji, s1: Slice, s2: Slice, s3: Slice, info: Info)
    requires Asymmetric(k) && Ahead(k, s1, info) && Registrable(k, info)
    requires AfterUntagged(k, s1, s2, info) && AfterRetagged(s2, s3, info)
    ensures HasReal(s3, info.task) || !Behind(k, s3, info)
  {
    RetaggingResets(k, s1, s2, s3, info);
    if HasReal(s2, info.task) {
      RealKept(s2, s3, info.task);
    } else {
      var i :| i in s2.builds && s2.builds[i].evr == info.evr;
      assert SameIdentity(s2.builds[i], s3.builds[i]);
    }
  }

  lemma NotBehindIfKept(k: Koji, s2: Slice, s3: Slice, info: Info)
    requires Asymmetric(k) && Current(s2) && AfterRetagged(s2, s3, info) && !Behind(k, s2, info)
    ensures !Behind(k, s3, info)
  {
    RetaggingStays(s2, s3, info);
    var prev := s2.row.lastBuild.value;
    assert SameIdentity(s2.builds[prev], s3.builds[prev]);
  }

  lemma NothingToRegisterAfterAll(k: Koji, existing: set<TaskId>, existing': set<TaskId>, s0: Slice, s1: Slice,
                                  s2: Slice, s3: Slice, info: Info)
    requires Asymmetric(k) && Current(s0)
    requires AfterNew(k, existing, s0, s1, info) && AfterUntagged(k, s1, s2, info) && AfterRetagged(s2, s3, info)
    requires existing <= existing' && (HasReal(s3, info.task) ==> info.task in existing')
    ensures NothingToRegister(k, existing', s3, info)
  {
    if WantsNew(k, existing', s3, info) && Registrable(k, info) {
      if HasReal(s1, info.task) {
        RealAfterAll(k, s1, s2, s3, info);
      } else {
        if WantsNew(k, existing, s0, info) {
          ListedIsThere(k, s0, s1, info);
        } else if Ahead(k, s1, info) {
          NotBehindIfReset(k, s1, s2, s3, info);
        } else {
          NotBehindIfKept(k, s2, s3, info);
        }
      }
    }
  }

  lemma SettledAfterAll(k: Koji, existing: set<TaskId>, existing': set<TaskId>, s0: Slice, s1: Slice, s2: Slice,
                        s3: Slice, info: Info)
    requires Asymmetric(k) && Current(s0)
    requires AfterNew(k, existing, s0, s1, info) && AfterUntagged(k, s1, s2, info) && AfterRetagged(s2, s3, info)
    requires existing <= existing' && (HasReal(s3, info.task) ==> info.task in existing')
    ensures Settled(k, existing', s3, info)
  {
    NotAheadAfterAll(k, existing, s0, s1, s2, s3, info);
    NothingToRegisterAfterAll(k, existing, existing', s0, s1, s2, s3, info);
    forall i | i in s3.builds && s3.builds[i].evr == info.evr ensures !s3.builds[i].untagged {
      assert SameIdentity(s2.builds[i], s3.builds[i]);
    }
  }

  lemma RealKept(s: Slice, s': Slice, task: TaskId)
    requires Grows(s.builds, s'.builds) && HasReal(s, task)
    ensures HasReal(s', task)
  {
    var i :| i in s.builds && s.builds[i].real_ && s.builds[i].task == task;
    assert SameIdentity(s.builds[i], s'.builds[i]);
  }

  /** A second refresh finds nothing to do. */
  lemma SettledIsFixed(k: Koji, existing: set<TaskId>, s0: Slice, s1: Slice, s2: Slice, info: Info)
    requires Settled(k, existing, s0, info)
    requires AfterNew(k, existing, s0, s1, info) && AfterUntagged(k, s1, s2, info)
    ensures s1 == s0 && s2 == s0
  {
  }

  // ---- The passes ----

  predicate Listing(infos: seq<Info>) {
    forall a, b | 0 <= a < b < |infos| :: infos[a].package != infos[b].package
  }

  /** A build of the package that started when the listed task did is the build of that task. */
  predicate FreshTime(k: Koji, s: Slice, info: Info) {
    Registrable(k, info) ==>
      forall i | i in s.builds && s.builds[i].started == k.tasks[info.task].started ::
        s.builds[i].real_ && s.builds[i].task == info.task
  }

  predicate Prepared(k: Koji, rows: Rows, info: Info) {
    info.package in rows.packages ==>
      Distinct(Of(rows, info.package)) && FreshTime(k, Of(rows, info.package), info)
  }

  lemma AgreesIsCurrent(rows: Rows, pkg: PackageId)
    requires pkg in rows.packages && Agrees(rows, pkg)
    ensures Current(Of(rows, pkg))
  {
    forall i | i in Of(rows, pkg).builds && !rows.builds[i].untagged ensures i in Tagged(rows, pkg) {
    }
  }

  lemma SliceOfSameButPointers(rows: Rows, rows': Rows, pkg: PackageId)
    requires pkg in rows.packages && SameButPointers(rows, rows')
    ensures pkg in rows'.packages && SameBuilds(Of(rows, pkg).builds, Of(rows', pkg).builds)
    ensures Of(rows', pkg).row.tracked == Of(rows, pkg).row.tracked
  {
    assert forall i | i in rows.builds :: rows'.builds[i].package == rows.builds[i].package;
  }

  lemma SliceOfInserted(rows: Rows, id: BuildId, b: Build)
    requires b.package in rows.packages && id !in rows.builds
    ensures Of(Inserted(rows, id, b), b.package) == Slice(rows.packages[b.package], Of(rows, b.package).builds[id := b])
    ensures forall q | q != b.package :: SameFor(rows, Inserted(rows, id, b), q)
  {
  }

  /** A build with a start time of its own joins the others. */
  lemma NewcomerKeeps(k: Koji, s: Slice, s': Slice, info: Info, id: BuildId)
    requires Registrable(k, info) && id !in s.builds && SameBuilds(s.builds[id := NewBuild(k, info)], s'.builds)
    requires Distinct(s) && FreshTime(k, s, info) && !HasReal(s, info.task)
    ensures Distinct(s') && FreshTime(k, s', info) && Grows(s.builds, s'.builds)
  {
    assert SameIdentity(NewBuild(k, info), s'.builds[id]);
    forall i | i in s.builds ensures i in s'.builds && SameIdentity(s.builds[i], s'.builds[i])
      && s.builds[i].started != k.tasks[info.task].started
    {
    }
  }

  lemma GrowsFromInserted(rows: Rows, id: BuildId, b: Build, rows': Rows)
    requires id !in rows.builds && SameButPointers(Inserted(rows, id, b), rows')
    ensures Grows(rows.builds, rows'.builds)
  {
    forall i | i in rows.builds ensures i in rows'.builds && SameIdentity(rows.builds[i], rows'.builds[i]) {
      assert i in Inserted(rows, id, b).builds;
    }
  }

  lemma RegisterSlice(k: Koji, rows: Rows, info: Info, id: BuildId, rows': Rows)
    requires info.package in rows.packages && Registrable(k, info) && id !in rows.builds
    requires Updates(Inserted(rows, id, NewBuild(k, info)), rows', info.package)
    requires info.package in rows'.packages && Agrees(rows', info.package)
    requires Prepared(k, rows, info) && !HasReal(Of(rows, info.package), info.task)
    ensures Prepared(k, rows', info) && Grows(rows.builds, rows'.builds)
    ensures var s, s' := Of(rows, info.package), Of(rows', info.package);
      Kept(s, s') && AddsListed(k, s, s', info)
    ensures forall q | q != info.package :: SameFor(rows, rows', q)
  {
    var mid := Inserted(rows, id, NewBuild(k, info));
    UpdateTouches(mid, rows', info.package);
    AgreesIsCurrent(rows', info.package);
    SliceOfInserted(rows, id, NewBuild(k, info));
    SliceOfSameButPointers(mid, rows', info.package);
    NewcomerKeeps(k, Of(rows, info.package), Of(rows', info.package), info, id);
    GrowsFromInserted(rows, id, NewBuild(k, info), rows');
    forall q | q != info.package ensures SameFor(rows, rows', q) {
      assert SameFor(rows, mid, q) && SameFor(mid, rows', q);
    }
  }

  /** The rows after register_real_builds for one listed build: nothing without a task and its
      repository, and no second row for the same task. */
  ghost predicate RowsRegistered(k: Koji, rows: Rows, rows': Rows, info: Info) {
    && info.package in rows.packages && info.package in rows'.packages
    && Prepared(k, rows', info) && Grows(rows.builds, rows'.builds)
    && (forall q | q != info.package :: SameFor(rows, rows', q))
    && Kept(Of(rows, info.package), Of(rows', info.package))
    && if !Registrable(k, info) then rows' == rows
       else if HasReal(Of(rows, info.package), info.task) then
         SameBuilds(Of(rows, info.package).builds, Of(rows', info.package).builds)
       else AddsListed(k, Of(rows, info.package), Of(rows', info.package), info)
  }

  /** And priorities are reset. */
  ghost predicate Registered(k: Koji, rows: Rows, rows': Rows, info: Info) {
    RowsRegistered(k, rows, rows', info) && (Registrable(k, info) ==> HasNoPriority(rows'.packages[info.package]))
  }

  lemma ListedIsThere(k: Koji, s: Slice, s': Slice, info: Info)
    requires Registrable(k, info) && AddsListed(k, s, s', info)
    ensures HasReal(s', info.task) && HasEvr(s', info.evr)
    ensures forall i | i in s.builds :: i in s'.builds && s'.builds[i].untagged == s.builds[i].untagged
    ensures OnlyListedJoins(k, s, s', info)
  {
    var id: BuildId :| id !in s.builds && SameBuilds(s.builds[id := NewBuild(k, info)], s'.builds);
    var m := s.builds[id := NewBuild(k, info)];
    assert id in m && s'.builds[id].task == info.task && s'.builds[id].real_ && s'.builds[id].evr == info.evr;
    forall i | i in s.builds ensures i in s'.builds && s'.builds[i].untagged == s.builds[i].untagged {
      assert i in m && m[i] == s.builds[i];
    }
    assert forall i | i in s'.builds :: i in m;
  }

  /** The row of a listed build, column by column. */
  predicate IsListedBuild(k: Koji, b: Build, info: Info) {
    && b.package == info.package && b.evr == info.evr && b.task == info.task && b.real_ && !b.untagged
    && info.task in k.tasks && b.started == k.tasks[info.task].started
    && (info.state.KojiComplete? ==> b.state == Complete) && (info.state.KojiFailed? ==> b.state == Failed)
  }

  /** One row for the listed build has come in, the package's other builds are the same but for the flag of the
      last complete one, and its priorities are reset. */
  ghost predicate Joined(k: Koji, rows: Rows, rows': Rows, info: Info) {
    exists id: BuildId :: JoinedAs(k, rows, rows', info, id)
  }

  predicate JoinedAs(k: Koji, rows: Rows, rows': Rows, info: Info, id: BuildId) {
    && id !in rows.builds && id in rows'.builds
    && IsListedBuild(k, rows'.builds[id], info)
    && info.package in rows'.packages
    && rows'.packages[info.package].manualPriority == 0 && rows'.packages[info.package].dependencyPriority == 0
    && rows'.packages[info.package].buildPriority == 0 && rows'.packages[info.package].unappliedChanges == 0
    && (forall i | i in rows.builds && rows.builds[i].package == info.package :: i in rows'.builds
          && rows'.builds[i] == rows.builds[i].(lastComplete := rows'.builds[i].lastComplete))
    && (forall i | i in rows'.builds && rows'.builds[i].package == info.package && i != id ::
          i in rows.builds && rows.builds[i].package == info.package)
  }

  lemma AddedIsJoined(k: Koji, rows: Rows, rows': Rows, info: Info)
    requires info.package in rows.packages && info.package in rows'.packages && Registrable(k, info)
    requires Grows(rows.builds, rows'.builds) && AddsListed(k, Of(rows, info.package), Of(rows', info.package), info)
    requires HasNoPriority(rows'.packages[info.package])
    ensures Joined(k, rows, rows', info)
  {
    var s, s' := Of(rows, info.package), Of(rows', info.package);
    var id: BuildId :| id !in s.builds && SameBuilds(s.builds[id := NewBuild(k, info)], s'.builds);
    var m := s.builds[id := NewBuild(k, info)];
    assert id in m && id in s'.builds;
    assert id in rows.builds ==> SameIdentity(rows.builds[id], rows'.builds[id]);
    forall i | i in rows.builds && rows.builds[i].package == info.package
      ensures i in rows'.builds && rows'.builds[i] == rows.builds[i].(lastComplete := rows'.builds[i].lastComplete)
    {
      assert i in s.builds && i in m && m[i] == s.builds[i];
    }
    forall i | i in rows'.builds && rows'.builds[i].package == info.package && i != id
      ensures i in rows.builds && rows.builds[i].package == info.package
    {
      assert i in s'.builds && i in m;
    }
    assert JoinedAs(k, rows, rows', info, id);
  }

  lemma RegisteredMeans(k: Koji, rows: Rows, rows': Rows, info: Info)
    requires RowsRegistered(k, rows, rows', info)
    ensures Registrable(k, info) ==> HasReal(Of(rows', info.package), info.task)
    ensures forall i | i in Of(rows, info.package).builds :: i in Of(rows', info.package).builds
              && Of(rows', info.package).builds[i].untagged == Of(rows, info.package).builds[i].untagged
    ensures OnlyListedJoins(k, Of(rows, info.package), Of(rows', info.package), info)
  {
    var s, s' := Of(rows, info.package), Of(rows', info.package);
    if Registrable(k, info) && !HasReal(s, info.task) {
      ListedIsThere(k, s, s', info);
    } else if Registrable(k, info) {
      RealKept(s, s', info.task);
    }
  }

  lemma ClearedSlice(k: Koji, rows: Rows, info: Info)
    requires info.package in rows.packages && AllAgree(rows)
    ensures var rows' := Cleared(rows, info.package);
      && Grows(rows.builds, rows'.builds) && Of(rows', info.package).builds == Of(rows, info.package).builds
      && Of(rows', info.package).row.tracked == Of(rows, info.package).row.tracked
      && Current(Of(rows', info.package)) && (forall q | q != info.package :: SameFor(rows, rows', q))
  {
    var rows' := Cleared(rows, info.package);
    ClearedKeepsAgreement(rows, info.package);
    AgreesIsCurrent(rows', info.package);
  }

  lemma RegisteredThenCleared(k: Koji, rows: Rows, mid: Rows, info: Info)
    requires AllAgree(mid) && Registrable(k, info) && RowsRegistered(k, rows, mid, info)
    ensures Registered(k, rows, Cleared(mid, info.package), info)
  {
    ClearedSlice(k, mid, info);
    var rows' := Cleared(mid, info.package);
    forall q | q != info.package ensures SameFor(rows, rows', q) {
      assert SameFor(rows, mid, q) && SameFor(mid, rows', q);
    }
  }

  lemma NothingRegistered(k: Koji, rows: Rows, info: Info)
    requires AllAgree(rows) && info.package in rows.packages && Prepared(k, rows, info)
    requires Registrable(k, info) ==> HasReal(Of(rows, info.package), info.task)
    ensures RowsRegistered(k, rows, rows, info)
  {
    assert Agrees(rows, info.package);
    AgreesIsCurrent(rows, info.package);
  }

  method RegisterRealBuild(db: Tables, k: Koji, info: Info)
    requires db.Valid() && info.package in db.rows.packages && Prepared(k, db.rows, info)
    modifies db
    ensures db.Valid() && Registered(k, old(db.rows), db.rows, info)
    ensures info.task in k.tasks && k.tasks[info.task].hasRepo
              && !HasReal(Of(old(db.rows), info.package), info.task) ==>
              Joined(k, old(db.rows), db.rows, info)
  {
    ghost var before := db.rows;
    if info.task in k.tasks && k.tasks[info.task].hasRepo {
      if HasReal(Of(db.rows, info.package), info.task) {
        NothingRegistered(k, before, info);
      } else {
        var id := db.InsertBuild(NewBuild(k, info));
        RegisterSlice(k, before, info, id, db.rows);
      }
      RegisteredThenCleared(k, before, db.rows, info);
      db.ClearPriorityData(info.package);
      if !HasReal(Of(before, info.package), info.task) {
        AddedIsJoined(k, before, db.rows, info);
      }
    } else {
      NothingRegistered(k, before, info);
    }
  }

  predicate Known(rows: Rows, infos: seq<Info>, a: int) {
    0 <= a < |infos| && infos[a].package in rows.packages
  }

  ghost predicate Unlisted(infos: seq<Info>, q: PackageId) {
    forall a | 0 <= a < |infos| :: infos[a].package != q
  }

  /** What every pass keeps. */
  ghost predicate PassKeeps(k: Koji, before: Rows, now: Rows, infos: seq<Info>) {
    && now.packages.Keys == before.packages.Keys
    && Grows(before.builds, now.builds)
    && (forall a | Known(before, infos, a) :: Prepared(k, now, infos[a]))
    && (forall q | Unlisted(infos, q) :: SameFor(before, now, q))
  }

  ghost predicate NewSoFar(k: Koji, existing: set<TaskId>, before: Rows, now: Rows, infos: seq<Info>, n: nat) {
    && PassKeeps(k, before, now, infos)
    && (forall a | Known(before, infos, a) ::
          if a < n then AfterNew(k, existing, Of(before, infos[a].package), Of(now, infos[a].package), infos[a])
          else Of(now, infos[a].package) == Of(before, infos[a].package))
    && ((forall a | Known(before, infos, a) ::
        NothingToRegister(k, existing, Of(before, infos[a].package), infos[a])) ==>
          now == before)
  }

  lemma PassStarts(k: Koji, rows: Rows, infos: seq<Info>)
    requires forall a | Known(rows, infos, a) :: Prepared(k, rows, infos[a])
    ensures PassKeeps(k, rows, rows, infos)
  {
    assert forall i | i in rows.builds :: SameIdentity(rows.builds[i], rows.builds[i]);
  }

  lemma GrowsTwice(a: map<BuildId, Build>, b: map<BuildId, Build>, c: map<BuildId, Build>)
    requires Grows(a, b) && Grows(b, c)
    ensures Grows(a, c)
  {
    forall i | i in a ensures i in c && SameIdentity(a[i], c[i]) {
      assert SameIdentity(a[i], b[i]) && SameIdentity(b[i], c[i]);
    }
  }

  /** Work on one listed package keeps what the pass keeps. */
  lemma PassGoesOn(k: Koji, before: Rows, last: Rows, now: Rows, infos: seq<Info>, n: nat)
    requires Listing(infos) && n < |infos| && PassKeeps(k, before, last, infos) && Known(before, infos, n)
    requires infos[n].package in now.packages && Prepared(k, now, infos[n]) && Grows(last.builds, now.builds)
    requires forall q | q != infos[n].package :: SameFor(last, now, q)
    ensures PassKeeps(k, before, now, infos)
    ensures forall a | Known(before, infos, a) && a != n :: Of(now, infos[a].package) == Of(last, infos[a].package)
  {
    GrowsTwice(before.builds, last.builds, now.builds);
    forall q ensures q in now.packages <==> q in before.packages {
      assert q != infos[n].package ==> SameFor(last, now, q);
    }
    forall a | Known(before, infos, a) && a != n
      ensures Of(now, infos[a].package) == Of(last, infos[a].package)
    {
      assert SameFor(last, now, infos[a].package);
      SameForIsSameSlice(last, now, infos[a].package);
    }
    forall a | Known(before, infos, a) ensures Prepared(k, now, infos[a]) {
      assert Prepared(k, last, infos[a]);
    }
    forall q | Unlisted(infos, q) ensures SameFor(before, now, q) {
      assert q != infos[n].package;
      assert SameFor(before, last, q) && SameFor(last, now, q);
    }
  }

  lemma RealTaskOf(rows: Rows, pkg: PackageId, task: TaskId)
    requires pkg in rows.packages && HasReal(Of(rows, pkg), task)
    ensures task in RealTasks(rows)
  {
    var i :| i in Of(rows, pkg).builds && Of(rows, pkg).builds[i].real_ && Of(rows, pkg).builds[i].task == task;
    assert rows.builds[i].real_ && rows.builds[i].task == task;
  }

  lemma NewGoesOn(k: Koji, existing: set<TaskId>, before: Rows, last: Rows, now: Rows, infos: seq<Info>, n: nat)
    requires Listing(infos) && n < |infos| && NewSoFar(k, existing, before, last, infos, n) && AllAgree(last)
    requires existing == RealTasks(before)
    requires
      if Known(before, infos, n) && WantsNew(k, existing, Of(last, infos[n].package), infos[n])
      then Registered(k, last, now, infos[n])
      else now == last
    ensures NewSoFar(k, existing, before, now, infos, n + 1)
  {
    if Known(before, infos, n) {
      var pkg := infos[n].package;
      assert Agrees(last, pkg) && Prepared(k, last, infos[n]);
      AgreesIsCurrent(last, pkg);
      assert Of(last, pkg) == Of(before, pkg);
      if HasReal(Of(before, pkg), infos[n].task) {
        RealTaskOf(before, pkg, infos[n].task);
      }
      if now != last {
        PassGoesOn(k, before, last, now, infos, n);
      }
    }
  }

  /** The package is to have the listed build: it is watched, Koji's listing is newer than its last build, if
      it has one, and the build has a repository and is not known. */
  ghost predicate Missing(k: Koji, rows: Rows, info: Info) {
    && info.package in rows.packages && (rows.packages[info.package].tracked || k.pollUntracked)
    && info.task in k.tasks && k.tasks[info.task].hasRepo
    && (forall i | i in rows.builds && rows.builds[i].real_ :: rows.builds[i].task != info.task)
    && var last := rows.packages[info.package].lastBuild;
       last.Some? && last.value in rows.builds && rows.builds[last.value].package == info.package ==>
         k.newer(info.evr, rows.builds[last.value].evr)
  }

  lemma MissingJoins(k: Koji, before: Rows, now: Rows, infos: seq<Info>, a: nat)
    requires a < |infos| && NewSoFar(k, RealTasks(before), before, now, infos, |infos|)
    ensures Missing(k, before, infos[a]) ==> Joined(k, before, now, infos[a])
    ensures infos[a].package in before.packages && !Missing(k, before, infos[a]) ==>
              SameFor(before, now, infos[a].package)
  {
    if infos[a].package in before.packages {
      var s, s' := Of(before, infos[a].package), Of(now, infos[a].package);
      assert Known(before, infos, a);
      assert Missing(k, before, infos[a]) <==> WantsNew(k, RealTasks(before), s, infos[a]) && Registrable(k, infos[a]);
      if Missing(k, before, infos[a]) {
        AddedIsJoined(k, before, now, infos[a]);
      } else {
        assert s'.builds == s.builds;
        SameSliceIsSameFor(before, now, infos[a].package);
      }
    }
  }

  lemma SameSliceIsSameFor(rows: Rows, rows': Rows, pkg: PackageId)
    requires pkg in rows.packages && pkg in rows'.packages && Of(rows', pkg) == Of(rows, pkg)
    ensures SameFor(rows, rows', pkg)
  {
    forall i ensures i in rows.builds && rows.builds[i].package == pkg <==>
        i in rows'.builds && rows'.builds[i].package == pkg {
      assert i in Of(rows, pkg).builds <==> i in Of(rows', pkg).builds;
    }
    forall i | i in rows.builds && rows.builds[i].package == pkg ensures rows'.builds[i] == rows.builds[i] {
      assert Of(rows, pkg).builds[i] == Of(rows', pkg).builds[i];
    }
  }

  method CheckNewRealBuilds(db: Tables, k: Koji, infos: seq<Info>)
    requires db.Valid() && Listing(infos)
    requires forall a | Known(db.rows, infos, a) :: Prepared(k, db.rows, infos[a])
    modifies db
    ensures db.Valid()
    ensures NewSoFar(k, RealTasks(old(db.rows)), old(db.rows), db.rows, infos, |infos|)
    ensures forall a: nat | a < |infos| && Missing(k, old(db.rows), infos[a]) ::
              Joined(k, old(db.rows), db.rows, infos[a])
    ensures forall a: nat | a < |infos| && infos[a].package in old(db.rows).packages
                            && !Missing(k, old(db.rows), infos[a]) ::
              SameFor(old(db.rows), db.rows, infos[a].package)
  {
    var before := db.rows;
    var existing := RealTasks(before);
    PassStarts(k, before, infos);
    for n := 0 to |infos|
      invariant db.Valid() && NewSoFar(k, existing, before, db.rows, infos, n)
    {
      ghost var last := db.rows;
      var info := infos[n];
      if info.package in before.packages {
        var s := Of(db.rows, info.package);
        if (s.row.tracked || k.pollUntracked) && info.task !in existing && Behind(k, s, info) {
          RegisterRealBuild(db, k, info);
        }
      }
      NewGoesOn(k, existing, before, last, db.rows, infos, n);
    }
    forall a: nat | a < |infos|
      ensures Missing(k, before, infos[a]) ==> Joined(k, before, db.rows, infos[a])
      ensures infos[a].package in before.packages && !Missing(k, before, infos[a]) ==>
                SameFor(before, db.rows, infos[a].package)
    {
      MissingJoins(k, before, db.rows, infos, a);
    }
  }

  function WithEvr(rows: Rows, pkg: PackageId, evr: Evr): set<BuildId> {
    set i | i in rows.builds && rows.builds[i].package == pkg && rows.builds[i].evr == evr
  }

  /** The package's builds that started after its last valid build, or all of them if there is none. */
  function Later(rows: Rows, pkg: PackageId, lastValid: Option<BuildId>): set<BuildId> {
    set i | i in rows.builds && rows.builds[i].package == pkg
      && (lastValid.Some? && lastValid.value in rows.builds ==>
          rows.builds[i].started > rows.builds[lastValid.value].started)
  }

  lemma SelectedWithEvr(rows: Rows, pkg: PackageId, evr: Evr, r: Option<BuildId>)
    requires pkg in rows.packages && IsNewest(rows, WithEvr(rows, pkg, evr), r)
    ensures r.None? ==> !HasEvr(Of(rows, pkg), evr)
    ensures r.Some? ==> IsNewestWith(Of(rows, pkg), evr, r.value)
  {
    forall i | i in Of(rows, pkg).builds && Of(rows, pkg).builds[i].evr == evr ensures i in WithEvr(rows, pkg, evr) {
    }
  }

  /** The package's builds after an update of the untagged flag of some of them. */
  predicate Retags(m: map<BuildId, Build>, m': map<BuildId, Build>, ids: set<BuildId>, untagged: bool) {
    m'.Keys == m.Keys && forall i | i in m ::
      SameIdentity(m[i], m'[i]) && m'[i].untagged == if i in ids then untagged else m[i].untagged
  }

  lemma SliceOfUntagged(rows: Rows, ids: set<BuildId>, untagged: bool, rows': Rows, pkg: PackageId)
    requires pkg in rows.packages && SameButPointers(WithUntagged(rows, ids, untagged), rows')
    ensures pkg in rows'.packages && Of(rows', pkg).row.tracked == Of(rows, pkg).row.tracked
    ensures Retags(Of(rows, pkg).builds, Of(rows', pkg).builds, ids, untagged)
    ensures Grows(rows.builds, rows'.builds)
  {
    var mid := WithUntagged(rows, ids, untagged);
    SliceOfSameButPointers(mid, rows', pkg);
    forall i | i in rows.builds ensures i in rows'.builds && SameIdentity(rows.builds[i], rows'.builds[i]) {
      assert i in mid.builds;
    }
    assert Of(mid, pkg).builds.Keys == Of(rows, pkg).builds.Keys;
  }

  lemma RetagsKeepsTimes(k: Koji, s: Slice, s': Slice, ids: set<BuildId>, untagged: bool, info: Info)
    requires Retags(s.builds, s'.builds, ids, untagged) && Distinct(s) && FreshTime(k, s, info)
    ensures Distinct(s') && FreshTime(k, s', info) && Grows(s.builds, s'.builds)
  {
    assert forall i | i in s.builds :: SameIdentity(s.builds[i], s'.builds[i]);
  }

  lemma UntaggedSlice(k: Koji, rows: Rows, ids: set<BuildId>, untagged: bool, rows': Rows, info: Info)
    requires info.package in rows.packages && Prepared(k, rows, info) && AllAgree(rows')
    requires SameButPointers(WithUntagged(rows, ids, untagged), rows')
    ensures info.package in rows'.packages && Prepared(k, rows', info) && Grows(rows.builds, rows'.builds)
    ensures Kept(Of(rows, info.package), Of(rows', info.package))
    ensures Retags(Of(rows, info.package).builds, Of(rows', info.package).builds, ids, untagged)
  {
    SliceOfUntagged(rows, ids, untagged, rows', info.package);
    RetagsKeepsTimes(k, Of(rows, info.package), Of(rows', info.package), ids, untagged, info);
    assert Agrees(rows', info.package);
    AgreesIsCurrent(rows', info.package);
  }

  /** Untagging all later builds: none that is left is later than the newest with the listed EVR. */
  lemma UntaggingLater(k: Koji, s: Slice, m: Slice, s': Slice, info: Info, lastValid: Option<BuildId>,
                       ids: set<BuildId>)
    requires Ahead(k, s, info) && Kept(s, m) && Kept(m, s') && OnlyListedJoins(k, s, m, info)
    requires HasEvr(s, info.evr) ==> m == s
    requires Registrable(k, info) && !HasEvr(s, info.evr) ==> HasReal(m, info.task)
    requires match lastValid case None => !HasEvr(m, info.evr) case Some(l) => IsNewestWith(m, info.evr, l)
    requires forall i | i in m.builds ::
      i in ids <==> (lastValid.Some? ==> m.builds[i].started > m.builds[lastValid.value].started)
    requires Retags(m.builds, s'.builds, ids, true)
    requires forall i | i in s.builds :: i in m.builds && m.builds[i].untagged == s.builds[i].untagged
    ensures AfterUntagged(k, s, s', info)
  {
    forall i | i in m.builds ensures SameIdentity(m.builds[i], s'.builds[i]) {
    }
    GrowsTwice(s.builds, m.builds, s'.builds);
    if HasReal(m, info.task) {
      RealKept(m, s', info.task);
    }
    KeptAreNotLater(m, s', info, lastValid, ids);
    forall i | i in s'.builds ensures s'.builds[i].evr == m.builds[i].evr {
    }
  }

  /** What stays tagged is no newer than the newest build with the listed EVR. */
  lemma KeptAreNotLater(m: Slice, s': Slice, info: Info, lastValid: Option<BuildId>, ids: set<BuildId>)
    requires Kept(m, s') && Retags(m.builds, s'.builds, ids, true)
    requires match lastValid case None => !HasEvr(m, info.evr) case Some(l) => IsNewestWith(m, info.evr, l)
    requires forall i | i in m.builds ::
      i in ids <==> (lastValid.Some? ==> m.builds[i].started > m.builds[lastValid.value].started)
    ensures forall i | i in s'.builds && !s'.builds[i].untagged :: NotLater(s', info, i)
    ensures forall i | i in m.builds && NotLater(s', info, i) :: s'.builds[i].untagged == m.builds[i].untagged
  {
    forall i | i in m.builds ensures SameIdentity(m.builds[i], s'.builds[i]) {
    }
    if lastValid.Some? {
      assert s'.builds[lastValid.value].evr == info.evr;
      assert IsNewestWith(s', info.evr, lastValid.value);
    }
  }

  ghost predicate UntaggedSoFar(k: Koji, before: Rows, now: Rows, infos: seq<Info>, n: nat) {
    && PassKeeps(k, before, now, infos)
    && (forall a | Known(before, infos, a) ::
          if a < n then AfterUntagged(k, Of(before, infos[a].package), Of(now, infos[a].package), infos[a])
          else Of(now, infos[a].package) == Of(before, infos[a].package))
    && ((forall a | Known(before, infos, a) :: !Ahead(k, Of(before, infos[a].package), infos[a])) ==> now == before)
  }

  lemma UntaggedGoesOn(k: Koji, before: Rows, last: Rows, now: Rows, infos: seq<Info>, n: nat)
    requires Listing(infos) && n < |infos| && UntaggedSoFar(k, before, last, infos, n)
    requires
      if Known(before, infos, n) then Untagged(k, last, now, infos[n]) else now == last
    ensures UntaggedSoFar(k, before, now, infos, n + 1)
  {
    if Known(before, infos, n) && now != last {
      PassGoesOn(k, before, last, now, infos, n);
    }
  }

  /** One listed package's turn in _check_untagged_builds. */
  ghost predicate Untagged(k: Koji, rows: Rows, rows': Rows, info: Info) {
    && info.package in rows.packages && info.package in rows'.packages
    && Prepared(k, rows', info) && Grows(rows.builds, rows'.builds)
    && (forall q | q != info.package :: SameFor(rows, rows', q))
    && AfterUntagged(k, Of(rows, info.package), Of(rows', info.package), info)
    && (!Ahead(k, Of(rows, info.package), info) ==> rows' == rows)
  }

  method LastValidBuild(db: Tables, info: Info) returns (r: Option<BuildId>)
    requires info.package in db.rows.packages
    ensures r.None? ==> !HasEvr(Of(db.rows, info.package), info.evr)
    ensures r.Some? ==> IsNewestWith(Of(db.rows, info.package), info.evr, r.value)
  {
    r := SelectNewest(db.rows, WithEvr(db.rows, info.package, info.evr));
    SelectedWithEvr(db.rows, info.package, info.evr, r);
  }

  /** The package's last valid build, registered again if it is gone. */
  method FindLastValid(db: Tables, k: Koji, info: Info) returns (r: Option<BuildId>)
    requires db.Valid() && info.package in db.rows.packages && Prepared(k, db.rows, info)
    modifies db
    ensures db.Valid() && info.package in db.rows.packages
    ensures r.None? ==> !HasEvr(Of(db.rows, info.package), info.evr)
    ensures r.Some? ==> IsNewestWith(Of(db.rows, info.package), info.evr, r.value)
    ensures if HasEvr(Of(old(db.rows), info.package), info.evr) then db.rows == old(db.rows)
            else Registered(k, old(db.rows), db.rows, info)
  {
    r := LastValidBuild(db, info);
    if r.None? {
      RegisterRealBuild(db, k, info);
      r := LastValidBuild(db, info);
    }
  }

  lemma LaterIds(rows: Rows, pkg: PackageId, lastValid: Option<BuildId>)
    requires pkg in rows.packages && (lastValid.Some? ==> lastValid.value in Of(rows, pkg).builds)
    ensures var m, ids := Of(rows, pkg), Later(rows, pkg, lastValid);
      ids <= m.builds.Keys && forall i | i in m.builds ::
        i in ids <==> (lastValid.Some? ==> m.builds[i].started > m.builds[lastValid.value].started)
  {
  }

  /** The package before its turn and after its last valid build has been looked up. */
  ghost predicate Looked(k: Koji, rows: Rows, mid: Rows, info: Info) {
    && info.package in rows.packages && info.package in mid.packages
    && Prepared(k, mid, info) && Grows(rows.builds, mid.builds)
    && (forall q | q != info.package :: SameFor(rows, mid, q))
    && Kept(Of(rows, info.package), Of(mid, info.package))
    && (HasEvr(Of(rows, info.package), info.evr) ==> Of(mid, info.package) == Of(rows, info.package))
    && OnlyListedJoins(k, Of(rows, info.package), Of(mid, info.package), info)
    && (Registrable(k, info) && !HasEvr(Of(rows, info.package), info.evr) ==> HasReal(Of(mid, info.package), info.task))
    && (forall i | i in Of(rows, info.package).builds :: i in Of(mid, info.package).builds
          && Of(mid, info.package).builds[i].untagged == Of(rows, info.package).builds[i].untagged)
  }

  lemma AfterLooking(k: Koji, rows: Rows, mid: Rows, info: Info)
    requires AllAgree(rows) && info.package in rows.packages && Prepared(k, rows, info)
    requires if HasEvr(Of(rows, info.package), info.evr) then mid == rows else Registered(k, rows, mid, info)
    ensures Looked(k, rows, mid, info)
  {
    if mid != rows {
      RegisteredMeans(k, rows, mid, info);
    }
    assert Agrees(rows, info.package);
    AgreesIsCurrent(rows, info.package);
    assert forall i | i in rows.builds :: SameIdentity(rows.builds[i], rows.builds[i]);
  }

  /** Registration, if any, and untagging put together. */
  lemma UntaggedTurn(k: Koji, rows: Rows, mid: Rows, rows': Rows, info: Info, lastValid: Option<BuildId>)
    requires Looked(k, rows, mid, info) && AllAgree(rows') && Ahead(k, Of(rows, info.package), info)
    requires match lastValid
      case None => !HasEvr(Of(mid, info.package), info.evr)
      case Some(l) => IsNewestWith(Of(mid, info.package), info.evr, l)
    requires SameButPointers(WithUntagged(mid, Later(mid, info.package, lastValid), true), rows')
    requires forall q | q != info.package :: SameFor(mid, rows', q)
    ensures Untagged(k, rows, rows', info)
  {
    var pkg := info.package;
    UntaggedSlice(k, mid, Later(mid, pkg, lastValid), true, rows', info);
    LaterIds(mid, pkg, lastValid);
    UntaggingLater(k, Of(rows, pkg), Of(mid, pkg), Of(rows', pkg), info, lastValid, Later(mid, pkg, lastValid));
    GrowsTwice(rows.builds, mid.builds, rows'.builds);
    forall q | q != pkg ensures SameFor(rows, rows', q) {
      SameForTwice(rows, mid, rows', q);
    }
  }

  lemma NotAhead(k: Koji, rows: Rows, info: Info)
    requires info.package in rows.packages && Prepared(k, rows, info) && !Ahead(k, Of(rows, info.package), info)
    ensures Untagged(k, rows, rows, info)
  {
    assert forall i | i in rows.builds :: SameIdentity(rows.builds[i], rows.builds[i]);
  }

  /** A build stays tagged if it was, and if some build with the listed EVR started no earlier. */
  lemma NotLaterMeans(s: Slice, info: Info, i: BuildId)
    ensures NotLater(s, info, i) <==>
              (i in s.builds
               && exists j | j in s.builds :: s.builds[j].evr == info.evr && s.builds[i].started <= s.builds[j].started)
  {
    if HasEvr(s, info.evr) {
      var l := NewestExists(s, info.evr, s.builds.Keys);
      assert IsNewestWith(s, info.evr, l);
    }
  }

  /** After its turn a package that was ahead of Koji has exactly those of its builds untagged that were, or
      that started after every build with the listed EVR. */
  lemma UntaggedMeans(k: Koji, rows: Rows, rows': Rows, info: Info, i: BuildId)
    requires Untagged(k, rows, rows', info) && i in rows.builds && rows.builds[i].package == info.package
    requires
      var last := rows.packages[info.package].lastBuild;
      last.Some? && last.value in rows.builds && rows.builds[last.value].package == info.package
      && k.newer(rows.builds[last.value].evr, info.evr)
    ensures i in rows'.builds && rows'.builds[i].package == info.package
    ensures rows'.builds[i].untagged <==>
              (rows.builds[i].untagged
               || forall j | j in rows'.builds && rows'.builds[j].package == info.package
                             && rows'.builds[j].evr == info.evr ::
                    rows'.builds[j].started < rows.builds[i].started)
  {
    var s, s' := Of(rows, info.package), Of(rows', info.package);
    assert Ahead(k, s, info) && i in s.builds && SameIdentity(s.builds[i], s'.builds[i]);
    NotLaterMeans(s', info, i);
    if NotLater(s', info, i) {
      var j :| j in s'.builds && s'.builds[j].evr == info.evr && s'.builds[i].started <= s'.builds[j].started;
      assert rows'.builds[j].package == info.package;
    } else {
      forall j | j in rows'.builds && rows'.builds[j].package == info.package && rows'.builds[j].evr == info.evr
        ensures rows'.builds[j].started < rows.builds[i].started
      {
        assert j in s'.builds;
      }
    }
  }

  /** The only build that can come in is the listed one, registered again. */
  lemma RegisteredAgain(k: Koji, rows: Rows, rows': Rows, info: Info, i: BuildId)
    requires Untagged(k, rows, rows', info) && i in rows'.builds && i !in rows.builds
    ensures rows'.builds[i].package == info.package ==>
              IsListedBuild(k, rows'.builds[i].(untagged := false), info)
  {
    if rows'.builds[i].package == info.package {
      assert i in Of(rows', info.package).builds && i !in Of(rows, info.package).builds;
      assert SameIdentity(NewBuild(k, info), rows'.builds[i]);
    }
  }

  method UntagOne(db: Tables, k: Koji, info: Info)
    requires db.Valid() && info.package in db.rows.packages && Prepared(k, db.rows, info)
    modifies db
    ensures db.Valid() && Untagged(k, old(db.rows), db.rows, info)
  {
    ghost var before := db.rows;
    if Ahead(k, Of(db.rows, info.package), info) {
      var lastValid := FindLastValid(db, k, info);
      ghost var mid := db.rows;
      AfterLooking(k, before, mid, info);
      db.SetUntagged(Later(db.rows, info.package, lastValid), true);
      UntaggedTurn(k, before, mid, db.rows, info, lastValid);
    } else {
      NotAhead(k, before, info);
    }
  }

  method CheckUntaggedBuilds(db: Tables, k: Koji, infos: seq<Info>)
    requires db.Valid() && Listing(infos)
    requires forall a | Known(db.rows, infos, a) :: Prepared(k, db.rows, infos[a])
    modifies db
    ensures db.Valid() && UntaggedSoFar(k, old(db.rows), db.rows, infos, |infos|)
  {
    var before := db.rows;
    PassStarts(k, before, infos);
    for n := 0 to |infos|
      invariant db.Valid() && UntaggedSoFar(k, before, db.rows, infos, n)
    {
      ghost var last := db.rows;
      if infos[n].package in before.packages {
        UntagOne(db, k, infos[n]);
      }
      UntaggedGoesOn(k, before, last, db.rows, infos, n);
    }
  }

  // ---- _check_retagged_builds ----

  function ToRetag(rows: Rows, info: Info): set<BuildId> {
    set i | i in rows.builds && rows.builds[i].package == info.package && rows.builds[i].evr == info.evr
      && rows.builds[i].untagged
  }

  /** One listed package's turn in _check_retagged_builds. */
  ghost predicate Retagged(k: Koji, rows: Rows, rows': Rows, info: Info) {
    && info.package in rows.packages && info.package in rows'.packages
    && Prepared(k, rows', info) && Grows(rows.builds, rows'.builds)
    && (forall q | q != info.package :: SameFor(rows, rows', q))
    && AfterRetagged(Of(rows, info.package), Of(rows', info.package), info)
    && (ToRetag(rows, info) == {} ==> rows' == rows)
  }

  ghost predicate RetaggedSoFar(k: Koji, before: Rows, now: Rows, infos: seq<Info>, n: nat) {
    && PassKeeps(k, before, now, infos)
    && (forall a | Known(before, infos, a) ::
          if a < n then AfterRetagged(Of(before, infos[a].package), Of(now, infos[a].package), infos[a])
          else Of(now, infos[a].package) == Of(before, infos[a].package))
    && ((forall a | Known(before, infos, a) :: ToRetag(before, infos[a]) == {}) ==> now == before)
  }

  lemma RetaggedTurn(k: Koji, rows: Rows, rows': Rows, info: Info)
    requires info.package in rows.packages && Prepared(k, rows, info) && AllAgree(rows')
    requires SameButPointers(WithUntagged(rows, ToRetag(rows, info), false), rows')
    requires forall q | q != info.package :: SameFor(rows, rows', q)
    requires ToRetag(rows, info) == {} ==> rows' == rows
    ensures Retagged(k, rows, rows', info)
  {
    UntaggedSlice(k, rows, ToRetag(rows, info), false, rows', info);
    var s := Of(rows, info.package);
    assert forall i | i in s.builds :: i in ToRetag(rows, info) <==>
        s.builds[i].untagged && s.builds[i].evr == info.evr;
  }

  lemma RetaggedGoesOn(k: Koji, before: Rows, last: Rows, now: Rows, infos: seq<Info>, n: nat)
    requires Listing(infos) && n < |infos| && RetaggedSoFar(k, before, last, infos, n)
    requires if Known(before, infos, n) then Retagged(k, last, now, infos[n]) else now == last
    ensures RetaggedSoFar(k, before, now, infos, n + 1)
  {
    if Known(before, infos, n) {
      PassGoesOn(k, before, last, now, infos, n);
    }
  }

  method RetagOne(db: Tables, k: Koji, info: Info)
    requires db.Valid() && info.package in db.rows.packages && Prepared(k, db.rows, info)
    modifies db
    ensures db.Valid() && Retagged(k, old(db.rows), db.rows, info)
  {
    ghost var before := db.rows;
    db.SetUntagged(ToRetag(db.rows, info), false);
    RetaggedTurn(k, before, db.rows, info);
  }

  method CheckRetaggedBuilds(db: Tables, k: Koji, infos: seq<Info>)
    requires db.Valid() && Listing(infos)
    requires forall a | Known(db.rows, infos, a) :: Prepared(k, db.rows, infos[a])
    modifies db
    ensures db.Valid() && RetaggedSoFar(k, old(db.rows), db.rows, infos, |infos|)
  {
    var before := db.rows;
    PassStarts(k, before, infos);
    for n := 0 to |infos|
      invariant db.Valid() && RetaggedSoFar(k, before, db.rows, infos, n)
    {
      ghost var last := db.rows;
      if infos[n].package in before.packages {
        RetagOne(db, k, infos[n]);
      }
      RetaggedGoesOn(k, before, last, db.rows, infos, n);
    }
  }

  // ---- refresh_latest_builds ----

  ghost predicate AllSettled(k: Koji, rows: Rows, infos: seq<Info>) {
    forall a | Known(rows, infos, a) :: Settled(k, RealTasks(rows), Of(rows, infos[a].package), infos[a])
  }

  /** A package that was ahead of Koji is back at the listed build. */
  ghost predicate AllReset(k: Koji, before: Rows, now: Rows, infos: seq<Info>) {
    forall a | Known(before, infos, a) && Ahead(k, Of(before, infos[a].package), infos[a]) ::
      infos[a].package in now.packages && Reset(Of(now, infos[a].package), infos[a])
  }

  lemma RealTasksGrow(rows: Rows, rows': Rows)
    requires Grows(rows.builds, rows'.builds)
    ensures RealTasks(rows) <= RealTasks(rows')
  {
    forall t | t in RealTasks(rows) ensures t in RealTasks(rows') {
      var i :| i in rows.builds && rows.builds[i].real_ && rows.builds[i].task == t;
      assert SameIdentity(rows.builds[i], rows'.builds[i]);
      assert rows'.builds[i].real_ && rows'.builds[i].task == t;
    }
  }

  /** What the three passes did for one listed package */
  lemma ListedSlices(k: Koji, r0: Rows, r1: Rows, r2: Rows, r3: Rows, infos: seq<Info>, a: int)
    requires AllAgree(r0) && Known(r0, infos, a)
    requires NewSoFar(k, RealTasks(r0), r0, r1, infos, |infos|)
    requires UntaggedSoFar(k, r1, r2, infos, |infos|) && RetaggedSoFar(k, r2, r3, infos, |infos|)
    ensures Known(r1, infos, a) && Known(r2, infos, a) && Known(r3, infos, a)
    ensures Current(Of(r0, infos[a].package))
    ensures AfterNew(k, RealTasks(r0), Of(r0, infos[a].package), Of(r1, infos[a].package), infos[a])
    ensures AfterUntagged(k, Of(r1, infos[a].package), Of(r2, infos[a].package), infos[a])
    ensures AfterRetagged(Of(r2, infos[a].package), Of(r3, infos[a].package), infos[a])
  {
    assert Known(r1, infos, a) && Known(r2, infos, a);
    assert Agrees(r0, infos[a].package);
    AgreesIsCurrent(r0, infos[a].package);
  }

  lemma RefreshSettles(k: Koji, r0: Rows, r1: Rows, r2: Rows, r3: Rows, infos: seq<Info>, a: int)
    requires Asymmetric(k) && AllAgree(r0) && Known(r0, infos, a)
    requires NewSoFar(k, RealTasks(r0), r0, r1, infos, |infos|)
    requires UntaggedSoFar(k, r1, r2, infos, |infos|) && RetaggedSoFar(k, r2, r3, infos, |infos|)
    ensures Known(r3, infos, a) && Settled(k, RealTasks(r3), Of(r3, infos[a].package), infos[a])
    ensures Ahead(k, Of(r0, infos[a].package), infos[a]) ==> Reset(Of(r3, infos[a].package), infos[a])
  {
    var info := infos[a];
    var pkg := info.package;
    ListedSlices(k, r0, r1, r2, r3, infos, a);
    GrowsTwice(r0.builds, r1.builds, r2.builds);
    GrowsTwice(r0.builds, r2.builds, r3.builds);
    RealTasksGrow(r0, r3);
    if HasReal(Of(r3, pkg), info.task) {
      RealTaskOf(r3, pkg, info.task);
    }
    SettledAfterAll(k, RealTasks(r0), RealTasks(r3), Of(r0, pkg), Of(r1, pkg), Of(r2, pkg), Of(r3, pkg), info);
    ResetAfterAll(k, RealTasks(r0), Of(r0, pkg), Of(r1, pkg), Of(r2, pkg), Of(r3, pkg), info);
  }

  lemma ResetAfterAll(k: Koji, existing: set<TaskId>, s0: Slice, s1: Slice, s2: Slice, s3: Slice, info: Info)
    requires Asymmetric(k)
    requires AfterNew(k, existing, s0, s1, info) && AfterUntagged(k, s1, s2, info) && AfterRetagged(s2, s3, info)
    ensures Ahead(k, s0, info) ==> Reset(s3, info)
  {
    if Ahead(k, s0, info) {
      AheadIsNotBehind(k, s0, info);
      RetaggingResets(k, s1, s2, s3, info);
    }
  }

  lemma AheadIsNotBehind(k: Koji, s: Slice, info: Info)
    requires Asymmetric(k) && Ahead(k, s, info)
    ensures !Behind(k, s, info)
  {
  }

  lemma AllRefreshed(k: Koji, r0: Rows, r1: Rows, r2: Rows, r3: Rows, infos: seq<Info>)
    requires Asymmetric(k) && AllAgree(r0) && NewSoFar(k, RealTasks(r0), r0, r1, infos, |infos|)
    requires UntaggedSoFar(k, r1, r2, infos, |infos|) && RetaggedSoFar(k, r2, r3, infos, |infos|)
    ensures AllSettled(k, r3, infos) && AllReset(k, r0, r3, infos)
  {
    forall a | Known(r3, infos, a) ensures Settled(k, RealTasks(r3), Of(r3, infos[a].package), infos[a]) {
      assert Known(r2, infos, a) && Known(r1, infos, a) && Known(r0, infos, a);
      RefreshSettles(k, r0, r1, r2, r3, infos, a);
    }
    forall a | Known(r0, infos, a) && Ahead(k, Of(r0, infos[a].package), infos[a])
      ensures infos[a].package in r3.packages && Reset(Of(r3, infos[a].package), infos[a])
    {
      RefreshSettles(k, r0, r1, r2, r3, infos, a);
    }
  }

  lemma SettledStays(k: Koji, r0: Rows, r1: Rows, r2: Rows, r3: Rows, infos: seq<Info>)
    requires AllSettled(k, r0, infos) && NewSoFar(k, RealTasks(r0), r0, r1, infos, |infos|)
    requires UntaggedSoFar(k, r1, r2, infos, |infos|) && RetaggedSoFar(k, r2, r3, infos, |infos|)
    ensures r3 == r0
  {
    forall a | Known(r0, infos, a) ensures NothingToRegister(k, RealTasks(r0), Of(r0, infos[a].package), infos[a]) {
    }
    forall a | Known(r0, infos, a) ensures !Ahead(k, Of(r0, infos[a].package), infos[a]) {
    }
    forall a | Known(r0, infos, a) ensures ToRetag(r0, infos[a]) == {} {
      var s := Of(r0, infos[a].package);
      assert Settled(k, RealTasks(r0), s, infos[a]);
      assert forall i | i in ToRetag(r0, infos[a]) :: i in s.builds;
    }
  }

  lemma PassesKeep(k: Koji, r0: Rows, r1: Rows, r2: Rows, r3: Rows, infos: seq<Info>)
    requires PassKeeps(k, r0, r1, infos) && PassKeeps(k, r1, r2, infos) && PassKeeps(k, r2, r3, infos)
    ensures PassKeeps(k, r0, r3, infos)
  {
    GrowsTwice(r0.builds, r1.builds, r2.builds);
    GrowsTwice(r0.builds, r2.builds, r3.builds);
    forall a | Known(r0, infos, a) ensures Prepared(k, r3, infos[a]) {
      assert Known(r2, infos, a);
    }
    forall q | Unlisted(infos, q) ensures SameFor(r0, r3, q) {
      SameForTwice(r0, r1, r2, q);
      SameForTwice(r0, r2, r3, q);
    }
  }

  /** What a refresh leaves of a listed package, in the columns of its rows. */
  ghost predicate Refreshed(k: Koji, before: Rows, now: Rows, info: Info) {
    && info.package in before.packages && info.package in now.packages
    && var last, was := now.packages[info.package].lastBuild, before.packages[info.package].lastBuild;
       // its last build is tagged, and not newer than the listed one
       && (last.Some? ==>
             (last.value in now.builds && now.builds[last.value].package == info.package
              && !now.builds[last.value].untagged && !k.newer(now.builds[last.value].evr, info.evr)))
       // the builds with the listed EVR are tagged
       && (forall i | i in now.builds && now.builds[i].package == info.package && now.builds[i].evr == info.evr ::
             !now.builds[i].untagged)
       // if the package was ahead, the last one of them is its last build, or none if there is none
       && (was.Some? && was.value in before.builds && k.newer(before.builds[was.value].evr, info.evr) ==>
             match last
             case Some(l) => now.builds[l].evr == info.evr
                             && forall i | i in now.builds && now.builds[i].package == info.package
                                           && now.builds[i].evr == info.evr ::
                                  now.builds[i].started <= now.builds[l].started
             case None => forall i | i in now.builds && now.builds[i].package == info.package ::
                            now.builds[i].evr != info.evr)
       && !Missing(k, now, info)
  }

  lemma RefreshedMeans(k: Koji, before: Rows, now: Rows, infos: seq<Info>, a: nat)
    requires AllAgree(before) && AllAgree(now) && PassKeeps(k, before, now, infos)
    requires AllSettled(k, now, infos) && AllReset(k, before, now, infos)
    requires a < |infos| && infos[a].package in before.packages
    ensures Refreshed(k, before, now, infos[a])
  {
    var info := infos[a];
    assert Known(now, infos, a) && Known(before, infos, a);
    assert Agrees(before, info.package) && Agrees(now, info.package);
    var s := Of(now, info.package);
    AgreesIsCurrent(now, info.package);
    assert Settled(k, RealTasks(now), s, info);
    forall i | i in now.builds && now.builds[i].package == info.package
      ensures i in s.builds && s.builds[i] == now.builds[i]
    {
    }
    WasAhead(k, before, info);
    if Missing(k, now, info) {
      assert info.task !in RealTasks(now);
      assert WantsNew(k, RealTasks(now), s, info);
    }
  }

  lemma WasAhead(k: Koji, rows: Rows, info: Info)
    requires info.package in rows.packages && Agrees(rows, info.package)
    ensures
      var was := rows.packages[info.package].lastBuild;
      was.Some? && was.value in rows.builds && k.newer(rows.builds[was.value].evr, info.evr) ==>
        Ahead(k, Of(rows, info.package), info)
  {
  }

  /** After a refresh no listed package's last build is newer than Koji's; where it was, it is now the
      newest build with the listed EVR, or none if there is none; and there is nothing left to do. */
  method RefreshLatestBuilds(db: Tables, k: Koji, infos: seq<Info>)
    requires db.Valid() && Listing(infos) && Asymmetric(k)
    requires forall a | Known(db.rows, infos, a) :: Prepared(k, db.rows, infos[a])
    modifies db
    ensures db.Valid() && PassKeeps(k, old(db.rows), db.rows, infos)
    ensures AllSettled(k, db.rows, infos) && AllReset(k, old(db.rows), db.rows, infos)
    ensures AllSettled(k, old(db.rows), infos) ==> db.rows == old(db.rows)
    ensures forall a: nat | a < |infos| && infos[a].package in old(db.rows).packages ::
              Refreshed(k, old(db.rows), db.rows, infos[a])
  {
    ghost var r0 := db.rows;
    CheckNewRealBuilds(db, k, infos);
    ghost var r1 := db.rows;
    CheckUntaggedBuilds(db, k, infos);
    ghost var r2 := db.rows;
    CheckRetaggedBuilds(db, k, infos);
    PassesKeep(k, r0, r1, r2, db.rows, infos);
    AllRefreshed(k, r0, r1, r2, db.rows, infos);
    if AllSettled(k, r0, infos) {
      SettledStays(k, r0, r1, r2, db.rows, infos);
    }
    forall a: nat | a < |infos| && infos[a].package in r0.packages ensures Refreshed(k, r0, db.rows, infos[a]) {
      RefreshedMeans(k, r0, db.rows, infos, a);
    }
  }

  /** Refreshing again with the same listing and task data changes nothing at all. */
  method RefreshTwice(db: Tables, k: Koji, infos: seq<Info>) returns (afterFirst: Rows)
    requires db.Valid() && Listing(infos) && Asymmetric(k)
    requires forall a | Known(db.rows, infos, a) :: Prepared(k, db.rows, infos[a])
    modifies db
    ensures db.rows == afterFirst && AllSettled(k, db.rows, infos) && AllReset(k, old(db.rows), db.rows, infos)
  {
    RefreshLatestBuilds(db, k, infos);
    afterFirst := db.rows;
    RefreshLatestBuilds(db, k, infos);
  }
}
