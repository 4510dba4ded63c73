/** The build and package tables with the triggers of `triggers.sql`, which keep each package's
    pointers to its last build and its last complete build up to date. */
module Builds {
  import opened Wrappers
  import opened RpmVersion

  type BuildId = nat
  type PackageId = nat
  type TaskId = nat

  datatype BuildState = Running | Complete | Failed

  datatype Build = Build(
    package: PackageId, state: BuildState, started: int, untagged: bool, lastComplete: bool,
    evr: Evr, real_: bool, task: TaskId)

  datatype Package = Package(
    tracked: bool, lastBuild: Option<BuildId>,
    lastComplete: Option<BuildId>, lastCompleteState: Option<BuildState>,
    manualPriority: int, dependencyPriority: int, buildPriority: int, unappliedChanges: nat)

  /** The two tables. */
  datatype Rows = Rows(builds: map<BuildId, Build>, packages: map<PackageId, Package>)

  // ---- What the pointers are meant to say ----

  /** Builds of the package that count, being neither untagged nor deleted in Koji. */
  function Tagged(rows: Rows, pkg: PackageId): set<BuildId> {
    set i | i in rows.builds && rows.builds[i].package == pkg && !rows.builds[i].untagged
  }

  function Finished(rows: Rows, pkg: PackageId): set<BuildId> {
    set i | i in Tagged(rows, pkg) && rows.builds[i].state != Running
  }

  /** ORDER BY started DESC LIMIT 1 over the candidates may yield `r`. */
  predicate IsNewest(rows: Rows, candidates: set<BuildId>, r: Option<BuildId>)
    requires candidates <= rows.builds.Keys
  {
    match r
    case None => candidates == {}
    case Some(i) => i in candidates && forall j | j in candidates :: rows.builds[j].started <= rows.builds[i].started
  }

  function StateOf(rows: Rows, r: Option<BuildId>): Option<BuildState> {
    if r.Some? && r.value in rows.builds then Some(rows.builds[r.value].state) else None
  }

  /** The package row and the flags of its builds describe `lastComplete`. */
  predicate Describes(rows: Rows, pkg: PackageId)
    requires pkg in rows.packages
  {
    var p := rows.packages[pkg];
    && p.lastCompleteState == StateOf(rows, p.lastComplete)
    && forall i | i in rows.builds && rows.builds[i].package == pkg ::
         rows.builds[i].lastComplete <==> p.lastComplete == Some(i)
  }

  predicate Agrees(rows: Rows, pkg: PackageId)
    requires pkg in rows.packages
  {
    && IsNewest(rows, Tagged(rows, pkg), rows.packages[pkg].lastBuild)
    && IsNewest(rows, Finished(rows, pkg), rows.packages[pkg].lastComplete)
    && Describes(rows, pkg)
  }

  /** What right pointers say, in the columns of the rows: the last build is the tagged one that started last,
      the last complete build the one of those that are complete or failed, its state is beside it and it
      alone has the flag. */
  lemma PointersMean(rows: Rows, pkg: PackageId)
    requires pkg in rows.packages && Agrees(rows, pkg)
    ensures match rows.packages[pkg].lastBuild
            case None => forall j | j in rows.builds && rows.builds[j].package == pkg :: rows.builds[j].untagged
            case Some(i) =>
              && i in rows.builds && rows.builds[i].package == pkg && !rows.builds[i].untagged
              && forall j | j in rows.builds && rows.builds[j].package == pkg && !rows.builds[j].untagged ::
                   rows.builds[j].started <= rows.builds[i].started
    ensures match rows.packages[pkg].lastComplete
            case None =>
              && rows.packages[pkg].lastCompleteState.None?
              && forall j | j in rows.builds && rows.builds[j].package == pkg && !rows.builds[j].untagged ::
                   rows.builds[j].state == Running
            case Some(i) =>
              && i in rows.builds && rows.builds[i].package == pkg && !rows.builds[i].untagged
              && (rows.builds[i].state == Complete || rows.builds[i].state == Failed)
              && rows.packages[pkg].lastCompleteState == Some(rows.builds[i].state)
              && forall j | j in rows.builds && rows.builds[j].package == pkg && !rows.builds[j].untagged
                            && (rows.builds[j].state == Complete || rows.builds[j].state == Failed) ::
                   rows.builds[j].started <= rows.builds[i].started
    ensures forall j | j in rows.builds && rows.builds[j].package == pkg ::
              rows.builds[j].lastComplete <==> rows.packages[pkg].lastComplete == Some(j)
  {
    forall j | j in rows.builds && rows.builds[j].package == pkg && !rows.builds[j].untagged
      ensures j in Tagged(rows, pkg)
    {
    }
    forall j | j in Tagged(rows, pkg) && rows.builds[j].state != Running ensures j in Finished(rows, pkg) {
    }
  }

  predicate AllAgree(rows: Rows) {
    && (forall i | i in rows.builds :: rows.builds[i].package in rows.packages)
    && (forall pkg | pkg in rows.packages :: Agrees(rows, pkg))
  }

  // ---- update_last_build ----

  function SetLastComplete(rows: Rows, pkg: PackageId, lcb: Option<BuildId>): map<BuildId, Build> {
    map i | i in rows.builds ::
      if rows.builds[i].package == pkg || lcb == Some(i)
      then rows.builds[i].(lastComplete := lcb == Some(i)) else rows.builds[i]
  }

  /** The rows that update_last_build selects. */
  predicate Selects(rows: Rows, pkg: PackageId, lb: Option<BuildId>, lcb: Option<BuildId>) {
    && IsNewest(rows, Tagged(rows, pkg), lb)
    && if StateOf(rows, lb) == Some(Running) then IsNewest(rows, Finished(rows, pkg), lcb) else lcb == lb
  }

  /** The tables after update_last_build has selected `lb` and `lcb`. */
  function Pointed(rows: Rows, pkg: PackageId, lb: Option<BuildId>, lcb: Option<BuildId>): Rows
    requires pkg in rows.packages
  {
    var p := rows.packages[pkg].(lastBuild := lb);
    if p.lastComplete == lcb then Rows(rows.builds, rows.packages[pkg := p])
    else Rows(SetLastComplete(rows, pkg, lcb),
              rows.packages[pkg := p.(lastComplete := lcb, lastCompleteState := StateOf(rows, lcb))])
  }

  ghost predicate Updates(rows: Rows, rows': Rows, pkg: PackageId) {
    pkg in rows.packages &&
    exists lb, lcb :: Selects(rows, pkg, lb, lcb) && rows' == Pointed(rows, pkg, lb, lcb)
  }

  /** What the tables say apart from the pointers: the trigger leaves it alone. */
  predicate SameButPointers(rows: Rows, rows': Rows) {
    && rows'.builds.Keys == rows.builds.Keys && rows'.packages.Keys == rows.packages.Keys
    && (forall i | i in rows.builds ::
          rows'.builds[i] == rows.builds[i].(lastComplete := rows'.builds[i].lastComplete))
    && (forall q | q in rows.packages :: rows'.packages[q] == rows.packages[q].(
          lastBuild := rows'.packages[q].lastBuild, lastComplete := rows'.packages[q].lastComplete,
          lastCompleteState := rows'.packages[q].lastCompleteState))
  }

  /** Everything that belongs to the package. */
  ghost predicate SameFor(rows: Rows, rows': Rows, pkg: PackageId) {
    && (pkg in rows.packages <==> pkg in rows'.packages)
    && (pkg in rows.packages ==> rows'.packages[pkg] == rows.packages[pkg])
    && (forall i :: i in rows.builds && rows.builds[i].package == pkg <==>
        i in rows'.builds && rows'.builds[i].package == pkg)
    && (forall i | i in rows.builds && rows.builds[i].package == pkg :: rows'.builds[i] == rows.builds[i])
  }

  /** The row can be left as it is where the pointer need not move. */
  ghost predicate Trustworthy(rows: Rows, pkg: PackageId)
    requires pkg in rows.packages
  {
    IsNewest(rows, Finished(rows, pkg), rows.packages[pkg].lastComplete) ==> Describes(rows, pkg)
  }

  /** Among tagged builds the newest one, if finished, is the newest finished one. */
  lemma SelectsNewestFinished(rows: Rows, pkg: PackageId, lb: Option<BuildId>, lcb: Option<BuildId>)
    requires Selects(rows, pkg, lb, lcb)
    ensures IsNewest(rows, Finished(rows, pkg), lcb)
  {
  }

  lemma SameForTwice(a: Rows, b: Rows, c: Rows, q: PackageId)
    requires SameFor(a, b, q) && SameFor(b, c, q)
    ensures SameFor(a, c, q)
  {
  }

  lemma SameForKeepsAgreement(rows: Rows, rows': Rows, pkg: PackageId)
    requires pkg in rows.packages && SameFor(rows, rows', pkg)
    ensures Agrees(rows', pkg) <==> Agrees(rows, pkg)
  {
    assert Tagged(rows', pkg) == Tagged(rows, pkg);
    assert Finished(rows', pkg) == Finished(rows, pkg);
    var p := rows.packages[pkg];
    if p.lastComplete.Some? && p.lastComplete.value in Finished(rows, pkg) {
      assert StateOf(rows, p.lastComplete) == StateOf(rows', p.lastComplete);
    }
  }

  lemma SameForKeepsTrust(rows: Rows, rows': Rows, pkg: PackageId)
    requires pkg in rows.packages && SameFor(rows, rows', pkg)
    ensures Trustworthy(rows', pkg) <==> Trustworthy(rows, pkg)
  {
    assert Tagged(rows', pkg) == Tagged(rows, pkg);
    assert Finished(rows', pkg) == Finished(rows, pkg);
    var r := rows.packages[pkg].lastComplete;
    if r.Some? && r.value in Finished(rows, pkg) {
      assert StateOf(rows, r) == StateOf(rows', r);
    }
  }

  lemma PointedTouches(rows: Rows, pkg: PackageId, lb: Option<BuildId>, lcb: Option<BuildId>)
    requires pkg in rows.packages
    ensures SameButPointers(rows, Pointed(rows, pkg, lb, lcb))
  {
  }

  lemma PointedKeepsOthers(rows: Rows, pkg: PackageId, lb: Option<BuildId>, lcb: Option<BuildId>, q: PackageId)
    requires pkg in rows.packages && q != pkg
    requires lcb.Some? ==> lcb.value in rows.builds && rows.builds[lcb.value].package == pkg
    ensures SameFor(rows, Pointed(rows, pkg, lb, lcb), q)
  {
  }

  /** The trigger touches no other package, and nothing but pointers. */
  lemma UpdateTouches(rows: Rows, rows': Rows, pkg: PackageId)
    requires Updates(rows, rows', pkg)
    ensures SameButPointers(rows, rows')
    ensures forall q | q != pkg :: SameFor(rows, rows', q)
  {
    var lb, lcb :| Selects(rows, pkg, lb, lcb) && rows' == Pointed(rows, pkg, lb, lcb);
    SelectsNewestFinished(rows, pkg, lb, lcb);
    PointedTouches(rows, pkg, lb, lcb);
    forall q | q != pkg ensures SameFor(rows, rows', q) {
      PointedKeepsOthers(rows, pkg, lb, lcb, q);
    }
  }

  /** Pointers do not matter to what they are chosen from. */
  lemma SameButPointersSameCandidates(rows: Rows, rows': Rows, pkg: PackageId)
    requires SameButPointers(rows, rows')
    ensures Tagged(rows', pkg) == Tagged(rows, pkg) && Finished(rows', pkg) == Finished(rows, pkg)
    ensures forall r :: StateOf(rows', r) == StateOf(rows, r)
    ensures forall r :: IsNewest(rows', Tagged(rows', pkg), r) <==> IsNewest(rows, Tagged(rows, pkg), r)
    ensures forall r :: IsNewest(rows', Finished(rows', pkg), r) <==> IsNewest(rows, Finished(rows, pkg), r)
  {
    assert forall i | i in rows.builds :: rows'.builds[i].started == rows.builds[i].started;
  }

  /** The trigger puts the pointers of its package right. */
  lemma UpdateEstablishesAgreement(rows: Rows, rows': Rows, pkg: PackageId)
    requires Updates(rows, rows', pkg) && Trustworthy(rows, pkg)
    ensures Agrees(rows', pkg)
  {
    var lb, lcb :| Selects(rows, pkg, lb, lcb) && rows' == Pointed(rows, pkg, lb, lcb);
    SelectsNewestFinished(rows, pkg, lb, lcb);
    UpdateTouches(rows, rows', pkg);
    SameButPointersSameCandidates(rows, rows', pkg);
    assert Describes(rows', pkg);
  }

  // ---- Statements on the build table ----

  /** A statement that changes one package's builds, followed by the trigger for that package. */
  lemma StatementKeepsAgreement(rows: Rows, mid: Rows, rows': Rows, pkg: PackageId)
    requires AllAgree(rows) && Updates(mid, rows', pkg) && Trustworthy(mid, pkg)
    requires mid.packages.Keys == rows.packages.Keys
    requires forall q | q in rows.packages && q != pkg :: SameFor(rows, mid, q)
    requires forall i | i in mid.builds :: mid.builds[i].package in mid.packages
    ensures AllAgree(rows')
  {
    UpdateEstablishesAgreement(mid, rows', pkg);
    UpdateTouches(mid, rows', pkg);
    forall q | q in rows'.packages && q != pkg ensures Agrees(rows', q) {
      assert Agrees(rows, q) && SameFor(rows, mid, q) && SameFor(mid, rows', q);
      SameForKeepsAgreement(rows, mid, q);
      SameForKeepsAgreement(mid, rows', q);
    }
  }

  /** INSERT of one row, before its trigger. */
  function Inserted(rows: Rows, id: BuildId, b: Build): Rows {
    rows.(builds := rows.builds[id := b])
  }

  lemma InsertKeepsAgreement(rows: Rows, id: BuildId, b: Build, rows': Rows)
    requires AllAgree(rows) && id !in rows.builds && b.package in rows.packages && !b.lastComplete
    requires forall q | q in rows.packages :: rows.packages[q].lastComplete != Some(id)
    requires Updates(Inserted(rows, id, b), rows', b.package)
    ensures AllAgree(rows')
  {
    var mid := Inserted(rows, id, b);
    var pkg := b.package;
    assert Agrees(rows, pkg);
    InsertedDescribes(rows, id, b);
    forall q | q in rows.packages && q != pkg ensures SameFor(rows, mid, q) {
      InsertedKeepsOthers(rows, id, b, q);
    }
    StatementKeepsAgreement(rows, mid, rows', pkg);
  }

  lemma InsertedKeepsOthers(rows: Rows, id: BuildId, b: Build, q: PackageId)
    requires id !in rows.builds && q != b.package
    ensures SameFor(rows, Inserted(rows, id, b), q)
  {
  }

  lemma InsertedDescribes(rows: Rows, id: BuildId, b: Build)
    requires b.package in rows.packages && Describes(rows, b.package) && id !in rows.builds && !b.lastComplete
    requires rows.packages[b.package].lastComplete != Some(id)
    ensures Describes(Inserted(rows, id, b), b.package)
  {
  }

  /** UPDATE of the state of one row, before its trigger. */
  function WithState(rows: Rows, id: BuildId, state: BuildState): Rows
    requires id in rows.builds
  {
    rows.(builds := rows.builds[id := rows.builds[id].(state := state)])
  }

  /** The change of state that the trigger does not pass on: the last complete build turns from one
      finished state to the other, so that the pointer need not move. */
  predicate FlipsLastComplete(rows: Rows, id: BuildId, state: BuildState)
    requires id in rows.builds && rows.builds[id].package in rows.packages
  {
    && rows.packages[rows.builds[id].package].lastComplete == Some(id)
    && state != Running && state != rows.builds[id].state
  }

  lemma StateIsTrustworthy(rows: Rows, id: BuildId, state: BuildState)
    requires AllAgree(rows) && id in rows.builds && !FlipsLastComplete(rows, id, state)
    ensures Trustworthy(WithState(rows, id, state), rows.builds[id].package)
  {
    var mid := WithState(rows, id, state);
    var pkg := rows.builds[id].package;
    assert Agrees(rows, pkg);
    var r := rows.packages[pkg].lastComplete;
    if IsNewest(mid, Finished(mid, pkg), r) {
      assert r == Some(id) ==> mid.builds[id].state == rows.builds[id].state;
      assert StateOf(mid, r) == StateOf(rows, r);
    }
  }

  lemma StateKeepsAgreement(rows: Rows, id: BuildId, state: BuildState, rows': Rows)
    requires AllAgree(rows) && id in rows.builds && !FlipsLastComplete(rows, id, state)
    requires state != rows.builds[id].state && Updates(WithState(rows, id, state), rows', rows.builds[id].package)
    ensures AllAgree(rows')
  {
    var mid := WithState(rows, id, state);
    StateIsTrustworthy(rows, id, state);
    forall q | q in rows.packages && q != rows.builds[id].package ensures SameFor(rows, mid, q) {
    }
    StatementKeepsAgreement(rows, mid, rows', rows.builds[id].package);
  }

  predicate DistinctStarted(rows: Rows, pkg: PackageId) {
    forall i, j | i in rows.builds && j in rows.builds && rows.builds[i].package == pkg == rows.builds[j].package
      && rows.builds[i].started == rows.builds[j].started :: i == j
  }

  lemma NewestIsUnique(rows: Rows, pkg: PackageId, a: Option<BuildId>, b: Option<BuildId>)
    requires DistinctStarted(rows, pkg) && IsNewest(rows, Finished(rows, pkg), a) &&
        IsNewest(rows, Finished(rows, pkg), b)
    ensures a == b
  {
  }

  lemma FlipKeepsFinished(rows: Rows, id: BuildId, state: BuildState)
    requires id in rows.builds && rows.builds[id].state != Running && state != Running &&
        DistinctStarted(rows, rows.builds[id].package)
    ensures
      var mid, pkg := WithState(rows, id, state), rows.builds[id].package;
      Finished(mid, pkg) == Finished(rows, pkg) && DistinctStarted(mid, pkg)
      && forall r :: IsNewest(mid, Finished(mid, pkg), r) <==> IsNewest(rows, Finished(rows, pkg), r)
  {
    var mid, pkg := WithState(rows, id, state), rows.builds[id].package;
    assert Tagged(mid, pkg) == Tagged(rows, pkg);
    assert forall i | i in rows.builds :: mid.builds[i].started == rows.builds[i].started;
  }

  /** The flip leaves the pointer where it is, and the old state beside it. */
  lemma FlipBreaks(rows: Rows, id: BuildId, state: BuildState, rows': Rows)
    requires AllAgree(rows) && id in rows.builds && DistinctStarted(rows, rows.builds[id].package)
    requires FlipsLastComplete(rows, id, state) && Updates(WithState(rows, id, state), rows', rows.builds[id].package)
    ensures !AllAgree(rows')
  {
    var mid := WithState(rows, id, state);
    var pkg := rows.builds[id].package;
    assert Agrees(rows, pkg);
    FlipKeepsFinished(rows, id, state);
    var lb, lcb :| Selects(mid, pkg, lb, lcb) && rows' == Pointed(mid, pkg, lb, lcb);
    SelectsNewestFinished(mid, pkg, lb, lcb);
    NewestIsUnique(mid, pkg, lcb, Some(id));
    assert !Describes(rows', pkg);
  }

  /** With distinct start times, an update of a build's state keeps the pointers right exactly when it
      is not such a flip. */
  lemma StateKeepsAgreementExactly(rows: Rows, id: BuildId, state: BuildState, rows': Rows)
    requires AllAgree(rows) && id in rows.builds && DistinctStarted(rows, rows.builds[id].package)
    requires state != rows.builds[id].state && Updates(WithState(rows, id, state), rows', rows.builds[id].package)
    ensures AllAgree(rows') <==> !FlipsLastComplete(rows, id, state)
  {
    if FlipsLastComplete(rows, id, state) {
      FlipBreaks(rows, id, state, rows');
    } else {
      StateKeepsAgreement(rows, id, state, rows');
    }
  }

  /** One complete build, which then turns out to have failed: the package goes on saying that its last
      complete build was fine. */
  lemma FlippedBuild() returns (rows: Rows, rows': Rows)
    ensures AllAgree(rows) && 7 in rows.builds && rows.builds[7].package == 1 && FlipsLastComplete(rows, 7, Failed)
    ensures Updates(WithState(rows, 7, Failed), rows', 1) && 7 in rows'.builds && rows'.builds[7].state == Failed
    ensures 1 in rows'.packages && rows'.packages[1].lastComplete == Some(7)
    ensures rows'.packages[1].lastCompleteState == Some(Complete) && !AllAgree(rows')
  {
    var build := Build(1, Complete, 1, false, true, Evr(None, "1", "1"), false, 3);
    rows := Rows(map[7 := build], map[1 := Package(true, Some(7), Some(7), Some(Complete), 0, 0, 0, 0)]);
    assert Tagged(rows, 1) == {7} == Finished(rows, 1);
    assert Agrees(rows, 1);
    rows' := WithState(rows, 7, Failed);
    assert Tagged(rows', 1) == {7};
    assert Selects(rows', 1, Some(7), Some(7)) && rows'.packages == Pointed(rows', 1, Some(7), Some(7)).packages;
    assert !Describes(rows', 1);
  }

  /** UPDATE of the untagged flag of some rows, before the triggers. */
  function WithUntagged(rows: Rows, ids: set<BuildId>, untagged: bool): Rows {
    rows.(builds := map i | i in rows.builds ::
      if i in ids then rows.builds[i].(untagged := untagged) else rows.builds[i])
  }

  lemma UntaggedIsTrustworthy(rows: Rows, ids: set<BuildId>, untagged: bool, pkg: PackageId)
    requires pkg in rows.packages && Agrees(rows, pkg)
    ensures Trustworthy(WithUntagged(rows, ids, untagged), pkg)
  {
    var mid := WithUntagged(rows, ids, untagged);
    assert StateOf(mid, rows.packages[pkg].lastComplete) == StateOf(rows, rows.packages[pkg].lastComplete);
    assert Describes(mid, pkg);
  }

  /** DELETE of one row and ON DELETE SET NULL of package.last_build_id, before the trigger. */
  function Deleted(rows: Rows, id: BuildId): Rows {
    Rows(rows.builds - {id},
         map q | q in rows.packages ::
           if rows.packages[q].lastBuild == Some(id) then rows.packages[q].(lastBuild := None) else rows.packages[q])
  }

  /** The foreign key package.last_complete_build_id forbids the deletion. */
  predicate Referenced(rows: Rows, id: BuildId) {
    exists q | q in rows.packages :: rows.packages[q].lastComplete == Some(id)
  }

  /** The trigger runs only if the package is left without a last build. */
  ghost predicate Deletes(rows: Rows, rows': Rows, id: BuildId)
    requires id in rows.builds && rows.builds[id].package in rows.packages
  {
    var mid := Deleted(rows, id);
    var pkg := rows.builds[id].package;
    if mid.packages[pkg].lastBuild.None? then Updates(mid, rows', pkg) else rows' == mid
  }

  lemma DeletedKeepsOthers(rows: Rows, id: BuildId, q: PackageId)
    requires AllAgree(rows) && id in rows.builds && q in rows.packages && q != rows.builds[id].package
    ensures SameFor(rows, Deleted(rows, id), q)
  {
    assert Agrees(rows, q);
  }

  /** Deleting a row that was not the newest leaves the newest one. */
  lemma NewestWithout(rows: Rows, id: BuildId, candidates: set<BuildId>, r: Option<BuildId>)
    requires candidates <= rows.builds.Keys && r != Some(id) && IsNewest(rows, candidates, r)
    ensures IsNewest(Deleted(rows, id), candidates - {id}, r)
  {
  }

  lemma DeletedCandidates(rows: Rows, id: BuildId, pkg: PackageId)
    ensures Tagged(Deleted(rows, id), pkg) == Tagged(rows, pkg) - {id}
    ensures Finished(Deleted(rows, id), pkg) == Finished(rows, pkg) - {id}
  {
  }

  /** Without the deleted build the pointers that are left are still right. */
  lemma DeletedDescribes(rows: Rows, id: BuildId)
    requires AllAgree(rows) && id in rows.builds && !Referenced(rows, id)
    ensures var mid, pkg := Deleted(rows, id), rows.builds[id].package;
      Describes(mid, pkg) && (mid.packages[pkg].lastBuild.Some? ==> Agrees(mid, pkg))
  {
    var mid := Deleted(rows, id);
    var pkg := rows.builds[id].package;
    assert Agrees(rows, pkg);
    assert StateOf(mid, rows.packages[pkg].lastComplete) == StateOf(rows, rows.packages[pkg].lastComplete);
    assert Describes(mid, pkg);
    DeletedCandidates(rows, id, pkg);
    NewestWithout(rows, id, Finished(rows, pkg), rows.packages[pkg].lastComplete);
    if mid.packages[pkg].lastBuild.Some? {
      NewestWithout(rows, id, Tagged(rows, pkg), rows.packages[pkg].lastBuild);
    }
  }

  lemma DeleteKeepsAgreement(rows: Rows, id: BuildId, rows': Rows)
    requires AllAgree(rows) && id in rows.builds && !Referenced(rows, id) && Deletes(rows, rows', id)
    ensures AllAgree(rows')
  {
    var mid := Deleted(rows, id);
    var pkg := rows.builds[id].package;
    DeletedDescribes(rows, id);
    forall q | q in rows.packages && q != pkg ensures SameFor(rows, mid, q) {
      DeletedKeepsOthers(rows, id, q);
    }
    if mid.packages[pkg].lastBuild.None? {
      StatementKeepsAgreement(rows, mid, rows', pkg);
    } else {
      forall q | q in mid.packages ensures Agrees(mid, q) {
        if q != pkg {
          SameForKeepsAgreement(rows, mid, q);
        }
      }
    }
  }

  // ---- clear_priority_data ----

  /** Resets the priorities that do not outlive a build, and drops the unapplied changes. */
  function Cleared(rows: Rows, pkg: PackageId): Rows
    requires pkg in rows.packages
  {
    rows.(packages := rows.packages[pkg := rows.packages[pkg].(
      manualPriority := 0, dependencyPriority := 0, buildPriority := 0, unappliedChanges := 0)])
  }

  lemma ClearedKeepsAgreement(rows: Rows, pkg: PackageId)
    requires AllAgree(rows) && pkg in rows.packages
    ensures AllAgree(Cleared(rows, pkg)) && forall q | q != pkg :: SameFor(rows, Cleared(rows, pkg), q)
  {
    var rows' := Cleared(rows, pkg);
    forall q | q in rows'.packages ensures Agrees(rows', q) {
      assert Agrees(rows, q);
      assert Tagged(rows', q) == Tagged(rows, q) && Finished(rows', q) == Finished(rows, q);
    }
  }
}
