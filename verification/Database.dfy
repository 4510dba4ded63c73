/** The build and package tables as the backend works on them: each statement runs with its triggers. */
module Database {
  import opened Wrappers
  import opened Builds

  lemma NewestOfOneMore(rows: Rows, done: set<BuildId>, r: Option<BuildId>, i: BuildId)
    requires done <= rows.builds.Keys && i in rows.builds && IsNewest(rows, done, r)
    ensures IsNewest(rows, done + {i},
              if r.None? || rows.builds[r.value].started < rows.builds[i].started then Some(i) else r)
  {
  }

  /** SELECT ... ORDER BY started DESC LIMIT 1 */
  method SelectNewest(rows: Rows, candidates: set<BuildId>) returns (r: Option<BuildId>)
    requires candidates <= rows.builds.Keys
    ensures IsNewest(rows, candidates, r)
  {
    r := None;
    var todo := candidates;
    ghost var done: set<BuildId> := {};
    while todo != {}
      invariant done + todo == candidates && IsNewest(rows, done, r)
      decreases |todo|
    {
      var i :| i in todo;
      NewestOfOneMore(rows, done, r, i);
      MoveOver(todo, done, i);
      if r.None? || rows.builds[r.value].started < rows.builds[i].started {
        r := Some(i);
      }
      todo, done := todo - {i}, done + {i};
    }
    assert done == candidates;
  }

  function ClearLastComplete(builds: map<BuildId, Build>, pkg: PackageId): map<BuildId, Build> {
    map i | i in builds ::
      if builds[i].lastComplete && builds[i].package == pkg then builds[i].(lastComplete := false) else builds[i]
  }

  function MarkLastComplete(builds: map<BuildId, Build>, lcb: Option<BuildId>): map<BuildId, Build> {
    map i | i in builds :: if lcb == Some(i) then builds[i].(lastComplete := true) else builds[i]
  }

  lemma FlagsMove(rows: Rows, pkg: PackageId, lcb: Option<BuildId>)
    requires lcb.Some? ==> lcb.value in rows.builds && rows.builds[lcb.value].package == pkg
    ensures MarkLastComplete(ClearLastComplete(rows.builds, pkg), lcb) == SetLastComplete(rows, pkg, lcb)
  {
  }

  ghost predicate IdsBelow(rows: Rows, n: nat) {
    forall i | i in rows.builds :: i < n
  }

  /** The two rows differ in nothing but the flag of the last complete build. */
  predicate SameButFlag(b: Build, b': Build) {
    && b'.package == b.package && b'.state == b.state && b'.started == b.started && b'.untagged == b.untagged
    && b'.evr == b.evr && b'.real_ == b.real_ && b'.task == b.task
  }

  /** No package row differs in anything but its pointers. */
  ghost predicate SamePackages(rows: Rows, rows': Rows) {
    && rows'.packages.Keys == rows.packages.Keys
    && forall q | q in rows.packages ::
         var p, p' := rows.packages[q], rows'.packages[q];
         && p'.tracked == p.tracked && p'.manualPriority == p.manualPriority
         && p'.dependencyPriority == p.dependencyPriority && p'.buildPriority == p.buildPriority
         && p'.unappliedChanges == p.unappliedChanges
  }

  /** The row `b` has come in as `id`. */
  ghost predicate InsertedOnly(rows: Rows, rows': Rows, id: BuildId, b: Build) {
    && SamePackages(rows, rows') && rows'.builds.Keys == rows.builds.Keys + {id} && SameButFlag(b, rows'.builds[id])
    && forall i | i in rows.builds :: SameButFlag(rows.builds[i], rows'.builds[i])
  }

  /** The build `id` has the state, and its other columns and the other builds are as before. */
  ghost predicate StateSetOnly(rows: Rows, rows': Rows, id: BuildId, state: BuildState) {
    && SamePackages(rows, rows') && rows'.builds.Keys == rows.builds.Keys && id in rows.builds
    && rows'.builds[id].state == state
    && SameButFlag(rows.builds[id], rows'.builds[id].(state := rows.builds[id].state))
    && forall i | i in rows.builds && i != id :: SameButFlag(rows.builds[i], rows'.builds[i])
  }

  /** The builds `ids` have the flag, and everything else is as before. */
  ghost predicate UntaggedSetOnly(rows: Rows, rows': Rows, ids: set<BuildId>, untagged: bool) {
    && SamePackages(rows, rows') && rows'.builds.Keys == rows.builds.Keys
    && forall i | i in rows.builds ::
         && rows'.builds[i].untagged == (if i in ids then untagged else rows.builds[i].untagged)
         && SameButFlag(rows.builds[i], rows'.builds[i].(untagged := rows.builds[i].untagged))
  }

  ghost predicate DeletedOnly(rows: Rows, rows': Rows, id: BuildId) {
    && SamePackages(rows, rows') && rows'.builds.Keys == rows.builds.Keys - {id}
    && forall i | i in rows'.builds :: SameButFlag(rows.builds[i], rows'.builds[i])
  }

  lemma InsertedMeans(rows: Rows, id: BuildId, b: Build, rows': Rows)
    requires id !in rows.builds && SameButPointers(Inserted(rows, id, b), rows')
    ensures InsertedOnly(rows, rows', id, b)
  {
    assert forall i | i in rows.builds :: i in Inserted(rows, id, b).builds;
  }

  lemma WithStateMeans(rows: Rows, id: BuildId, state: BuildState, rows': Rows)
    requires id in rows.builds && SameButPointers(WithState(rows, id, state), rows')
    ensures StateSetOnly(rows, rows', id, state)
  {
    assert forall i | i in rows.builds :: i in WithState(rows, id, state).builds;
  }

  lemma WithUntaggedMeans(rows: Rows, ids: set<BuildId>, untagged: bool, rows': Rows)
    requires SameButPointers(WithUntagged(rows, ids, untagged), rows')
    ensures UntaggedSetOnly(rows, rows', ids, untagged)
  {
    assert forall i | i in rows.builds :: i in WithUntagged(rows, ids, untagged).builds;
  }

  lemma DeletedMeans(rows: Rows, id: BuildId, rows': Rows)
    requires SameButPointers(Deleted(rows, id), rows')
    ensures DeletedOnly(rows, rows', id)
  {
    assert forall q | q in rows.packages :: q in Deleted(rows, id).packages;
  }

  lemma AfterInsert(rows: Rows, id: BuildId, b: Build, rows': Rows)
    requires AllAgree(rows) && IdsBelow(rows, id) && b.package in rows.packages && !b.lastComplete
    requires Updates(Inserted(rows, id, b), rows', b.package)
    ensures AllAgree(rows') && IdsBelow(rows', id + 1)
  {
    forall q | q in rows.packages ensures rows.packages[q].lastComplete != Some(id) {
      assert Agrees(rows, q);
    }
    InsertKeepsAgreement(rows, id, b, rows');
    UpdateTouches(Inserted(rows, id, b), rows', b.package);
  }

  lemma AfterState(rows: Rows, id: BuildId, state: BuildState, rows': Rows, n: nat)
    requires AllAgree(rows) && IdsBelow(rows, n) && id in rows.builds && state != rows.builds[id].state
    requires Updates(WithState(rows, id, state), rows', rows.builds[id].package)
    ensures IdsBelow(rows', n)
    ensures !FlipsLastComplete(rows, id, state) ==> AllAgree(rows')
    ensures FlipsLastComplete(rows, id, state) && DistinctStarted(rows, rows.builds[id].package) ==> !AllAgree(rows')
  {
    if !FlipsLastComplete(rows, id, state) {
      StateKeepsAgreement(rows, id, state, rows');
    } else if DistinctStarted(rows, rows.builds[id].package) {
      FlipBreaks(rows, id, state, rows');
    }
    UpdateTouches(WithState(rows, id, state), rows', rows.builds[id].package);
  }

  lemma AfterDelete(rows: Rows, id: BuildId, rows': Rows, n: nat)
    requires AllAgree(rows) && IdsBelow(rows, n) && id in rows.builds && !Referenced(rows, id) &&
        Deletes(rows, rows', id)
    ensures AllAgree(rows') && IdsBelow(rows', n)
  {
    DeleteKeepsAgreement(rows, id, rows');
    var mid, pkg := Deleted(rows, id), rows.builds[id].package;
    if mid.packages[pkg].lastBuild.None? {
      UpdateTouches(mid, rows', pkg);
    }
  }

  lemma DeletionTouches(rows: Rows, id: BuildId, rows': Rows)
    requires id in rows.builds && rows.builds[id].package in rows.packages && Deletes(rows, rows', id)
    ensures DeletedOnly(rows, rows', id)
  {
    var mid, pkg := Deleted(rows, id), rows.builds[id].package;
    if mid.packages[pkg].lastBuild.None? {
      UpdateTouches(mid, rows', pkg);
    }
    DeletedMeans(rows, id, rows');
  }

  /** The rows for which the trigger runs. */
  function Changed(rows: Rows, ids: set<BuildId>, untagged: bool): set<BuildId> {
    set i | i in ids && i in rows.builds && rows.builds[i].untagged != untagged
  }

  ghost predicate Touched(mid: Rows, done: set<BuildId>, q: PackageId) {
    exists i | i in done :: i in mid.builds && mid.builds[i].package == q
  }

  /** Part of the way through the triggers of one statement: a package with a row in `done` is right,
      any other is as the statement left it, and will be right once its trigger has run. */
  ghost predicate OnTheWay(mid: Rows, rows: Rows, done: set<BuildId>, q: PackageId) {
    && q in rows.packages
    && Trustworthy(rows, q)
    && (if Touched(mid, done, q) then Agrees(rows, q) else SameFor(mid, rows, q))
  }

  ghost predicate UpdatedSoFar(mid: Rows, rows: Rows, done: set<BuildId>) {
    SameButPointers(mid, rows) && forall q | q in mid.packages :: OnTheWay(mid, rows, done, q)
  }

  lemma SameButPointersToItself(a: Rows)
    ensures SameButPointers(a, a)
  {
  }

  lemma BeforeUpdates(before: Rows, ids: set<BuildId>, untagged: bool)
    requires AllAgree(before)
    ensures forall i | i in before.builds :: before.builds[i].package in before.packages
    ensures UpdatedSoFar(WithUntagged(before, ids, untagged), WithUntagged(before, ids, untagged), {})
  {
    var mid := WithUntagged(before, ids, untagged);
    SameButPointersToItself(mid);
    forall q | q in mid.packages ensures OnTheWay(mid, mid, {}, q) {
      assert Agrees(before, q);
      UntaggedIsTrustworthy(before, ids, untagged, q);
    }
  }

  lemma OtherOnTheWay(mid: Rows, last: Rows, rows: Rows, done: set<BuildId>, i: BuildId, q: PackageId)
    requires i in mid.builds && mid.builds[i].package != q
    requires OnTheWay(mid, last, done, q) && SameFor(last, rows, q)
    ensures OnTheWay(mid, rows, done + {i}, q)
  {
    SameForKeepsTrust(last, rows, q);
    SameForKeepsAgreement(last, rows, q);
    assert Touched(mid, done + {i}, q) <==> Touched(mid, done, q);
  }

  lemma SameButPointersTwice(a: Rows, b: Rows, c: Rows)
    requires SameButPointers(a, b) && SameButPointers(b, c)
    ensures SameButPointers(a, c)
  {
  }

  lemma AfterOneUpdate(mid: Rows, last: Rows, done: set<BuildId>, i: BuildId, rows: Rows, n: nat)
    requires UpdatedSoFar(mid, last, done) && IdsBelow(last, n)
    requires i in mid.builds && Updates(last, rows, mid.builds[i].package)
    ensures UpdatedSoFar(mid, rows, done + {i}) && IdsBelow(rows, n)
  {
    var pkg := mid.builds[i].package;
    assert OnTheWay(mid, last, done, pkg);
    UpdateTouches(last, rows, pkg);
    SameButPointersTwice(mid, last, rows);
    UpdateEstablishesAgreement(last, rows, pkg);
    forall q | q in mid.packages ensures OnTheWay(mid, rows, done + {i}, q) {
      if q != pkg {
        assert OnTheWay(mid, last, done, q) && SameFor(last, rows, q);
        OtherOnTheWay(mid, last, rows, done, i, q);
      } else {
        assert Touched(mid, done + {i}, q);
      }
    }
  }

  lemma MoveOver(todo: set<BuildId>, done: set<BuildId>, i: BuildId)
    requires i in todo
    ensures (done + {i}) + (todo - {i}) == done + todo && |todo - {i}| < |todo|
  {
  }

  lemma UntaggingNothing(rows: Rows, ids: set<BuildId>, untagged: bool)
    requires Changed(rows, ids, untagged) == {}
    ensures SameButPointers(WithUntagged(rows, ids, untagged), rows)
    ensures forall q :: SameFor(rows, rows, q)
  {
    forall i | i in rows.builds && i in ids ensures rows.builds[i].untagged == untagged {
      assert i !in Changed(rows, ids, untagged);
    }
    assert WithUntagged(rows, ids, untagged) == rows;
  }

  lemma UntaggedKeepsOthers(before: Rows, ids: set<BuildId>, untagged: bool, q: PackageId)
    requires ids <= before.builds.Keys
    requires forall i | i in ids && before.builds[i].untagged != untagged :: before.builds[i].package != q
    ensures SameFor(before, WithUntagged(before, ids, untagged), q)
  {
  }

  /** A package without a row in the statement is as it was before. */
  lemma UntouchedIsSame(before: Rows, ids: set<BuildId>, untagged: bool, changed: set<BuildId>, rows: Rows,
                        q: PackageId)
    requires ids <= before.builds.Keys &&
        (q in before.packages || forall i | i in before.builds :: before.builds[i].package != q)
    requires changed == Changed(before, ids, untagged)
    requires UpdatedSoFar(WithUntagged(before, ids, untagged), rows, changed)
    requires !Touched(WithUntagged(before, ids, untagged), changed, q)
    ensures SameFor(before, rows, q)
  {
    var mid := WithUntagged(before, ids, untagged);
    assert forall i | i in changed :: i in mid.builds && mid.builds[i].package == before.builds[i].package;
    UntaggedKeepsOthers(before, ids, untagged, q);
    if q in mid.packages {
      assert OnTheWay(mid, rows, changed, q);
    }
  }

  lemma AfterAllUpdates(before: Rows, ids: set<BuildId>, untagged: bool, changed: set<BuildId>, rows: Rows)
    requires AllAgree(before) && ids <= before.builds.Keys
    requires changed == Changed(before, ids, untagged)
    requires UpdatedSoFar(WithUntagged(before, ids, untagged), rows, changed)
    ensures AllAgree(rows)
    ensures SameButPointers(WithUntagged(before, ids, untagged), rows)
    ensures forall q | forall i | i in ids :: before.builds[i].package != q :: SameFor(before, rows, q)
  {
    var mid := WithUntagged(before, ids, untagged);
    forall q | forall i | i in ids :: before.builds[i].package != q ensures SameFor(before, rows, q) {
      UntouchedIsSame(before, ids, untagged, changed, rows, q);
    }
    forall q | q in rows.packages ensures Agrees(rows, q) {
      assert OnTheWay(mid, rows, changed, q);
      if !Touched(mid, changed, q) {
        UntouchedIsSame(before, ids, untagged, changed, rows, q);
        assert Agrees(before, q);
        SameForKeepsAgreement(before, rows, q);
      }
    }
  }

  class Tables {
    var rows: Rows
    var buildIdSequence: nat

    /** The pointers are right, and the sequence is ahead of every id in the table. */
    ghost predicate Valid()
      reads this
    {
      AllAgree(rows) && IdsBelow(rows, buildIdSequence)
    }

    constructor (packages: map<PackageId, Package>)
      requires forall q | q in packages ::
        packages[q].lastBuild.None? && packages[q].lastComplete.None? && packages[q].lastCompleteState.None?
      ensures Valid() && rows == Rows(map[], packages)
    {
      rows, buildIdSequence := Rows(map[], packages), 1;
    }

    method UpdateLastBuild(pkg: PackageId)
      requires pkg in rows.packages
      modifies this`rows
      ensures Updates(old(rows), rows, pkg)
    {
      ghost var before := rows;
      var lb := SelectNewest(rows, Tagged(rows, pkg));
      var lcb := lb;
      if StateOf(rows, lb) == Some(Running) {
        lcb := SelectNewest(rows, Finished(rows, pkg));
      }
      assert Selects(before, pkg, lb, lcb);
      if rows.packages[pkg].lastBuild != lb {
        rows := rows.(packages := rows.packages[pkg := rows.packages[pkg].(lastBuild := lb)]);
      }
      if rows.packages[pkg].lastComplete != lcb {
        rows := rows.(packages := rows.packages[pkg := rows.packages[pkg].(
          lastComplete := lcb, lastCompleteState := StateOf(rows, lcb))]);
        rows := rows.(builds := ClearLastComplete(rows.builds, pkg));
        rows := rows.(builds := MarkLastComplete(rows.builds, lcb));
        SelectsNewestFinished(before, pkg, lb, lcb);
        FlagsMove(before, pkg, lcb);
      }
      assert rows.packages == Pointed(before, pkg, lb, lcb).packages;
    }

    method InsertBuild(b: Build) returns (id: BuildId)
      requires Valid() && b.package in rows.packages && !b.lastComplete
      modifies this
      ensures Valid()
      ensures id !in old(rows).builds && Updates(Inserted(old(rows), id, b), rows, b.package)
      ensures InsertedOnly(old(rows), rows, id, b)
    {
      ghost var before := rows;
      id := buildIdSequence;
      buildIdSequence := buildIdSequence + 1;
      rows := Inserted(rows, id, b);
      UpdateLastBuild(b.package);
      AfterInsert(before, id, b, rows);
      UpdateTouches(Inserted(before, id, b), rows, b.package);
      InsertedMeans(before, id, b, rows);
    }

    /** UPDATE build SET state ... for one row. A build that counts as last complete is moved to the other
        finished state only at the price of the pointers. */
    method SetState(id: BuildId, state: BuildState)
      requires Valid() && id in rows.builds
      modifies this`rows
      ensures IdsBelow(rows, buildIdSequence)
      ensures !FlipsLastComplete(old(rows), id, state) ==> Valid()
      ensures (FlipsLastComplete(old(rows), id, state)
               && DistinctStarted(old(rows), old(rows).builds[id].package)) ==> !Valid()
      ensures if state == old(rows).builds[id].state then rows == old(rows)
              else Updates(WithState(old(rows), id, state), rows, old(rows).builds[id].package)
      ensures StateSetOnly(old(rows), rows, id, state)
    {
      ghost var before := rows;
      // the trigger ignores rows whose state is written but not changed
      if rows.builds[id].state != state {
        rows := WithState(rows, id, state);
        UpdateLastBuild(rows.builds[id].package);
        AfterState(before, id, state, rows, buildIdSequence);
        UpdateTouches(WithState(before, id, state), rows, before.builds[id].package);
        WithStateMeans(before, id, state, rows);
      }
    }

    /** The row triggers of one statement that has changed some rows. */
    method FireTriggers(changed: set<BuildId>)
      requires UpdatedSoFar(rows, rows, {}) && IdsBelow(rows, buildIdSequence)
      requires forall i | i in changed :: i in rows.builds && rows.builds[i].package in rows.packages
      modifies this`rows
      ensures UpdatedSoFar(old(rows), rows, changed) && IdsBelow(rows, buildIdSequence)
    {
      var statement := rows;
      var todo := changed;
      ghost var done: set<BuildId> := {};
      while todo != {}
        invariant done + todo == changed
        invariant UpdatedSoFar(statement, rows, done) && IdsBelow(rows, buildIdSequence)
        decreases |todo|
      {
        var i :| i in todo;
        MoveOver(todo, done, i);
        ghost var last := rows;
        UpdateLastBuild(statement.builds[i].package);
        AfterOneUpdate(statement, last, done, i, rows, buildIdSequence);
        todo, done := todo - {i}, done + {i};
      }
      assert done == changed;
    }

    /** UPDATE build SET untagged ... for some rows: all of them change, then the trigger runs for each
        one that did. */
    method SetUntagged(ids: set<BuildId>, untagged: bool)
      requires Valid() && ids <= rows.builds.Keys
      modifies this`rows
      ensures Valid()
      ensures SameButPointers(WithUntagged(old(rows), ids, untagged), rows)
      ensures UntaggedSetOnly(old(rows), rows, ids, untagged)
      ensures Changed(old(rows), ids, untagged) == {} ==> rows == old(rows)
      ensures forall q | forall i | i in ids :: old(rows).builds[i].package != q :: SameFor(old(rows), rows, q)
    {
      ghost var before := rows;
      var changed := Changed(rows, ids, untagged);
      // rows that are written but not changed fire no trigger
      if changed == {} {
        UntaggingNothing(rows, ids, untagged);
      } else {
        rows := WithUntagged(rows, ids, untagged);
        BeforeUpdates(before, ids, untagged);
        FireTriggers(changed);
        AfterAllUpdates(before, ids, untagged, changed, rows);
      }
      WithUntaggedMeans(before, ids, untagged, rows);
    }

    method ClearPriorityData(pkg: PackageId)
      requires Valid() && pkg in rows.packages
      modifies this`rows
      ensures Valid() && rows == Cleared(old(rows), pkg)
    {
      ClearedKeepsAgreement(rows, pkg);
      rows := Cleared(rows, pkg);
    }

    method DeleteRow(id: BuildId)
      requires id in rows.builds && rows.builds[id].package in rows.packages
      modifies this`rows
      ensures Deletes(old(rows), rows, id)
    {
      var pkg := rows.builds[id].package;
      rows := Deleted(rows, id);
      if rows.packages[pkg].lastBuild.None? {
        UpdateLastBuild(pkg);
      }
    }

    /** DELETE of one row; false if the foreign key forbids it. */
    method DeleteBuild(id: BuildId) returns (ok: bool)
      requires Valid() && id in rows.builds
      modifies this`rows
      ensures Valid()
      ensures ok <==> !Referenced(old(rows), id)
      ensures if ok then Deletes(old(rows), rows, id) && DeletedOnly(old(rows), rows, id) else rows == old(rows)
    {
      ghost var before := rows;
      ok := !Referenced(rows, id);
      if ok {
        DeleteRow(id);
        AfterDelete(before, id, rows, buildIdSequence);
        DeletionTouches(before, id, rows);
      }
    }
  }
}
