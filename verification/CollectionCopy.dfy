/** `copy_collection`: a deep copy of the packages of a collection, with their builds, tasks, dependency
    changes and resolution history, in which triggers set the pointers of the copies. */
module CollectionCopy {
  import opened Wrappers
  import RpmVersion
  import opened Builds
  import opened Database
  import opened RowCopies

  type CollectionId = nat

  /** A row of koji_task, resolution_change, resolution_problem or applied_change: its parent's id and
      its other columns. */
  datatype Child = Child(parent: Id, columns: string)

  type Children = map<Id, Child>

  function PackageOf(b: Build): Id {
    b.package
  }

  function MoveBuild(b: Build, p: Id): Build {
    b.(package := p)
  }

  function ParentOf(c: Child): Id {
    c.parent
  }

  function MoveChild(c: Child, p: Id): Child {
    c.(parent := p)
  }

  /** A copied package row: unapplied changes are rows of their own, which are not copied. */
  function CopiedPackage(p: Package): Package {
    p.(unappliedChanges := 0)
  }

  function InCollection(rows: Rows, collectionOf: map<PackageId, CollectionId>, c: CollectionId): set<PackageId> {
    set p | p in rows.packages && p in collectionOf && collectionOf[p] == c
  }

  /** The WHERE clause for builds: recent, unless the copy is minimal, or the last complete build of a
      package in `packages`, those of the target collection. */
  function WantedBuilds(rows: Rows, packages: set<PackageId>, minimal: bool, monthAgo: int): set<BuildId> {
    set i | i in rows.builds &&
      ((!minimal && rows.builds[i].started > monthAgo) || exists q ::
          q in packages && q in rows.packages && rows.packages[q].lastComplete == Some(i))
  }

  /** The builds that the copy takes out of those of `packages`: the recent ones, unless it is minimal,
      and the last complete build of each. */
  function Taken(rows: Rows, packages: set<PackageId>, minimal: bool, monthAgo: int): set<BuildId> {
    set i | i in rows.builds && rows.builds[i].package in packages &&
      ((!minimal && rows.builds[i].started > monthAgo) || IsLastComplete(rows, i))
  }

  predicate IsLastComplete(rows: Rows, i: BuildId)
    requires i in rows.builds
  {
    rows.builds[i].package in rows.packages && rows.packages[rows.builds[i].package].lastComplete == Some(i)
  }

  /** What decides whether a build is copied with the package: it has a last complete one, or a recent one
      that the copy takes. */
  ghost predicate BringsBuild(rows: Rows, p: PackageId, minimal: bool, monthAgo: int)
    requires p in rows.packages
  {
    || rows.packages[p].lastComplete.Some?
    || (!minimal && exists i :: i in rows.builds && rows.builds[i].package == p && rows.builds[i].started > monthAgo)
  }

  /** `packages'` is `packages` and the copies in `ids`. */
  ghost predicate PackagesCopied(packages: map<PackageId, Package>, packages': map<PackageId, Package>, ids: Copies) {
    && Injective(ids) && ids.Keys <= packages.Keys
    && (forall p | p in packages :: p in packages' && packages'[p] == packages[p])
    && (forall p | p in ids ::
          ids[p] !in packages && ids[p] in packages' && packages'[ids[p]] == CopiedPackage(packages[p]))
    && (forall q | q in packages' && q !in packages :: exists p :: p in ids && ids[p] == q)
  }

  /** `builds'` is `builds` and the copies in `ids`, which belong to the copies of their packages. */
  ghost predicate BuildsCopied(builds: map<BuildId, Build>, builds': map<BuildId, Build>, ids: Copies,
                               packageIds: Copies) {
    && Injective(ids) && ids.Keys <= builds.Keys
    && (forall i | i in builds :: i in builds' && builds'[i] == builds[i])
    && (forall i | i in ids :: builds[i].package in packageIds && ids[i] !in builds && ids[i] in builds'
                               && builds'[ids[i]] == builds[i].(package := packageIds[builds[i].package]))
    && (forall j | j in builds' && j !in builds :: exists i :: i in ids && ids[i] == j)
  }

  /** The tables after the copied packages and builds are inserted, before the triggers run. */
  ghost predicate RowsCopied(before: Rows, mid: Rows, packageIds: Copies, buildIds: Copies) {
    && PackagesCopied(before.packages, mid.packages, packageIds)
    && BuildsCopied(before.builds, mid.builds, buildIds, packageIds)
  }

  ghost predicate HasCopiedBuild(before: Rows, buildIds: Copies, p: PackageId) {
    exists i :: i in buildIds && i in before.builds && before.builds[i].package == p
  }

  // Pointers

  lemma OldPackagesSame(before: Rows, mid: Rows, packageIds: Copies, buildIds: Copies, q: PackageId)
    requires AllAgree(before) && RowsCopied(before, mid, packageIds, buildIds) && q in before.packages
    ensures SameFor(before, mid, q) && Agrees(mid, q)
  {
    forall i | i in mid.builds && i !in before.builds ensures mid.builds[i].package != q {
      var o :| o in buildIds && buildIds[o] == i;
    }
    assert Agrees(before, q);
    SameForKeepsAgreement(before, mid, q);
  }

  /** A copied build belongs to the copy of the package of its original. */
  lemma CopyOfBuild(before: Rows, mid: Rows, packageIds: Copies, buildIds: Copies, p: PackageId,
                    j: BuildId) returns (i: BuildId)
    requires AllAgree(before) && RowsCopied(before, mid, packageIds, buildIds) && p in packageIds
    requires j in mid.builds && mid.builds[j].package == packageIds[p]
    ensures i in buildIds && buildIds[i] == j && i in before.builds && before.builds[i].package == p
    ensures mid.builds[j] == before.builds[i].(package := packageIds[p])
  {
    assert j !in before.builds;
    i :| i in buildIds && buildIds[i] == j;
  }

  lemma CopyIsTrustworthy(before: Rows, mid: Rows, packageIds: Copies, buildIds: Copies, p: PackageId)
    requires AllAgree(before) && RowsCopied(before, mid, packageIds, buildIds) && p in packageIds
    ensures Trustworthy(mid, packageIds[p])
  {
    var q := packageIds[p];
    var last := before.packages[p].lastComplete;
    assert Agrees(before, p) && mid.packages[q].lastComplete == last;
    if last.Some? {
      assert last.value in before.builds && mid.builds[last.value].package == p;
      assert last.value !in Finished(mid, q);
    } else {
      forall j | j in mid.builds && mid.builds[j].package == q ensures !mid.builds[j].lastComplete {
        var i := CopyOfBuild(before, mid, packageIds, buildIds, p, j);
      }
    }
  }

  lemma CopiedIsReady(before: Rows, mid: Rows, packageIds: Copies, buildIds: Copies)
    requires AllAgree(before) && RowsCopied(before, mid, packageIds, buildIds)
    ensures UpdatedSoFar(mid, mid, {})
    ensures forall i | i in mid.builds :: mid.builds[i].package in mid.packages
  {
    SameButPointersToItself(mid);
    forall q | q in mid.packages ensures OnTheWay(mid, mid, {}, q) {
      if q in before.packages {
        OldPackagesSame(before, mid, packageIds, buildIds, q);
      } else {
        var p :| p in packageIds && packageIds[p] == q;
        CopyIsTrustworthy(before, mid, packageIds, buildIds, p);
      }
    }
    forall i | i in mid.builds ensures mid.builds[i].package in mid.packages {
      if i !in before.builds {
        var o :| o in buildIds && buildIds[o] == i;
      }
    }
  }

  ghost predicate PointsElsewhere(rows: Rows, q: PackageId)
    requires q in rows.packages
  {
    var last := rows.packages[q].lastBuild;
    last.Some? && last.value in rows.builds && rows.builds[last.value].package != q
  }

  /** Once the triggers of the copied builds have run, a copied package has its
      pointers right exactly when a build comes with it or its original has none. */
  lemma PointersExactly(before: Rows, mid: Rows, rows: Rows, packageIds: Copies, buildIds: Copies, p: PackageId,
                        minimal: bool, monthAgo: int)
    requires AllAgree(before) && RowsCopied(before, mid, packageIds, buildIds)
    requires UpdatedSoFar(mid, rows, buildIds.Values) && p in packageIds
    requires buildIds.Keys == Taken(before, packageIds.Keys, minimal, monthAgo)
    ensures packageIds[p] in rows.packages
    ensures !BringsBuild(before, p, minimal, monthAgo) ==>
              rows.packages[packageIds[p]] == CopiedPackage(before.packages[p])
    ensures Agrees(rows, packageIds[p]) <==>
              BringsBuild(before, p, minimal, monthAgo) || HasNoPointers(before.packages[p])
  {
    var q := packageIds[p];
    assert OnTheWay(mid, rows, buildIds.Values, q);
    CopiedExactly(before, packageIds, buildIds, p, minimal, monthAgo);
    if HasCopiedBuild(before, buildIds, p) {
      CopiedIsTouched(before, mid, packageIds, buildIds, p);
    } else {
      NoneCopied(before, mid, packageIds, buildIds, p);
      NoBuilds(before, mid, rows, packageIds, buildIds, p);
    }
  }

  lemma OwnPointers(rows: Rows, q: PackageId)
    requires q in rows.packages && Agrees(rows, q)
    ensures !PointsElsewhere(rows, q)
  {
  }

  /** The last build of a copied package belongs to another package exactly when no build comes with it
      and its original has a last build. */
  lemma PointsElsewhereExactly(before: Rows, mid: Rows, rows: Rows, packageIds: Copies, buildIds: Copies, p: PackageId,
                               minimal: bool, monthAgo: int)
    requires AllAgree(before) && RowsCopied(before, mid, packageIds, buildIds)
    requires UpdatedSoFar(mid, rows, buildIds.Values) && p in packageIds
    requires buildIds.Keys == Taken(before, packageIds.Keys, minimal, monthAgo)
    ensures packageIds[p] in rows.packages
    ensures PointsElsewhere(rows, packageIds[p]) <==>
              !BringsBuild(before, p, minimal, monthAgo) && before.packages[p].lastBuild.Some?
  {
    var q := packageIds[p];
    PointersExactly(before, mid, rows, packageIds, buildIds, p, minimal, monthAgo);
    if Agrees(rows, q) {
      OwnPointers(rows, q);
    } else {
      LastBuildStays(before, mid, rows, packageIds, buildIds, p);
    }
  }

  lemma LastBuildStays(before: Rows, mid: Rows, rows: Rows, packageIds: Copies, buildIds: Copies, p: PackageId)
    requires AllAgree(before) && RowsCopied(before, mid, packageIds, buildIds)
    requires UpdatedSoFar(mid, rows, buildIds.Values) && p in packageIds && !HasNoPointers(before.packages[p])
    ensures
      var last := before.packages[p].lastBuild;
      last.Some? && last.value in rows.builds && rows.builds[last.value].package == p
  {
    assert Agrees(before, p);
    SameButPointersSameCandidates(mid, rows, p);
    OldPackagesSame(before, mid, packageIds, buildIds, p);
  }

  predicate HasNoPointers(p: Package) {
    p.lastBuild.None? && p.lastComplete.None?
  }

  lemma CopiedIsTouched(before: Rows, mid: Rows, packageIds: Copies, buildIds: Copies, p: PackageId)
    requires RowsCopied(before, mid, packageIds, buildIds) && p in packageIds && HasCopiedBuild(before, buildIds, p)
    ensures Touched(mid, buildIds.Values, packageIds[p])
  {
    var i :| i in buildIds && i in before.builds && before.builds[i].package == p;
    var j := buildIds[i];
    assert j in buildIds.Values && mid.builds[j].package == packageIds[p];
  }

  lemma NoneCopied(before: Rows, mid: Rows, packageIds: Copies, buildIds: Copies, p: PackageId)
    requires AllAgree(before) && RowsCopied(before, mid, packageIds, buildIds) && p in packageIds
    requires !HasCopiedBuild(before, buildIds, p)
    ensures forall j | j in mid.builds :: mid.builds[j].package != packageIds[p]
    ensures !Touched(mid, buildIds.Values, packageIds[p])
  {
    forall j | j in mid.builds ensures mid.builds[j].package != packageIds[p] {
      if mid.builds[j].package == packageIds[p] {
        var i := CopyOfBuild(before, mid, packageIds, buildIds, p, j);
      }
    }
  }

  lemma NoBuilds(before: Rows, mid: Rows, rows: Rows, packageIds: Copies, buildIds: Copies, p: PackageId)
    requires AllAgree(before) && RowsCopied(before, mid, packageIds, buildIds) && p in packageIds
    requires SameFor(mid, rows, packageIds[p]) && forall j | j in mid.builds :: mid.builds[j].package != packageIds[p]
    ensures packageIds[p] in rows.packages && rows.packages[packageIds[p]] == CopiedPackage(before.packages[p])
    ensures Agrees(rows, packageIds[p]) <==> HasNoPointers(before.packages[p])
  {
    var q := packageIds[p];
    assert Agrees(before, p);
    assert Tagged(rows, q) == {} && Finished(rows, q) == {};
  }

  lemma OldPackagesAfter(before: Rows, mid: Rows, rows: Rows, packageIds: Copies, buildIds: Copies, q: PackageId)
    requires AllAgree(before) && RowsCopied(before, mid, packageIds, buildIds)
    requires UpdatedSoFar(mid, rows, buildIds.Values) && q in before.packages
    ensures SameFor(before, rows, q)
  {
    OldPackagesSame(before, mid, packageIds, buildIds, q);
    assert OnTheWay(mid, rows, buildIds.Values, q);
    forall j | j in buildIds.Values ensures j in mid.builds && mid.builds[j].package != q {
      var i :| i in buildIds && buildIds[i] == j;
    }
    assert !Touched(mid, buildIds.Values, q);
    SameForTwice(before, mid, rows, q);
  }

  /** The query looks at the copied packages, whose pointers are still those of the originals, so that it
      yields the last complete builds of the originals. */
  lemma WantedExactly(before: Rows, mid: Rows, packageIds: Copies, target: set<PackageId>, minimal: bool, monthAgo: int)
    requires AllAgree(before) && mid.builds == before.builds
    requires PackagesCopied(before.packages, mid.packages, packageIds)
    requires packageIds.Values <= target <= mid.packages.Keys
    ensures (set i | i in before.builds && i in WantedBuilds(mid, target, minimal, monthAgo)
                     && before.builds[i].package in packageIds)
         == Taken(before, packageIds.Keys, minimal, monthAgo)
  {
    var wanted := WantedBuilds(mid, target, minimal, monthAgo);
    var taken := Taken(before, packageIds.Keys, minimal, monthAgo);
    forall i | i in before.builds && before.builds[i].package in packageIds ensures i in wanted <==> i in taken {
      var p := before.builds[i].package;
      if IsLastComplete(before, i) {
        assert packageIds[p] in target && mid.packages[packageIds[p]].lastComplete == Some(i);
      }
      if q :| q in target && q in mid.packages && mid.packages[q].lastComplete == Some(i) {
        LastCompleteOf(before, mid, packageIds, q, i);
      }
    }
  }

  lemma LastCompleteOf(before: Rows, mid: Rows, packageIds: Copies, q: PackageId, i: BuildId)
    requires AllAgree(before) && PackagesCopied(before.packages, mid.packages, packageIds)
    requires q in mid.packages && mid.packages[q].lastComplete == Some(i)
    ensures i in before.builds && IsLastComplete(before, i)
  {
    if q in before.packages {
      assert Agrees(before, q);
    } else {
      var p :| p in packageIds && packageIds[p] == q;
      assert Agrees(before, p);
    }
  }

  /** A build is copied with the package exactly when it has a last complete one or a recent one that the
      copy takes. */
  lemma CopiedExactly(before: Rows, packageIds: Copies, buildIds: Copies, p: PackageId, minimal: bool, monthAgo: int)
    requires AllAgree(before) && p in packageIds && p in before.packages
    requires buildIds.Keys == Taken(before, packageIds.Keys, minimal, monthAgo)
    ensures HasCopiedBuild(before, buildIds, p) <==> BringsBuild(before, p, minimal, monthAgo)
  {
    assert Agrees(before, p);
    if BringsBuild(before, p, minimal, monthAgo) {
      var last := before.packages[p].lastComplete;
      if last.Some? {
        assert last.value in buildIds.Keys;
      } else {
        var i :| i in before.builds && before.builds[i].package == p && before.builds[i].started > monthAgo;
        assert i in buildIds.Keys;
      }
    }
    if HasCopiedBuild(before, buildIds, p) {
      var i :| i in buildIds && i in before.builds && before.builds[i].package == p;
      assert i in buildIds.Keys;
    }
  }

  // The tables afterwards

  /** The copy of a package row has its columns but for the pointers that triggers set, and no unapplied
      changes. */
  ghost predicate PackageCopied(before: Rows, after: Rows, p: PackageId, q: PackageId)
    requires p in before.packages
  {
    && q !in before.packages && q in after.packages
    && var row, copied := before.packages[p], after.packages[q];
       && copied.tracked == row.tracked && copied.manualPriority == row.manualPriority
       && copied.dependencyPriority == row.dependencyPriority && copied.buildPriority == row.buildPriority
       && copied.unappliedChanges == 0
  }

  /** The copy of a build row belongs to the copy of its package and is the same up to its flag. */
  ghost predicate BuildCopied(before: Rows, after: Rows, packageIds: Copies, i: BuildId, j: BuildId)
    requires i in before.builds
  {
    && before.builds[i].package in packageIds && j !in before.builds && j in after.builds
    && after.builds[j] == before.builds[i].(
         package := packageIds[before.builds[i].package], lastComplete := after.builds[j].lastComplete)
  }

  /** The pointers of a copied package are right exactly when a build comes with it or its original has
      none; otherwise they are those of its original, and lead to builds of the original. */
  ghost predicate PointersFollow(before: Rows, after: Rows, p: PackageId, q: PackageId, minimal: bool, monthAgo: int)
    requires p in before.packages && q in after.packages
  {
    var brings := BringsBuild(before, p, minimal, monthAgo);
    && (Agrees(after, q) <==> brings || HasNoPointers(before.packages[p]))
    && (PointsElsewhere(after, q) <==> !brings && before.packages[p].lastBuild.Some?)
    && (!brings ==> after.packages[q] == CopiedPackage(before.packages[p]))
  }

  /** Every package that was there keeps its row and its builds; every source package and every build
      taken has one copy, and there are no other rows. */
  ghost predicate CollectionCopied(before: Rows, after: Rows, packageIds: Copies, buildIds: Copies, minimal: bool,
                                   monthAgo: int) {
    && Injective(packageIds) && Injective(buildIds) && packageIds.Keys <= before.packages.Keys
    && buildIds.Keys == Taken(before, packageIds.Keys, minimal, monthAgo)
    && (forall q | q in before.packages :: SameFor(before, after, q))
    && (forall p | p in packageIds :: PackageCopied(before, after, p, packageIds[p])
                                      && PointersFollow(before, after, p, packageIds[p], minimal, monthAgo))
    && (forall i | i in buildIds :: BuildCopied(before, after, packageIds, i, buildIds[i]))
    && after.packages.Keys == before.packages.Keys + packageIds.Values
    && after.builds.Keys == before.builds.Keys + buildIds.Values
  }

  lemma KeysAfter(before: Rows, mid: Rows, packageIds: Copies, buildIds: Copies)
    requires RowsCopied(before, mid, packageIds, buildIds)
    ensures mid.packages.Keys == before.packages.Keys + packageIds.Values
    ensures mid.builds.Keys == before.builds.Keys + buildIds.Values
  {
    forall q | q in packageIds.Values ensures q in mid.packages {
      var p :| p in packageIds && packageIds[p] == q;
    }
    forall j | j in buildIds.Values ensures j in mid.builds {
      var i :| i in buildIds && buildIds[i] == j;
    }
  }

  lemma CopyIsDone(before: Rows, mid: Rows, after: Rows, packageIds: Copies, buildIds: Copies, minimal: bool,
                   monthAgo: int)
    requires AllAgree(before) && RowsCopied(before, mid, packageIds, buildIds)
    requires UpdatedSoFar(mid, after, buildIds.Values)
    requires buildIds.Keys == Taken(before, packageIds.Keys, minimal, monthAgo)
    ensures CollectionCopied(before, after, packageIds, buildIds, minimal, monthAgo)
  {
    KeysAfter(before, mid, packageIds, buildIds);
    forall q | q in before.packages ensures SameFor(before, after, q) {
      OldPackagesAfter(before, mid, after, packageIds, buildIds, q);
    }
    forall p | p in packageIds
      ensures PackageCopied(before, after, p, packageIds[p])
      ensures PointersFollow(before, after, p, packageIds[p], minimal, monthAgo)
    {
      PointersExactly(before, mid, after, packageIds, buildIds, p, minimal, monthAgo);
      PointsElsewhereExactly(before, mid, after, packageIds, buildIds, p, minimal, monthAgo);
    }
    forall i | i in buildIds ensures BuildCopied(before, after, packageIds, i, buildIds[i]) {
    }
  }

  /** A package whose only build is running, and its minimal copy */
  lemma MinimalCopyPointsElsewhere() returns (before: Rows, after: Rows)
    ensures AllAgree(before) && CollectionCopied(before, after, map[1 := 2], map[], true, 0)
    ensures 2 in after.packages && !Agrees(after, 2) && PointsElsewhere(after, 2)
  {
    var build := Build(1, Running, 1, false, false, RpmVersion.Evr(Some(0), "1", "1"), false, 7);
    var package := Package(true, Some(5), None, None, 0, 0, 0, 0);
    before := Rows(map[5 := build], map[1 := package]);
    after := Rows(map[5 := build], map[1 := package, 2 := package]);
    assert Tagged(before, 1) == {5} && Finished(before, 1) == {};
    assert Agrees(before, 1);
    assert PointsElsewhere(after, 2) && 5 !in Tagged(after, 2);
    assert Taken(before, {1}, true, 0) == {};
    assert PackageCopied(before, after, 1, 2) && PointersFollow(before, after, 1, 2, true, 0);
  }

  method CopyBuildRows(builds: map<BuildId, Build>, packageIds: Copies, wanted: set<BuildId>, sequence: BuildId)
    returns (builds': map<BuildId, Build>, ids: Copies, next: BuildId)
    requires Below(builds, sequence)
    ensures ids.Keys == set i | i in builds && i in wanted && builds[i].package in packageIds
    ensures BuildsCopied(builds, builds', ids, packageIds) && Below(builds', next)
  {
    builds', ids, next := DeepCopyTable(builds, PackageOf, MoveBuild, packageIds, wanted, sequence);
  }

  method CopyPackageRows(packages: map<PackageId, Package>, ids: Copies) returns (copies: map<PackageId, Package>)
    requires Injective(ids) && ids.Keys <= packages.Keys && forall p | p in ids :: ids[p] !in packages
    ensures PackagesCopied(packages, copies, ids)
  {
    copies := packages;
    var todo := ids.Keys;
    while todo != {}
      invariant todo <= ids.Keys
      invariant forall p | p in packages :: p in copies && copies[p] == packages[p]
      invariant forall p | p in ids && p !in todo :: ids[p] in copies && copies[ids[p]] == CopiedPackage(packages[p])
      invariant forall q | q in copies && q !in packages :: exists p :: p in ids && ids[p] == q
    {
      var p :| p in todo;
      copies := copies[ids[p] := CopiedPackage(packages[p])];
      todo := todo - {p};
    }
  }

  /** The copied packages all belong to the collection `copy`. */
  function WithCollection(collectionOf: map<PackageId, CollectionId>, ids: set<PackageId>,
                          copy: CollectionId): map<PackageId, CollectionId> {
    collectionOf + map q | q in ids :: copy
  }

  lemma CopiesAreInTarget(before: Rows, mid: Rows, collectionOf: map<PackageId, CollectionId>, packageIds: Copies,
                          copy: CollectionId)
    requires PackagesCopied(before.packages, mid.packages, packageIds)
    ensures packageIds.Values <= InCollection(mid, WithCollection(collectionOf, packageIds.Values, copy), copy)
    ensures InCollection(mid, WithCollection(collectionOf, packageIds.Values, copy), copy) <= mid.packages.Keys
  {
    forall q | q in packageIds.Values ensures q in mid.packages {
      var p :| p in packageIds && packageIds[p] == q;
    }
  }

  datatype Table = Table(rows: Children, sequence: Id)

  /** Every row with a copied parent has one copy, which belongs to the copy of the parent and is the
      same otherwise; the rows that were there are unchanged, and there are no others. */
  ghost predicate TableCopied(before: Table, after: Table, ids: Copies, parents: Copies) {
    && Injective(ids) && ids.Keys == set i | i in before.rows && before.rows[i].parent in parents
    && (forall i | i in before.rows :: i in after.rows && after.rows[i] == before.rows[i])
    && (forall i | i in ids ::
          && i in before.rows && before.rows[i].parent in parents && ids[i] !in before.rows && ids[i] in after.rows
          && after.rows[ids[i]] == Child(parents[before.rows[i].parent], before.rows[i].columns))
    && (forall j | j in after.rows && j !in before.rows :: exists i :: i in ids && ids[i] == j)
  }

  method CopyTable(table: Table, parents: Copies) returns (table': Table, ids: Copies)
    requires Below(table.rows, table.sequence)
    ensures TableCopied(table, table', ids, parents) && Below(table'.rows, table'.sequence)
  {
    var rows, next;
    rows, ids, next := DeepCopyTable(table.rows, ParentOf, MoveChild, parents, table.rows.Keys, table.sequence);
    table' := Table(rows, next);
  }

  /** The tables below builds and packages */
  datatype ChildTables = ChildTables(tasks: Table, resolutionChanges: Table, resolutionProblems: Table,
                                     appliedChanges: Table)

  datatype ChildCopies = ChildCopies(tasks: Copies, resolutionChanges: Copies, resolutionProblems: Copies,
                                     appliedChanges: Copies)

  predicate IdsUsed(t: ChildTables) {
    && Below(t.tasks.rows, t.tasks.sequence) && Below(t.resolutionChanges.rows, t.resolutionChanges.sequence)
    && Below(t.resolutionProblems.rows, t.resolutionProblems.sequence) &&
        Below(t.appliedChanges.rows, t.appliedChanges.sequence)
  }

  ghost predicate ChildrenCopied(t: ChildTables, t': ChildTables, ids: ChildCopies, packages: Copies, builds: Copies) {
    && TableCopied(t.tasks, t'.tasks, ids.tasks, builds)
    && TableCopied(t.resolutionChanges, t'.resolutionChanges, ids.resolutionChanges, packages)
    && TableCopied(t.resolutionProblems, t'.resolutionProblems, ids.resolutionProblems, ids.resolutionChanges)
    && TableCopied(t.appliedChanges, t'.appliedChanges, ids.appliedChanges, builds)
  }

  method CopyChildren(t: ChildTables, packages: Copies, builds: Copies) returns (t': ChildTables, ids: ChildCopies)
    requires IdsUsed(t)
    ensures IdsUsed(t') && ChildrenCopied(t, t', ids, packages, builds)
  {
    var tasks, taskIds := CopyTable(t.tasks, builds);
    var changes, changeIds := CopyTable(t.resolutionChanges, packages);
    var problems, problemIds := CopyTable(t.resolutionProblems, changeIds);
    var applied, appliedIds := CopyTable(t.appliedChanges, builds);
    t', ids := ChildTables(tasks, changes, problems, applied), ChildCopies(taskIds, changeIds, problemIds, appliedIds);
  }

  /** The copies made by one run */
  datatype Copied = Copied(packages: Copies, builds: Copies, children: ChildCopies)

  /** package, build and the tables that hang off them */
  class Store {
    const tables: Tables
    var collectionOf: map<PackageId, CollectionId>
    var packageSequence: PackageId
    var children: ChildTables

    ghost predicate IdsValid()
      reads this, tables
    {
      && Below(tables.rows.packages, packageSequence) && IdsBelow(tables.rows, tables.buildIdSequence)
      && IdsUsed(children)
    }

    constructor (tables: Tables, packageSequence: PackageId)
      requires Below(tables.rows.packages, packageSequence) && IdsBelow(tables.rows, tables.buildIdSequence)
      ensures IdsValid() && this.tables == tables
    {
      this.tables, this.packageSequence := tables, packageSequence;
      collectionOf := map[];
      children := ChildTables(Table(map[], 1), Table(map[], 1), Table(map[], 1), Table(map[], 1));
    }

    method CopyPackages(source: CollectionId, copy: CollectionId) returns (ids: Copies)
      requires Below(tables.rows.packages, packageSequence)
      modifies tables`rows, this`collectionOf, this`packageSequence
      ensures ids.Keys == InCollection(old(tables.rows), old(collectionOf), source)
      ensures PackagesCopied(old(tables.rows.packages), tables.rows.packages, ids) &&
          tables.rows.builds == old(tables.rows.builds)
      ensures collectionOf == WithCollection(old(collectionOf), ids.Values, copy)
      ensures Below(tables.rows.packages, packageSequence)
    {
      var packages := tables.rows.packages;
      var originals := InCollection(tables.rows, collectionOf, source);
      ids, packageSequence := NewIds(originals, packageSequence);
      var copies := CopyPackageRows(packages, ids);
      tables.rows := tables.rows.(packages := copies);
      collectionOf := WithCollection(collectionOf, ids.Values, copy);
    }

    /** The statement that inserts the builds, and the trigger for each row; `mid` is the state between. */
    method CopyBuilds(ghost before: Rows, packageIds: Copies, wanted: set<BuildId>) returns (ids: Copies,
                      ghost mid: Rows)
      requires AllAgree(before) && before.builds == tables.rows.builds && IdsBelow(tables.rows, tables.buildIdSequence)
      requires PackagesCopied(before.packages, tables.rows.packages, packageIds)
      modifies tables
      ensures ids.Keys == set i | i in before.builds && i in wanted && before.builds[i].package in packageIds
      ensures RowsCopied(before, mid, packageIds, ids) && UpdatedSoFar(mid, tables.rows, ids.Values)
      ensures IdsBelow(tables.rows, tables.buildIdSequence) && mid.packages == old(tables.rows.packages)
      ensures tables.rows.packages.Keys == mid.packages.Keys
    {
      var builds, next;
      builds, ids, next := CopyBuildRows(tables.rows.builds, packageIds, wanted, tables.buildIdSequence);
      tables.rows, tables.buildIdSequence := tables.rows.(builds := builds), next;
      mid := tables.rows;
      CopiedIsReady(before, mid, packageIds, ids);
      tables.FireTriggers(ids.Values);
    }

    method CopyCollection(source: CollectionId, copy: CollectionId, minimal: bool, monthAgo: int) returns (c: Copied)
      requires IdsValid() && AllAgree(tables.rows)
      modifies this, tables
      ensures IdsValid()
      ensures c.packages.Keys == InCollection(old(tables.rows), old(collectionOf), source)
      ensures collectionOf == WithCollection(old(collectionOf), c.packages.Values, copy)
      ensures CollectionCopied(old(tables.rows), tables.rows, c.packages, c.builds, minimal, monthAgo)
      ensures ChildrenCopied(old(children), children, c.children, c.packages, c.builds)
    {
      ghost var before := tables.rows;
      var packages := CopyPackages(source, copy);
      var target := InCollection(tables.rows, collectionOf, copy);
      var wanted := WantedBuilds(tables.rows, target, minimal, monthAgo);
      CopiesAreInTarget(before, tables.rows, old(collectionOf), packages, copy);
      WantedExactly(before, tables.rows, packages, target, minimal, monthAgo);
      var builds;
      ghost var mid;
      builds, mid := CopyBuilds(before, packages, wanted);
      CopyIsDone(before, mid, tables.rows, packages, builds, minimal, monthAgo);
      assert children == old(children);
      var copied, childCopies := CopyChildren(children, packages, builds);
      children := copied;
      c := Copied(packages, builds, childCopies);
    }
  }
}
