# Koschei: models and proofs of its stateful protocols

Koschei rebuilds packages in Koji whenever their dependencies change, and shows what broke and why. This
project states what its stateful parts keep in every run and proves it with Dafny 4.11. `dafny verify
dfyconfig.toml` verifies all of it.

What is modelled, by file:

- `RwLock`, `FileLock`, `LockFiles`: the lock file of `koschei/util.py`, one system call at a time, over inodes and
  record locks, as a refinement of a readers-writer lock. `FileLock` is a lock for exactly those paths that
  are not both relaxed and locked shared afresh; a run shows what happens otherwise. Without
  crashes, the paths that are never locked shared afresh are exactly those left without a lock file.
- `FileCache`, `FileCacheInvariant`, `FileCacheRuns`, `FileCacheServing`, `FileCacheWaiting`,
  `FileCacheSections`: the on-disk repository cache as run by any number of processes that may crash anywhere.
  Readers are safe, the index is bounded, nobody waits in a circle. A crash before the item's directory exists
  leaves a preparing entry that no cleanup removes; a request on its own is served exactly when its item is
  ready or there are fewer such entries than the capacity. `FileCacheSections` has the statements that run
  under the index lock.
- `SystemCalls`, `SystemRuns`: the cache on top of the lock files. A run over single system calls is a run of
  the cache, so that its readers are safe there, too; and every run of the cache comes about by system calls.
- `RpmVersion`, `VersionLaws`, `AffectedBy`: the version order of `rpmvercmp.sql` with its NULLs, against a
  lexicographic order on symbols; what that order means on strings; and the interval query of the affected-by
  page built on it.
- `Builds`, `Database`: the build and package tables with their triggers, statement by statement.
- `Reconciliation`: the three passes that bring the tables in line with Koji's listing, and their fixed point.
- `MessageState`, `Completion`: completing a build under row locks, by concurrent processes.
- `Recency`, `DependencyCache`, `DependencyChanges`, `BuildResolver`: the dependency cache, the difference of
  two dependency lists, and what a resolution stores.
- `DependencyHistory`, `LateResolution`: the replay of a package's dependency history from stored differences,
  for builds resolved in any order, and a run in which it fails.
- `Distance`: the breadth-first search for dependency distances.
- `KeyArray`: the packed form of a list of dependency ids.
- `CoprScheduler`, `CoprRuns`: the queue of Copr rebuild requests, its turns, and runs of turns and polls.
- `ResolutionHistory`: resolution flags and the log of their changes.
- `RowCopies`, `CollectionCopy`: the deep copy of a collection.

Where the code falls short of what its documentation says, one member gives the exact condition and another
a concrete case:

- `FileLock.ExcludesExactlyWhenSound`, `FileLock.MixedUseBreaksExclusion`: a path that is relaxed in place and
  locked shared afresh as well.
- `FileCacheRuns.SweepOutcome` and `FileCacheRuns.LeakedEntryStays` say which entries a cleanup leaves: those
  without a directory, too, until their item is requested; `FileCacheRuns.CrashLeaksEntry` is a run that ends
  with one, and `FileCacheServing.ServedExactly` says when they keep a request from being served.
- `RpmVersion.AgreesExactly`, `RpmVersion.NoSegmentNoOrder`: version strings without any segment.
- `AffectedBy.ListedExactly`, `AffectedBy.DowngradeUnlisted`: a downgrade across the whole window is not listed.
- `Builds.StateKeepsAgreementExactly`, `Builds.FlippedBuild`: the last complete build turning from one finished
  state to the other.
- `Completion.CommitsOnceExactly`, `Completion.DifferentReportsCommitTwice`: processes that report different
  outcomes of one build.
- `DependencyChanges.DiffReplaysExactly`, `DependencyChanges.TwoOfOneName`: several removed or several added
  dependencies of one name.
- `DependencyHistory.RunReplaysExactly`, `LateResolution.LateRun`: builds are processed by repository id
  (`koschei/backend/services/build_resolver.py:53-60`), not by start time. Whether a build gets rows depends only
  on whether the build before it still has its list and another set of dependencies
  (`DependencyHistory.NoRowsExactly`); in order the rows always replay the history, and out of order exactly when
  each build fits the one before it.
- `CoprRuns.AlwaysKeptExactly`, `CoprScheduler.TurnOvershoots`: the next rebuild is not looked for within the
  chosen request, so a request can get more builds than its `schedule_count`, which `koschei/models.py:1076`
  rules out.
- `CollectionCopy.PointersExactly`, `CollectionCopy.MinimalCopyPointsElsewhere`: a package copied without any
  build keeps pointing at its original's builds.

Assumptions, next to those in each member's `requires`:

- Reading and renaming the index file, a transaction's commit and a system call on a lock file are single
  steps. The database gives row locks and atomic statements, and runs row triggers after their statement.
- At the level of inodes, relaxing a lock in place is atomic. At the level of the cache it need not be; only
  `FileCacheRuns.LocksAreUsedSoundly`, `SystemCalls` and `SystemRuns` ask for it.
- A process is in at most one `get_item` at a time.
- Versions, releases and start times of builds are not NULL; the builds of a package start at different times
  where Koji's listing is reconciled and where dependency history is replayed, the listing names each package
  once, and a build that started when a listed Koji task did is the build of that Koji task.
- A dependency list that is replayed names at least one package, and none twice
  (`DependencyChanges.DiffReplaysExactly` says what happens otherwise).
- The queue of Copr rebuilds is not edited during the runs of `CoprRuns`.
- RPM's own comparison in `Reconciliation`, hawkey's answers, Koji's and Copr's replies and the set of refused
  locks are parameters.
- `SELECT ... ORDER BY ... LIMIT 1` and `max()` are left to the database by the program; the loops that stand for
  them (`Database.SelectNewest`, `Reconciliation.LastValidBuild`,
  `BuildResolver.Service.GetPrevBuildForComparison`, and `LastIndex`, `FirstRequest` and `NextRebuild` of
  `CoprScheduler.Scheduler`) model the queries and are no evidence about the program.

## Model

| member | source | states |
|---|---|---|
| FileLock.StepKeepsInv | koschei/util.py:158-215 | each system call of lock, try_lock and unlock, and each crash, keeps the invariant over all handles, record locks and inodes of a path |
| FileLock.StepRefines | koschei/util.py:158-215 | every system call is one legal move of the readers-writer lock that callers see, or no move; in particular the inode check admits a new holder only next to compatible ones |
| FileLock.MutualExclusion | koschei/util.py:158-215 | after any run of any number of processes, through unlinking and recreating the file, two holders at once are two readers |
| FileLock.UnlinksOnlyItsOwnFile | koschei/util.py:200-215 | whoever is about to unlink is the only holder, and the path still names its own inode |
| FileLock.MixedUseBreaksExclusion | koschei/util.py:173-184 | a concrete run on a path that is both relaxed and locked shared afresh ends with an exclusive and a shared holder at once |
| FileLock.ExcludesExactlyWhenSound | koschei/util.py:158-215 | exclusion holds in all runs if and only if the path is not both relaxed and locked shared afresh |
| LockFiles.CheckDecides | koschei/util.py:170-185 | in any run: the lock is accepted in the mode asked for exactly when the inode locked is the one at the path, and otherwise the file is closed and lock() starts over with the same wish |
| LockFiles.GrantedAsAsked | koschei/util.py:158-198 | in any run: only try_lock is refused, only while another process has a conflicting record lock on the same inode; a lock that was granted is in the mode asked for and, if exclusive, will unlink the file |
| LockFiles.TidyExactly | koschei/util.py:200-212 | without crashes a path has no lock file left whenever everybody has unlocked, in all runs, if and only if it is never locked shared afresh |
| LockFiles.CrashLeavesFile | koschei/util.py:200-212 | a concrete run on any path: a crash leaves the lock file behind, with nobody holding the lock |
| FileCacheInvariant.KeyAfter | koschei/backend/file_cache.py:155-233 | whatever get_item does next, a request keeps its key until it is left |
| FileCacheInvariant.SweepAfter | koschei/backend/file_cache.py:135-152 | a cleanup keeps to the directories it found, and deletes the one whose lock it took |
| FileCacheInvariant.NothingTaken | koschei/backend/file_cache.py:145-231 | an action that does not wait for a lock holds nothing afterwards that was not held before in that mode or a stronger one |
| FileCacheInvariant.DirChange | koschei/backend/file_cache.py:145-151 | no action touches a directory whose item lock its process does not hold exclusively |
| FileCacheInvariant.HeldAfter | koschei/backend/file_cache.py:159-170 | an action keeps a lock, gives it up, relaxes it, or takes it when no other process holds it in a conflicting mode |
| FileCacheInvariant.ReservationSurvives | koschei/backend/file_cache.py:178-206 | whatever one process writes to the index, the preparing entry of another process that is creating its item stays |
| FileCacheInvariant.VictimsThin | koschei/backend/file_cache.py:183-191 | dropping the computed number of victims makes room, or leaves no ready entry |
| FileCacheInvariant.SweptKeeps | koschei/backend/file_cache.py:180-201 | a finished cleanup leads to a reservation with room, to a second cleanup, or to exhaustion without ready entries |
| FileCacheInvariant.StepKeepsInv | koschei/backend/file_cache.py:135-233 | every action of every process, crashes included, keeps the invariant of index, directories, locks and local dictionaries |
| FileCacheRuns.ReaderSafety | koschei/backend/file_cache.py:203-231 | while a process reads an item its directory is complete and unchanged, and no other process holds the lock that deleting or refilling it takes, in every interleaving |
| FileCacheRuns.CapacityKept | koschei/backend/file_cache.py:178-220 | the index never holds more entries than the capacity, or than it started with |
| FileCacheRuns.IndexInvariants | koschei/backend/file_cache.py:203-220 | at every point of a run: bounded index, ready entries are complete, and a process that made an item finds its preparing entry, so that popping it cannot fail |
| FileCacheRuns.SweepOutcome | koschei/backend/file_cache.py:141-152 | a cleanup removes exactly the entries that are not ready, whose directory it found and whose lock it got |
| FileCacheRuns.ExhaustedMeans | koschei/backend/file_cache.py:196-201 | CacheExhaustedException means at least capacity entries, all preparing, each without a directory or with a lock that was refused |
| FileCacheRuns.CrashLeaksEntry | koschei/backend/file_cache.py:203-209 | a concrete run: a crash between writing the preparing entry and creating the directory leaves an entry without directory |
| FileCacheRuns.LeakedEntryStays | koschei/backend/file_cache.py:141-152 | such an entry outlives every cleanup until the same item is requested again |
| FileCacheRuns.LeaksExhaustCache | koschei/backend/file_cache.py:180-205 | a process gets to create an item only while there are fewer such entries than the capacity |
| FileCacheRuns.StepMovesLock | koschei/backend/file_cache.py:145-231 | each action makes at most one move of each item lock and of the index lock, and a legal one |
| FileCacheRuns.LocksAreUsedSoundly | koschei/backend/file_cache.py:145-231 | with atomic relaxing the cache uses every lock in one of the ways for which FileLock excludes |
| FileCacheServing.ReadAgainExactly | koschei/backend/file_cache.py:171-177 | in any run: after relaxing its lock, a process yields the item if and only if the index calls it ready, and otherwise starts over |
| FileCacheServing.ReadIndexExactly | koschei/backend/file_cache.py:161-182 | in any run: a ready item is not made again, a full index is cleaned up first, and otherwise there is room |
| FileCacheServing.EndSweepExactly | koschei/backend/file_cache.py:183-201 | in any run: after a cleanup room is used; else just enough of the least recently modified ready items are dropped for a second one; else the cache is exhausted |
| FileCacheServing.EndsInThreeWays | koschei/backend/file_cache.py:172-231 | in any run a request ends, crashes aside, only with its item complete on disk, with None and no entry in the index, or with an exception while the index is full of entries that are not ready |
| FileCacheServing.CleansUpAlone | koschei/backend/file_cache.py:141-152 | the cleanup of a process on its own keeps exactly the ready entries and those without a directory |
| FileCacheServing.ReadyIsServed | koschei/backend/file_cache.py:158-175 | from every resting state a process on its own gets to read an item that is ready, and nothing on disk is changed for it |
| FileCacheServing.MissingIsMade | koschei/backend/file_cache.py:178-231 | from every resting state in which crashes have left behind fewer entries than the capacity, a process on its own makes an item that is not ready and reads it from a complete directory, or yields None and leaves neither entry nor directory |
| FileCacheServing.FullOfLeaks | koschei/backend/file_cache.py:178-206 | in any run of any number of processes from a state with as many entries left behind by crashes, none of them asked for, no item is ever made, and only what was ready in the beginning is read |
| FileCacheServing.ServedExactly | koschei/backend/file_cache.py:155-231 | a request on its own reads its item in some run if and only if the item is ready or crashes have left behind fewer entries of other items than the capacity |
| FileCacheServing.LosesExactly | koschei/backend/file_cache.py:166-177 | a process can lose a ready item while relaxing its lock, in some run, if and only if relaxing is not atomic |
| SystemCalls.CallObeys | koschei/backend/file_cache.py:145-231 | with atomic relaxing, the system calls that get_item and its cleanup make on a lock file are those of one of the ways in which FileLock excludes |
| SystemCalls.SecuredIsFree | koschei/backend/file_cache.py:159-170 | what a process has locked by system calls no other process of the cache holds in a conflicting mode |
| SystemCalls.RunProjects | koschei/backend/file_cache.py:135-233 | every run in which processes lock by single system calls on lock files, in any interleaving and with crashes anywhere, is a run of the cache |
| SystemCalls.ReadersAreSafe | koschei/backend/file_cache.py:203-231 | in such a run an item stays complete and unchanged while a process reads it, and no other process has its lock file in any mode |
| SystemCalls.LoneLocksItem | koschei/util.py:158-185 | a concrete run: a process takes the lock file of its item by opening it, locking it and comparing inodes, and goes on to the index |
| SystemCalls.MachineIsSound | koschei/backend/file_cache.py:178-220 | in such a run every lock file excludes, the index is bounded, and what it calls ready is complete |
| SystemRuns.EveryRunIsReal | koschei/backend/file_cache.py:145-231 | the converse of RunProjects: every run of the cache, of any number of processes and with crashes, is what some run over single system calls amounts to, each lock being taken by lock() or try_lock(), relaxed in place and unlocked |
| SystemRuns.ServedByCalls | koschei/backend/file_cache.py:155-231 | a request on its own whose item is ready, or for which there is room, comes by system calls to read the item, alone with its lock file |
| FileCacheWaiting.NoCircularWait | koschei/backend/file_cache.py:145-201 | no processes wait for each other in a circle, in any state |
| FileCacheWaiting.SomebodyCanMove | koschei/backend/file_cache.py:154-233 | as long as anybody is in get_item, some process in it can take an action that moves it on |
| FileCacheSections.Cache.CleanupItems | koschei/backend/file_cache.py:135-152 | the loop over directories leaves exactly the ready, refused and unvisited entries, writes them to the index, and deletes exactly the other directories |
| FileCacheSections.Cache.FindVictims | koschei/backend/file_cache.py:185-189 | the victims are ready entries, as many as asked for or all, none modified later than one that stays |
| FileCacheSections.Cache.DropVictims | koschei/backend/file_cache.py:183-194 | after dropping victims there is room or no ready entry, what stays is in the index file, and the victims' directories are gone unless their locks were refused |
| FileCacheSections.Cache.MakeRoom | koschei/backend/file_cache.py:180-194 | only entries and directories that were there remain, the requested item and ready items are spared, a full dictionary loses every other directory whose lock was not refused, and there is room or nothing ready is left |
| FileCacheSections.Cache.Reserve | koschei/backend/file_cache.py:161-206 | found, reserved within capacity, or no room: the index and the directories in each case, ready items complete throughout |
| FileCacheSections.Cache.WriteOutcome | koschei/backend/file_cache.py:212-220 | the registered outcome is the index that the protocol's action writes; a failed item leaves neither entry nor directory |
| RpmVersion.SegmentsAreSegments | rpmvercmp.sql:12-13 | every match is a digit run, a letter run, or one mark |
| RpmVersion.SegmentsJoin | rpmvercmp.sql:12-13 | joining the matches gives the string without its separators |
| RpmVersion.SeparatorSplits | rpmvercmp.sql:12-13 | a separator splits a string into the matches of its two sides, for all strings |
| VersionLaws.SingleCharacter | rpmvercmp.sql:12-13 | the characters that count are digits, letters of either case, tilde and caret |
| VersionLaws.RunIsOneSegment | rpmvercmp.sql:12-13 | a string of digits is one match, and so is a string of letters |
| VersionLaws.ClassesSplit | rpmvercmp.sql:12-13 | where the class of characters changes, and around every mark and separator, matches end: the matches of a sum are those of its two sides |
| RpmVersion.ByteOrderIsNumeric | rpmvercmp.sql:21-27 | digit runs of one length compare as bytes the way they compare as numbers |
| RpmVersion.LongerIsGreater | rpmvercmp.sql:21-27 | after zero stripping a longer digit run is the greater number |
| RpmVersion.CompareSegments | rpmvercmp.sql:19-48 | one turn of the loop, with NULL segments in three-valued logic, returns the order of the two symbols if they differ and falls through if they are equal |
| RpmVersion.RpmVerCmp | rpmvercmp.sql:1-57 | loop, early returns and NULL lengths compute the lexicographic comparison of symbol lists, digit runs as numbers, tilde below end below letters below caret below digits, on strings that both have a segment; otherwise the stated rule for the empty list |
| RpmVersion.VerCmpOrder | rpmvercmp.sql:11-56 | on strings with a segment the result is sign-antisymmetric and 0 exactly for equal symbol lists |
| RpmVersion.VerCmpTransitive | rpmvercmp.sql:11-56 | on strings with a segment the order is transitive |
| VersionLaws.NumbersCompare | rpmvercmp.sql:19-27 | digit strings of any length, with or without leading zeros, compare as the numbers they stand for |
| VersionLaws.NineBelowTen | rpmvercmp.sql:19-27 | 9 is below 10 |
| VersionLaws.WordsCompare | rpmvercmp.sql:46-48 | words compare by their first letters that differ, and a word is below any longer one that begins with it |
| VersionLaws.FirstDifferenceDecides | rpmvercmp.sql:16-55 | on strings: the first matches that count for different things decide, a greater number, a number before anything else, a tilde after everything, a caret before a word and before the end, and else the longer version |
| VersionLaws.SuffixesDecide | rpmvercmp.sql:16-55 | of two versions with a common beginning, the first matches of what comes after it decide |
| VersionLaws.TildeBelow | rpmvercmp.sql:50-51 | a version with a tilde appended is below the version without it |
| VersionLaws.CaretAboveWord | rpmvercmp.sql:39-45 | behind a common beginning a caret is above a word |
| VersionLaws.NumberAboveCaret | rpmvercmp.sql:19-32 | behind a common beginning a number is above a caret |
| VersionLaws.WordAbove | rpmvercmp.sql:54-55 | a version with one more word is above the version without it |
| RpmVersion.AgreesExactly | rpmvercmp.sql:14-56 | for all strings: the result is the lexicographic one if and only if it is not the case that one string has no segment and the other begins as stated |
| RpmVersion.NoSegmentNoOrder | rpmvercmp.sql:14-56 | a string without segments equals two different versions, and one pair compares as greater both ways |
| RpmVersion.RpmVerCmpEvr | rpmvercmp.sql:59-72 | a smaller epoch, NULL as 0, is less whatever the rest; with equal epochs the versions decide, and with versions that count for the same the releases; the procedure's early returns compute that order |
| RpmVersion.EvrCmpOrder | rpmvercmp.sql:59-72 | the comparison of EVRs is sign-antisymmetric, and 0 exactly for like EVRs |
| RpmVersion.EvrCmpTransitive | rpmvercmp.sql:59-72 | the comparison of EVRs is transitive, hence a total preorder |
| VersionLaws.EvrFieldsDecide | rpmvercmp.sql:65-71 | for comparable EVRs: the epochs decide, then the segments of the versions, then those of the releases |
| VersionLaws.VersionBeforeRelease | rpmvercmp.sql:69-71 | 1-2 is below 2-1, and 2-1 below 1-1 with epoch 1 |
| AffectedBy.BeforeOrder | koschei/db.py:277-329 | the overloaded comparison operators on EVRs agree with one strict order |
| AffectedBy.BeforeMixes | koschei/db.py:277-329 | that order is a strict weak order |
| AffectedBy.ListedExactly | koschei/frontend/views.py:823-858 | a change of the dependency is selected if and only if its interval meets the window and it is not a downgrade across the whole window |
| AffectedBy.DowngradeUnlisted | koschei/frontend/views.py:823-858 | a concrete downgrade from epoch 3 to 1 that crosses the window from 1 to 2 is not selected |
| AffectedBy.UpgradeListedExactly | koschei/frontend/views.py:823-858 | an upgrade is selected if and only if prev < evr2 and curr > evr1 |
| AffectedBy.ListsOnlyChangesOf | koschei/frontend/views.py:823-858 | whatever is selected joins two dependencies, one of which has the name asked for, and so both if the change relates like-named ones |
| Builds.SelectsNewestFinished | triggers.sql:9-23 | the row taken for last_complete_build is the newest finished tagged build, in either branch |
| Builds.UpdateTouches | triggers.sql:24-40 | update_last_build changes nothing but pointers, and those of its package only |
| Builds.UpdateEstablishesAgreement | triggers.sql:2-41 | update_last_build makes pointers, state and last_complete flags of its package right |
| Builds.PointersMean | triggers.sql:2-41 | in columns: right pointers name the tagged build that started last and the one of those complete or failed, with its state beside it and its flag on it alone |
| Builds.InsertKeepsAgreement | triggers.sql:79-82 | INSERT with its trigger keeps the pointers of all packages right |
| Builds.StateKeepsAgreement | triggers.sql:83-87 | an update of a build's state with its trigger keeps all pointers right, unless it flips the last complete build |
| Builds.StateKeepsAgreementExactly | triggers.sql:29-40 | with distinct start times, an update of a build's state keeps all pointers right if and only if it is not such a flip |
| Builds.FlippedBuild | triggers.sql:29-40 | concrete tables: the only build turns from complete to failed, and the package goes on saying complete |
| Builds.DeleteKeepsAgreement | triggers.sql:50-63 | a DELETE that the foreign keys permit keeps all pointers right, whether or not the trigger does anything |
| Builds.ClearedKeepsAgreement | koschei/backend/__init__.py:272-282 | resetting priorities keeps all pointers right and other packages as they are |
| Database.Tables.UpdateLastBuild | triggers.sql:2-41 | the statements of the procedure, one by one, amount to one pointer update |
| Database.Tables.InsertBuild | triggers.sql:43-48 | the new row gets an unused id and has the columns given, no other column but pointers changes, its trigger runs, and all pointers stay right |
| Database.Tables.SetState | triggers.sql:83-87 | the build has the state and no other column but pointers changes; a state that is written but not changed fires nothing; otherwise the trigger runs, and all pointers stay right unless the update flips the last complete build, when with distinct start times they do not |
| Database.Tables.SetUntagged | triggers.sql:83-87 | a statement over many rows sets their flag and no other column but pointers, and its triggers, which run one row at a time afterwards, leave all pointers right and other packages untouched |
| Database.Tables.DeleteBuild | koschei/models.py:257-276 | deletion is refused exactly when a package's last_complete_build_id refers to the row; otherwise just that row goes and pointers stay right |
| Database.AfterAllUpdates | triggers.sql:83-91 | once the row triggers of one statement have all run, every package agrees, touched or not |
| Reconciliation.RegisterRealBuild | koschei/backend/__init__.py:176-254 | unless it has no repository or its Koji task is known, one row joins the package with the listed EVR, Koji task, start time and state, real and tagged, column by column; the other builds stay, the package's priorities are reset, and other packages stay the same |
| Reconciliation.CheckNewRealBuilds | koschei/backend/__init__.py:640-667 | a listed package that is watched and behind Koji, whose listed build has a repository and is not known, gains exactly that build, column by column; every other package is unchanged |
| Reconciliation.FindLastValid | koschei/backend/__init__.py:586-602 | as before, after registering the listed build when it was missing |
| Reconciliation.UntagOne | koschei/backend/__init__.py:579-613 | in a package ahead of Koji exactly the builds later than the newest one with the listed EVR become untagged, all of them if there is none; others are unchanged |
| Reconciliation.UntaggedMeans | koschei/backend/__init__.py:579-613 | in columns: after its turn a build of a package that was ahead is untagged if and only if it was before or started after every build of the package with the listed EVR |
| Reconciliation.RegisteredAgain | koschei/backend/__init__.py:597-600 | in columns: the only build that can come in then is the listed one |
| Reconciliation.CheckUntaggedBuilds | koschei/backend/__init__.py:574-614 | the same for the whole listing, and nothing changes if nobody is ahead |
| Reconciliation.CheckRetaggedBuilds | koschei/backend/__init__.py:617-637 | exactly the untagged builds with the listed EVR are tagged again |
| Reconciliation.RetaggingResets | koschei/backend/__init__.py:574-637 | a package that was ahead ends at the newest build with the listed EVR, or without last build if there is none |
| Reconciliation.SettledAfterAll | koschei/backend/__init__.py:690-692 | after the three passes a listed package is not ahead of Koji, its listed builds are tagged, and nothing is left to register |
| Reconciliation.SettledIsFixed | koschei/backend/__init__.py:574-667 | on a settled package each of the passes changes nothing |
| Reconciliation.RefreshLatestBuilds | koschei/backend/__init__.py:670-693 | in columns: afterwards no listed package's last build is untagged or newer than Koji's, builds with the listed EVR are tagged, a package that was ahead is back at the newest of them or has no last build, and no listed build is missing; unlisted packages and a settled table are left as they are |
| Reconciliation.RefreshTwice | koschei/backend/__init__.py:670-693 | refreshing a second time with the same listing changes nothing |
| Completion.StepKeepsInv | koschei/backend/__init__.py:309-398 | every action under the two row locks, refused deletions included, keeps the invariant when the reports agree |
| Completion.SingleCompletion | koschei/backend/__init__.py:309-398 | over any interleaving with agreeing reports at most one transition or deletion commits, at most one message is sent, and only about a change |
| Completion.CommitClears | koschei/backend/__init__.py:366-388 | the committed transition sets COMPLETE for a closed task and FAILED for a failed one, moves the pointer and its state only where the trigger does, leaves manual and dependency priority 0 and no unapplied changes, the build priority 0 or the configured one if the package starts to fail, every other column as it was, and no row locked; the message will tell the states just before and after |
| Completion.CommitAnnounces | koschei/backend/__init__.py:366-388 | a package that is watched and not known to be unresolved is announced as ok when a build that becomes its last complete one was closed, and as failing when it failed |
| Completion.LockedDecides | koschei/backend/__init__.py:324-365 | with the build row locked: nothing is done if and only if the build is gone or has the reported state; otherwise a canceled, faulty or repository-less build is deleted unless the package points at it, and any other build goes on to be set |
| Completion.OthersWriteNothing | koschei/backend/__init__.py:324-356 | a deletion removes just the build; giving up, a refused deletion and a crash write nothing, and all of them unlock both rows |
| Completion.CrashedIsReplaced | koschei/backend/__init__.py:321-327 | a process that crashes with the rows locked leaves a running build to any other one, which can commit its outcome at once |
| MessageState.MsgStateMeans | koschei/models.py:405-431 | the published state: ok or failing by the last complete build of a package that is neither blocked nor untracked nor known to be unresolved, unresolved if it is, and else ignored |
| Completion.MessageExactlyOnChange | koschei/backend/__init__.py:377-388 | whoever committed the transition sends the only message, exactly when the message state changed |
| Completion.DifferentReportsCommitTwice | koschei/backend/__init__.py:321-343 | of two processes with different outcomes one sets the state of a build that is not the newest finished one, and the other sets it again or deletes the build |
| Completion.DifferentStatesCommitTwice | koschei/backend/__init__.py:321-383 | two different states are both set even if the build is the last complete one and cannot be deleted |
| Completion.CommitsOnceExactly | koschei/backend/__init__.py:309-398 | at most one commit in all runs if and only if every report agrees with those that set a state; in all runs in which the build is the last complete one from its first completion on, so that the foreign key refuses to delete it, if and only if those that set a state agree |
| Recency.UseInTail | koschei/backend/services/resolver.py:72-74 | using a cached row keeps the cache equal to the most recently used distinct rows |
| Recency.UseOutsideTail | koschei/backend/services/resolver.py:65-70 | using any other row appends it and pushes the least recently used one out of a full cache |
| DependencyCache.AddKeeps | koschei/backend/services/resolver.py:65-80 | adding a row, with eviction, keeps both indexes on the same rows and the row to evict in both |
| DependencyCache.Cache.Compact | koschei/backend/services/resolver.py:76-80 | where the two indexes hold the same rows, the first row of the ordered one is also in the other, and without it they still hold the same rows |
| DependencyCache.Cache.Add | koschei/backend/services/resolver.py:65-70 | both indexes hold the most recently used distinct rows, no more than the capacity, after any addition |
| DependencyCache.Cache.Access | koschei/backend/services/resolver.py:72-74 | a hit moves its row to the end of the recency order and changes nothing else |
| DependencyCache.Cache.TryGetOrCreateNevra | koschei/backend/services/resolver.py:82-113 | the row is the one the table has or gets, whatever is cached; the table grows only for a new NEVRA; exactly one counter moves |
| DependencyCache.Cache.GetOrCreateNevra | koschei/backend/services/resolver.py:115-121 | the row is found even if a rival transaction inserts it first |
| DependencyCache.Cache.GetOrCreateNevras | koschei/backend/services/resolver.py:123-127 | one row for each NEVRA, in their order |
| DependencyCache.CachedAndStoredAnswer | koschei/backend/services/resolver.py:130-152 | cached rows and stored rows together answer the query, and there are none exactly when no key is in the table |
| DependencyCache.Cache.GetByIds | koschei/backend/services/resolver.py:130-152 | the same rows as the table alone gives, each once for distinct keys; the assertion fails exactly when no key is in the table |
| DependencyChanges.SetDifference | koschei/util.py:106-108 | exactly the objects of the first list whose NEVRA no object of the second has |
| DependencyChanges.CreateDependencyChanges | koschei/backend/services/resolver.py:186-227 | one change for each name among removed and added dependencies, each side told exactly, with the distance of the current one; none for an empty list |
| DependencyChanges.DescribedRowsAllowed | koschei/models.py:819-824 | every row meets the table's check constraint, NULL counting as 0 |
| DependencyChanges.DiffReplaysExactly | koschei/backend/services/resolver.py:205-227 | for all lists: the changes replay the second from the first if and only if no two removed and no two added dependencies share a name |
| DependencyChanges.TwoOfOneName | koschei/backend/services/resolver.py:205-227 | concrete lists: of two kernels that are removed only one gets into a row, and the replay fails |
| BuildResolver.Service.GetBuildDependencies | koschei/backend/services/build_resolver.py:180-185 | the stored dependencies, or none for a missing or empty list |
| BuildResolver.Service.StoreDependencies | koschei/backend/services/build_resolver.py:165-178 | the stored keys name exactly the dependencies that are not source packages |
| BuildResolver.Service.StoreChanges | koschei/backend/services/build_resolver.py:155-163 | the rows tell the difference to the previous build, which gives up its list |
| BuildResolver.Service.ProcessResolvedBuild | koschei/backend/services/build_resolver.py:145-163 | one resolution is one step of the history, in whatever order builds come |
| BuildResolver.Service.ProcessBuild | koschei/backend/services/build_resolver.py:109-143 | a failed resolution marks the build and gives its package the configured priority if the build is its last one; a successful one is processed without source packages and changes no package |
| DependencyHistory.ResolveEnters | koschei/backend/services/build_resolver.py:145-178 | a resolution, in whatever order builds come, enters the build into the history of its package by start time, with what it was compared with, and takes the list of the build before it |
| DependencyHistory.RunMirrors | koschei/backend/services/build_resolver.py:133-178 | after any run of resolutions, failures and registrations, over all packages and in any order, lists and rows say what the history does |
| DependencyHistory.NoRowsExactly | koschei/backend/services/build_resolver.py:153-163 | a resolution, early or late, stores no rows if and only if the build before it has no list any more or the same dependencies |
| DependencyHistory.RunReplaysExactly | koschei/backend/services/build_resolver.py:145-185 | after any such run the stored rows replay the package's dependency sets by start time, from the first one on, if and only if each build's predecessor has what the build shares with the list it was compared with, and nothing beyond the two |
| DependencyHistory.RunReplays | koschei/backend/services/build_resolver.py:145-185 | when builds are resolved in the order of their start times they always do, and in any order every row names two different ids |
| DependencyHistory.ResolveReplaysExactly | koschei/backend/services/build_resolver.py:145-163 | as long as builds came in order, one more resolution keeps the replay if and only if it comes in order or has the dependencies of the build before it, or of the next one if it comes first |
| LateResolution.LateRun | koschei/backend/services/build_resolver.py:53-60 | a concrete run: after builds 1 and 4, late build 2 gets no rows, the second late build 3 gets rows, and the rows do not replay the history |
| Distance.PathsReach | koschei/backend/depsolve.py:101-116 | whatever ends a path is reached at its length |
| Distance.RootsAre | koschei/backend/depsolve.py:30-39 | a package matches a BuildRequires by what it provides, and by a file it owns only if a path is asked for and nothing provides it |
| Distance.LastMeans | koschei/backend/depsolve.py:117 | of several objects of one name the last one is the one that counts |
| Distance.NextLevel | koschei/backend/depsolve.py:131-134 | expanding only packages not yet visited still finds every package that is first reached on the next level |
| Distance.EmptyLevelEnds | koschei/backend/depsolve.py:123 | once a level is empty nothing is first reached later |
| Distance.MarkLevel | koschei/backend/depsolve.py:124-127 | exactly the unset objects of a name on the level get its number |
| Distance.ComputeDependencyDistances | koschei/backend/depsolve.py:101-134 | each last object of its name gets the length of the shortest path from a BuildRequires match to any package of that name, if at most 4, and stays None otherwise; all other objects are unchanged |
| KeyArray.EncodesExactly | koschei/db.py:212-224 | encoding succeeds if and only if the ids are distinct and positive with gaps below 2^32 |
| KeyArray.DecodeEncode | koschei/db.py:212-237 | decoding what was encoded gives the sorted list |
| KeyArray.EncodeDecode | koschei/db.py:212-237 | decoding succeeds if and only if the payload is aligned; encoding the result gives back the payload, or the assertion error if a word is zero |
| KeyArray.UnpackPack | koschei/db.py:223-232 | four big-endian bytes give back the number |
| KeyArray.PackKeepsOrder | koschei/db.py:223 | packed numbers compare as bytes the way they compare as numbers, which fixes the big-endian order |
| KeyArray.ToDeltas | koschei/db.py:216-219 | the loop turns the array in place into its differences |
| KeyArray.ToSums | koschei/db.py:233-236 | the loop turns the array in place into its running sums |
| KeyArray.ProcessBindParam | koschei/db.py:212-224 | the array loops compute the encoding, with None passed through and the first bad item deciding the error |
| KeyArray.ProcessResultValue | koschei/db.py:226-237 | the array loops compute the decoding, with None passed through |
| CoprScheduler.Scheduler.Run | koschei/plugins/copr_plugin/backend/services/copr_scheduler.py:115-160 | a turn moves all requests of the user behind all others and submits at most one rebuild; the limit of running builds holds; a failure of Copr changes nothing |
| CoprScheduler.RoundRobin | koschei/plugins/copr_plugin/backend/services/copr_scheduler.py:123-140 | in any run, between two turns of a user every other user with a request there all along and in progress at the end gets a turn, unless the first user creates a request in between |
| CoprScheduler.NewRequestsGoFirst | koschei/plugins/copr_plugin/backend/services/copr_scheduler.py:129-131 | a concrete run shows that the condition is needed |
| CoprScheduler.KeepsCountsExactly | koschei/plugins/copr_plugin/backend/services/copr_scheduler.py:142-160 | a turn of a request keeps every schedule_count if the request has had its share or the next rebuild is its own, and otherwise if and only if the owner of the next rebuild has not had its share |
| CoprRuns.AlwaysKeptExactly | koschei/plugins/copr_plugin/backend/services/copr_scheduler.py:115-160 | for any limit of running builds: turns and polls in any order keep every schedule_count if and only if no rebuild waits whose owner, once all those ahead of it are submitted, has had its share while a request that is still in progress then has not |
| CoprRuns.RunKeeps | koschei/plugins/copr_plugin/backend/services/copr_scheduler.py:142-160 | along such a run rebuilds are submitted in the order of the queue, and every schedule_count is kept where the condition does not arise |
| CoprRuns.WorkedOff | koschei/plugins/copr_plugin/backend/copr_polling.py:26-51 | as long as such a request has a share left and need not be finished before, turns and polls submit the queue up to any rebuild |
| CoprScheduler.TurnOvershoots | koschei/plugins/copr_plugin/backend/services/copr_scheduler.py:151-154 | a concrete turn submits more rebuilds of a request than its schedule_count |
| ResolutionHistory.ResultIsLogged | koschei/backend/services/repo_resolver.py:342-384 | an accepted result sets the flag, becomes what the newest change says, and is logged if and only if it differs from the newest change or the flag was unknown |
| ResolutionHistory.RowAfter | koschei/backend/services/repo_resolver.py:342-361 | an up-to-date result sets the flag and the total weight of its changes, rounded down; every other row stays as it is |
| ResolutionHistory.NearerWeighsMore | koschei/backend/services/repo_resolver.py:356-361 | a nearer change weighs more, in proportion, and one of unknown or zero distance as much as one at 8 |
| ResolutionHistory.WeightsAddUp | koschei/backend/services/repo_resolver.py:356-361 | the weight of all changes is the sum of the weights of any two parts |
| ResolutionHistory.LoggedExactly | koschei/backend/services/repo_resolver.py:342-384 | an entry is logged if and only if it comes from an up-to-date result whose flag is not the one remembered, or that tells other problems than the newest change |
| ResolutionHistory.MessagesExactly | koschei/backend/services/repo_resolver.py:350-364 | a message goes out for exactly the packages that are watched and start or stop being unresolved, and tells on its other side how the last complete build ended |
| ResolutionHistory.UnappliedAfter | koschei/backend/services/repo_resolver.py:366-407 | the unapplied changes of every package of the chunk are replaced by those of its up-to-date result, and all others stay |
| ResolutionHistory.StaleWritesNothing | koschei/backend/services/repo_resolver.py:345-348 | a package whose last build changed keeps its row, its newest change and gets no unapplied changes |
| ResolutionHistory.PersistKeepsAgreement | koschei/backend/services/repo_resolver.py:317-394 | after any chunk every known flag is that of the package's newest change, and unknown where the package is not to be resolved |
| ResolutionHistory.RepoResolver.AddResult | koschei/backend/services/repo_resolver.py:250-258 | a result remembers flag and last build of its package |
| ResolutionHistory.RepoResolver.PersistResolutionOutput | koschei/backend/services/repo_resolver.py:281-424 | nothing is stored if and only if a package of the chunk is gone, or has an up-to-date result and is no longer to be resolved; otherwise rows, log and unapplied changes after the chunk, and messages for exactly the packages whose message state changed; agreement of flags and log holds whatever others did meanwhile |
| RowCopies.DeepCopyTable | koschei/data.py:220-253 | each selected row is copied once under a fresh id, with its parent key translated and all else equal; source rows are unchanged and there are no others |
| CollectionCopy.Store.CopyPackages | koschei/data.py:255-274 | each package of the source is copied once into the target collection, tracked or not and with its priorities as before, without unapplied changes |
| CollectionCopy.Store.CopyBuilds | koschei/data.py:276-286 | the selected builds are copied in one statement, then their triggers run |
| CollectionCopy.Store.CopyCollection | koschei/data.py:211-294 | every source package and every build that is recent or the last complete one of its package has one copy, with keys translated along all parents; old packages are unchanged; each copy's pointers are right if and only if a build comes with it or its original has none; tasks, changes, problems and resolution changes correspond one to one |
| CollectionCopy.OldPackagesAfter | koschei/data.py:255-286 | every package that was there keeps its row, its builds and their flags |
| CollectionCopy.WantedExactly | koschei/data.py:276-286 | the query over the copied packages selects exactly the recent builds of the source, unless the copy is minimal, and the last complete build of each source package |
| CollectionCopy.CopiedExactly | koschei/data.py:276-286 | a build comes with a package if and only if the package has a last complete build, or a recent one and the copy is not minimal |
| CollectionCopy.PointersExactly | koschei/data.py:269-286 | a copied package has right pointers if and only if its original has a last complete build, or a recent one and the copy is not minimal, or no pointers |
| CollectionCopy.PointsElsewhereExactly | koschei/data.py:269-286 | a copied package's last build belongs to another package if and only if its original has a last build but no last complete one, and no recent one that is copied |
| CollectionCopy.MinimalCopyPointsElsewhere | koschei/data.py:269-286 | concrete tables: the minimal copy of a package whose only build is running points at the original's build |

## Left out

- The protocols of `FileLock`, `FileCache`, `SystemCalls` and `Completion` are transition systems on values, one
  step for each shared access; blocking is a step that is not enabled, and fairness is not modelled.
- Exceptions other than those of a non-blocking lock attempt inside `FileLock.lock`, and locking shared first and
  exclusive later on one object, which nothing in the repository does.
- Nested `get_item` calls in one process, unreadable or older index files, failing deletions, and changes to the
  cache directory made by hand.
- Characters outside ASCII: letters are compared in byte order and digits are 0 to 9.
- Agreement with librpm on a caret next to letters; the SQL's ranking is the one proved.
- Reconciliation.RegisterRealBuild: one build at a time, without chunks and Koji subtasks, which do not change
  the tables modelled here.
- The rewriting of `started` while a build runs, `skip_no_srpm`, which clears pointers by hand, and
  `update_all_blocked`.
- `set_failed_build_priority`: its query is not restricted to the package, so its result is a parameter.
- Completion.CommitClears: takes the state of the build that this query finds, and the configured priority, as
  parameters.
- BuildResolver.Service.ProcessBuild: does not model builds deleted concurrently, whose transaction is rolled back
  while the cache keeps what it has cached.
- DependencyCache.Cache.GetOrCreateNevras: does not model a rival insertion, which aborts the caller's
  transaction, and the cache has no undo for a rollback.
- Distance.ComputeDependencyDistances: how hawkey matches a requirement to a package is a parameter.
- KeyArray.ProcessBindParam: zlib stands outside, as the identity on payloads.
- CoprScheduler.Scheduler.Run: creating the Copr project is a parameter that succeeds or not.
- Timestamps of resolution changes: the log is in their order, which the clock is assumed to give.
- CollectionCopy.Store.CopyCollection: other columns of copied rows are opaque, and unique constraints of the
  target collection are not modelled.
- Views other than the interval query, forms, authentication, the admin commands, configuration, service loops,
  group arithmetic, priorities by elapsed time, and schema history.
