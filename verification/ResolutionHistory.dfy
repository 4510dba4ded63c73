/** `RepoResolver.persist_resolution_output`: resolution flags of packages and the log of their changes. */
module ResolutionHistory {
  import opened Wrappers
  import opened Builds
  import opened MessageState
  import opened DependencyChanges

  datatype Row = Row(
    blocked: bool, tracked: bool, skipResolution: bool, resolved: Option<bool>, lastBuildId: Option<nat>,
    lastCompleteState: Option<BuildState>, dependencyPriority: int)

  type Packages = map<PackageId, Row>

  /** A resolution change with its problems; the log lists them by timestamp. */
  datatype Entry = Entry(package: PackageId, resolved: bool, problems: set<string>)

  type Problems = map<PackageId, set<string>>

  /** The state changes to publish: before and after */
  type Messages = map<PackageId, (MsgState, MsgState)>

  datatype Unapplied = Unapplied(package: PackageId, change: Change)

  /** ResolutionOutput: what was found for a package, and the state of the package when that began */
  datatype Output = Output(
    package: PackageId, prevResolved: Option<bool>, resolved: bool, problems: set<string>, changes: seq<Change>,
    lastBuildId: Option<nat>)

  function MsgStateOf(row: Row): MsgState {
    MsgStateFor(row.blocked, row.tracked, row.resolved, row.lastCompleteState)
  }

  function Newest(log: seq<Entry>, p: PackageId): (r: Option<Entry>)
    ensures r.Some? ==> r.value in log && r.value.package == p
    ensures r.None? ==> forall e | e in log :: e.package != p
  {
    if log == [] then None else
      var last := log[|log| - 1];
      if last.package == p then Some(last) else Newest(log[..|log| - 1], p)
  }

  function WeightOver(weight: nat, c: Change): real {
    weight as real / (if c.distance.Some? && c.distance.value > 0 then c.distance.value else 8) as real
  }

  function TotalWeight(weight: nat, changes: seq<Change>): real {
    if changes == [] then 0.0
        else TotalWeight(weight, changes[..|changes| - 1]) + WeightOver(weight, changes[|changes| - 1])
  }

  /** A nearer change weighs more, one of unknown distance as much as one at 8, and two halves one whole. */
  lemma NearerWeighsMore(weight: nat, c: Change, d: Change)
    requires weight > 0
    ensures
      var m := match c.distance case None => 8 case Some(n) => if n == 0 then 8 else n;
      var n := match d.distance case None => 8 case Some(k) => if k == 0 then 8 else k;
      && m as real * WeightOver(weight, c) == weight as real
      && (m < n ==> WeightOver(weight, c) > WeightOver(weight, d))
      && (m == n ==> WeightOver(weight, c) == WeightOver(weight, d))
  {
    var m := match c.distance case None => 8 case Some(n) => if n == 0 then 8 else n;
    var n := match d.distance case None => 8 case Some(k) => if k == 0 then 8 else k;
    if m < n {
      DivideBySmaller(weight as real, m as real, n as real);
    }
  }

  lemma DivideBySmaller(w: real, x: real, y: real)
    requires w > 0.0 && 0.0 < x < y
    ensures w / x > w / y
  {
    var a, b := w / x, w / y;
    assert a * x == w && b * y == w;
    LessTimes(a, x, b, y);
  }

  lemma LessTimes(a: real, x: real, b: real, y: real)
    requires 0.0 < x < y && a * x == b * y > 0.0
    ensures a > b
  {
    assert a > 0.0;
    assert a * y > a * x;
  }

  /** The weights of all changes add up, in whatever parts they are taken. */
  lemma {:induction false} WeightsAddUp(weight: nat, a: seq<Change>, b: seq<Change>)
    ensures TotalWeight(weight, a + b) == TotalWeight(weight, a) + TotalWeight(weight, b)
    ensures |b| == 1 ==> TotalWeight(weight, b) == WeightOver(weight, b[0])
    ensures TotalWeight(weight, []) == 0.0
    decreases |b|
  {
    if b == [] {
      assert a + b == a;
    } else {
      var front, last := b[..|b| - 1], b[|b| - 1];
      assert (a + b)[..|a + b| - 1] == a + front && (a + b)[|a + b| - 1] == last;
      WeightsAddUp(weight, a, front);
      if |b| == 1 {
        assert front == [];
      }
    }
  }

  /** No build was registered or submitted in the meantime. */
  predicate IsAccepted(packages: Packages, r: Output) {
    r.package in packages && packages[r.package].lastBuildId == r.lastBuildId
  }

  /** Whether the result goes to the log, told from what is known of the previous one */
  predicate IsChange(previous: Problems, r: Output) {
    || r.prevResolved != Some(r.resolved)
    || (!r.resolved && (r.package !in previous || r.problems != previous[r.package]))
  }

  function NewEntry(packages: Packages, previous: Problems, r: Output): seq<Entry> {
    if IsAccepted(packages, r) && IsChange(previous, r) then [Entry(r.package, r.resolved, r.problems)] else []
  }

  function NewEntries(packages: Packages, previous: Problems, chunk: seq<Output>): seq<Entry> {
    if chunk == [] then [] else
      NewEntries(packages, previous, chunk[..|chunk| - 1]) + NewEntry(packages, previous, chunk[|chunk| - 1])
  }

  predicate DistinctPackages(chunk: seq<Output>) {
    forall i, j | 0 <= i < j < |chunk| :: chunk[i].package != chunk[j].package
  }

  function ResultFor(chunk: seq<Output>, p: PackageId): (r: Option<Output>)
    ensures r.Some? ==> r.value in chunk && r.value.package == p
    ensures r.None? ==> forall o | o in chunk :: o.package != p
  {
    if chunk == [] then None else
      var last := chunk[|chunk| - 1];
      if last.package == p then Some(last) else ResultFor(chunk[..|chunk| - 1], p)
  }

  function Updated(row: Row, weight: nat, r: Option<Output>): Row {
    if r.Some? && r.value.lastBuildId == row.lastBuildId then
      row.(resolved := Some(r.value.resolved), dependencyPriority := TotalWeight(weight, r.value.changes).Floor)
    else row
  }

  function After(packages: Packages, weight: nat, chunk: seq<Output>): Packages {
    map p | p in packages :: Updated(packages[p], weight, ResultFor(chunk, p))
  }

  /** The changes of the accepted results */
  function Accepted(packages: Packages, chunk: seq<Output>): set<Unapplied> {
    set r, c | r in chunk && IsAccepted(packages, r) && c in r.changes :: Unapplied(r.package, c)
  }

  function PackageIds(chunk: seq<Output>): set<PackageId> {
    set r | r in chunk :: r.package
  }

  /** The rows that belong to none of these packages */
  function Others(rows: set<Unapplied>, ids: set<PackageId>): set<Unapplied> {
    set u | u in rows && u.package !in ids
  }

  /** The problems of the newest change of each package that has one */
  function PreviousProblems(log: seq<Entry>, chunk: seq<Output>): Problems {
    map p | p in PackageIds(chunk) && Newest(log, p).Some? :: Newest(log, p).value.problems
  }

  // What the log says

  /** A known flag is the flag of the newest change; changes to resolved have no problems; and the flag
      of a package that is not to be resolved is unknown, as the check constraint has it. */
  ghost predicate FlagsAgree(packages: Packages, log: seq<Entry>) {
    && (forall p | p in packages && packages[p].skipResolution :: packages[p].resolved.None?)
    && (forall p | p in packages && packages[p].resolved.Some? ::
          Newest(log, p).Some? && Newest(log, p).value.resolved == packages[p].resolved.value)
    && (forall e | e in log :: e.resolved ==> e.problems == {})
  }

  /** What a result remembers of its package was written to the log. */
  ghost predicate Remembers(log: seq<Entry>, r: Output) {
    r.prevResolved.Some? ==>
      Newest(log, r.package).Some? && Newest(log, r.package).value.resolved == r.prevResolved.value
  }

  ghost predicate AllRemember(packages: Packages, log: seq<Entry>, chunk: seq<Output>) {
    && (forall r | r in chunk && r.package in packages :: Remembers(log, r))
    && (forall r | r in chunk && r.resolved :: r.problems == {})
  }

  /** A package was deleted, or is no longer to be resolved and its result is up to date: the transaction
      ends with an exception. */
  predicate Aborts(packages: Packages, chunk: seq<Output>) {
    exists r | r in chunk :: r.package !in packages || (IsAccepted(packages, r) && packages[r.package].skipResolution)
  }

  lemma {:induction false} NewestOfMore(log: seq<Entry>, more: seq<Entry>, p: PackageId)
    ensures Newest(log + more, p) == if Newest(more, p).Some? then Newest(more, p) else Newest(log, p)
    decreases |more|
  {
    if more == [] {
      assert log + more == log;
    } else {
      var n := |more| - 1;
      assert (log + more)[..|log + more| - 1] == log + more[..n];
      NewestOfMore(log, more[..n], p);
    }
  }

  /** The entry of the package's own result, if that makes one, is its newest among the new ones. */
  lemma {:induction false} NewestOfNew(packages: Packages, previous: Problems, chunk: seq<Output>, p: PackageId)
    requires DistinctPackages(chunk)
    ensures Newest(NewEntries(packages, previous, chunk), p) ==
            match ResultFor(chunk, p)
            case Some(r) => if IsAccepted(packages, r) && IsChange(previous, r) then
                Some(Entry(p, r.resolved, r.problems)) else None
            case None => None
    decreases |chunk|
  {
    if chunk != [] {
      var n := |chunk| - 1;
      NewestOfNew(packages, previous, chunk[..n], p);
      NewestOfMore(NewEntries(packages, previous, chunk[..n]), NewEntry(packages, previous, chunk[n]), p);
      assert chunk[n].package == p ==> ResultFor(chunk[..n], p).None?;
    }
  }

  /** A result goes to the log exactly when it is accepted and differs from the newest change, or the
      flag was unknown; afterwards the newest change of an accepted result's package says what it says. */
  lemma ResultIsLogged(packages: Packages, log: seq<Entry>, weight: nat, chunk: seq<Output>, r: Output)
    requires DistinctPackages(chunk) && AllRemember(packages, log, chunk) && FlagsAgree(packages, log)
    requires r in chunk && IsAccepted(packages, r)
    ensures
      var previous := PreviousProblems(log, chunk);
      var log' := log + NewEntries(packages, previous, chunk);
      && After(packages, weight, chunk)[r.package].resolved == Some(r.resolved)
      && Newest(log', r.package) == Some(Entry(r.package, r.resolved, r.problems))
      && (IsChange(previous, r) <==>
          r.prevResolved.None? || Newest(log, r.package) != Some(Entry(r.package, r.resolved, r.problems)))
  {
    var previous := PreviousProblems(log, chunk);
    TheResult(chunk, r);
    NewestOfNew(packages, previous, chunk, r.package);
    NewestOfMore(log, NewEntries(packages, previous, chunk), r.package);
    assert Remembers(log, r);
  }

  /** A package whose last build is still the one its result was made for gets the result's flag and the total
      weight of its changes, rounded down; every other row stays as it is. */
  lemma RowAfter(packages: Packages, weight: nat, chunk: seq<Output>, p: PackageId)
    requires DistinctPackages(chunk) && p in packages
    ensures
      var row, row' := packages[p], After(packages, weight, chunk)[p];
      && (forall r | r in chunk && r.package == p && r.lastBuildId == row.lastBuildId ::
            row' == row.(resolved := Some(r.resolved), dependencyPriority := TotalWeight(weight, r.changes).Floor))
      && ((forall r | r in chunk && r.package == p :: r.lastBuildId != row.lastBuildId) ==> row' == row)
  {
    forall r | r in chunk && r.package == p ensures ResultFor(chunk, p) == Some(r) {
      TheResult(chunk, r);
    }
  }

  /** What is logged: a result whose package still has the build it was made for, if its flag is not the one
      remembered, or if it tells other problems than the newest change. */
  lemma {:induction false} LoggedExactly(packages: Packages, previous: Problems, chunk: seq<Output>, e: Entry)
    ensures e in NewEntries(packages, previous, chunk) <==>
              exists r | r in chunk :: LogsAs(packages, previous, r, e)
    decreases |chunk|
  {
    if chunk != [] {
      var front, last := chunk[..|chunk| - 1], chunk[|chunk| - 1];
      LoggedExactly(packages, previous, front, e);
      assert forall r :: r in chunk <==> r in front || r == last;
      assert e in NewEntry(packages, previous, last) <==> LogsAs(packages, previous, last, e);
    }
  }

  predicate LogsAs(packages: Packages, previous: Problems, r: Output, e: Entry) {
    && e.package == r.package && e.resolved == r.resolved && e.problems == r.problems
    && r.package in packages && packages[r.package].lastBuildId == r.lastBuildId
    && (r.prevResolved.None? || r.prevResolved.value != r.resolved
        || (!r.resolved && !(r.package in previous && previous[r.package] == r.problems)))
  }

  /** Whatever was unapplied for a package of the chunk is gone, and what is there instead are the changes of
      the results that were stored. */
  lemma UnappliedAfter(rows: set<Unapplied>, packages: Packages, chunk: seq<Output>, u: Unapplied)
    ensures u in Others(rows, PackageIds(chunk)) + Accepted(packages, chunk) <==>
              (u in rows && forall r | r in chunk :: r.package != u.package)
              || exists r | r in chunk && r.package == u.package && r.package in packages
                            && packages[r.package].lastBuildId == r.lastBuildId :: u.change in r.changes
  {
  }

  lemma TheResult(chunk: seq<Output>, r: Output)
    requires DistinctPackages(chunk) && r in chunk
    ensures ResultFor(chunk, r.package) == Some(r)
  {
    var i :| 0 <= i < |chunk| && chunk[i] == r;
    var other := ResultFor(chunk, r.package).value;
    var j :| 0 <= j < |chunk| && chunk[j] == other;
    assert i == j;
  }

  /** A package without an accepted result keeps its row and its newest change. */
  lemma StaleWritesNothing(packages: Packages, log: seq<Entry>, weight: nat, chunk: seq<Output>, p: PackageId)
    requires DistinctPackages(chunk) && p in packages && forall r | r in chunk && r.package == p ::
        !IsAccepted(packages, r)
    ensures After(packages, weight, chunk)[p] == packages[p]
    ensures Newest(log + NewEntries(packages, PreviousProblems(log, chunk), chunk), p) == Newest(log, p)
    ensures forall u | u in Accepted(packages, chunk) :: u.package != p
  {
    NewestOfNew(packages, PreviousProblems(log, chunk), chunk, p);
    NewestOfMore(log, NewEntries(packages, PreviousProblems(log, chunk), chunk), p);
  }

  lemma {:induction false} NewEntriesClean(packages: Packages, previous: Problems, chunk: seq<Output>)
    requires forall r | r in chunk && r.resolved :: r.problems == {}
    ensures forall e | e in NewEntries(packages, previous, chunk) :: e.resolved ==> e.problems == {}
    decreases |chunk|
  {
    if chunk != [] {
      NewEntriesClean(packages, previous, chunk[..|chunk| - 1]);
    }
  }

  /** Storing a chunk of results keeps flags and log in agreement, for every package. */
  lemma PersistKeepsAgreement(packages: Packages, log: seq<Entry>, weight: nat, chunk: seq<Output>)
    requires !Aborts(packages, chunk) && DistinctPackages(chunk)
    requires AllRemember(packages, log, chunk) && FlagsAgree(packages, log)
    ensures FlagsAgree(After(packages, weight, chunk), log + NewEntries(packages, PreviousProblems(log, chunk), chunk))
  {
    var packages' := After(packages, weight, chunk);
    var log' := log + NewEntries(packages, PreviousProblems(log, chunk), chunk);
    NewEntriesClean(packages, PreviousProblems(log, chunk), chunk);
    forall p | p in packages' && packages'[p].skipResolution ensures packages'[p].resolved.None? {
      var r := ResultFor(chunk, p);
      assert r.Some? ==> !IsAccepted(packages, r.value);
    }
    forall p | p in packages' && packages'[p].resolved.Some?
      ensures Newest(log', p).Some? && Newest(log', p).value.resolved == packages'[p].resolved.value
    {
      if r :| r in chunk && r.package == p && IsAccepted(packages, r) {
        ResultIsLogged(packages, log, weight, chunk, r);
      } else {
        StaleWritesNothing(packages, log, weight, chunk, p);
      }
    }
  }

  lemma AfterOneMore(packages: Packages, weight: nat, chunk: seq<Output>, n: nat)
    requires DistinctPackages(chunk) && n < |chunk| && chunk[n].package in packages
    ensures chunk[..n + 1][..n] == chunk[..n]
    ensures After(packages, weight, chunk[..n])[chunk[n].package] == packages[chunk[n].package]
    ensures After(packages, weight, chunk[..n + 1]) ==
            After(packages, weight, chunk[..n])[chunk[n].package := Updated(packages[chunk[n].package], weight,
                Some(chunk[n]))]
  {
    assert chunk[..n + 1][..n] == chunk[..n];
    var p := chunk[n].package;
    assert ResultFor(chunk[..n], p).None?;
  }

  ghost predicate StatesChanged(packages: Packages, packages': Packages, messages: Messages) {
    && packages.Keys == packages'.Keys
    && (forall p :: p in messages <==> p in packages && MsgStateOf(packages[p]) != MsgStateOf(packages'[p]))
    && (forall p | p in messages :: messages[p] == (MsgStateOf(packages[p]), MsgStateOf(packages'[p])))
  }

  /** A message goes out exactly for the packages that are watched and start or stop being unresolved; on its other
      side it tells how the last complete build ended. */
  lemma MessagesExactly(packages: Packages, weight: nat, chunk: seq<Output>, messages: Messages, p: PackageId)
    requires DistinctPackages(chunk) && p in packages
    requires StatesChanged(packages, After(packages, weight, chunk), messages)
    ensures
      var row := packages[p];
      && (p in messages <==>
            (!row.blocked && row.tracked
             && exists r | r in chunk && r.package == p && r.lastBuildId == row.lastBuildId ::
                  r.resolved == (row.resolved == Some(false))))
      && (p in messages ==>
            var other := if row.resolved == Some(false) then messages[p].1 else messages[p].0;
            && (row.resolved == Some(false) <==> messages[p].0 == Unresolved)
            && (row.resolved != Some(false) <==> messages[p].1 == Unresolved)
            && (other == Ok <==> row.lastCompleteState == Some(Complete))
            && (other == Failing <==> row.lastCompleteState == Some(Failed)))
  {
    var row, row' := packages[p], After(packages, weight, chunk)[p];
    RowAfter(packages, weight, chunk, p);
    MsgStateMeans(row.blocked, row.tracked, row.resolved, row.lastCompleteState);
    MsgStateMeans(row'.blocked, row'.tracked, row'.resolved, row'.lastCompleteState);
  }

  lemma StatesChangedStep(packages: Packages, packages': Packages, messages: Messages, p: PackageId, row: Row)
    requires StatesChanged(packages, packages', messages) && p in packages && packages'[p] == packages[p]
    ensures
      var prev, new_ := MsgStateOf(packages[p]), MsgStateOf(row);
      StatesChanged(packages, packages'[p := row], if prev != new_ then messages[p := (prev, new_)] else messages)
  {
    var after := packages'[p := row];
    assert after.Keys == packages'.Keys;
    forall q | q in packages && q != p ensures MsgStateOf(after[q]) == MsgStateOf(packages'[q]) {
    }
  }

  function UnappliedOf(r: Output): set<Unapplied> {
    set c | c in r.changes :: Unapplied(r.package, c)
  }

  lemma AcceptedOneMore(packages: Packages, chunk: seq<Output>, n: nat)
    requires n < |chunk|
    ensures Accepted(packages, chunk[..n + 1]) ==
            Accepted(packages, chunk[..n]) + if IsAccepted(packages, chunk[n]) then UnappliedOf(chunk[n]) else {}
  {
    assert chunk[..n + 1] == chunk[..n] + [chunk[n]];
    assert forall r :: r in chunk[..n + 1] <==> r in chunk[..n] || r == chunk[n];
  }

  /** What the loop has done with the first `n` results. */
  ghost predicate Persisting(before: Packages, weight: nat, previous: Problems, chunk: seq<Output>, n: nat,
                             packages: Packages, entries: seq<Entry>, changes: set<Unapplied>,
                             messages: Messages)
  {
    && n <= |chunk|
    && packages == After(before, weight, chunk[..n])
    && entries == NewEntries(before, previous, chunk[..n])
    && changes == Accepted(before, chunk[..n])
    && StatesChanged(before, packages, messages)
  }

  lemma PersistingStale(before: Packages, weight: nat, previous: Problems, chunk: seq<Output>, n: nat,
                        packages: Packages, entries: seq<Entry>, changes: set<Unapplied>, messages: Messages)
    requires Persisting(before, weight, previous, chunk, n, packages, entries, changes, messages)
    requires DistinctPackages(chunk) && n < |chunk| && chunk[n].package in before
    ensures chunk[n].package in packages && packages[chunk[n].package] == before[chunk[n].package]
    ensures !IsAccepted(before, chunk[n]) ==>
              Persisting(before, weight, previous, chunk, n + 1, packages, entries, changes, messages)
  {
    AfterOneMore(before, weight, chunk, n);
    AcceptedOneMore(before, chunk, n);
    if !IsAccepted(before, chunk[n]) {
      assert After(before, weight, chunk[..n + 1]) == packages;
      assert NewEntries(before, previous, chunk[..n + 1]) == entries + [];
    }
  }

  lemma PersistingAccepted(before: Packages, weight: nat, previous: Problems, chunk: seq<Output>, n: nat,
                           packages: Packages, entries: seq<Entry>, changes: set<Unapplied>, messages: Messages,
                           row: Row)
    requires Persisting(before, weight, previous, chunk, n, packages, entries, changes, messages)
    requires DistinctPackages(chunk) && n < |chunk| && IsAccepted(before, chunk[n])
    requires row == Updated(before[chunk[n].package], weight, Some(chunk[n]))
    ensures
      var p := chunk[n].package;
      var prev, new_ := MsgStateOf(before[p]), MsgStateOf(row);
      Persisting(before, weight, previous, chunk, n + 1, packages[p := row],
                 entries + (if IsChange(previous, chunk[n]) then [Entry(p, chunk[n].resolved, chunk[n].problems)]
                     else []),
                 changes + UnappliedOf(chunk[n]), if prev != new_ then messages[p := (prev, new_)] else messages)
  {
    AfterOneMore(before, weight, chunk, n);
    AcceptedOneMore(before, chunk, n);
    StatesChangedStep(before, packages, messages, chunk[n].package, row);
  }

  lemma AbortsOneMore(packages: Packages, chunk: seq<Output>, n: nat)
    requires n < |chunk|
    ensures
      var r := chunk[n];
      Aborts(packages, chunk[..n + 1]) <==> Aborts(packages, chunk[..n]) || r.package !in packages
                                            || (IsAccepted(packages, r) && packages[r.package].skipResolution)
  {
    assert chunk[..n + 1] == chunk[..n] + [chunk[n]];
    assert chunk[n] in chunk[..n + 1];
  }

  lemma AbortsSomewhere(packages: Packages, chunk: seq<Output>, n: nat)
    requires n < |chunk| && Aborts(packages, chunk[..n + 1])
    ensures Aborts(packages, chunk)
  {
  }

  function WithoutPackage(log: seq<Entry>, p: PackageId): (r: seq<Entry>)
    ensures forall e :: e in r <==> e in log && e.package != p
  {
    if log == [] then [] else
      var last := log[|log| - 1];
      if last.package == p then WithoutPackage(log[..|log| - 1], p) else WithoutPackage(log[..|log| - 1], p) + [last]
  }

  lemma {:induction false} NewestOfRest(log: seq<Entry>, p: PackageId, q: PackageId)
    requires q != p
    ensures Newest(WithoutPackage(log, p), q) == Newest(log, q)
    decreases |log|
  {
    if log != [] {
      var n := |log| - 1;
      NewestOfRest(log[..n], p, q);
      if log[n].package != p {
        var rest := WithoutPackage(log[..n], p);
        assert WithoutPackage(log, p) == rest + [log[n]];
        assert (rest + [log[n]])[..|rest|] == rest;
      }
    }
  }

  /** The service between two chunks, and what other services do to its packages meanwhile. */
  class RepoResolver {
    const updateWeight: nat
    var packages: Packages
    var log: seq<Entry>
    var unapplied: set<Unapplied>
    var results: seq<Output>

    ghost predicate Valid()
      reads this
    {
      FlagsAgree(packages, log) && AllRemember(packages, log, results) && DistinctPackages(results)
    }

    constructor (packages: Packages, updateWeight: nat)
      requires forall p | p in packages :: packages[p].resolved.None?
      ensures Valid() && this.packages == packages && log == [] && results == []
    {
      this.packages, this.updateWeight := packages, updateWeight;
      log, unapplied, results := [], {}, [];
    }

    /** A package was resolved; each package is resolved once in a pass. */
    method AddResult(p: PackageId, resolved: bool, problems: set<string>, changes: seq<Change>)
      requires Valid() && p in packages && (forall r | r in results :: r.package != p)
      requires resolved ==> problems == {}
      modifies this`results
      ensures Valid()
      ensures results == old(results) + [Output(p, packages[p].resolved, resolved, problems, changes,
          packages[p].lastBuildId)]
    {
      results := results + [Output(p, packages[p].resolved, resolved, problems, changes, packages[p].lastBuildId)];
    }

    /** Another service forgets the resolution of a package. */
    method ResetResolved(p: PackageId)
      requires Valid() && p in packages
      modifies this`packages
      ensures Valid() && packages == old(packages)[p := old(packages)[p].(resolved := None)]
    {
      packages := packages[p := packages[p].(resolved := None)];
    }

    /** A build was submitted, registered or completed, which moves the pointers of its package. */
    method SetPointers(p: PackageId, lastBuildId: Option<nat>, lastCompleteState: Option<BuildState>)
      requires Valid() && p in packages
      modifies this`packages
      ensures Valid()
      ensures packages == old(packages)[p := old(packages)[p].(lastBuildId := lastBuildId,
          lastCompleteState := lastCompleteState)]
    {
      packages := packages[p := packages[p].(lastBuildId := lastBuildId, lastCompleteState := lastCompleteState)];
    }

    /** skip_resolution is set in the frontend, which makes the flag unknown, or cleared. */
    method SetSkipResolution(p: PackageId, skip: bool)
      requires Valid() && p in packages
      modifies this`packages
      ensures Valid()
      ensures packages == old(packages)[p := old(packages)[p].(skipResolution := skip,
          resolved := if skip then None else old(packages)[p].resolved)]
    {
      packages := packages[p := packages[p].(skipResolution := skip,
          resolved := if skip then None else packages[p].resolved)];
    }

    /** A package is deleted, and its changes with it. */
    method DeletePackage(p: PackageId)
      requires Valid()
      modifies this`packages, this`log
      ensures Valid() && packages == old(packages) - {p} && log == WithoutPackage(old(log), p)
    {
      forall q | q != p ensures Newest(WithoutPackage(log, p), q) == Newest(log, q) {
        NewestOfRest(log, p, q);
      }
      packages, log := packages - {p}, WithoutPackage(log, p);
    }

    /** The loop over the results; None when an exception ends it, which undoes all of it. */
    method UpdatePackages(previousProblems: Problems)
      returns (done: bool, entries: seq<Entry>, changes: set<Unapplied>, messages: Messages)
      requires DistinctPackages(results)
      modifies this`packages
      ensures done <==> !Aborts(old(packages), results)
      ensures if done then Persisting(old(packages), updateWeight, previousProblems, results, |results|, packages,
          entries, changes, messages)
              else packages == old(packages)
    {
      var before := packages;
      entries, changes, messages := [], {}, map[];
      for n := 0 to |results|
        invariant Persisting(before, updateWeight, previousProblems, results, n, packages, entries, changes, messages)
        invariant !Aborts(before, results[..n])
      {
        var r := results[n];
        var p := r.package;
        AbortsOneMore(before, results, n);
        if p !in packages {
          AbortsSomewhere(before, results, n);
          packages := before;
          return false, entries, changes, messages;
        }
        PersistingStale(before, updateWeight, previousProblems, results, n, packages, entries, changes, messages);
        if r.lastBuildId != packages[p].lastBuildId {
          continue;
        }
        if packages[p].skipResolution {
          AbortsSomewhere(before, results, n);
          packages := before;
          return false, entries, changes, messages;
        }
        var prevState := MsgStateOf(packages[p]);
        var row := packages[p].(resolved := Some(r.resolved),
            dependencyPriority := TotalWeight(updateWeight, r.changes).Floor);
        PersistingAccepted(before, updateWeight, previousProblems, results, n, packages, entries, changes,
            messages, row);
        packages := packages[p := row];
        messages := if prevState != MsgStateOf(row) then messages[p := (prevState, MsgStateOf(row))] else messages;
        changes := changes + UnappliedOf(r);
        entries := entries + if IsChange(previousProblems, r) then [Entry(p, r.resolved, r.problems)] else [];
      }
      assert results[..|results|] == results;
      done := true;
    }

    /** None for an exception, with nothing stored; the results are given up either way. */
    method PersistResolutionOutput() returns (sent: Option<Messages>)
      requires Valid()
      modifies this
      ensures Valid() && results == []
      ensures sent.None? <==> Aborts(old(packages), old(results))
      ensures sent.None? ==> packages == old(packages) && log == old(log) && unapplied == old(unapplied)
      ensures sent.Some? ==>
                && packages == After(old(packages), updateWeight, old(results))
                && log == old(log) + NewEntries(old(packages), PreviousProblems(old(log), old(results)), old(results))
                && unapplied == Others(old(unapplied), PackageIds(old(results)))
                    + Accepted(old(packages), old(results))
                && StatesChanged(old(packages), packages, sent.value)
    {
      var previousProblems := PreviousProblems(log, results);
      var done, entries, dependencyChanges, messages := UpdatePackages(previousProblems);
      if done {
        PersistKeepsAgreement(old(packages), log, updateWeight, results);
        assert results[..|results|] == results;
        log := log + entries;
        unapplied := Others(unapplied, PackageIds(results)) + dependencyChanges;
      }
      results := [];
      sent := if done then Some(messages) else None;
    }
  }
}
