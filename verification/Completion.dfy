/** `update_build_state` for one build that has reached a terminal state, as run by any number of
    processes at once under row locks. A transaction's writes become visible when it commits. */
module Completion {
  import opened Wrappers
  import opened RwLock
  import opened Builds
  import opened MessageState

  /** The terminal states of the Koji task; a task is `usable` if it did not end with a Koji fault and its
      build has a repository. `Canceled` also stands for a task canceled for taking too long. */
  datatype Report = Closed(usable: bool) | FailedTask(usable: bool) | Canceled

  /** KOJI_STATE_MAP */
  function Target(r: Report): Option<BuildState> {
    match r
    case Closed(_) => Some(Complete)
    case FailedTask(_) => Some(Failed)
    case Canceled => None
  }

  /** Whoever sees this deletes the build instead of setting its state. */
  predicate Discards(r: Report) {
    r.Canceled? || !r.usable
  }

  /** The columns of the package row that count here. */
  datatype PackageRow = PackageRow(
    blocked: bool, tracked: bool, resolved: Option<bool>, lastCompleteState: Option<BuildState>,
    manualPriority: int, dependencyPriority: int, buildPriority: int, unappliedChanges: nat)

  function MsgStateOf(p: PackageRow): MsgState {
    MsgStateFor(p.blocked, p.tracked, p.resolved, p.lastCompleteState)
  }

  datatype Message = Message(sender: Pid, prev: MsgState, new_: MsgState)

  /** Where a process stands in update_build_state. */
  datatype Pc =
    | Start
    | Locked                                       // holds the build row
    | Prepared(prev: MsgState)                     // holds the package row, too
    | Committed(prev: MsgState, new_: MsgState)    // may have a message to send
    | Done

  /** `pointsAt`: last_complete_build_id of the package refers to the build. `commits` and `sent` are the
      history of what processes have committed and dispatched. */
  datatype State = State(
    build: Option<BuildState>, buildLock: Option<Pid>,
    package: PackageRow, pointsAt: bool, packageLock: Option<Pid>,
    procs: map<Pid, Pc>, commits: seq<Pid>, sent: seq<Message>)

  /** `newest`: the trigger finds the build to be the last complete one; `previous`: the state of the
      build that set_failed_build_priority compares with. */
  datatype Action =
    | LockBuild | GiveUp | DeleteBuild | RefuseDelete | LockPackage
    | Commit(newest: bool, previous: Option<BuildState>, failedPriority: int) | Dispatch | Crash
    | OthersWritePackage(row: PackageRow) | OthersMovePointer(points: bool, to: Option<BuildState>) | OthersDeleteBuild

  /** The build has been deleted, or another process has done the job already. */
  predicate JobDone(build: Option<BuildState>, r: Report) {
    build.None? || (Target(r).Some? && build == Target(r))
  }

  /** The package after clear_priority_data, the trigger and set_failed_build_priority. The trigger
      writes the state only when it moves the pointer. */
  function CompletedRow(p: PackageRow, state: BuildState, moves: bool, previous: Option<BuildState>,
                        failedPriority: int): PackageRow {
    p.(manualPriority := 0, dependencyPriority := 0, unappliedChanges := 0,
       buildPriority := if state == Failed && previous != Some(Failed) then failedPriority else 0,
       lastCompleteState := if moves then Some(state) else p.lastCompleteState)
  }

  predicate IsFinished(build: Option<BuildState>) {
    build.Some? && build.value != Running
  }

  predicate Enabled(reports: map<Pid, Report>, s: State, p: Pid, a: Action) {
    p in s.procs && p in reports &&
    var pc, r := s.procs[p], reports[p];
    match a
    case LockBuild => pc.Start? && s.buildLock.None?
    case GiveUp => pc.Locked? && JobDone(s.build, r)
    case DeleteBuild => pc.Locked? && !JobDone(s.build, r) && Discards(r) && !s.pointsAt
    case RefuseDelete => pc.Locked? && !JobDone(s.build, r) && Discards(r) && s.pointsAt
    case LockPackage => pc.Locked? && !JobDone(s.build, r) && !Discards(r) && s.packageLock.None?
    case Commit(newest, _, _) =>
      pc.Prepared? && !Discards(r)
      && (s.pointsAt ==> newest) && (newest ==> s.pointsAt || s.build == Some(Running))
    case Dispatch => pc.Committed?
    case Crash => true
    case OthersWritePackage(row) => s.packageLock.None? && row.lastCompleteState == s.package.lastCompleteState
    case OthersMovePointer(points, to) =>
      // moving it from or to the build also writes the flag in the build row
      && s.packageLock.None? && (points || s.pointsAt ==> s.buildLock.None?)
      && (points ==> IsFinished(s.build) && to == s.build)
    case OthersDeleteBuild => s.buildLock.None? && !s.pointsAt
  }

  function Free(lock: Option<Pid>, p: Pid): Option<Pid> {
    if lock == Some(p) then None else lock
  }

  /** The process ends its transaction and goes on at `pc`. */
  function EndTransaction(s: State, p: Pid, pc: Pc): State {
    s.(procs := s.procs[p := pc], buildLock := Free(s.buildLock, p), packageLock := Free(s.packageLock, p))
  }

  function Apply(reports: map<Pid, Report>, s: State, p: Pid, a: Action): State
    requires Enabled(reports, s, p, a)
  {
    match a
    case LockBuild => s.(procs := s.procs[p := Locked], buildLock := Some(p))
    case GiveUp => EndTransaction(s, p, Done)
    case DeleteBuild => EndTransaction(s, p, Done).(build := None, commits := s.commits + [p])
    case RefuseDelete => EndTransaction(s, p, Done)
    case LockPackage => s.(procs := s.procs[p := Prepared(MsgStateOf(s.package))], packageLock := Some(p))
    case Commit(newest, previous, failedPriority) =>
      var state := Target(reports[p]).value;
      var row := CompletedRow(s.package, state, newest && !s.pointsAt, previous, failedPriority);
      EndTransaction(s, p, Committed(s.procs[p].prev, MsgStateOf(row)))
        .(build := Some(state), package := row, pointsAt := newest, commits := s.commits + [p])
    case Dispatch =>
      var pc := s.procs[p];
      s.(procs := s.procs[p := Done],
         sent := if pc.prev != pc.new_ then s.sent + [Message(p, pc.prev, pc.new_)] else s.sent)
    case Crash => EndTransaction(s, p, Done)
    case OthersWritePackage(row) => s.(package := row)
    case OthersMovePointer(points, to) =>
      s.(pointsAt := points, package := s.package.(lastCompleteState := to))
    case OthersDeleteBuild => s.(build := None)
  }

  datatype Move = Move(pid: Pid, action: Action)

  predicate Runs(reports: map<Pid, Report>, s: State, moves: seq<Move>)
    decreases |moves|
  {
    moves == [] ||
    (Enabled(reports, s, moves[0].pid, moves[0].action)
     && Runs(reports, Apply(reports, s, moves[0].pid, moves[0].action), moves[1..]))
  }

  function Exec(reports: map<Pid, Report>, s: State, moves: seq<Move>): State
    requires Runs(reports, s, moves)
    decreases |moves|
  {
    if moves == [] then s else Exec(reports, Apply(reports, s, moves[0].pid, moves[0].action), moves[1..])
  }

  predicate Init(s: State) {
    && s.buildLock.None? && s.packageLock.None? && s.commits == [] && s.sent == []
    && (s.pointsAt ==> IsFinished(s.build))
    && forall p | p in s.procs :: s.procs[p] == Start
  }

  // ---- The invariant ----

  /** Nobody reports anything but what those who set the state report. */
  predicate OneTarget(reports: map<Pid, Report>) {
    forall p, q | p in reports && q in reports && !Discards(reports[p]) :: Target(reports[q]) == Target(reports[p])
  }

  /** Those who set the state report the same one. */
  predicate OneState(reports: map<Pid, Report>) {
    forall p, q | p in reports && q in reports && !Discards(reports[p]) && !Discards(reports[q]) ::
      Target(reports[q]) == Target(reports[p])
  }

  /** Where the build counts as the last complete one as soon as it is finished, and for good. */
  predicate Keeps(a: Action) {
    !a.OthersMovePointer? && (a.Commit? ==> a.newest)
  }

  predicate AllKeep(moves: seq<Move>) {
    forall m | m in moves :: Keeps(m.action)
  }

  /** With the pointer kept, those who set the state must agree; otherwise all must. */
  predicate Agreed(reports: map<Pid, Report>, kept: bool) {
    if kept then OneState(reports) else OneTarget(reports)
  }

  predicate ProcInv(reports: map<Pid, Report>, s: State, p: Pid)
    requires p in s.procs
  {
    var pc := s.procs[p];
    && (pc.Locked? || pc.Prepared? <==> s.buildLock == Some(p))
    && (pc.Prepared? <==> s.packageLock == Some(p))
    && (pc.Prepared? ==> pc.prev == MsgStateOf(s.package) && p in reports && !JobDone(s.build, reports[p]))
    && (pc.Prepared? ==> !Discards(reports[p]))
    && (pc.Committed? ==> s.commits == [p] && s.sent == [])
  }

  /** The process has nothing left to commit. */
  predicate Spent(s: State, r: Report, kept: bool) {
    JobDone(s.build, r) || (kept && s.pointsAt && Discards(r))
  }

  predicate Inv(reports: map<Pid, Report>, s: State, kept: bool) {
    && |s.commits| <= 1 && |s.sent| <= |s.commits|
    && (s.commits != [] ==> forall p | p in reports :: Spent(s, reports[p], kept))
    && (s.sent != [] ==> s.sent[0].prev != s.sent[0].new_)
    && (s.pointsAt ==> IsFinished(s.build))
    && forall p | p in s.procs :: ProcInv(reports, s, p)
  }

  lemma StepKeepsInv(reports: map<Pid, Report>, s: State, p: Pid, a: Action, kept: bool)
    requires Agreed(reports, kept) && Inv(reports, s, kept) && Enabled(reports, s, p, a) && (kept ==> Keeps(a))
    ensures Inv(reports, Apply(reports, s, p, a), kept)
  {
    var s' := Apply(reports, s, p, a);
    assert ProcInv(reports, s, p);
    forall q | q in s'.procs ensures ProcInv(reports, s', q) {
      assert ProcInv(reports, s, q);
    }
  }

  lemma {:induction false} RunKeepsInv(reports: map<Pid, Report>, s: State, moves: seq<Move>, kept: bool)
    requires Agreed(reports, kept) && Inv(reports, s, kept) && Runs(reports, s, moves) && (kept ==> AllKeep(moves))
    ensures Inv(reports, Exec(reports, s, moves), kept)
    decreases |moves|
  {
    if moves != [] {
      assert moves[0] in moves && forall m | m in moves[1..] :: m in moves;
      StepKeepsInv(reports, s, moves[0].pid, moves[0].action, kept);
      RunKeepsInv(reports, Apply(reports, s, moves[0].pid, moves[0].action), moves[1..], kept);
    }
  }

  /** Of all processes at most one commits, be it the transition or the deletion, if those who set the
      state report the same one and, unless the pointer is kept, so does everybody else; at most one
      message is sent, and only about a change. */
  lemma SingleCompletion(reports: map<Pid, Report>, s: State, moves: seq<Move>, kept: bool)
    requires Agreed(reports, kept) && Init(s) && Runs(reports, s, moves) && (kept ==> AllKeep(moves))
    ensures var t := Exec(reports, s, moves);
      && |t.commits| <= 1 && |t.sent| <= |t.commits|
      && (forall m | m in t.sent :: m.prev != m.new_)
  {
    RunKeepsInv(reports, s, moves, kept);
  }

  /** In any such run, committing the transition sets the state that the closed or failed task stands for,
      clears the priorities that do not outlive a build and the unapplied changes, bumps the build
      priority of a package that starts to fail, and lets the trigger move the pointer; what will be sent
      is the message state just before and just after. */
  lemma CommitClears(reports: map<Pid, Report>, s: State, moves: seq<Move>, p: Pid, a: Action, kept: bool)
    requires Agreed(reports, kept) && Init(s) && Runs(reports, s, moves) && (kept ==> AllKeep(moves)) && a.Commit?
    requires Enabled(reports, Exec(reports, s, moves), p, a)
    ensures var t := Exec(reports, s, moves); var t' := Apply(reports, t, p, a);
      && t.build != t'.build && t.commits == [] && t'.commits == [p] && t'.sent == []
      && (match reports[p]
          case Closed(usable) => usable && t'.build == Some(Complete)
          case FailedTask(usable) => usable && t'.build == Some(Failed)
          case Canceled => false)
      && t'.pointsAt == a.newest
      && t'.package.lastCompleteState == (if a.newest && !t.pointsAt then t'.build else t.package.lastCompleteState)
      && t'.package.manualPriority == 0 && t'.package.dependencyPriority == 0 && t'.package.unappliedChanges == 0
      && t'.package.buildPriority ==
           (if t'.build == Some(Failed) && a.previous != Some(Failed) then a.failedPriority else 0)
      && t'.package.blocked == t.package.blocked && t'.package.tracked == t.package.tracked
      && t'.package.resolved == t.package.resolved
      && t'.buildLock.None? && t'.packageLock.None?
      && t'.procs[p] == Committed(MsgStateOf(t.package), MsgStateOf(t'.package))
  {
    RunKeepsInv(reports, s, moves, kept);
    var t := Exec(reports, s, moves);
    assert ProcInv(reports, t, p);
  }

  /** A package that is watched and resolved starts to be reported as fine, or as failing, when a build that
      becomes its last complete one is closed, or fails. */
  lemma CommitAnnounces(reports: map<Pid, Report>, s: State, moves: seq<Move>, p: Pid, a: Action, kept: bool)
    requires Agreed(reports, kept) && Init(s) && Runs(reports, s, moves) && (kept ==> AllKeep(moves)) && a.Commit?
    requires Enabled(reports, Exec(reports, s, moves), p, a)
    requires a.newest && !Exec(reports, s, moves).pointsAt
    ensures var t := Exec(reports, s, moves); var t' := Apply(reports, t, p, a);
      !t.package.blocked && t.package.tracked && t.package.resolved != Some(false) ==>
        t'.procs[p].new_ == if reports[p].Closed? then Ok else Failing
  {
    CommitClears(reports, s, moves, p, a, kept);
    var t := Exec(reports, s, moves);
    MsgStateMeans(t.package.blocked, t.package.tracked, t.package.resolved,
                  Apply(reports, t, p, a).package.lastCompleteState);
  }

  /** Whoever has locked the build row gives up exactly when the build is gone or already has the state
      reported. Otherwise it deletes the build of a task that was canceled, ended with a fault or has no
      repository, unless the package points at it, and goes on to set the state of any other. */
  lemma LockedDecides(reports: map<Pid, Report>, s: State, p: Pid)
    requires p in s.procs && p in reports && s.procs[p] == Locked
    ensures
      var r := reports[p];
      var same := match r
                  case Closed(_) => s.build == Some(Complete)
                  case FailedTask(_) => s.build == Some(Failed)
                  case Canceled => false;
      var unusable := r.Canceled? || !r.usable;
      && (Enabled(reports, s, p, GiveUp) <==> s.build.None? || same)
      && (Enabled(reports, s, p, DeleteBuild) <==> s.build.Some? && !same && unusable && !s.pointsAt)
      && (Enabled(reports, s, p, RefuseDelete) <==> s.build.Some? && !same && unusable && s.pointsAt)
      && (Enabled(reports, s, p, LockPackage) <==> s.build.Some? && !same && !unusable && s.packageLock.None?)
  {
  }

  /** A deletion removes the build and nothing else; giving up, being refused and crashing write nothing. */
  lemma OthersWriteNothing(reports: map<Pid, Report>, s: State, p: Pid, a: Action)
    requires Enabled(reports, s, p, a)
    ensures
      var t := Apply(reports, s, p, a);
      && (a.DeleteBuild? ==>
            t.build.None? && t.package == s.package && t.commits == s.commits + [p] && t.procs[p] == Done)
      && (a.GiveUp? || a.RefuseDelete? || a.Crash? ==>
            t.build == s.build && t.package == s.package && t.pointsAt == s.pointsAt && t.commits == s.commits
            && t.sent == s.sent && t.procs[p] == Done && t.buildLock != Some(p) && t.packageLock != Some(p))
  {
  }

  /** The one that committed the transition comes to send its message before anything was sent, and
      sends it exactly when the message state has changed. */
  lemma MessageExactlyOnChange(reports: map<Pid, Report>, s: State, moves: seq<Move>, p: Pid, kept: bool)
    requires Agreed(reports, kept) && Init(s) && Runs(reports, s, moves) && (kept ==> AllKeep(moves))
    requires Enabled(reports, Exec(reports, s, moves), p, Dispatch)
    ensures var t := Exec(reports, s, moves); var t' := Apply(reports, t, p, Dispatch);
      && t.commits == [p] && t.sent == []
      && (t'.sent == [] <==> t.procs[p].prev == t.procs[p].new_)
      && (forall m | m in t'.sent :: m == Message(p, t.procs[p].prev, t.procs[p].new_))
  {
    RunKeepsInv(reports, s, moves, kept);
    assert ProcInv(reports, Exec(reports, s, moves), p);
  }

  lemma {:induction false} RunsConcat(reports: map<Pid, Report>, s: State, a: seq<Move>, b: seq<Move>)
    requires Runs(reports, s, a) && Runs(reports, Exec(reports, s, a), b)
    ensures Runs(reports, s, a + b) && Exec(reports, s, a + b) == Exec(reports, Exec(reports, s, a), b)
    decreases |a|
  {
    if a == [] {
      assert a + b == b;
    } else {
      assert (a + b)[0] == a[0] && (a + b)[1..] == a[1..] + b;
      RunsConcat(reports, Apply(reports, s, a[0].pid, a[0].action), a[1..], b);
    }
  }

  predicate AtRest(reports: map<Pid, Report>, s: State, p: Pid) {
    p in s.procs && p in reports && s.procs[p].Start? && s.buildLock.None? && s.packageLock.None?
  }

  /** What a process leaves behind that has committed what it reports. */
  predicate HasCommitted(reports: map<Pid, Report>, s: State, t: State, p: Pid)
    requires p in reports
  {
    && t.commits == s.commits + [p] && t.buildLock.None? && t.packageLock.None? && t.procs.Keys == s.procs.Keys
    && t.build == (if Discards(reports[p]) then None else Target(reports[p]))
    && forall q | q in s.procs && q != p :: t.procs[q] == s.procs[q]
  }

  lemma FinishSetting(reports: map<Pid, Report>, s: State, p: Pid, newest: bool) returns (moves: seq<Move>)
    requires AtRest(reports, s, p) && !JobDone(s.build, reports[p]) && !Discards(reports[p])
    requires (s.pointsAt ==> newest) && (newest ==> s.pointsAt || s.build == Some(Running))
    ensures Runs(reports, s, moves) && HasCommitted(reports, s, Exec(reports, s, moves), p)
    ensures Exec(reports, s, moves).pointsAt == newest && (newest ==> AllKeep(moves))
  {
    var lock, commit := Move(p, LockBuild), Commit(newest, None, 0);
    moves := [lock, Move(p, LockPackage), Move(p, commit)];
    var s1 := Apply(reports, s, p, LockBuild);
    var s2 := Apply(reports, s1, p, LockPackage);
    var s3 := Apply(reports, s2, p, commit);
    assert moves[2..][1..] == [] && moves[1..][1..] == moves[2..];
    assert Runs(reports, s3, moves[2..][1..]) && Exec(reports, s3, moves[2..][1..]) == s3;
    assert Runs(reports, s2, moves[2..]) && Exec(reports, s2, moves[2..]) == s3;
    assert Runs(reports, s1, moves[1..]) && Exec(reports, s1, moves[1..]) == s3;
  }

  /** Whoever crashes with the rows locked leaves the job to another process, which can do it at once. */
  lemma CrashedIsReplaced(reports: map<Pid, Report>, s: State, p: Pid, q: Pid) returns (moves: seq<Move>)
    requires p in s.procs && q in s.procs && p != q && p in reports && q in reports && s.procs[q] == Start
    requires s.buildLock == Some(p) && (s.packageLock.None? || s.packageLock == Some(p))
    requires s.build == Some(Running) && !Discards(reports[q])
    ensures Runs(reports, s, [Move(p, Crash)] + moves)
    ensures
      var t := Exec(reports, s, [Move(p, Crash)] + moves);
      && t.commits == s.commits + [q] && t.build == Target(reports[q])
      && p in t.procs && t.procs[p] == Done && t.buildLock.None? && t.packageLock.None?
  {
    var s1 := Apply(reports, s, p, Crash);
    moves := FinishSetting(reports, s1, q, s.pointsAt);
    var steps := [Move(p, Crash)] + moves;
    assert steps[0] == Move(p, Crash) && steps[1..] == moves;
  }

  lemma FinishDeleting(reports: map<Pid, Report>, s: State, p: Pid) returns (moves: seq<Move>)
    requires AtRest(reports, s, p) && !JobDone(s.build, reports[p]) && Discards(reports[p]) && !s.pointsAt
    ensures Runs(reports, s, moves) && HasCommitted(reports, s, Exec(reports, s, moves), p)
  {
    moves := [Move(p, LockBuild), Move(p, DeleteBuild)];
    var s1 := Apply(reports, s, p, LockBuild);
    var s2 := Apply(reports, s1, p, DeleteBuild);
    assert moves[1..][1..] == [];
    assert Runs(reports, s2, moves[1..][1..]) && Exec(reports, s2, moves[1..][1..]) == s2;
    assert Runs(reports, s1, moves[1..]) && Exec(reports, s1, moves[1..]) == s2;
  }

  lemma CommitBoth(reports: map<Pid, Report>, s: State, p: Pid, q: Pid, first: seq<Move>, second: seq<Move>)
    requires Runs(reports, s, first) && Runs(reports, Exec(reports, s, first), second)
    requires p in reports && HasCommitted(reports, s, Exec(reports, s, first), p)
    requires q in reports
    requires HasCommitted(reports, Exec(reports, s, first), Exec(reports, Exec(reports, s, first), second), q)
    ensures Runs(reports, s, first + second) && |Exec(reports, s, first + second).commits| == |s.commits| + 2
  {
    RunsConcat(reports, s, first, second);
  }

  /** One process sets the state of a build that is not the newest one finished; then another one, with
      a different outcome, sets the state again or deletes the build. */
  lemma DifferentReportsCommitTwice(reports: map<Pid, Report>, s: State, p: Pid, q: Pid) returns (moves: seq<Move>)
    requires Init(s) && s.procs.Keys == reports.Keys && s.build == Some(Running)
    requires p in reports && q in reports && !Discards(reports[p]) && Target(reports[q]) != Target(reports[p])
    ensures Runs(reports, s, moves) && |Exec(reports, s, moves).commits| == 2
  {
    var first := FinishSetting(reports, s, p, false);
    var t := Exec(reports, s, first);
    var second;
    if Discards(reports[q]) {
      second := FinishDeleting(reports, t, q);
    } else {
      second := FinishSetting(reports, t, q, false);
    }
    CommitBoth(reports, s, p, q, first, second);
    moves := first + second;
  }

  /** Two different states are both set even if the pointer is kept. */
  lemma DifferentStatesCommitTwice(reports: map<Pid, Report>, s: State, p: Pid, q: Pid) returns (moves: seq<Move>)
    requires Init(s) && s.procs.Keys == reports.Keys && s.build == Some(Running) && p in reports && q in reports
    requires !Discards(reports[p]) && !Discards(reports[q]) && Target(reports[q]) != Target(reports[p])
    ensures Runs(reports, s, moves) && |Exec(reports, s, moves).commits| == 2 && AllKeep(moves)
  {
    var first := FinishSetting(reports, s, p, true);
    var second := FinishSetting(reports, Exec(reports, s, first), q, true);
    CommitBoth(reports, s, p, q, first, second);
    moves := first + second;
  }

  ghost predicate CommitsOnce(reports: map<Pid, Report>, kept: bool) {
    forall s: State, moves: seq<Move> | Init(s) && s.procs.Keys == reports.Keys && Runs(reports, s, moves)
                                        && (kept ==> AllKeep(moves)) ::
      |Exec(reports, s, moves).commits| <= 1
  }

  /** In all runs a build is completed at most once exactly when everybody's report agrees with those who
      set the state. In all runs that keep the pointer, where a build that has just become the last
      complete one cannot be deleted, exactly when those who set the state agree with each other. */
  lemma CommitsOnceExactly(reports: map<Pid, Report>, kept: bool)
    ensures CommitsOnce(reports, kept) <==> Agreed(reports, kept)
  {
    if Agreed(reports, kept) {
      forall s: State, moves: seq<Move> | Init(s) && s.procs.Keys == reports.Keys && Runs(reports, s, moves)
                                          && (kept ==> AllKeep(moves))
        ensures |Exec(reports, s, moves).commits| <= 1
      {
        SingleCompletion(reports, s, moves, kept);
      }
    } else {
      var s := State(Some(Running), None, PackageRow(false, true, None, None, 0, 0, 0, 0), false, None,
                     map r | r in reports :: Start, [], []);
      var p, q :| p in reports && q in reports && !Discards(reports[p]) && (kept ==> !Discards(reports[q]))
                  && Target(reports[q]) != Target(reports[p]);
      var moves;
      if kept {
        moves := DifferentStatesCommitTwice(reports, s, p, q);
      } else {
        moves := DifferentReportsCommitTwice(reports, s, p, q);
      }
      assert |Exec(reports, s, moves).commits| == 2;
    }
  }
}
