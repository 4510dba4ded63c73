/** What lock(), try_lock() and unlock() of `FileLock` promise their caller, and which paths are left without a
    lock file once everybody has unlocked. */
module LockFiles {
  import opened RwLock
  import opened Wrappers
  import opened FileLock

  // ---- One process ----

  lemma CheckedInv(policy: Policy, t: State, p: Pid)
    requires Inv(policy, t) && Enabled(policy, t, Check(p))
    ensures t.handles[p].kernel == Some(t.handles[p].want)
    ensures t.handles[p].file != t.path ==> !t.handles[p].exclusiveLocked
  {
    assert PhaseInv(t.handles[p]);
    assert Owns(t.handles[p]) ==> t.handles[p].file == t.path;
  }

  lemma Checked(s: State, p: Pid)
    requires p in s.handles && s.handles[p].phase == Checking && s.handles[p].kernel == Some(s.handles[p].want)
    requires s.handles[p].file != s.path ==> !s.handles[p].exclusiveLocked
    ensures
      var h := s.handles[p];
      View(Apply(s, Check(p))) == if h.file == s.path then View(s)[p := h.want] else View(s) - {p}
  {
    ViewOfPut(s, p, Apply(s, Check(p)).handles[p], s.path);
  }

  /** The comparison of the inodes accepts the lock exactly when the file locked is the one at the path; otherwise
      the file is closed and lock() starts over with the same wish. */
  lemma CheckDecides(policy: Policy, s: State, steps: seq<Step>, p: Pid)
    requires Sound(policy) && Init(s) && Runs(policy, s, steps) && Enabled(policy, Exec(policy, s, steps), Check(p))
    ensures
      var t := Exec(policy, s, steps);
      var t' := Apply(t, Check(p));
      var h, h' := t.handles[p], t'.handles[p];
      && (h.file == t.path ==>
            h'.phase == Locked && h'.kernel == Some(h.want) && View(t') == View(t)[p := h.want])
      && (h.file != t.path ==>
            h' == Handle(Opening, None, None, h.want, h.blocking, false) && View(t') == View(t) - {p})
      && t'.path == t.path
  {
    InitInv(policy, s);
    RunKeepsInv(policy, s, steps);
    CheckedInv(policy, Exec(policy, s, steps), p);
    Checked(Exec(policy, s, steps), p);
  }

  predicate AsAsked(h: Handle) {
    && (h.phase == Locked ==> h.kernel == Some(h.want) && (h.want == Exclusive ==> h.exclusiveLocked))
    && (h.phase == Refused ==> !h.blocking && h.kernel.None?)
  }

  lemma StepKeepsAsked(policy: Policy, s: State, e: Step, p: Pid)
    requires Sound(policy) && Inv(policy, s) && Enabled(policy, s, e) && p in s.handles && AsAsked(s.handles[p])
    ensures p in Apply(s, e).handles && AsAsked(Apply(s, e).handles[p])
  {
    assert PhaseInv(s.handles[p]);
  }

  lemma {:induction false} RunKeepsAsked(policy: Policy, s: State, steps: seq<Step>, p: Pid)
    requires Sound(policy) && Inv(policy, s) && Runs(policy, s, steps) && p in s.handles && AsAsked(s.handles[p])
    ensures p in Exec(policy, s, steps).handles && AsAsked(Exec(policy, s, steps).handles[p])
    decreases |steps|
  {
    if steps != [] {
      StepKeepsInv(policy, s, steps[0]);
      StepKeepsAsked(policy, s, steps[0], p);
      RunKeepsAsked(policy, Apply(s, steps[0]), steps[1..], p);
    }
  }

  /** lock() never returns False: only try_lock() is refused, with no lock taken, and only while another process
      has a lock on the very file that does not go with the one asked for. Whoever has got a lock has it in the
      mode asked for, and will unlink the file if that was exclusive. */
  lemma GrantedAsAsked(policy: Policy, s: State, steps: seq<Step>, p: Pid)
    requires Sound(policy) && Init(s) && Runs(policy, s, steps) && p in s.handles
    ensures
      var t := Exec(policy, s, steps);
      && p in t.handles && AsAsked(t.handles[p])
      && (Enabled(policy, t, Refuse(p)) ==>
            !t.handles[p].blocking && exists q | q in t.handles && q != p ::
              && t.handles[q].file == t.handles[p].file && t.handles[q].kernel.Some?
              && (t.handles[q].kernel == Some(Exclusive) || t.handles[p].want == Exclusive))
  {
    InitInv(policy, s);
    RunKeepsAsked(policy, s, steps, p);
  }

  // ---- The files ----

  predicate Crashes(steps: seq<Step>) {
    exists e :: e in steps && e.Crash?
  }

  /** The process has the lock file at the path open, and has not been refused its lock. */
  predicate Attached(s: State, q: Pid) {
    q in s.handles && s.path.Some? && s.handles[q].file == s.path && s.handles[q].phase != Refused
  }

  /** There is a lock file only while somebody is about to lock it or has locked it. */
  ghost predicate NoOrphan(s: State) {
    && (s.path.Some? ==> exists q :: Attached(s, q))
    && (forall q | q in s.handles && s.handles[q].phase == Closing :: s.handles[q].file != s.path)
  }

  /** Whoever refuses to give way to `p` is attached to the file, too. */
  lemma RefusedByAttached(policy: Policy, s: State, p: Pid) returns (q: Pid)
    requires Inv(policy, s) && NoOrphan(s) && Enabled(policy, s, Refuse(p)) && s.handles[p].file == s.path
    ensures q != p && Attached(s, q)
  {
    q :| q in s.handles && q != p && s.handles[q].file == s.handles[p].file && s.handles[q].kernel.Some? &&
        !Compatible(s.handles[p].want, s.handles[q].kernel.value);
    assert PhaseInv(s.handles[q]) && PhaseInv(s.handles[p]);
  }

  /** A process does not leave the file behind: it unlinks it before it closes it, unless it is not attached. */
  lemma StaysAttached(policy: Policy, s: State, e: Step, q: Pid)
    requires !policy.freshShared && Inv(policy, s) && NoOrphan(s) && Enabled(policy, s, e)
    requires !e.Crash? && !e.Refuse? && !e.Unlink? && Attached(s, q)
    ensures Attached(Apply(s, e), q)
  {
    var h := s.handles[q];
    assert PhaseInv(h) && PolicyInv(policy, h) && h.phase != Closing;
    assert h.phase == Locked ==> h.kernel.value == Shared || h.kernel.value == Exclusive;
  }

  lemma SomebodyAttached(policy: Policy, s: State, e: Step)
    requires !policy.freshShared && Inv(policy, s) && NoOrphan(s) && Enabled(policy, s, e) && !e.Crash?
    requires Apply(s, e).path.Some?
    ensures exists q :: Attached(Apply(s, e), q)
  {
    if s.path.None? {
      assert Attached(Apply(s, e), e.pid);
    } else {
      var q :| Attached(s, q);
      if !e.Refuse? {
        StaysAttached(policy, s, e, q);
      } else if q == e.pid {
        q := RefusedByAttached(policy, s, e.pid);
        assert Attached(Apply(s, e), q);
      } else {
        assert Attached(Apply(s, e), q);
      }
    }
  }

  lemma StepKeepsNoOrphan(policy: Policy, s: State, e: Step)
    requires !policy.freshShared && Inv(policy, s) && NoOrphan(s) && Enabled(policy, s, e) && !e.Crash?
    ensures NoOrphan(Apply(s, e))
  {
    var t := Apply(s, e);
    if t.path.Some? {
      SomebodyAttached(policy, s, e);
    }
    forall q | q in t.handles && t.handles[q].phase == Closing ensures t.handles[q].file != t.path {
      assert PhaseInv(s.handles[q]) && PhaseInv(s.handles[e.pid]);
    }
  }

  lemma {:induction false} RunKeepsNoOrphan(policy: Policy, s: State, steps: seq<Step>)
    requires !policy.freshShared && Inv(policy, s) && NoOrphan(s) && Runs(policy, s, steps) && !Crashes(steps)
    ensures NoOrphan(Exec(policy, s, steps))
    decreases |steps|
  {
    if steps != [] {
      assert steps[0] in steps;
      StepKeepsInv(policy, s, steps[0]);
      StepKeepsNoOrphan(policy, s, steps[0]);
      assert forall e | e in steps[1..] :: e in steps;
      RunKeepsNoOrphan(policy, Apply(s, steps[0]), steps[1..]);
    }
  }

  /** No lock file in the beginning, and none once all processes are outside, whatever they did in between. */
  ghost predicate AlwaysTidy(policy: Policy, pids: set<Pid>) {
    forall s: State, steps: seq<Step> |
      && Init(s) && s.path.None? && s.handles.Keys == pids && Runs(policy, s, steps) && !Crashes(steps)
      && Init(Exec(policy, s, steps)) ::
      Exec(policy, s, steps).path.None?
  }

  lemma NoFileLeft(policy: Policy, s: State, steps: seq<Step>)
    requires !policy.freshShared && Init(s) && s.path.None? && Runs(policy, s, steps) && !Crashes(steps)
    requires Init(Exec(policy, s, steps))
    ensures Exec(policy, s, steps).path.None?
  {
    InitInv(policy, s);
    RunKeepsNoOrphan(policy, s, steps);
  }

  /** A process takes the lock on a path with no file, and its last step closes the file without unlinking it. */
  lemma LeavesFile(policy: Policy, s: State, p: Pid, want: Mode, last: Step) returns (steps: seq<Step>)
    requires Init(s) && s.path.None? && p in s.handles && (want == Exclusive || policy.freshShared)
    requires last == Crash(p) || (last == Close(p) && want == Shared)
    ensures Runs(policy, s, steps) && (Crashes(steps) ==> last.Crash?)
    ensures Exec(policy, s, steps) == State(Some(0), s.handles)
  {
    var taken := Take(p, want, true, 0);
    TakeRuns(policy, s, p, want, true, 0);
    var s1 := Exec(policy, s, taken);
    var s2 := Apply(s1, last);
    assert Runs(policy, s2, [last][1..]) && Exec(policy, s2, [last][1..]) == s2;
    RunsConcat(policy, s, taken, [last]);
    steps := taken + [last];
    assert s2.handles == s.handles;
  }

  /** A crash leaves the file behind on any path; the kernel takes the lock away, so that nobody has it. */
  lemma CrashLeavesFile(policy: Policy, s: State, p: Pid) returns (steps: seq<Step>)
    requires Init(s) && s.path.None? && p in s.handles
    ensures Runs(policy, s, steps)
    ensures Exec(policy, s, steps).path.Some? && View(Exec(policy, s, steps)) == map[]
  {
    steps := LeavesFile(policy, s, p, Exclusive, Crash(p));
  }

  /** Without crashes, the paths that are never locked shared afresh are exactly those that are left without a lock
      file when everybody has unlocked: it is the exclusive locks, relaxed or not, that take their file away. */
  lemma TidyExactly(policy: Policy, pids: set<Pid>, p: Pid)
    requires p in pids
    ensures AlwaysTidy(policy, pids) <==> !policy.freshShared
  {
    if policy.freshShared {
      var s := State(None, map r | r in pids :: IDLE);
      var steps := LeavesFile(policy, s, p, Shared, Close(p));
      assert Init(Exec(policy, s, steps));
    } else {
      forall s: State, steps: seq<Step> |
        && Init(s) && s.path.None? && s.handles.Keys == pids && Runs(policy, s, steps) && !Crashes(steps)
        && Init(Exec(policy, s, steps))
        ensures Exec(policy, s, steps).path.None?
      {
        NoFileLeft(policy, s, steps);
      }
    }
  }
}
