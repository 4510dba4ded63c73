/** `FileLock` at the level of the file system calls it makes.

    The lock file is opened, locked with a record lock of `fcntl()` (POSIX.1-2017, System Interfaces),
    and accepted only if the locked inode is still the one at the path; an exclusive lock unlinks the
    file before closing it. Every call is one atomic step, any number of processes interleave, and a
    process may crash between any two calls. Changing the mode of a record lock that a process already
    holds is one step, as the kernel does it. */
module FileLock {
  import opened RwLock
  import opened Wrappers

  type Inode = nat

  /** Where a process stands inside `lock` or `unlock`. */
  datatype Phase =
    | Idle       // no lock file open
    | Opening    // about to open the lock file
    | Locking    // file open, about to call lockf
    | Checking   // lockf granted, about to compare inodes
    | Locked     // lock() has returned True
    | Refused    // try_lock() has returned False, the file is still open
    | Closing    // about to close the file, which drops the record lock

  /** One process's lock object: `kernel` is the record lock it has on `file`. */
  datatype Handle = Handle(
    phase: Phase, file: Option<Inode>, kernel: Option<Mode>,
    want: Mode, blocking: bool, exclusiveLocked: bool)

  const IDLE := Handle(Idle, None, None, Shared, true, false)

  datatype State = State(path: Option<Inode>, handles: map<Pid, Handle>)

  /** How one lock path is used: whether lock(exclusive=False) is ever called without holding the
      lock, and whether it is ever called to relax an exclusive lock. */
  datatype Policy = Policy(freshShared: bool, relaxes: bool)

  datatype Step =
    | Start(pid: Pid, want: Mode, blocking: bool)
    | Open(pid: Pid, created: Inode)
    | Lockf(pid: Pid)
    | Refuse(pid: Pid)
    | Check(pid: Pid)
    | Relock(pid: Pid)
    | Unlink(pid: Pid)
    | Close(pid: Pid)
    | Crash(pid: Pid)

  predicate Init(s: State) {
    forall p | p in s.handles :: s.handles[p] == IDLE
  }

  /** The kernel grants `mode` on `inode` to `pid`: no other process has a conflicting record lock. */
  predicate Grantable(s: State, pid: Pid, inode: Inode, mode: Mode) {
    forall q | q in s.handles && q != pid && s.handles[q].file == Some(inode) && s.handles[q].kernel.Some? ::
      Compatible(mode, s.handles[q].kernel.value)
  }

  /** No directory entry and no open file refers to the inode, so the kernel may hand it out. */
  predicate Unused(s: State, inode: Inode) {
    s.path != Some(inode) && forall q | q in s.handles :: s.handles[q].file != Some(inode)
  }

  predicate Enabled(policy: Policy, s: State, e: Step) {
    e.pid in s.handles &&
    var h := s.handles[e.pid];
    match e
    case Start(_, want, _) => h.phase == Idle && (want == Exclusive || policy.freshShared)
    case Open(_, created) => h.phase == Opening && (s.path.None? ==> Unused(s, created))
    case Lockf(p) => h.phase == Locking && h.file.Some? && Grantable(s, p, h.file.value, h.want)
    case Refuse(p) => h.phase == Locking && h.file.Some? && !h.blocking && !Grantable(s, p, h.file.value, h.want)
    case Check(_) => h.phase == Checking
    case Relock(_) => h.phase == Locked && h.kernel == Some(Exclusive) && policy.relaxes
    case Unlink(_) => h.phase == Locked && h.exclusiveLocked
    case Close(_) => h.phase == Closing || h.phase == Refused || (h.phase == Locked && !h.exclusiveLocked)
    case Crash(_) => true
  }

  function Put(s: State, pid: Pid, h: Handle): State {
    s.(handles := s.handles[pid := h])
  }

  function Apply(s: State, e: Step): State
    requires e.pid in s.handles
  {
    var h := s.handles[e.pid];
    match e
    case Start(p, want, blocking) =>
      Put(s, p, h.(phase := Opening, want := want, blocking := blocking))
    case Open(p, created) =>
      var inode := if s.path.Some? then s.path.value else created;
      Put(s, p, h.(phase := Locking, file := Some(inode))).(path := Some(inode))
    case Lockf(p) =>
      Put(s, p, h.(phase := Checking, kernel := Some(h.want)))
    case Refuse(p) =>
      Put(s, p, h.(phase := Refused))
    case Check(p) =>
      if h.file == s.path then
        Put(s, p, h.(phase := Locked, exclusiveLocked := h.exclusiveLocked || h.want == Exclusive))
      else
        // the file was unlinked in the meantime: close it and try again
        Put(s, p, h.(phase := Opening, file := None, kernel := None))
    case Relock(p) =>
      Put(s, p, h.(phase := Locking, want := Shared, blocking := true))
    case Unlink(p) =>
      Put(s, p, h.(phase := Closing, exclusiveLocked := false)).(path := None)
    case Close(p) =>
      Put(s, p, IDLE)
    case Crash(p) =>
      Put(s, p, IDLE)
  }

  predicate Runs(policy: Policy, s: State, steps: seq<Step>)
    decreases |steps|
  {
    steps == [] || (Enabled(policy, s, steps[0]) && Runs(policy, Apply(s, steps[0]), steps[1..]))
  }

  function Exec(policy: Policy, s: State, steps: seq<Step>): State
    requires Runs(policy, s, steps)
    decreases |steps|
  {
    if steps == [] then s else Exec(policy, Apply(s, steps[0]), steps[1..])
  }

  // ---- What the callers of FileLock see ----

  /** The process is past its inode check and not yet past its own unlink. */
  predicate Owns(h: Handle) {
    h.kernel.Some? && (h.phase == Locked || (h.exclusiveLocked && h.phase in {Locking, Checking}))
  }

  /** The lock as its users see it. */
  function View(s: State): Lock {
    map p | p in s.handles && Owns(s.handles[p]) :: s.handles[p].kernel.value
  }

  predicate PhaseInv(h: Handle) {
    && (h.phase in {Idle, Opening} ==> h.file.None? && h.kernel.None? && !h.exclusiveLocked)
    && (h.phase in {Locking, Checking, Locked, Refused, Closing} ==> h.file.Some?)
    && (h.phase == Refused ==> h.kernel.None? && !h.exclusiveLocked)
    && (h.phase == Locking && !h.exclusiveLocked ==> h.kernel.None?)
    && (h.phase == Locking && h.exclusiveLocked ==> h.kernel == Some(Exclusive) && h.want == Shared && h.blocking)
    && (h.phase == Checking ==> h.kernel == Some(h.want))
    && (h.phase == Checking && h.exclusiveLocked ==> h.want == Shared)
    && (h.phase in {Locked, Closing} ==> h.kernel.Some?)
    && (h.phase == Locked && h.kernel == Some(Exclusive) ==> h.exclusiveLocked)
    && (h.phase == Closing ==> !h.exclusiveLocked)
  }

  predicate PolicyInv(policy: Policy, h: Handle) {
    && (!policy.freshShared && h.kernel == Some(Shared) ==> h.exclusiveLocked || h.phase == Closing)
    && (!policy.freshShared && h.phase in {Opening, Locking} && !h.exclusiveLocked ==> h.want == Exclusive)
    && (!policy.relaxes && h.exclusiveLocked ==> h.phase == Locked && h.kernel == Some(Exclusive))
  }

  predicate SameInode(h: Handle, k: Handle) {
    h.file == k.file && h.file.Some? && h.kernel.Some? && k.kernel.Some?
  }

  predicate Inv(policy: Policy, s: State) {
    && (forall p | p in s.handles :: PhaseInv(s.handles[p]) && PolicyInv(policy, s.handles[p]))
    // an accepted lock is on the inode at the path
    && (forall p | p in s.handles && Owns(s.handles[p]) :: s.handles[p].file == s.path)
    // record locks on one inode are compatible, and a lock that will unlink the file is alone on it
    && (forall p, q | p in s.handles && q in s.handles && p != q && SameInode(s.handles[p], s.handles[q]) ::
          Compatible(s.handles[p].kernel.value, s.handles[q].kernel.value) && !s.handles[p].exclusiveLocked)
  }

  /** What one call does to the lock as its users see it. */
  function Effect(s: State, e: Step): Event
    requires e.pid in s.handles
  {
    var h := s.handles[e.pid];
    match e
    case Check(p) => if h.file == s.path && !Owns(h) && h.kernel.Some? then Acquire(p, h.kernel.value) else Stutter
    case Lockf(p) => if Owns(h) then Downgrade(p) else Stutter
    case Unlink(p) => Release(p)
    case Close(p) => if Owns(h) then Release(p) else Stutter
    case Crash(p) => if Owns(h) then Release(p) else Stutter
    case _ => Stutter
  }

  predicate Sound(policy: Policy) {
    !(policy.freshShared && policy.relaxes)
  }

  lemma InitInv(policy: Policy, s: State)
    requires Init(s)
    ensures Inv(policy, s)
  {
  }

  /** The two record locks can be held at once, and closing either does not unlink the file. */
  predicate Coexist(h: Handle, k: Handle) {
    SameInode(h, k) ==>
      Compatible(h.kernel.value, k.kernel.value) && !h.exclusiveLocked && !k.exclusiveLocked
  }

  predicate HandleInv(policy: Policy, path: Option<Inode>, h: Handle) {
    PhaseInv(h) && PolicyInv(policy, h) && (Owns(h) ==> h.file == path)
  }

  /** Replacing one handle, and the path under the eyes of no other owner, keeps the invariant. */
  lemma PutKeepsInv(policy: Policy, s: State, pid: Pid, h: Handle, path: Option<Inode>)
    requires Inv(policy, s) && pid in s.handles
    requires HandleInv(policy, path, h)
    requires path == s.path || forall q | q in s.handles && q != pid :: !Owns(s.handles[q])
    requires forall q | q in s.handles && q != pid :: Coexist(h, s.handles[q])
    ensures Inv(policy, State(path, s.handles[pid := h]))
  {
    var t := State(path, s.handles[pid := h]);
    forall p, q | p in t.handles && q in t.handles && p != q && SameInode(t.handles[p], t.handles[q])
      ensures Compatible(t.handles[p].kernel.value, t.handles[q].kernel.value) && !t.handles[p].exclusiveLocked
    {
      if q == pid {
        assert Coexist(h, s.handles[p]);
      } else if p == pid {
        assert Coexist(h, s.handles[q]);
      }
    }
  }

  /** A lock that will unlink the file when it is let go is the only one on the path's inode. */
  lemma FlaggedOwnerIsAlone(policy: Policy, s: State, p: Pid, q: Pid)
    requires Inv(policy, s) && p in s.handles && q in s.handles && p != q
    requires Owns(s.handles[p]) && s.handles[p].exclusiveLocked
    ensures !Owns(s.handles[q])
  {
    if Owns(s.handles[q]) {
      assert SameInode(s.handles[p], s.handles[q]);
    }
  }

  lemma CoexistFromInv(policy: Policy, s: State, p: Pid, q: Pid)
    requires Inv(policy, s) && p in s.handles && q in s.handles && p != q
    ensures Coexist(s.handles[p], s.handles[q])
  {
    if SameInode(s.handles[p], s.handles[q]) {
      assert SameInode(s.handles[q], s.handles[p]);
    }
  }

  lemma LockfKeepsInv(policy: Policy, s: State, p: Pid)
    requires Sound(policy) && Inv(policy, s) && Enabled(policy, s, Lockf(p))
    ensures Inv(policy, Apply(s, Lockf(p)))
  {
    var h := s.handles[p];
    var h' := h.(phase := Checking, kernel := Some(h.want));
    forall q | q in s.handles && q != p ensures Coexist(h', s.handles[q]) {
      CoexistFromInv(policy, s, p, q);
      assert PhaseInv(s.handles[q]) && PolicyInv(policy, s.handles[q]);
    }
    PutKeepsInv(policy, s, p, h', s.path);
  }

  lemma CheckKeepsInv(policy: Policy, s: State, p: Pid)
    requires Sound(policy) && Inv(policy, s) && Enabled(policy, s, Check(p))
    ensures Inv(policy, Apply(s, Check(p)))
  {
    var h := s.handles[p];
    var h' := Apply(s, Check(p)).handles[p];
    forall q | q in s.handles && q != p ensures Coexist(h', s.handles[q]) {
      CoexistFromInv(policy, s, p, q);
    }
    PutKeepsInv(policy, s, p, h', s.path);
  }

  lemma UnlinkKeepsInv(policy: Policy, s: State, p: Pid)
    requires Sound(policy) && Inv(policy, s) && Enabled(policy, s, Unlink(p))
    ensures Inv(policy, Apply(s, Unlink(p)))
  {
    var h' := s.handles[p].(phase := Closing, exclusiveLocked := false);
    forall q | q in s.handles && q != p ensures Coexist(h', s.handles[q]) && !Owns(s.handles[q]) {
      CoexistFromInv(policy, s, p, q);
      FlaggedOwnerIsAlone(policy, s, p, q);
    }
    PutKeepsInv(policy, s, p, h', None);
  }

  lemma OpenKeepsInv(policy: Policy, s: State, p: Pid, created: Inode)
    requires Sound(policy) && Inv(policy, s) && Enabled(policy, s, Open(p, created))
    ensures Inv(policy, Apply(s, Open(p, created)))
  {
    var t := Apply(s, Open(p, created));
    forall q | q in s.handles && q != p && s.path.None? ensures !Owns(s.handles[q]) {
      assert PhaseInv(s.handles[q]);
    }
    PutKeepsInv(policy, s, p, t.handles[p], t.path);
  }

  lemma RelockKeepsInv(policy: Policy, s: State, p: Pid)
    requires Sound(policy) && Inv(policy, s) && Enabled(policy, s, Relock(p))
    ensures Inv(policy, Apply(s, Relock(p)))
  {
    var h' := Apply(s, Relock(p)).handles[p];
    forall q | q in s.handles && q != p ensures Coexist(h', s.handles[q]) {
      CoexistFromInv(policy, s, p, q);
    }
    PutKeepsInv(policy, s, p, h', s.path);
  }

  lemma StepKeepsInv(policy: Policy, s: State, e: Step)
    requires Sound(policy) && Inv(policy, s) && Enabled(policy, s, e)
    ensures Inv(policy, Apply(s, e))
  {
    match e
    case Start(p, _, _) => PutKeepsInv(policy, s, p, Apply(s, e).handles[p], s.path);
    case Open(p, created) => OpenKeepsInv(policy, s, p, created);
    case Lockf(p) => LockfKeepsInv(policy, s, p);
    case Refuse(p) => PutKeepsInv(policy, s, p, Apply(s, e).handles[p], s.path);
    case Check(p) => CheckKeepsInv(policy, s, p);
    case Relock(p) => RelockKeepsInv(policy, s, p);
    case Unlink(p) => UnlinkKeepsInv(policy, s, p);
    case Close(p) => PutKeepsInv(policy, s, p, IDLE, s.path);
    case Crash(p) => PutKeepsInv(policy, s, p, IDLE, s.path);
  }

  /** What replacing one handle does to the view. */
  lemma ViewOfPut(s: State, pid: Pid, h: Handle, path: Option<Inode>)
    requires pid in s.handles
    ensures View(State(path, s.handles[pid := h]))
         == if Owns(h) then View(s)[pid := h.kernel.value] else View(s) - {pid}
  {
  }

  lemma ApplyPuts(s: State, e: Step)
    requires e.pid in s.handles
    ensures e.pid in Apply(s, e).handles
    ensures Apply(s, e) == State(Apply(s, e).path, s.handles[e.pid := Apply(s, e).handles[e.pid]])
  {
  }

  lemma OwnersAreCompatible(policy: Policy, s: State, p: Pid, q: Pid)
    requires Inv(policy, s) && p in s.handles && q in s.handles && p != q
    requires Owns(s.handles[p]) && Owns(s.handles[q])
    ensures Compatible(s.handles[p].kernel.value, s.handles[q].kernel.value)
  {
    assert SameInode(s.handles[p], s.handles[q]);
  }

  /** The check of the inode makes its process an owner only next to compatible ones. */
  lemma CheckAdmits(policy: Policy, s: State, e: Step)
    requires Sound(policy) && Inv(policy, s) && Enabled(policy, s, e) && Inv(policy, Apply(s, e))
    requires e.Check? && s.handles[e.pid].file == s.path && !Owns(s.handles[e.pid])
    ensures s.handles[e.pid].kernel.Some? && Owns(Apply(s, e).handles[e.pid])
    ensures Admits(View(s), e.pid, s.handles[e.pid].kernel.value)
  {
    var t := Apply(s, e);
    assert PhaseInv(s.handles[e.pid]);
    forall q | q in View(s) ensures Compatible(s.handles[e.pid].kernel.value, View(s)[q]) {
      OwnersAreCompatible(policy, t, e.pid, q);
    }
  }

  /** Every call is one move of the lock that its users see, or no move at all. */
  lemma StepRefines(policy: Policy, s: State, e: Step)
    requires Sound(policy) && Inv(policy, s) && Enabled(policy, s, e)
    ensures Next(View(s), View(Apply(s, e)), Effect(s, e))
  {
    StepKeepsInv(policy, s, e);
    var t := Apply(s, e);
    var p := e.pid;
    var h := s.handles[p];
    assert PhaseInv(h);
    ApplyPuts(s, e);
    ViewOfPut(s, p, t.handles[p], t.path);
    assert p in View(s) <==> Owns(h);
    if e.Check? && h.file == s.path && !Owns(h) {
      CheckAdmits(policy, s, e);
    } else {
      NotChecked(policy, s, e);
    }
  }

  lemma NotChecked(policy: Policy, s: State, e: Step)
    requires Inv(policy, s) && Enabled(policy, s, e)
    requires !(e.Check? && s.handles[e.pid].file == s.path && !Owns(s.handles[e.pid]))
    ensures
      var h, h' := s.handles[e.pid], Apply(s, e).handles[e.pid];
      if Effect(s, e) == Stutter then Owns(h') == Owns(h) && (Owns(h) ==> h'.kernel == h.kernel)
      else if Effect(s, e) == Release(e.pid) then Owns(h) && !Owns(h')
      else
        && Effect(s, e) == Downgrade(e.pid) && Owns(h) && Owns(h')
        && h.kernel == Some(Exclusive) && h'.kernel == Some(Shared)
  {
    assert PhaseInv(s.handles[e.pid]);
  }

  // ---- Whole runs ----

  lemma {:induction false} RunKeepsInv(policy: Policy, s: State, steps: seq<Step>)
    requires Sound(policy) && Inv(policy, s) && Runs(policy, s, steps)
    ensures Inv(policy, Exec(policy, s, steps))
    decreases |steps|
  {
    if steps != [] {
      StepKeepsInv(policy, s, steps[0]);
      RunKeepsInv(policy, Apply(s, steps[0]), steps[1..]);
    }
  }

  /** In every interleaving, crashes included, two processes that both hold the lock are two readers. */
  lemma MutualExclusion(policy: Policy, s: State, steps: seq<Step>)
    requires Sound(policy) && Init(s) && Runs(policy, s, steps)
    ensures Excludes(View(Exec(policy, s, steps)))
  {
    InitInv(policy, s);
    RunKeepsInv(policy, s, steps);
    var t := Exec(policy, s, steps);
    forall p, q | p in View(t) && q in View(t) && p != q ensures Compatible(View(t)[p], View(t)[q]) {
      OwnersAreCompatible(policy, t, p, q);
    }
  }

  /** In every run, the file a process unlinks is its own lock file and nobody else's lock. */
  lemma UnlinksOnlyItsOwnFile(policy: Policy, s: State, steps: seq<Step>, p: Pid)
    requires Sound(policy) && Init(s) && Runs(policy, s, steps)
    requires Enabled(policy, Exec(policy, s, steps), Unlink(p))
    ensures var t := Exec(policy, s, steps);
      t.path == t.handles[p].file && t.path.Some? && View(t).Keys == {p}
  {
    InitInv(policy, s);
    RunKeepsInv(policy, s, steps);
    var t := Exec(policy, s, steps);
    assert PhaseInv(t.handles[p]) && Owns(t.handles[p]);
    forall q | q in t.handles && q != p ensures q !in View(t) {
      FlaggedOwnerIsAlone(policy, t, p, q);
    }
  }

  lemma {:induction false} RunsConcat(policy: Policy, s: State, a: seq<Step>, b: seq<Step>)
    requires Runs(policy, s, a) && Runs(policy, Exec(policy, s, a), b)
    ensures Runs(policy, s, a + b) && Exec(policy, s, a + b) == Exec(policy, Exec(policy, s, a), b)
    decreases |a|
  {
    if a == [] {
      assert a + b == b;
    } else {
      assert (a + b)[0] == a[0] && (a + b)[1..] == a[1..] + b;
      RunsConcat(policy, Apply(s, a[0]), a[1..], b);
    }
  }

  /** The calls of an uncontended lock() or try_lock() from scratch. */
  function Take(p: Pid, want: Mode, blocking: bool, inode: Inode): seq<Step> {
    [Start(p, want, blocking), Open(p, inode), Lockf(p), Check(p)]
  }

  lemma TakeRuns(policy: Policy, s: State, p: Pid, want: Mode, blocking: bool, inode: Inode)
    requires p in s.handles && s.handles[p] == IDLE
    requires want == Exclusive || policy.freshShared
    requires if s.path.Some? then s.path.value == inode else Unused(s, inode)
    requires Grantable(s, p, inode, want)
    ensures Runs(policy, s, Take(p, want, blocking, inode))
    ensures Exec(policy, s, Take(p, want, blocking, inode))
         == Put(s, p, Handle(Locked, Some(inode), Some(want), want, blocking, want == Exclusive)).(path := Some(inode))
  {
    var steps := Take(p, want, blocking, inode);
    var s1 := Apply(s, steps[0]);
    var s2 := Apply(s1, steps[1]);
    var s3 := Apply(s2, steps[2]);
    var s4 := Apply(s3, steps[3]);
    assert Runs(policy, s4, steps[4..]) && Exec(policy, s4, steps[4..]) == s4;
    assert steps[3..][1..] == steps[4..];
    assert Enabled(policy, s3, steps[3..][0]);
    assert Runs(policy, s3, steps[3..]) && Exec(policy, s3, steps[3..]) == s4;
    assert steps[2..][1..] == steps[3..];
    assert Grantable(s2, p, inode, want);
    assert Runs(policy, s2, steps[2..]) && Exec(policy, s2, steps[2..]) == s4;
    assert steps[1..][1..] == steps[2..];
    assert Enabled(policy, s1, steps[1..][0]);
    assert Runs(policy, s1, steps[1..]) && Exec(policy, s1, steps[1..]) == s4;
    assert s4.handles == s.handles[p := s4.handles[p]];
  }

  /** The calls of lock(exclusive=False) on a lock that is held. */
  function RelaxSteps(p: Pid): seq<Step> {
    [Relock(p), Lockf(p), Check(p)]
  }

  lemma RelaxRuns(policy: Policy, s: State, p: Pid, inode: Inode)
    requires policy.relaxes && s.path == Some(inode)
    requires p in s.handles && s.handles[p].phase == Locked && s.handles[p].file == Some(inode)
    requires s.handles[p].kernel == Some(Exclusive) && s.handles[p].exclusiveLocked
    requires Grantable(s, p, inode, Shared)
    ensures Runs(policy, s, RelaxSteps(p))
    ensures Exec(policy, s, RelaxSteps(p)) == Put(s, p, Handle(Locked, Some(inode), Some(Shared), Shared, true, true))
  {
    var steps := RelaxSteps(p);
    var s1 := Apply(s, steps[0]);
    var s2 := Apply(s1, steps[1]);
    var s3 := Apply(s2, steps[2]);
    assert Runs(policy, s3, steps[3..]) && Exec(policy, s3, steps[3..]) == s3;
    assert steps[2..][1..] == steps[3..];
    assert Enabled(policy, s2, steps[2..][0]);
    assert Runs(policy, s2, steps[2..]) && Exec(policy, s2, steps[2..]) == s3;
    assert steps[1..][1..] == steps[2..];
    assert Grantable(s1, p, inode, Shared);
    assert Runs(policy, s1, steps[1..]) && Exec(policy, s1, steps[1..]) == s3;
    assert s3.handles == s.handles[p := s3.handles[p]];
  }

  /** The calls of unlock() on a lock that was once exclusive. */
  function LetGo(p: Pid): seq<Step> {
    [Unlink(p), Close(p)]
  }

  lemma LetGoRuns(policy: Policy, s: State, p: Pid)
    requires p in s.handles && s.handles[p].phase == Locked && s.handles[p].exclusiveLocked
    ensures Runs(policy, s, LetGo(p))
    ensures Exec(policy, s, LetGo(p)) == Put(s, p, IDLE).(path := None)
  {
    var steps := LetGo(p);
    var s1 := Apply(s, steps[0]);
    var s2 := Apply(s1, steps[1]);
    assert Runs(policy, s2, steps[2..]) && Exec(policy, s2, steps[2..]) == s2;
    assert steps[1..][1..] == steps[2..];
    assert Enabled(policy, s1, steps[1..][0]);
    assert Runs(policy, s1, steps[1..]) && Exec(policy, s1, steps[1..]) == s2;
    assert s2.handles == s.handles[p := IDLE];
  }

  ghost predicate Leads(policy: Policy, s: State, steps: seq<Step>, s': State) {
    Runs(policy, s, steps) && Exec(policy, s, steps) == s'
  }

  lemma LeadsOn(policy: Policy, s: State, first: seq<Step>, s1: State, more: seq<Step>, s2: State)
    requires Leads(policy, s, first, s1) && Leads(policy, s1, more, s2)
    ensures Leads(policy, s, first + more, s2)
  {
    RunsConcat(policy, s, first, more);
  }

  /** `p` takes the lock and relaxes it, and `q` joins. */
  lemma JoinRelaxed(s: State, p: Pid, q: Pid) returns (steps: seq<Step>, s': State)
    requires Init(s) && s.path == None && p in s.handles && q in s.handles && p != q
    ensures Leads(Policy(true, true), s, steps, s')
    ensures s' == Put(Put(s, p, Handle(Locked, Some(0), Some(Shared), Shared, true, true)).(path := Some(0)), q,
                      Handle(Locked, Some(0), Some(Shared), Shared, true, false))
  {
    var policy := Policy(true, true);
    TakeRuns(policy, s, p, Exclusive, true, 0);
    var s1 := Exec(policy, s, Take(p, Exclusive, true, 0));
    RelaxRuns(policy, s1, p, 0);
    var s2 := Exec(policy, s1, RelaxSteps(p));
    TakeRuns(policy, s2, q, Shared, true, 0);
    s' := Exec(policy, s2, Take(q, Shared, true, 0));
    LeadsOn(policy, s, Take(p, Exclusive, true, 0), s1, RelaxSteps(p), s2);
    LeadsOn(policy, s, Take(p, Exclusive, true, 0) + RelaxSteps(p), s2, Take(q, Shared, true, 0), s');
    steps := Take(p, Exclusive, true, 0) + RelaxSteps(p) + Take(q, Shared, true, 0);
  }

  /** A path that is both relaxed and locked shared afresh is not safe: `p` relaxes its lock, `q` joins
      it, `p` unlinks the file under `q` and takes the next lock file exclusively. */
  lemma MixedUseBreaksExclusion(s: State, p: Pid, q: Pid) returns (steps: seq<Step>)
    requires Init(s) && s.path == None && p in s.handles && q in s.handles && p != q
    ensures Runs(Policy(true, true), s, steps)
    ensures var lock := View(Exec(Policy(true, true), s, steps));
      p in lock && q in lock && lock[p] == Exclusive && lock[q] == Shared
  {
    var policy := Policy(true, true);
    var joined, s3 := JoinRelaxed(s, p, q);
    LetGoRuns(policy, s3, p);
    var s4 := Exec(policy, s3, LetGo(p));
    TakeRuns(policy, s4, p, Exclusive, true, 1);
    var s5 := Exec(policy, s4, Take(p, Exclusive, true, 1));
    LeadsOn(policy, s, joined, s3, LetGo(p), s4);
    LeadsOn(policy, s, joined + LetGo(p), s4, Take(p, Exclusive, true, 1), s5);
    steps := joined + LetGo(p) + Take(p, Exclusive, true, 1);
    assert Exec(policy, s, steps) == s5;
  }

  ghost predicate AlwaysExcludes(policy: Policy, pids: set<Pid>) {
    forall s: State, steps: seq<Step> | Init(s) && s.handles.Keys == pids && Runs(policy, s, steps) ::
      Excludes(View(Exec(policy, s, steps)))
  }

  /** `FileLock` is a lock exactly for the paths that are not both relaxed and locked shared afresh. */
  lemma ExcludesExactlyWhenSound(policy: Policy, pids: set<Pid>, p: Pid, q: Pid)
    requires p in pids && q in pids && p != q
    ensures AlwaysExcludes(policy, pids) <==> Sound(policy)
  {
    if Sound(policy) {
      forall s: State, steps: seq<Step> | Init(s) && s.handles.Keys == pids && Runs(policy, s, steps)
        ensures Excludes(View(Exec(policy, s, steps)))
      {
        MutualExclusion(policy, s, steps);
      }
    } else {
      var s := State(None, map r | r in pids :: IDLE);
      var steps := MixedUseBreaksExclusion(s, p, q);
      assert policy == Policy(true, true);
      assert !Excludes(View(Exec(policy, s, steps)));
    }
  }
}
