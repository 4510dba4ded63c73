/** The converse of `SystemCalls`: every run of the cache comes about by system calls on lock files.

    Between two actions a process is settled: it has the lock files of exactly the locks that it needs where it
    stands. It takes the one that the next action needs by lock() or try_lock(), acts, and then unlocks or
    relaxes what it does not need any more. */
module SystemRuns {
  import opened RwLock
  import opened Wrappers
  import opened FileCache
  import opened FileCacheInvariant
  import opened FileCacheRuns
  import opened SystemCalls
  import FileCacheServing
  import FileLock

  // ---- Settled lock files ----

  /** The handle of a process that holds the lock as stated, and is not in the middle of a call */
  predicate Settles(h: FileLock.Handle, path: Option<FileLock.Inode>, n: Name, held: Option<RwLock.Mode>) {
    if held.None? then h == FileLock.IDLE
    else
      && h.phase == FileLock.Locked && h.file == path && path.Some? && h.kernel == held
      && (h.exclusiveLocked <==> n.ItemLock? || held == Some(Exclusive))
  }

  /** The lock file suits processes that stand at `procs`. */
  predicate SettledFor(lock: FileLock.State, n: Name, procs: map<Pid, Pc>) {
    && lock.handles.Keys == procs.Keys
    && forall q | q in procs :: Settles(lock.handles[q], lock.path, n, Holds(procs[q], n))
  }

  ghost predicate Settled(m: Machine, n: Name, procs: map<Pid, Pc>) {
    n in m.locks && SettledFor(m.locks[n], n, procs)
  }

  /** Nobody has more lock files, or other ones, than what it needs where it stands. */
  ghost predicate AllSettled(m: Machine) {
    forall n: Name :: Settled(m, n, m.cache.procs)
  }

  /** Some run over system calls has come to `m`, in step with the first `x` moves of the run of the cache. */
  ghost predicate Realises(c: Config, states: seq<State>, x: nat, m: Machine, ms: seq<Machine>, es: seq<SystemEvent>,
                           at: seq<nat>) {
    MachineRun(c, ms, es) && Projects(ms, states, at) && at[|es|] == x && ms[|es|] == m
  }

  ghost predicate Realised(c: Config, states: seq<State>, x: nat, m: Machine) {
    exists ms, es, at :: Realises(c, states, x, m, ms, es, at)
  }

  lemma GoesTo(c: Config, states: seq<State>, x: nat, m: Machine, m': Machine, e: SystemEvent, y: nat)
    requires Realised(c, states, x, m) && Happens(c, m, m', e)
    requires x <= y <= x + 1 && y < |states| && states[y] == m'.cache
    ensures Realised(c, states, y, m')
  {
    var ms, es, at :| Realises(c, states, x, m, ms, es, at);
    MachineAppend(c, ms, es, m', e);
    assert (ms + [m'])[..|es| + 1] == ms;
    ProjectsOneMore(ms + [m'], |es|, states, at, states, y);
    assert Realises(c, states, y, m', ms + [m'], es + [e], at + [y]);
  }

  lemma RealisedInv(c: Config, states: seq<State>, x: nat, m: Machine)
    requires Realised(c, states, x, m) && c.atomicRelax
    ensures MachineInv(m) && x < |states| && states[x] == m.cache
  {
    var ms, es, at :| Realises(c, states, x, m, ms, es, at);
    RunHasInv(c, ms, es, |es|);
  }

  // ---- Calls ----

  /** The call lets go of nothing. */
  predicate Keeps(e: FileLock.Step) {
    !e.Unlink? && !e.Close? && !e.Crash?
  }

  predicate Suits(pc: Pc, n: Name, p: Pid, e: FileLock.Step) {
    && e.pid == p && InProgram(pc, n, e)
    && (Holds(pc, n) == None || (Holds(pc, n) == Some(Shared) && Keeps(e)))
  }

  lemma {:induction false} CallsRun(c: Config, states: seq<State>, x: nat, m: Machine, n: Name, p: Pid,
                                    steps: seq<FileLock.Step>)
    requires Realised(c, states, x, m) && x < |states| && states[x] == m.cache && n in m.locks && p in m.cache.procs
    requires forall e | e in steps :: Suits(m.cache.procs[p], n, p, e)
    requires FileLock.Runs(ANY_USE, m.locks[n], steps)
    ensures
      Realised(c, states, x, Machine(m.cache, m.locks[n := FileLock.Exec(ANY_USE, m.locks[n], steps)]))
    decreases |steps|
  {
    if steps == [] {
      assert m.locks[n := m.locks[n]] == m.locks;
    } else {
      var e := steps[0];
      assert Suits(m.cache.procs[p], n, p, e);
      var m' := Machine(m.cache, m.locks[n := FileLock.Apply(m.locks[n], e)]);
      assert Calls(m, m', n, e);
      GoesTo(c, states, x, m, m', Call(n, e), x);
      CallsRun(c, states, x, m', n, p, steps[1..]);
      var last := FileLock.Exec(ANY_USE, m.locks[n], steps);
      assert m'.locks[n := last] == m.locks[n := last];
    }
  }

  /** Calls about one lock lead from `m` to `m'`. */
  ghost predicate Changes(m: Machine, m': Machine, n: Name) {
    && m'.cache == m.cache && m'.locks.Keys == m.locks.Keys
    && forall k | k in m.locks && k != n :: m'.locks[k] == m.locks[k]
  }

  lemma CallsLead(c: Config, states: seq<State>, x: nat, m: Machine, n: Name, p: Pid, steps: seq<FileLock.Step>,
                  lock: FileLock.State) returns (m': Machine)
    requires Realised(c, states, x, m) && x < |states| && states[x] == m.cache && n in m.locks && p in m.cache.procs
    requires forall e | e in steps :: Suits(m.cache.procs[p], n, p, e)
    requires FileLock.Leads(ANY_USE, m.locks[n], steps, lock)
    ensures Realised(c, states, x, m') && Changes(m, m', n) && n in m'.locks && m'.locks[n] == lock
  {
    CallsRun(c, states, x, m, n, p, steps);
    m' := Machine(m.cache, m.locks[n := lock]);
  }

  // ---- Taking a lock ----

  /** Where the cache sees the lock as free, a settled lock file can be locked. */
  lemma FreeIsGrantable(lock: FileLock.State, n: Name, s: State, p: Pid, mode: RwLock.Mode)
    returns (inode: FileLock.Inode)
    requires SettledFor(lock, n, s.procs) && p in s.procs && Holds(s.procs[p], n) == None && Free(s, p, n, mode)
    ensures lock.handles[p] == FileLock.IDLE && FileLock.Grantable(lock, p, inode, mode)
    ensures if lock.path.Some? then lock.path.value == inode else FileLock.Unused(lock, inode)
  {
    inode := if lock.path.Some? then lock.path.value else 0;
    forall q | q in lock.handles ensures Settles(lock.handles[q], lock.path, n, Holds(s.procs[q], n)) {
    }
  }

  lemma TakenIsSettled(lock: FileLock.State, n: Name, procs: map<Pid, Pc>, p: Pid, qc: Pc, mode: RwLock.Mode,
                       blocking: bool, inode: FileLock.Inode)
    requires SettledFor(lock, n, procs) && p in procs && Holds(qc, n) == Some(mode)
    requires lock.path.None? || lock.path == Some(inode)
    requires mode == Exclusive || n == IndexLock
    ensures
      var h := FileLock.Handle(FileLock.Locked, Some(inode), Some(mode), mode, blocking, mode == Exclusive);
      SettledFor(FileLock.Put(lock, p, h).(path := Some(inode)), n, procs[p := qc])
  {
    forall q | q in procs && q != p ensures Settles(lock.handles[q], Some(inode), n, Holds(procs[q], n)) {
      assert Settles(lock.handles[q], lock.path, n, Holds(procs[q], n));
    }
  }

  lemma WantedIsWanted(c: Config, s: State, pc: Pc, a: Action, n: Name, mode: RwLock.Mode)
    requires PcInv(c, s, pc) && Fits(pc, a) && Allowed(c, s, pc, a) && Wanted(pc, a) == Some((n, mode))
    requires !pc.AwaitShared?
    ensures Wants(pc, n, mode) && Holds(pc, n) == None && (mode == Exclusive || n == IndexLock)
    ensures Holds(PcAfter(c, s, pc, a), n) == Some(mode)
  {
  }

  lemma TakeSuits(pc: Pc, n: Name, p: Pid, mode: RwLock.Mode, inode: FileLock.Inode)
    requires Wants(pc, n, mode) && Holds(pc, n) == None
    ensures forall e | e in FileLock.Take(p, mode, !pc.Visit?, inode) :: Suits(pc, n, p, e)
  {
  }

  /** A process locks what it wants, and is settled for where that takes it. */
  lemma TakesFree(c: Config, states: seq<State>, x: nat, m: Machine, p: Pid, n: Name, mode: RwLock.Mode, qc: Pc)
    returns (m': Machine)
    requires Realised(c, states, x, m) && x < |states| && states[x] == m.cache && p in m.cache.procs
    requires Settled(m, n, m.cache.procs) && Free(m.cache, p, n, mode) && (mode == Exclusive || n == IndexLock)
    requires Wants(m.cache.procs[p], n, mode) && Holds(m.cache.procs[p], n) == None && Holds(qc, n) == Some(mode)
    ensures Realised(c, states, x, m') && Changes(m, m', n)
    ensures Settled(m', n, m.cache.procs[p := qc])
  {
    var lock, blocking := m.locks[n], !m.cache.procs[p].Visit?;
    var inode := FreeIsGrantable(lock, n, m.cache, p, mode);
    FileLock.TakeRuns(ANY_USE, lock, p, mode, blocking, inode);
    var h := FileLock.Handle(FileLock.Locked, Some(inode), Some(mode), mode, blocking, mode == Exclusive);
    TakeSuits(m.cache.procs[p], n, p, mode, inode);
    m' := CallsLead(c, states, x, m, n, p, FileLock.Take(p, mode, blocking, inode),
                    FileLock.Put(lock, p, h).(path := Some(inode)));
    TakenIsSettled(lock, n, m.cache.procs, p, qc, mode, blocking, inode);
  }

  /** The lock files suit the next place of `p` where it takes a lock, and else the present one. */
  ghost predicate Prepared(m: Machine, p: Pid, a: Action, qc: Pc)
    requires p in m.cache.procs && Fits(m.cache.procs[p], a)
  {
    forall n: Name :: Settled(m, n, if Takes(m.cache.procs[p], a, n) then m.cache.procs[p := qc] else m.cache.procs)
  }

  predicate Takes(pc: Pc, a: Action, n: Name)
    requires Fits(pc, a)
  {
    Wanted(pc, a).Some? && Wanted(pc, a).value.0 == n
  }

  lemma TakenIsReady(m: Machine, m': Machine, p: Pid, a: Action, qc: Pc)
    requires p in m.cache.procs && Fits(m.cache.procs[p], a) && AllSettled(m)
    requires
      match Wanted(m.cache.procs[p], a)
      case None => m' == m
      case Some((n, _)) => Changes(m, m', n) && Settled(m', n, m.cache.procs[p := qc])
    ensures Prepared(m', p, a, qc)
  {
    var pc := m.cache.procs[p];
    forall k: Name ensures Settled(m', k, if Takes(pc, a, k) then m.cache.procs[p := qc] else m.cache.procs) {
      assert Settled(m, k, m.cache.procs);
    }
  }

  /** A process locks what its next action needs. */
  lemma GetsReady(c: Config, states: seq<State>, x: nat, m: Machine, p: Pid, a: Action) returns (m': Machine)
    requires Realised(c, states, x, m) && c.atomicRelax && Inv(c, m.cache) && p in m.cache.procs
    requires Enabled(c, m.cache, p, m.cache.procs[p], a)
    requires AllSettled(m)
    ensures Realised(c, states, x, m') && m'.cache == m.cache
    ensures Prepared(m', p, a, PcAfter(c, m.cache, m.cache.procs[p], a))
  {
    var pc := m.cache.procs[p];
    var qc := PcAfter(c, m.cache, pc, a);
    RealisedInv(c, states, x, m);
    assert ProcInv(m, p) && PcInv(c, m.cache, pc);
    m' := m;
    if Wanted(pc, a).Some? {
      var (n, mode) := Wanted(pc, a).value;
      WantedIsWanted(c, m.cache, pc, a, n, mode);
      m' := TakesFree(c, states, x, m, p, n, mode, qc);
    }
    TakenIsReady(m, m', p, a, qc);
  }

  // ---- Letting go ----

  /** Nobody has an item's lock file, or the index locked exclusively, next to another process. */
  lemma FlaggedIsAlone(m: Machine, n: Name, p: Pid, q: Pid)
    requires LockInv(m, n) && p in m.cache.procs && q in m.cache.procs && p != q
    requires m.locks[n].handles[p].phase == FileLock.Locked && m.locks[n].handles[p].exclusiveLocked
    ensures !FileLock.Owns(m.locks[n].handles[q])
  {
    assert FileLock.PhaseInv(m.locks[n].handles[p]);
    FileLock.FlaggedOwnerIsAlone(Usage(n), m.locks[n], p, q);
  }

  /** What the lock file is like for everybody else while `p` lets go of it or relaxes it */
  lemma OthersSettled(m: Machine, n: Name, procs: map<Pid, Pc>, p: Pid, qc: Pc, h: FileLock.Handle,
                      path: Option<FileLock.Inode>)
    requires LockInv(m, n) && Settled(m, n, procs) && m.cache.procs.Keys == procs.Keys && p in procs
    requires Settles(h, path, n, Holds(qc, n))
    requires path == m.locks[n].path ||
        (m.locks[n].handles[p].phase == FileLock.Locked && m.locks[n].handles[p].exclusiveLocked)
    ensures SettledFor(FileLock.State(path, m.locks[n].handles[p := h]), n, procs[p := qc])
  {
    var lock := m.locks[n];
    forall q | q in procs && q != p ensures Settles(lock.handles[q], path, n, Holds(procs[q], n)) {
      assert Settles(lock.handles[q], lock.path, n, Holds(procs[q], n));
      if path != lock.path {
        FlaggedIsAlone(m, n, p, q);
      }
    }
  }

  /** unlock() */
  lemma Unlocks(lock: FileLock.State, p: Pid) returns (steps: seq<FileLock.Step>, path: Option<FileLock.Inode>)
    requires p in lock.handles && lock.handles[p].phase == FileLock.Locked
    ensures forall e | e in steps :: e == FileLock.Unlink(p) || e == FileLock.Close(p)
    ensures FileLock.Leads(ANY_USE, lock, steps, FileLock.State(path, lock.handles[p := FileLock.IDLE]))
    ensures path == lock.path || lock.handles[p].exclusiveLocked
  {
    if lock.handles[p].exclusiveLocked {
      steps, path := FileLock.LetGo(p), None;
      FileLock.LetGoRuns(ANY_USE, lock, p);
    } else {
      steps, path := [FileLock.Close(p)], lock.path;
      var lock' := FileLock.Apply(lock, steps[0]);
      assert FileLock.Runs(ANY_USE, lock', steps[1..]) && FileLock.Exec(ANY_USE, lock', steps[1..]) == lock';
    }
  }

  lemma LetsGo(c: Config, states: seq<State>, x: nat, m: Machine, p: Pid, pc: Pc, n: Name) returns (m': Machine)
    requires Realised(c, states, x, m) && c.atomicRelax && p in m.cache.procs
    requires Settled(m, n, m.cache.procs[p := pc])
    requires Holds(pc, n).Some? && Holds(m.cache.procs[p], n) == None
    ensures Realised(c, states, x, m') && Changes(m, m', n)
    ensures Settled(m', n, m.cache.procs)
  {
    var procs, lock := m.cache.procs[p := pc], m.locks[n];
    RealisedInv(c, states, x, m);
    assert LockInv(m, n) && Settles(lock.handles[p], lock.path, n, Holds(procs[p], n));
    assert procs[p := m.cache.procs[p]] == m.cache.procs;
    var steps, path := Unlocks(lock, p);
    m' := CallsLead(c, states, x, m, n, p, steps, FileLock.State(path, lock.handles[p := FileLock.IDLE]));
    OthersSettled(m, n, procs, p, m.cache.procs[p], FileLock.IDLE, path);
  }

  /** Whoever has an item's lock file may relax its lock. */
  lemma RelaxingIsGranted(m: Machine, n: Name, procs: map<Pid, Pc>, p: Pid)
    requires LockInv(m, n) && Settled(m, n, procs) && m.cache.procs.Keys == procs.Keys && p in procs
    requires m.locks[n].handles[p].phase == FileLock.Locked && m.locks[n].handles[p].exclusiveLocked
    ensures m.locks[n].path.Some? && FileLock.Grantable(m.locks[n], p, m.locks[n].path.value, Shared)
  {
    var lock := m.locks[n];
    assert Settles(lock.handles[p], lock.path, n, Holds(procs[p], n));
    forall q | q in lock.handles && q != p ensures lock.handles[q] == FileLock.IDLE {
      assert Settles(lock.handles[q], lock.path, n, Holds(procs[q], n));
      FlaggedIsAlone(m, n, p, q);
    }
  }

  lemma RelaxSuits(pc: Pc, n: Name, p: Pid)
    requires n.ItemLock? && Holds(pc, n) == Some(Shared)
    ensures forall e | e in FileLock.RelaxSteps(p) :: Suits(pc, n, p, e)
  {
  }

  lemma Relaxes(c: Config, states: seq<State>, x: nat, m: Machine, p: Pid, pc: Pc, n: Name) returns (m': Machine)
    requires Realised(c, states, x, m) && c.atomicRelax && p in m.cache.procs && n.ItemLock?
    requires Settled(m, n, m.cache.procs[p := pc])
    requires Holds(pc, n) == Some(Exclusive) && Holds(m.cache.procs[p], n) == Some(Shared)
    ensures Realised(c, states, x, m') && Changes(m, m', n)
    ensures Settled(m', n, m.cache.procs)
  {
    var procs, lock := m.cache.procs[p := pc], m.locks[n];
    RealisedInv(c, states, x, m);
    assert LockInv(m, n) && Settles(lock.handles[p], lock.path, n, Holds(procs[p], n));
    assert procs[p := m.cache.procs[p]] == m.cache.procs;
    RelaxingIsGranted(m, n, procs, p);
    FileLock.RelaxRuns(ANY_USE, lock, p, lock.path.value);
    var h := FileLock.Handle(FileLock.Locked, lock.path, Some(Shared), Shared, true, true);
    RelaxSuits(m.cache.procs[p], n, p);
    m' := CallsLead(c, states, x, m, n, p, FileLock.RelaxSteps(p), FileLock.Put(lock, p, h));
    OthersSettled(m, n, procs, p, m.cache.procs[p], h, lock.path);
  }

  /** What an action leaves to be done about a lock: nothing, letting go of it, or relaxing it */
  predicate Lets(pc: Pc, qc: Pc, n: Name) {
    || Holds(qc, n) == None || Holds(qc, n) == Holds(pc, n)
    || (Holds(pc, n) == Some(Exclusive) && Holds(qc, n) == Some(Shared) && n.ItemLock?)
  }

  /** After an action, a process settles one of its locks. */
  lemma SettlesOne(c: Config, states: seq<State>, x: nat, m: Machine, p: Pid, pc: Pc, n: Name) returns (m': Machine)
    requires Realised(c, states, x, m) && c.atomicRelax && p in m.cache.procs
    requires Settled(m, n, m.cache.procs) ||
        (Settled(m, n, m.cache.procs[p := pc]) && Lets(pc, m.cache.procs[p], n))
    ensures Realised(c, states, x, m') && Changes(m, m', n)
    ensures Settled(m', n, m.cache.procs)
  {
    var before, after := Holds(pc, n), Holds(m.cache.procs[p], n);
    if Settled(m, n, m.cache.procs) || before == after {
      m' := m;
    } else if after.None? {
      m' := LetsGo(c, states, x, m, p, pc, n);
    } else {
      m' := Relaxes(c, states, x, m, p, pc, n);
    }
  }

  // ---- Acting ----

  /** What becomes of a lock in an action: it is taken as wanted, or what is left to be done is to let go of it,
      or to relax it. */
  lemma LockAfter(c: Config, s: State, pc: Pc, a: Action, n: Name)
    requires Fits(pc, a) && !pc.AwaitShared?
    ensures Takes(pc, a, n) || Lets(pc, PcAfter(c, s, pc, a), n)
  {
    if Acquires(a) {
      LockAfterAcquiring(c, s, pc, a, n);
    } else {
      NothingTaken(c, s, pc, a);
    }
  }

  lemma LockAfterAcquiring(c: Config, s: State, pc: Pc, a: Action, n: Name)
    requires Fits(pc, a) && Acquires(a) && !pc.AwaitShared?
    ensures Takes(pc, a, n) || Lets(pc, PcAfter(c, s, pc, a), n)
  {
  }

  /** The locks that a process at `pc` may hold */
  predicate MayDiffer(pc: Pc, n: Name) {
    pc != Outside && (n == IndexLock || n == ItemLock(pc.key) || (Claims(pc) && n == ItemLock(pc.victim)))
  }

  /** Only those and the lock that the action takes can be different afterwards. */
  lemma SameLock(c: Config, s: State, pc: Pc, a: Action, n: Name)
    requires Fits(pc, a) && !pc.AwaitShared? && !Takes(pc, a, n)
    requires !MayDiffer(pc, n)
    ensures Holds(pc, n) == Holds(PcAfter(c, s, pc, a), n) == None
  {
    LockAfter(c, s, pc, a, n);
  }

  lemma SettledCovers(m: Machine, n: Name, procs: map<Pid, Pc>, p: Pid, qc: Pc)
    requires Settled(m, n, procs) && p in procs && (Holds(procs[p], n) == Holds(qc, n) || Lets(procs[p], qc, n))
    ensures SecuredAt(m, p, qc, n)
  {
    assert Settles(m.locks[n].handles[p], m.locks[n].path, n, Holds(procs[p], n));
  }

  lemma ReadyIsSecured(c: Config, m: Machine, p: Pid, a: Action)
    requires p in m.cache.procs && Enabled(c, m.cache, p, m.cache.procs[p], a) && !m.cache.procs[p].AwaitShared?
    requires Prepared(m, p, a, PcAfter(c, m.cache, m.cache.procs[p], a))
    ensures Secured(m, p, PcAfter(c, m.cache, m.cache.procs[p], a))
  {
    var pc := m.cache.procs[p];
    var qc := PcAfter(c, m.cache, pc, a);
    forall n: Name ensures SecuredAt(m, p, qc, n) {
      var procs := if Takes(pc, a, n) then m.cache.procs[p := qc] else m.cache.procs;
      assert Settled(m, n, procs);
      LockAfter(c, m.cache, pc, a, n);
      SettledCovers(m, n, procs, p, qc);
    }
  }

  /** The process acts, with its locks as they are. */
  lemma ActsReady(c: Config, states: seq<State>, x: nat, m: Machine, p: Pid, a: Action) returns (m': Machine)
    requires Realised(c, states, x, m) && c.atomicRelax && p in m.cache.procs
    requires x + 1 < |states| && Step(c, m.cache, states[x + 1], p, a)
    requires Prepared(m, p, a, PcAfter(c, m.cache, m.cache.procs[p], a))
    ensures Realised(c, states, x + 1, m') && m' == Machine(states[x + 1], m.locks)
    ensures !m.cache.procs[p].AwaitShared?
  {
    RealisedInv(c, states, x, m);
    assert ProcInv(m, p);
    ReadyIsSecured(c, m, p, a);
    m' := Machine(After(c, m.cache, p, a), m.locks);
    assert Acts(c, m, m', p, a);
    GoesTo(c, states, x, m, m', SystemEvent.Act(p, a), x + 1);
  }

  /** Either settled where the process stands, or, with something left to be done, where it stood */
  ghost predicate Settling(m: Machine, p: Pid, pc: Pc, n: Name)
    requires p in m.cache.procs
  {
    Settled(m, n, m.cache.procs) || (Settled(m, n, m.cache.procs[p := pc]) && Lets(pc, m.cache.procs[p], n))
  }

  lemma SettlesNext(c: Config, states: seq<State>, x: nat, m: Machine, p: Pid, pc: Pc, n: Name) returns (m': Machine)
    requires Realised(c, states, x, m) && c.atomicRelax && p in m.cache.procs
    requires forall k: Name :: Settling(m, p, pc, k)
    ensures Realised(c, states, x, m') && m'.cache == m.cache && Settled(m', n, m.cache.procs)
    ensures forall k: Name :: Settling(m', p, pc, k)
    ensures forall k: Name | Settled(m, k, m.cache.procs) :: Settled(m', k, m.cache.procs)
  {
    assert Settling(m, p, pc, n);
    m' := SettlesOne(c, states, x, m, p, pc, n);
    forall k: Name ensures Settling(m', p, pc, k) {
      assert Settling(m, p, pc, k);
    }
  }

  lemma SettlesOwn(c: Config, states: seq<State>, x: nat, m: Machine, p: Pid, pc: Pc) returns (m': Machine)
    requires Realised(c, states, x, m) && c.atomicRelax && p in m.cache.procs && pc != Outside
    requires forall k: Name :: Settling(m, p, pc, k)
    ensures Realised(c, states, x, m') && m'.cache == m.cache
    ensures forall k: Name :: Settling(m', p, pc, k)
    ensures Settled(m', IndexLock, m.cache.procs) && Settled(m', ItemLock(pc.key), m.cache.procs)
    ensures forall k: Name | Settled(m, k, m.cache.procs) :: Settled(m', k, m.cache.procs)
  {
    m' := SettlesNext(c, states, x, m, p, pc, IndexLock);
    m' := SettlesNext(c, states, x, m', p, pc, ItemLock(pc.key));
  }

  lemma SettlesAll(c: Config, states: seq<State>, x: nat, m: Machine, p: Pid, pc: Pc) returns (m': Machine)
    requires Realised(c, states, x, m) && c.atomicRelax && p in m.cache.procs && pc != Outside
    requires forall k: Name :: Settling(m, p, pc, k)
    ensures Realised(c, states, x, m') && m'.cache == m.cache
    ensures forall k: Name :: Settling(m', p, pc, k)
    ensures forall k: Name | MayDiffer(pc, k) :: Settled(m', k, m.cache.procs)
    ensures forall k: Name | Settled(m, k, m.cache.procs) :: Settled(m', k, m.cache.procs)
  {
    m' := SettlesOwn(c, states, x, m, p, pc);
    if Claims(pc) {
      m' := SettlesNext(c, states, x, m', p, pc, ItemLock(pc.victim));
    }
  }

  lemma SettledSame(m: Machine, p: Pid, pc: Pc, n: Name)
    requires p in m.cache.procs && Settled(m, n, m.cache.procs[p := pc]) && Holds(pc, n) == Holds(m.cache.procs[p], n)
    ensures Settled(m, n, m.cache.procs)
  {
    forall q | q in m.cache.procs
      ensures Settles(m.locks[n].handles[q], m.locks[n].path, n, Holds(m.cache.procs[q], n))
    {
      assert Settles(m.locks[n].handles[q], m.locks[n].path, n, Holds(m.cache.procs[p := pc][q], n));
    }
  }

  /** The locks as the action has left them */
  lemma ActedIsSettling(c: Config, s: State, m: Machine, p: Pid, a: Action, locks: imap<Name, FileLock.State>)
    requires p in s.procs && Fits(s.procs[p], a) && !s.procs[p].AwaitShared? && m == Machine(After(c, s, p, a), locks)
    requires Prepared(Machine(s, locks), p, a, PcAfter(c, s, s.procs[p], a))
    ensures forall n: Name :: Settling(m, p, s.procs[p], n)
    ensures forall n: Name | Takes(s.procs[p], a, n) :: Settled(m, n, m.cache.procs)
  {
    var pc := s.procs[p];
    var qc := PcAfter(c, s, pc, a);
    assert m.cache.procs == s.procs[p := qc] && m.cache.procs[p := pc] == s.procs;
    forall n: Name ensures Settling(m, p, pc, n) {
      assert Settled(Machine(s, locks), n, if Takes(pc, a, n) then s.procs[p := qc] else s.procs);
      LockAfter(c, s, pc, a, n);
    }
    forall n: Name | Takes(pc, a, n) ensures Settled(m, n, m.cache.procs) {
      assert Settled(Machine(s, locks), n, if Takes(pc, a, n) then s.procs[p := qc] else s.procs);
    }
  }

  lemma SettledAfter(c: Config, s: State, m: Machine, p: Pid, a: Action)
    requires p in s.procs && Fits(s.procs[p], a) && !s.procs[p].AwaitShared? && m.cache == After(c, s, p, a)
    requires forall n: Name :: Settling(m, p, s.procs[p], n)
    requires forall n: Name | MayDiffer(s.procs[p], n) :: Settled(m, n, m.cache.procs)
    requires forall n: Name | Takes(s.procs[p], a, n) :: Settled(m, n, m.cache.procs)
    ensures AllSettled(m)
  {
    var pc := s.procs[p];
    forall n: Name ensures Settled(m, n, m.cache.procs) {
      assert Settling(m, p, pc, n);
      if !Settled(m, n, m.cache.procs) {
        SameLock(c, s, pc, a, n);
        SettledSame(m, p, pc, n);
      }
    }
  }

  /** After the action, the process unlocks and relaxes what it does not need any more. */
  lemma SettlesAfter(c: Config, states: seq<State>, x: nat, s: State, m: Machine, p: Pid, a: Action)
    returns (m': Machine)
    requires Realised(c, states, x, m) && c.atomicRelax && p in s.procs && Fits(s.procs[p], a)
    requires !s.procs[p].AwaitShared? && m.cache == After(c, s, p, a)
    requires Prepared(Machine(s, m.locks), p, a, PcAfter(c, s, s.procs[p], a))
    ensures Realised(c, states, x, m') && m'.cache == m.cache && AllSettled(m')
  {
    var pc := s.procs[p];
    ActedIsSettling(c, s, m, p, a, m.locks);
    m' := m;
    if pc != Outside {
      m' := SettlesAll(c, states, x, m, p, pc);
    }
    SettledAfter(c, s, m', p, a);
  }

  /** One step of the cache, and the calls before and after it */
  lemma StepIsReal(c: Config, states: seq<State>, moves: seq<Move>, x: nat, m: Machine) returns (m': Machine)
    requires IsRun(c, states, moves) && x < |moves| && c.atomicRelax
    requires Realised(c, states, x, m) && AllSettled(m)
    ensures Realised(c, states, x + 1, m') && AllSettled(m')
  {
    var p, a := moves[x].pid, moves[x].action;
    RealisedInv(c, states, x, m);
    RunSteps(c, states, moves, x);
    RunKeepsInv(c, states, moves, x);
    var ready := GetsReady(c, states, x, m, p, a);
    var acted := ActsReady(c, states, x, ready, p, a);
    m' := SettlesAfter(c, states, x + 1, m.cache, acted, p, a);
  }

  /** No file at the path of the lock, and nobody has one open. */
  function NoLockFile(n: Name, pids: set<Pid>): FileLock.State {
    FileLock.State(None, map q | q in pids :: FileLock.IDLE)
  }

  ghost function Resting(s: State): Machine {
    Machine(s, imap n: Name | true :: NoLockFile(n, s.procs.Keys))
  }

  lemma RestingIsReal(c: Config, states: seq<State>)
    requires |states| > 0 && Init(states[0])
    ensures Realised(c, states, 0, Resting(states[0])) && AllSettled(Resting(states[0]))
  {
    var m := Resting(states[0]);
    forall n: Name ensures StartsAt(m, n) {
    }
    assert MachineRun(c, [m], []);
    assert Realises(c, states, 0, m, [m], [], [0]);
  }

  lemma {:induction false} PrefixIsReal(c: Config, states: seq<State>, moves: seq<Move>, x: nat) returns (m: Machine)
    requires IsRun(c, states, moves) && x <= |moves| && c.atomicRelax
    ensures Realised(c, states, x, m) && AllSettled(m)
  {
    if x == 0 {
      m := Resting(states[0]);
      RestingIsReal(c, states);
    } else {
      m := PrefixIsReal(c, states, moves, x - 1);
      m := StepIsReal(c, states, moves, x - 1, m);
    }
  }

  /** Every run of the cache is what some run over system calls amounts to. */
  lemma EveryRunIsReal(c: Config, states: seq<State>, moves: seq<Move>)
    returns (ms: seq<Machine>, es: seq<SystemEvent>, at: seq<nat>)
    requires IsRun(c, states, moves) && c.atomicRelax
    ensures MachineRun(c, ms, es) && Projects(ms, states, at) && at[|es|] == |moves|
  {
    var m := PrefixIsReal(c, states, moves, |moves|);
    ms, es, at :| Realises(c, states, |moves|, m, ms, es, at);
  }

  /** The request of a process on its own is served by system calls when its item is ready or there is room
      beside what crashes have left behind: it comes to read the item, alone with its lock file. */
  lemma ServedByCalls(c: Config, s: State, p: Pid, key: Key) returns (ms: seq<Machine>, es: seq<SystemEvent>)
    requires Init(s) && p in s.procs && c.atomicRelax
    requires IsReady(s.index, key) || |FileCacheServing.Leaks(s, key)| < c.capacity
    ensures MachineRun(c, ms, es) && ms[0].cache == s
    ensures p in ms[|es|].cache.procs && ms[|es|].cache.procs[p] == Read(key)
    ensures ItemLock(key) in ms[|es|].locks && LockView(ms[|es|], ItemLock(key)).Keys == {p}
  {
    FileCacheServing.ServedExactly(c, s, p, key);
    var t :| FileCacheServing.Reaches(c, s, p, key, t) && t.procs[p] == Read(key);
    var states, moves :| FileCacheServing.Gets(c, s, states, moves, p, key, t);
    var at;
    ms, es, at := EveryRunIsReal(c, states, moves);
    ReadersAreSafe(c, ms, es, p, key, |es|, |es|);
  }
}
