/** `FileCache` on top of `FileLock`: processes in get_item that lock by system calls on lock files, one call
    at a time. Every such run is a run of `FileCache`, so that its readers are safe, too.

    A process moves on once it has got the locks that its next position needs, and lets go of a lock by
    calls of its own some time after it has moved past the need for it. */
module SystemCalls {
  import opened RwLock
  import opened Wrappers
  import opened FileCache
  import opened FileCacheInvariant
  import opened FileCacheRuns
  import FileLock

  /** The cache, and the lock file of each name with the handles of all processes */
  datatype Machine = Machine(cache: State, locks: imap<Name, FileLock.State>)

  datatype SystemEvent = Call(name: Name, step: FileLock.Step) | Act(pid: Pid, action: Action)

  function LockView(m: Machine, n: Name): Lock
    requires n in m.locks
  {
    FileLock.View(m.locks[n])
  }

  /** What get_item and _cleanup_items lock where they stand. */
  predicate Wants(pc: Pc, n: Name, mode: RwLock.Mode) {
    match n
    case IndexLock => if mode == Shared then pc.AwaitRecheck? else pc.AwaitIndex? || pc.AwaitRegister?
    case ItemLock(k) =>
      if mode == Shared then pc.AwaitShared? && pc.key == k
      else (pc.AwaitItem? && pc.key == k) || (pc.Visit? && k in pc.sweep.todo)
  }

  /** The locks that they start to take or to relax are those they want; a cleanup does not wait for a lock. */
  predicate InProgram(pc: Pc, n: Name, e: FileLock.Step) {
    && (e.Start? ==> Wants(pc, n, e.want) && e.blocking == !pc.Visit?)
    && (e.Relock? ==> SharesItem(pc) && n == ItemLock(pc.key))
  }

  /** A call does not let go of what its process relies on where it stands. */
  predicate Leaves(held: Option<RwLock.Mode>, e: Event) {
    held.Some? ==> !e.Release? && (e.Downgrade? ==> held == Some(Shared))
  }

  const ANY_USE := FileLock.Policy(true, true)

  ghost predicate Calls(m: Machine, m': Machine, n: Name, e: FileLock.Step) {
    && n in m.locks && e.pid in m.cache.procs && FileLock.Enabled(ANY_USE, m.locks[n], e)
    && InProgram(m.cache.procs[e.pid], n, e)
    && Leaves(Holds(m.cache.procs[e.pid], n), FileLock.Effect(m.locks[n], e))
    && m' == Machine(m.cache, m.locks[n := FileLock.Apply(m.locks[n], e)])
  }

  /** `p` holds the lock in that mode or a stronger one. */
  predicate Covers(lock: Lock, p: Pid, mode: RwLock.Mode) {
    p in lock && (lock[p] == Exclusive || mode == Shared)
  }

  /** What the process holds where it stands at `pc`, it holds by its lock file. */
  ghost predicate SecuredAt(m: Machine, p: Pid, pc: Pc, n: Name) {
    Holds(pc, n).Some? ==> n in m.locks && Covers(LockView(m, n), p, Holds(pc, n).value)
  }

  ghost predicate Secured(m: Machine, p: Pid, pc: Pc) {
    forall n: Name :: SecuredAt(m, p, pc, n)
  }

  /** An action of get_item, allowed as far as the process can tell on its own. */
  ghost predicate Acts(c: Config, m: Machine, m': Machine, p: Pid, a: Action) {
    p in m.cache.procs &&
    var pc := m.cache.procs[p];
    && Fits(pc, a) && Allowed(c, m.cache, pc, a)
    && m' == Machine(After(c, m.cache, p, a), m.locks)
    && Secured(m, p, PcAfter(c, m.cache, pc, a))
  }

  ghost predicate Happens(c: Config, m: Machine, m': Machine, e: SystemEvent) {
    match e
    case Call(n, step) => Calls(m, m', n, step)
    case Act(p, a) => Acts(c, m, m', p, a)
  }

  ghost predicate Starts(m: Machine) {
    Init(m.cache) && forall n: Name :: StartsAt(m, n)
  }

  ghost predicate Goes(c: Config, ms: seq<Machine>, es: seq<SystemEvent>, i: nat)
    requires |ms| == |es| + 1 && i < |es|
  {
    Happens(c, ms[i], ms[i + 1], es[i])
  }

  ghost predicate MachineRun(c: Config, ms: seq<Machine>, es: seq<SystemEvent>) {
    |ms| == |es| + 1 && Starts(ms[0]) && forall i: nat | i < |es| :: Goes(c, ms, es, i)
  }

  // ---- The invariant ----

  ghost predicate LockInv(m: Machine, n: Name) {
    n in m.locks && FileLock.Inv(Usage(n), m.locks[n]) && m.locks[n].handles.Keys == m.cache.procs.Keys
  }

  ghost predicate ProcInv(m: Machine, p: Pid) {
    p in m.cache.procs ==> Secured(m, p, m.cache.procs[p]) && !m.cache.procs[p].AwaitShared?
  }

  ghost predicate MachineInv(m: Machine) {
    (forall n: Name :: LockInv(m, n)) && (forall p: Pid :: ProcInv(m, p))
  }

  /** Where relaxing a lock is atomic, the calls of the cache keep to the use of their lock for which
      `FileLock` is a lock. */
  lemma CallObeys(m: Machine, m': Machine, n: Name, e: FileLock.Step)
    requires ProcInv(m, e.pid) && Calls(m, m', n, e)
    ensures FileLock.Enabled(Usage(n), m.locks[n], e)
  {
  }

  /** A call moves the lock of its own process only. */
  lemma CallMoves(policy: FileLock.Policy, s: FileLock.State, e: FileLock.Step, q: Pid, mode: RwLock.Mode)
    requires FileLock.Sound(policy) && FileLock.Inv(policy, s) && FileLock.Enabled(policy, s, e)
    requires Covers(FileLock.View(s), q, mode)
    requires q == e.pid ==> Leaves(Some(mode), FileLock.Effect(s, e))
    ensures Covers(FileLock.View(FileLock.Apply(s, e)), q, mode)
  {
    FileLock.StepRefines(policy, s, e);
    EffectPid(s, e);
    EventCovers(FileLock.View(s), FileLock.View(FileLock.Apply(s, e)), FileLock.Effect(s, e), e.pid, q, mode);
  }

  lemma EventCovers(lock: Lock, lock': Lock, e: Event, p: Pid, q: Pid, mode: RwLock.Mode)
    requires RwLock.Next(lock, lock', e) && (e == Stutter || e.pid == p) && Covers(lock, q, mode)
    requires q == p ==> Leaves(Some(mode), e)
    ensures Covers(lock', q, mode)
  {
  }

  lemma EffectPid(s: FileLock.State, e: FileLock.Step)
    requires e.pid in s.handles
    ensures var f := FileLock.Effect(s, e); f == Stutter || f.pid == e.pid
  {
  }

  lemma CallKeepsLock(m: Machine, m': Machine, n: Name, e: FileLock.Step, k: Name)
    requires LockInv(m, n) && LockInv(m, k) && ProcInv(m, e.pid) && Calls(m, m', n, e)
    ensures LockInv(m', k)
  {
    if k == n {
      CallObeys(m, m', n, e);
      FileLock.StepKeepsInv(Usage(n), m.locks[n], e);
      FileLock.ApplyPuts(m.locks[n], e);
    }
  }

  lemma CallKeepsSecured(m: Machine, m': Machine, n: Name, e: FileLock.Step, p: Pid, k: Name)
    requires LockInv(m, n) && ProcInv(m, e.pid) && Calls(m, m', n, e)
    requires p in m.cache.procs && SecuredAt(m, p, m.cache.procs[p], k)
    ensures SecuredAt(m', p, m.cache.procs[p], k)
  {
    var held := Holds(m.cache.procs[p], k);
    if k == n && held.Some? {
      CallObeys(m, m', n, e);
      CallMoves(Usage(n), m.locks[n], e, p, held.value);
    }
  }

  lemma CallKeepsInv(m: Machine, m': Machine, n: Name, e: FileLock.Step)
    requires MachineInv(m) && Calls(m, m', n, e)
    ensures MachineInv(m')
  {
    assert LockInv(m, n) && ProcInv(m, e.pid);
    forall k: Name ensures LockInv(m', k) {
      assert LockInv(m, k);
      CallKeepsLock(m, m', n, e, k);
    }
    forall p: Pid ensures ProcInv(m', p) {
      if p in m.cache.procs {
        assert ProcInv(m, p);
        forall k: Name ensures SecuredAt(m', p, m.cache.procs[p], k) {
          assert SecuredAt(m, p, m.cache.procs[p], k);
          CallKeepsSecured(m, m', n, e, p, k);
        }
      }
    }
  }

  /** Two processes that have secured one lock hold it in compatible modes. */
  lemma SecuredIsCompatible(m: Machine, n: Name, p: Pid, q: Pid, mode: RwLock.Mode, other: RwLock.Mode)
    requires LockInv(m, n) && p != q
    requires Covers(LockView(m, n), p, mode) && Covers(LockView(m, n), q, other)
    ensures Compatible(mode, other)
  {
    FileLock.OwnersAreCompatible(Usage(n), m.locks[n], p, q);
  }

  lemma WantedIsHeld(c: Config, s: State, pc: Pc, a: Action)
    requires Fits(pc, a)
    ensures match Wanted(pc, a)
            case Some((n, mode)) => Holds(PcAfter(c, s, pc, a), n) == Some(mode)
            case None => true
  {
  }

  /** The lock that an action takes is free at the level of the cache, because the process has it at the
      level of system calls. */
  lemma SecuredIsFree(c: Config, m: Machine, m': Machine, p: Pid, a: Action)
    requires MachineInv(m) && Acts(c, m, m', p, a)
    ensures Grants(m.cache, p, m.cache.procs[p], a)
  {
    var pc := m.cache.procs[p];
    var qc := PcAfter(c, m.cache, pc, a);
    WantedIsHeld(c, m.cache, pc, a);
    match Wanted(pc, a)
    case None =>
    case Some((n, mode)) =>
      forall q | q in m.cache.procs && q != p && Holds(m.cache.procs[q], n).Some?
        ensures Compatible(mode, Holds(m.cache.procs[q], n).value)
      {
        assert ProcInv(m, q) && LockInv(m, n);
        assert SecuredAt(m, q, m.cache.procs[q], n) && SecuredAt(m, p, qc, n);
        SecuredIsCompatible(m, n, p, q, mode, Holds(m.cache.procs[q], n).value);
      }
  }

  /** An action over lock files is a step of the cache. */
  lemma ActIsStep(c: Config, m: Machine, m': Machine, p: Pid, a: Action)
    requires MachineInv(m) && Acts(c, m, m', p, a)
    ensures Step(c, m.cache, m'.cache, p, a)
  {
    SecuredIsFree(c, m, m', p, a);
  }

  lemma ItemNotLost(c: Config, s: State, pc: Pc, a: Action)
    requires Fits(pc, a) && Allowed(c, s, pc, a) && c.atomicRelax && !pc.AwaitShared?
    ensures !PcAfter(c, s, pc, a).AwaitShared?
  {
  }

  lemma SameLocksSecure(m: Machine, m': Machine, p: Pid, pc: Pc)
    requires m'.locks == m.locks && Secured(m, p, pc)
    ensures Secured(m', p, pc)
  {
    forall n: Name ensures SecuredAt(m', p, pc, n) {
      assert SecuredAt(m, p, pc, n);
    }
  }

  lemma ActKeepsProc(c: Config, m: Machine, m': Machine, p: Pid, a: Action, q: Pid)
    requires ProcInv(m, p) && ProcInv(m, q) && Acts(c, m, m', p, a) && c.atomicRelax
    ensures ProcInv(m', q)
  {
    if q == p {
      ItemNotLost(c, m.cache, m.cache.procs[p], a);
      SameLocksSecure(m, m', p, PcAfter(c, m.cache, m.cache.procs[p], a));
    } else if q in m.cache.procs {
      SameLocksSecure(m, m', q, m.cache.procs[q]);
    }
  }

  lemma ActKeepsInv(c: Config, m: Machine, m': Machine, p: Pid, a: Action)
    requires MachineInv(m) && Acts(c, m, m', p, a) && c.atomicRelax
    ensures MachineInv(m')
  {
    assert m'.cache.procs.Keys == m.cache.procs.Keys;
    forall n: Name ensures LockInv(m', n) {
      assert LockInv(m, n);
    }
    forall q: Pid ensures ProcInv(m', q) {
      assert ProcInv(m, p) && ProcInv(m, q);
      ActKeepsProc(c, m, m', p, a, q);
    }
  }

  ghost predicate StartsAt(m: Machine, n: Name) {
    n in m.locks && FileLock.Init(m.locks[n]) && m.locks[n].handles.Keys == m.cache.procs.Keys
  }

  lemma StartsWithInv(m: Machine)
    requires Starts(m)
    ensures MachineInv(m)
  {
    forall n: Name ensures LockInv(m, n) {
      assert StartsAt(m, n);
      FileLock.InitInv(Usage(n), m.locks[n]);
    }
    forall p: Pid ensures ProcInv(m, p) {
    }
  }

  lemma HappensKeepsInv(c: Config, m: Machine, m': Machine, e: SystemEvent)
    requires MachineInv(m) && Happens(c, m, m', e) && c.atomicRelax
    ensures MachineInv(m')
  {
    match e
    case Call(n, step) => CallKeepsInv(m, m', n, step);
    case Act(p, a) => ActKeepsInv(c, m, m', p, a);
  }

  lemma RunGoes(c: Config, ms: seq<Machine>, es: seq<SystemEvent>, i: nat)
    requires MachineRun(c, ms, es) && i < |es|
    ensures Happens(c, ms[i], ms[i + 1], es[i])
  {
    assert Goes(c, ms, es, i);
  }

  lemma RunKeepsMachineInv(c: Config, ms: seq<Machine>, es: seq<SystemEvent>, i: nat)
    requires MachineRun(c, ms, es) && c.atomicRelax && i < |es| && MachineInv(ms[i])
    ensures MachineInv(ms[i + 1])
  {
    RunGoes(c, ms, es, i);
    HappensKeepsInv(c, ms[i], ms[i + 1], es[i]);
  }

  lemma {:induction false} RunHasInv(c: Config, ms: seq<Machine>, es: seq<SystemEvent>, i: nat)
    requires MachineRun(c, ms, es) && c.atomicRelax && i <= |es|
    ensures MachineInv(ms[i])
  {
    if i == 0 {
      StartsWithInv(ms[0]);
    } else {
      RunHasInv(c, ms, es, i - 1);
      RunKeepsMachineInv(c, ms, es, i - 1);
    }
  }

  // ---- Projection ----

  /** `at[i]` is the place of `ms[i]` in a run of the cache; calls do not move it. */
  ghost predicate Projects(ms: seq<Machine>, states: seq<State>, at: seq<nat>) {
    && |at| == |ms| > 0 && at[0] == 0
    && (forall i | 0 <= i < |at| :: at[i] < |states| && states[at[i]] == ms[i].cache)
    && (forall i | 0 <= i < |at| - 1 :: OneOn(at, i))
  }

  predicate OneOn(at: seq<nat>, i: nat)
    requires i < |at| - 1
  {
    at[i] <= at[i + 1] <= at[i] + 1
  }

  /** Every run over system calls is a run of the cache. */
  lemma {:induction false} RunProjects(c: Config, ms: seq<Machine>, es: seq<SystemEvent>)
    returns (states: seq<State>, moves: seq<Move>, at: seq<nat>)
    requires MachineRun(c, ms, es) && c.atomicRelax
    ensures IsRun(c, states, moves) && Projects(ms, states, at) && at[|es|] == |moves|
    decreases |es|
  {
    if es == [] {
      states, moves, at := [ms[0].cache], [], [0];
    } else {
      var n := |es| - 1;
      RunPrefix(c, ms, es);
      var before, made, places := RunProjects(c, ms[..n + 1], es[..n]);
      RunHasInv(c, ms, es, n);
      RunGoes(c, ms, es, n);
      states, moves := ProjectOne(c, ms[n], ms[n + 1], es[n], before, made);
      ProjectsOneMore(ms, n, before, places, states, |moves|);
      at := places + [|moves|];
    }
  }

  lemma RunPrefix(c: Config, ms: seq<Machine>, es: seq<SystemEvent>)
    requires MachineRun(c, ms, es) && es != []
    ensures MachineRun(c, ms[..|es|], es[..|es| - 1])
  {
    var ms', es' := ms[..|es|], es[..|es| - 1];
    forall i: nat | i < |es'| ensures Goes(c, ms', es', i) {
      assert Goes(c, ms, es, i);
    }
  }

  lemma ProjectsOneMore(ms: seq<Machine>, n: nat, states: seq<State>, at: seq<nat>, states': seq<State>, x: nat)
    requires n + 1 < |ms| && Projects(ms[..n + 1], states, at) && states <= states'
    requires at[n] <= x <= at[n] + 1 && x < |states'| && states'[x] == ms[n + 1].cache
    ensures n + 2 == |ms| ==> Projects(ms, states', at + [x])
  {
    forall i | 0 <= i < |at| ensures OneOn(at + [x], i) {
      if i < n {
        assert OneOn(at, i);
      }
    }
  }

  lemma ProjectOne(c: Config, m: Machine, m': Machine, e: SystemEvent, states: seq<State>, moves: seq<Move>)
    returns (states': seq<State>, moves': seq<Move>)
    requires MachineInv(m) && Happens(c, m, m', e) && IsRun(c, states, moves) && states[|moves|] == m.cache
    ensures IsRun(c, states', moves') && states <= states' && states'[|moves'|] == m'.cache
    ensures |moves| <= |moves'| <= |moves| + 1
  {
    match e
    case Call(_, _) =>
      states', moves' := states, moves;
    case Act(p, a) =>
      ActIsStep(c, m, m', p, a);
      RunAppend(c, states, moves, m'.cache, Move(p, a));
      states', moves' := states + [m'.cache], moves + [Move(p, a)];
  }

  lemma {:induction false} Hits(ms: seq<Machine>, states: seq<State>, at: seq<nat>, i: nat, j: nat, x: nat)
    returns (k: nat)
    requires Projects(ms, states, at) && i <= j < |at| && at[i] <= x <= at[j]
    ensures i <= k <= j && at[k] == x
    decreases j
  {
    if x == at[j] {
      k := j;
    } else {
      assert OneOn(at, j - 1);
      k := Hits(ms, states, at, i, j - 1, x);
    }
  }

  lemma {:induction false} NotBefore(ms: seq<Machine>, states: seq<State>, at: seq<nat>, i: nat, j: nat)
    requires Projects(ms, states, at) && i <= j < |at|
    ensures at[i] <= at[j]
    decreases j
  {
    if i < j {
      NotBefore(ms, states, at, i, j - 1);
      assert OneOn(at, j - 1);
    }
  }

  ghost predicate ReadsIn(ms: seq<Machine>, p: Pid, key: Key, i: nat, j: nat) {
    i <= j < |ms| && forall m | i <= m <= j :: p in ms[m].cache.procs && ms[m].cache.procs[p] == Read(key)
  }

  lemma ReadsInProjection(ms: seq<Machine>, states: seq<State>, at: seq<nat>, p: Pid, key: Key, i: nat, j: nat)
    requires Projects(ms, states, at) && ReadsIn(ms, p, key, i, j)
    ensures ReadsThroughout(states, p, key, at[i], at[j])
  {
    NotBefore(ms, states, at, i, j);
    forall x: nat | at[i] <= x <= at[j] ensures p in states[x].procs && states[x].procs[p] == Read(key) {
      var k := Hits(ms, states, at, i, j, x);
    }
  }

  /** Item locks are never locked shared afresh, so that whoever has one is alone with it. */
  lemma ItemLockIsAlone(m: Machine, p: Pid, key: Key)
    requires LockInv(m, ItemLock(key)) && p in LockView(m, ItemLock(key))
    ensures LockView(m, ItemLock(key)).Keys == {p}
  {
    var n := ItemLock(key);
    var s := m.locks[n];
    assert FileLock.PhaseInv(s.handles[p]) && FileLock.PolicyInv(Usage(n), s.handles[p]);
    forall q | q in LockView(m, n) ensures q == p {
      if q != p {
        FileLock.FlaggedOwnerIsAlone(Usage(n), s, p, q);
      }
    }
  }

  lemma ReaderHoldsLock(m: Machine, p: Pid, key: Key)
    requires LockInv(m, ItemLock(key)) && ProcInv(m, p) && p in m.cache.procs && m.cache.procs[p] == Read(key)
    ensures LockView(m, ItemLock(key)).Keys == {p}
  {
    assert SecuredAt(m, p, Read(key), ItemLock(key)) && Holds(Read(key), ItemLock(key)) == Some(Shared);
    ItemLockIsAlone(m, p, key);
  }

  /** Whatever system calls and actions of other processes come in between, and wherever those crash, an item
      stays complete and unchanged while a process reads it, and no other process has its lock file, not
      even to read. */
  lemma ReadersAreSafe(c: Config, ms: seq<Machine>, es: seq<SystemEvent>, p: Pid, key: Key, i: nat, j: nat)
    requires MachineRun(c, ms, es) && c.atomicRelax && ReadsIn(ms, p, key, i, j)
    ensures key in ms[j].cache.dirs && ms[j].cache.dirs[key].complete && key in ms[i].cache.dirs
    ensures ms[j].cache.dirs[key] == ms[i].cache.dirs[key]
    ensures ItemLock(key) in ms[j].locks && LockView(ms[j], ItemLock(key)).Keys == {p}
  {
    var states, moves, at := RunProjects(c, ms, es);
    ReadsInProjection(ms, states, at, p, key, i, j);
    ReaderSafety(c, states, moves, p, key, at[i], at[j]);
    RunHasInv(c, ms, es, j);
    assert LockInv(ms[j], ItemLock(key)) && ProcInv(ms[j], p);
    ReaderHoldsLock(ms[j], p, key);
  }

  lemma LockExcludes(m: Machine, n: Name)
    requires LockInv(m, n)
    ensures Excludes(LockView(m, n))
  {
    forall p, q | p in LockView(m, n) && q in LockView(m, n) && p != q
      ensures Compatible(LockView(m, n)[p], LockView(m, n)[q])
    {
      FileLock.OwnersAreCompatible(Usage(n), m.locks[n], p, q);
    }
  }

  /** Every lock file excludes, the index is bounded, and what it calls ready is complete, in every run over
      system calls. */
  lemma MachineIsSound(c: Config, ms: seq<Machine>, es: seq<SystemEvent>, i: nat, n: Name)
    requires MachineRun(c, ms, es) && c.atomicRelax && i < |ms|
    ensures n in ms[i].locks && Excludes(LockView(ms[i], n))
    ensures |ms[i].cache.index| <= Max(|ms[0].cache.index|, c.capacity)
    ensures forall k | IsReady(ms[i].cache.index, k) :: IsComplete(ms[i].cache.dirs, k)
  {
    RunHasInv(c, ms, es, i);
    assert LockInv(ms[i], n);
    LockExcludes(ms[i], n);
    var states, moves, at := RunProjects(c, ms, es);
    IndexInvariants(c, states, moves, at[i]);
    assert states[at[0]] == ms[0].cache && states[at[i]] == ms[i].cache;
  }

  // ---- A run ----

  lemma MachineAppend(c: Config, ms: seq<Machine>, es: seq<SystemEvent>, m': Machine, e: SystemEvent)
    requires MachineRun(c, ms, es) && Happens(c, ms[|es|], m', e)
    ensures MachineRun(c, ms + [m'], es + [e])
  {
    var ms', es' := ms + [m'], es + [e];
    forall i: nat | i < |es'| ensures Goes(c, ms', es', i) {
      if i < |es| {
        assert Goes(c, ms, es, i);
      }
    }
  }

  function LoneLock(p: Pid, key: Key, path: Option<FileLock.Inode>, h: FileLock.Handle, n: Name): FileLock.State {
    if n == ItemLock(key) then FileLock.State(path, map[p := h]) else FileLock.State(None, map[p := FileLock.IDLE])
  }

  /** One process at `pc` on an empty cache, with `h` on the lock file of the item and no other lock */
  ghost function Lone(p: Pid, key: Key, pc: Pc, path: Option<FileLock.Inode>, h: FileLock.Handle): Machine {
    Machine(State(map[], map[], map[p := pc]), imap n: Name | true :: LoneLock(p, key, path, h, n))
  }

  lemma LoneCalls(c: Config, ms: seq<Machine>, es: seq<SystemEvent>, p: Pid, key: Key, path: Option<FileLock.Inode>,
                  h: FileLock.Handle, e: FileLock.Step) returns (ms': seq<Machine>, es': seq<SystemEvent>)
    requires MachineRun(c, ms, es) && ms[|es|] == Lone(p, key, AwaitItem(key), path, h)
    requires e.pid == p && FileLock.Enabled(ANY_USE, FileLock.State(path, map[p := h]), e)
    requires !e.Relock? && (e.Start? ==> e.want == Exclusive && e.blocking)
    ensures MachineRun(c, ms', es') && |es'| == |es| + 1
    ensures
      var t := FileLock.Apply(FileLock.State(path, map[p := h]), e);
      ms'[|es'|] == Lone(p, key, AwaitItem(key), t.path, t.handles[p])
  {
    var n := ItemLock(key);
    var m := ms[|es|];
    var t := FileLock.Apply(m.locks[n], e);
    FileLock.ApplyPuts(m.locks[n], e);
    assert t.handles == map[p := t.handles[p]];
    var m' := Lone(p, key, AwaitItem(key), t.path, t.handles[p]);
    assert m'.locks == m.locks[n := t];
    MachineAppend(c, ms, es, m', Call(n, e));
    ms', es' := ms + [m'], es + [Call(n, e)];
  }

  lemma LoneStarts(c: Config, p: Pid, key: Key) returns (ms: seq<Machine>, es: seq<SystemEvent>)
    ensures MachineRun(c, ms, es) && |es| == 1
    ensures ms[|es|] == Lone(p, key, AwaitItem(key), None, FileLock.IDLE)
  {
    var m, m' := Lone(p, key, Outside, None, FileLock.IDLE), Lone(p, key, AwaitItem(key), None, FileLock.IDLE);
    forall n: Name ensures StartsAt(m, n) {
    }
    assert m'.cache == After(c, m.cache, p, Enter(key));
    forall n: Name ensures SecuredAt(m, p, AwaitItem(key), n) {
    }
    MachineAppend(c, [m], [], m', Act(p, Enter(key)));
    ms, es := [m] + [m'], [] + [Act(p, Enter(key))];
  }

  /** A process enters, takes the lock file of its item in four system calls, and goes on to the index. */
  lemma LoneLocksItem(c: Config, p: Pid, key: Key) returns (ms: seq<Machine>, es: seq<SystemEvent>)
    ensures MachineRun(c, ms, es) && |es| == 6 && ms[6].cache.procs == map[p := AwaitIndex(key)]
    ensures ItemLock(key) in ms[6].locks && LockView(ms[6], ItemLock(key)) == map[p := Exclusive]
  {
    var idle := FileLock.IDLE;
    var opening := idle.(phase := FileLock.Opening, want := Exclusive);
    var locking := opening.(phase := FileLock.Locking, file := Some(0));
    var checking := locking.(phase := FileLock.Checking, kernel := Some(Exclusive));
    var locked := checking.(phase := FileLock.Locked, exclusiveLocked := true);
    ms, es := LoneStarts(c, p, key);
    ms, es := LoneCalls(c, ms, es, p, key, None, idle, FileLock.Start(p, Exclusive, true));
    ms, es := LoneCalls(c, ms, es, p, key, None, opening, FileLock.Open(p, 0));
    ms, es := LoneCalls(c, ms, es, p, key, Some(0), locking, FileLock.Lockf(p));
    ms, es := LoneCalls(c, ms, es, p, key, Some(0), checking, FileLock.Check(p));
    ms, es := LoneMovesOn(c, ms, es, p, key, locked);
  }

  lemma LoneMovesOn(c: Config, ms: seq<Machine>, es: seq<SystemEvent>, p: Pid, key: Key, h: FileLock.Handle)
    returns (ms': seq<Machine>, es': seq<SystemEvent>)
    requires MachineRun(c, ms, es) && ms[|es|] == Lone(p, key, AwaitItem(key), Some(0), h)
    requires FileLock.Owns(h) && h.kernel == Some(Exclusive)
    ensures MachineRun(c, ms', es') && |es'| == |es| + 1 && ms'[|es'|] == Lone(p, key, AwaitIndex(key), Some(0), h)
    ensures LockView(ms'[|es'|], ItemLock(key)) == map[p := Exclusive]
  {
    var m, m' := ms[|es|], Lone(p, key, AwaitIndex(key), Some(0), h);
    LoneActs(c, m, m', p, key, h);
    MachineAppend(c, ms, es, m', Act(p, LockItem));
    ms', es' := ms + [m'], es + [Act(p, LockItem)];
  }

  lemma LoneActs(c: Config, m: Machine, m': Machine, p: Pid, key: Key, h: FileLock.Handle)
    requires m == Lone(p, key, AwaitItem(key), Some(0), h) && m' == Lone(p, key, AwaitIndex(key), Some(0), h)
    requires FileLock.Owns(h) && h.kernel == Some(Exclusive)
    ensures Acts(c, m, m', p, LockItem) && LockView(m', ItemLock(key)) == map[p := Exclusive]
  {
    assert LockView(m, ItemLock(key)) == map[p := Exclusive];
    assert m'.cache == After(c, m.cache, p, LockItem);
    forall n: Name ensures SecuredAt(m, p, AwaitIndex(key), n) {
    }
  }
}
