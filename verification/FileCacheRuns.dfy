/** Whole runs of `FileCache`: readers are safe, the index keeps its capacity, crashes leave entries
    behind, and the locks are used in the ways that `FileLock` supports. */
module FileCacheRuns {
  import opened RwLock
  import opened Wrappers
  import opened FileCache
  import opened FileCacheInvariant
  import FileLock

  datatype Move = Move(pid: Pid, action: Action)

  /** The cache at rest: nobody is in get_item, and what the index calls ready is complete. */
  ghost predicate Init(s: State) {
    && (forall p | p in s.procs :: s.procs[p] == Outside)
    && (forall k | IsReady(s.index, k) :: IsComplete(s.dirs, k))
  }

  ghost predicate StepAt(c: Config, states: seq<State>, moves: seq<Move>, i: nat)
    requires |states| == |moves| + 1 && i < |moves|
  {
    Step(c, states[i], states[i + 1], moves[i].pid, moves[i].action)
  }

  ghost predicate IsRun(c: Config, states: seq<State>, moves: seq<Move>) {
    && |states| == |moves| + 1
    && Init(states[0])
    && forall i: nat | i < |moves| :: StepAt(c, states, moves, i)
  }

  lemma RunSteps(c: Config, states: seq<State>, moves: seq<Move>, i: nat)
    requires IsRun(c, states, moves) && i < |moves|
    ensures Step(c, states[i], states[i + 1], moves[i].pid, moves[i].action)
  {
    assert StepAt(c, states, moves, i);
  }

  lemma RunStepKeepsInv(c: Config, states: seq<State>, moves: seq<Move>, i: nat)
    requires IsRun(c, states, moves) && i < |moves| && Inv(c, states[i])
    ensures Inv(c, states[i + 1]) && states[i + 1].procs.Keys == states[i].procs.Keys
  {
    RunSteps(c, states, moves, i);
    StepKeepsInv(c, states[i], states[i + 1], moves[i].pid, moves[i].action);
  }

  lemma {:induction false} RunKeepsInv(c: Config, states: seq<State>, moves: seq<Move>, i: nat)
    requires IsRun(c, states, moves) && i <= |moves|
    ensures Inv(c, states[i]) && states[i].procs.Keys == states[0].procs.Keys
  {
    if i > 0 {
      RunKeepsInv(c, states, moves, i - 1);
      RunStepKeepsInv(c, states, moves, i - 1);
    }
  }

  ghost predicate ReadsThroughout(states: seq<State>, p: Pid, key: Key, i: nat, j: nat) {
    i <= j < |states| && forall m | i <= m <= j :: p in states[m].procs && states[m].procs[p] == Read(key)
  }

  /** Nobody but `p` holds the lock that deleting or refilling the item takes. */
  ghost predicate LeftAlone(s: State, p: Pid, key: Key) {
    forall q | q in s.procs && q != p :: Holds(s.procs[q], ItemLock(key)) != Some(Exclusive)
  }

  lemma ReaderExcludes(c: Config, s: State, p: Pid, key: Key)
    requires Inv(c, s) && p in s.procs && s.procs[p] == Read(key)
    ensures IsComplete(s.dirs, key) && LeftAlone(s, p, key)
  {
    var n := ItemLock(key);
    assert Holds(s.procs[p], n) == Some(Shared);
    assert PcInv(c, s, s.procs[p]);
    forall q | q in s.procs && q != p ensures Holds(s.procs[q], n) != Some(Exclusive) {
      assert Agree(s.procs[p], s.procs[q]);
    }
  }

  lemma StepSparesReader(c: Config, s: State, s': State, q: Pid, a: Action, p: Pid, key: Key)
    requires Step(c, s, s', q, a) && p in s.procs && s.procs[p] == Read(key) && key in s.dirs && LeftAlone(s, p, key)
    ensures key in s'.dirs && s'.dirs[key] == s.dirs[key]
  {
    assert Holds(s.procs[q], ItemLock(key)) != Some(Exclusive);
    DirChange(s.dirs, s.procs[q], a, key);
  }

  lemma RunSparesReader(c: Config, states: seq<State>, moves: seq<Move>, i: nat, p: Pid, key: Key)
    requires IsRun(c, states, moves) && i < |moves| && p in states[i].procs && states[i].procs[p] == Read(key)
    requires key in states[i].dirs && LeftAlone(states[i], p, key)
    ensures key in states[i + 1].dirs && states[i + 1].dirs[key] == states[i].dirs[key]
  {
    RunSteps(c, states, moves, i);
    StepSparesReader(c, states[i], states[i + 1], moves[i].pid, moves[i].action, p, key);
  }

  lemma ReaderIsSafe(c: Config, states: seq<State>, moves: seq<Move>, i: nat, p: Pid, key: Key)
    requires IsRun(c, states, moves) && i <= |moves| && p in states[i].procs && states[i].procs[p] == Read(key)
    ensures IsComplete(states[i].dirs, key) && LeftAlone(states[i], p, key)
  {
    RunKeepsInv(c, states, moves, i);
    ReaderExcludes(c, states[i], p, key);
  }

  /** While a process reads an item, whatever the others do or crash on, the item's directory is
      complete and never changes, and nobody else holds the lock that deleting or refilling it takes. */
  lemma {:induction false} ReaderSafety(c: Config, states: seq<State>, moves: seq<Move>, p: Pid, key: Key, i: nat,
                                        j: nat)
    requires IsRun(c, states, moves) && ReadsThroughout(states, p, key, i, j)
    ensures key in states[j].dirs && states[j].dirs[key].complete
    ensures key in states[i].dirs && states[j].dirs[key] == states[i].dirs[key]
    ensures LeftAlone(states[j], p, key)
    decreases j
  {
    ReaderIsSafe(c, states, moves, j, p, key);
    if i < j {
      ReaderSafety(c, states, moves, p, key, i, j - 1);
      RunSparesReader(c, states, moves, j - 1, p, key);
    }
  }

  function Max(a: int, b: int): int {
    if a < b then b else a
  }

  lemma PutCard(e: Index, k: Key, v: Entry)
    ensures |e[k := v]| <= |e| + 1 && (k in e ==> |e[k := v]| == |e|)
  {
    assert e[k := v].Keys == e.Keys + {k};
    if k in e {
      assert e[k := v].Keys == e.Keys;
      assert |e[k := v].Keys| == |e.Keys|;
    }
  }

  lemma ShrinkCard(e: Index, f: Index)
    requires e.Keys <= f.Keys
    ensures |e| <= |f|
  {
    SubsetCard(e.Keys, f.Keys);
    assert |e| == |e.Keys| && |f| == |f.Keys|;
  }

  /** Only two actions write an index with an entry that was not there. */
  lemma IndexShrinks(c: Config, s: State, pc: Pc, a: Action)
    requires PcInv(c, s, pc) && !(a.WritePreparing? && pc.Reserve?) && !(a.WriteOutcome? && pc.Register? && pc.made)
    ensures IndexAfter(s.index, pc, a).Keys <= s.index.Keys
  {
  }

  lemma IndexKeepsCapacity(c: Config, s: State, pc: Pc, a: Action)
    requires PcInv(c, s, pc)
    ensures |IndexAfter(s.index, pc, a)| <= Max(|s.index|, c.capacity)
  {
    if a.WritePreparing? && pc.Reserve? {
      PutCard(pc.entries, pc.key, Preparing);
    } else if a.WriteOutcome? && pc.Register? && pc.made {
      PutCard(s.index, pc.key, Ready);
    } else {
      IndexShrinks(c, s, pc, a);
      ShrinkCard(IndexAfter(s.index, pc, a), s.index);
    }
  }

  lemma StepKeepsCapacity(c: Config, s: State, s': State, p: Pid, a: Action)
    requires Inv(c, s) && Step(c, s, s', p, a)
    ensures |s'.index| <= Max(|s.index|, c.capacity)
  {
    assert PcInv(c, s, s.procs[p]);
    IndexKeepsCapacity(c, s, s.procs[p], a);
  }

  lemma RunKeepsCapacity(c: Config, states: seq<State>, moves: seq<Move>, i: nat)
    requires IsRun(c, states, moves) && i < |moves|
    ensures |states[i + 1].index| <= Max(|states[i].index|, c.capacity)
  {
    RunKeepsInv(c, states, moves, i);
    RunSteps(c, states, moves, i);
    StepKeepsCapacity(c, states[i], states[i + 1], moves[i].pid, moves[i].action);
  }

  lemma {:induction false} CapacityKept(c: Config, states: seq<State>, moves: seq<Move>, i: nat)
    requires IsRun(c, states, moves) && i <= |moves|
    ensures |states[i].index| <= Max(|states[0].index|, c.capacity)
  {
    if i > 0 {
      CapacityKept(c, states, moves, i - 1);
      RunKeepsCapacity(c, states, moves, i - 1);
    }
  }

  /** The index file never holds more entries than the capacity, or than it started with; what it
      calls ready is complete; and a process that made an item finds its preparing entry there when
      it comes to write the outcome. */
  lemma IndexInvariants(c: Config, states: seq<State>, moves: seq<Move>, i: nat)
    requires IsRun(c, states, moves) && i <= |moves|
    ensures |states[i].index| <= Max(|states[0].index|, c.capacity)
    ensures forall k | IsReady(states[i].index, k) :: IsComplete(states[i].dirs, k)
    ensures forall p | p in states[i].procs && Makes(states[i].procs[p]) ::
      IsPreparing(states[i].index, states[i].procs[p].key)
  {
    CapacityKept(c, states, moves, i);
    RunKeepsInv(c, states, moves, i);
    forall p | p in states[i].procs && Makes(states[i].procs[p])
      ensures IsPreparing(states[i].index, states[i].procs[p].key)
    {
      assert PcInv(c, states[i], states[i].procs[p]);
    }
  }

  /** A cleanup removes exactly the entries that are not ready, whose directory it found and whose lock
      it got. */
  lemma SweepOutcome(c: Config, states: seq<State>, moves: seq<Move>, i: nat, p: Pid)
    requires IsRun(c, states, moves) && i <= |moves| && p in states[i].procs
    requires states[i].procs[p].Visit? && states[i].procs[p].sweep.todo == {}
    ensures var w := states[i].procs[p].sweep;
      forall k :: k in w.entries <==> k in w.start && (w.start[k] == Ready || k !in w.listed || k in w.refused)
  {
    RunKeepsInv(c, states, moves, i);
    var w := states[i].procs[p].sweep;
    assert PcInv(c, states[i], states[i].procs[p]);
    assert w.listed - w.todo == w.listed;
  }

  /** CacheExhaustedException means that the index is full of preparing entries, each of which has no
      directory or a lock that was not to be had. */
  lemma ExhaustedMeans(c: Config, states: seq<State>, moves: seq<Move>, i: nat, p: Pid)
    requires IsRun(c, states, moves) && i <= |moves| && p in states[i].procs && states[i].procs[p].Exhausted?
    ensures c.capacity <= |states[i].index|
    ensures forall k | k in states[i].index ::
      states[i].index[k] == Preparing &&
          (k !in states[i].procs[p].sweep.listed || k in states[i].procs[p].sweep.refused)
  {
    RunKeepsInv(c, states, moves, i);
    assert PcInv(c, states[i], states[i].procs[p]);
    var w := states[i].procs[p].sweep;
    forall k | k in states[i].index
      ensures states[i].index[k] == Preparing && (k !in w.listed || k in w.refused)
    {
      assert k !in ReadyKeys(w.entries);
    }
  }

  // ---- Entries left behind by a crash ----

  predicate KeepsLeak(pc: Pc, k: Key) {
    && (pc != Outside ==> pc.key != k)
    && (Draft(pc).Some? ==> k in Draft(pc).value)
    && (pc.Visit? || pc.Claim? || pc.Delete? ==> k !in pc.sweep.listed)
  }

  /** A preparing entry with no directory, which no process is asking for. */
  predicate Leaked(s: State, k: Key) {
    && IsPreparing(s.index, k) && k !in s.dirs
    && forall p | p in s.procs :: KeepsLeak(s.procs[p], k)
  }

  lemma PcAfterKeepsLeak(c: Config, s: State, p: Pid, a: Action, k: Key)
    requires p in s.procs && Enabled(c, s, p, s.procs[p], a) && PcInv(c, s, s.procs[p])
    requires a != Enter(k) && IsPreparing(s.index, k) && k !in s.dirs && KeepsLeak(s.procs[p], k)
    ensures KeepsLeak(PcAfter(c, s, s.procs[p], a), k)
  {
    VictimIsListed(c, s, s.procs[p]);
    assert Holds(s.procs[p], ItemLock(k)) == None;
    DraftKeeps(c, s, p, a, k);
    SweepAfter(c, s, s.procs[p], a);
    if !a.Enter? {
      KeyAfter(c, s, s.procs[p], a);
    }
  }

  lemma VictimIsListed(c: Config, s: State, pc: Pc)
    requires PcInv(c, s, pc)
    ensures pc.Claim? || pc.Delete? ==> pc.victim in pc.sweep.listed
    ensures !((pc.Claim? || pc.Delete?) && SharesItem(pc))
  {
  }

  lemma DiskAfterKeepsLeak(c: Config, s: State, p: Pid, a: Action, k: Key)
    requires p in s.procs && Enabled(c, s, p, s.procs[p], a) && PcInv(c, s, s.procs[p])
    requires IsPreparing(s.index, k) && k !in s.dirs && KeepsLeak(s.procs[p], k)
    ensures IsPreparing(IndexAfter(s.index, s.procs[p], a), k)
    ensures k !in DirsAfter(s.dirs, s.procs[p], a)
  {
  }

  lemma StepKeepsLeak(c: Config, s: State, s': State, p: Pid, a: Action, k: Key)
    requires Inv(c, s) && Step(c, s, s', p, a) && a != Enter(k) && Leaked(s, k)
    ensures Leaked(s', k)
  {
    assert PcInv(c, s, s.procs[p]) && KeepsLeak(s.procs[p], k);
    PcAfterKeepsLeak(c, s, p, a, k);
    DiskAfterKeepsLeak(c, s, p, a, k);
  }

  /** Such an entry outlives every cleanup: only a request for the very same item takes it up again. */
  lemma {:induction false} LeakedEntryStays(c: Config, states: seq<State>, moves: seq<Move>, k: Key, i: nat, j: nat)
    requires IsRun(c, states, moves) && i <= j <= |moves|
    requires Leaked(states[i], k) && forall m | i <= m < j :: moves[m].action != Enter(k)
    ensures Leaked(states[j], k)
    decreases j
  {
    if i < j {
      LeakedEntryStays(c, states, moves, k, i, j - 1);
      RunKeepsInv(c, states, moves, j - 1);
      RunSteps(c, states, moves, j - 1);
      StepKeepsLeak(c, states[j - 1], states[j], moves[j - 1].pid, moves[j - 1].action, k);
    }
  }

  /** A process gets to create an item only while there are fewer of them than the capacity. */
  lemma LeaksExhaustCache(c: Config, states: seq<State>, moves: seq<Move>, i: nat, leaks: set<Key>, p: Pid)
    requires IsRun(c, states, moves) && i <= |moves| && p in states[i].procs && states[i].procs[p].Reserve?
    requires forall k | k in leaks :: Leaked(states[i], k)
    ensures |leaks| < c.capacity
  {
    RunKeepsInv(c, states, moves, i);
    var pc := states[i].procs[p];
    assert PcInv(c, states[i], pc);
    forall k | k in leaks ensures k in pc.entries {
      assert Leaked(states[i], k) && KeepsLeak(pc, k);
    }
    SubsetCard(leaks, pc.entries.Keys);
    assert |pc.entries| == |pc.entries.Keys|;
  }

  lemma RunAppend(c: Config, states: seq<State>, moves: seq<Move>, s': State, m: Move)
    requires IsRun(c, states, moves) && Step(c, states[|moves|], s', m.pid, m.action)
    ensures IsRun(c, states + [s'], moves + [m]) && (states + [s'])[|moves + [m]|] == s'
  {
    forall i: nat | i < |moves + [m]| ensures StepAt(c, states + [s'], moves + [m], i) {
      if i < |moves| {
        assert StepAt(c, states, moves, i);
      }
    }
  }

  lemma LonePut(p: Pid, pc: Pc, pc': Pc)
    ensures (map[p := pc])[p := pc'] == map[p := pc']
  {
  }

  lemma LoneAfter(c: Config, s: State, index: Index, p: Pid, pc: Pc, a: Action) returns (s': State)
    requires s == State(index, map[], map[p := pc]) && Enabled(c, s, p, pc, a) && !a.Fill? && !a.Damage?
    ensures Step(c, s, s', p, a)
    ensures s' == State(IndexAfter(index, pc, a), map[], map[p := PcAfter(c, s, pc, a)])
  {
    s' := State(IndexAfter(index, pc, a), map[], map[p := PcAfter(c, s, pc, a)]);
    LonePut(p, pc, PcAfter(c, s, pc, a));
    LoneDirs(pc, a);
  }

  lemma LoneDirs(pc: Pc, a: Action)
    requires !a.Fill? && !a.Damage?
    ensures DirsAfter(map[], pc, a) == map[]
  {
  }

  /** The run goes on with an action of the only process there is, on an empty cache directory. */
  lemma LoneStep(c: Config, states: seq<State>, moves: seq<Move>, index: Index, p: Pid, pc: Pc, a: Action)
    returns (states': seq<State>, moves': seq<Move>)
    requires IsRun(c, states, moves) && states[|moves|] == State(index, map[], map[p := pc])
    requires Enabled(c, states[|moves|], p, pc, a) && !a.Fill? && !a.Damage?
    ensures IsRun(c, states', moves') && states'[0] == states[0]
    ensures states'[|moves'|]
         == State(IndexAfter(index, pc, a), map[], map[p := PcAfter(c, states[|moves|], pc, a)])
  {
    var s' := LoneAfter(c, states[|moves|], index, p, pc, a);
    RunAppend(c, states, moves, s', Move(p, a));
    states', moves' := states + [s'], moves + [Move(p, a)];
  }

  lemma LoneEnter(c: Config, p: Pid, k: Key) returns (states: seq<State>, moves: seq<Move>)
    ensures IsRun(c, states, moves) && states[0] == State(map[], map[], map[p := Outside])
    ensures states[|moves|] == State(map[], map[], map[p := AwaitItem(k)])
  {
    var none: Index := map[];
    states, moves := [State(none, map[], map[p := Outside])], [];
    states, moves := LoneStep(c, states, moves, none, p, Outside, Enter(k));
  }

  lemma LoneLock(c: Config, p: Pid, k: Key) returns (states: seq<State>, moves: seq<Move>)
    ensures IsRun(c, states, moves) && states[0] == State(map[], map[], map[p := Outside])
    ensures states[|moves|] == State(map[], map[], map[p := AwaitIndex(k)])
  {
    var none: Index := map[];
    states, moves := LoneEnter(c, p, k);
    states, moves := LoneStep(c, states, moves, none, p, AwaitItem(k), LockItem);
  }

  lemma LoneInspect(c: Config, p: Pid, k: Key) returns (states: seq<State>, moves: seq<Move>)
    ensures IsRun(c, states, moves) && states[0] == State(map[], map[], map[p := Outside])
    ensures states[|moves|] == State(map[], map[], map[p := Inspect(k)])
  {
    var none: Index := map[];
    states, moves := LoneLock(c, p, k);
    states, moves := LoneStep(c, states, moves, none, p, AwaitIndex(k), LockIndex);
  }

  /** How one comes about: a crash between writing the preparing entry and creating the directory. */
  lemma CrashLeaksEntry(c: Config, p: Pid, k: Key) returns (states: seq<State>, moves: seq<Move>)
    requires 0 < c.capacity
    ensures IsRun(c, states, moves) && states[0] == State(map[], map[], map[p := Outside])
    ensures Leaked(states[|moves|], k)
  {
    var none: Index := map[];
    assert none - {k} == none && none[k := Preparing] == map[k := Preparing];
    states, moves := LoneInspect(c, p, k);
    states, moves := LoneStep(c, states, moves, none, p, Inspect(k), ReadIndex);
    states, moves := LoneStep(c, states, moves, none, p, Reserve(k, none), WritePreparing);
    states, moves := LoneStep(c, states, moves, map[k := Preparing], p, Create(k), Crash);
  }

  // ---- How the locks are used ----

  function Usage(name: Name): FileLock.Policy {
    match name
    case ItemLock(_) => FileLock.Policy(false, true)
    case IndexLock => FileLock.Policy(true, false)
  }

  predicate Obeys(policy: FileLock.Policy, e: Event) {
    && (e.Acquire? && e.mode == Shared ==> policy.freshShared)
    && (e.Downgrade? ==> policy.relaxes)
  }

  function LockEvent(p: Pid, before: Option<RwLock.Mode>, after: Option<RwLock.Mode>): Event {
    if before == after then Stutter
    else if after.None? then Release(p)
    else if before.None? then Acquire(p, after.value)
    else Downgrade(p)
  }

  lemma AcquiringObeys(c: Config, s: State, pc: Pc, p: Pid, a: Action, n: Name)
    requires Fits(pc, a) && Acquires(a) && !pc.AwaitShared?
    ensures Obeys(Usage(n), LockEvent(p, Holds(pc, n), Holds(PcAfter(c, s, pc, a), n)))
  {
  }

  lemma KeepingObeys(pc: Pc, qc: Pc, p: Pid, n: Name)
    requires TakesNothing(pc, qc)
    ensures Obeys(Usage(n), LockEvent(p, Holds(pc, n), Holds(qc, n)))
  {
  }

  lemma UsageAfter(c: Config, s: State, p: Pid, a: Action, n: Name)
    requires p in s.procs && Enabled(c, s, p, s.procs[p], a) && !s.procs[p].AwaitShared?
    ensures Obeys(Usage(n), LockEvent(p, Holds(s.procs[p], n), Holds(PcAfter(c, s, s.procs[p], a), n)))
  {
    if Acquires(a) {
      AcquiringObeys(c, s, s.procs[p], p, a, n);
    } else {
      NothingTaken(c, s, s.procs[p], a);
      KeepingObeys(s.procs[p], PcAfter(c, s, s.procs[p], a), p, n);
    }
  }

  /** The lock once `p` holds it as stated */
  function Moved(lock: Lock, p: Pid, after: Option<RwLock.Mode>): Lock {
    if after.Some? then lock[p := after.value] else lock - {p}
  }

  lemma ViewAfter(s: State, s': State, p: Pid, pc': Pc, n: Name)
    requires p in s.procs && s'.procs == s.procs[p := pc']
    ensures View(s', n) == Moved(View(s, n), p, Holds(pc', n))
  {
  }

  lemma MovesLock(s: State, p: Pid, n: Name, before: Option<RwLock.Mode>, after: Option<RwLock.Mode>)
    requires p in s.procs && before == Holds(s.procs[p], n) && Follows(s, p, n, before, after)
    ensures Next(View(s, n), Moved(View(s, n), p, after), LockEvent(p, before, after))
  {
    if before == after {
      assert View(s, n) == Moved(View(s, n), p, after);
    }
  }

  /** Each step makes at most one move of each lock, and a legal one. */
  lemma StepMovesLock(c: Config, s: State, s': State, p: Pid, a: Action, n: Name)
    requires Step(c, s, s', p, a)
    ensures Next(View(s, n), View(s', n), LockEvent(p, Holds(s.procs[p], n), Holds(s'.procs[p], n)))
  {
    HeldAfter(c, s, p, a, n);
    ViewAfter(s, s', p, s'.procs[p], n);
    MovesLock(s, p, n, Holds(s.procs[p], n), Holds(s'.procs[p], n));
  }

  lemma StepKeepsItem(c: Config, s: State, p: Pid, a: Action)
    requires p in s.procs && Enabled(c, s, p, s.procs[p], a) && c.atomicRelax
    ensures !PcAfter(c, s, s.procs[p], a).AwaitShared? || s.procs[p].AwaitShared?
  {
  }

  lemma {:induction false} NeverLosesItem(c: Config, states: seq<State>, moves: seq<Move>, i: nat, p: Pid)
    requires IsRun(c, states, moves) && i <= |moves| && c.atomicRelax && p in states[i].procs
    ensures !states[i].procs[p].AwaitShared?
  {
    if i > 0 {
      var s, m := states[i - 1], moves[i - 1];
      RunSteps(c, states, moves, i - 1);
      NeverLosesItem(c, states, moves, i - 1, p);
      StepKeepsItem(c, s, m.pid, m.action);
      assert p != m.pid ==> states[i].procs[p] == s.procs[p];
    }
  }

  /** Where relaxing a lock is atomic, the cache uses each of its locks in one of the two ways for
      which `FileLock` is a lock: items are relaxed but never locked shared afresh, the index is
      locked shared afresh but never relaxed. */
  lemma LocksAreUsedSoundly(c: Config, states: seq<State>, moves: seq<Move>, i: nat, n: Name) returns (e: Event)
    requires IsRun(c, states, moves) && i < |moves| && c.atomicRelax
    ensures Next(View(states[i], n), View(states[i + 1], n), e)
    ensures Obeys(Usage(n), e) && FileLock.Sound(Usage(n))
  {
    var s, s', m := states[i], states[i + 1], moves[i];
    RunSteps(c, states, moves, i);
    e := LockEvent(m.pid, Holds(s.procs[m.pid], n), Holds(s'.procs[m.pid], n));
    StepMovesLock(c, s, s', m.pid, m.action, n);
    NeverLosesItem(c, states, moves, i, m.pid);
    UsageAfter(c, s, m.pid, m.action, n);
  }
}
