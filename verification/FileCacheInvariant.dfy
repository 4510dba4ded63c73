/** What holds in every reachable state of `FileCache`, and the proof that each step keeps it. */
module FileCacheInvariant {
  import opened RwLock
  import opened Wrappers
  import opened FileCache

  predicate Within(e: Index, f: Index) {
    forall k | k in e :: k in f && f[k] == e[k]
  }

  predicate IsPreparing(index: Index, k: Key) {
    k in index && index[k] == Preparing
  }

  /** The process has written the preparing entry of its item and not yet its outcome. */
  predicate Makes(pc: Pc) {
    pc.Create? || pc.AwaitRegister? || pc.Register?
  }

  /** The dictionary that the process is about to write to the index file. */
  function Draft(pc: Pc): Option<Index> {
    match pc
    case List(_, e, _) => Some(e)
    case Visit(_, sweep) => Some(sweep.entries)
    case Claim(_, sweep, _) => Some(sweep.entries)
    case Delete(_, sweep, _) => Some(sweep.entries)
    case Reserve(_, e) => Some(e)
    case Exhausted(_, sweep) => Some(sweep.entries)
    case _ => None
  }

  /** What is left of `start` once the directories in `done` have been visited: ready entries, and
      those whose directory was not visited or could not be locked. */
  function Kept(start: Index, done: set<Key>, refused: set<Key>): Index {
    map k | k in start && (start[k] == Ready || k !in done || k in refused) :: start[k]
  }

  /** Dropping the victims made room, unless there was no ready item left to drop. */
  predicate Thinned(c: Config, e: Index) {
    |e| < c.capacity || ReadyKeys(e) == {}
  }

  predicate SweepInv(c: Config, key: Key, w: Sweep, visited: set<Key>) {
    && w.todo <= w.listed
    && key !in w.listed
    && w.refused <= w.listed - w.todo
    && w.entries == Kept(w.start, visited, w.refused)
    && (w.last ==> Thinned(c, w.start))
  }

  predicate PcInv(c: Config, s: State, pc: Pc) {
    && (Draft(pc).Some? ==> Within(Draft(pc).value, s.index) && pc.key !in Draft(pc).value)
    && (Makes(pc) ==> IsPreparing(s.index, pc.key))
    && match pc
       case List(_, e, last) => last ==> Thinned(c, e)
       case Visit(key, w) => SweepInv(c, key, w, w.listed - w.todo)
       case Claim(key, w, d) => SweepInv(c, key, w, w.listed - w.todo) && d in w.todo && !IsReady(w.entries, d)
       case Delete(key, w, d) =>
         SweepInv(c, key, w, w.listed - w.todo + {d}) && d in w.todo && d !in w.entries && s.index == w.entries
       case Reserve(_, e) => |e| < c.capacity
       case Exhausted(key, w) =>
         && SweepInv(c, key, w, w.listed) && w.todo == {} && s.index == w.entries
         && c.capacity <= |w.entries| && ReadyKeys(w.entries) == {}
       case AwaitRegister(key, made) => made ==> IsComplete(s.dirs, key)
       case Register(key, made) => made ==> IsComplete(s.dirs, key)
       case Discard(key) => key !in s.index
       case YieldNone(key) => key !in s.index
       case Read(key) => IsComplete(s.dirs, key)
       case _ => true
  }

  /** Two processes do not hold one lock in conflicting modes. */
  ghost predicate Agree(pc: Pc, qc: Pc) {
    forall n: Name | Holds(pc, n).Some? && Holds(qc, n).Some? :: Compatible(Holds(pc, n).value, Holds(qc, n).value)
  }

  /** A draft of the index keeps the preparing entries of the other processes. */
  predicate Spares(pc: Pc, qc: Pc) {
    Draft(pc).Some? && Makes(qc) ==> qc.key in Draft(pc).value
  }

  ghost predicate Inv(c: Config, s: State) {
    && (forall k | IsReady(s.index, k) :: IsComplete(s.dirs, k))
    && (forall p | p in s.procs :: PcInv(c, s, s.procs[p]))
    && (forall p, q | p in s.procs && q in s.procs && p != q :: Agree(s.procs[p], s.procs[q]))
    && (forall p, q | p in s.procs && q in s.procs && p != q :: Spares(s.procs[p], s.procs[q]))
  }

  // ---- The proof that it does ----

  lemma IndexChange(index: Index, pc: Pc, a: Action)
    ensures IndexAfter(index, pc, a) != index ==> InIndex(pc)
  {
  }

  /** A step leaves alone every directory whose item lock the process does not hold exclusively. */
  lemma DirChange(dirs: map<Key, Dir>, pc: Pc, a: Action, k: Key)
    requires Holds(pc, ItemLock(k)) != Some(Exclusive)
    ensures k in DirsAfter(dirs, pc, a) <==> k in dirs
    ensures k in dirs ==> DirsAfter(dirs, pc, a)[k] == dirs[k]
  {
  }

  /** A step leaves alone the preparing entry of every other process that is making an item. */
  lemma ReservationSurvives(c: Config, s: State, p: Pid, q: Pid, a: Action)
    requires Inv(c, s) && p in s.procs && q in s.procs && p != q && Makes(s.procs[q])
    requires Enabled(c, s, p, s.procs[p], a)
    ensures IsPreparing(IndexAfter(s.index, s.procs[p], a), s.procs[q].key)
  {
    var pc, qc := s.procs[p], s.procs[q];
    assert Agree(pc, qc) && Spares(pc, qc);
    assert PcInv(c, s, pc) && PcInv(c, s, qc);
    assert Holds(qc, ItemLock(qc.key)) == Some(Exclusive);
    assert Holds(pc, ItemLock(qc.key)) == None;
  }

  /** A step leaves the locks of two processes compatible. */
  lemma StepKeepsAgree(c: Config, s: State, p: Pid, q: Pid, a: Action)
    requires p in s.procs && q in s.procs && p != q && Enabled(c, s, p, s.procs[p], a)
    requires Agree(s.procs[p], s.procs[q])
    ensures Agree(PcAfter(c, s, s.procs[p], a), s.procs[q])
    ensures Agree(s.procs[q], PcAfter(c, s, s.procs[p], a))
  {
    var pc, qc := s.procs[p], s.procs[q];
    var pc' := PcAfter(c, s, pc, a);
    forall n: Name | Holds(pc', n).Some? && Holds(qc, n).Some?
      ensures Compatible(Holds(pc', n).value, Holds(qc, n).value)
    {
      HeldAfter(c, s, p, a, n);
    }
  }

  predicate Acquires(a: Action) {
    a.LockItem? || a.LockIndex? || a.LockRegister? || a.LockShared? || a.LockRecheck? || a.Lock?
  }

  /** The lock is kept, given up, relaxed, or taken while free. */
  predicate Follows(s: State, p: Pid, n: Name, before: Option<RwLock.Mode>, after: Option<RwLock.Mode>) {
    || after.None? || after == before || (before == Some(Exclusive) && after == Some(Shared))
    || (before.None? && Free(s, p, n, after.value))
  }

  lemma HeldAfterAcquiring(c: Config, s: State, p: Pid, a: Action, n: Name)
    requires p in s.procs && Enabled(c, s, p, s.procs[p], a) && Acquires(a)
    ensures Follows(s, p, n, Holds(s.procs[p], n), Holds(PcAfter(c, s, s.procs[p], a), n))
  {
  }

  /** A cleanup keeps to the directories it has listed, and deletes the one it has locked. */
  lemma SweepAfter(c: Config, s: State, pc: Pc, a: Action)
    requires Fits(pc, a)
    ensures
      var qc := PcAfter(c, s, pc, a);
      && (Sweeps(qc) ==> if a.ListDirs? then qc.sweep.listed <= s.dirs.Keys
                         else Sweeps(pc) && qc.sweep.listed == pc.sweep.listed)
      && (Claims(qc) ==> if a.Lock? then qc.victim == a.dir else Claims(pc) && qc.victim == pc.victim)
  {
  }

  /** Whatever is held at `qc` is held at `pc`, too, perhaps in the stronger mode. */
  predicate TakesNothing(pc: Pc, qc: Pc) {
    && (InIndex(qc) ==> InIndex(pc))
    && (OwnsItem(qc) ==> OwnsItem(pc) && pc.key == qc.key)
    && (Claims(qc) ==> Claims(pc) && pc.victim == qc.victim)
    && (SharesItem(qc) ==> (SharesItem(pc) || pc.Relax?) && pc.key == qc.key)
    && !qc.Recheck?
  }

  /** The actions of a cleanup */
  predicate CleansUp(a: Action) {
    a.ListDirs? || a.Skip? || a.Refuse? || a.DropEntry? || a.Damage? || a.Deleted? || a.EndSweep?
  }

  predicate SameKey(pc: Pc, qc: Pc) {
    qc != Outside ==> pc != Outside && qc.key == pc.key
  }

  lemma CleanupKeepsKey(c: Config, s: State, pc: Pc, a: Action)
    requires Fits(pc, a) && CleansUp(a)
    ensures SameKey(pc, PcAfter(c, s, pc, a))
  {
  }

  lemma ReadingKeepsKey(c: Config, s: State, pc: Pc, a: Action)
    requires Fits(pc, a) && (a.ReadIndex? || a.ReadAgain?)
    ensures SameKey(pc, PcAfter(c, s, pc, a))
  {
  }

  /** A process asks for one item from entering to leaving. */
  lemma KeyAfter(c: Config, s: State, pc: Pc, a: Action)
    requires Fits(pc, a) && !a.Enter?
    ensures SameKey(pc, PcAfter(c, s, pc, a))
  {
    if CleansUp(a) {
      CleanupKeepsKey(c, s, pc, a);
    } else if a.ReadIndex? || a.ReadAgain? {
      ReadingKeepsKey(c, s, pc, a);
    }
  }

  lemma CleanupTakesNothing(c: Config, s: State, pc: Pc, a: Action)
    requires Fits(pc, a) && CleansUp(a)
    ensures TakesNothing(pc, PcAfter(c, s, pc, a))
  {
  }

  lemma ReadingTakesNothing(c: Config, s: State, pc: Pc, a: Action)
    requires Fits(pc, a) && a.ReadIndex?
    ensures TakesNothing(pc, PcAfter(c, s, pc, a))
  {
    ReadTakesNothing(pc.key, s.index - {pc.key});
  }

  lemma ReadTakesNothing(key: Key, e: Index)
    ensures TakesNothing(Inspect(key), Relax(key)) && TakesNothing(Inspect(key), List(key, e, false))
    ensures TakesNothing(Inspect(key), Reserve(key, e))
  {
  }

  lemma RereadingTakesNothing(c: Config, s: State, pc: Pc, a: Action)
    requires Fits(pc, a) && a.ReadAgain?
    ensures TakesNothing(pc, PcAfter(c, s, pc, a))
  {
  }

  lemma OthersTakeNothing(c: Config, s: State, pc: Pc, a: Action)
    requires Fits(pc, a) && !Acquires(a) && !CleansUp(a) && !a.ReadIndex? && !a.ReadAgain?
    ensures TakesNothing(pc, PcAfter(c, s, pc, a))
  {
  }

  lemma NothingTaken(c: Config, s: State, pc: Pc, a: Action)
    requires Fits(pc, a) && !Acquires(a)
    ensures TakesNothing(pc, PcAfter(c, s, pc, a))
  {
    if CleansUp(a) {
      CleanupTakesNothing(c, s, pc, a);
    } else if a.ReadIndex? {
      ReadingTakesNothing(c, s, pc, a);
    } else if a.ReadAgain? {
      RereadingTakesNothing(c, s, pc, a);
    } else {
      OthersTakeNothing(c, s, pc, a);
    }
  }

  lemma KeepsHeld(s: State, p: Pid, pc: Pc, qc: Pc, n: Name)
    requires TakesNothing(pc, qc)
    ensures Follows(s, p, n, Holds(pc, n), Holds(qc, n))
  {
  }

  /** An action takes a lock only when it is free. */
  lemma HeldAfter(c: Config, s: State, p: Pid, a: Action, n: Name)
    requires p in s.procs && Enabled(c, s, p, s.procs[p], a)
    ensures Follows(s, p, n, Holds(s.procs[p], n), Holds(PcAfter(c, s, s.procs[p], a), n))
  {
    if Acquires(a) {
      HeldAfterAcquiring(c, s, p, a, n);
    } else {
      NothingTaken(c, s, s.procs[p], a);
      KeepsHeld(s, p, s.procs[p], PcAfter(c, s, s.procs[p], a), n);
    }
  }

  /** A step of one process leaves another process's own facts true. */
  lemma StepKeepsOthers(c: Config, s: State, s': State, p: Pid, q: Pid, a: Action)
    requires Inv(c, s) && Step(c, s, s', p, a) && q in s.procs && q != p
    ensures PcInv(c, s', s.procs[q])
  {
    var pc, qc := s.procs[p], s.procs[q];
    assert Agree(pc, qc) && PcInv(c, s, qc);
    IndexChange(s.index, pc, a);
    if Makes(qc) {
      ReservationSurvives(c, s, p, q, a);
    }
    if InIndex(qc) {
      IndexIsHeld(pc, qc);
    }
    if (qc.AwaitRegister? && qc.made) || (qc.Register? && qc.made) || qc.Read? {
      ItemIsHeld(pc, qc);
      DirChange(s.dirs, pc, a, qc.key);
    }
  }

  lemma IndexIsHeld(pc: Pc, qc: Pc)
    requires Agree(pc, qc) && InIndex(qc)
    ensures !InIndex(pc)
  {
    assert Holds(qc, IndexLock) == Some(Exclusive);
  }

  lemma ItemIsHeld(pc: Pc, qc: Pc)
    requires Agree(pc, qc) && (qc.AwaitRegister? || qc.Register? || qc.Read?)
    ensures Holds(pc, ItemLock(qc.key)) != Some(Exclusive)
  {
    assert Holds(qc, ItemLock(qc.key)).Some?;
  }

  /** What the index calls ready afterwards it called so before, or the process has completed it. */
  lemma ReadyAfter(c: Config, s: State, pc: Pc, a: Action, k: Key)
    requires PcInv(c, s, pc) && Fits(pc, a) && IsReady(IndexAfter(s.index, pc, a), k)
    ensures IsReady(s.index, k) || (pc.Register? && pc.made && k == pc.key)
  {
  }

  /** The directories that a process changes belong to no ready item. */
  lemma OwnDirChange(c: Config, s: State, pc: Pc, a: Action, k: Key)
    requires PcInv(c, s, pc) && Fits(pc, a) && IsReady(IndexAfter(s.index, pc, a), k)
    ensures k in s.dirs ==> k in DirsAfter(s.dirs, pc, a) && DirsAfter(s.dirs, pc, a)[k] == s.dirs[k]
  {
    if pc.Create? {
      assert IsPreparing(s.index, pc.key);
    } else if pc.Discard? {
      assert pc.key !in s.index;
    } else if pc.Delete? {
      assert pc.victim !in s.index;
    }
  }

  lemma StepKeepsReadyComplete(c: Config, s: State, s': State, p: Pid, a: Action, k: Key)
    requires Inv(c, s) && Step(c, s, s', p, a) && IsReady(s'.index, k)
    ensures IsComplete(s'.dirs, k)
  {
    var pc := s.procs[p];
    assert PcInv(c, s, pc);
    ReadyAfter(c, s, pc, a, k);
    OwnDirChange(c, s, pc, a, k);
  }

  /** Where a draft comes from: the index, or the draft before it, perhaps with fewer entries. */
  predicate DraftFollows(s: State, pc: Pc, a: Action, d: Index) {
    || (a.ReadIndex? && pc.Inspect? && d == s.index - {pc.key})
    || (a.DropEntry? && pc.Claim? && d == pc.sweep.entries - {pc.victim})
    || (a.EndSweep? && pc.Visit? && a.victims <= ReadyKeys(pc.sweep.entries) && d == pc.sweep.entries - a.victims)
    || Draft(pc) == Some(d)
  }

  lemma DraftAfterSweep(c: Config, s: State, p: Pid, a: Action)
    requires p in s.procs && Enabled(c, s, p, s.procs[p], a) && a.EndSweep?
    ensures var d := Draft(PcAfter(c, s, s.procs[p], a)); d.Some? ==> DraftFollows(s, s.procs[p], a, d.value)
  {
  }

  lemma DraftAfter(c: Config, s: State, pc: Pc, a: Action)
    requires Fits(pc, a) && !a.EndSweep? && !a.ReadIndex?
    ensures var d := Draft(PcAfter(c, s, pc, a)); d.Some? ==> DraftFollows(s, pc, a, d.value)
  {
  }

  lemma DraftFollowsKeeps(c: Config, s: State, pc: Pc, a: Action, d: Index, k: Key)
    requires DraftFollows(s, pc, a, d) && PcInv(c, s, pc) && IsPreparing(s.index, k) && Holds(pc, ItemLock(k)) == None
    requires Draft(pc).Some? ==> k in Draft(pc).value
    ensures k in d
  {
    if Draft(pc).Some? {
      assert Within(Draft(pc).value, s.index);
    }
  }

  /** A process's draft of the index keeps the preparing entries of items that it has not locked. */
  lemma DraftKeeps(c: Config, s: State, p: Pid, a: Action, k: Key)
    requires p in s.procs && Enabled(c, s, p, s.procs[p], a) && PcInv(c, s, s.procs[p])
    requires IsPreparing(s.index, k) && Holds(s.procs[p], ItemLock(k)) == None
    requires Draft(s.procs[p]).Some? ==> k in Draft(s.procs[p]).value
    ensures var pc' := PcAfter(c, s, s.procs[p], a); Draft(pc').Some? ==> k in Draft(pc').value
  {
    if a.EndSweep? {
      DraftAfterSweep(c, s, p, a);
    } else if !a.ReadIndex? {
      DraftAfter(c, s, s.procs[p], a);
    }
    var d := Draft(PcAfter(c, s, s.procs[p], a));
    if d.Some? {
      DraftFollowsKeeps(c, s, s.procs[p], a, d.value, k);
    }
  }

  lemma StepKeepsSpares(c: Config, s: State, p: Pid, q: Pid, a: Action)
    requires Inv(c, s) && p in s.procs && q in s.procs && p != q && Enabled(c, s, p, s.procs[p], a)
    ensures Spares(PcAfter(c, s, s.procs[p], a), s.procs[q])
  {
    var pc, qc := s.procs[p], s.procs[q];
    assert Agree(pc, qc) && Spares(pc, qc);
    assert PcInv(c, s, qc) && PcInv(c, s, pc);
    if Makes(qc) {
      assert Holds(qc, ItemLock(qc.key)) == Some(Exclusive);
      assert Holds(pc, ItemLock(qc.key)) == None;
      DraftKeeps(c, s, p, a, qc.key);
    }
  }

  /** Nobody starts making an item while another process has a draft of the index. */
  lemma StepKeepsSpared(c: Config, s: State, p: Pid, q: Pid, a: Action)
    requires Inv(c, s) && p in s.procs && q in s.procs && p != q && Enabled(c, s, p, s.procs[p], a)
    ensures Spares(s.procs[q], PcAfter(c, s, s.procs[p], a))
  {
    var pc, qc := s.procs[p], s.procs[q];
    assert Agree(pc, qc) && Spares(qc, pc);
    if Draft(qc).Some? {
      assert Holds(qc, IndexLock) == Some(Exclusive);
      assert !InIndex(pc);
    }
  }

  /** Visiting a directory: it stays in the dictionary only if ready or refused. */
  lemma VisitedKeeps(c: Config, s: State, key: Key, w: Sweep, d: Key, refuse: bool)
    requires PcInv(c, s, Visit(key, w)) && d in w.todo && IsReady(w.entries, d) != refuse
    ensures PcInv(c, s, Visit(key, w.(todo := w.todo - {d}, refused := w.refused + if refuse then {d} else {})))
  {
    var w' := w.(todo := w.todo - {d}, refused := w.refused + if refuse then {d} else {});
    assert w'.listed - w'.todo == w.listed - w.todo + {d};
    assert w'.entries == Kept(w'.start, w'.listed - w'.todo, w'.refused);
  }

  lemma DeletedKeeps(c: Config, s: State, s': State, key: Key, w: Sweep, d: Key)
    requires PcInv(c, s, Delete(key, w, d)) && s'.index == s.index
    ensures PcInv(c, s', Visit(key, w.(todo := w.todo - {d})))
  {
    var w' := w.(todo := w.todo - {d});
    assert w'.listed - w'.todo == w.listed - w.todo + {d};
  }

  lemma DroppedKeeps(c: Config, s': State, key: Key, w: Sweep, d: Key)
    requires SweepInv(c, key, w, w.listed - w.todo) && d in w.todo && !IsReady(w.entries, d) && key !in w.entries
    requires s'.index == w.entries - {d}
    ensures PcInv(c, s', Delete(key, w.(entries := w.entries - {d}), d))
  {
    var w' := w.(entries := w.entries - {d});
    DroppedSweep(c, key, w, d);
    assert w'.listed - w'.todo + {d} == w.listed - w.todo + {d};
  }

  lemma DroppedSweep(c: Config, key: Key, w: Sweep, d: Key)
    requires SweepInv(c, key, w, w.listed - w.todo) && d in w.todo && !IsReady(w.entries, d)
    ensures SweepInv(c, key, w.(entries := w.entries - {d}), w.listed - w.todo + {d})
  {
    assert d !in w.refused && d !in w.listed - w.todo;
    DroppedIsKept(w.start, w.entries, w.listed - w.todo, w.refused, d);
  }

  lemma DroppedIsKept(start: Index, entries: Index, done: set<Key>, refused: set<Key>, d: Key)
    requires entries == Kept(start, done, refused) && !IsReady(entries, d) && d !in done && d !in refused
    ensures entries - {d} == Kept(start, done + {d}, refused)
  {
  }

  /** What a process knows depends on the disk alone. */
  lemma SameDisk(c: Config, s: State, s': State, pc: Pc)
    requires PcInv(c, s, pc) && s'.index == s.index && s'.dirs == s.dirs
    ensures PcInv(c, s', pc)
  {
  }

  lemma VisitKeepsOwn(c: Config, s: State, s': State, p: Pid, a: Action)
    requires Step(c, s, s', p, a) && PcInv(c, s, s.procs[p])
    requires a.Skip? || a.Refuse?
    ensures PcInv(c, s', s'.procs[p])
  {
    var key, w := s.procs[p].key, s.procs[p].sweep;
    VisitedKeeps(c, s, key, w, a.dir, a.Refuse?);
    assert w.refused + {} == w.refused;
    SameDisk(c, s, s', s'.procs[p]);
  }

  lemma DeleteKeepsOwn(c: Config, s: State, s': State, p: Pid, a: Action)
    requires Step(c, s, s', p, a) && PcInv(c, s, s.procs[p]) && a.Deleted?
    ensures PcInv(c, s', s'.procs[p])
  {
    DeletedKeeps(c, s, s', s.procs[p].key, s.procs[p].sweep, s.procs[p].victim);
  }

  lemma DropKeepsOwn(c: Config, s: State, s': State, p: Pid, a: Action)
    requires Step(c, s, s', p, a) && PcInv(c, s, s.procs[p]) && a.DropEntry?
    ensures PcInv(c, s', s'.procs[p])
  {
    DroppedKeeps(c, s', s.procs[p].key, s.procs[p].sweep, s.procs[p].victim);
  }

  lemma SubmapCard(e: Index, f: Index)
    requires Within(e, f)
    ensures |e| <= |f|
  {
    assert e.Keys <= f.Keys;
    SubsetCard(e.Keys, f.Keys);
    assert |e| == |e.Keys| && |f| == |f.Keys|;
  }

  lemma {:induction false} SubsetCard(a: set<Key>, b: set<Key>)
    requires a <= b
    ensures |a| <= |b|
  {
    if a != {} {
      var x :| x in a;
      SubsetCard(a - {x}, b - {x});
    }
  }

  /** Dropping the victims of a full dictionary thins it. */
  lemma VictimsThin(c: Config, e: Index, victims: set<Key>, dirs: map<Key, Dir>)
    requires c.capacity <= |e| && AreVictims(victims, e, dirs, |e| - c.capacity + 1)
    ensures Thinned(c, e - victims)
  {
    var count := |e| - c.capacity + 1;
    var rest := e - victims;
    assert rest.Keys == e.Keys - victims && victims <= e.Keys;
    assert |rest.Keys| == |e.Keys| - |victims|;
    if |victims| < count {
      var left := ReadyKeys(e) - victims;
      assert |left| == |ReadyKeys(e)| - |victims| == 0;
      assert ReadyKeys(rest) == left;
    }
  }

  /** A cleanup that leaves no room leaves no ready item either, or drops victims that make room. */
  lemma SweptIsThin(c: Config, w: Sweep, victims: set<Key>, dirs: map<Key, Dir>)
    requires w.entries == Kept(w.start, w.listed, w.refused) && (w.last ==> Thinned(c, w.start))
    requires c.capacity <= |w.entries| &&
        (!w.last ==> AreVictims(victims, w.entries, dirs, |w.entries| - c.capacity + 1))
    ensures w.last || victims == {} ==> ReadyKeys(w.entries) == {}
    ensures !w.last ==> Thinned(c, w.entries - victims)
  {
    if w.last {
      assert Within(w.entries, w.start);
      SubmapCard(w.entries, w.start);
      assert ReadyKeys(w.entries) <= ReadyKeys(w.start);
    } else {
      VictimsThin(c, w.entries, victims, dirs);
    }
  }

  lemma SweptKeeps(c: Config, s: State, s': State, key: Key, w: Sweep, victims: set<Key>)
    requires PcInv(c, s, Visit(key, w)) && w.todo == {} && s'.index == w.entries
    requires c.capacity <= |w.entries| && !w.last ==>
        AreVictims(victims, w.entries, s.dirs, |w.entries| - c.capacity + 1)
    ensures
      var e := w.entries;
      PcInv(c, s', if |e| < c.capacity then Reserve(key, e)
                   else if w.last || victims == {} then Exhausted(key, w) else List(key, e - victims, true))
  {
    assert w.listed - w.todo == w.listed;
    if c.capacity <= |w.entries| {
      SweptIsThin(c, w, victims, s.dirs);
    }
  }

  lemma EndSweepKeepsOwn(c: Config, s: State, s': State, p: Pid, a: Action)
    requires Step(c, s, s', p, a) && PcInv(c, s, s.procs[p]) && a.EndSweep?
    ensures PcInv(c, s', s'.procs[p])
  {
    SweptKeeps(c, s, s', s.procs[p].key, s.procs[p].sweep, a.victims);
  }

  lemma ListedKeeps(c: Config, s: State, key: Key, e: Index, found: set<Key>, last: bool)
    requires PcInv(c, s, List(key, e, last)) && key !in found
    ensures PcInv(c, s, Visit(key, Sweep(e, e, found, found, {}, last)))
  {
    assert e == Kept(e, {}, {});
    assert found - found == {};
  }

  lemma ListKeepsOwn(c: Config, s: State, s': State, p: Pid, a: Action)
    requires Step(c, s, s', p, a) && PcInv(c, s, s.procs[p]) && a.ListDirs?
    ensures PcInv(c, s', s'.procs[p])
  {
    var pc := s.procs[p];
    ListedKeeps(c, s, pc.key, pc.entries, s.dirs.Keys - {pc.key}, pc.last);
    SameDisk(c, s, s', s'.procs[p]);
  }

  /** After these a process knows nothing in particular. */
  predicate Forgets(a: Action) {
    a.Enter? || a.LockItem? || a.LockIndex? || a.RelaxItem? || a.LoseItem? || a.LockShared? || a.LockRecheck? ||
    a.Raise? || a.Leave? || a.Crash?
  }

  lemma ForgettingKeepsOwn(c: Config, s: State, s': State, p: Pid, a: Action)
    requires Step(c, s, s', p, a) && Forgets(a)
    ensures PcInv(c, s', s'.procs[p])
  {
  }

  lemma FreshDraftKeeps(c: Config, s: State, key: Key, e: Index)
    requires Within(e, s.index) && key !in e
    ensures PcInv(c, s, List(key, e, false)) && (|e| < c.capacity ==> PcInv(c, s, Reserve(key, e)))
  {
  }

  lemma IndexReadKeeps(c: Config, s: State, key: Key)
    ensures
      var e := s.index - {key};
      PcInv(c, s, if IsReady(s.index, key) then Relax(key) else if |e| >= c.capacity then List(key, e, false)
          else Reserve(key, e))
  {
    FreshDraftKeeps(c, s, key, s.index - {key});
  }

  lemma ReadingKeepsOwn(c: Config, s: State, s': State, p: Pid, a: Action)
    requires Step(c, s, s', p, a) && a.ReadIndex?
    ensures PcInv(c, s', s'.procs[p])
  {
    IndexReadKeeps(c, s, s.procs[p].key);
    SameDisk(c, s, s', s'.procs[p]);
  }

  lemma RecheckKeeps(c: Config, s: State, key: Key)
    requires IsReady(s.index, key) ==> IsComplete(s.dirs, key)
    ensures PcInv(c, s, if IsReady(s.index, key) then Read(key) else AwaitItem(key))
  {
  }

  lemma RereadingKeepsOwn(c: Config, s: State, s': State, p: Pid, a: Action)
    requires Step(c, s, s', p, a) && a.ReadAgain?
    requires forall k | IsReady(s.index, k) :: IsComplete(s.dirs, k)
    ensures PcInv(c, s', s'.procs[p])
  {
    RecheckKeeps(c, s, s.procs[p].key);
    SameDisk(c, s, s', s'.procs[p]);
  }

  lemma ClaimingKeepsOwn(c: Config, s: State, s': State, p: Pid, a: Action)
    requires Step(c, s, s', p, a) && PcInv(c, s, s.procs[p]) && (a.Lock? || a.Damage?)
    ensures PcInv(c, s', s'.procs[p])
  {
  }

  lemma MakingKeepsOwn(c: Config, s: State, s': State, p: Pid, a: Action)
    requires Step(c, s, s', p, a) && PcInv(c, s, s.procs[p])
    requires a.WritePreparing? || a.Fill? || a.Created? || a.LockRegister?
    ensures PcInv(c, s', s'.procs[p])
  {
  }

  lemma RegisteringKeepsOwn(c: Config, s: State, s': State, p: Pid, a: Action)
    requires Step(c, s, s', p, a) && PcInv(c, s, s.procs[p]) && (a.WriteOutcome? || a.Discarded?)
    ensures PcInv(c, s', s'.procs[p])
  {
  }

  lemma StepKeepsOwn(c: Config, s: State, s': State, p: Pid, a: Action)
    requires Inv(c, s) && Step(c, s, s', p, a)
    ensures PcInv(c, s', s'.procs[p])
  {
    assert PcInv(c, s, s.procs[p]);
    if a.Skip? || a.Refuse? {
      VisitKeepsOwn(c, s, s', p, a);
    } else if a.Deleted? {
      DeleteKeepsOwn(c, s, s', p, a);
    } else if a.DropEntry? {
      DropKeepsOwn(c, s, s', p, a);
    } else if a.EndSweep? {
      EndSweepKeepsOwn(c, s, s', p, a);
    } else if a.ListDirs? {
      ListKeepsOwn(c, s, s', p, a);
    } else if Forgets(a) {
      ForgettingKeepsOwn(c, s, s', p, a);
    } else if a.ReadIndex? {
      ReadingKeepsOwn(c, s, s', p, a);
    } else if a.ReadAgain? {
      RereadingKeepsOwn(c, s, s', p, a);
    } else if a.Lock? || a.Damage? {
      ClaimingKeepsOwn(c, s, s', p, a);
    } else if a.WriteOutcome? || a.Discarded? {
      RegisteringKeepsOwn(c, s, s', p, a);
    } else {
      MakingKeepsOwn(c, s, s', p, a);
    }
  }

  lemma StepKeepsInv(c: Config, s: State, s': State, p: Pid, a: Action)
    requires Inv(c, s) && Step(c, s, s', p, a)
    ensures Inv(c, s')
  {
    forall k | IsReady(s'.index, k) ensures IsComplete(s'.dirs, k) {
      StepKeepsReadyComplete(c, s, s', p, a, k);
    }
    StepKeepsOwn(c, s, s', p, a);
    forall q | q in s.procs && q != p
      ensures PcInv(c, s', s.procs[q])
      ensures Agree(s'.procs[p], s.procs[q]) && Agree(s.procs[q], s'.procs[p])
      ensures Spares(s'.procs[p], s.procs[q]) && Spares(s.procs[q], s'.procs[p])
    {
      StepKeepsOthers(c, s, s', p, q, a);
      StepKeepsAgree(c, s, p, q, a);
      StepKeepsSpares(c, s, p, q, a);
      StepKeepsSpared(c, s, p, q, a);
    }
  }
}
