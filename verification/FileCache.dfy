/** `FileCache.get_item` and `_cleanup_items` as run by any number of processes at once.

    Each step touches the shared disk at most once: it takes or lets go of locks, reads or renames the
    index file, lists, fills or deletes directories. Processes interleave freely and may crash anywhere.
    Locks are those of `RwLock`; who holds what follows from where the processes stand. */
module FileCache {
  import opened RwLock
  import opened Wrappers

  type Key = string

  datatype Entry = Preparing | Ready

  type Index = map<Key, Entry>

  /** An item's directory on disk; `complete` once create_item has returned the item. */
  datatype Dir = Dir(complete: bool, mtime: int)

  datatype Name = ItemLock(key: Key) | IndexLock

  /** One run of _cleanup_items: `start` is the dictionary it was given, `entries` what is left of it,
      `listed` the directories found, `todo` those not yet visited, `refused` those whose lock was
      not to be had; `last` when victims have already been dropped from the dictionary. */
  datatype Sweep = Sweep(
    start: Index, entries: Index, listed: set<Key>, todo: set<Key>, refused: set<Key>, last: bool)

  /** Where a process stands in get_item(key). */
  datatype Pc =
    | Outside
    | AwaitItem(key: Key)                              // for the item lock, exclusive
    | AwaitIndex(key: Key)                             // for the index lock, exclusive
    | Inspect(key: Key)                                // about to read the index
    | List(key: Key, entries: Index, last: bool)       // about to list the cache directory
    | Visit(key: Key, sweep: Sweep)                    // between two directories of a cleanup
    | Claim(key: Key, sweep: Sweep, victim: Key)       // has locked a directory to delete
    | Delete(key: Key, sweep: Sweep, victim: Key)      // deletes it
    | Reserve(key: Key, entries: Index)                // about to write the preparing entry
    | Exhausted(key: Key, sweep: Sweep)                // about to raise CacheExhaustedException
    | Create(key: Key)                                 // create_item runs
    | AwaitRegister(key: Key, made: bool)              // for the index lock, exclusive
    | Register(key: Key, made: bool)                   // about to write the outcome
    | Discard(key: Key)                                // deletes what create_item left behind
    | YieldNone(key: Key)                              // yields None
    | Relax(key: Key)                                  // about to relax the item lock
    | AwaitShared(key: Key)                            // lost the item lock while relaxing it
    | AwaitRecheck(key: Key)                           // for the index lock, shared
    | Recheck(key: Key)                                // about to read the index again
    | Read(key: Key)                                   // yields the item

  datatype State = State(index: Index, dirs: map<Key, Dir>, procs: map<Pid, Pc>)

  /** `atomicRelax` when relaxing a lock never lets go of it. */
  datatype Config = Config(capacity: nat, atomicRelax: bool)

  // ---- Locks ----

  predicate InIndex(pc: Pc) {
    pc.Inspect? || pc.List? || pc.Visit? || pc.Claim? || pc.Delete? || pc.Reserve? || pc.Exhausted? ||
    pc.Register? || pc.Discard? || pc.YieldNone?
  }

  predicate OwnsItem(pc: Pc) {
    InIndex(pc) || pc.AwaitIndex? || pc.Create? || pc.AwaitRegister? || pc.Relax?
  }

  predicate SharesItem(pc: Pc) {
    pc.AwaitRecheck? || pc.Recheck? || pc.Read?
  }

  function Holds(pc: Pc, name: Name): Option<Mode> {
    match name
    case IndexLock =>
      if InIndex(pc) then Some(Exclusive) else if pc.Recheck? then Some(Shared) else None
    case ItemLock(k) =>
      if OwnsItem(pc) && pc.key == k then Some(Exclusive)
      else if (pc.Claim? || pc.Delete?) && pc.victim == k then Some(Exclusive)
      else if SharesItem(pc) && pc.key == k then Some(Shared)
      else None
  }

  /** The lock called `name`, as its users see it. */
  function View(s: State, name: Name): Lock {
    map p | p in s.procs && Holds(s.procs[p], name).Some? :: Holds(s.procs[p], name).value
  }

  /** The lock is to be had: no other process holds it in a conflicting mode. */
  predicate Free(s: State, pid: Pid, name: Name, mode: Mode) {
    forall q | q in s.procs && q != pid && Holds(s.procs[q], name).Some? ::
      Compatible(mode, Holds(s.procs[q], name).value)
  }

  // ---- Local computation ----

  predicate IsReady(index: Index, k: Key) {
    k in index && index[k] == Ready
  }

  predicate IsComplete(dirs: map<Key, Dir>, k: Key) {
    k in dirs && dirs[k].complete
  }

  function ReadyKeys(index: Index): set<Key> {
    set k | k in index && index[k] == Ready
  }

  function Mtime(dirs: map<Key, Dir>, k: Key): int {
    if k in dirs then dirs[k].mtime else 0
  }

  /** The `count` least recently modified ready items, or all of them if there are fewer. */
  predicate AreVictims(victims: set<Key>, entries: Index, dirs: map<Key, Dir>, count: nat) {
    && victims <= ReadyKeys(entries)
    && |victims| == (if |ReadyKeys(entries)| < count then |ReadyKeys(entries)| else count)
    && forall v, r | v in victims && r in ReadyKeys(entries) - victims :: Mtime(dirs, v) <= Mtime(dirs, r)
  }

  /** The process is cleaning up. */
  predicate Sweeps(pc: Pc) {
    pc.Visit? || pc.Claim? || pc.Delete?
  }

  /** It holds the lock of a directory that it has found. */
  predicate Claims(pc: Pc) {
    pc.Claim? || pc.Delete?
  }

  // ---- Steps ----

  datatype Action =
    | Enter(key: Key) | LockItem | LockIndex | ReadIndex
    | ListDirs | Skip(dir: Key) | Refuse(dir: Key) | Lock(dir: Key)
    | DropEntry | Damage(left: Dir) | Deleted(gone: bool)
    | EndSweep(victims: set<Key>) | WritePreparing | Raise
    | Fill(content: Option<Dir>) | Created(made: bool) | LockRegister | WriteOutcome
    | Discarded(gone: bool) | RelaxItem | LoseItem | LockShared | LockRecheck | ReadAgain
    | Leave | Crash

  /** Whether the action belongs to where the process stands. */
  predicate Fits(pc: Pc, a: Action) {
    match a
    case Enter(_) => pc.Outside?
    case LockItem => pc.AwaitItem?
    case LockIndex => pc.AwaitIndex?
    case ReadIndex => pc.Inspect?
    case ListDirs => pc.List?
    case Skip(_) => pc.Visit?
    case Refuse(_) => pc.Visit?
    case Lock(_) => pc.Visit?
    case DropEntry => pc.Claim?
    case Damage(_) => pc.Delete? || pc.Discard?
    case Deleted(_) => pc.Delete?
    case EndSweep(_) => pc.Visit?
    case WritePreparing => pc.Reserve?
    case Raise => pc.Exhausted?
    case Fill(_) => pc.Create?
    case Created(_) => pc.Create?
    case LockRegister => pc.AwaitRegister?
    case WriteOutcome => pc.Register?
    case Discarded(_) => pc.Discard?
    case RelaxItem => pc.Relax?
    case LoseItem => pc.Relax?
    case LockShared => pc.AwaitShared?
    case LockRecheck => pc.AwaitRecheck?
    case ReadAgain => pc.Recheck?
    case Leave => pc.Read? || pc.YieldNone?
    case Crash => true
  }

  /** The lock that the action takes, and in which mode. */
  function Wanted(pc: Pc, a: Action): Option<(Name, Mode)>
    requires Fits(pc, a)
  {
    match a
    case LockItem => Some((ItemLock(pc.key), Exclusive))
    case LockIndex => Some((IndexLock, Exclusive))
    case Lock(d) => Some((ItemLock(d), Exclusive))
    case LockRegister => Some((IndexLock, Exclusive))
    case LockShared => Some((ItemLock(pc.key), Shared))
    case LockRecheck => Some((IndexLock, Shared))
    case _ => None
  }

  /** Whether directories and the process's own bookkeeping allow the action. */
  predicate Allowed(c: Config, s: State, pc: Pc, a: Action)
    requires Fits(pc, a)
  {
    match a
    case Skip(d) => d in pc.sweep.todo && IsReady(pc.sweep.entries, d)
    case Refuse(d) => d in pc.sweep.todo && !IsReady(pc.sweep.entries, d)
    case Lock(d) => d in pc.sweep.todo && !IsReady(pc.sweep.entries, d)
    case Damage(_) => if pc.Delete? then pc.victim in s.dirs else pc.key in s.dirs
    case EndSweep(victims) =>
      pc.sweep.todo == {} &&
      (c.capacity <= |pc.sweep.entries| && !pc.sweep.last ==>
        AreVictims(victims, pc.sweep.entries, s.dirs, |pc.sweep.entries| - c.capacity + 1))
    case Created(made) => made ==> IsComplete(s.dirs, pc.key)
    case LoseItem => !c.atomicRelax
    case _ => true
  }

  /** The lock that the action takes is to be had. */
  predicate Grants(s: State, p: Pid, pc: Pc, a: Action)
    requires Fits(pc, a)
  {
    match Wanted(pc, a)
    case Some((n, mode)) => Free(s, p, n, mode)
    case None => true
  }

  /** Whether a process that stands at `pc` may take the action. */
  predicate Enabled(c: Config, s: State, p: Pid, pc: Pc, a: Action) {
    Fits(pc, a) && Allowed(c, s, pc, a) && Grants(s, p, pc, a)
  }

  /** The index file after the action. */
  function IndexAfter(index: Index, pc: Pc, a: Action): Index {
    if a.DropEntry? && pc.Claim? then pc.sweep.entries - {pc.victim}
    else if a.EndSweep? && pc.Visit? then pc.sweep.entries
    else if a.WritePreparing? && pc.Reserve? then pc.entries[pc.key := Preparing]
    else if a.WriteOutcome? && pc.Register? then
      if pc.made then index[pc.key := Ready] else index - {pc.key}
    else index
  }

  function Overwrite(dirs: map<Key, Dir>, k: Key, content: Option<Dir>): map<Key, Dir> {
    if content.Some? then dirs[k := content.value] else dirs - {k}
  }

  /** The cache directory after the action. */
  function DirsAfter(dirs: map<Key, Dir>, pc: Pc, a: Action): map<Key, Dir> {
    if a.Damage? && pc.Delete? then dirs[pc.victim := a.left]
    else if a.Damage? && pc.Discard? then dirs[pc.key := a.left]
    else if a.Deleted? && pc.Delete? && a.gone then dirs - {pc.victim}
    else if a.Discarded? && pc.Discard? && a.gone then dirs - {pc.key}
    else if a.Fill? && pc.Create? then Overwrite(dirs, pc.key, a.content)
    else dirs
  }

  /** Where the process stands after the action. */
  function PcAfter(c: Config, s: State, pc: Pc, a: Action): Pc
    requires Fits(pc, a)
  {
    match a
    case Enter(key) => AwaitItem(key)
    case LockItem => AwaitIndex(pc.key)
    case LockIndex => Inspect(pc.key)
    case ReadIndex =>
      var e := s.index - {pc.key};
      if IsReady(s.index, pc.key) then Relax(pc.key)
      else if |e| >= c.capacity then List(pc.key, e, false)
      else Reserve(pc.key, e)
    case ListDirs =>
      var found := s.dirs.Keys - {pc.key};
      Visit(pc.key, Sweep(pc.entries, pc.entries, found, found, {}, pc.last))
    case Skip(d) => Visit(pc.key, pc.sweep.(todo := pc.sweep.todo - {d}))
    case Refuse(d) =>
      Visit(pc.key, pc.sweep.(todo := pc.sweep.todo - {d}, refused := pc.sweep.refused + {d}))
    case Lock(d) => Claim(pc.key, pc.sweep, d)
    case DropEntry => Delete(pc.key, pc.sweep.(entries := pc.sweep.entries - {pc.victim}), pc.victim)
    case Damage(_) => pc
    case Deleted(_) => Visit(pc.key, pc.sweep.(todo := pc.sweep.todo - {pc.victim}))
    case EndSweep(victims) =>
      var e := pc.sweep.entries;
      if |e| < c.capacity then Reserve(pc.key, e)
      else if pc.sweep.last || victims == {} then Exhausted(pc.key, pc.sweep)
      else List(pc.key, e - victims, true)
    case WritePreparing => Create(pc.key)
    case Raise => Outside
    case Fill(_) => pc
    case Created(made) => AwaitRegister(pc.key, made)
    case LockRegister => Register(pc.key, pc.made)
    case WriteOutcome => if pc.made then Relax(pc.key) else Discard(pc.key)
    case Discarded(_) => YieldNone(pc.key)
    case RelaxItem => AwaitRecheck(pc.key)
    case LoseItem => AwaitShared(pc.key)
    case LockShared => AwaitRecheck(pc.key)
    case LockRecheck => Recheck(pc.key)
    case ReadAgain => if IsReady(s.index, pc.key) then Read(pc.key) else AwaitItem(pc.key)
    case Leave => Outside
    case Crash => Outside
  }

  function After(c: Config, s: State, p: Pid, a: Action): State
    requires p in s.procs && Fits(s.procs[p], a)
  {
    var pc := s.procs[p];
    State(IndexAfter(s.index, pc, a), DirsAfter(s.dirs, pc, a), s.procs[p := PcAfter(c, s, pc, a)])
  }

  predicate Step(c: Config, s: State, s': State, p: Pid, a: Action) {
    p in s.procs && Enabled(c, s, p, s.procs[p], a) && s' == After(c, s, p, a)
  }
}
