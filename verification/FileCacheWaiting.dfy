/** Waiting in `FileCache`: no circle of processes waits, and somebody can always go on. */
module FileCacheWaiting {
  import opened RwLock
  import opened Wrappers
  import opened FileCache

  /** The lock that the process is waiting for. */
  function Awaits(pc: Pc): Option<(Name, RwLock.Mode)> {
    match pc
    case AwaitItem(k) => Some((ItemLock(k), Exclusive))
    case AwaitShared(k) => Some((ItemLock(k), Shared))
    case AwaitIndex(_) => Some((IndexLock, Exclusive))
    case AwaitRegister(_, _) => Some((IndexLock, Exclusive))
    case AwaitRecheck(_) => Some((IndexLock, Shared))
    case _ => None
  }

  predicate WaitsFor(s: State, p: Pid, q: Pid) {
    p in s.procs && q in s.procs && p != q &&
    var want := Awaits(s.procs[p]);
    want.Some? &&
    var have := Holds(s.procs[q], want.value.0);
    have.Some? && !Compatible(want.value.1, have.value)
  }

  /** Item lock, then index lock, then no waiting at all. */
  function Rank(pc: Pc): nat {
    match Awaits(pc)
    case None => 0
    case Some((IndexLock, _)) => 1
    case Some((ItemLock(_), _)) => 2
  }

  lemma WaitingDescends(s: State, p: Pid, q: Pid)
    requires WaitsFor(s, p, q)
    ensures Rank(s.procs[q]) < Rank(s.procs[p])
  {
  }

  lemma {:induction false} ChainDescends(s: State, chain: seq<Pid>, i: nat)
    requires i < |chain| && chain[0] in s.procs
    requires forall j | 0 <= j < |chain| - 1 :: WaitsFor(s, chain[j], chain[j + 1])
    ensures chain[i] in s.procs && (0 < i ==> Rank(s.procs[chain[i]]) < Rank(s.procs[chain[0]]))
  {
    if i > 0 {
      ChainDescends(s, chain, i - 1);
      assert WaitsFor(s, chain[i - 1], chain[i]);
      WaitingDescends(s, chain[i - 1], chain[i]);
    }
  }

  /** No processes wait for each other in a circle, in any state whatsoever: an item lock is awaited
      with empty hands, and whoever holds the index lock waits for nothing. */
  lemma NoCircularWait(s: State, chain: seq<Pid>)
    requires 1 < |chain| && forall j | 0 <= j < |chain| - 1 :: WaitsFor(s, chain[j], chain[j + 1])
    ensures chain[|chain| - 1] != chain[0]
  {
    assert WaitsFor(s, chain[0], chain[0 + 1]);
    ChainDescends(s, chain, |chain| - 1);
  }

  lemma {:induction false} OldestExist(entries: Index, dirs: map<Key, Dir>, count: nat) returns (victims: set<Key>)
    ensures AreVictims(victims, entries, dirs, count)
    decreases count
  {
    if count == 0 {
      victims := {};
    } else {
      victims := OldestExist(entries, dirs, count - 1);
      var rest := ReadyKeys(entries) - victims;
      assert |rest| == |ReadyKeys(entries)| - |victims|;
      if rest != {} {
        var next := Oldest(rest, dirs);
        victims := victims + {next};
      }
    }
  }

  lemma {:induction false} Oldest(keys: set<Key>, dirs: map<Key, Dir>) returns (k: Key)
    requires keys != {}
    ensures k in keys && forall r | r in keys :: Mtime(dirs, k) <= Mtime(dirs, r)
  {
    k :| k in keys;
    if keys != {k} {
      var other := Oldest(keys - {k}, dirs);
      if Mtime(dirs, other) < Mtime(dirs, k) {
        k := other;
      }
    }
  }

  /** The action moves its process on: it is neither a crash, nor a new request, nor idling in place. */
  predicate Advances(a: Action) {
    !a.Crash? && !a.Enter? && !a.Fill? && !a.Damage?
  }

  /** A process that waits for nothing has something to do. */
  lemma RunningCanMove(c: Config, s: State, p: Pid) returns (a: Action)
    requires p in s.procs && s.procs[p] != Outside && Awaits(s.procs[p]).None?
    ensures Enabled(c, s, p, s.procs[p], a) && Advances(a)
  {
    var pc := s.procs[p];
    match pc
    case Inspect(_) => a := ReadIndex;
    case List(_, _, _) => a := ListDirs;
    case Visit(_, w) =>
      if w.todo != {} {
        var d :| d in w.todo;
        a := if IsReady(w.entries, d) then Skip(d) else Action.Refuse(d);
      } else {
        var victims := {};
        if c.capacity <= |w.entries| {
          victims := OldestExist(w.entries, s.dirs, |w.entries| - c.capacity + 1);
        }
        a := EndSweep(victims);
      }
    case Claim(_, _, _) => a := DropEntry;
    case Delete(_, _, _) => a := Deleted(true);
    case Reserve(_, _) => a := WritePreparing;
    case Exhausted(_, _) => a := Raise;
    case Create(_) => a := Created(false);
    case Register(_, _) => a := WriteOutcome;
    case Discard(_) => a := Discarded(true);
    case YieldNone(_) => a := Leave;
    case Relax(_) => a := RelaxItem;
    case Recheck(_) => a := ReadAgain;
    case Read(_) => a := Leave;
  }

  /** A process whose lock is free, or who waits for none, can go on; any other waits for somebody. */
  lemma MovesOrWaits(c: Config, s: State, p: Pid) returns (a: Action, q: Pid)
    requires p in s.procs && s.procs[p] != Outside
    ensures WaitsFor(s, p, q) || (Enabled(c, s, p, s.procs[p], a) && Advances(a))
  {
    var pc := s.procs[p];
    a, q := Leave, p;
    if Awaits(pc).None? {
      a := RunningCanMove(c, s, p);
    } else {
      var (name, mode) := Awaits(pc).value;
      if Free(s, p, name, mode) {
        a := if pc.AwaitItem? then LockItem else if pc.AwaitShared? then LockShared
             else if pc.AwaitIndex? then LockIndex else if pc.AwaitRegister? then LockRegister else LockRecheck;
      } else {
        q :| q in s.procs && q != p && Holds(s.procs[q], name).Some? &&
            !Compatible(mode, Holds(s.procs[q], name).value);
      }
    }
  }

  /** The cache never grinds to a halt: as long as anybody is in get_item, somebody in it can go on. */
  lemma {:induction false} SomebodyCanMove(c: Config, s: State, p: Pid) returns (q: Pid, a: Action)
    requires p in s.procs && s.procs[p] != Outside
    ensures q in s.procs && Enabled(c, s, q, s.procs[q], a) && Advances(a)
    decreases Rank(s.procs[p])
  {
    q := p;
    var holder;
    a, holder := MovesOrWaits(c, s, p);
    if !(Enabled(c, s, p, s.procs[p], a) && Advances(a)) {
      WaitingDescends(s, p, holder);
      q, a := SomebodyCanMove(c, s, holder);
    }
  }
}
