/** Who is served: a request on its own reaches its item exactly when the item is ready or fewer entries than
    the capacity are lost to crashes. */
module FileCacheServing {
  import opened RwLock
  import opened Wrappers
  import opened FileCache
  import opened FileCacheInvariant
  import opened FileCacheRuns
  import FileCacheWaiting

  // ---- Decisions ----

  /** The second look at the index: the item is yielded exactly when the index calls it ready, and otherwise
      the request starts again. */
  lemma ReadAgainExactly(c: Config, states: seq<State>, moves: seq<Move>, i: nat, p: Pid, key: Key)
    requires IsRun(c, states, moves) && i < |moves| && moves[i] == Move(p, ReadAgain)
    requires p in states[i].procs && states[i].procs[p] == Recheck(key)
    ensures p in states[i + 1].procs
    ensures states[i + 1].procs[p] == Read(key) <==> key in states[i].index && states[i].index[key] == Ready
    ensures states[i + 1].procs[p] == AwaitItem(key) <==> !(key in states[i].index && states[i].index[key] == Ready)
  {
    RunSteps(c, states, moves, i);
  }

  /** The first look: a ready item is not made again, a full index is cleaned up, and otherwise there is room. */
  lemma ReadIndexExactly(c: Config, states: seq<State>, moves: seq<Move>, i: nat, p: Pid, key: Key)
    requires IsRun(c, states, moves) && i < |moves| && moves[i] == Move(p, ReadIndex)
    requires p in states[i].procs && states[i].procs[p] == Inspect(key)
    ensures p in states[i + 1].procs
    ensures
      var index, pc := states[i].index, states[i + 1].procs[p];
      && (pc == Relax(key) <==> key in index && index[key] == Ready)
      && (pc == List(key, index - {key}, false) <==>
            !(key in index && index[key] == Ready) && |index - {key}| >= c.capacity)
      && (pc == Reserve(key, index - {key}) <==>
            !(key in index && index[key] == Ready) && |index - {key}| < c.capacity)
  {
    RunSteps(c, states, moves, i);
  }

  /** Full, with something ready to drop, after the first cleanup */
  predicate Drops(c: Config, w: Sweep) {
    |w.entries| >= c.capacity && !w.last && exists k :: k in w.entries && w.entries[k] == Ready
  }

  /** The ready entries dropped are the ones whose directories were modified least recently, and just as many as
      it takes to make room for one more. */
  ghost predicate DropsOldest(c: Config, dirs: map<Key, Dir>, e: Index, rest: Index) {
    && Within(rest, e)
    && |rest| == Max(c.capacity - 1, |e| - |ReadyKeys(e)|)
    && forall v | v in e && v !in rest ::
         e[v] == Ready && v in dirs && forall r | r in rest && e[r] == Ready && r in dirs ::
           dirs[v].mtime <= dirs[r].mtime
  }

  lemma RestCard(c: Config, e: Index, victims: set<Key>, dirs: map<Key, Dir>)
    requires c.capacity <= |e| && AreVictims(victims, e, dirs, |e| - c.capacity + 1)
    ensures |e - victims| == Max(c.capacity - 1, |e| - |ReadyKeys(e)|)
  {
    var rest := e - victims;
    assert rest.Keys == e.Keys - victims && victims <= e.Keys && |rest| == |rest.Keys| && |e| == |e.Keys|;
    assert |rest.Keys| == |e.Keys| - |victims|;
  }

  lemma VictimsAreOldest(c: Config, s: State, key: Key, w: Sweep, victims: set<Key>)
    requires PcInv(c, s, Visit(key, w)) && (forall k | IsReady(s.index, k) :: IsComplete(s.dirs, k))
    requires c.capacity <= |w.entries| && AreVictims(victims, w.entries, s.dirs, |w.entries| - c.capacity + 1)
    ensures DropsOldest(c, s.dirs, w.entries, w.entries - victims)
  {
    var e := w.entries;
    RestCard(c, e, victims, s.dirs);
    forall v | v in e && v in victims ensures v in s.dirs {
      assert IsReady(s.index, v);
    }
    forall v, r | v in victims && r in e && r !in victims && e[r] == Ready && r in s.dirs
      ensures s.dirs[v].mtime <= s.dirs[r].mtime
    {
      assert r in ReadyKeys(e) - victims;
      assert Mtime(s.dirs, v) <= Mtime(s.dirs, r);
    }
  }

  lemma NoVictims(c: Config, e: Index, victims: set<Key>, dirs: map<Key, Dir>)
    requires c.capacity <= |e| && AreVictims(victims, e, dirs, |e| - c.capacity + 1)
    ensures victims == {} <==> forall k | k in e :: e[k] != Ready
  {
    assert forall k | k in e && e[k] == Ready :: k in ReadyKeys(e);
    assert victims == {} ==> ReadyKeys(e) == {};
  }

  /** The end of a cleanup: room for the item is used, the oldest ready items are dropped for a second cleanup, and
      when that is not possible, the cache is exhausted. */
  lemma EndSweepExactly(c: Config, states: seq<State>, moves: seq<Move>, i: nat, p: Pid, key: Key, w: Sweep)
    requires IsRun(c, states, moves) && i < |moves| && moves[i].pid == p && moves[i].action.EndSweep?
    requires p in states[i].procs && states[i].procs[p] == Visit(key, w)
    ensures p in states[i + 1].procs && states[i + 1].index == w.entries && states[i + 1].dirs == states[i].dirs
    ensures
      var pc := states[i + 1].procs[p];
      && (pc == Reserve(key, w.entries) <==> |w.entries| < c.capacity)
      && (pc == Exhausted(key, w) <==> |w.entries| >= c.capacity && !Drops(c, w))
      && (pc.List? <==> Drops(c, w))
      && (pc.List? ==> pc.last && pc.key == key && DropsOldest(c, states[i].dirs, w.entries, pc.entries))
  {
    var s, victims := states[i], moves[i].action.victims;
    RunSteps(c, states, moves, i);
    RunKeepsInv(c, states, moves, i);
    assert PcInv(c, s, s.procs[p]);
    if |w.entries| >= c.capacity && !w.last {
      VictimsAreOldest(c, s, key, w, victims);
      NoVictims(c, w.entries, victims, s.dirs);
    }
  }

  /** Whoever reads an item found it ready when it last looked. */
  lemma ReadsAfterLooking(c: Config, s: State, s': State, p: Pid, a: Action, q: Pid, key: Key)
    requires Step(c, s, s', p, a) && q in s'.procs && s'.procs[q] == Read(key)
    ensures q in s.procs && (s.procs[q] == Read(key) || (s.procs[q] == Recheck(key) && IsReady(s.index, key)))
  {
    if q == p {
      OnlyReadAgainReads(c, s, s.procs[p], a);
    }
  }

  lemma OnlyReadAgainReads(c: Config, s: State, pc: Pc, a: Action)
    requires Fits(pc, a) && PcAfter(c, s, pc, a).Read?
    ensures a.ReadAgain? && pc.Recheck? && PcAfter(c, s, pc, a).key == pc.key && IsReady(s.index, pc.key)
  {
  }

  lemma OnlyTheseEnd(c: Config, s: State, pc: Pc, a: Action)
    requires Fits(pc, a) && pc != Outside && PcAfter(c, s, pc, a) == Outside && !a.Crash?
    ensures pc.Read? || pc.YieldNone? || pc.Exhausted?
  {
  }

  /** A request ends in one of three ways, crashes aside: with its item, complete on disk; with None, the index
      having no entry for it; or with an exception, the index being full of entries that are not ready. */
  lemma EndsInThreeWays(c: Config, states: seq<State>, moves: seq<Move>, i: nat, p: Pid)
    requires IsRun(c, states, moves) && i < |moves| && moves[i].pid == p && !moves[i].action.Crash?
    requires p in states[i].procs && states[i].procs[p] != Outside
    requires p in states[i + 1].procs && states[i + 1].procs[p] == Outside
    ensures
      var s, pc := states[i], states[i].procs[p];
      || (pc == Read(pc.key) && pc.key in s.dirs && s.dirs[pc.key].complete)
      || (pc == YieldNone(pc.key) && pc.key !in s.index)
      || (pc.Exhausted? && c.capacity <= |s.index| && forall k | k in s.index :: s.index[k] == Preparing)
  {
    RunSteps(c, states, moves, i);
    RunKeepsInv(c, states, moves, i);
    assert PcInv(c, states[i], states[i].procs[p]);
    OnlyTheseEnd(c, states[i], states[i].procs[p], moves[i].action);
    if states[i].procs[p].Exhausted? {
      ExhaustedMeans(c, states, moves, i, p);
    }
  }

  // ---- Runs of one process ----

  /** Nobody but `p` is in get_item. */
  ghost predicate Solo(s: State, p: Pid) {
    p in s.procs && forall q | q in s.procs && q != p :: s.procs[q] == Outside
  }

  lemma SoloGrants(s: State, p: Pid, pc: Pc, a: Action)
    requires Solo(s, p) && Fits(pc, a)
    ensures Grants(s, p, pc, a)
  {
  }

  /** Every step is one of `p`, which asks for `key` only. */
  predicate AsksFor(moves: seq<Move>, p: Pid, key: Key) {
    forall m | m in moves :: m.pid == p && (m.action.Enter? ==> m.action.key == key)
  }

  /** From `s`, `p` on its own has come to `t`. */
  ghost predicate Gets(c: Config, s: State, states: seq<State>, moves: seq<Move>, p: Pid, key: Key, t: State) {
    && IsRun(c, states, moves) && states[0] == s && states[|moves|] == t
    && AsksFor(moves, p, key) && Solo(t, p)
  }

  ghost predicate Reaches(c: Config, s: State, p: Pid, key: Key, t: State) {
    p in t.procs && exists states, moves :: Gets(c, s, states, moves, p, key, t)
  }

  lemma Starts(c: Config, s: State, p: Pid, key: Key)
    requires Init(s) && p in s.procs
    ensures Reaches(c, s, p, key, s)
  {
    assert IsRun(c, [s], []);
    assert Gets(c, s, [s], [], p, key, s);
  }

  lemma GoesOn(c: Config, s: State, p: Pid, key: Key, t: State, a: Action)
    requires Reaches(c, s, p, key, t) && (a.Enter? ==> a.key == key)
    requires p in t.procs && Fits(t.procs[p], a) && Allowed(c, t, t.procs[p], a)
    ensures Reaches(c, s, p, key, After(c, t, p, a)) && Solo(After(c, t, p, a), p)
  {
    var states, moves :| Gets(c, s, states, moves, p, key, t);
    var t' := After(c, t, p, a);
    SoloGrants(t, p, t.procs[p], a);
    RunAppend(c, states, moves, t', Move(p, a));
    assert Gets(c, s, states + [t'], moves + [Move(p, a)], p, key, t');
  }

  lemma ReachedInv(c: Config, s: State, p: Pid, key: Key, t: State)
    requires Reaches(c, s, p, key, t)
    ensures Inv(c, t) && Solo(t, p) && PcInv(c, t, t.procs[p])
  {
    var states, moves :| Gets(c, s, states, moves, p, key, t);
    RunKeepsInv(c, states, moves, |moves|);
  }

  /** The state with `p` at `pc`, everybody else outside */
  function At(s: State, index: Index, dirs: map<Key, Dir>, p: Pid, pc: Pc): State {
    State(index, dirs, s.procs[p := pc])
  }

  lemma Act(c: Config, s: State, p: Pid, key: Key, index: Index, dirs: map<Key, Dir>, pc: Pc, a: Action)
    requires Reaches(c, s, p, key, At(s, index, dirs, p, pc)) && (a.Enter? ==> a.key == key)
    requires Fits(pc, a) && Allowed(c, At(s, index, dirs, p, pc), pc, a)
    ensures Reaches(c, s, p, key, At(s, IndexAfter(index, pc, a), DirsAfter(dirs, pc, a), p,
                                     PcAfter(c, At(s, index, dirs, p, pc), pc, a)))
  {
    var t := At(s, index, dirs, p, pc);
    GoesOn(c, s, p, key, t, a);
    assert After(c, t, p, a).procs == s.procs[p := PcAfter(c, t, pc, a)];
  }

  lemma Enters(c: Config, s: State, p: Pid, key: Key)
    requires Init(s) && p in s.procs
    ensures Reaches(c, s, p, key, At(s, s.index, s.dirs, p, AwaitItem(key)))
  {
    Starts(c, s, p, key);
    assert s.procs[p := Outside] == s.procs;
    Act(c, s, p, key, s.index, s.dirs, Outside, Enter(key));
  }

  lemma Looks(c: Config, s: State, p: Pid, key: Key)
    requires Init(s) && p in s.procs
    ensures Reaches(c, s, p, key, At(s, s.index, s.dirs, p, Inspect(key)))
  {
    Enters(c, s, p, key);
    Act(c, s, p, key, s.index, s.dirs, AwaitItem(key), LockItem);
    Act(c, s, p, key, s.index, s.dirs, AwaitIndex(key), LockIndex);
  }

  lemma Reads(c: Config, s: State, p: Pid, key: Key, index: Index, dirs: map<Key, Dir>)
    requires Reaches(c, s, p, key, At(s, index, dirs, p, Relax(key))) && IsReady(index, key)
    ensures Reaches(c, s, p, key, At(s, index, dirs, p, Read(key)))
  {
    Act(c, s, p, key, index, dirs, Relax(key), RelaxItem);
    Act(c, s, p, key, index, dirs, AwaitRecheck(key), LockRecheck);
    Act(c, s, p, key, index, dirs, Recheck(key), ReadAgain);
  }

  /** A ready item is read, and nothing is changed for it. */
  lemma ReadyIsServed(c: Config, s: State, p: Pid, key: Key)
    requires Init(s) && p in s.procs && IsReady(s.index, key)
    ensures Reaches(c, s, p, key, At(s, s.index, s.dirs, p, Read(key)))
  {
    Looks(c, s, p, key);
    Act(c, s, p, key, s.index, s.dirs, Inspect(key), ReadIndex);
    Reads(c, s, p, key, s.index, s.dirs);
  }

  ghost predicate MayLose(c: Config, s: State, p: Pid, key: Key) {
    exists t :: Reaches(c, s, p, key, t) && t.procs[p] == AwaitShared(key)
  }

  /** A process that has found its item ready can lose it while it relaxes the lock exactly where relaxing is not
      atomic, which is why it looks at the index again. */
  lemma LosesExactly(c: Config, s: State, p: Pid, key: Key)
    requires Init(s) && p in s.procs && IsReady(s.index, key)
    ensures MayLose(c, s, p, key) <==> !c.atomicRelax
  {
    if c.atomicRelax {
      if t :| Reaches(c, s, p, key, t) && t.procs[p] == AwaitShared(key) {
        var states, moves :| Gets(c, s, states, moves, p, key, t);
        NeverLosesItem(c, states, moves, |moves|, p);
      }
    } else {
      Looks(c, s, p, key);
      Act(c, s, p, key, s.index, s.dirs, Inspect(key), ReadIndex);
      Act(c, s, p, key, s.index, s.dirs, Relax(key), LoseItem);
    }
  }

  // ---- Making an item ----

  lemma Creates(c: Config, s: State, p: Pid, key: Key, index: Index, dirs: map<Key, Dir>, made: bool)
    requires Reaches(c, s, p, key, At(s, index, dirs, p, Create(key))) && (made ==> IsComplete(dirs, key))
    ensures Reaches(c, s, p, key, At(s, index, dirs, p, Register(key, made)))
  {
    Act(c, s, p, key, index, dirs, Create(key), Created(made));
    Act(c, s, p, key, index, dirs, AwaitRegister(key, made), LockRegister);
  }

  /** Room for the item is reserved and its directory filled, and create_item returns. */
  lemma Fills(c: Config, s: State, p: Pid, key: Key, index: Index, dirs: map<Key, Dir>, entries: Index,
              content: Option<Dir>, made: bool)
    requires Reaches(c, s, p, key, At(s, index, dirs, p, Reserve(key, entries)))
    requires made ==> content.Some? && content.value.complete
    ensures
      Reaches(c, s, p, key, At(s, entries[key := Preparing], Overwrite(dirs, key, content), p, Register(key, made)))
  {
    Act(c, s, p, key, index, dirs, Reserve(key, entries), WritePreparing);
    Act(c, s, p, key, entries[key := Preparing], dirs, Create(key), Fill(content));
    Creates(c, s, p, key, entries[key := Preparing], Overwrite(dirs, key, content), made);
  }

  lemma MadeIsRead(c: Config, s: State, p: Pid, key: Key, index: Index, dirs: map<Key, Dir>)
    requires Reaches(c, s, p, key, At(s, index, dirs, p, Register(key, true)))
    ensures Reaches(c, s, p, key, At(s, index[key := Ready], dirs, p, Read(key)))
  {
    Act(c, s, p, key, index, dirs, Register(key, true), WriteOutcome);
    Reads(c, s, p, key, index[key := Ready], dirs);
  }

  lemma FailedIsDropped(c: Config, s: State, p: Pid, key: Key, index: Index, dirs: map<Key, Dir>)
    requires Reaches(c, s, p, key, At(s, index, dirs, p, Register(key, false)))
    ensures Reaches(c, s, p, key, At(s, index - {key}, dirs - {key}, p, YieldNone(key)))
  {
    Act(c, s, p, key, index, dirs, Register(key, false), WriteOutcome);
    Act(c, s, p, key, index - {key}, dirs, Discard(key), Discarded(true));
  }

  // ---- Making room ----

  /** Entries that crashes have left behind: preparing, and with no directory by which a cleanup would find
      them */
  function Leaks(s: State, key: Key): set<Key> {
    set k | k in s.index && k != key && s.index[k] == Preparing && k !in s.dirs
  }

  lemma DeletesOne(c: Config, s: State, p: Pid, key: Key, index: Index, dirs: map<Key, Dir>, w: Sweep, d: Key)
    requires Reaches(c, s, p, key, At(s, index, dirs, p, Claim(key, w, d)))
    ensures
      var e := w.entries - {d};
      Reaches(c, s, p, key, At(s, e, dirs - {d}, p, Visit(key, w.(entries := e, todo := w.todo - {d}))))
  {
    var e := w.entries - {d};
    Act(c, s, p, key, index, dirs, Claim(key, w, d), DropEntry);
    Act(c, s, p, key, e, dirs, Delete(key, w.(entries := e), d), Deleted(true));
  }

  /** A lone process visits one directory, which it leaves alone or deletes. */
  lemma VisitsOne(c: Config, s: State, p: Pid, key: Key, index: Index, dirs: map<Key, Dir>, w: Sweep, d: Key)
    returns (index': Index, dirs': map<Key, Dir>, entries': Index)
    requires Reaches(c, s, p, key, At(s, index, dirs, p, Visit(key, w))) && d in w.todo
    ensures Reaches(c, s, p, key, At(s, index', dirs', p, Visit(key, w.(entries := entries', todo := w.todo - {d}))))
  {
    if IsReady(w.entries, d) {
      Act(c, s, p, key, index, dirs, Visit(key, w), Skip(d));
      index', dirs', entries' := index, dirs, w.entries;
    } else {
      Act(c, s, p, key, index, dirs, Visit(key, w), Lock(d));
      DeletesOne(c, s, p, key, index, dirs, w, d);
      index', dirs', entries' := w.entries - {d}, dirs - {d}, w.entries - {d};
    }
  }

  lemma {:induction false} VisitsAll(c: Config, s: State, p: Pid, key: Key, index: Index, dirs: map<Key, Dir>, w: Sweep)
    returns (index': Index, dirs': map<Key, Dir>, entries': Index)
    requires Reaches(c, s, p, key, At(s, index, dirs, p, Visit(key, w)))
    ensures Reaches(c, s, p, key, At(s, index', dirs', p, Visit(key, w.(entries := entries', todo := {}))))
    decreases w.todo
  {
    if w.todo == {} {
      index', dirs', entries' := index, dirs, w.entries;
    } else {
      var d :| d in w.todo;
      index', dirs', entries' := VisitsOne(c, s, p, key, index, dirs, w, d);
      index', dirs', entries' :=
        VisitsAll(c, s, p, key, index', dirs', w.(entries := entries', todo := w.todo - {d}));
    }
  }

  lemma VisitsWhatItLists(c: Config, s: State, p: Pid, key: Key, index: Index, dirs: map<Key, Dir>, e: Index,
                          last: bool)
    returns (index': Index, dirs': map<Key, Dir>, entries: Index)
    requires Reaches(c, s, p, key, At(s, index, dirs, p, List(key, e, last)))
    ensures
      var w := Sweep(e, entries, dirs.Keys - {key}, {}, {}, last);
      Reaches(c, s, p, key, At(s, index', dirs', p, Visit(key, w)))
  {
    var found := dirs.Keys - {key};
    Act(c, s, p, key, index, dirs, List(key, e, last), ListDirs);
    index', dirs', entries := VisitsAll(c, s, p, key, index, dirs, Sweep(e, e, found, found, {}, last));
  }

  /** A cleanup by a lone process keeps exactly the ready entries and those without a directory. */
  lemma CleansUpAlone(c: Config, s: State, p: Pid, key: Key, index: Index, dirs: map<Key, Dir>, e: Index, last: bool)
    returns (index': Index, dirs': map<Key, Dir>, w: Sweep)
    requires Reaches(c, s, p, key, At(s, index, dirs, p, List(key, e, last)))
    ensures Reaches(c, s, p, key, At(s, index', dirs', p, Visit(key, w))) && w.todo == {} && w.last == last
    ensures w.entries == map k | k in e && (e[k] == Ready || k !in dirs || k == key) :: e[k]
    ensures last ==> Thinned(c, e)
  {
    var entries;
    index', dirs', entries := VisitsWhatItLists(c, s, p, key, index, dirs, e, last);
    w := Sweep(e, entries, dirs.Keys - {key}, {}, {}, last);
    ReachedInv(c, s, p, key, At(s, index', dirs', p, Visit(key, w)));
    assert SweepInv(c, key, w, w.listed - w.todo) && w.listed - w.todo == w.listed;
  }

  /** What a cleanup leaves of the entries of `s` when none of it is ready: entries left behind by crashes */
  lemma OnlyLeaksLeft(s: State, key: Key, e: Index)
    requires Within(e, s.index) && key !in e && ReadyKeys(e) == {}
    requires forall k | k in e && e[k] == Preparing :: k !in s.dirs
    ensures |e| <= |Leaks(s, key)|
  {
    forall k | k in e ensures k in Leaks(s, key) {
      assert k !in ReadyKeys(e);
    }
    SubsetCard(e.Keys, Leaks(s, key));
    assert |e| == |e.Keys|;
  }

  /** The cleanup of a lone process comes to an end: there is room, or ready items are dropped from the
      dictionary, or nothing but what crashes left behind was kept. */
  lemma EndsSweep(c: Config, s: State, p: Pid, key: Key, index: Index, dirs: map<Key, Dir>, w: Sweep)
    returns (rest: Index, room: bool)
    requires Reaches(c, s, p, key, At(s, index, dirs, p, Visit(key, w))) && w.todo == {}
    requires Within(w.entries, s.index) && key !in w.entries
    requires forall k | k in w.entries && w.entries[k] == Preparing :: k !in s.dirs
    requires |Leaks(s, key)| < c.capacity && (w.last ==> Thinned(c, w.entries))
    ensures Within(rest, w.entries) && (w.last ==> room)
    ensures Reaches(c, s, p, key, At(s, w.entries, dirs, p, if room then Reserve(key, rest) else List(key, rest, true)))
  {
    rest, room := w.entries, true;
    var victims := {};
    if c.capacity <= |w.entries| {
      if ReadyKeys(w.entries) == {} {
        OnlyLeaksLeft(s, key, w.entries);
      }
      victims := FileCacheWaiting.OldestExist(w.entries, dirs, |w.entries| - c.capacity + 1);
      rest, room := w.entries - victims, false;
    }
    Act(c, s, p, key, index, dirs, Visit(key, w), EndSweep(victims));
  }

  lemma KeptIsThin(c: Config, e: Index, kept: Index)
    requires Thinned(c, e) && Within(kept, e)
    ensures Thinned(c, kept)
  {
    SubmapCard(kept, e);
    assert ReadyKeys(kept) <= ReadyKeys(e);
  }

  /** A lone process that finds the index full makes room in one cleanup or two, unless too many entries were
      left behind by crashes. */
  lemma MakesRoomAlone(c: Config, s: State, p: Pid, key: Key)
    returns (index: Index, dirs: map<Key, Dir>, entries: Index)
    requires Reaches(c, s, p, key, At(s, s.index, s.dirs, p, List(key, s.index - {key}, false)))
    requires |Leaks(s, key)| < c.capacity
    ensures Reaches(c, s, p, key, At(s, index, dirs, p, Reserve(key, entries)))
  {
    var w, room;
    index, dirs, w := CleansUpAlone(c, s, p, key, s.index, s.dirs, s.index - {key}, false);
    entries, room := EndsSweep(c, s, p, key, index, dirs, w);
    index := w.entries;
    if !room {
      var e := entries;
      index, dirs, w := CleansUpAlone(c, s, p, key, index, dirs, e, true);
      KeptIsThin(c, e, w.entries);
      entries, room := EndsSweep(c, s, p, key, index, dirs, w);
      index := w.entries;
    }
  }

  lemma ReservesAlone(c: Config, s: State, p: Pid, key: Key)
    returns (index: Index, dirs: map<Key, Dir>, entries: Index)
    requires Init(s) && p in s.procs && !IsReady(s.index, key) && |Leaks(s, key)| < c.capacity
    ensures Reaches(c, s, p, key, At(s, index, dirs, p, Reserve(key, entries)))
  {
    Looks(c, s, p, key);
    Act(c, s, p, key, s.index, s.dirs, Inspect(key), ReadIndex);
    index, dirs, entries := s.index, s.dirs, s.index - {key};
    if |entries| >= c.capacity {
      index, dirs, entries := MakesRoomAlone(c, s, p, key);
    }
  }

  /** An item that is not ready is made: what create_item returns is read from a complete directory, and when
      it returns nothing, neither an entry nor a directory is left. */
  lemma MissingIsMade(c: Config, s: State, p: Pid, key: Key, made: bool) returns (t: State)
    requires Init(s) && p in s.procs && !IsReady(s.index, key) && |Leaks(s, key)| < c.capacity
    ensures Reaches(c, s, p, key, t) && p in t.procs
    ensures made ==> t.procs[p] == Read(key) && IsReady(t.index, key) && key in t.dirs && t.dirs[key].complete
    ensures !made ==> t.procs[p] == YieldNone(key) && key !in t.index && key !in t.dirs
  {
    var index, dirs, entries := ReservesAlone(c, s, p, key);
    var content := Some(Dir(true, 0));
    Fills(c, s, p, key, index, dirs, entries, content, made);
    var reserved, filled := entries[key := Preparing], Overwrite(dirs, key, content);
    if made {
      MadeIsRead(c, s, p, key, reserved, filled);
      t := At(s, reserved[key := Ready], filled, p, Read(key));
    } else {
      FailedIsDropped(c, s, p, key, reserved, filled);
      t := At(s, reserved - {key}, filled - {key}, p, YieldNone(key));
    }
  }

  // ---- When nothing new is served ----

  /** None of the keys is asked for. */
  predicate NoneAsked(moves: seq<Move>, keys: set<Key>) {
    forall m | m in moves && m.action.Enter? :: m.action.key !in keys
  }

  /** Nobody makes an item, and whatever is ready or read was ready in the beginning. */
  ghost predicate NothingNew(s: State, t: State) {
    && (forall k | IsReady(t.index, k) :: IsReady(s.index, k))
    && (forall p | p in t.procs :: !Makes(t.procs[p]) && (t.procs[p].Read? ==> IsReady(s.index, t.procs[p].key)))
  }

  lemma MakesAfter(c: Config, s: State, pc: Pc, a: Action)
    requires Fits(pc, a) && Makes(PcAfter(c, s, pc, a))
    ensures Makes(pc) || pc.Reserve?
  {
  }

  lemma StepServesNothingNew(c: Config, s: State, t: State, t': State, p: Pid, a: Action)
    requires Inv(c, t) && Step(c, t, t', p, a) && NothingNew(s, t) && !t.procs[p].Reserve?
    ensures NothingNew(s, t')
  {
    assert PcInv(c, t, t.procs[p]);
    forall k | IsReady(t'.index, k) ensures IsReady(s.index, k) {
      ReadyAfter(c, t, t.procs[p], a, k);
    }
    forall q | q in t'.procs
      ensures !Makes(t'.procs[q]) && (t'.procs[q].Read? ==> IsReady(s.index, t'.procs[q].key))
    {
      if q == p && Makes(t'.procs[q]) {
        MakesAfter(c, t, t.procs[p], a);
      } else if t'.procs[q].Read? {
        ReadsAfterLooking(c, t, t', p, a, q, t'.procs[q].key);
      }
    }
  }

  lemma LeaksStay(c: Config, states: seq<State>, moves: seq<Move>, key: Key, i: nat)
    requires IsRun(c, states, moves) && i <= |moves| && NoneAsked(moves, Leaks(states[0], key))
    ensures forall k | k in Leaks(states[0], key) :: Leaked(states[i], k)
  {
    forall k | k in Leaks(states[0], key) ensures Leaked(states[i], k) {
      assert Leaked(states[0], k);
      forall m | 0 <= m < i ensures moves[m].action != Enter(k) {
        assert moves[m] in moves;
      }
      LeakedEntryStays(c, states, moves, k, 0, i);
    }
  }

  /** Once crashes have left behind as many entries as the cache has room for, the ready items are read on, but
      no other item ever is, whoever asks for it and however often. */
  lemma {:induction false} FullOfLeaks(c: Config, states: seq<State>, moves: seq<Move>, key: Key, i: nat)
    requires IsRun(c, states, moves) && i <= |moves|
    requires NoneAsked(moves, Leaks(states[0], key)) && c.capacity <= |Leaks(states[0], key)|
    ensures NothingNew(states[0], states[i])
  {
    if i > 0 {
      var t, p := states[i - 1], moves[i - 1].pid;
      FullOfLeaks(c, states, moves, key, i - 1);
      LeaksStay(c, states, moves, key, i - 1);
      RunKeepsInv(c, states, moves, i - 1);
      RunSteps(c, states, moves, i - 1);
      if t.procs[p].Reserve? {
        LeaksExhaustCache(c, states, moves, i - 1, Leaks(states[0], key), p);
      }
      StepServesNothingNew(c, states[0], t, states[i], p, moves[i - 1].action);
    }
  }

  /** Some run of `p` on its own ends with the item being read. */
  ghost predicate Serves(c: Config, s: State, p: Pid, key: Key) {
    exists t :: Reaches(c, s, p, key, t) && t.procs[p] == Read(key)
  }

  lemma OnlyTheseAreServed(c: Config, s: State, p: Pid, key: Key, t: State)
    requires Reaches(c, s, p, key, t) && t.procs[p] == Read(key) && c.capacity <= |Leaks(s, key)|
    ensures IsReady(s.index, key)
  {
    var states, moves :| Gets(c, s, states, moves, p, key, t);
    FullOfLeaks(c, states, moves, key, |moves|);
  }

  /** A request on its own is served exactly when its item is ready, or crashes have left behind fewer entries
      of other items than the cache has room for. */
  lemma ServedExactly(c: Config, s: State, p: Pid, key: Key)
    requires Init(s) && p in s.procs
    ensures Serves(c, s, p, key) <==> IsReady(s.index, key) || |Leaks(s, key)| < c.capacity
  {
    if IsReady(s.index, key) {
      ReadyIsServed(c, s, p, key);
    } else if |Leaks(s, key)| < c.capacity {
      var t := MissingIsMade(c, s, p, key, true);
    } else if Serves(c, s, p, key) {
      var t :| Reaches(c, s, p, key, t) && t.procs[p] == Read(key);
      OnlyTheseAreServed(c, s, p, key, t);
    }
  }
}
