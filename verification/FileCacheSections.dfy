/** The parts of `get_item` that run under the exclusive index lock, statement by statement. The other
    processes appear only as the directories whose locks are refused. */
module FileCacheSections {
  import opened Wrappers
  import opened FileCache
  import opened FileCacheInvariant

  datatype Outcome = Found | Reserved | NoRoom

  /** What a cleanup leaves in the cache directory */
  function Spared(dirs: map<Key, Dir>, entries: Index, exclude: Key, busy: set<Key>): map<Key, Dir> {
    map d | d in dirs && (d == exclude || IsReady(entries, d) || d in busy) :: dirs[d]
  }

  /** `done` directories of a cleanup have been visited. */
  ghost predicate Cleaning(start: Index, dirs0: map<Key, Dir>, busy: set<Key>, done: set<Key>, entries: Index,
                           dirs: map<Key, Dir>) {
    && entries == Kept(start, done, busy)
    && dirs.Keys == set d | d in dirs0 && (d !in done || IsReady(start, d) || d in busy)
    && forall d | d in dirs :: d in dirs0 && dirs[d] == dirs0[d]
  }

  lemma CleaningStep(start: Index, dirs0: map<Key, Dir>, busy: set<Key>, done: set<Key>, entries: Index,
                     dirs: map<Key, Dir>, d: Key)
    requires Cleaning(start, dirs0, busy, done, entries, dirs) && d in dirs0 && d !in done
    ensures IsReady(entries, d) <==> IsReady(start, d)
    ensures IsReady(start, d) || d in busy ==> Cleaning(start, dirs0, busy, done + {d}, entries, dirs)
    ensures !IsReady(start, d) && d !in busy ==> Cleaning(start, dirs0, busy, done + {d}, entries - {d}, dirs - {d})
  {
  }

  /** The victims still to be picked are no older than those picked. */
  lemma MoreVictims(victims: set<Key>, entries: Index, dirs: map<Key, Dir>, count: nat, next: Key)
    requires AreVictims(victims, entries, dirs, count) && next in ReadyKeys(entries) - victims
    requires forall r | r in ReadyKeys(entries) - victims :: Mtime(dirs, next) <= Mtime(dirs, r)
    ensures AreVictims(victims + {next}, entries, dirs, count + 1)
  {
    VictimsLeft(victims, entries, dirs, count);
  }

  lemma VictimsLeft(victims: set<Key>, entries: Index, dirs: map<Key, Dir>, count: nat)
    requires AreVictims(victims, entries, dirs, count)
    ensures |ReadyKeys(entries) - victims| == |ReadyKeys(entries)| - |victims|
    ensures ReadyKeys(entries) - victims == {} ==> AreVictims(victims, entries, dirs, count + 1)
  {
  }

  lemma ThinAfterCleanup(c: Config, e: Index, left: Index)
    requires Thinned(c, e) && Within(left, e)
    ensures Thinned(c, left)
  {
    SubmapCard(left, e);
    assert ReadyKeys(left) <= ReadyKeys(e);
  }

  lemma NoVictims(entries: Index, victims: set<Key>, dirs: map<Key, Dir>, count: nat)
    requires AreVictims(victims, entries, dirs, count) && count > 0 && victims == {}
    ensures ReadyKeys(entries) == {}
  {
  }

  ghost predicate ReadyAreComplete(index: Index, dirs: map<Key, Dir>) {
    forall k | IsReady(index, k) :: IsComplete(dirs, k)
  }

  predicate OnlyReadyLeft(dirs: map<Key, Dir>, entries: Index, key: Key, busy: set<Key>) {
    forall d | d in dirs :: d == key || IsReady(entries, d) || d in busy
  }

  /** Making room spares the directories of what stays ready. */
  lemma RoomKeepsReady(index: Index, dirs: map<Key, Dir>, key: Key, entries: Index, dirs': map<Key, Dir>)
    requires ReadyAreComplete(index, dirs) && Within(entries, index - {key})
    requires forall d | d in dirs && (d == key || IsReady(entries, d)) :: d in dirs' && dirs'[d] == dirs[d]
    ensures ReadyAreComplete(entries, dirs') && ReadyAreComplete(entries[key := Preparing], dirs')
  {
    forall k | IsReady(entries, k) ensures IsComplete(dirs', k) {
      assert IsReady(index, k);
    }
  }

  lemma ReservedFits(c: Config, index: Index, entries: Index, key: Key)
    requires key !in entries && |entries| < c.capacity && Within(entries, index - {key})
    ensures |entries[key := Preparing]| <= c.capacity && entries[key := Preparing] - {key} == entries &&
        Within(entries, index)
  {
    assert entries[key := Preparing].Keys == entries.Keys + {key};
    assert |entries[key := Preparing].Keys| == |entries.Keys| + 1;
  }

  lemma OutcomeKeepsReady(index: Index, dirs: map<Key, Dir>, key: Key)
    requires ReadyAreComplete(index, dirs)
    ensures IsComplete(dirs, key) ==> ReadyAreComplete(index[key := Ready], dirs)
    ensures ReadyAreComplete(index - {key}, dirs - {key})
  {
    forall k | IsReady(index - {key}, k) ensures IsComplete(dirs - {key}, k) {
      assert IsReady(index, k);
    }
  }

  class Cache {
    const config: Config
    var index: Index
    var dirs: map<Key, Dir>

    constructor (config: Config)
      ensures this.config == config && index == map[] && dirs == map[]
    {
      this.config, index, dirs := config, map[], map[];
    }

    /** Removes what is neither ready nor locked by somebody else. */
    method CleanupItems(start: Index, exclude: Key, busy: set<Key>) returns (entries: Index)
      modifies this
      ensures entries == Kept(start, old(dirs).Keys - {exclude}, busy) && index == entries
      ensures dirs == Spared(old(dirs), start, exclude, busy)
    {
      entries := start;
      var todo := dirs.Keys - {exclude};
      ghost var done: set<Key> := {};
      while todo != {}
        invariant done + todo == old(dirs).Keys - {exclude} && done !! todo
        invariant Cleaning(start, old(dirs), busy, done, entries, dirs)
      {
        var dirent :| dirent in todo;
        CleaningStep(start, old(dirs), busy, done, entries, dirs, dirent);
        if !IsReady(entries, dirent) {
          if dirent !in busy {
            entries := entries - {dirent};
            index := entries;
            dirs := dirs - {dirent};
          }
        }
        todo, done := todo - {dirent}, done + {dirent};
      }
      index := entries;
      assert done == old(dirs).Keys - {exclude};
      assert dirs == Spared(old(dirs), start, exclude, busy);
    }

    /** sorted(ready, key=getmtime)[:count] */
    method FindVictims(entries: Index, count: nat) returns (victims: set<Key>)
      ensures AreVictims(victims, entries, dirs, count)
    {
      victims := {};
      var rest := ReadyKeys(entries);
      var n := 0;
      while n < count && rest != {}
        invariant n <= count && rest == ReadyKeys(entries) - victims
        invariant AreVictims(victims, entries, dirs, n)
      {
        var next := OldestOf(rest);
        MoreVictims(victims, entries, dirs, n, next);
        victims, rest, n := victims + {next}, rest - {next}, n + 1;
      }
      while n < count
        invariant n <= count && (n < count ==> ReadyKeys(entries) - victims == {})
        invariant AreVictims(victims, entries, dirs, n)
      {
        VictimsLeft(victims, entries, dirs, n);
        n := n + 1;
      }
    }

    method OldestOf(keys: set<Key>) returns (k: Key)
      requires keys != {}
      ensures k in keys && forall r | r in keys :: Mtime(dirs, k) <= Mtime(dirs, r)
    {
      k :| k in keys;
      var todo := keys - {k};
      while todo != {}
        invariant todo <= keys && k in keys && forall r | r in keys - todo :: Mtime(dirs, k) <= Mtime(dirs, r)
      {
        var r :| r in todo;
        todo := todo - {r};
        if Mtime(dirs, r) < Mtime(dirs, k) {
          k := r;
        }
      }
    }

    /** Drops ready entries, the oldest first, and their directories. */
    method DropVictims(start: Index, key: Key, busy: set<Key>) returns (entries: Index)
      requires config.capacity <= |start| && index == start
      modifies this
      ensures Within(entries, start) && Thinned(config, entries) && index == entries
      ensures if entries == start then dirs == old(dirs) || dirs == Spared(old(dirs), entries, key, busy)
              else dirs == Spared(old(dirs), entries, key, busy)
    {
      var victims := FindVictims(start, |start| - config.capacity + 1);
      VictimsThin(config, start, victims, dirs);
      entries := start - victims;
      if victims != {} {
        ghost var thin := entries;
        entries := CleanupItems(entries, key, busy);
        ThinAfterCleanup(config, thin, entries);
        assert forall d :: IsReady(entries, d) <==> IsReady(thin, d);
      } else {
        NoVictims(start, victims, dirs, |start| - config.capacity + 1);
        assert entries == start;
      }
    }

    /** Makes room for one more entry. A full dictionary is cleaned up: what is left of it is in the index
        file, and every directory without a ready entry is gone, but for the one asked for and those
        whose locks were refused. */
    method MakeRoom(start: Index, key: Key, busy1: set<Key>, busy2: set<Key>) returns (entries: Index)
      requires key !in start
      modifies this
      ensures Within(entries, start)
      ensures |entries| < config.capacity || ReadyKeys(entries) == {}
      ensures |start| >= config.capacity ==> index == entries && OnlyReadyLeft(dirs, entries, key, busy1 + busy2)
      ensures forall d | d in old(dirs) && (d == key || IsReady(entries, d)) :: d in dirs && dirs[d] == old(dirs)[d]
      ensures forall d | d in dirs :: d in old(dirs) && dirs[d] == old(dirs)[d]
      ensures |start| < config.capacity ==> entries == start && index == old(index) && dirs == old(dirs)
    {
      entries := start;
      if |entries| >= config.capacity {
        entries := CleanupItems(entries, key, busy1);
      }
      if |entries| >= config.capacity {
        SubmapCard(entries, start);
        entries := DropVictims(entries, key, busy2);
      }
    }

    /** From reading the index to writing the preparing entry */
    method Reserve(key: Key, busy1: set<Key>, busy2: set<Key>) returns (r: Outcome)
      requires ReadyAreComplete(index, dirs)
      modifies this
      ensures ReadyAreComplete(index, dirs)
      ensures r == Found <==> IsReady(old(index), key)
      ensures r == Found ==> index == old(index) && dirs == old(dirs)
      ensures r == Reserved ==>
                IsPreparing(index, key) && Within(index - {key}, old(index)) && |index| <= config.capacity
      ensures r == NoRoom ==>
                key !in index && Within(index, old(index)) && ReadyKeys(index) == {} && |index| >= config.capacity
      ensures r != Found && |old(index) - {key}| >= config.capacity ==>
                OnlyReadyLeft(dirs, index, key, busy1 + busy2)
      ensures r != Found && |old(index) - {key}| < config.capacity ==>
                dirs == old(dirs) && index == (old(index) - {key})[key := Preparing]
      ensures key in old(dirs) ==> key in dirs && dirs[key] == old(dirs)[key]
    {
      var entries := index;
      if IsReady(entries, key) {
        return Found;
      }
      entries := entries - {key};
      entries := MakeRoom(entries, key, busy1, busy2);
      RoomKeepsReady(old(index), old(dirs), key, entries, dirs);
      if |entries| >= config.capacity {
        return NoRoom;
      }
      ReservedFits(config, old(index), entries, key);
      index := entries[key := Preparing];
      return Reserved;
    }

    /** Registers the outcome of create_item. */
    method WriteOutcome(key: Key, made: bool)
      requires IsPreparing(index, key) && (made ==> IsComplete(dirs, key))
      requires ReadyAreComplete(index, dirs)
      modifies this
      ensures ReadyAreComplete(index, dirs)
      ensures index == IndexAfter(old(index), Register(key, made), Action.WriteOutcome)
      ensures if made then dirs == old(dirs) else dirs == old(dirs) - {key} && key !in index
    {
      OutcomeKeepsReady(index, dirs, key);
      var entries := index;
      if made {
        index := entries[key := Ready];
      } else {
        index := entries - {key};
        dirs := dirs - {key};
      }
    }
  }
}
