/** `Resolver.create_dependency_changes`: the difference of two dependency lists as rows keyed by
    dependency name, and when those rows replay the second list from the first. */
module DependencyChanges {
  import opened Wrappers
  import opened DependencyCache

  datatype Installed = Installed(nevra: Nevra, distance: Option<nat>)

  /** A row of applied_change or unapplied_change, without its owner. */
  datatype Change = Change(prev: Option<DepId>, curr: Option<DepId>, distance: Option<nat>)

  function NevrasOf(deps: seq<Installed>): set<Nevra> {
    set d | d in deps :: d.nevra
  }

  ghost function Nevras(deps: set<Installed>): set<Nevra> {
    set d | d in deps :: d.nevra
  }

  /** The dependencies with a NEVRA that was not there before. */
  function Added(deps: seq<Installed>, before: set<Nevra>): (r: set<Installed>)
    ensures Nevras(r) == NevrasOf(deps) - before
  {
    var r := set d | d in deps && d.nevra !in before;
    assert forall n | n in NevrasOf(deps) - before :: n in Nevras(r) by {
      forall n | n in NevrasOf(deps) - before ensures n in Nevras(r) {
        var d :| d in deps && d.nevra == n;
        assert d in r;
      }
    }
    r
  }

  /** util.set_difference with the NEVRA as the key */
  function SetDifference(s1: seq<Installed>, s2: seq<Installed>): (r: set<Installed>)
    ensures forall d :: d in r <==> d in s1 && forall e | e in s2 :: e.nevra != d.nevra
    ensures Nevras(r) == NevrasOf(s1) - NevrasOf(s2)
  {
    var compset := NevrasOf(s2);
    Added(s1, compset)
  }

  ghost predicate OneName(nevras: set<Nevra>) {
    forall m, n | m in nevras && n in nevras && m.name == n.name :: m == n
  }

  ghost predicate HasName(nevras: set<Nevra>, name: string) {
    exists n :: n in nevras && n.name == name
  }

  /** The previous side of a change named `name`: a removed dependency of that name, if there is one. */
  ghost predicate PrevDescribes(table: Table, removed: set<Nevra>, name: string, c: Change) {
    match c.prev
    case Some(id) => id in table && table[id] in removed && table[id].name == name
    case None => !HasName(removed, name)
  }

  /** The current side: an added dependency of that name with its distance, if there is one. */
  ghost predicate CurrDescribes(table: Table, added: set<Installed>, name: string, c: Change) {
    match c.curr
    case Some(id) => id in table && table[id].name == name && Installed(table[id], c.distance) in added
    case None => c.distance.None? && forall d | d in added :: d.nevra.name != name
  }

  /** One change for each name among the removed and the added dependencies. */
  ghost predicate Describes(table: Table, removed: set<Nevra>, added: set<Installed>, changes: map<string, Change>) {
    && (forall n | n in changes ::
        PrevDescribes(table, removed, n, changes[n]) && CurrDescribes(table, added, n, changes[n])
                                   && (changes[n].prev.Some? || changes[n].curr.Some?))
    && (forall d | d in removed :: d.name in changes)
    && (forall d | d in added :: d.nevra.name in changes)
  }

  lemma DescribesExtends(table: Table, table': Table, removed: set<Nevra>, added: set<Installed>,
                         changes: map<string, Change>)
    requires Describes(table, removed, added, changes) && Extends(table, table')
    ensures Describes(table', removed, added, changes)
  {
  }

  lemma DescribesRemoved(table: Table, removed: set<Nevra>, changes: map<string, Change>, dep: Dep)
    requires Describes(table, removed, {}, changes) && IsRow(table, dep)
    ensures Describes(table, removed + {dep.nevra}, {}, changes[dep.nevra.name := Change(Some(dep.id), None, None)])
  {
    var removed' := removed + {dep.nevra};
    forall n | n in changes && n != dep.nevra.name ensures PrevDescribes(table, removed', n, changes[n]) {
      if HasName(removed', n) {
        assert HasName(removed, n);
      }
    }
  }

  lemma DescribesAdded(table: Table, removed: set<Nevra>, added: set<Installed>, changes: map<string, Change>,
                       dep: Dep, distance: Option<nat>)
    requires Describes(table, removed, added, changes) && IsRow(table, dep)
    ensures
      var name := dep.nevra.name;
      var prev := if name in changes then changes[name].prev else None;
      Describes(table, removed, added + {Installed(dep.nevra, distance)},
                changes[name := Change(prev, Some(dep.id), distance)])
  {
    var name := dep.nevra.name;
    assert name !in changes ==> !HasName(removed, name);
  }

  /** What the check constraint of the table demands of every row. */
  predicate RowAllowed(c: Change) {
    (if c.prev.Some? then c.prev.value else 0) != (if c.curr.Some? then c.curr.value else 0)
  }

  lemma DescribedRowsAllowed(table: Table, removed: set<Nevra>, added: set<Installed>, changes: map<string, Change>)
    requires OneToOne(table) && Describes(table, removed, added, changes)
    requires removed !! Nevras(added)
    ensures forall c | c in changes.Values :: RowAllowed(c)
  {
    forall c | c in changes.Values ensures RowAllowed(c) {
      var n :| n in changes && changes[n] == c;
      if c.prev.Some? && c.curr.Some? {
        assert Installed(table[c.curr.value], c.distance).nevra in Nevras(added);
      }
    }
  }

  lemma MoveNevra(removed: set<Nevra>, todo: set<Installed>, d: Installed)
    requires d in todo
    ensures removed + {d.nevra} + Nevras(todo - {d}) == removed + Nevras(todo)
  {
    var rest, all := Nevras(todo - {d}), Nevras(todo);
    forall n | n in all ensures n in {d.nevra} + rest {
      var e :| e in todo && e.nevra == n;
      assert e == d || e in todo - {d};
    }
  }

  lemma NothingLeft(removed: set<Nevra>, todo: set<Installed>)
    requires todo == {}
    ensures removed + Nevras(todo) == removed
  {
  }

  /** The first loop: a change for each name among the dependencies that went away. */
  method RecordRemoved(cache: Cache, gone: set<Installed>) returns (changes: map<string, Change>)
    requires cache.Valid()
    modifies cache
    ensures cache.Valid() && Extends(old(cache.table), cache.table)
    ensures Describes(cache.table, Nevras(gone), {}, changes)
  {
    changes := map[];
    var todo := gone;
    ghost var removed: set<Nevra> := {};
    while todo != {}
      invariant cache.Valid() && Extends(old(cache.table), cache.table)
      invariant Describes(cache.table, removed, {}, changes)
      invariant removed + Nevras(todo) == Nevras(gone)
    {
      var dependency :| dependency in todo;
      var rival: bool := *;
      ghost var was := cache.table;
      var dep := cache.GetOrCreateNevra(dependency.nevra, rival);
      DescribesExtends(was, cache.table, removed, {}, changes);
      DescribesRemoved(cache.table, removed, changes, dep);
      changes := changes[dependency.nevra.name := Change(Some(dep.id), None, None)];
      MoveNevra(removed, todo, dependency);
      removed, todo := removed + {dependency.nevra}, todo - {dependency};
    }
    NothingLeft(removed, todo);
  }

  /** The second loop: the current side of the changes of the dependencies that appeared. */
  method RecordAdded(cache: Cache, arrived: set<Installed>, started: map<string, Change>, ghost removed: set<Nevra>)
    returns (changes: map<string, Change>)
    requires cache.Valid() && Describes(cache.table, removed, {}, started)
    modifies cache
    ensures cache.Valid() && Extends(old(cache.table), cache.table)
    ensures Describes(cache.table, removed, arrived, changes)
  {
    changes := started;
    var todo := arrived;
    ghost var added: set<Installed> := {};
    while todo != {}
      invariant cache.Valid() && Extends(old(cache.table), cache.table)
      invariant Describes(cache.table, removed, added, changes)
      invariant added + todo == arrived
    {
      var dependency :| dependency in todo;
      var rival: bool := *;
      ghost var was := cache.table;
      var dep := cache.GetOrCreateNevra(dependency.nevra, rival);
      DescribesExtends(was, cache.table, removed, added, changes);
      DescribesAdded(cache.table, removed, added, changes, dep, dependency.distance);
      var name := dependency.nevra.name;
      var change := if name in changes then changes[name] else Change(None, None, None);
      changes := changes[name := change.(curr := Some(dep.id), distance := dependency.distance)];
      added, todo := added + {dependency}, todo - {dependency};
    }
  }

  method CreateDependencyChanges(cache: Cache, deps1: seq<Installed>, deps2: seq<Installed>)
    returns (changes: map<string, Change>)
    requires cache.Valid()
    modifies cache
    ensures cache.Valid() && Extends(old(cache.table), cache.table)
    ensures deps1 == [] || deps2 == [] ==> changes == map[]
    ensures deps1 != [] && deps2 != [] ==>
              Describes(cache.table, NevrasOf(deps1) - NevrasOf(deps2), Added(deps2, NevrasOf(deps1)), changes)
  {
    if deps1 == [] || deps2 == [] {
      return map[];
    }
    changes := RecordRemoved(cache, SetDifference(deps1, deps2));
    changes := RecordAdded(cache, SetDifference(deps2, deps1), changes, NevrasOf(deps1) - NevrasOf(deps2));
  }

  ghost function Prevs(table: Table, rows: set<Change>): set<Nevra> {
    set c | c in rows && c.prev.Some? && c.prev.value in table :: table[c.prev.value]
  }

  ghost function Currs(table: Table, rows: set<Change>): set<Nevra> {
    set c | c in rows && c.curr.Some? && c.curr.value in table :: table[c.curr.value]
  }

  /** The dependencies after the changes, told from those before. */
  ghost function Replay(table: Table, deps: set<Nevra>, rows: set<Change>): set<Nevra> {
    deps - Prevs(table, rows) + Currs(table, rows)
  }

  lemma ChangeIsValue(changes: map<string, Change>, n: string)
    requires n in changes
    ensures changes[n] in changes.Values
  {
  }

  lemma PrevsAreRemoved(table: Table, removed: set<Nevra>, added: set<Installed>, changes: map<string, Change>)
    requires Describes(table, removed, added, changes)
    ensures Prevs(table, changes.Values) <= removed
    ensures Prevs(table, changes.Values) == removed <==> OneName(removed)
  {
    var prevs := Prevs(table, changes.Values);
    forall p | p in prevs ensures p in removed && p.name in changes && changes[p.name].prev.Some?
                                  && table[changes[p.name].prev.value] == p {
      var c :| c in changes.Values && c.prev.Some? && c.prev.value in table && table[c.prev.value] == p;
      var n :| n in changes && changes[n] == c;
      assert PrevDescribes(table, removed, n, c);
    }
    if OneName(removed) {
      forall d | d in removed ensures d in prevs {
        assert HasName(removed, d.name) && PrevDescribes(table, removed, d.name, changes[d.name]);
        ChangeIsValue(changes, d.name);
      }
    }
  }

  lemma CurrsAreAdded(table: Table, removed: set<Nevra>, added: set<Installed>, changes: map<string, Change>)
    requires Describes(table, removed, added, changes)
    ensures Currs(table, changes.Values) <= Nevras(added)
    ensures Currs(table, changes.Values) == Nevras(added) <==> OneName(Nevras(added))
  {
    var currs := Currs(table, changes.Values);
    forall p | p in currs ensures p in Nevras(added) && p.name in changes && changes[p.name].curr.Some?
                                  && table[changes[p.name].curr.value] == p {
      var c :| c in changes.Values && c.curr.Some? && c.curr.value in table && table[c.curr.value] == p;
      var n :| n in changes && changes[n] == c;
      assert CurrDescribes(table, added, n, c);
      assert Installed(p, c.distance).nevra in Nevras(added);
    }
    if OneName(Nevras(added)) {
      forall d | d in added ensures d.nevra in currs {
        var c := changes[d.nevra.name];
        assert CurrDescribes(table, added, d.nevra.name, c);
        ChangeIsValue(changes, d.nevra.name);
        assert Installed(table[c.curr.value], c.distance).nevra in Nevras(added);
      }
    }
  }

  lemma ReplayInSets(before: set<Nevra>, after: set<Nevra>, prevs: set<Nevra>, currs: set<Nevra>)
    requires prevs <= before - after && currs <= after - before
    ensures before - prevs + currs == after <==> prevs == before - after && currs == after - before
  {
    if before - prevs + currs == after {
      forall n | n in before - after ensures n in prevs {
        assert n !in before - prevs + currs;
      }
      forall n | n in after - before ensures n in currs {
        assert n in before - prevs + currs;
      }
    }
  }

  /** The changes between two lists replay the second from the first exactly when no two of the
      removed dependencies share a name and no two of the added ones do. */
  lemma DiffReplaysExactly(table: Table, before: set<Nevra>, deps: seq<Installed>, changes: map<string, Change>)
    requires Describes(table, before - NevrasOf(deps), Added(deps, before), changes)
    ensures Replay(table, before, changes.Values) == NevrasOf(deps) <==>
              (OneName(before - NevrasOf(deps)) && OneName(NevrasOf(deps) - before))
  {
    var removed, added := before - NevrasOf(deps), Added(deps, before);
    PrevsAreRemoved(table, removed, added, changes);
    CurrsAreAdded(table, removed, added, changes);
    ReplayInSets(before, NevrasOf(deps), Prevs(table, changes.Values), Currs(table, changes.Values));
  }

  /** Two removed dependencies of one name: only one of them gets into the row of that name, so that the
      rows do not replay the second list. */
  lemma TwoOfOneName() returns (table: Table, before: set<Nevra>, deps: seq<Installed>, changes: map<string, Change>)
    ensures Describes(table, before - NevrasOf(deps), Added(deps, before), changes)
    ensures Replay(table, before, changes.Values) != NevrasOf(deps)
  {
    var old1, old2 := Nevra("kernel", None, "1", "1", "noarch"), Nevra("kernel", None, "2", "1", "noarch");
    var other := Nevra("bash", None, "1", "1", "noarch");
    table := map[1 := old1, 2 := old2, 3 := other];
    before, deps := {old1, old2, other}, [Installed(other, None)];
    changes := map["kernel" := Change(Some(1), None, None)];
    assert NevrasOf(deps) == {other} by {
      assert deps[0] in deps;
    }
    var removed := before - NevrasOf(deps);
    assert old1 in removed && old2 in removed && Added(deps, before) == {};
    assert Describes(table, removed, {}, changes);
    assert !OneName(removed);
    DiffReplaysExactly(table, before, deps, changes);
  }
}
