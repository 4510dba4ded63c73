/** `DependencyCache`: a least-recently-used cache over the dependency table, indexed both by id and by
    NEVRA. */
module DependencyCache {
  import opened Wrappers
  import opened Recency

  type DepId = nat

  datatype Nevra = Nevra(name: string, epoch: Option<int>, version: string, release: string, arch: string)

  datatype Dep = Dep(id: DepId, nevra: Nevra)

  type Table = map<DepId, Nevra>

  /** Ids are positive and NEVRAs unique. */
  predicate OneToOne(table: Table) {
    && (forall i | i in table :: i > 0)
    && (forall i, j | i in table && j in table && table[i] == table[j] :: i == j)
  }

  predicate IsRow(table: Table, d: Dep) {
    d.id in table && table[d.id] == d.nevra
  }

  /** The two indexes hold the same rows. */
  ghost predicate Indexes(ids: seq<Dep>, nevras: map<Nevra, Dep>) {
    && (forall d | d in ids :: d.nevra in nevras && nevras[d.nevra] == d)
    && (forall n | n in nevras :: nevras[n] in ids && nevras[n].nevra == n)
  }

  /** Rows of one table with one id or one NEVRA are one row. */
  lemma RowsAreKeyed(table: Table, d: Dep, e: Dep)
    requires OneToOne(table) && IsRow(table, d) && IsRow(table, e)
    ensures (d.id == e.id || d.nevra == e.nevra) ==> d == e
  {
  }

  /** The indexes hold the most recently used rows, as many as the capacity allows. */
  ghost predicate Coherent(table: Table, capacity: nat, uses: seq<Dep>, ids: seq<Dep>, nevras: map<Nevra, Dep>) {
    && (forall d | d in uses :: IsRow(table, d))
    && ids == Tail(Recent(uses), capacity)
    && Indexes(ids, nevras)
  }

  lemma CoherentIds(table: Table, capacity: nat, uses: seq<Dep>, ids: seq<Dep>, nevras: map<Nevra, Dep>)
    requires Coherent(table, capacity, uses, ids, nevras)
    ensures IsDistinct(Recent(uses)) && IsDistinct(ids) && |ids| <= capacity
    ensures forall d | d in ids :: d in uses && IsRow(table, d)
  {
    RecentDistinct(uses);
    TailDistinct(Recent(uses), capacity);
    forall d | d in ids ensures d in uses {
      assert d in Recent(uses);
    }
  }

  lemma AccessKeeps(table: Table, capacity: nat, uses: seq<Dep>, ids: seq<Dep>, nevras: map<Nevra, Dep>, dep: Dep)
    requires Coherent(table, capacity, uses, ids, nevras) && dep in ids
    ensures Coherent(table, capacity, uses + [dep], Without(ids, dep) + [dep], nevras)
  {
    CoherentIds(table, capacity, uses, ids, nevras);
    UseInTail(Recent(uses), capacity, dep);
    RecentSnoc(uses, dep);
    var ids' := Without(ids, dep) + [dep];
    assert forall d :: d in ids' <==> d in ids;
  }

  /** Both indexes without their least recently used row. */
  lemma CompactKeeps(ids: seq<Dep>, nevras: map<Nevra, Dep>)
    requires ids != [] && IsDistinct(ids) && Indexes(ids, nevras)
    ensures ids[0].nevra in nevras && Indexes(ids[1..], nevras - {ids[0].nevra})
  {
    var rest, nevras' := ids[1..], nevras - {ids[0].nevra};
    forall d | d in rest ensures d.nevra in nevras' && nevras'[d.nevra] == d {
      assert d in ids && d != ids[0];
    }
    forall n | n in nevras' ensures nevras'[n] in rest {
      assert nevras[n] in ids && nevras[n] != ids[0];
    }
  }

  lemma AddIndexes(table: Table, ids: seq<Dep>, nevras: map<Nevra, Dep>, dep: Dep)
    requires OneToOne(table) && Indexes(ids, nevras) && dep !in ids && IsRow(table, dep) && IsDistinct(ids)
    requires forall d | d in ids :: IsRow(table, d)
    ensures Indexes(ids + [dep], nevras[dep.nevra := dep]) && IsDistinct(ids + [dep])
    ensures forall d | d in ids :: d.id != dep.id
  {
    forall d | d in ids ensures d.id != dep.id && d.nevra != dep.nevra {
      RowsAreKeyed(table, d, dep);
    }
  }

  function AddedIds(capacity: nat, ids: seq<Dep>, dep: Dep): seq<Dep> {
    if |ids| + 1 > capacity then (ids + [dep])[1..] else ids + [dep]
  }

  function AddedNevras(capacity: nat, ids: seq<Dep>, nevras: map<Nevra, Dep>, dep: Dep): map<Nevra, Dep> {
    var grown := nevras[dep.nevra := dep];
    if |ids| + 1 > capacity then grown - {(ids + [dep])[0].nevra} else grown
  }

  lemma AddKeeps(table: Table, capacity: nat, uses: seq<Dep>, ids: seq<Dep>, nevras: map<Nevra, Dep>, dep: Dep)
    requires OneToOne(table) && Coherent(table, capacity, uses, ids, nevras) && dep !in ids && IsRow(table, dep)
    ensures Coherent(table, capacity, uses + [dep], AddedIds(capacity, ids, dep),
        AddedNevras(capacity, ids, nevras, dep))
    ensures forall d | d in AddedIds(capacity, ids, dep) :: d in ids || d == dep
    ensures IsDistinct(ids + [dep]) && Indexes(ids + [dep], nevras[dep.nevra := dep])
    ensures (ids + [dep])[0].nevra in nevras[dep.nevra := dep]
  {
    CoherentIds(table, capacity, uses, ids, nevras);
    AddIndexes(table, ids, nevras, dep);
    CompactKeeps(ids + [dep], nevras[dep.nevra := dep]);
    UseOutsideTail(Recent(uses), capacity, dep);
    RecentSnoc(uses, dep);
  }

  predicate Extends(table: Table, table': Table) {
    forall i | i in table :: i in table' && table'[i] == table[i]
  }

  lemma InTable(table: Table, d: Dep)
    requires IsRow(table, d)
    ensures d.nevra in table.Values
  {
  }

  lemma InValues(table: Table, id: DepId, nevra: Nevra)
    requires id in table && table[id] == nevra
    ensures nevra in table.Values
  {
  }

  lemma NotCached(ids: seq<Dep>, nevras: map<Nevra, Dep>, dep: Dep)
    requires Indexes(ids, nevras) && dep.nevra !in nevras
    ensures dep !in ids
  {
  }

  /** A new row leaves everything cached as it is. */
  lemma GrowKeeps(table: Table, id: DepId, nevra: Nevra, capacity: nat, uses: seq<Dep>, ids: seq<Dep>,
                  nevras: map<Nevra, Dep>)
    requires OneToOne(table) && 0 < id && id !in table && nevra !in table.Values
    requires Coherent(table, capacity, uses, ids, nevras)
    ensures OneToOne(table[id := nevra]) && Coherent(table[id := nevra], capacity, uses, ids, nevras)
  {
    forall i | i in table ensures table[i] != nevra {
      assert table[i] in table.Values;
    }
  }

  /** self.ids.get(id) */
  function Find(ids: seq<Dep>, id: DepId): (r: Option<Dep>)
    ensures r.Some? ==> r.value in ids && r.value.id == id
    ensures r.None? ==> forall d | d in ids :: d.id != id
  {
    if ids == [] then None else if ids[0].id == id then Some(ids[0]) else Find(ids[1..], id)
  }

  predicate Absent(ids: seq<Dep>, keys: seq<DepId>) {
    forall d | d in ids :: d.id !in keys
  }

  /** Each key has its row among `res` or is in `missing`, and not both. */
  ghost predicate Sorted(table: Table, keys: seq<DepId>, res: seq<Dep>, missing: seq<DepId>) {
    && (forall d | d in res :: IsRow(table, d) && d.id in keys && d.id !in missing)
    && (forall k | k in missing :: k in keys)
    && (forall k | k in keys :: k in missing || (k in table && Dep(k, table[k]) in res))
    && (IsDistinct(keys) ==> IsDistinct(res))
  }

  /** What get_by_ids has done with the first `n` of its `keys`. */
  ghost predicate Taking(table: Table, ids: seq<Dep>, before: seq<Dep>, uses: seq<Dep>,
                         keys: seq<DepId>, n: nat, res: seq<Dep>, missing: seq<DepId>) {
    && n <= |keys| && |res| + |missing| == n
    && uses == before + res && (forall d | d in res :: d in ids)
    && Sorted(table, keys[..n], res, missing) && Absent(ids, missing)
  }

  lemma TakingStep(keys: seq<DepId>, n: nat)
    requires n < |keys|
    ensures keys[..n + 1] == keys[..n] + [keys[n]]
    ensures IsDistinct(keys[..n + 1]) ==> IsDistinct(keys[..n]) && keys[n] !in keys[..n]
  {
    if IsDistinct(keys[..n + 1]) {
      forall i, j | 0 <= i < j < n ensures keys[..n][i] != keys[..n][j] {
        assert keys[..n + 1][i] != keys[..n + 1][j];
      }
      forall i | 0 <= i < n ensures keys[i] != keys[n] {
        assert keys[..n + 1][i] != keys[..n + 1][n];
      }
    }
  }

  lemma TakingMiss(table: Table, ids: seq<Dep>, before: seq<Dep>, uses: seq<Dep>,
                   keys: seq<DepId>, n: nat, res: seq<Dep>, missing: seq<DepId>)
    requires Taking(table, ids, before, uses, keys, n, res, missing)
    requires n < |keys| && forall d | d in ids :: d.id != keys[n]
    ensures Taking(table, ids, before, uses, keys, n + 1, res, missing + [keys[n]])
  {
    TakingStep(keys, n);
  }

  lemma TakingHit(table: Table, ids: seq<Dep>, before: seq<Dep>, uses: seq<Dep>,
                  keys: seq<DepId>, n: nat, res: seq<Dep>, missing: seq<DepId>, dep: Dep, ids': seq<Dep>)
    requires Taking(table, ids, before, uses, keys, n, res, missing)
    requires n < |keys| && dep in ids && dep.id == keys[n] && IsRow(table, dep)
    requires forall d :: d in ids' <==> d in ids
    ensures Taking(table, ids', before, uses + [dep], keys, n + 1, res + [dep], missing)
  {
    TakingStep(keys, n);
    assert uses + [dep] == before + (res + [dep]);
  }

  lemma TakingNone(table: Table, ids: seq<Dep>, uses: seq<Dep>, keys: seq<DepId>)
    ensures Taking(table, ids, uses, uses, keys, 0, [], [])
  {
    assert uses + [] == uses;
  }

  lemma TakingAll(table: Table, ids: seq<Dep>, before: seq<Dep>, uses: seq<Dep>, keys: seq<DepId>, res: seq<Dep>,
                  missing: seq<DepId>)
    requires Taking(table, ids, before, uses, keys, |keys|, res, missing)
    ensures uses == before + res && Sorted(table, keys, res, missing) && Absent(ids, missing)
    ensures |res| + |missing| == |keys|
  {
    assert keys[..|keys|] == keys;
  }

  /** `rows` are the rows of the table with an id in `ids`, in some order. */
  ghost predicate Selects(table: Table, ids: seq<DepId>, rows: seq<Dep>) {
    && IsDistinct(rows)
    && (forall d :: d in rows <==> IsRow(table, d) && d.id in ids)
  }

  /** The answer to a query for `keys`: a row for each key that has one, and nothing else. */
  ghost predicate Answers(table: Table, keys: seq<DepId>, res: seq<Dep>) {
    && (forall d | d in res :: IsRow(table, d) && d.id in keys)
    && (forall k | k in keys && k in table :: Dep(k, table[k]) in res)
    && (IsDistinct(keys) ==> IsDistinct(res))
  }

  lemma CachedAndStoredAnswer(table: Table, keys: seq<DepId>, cached: seq<Dep>, missing: seq<DepId>, rows: seq<Dep>)
    requires Sorted(table, keys, cached, missing) && Selects(table, missing, rows)
    ensures Answers(table, keys, cached + rows)
    ensures cached + rows == [] <==> forall k | k in keys :: k !in table
  {
    forall k | k in keys && k in table ensures Dep(k, table[k]) in cached + rows {
      if k in missing {
        assert Dep(k, table[k]) in rows;
      }
    }
    var all := cached + rows;
    if all != [] {
      assert all[0] in all;
    }
    if IsDistinct(keys) {
      forall i, j | 0 <= i < j < |all| ensures all[i] != all[j] {
        if i < |cached| <= j {
          assert all[i] in cached && all[j] in rows;
        }
      }
    }
  }

  lemma RowsLeft(rows: seq<Dep>, n: nat, before: seq<Dep>, ids: seq<Dep>)
    requires IsDistinct(rows) && n < |rows| && (forall d | d in before :: d !in rows[n..])
    requires forall d | d in ids :: d in before || d == rows[n]
    ensures forall d | d in ids :: d !in rows[n + 1..]
  {
    forall d | d in ids ensures d !in rows[n + 1..] {
      assert forall i | n + 1 <= i < |rows| :: rows[i] in rows[n..] && rows[i] != rows[n];
    }
  }

  /** SELECT … WHERE id IN ids, which promises no order. */
  method Select(table: Table, ids: seq<DepId>) returns (rows: seq<Dep>)
    ensures Selects(table, ids, rows)
  {
    rows := [];
    var todo := set i | i in ids && i in table;
    while todo != {}
      invariant todo <= set i | i in ids && i in table
      invariant IsDistinct(rows)
      invariant forall d :: d in rows <==> IsRow(table, d) && d.id in ids && d.id !in todo
    {
      var id :| id in todo;
      todo := todo - {id};
      rows := rows + [Dep(id, table[id])];
    }
  }

  lemma Concat3(a: seq<Dep>, b: seq<Dep>, c: seq<Dep>)
    ensures a + b + c == a + (b + c) && a + [] == a
  {
  }

  /** The rows of the first `n` NEVRAs, in their order */
  ghost predicate Created(table: Table, nevras: seq<Nevra>, n: nat, res: seq<Dep>) {
    |res| == n <= |nevras| && forall j | 0 <= j < n :: IsRow(table, res[j]) && res[j].nevra == nevras[j]
  }

  lemma CreatedOneMore(table: Table, table': Table, nevras: seq<Nevra>, n: nat, res: seq<Dep>, dep: Dep)
    requires Created(table, nevras, n, res) && Extends(table, table') && n < |nevras|
    requires IsRow(table', dep) && dep.nevra == nevras[n]
    ensures Created(table', nevras, n + 1, res + [dep])
  {
  }

  lemma PrefixOneMore<T>(s: seq<T>, n: nat)
    requires n < |s|
    ensures s[..n + 1] == s[..n] + [s[n]]
  {
  }

  class Cache {
    const capacity: nat
    var table: Table
    var sequence: nat
    var nevras: map<Nevra, Dep>
    var ids: seq<Dep>         // an OrderedDict keyed by id, first entry first
    var hits: nat
    var misses: nat
    var inserts: nat
    ghost var uses: seq<Dep>  // every row looked up, in order

    ghost predicate Valid()
      reads this
    {
      && OneToOne(table) && (forall i | i in table :: i < sequence) && 0 < sequence
      && Coherent(table, capacity, uses, ids, nevras)
    }

    constructor (capacity: nat, table: Table, sequence: nat)
      requires OneToOne(table) && 0 < sequence && forall i | i in table :: i < sequence
      ensures Valid() && this.table == table && this.capacity == capacity && uses == [] && ids == []
    {
      this.capacity, this.table, this.sequence := capacity, table, sequence;
      nevras, ids, hits, misses, inserts, uses := map[], [], 0, 0, 0, [];
    }

    /** del self.ids[dep.id]; self.ids[dep.id] = dep */
    method Access(dep: Dep)
      requires Valid() && dep in ids
      modifies this`ids, this`uses
      ensures Valid() && uses == old(uses) + [dep]
      ensures forall d :: d in ids <==> d in old(ids)
    {
      AccessKeeps(table, capacity, uses, ids, nevras, dep);
      ids := Without(ids, dep) + [dep];
      uses := uses + [dep];
    }

    /** Removes the least recently used row from both indexes, where it always is. */
    method Compact()
      requires ids != [] && IsDistinct(ids) && Indexes(ids, nevras)
      modifies this`ids, this`nevras
      ensures Indexes(ids, nevras)
      ensures old(ids)[0].nevra in old(nevras)
      ensures ids == old(ids)[1..] && nevras == old(nevras) - {old(ids)[0].nevra}
    {
      CompactKeeps(ids, nevras);
      var victim := ids[0];
      ids := ids[1..];
      nevras := nevras - {victim.nevra};
    }

    /** _add on the two indexes */
    method Index(dep: Dep)
      requires IsDistinct(ids + [dep]) && Indexes(ids + [dep], nevras[dep.nevra := dep])
      modifies this`ids, this`nevras
      ensures ids == AddedIds(capacity, old(ids), dep)
      ensures nevras == AddedNevras(capacity, old(ids), old(nevras), dep)
    {
      ids := ids + [dep];
      nevras := nevras[dep.nevra := dep];
      if |ids| > capacity {
        Compact();
      }
    }

    method Add(dep: Dep)
      requires Valid() && dep !in ids && IsRow(table, dep)
      modifies this`ids, this`nevras, this`uses
      ensures Valid() && uses == old(uses) + [dep]
      ensures forall d | d in ids :: d in old(ids) || d == dep
    {
      AddKeeps(table, capacity, uses, ids, nevras, dep);
      Index(dep);
      uses := uses + [dep];
    }

    /** The row with that NEVRA, stored or inserted now; None for an IntegrityError, when a rival
        transaction inserts the NEVRA between the query and the insertion. */
    method QueryOrInsert(nevra: Nevra, rival: bool) returns (r: Option<Dep>)
      requires Valid()
      modifies this`table, this`sequence, this`misses, this`inserts
      ensures Valid()
      ensures table == if nevra in old(table).Values then old(table) else old(table)[old(sequence) := nevra]
      ensures r.None? <==> rival && nevra !in old(table).Values
      ensures r.Some? ==> IsRow(table, r.value) && r.value.nevra == nevra
      ensures misses + inserts == old(misses + inserts) + if r.Some? then 1 else 0
    {
      if nevra in table.Values {
        var id :| id in table && table[id] == nevra;
        misses := misses + 1;
        return Some(Dep(id, nevra));
      }
      GrowKeeps(table, sequence, nevra, capacity, uses, ids, nevras);
      table, sequence := table[sequence := nevra], sequence + 1;
      if rival {
        return None;
      }
      inserts := inserts + 1;
      return Some(Dep(sequence - 1, nevra));
    }

    /** _get_or_create_nevra; None stands for the IntegrityError. */
    method TryGetOrCreateNevra(nevra: Nevra, rival: bool) returns (r: Option<Dep>)
      requires Valid()
      modifies this
      ensures Valid()
      ensures table == if nevra in old(table).Values then old(table) else old(table)[old(sequence) := nevra]
      ensures r.None? <==> rival && nevra !in old(table).Values
      ensures r.Some? ==> IsRow(table, r.value) && r.value.nevra == nevra && uses == old(uses) + [r.value]
      ensures r.None? ==> uses == old(uses)
      ensures hits + misses + inserts == old(hits + misses + inserts) + if r.Some? then 1 else 0
    {
      if nevra in nevras {
        var dep := nevras[nevra];
        CoherentIds(table, capacity, uses, ids, nevras);
        InTable(table, dep);
        hits := hits + 1;
        Access(dep);
        return Some(dep);
      }
      r := QueryOrInsert(nevra, rival);
      if r.Some? {
        NotCached(ids, nevras, r.value);
        Add(r.value);
      }
    }

    /** Looks the NEVRA up again after losing the race for its insertion. */
    method GetOrCreateNevra(nevra: Nevra, rival: bool) returns (dep: Dep)
      requires Valid()
      modifies this
      ensures Valid()
      ensures table == if nevra in old(table).Values then old(table) else old(table)[old(sequence) := nevra]
      ensures IsRow(table, dep) && dep.nevra == nevra && uses == old(uses) + [dep]
    {
      var r := TryGetOrCreateNevra(nevra, rival);
      if r.None? {
        InValues(table, old(sequence), nevra);
        r := TryGetOrCreateNevra(nevra, false);
      }
      dep := r.value;
    }

    method GetOrCreateNevras(nevras: seq<Nevra>) returns (res: seq<Dep>)
      requires Valid()
      modifies this
      ensures Valid() && Extends(old(table), table)
      ensures |res| == |nevras| && forall i | 0 <= i < |nevras| :: IsRow(table, res[i]) && res[i].nevra == nevras[i]
      ensures uses == old(uses) + res
    {
      res := [];
      for i := 0 to |nevras|
        invariant Valid() && Extends(old(table), table)
        invariant Created(table, nevras, i, res) && uses == old(uses) + res
      {
        ghost var was := table;
        var r := TryGetOrCreateNevra(nevras[i], false);
        CreatedOneMore(was, table, nevras, i, res, r.value);
        Concat3(old(uses), res, [r.value]);
        res := res + [r.value];
      }
    }

    /** The cached row of one key, if there is one */
    method TakeOne(key: DepId, ghost before: seq<Dep>, ghost keys: seq<DepId>, ghost n: nat, res: seq<Dep>,
                   missing: seq<DepId>) returns (res': seq<Dep>, missing': seq<DepId>)
      requires Valid() && n < |keys| && keys[n] == key && Taking(table, ids, before, uses, keys, n, res, missing)
      modifies this`ids, this`uses
      ensures Valid() && Taking(table, ids, before, uses, keys, n + 1, res', missing')
    {
      CoherentIds(table, capacity, uses, ids, nevras);
      ghost var was, used := ids, uses;
      var dep := Find(ids, key);
      if dep.None? {
        TakingMiss(table, ids, before, uses, keys, n, res, missing);
        res', missing' := res, missing + [key];
      } else {
        Access(dep.value);
        TakingHit(table, was, before, used, keys, n, res, missing, dep.value, ids);
        res', missing' := res + [dep.value], missing;
      }
    }

    /** The rows among `keys` that are cached, and the keys of the others. */
    method TakeCached(keys: seq<DepId>) returns (res: seq<Dep>, missing: seq<DepId>)
      requires Valid()
      modifies this`ids, this`uses
      ensures Valid() && uses == old(uses) + res
      ensures Sorted(table, keys, res, missing) && Absent(ids, missing)
      ensures |res| + |missing| == |keys|
    {
      res, missing := [], [];
      TakingNone(table, ids, uses, keys);
      for n := 0 to |keys|
        invariant Valid() && Taking(table, ids, old(uses), uses, keys, n, res, missing)
      {
        res, missing := TakeOne(keys[n], old(uses), keys, n, res, missing);
      }
      TakingAll(table, ids, old(uses), uses, keys, res, missing);
    }

    method AddAll(rows: seq<Dep>)
      requires Valid() && IsDistinct(rows) && (forall d | d in rows :: IsRow(table, d))
      requires forall d | d in ids :: d !in rows
      modifies this`ids, this`nevras, this`uses
      ensures Valid() && uses == old(uses) + rows
    {
      for n := 0 to |rows|
        invariant Valid() && uses == old(uses) + rows[..n]
        invariant forall d | d in ids :: d !in rows[n..]
      {
        ghost var was := ids;
        Add(rows[n]);
        RowsLeft(rows, n, was, ids);
        PrefixOneMore(rows, n);
        Concat3(old(uses), rows[..n], [rows[n]]);
      }
      assert rows[..|rows|] == rows;
    }

    /** Fails when nothing was found. */
    method GetByIds(keys: seq<DepId>) returns (r: Result<seq<Dep>, string>)
      requires Valid()
      modifies this`ids, this`nevras, this`uses, this`hits, this`misses
      ensures Valid() && hits + misses == old(hits + misses) + |keys|
      ensures r.Failure? <==> forall k | k in keys :: k !in table
      ensures r.Failure? ==> uses == old(uses)
      ensures r.Success? ==> Answers(table, keys, r.value) && uses == old(uses) + r.value
    {
      var res, missing := TakeCached(keys);
      misses, hits := misses + |missing|, hits + |res|;
      var rows := [];
      if missing != [] {
        rows := Select(table, missing);
        AddAll(rows);
      }
      CachedAndStoredAnswer(table, keys, res, missing, rows);
      Concat3(old(uses), res, rows);
      res := res + rows;
      return if res == [] then Failure("no dependencies") else Success(res);
    }
  }
}
