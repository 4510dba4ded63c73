/** Copying the rows of a table under new ids, with their parent keys translated: `deepcopy_table`. */
module RowCopies {

  type Id = nat

  /** From the id of each copied row to the id of its copy, as in the temporary tables. */
  type Copies = map<Id, Id>

  predicate Injective(ids: Copies) {
    forall i, j | i in ids && j in ids && ids[i] == ids[j] :: i == j
  }

  predicate Below<R>(table: map<Id, R>, n: Id) {
    forall i | i in table :: i < n
  }

  /** Fresh ids for the originals, one each. */
  ghost predicate Numbers(ids: Copies, originals: set<Id>, first: Id, next: Id) {
    ids.Keys == originals && Injective(ids) && first <= next && forall i | i in ids :: first <= ids[i] < next
  }

  /** The rows that a copy takes: those whose parent is copied, out of `wanted`. */
  function Selected<R>(table: map<Id, R>, parentOf: R -> Id, parents: Copies, wanted: set<Id>): set<Id> {
    set i | i in table && i in wanted && parentOf(table[i]) in parents
  }

  /** `table'` is `table` and a copy of each row in `ids`, which belongs to the copy of the row's parent
      and is the same otherwise. */
  ghost predicate IsCopy<R>(table: map<Id, R>, table': map<Id, R>, ids: Copies, parentOf: R -> Id,
                            reparent: (R, Id) -> R, parents: Copies)
  {
    && Injective(ids) && ids.Keys <= table.Keys
    && (forall i | i in table :: i in table' && table'[i] == table[i])
    && (forall i | i in ids :: parentOf(table[i]) in parents && ids[i] !in table && ids[i] in table'
                               && table'[ids[i]] == reparent(table[i], parents[parentOf(table[i])]))
    && (forall j | j in table' && j !in table :: exists i :: i in ids && ids[i] == j)
  }

  /** nextval() for each row */
  method NewIds(originals: set<Id>, sequence: Id) returns (ids: Copies, next: Id)
    ensures Numbers(ids, originals, sequence, next)
  {
    ids, next := map[], sequence;
    var todo := originals;
    while todo != {}
      invariant todo <= originals && Numbers(ids, originals - todo, sequence, next)
    {
      var i :| i in todo;
      ids := ids[i := next];
      todo, next := todo - {i}, next + 1;
    }
  }

  method DeepCopyTable<R>(table: map<Id, R>, parentOf: R -> Id, reparent: (R, Id) -> R, parents: Copies,
                          wanted: set<Id>, sequence: Id)
    returns (table': map<Id, R>, ids: Copies, next: Id)
    requires Below(table, sequence)
    ensures Numbers(ids, Selected(table, parentOf, parents, wanted), sequence, next)
    ensures IsCopy(table, table', ids, parentOf, reparent, parents) && Below(table', next)
  {
    var originals := Selected(table, parentOf, parents, wanted);
    ids, next := NewIds(originals, sequence);
    table' := table;
    var todo := originals;
    while todo != {}
      invariant todo <= originals
      invariant forall i | i in table :: i in table' && table'[i] == table[i]
      invariant forall i | i in originals - todo ::
                  ids[i] in table' && table'[ids[i]] == reparent(table[i], parents[parentOf(table[i])])
      invariant forall j | j in table' && j !in table :: exists i :: i in ids && ids[i] == j
    {
      var i :| i in todo;
      table' := table'[ids[i] := reparent(table[i], parents[parentOf(table[i])])];
      todo := todo - {i};
    }
  }
}
