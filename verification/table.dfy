/** A database table keyed by an identity column: rows by id, plus the next
    identity value. The database assigns ids from a counter that is never
    reused, so every stored id is below `nextId`. */
module Table {
  import opened Wrappers
  import opened Seqs

  type Id = nat

  datatype Table<E> = Table(rows: map<Id, E>, nextId: Id)

  /** Every stored id was handed out by the identity counter. */
  ghost predicate Valid<E>(t: Table<E>) {
    forall id :: id in t.rows ==> id < t.nextId
  }

  /** A row read from the table: its id and its entity. */
  datatype Row<E> = Row(id: Id, entity: E)

  /** The stored rows with ids below `n`, in ascending id order. */
  function RowsBelow<E(!new)>(t: Table<E>, n: nat): (r: seq<Row<E>>)
    ensures forall row :: row in r <==> row.id < n && row.id in t.rows && t.rows[row.id] == row.entity
    ensures forall i, j :: 0 <= i < j < |r| ==> r[i].id < r[j].id
    ensures forall i :: 0 <= i < |r| ==> r[i].id < n
  {
    if n == 0 then []
    else
      RowsBelow(t, n - 1) + (if n - 1 in t.rows then [Row(n - 1, t.rows[n - 1])] else [])
  }

  /** The model's enumeration of the table, in ascending id order: every
      stored row exactly once. The database guarantees no order for a query
      without `ORDER BY`; ascending id is the model's choice. */
  function Rows<E(!new)>(t: Table<E>): (r: seq<Row<E>>)
    requires Valid(t)
    ensures forall row :: row in r <==> row.id in t.rows && t.rows[row.id] == row.entity
    ensures forall i, j :: 0 <= i < j < |r| ==> r[i].id < r[j].id
  {
    RowsBelow(t, t.nextId)
  }

  /** Rows with strictly increasing ids are as many as their ids. */
  lemma RowCount<E>(rows: seq<Row<E>>)
    requires forall i, j :: 0 <= i < j < |rows| ==> rows[i].id < rows[j].id
    ensures |set row | row in rows :: row.id| == |rows|
  {
    var ids := Map(rows, (row: Row<E>) => row.id);
    ElementsCount(ids);
    assert Elements(ids) == set row | row in rows :: row.id by {
      forall x | x in Elements(ids) ensures x in set row | row in rows :: row.id {
        var k :| 0 <= k < |ids| && ids[k] == x;
        assert rows[k] in rows;
      }
      forall x | x in set row | row in rows :: row.id ensures x in Elements(ids) {
        var row :| row in rows && row.id == x;
        var k :| 0 <= k < |rows| && rows[k] == row;
        assert ids[k] == x;
      }
    }
  }

  /** A selection holding exactly the stored rows whose entity passes `keep`
      has exactly the ids of those rows. */
  lemma SelectionIds<E>(t: Table<E>, sel: seq<Row<E>>, keep: E -> bool)
    requires forall row :: row in sel <==> row.id in t.rows && t.rows[row.id] == row.entity && keep(row.entity)
    ensures (set row | row in sel :: row.id) == set id | id in t.rows && keep(t.rows[id])
  {
    var ids := set row | row in sel :: row.id;
    forall id | id in ids ensures id in t.rows && keep(t.rows[id]) {
      var row :| row in sel && row.id == id;
    }
    forall id | id in t.rows && keep(t.rows[id]) ensures id in ids {
      assert Row(id, t.rows[id]) in sel;
    }
  }

  /** Projecting such a selection row by row, through `items`, gives exactly
      the items of the kept rows. */
  lemma SelectionItems<E, L>(t: Table<E>, sel: seq<Row<E>>, keep: E -> bool, items: map<Id, L>, r: seq<L>)
    requires forall row :: row in sel <==> row.id in t.rows && t.rows[row.id] == row.entity && keep(row.entity)
    requires t.rows.Keys <= items.Keys
    requires |r| == |sel| && forall i :: 0 <= i < |sel| ==> sel[i].id in items && r[i] == items[sel[i].id]
    ensures forall id :: id in t.rows && keep(t.rows[id]) ==> items[id] in r
    ensures forall x :: x in r ==> exists id :: id in t.rows && keep(t.rows[id]) && x == items[id]
  {
    forall id | id in t.rows && keep(t.rows[id]) ensures items[id] in r {
      assert Row(id, t.rows[id]) in sel;
      var k :| 0 <= k < |sel| && sel[k] == Row(id, t.rows[id]);
      assert r[k] == items[id];
    }
    forall x | x in r ensures exists id :: id in t.rows && keep(t.rows[id]) && x == items[id] {
      var k :| 0 <= k < |r| && r[k] == x;
      assert sel[k] in sel;
    }
  }

  /** `FindAsync(id)`: the entity stored under `id`, if any. */
  function Find<E>(t: Table<E>, id: Id): (r: Option<E>)
    ensures r.Some? <==> id in t.rows
    ensures r.Some? ==> r.value == t.rows[id]
  {
    if id in t.rows then Some(t.rows[id]) else None
  }

  /** `Add` followed by a committed save: the entity is stored under the next
      identity value, which the counter then passes. */
  function Insert<E>(t: Table<E>, e: E): (r: (Table<E>, Id))
    requires Valid(t)
    ensures Valid(r.0)
    ensures r.1 == t.nextId && r.1 !in t.rows
    ensures r.0.rows == t.rows[r.1 := e]
    ensures |r.0.rows| == |t.rows| + 1
    ensures r.0.nextId > t.nextId
  {
    (Table(t.rows[t.nextId := e], t.nextId + 1), t.nextId)
  }

  /** Overwrites the stored entity under an existing id. */
  function Put<E>(t: Table<E>, id: Id, e: E): (r: Table<E>)
    requires Valid(t) && id in t.rows
    ensures Valid(r)
    ensures r.rows.Keys == t.rows.Keys && r.nextId == t.nextId
    ensures r.rows[id] == e
    ensures forall other :: other in t.rows && other != id ==> r.rows[other] == t.rows[other]
  {
    Table(t.rows[id := e], t.nextId)
  }

  /** `Remove` followed by a committed save. */
  function Remove<E>(t: Table<E>, id: Id): (r: Table<E>)
    requires Valid(t)
    ensures Valid(r)
    ensures r.rows.Keys == t.rows.Keys - {id} && r.nextId == t.nextId
    ensures forall other :: other in r.rows ==> r.rows[other] == t.rows[other]
  {
    Table(t.rows - {id}, t.nextId)
  }
}
