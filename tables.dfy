/**
 * In-memory tables standing for the participants' Postgres tables: a primary table of
 * entity rows and a child table of line-item rows, both kept in insertion order.
 */
module Tables {
  import opened Wrappers

  /** A primary-table row: id, the entity's own columns, status and the two timestamps. */
  datatype Row<F, St> = Row(id: string, columns: F, status: St, createdAt: nat, updatedAt: nat)

  function Ids<F(==), St(==)>(rows: seq<Row<F, St>>): set<string>
  {
    set r | r in rows :: r.id
  }

  /** No two rows share an id (the id is the row's identity). */
  predicate IdsUnique<F(==), St(==)>(rows: seq<Row<F, St>>)
  {
    forall i, j :: 0 <= i < j < |rows| ==> rows[i].id != rows[j].id
  }

  /** The row `SELECT ... WHERE id = $1` yields: the first one with that id. */
  function IndexOfId<F(==), St(==)>(rows: seq<Row<F, St>>, id: string): (r: Option<nat>)
    ensures r.None? <==> id !in Ids(rows)
    ensures r.Some? ==> r.value < |rows| && rows[r.value].id == id
    ensures r.Some? ==> forall i :: 0 <= i < r.value ==> rows[i].id != id
  {
    if rows == [] then None
    else if rows[0].id == id then Some(0)
    else
      match IndexOfId(rows[1..], id)
      case None => None
      case Some(k) => Some(k + 1)
  }

  /** Inserting a row adds exactly its id. */
  lemma IdsAppend<F, St>(rows: seq<Row<F, St>>, row: Row<F, St>)
    ensures Ids(rows + [row]) == Ids(rows) + {row.id}
  {
    var rows' := rows + [row];
    forall x | x in Ids(rows) + {row.id} ensures x in Ids(rows') {
      if x == row.id {
        assert rows'[|rows|] == row;
      } else {
        var r :| r in rows && r.id == x;
        assert r in rows';
      }
    }
  }

  /** The first index of a row with `id` is the same after more rows are appended behind it. */
  lemma IndexOfIdAppend<F, St>(rows: seq<Row<F, St>>, more: seq<Row<F, St>>, id: string)
    requires id in Ids(rows)
    ensures IndexOfId(rows + more, id) == IndexOfId(rows, id)
  {
    var k := IndexOfId(rows, id).value;
    var r := IndexOfId(rows + more, id);
    assert (rows + more)[k] == rows[k];
  }

  /** `UPDATE ... SET status = $s, updated_at = $at WHERE id = $id`. */
  function SetStatus<F(==), St(==)>(rows: seq<Row<F, St>>, id: string, status: St, at: nat): seq<Row<F, St>>
  {
    seq(|rows|, i requires 0 <= i < |rows| =>
      if rows[i].id == id then rows[i].(status := status, updatedAt := at) else rows[i])
  }

  /** The update touches status and updated_at of the matching rows and nothing else. */
  lemma SetStatusFrame<F, St>(rows: seq<Row<F, St>>, id: string, status: St, at: nat)
    ensures var r := SetStatus(rows, id, status, at);
      && |r| == |rows|
      && Ids(r) == Ids(rows)
      && (IdsUnique(rows) ==> IdsUnique(r))
      && (forall i :: 0 <= i < |rows| ==>
            r[i].id == rows[i].id && r[i].columns == rows[i].columns && r[i].createdAt == rows[i].createdAt)
      && (forall i :: 0 <= i < |rows| && rows[i].id == id ==> r[i].status == status && r[i].updatedAt == at)
      && (forall i :: 0 <= i < |rows| && rows[i].id != id ==> r[i] == rows[i])
  {
    var r := SetStatus(rows, id, status, at);
    forall x | x in Ids(r) ensures x in Ids(rows) {
      var i :| 0 <= i < |r| && r[i].id == x;
      assert rows[i] in rows;
    }
    forall x | x in Ids(rows) ensures x in Ids(r) {
      var i :| 0 <= i < |rows| && rows[i].id == x;
      assert r[i] in r;
    }
  }

  /** An update whose id matches no row changes nothing, and reports nothing either. */
  lemma SetStatusAbsent<F, St>(rows: seq<Row<F, St>>, id: string, status: St, at: nat)
    requires id !in Ids(rows)
    ensures SetStatus(rows, id, status, at) == rows
  {
    forall i | 0 <= i < |rows| ensures rows[i].id != id {
      assert rows[i] in rows;
    }
  }

  /** The row found by id after the update is the old one with the new status and timestamp. */
  lemma IndexOfIdAfterSetStatus<F, St>(rows: seq<Row<F, St>>, id: string, status: St, at: nat, x: string)
    ensures IndexOfId(SetStatus(rows, id, status, at), x) == IndexOfId(rows, x)
  {
    SetStatusFrame(rows, id, status, at);
    var r := SetStatus(rows, id, status, at);
  }

  /** A child row: the owning entity's id and the line item stored with it. */
  datatype ItemRow<I> = ItemRow(ownerId: string, item: I)

  /** Every child row belongs to a row of the primary table. */
  predicate ItemsOwned<F(==), St(==), I(==)>(rows: seq<Row<F, St>>, items: seq<ItemRow<I>>)
  {
    forall r :: r in items ==> r.ownerId in Ids(rows)
  }

  /** The child rows inserted for `ownerId`, one per item, in list order. */
  function ItemRows<I(==)>(ownerId: string, items: seq<I>): seq<ItemRow<I>>
  {
    seq(|items|, i requires 0 <= i < |items| => ItemRow(ownerId, items[i]))
  }

  /** Inserting the rows of one more item extends the inserted prefix by that item's row. */
  lemma ItemRowsPrefix<I>(ownerId: string, items: seq<I>, n: nat)
    requires n < |items|
    ensures ItemRows(ownerId, items[..n + 1]) == ItemRows(ownerId, items[..n]) + [ItemRow(ownerId, items[n])]
  {
  }

  /** Child rows of an owner that has a row keep every child row owned. */
  lemma ItemsOwnedAppend<F, St, I>(rows: seq<Row<F, St>>, items: seq<ItemRow<I>>, row: Row<F, St>, lines: seq<I>)
    requires ItemsOwned(rows, items)
    ensures ItemsOwned(rows + [row], items + ItemRows(row.id, lines))
  {
    IdsAppend(rows, row);
  }

  /** `SELECT ... WHERE owner = $1`: the items stored under `ownerId`, in table order. */
  function ItemsOf<I(==)>(t: seq<ItemRow<I>>, ownerId: string): seq<I>
  {
    if t == [] then []
    else (if t[0].ownerId == ownerId then [t[0].item] else []) + ItemsOf(t[1..], ownerId)
  }

  lemma {:induction false} ItemsOfAppend<I>(a: seq<ItemRow<I>>, b: seq<ItemRow<I>>, ownerId: string)
    ensures ItemsOf(a + b, ownerId) == ItemsOf(a, ownerId) + ItemsOf(b, ownerId)
  {
    if a == [] {
      assert a + b == b;
    } else {
      var head := if a[0].ownerId == ownerId then [a[0].item] else [];
      assert (a + b)[0] == a[0];
      assert (a + b)[1..] == a[1..] + b;
      ItemsOfAppend(a[1..], b, ownerId);
      calc {
        ItemsOf(a + b, ownerId);
        head + ItemsOf(a[1..] + b, ownerId);
        head + (ItemsOf(a[1..], ownerId) + ItemsOf(b, ownerId));
        (head + ItemsOf(a[1..], ownerId)) + ItemsOf(b, ownerId);
        ItemsOf(a, ownerId) + ItemsOf(b, ownerId);
      }
    }
  }

  lemma {:induction false} ItemsOfNone<I>(t: seq<ItemRow<I>>, ownerId: string)
    requires forall r :: r in t ==> r.ownerId != ownerId
    ensures ItemsOf(t, ownerId) == []
  {
    if t != [] {
      assert t[0] in t;
      ItemsOfNone(t[1..], ownerId);
    }
  }

  lemma {:induction false} ItemsOfItemRows<I>(ownerId: string, items: seq<I>, other: string)
    ensures ItemsOf(ItemRows(ownerId, items), other) == if other == ownerId then items else []
  {
    var t := ItemRows(ownerId, items);
    if items != [] {
      assert t[1..] == ItemRows(ownerId, items[1..]);
      ItemsOfItemRows(ownerId, items[1..], other);
      assert items == [items[0]] + items[1..];
    }
  }

  /**
   * Loading after inserting the child rows of a new owner gives back exactly the inserted
   * items, in order, and leaves what every other owner loads unchanged.
   */
  lemma LoadAfterInsert<I>(t: seq<ItemRow<I>>, ownerId: string, items: seq<I>, other: string)
    requires forall r :: r in t ==> r.ownerId != ownerId
    ensures ItemsOf(t + ItemRows(ownerId, items), ownerId) == items
    ensures other != ownerId ==> ItemsOf(t + ItemRows(ownerId, items), other) == ItemsOf(t, other)
  {
    ItemsOfAppend(t, ItemRows(ownerId, items), ownerId);
    ItemsOfAppend(t, ItemRows(ownerId, items), other);
    ItemsOfNone(t, ownerId);
    ItemsOfItemRows(ownerId, items, ownerId);
    ItemsOfItemRows(ownerId, items, other);
  }

  /** The first `n + 1` rows load what the first `n` load, plus row n's item if it matches. */
  lemma ItemsOfPrefix<I>(t: seq<ItemRow<I>>, n: nat, ownerId: string)
    requires n < |t|
    ensures ItemsOf(t[..n + 1], ownerId)
         == ItemsOf(t[..n], ownerId) + (if t[n].ownerId == ownerId then [t[n].item] else [])
  {
    assert t[..n + 1] == t[..n] + [t[n]];
    ItemsOfAppend(t[..n], [t[n]], ownerId);
    assert [t[n]][1..] == [];
  }
}
