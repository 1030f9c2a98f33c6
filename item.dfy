/** `Item`: a sortable model scoped by `column_id`. In the `items` table the
    `SortRow.scope` of a row is its `column_id`. */
module Items {
  import opened Common
  import opened Sortable

  /** `Item::create(['column_id' => ..., 'title' => ..., 'position' => p])`, the three
      fillable attributes: the new item goes after the items of its own column, whatever
      `p` was, because the `creating` hook replaces the supplied position. */
  method CreateItem(table: SortableTable, columnId: nat, title: string, position: Option<int>) returns (id: nat)
    requires table.Valid()
    modifies table
    ensures table.Valid()
    ensures table.rows == old(table.rows) + [SortRow(id, columnId, title, NextPosition(old(table.rows), columnId))]
    ensures forall k :: 0 <= k < |old(table.rows)| && old(table.rows)[k].scope == columnId ==>
              old(table.rows)[k].position < table.rows[|table.rows| - 1].position
  {
    id := table.Create(columnId, title, position);
  }
}
