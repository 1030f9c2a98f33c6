/** `Column`: a sortable model scoped by `board_id`, with its items as a relation ordered
    by position. In the `columns` table the `SortRow.scope` of a row is its `board_id`. */
module Columns {
  import opened Common
  import opened Sortable

  /** `create(['board_id' => ..., 'title' => ...])`, the two fillable attributes (`position`
      is not among them): the new column goes after the columns of its own board. */
  method CreateColumn(table: SortableTable, boardId: nat, title: string) returns (id: nat)
    requires table.Valid()
    modifies table
    ensures table.Valid()
    ensures table.rows == old(table.rows) + [SortRow(id, boardId, title, NextPosition(old(table.rows), boardId))]
  {
    id := table.Create(boardId, title, None);
  }

  /** `$column->items`: the items whose `column_id` is the column's key, in ascending
      position. `items` is the `items` table, whose scope key is `column_id`. */
  function Items(items: seq<SortRow>, columnId: nat): (r: seq<SortRow>)
    ensures PositionSorted(r)
    ensures multiset(r) == multiset(ScopeRows(items, columnId))
    ensures forall k :: 0 <= k < |r| ==> r[k] in items && r[k].scope == columnId
    ensures forall k :: 0 <= k < |items| && items[k].scope == columnId ==> items[k] in r
  {
    var own := ScopeRows(items, columnId);
    var r := OrderByPosition(own);
    assert forall k :: 0 <= k < |r| ==> r[k] in own by {
      forall k | 0 <= k < |r| ensures r[k] in own {
        assert r[k] in multiset(r);
      }
    }
    assert forall k :: 0 <= k < |own| ==> own[k] in r by {
      forall k | 0 <= k < |own| ensures own[k] in r {
        assert own[k] in multiset(own);
      }
    }
    r
  }

  /** Moving an item of one column leaves every other column's item list as it was. */
  lemma MoveKeepsOtherColumnsItems(items: seq<SortRow>, i: nat, position: int, columnId: nat)
    requires i < |items| && items[i].scope != columnId
    ensures Items(Moved(items, i, position), columnId) == Items(items, columnId)
  {
    MoveKeepsOtherScopes(items, i, position, columnId);
  }
}
