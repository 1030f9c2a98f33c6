/** The `Sortable` behaviour shared by board columns and column items: rows carry a
    `position` among their siblings (the rows with the same scope key, `board_id` for a
    column and `column_id` for an item); creating a row appends it after its siblings,
    `move` shifts the siblings between the old and the new place, and deleting a row first
    moves it out of the way. */
module Sortable {
  import opened Common

  /** One sortable row. `scope` is the value of the scoping column. */
  datatype SortRow = SortRow(id: nat, scope: nat, title: string, position: int)

  /** `$this->sortableAmongst()`: the rows sharing `self`'s scope key (`self` included). */
  predicate Sibling(r: SortRow, self: SortRow) {
    r.scope == self.scope
  }

  // ---------------------------------------------------------------- creating

  function InScope(scope: nat): SortRow -> bool {
    (r: SortRow) => r.scope == scope
  }

  /** The rows of one scope in key order: `sortableAmongst()` of any row of that scope. */
  function ScopeRows(rows: seq<SortRow>, scope: nat): (r: seq<SortRow>)
    ensures forall k :: 0 <= k < |r| ==> r[k] in rows && r[k].scope == scope
    ensures forall k :: 0 <= k < |rows| && rows[k].scope == scope ==> rows[k] in r
  {
    Filter(rows, InScope(scope))
  }


  /** `sortableAmongst()->max('position')`: null when the scope is empty. */
  function MaxPosition(rows: seq<SortRow>, scope: nat): (m: Option<int>)
    ensures m.None? <==> forall k :: 0 <= k < |rows| ==> rows[k].scope != scope
    ensures m.Some? ==> (exists k :: 0 <= k < |rows| && rows[k].scope == scope && rows[k].position == m.value)
    ensures m.Some? ==> forall k :: 0 <= k < |rows| && rows[k].scope == scope ==> rows[k].position <= m.value
  {
    if rows == [] then None
    else
      var rest := MaxPosition(rows[1..], scope);
      assert forall k :: 1 <= k < |rows| ==> rows[k] == rows[1..][k - 1];
      if rows[0].scope != scope then
        (if rest.Some? then (var k :| 0 <= k < |rows[1..]| && rows[1..][k].scope == scope && rows[1..][k].position == rest.value;
                             assert rows[k + 1] == rows[1..][k]; rest)
         else rest)
      else if rest.None? || rows[0].position >= rest.value then Some(rows[0].position)
      else (var k :| 0 <= k < |rows[1..]| && rows[1..][k].scope == scope && rows[1..][k].position == rest.value;
            assert rows[k + 1] == rows[1..][k]; rest)
  }

  /** The `creating` hook: one past the largest sibling position, 1 in an empty scope
      (`null + 1`). */
  function NextPosition(rows: seq<SortRow>, scope: nat): (p: int)
    ensures forall k :: 0 <= k < |rows| && rows[k].scope == scope ==> rows[k].position < p
    ensures (forall k :: 0 <= k < |rows| ==> rows[k].scope != scope) ==> p == 1
    ensures (exists k :: 0 <= k < |rows| && rows[k].scope == scope) ==>
              exists k :: 0 <= k < |rows| && rows[k].scope == scope && rows[k].position == p - 1
  {
    OrElse(MaxPosition(rows, scope), 0) + 1
  }

  /** Rows of other scopes have no say in a new row's position. */
  lemma {:induction false} NextPositionLocal(rows: seq<SortRow>, other: SortRow, scope: nat)
    requires other.scope != scope
    ensures NextPosition(rows + [other], scope) == NextPosition(rows, scope)
    ensures NextPosition([other] + rows, scope) == NextPosition(rows, scope)
  {
    assert ([other] + rows)[1..] == rows;
    MaxPositionAppendOther(rows, other, scope);
  }

  lemma {:induction false} MaxPositionAppendOther(rows: seq<SortRow>, other: SortRow, scope: nat)
    requires other.scope != scope
    ensures MaxPosition(rows + [other], scope) == MaxPosition(rows, scope)
  {
    if rows != [] {
      assert (rows + [other])[1..] == rows[1..] + [other];
      MaxPositionAppendOther(rows[1..], other, scope);
    } else {
      assert [other][1..] == [];
    }
  }

  /** A new row's position depends only on the rows of its own scope. */
  lemma {:induction false} NextPositionFromScope(rows: seq<SortRow>, scope: nat)
    ensures NextPosition(rows, scope) == NextPosition(ScopeRows(rows, scope), scope)
  {
    MaxPositionFromScope(rows, scope);
  }

  lemma {:induction false} MaxPositionFromScope(rows: seq<SortRow>, scope: nat)
    ensures MaxPosition(rows, scope) == MaxPosition(ScopeRows(rows, scope), scope)
  {
    if rows != [] {
      MaxPositionFromScope(rows[1..], scope);
      if rows[0].scope == scope {
        var f := ScopeRows(rows, scope);
        assert f == [rows[0]] + ScopeRows(rows[1..], scope);
        assert f[1..] == ScopeRows(rows[1..], scope);
      }
    }
  }

  // ---------------------------------------------------------------- move, as written

  /** The rows the bulk `increment`/`decrement` of `move` touches: `self`'s siblings other
      than `self`, with a position in `[lo, hi]` (`whereBetween` is inclusive). */
  predicate InShift(r: SortRow, self: SortRow, lo: int, hi: int) {
    Sibling(r, self) && r.id != self.id && lo <= r.position <= hi
  }

  function Shift(r: SortRow, self: SortRow, lo: int, hi: int, delta: int): (s: SortRow)
    ensures s.(position := r.position) == r
    ensures s.position == r.position + (if InShift(r, self, lo, hi) then delta else 0)
  {
    if InShift(r, self, lo, hi) then r.(position := r.position + delta) else r
  }

  /** The bounds and direction of `move($position)` for a row at `current`: the target is
      `$position + 1`; moving to a larger position increments the siblings in
      `[current, target - 1]`, moving to a smaller one decrements those in
      `[target + 1, current]`. */
  datatype ShiftPlan = ShiftPlan(lo: int, hi: int, delta: int)

  function PlanAsWritten(current: int, target: int): (p: ShiftPlan)
    requires current != target
    ensures current < target ==> p == ShiftPlan(current, target - 1, 1)
    ensures current > target ==> p == ShiftPlan(target + 1, current, -1)
  {
    if current < target then ShiftPlan(current, target - 1, 1) else ShiftPlan(target + 1, current, -1)
  }

  /** The table after `rows[i]->move(position)`: the siblings in the planned range shift,
      the row itself lands on the target, and nothing else changes. */
  function Moved(rows: seq<SortRow>, i: nat, position: int): (r: seq<SortRow>)
    requires i < |rows|
    ensures |r| == |rows|
    ensures rows[i].position == position + 1 ==> r == rows
    ensures r[i] == rows[i].(position := position + 1)
    ensures forall k :: 0 <= k < |rows| ==> r[k].(position := rows[k].position) == rows[k]
    ensures forall k :: 0 <= k < |rows| && !Sibling(rows[k], rows[i]) ==> r[k] == rows[k]
    ensures rows[i].position < position + 1 ==>
              forall k :: 0 <= k < |rows| && rows[k].id != rows[i].id ==>
                r[k].position == rows[k].position +
                  (if Sibling(rows[k], rows[i]) && rows[i].position <= rows[k].position <= position then 1 else 0)
    ensures rows[i].position > position + 1 ==>
              forall k :: 0 <= k < |rows| && rows[k].id != rows[i].id ==>
                r[k].position == rows[k].position -
                  (if Sibling(rows[k], rows[i]) && position + 2 <= rows[k].position <= rows[i].position then 1 else 0)
  {
    var target := position + 1;
    var current := rows[i].position;
    if current == target then rows
    else
      var plan := PlanAsWritten(current, target);
      seq(|rows|, k requires 0 <= k < |rows| =>
        if k == i then rows[i].(position := target) else Shift(rows[k], rows[i], plan.lo, plan.hi, plan.delta))
  }

  /** A move never changes the rows of another scope: each of them, in order, is exactly
      as before. */
  lemma MoveKeepsOtherScopes(rows: seq<SortRow>, i: nat, position: int, scope: nat)
    requires i < |rows| && scope != rows[i].scope
    ensures ScopeRows(Moved(rows, i, position), scope) == ScopeRows(rows, scope)
  {
    var r := Moved(rows, i, position);
    ScopeRowsAgree(r, rows, scope);
  }

  lemma {:induction false} ScopeRowsAgree(a: seq<SortRow>, b: seq<SortRow>, scope: nat)
    requires |a| == |b|
    requires forall k :: 0 <= k < |a| ==> a[k].scope == b[k].scope
    requires forall k :: 0 <= k < |a| && b[k].scope == scope ==> a[k] == b[k]
    ensures ScopeRows(a, scope) == ScopeRows(b, scope)
  {
    if a != [] {
      ScopeRowsAgree(a[1..], b[1..], scope);
    }
  }

  /** Positions 1, 2, 3 in one scope and `move(1)` on the first row: the target is 2, the
      increment range `[1, 1]` holds only the row itself, and two rows end at position 2. */
  lemma MoveDuplicatesPositions()
    ensures var rows := [SortRow(1, 7, "a", 1), SortRow(2, 7, "b", 2), SortRow(3, 7, "c", 3)];
            var r := Moved(rows, 0, 1);
            r[0].position == 2 && r[1].position == 2 && r[2].position == 3
  {
  }

  // ---------------------------------------------------------------- move, corrected

  /** Where a sibling at position `p` ends up when the row at `current` moves to `target`:
      the row itself takes the target and the rows it passes close the gap by one. */
  function IntendedPosition(p: int, current: int, target: int): (q: int) {
    if p == current then target
    else if current < p <= target then p - 1
    else if target <= p < current then p + 1
    else p
  }

  /** Keeps positions apart and keeps them within `[lo, hi]` when the move stays there. */
  lemma IntendedPositionInjective(p: int, p': int, current: int, target: int, lo: int, hi: int)
    requires lo <= current <= hi && lo <= target <= hi && lo <= p <= hi
    ensures lo <= IntendedPosition(p, current, target) <= hi
    ensures p != p' ==> IntendedPosition(p, current, target) != IntendedPosition(p', current, target)
  {
  }

  /** The move the hook evidently intends: the moved row takes the target and every sibling
      between the old and the new place shifts one step towards the old place. */
  function IntendedMoved(rows: seq<SortRow>, i: nat, position: int): (r: seq<SortRow>)
    requires i < |rows|
    ensures |r| == |rows|
    ensures r[i] == rows[i].(position := position + 1)
    ensures forall k :: 0 <= k < |rows| ==> r[k].(position := rows[k].position) == rows[k]
    ensures forall k :: 0 <= k < |rows| && !Sibling(rows[k], rows[i]) ==> r[k] == rows[k]
  {
    seq(|rows|, k requires 0 <= k < |rows| =>
      if k == i then rows[i].(position := position + 1)
      else if Sibling(rows[k], rows[i]) then
        rows[k].(position := IntendedPosition(rows[k].position, rows[i].position, position + 1))
      else rows[k])
  }

  /** The siblings of scope `scope` hold distinct positions within `[1, n]`. */
  ghost predicate Arranged(rows: seq<SortRow>, scope: nat, n: int) {
    && (forall k :: 0 <= k < |rows| && rows[k].scope == scope ==> 1 <= rows[k].position <= n)
    && (forall k, l :: 0 <= k < l < |rows| && rows[k].scope == scope && rows[l].scope == scope ==>
          rows[k].position != rows[l].position)
  }

  /** The corrected move keeps an arranged scope arranged whenever the target is one of
      its positions, and leaves every other scope as it was. */
  lemma IntendedMoveKeepsArrangement(rows: seq<SortRow>, i: nat, position: int, n: int)
    requires i < |rows| && Arranged(rows, rows[i].scope, n) && 1 <= position + 1 <= n
    ensures Arranged(IntendedMoved(rows, i, position), rows[i].scope, n)
    ensures forall s :: s != rows[i].scope && Arranged(rows, s, n) ==> Arranged(IntendedMoved(rows, i, position), s, n)
  {
    var r := IntendedMoved(rows, i, position);
    var scope := rows[i].scope;
    var current := rows[i].position;
    var target := position + 1;
    forall k | 0 <= k < |rows| && rows[k].scope == scope
      ensures r[k].position == IntendedPosition(rows[k].position, current, target)
    {
      if k != i {
        assert rows[k].position != current by {
          if k < i { assert rows[k].position != rows[i].position; }
          else { assert rows[i].position != rows[k].position; }
        }
      }
    }
    forall k | 0 <= k < |r| && r[k].scope == scope ensures 1 <= r[k].position <= n {
      IntendedPositionInjective(rows[k].position, rows[k].position, current, target, 1, n);
    }
    forall k, l | 0 <= k < l < |r| && r[k].scope == scope && r[l].scope == scope
      ensures r[k].position != r[l].position
    {
      IntendedPositionInjective(rows[k].position, rows[l].position, current, target, 1, n);
    }
    forall s | s != scope && Arranged(rows, s, n) ensures Arranged(r, s, n) {
      forall k | 0 <= k < |r| && r[k].scope == s ensures r[k] == rows[k] {
      }
    }
  }

  /** The as-written move breaks an arranged scope: `MoveDuplicatesPositions` starts from
      positions 1..3 and ends with two rows at 2, where the corrected move swaps them. */
  lemma AsWrittenVersusIntended()
    ensures var rows := [SortRow(1, 7, "a", 1), SortRow(2, 7, "b", 2), SortRow(3, 7, "c", 3)];
            && Arranged(rows, 7, 3)
            && !Arranged(Moved(rows, 0, 1), 7, 3)
            && IntendedMoved(rows, 0, 1) == [SortRow(1, 7, "a", 2), SortRow(2, 7, "b", 1), SortRow(3, 7, "c", 3)]
  {
    var rows := [SortRow(1, 7, "a", 1), SortRow(2, 7, "b", 2), SortRow(3, 7, "c", 3)];
    var r := Moved(rows, 0, 1);
    MoveDuplicatesPositions();
    assert r[0].scope == 7 && r[1].scope == 7 && r[0].position == r[1].position;
  }

  // ---------------------------------------------------------------- ordering

  predicate PositionSorted(s: seq<SortRow>) {
    forall i, j :: 0 <= i < j < |s| ==> s[i].position <= s[j].position
  }

  function InsertByPosition(x: SortRow, s: seq<SortRow>): (r: seq<SortRow>)
    requires PositionSorted(s)
    ensures PositionSorted(r)
    ensures multiset(r) == multiset(s) + multiset{x}
  {
    if s == [] then [x]
    else if x.position <= s[0].position then
      ConsSorted(x, s);
      assert multiset([x] + s) == multiset(s) + multiset{x};
      [x] + s
    else
      var t := InsertByPosition(x, s[1..]);
      BoundByMultiset(s[1..], t, x, s[0].position);
      ConsSorted(s[0], t);
      assert s == [s[0]] + s[1..];
      [s[0]] + t
  }

  /** A row at or below every row of a sorted sequence may head it. */
  lemma ConsSorted(x: SortRow, s: seq<SortRow>)
    requires PositionSorted(s)
    requires s != [] ==> x.position <= s[0].position
    ensures PositionSorted([x] + s)
  {
    var r := [x] + s;
    forall i, j | 0 <= i < j < |r| ensures r[i].position <= r[j].position {
      if i == 0 && j > 1 {
        assert r[j] == s[j - 1];
      }
    }
  }

  /** Every row of `t`, a rearrangement of `s` plus `x`, is at `b` or above when those are. */
  lemma BoundByMultiset(s: seq<SortRow>, t: seq<SortRow>, x: SortRow, b: int)
    requires forall k :: 0 <= k < |s| ==> b <= s[k].position
    requires b <= x.position && multiset(t) == multiset(s) + multiset{x}
    ensures forall j :: 0 <= j < |t| ==> b <= t[j].position
  {
    forall j | 0 <= j < |t| ensures b <= t[j].position {
      assert t[j] in multiset(t);
      if t[j] != x {
        assert t[j] in multiset(s);
        var k :| 0 <= k < |s| && s[k] == t[j];
      }
    }
  }

  /** `orderBy('position')`: ascending positions, ties in key order. */
  function OrderByPosition(s: seq<SortRow>): (r: seq<SortRow>)
    ensures PositionSorted(r)
    ensures multiset(r) == multiset(s)
  {
    if s == [] then []
    else
      assert s == [s[0]] + s[1..];
      InsertByPosition(s[0], OrderByPosition(s[1..]))
  }

  // ---------------------------------------------------------------- the table

  /** The table of one sortable model (the `columns` or the `items` table). */
  class SortableTable {
    var rows: seq<SortRow>
    var nextId: nat

    /** Keys are unique and below the auto-increment counter. */
    ghost predicate Valid()
      reads this
    {
      && (forall k :: 0 <= k < |rows| ==> rows[k].id < nextId)
      && (forall k, l :: 0 <= k < l < |rows| ==> rows[k].id != rows[l].id)
    }

    constructor ()
      ensures Valid() && rows == [] && nextId == 1
    {
      rows := [];
      nextId := 1;
    }

    /** `create`: the `creating` hook overwrites any supplied position with the next one
        in the new row's scope, so `suppliedPosition` has no effect. */
    method Create(scope: nat, title: string, suppliedPosition: Option<int>) returns (id: nat)
      requires Valid()
      modifies this
      ensures Valid()
      ensures id == old(nextId) && nextId == old(nextId) + 1
      ensures rows == old(rows) + [SortRow(id, scope, title, NextPosition(old(rows), scope))]
    {
      var position := NextPosition(rows, scope);
      id := nextId;
      rows := rows + [SortRow(id, scope, title, position)];
      nextId := nextId + 1;
    }

    /** `rows[i]->move(position)`, with the bulk update as a pass over the table. */
    method Move(i: nat, position: int)
      requires Valid() && i < |rows|
      modifies this
      ensures Valid() && nextId == old(nextId)
      ensures rows == Moved(old(rows), i, position)
    {
      var target := position + 1;
      var self := rows[i];
      var current := self.position;
      if current == target {
        return;
      }
      var plan := PlanAsWritten(current, target);
      var k := 0;
      while k < |rows|
        invariant 0 <= k <= |rows| == |old(rows)| && nextId == old(nextId)
        invariant rows[i] == self
        invariant forall j :: 0 <= j < k ==> rows[j] == Shift(old(rows)[j], self, plan.lo, plan.hi, plan.delta)
        invariant forall j :: k <= j < |rows| ==> rows[j] == old(rows)[j]
      {
        rows := rows[k := Shift(rows[k], self, plan.lo, plan.hi, plan.delta)];
        k := k + 1;
      }
      rows := rows[i := self.(position := target)];
      assert rows == Moved(old(rows), i, position);
    }

    /** `delete`: the `deleting` hook calls `move(9999)`, then the row is removed. */
    method Delete(i: nat)
      requires Valid() && i < |rows|
      modifies this
      ensures Valid() && nextId == old(nextId)
      ensures rows == Moved(old(rows), i, 9999)[..i] + Moved(old(rows), i, 9999)[i + 1..]
    {
      Move(i, 9999);
      var before := rows;
      rows := rows[..i] + rows[i + 1..];
      assert forall k :: 0 <= k < |rows| ==> rows[k] == before[if k < i then k else k + 1];
    }
  }

  /** Deleting the middle of positions 1, 2, 3 leaves 1 and 4: the hook's move shifts the
      later sibling up instead of down. */
  lemma DeleteLeavesGap()
    ensures var rows := [SortRow(1, 7, "a", 1), SortRow(2, 7, "b", 2), SortRow(3, 7, "c", 3)];
            var m := Moved(rows, 1, 9999);
            m[..1] + m[2..] == [SortRow(1, 7, "a", 1), SortRow(3, 7, "c", 4)]
  {
  }
}
