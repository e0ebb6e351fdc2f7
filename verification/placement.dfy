/**
 Where moveBefore and moveAfter leave the moved row relative to the other row.

 moveBefore asks setOrder for the other row's order, and moveAfter for that
 order (or 1 after a row at 0). setOrder then shifts a range of orders that
 holds the other row. Moving up, the other row drops by one: moveAfter ends
 right behind it, as promised, but moveBefore ends behind it too. Moving
 down, the other row rises by one: moveBefore ends right in front of it, as
 promised, but moveAfter (after a row not at 0) ends in front of it too.
 The corrected targets aim one place short in those two failing directions.
 */
module OrderedPlacement {
  import opened Wrappers
  import opened Rows
  import opened OrderedModelService
  import opened Ordered

  /** The other row shares the moved row's partition, for both filters, and holds a different order. */
  ghost predicate Comparable(t: Table, cfg: Config, id: RowId, other: RowId)
    requires id in t && other in t
  {
    && Aligned(cfg)
    && other in Siblings(t, cfg, id)
    && t[id].order >= 0 && t[other].order >= 0
    && t[other].order != t[id].order
  }

  /** The highest order bounds both rows of a comparable pair. */
  lemma HighestBoundsPair(t: Table, cfg: Config, id: RowId, other: RowId)
    requires id in t && other in t
    ensures Comparable(t, cfg, id, other) ==>
              && Highest(t, cfg, id).Some?
              && t[id].order <= Highest(t, cfg, id).value && t[other].order <= Highest(t, cfg, id).value
              && SameGroup(t[other].cols, t[id].cols, ShiftKeys(cfg))
  {
    OwnPartition(t, cfg.orderKeys, id);
  }

  /** moveBefore from above does what it says: the row ends right in front of the other row. */
  lemma MoveBeforeFromAbove(t: Table, cfg: Config, id: RowId, other: RowId)
    requires id in t && other in t
    requires Comparable(t, cfg, id, other) && t[other].order < t[id].order
    ensures MoveBefore(t, cfg, id, other).Ok?
    ensures MoveBefore(t, cfg, id, other).value[id].order == t[other].order
    ensures MoveBefore(t, cfg, id, other).value[other].order == t[other].order + 1
  {
  }

  /** moveBefore from below ends after the other row, which the move shifts down past it. */
  lemma MoveBeforeFromBelowLandsAfter(t: Table, cfg: Config, id: RowId, other: RowId)
    requires id in t && other in t
    requires Comparable(t, cfg, id, other) && t[id].order < t[other].order
    ensures MoveBefore(t, cfg, id, other).Ok?
    ensures MoveBefore(t, cfg, id, other).value[id].order == t[other].order
    ensures MoveBefore(t, cfg, id, other).value[other].order == t[other].order - 1
  {
  }

  /** moveAfter from below does what it says: the other row drops one place and the row lands right behind it. */
  lemma MoveAfterFromBelow(t: Table, cfg: Config, id: RowId, other: RowId)
    requires id in t && other in t
    requires Comparable(t, cfg, id, other) && t[id].order < t[other].order
    ensures MoveAfter(t, cfg, id, other).Ok?
    ensures MoveAfter(t, cfg, id, other).value[id].order == t[other].order
    ensures MoveAfter(t, cfg, id, other).value[other].order == t[other].order - 1
  {
  }

  /** moveAfter from above, after a row not at 0, ends before the other row, which the move shifts up past it. */
  lemma MoveAfterFromAboveLandsBefore(t: Table, cfg: Config, id: RowId, other: RowId)
    requires id in t && other in t
    requires Comparable(t, cfg, id, other) && 1 <= t[other].order < t[id].order
    ensures MoveAfter(t, cfg, id, other).Ok?
    ensures MoveAfter(t, cfg, id, other).value[id].order == t[other].order
    ensures MoveAfter(t, cfg, id, other).value[other].order == t[other].order + 1
  {
  }

  /** moveBefore aiming one place below the other row when moving up. */
  ghost function MoveBeforeIntended(t: Table, cfg: Config, id: RowId, other: RowId): (r: Result<Table, Error>)
    requires id in t && other in t
    ensures r.Ok?
    ensures r.value.Keys == t.Keys
    ensures Comparable(t, cfg, id, other) ==> r.value[id].order < r.value[other].order
  {
    var target := if t[other].order > t[id].order then t[other].order - 1 else t[other].order;
    HighestBoundsPair(t, cfg, id, other);
    SetOrder(t, cfg, id, Max(0, target))
  }

  /** moveAfter aiming one place above the other row when moving down. */
  ghost function MoveAfterIntended(t: Table, cfg: Config, id: RowId, other: RowId): (r: Result<Table, Error>)
    requires id in t && other in t
    ensures r.Ok? ==> r.value.Keys == t.Keys
    ensures t[other].order < 0 ==> r.Err?
    ensures Comparable(t, cfg, id, other) ==> r.Ok? && r.value[other].order < r.value[id].order
  {
    var target :=
      if 0 <= t[other].order < t[id].order then t[other].order + 1
      else AfterTarget(Highest(t, cfg, id), t[other].order);
    HighestBoundsPair(t, cfg, id, other);
    SetOrder(t, cfg, id, target)
  }
}
