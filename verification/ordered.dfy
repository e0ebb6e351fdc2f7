/**
 The ordering mixin: moving one row inside its partition, swapping two rows,
 the position predicates, and the create and delete hooks.

 Each operation is one atomic transition of the table: the range shift and
 the write of the moved row are committed together, so only the final table
 is observable. The row an operation runs on is the stored row `id`.

 Two different filters are at work. `GetHighestOrder` and `SyncOrder` select
 a partition by the model's order keys; the shift statements of `SetOrder`
 filter by the single `orderColumnName` given to the mixin (ShiftKeys). When
 the two disagree, a move can shift rows of other partitions; the density
 results below therefore assume `Aligned`.
 */
module Ordered {
  import opened Wrappers
  import opened Rows
  import opened OrderedModelService

  /** The mixin's options and the model's order-key declarations. */
  datatype Config = Config(orderKeys: seq<string>, orderColumnName: Option<string>)

  datatype Error = NegativeOrder(requested: int)

  /** The columns setOrder's shift statements filter on: the option, when it is a non-empty name. */
  function ShiftKeys(cfg: Config): seq<string>
  {
    match cfg.orderColumnName
    case Some(name) => if name != "" then [name] else []
    case None => []
  }

  /** The shift filter and the query filter select the same partitions. */
  predicate Aligned(cfg: Config)
  {
    ShiftKeys(cfg) == cfg.orderKeys
  }

  /** `high` used as a condition: null and 0 are both false. */
  predicate Truthy(high: Option<int>)
  {
    high.Some? && high.value != 0
  }

  /** `high || 0` */
  function OrZero(high: Option<int>): int
  {
    if Truthy(high) then high.value else 0
  }

  /** `high ? Math.min(high, order) : order`: a highest order of 0 does not clamp. */
  function ClampTarget(high: Option<int>, request: int): (r: int)
    ensures r <= request
    ensures Truthy(high) ==> r <= high.value
    ensures r == request || (Truthy(high) && r == high.value)
  {
    if Truthy(high) then Min(high.value, request) else request
  }

  function Min(a: int, b: int): int { if a <= b then a else b }
  function Max(a: int, b: int): int { if a <= b then b else a }

  /** The highest order of the partition that row `id` belongs to by its order keys. */
  ghost function Highest(t: Table, cfg: Config, id: RowId): Option<int>
    requires id in t
  {
    GetHighestOrder(t, cfg.orderKeys, t[id].cols)
  }

  /** The partition of row `id` by its order keys. */
  function Siblings(t: Table, cfg: Config, id: RowId): set<RowId>
    requires id in t
  {
    Partition(t, cfg.orderKeys, t[id].cols)
  }

  /** `order += delta` on every row of the filtered partition whose order lies in lo..hi. */
  function ShiftRange(t: Table, keys: seq<string>, ref: Cols, lo: int, hi: int, delta: int): (r: Table)
    ensures SameShape(t, r)
  {
    map id | id in t ::
      if SameGroup(t[id].cols, ref, keys) && lo <= t[id].order <= hi
      then t[id].(order := t[id].order + delta)
      else t[id]
  }

  /**
   setOrder. A negative request throws before anything is written. Otherwise
   the target is the request clamped by ClampTarget; moving up, every row of
   the shift filter with 0 < order <= target drops by one; moving down, every
   row with target <= order < (high || 0) rises by one; then the moved row is
   written with the target. The shift ranges are filtered by order value, not
   by identity, so the moved row may be shifted too; its own write wins.
   */
  ghost function SetOrder(t: Table, cfg: Config, id: RowId, request: int): (r: Result<Table, Error>)
    requires id in t
    ensures r.Err? <==> request < 0
    ensures r.Ok? ==> SameShape(t, r.value)
    ensures r.Ok? && (!Truthy(Highest(t, cfg, id)) || request <= Highest(t, cfg, id).value) ==>
              r.value[id].order == request
    ensures r.Ok? && Truthy(Highest(t, cfg, id)) && request > Highest(t, cfg, id).value ==>
              r.value[id].order == Highest(t, cfg, id).value
    ensures r.Ok? ==> forall x | x in t && x != id && !SameGroup(t[x].cols, t[id].cols, ShiftKeys(cfg)) ::
              r.value[x] == t[x]
    ensures r.Ok? && r.value[id].order > t[id].order ==>
              forall x | x in t && x != id ::
                r.value[x].order
                  == if SameGroup(t[x].cols, t[id].cols, ShiftKeys(cfg)) && 0 < t[x].order <= r.value[id].order
                     then t[x].order - 1 else t[x].order
    ensures r.Ok? && r.value[id].order < t[id].order ==>
              forall x | x in t && x != id ::
                r.value[x].order
                  == if SameGroup(t[x].cols, t[id].cols, ShiftKeys(cfg))
                        && r.value[id].order <= t[x].order < OrZero(Highest(t, cfg, id))
                     then t[x].order + 1 else t[x].order
    ensures r.Ok? && r.value[id].order == t[id].order ==> r.value == t
  {
    if request < 0 then Err(NegativeOrder(request))
    else
      var self := t[id];
      var high := Highest(t, cfg, id);
      var target := ClampTarget(high, request);
      var shifted :=
        if target > self.order then ShiftRange(t, ShiftKeys(cfg), self.cols, 1, target, -1)
        else if target < self.order then ShiftRange(t, ShiftKeys(cfg), self.cols, target, OrZero(high) - 1, 1)
        else t;
      assert target == self.order ==> shifted[id := self.(order := target)] == t;
      Ok(shifted[id := self.(order := target)])
  }

  /** isFirst: the row's order is 0. */
  predicate IsFirst(t: Table, id: RowId)
    requires id in t
  {
    t[id].order == 0
  }

  /** isLast: `high === this.order`. */
  ghost predicate IsLast(t: Table, cfg: Config, id: RowId)
    requires id in t
    ensures IsLast(t, cfg, id) <==> forall x | x in Siblings(t, cfg, id) :: t[x].order <= t[id].order
  {
    OwnPartition(t, cfg.orderKeys, id);
    Highest(t, cfg, id) == Some(t[id].order)
  }

  /** In a dense partition the first row is the one no sibling precedes. */
  lemma IsFirstIffLowest(t: Table, cfg: Config, id: RowId)
    requires id in t
    requires Dense(t, cfg.orderKeys, t[id].cols)
    ensures IsFirst(t, id) <==> forall x | x in Siblings(t, cfg, id) :: t[id].order <= t[x].order
  {
    OwnPartition(t, cfg.orderKeys, id);
    DenseCovers(t, cfg.orderKeys, t[id].cols, 0);
  }

  /** In a dense partition of N rows the last row is the one at N-1. */
  lemma IsLastIffTop(t: Table, cfg: Config, id: RowId)
    requires id in t
    requires Dense(t, cfg.orderKeys, t[id].cols)
    ensures IsLast(t, cfg, id) <==> t[id].order == |Siblings(t, cfg, id)| - 1
  {
    OwnPartition(t, cfg.orderKeys, id);
    DenseHighest(t, cfg.orderKeys, t[id].cols);
  }

  ghost function MoveToStart(t: Table, cfg: Config, id: RowId): (r: Result<Table, Error>)
    requires id in t
    ensures r.Ok? ==> r.value.Keys == t.Keys
    ensures r.Ok?
    ensures t[id].order >= 0 ==> r.value[id].order == 0
  {
    OwnPartition(t, cfg.orderKeys, id);
    SetOrder(t, cfg, id, 0)
  }

  /** Lands on or above every order its partition held. */
  ghost function MoveToEnd(t: Table, cfg: Config, id: RowId): (r: Result<Table, Error>)
    requires id in t
    ensures r.Ok? ==> r.value.Keys == t.Keys
    ensures t[id].order >= 0 ==> r.Ok?
    ensures r.Ok? ==> forall x | x in Siblings(t, cfg, id) :: t[x].order <= r.value[id].order
    ensures r.Ok? ==> exists x | x in Siblings(t, cfg, id) :: t[x].order == r.value[id].order
  {
    OwnPartition(t, cfg.orderKeys, id);
    SetOrder(t, cfg, id, OrZero(Highest(t, cfg, id)))
  }

  /** One place up, or nothing at all when the row already holds the highest order. */
  ghost function MoveUp(t: Table, cfg: Config, id: RowId): (r: Result<Table, Error>)
    requires id in t
    ensures r.Ok? ==> r.value.Keys == t.Keys
    ensures t[id].order >= 0 ==> r.Ok?
    ensures r.Ok? && IsLast(t, cfg, id) ==> r.value == t
    ensures r.Ok? && !IsLast(t, cfg, id) ==> r.value[id].order == t[id].order + 1
  {
    OwnPartition(t, cfg.orderKeys, id);
    SetOrder(t, cfg, id, Min(OrZero(Highest(t, cfg, id)), t[id].order + 1))
  }

  /** One place down, or nothing at all at order 0. */
  ghost function MoveDown(t: Table, cfg: Config, id: RowId): (r: Result<Table, Error>)
    requires id in t
    ensures r.Ok? ==> r.value.Keys == t.Keys
    ensures r.Ok?
    ensures t[id].order == 0 ==> r.value == t
    ensures t[id].order > 0 ==> r.value[id].order == t[id].order - 1
  {
    OwnPartition(t, cfg.orderKeys, id);
    SetOrder(t, cfg, id, Max(t[id].order - 1, 0))
  }

  /** Takes over the other row's order (the other row is then shifted by the move). */
  ghost function MoveBefore(t: Table, cfg: Config, id: RowId, other: RowId): (r: Result<Table, Error>)
    requires id in t && other in t
    ensures r.Ok? ==> r.value.Keys == t.Keys
    ensures r.Ok?
    ensures other in Siblings(t, cfg, id) && t[other].order >= 0 ==> r.value[id].order == t[other].order
  {
    SetOrder(t, cfg, id, Max(0, t[other].order))
  }

  /**
   moveAfter: `Math.min(high || Infinity, other.order === 0 ? 1 : other.order)`,
   with the infinite bound written as "no bound".
   */
  function AfterTarget(high: Option<int>, otherOrder: int): (r: int)
    ensures r <= (if otherOrder == 0 then 1 else otherOrder)
    ensures r == (if otherOrder == 0 then 1 else otherOrder) || (Truthy(high) && r == high.value)
    ensures otherOrder != 0 && (!Truthy(high) || otherOrder <= high.value) ==> r == otherOrder
    ensures otherOrder == 0 && (!Truthy(high) || high.value >= 1) ==> r == 1
    ensures Truthy(high) ==> r <= high.value
  {
    var wanted := if otherOrder == 0 then 1 else otherOrder;
    if Truthy(high) then Min(high.value, wanted) else wanted
  }

  ghost function MoveAfter(t: Table, cfg: Config, id: RowId, other: RowId): (r: Result<Table, Error>)
    requires id in t && other in t
    ensures r.Ok? ==> r.value.Keys == t.Keys
    ensures t[other].order < 0 ==> r.Err?
    ensures t[id].order >= 0 && t[other].order >= 0 ==> r.Ok?
    ensures other in Siblings(t, cfg, id) && t[other].order >= 0 ==>
              r.Ok? && r.value[id].order == Max(1, t[other].order)
  {
    SetOrder(t, cfg, id, AfterTarget(Highest(t, cfg, id), t[other].order))
  }

  /** swapOrder: the two rows exchange their orders; nothing is shifted. */
  function SwapOrder(t: Table, a: RowId, b: RowId): (r: Table)
    requires a in t && b in t
    ensures SameShape(t, r)
    ensures r[a].order == t[b].order && r[b].order == t[a].order
    ensures forall x | x in t && x != a && x != b :: r[x] == t[x]
  {
    t[a := t[a].(order := t[b].order)][b := t[b].(order := t[a].order)]
  }

  /** syncSequence: re-densify the partition of row `id` by its order keys. */
  function SyncSequence(t: Table, cfg: Config, id: RowId, l: seq<RowId>): (r: Table)
    requires id in t
    requires ValidListing(t, cfg.orderKeys, t[id].cols, l)
    ensures SameShape(t, r)
    ensures Dense(r, cfg.orderKeys, t[id].cols)
    ensures forall x | x in t && !SameGroup(t[x].cols, t[id].cols, cfg.orderKeys) :: r[x] == t[x]
  {
    SyncOrder(t, cfg.orderKeys, t[id].cols, l)
  }

  /**
   The before-create hook: a new row keeps an order that is already set and
   not negative; otherwise it gets highest + 1, or 0 in an empty partition.
   `given` is None when the order is unset.
   */
  ghost function PopulateOrder(t: Table, cfg: Config, cols: Cols, given: Option<int>): (r: int)
    ensures given.Some? && given.value >= 0 ==> r == given.value
    ensures !(given.Some? && given.value >= 0) ==>
              forall x | x in Partition(t, cfg.orderKeys, cols) :: t[x].order < r
    ensures !(given.Some? && given.value >= 0) && Partition(t, cfg.orderKeys, cols) == {} ==> r == 0
    ensures !(given.Some? && given.value >= 0) && Partition(t, cfg.orderKeys, cols) != {} ==>
              exists x | x in Partition(t, cfg.orderKeys, cols) :: t[x].order == r - 1
  {
    if given.Some? && given.value >= 0 then given.value
    else
      var high := GetHighestOrder(t, cfg.orderKeys, cols);
      if high.Some? then high.value + 1 else 0
  }

  /** Creating a row: the hook runs, then the row is inserted. */
  ghost function Create(t: Table, cfg: Config, id: RowId, cols: Cols, given: Option<int>): (r: Table)
    requires id !in t
    ensures r.Keys == t.Keys + {id}
    ensures forall x | x in t :: r[x] == t[x]
    ensures r[id].cols == cols
    ensures r[id].order == PopulateOrder(t, cfg, cols, given)
  {
    t[id := Row(cols, PopulateOrder(t, cfg, cols, given))]
  }

  /** The after-delete hook: the row is gone and its partition is re-densified. */
  function DeleteAndSync(t: Table, cfg: Config, id: RowId, l: seq<RowId>): (r: Table)
    requires id in t
    requires ValidListing(t - {id}, cfg.orderKeys, t[id].cols, l)
    ensures r.Keys == t.Keys - {id}
    ensures Dense(r, cfg.orderKeys, t[id].cols)
    ensures forall x | x in t && x != id && !SameGroup(t[x].cols, t[id].cols, cfg.orderKeys) :: r[x] == t[x]
    ensures forall a, b | a in r && b in r && SameGroup(t[a].cols, t[id].cols, cfg.orderKeys)
              && SameGroup(t[b].cols, t[id].cols, cfg.orderKeys) ::
              t[a].order < t[b].order ==> r[a].order < r[b].order
    ensures forall i | 0 <= i < |l| :: r[l[i]].order == i
    ensures forall x | x in r :: r[x].cols == t[x].cols
  {
    var rest := t - {id};
    var r := SyncOrder(rest, cfg.orderKeys, t[id].cols, l);
    assert forall x | x in rest :: x in Partition(rest, cfg.orderKeys, t[id].cols)
             <==> SameGroup(t[x].cols, t[id].cols, cfg.orderKeys);
    r
  }
}
