/**
 Which moves keep a partition dense.

 `SetOrderIntended` is setOrder with the shift ranges that keep the
 partition dense and the clamp the interface documentation promises ("the
 last possible order"): the target is clamped to the highest order whenever
 there is one, moving up shifts old < order <= target, moving down
 shifts target <= order < old. It keeps every dense partition dense. The
 mixin's `SetOrder` agrees with it exactly under `SafeMove`, and when
 `SafeMove` fails on a dense partition the result as written is not dense.
 */
module OrderedDensity {
  import opened Wrappers
  import opened Rows
  import opened OrderedModelService
  import opened Ordered

  /** Rows of a partition are left as they were, so its density is unchanged. */
  lemma UntouchedPartitionDense(t: Table, u: Table, keys: seq<string>, ref: Cols)
    requires SameShape(t, u)
    requires forall x | x in Partition(t, keys, ref) :: u[x] == t[x]
    ensures Dense(u, keys, ref) <==> Dense(t, keys, ref)
  {
    SameShapeSamePartition(t, u, keys, ref);
  }

  /**
   setOrder with the ranges that keep the partition dense: clamp to the
   highest order, shift only the rows between the old order and the target.
   */
  ghost function SetOrderIntended(t: Table, cfg: Config, id: RowId, request: int): (r: Result<Table, Error>)
    requires id in t
    ensures r.Err? <==> request < 0
    ensures r.Ok? ==> SameShape(t, r.value)
    ensures r.Ok? ==> forall x | x in t && x != id && !SameGroup(t[x].cols, t[id].cols, ShiftKeys(cfg)) ::
              r.value[x] == t[x]
  {
    if request < 0 then Err(NegativeOrder(request))
    else
      var self := t[id];
      var high := Highest(t, cfg, id);
      var target := if high.Some? then Min(high.value, request) else request;
      var shifted :=
        if target > self.order then ShiftRange(t, ShiftKeys(cfg), self.cols, self.order + 1, target, -1)
        else if target < self.order then ShiftRange(t, ShiftKeys(cfg), self.cols, target, self.order - 1, 1)
        else t;
      Ok(shifted[id := self.(order := target)])
  }

  /** The corrected move keeps the moved row's partition dense, whatever the request. */
  lemma IntendedKeepsDense(t: Table, cfg: Config, id: RowId, request: int)
    requires id in t && Aligned(cfg)
    requires Dense(t, cfg.orderKeys, t[id].cols)
    requires request >= 0
    ensures SetOrderIntended(t, cfg, id, request).Ok?
    ensures Dense(SetOrderIntended(t, cfg, id, request).value, cfg.orderKeys, t[id].cols)
    ensures SetOrderIntended(t, cfg, id, request).value[id].order == Min(|Siblings(t, cfg, id)| - 1, request)
  {
    var keys, self := cfg.orderKeys, t[id];
    var p := Partition(t, keys, self.cols);
    OwnPartition(t, keys, id);
    DenseHighest(t, keys, self.cols);
    var n, from := |p|, self.order;
    var target := Min(n - 1, request);
    var u := SetOrderIntended(t, cfg, id, request).value;
    SameShapeSamePartition(t, u, keys, self.cols);
    assert u[id].order == target;
    forall x | x in p && x != id
      ensures 0 <= u[x].order < n && u[x].order != target
      ensures target > from ==> u[x].order == if from < t[x].order <= target then t[x].order - 1 else t[x].order
      ensures target < from ==> u[x].order == if target <= t[x].order < from then t[x].order + 1 else t[x].order
      ensures target == from ==> u[x].order == t[x].order
    {
      assert t[x].order != from;
    }
    forall a, b | a in p && b in p && a != b
      ensures u[a].order != u[b].order
    {
      assert t[a].order != t[b].order;
    }
  }

  /**
   The conditions under which setOrder's clamp and shift ranges, as written,
   select the same rows as the ranges that keep the partition dense, for a
   row of a dense partition of N rows at order `from`: a lone row is only
   ever asked for 0; a move that really goes up starts at order 0 or 1; a
   move down starts at N-2 or N-1.
   */
  ghost predicate SafeMove(t: Table, cfg: Config, id: RowId, request: int)
    requires id in t
  {
    var n, from := |Siblings(t, cfg, id)|, t[id].order;
    && (n >= 2 || request == 0)
    && (request > from && from < n - 1 ==> from <= 1)
    && (request < from ==> from >= n - 2)
  }

  /** Two range shifts that select the same rows, apart from row `id`, agree once `id` is overwritten. */
  lemma ShiftsAgreeOffRow(t: Table, keys: seq<string>, ref: Cols, lo1: int, hi1: int, lo2: int, hi2: int,
                          delta: int, id: RowId, row: Row)
    requires forall x | x in t && x != id && SameGroup(t[x].cols, ref, keys) ::
               (lo1 <= t[x].order <= hi1) == (lo2 <= t[x].order <= hi2)
    ensures ShiftRange(t, keys, ref, lo1, hi1, delta)[id := row] == ShiftRange(t, keys, ref, lo2, hi2, delta)[id := row]
  {
    var w := ShiftRange(t, keys, ref, lo1, hi1, delta)[id := row];
    var v := ShiftRange(t, keys, ref, lo2, hi2, delta)[id := row];
    assert forall x | x in w :: w[x] == v[x];
  }

  /** setOrder as written on a move up, with its clamp already resolved. */
  lemma WrittenUp(t: Table, cfg: Config, id: RowId, request: int, target: int)
    requires id in t && request >= 0
    requires ClampTarget(Highest(t, cfg, id), request) == target > t[id].order
    ensures SetOrder(t, cfg, id, request)
         == Ok(ShiftRange(t, ShiftKeys(cfg), t[id].cols, 1, target, -1)[id := t[id].(order := target)])
  {
  }

  lemma WrittenDown(t: Table, cfg: Config, id: RowId, request: int, target: int)
    requires id in t && request >= 0
    requires ClampTarget(Highest(t, cfg, id), request) == target < t[id].order
    ensures SetOrder(t, cfg, id, request)
         == Ok(ShiftRange(t, ShiftKeys(cfg), t[id].cols, target, OrZero(Highest(t, cfg, id)) - 1, 1)
                 [id := t[id].(order := target)])
  {
  }

  lemma IntendedUp(t: Table, cfg: Config, id: RowId, request: int, target: int)
    requires id in t && request >= 0
    requires Highest(t, cfg, id).Some? && Min(Highest(t, cfg, id).value, request) == target > t[id].order
    ensures SetOrderIntended(t, cfg, id, request)
         == Ok(ShiftRange(t, ShiftKeys(cfg), t[id].cols, t[id].order + 1, target, -1)[id := t[id].(order := target)])
  {
  }

  lemma IntendedDown(t: Table, cfg: Config, id: RowId, request: int, target: int)
    requires id in t && request >= 0
    requires Highest(t, cfg, id).Some? && Min(Highest(t, cfg, id).value, request) == target < t[id].order
    ensures SetOrderIntended(t, cfg, id, request)
         == Ok(ShiftRange(t, ShiftKeys(cfg), t[id].cols, target, t[id].order - 1, 1)[id := t[id].(order := target)])
  {
  }

  lemma AgreeUp(t: Table, cfg: Config, id: RowId, request: int, target: int)
    requires id in t && request >= 0
    requires ClampTarget(Highest(t, cfg, id), request) == target > t[id].order
    requires Highest(t, cfg, id).Some? && Min(Highest(t, cfg, id).value, request) == target
    requires forall x | x in t && x != id && SameGroup(t[x].cols, t[id].cols, ShiftKeys(cfg)) ::
               (1 <= t[x].order <= target) == (t[id].order + 1 <= t[x].order <= target)
    ensures SetOrder(t, cfg, id, request) == SetOrderIntended(t, cfg, id, request)
  {
    WrittenUp(t, cfg, id, request, target);
    IntendedUp(t, cfg, id, request, target);
    ShiftsAgreeOffRow(t, ShiftKeys(cfg), t[id].cols, 1, target, t[id].order + 1, target, -1, id, t[id].(order := target));
  }

  lemma AgreeDown(t: Table, cfg: Config, id: RowId, request: int, target: int)
    requires id in t && request >= 0
    requires ClampTarget(Highest(t, cfg, id), request) == target < t[id].order
    requires Highest(t, cfg, id).Some? && Min(Highest(t, cfg, id).value, request) == target
    requires forall x | x in t && x != id && SameGroup(t[x].cols, t[id].cols, ShiftKeys(cfg)) ::
               (target <= t[x].order <= OrZero(Highest(t, cfg, id)) - 1) == (target <= t[x].order <= t[id].order - 1)
    ensures SetOrder(t, cfg, id, request) == SetOrderIntended(t, cfg, id, request)
  {
    WrittenDown(t, cfg, id, request, target);
    IntendedDown(t, cfg, id, request, target);
    ShiftsAgreeOffRow(t, ShiftKeys(cfg), t[id].cols, target, OrZero(Highest(t, cfg, id)) - 1,
                      target, t[id].order - 1, 1, id, t[id].(order := target));
  }

  /** With aligned filters, the rows a shift may touch besides the moved row are its siblings at other orders. */
  lemma ShiftedRowsAreSiblings(t: Table, cfg: Config, id: RowId)
    requires id in t && Aligned(cfg)
    requires Dense(t, cfg.orderKeys, t[id].cols)
    ensures forall x | x in t && x != id && SameGroup(t[x].cols, t[id].cols, ShiftKeys(cfg)) ::
              x in Siblings(t, cfg, id) && t[x].order != t[id].order
  {
    OwnPartition(t, cfg.orderKeys, id);
  }

  /** Under SafeMove, setOrder as written is the corrected one. */
  lemma WrittenAgreesWithIntended(t: Table, cfg: Config, id: RowId, request: int)
    requires id in t && Aligned(cfg)
    requires Dense(t, cfg.orderKeys, t[id].cols)
    requires request >= 0
    requires SafeMove(t, cfg, id, request)
    ensures SetOrder(t, cfg, id, request) == SetOrderIntended(t, cfg, id, request)
  {
    var self := t[id];
    var n, from := |Siblings(t, cfg, id)|, self.order;
    OwnPartition(t, cfg.orderKeys, id);
    DenseHighest(t, cfg.orderKeys, self.cols);
    var high := Highest(t, cfg, id);
    var target := Min(n - 1, request);
    assert ClampTarget(high, request) == target;
    ShiftedRowsAreSiblings(t, cfg, id);
    if target > from {
      assert from <= 1;
      AgreeUp(t, cfg, id, request, target);
    } else if target < from {
      assert from >= n - 2 && OrZero(high) == n - 1;
      AgreeDown(t, cfg, id, request, target);
    } else {
      assert SetOrder(t, cfg, id, request) == Ok(t);
      assert SetOrderIntended(t, cfg, id, request).value == t;
    }
  }

  /** Moving up from order 2 or above, short of the top: two rows end at order 0. */
  lemma UpMoveFromAboveOneBreaksDensity(t: Table, cfg: Config, id: RowId, request: int)
    requires id in t && Aligned(cfg)
    requires Dense(t, cfg.orderKeys, t[id].cols)
    requires 2 <= t[id].order < |Siblings(t, cfg, id)| - 1
    requires request > t[id].order
    ensures SetOrder(t, cfg, id, request).Ok?
    ensures !Dense(SetOrder(t, cfg, id, request).value, cfg.orderKeys, t[id].cols)
  {
    var keys, self := cfg.orderKeys, t[id];
    var p := Partition(t, keys, self.cols);
    DenseHighest(t, keys, self.cols);
    DenseCovers(t, keys, self.cols, 0);
    DenseCovers(t, keys, self.cols, 1);
    var x0 :| x0 in p && t[x0].order == 0;
    var x1 :| x1 in p && t[x1].order == 1;
    var u := SetOrder(t, cfg, id, request).value;
    SameShapeSamePartition(t, u, keys, self.cols);
    assert u[x0].order == 0 && u[x1].order == 0;
  }

  /** Moving down from below N-2: the rows at N-2 and N-1 both end at N-1. */
  lemma DownMoveFromBelowBreaksDensity(t: Table, cfg: Config, id: RowId, request: int)
    requires id in t && Aligned(cfg)
    requires Dense(t, cfg.orderKeys, t[id].cols)
    requires t[id].order < |Siblings(t, cfg, id)| - 2
    requires 0 <= request < t[id].order
    ensures SetOrder(t, cfg, id, request).Ok?
    ensures !Dense(SetOrder(t, cfg, id, request).value, cfg.orderKeys, t[id].cols)
  {
    var keys, self := cfg.orderKeys, t[id];
    var p := Partition(t, keys, self.cols);
    var n := |p|;
    DenseHighest(t, keys, self.cols);
    DenseCovers(t, keys, self.cols, n - 2);
    DenseCovers(t, keys, self.cols, n - 1);
    var xa :| xa in p && t[xa].order == n - 2;
    var xb :| xb in p && t[xb].order == n - 1;
    var u := SetOrder(t, cfg, id, request).value;
    SameShapeSamePartition(t, u, keys, self.cols);
    assert u[xa].order == n - 1 && u[xb].order == n - 1;
  }

  /** A lone row at order 0 is not clamped: it lands on the request itself. */
  lemma LoneRowIsNotClamped(t: Table, cfg: Config, id: RowId, request: int)
    requires id in t
    requires Dense(t, cfg.orderKeys, t[id].cols)
    requires |Siblings(t, cfg, id)| == 1
    requires request > 0
    ensures SetOrder(t, cfg, id, request).Ok?
    ensures SetOrder(t, cfg, id, request).value[id].order == request
    ensures !Dense(SetOrder(t, cfg, id, request).value, cfg.orderKeys, t[id].cols)
  {
    var keys, self := cfg.orderKeys, t[id];
    OwnPartition(t, keys, id);
    DenseHighest(t, keys, self.cols);
    var u := SetOrder(t, cfg, id, request).value;
    SameShapeSamePartition(t, u, keys, self.cols);
  }

  /**
   On a dense partition, setOrder as written leaves the partition dense
   exactly when the move is a SafeMove.
   */
  lemma SetOrderKeepsDenseIff(t: Table, cfg: Config, id: RowId, request: int)
    requires id in t && Aligned(cfg)
    requires Dense(t, cfg.orderKeys, t[id].cols)
    requires request >= 0
    ensures SetOrder(t, cfg, id, request).Ok?
    ensures Dense(SetOrder(t, cfg, id, request).value, cfg.orderKeys, t[id].cols) <==> SafeMove(t, cfg, id, request)
  {
    var n, from := |Siblings(t, cfg, id)|, t[id].order;
    OwnPartition(t, cfg.orderKeys, id);
    if SafeMove(t, cfg, id, request) {
      WrittenAgreesWithIntended(t, cfg, id, request);
      IntendedKeepsDense(t, cfg, id, request);
    } else if n < 2 && request != 0 {
      LoneRowIsNotClamped(t, cfg, id, request);
    } else if request > from && from < n - 1 && from > 1 {
      UpMoveFromAboveOneBreaksDensity(t, cfg, id, request);
    } else {
      DownMoveFromBelowBreaksDensity(t, cfg, id, request);
    }
  }

  /** A create without an order appends: the new row takes order N and the partition stays dense. */
  lemma CreateAppends(t: Table, cfg: Config, id: RowId, cols: Cols, given: Option<int>)
    requires id !in t
    requires !(given.Some? && given.value >= 0)
    requires Dense(t, cfg.orderKeys, cols)
    ensures Create(t, cfg, id, cols, given)[id].order == |Partition(t, cfg.orderKeys, cols)|
    ensures Partition(Create(t, cfg, id, cols, given), cfg.orderKeys, cols) == Partition(t, cfg.orderKeys, cols) + {id}
    ensures Dense(Create(t, cfg, id, cols, given), cfg.orderKeys, cols)
  {
    var keys := cfg.orderKeys;
    var p := Partition(t, keys, cols);
    var u := Create(t, cfg, id, cols, given);
    AppendedOrder(t, cfg, cols, given);
    AppendedPartition(t, cfg, id, cols, given);
    var q := Partition(u, keys, cols);
    assert |q| == |p| + 1;
    forall x | x in q
      ensures 0 <= u[x].order < |q|
    {
      if x != id {
        assert x in p;
      }
    }
    forall a, b | a in q && b in q && a != b
      ensures u[a].order != u[b].order
    {
      if a != id && b != id {
        assert a in p && b in p;
      } else if a != id {
        assert a in p;
      } else {
        assert b in p;
      }
    }
  }

  /** Without a usable order the hook picks N in a dense partition of N rows. */
  lemma AppendedOrder(t: Table, cfg: Config, cols: Cols, given: Option<int>)
    requires !(given.Some? && given.value >= 0)
    requires Dense(t, cfg.orderKeys, cols)
    ensures PopulateOrder(t, cfg, cols, given) == |Partition(t, cfg.orderKeys, cols)|
  {
    if Partition(t, cfg.orderKeys, cols) != {} {
      DenseHighest(t, cfg.orderKeys, cols);
    }
  }

  /** The new row joins the partition its own columns select, and no other row moves in or out. */
  lemma AppendedPartition(t: Table, cfg: Config, id: RowId, cols: Cols, given: Option<int>)
    requires id !in t
    ensures Partition(Create(t, cfg, id, cols, given), cfg.orderKeys, cols) == Partition(t, cfg.orderKeys, cols) + {id}
  {
    var u := Create(t, cfg, id, cols, given);
    assert SameGroup(u[id].cols, cols, cfg.orderKeys);
  }

  /** Creating a row in another partition changes nothing there. */
  lemma CreateLeavesOtherPartitions(t: Table, cfg: Config, id: RowId, cols: Cols, given: Option<int>, ref: Cols)
    requires id !in t
    requires !SameGroup(cols, ref, cfg.orderKeys)
    ensures Partition(Create(t, cfg, id, cols, given), cfg.orderKeys, ref) == Partition(t, cfg.orderKeys, ref)
    ensures Dense(Create(t, cfg, id, cols, given), cfg.orderKeys, ref) <==> Dense(t, cfg.orderKeys, ref)
  {
    var u := Create(t, cfg, id, cols, given);
    assert Partition(u, cfg.orderKeys, ref) == Partition(t, cfg.orderKeys, ref);
  }

  /** Swapping two rows of one partition keeps every partition as dense as it was. */
  lemma SwapKeepsDense(t: Table, a: RowId, b: RowId, keys: seq<string>, ref: Cols)
    requires a in t && b in t
    requires SameGroup(t[a].cols, t[b].cols, keys)
    requires Dense(t, keys, ref)
    ensures Dense(SwapOrder(t, a, b), keys, ref)
  {
    var u := SwapOrder(t, a, b);
    var p := Partition(t, keys, ref);
    SameShapeSamePartition(t, u, keys, ref);
    if a in p {
      assert b in p;
      forall x | x in p
        ensures 0 <= u[x].order < |p|
      {
      }
      forall x, y | x in p && y in p && x != y
        ensures u[x].order != u[y].order
      {
      }
    } else {
      assert b !in p;
      UntouchedPartitionDense(t, u, keys, ref);
    }
  }

  /** Swapping the same two rows again restores the table. */
  lemma SwapTwiceRestores(t: Table, a: RowId, b: RowId)
    requires a in t && b in t
    ensures SwapOrder(SwapOrder(t, a, b), a, b) == t
  {
    var u := SwapOrder(SwapOrder(t, a, b), a, b);
    assert forall x | x in t :: u[x] == t[x];
  }

  /** Deleting a row from a table leaves the partition without it. */
  lemma DeletePartition(t: Table, id: RowId, keys: seq<string>, ref: Cols)
    requires id in t
    ensures Partition(t - {id}, keys, ref) == Partition(t, keys, ref) - {id}
  {
  }

  /** In a dense partition, every order other than the deleted row's is held by a survivor. */
  lemma SurvivorHolds(t: Table, keys: seq<string>, id: RowId, l: seq<RowId>, m: int) returns (k: nat)
    requires id in t
    requires Dense(t, keys, t[id].cols)
    requires ValidListing(t - {id}, keys, t[id].cols, l)
    requires 0 <= m < |Partition(t, keys, t[id].cols)| && m != t[id].order
    ensures k < |l| && l[k] in t && t[l[k]].order == m
  {
    DenseCovers(t, keys, t[id].cols, m);
    var y :| y in Partition(t, keys, t[id].cols) && t[y].order == m;
    DeletePartition(t, id, keys, t[id].cols);
    assert y in Partition(t - {id}, keys, t[id].cols);
    ListingMembers(t - {id}, keys, t[id].cols, l);
    assert y in l;
    k :| 0 <= k < |l| && l[k] == y;
  }

  /** The facts a delete leaves behind: orders strictly rise along the listing, lie in 0..n-1 and skip g. */
  ghost predicate GapListing(t: Table, l: seq<RowId>, g: int, n: int)
  {
    && (forall i | 0 <= i < |l| :: l[i] in t && 0 <= t[l[i]].order < n && t[l[i]].order != g)
    && (forall i, j | 0 <= i < j < |l| && l[i] in t && l[j] in t :: t[l[i]].order < t[l[j]].order)
  }

  lemma DeleteListing(t: Table, keys: seq<string>, id: RowId, l: seq<RowId>)
    requires id in t
    requires Dense(t, keys, t[id].cols)
    requires ValidListing(t - {id}, keys, t[id].cols, l)
    ensures |l| == |Partition(t, keys, t[id].cols)| - 1
    ensures GapListing(t, l, t[id].order, |Partition(t, keys, t[id].cols)|)
  {
    var rest := t - {id};
    var p := Partition(t, keys, t[id].cols);
    OwnPartition(t, keys, id);
    DeletePartition(t, id, keys, t[id].cols);
    ListingSize(rest, keys, t[id].cols, l);
    assert |p - {id}| == |p| - 1;
    forall i | 0 <= i < |l|
      ensures l[i] in p && l[i] != id
    {
      assert l[i] in Partition(rest, keys, t[id].cols);
    }
    forall i, j | 0 <= i < j < |l|
      ensures t[l[i]].order < t[l[j]].order
    {
      assert rest[l[i]].order <= rest[l[j]].order;
    }
  }

  /** Below the deleted order g, the k-th listed survivor holds k. */
  lemma {:induction false} BelowGapPinned(t: Table, keys: seq<string>, id: RowId, l: seq<RowId>)
    requires id in t
    requires Dense(t, keys, t[id].cols)
    requires ValidListing(t - {id}, keys, t[id].cols, l)
    ensures forall i | 0 <= i < |l| && t[l[i]].order < t[id].order :: t[l[i]].order == i
  {
    var g := t[id].order;
    DeleteListing(t, keys, id, l);
    var k := 0;
    while k < |l|
      invariant 0 <= k <= |l|
      invariant forall i | 0 <= i < k && t[l[i]].order < g :: t[l[i]].order == i
    {
      if t[l[k]].order < g && t[l[k]].order != k {
        assert t[l[k]].order > k by {
          if k > 0 {
            assert t[l[k - 1]].order < t[l[k]].order;
          }
        }
        var j := SurvivorHolds(t, keys, id, l, k);
        assert false;
      }
      k := k + 1;
    }
  }

  /** Above the deleted order g, the k-th listed survivor holds k + 1. */
  lemma {:induction false} AboveGapPinned(t: Table, keys: seq<string>, id: RowId, l: seq<RowId>)
    requires id in t
    requires Dense(t, keys, t[id].cols)
    requires ValidListing(t - {id}, keys, t[id].cols, l)
    ensures forall i | 0 <= i < |l| && t[l[i]].order > t[id].order :: t[l[i]].order == i + 1
  {
    var g := t[id].order;
    DeleteListing(t, keys, id, l);
    var k := |l|;
    while k > 0
      invariant 0 <= k <= |l|
      invariant forall i | k <= i < |l| && t[l[i]].order > g :: t[l[i]].order == i + 1
    {
      var i := k - 1;
      if t[l[i]].order > g && t[l[i]].order != i + 1 {
        assert t[l[i]].order < i + 1 by {
          if i + 1 < |l| {
            assert t[l[i]].order < t[l[i + 1]].order;
          }
        }
        var j := SurvivorHolds(t, keys, id, l, i + 1);
        assert false;
      }
      k := k - 1;
    }
  }

  /**
   After a delete from a dense partition, the survivors below the deleted
   row keep their orders and those above it move down by one.
   */
  lemma DeleteClosesGap(t: Table, cfg: Config, id: RowId, l: seq<RowId>)
    requires id in t
    requires Dense(t, cfg.orderKeys, t[id].cols)
    requires ValidListing(t - {id}, cfg.orderKeys, t[id].cols, l)
    ensures forall x | x in t && x != id && SameGroup(t[x].cols, t[id].cols, cfg.orderKeys) ::
              DeleteAndSync(t, cfg, id, l)[x].order
                == if t[x].order < t[id].order then t[x].order else t[x].order - 1
  {
    var keys := cfg.orderKeys;
    DeleteListing(t, keys, id, l);
    BelowGapPinned(t, keys, id, l);
    AboveGapPinned(t, keys, id, l);
    DeletePartition(t, id, keys, t[id].cols);
    ListingMembers(t - {id}, keys, t[id].cols, l);
    var r := DeleteAndSync(t, cfg, id, l);
    forall x | x in t && x != id && SameGroup(t[x].cols, t[id].cols, keys)
      ensures r[x].order == if t[x].order < t[id].order then t[x].order else t[x].order - 1
    {
      assert x in Partition(t - {id}, keys, t[id].cols);
      var i :| 0 <= i < |l| && l[i] == x;
    }
  }
}
