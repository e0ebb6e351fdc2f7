/**
 Worked cases of the ordering mixin on small concrete tables, following the
 mixin's own test suite, plus the inputs that show where the shift ranges
 and the clamp go wrong.

 Row ids are written as the position a row was created in. Unless a case
 says otherwise the model has neither order keys nor an order column, so
 the whole table is one partition.
 */
module Scenarios {
  import opened Wrappers
  import opened Rows
  import opened OrderedModelService
  import opened Ordered
  import opened OrderedDensity
  import opened OrderedPlacement

  /** `Ordered(tableName)` on a model without order keys. */
  const Plain := Config([], None)

  function Bare(order: int): Row { Row(map[], order) }

  /** A row whose `test` column holds `group`. */
  function Tagged(group: int, order: int): Row { Row(map["test" := group], order) }

  /** Two tagged rows share a partition by `test` exactly when their groups agree. */
  lemma TaggedGroups(a: int, b: int, o1: int, o2: int)
    ensures SameGroup(Tagged(a, o1).cols, Tagged(b, o2).cols, ["test"]) <==> a == b
  {
    var keys: seq<string> := ["test"];
    assert keys[0] == "test";
    assert Lookup(Tagged(a, o1).cols, "test") == Some(a);
    assert Lookup(Tagged(b, o2).cols, "test") == Some(b);
  }

  /** Orders 0, 1, 2. */
  function Three(): Table { map[0 := Bare(0), 1 := Bare(1), 2 := Bare(2)] }

  /** Orders 0, 1, 2, 3. */
  function Four(): Table { map[0 := Bare(0), 1 := Bare(1), 2 := Bare(2), 3 := Bare(3)] }

  /** A single row at order 0. */
  function Lone(): Table { map[0 := Bare(0)] }

  lemma ThreeHighest(ref: Cols)
    ensures GetHighestOrder(Three(), [], ref) == Some(2)
  {
    NoKeysWholeTable(Three(), ref);
    HighestIsMaximum(Three(), [], ref, 2);
  }

  lemma FourHighest(ref: Cols)
    ensures GetHighestOrder(Four(), [], ref) == Some(3)
  {
    NoKeysWholeTable(Four(), ref);
    HighestIsMaximum(Four(), [], ref, 3);
  }

  lemma LoneHighest(ref: Cols)
    ensures GetHighestOrder(Lone(), [], ref) == Some(0)
  {
    NoKeysWholeTable(Lone(), ref);
    HighestIsMaximum(Lone(), [], ref, 0);
  }

  /** Rows at 0 and 1: the highest order is 1. */
  lemma HighestOfTwo()
    ensures GetHighestOrder(map[0 := Bare(0), 1 := Bare(1)], [], map[]) == Some(1)
  {
    NoKeysWholeTable(map[0 := Bare(0), 1 := Bare(1)], map[]);
    HighestIsMaximum(map[0 := Bare(0), 1 := Bare(1)], [], map[], 1);
  }

  /** Groups test=0 at 0, 1, 2 and test=1 at 0, 1. */
  function Five(): Table
  {
    map[0 := Tagged(0, 0), 1 := Tagged(0, 1), 2 := Tagged(0, 2), 3 := Tagged(1, 0), 4 := Tagged(1, 1)]
  }

  /**
   The query filters by order keys only. With `test` declared as an order
   key, row 3's partition tops out at 1; with `test` given only as the
   mixin's order column, the query spans the whole table and answers 2.
   */
  lemma HighestFollowsOrderKeysOnly()
    ensures GetHighestOrder(Five(), ["test"], Five()[3].cols) == Some(1)
    ensures GetHighestOrder(Five(), [], Five()[3].cols) == Some(2)
  {
    var t := Five();
    forall i, j, o1, o2 {
      TaggedGroups(i, j, o1, o2);
    }
    assert forall x :: x in Partition(t, ["test"], t[3].cols) <==> x in {3, 4};
    HighestIsMaximum(t, ["test"], t[3].cols, 4);
    NoKeysWholeTable(t, t[3].cols);
    HighestIsMaximum(t, [], t[3].cols, 2);
  }

  /** Row 2 set to 1: orders become 0, 2, 1. */
  lemma SetLowerOrder()
    ensures var r := SetOrder(Three(), Plain, 2, 1);
            r.Ok? && r.value[0].order == 0 && r.value[1].order == 2 && r.value[2].order == 1
  {
    ThreeHighest(map[]);
  }

  /** Row 0 set to 1: orders become 1, 0, 2. */
  lemma SetHigherOrder()
    ensures var r := SetOrder(Three(), Plain, 0, 1);
            r.Ok? && r.value[0].order == 1 && r.value[1].order == 0 && r.value[2].order == 2
  {
    ThreeHighest(map[]);
  }

  /** Row 1 set to 2: orders become 0, 2, 1. */
  lemma SetOrderToLast()
    ensures var r := SetOrder(Three(), Plain, 1, 2);
            r.Ok? && r.value[0].order == 0 && r.value[1].order == 2 && r.value[2].order == 1
  {
    ThreeHighest(map[]);
  }

  /** Row 2 set to 0: orders become 1, 2, 0. */
  lemma SetOrderToFirst()
    ensures var r := SetOrder(Three(), Plain, 2, 0);
            r.Ok? && r.value[0].order == 1 && r.value[1].order == 2 && r.value[2].order == 0
  {
    ThreeHighest(map[]);
  }

  /** Row 0 set to 4 is clamped to 2: orders become 2, 0, 1. */
  lemma SetOrderPastEnd()
    ensures var r := SetOrder(Three(), Plain, 0, 4);
            r.Ok? && r.value[0].order == 2 && r.value[1].order == 0 && r.value[2].order == 1
  {
    ThreeHighest(map[]);
  }

  /** The last row set to 4 stays where it is. */
  lemma SetLastPastEnd()
    ensures SetOrder(Three(), Plain, 2, 4) == Ok(Three())
  {
    ThreeHighest(map[]);
  }

  /** A negative request is refused. */
  lemma SetNegativeOrder()
    ensures SetOrder(Three(), Plain, 1, -1) == Err(NegativeOrder(-1))
  {
  }

  /** Groups test=0 and test=1, each at 0, 1, 2. */
  function Six(): Table
  {
    map[0 := Tagged(0, 0), 1 := Tagged(0, 1), 2 := Tagged(0, 2),
        3 := Tagged(1, 0), 4 := Tagged(1, 1), 5 := Tagged(1, 2)]
  }

  /** `Ordered(tableName, { orderColumnName: 'test' })` on a model without order keys. */
  const ByColumn := Config([], Some("test"))

  lemma SixHighest(ref: Cols)
    ensures GetHighestOrder(Six(), [], ref) == Some(2)
  {
    NoKeysWholeTable(Six(), ref);
    HighestIsMaximum(Six(), [], ref, 2);
  }

  /** With an order column, row 2 set to 1 reorders its group only. */
  lemma SetLowerOrderByColumn()
    ensures var r := SetOrder(Six(), ByColumn, 2, 1);
            && r.Ok?
            && r.value[0].order == 0 && r.value[1].order == 2 && r.value[2].order == 1
            && r.value[3].order == 0 && r.value[4].order == 1 && r.value[5].order == 2
  {
    SixHighest(Six()[2].cols);
    WrittenDown(Six(), ByColumn, 2, 1, 1);
    forall i, j, o1, o2 {
      TaggedGroups(i, j, o1, o2);
    }
  }

  /** With an order column, row 1 set to 2 reorders its group only. */
  lemma SetHigherOrderByColumn()
    ensures var r := SetOrder(Six(), ByColumn, 1, 2);
            && r.Ok?
            && r.value[0].order == 0 && r.value[1].order == 2 && r.value[2].order == 1
            && r.value[3].order == 0 && r.value[4].order == 1 && r.value[5].order == 2
  {
    SixHighest(Six()[1].cols);
    WrittenUp(Six(), ByColumn, 1, 2, 2);
    forall i, j, o1, o2 {
      TaggedGroups(i, j, o1, o2);
    }
  }

  /** Moving the row at 2 up to 3 in 0, 1, 2, 3 gives 0, 0, 3, 2. */
  lemma UpMoveCounterexample()
    ensures var r := SetOrder(Four(), Plain, 2, 3);
            && r.Ok?
            && r.value[0].order == 0 && r.value[1].order == 0 && r.value[2].order == 3 && r.value[3].order == 2
    ensures !Dense(SetOrder(Four(), Plain, 2, 3).value, [], map[])
  {
    FourHighest(map[]);
    NoKeysWholeTable(SetOrder(Four(), Plain, 2, 3).value, map[]);
  }

  /** The corrected move gives 0, 1, 3, 2 instead. */
  lemma UpMoveIntended()
    ensures var r := SetOrderIntended(Four(), Plain, 2, 3);
            && r.Ok?
            && r.value[0].order == 0 && r.value[1].order == 1 && r.value[2].order == 3 && r.value[3].order == 2
  {
    FourHighest(map[]);
  }

  /** Moving the row at 1 down to 0 in 0, 1, 2, 3 gives 1, 0, 3, 3. */
  lemma DownMoveCounterexample()
    ensures var r := SetOrder(Four(), Plain, 1, 0);
            && r.Ok?
            && r.value[0].order == 1 && r.value[1].order == 0 && r.value[2].order == 3 && r.value[3].order == 3
    ensures !Dense(SetOrder(Four(), Plain, 1, 0).value, [], map[])
  {
    FourHighest(map[]);
    NoKeysWholeTable(SetOrder(Four(), Plain, 1, 0).value, map[]);
  }

  /** The corrected move gives 1, 0, 2, 3 instead. */
  lemma DownMoveIntended()
    ensures var r := SetOrderIntended(Four(), Plain, 1, 0);
            && r.Ok?
            && r.value[0].order == 1 && r.value[1].order == 0 && r.value[2].order == 2 && r.value[3].order == 3
  {
    FourHighest(map[]);
  }

  /** A lone row at 0 set to 3 lands on 3: a highest order of 0 does not clamp. */
  lemma LoneRowCounterexample()
    ensures var r := SetOrder(Lone(), Plain, 0, 3);
            r.Ok? && r.value[0].order == 3
    ensures var r := SetOrderIntended(Lone(), Plain, 0, 3);
            r.Ok? && r.value[0].order == 0
  {
    LoneHighest(map[]);
  }

  /** moveBefore from the row at 0 to the row at 2 of 0, 1, 2 gives 2, 0, 1: the row ends after the other row. */
  lemma MoveBeforeCounterexample()
    ensures var r := MoveBefore(Three(), Plain, 0, 2);
            r.Ok? && r.value[0].order == 2 && r.value[1].order == 0 && r.value[2].order == 1
    ensures var r := MoveBefore(Three(), Plain, 0, 1);
            r.Ok? && r.value[0].order == 1 && r.value[1].order == 0 && r.value[2].order == 2
  {
    ThreeHighest(map[]);
  }

  /** The corrected moveBefore from 0 to the row at 2 gives 1, 0, 2. */
  lemma MoveBeforeIntendedThree()
    ensures var r := MoveBeforeIntended(Three(), Plain, 0, 2);
            r.Ok? && r.value[0].order == 1 && r.value[1].order == 0 && r.value[2].order == 2
  {
    ThreeHighest(map[]);
  }

  /** moveAfter from the row at 2 to the row at 1 of 0, 1, 2 gives 0, 2, 1: the row ends before the other row. */
  lemma MoveAfterCounterexample()
    ensures var r := MoveAfter(Three(), Plain, 2, 1);
            r.Ok? && r.value[0].order == 0 && r.value[1].order == 2 && r.value[2].order == 1
  {
    ThreeHighest(map[]);
  }

  /** The corrected moveAfter from 2 to the row at 1 is already in place and changes nothing. */
  lemma MoveAfterIntendedThree()
    ensures MoveAfterIntended(Three(), Plain, 2, 1) == Ok(Three())
  {
    ThreeHighest(map[]);
  }

  /** moveUp on the middle row: orders become 0, 2, 1. */
  lemma MoveUpMiddle()
    ensures var r := MoveUp(Three(), Plain, 1);
            r.Ok? && r.value[0].order == 0 && r.value[1].order == 2 && r.value[2].order == 1
  {
    ThreeHighest(map[]);
  }

  /** moveUp on the last row, or on a lone row, changes nothing. */
  lemma MoveUpAtTop()
    ensures MoveUp(Three(), Plain, 2) == Ok(Three())
    ensures MoveUp(Lone(), Plain, 0) == Ok(Lone())
  {
    ThreeHighest(map[]);
    LoneHighest(map[]);
  }

  /** moveToEnd on the first row: orders become 2, 0, 1. */
  lemma MoveFirstToEnd()
    ensures var r := MoveToEnd(Three(), Plain, 0);
            r.Ok? && r.value[0].order == 2 && r.value[1].order == 0 && r.value[2].order == 1
  {
    ThreeHighest(map[]);
  }

  /** Of 0, 1, 2 the row at 2 is last and the row at 1 is not. */
  lemma LastOfThree()
    ensures IsLast(Three(), Plain, 2)
    ensures !IsLast(Three(), Plain, 1)
  {
    ThreeHighest(map[]);
  }

  /** Three creates without an order into an empty table get 0, 1 and 2. */
  lemma CreatesAppend()
    ensures var t1 := Create(map[], Plain, 0, map[], None);
            var t2 := Create(t1, Plain, 1, map[], None);
            var t3 := Create(t2, Plain, 2, map[], None);
            t3[0].order == 0 && t3[1].order == 1 && t3[2].order == 2
  {
    var t1 := Create(map[], Plain, 0, map[], None);
    NoKeysWholeTable(t1, map[]);
    HighestIsMaximum(t1, [], map[], 0);
    var t2 := Create(t1, Plain, 1, map[], None);
    NoKeysWholeTable(t2, map[]);
    HighestIsMaximum(t2, [], map[], 1);
  }

  /** A create that brings its own order keeps it. */
  lemma CreateKeepsGivenOrder()
    ensures Create(Three(), Plain, 3, map[], Some(7))[3].order == 7
  {
  }

  /** All three rows at 0, synced in listing order: 0, 1, 2. */
  lemma SyncSpreadsTies()
    ensures var r := SyncSequence(map[0 := Bare(0), 1 := Bare(0), 2 := Bare(0)], Plain, 0, [0, 1, 2]);
            r[0].order == 0 && r[1].order == 1 && r[2].order == 2
  {
    NoKeysWholeTable(map[0 := Bare(0), 1 := Bare(0), 2 := Bare(0)], map[]);
  }

  /** Rows 0, 1, 2, 3 without row `id`, listed in order. */
  lemma FourWithout(id: RowId, l: seq<RowId>)
    requires (id == 0 && l == [1, 2, 3]) || (id == 1 && l == [0, 2, 3]) || (id == 3 && l == [0, 1, 2])
    ensures ValidListing(Four() - {id}, [], Four()[id].cols, l)
  {
    var rest := Four() - {id};
    NoKeysWholeTable(rest, Four()[id].cols);
    assert rest.Keys == {0, 1, 2, 3} - {id};
    assert forall x :: x in rest <==> x in l;
  }

  /** Deleting the first of 0, 1, 2, 3 leaves the survivors at 0, 1, 2. */
  lemma DeleteFirstOfFour()
    ensures ValidListing(Four() - {0}, [], map[], [1, 2, 3])
            && var r := DeleteAndSync(Four(), Plain, 0, [1, 2, 3]);
               r.Keys == {1, 2, 3} && r[1].order == 0 && r[2].order == 1 && r[3].order == 2
  {
    FourWithout(0, [1, 2, 3]);
  }

  /** Deleting a middle row of 0, 1, 2, 3 leaves the survivors at 0, 1, 2. */
  lemma DeleteMiddleOfFour()
    ensures ValidListing(Four() - {1}, [], map[], [0, 2, 3])
            && var r := DeleteAndSync(Four(), Plain, 1, [0, 2, 3]);
               r.Keys == {0, 2, 3} && r[0].order == 0 && r[2].order == 1 && r[3].order == 2
  {
    FourWithout(1, [0, 2, 3]);
  }

  /** Deleting the last of 0, 1, 2, 3 leaves the survivors at 0, 1, 2. */
  lemma DeleteLastOfFour()
    ensures ValidListing(Four() - {3}, [], map[], [0, 1, 2])
            && var r := DeleteAndSync(Four(), Plain, 3, [0, 1, 2]);
               r.Keys == {0, 1, 2} && r[0].order == 0 && r[1].order == 1 && r[2].order == 2
  {
    FourWithout(3, [0, 1, 2]);
  }

  /** Group test=0 at 0, 1, 2, 3 and group test=1 at 0, 2. */
  function Gapped(): Table
  {
    map[0 := Tagged(0, 0), 1 := Tagged(0, 1), 2 := Tagged(0, 2), 3 := Tagged(0, 3),
        4 := Tagged(1, 0), 5 := Tagged(1, 2)]
  }

  lemma GappedListing()
    ensures ValidListing(Gapped() - {2}, ["test"], Gapped()[2].cols, [0, 1, 3])
  {
    var t := Gapped();
    forall i, j, o1, o2 {
      TaggedGroups(i, j, o1, o2);
    }
    assert forall x :: x in Partition(t - {2}, ["test"], t[2].cols) <==> x in {0, 1, 3};
  }

  /**
   Order key `test`: deleting row 2 from test=0 at 0, 1, 2, 3 closes the
   gap there, and test=1 at 0, 2 is left as it was, gap and all.
   */
  lemma DeleteKeepsOtherGroups()
    ensures ValidListing(Gapped() - {2}, ["test"], Gapped()[2].cols, [0, 1, 3])
            && var r := DeleteAndSync(Gapped(), Config(["test"], None), 2, [0, 1, 3]);
               && r[0].order == 0 && r[1].order == 1 && r[3].order == 2
               && r[4].order == 0 && r[5].order == 2
  {
    GappedListing();
    TaggedGroups(1, 0, 0, 2);
    TaggedGroups(1, 0, 2, 2);
  }

  /** A row with two order keys, `testKey` and `testKeyTwo`. */
  function Paired(one: int, two: int, order: int): Row
  {
    Row(map["testKey" := one, "testKeyTwo" := two], order)
  }

  /** Two paired rows share a partition exactly when both keys agree. */
  lemma PairedGroups(a: int, b: int, c: int, d: int, o1: int, o2: int)
    ensures SameGroup(Paired(a, b, o1).cols, Paired(c, d, o2).cols, ["testKey", "testKeyTwo"]) <==> a == c && b == d
  {
    var keys: seq<string> := ["testKey", "testKeyTwo"];
    assert keys[0] == "testKey" && keys[1] == "testKeyTwo";
    assert Lookup(Paired(a, b, o1).cols, "testKey") == Some(a);
    assert Lookup(Paired(a, b, o1).cols, "testKeyTwo") == Some(b);
    assert Lookup(Paired(c, d, o2).cols, "testKey") == Some(c);
    assert Lookup(Paired(c, d, o2).cols, "testKeyTwo") == Some(d);
  }

  /** Pairs (0, 1) at 0, 1, 2 and (0, 2) at 0, 2. */
  function TwoKeyed(): Table
  {
    map[0 := Paired(0, 1, 0), 1 := Paired(0, 1, 1), 2 := Paired(0, 1, 2),
        3 := Paired(0, 2, 0), 4 := Paired(0, 2, 2)]
  }

  lemma TwoKeyedListing()
    ensures ValidListing(TwoKeyed() - {1}, ["testKey", "testKeyTwo"], TwoKeyed()[1].cols, [0, 2])
  {
    var t := TwoKeyed();
    forall a, b, c, d, o1, o2 {
      PairedGroups(a, b, c, d, o1, o2);
    }
    assert forall x :: x in Partition(t - {1}, ["testKey", "testKeyTwo"], t[1].cols) <==> x in {0, 2};
  }

  /** Two order keys: a partition needs both to match, so (0, 2) is untouched by a delete in (0, 1). */
  lemma DeleteWithTwoKeys()
    ensures ValidListing(TwoKeyed() - {1}, ["testKey", "testKeyTwo"], TwoKeyed()[1].cols, [0, 2])
            && var r := DeleteAndSync(TwoKeyed(), Config(["testKey", "testKeyTwo"], None), 1, [0, 2]);
               r[0].order == 0 && r[2].order == 1 && r[3].order == 0 && r[4].order == 2
  {
    TwoKeyedListing();
    PairedGroups(0, 2, 0, 1, 0, 1);
    PairedGroups(0, 2, 0, 1, 2, 1);
  }

  /** Swapping rows of two different groups leaves group test=0 holding 0 twice. */
  lemma SwapAcrossGroups()
    ensures var t := map[0 := Tagged(0, 0), 1 := Tagged(0, 1), 2 := Tagged(1, 0)];
            Dense(t, ["test"], Tagged(0, 0).cols) && !Dense(SwapOrder(t, 1, 2), ["test"], Tagged(0, 0).cols)
  {
    var t := map[0 := Tagged(0, 0), 1 := Tagged(0, 1), 2 := Tagged(1, 0)];
    forall i, j, o1, o2 {
      TaggedGroups(i, j, o1, o2);
    }
    assert forall x :: x in Partition(t, ["test"], Tagged(0, 0).cols) <==> x in {0, 1};
    assert Partition(t, ["test"], Tagged(0, 0).cols) == {0, 1};
    var u := SwapOrder(t, 1, 2);
    assert forall x :: x in Partition(u, ["test"], Tagged(0, 0).cols) <==> x in {0, 1};
    assert Partition(u, ["test"], Tagged(0, 0).cols) == {0, 1};
    assert u[0].order == u[1].order;
  }

  /**
   Order key `test` without the order column: the query sees group test=0
   only, but the shift runs over the whole table, so moving row 0 up
   also moves row 3 of group test=1 onto 0.
   */
  lemma MisalignedFiltersLeak()
    ensures var t := map[0 := Tagged(0, 0), 1 := Tagged(0, 1), 2 := Tagged(1, 0), 3 := Tagged(1, 1)];
            var r := SetOrder(t, Config(["test"], None), 0, 1);
            && r.Ok?
            && r.value[0].order == 1 && r.value[1].order == 0
            && r.value[2].order == 0 && r.value[3].order == 0
  {
    var t := map[0 := Tagged(0, 0), 1 := Tagged(0, 1), 2 := Tagged(1, 0), 3 := Tagged(1, 1)];
    forall i, j, o1, o2 {
      TaggedGroups(i, j, o1, o2);
    }
    assert forall x :: x in Partition(t, ["test"], t[0].cols) <==> x in {0, 1};
    HighestIsMaximum(t, ["test"], t[0].cols, 1);
  }
}
