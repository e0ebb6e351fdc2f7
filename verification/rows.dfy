/**
 Rows of an ordered table and the partitions they fall into.

 A row carries its column values and an integer `order`. A partition is the
 set of rows whose value in every key column equals the value a reference
 row holds there; with no key columns the partition is the whole table.
 */
module Rows {
  import opened Wrappers

  type RowId = nat
  type Cols = map<string, int>

  datatype Row = Row(cols: Cols, order: int)

  /** The stored table: primary key to row. */
  type Table = map<RowId, Row>

  /** The value of column `k`, or None when the row has no such column. */
  function Lookup(cols: Cols, k: string): Option<int>
  {
    if k in cols then Some(cols[k]) else None
  }

  /** One `where(key, ref[key])` per key column: all of them must match. */
  predicate SameGroup(cols: Cols, ref: Cols, keys: seq<string>)
  {
    forall i | 0 <= i < |keys| :: Lookup(cols, keys[i]) == Lookup(ref, keys[i])
  }

  /** The ids of the rows in the partition that `ref` selects. */
  function Partition(t: Table, keys: seq<string>, ref: Cols): (p: set<RowId>)
    ensures p <= t.Keys
    ensures forall id | id in t :: id in p <==> SameGroup(t[id].cols, ref, keys)
  {
    set id | id in t && SameGroup(t[id].cols, ref, keys)
  }

  /** Two partitions of one table are the same or share no row. */
  lemma PartitionsEqualOrDisjoint(t: Table, keys: seq<string>, a: Cols, b: Cols)
    ensures Partition(t, keys, a) == Partition(t, keys, b) || Partition(t, keys, a) !! Partition(t, keys, b)
  {
    if !(Partition(t, keys, a) !! Partition(t, keys, b)) {
      var x :| x in Partition(t, keys, a) && x in Partition(t, keys, b);
      SameGroupSamePartition(t, keys, a, t[x].cols);
      SameGroupSamePartition(t, keys, b, t[x].cols);
    }
  }

  /** Every row id shares a group with itself, so a row lies in the partition its own columns select. */
  lemma OwnPartition(t: Table, keys: seq<string>, id: RowId)
    requires id in t
    ensures id in Partition(t, keys, t[id].cols)
  {
  }

  /** With no key columns the filter is empty and the partition is the whole table. */
  lemma NoKeysWholeTable(t: Table, ref: Cols)
    ensures Partition(t, [], ref) == t.Keys
  {
  }

  /** Rows that share a group with `ref` select the same partition as `ref`. */
  lemma SameGroupSamePartition(t: Table, keys: seq<string>, a: Cols, b: Cols)
    requires SameGroup(a, b, keys)
    ensures Partition(t, keys, a) == Partition(t, keys, b)
  {
  }

  /** Two tables with the same ids and the same column values. Orders may differ. */
  ghost predicate SameShape(t: Table, u: Table)
  {
    t.Keys == u.Keys && forall id | id in t :: u[id].cols == t[id].cols
  }

  lemma SameShapeSamePartition(t: Table, u: Table, keys: seq<string>, ref: Cols)
    requires SameShape(t, u)
    ensures Partition(t, keys, ref) == Partition(u, keys, ref)
  {
    assert forall id :: id in Partition(t, keys, ref) <==> id in Partition(u, keys, ref);
  }

  /** No two rows of the set share an order value. */
  ghost predicate Unique(t: Table, p: set<RowId>)
    requires p <= t.Keys
  {
    forall a, b | a in p && b in p && a != b :: t[a].order != t[b].order
  }

  /**
   The partition's orders are unique and all lie in 0..N-1, where N is its
   size; by DenseCovers this is exactly "the orders are 0, 1, ..., N-1".
   */
  ghost predicate Dense(t: Table, keys: seq<string>, ref: Cols)
  {
    var p := Partition(t, keys, ref);
    && (forall id | id in p :: 0 <= t[id].order < |p|)
    && Unique(t, p)
  }

  /** The order values that the rows of `p` hold. */
  ghost function OrdersOf(t: Table, p: set<RowId>): set<int>
    requires p <= t.Keys
  {
    set id | id in p :: t[id].order
  }

  /** The positions 0..n-1. */
  function Range(n: int): (s: set<int>)
    ensures forall v :: v in s <==> 0 <= v < n
  {
    if n <= 0 then {} else Range(n - 1) + {n - 1}
  }

  lemma {:induction false} RangeSize(n: nat)
    ensures |Range(n)| == n
  {
    if n > 0 {
      RangeSize(n - 1);
      assert n - 1 !in Range(n - 1);
    }
  }

  /** Some element of a non-empty set. */
  ghost function Pick<T>(s: set<T>): (x: T)
    requires s != {}
    ensures x in s
  {
    var x :| x in s; x
  }

  /** Distinct rows with distinct orders: as many order values as rows. */
  lemma {:induction false} UniqueOrdersSize(t: Table, p: set<RowId>)
    requires p <= t.Keys
    requires Unique(t, p)
    ensures |OrdersOf(t, p)| == |p|
  {
    if p != {} {
      var x := Pick(p);
      var q := p - {x};
      UniqueOrdersSize(t, q);
      assert OrdersOf(t, p) == OrdersOf(t, q) + {t[x].order};
      assert t[x].order !in OrdersOf(t, q);
    } else {
      assert OrdersOf(t, p) == {};
    }
  }

  /** A dense partition of N rows holds exactly the orders 0..N-1. */
  lemma DenseOrdersAreRange(t: Table, keys: seq<string>, ref: Cols)
    requires Dense(t, keys, ref)
    ensures OrdersOf(t, Partition(t, keys, ref)) == Range(|Partition(t, keys, ref)|)
  {
    var p := Partition(t, keys, ref);
    var os := OrdersOf(t, p);
    UniqueOrdersSize(t, p);
    RangeSize(|p|);
    assert os <= Range(|p|);
    assert |Range(|p|) - os| == |Range(|p|)| - |os|;
  }

  /** Rows never hold more distinct orders than there are rows. */
  lemma {:induction false} OrdersAtMost(t: Table, p: set<RowId>)
    requires p <= t.Keys
    ensures |OrdersOf(t, p)| <= |p|
  {
    if p != {} {
      var x := Pick(p);
      var q := p - {x};
      OrdersAtMost(t, q);
      assert OrdersOf(t, p) == OrdersOf(t, q) + {t[x].order};
    } else {
      assert OrdersOf(t, p) == {};
    }
  }

  /** Conversely, a partition of N rows holding exactly the orders 0..N-1 is dense. */
  lemma RangeIsDense(t: Table, keys: seq<string>, ref: Cols)
    requires OrdersOf(t, Partition(t, keys, ref)) == Range(|Partition(t, keys, ref)|)
    ensures Dense(t, keys, ref)
  {
    var p := Partition(t, keys, ref);
    forall id | id in p
      ensures 0 <= t[id].order < |p|
    {
      assert t[id].order in OrdersOf(t, p);
    }
    forall a, b | a in p && b in p && a != b
      ensures t[a].order != t[b].order
    {
      if t[a].order == t[b].order {
        var q := p - {a};
        assert OrdersOf(t, p) == OrdersOf(t, q) by {
          assert forall id | id in p :: id == a || id in q;
          assert t[a].order in OrdersOf(t, q) by {
            assert b in q;
          }
        }
        OrdersAtMost(t, q);
        RangeSize(|p|);
        assert false;
      }
    }
  }

  /** Every position 0..N-1 of a dense partition of N rows is held by some row. */
  lemma DenseCovers(t: Table, keys: seq<string>, ref: Cols, v: int)
    requires Dense(t, keys, ref)
    requires 0 <= v < |Partition(t, keys, ref)|
    ensures exists id :: id in Partition(t, keys, ref) && t[id].order == v
  {
    DenseOrdersAreRange(t, keys, ref);
    assert v in Range(|Partition(t, keys, ref)|);
  }
}
