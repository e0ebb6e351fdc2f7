/**
 The read side of ordering and the re-densification of a partition.

 `GetHighestOrder` is the maximum order in the partition of a reference row
 (or None for an empty partition). `SyncOrder` walks the partition's rows in
 ascending order and gives them the orders 0, 1, 2, ... in turn.

 Both filter by the model's order-key columns, one equality per key; with no
 keys they range over the whole table.
 */
module OrderedModelService {
  import opened Wrappers
  import opened Rows

  /** The largest element of a non-empty set of orders. */
  ghost function MaxOf(s: set<int>): (m: int)
    requires s != {}
    ensures m in s
    ensures forall v | v in s :: v <= m
    decreases s
  {
    var x := Pick(s);
    if s == {x} then x
    else
      var m := MaxOf(s - {x});
      assert forall v | v in s :: v == x || v in s - {x};
      if x < m then m else x
  }

  /** The order of the first row of the partition listed by descending order, or None. */
  ghost function GetHighestOrder(t: Table, keys: seq<string>, ref: Cols): (r: Option<int>)
    ensures r.None? <==> Partition(t, keys, ref) == {}
    ensures r.Some? ==> exists id :: id in Partition(t, keys, ref) && t[id].order == r.value
    ensures r.Some? ==> forall id | id in Partition(t, keys, ref) :: t[id].order <= r.value
  {
    var p := Partition(t, keys, ref);
    if p == {} then None
    else
      var x := Pick(p);
      assert forall id | id in p :: t[id].order in OrdersOf(t, p);
      Some(MaxOf(OrdersOf(t, p)))
  }

  /** A row whose order no other row of its partition exceeds holds the highest order. */
  lemma HighestIsMaximum(t: Table, keys: seq<string>, ref: Cols, id: RowId)
    requires id in Partition(t, keys, ref)
    requires forall x | x in Partition(t, keys, ref) :: t[x].order <= t[id].order
    ensures GetHighestOrder(t, keys, ref) == Some(t[id].order)
  {
  }

  /** In a dense partition of N rows the highest order is N-1. */
  lemma DenseHighest(t: Table, keys: seq<string>, ref: Cols)
    requires Dense(t, keys, ref)
    requires Partition(t, keys, ref) != {}
    ensures GetHighestOrder(t, keys, ref) == Some(|Partition(t, keys, ref)| - 1)
  {
    DenseCovers(t, keys, ref, |Partition(t, keys, ref)| - 1);
  }

  predicate Distinct(l: seq<RowId>)
  {
    forall i, j | 0 <= i < j < |l| :: l[i] != l[j]
  }

  /** Orders never decrease along `l`. */
  ghost predicate Ascending(t: Table, l: seq<RowId>)
  {
    forall i, j | 0 <= i < j < |l| && l[i] in t && l[j] in t :: t[l[i]].order <= t[l[j]].order
  }

  /**
   `l` is an answer the store may give to "the partition, ordered by order
   ascending": every member exactly once, orders never decreasing. Which of
   several rows with equal orders comes first is the store's choice.
   */
  ghost predicate ValidListing(t: Table, keys: seq<string>, ref: Cols, l: seq<RowId>)
  {
    && (forall i | 0 <= i < |l| :: l[i] in Partition(t, keys, ref))
    && (forall id | id in Partition(t, keys, ref) :: id in l)
    && Distinct(l)
    && Ascending(t, l)
  }

  /** `l` with `id` placed after every entry whose order is at most its own. */
  function InsertAscending(t: Table, l: seq<RowId>, id: RowId): (r: seq<RowId>)
    requires id in t
    requires forall x | x in l :: x in t
    requires Ascending(t, l)
    ensures |r| == |l| + 1
    ensures forall x :: x in r <==> x in l || x == id
    ensures Ascending(t, r)
    ensures Distinct(l) && id !in l ==> Distinct(r)
    decreases |l|
  {
    if |l| == 0 then [id]
    else
      assert l[|l| - 1] in l;
      if t[id].order < t[l[|l| - 1]].order then
      var front := InsertAscending(t, l[..|l| - 1], id);
      assert forall x :: x in l <==> x in l[..|l| - 1] || x == l[|l| - 1];
      InsertBeforeLast(t, l, id, front);
      front + [l[|l| - 1]]
    else
      l + [id]
  }

  lemma InsertBeforeLast(t: Table, l: seq<RowId>, id: RowId, front: seq<RowId>)
    requires |l| > 0 && id in t
    requires forall x | x in l :: x in t
    requires l[|l| - 1] in t
    requires Ascending(t, l)
    requires t[id].order < t[l[|l| - 1]].order
    requires forall x :: x in front <==> x in l[..|l| - 1] || x == id
    requires Ascending(t, front)
    requires Distinct(l[..|l| - 1]) && id !in l[..|l| - 1] ==> Distinct(front)
    ensures Ascending(t, front + [l[|l| - 1]])
    ensures Distinct(l) && id !in l ==> Distinct(front + [l[|l| - 1]])
  {
    var init, last := l[..|l| - 1], l[|l| - 1];
    forall i | 0 <= i < |front|
      ensures front[i] in t && t[front[i]].order <= t[last].order
    {
      var x := front[i];
      assert x in front;
      if x != id {
        assert x in init;
        var k :| 0 <= k < |init| && init[k] == x;
        assert l[k] == x;
      }
    }
    if Distinct(l) && id !in l {
      assert last !in init;
      assert last !in front;
    }
  }

  /** A compiled choice of an element, for ListOrdered; Rows.Pick is its ghost counterpart. */
  method PickOne<T>(s: set<T>) returns (x: T)
    requires s != {}
    ensures x in s
  {
    x :| x in s;
  }

  /**
   The store's ascending listing of a partition. Rows are taken in an
   arbitrary order and each is placed after the rows whose order does not
   exceed its own, so any valid listing may come out.
   */
  method ListOrdered(t: Table, keys: seq<string>, ref: Cols) returns (l: seq<RowId>)
    ensures ValidListing(t, keys, ref, l)
  {
    var p := Partition(t, keys, ref);
    var rest := p;
    l := [];
    while rest != {}
      invariant rest <= p
      invariant forall x | x in l :: x in p && x !in rest
      invariant forall id | id in p :: id in l || id in rest
      invariant Distinct(l)
      invariant Ascending(t, l)
      decreases rest
    {
      var id := PickOne(rest);
      l := InsertAscending(t, l, id);
      rest := rest - {id};
    }
  }

  /** The rows listed in `l` get the orders next, next+1, ... in listing order. */
  function Renumber(t: Table, l: seq<RowId>, next: int): (r: Table)
    requires forall i | 0 <= i < |l| :: l[i] in t
    requires Distinct(l)
    ensures r.Keys == t.Keys
    ensures forall i | 0 <= i < |l| :: r[l[i]] == t[l[i]].(order := next + i)
    ensures forall id | id in t && id !in l :: r[id] == t[id]
    decreases |l|
  {
    if |l| == 0 then t
    else
      var r := Renumber(t[l[0] := t[l[0]].(order := next)], l[1..], next + 1);
      assert forall id :: id in l <==> id == l[0] || id in l[1..];
      r
  }

  /**
   Re-densifies the partition of `ref`. `l` is the store's ascending listing
   of the partition (see ValidListing). Every listed row is written, rows that
   already hold their position with the value they had.
   */
  function SyncOrder(t: Table, keys: seq<string>, ref: Cols, l: seq<RowId>): (r: Table)
    requires ValidListing(t, keys, ref, l)
    ensures SameShape(t, r)
    ensures Dense(r, keys, ref)
    ensures forall id | id in t && id !in Partition(t, keys, ref) :: r[id] == t[id]
    ensures forall a, b | a in Partition(t, keys, ref) && b in Partition(t, keys, ref) ::
              t[a].order < t[b].order ==> r[a].order < r[b].order
    ensures forall i | 0 <= i < |l| :: r[l[i]].order == i
  {
    var r := Renumber(t, l, 0);
    SyncIsDense(t, keys, ref, l, r);
    SyncKeepsStrictOrder(t, keys, ref, l, r);
    r
  }

  /** The rows a listing names. */
  function Elements(l: seq<RowId>): (s: set<RowId>)
    ensures forall x :: x in s <==> x in l
  {
    set x | x in l
  }

  /** A distinct listing of N rows names N different rows. */
  lemma {:induction false} DistinctElementsSize(l: seq<RowId>)
    requires Distinct(l)
    ensures |Elements(l)| == |l|
  {
    if |l| > 0 {
      var front, last := l[..|l| - 1], l[|l| - 1];
      DistinctElementsSize(front);
      assert Elements(l) == Elements(front) + {last};
      assert last !in front;
    } else {
      assert Elements(l) == {};
    }
  }

  /** The rows a valid listing names are exactly the partition's rows. */
  lemma ListingMembers(t: Table, keys: seq<string>, ref: Cols, l: seq<RowId>)
    requires ValidListing(t, keys, ref, l)
    ensures forall x :: x in l <==> x in Partition(t, keys, ref)
  {
    forall x | x in l
      ensures x in Partition(t, keys, ref)
    {
      var i :| 0 <= i < |l| && l[i] == x;
    }
  }

  lemma ListingSize(t: Table, keys: seq<string>, ref: Cols, l: seq<RowId>)
    requires ValidListing(t, keys, ref, l)
    ensures |Partition(t, keys, ref)| == |l|
  {
    DistinctElementsSize(l);
    ListingMembers(t, keys, ref, l);
    assert Elements(l) == Partition(t, keys, ref);
  }

  lemma SyncIsDense(t: Table, keys: seq<string>, ref: Cols, l: seq<RowId>, r: Table)
    requires ValidListing(t, keys, ref, l)
    requires r == Renumber(t, l, 0)
    ensures SameShape(t, r)
    ensures Dense(r, keys, ref)
  {
    SameShapeSamePartition(t, r, keys, ref);
    ListingSize(t, keys, ref, l);
    var p := Partition(r, keys, ref);
    forall id | id in p
      ensures 0 <= r[id].order < |p|
    {
      var i :| 0 <= i < |l| && l[i] == id;
    }
    forall a, b | a in p && b in p && a != b
      ensures r[a].order != r[b].order
    {
      var i :| 0 <= i < |l| && l[i] == a;
      var j :| 0 <= j < |l| && l[j] == b;
    }
  }

  lemma SyncKeepsStrictOrder(t: Table, keys: seq<string>, ref: Cols, l: seq<RowId>, r: Table)
    requires ValidListing(t, keys, ref, l)
    requires r == Renumber(t, l, 0)
    ensures forall a, b | a in Partition(t, keys, ref) && b in Partition(t, keys, ref) ::
              t[a].order < t[b].order ==> r[a].order < r[b].order
  {
    forall a, b | a in Partition(t, keys, ref) && b in Partition(t, keys, ref) && t[a].order < t[b].order
      ensures r[a].order < r[b].order
    {
      var i :| 0 <= i < |l| && l[i] == a;
      var j :| 0 <= j < |l| && l[j] == b;
    }
  }

  /** Along the listing of a dense partition, the k-th row already holds order k. */
  lemma {:induction false} DenseListingPinned(t: Table, keys: seq<string>, ref: Cols, l: seq<RowId>)
    requires Dense(t, keys, ref)
    requires ValidListing(t, keys, ref, l)
    ensures forall i | 0 <= i < |l| :: t[l[i]].order == i
  {
    ListingSize(t, keys, ref, l);
    var n := |l|;
    forall i | 0 <= i < n - 1
      ensures t[l[i]].order < t[l[i + 1]].order
    {
      assert t[l[i]].order <= t[l[i + 1]].order;
      assert l[i] != l[i + 1];
    }
    var k := 0;
    while k < n
      invariant 0 <= k <= n
      invariant forall i | 0 <= i < k :: t[l[i]].order >= i
    {
      assert l[k] in Partition(t, keys, ref);
      if k > 0 {
        assert t[l[k - 1]].order >= k - 1;
        assert t[l[k - 1]].order < t[l[k]].order;
      }
      k := k + 1;
    }
    k := n;
    while k > 0
      invariant 0 <= k <= n
      invariant forall i | k <= i < n :: t[l[i]].order <= i
    {
      assert l[k - 1] in Partition(t, keys, ref);
      if k < n {
        assert t[l[k]].order <= k;
        assert t[l[k - 1]].order < t[l[k]].order;
      }
      k := k - 1;
    }
  }

  /** Syncing a partition that is already dense writes back the values every row holds. */
  lemma SyncOfDenseIsIdentity(t: Table, keys: seq<string>, ref: Cols, l: seq<RowId>)
    requires Dense(t, keys, ref)
    requires ValidListing(t, keys, ref, l)
    ensures SyncOrder(t, keys, ref, l) == t
  {
    DenseListingPinned(t, keys, ref, l);
    var r := SyncOrder(t, keys, ref, l);
    forall id | id in t
      ensures r[id] == t[id]
    {
      if id in l {
        var i :| 0 <= i < |l| && l[i] == id;
      }
    }
  }

  /** A second sync, whatever listing the store gives, changes nothing. */
  lemma SyncTwiceIsOnce(t: Table, keys: seq<string>, ref: Cols, l: seq<RowId>, l2: seq<RowId>)
    requires ValidListing(t, keys, ref, l)
    requires ValidListing(SyncOrder(t, keys, ref, l), keys, ref, l2)
    ensures SyncOrder(SyncOrder(t, keys, ref, l), keys, ref, l2) == SyncOrder(t, keys, ref, l)
  {
    SyncOfDenseIsIdentity(SyncOrder(t, keys, ref, l), keys, ref, l2);
  }
}
