/** Stable sorting by any total preorder. */
module Sorting {
  function Insert<T>(rows: seq<T>, x: T, le: (T, T) -> bool): seq<T> {
    if rows == [] || le(rows[|rows| - 1], x) then rows + [x]
    else Insert(rows[..|rows| - 1], x, le) + [rows[|rows| - 1]]
  }

  /** Each element goes behind all that are not after it, so equal ones keep their order. */
  function StableSort<T>(rows: seq<T>, le: (T, T) -> bool): seq<T> {
    if rows == [] then [] else Insert(StableSort(rows[..|rows| - 1], le), rows[|rows| - 1], le)
  }

  predicate SortedBy<T>(rows: seq<T>, le: (T, T) -> bool) {
    forall i, j :: 0 <= i < j < |rows| ==> le(rows[i], rows[j])
  }

  ghost predicate TotalPreorder<T(!new)>(le: (T, T) -> bool) {
    && (forall x, y :: le(x, y) || le(y, x))
    && (forall x, y, z :: le(x, y) && le(y, z) ==> le(x, z))
  }

  lemma {:induction false} InsertAdds<T>(rows: seq<T>, x: T, le: (T, T) -> bool)
    ensures multiset(Insert(rows, x, le)) == multiset(rows) + multiset{x} && |Insert(rows, x, le)| == |rows| + 1
    decreases |rows|
  {
    if rows != [] && !le(rows[|rows| - 1], x) {
      InsertAdds(rows[..|rows| - 1], x, le);
      assert rows == rows[..|rows| - 1] + [rows[|rows| - 1]];
    }
  }

  lemma SortedMore<T>(rows: seq<T>, x: T, le: (T, T) -> bool)
    requires SortedBy(rows, le) && forall y :: y in rows ==> le(y, x)
    ensures SortedBy(rows + [x], le)
  {
  }

  lemma LastIsLargest<T(!new)>(rows: seq<T>, x: T, y: T, le: (T, T) -> bool)
    requires TotalPreorder(le) && rows != [] && SortedBy(rows, le) && y in rows
    ensures le(y, rows[|rows| - 1])
    ensures le(rows[|rows| - 1], x) ==> le(y, x)
    ensures !le(rows[|rows| - 1], x) ==> le(x, rows[|rows| - 1])
  {
  }

  lemma {:induction false} InsertSorts<T(!new)>(rows: seq<T>, x: T, le: (T, T) -> bool)
    requires TotalPreorder(le) && SortedBy(rows, le)
    ensures SortedBy(Insert(rows, x, le), le)
    decreases |rows|
  {
    if rows != [] && !le(rows[|rows| - 1], x) {
      var init, last := rows[..|rows| - 1], rows[|rows| - 1];
      InsertSorts(init, x, le);
      InsertAdds(init, x, le);
      LastIsLargest(rows, x, last, le);
      hide SortedBy, TotalPreorder;
      forall y | y in Insert(init, x, le) ensures le(y, last) {
        assert y in multiset(Insert(init, x, le));
        if y in init {
          assert y in rows;
          LastIsLargest(rows, x, y, le);
        }
      }
      SortedMore(Insert(init, x, le), last, le);
    } else if rows != [] {
      hide SortedBy, TotalPreorder;
      forall y | y in rows ensures le(y, x) {
        LastIsLargest(rows, x, y, le);
      }
      SortedMore(rows, x, le);
    }
  }

  /** Sorting gives a sorted rearrangement. */
  lemma {:induction false} StableSortSorts<T(!new)>(rows: seq<T>, le: (T, T) -> bool)
    requires TotalPreorder(le)
    ensures SortedBy(StableSort(rows, le), le)
    ensures multiset(StableSort(rows, le)) == multiset(rows) && |StableSort(rows, le)| == |rows|
  {
    if rows != [] {
      var init, last := rows[..|rows| - 1], rows[|rows| - 1];
      StableSortSorts(init, le);
      hide SortedBy, TotalPreorder, Insert;
      InsertSorts(StableSort(init, le), last, le);
      InsertAdds(StableSort(init, le), last, le);
      assert rows == init + [last];
    }
  }

  // ---- stability ------------------------------------------------------------------------------------

  /** The elements that compare equal to `x`, in order. */
  function Equals<T>(rows: seq<T>, x: T, le: (T, T) -> bool): seq<T> {
    if rows == [] then []
    else
      var rest, last := Equals(rows[..|rows| - 1], x, le), rows[|rows| - 1];
      if le(last, x) && le(x, last) then rest + [last] else rest
  }

  lemma EqualsMore<T>(rows: seq<T>, y: T, x: T, le: (T, T) -> bool)
    ensures Equals(rows + [y], x, le) == if le(y, x) && le(x, y) then Equals(rows, x, le) + [y] else Equals(rows, x, le)
  {
    assert (rows + [y])[..|rows|] == rows;
  }

  lemma {:induction false} InsertIsStable<T(!new)>(rows: seq<T>, y: T, x: T, le: (T, T) -> bool)
    requires TotalPreorder(le)
    ensures Equals(Insert(rows, y, le), x, le) == Equals(rows + [y], x, le)
    decreases |rows|
  {
    if rows != [] && !le(rows[|rows| - 1], y) {
      var init, last := rows[..|rows| - 1], rows[|rows| - 1];
      assert le(y, x) && le(x, y) && le(last, x) && le(x, last) ==> le(last, y);
      InsertIsStable(init, y, x, le);
      assert Insert(rows, y, le) == Insert(init, y, le) + [last];
      assert rows == init + [last];
      hide Insert, Equals, TotalPreorder;
      EqualsMore(Insert(init, y, le), last, x, le);
      EqualsMore(init, y, x, le);
      EqualsMore(init, last, x, le);
      EqualsMore(rows, y, x, le);
    }
  }

  /** Elements that compare equal keep their order. */
  lemma {:induction false} StableSortIsStable<T(!new)>(rows: seq<T>, x: T, le: (T, T) -> bool)
    requires TotalPreorder(le)
    ensures Equals(StableSort(rows, le), x, le) == Equals(rows, x, le)
  {
    if rows != [] {
      var init, last := rows[..|rows| - 1], rows[|rows| - 1];
      StableSortIsStable(init, x, le);
      assert StableSort(rows, le) == Insert(StableSort(init, le), last, le);
      assert rows == init + [last];
      hide Insert, Equals, TotalPreorder, StableSort;
      InsertIsStable(StableSort(init, le), last, x, le);
      EqualsMore(StableSort(init, le), last, x, le);
      EqualsMore(init, last, x, le);
    }
  }
}
