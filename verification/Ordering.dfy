/** Sorting a list by a rank, as the database does for an ordered query. */
module Ordering {
  import opened Common

  function InsertBy<T>(rows: seq<T>, x: T, rank: T -> int): seq<T> {
    if rows == [] || rank(Last(rows)) <= rank(x) then rows + [x]
    else InsertBy(Init(rows), x, rank) + [Last(rows)]
  }

  /** The rows by ascending rank, rows of equal rank in their original order. */
  function SortBy<T>(rows: seq<T>, rank: T -> int): seq<T> {
    if rows == [] then [] else InsertBy(SortBy(Init(rows), rank), Last(rows), rank)
  }

  ghost predicate Ascending<T>(rows: seq<T>, rank: T -> int) {
    forall i, j :: 0 <= i < j < |rows| ==> rank(rows[i]) <= rank(rows[j])
  }

  lemma {:induction false} InsertByPermutes<T(!new)>(rows: seq<T>, x: T, rank: T -> int)
    ensures multiset(InsertBy(rows, x, rank)) == multiset(rows) + multiset{x}
  {
    if rows == [] || rank(Last(rows)) <= rank(x) {
    } else {
      InsertByPermutes(Init(rows), x, rank);
      assert rows == Init(rows) + [Last(rows)];
    }
  }

  lemma {:induction false} InsertByAscending<T(!new)>(rows: seq<T>, x: T, rank: T -> int)
    requires Ascending(rows, rank)
    ensures Ascending(InsertBy(rows, x, rank), rank)
  {
    if rows == [] || rank(Last(rows)) <= rank(x) {
    } else {
      InsertByAscending(Init(rows), x, rank);
      InsertByPermutes(Init(rows), x, rank);
      var inner := InsertBy(Init(rows), x, rank);
      forall i | 0 <= i < |inner| ensures rank(inner[i]) <= rank(Last(rows)) {
        assert inner[i] in multiset(inner);
        assert inner[i] in multiset(Init(rows)) + multiset{x};
        assert inner[i] == x || inner[i] in Init(rows);
      }
    }
  }

  /** Sorting permutes the rows into ascending rank. */
  lemma {:induction false} SortBySorts<T(!new)>(rows: seq<T>, rank: T -> int)
    ensures multiset(SortBy(rows, rank)) == multiset(rows) && Ascending(SortBy(rows, rank), rank)
    ensures forall x :: x in SortBy(rows, rank) <==> x in rows
  {
    if rows == [] {
    } else {
      var front := SortBy(Init(rows), rank);
      SortBySorts(Init(rows), rank);
      InsertByPermutes(front, Last(rows), rank);
      InsertByAscending(front, Last(rows), rank);
      assert rows == Init(rows) + [Last(rows)];
    }
    forall x ensures x in SortBy(rows, rank) <==> x in rows {
      assert x in multiset(SortBy(rows, rank)) <==> x in multiset(rows);
    }
  }

  /** Rows that already ascend strictly are left as they are. */
  lemma {:induction false} SortByFixes<T(!new)>(rows: seq<T>, rank: T -> int)
    requires Ascending(rows, rank)
    ensures SortBy(rows, rank) == rows
  {
    if rows == [] {
    } else {
      SortByFixes(Init(rows), rank);
      assert rows == Init(rows) + [Last(rows)];
    }
  }
}
