/** The record source: exit records of program members, the half-open date
    filter `(first, last]` used both by the database query and by every
    bucket window, per-destination counts, and the list of distinct
    destinations (`df['dest'].unique()`). Dates are integer day numbers. */
module Records {

  /** One row of the exit table: a member's `date_of_exit` and
      `exit_destination`. */
  datatype ExitRecord = ExitRecord(date: int, dest: string)

  /** The date lies in the half-open range (lo, hi]: lo excluded, hi included. */
  predicate InRange(r: ExitRecord, lo: int, hi: int)
  {
    lo < r.date <= hi
  }

  /** The records dated in (lo, hi], in their original order. */
  function Between(rows: seq<ExitRecord>, lo: int, hi: int): (sub: seq<ExitRecord>)
    ensures |sub| <= |rows|
    ensures forall k :: 0 <= k < |sub| ==> InRange(sub[k], lo, hi)
  {
    if rows == [] then []
    else
      var rest := Between(rows[..|rows| - 1], lo, hi);
      if InRange(rows[|rows| - 1], lo, hi) then rest + [rows[|rows| - 1]] else rest
  }

  /** A filter over an empty or reversed range keeps nothing. */
  lemma BetweenEmptyRange(rows: seq<ExitRecord>, lo: int, hi: int)
    requires hi <= lo
    ensures Between(rows, lo, hi) == []
  {
  }

  /** `Between` keeps exactly the in-range records, each as many times as it
      occurs: a record outside (lo, hi] disappears, one inside keeps its
      multiplicity. */
  lemma {:induction false} BetweenMultiplicity(rows: seq<ExitRecord>, lo: int, hi: int, x: ExitRecord)
    ensures multiset(Between(rows, lo, hi))[x] == if InRange(x, lo, hi) then multiset(rows)[x] else 0
  {
    if rows != [] {
      var init := rows[..|rows| - 1];
      BetweenMultiplicity(init, lo, hi, x);
      assert rows == init + [rows[|rows| - 1]];
    }
  }

  /** A record is kept iff it is one of the rows and lies in (lo, hi]. */
  lemma BetweenMembership(rows: seq<ExitRecord>, lo: int, hi: int, x: ExitRecord)
    ensures x in Between(rows, lo, hi) <==> x in rows && InRange(x, lo, hi)
  {
    BetweenMultiplicity(rows, lo, hi, x);
    assert x in Between(rows, lo, hi) <==> multiset(Between(rows, lo, hi))[x] > 0;
    assert x in rows <==> multiset(rows)[x] > 0;
  }

  /** Filtering with a range nested inside another does not depend on the
      outer filter: (lo, hi] inside (first, last] sees the same records
      whether it starts from all rows or from the fetched ones. */
  lemma {:induction false} BetweenNested(rows: seq<ExitRecord>, first: int, last: int, lo: int, hi: int)
    requires first <= lo && hi <= last
    ensures Between(Between(rows, first, last), lo, hi) == Between(rows, lo, hi)
  {
    if rows != [] {
      var init := rows[..|rows| - 1];
      var x := rows[|rows| - 1];
      BetweenNested(init, first, last, lo, hi);
      if InRange(x, first, last) {
        assert Between(rows, first, last)[..|Between(rows, first, last)| - 1] == Between(init, first, last);
      }
    }
  }

  /** `sub[sub['dest'] == dest].shape[0]`: how many records go to `dest`. */
  function Count(rows: seq<ExitRecord>, dest: string): (n: nat)
    ensures n <= |rows|
  {
    if rows == [] then 0
    else Count(rows[..|rows| - 1], dest) + (if rows[|rows| - 1].dest == dest then 1 else 0)
  }

  /** A destination that occurs in no record has count 0, one that occurs has
      a positive count. */
  lemma {:induction false} CountPositive(rows: seq<ExitRecord>, dest: string)
    ensures Count(rows, dest) > 0 <==> exists k :: 0 <= k < |rows| && rows[k].dest == dest
  {
    if rows != [] {
      var init := rows[..|rows| - 1];
      CountPositive(init, dest);
      if Count(init, dest) > 0 {
        var k :| 0 <= k < |init| && init[k].dest == dest;
        assert rows[k].dest == dest;
      }
      if k :| 0 <= k < |rows| && rows[k].dest == dest {
        if k < |init| {
          assert init[k].dest == dest;
        }
      }
    }
  }

  /** The destination column. */
  function DestColumn(rows: seq<ExitRecord>): (col: seq<string>)
    ensures |col| == |rows|
    ensures forall k :: 0 <= k < |rows| ==> col[k] == rows[k].dest
  {
    seq(|rows|, k requires 0 <= k < |rows| => rows[k].dest)
  }

  /** No value occurs twice. */
  predicate Distinct(s: seq<string>)
  {
    forall j, k :: 0 <= j < k < |s| ==> s[j] != s[k]
  }

  /** `pandas.unique`: the distinct values, in order of first appearance. */
  function Unique(s: seq<string>): (u: seq<string>)
    ensures Distinct(u)
    ensures forall x :: x in u <==> x in s
    ensures |u| <= |s|
  {
    if s == [] then []
    else
      var u := Unique(s[..|s| - 1]);
      assert forall x :: x in s <==> x in s[..|s| - 1] || x == s[|s| - 1];
      if s[|s| - 1] in u then u else u + [s[|s| - 1]]
  }

  /** `df['dest'].unique()`: every destination of the table, once each. */
  function Dests(rows: seq<ExitRecord>): (dests: seq<string>)
    ensures Distinct(dests)
    ensures forall k :: 0 <= k < |rows| ==> rows[k].dest in dests
    ensures forall d :: d in dests ==> exists k :: 0 <= k < |rows| && rows[k].dest == d
    ensures |dests| == 0 <==> |rows| == 0
  {
    var col := DestColumn(rows);
    var u := Unique(col);
    assert |rows| > 0 ==> col[0] in u;
    u
  }

  /** `_exit_df`: the query keeps the members whose exit date is in
      (first, last], and the loop appends one (date, dest) row per member. */
  method ExitDf(members: seq<ExitRecord>, first: int, last: int) returns (df: seq<ExitRecord>)
    ensures df == Between(members, first, last)
  {
    df := [];
    var j := 0;
    while j < |members|
      invariant 0 <= j <= |members|
      invariant df == Between(members[..j], first, last)
    {
      var ex := members[j];
      assert members[..j + 1][..j] == members[..j];
      if first < ex.date && ex.date <= last {
        df := df + [ExitRecord(ex.date, ex.dest)];
      }
      j := j + 1;
    }
    assert members[..j] == members;
  }
}
