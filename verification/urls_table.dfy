/**
  The `urls` table (app/app.py:72-78) as a sequence of rows in insertion
  order, with the queries the routes run against it: the exact-match
  `WHERE short_code = %s` lookup and `ORDER BY created_at DESC`.
*/
module UrlsTable {
  import opened Wrappers

  /** `short_code VARCHAR(10)` */
  const MaxCodeLength: nat := 10

  /** One row; `created_at` is a reading of a logical clock. */
  datatype Row = Row(shortCode: string, originalUrl: string, createdAt: nat)

  function Codes(rows: seq<Row>): set<string> {
    set i | 0 <= i < |rows| :: rows[i].shortCode
  }

  /** The `UNIQUE` constraint on `short_code`. */
  predicate UniqueCodes(rows: seq<Row>) {
    forall i, j | 0 <= i < j < |rows| :: rows[i].shortCode != rows[j].shortCode
  }

  /** Insertion order never goes back in time. */
  predicate Ascending(rows: seq<Row>) {
    forall i, j | 0 <= i < j < |rows| :: rows[i].createdAt <= rows[j].createdAt
  }

  /** Newest first, as `ORDER BY created_at DESC` returns them. */
  predicate SortedDesc(rows: seq<Row>) {
    forall i, j | 0 <= i < j < |rows| :: rows[i].createdAt >= rows[j].createdAt
  }

  /**
    The table's invariant: unique codes of at most ten characters, non-empty
    URLs (the application rejects empty ones before inserting), and creation
    times that follow insertion order and do not exceed the clock.
  */
  predicate WellFormed(rows: seq<Row>, clock: nat) {
    && UniqueCodes(rows)
    && Ascending(rows)
    && forall i | 0 <= i < |rows| ::
         && rows[i].originalUrl != ""
         && |rows[i].shortCode| <= MaxCodeLength
         && rows[i].createdAt <= clock
  }

  /** An insert that respects the constraints keeps the table well formed. */
  lemma {:induction false} InsertKeepsWellFormed(rows: seq<Row>, clock: nat, row: Row)
    requires WellFormed(rows, clock)
    requires row.shortCode !in Codes(rows)
    requires row.originalUrl != "" && |row.shortCode| <= MaxCodeLength
    requires clock <= row.createdAt
    ensures WellFormed(rows + [row], row.createdAt)
  {
    var rows' := rows + [row];
    forall i, j | 0 <= i < j < |rows'| ensures rows'[i].shortCode != rows'[j].shortCode {
      if j == |rows| {
        assert rows[i].shortCode in Codes(rows);
      }
    }
  }

  /**
    `SELECT original_url FROM urls WHERE short_code = %s` followed by
    `fetchone()`: the URL of the first row whose code equals `code` exactly.
  */
  function Lookup(rows: seq<Row>, code: string): (r: Option<string>)
    ensures r.None? <==> code !in Codes(rows)
    ensures r.Some? ==>
      exists i | 0 <= i < |rows| :: rows[i].shortCode == code && rows[i].originalUrl == r.value
  {
    if rows == [] then None
    else if rows[0].shortCode == code then Some(rows[0].originalUrl)
    else
      assert Codes(rows) == {rows[0].shortCode} + Codes(rows[1..]) by {
        forall c | c in Codes(rows) ensures c in {rows[0].shortCode} + Codes(rows[1..]) {
          var i :| 0 <= i < |rows| && rows[i].shortCode == c;
          if i > 0 { assert rows[1..][i - 1].shortCode == c; }
        }
      }
      Lookup(rows[1..], code)
  }

  /** With unique codes, looking up a stored code finds that row's URL. */
  lemma {:induction false} LookupStored(rows: seq<Row>, i: nat)
    requires UniqueCodes(rows)
    requires i < |rows|
    ensures Lookup(rows, rows[i].shortCode) == Some(rows[i].originalUrl)
  {
    if i > 0 {
      assert rows[0].shortCode != rows[i].shortCode;
      assert rows[1..][i - 1] == rows[i];
      LookupStored(rows[1..], i - 1);
    }
  }

  /**
    Appending a row whose code is new makes that code resolve to the row's URL
    and leaves the answer for every other code as it was.
  */
  lemma {:induction false} LookupAppend(rows: seq<Row>, row: Row, code: string)
    requires row.shortCode !in Codes(rows)
    ensures Lookup(rows + [row], code) ==
      if code == row.shortCode then Some(row.originalUrl) else Lookup(rows, code)
  {
    if rows == [] {
      assert rows + [row] == [row];
    } else {
      assert (rows + [row])[1..] == rows[1..] + [row];
      assert rows[0].shortCode in Codes(rows);
      LookupAppend(rows[1..], row, code);
    }
  }

  /** Puts `row` in front of the first row that is not newer than it. */
  function InsertDesc(row: Row, sorted: seq<Row>): (r: seq<Row>)
    ensures multiset(r) == multiset(sorted) + multiset{row}
  {
    if sorted == [] || row.createdAt >= sorted[0].createdAt then
      [row] + sorted
    else
      assert sorted == [sorted[0]] + sorted[1..];
      [sorted[0]] + InsertDesc(row, sorted[1..])
  }

  lemma {:induction false} InsertDescSorted(row: Row, sorted: seq<Row>)
    requires SortedDesc(sorted)
    ensures SortedDesc(InsertDesc(row, sorted))
  {
    if sorted != [] && row.createdAt < sorted[0].createdAt {
      var t := InsertDesc(row, sorted[1..]);
      InsertDescSorted(row, sorted[1..]);
      assert t[0] == row || t[0] == sorted[1];
      SortedDescCons(sorted[0], t);
    }
  }

  /** A row not older than the head of a newest-first listing can go in front. */
  lemma {:induction false} SortedDescCons(row: Row, sorted: seq<Row>)
    requires SortedDesc(sorted)
    requires sorted != [] ==> row.createdAt >= sorted[0].createdAt
    ensures SortedDesc([row] + sorted)
  {
    var r := [row] + sorted;
    forall i, j | 0 <= i < j < |r| ensures r[i].createdAt >= r[j].createdAt {
      if i == 0 {
        assert r[j] == sorted[j - 1];
        assert sorted[0].createdAt >= sorted[j - 1].createdAt;
      } else {
        assert r[i] == sorted[i - 1] && r[j] == sorted[j - 1];
      }
    }
  }

  /**
    `ORDER BY created_at DESC`, as a stable insertion sort that takes rows
    from the newest insert backwards, so rows with equal times come out
    newest insert first.
  */
  function OrderByCreatedAtDesc(rows: seq<Row>): (r: seq<Row>)
    ensures SortedDesc(r)
    ensures multiset(r) == multiset(rows)
  {
    if rows == [] then []
    else
      var prefix := rows[..|rows| - 1];
      assert rows == prefix + [rows[|rows| - 1]];
      var sorted := OrderByCreatedAtDesc(prefix);
      InsertDescSorted(rows[|rows| - 1], sorted);
      InsertDesc(rows[|rows| - 1], sorted)
  }

  function Reverse(rows: seq<Row>): (r: seq<Row>)
    ensures |r| == |rows|
  {
    seq(|rows|, i requires 0 <= i < |rows| => rows[|rows| - 1 - i])
  }

  /**
    When creation times follow insertion order, as in a well-formed table,
    the listing is the rows in reverse insertion order: rows created A, B, C
    are listed C, B, A, even when their times are equal.
  */
  lemma {:induction false} OrderOfAscendingIsReverse(rows: seq<Row>)
    requires Ascending(rows)
    ensures OrderByCreatedAtDesc(rows) == Reverse(rows)
  {
    if rows != [] {
      var n := |rows|;
      var prefix := rows[..n - 1];
      assert Ascending(prefix);
      OrderOfAscendingIsReverse(prefix);
      ReverseSnoc(prefix, rows[n - 1]);
      assert rows == prefix + [rows[n - 1]];
      if prefix != [] {
        assert Reverse(prefix)[0] == rows[n - 2];
        assert rows[n - 2].createdAt <= rows[n - 1].createdAt;
      }
      assert InsertDesc(rows[n - 1], Reverse(prefix)) == [rows[n - 1]] + Reverse(prefix);
    }
  }

  /** Every row strictly newer than the rows inserted before it. */
  predicate StrictlyAscending(rows: seq<Row>) {
    forall i, j | 0 <= i < j < |rows| :: rows[i].createdAt < rows[j].createdAt
  }

  /**
    With no two equal creation times, every newest-first ordering of the rows,
    whichever the database picks, is reverse insertion order.
  */
  lemma {:induction false} StrictListingIsReverse(rows: seq<Row>, r: seq<Row>)
    requires StrictlyAscending(rows)
    requires SortedDesc(r) && multiset(r) == multiset(rows)
    ensures r == Reverse(rows)
    decreases |rows|
  {
    if rows == [] {
      assert |r| == |multiset(r)| == 0;
    } else {
      var n := |rows|;
      var last, prefix := rows[n - 1], rows[..n - 1];
      NewestComesFirst(rows, r);
      ListingTail(rows, r);
      assert SortedDesc(r[1..]);
      StrictListingIsReverse(prefix, r[1..]);
      ReverseSnoc(prefix, last);
      assert rows == prefix + [last];
      assert r == [last] + r[1..];
    }
  }

  /** The newest row heads any newest-first ordering when no time is repeated. */
  lemma {:induction false} NewestComesFirst(rows: seq<Row>, r: seq<Row>)
    requires StrictlyAscending(rows) && rows != []
    requires SortedDesc(r) && multiset(r) == multiset(rows)
    ensures r != [] && r[0] == rows[|rows| - 1]
  {
    var last := rows[|rows| - 1];
    assert last in multiset(rows);
    var i :| 0 <= i < |r| && r[i] == last;
    assert r[0] in multiset(rows);
    var j :| 0 <= j < |rows| && rows[j] == r[0];
    assert r[0].createdAt >= last.createdAt;
    assert forall k | 0 <= k < |rows| - 1 :: rows[k].createdAt < last.createdAt;
  }

  /** Taking the newest row off both sides leaves a permutation of the older rows. */
  lemma {:induction false} ListingTail(rows: seq<Row>, r: seq<Row>)
    requires rows != [] && r != [] && r[0] == rows[|rows| - 1]
    requires multiset(r) == multiset(rows)
    ensures multiset(r[1..]) == multiset(rows[..|rows| - 1])
  {
    var last := rows[|rows| - 1];
    assert r == [last] + r[1..];
    assert rows == rows[..|rows| - 1] + [last];
    assert multiset(r[1..]) == multiset(r) - multiset{last};
    assert multiset(rows[..|rows| - 1]) == multiset(rows) - multiset{last};
  }

  lemma {:induction false} ReverseSnoc(rows: seq<Row>, row: Row)
    ensures Reverse(rows + [row]) == [row] + Reverse(rows)
  {
    var a, b := Reverse(rows + [row]), [row] + Reverse(rows);
    forall i | 0 <= i < |a| ensures a[i] == b[i] {
      if i > 0 {
        assert b[i] == Reverse(rows)[i - 1];
      }
    }
  }
}
