/** What ORDER BY makes of the matching entries. The entry id is always among the order columns, so there is
    exactly one order, and the default orders never meet a NULL. */
module Listing {
  import opened Wrappers
  import opened KeysetPredicate
  import opened Paging

  /** A matching entry: the ranks of its id, its timestamp and its projected fields. */
  datatype Entry = Entry(id: int, timestamp: int, projected: map<string, int>)

  /** The cell of an order column; the projection is an outer join, so a field may be missing. */
  function CellOf(e: Entry, key: string, timestamp: string): Cell {
    if key == timestamp then Some(e.timestamp)
    else if key == "id" then Some(e.id)
    else if key in e.projected then Some(e.projected[key])
    else None
  }

  function RowOf(e: Entry, orders: seq<SortItem>, timestamp: string): (row: seq<Cell>)
    ensures |row| == |orders|
  {
    seq(|orders|, i requires 0 <= i < |orders| => CellOf(e, orders[i].key, timestamp))
  }

  function RowsOf(entries: seq<Entry>, orders: seq<SortItem>, timestamp: string): (rows: seq<seq<Cell>>)
    ensures |rows| == |entries|
  {
    seq(|entries|, i requires 0 <= i < |entries| => RowOf(entries[i], orders, timestamp))
  }

  function Directions(orders: seq<SortItem>): (d: seq<bool>)
    ensures |d| == |orders|
  {
    seq(|orders|, i requires 0 <= i < |orders| => orders[i].descending)
  }

  predicate DistinctEntries(entries: seq<Entry>) { forall i,
      j :: 0 <= i < j < |entries| ==> entries[i].id != entries[j].id }

  predicate DistinctRows(rows: seq<seq<Cell>>) { forall i, j :: 0 <= i < j < |rows| ==> rows[i] != rows[j] }

  predicate Uniform(rows: seq<seq<Cell>>, columns: nat) { forall i :: 0 <= i < |rows| ==> |rows[i]| == columns }

  /** The id tells rows apart. */
  lemma {:induction false} EntriesGiveDistinctRows(entries: seq<Entry>, sort: seq<SortItem>, timestamp: string)
    requires DistinctEntries(entries) && timestamp != "id"
    ensures DistinctRows(RowsOf(entries, SortColumns(sort, timestamp), timestamp))
  {
    var orders := SortColumns(sort, timestamp);
    var k :| 0 <= k < |orders| && orders[k].key == "id";
    forall i, j | 0 <= i < j < |entries| ensures RowOf(entries[i], orders, timestamp) != RowOf(entries[j], orders, timestamp) {
      assert RowOf(entries[i], orders, timestamp)[k] == Some(entries[i].id);
      assert RowOf(entries[j], orders, timestamp)[k] == Some(entries[j].id);
    }
  }

  // ---- sorting ----

  function Insert(descending: seq<bool>, row: seq<Cell>, rows: seq<seq<Cell>>): (r: seq<seq<Cell>>)
    requires |row| == |descending| && Uniform(rows, |descending|)
    ensures Uniform(r, |descending|)
  {
    if rows == [] || After(descending, row, rows[0]) then [row] + rows else [rows[0]] + Insert(descending, row, rows[1..])
  }

  lemma {:induction false} InsertSorted(descending: seq<bool>, row: seq<Cell>, rows: seq<seq<Cell>>)
    requires |row| == |descending| && Sorted(descending, rows) && row !in rows
    ensures Sorted(descending, Insert(descending, row, rows))
    ensures multiset(Insert(descending, row, rows)) == multiset(rows) + multiset{row}
  {
    if rows != [] {
      assert rows == [rows[0]] + rows[1..];
      if After(descending, row, rows[0]) {
        forall j | 0 < j < |rows| ensures After(descending, row, rows[j]) { AfterTransitive(descending, row, rows[0], rows[j]); }
      } else {
        AfterTotal(descending, row, rows[0]);
        InsertSorted(descending, row, rows[1..]);
        HeadBefore(descending, row, rows);
      }
    }
  }

  lemma {:induction false} HeadBefore(descending: seq<bool>, row: seq<Cell>, rows: seq<seq<Cell>>)
    requires |row| == |descending| && Sorted(descending, rows) && rows != [] && After(descending, rows[0], row)
    requires Sorted(descending, Insert(descending, row, rows[1..]))
    requires multiset(Insert(descending, row, rows[1..])) == multiset(rows[1..]) + multiset{row}
    ensures Sorted(descending, [rows[0]] + Insert(descending, row, rows[1..]))
  {
    var rest := Insert(descending, row, rows[1..]);
    forall j | 0 <= j < |rest| ensures After(descending, rows[0], rest[j]) {
      assert rest[j] in multiset(rest);
      if rest[j] != row {
        assert rest[j] in rows[1..];
        var i :| 0 <= i < |rows| - 1 && rows[1..][i] == rest[j];
        assert After(descending, rows[0], rows[i + 1]);
      }
    }
  }

  /** The rows in ORDER BY order, whatever order the table holds them in. */
  function SortRows(descending: seq<bool>, rows: seq<seq<Cell>>): (r: seq<seq<Cell>>)
    requires Uniform(rows, |descending|)
    ensures Uniform(r, |descending|)
  {
    if rows == [] then [] else Insert(descending, rows[0], SortRows(descending, rows[1..]))
  }

  lemma {:induction false} SortRowsSorted(descending: seq<bool>, rows: seq<seq<Cell>>)
    requires Uniform(rows, |descending|) && DistinctRows(rows)
    ensures Sorted(descending, SortRows(descending, rows)) && multiset(SortRows(descending, rows)) == multiset(rows)
  {
    if rows != [] {
      SortRowsSorted(descending, rows[1..]);
      var rest := SortRows(descending, rows[1..]);
      assert rows == [rows[0]] + rows[1..];
      forall r | r in rest ensures r in rows[1..] { assert r in multiset(rest); }
      InsertSorted(descending, rows[0], rest);
    }
  }

  /** Two sorted listings of the same rows are equal. */
  lemma {:induction false} SortedUnique(descending: seq<bool>, a: seq<seq<Cell>>, b: seq<seq<Cell>>)
    requires Sorted(descending, a) && Sorted(descending, b) && multiset(a) == multiset(b)
    ensures a == b
  {
    assert |a| == |multiset(a)| == |multiset(b)| == |b|;
    if a != [] {
      assert a == [a[0]] + a[1..] && b == [b[0]] + b[1..];
      FirstIsSame(descending, a, b);
      assert multiset(a[1..]) == multiset(a) - multiset{a[0]};
      SortedUnique(descending, a[1..], b[1..]);
    }
  }

  lemma {:induction false} FirstIsSame(descending: seq<bool>, a: seq<seq<Cell>>, b: seq<seq<Cell>>)
    requires Sorted(descending, a) && Sorted(descending, b) && multiset(a) == multiset(b) && a != [] && b != []
    ensures a[0] == b[0]
  {
    assert a[0] in multiset(b) && b[0] in multiset(a);
    var i :| 0 <= i < |b| && b[i] == a[0];
    var j :| 0 <= j < |a| && a[j] == b[0];
    if i > 0 && j > 0 {
      assert After(descending, b[0], a[0]) && After(descending, a[0], b[0]);
      AfterTransitive(descending, a[0], b[0], a[0]);
      AfterIrreflexive(descending, a[0]);
    }
  }

  // ---- the listing of the matching entries ----

  /** What the query lists: the rows of the matching entries in ORDER BY order. */
  function ListingOf(entries: seq<Entry>, sort: seq<SortItem>, timestamp: string): seq<seq<Cell>> {
    var orders := SortColumns(sort, timestamp);
    SortRows(Directions(orders), RowsOf(entries, orders, timestamp))
  }

  function DirectionsOf(sort: seq<SortItem>, timestamp: string): seq<bool> { Directions(SortColumns(sort, timestamp)) }

  /** For any requested order the matching entries have exactly one strictly sorted listing. */
  lemma ListingIsUnique(entries: seq<Entry>, sort: seq<SortItem>, timestamp: string, other: seq<seq<Cell>>)
    requires DistinctEntries(entries) && timestamp != "id"
    ensures var rows := RowsOf(entries, SortColumns(sort, timestamp), timestamp);
      Sorted(DirectionsOf(sort, timestamp), other) && multiset(other) == multiset(rows) <==> other == ListingOf(entries, sort, timestamp)
  {
    var orders := SortColumns(sort, timestamp);
    var rows := RowsOf(entries, orders, timestamp);
    EntriesGiveDistinctRows(entries, sort, timestamp);
    SortRowsSorted(Directions(orders), rows);
    if Sorted(Directions(orders), other) && multiset(other) == multiset(rows) {
      SortedUnique(Directions(orders), other, ListingOf(entries, sort, timestamp));
    }
  }

  /** One request: the orders are built, the database sorts the matching rows, and a cursor becomes a condition
      whose arguments have to fit its placeholders. */
  method ListEntries(entries: seq<Entry>, sort: seq<SortItem>, timestamp: string, cursor: Option<seq<Cell>>, limit: nat)
    returns (r: Result<Page, PageError>)
    requires DistinctEntries(entries) && timestamp != "id" && limit > 0
    ensures Sorted(DirectionsOf(sort, timestamp), ListingOf(entries, sort, timestamp))
    ensures r == ListPage(DirectionsOf(sort, timestamp), ListingOf(entries, sort, timestamp), cursor, limit)
  {
    var orders := BuildOrders(sort, timestamp);
    var descending := Directions(orders);
    var rows := SortRows(descending, RowsOf(entries, orders, timestamp));
    ListingIsUnique(entries, sort, timestamp, rows);
    if cursor.None? { return Ok(Cut(rows, limit)); }
    var clause := CursorPredicate(descending, cursor.value);
    if clause.None? { return Err(InvalidCursor); }
    if Marks(clause.value.0) != |clause.value.1| { return Err(ArgumentMismatch); }
    PartsOver(descending, cursor.value, |descending|);
    return Ok(Cut(Select(rows, clause.value.0, clause.value.1), limit));
  }

  /** Following next_cursor from the start delivers every matching entry exactly once, in that order, exactly when
      every page ends on a safe cursor. */
  lemma PagesListEveryEntry(entries: seq<Entry>, sort: seq<SortItem>, timestamp: string, limit: nat)
    requires DistinctEntries(entries) && timestamp != "id" && limit > 0
    ensures Sorted(DirectionsOf(sort, timestamp), ListingOf(entries, sort, timestamp))
    ensures var (d, listing) := (DirectionsOf(sort, timestamp), ListingOf(entries, sort, timestamp));
      var pages := Follow(d, listing, None, 0, limit);
      && (pages.Ok? <==> BoundariesSafe(d, listing, 0, limit))
      && (pages.Ok? ==> Concat(pages.value) == listing
                        && multiset(listing) == multiset(RowsOf(entries, SortColumns(sort, timestamp), timestamp)))
  {
    var listing := ListingOf(entries, sort, timestamp);
    ListingIsUnique(entries, sort, timestamp, listing);
    PagesPartition(DirectionsOf(sort, timestamp), listing, 0, limit);
    assert listing[0..] == listing;
  }

  /** The default listings, by a timestamp and the id, never meet a NULL: they are paged through completely. */
  lemma DefaultListingNeverFails(entries: seq<Entry>, timestamp: string, limit: nat)
    requires DistinctEntries(entries) && timestamp != "id" && limit > 0
    ensures Sorted(DirectionsOf([], timestamp), ListingOf(entries, [], timestamp))
    ensures Follow(DirectionsOf([], timestamp), ListingOf(entries, [], timestamp), None, 0, limit).Ok?
  {
    var d, listing := DirectionsOf([], timestamp), ListingOf(entries, [], timestamp);
    var rows := RowsOf(entries, SortColumns([], timestamp), timestamp);
    PagesListEveryEntry(entries, [], timestamp, limit);
    ListingIsUnique(entries, [], timestamp, listing);
    forall i | 0 <= i < |listing| ensures CursorSafe(d, listing[i]) {
      assert listing[i] in multiset(rows);
      var j :| 0 <= j < |rows| && rows[j] == listing[i];
      assert rows[j] == RowOf(entries[j], SortColumns([], timestamp), timestamp);
    }
    SafeEverywhere(d, listing, 0, limit);
  }

  lemma {:induction false} SafeEverywhere(descending: seq<bool>, rows: seq<seq<Cell>>, at: nat, limit: nat)
    requires Sorted(descending, rows) && limit > 0 && forall i :: 0 <= i < |rows| ==> CursorSafe(descending, rows[i])
    ensures BoundariesSafe(descending, rows, at, limit)
    decreases |rows| - at
  {
    if at + limit < |rows| { SafeEverywhere(descending, rows, at + limit, limit); }
  }

  // ---- the order, said of the entries ----

  /** The row ends in the id of its entry. */
  predicate IsRowOf(row: seq<Cell>, e: Entry) { row != [] && row[|row| - 1] == Some(e.id) }

  /** One cell stands before another: NULL is lowest. */
  predicate CellBefore(descending: bool, x: Cell, y: Cell) {
    if descending then x.Some? && (y.Some? ==> x.value > y.value)
    else y.Some? && (x.Some? ==> x.value < y.value)
  }

  predicate SameOn(a: Entry, b: Entry, sort: seq<SortItem>, n: nat, timestamp: string)
    requires n <= |sort|
  {
    forall k :: 0 <= k < n ==> CellOf(a, sort[k].key, timestamp) == CellOf(b, sort[k].key, timestamp)
  }

  /** The first requested item on which the entries differ decides. */
  predicate DecidesFor(a: Entry, b: Entry, sort: seq<SortItem>, k: nat, timestamp: string)
    requires k < |sort|
  {
    SameOn(a, b, sort, k, timestamp)
    && CellBefore(sort[k].descending, CellOf(a, sort[k].key, timestamp), CellOf(b, sort[k].key, timestamp))
  }

  /** Without a request the newest entry comes first, and of two of the same time the one with the greater id. With
      one, the first item on which they differ decides in its direction; if there is none the id decides, in the
      direction of the last item. */
  predicate Precedes(a: Entry, b: Entry, sort: seq<SortItem>, timestamp: string) {
    if sort == [] then a.timestamp > b.timestamp || (a.timestamp == b.timestamp && a.id > b.id)
    else
      || (exists k :: 0 <= k < |sort| && DecidesFor(a, b, sort, k, timestamp))
      || (SameOn(a, b, sort, |sort|, timestamp) && if sort[|sort| - 1].descending then a.id > b.id else a.id < b.id)
  }

  lemma {:induction false} RowEndsInId(e: Entry, sort: seq<SortItem>, timestamp: string)
    requires timestamp != "id"
    ensures IsRowOf(RowOf(e, SortColumns(sort, timestamp), timestamp), e)
  {
  }

  lemma {:induction false} AfterIsPreceded(a: Entry, b: Entry, sort: seq<SortItem>, timestamp: string)
    requires timestamp != "id"
    requires var orders := SortColumns(sort, timestamp);
      After(Directions(orders), RowOf(a, orders, timestamp), RowOf(b, orders, timestamp))
    ensures Precedes(a, b, sort, timestamp)
  {
    var orders := SortColumns(sort, timestamp);
    var d, x, y := Directions(orders), RowOf(a, orders, timestamp), RowOf(b, orders, timestamp);
    AfterIsDecided(d, x, y);
    var i :| 0 <= i < |y| && DecidedAt(d, x, y, i);
    forall m | 0 <= m < i ensures CellOf(a, orders[m].key, timestamp) == CellOf(b, orders[m].key, timestamp) {
      assert x[..i][m] == y[..i][m];
    }
    assert CellBefore(orders[i].descending, CellOf(a, orders[i].key, timestamp), CellOf(b, orders[i].key, timestamp));
    if sort != [] {
      forall m | 0 <= m < |sort| ensures sort[m] == orders[m] {}
      forall m | 0 <= m < |sort| && m < i ensures CellOf(a, sort[m].key, timestamp) == CellOf(b, sort[m].key, timestamp) {
        assert sort[m] == orders[m];
      }
      if i < |sort| {
        assert sort[i] == orders[i];
        assert DecidesFor(a, b, sort, i, timestamp);
      } else {
        assert SameOn(a, b, sort, |sort|, timestamp);
      }
    }
  }

  lemma {:induction false} ListedRow(entries: seq<Entry>, sort: seq<SortItem>, timestamp: string, i: nat)
    returns (n: nat)
    requires DistinctEntries(entries) && timestamp != "id" && i < |ListingOf(entries, sort, timestamp)|
    ensures n < |entries|
    ensures ListingOf(entries, sort, timestamp)[i] == RowOf(entries[n], SortColumns(sort, timestamp), timestamp)
    ensures IsRowOf(ListingOf(entries, sort, timestamp)[i], entries[n])
  {
    var listing := ListingOf(entries, sort, timestamp);
    var rows := RowsOf(entries, SortColumns(sort, timestamp), timestamp);
    ListingIsUnique(entries, sort, timestamp, listing);
    assert listing[i] in multiset(rows);
    n :| 0 <= n < |rows| && rows[n] == listing[i];
    RowEndsInId(entries[n], sort, timestamp);
  }

  /** The listing holds one row for every matching entry, an earlier row's entry preceding a later one's. */
  lemma {:induction false} ListedInOrder(entries: seq<Entry>, sort: seq<SortItem>, timestamp: string)
    requires DistinctEntries(entries) && timestamp != "id"
    ensures var listing := ListingOf(entries, sort, timestamp);
      && |listing| == |entries|
      && (forall n :: 0 <= n < |entries| ==> exists i :: 0 <= i < |listing| && IsRowOf(listing[i], entries[n]))
      && (forall i, j, n, m ::
            (0 <= i < j < |listing| && 0 <= n < |entries| && 0 <= m < |entries|
             && IsRowOf(listing[i], entries[n]) && IsRowOf(listing[j], entries[m]))
            ==> Precedes(entries[n], entries[m], sort, timestamp))
  {
    var listing := ListingOf(entries, sort, timestamp);
    var rows := RowsOf(entries, SortColumns(sort, timestamp), timestamp);
    ListingIsUnique(entries, sort, timestamp, listing);
    assert |listing| == |multiset(listing)| == |multiset(rows)| == |rows|;
    forall n | 0 <= n < |entries| ensures exists i :: 0 <= i < |listing| && IsRowOf(listing[i], entries[n]) {
      RowEndsInId(entries[n], sort, timestamp);
      assert rows[n] in multiset(listing);
    }
    forall i, j, n, m | 0 <= i < j < |listing| && 0 <= n < |entries| && 0 <= m < |entries|
        && IsRowOf(listing[i], entries[n]) && IsRowOf(listing[j], entries[m])
      ensures Precedes(entries[n], entries[m], sort, timestamp)
    {
      var a := ListedRow(entries, sort, timestamp, i);
      var b := ListedRow(entries, sort, timestamp, j);
      assert a == n && b == m;
      assert After(DirectionsOf(sort, timestamp), listing[i], listing[j]);
      AfterIsPreceded(entries[n], entries[m], sort, timestamp);
    }
  }
}
