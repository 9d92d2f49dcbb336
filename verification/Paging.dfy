/** Keyset pages over a fixed database: ListPublishedEntries and ListEntries, and the export loop
    that follows next_cursor. A row is the list of its order cells; it contains the entry id, so rows
    differ. `rows` is what the query matches, in ORDER BY order. */
module Paging {
  import opened Wrappers
  import opened KeysetPredicate

  /** What a sort item names: the timestamp, the entry id, or a projected field. */
  datatype SortItem = SortItem(key: string, descending: bool)

  /** The order columns of a listing: the default, or the requested ones followed by the entry id. */
  function SortColumns(sort: seq<SortItem>, timestamp: string): (orders: seq<SortItem>)
    ensures orders != [] && exists o :: o in orders && o.key == "id"
  {
    if sort == [] then [SortItem(timestamp, true), SortItem("id", true)]
    else if sort[|sort| - 1].key != "id" then
      var orders := sort + [SortItem("id", sort[|sort| - 1].descending)];
      assert orders[|sort|].key == "id";
      orders
    else sort
  }

  method BuildOrders(sort: seq<SortItem>, timestamp: string) returns (orders: seq<SortItem>)
    ensures orders == SortColumns(sort, timestamp)
  {
    orders := [SortItem(timestamp, true), SortItem("id", true)];
    if |sort| > 0 {
      orders := [];
      for i := 0 to |sort|
        invariant orders == sort[..i]
      {
        orders := orders + [sort[i]];
      }
      if sort[|sort| - 1].key != "id" {
        orders := orders + [SortItem("id", sort[|sort| - 1].descending)];
      }
    }
  }

  predicate Sorted(descending: seq<bool>, rows: seq<seq<Cell>>) {
    && (forall i :: 0 <= i < |rows| ==> |rows[i]| == |descending|)
    && (forall i, j :: 0 <= i < j < |rows| ==> After(descending, rows[i], rows[j]))
  }

  datatype PageError = InvalidCursor | ArgumentMismatch | Stopped(reason: string)

  datatype Page = Page(items: seq<seq<Cell>>, next: Option<seq<Cell>>)

  predicate Chosen(clause: Cond, args: seq<Cell>, row: seq<Cell>)
    requires Over(clause, |row|) && Marks(clause) == |args|
  {
    Eval(clause, row, args, 0) == Yes
  }

  /** The rows for which the clause is TRUE. */
  function Select(rows: seq<seq<Cell>>, clause: Cond, args: seq<Cell>): seq<seq<Cell>>
    requires Marks(clause) == |args| && forall i :: 0 <= i < |rows| ==> Over(clause, |rows[i]|)
  {
    if rows == [] then []
    else (if Chosen(clause, args, rows[0]) then [rows[0]] else []) + Select(rows[1..], clause, args)
  }

  predicate Fits(clause: Cond, descending: seq<bool>) { Over(clause, |descending|) }

  lemma {:induction false} PrefixOver(i: nat, columns: nat)
    requires i <= columns
    ensures forall p :: p in Prefix(i) ==> Over(p, columns)
  {
  }

  lemma {:induction false} PartsOver(descending: seq<bool>, values: seq<Cell>, n: nat)
    requires n <= |descending| == |values|
    ensures forall p :: p in Parts(descending, values, n) ==> Over(p, |descending|)
  {
    if n > 0 {
      PartsOver(descending, values, n - 1);
      PrefixOver(n - 1, |descending|);
      assert Over(Comparison(descending, values, n - 1), |descending|) by {
        assert forall p :: p in [Less(n - 1), IsNull(n - 1)] ==> Over(p, |descending|);
      }
    }
  }

  /** One page: the query takes limit + 1 rows after the cursor; an argument count that differs from
      the placeholder count is refused by the driver. */
  function ListPage(descending: seq<bool>, rows: seq<seq<Cell>>, cursor: Option<seq<Cell>>,
      limit: nat): Result<Page, PageError>
    requires Sorted(descending, rows) && limit > 0
  {
    if cursor.None? then Ok(Cut(rows, limit))
    else
      var clause := Clause(descending, cursor.value);
      if clause.None? then Err(InvalidCursor)
      else if Marks(clause.value.0) != |clause.value.1| then Err(ArgumentMismatch)
      else
        PartsOver(descending, cursor.value, |descending|);
        Ok(Cut(Select(rows, clause.value.0, clause.value.1), limit))
  }

  /** `LIMIT limit + 1`, the surplus row turned into a cursor. */
  function Cut(selected: seq<seq<Cell>>, limit: nat): Page
    requires limit > 0
  {
    if |selected| > limit then Page(selected[..limit], Some(selected[limit - 1])) else Page(selected, None)
  }

  /** Of the rows of a sorted list exactly those behind position k come after its row. */
  lemma {:induction false} AfterInOrder(descending: seq<bool>, rows: seq<seq<Cell>>, k: nat, i: nat)
    requires Sorted(descending, rows) && k < |rows| && i < |rows|
    ensures After(descending, rows[k], rows[i]) <==> k < i
  {
    AfterIrreflexive(descending, rows[k]);
    if i < k && After(descending, rows[k], rows[i]) { AfterTransitive(descending, rows[k], rows[i], rows[k]); }
  }

  /** If exactly the rows behind position k are chosen, they are what is selected. */
  lemma {:induction false} SelectBehind(rows: seq<seq<Cell>>, k: int, clause: Cond, args: seq<Cell>)
    requires -1 <= k < |rows| && Marks(clause) == |args| && forall i :: 0 <= i < |rows| ==> Over(clause, |rows[i]|)
    requires forall i :: 0 <= i < |rows| ==> (Chosen(clause, args, rows[i]) <==> k < i)
    ensures Select(rows, clause, args) == rows[k + 1..]
  {
    if rows != [] {
      var rest := rows[1..];
      forall i | 0 <= i < |rest| ensures rest[i] == rows[i + 1] && (Chosen(clause, args, rest[i]) <==> k - 1 < i) {
        assert Chosen(clause, args, rows[i + 1]) <==> k < i + 1;
      }
      SelectBehind(rest, if k >= 0 then k - 1 else -1, clause, args);
    }
  }

  /** The clause of a safe cursor selects the rows behind it. */
  lemma {:induction false} ClauseSelects(descending: seq<bool>, rows: seq<seq<Cell>>, k: nat)
    requires Sorted(descending, rows) && k < |rows| && CursorSafe(descending, rows[k])
    requires Clause(descending, rows[k]).Some?
    ensures var clause := Clause(descending, rows[k]).value;
      Marks(clause.0) == |clause.1| && Over(clause.0, |descending|) && Select(rows, clause.0, clause.1) == rows[k + 1..]
  {
    var clause := Clause(descending, rows[k]).value;
    ClauseMeansAfter(descending, rows[k], rows[k]);
    forall i | 0 <= i < |rows| ensures Chosen(clause.0, clause.1, rows[i]) <==> k < i {
      ClauseMeansAfter(descending, rows[k], rows[i]);
      AfterInOrder(descending, rows, k, i);
    }
    SelectBehind(rows, k, clause.0, clause.1);
  }

  /** The page behind a safe cursor starts right after the cursor's row and misses nothing. */
  lemma PageAfterRow(descending: seq<bool>, rows: seq<seq<Cell>>, k: nat, limit: nat)
    requires Sorted(descending, rows) && k + 1 < |rows| && limit > 0
    ensures CursorSafe(descending, rows[k]) ==>
      ListPage(descending, rows, Some(rows[k]), limit) == Ok(Cut(rows[k + 1..], limit))
    ensures !CursorSafe(descending, rows[k]) ==> ListPage(descending, rows, Some(rows[k]), limit) == Err(ArgumentMismatch)
  {
    AlignedIff(descending, rows[k]);
    SomePart(descending, rows, k);
    if CursorSafe(descending, rows[k]) { ClauseSelects(descending, rows, k); }
  }

  /** A row with a successor always yields a clause: some column decides for the successor. */
  lemma SomePart(descending: seq<bool>, rows: seq<seq<Cell>>, k: nat)
    requires Sorted(descending, rows) && k + 1 < |rows|
    ensures Clause(descending, rows[k]).Some?
  {
    AfterIsDecided(descending, rows[k], rows[k + 1]);
    var i :| 0 <= i < |descending| && DecidedAt(descending, rows[k], rows[k + 1], i);
    PartsGrow(descending, rows[k], i + 1, |descending|);
  }

  lemma {:induction false} PartsGrow(descending: seq<bool>, values: seq<Cell>, m: nat, n: nat)
    requires m <= n <= |descending| == |values|
    ensures |Parts(descending, values, m)| <= |Parts(descending, values, n)|
  {
    if m < n { PartsGrow(descending, values, m, n - 1); }
  }

  /** The last rows of the full pages that have a successor are safe cursors, from position `at` on. */
  predicate BoundariesSafe(descending: seq<bool>, rows: seq<seq<Cell>>, at: nat, limit: nat)
    requires Sorted(descending, rows) && limit > 0
    decreases |rows| - at
  {
    at + limit < |rows| ==> CursorSafe(descending, rows[at + limit - 1]) && BoundariesSafe(descending, rows, at + limit, limit)
  }

  /** The pages obtained by following next_cursor; `at` counts the rows delivered before. */
  function Follow(descending: seq<bool>, rows: seq<seq<Cell>>, cursor: Option<seq<Cell>>, at: nat,
      limit: nat): Result<seq<seq<seq<Cell>>>, PageError>
    requires Sorted(descending, rows) && limit > 0 && at <= |rows|
    decreases |rows| - at
  {
    var page := ListPage(descending, rows, cursor, limit);
    if page.Err? then Err(page.error)
    else if page.value.next.None? || at + limit >= |rows| then Ok([page.value.items])
    else
      match Follow(descending, rows, page.value.next, at + limit, limit)
      case Err(e) => Err(e)
      case Ok(rest) => Ok([page.value.items] + rest)
  }

  /** The cursor that stands for a position: none at the start, else the row before it. */
  function CursorAt(rows: seq<seq<Cell>>, at: nat): Option<seq<Cell>>
    requires at <= |rows|
  {
    if at == 0 then None else Some(rows[at - 1])
  }

  function Concat(pages: seq<seq<seq<Cell>>>): seq<seq<Cell>> {
    if pages == [] then [] else pages[0] + Concat(pages[1..])
  }

  /** What following the cursors from a position has to deliver. */
  ghost predicate Partitions(r: Result<seq<seq<seq<Cell>>>, PageError>, rest: seq<seq<Cell>>, limit: nat, safe: bool) {
    && (r.Ok? <==> safe)
    && (r.Ok? ==> Concat(r.value) == rest && forall p :: p in r.value ==> |p| <= limit)
  }

  /** Following next_cursor succeeds exactly when every page ends on a safe cursor, and then the
      pages partition the result: every matching row once, in ORDER BY order. */
  lemma {:induction false} PagesPartition(descending: seq<bool>, rows: seq<seq<Cell>>, at: nat, limit: nat)
    requires Sorted(descending, rows) && limit > 0 && at <= |rows|
    requires at > 0 ==> at < |rows| && CursorSafe(descending, rows[at - 1])
    ensures Partitions(Follow(descending, rows, CursorAt(rows, at), at, limit), rows[at..], limit,
               BoundariesSafe(descending, rows, at, limit))
    decreases |rows| - at
  {
    FirstPage(descending, rows, at, limit);
    var next := at + limit;
    if next >= |rows| {
      OnePage(rows[at..], limit);
    } else if CursorSafe(descending, rows[next - 1]) {
      PagesPartition(descending, rows, next, limit);
      MorePages(Follow(descending, rows, CursorAt(rows, next), next, limit), rows, at, limit,
               BoundariesSafe(descending, rows, next, limit));
    } else {
      RefusedPage(descending, rows, next, limit);
    }
  }

  lemma OnePage(rest: seq<seq<Cell>>, limit: nat)
    requires |rest| <= limit
    ensures Partitions(Ok([rest]), rest, limit, true)
  {
    assert Concat([rest]) == rest + Concat([]);
  }

  lemma MorePages(r: Result<seq<seq<seq<Cell>>>, PageError>, rows: seq<seq<Cell>>, at: nat, limit: nat, safe: bool)
    requires at + limit < |rows| && Partitions(r, rows[at + limit..], limit, safe)
    ensures r.Ok? ==> Partitions(Ok([rows[at..at + limit]] + r.value), rows[at..], limit, safe)
  {
    if r.Ok? {
      var pages := [rows[at..at + limit]] + r.value;
      assert pages[1..] == r.value;
      assert rows[at..] == rows[at..at + limit] + rows[at + limit..];
    }
  }

  lemma RefusedPage(descending: seq<bool>, rows: seq<seq<Cell>>, next: nat, limit: nat)
    requires Sorted(descending, rows) && limit > 0 && 0 < next < |rows| && !CursorSafe(descending, rows[next - 1])
    ensures Follow(descending, rows, CursorAt(rows, next), next, limit) == Err(ArgumentMismatch)
  {
    PageAfterRow(descending, rows, next - 1, limit);
  }

  /** The page fetched at a position, and the one step of Follow it leads to. */
  lemma {:induction false} FirstPage(descending: seq<bool>, rows: seq<seq<Cell>>, at: nat, limit: nat)
    requires Sorted(descending, rows) && limit > 0 && at <= |rows|
    requires at > 0 ==> at < |rows| && CursorSafe(descending, rows[at - 1])
    ensures at + limit >= |rows| ==> Follow(descending, rows, CursorAt(rows, at), at, limit) == Ok([rows[at..]])
    ensures at + limit < |rows| ==> (
      var rest := Follow(descending, rows, CursorAt(rows, at + limit), at + limit, limit);
      Follow(descending, rows, CursorAt(rows, at), at, limit) ==
        if rest.Err? then Err(rest.error) else Ok([rows[at..at + limit]] + rest.value))
  {
    if at > 0 { PageAfterRow(descending, rows, at - 1, limit); }
    assert rows[0..] == rows;
    if at + limit < |rows| { assert rows[at..][..limit] == rows[at..at + limit]; }
  }

  /** The gap: a page that ends on a row with NULL in a descending column other than the first cannot be
      continued, whatever follows. */
  lemma NullEndsPaging(descending: seq<bool>, rows: seq<seq<Cell>>, k: nat, column: nat, limit: nat)
    requires Sorted(descending, rows) && k + 1 < |rows| && limit > 0
    requires 0 < column < |descending| && descending[column] && rows[k][column].None?
    ensures ListPage(descending, rows, Some(rows[k]), limit) == Err(ArgumentMismatch)
  {
    assert Skipped(descending, rows[k], column);
    PageAfterRow(descending, rows, k, limit);
  }

  // ---- the export loop ----

  const MAX_EXPORT_ROWS: nat := 10000

  /** Pages start at the multiples of the limit. */
  predicate StartsPage(n: nat, limit: nat)
    requires limit > 0
  {
    n == 0 || (n >= limit && StartsPage(n - limit, limit))
  }

  /** What stops the export before the row behind the first n: the cursor of the page before it is not safe,
      there are too many rows, or writing it ends with an error. `refuse(r)` is the error, if any, of writing row
      number r: cancellation, encoding or size. */
  function StopBefore(descending: seq<bool>, rows: seq<seq<Cell>>, limit: nat, refuse: nat -> Option<PageError>,
      n: nat): Option<PageError>
    requires Sorted(descending, rows) && limit > 0 && n < |rows|
  {
    if n > 0 && StartsPage(n, limit) && !CursorSafe(descending, rows[n - 1]) then Some(ArgumentMismatch)
    else if n >= 10000 then Some(Stopped("export_row_limit_exceeded"))
    else refuse(n + 1)
  }

  /** What stops the writing of a page before its i-th row. */
  function StopInPage(before: nat, refuse: nat -> Option<PageError>, i: nat): Option<PageError> {
    if before + i >= MAX_EXPORT_ROWS then Some(Stopped("export_row_limit_exceeded")) else refuse(before + i + 1)
  }

  /** Writes one page; the count includes the row that is refused. */
  method WritePage(items: seq<seq<Cell>>, before: seq<seq<Cell>>, refuse: nat -> Option<PageError>)
    returns (written: seq<seq<Cell>>, error: Option<PageError>, ghost n: nat)
    requires |before| <= MAX_EXPORT_ROWS
    ensures n <= |items| && written == before + items[..n] && |written| <= MAX_EXPORT_ROWS
    ensures forall i :: 0 <= i < n ==> StopInPage(|before|, refuse, i).None?
    ensures if error.None? then n == |items| else n < |items| && StopInPage(|before|, refuse, n) == error
  {
    written, error, n := before, None, 0;
    var rows := |before|;
    for i := 0 to |items|
      invariant n == i && rows == |before| + i <= MAX_EXPORT_ROWS && written == before + items[..i] && error.None?
      invariant forall j :: 0 <= j < i ==> StopInPage(|before|, refuse, j).None?
    {
      rows := rows + 1;
      if rows > MAX_EXPORT_ROWS { return written, Some(Stopped("export_row_limit_exceeded")), i; }
      var refusal := refuse(rows);
      if refusal.Some? { return written, refusal, i; }
      written, n := written + [items[i]], i + 1;
    }
  }

  function PageEnd(rows: seq<seq<Cell>>, at: nat, limit: nat): nat {
    if at + limit < |rows| then at + limit else |rows|
  }

  /** The page that starts at a position. */
  predicate IsPage(rows: seq<seq<Cell>>, at: nat, limit: nat, page: Page)
    requires at <= |rows| && limit > 0
  {
    page == Page(rows[at..PageEnd(rows, at, limit)], if at + limit < |rows| then Some(rows[at + limit - 1]) else None)
  }

  /** Fetches the page at a position. */
  method Fetch(descending: seq<bool>, rows: seq<seq<Cell>>, cursor: Option<seq<Cell>>, limit: nat, ghost at: nat)
    returns (r: Result<Page, PageError>)
    requires Sorted(descending, rows) && limit > 0 && at <= |rows| && (at > 0 ==> at < |rows|)
    requires cursor == CursorAt(rows, at)
    ensures
      if at > 0 && !CursorSafe(descending, rows[at - 1]) then r == Err(ArgumentMismatch)
      else r.Ok? && IsPage(rows, at, limit, r.value)
  {
    r := ListPage(descending, rows, cursor, limit);
    if at > 0 { PageAfterRow(descending, rows, at - 1, limit); }
    assert rows[0..] == rows;
  }

  /** Nothing stops the export before its n-th row. */
  ghost predicate Unstopped(descending: seq<bool>, rows: seq<seq<Cell>>, limit: nat, refuse: nat -> Option<PageError>,
      n: nat)
    requires Sorted(descending, rows) && limit > 0 && n <= |rows|
  {
    forall i :: 0 <= i < n ==> StopBefore(descending, rows, limit, refuse, i).None?
  }

  /** Writes the page at a position. */
  method ExportPage(descending: seq<bool>, rows: seq<seq<Cell>>, limit: nat, refuse: nat -> Option<PageError>,
      ghost at: nat, page: Page, before: seq<seq<Cell>>) returns (written: seq<seq<Cell>>, error: Option<PageError>)
    requires Sorted(descending, rows) && limit > 0 && at <= |rows| && at <= MAX_EXPORT_ROWS && StartsPage(at, limit)
    requires before == rows[..at] && IsPage(rows, at, limit, page) && Unstopped(descending, rows, limit, refuse, at)
    requires 0 < at < |rows| ==> CursorSafe(descending, rows[at - 1])
    ensures |written| <= |rows| && |written| <= MAX_EXPORT_ROWS && written == rows[..|written|]
    ensures Unstopped(descending, rows, limit, refuse, |written|)
    ensures
      if error.None? then |written| == PageEnd(rows, at, limit)
      else |written| < |rows| && StopBefore(descending, rows, limit, refuse, |written|) == error
  {
    ghost var n;
    written, error, n := WritePage(page.items, before, refuse);
    StopsAgree(descending, rows, limit, refuse, at);
    PageStops(descending, rows, limit, refuse, at, n);
    assert rows[..at] + rows[at..PageEnd(rows, at, limit)][..n] == rows[..at + n];
  }

  /** Export: the rows before the first that something stops, and what stopped it; all of them if nothing does. */
  method Export(descending: seq<bool>, rows: seq<seq<Cell>>, limit: nat, refuse: nat -> Option<PageError>)
    returns (written: seq<seq<Cell>>, error: Option<PageError>)
    requires Sorted(descending, rows) && limit > 0
    ensures written <= rows && |written| <= MAX_EXPORT_ROWS
    ensures Unstopped(descending, rows, limit, refuse, |written|)
    ensures if error.None? then written == rows else |written| < |rows| && StopBefore(descending, rows, limit, refuse, |written|) == error
  {
    written := [];
    ghost var at := 0;
    var result := Fetch(descending, rows, None, limit, 0);
    var page := result.value;
    while true
      invariant at <= |rows| && at <= MAX_EXPORT_ROWS && StartsPage(at, limit)
      invariant written == rows[..at] && IsPage(rows, at, limit, page)
      invariant 0 < at < |rows| ==> CursorSafe(descending, rows[at - 1])
      invariant Unstopped(descending, rows, limit, refuse, at)
      decreases |rows| - at
    {
      written, error := ExportPage(descending, rows, limit, refuse, at, page, written);
      if error.Some? || page.next.None? { return; }
      NextStart(at, limit);
      at := at + limit;
      result := Fetch(descending, rows, page.next, limit, at);
      if result.Err? { error := Some(result.error); return; }
      page := result.value;
    }
  }

  lemma {:induction false} NextStart(at: nat, limit: nat)
    requires limit > 0 && StartsPage(at, limit)
    ensures StartsPage(at + limit, limit) && forall n :: at < n < at + limit ==> !StartsPage(n, limit)
  {
    if at > 0 {
      NextStart(at - limit, limit);
      forall n | at < n < at + limit ensures !StartsPage(n, limit) { assert !StartsPage(n - limit, limit); }
    }
  }

  /** Nothing stops the export before the rows a page has written. */
  lemma PageStops(descending: seq<bool>, rows: seq<seq<Cell>>, limit: nat, refuse: nat -> Option<PageError>, at: nat,
      n: nat)
    requires Sorted(descending, rows) && limit > 0 && at <= |rows| && n <= limit && at + n <= |rows|
    requires forall i :: 0 <= i < at ==> StopBefore(descending, rows, limit, refuse, i).None?
    requires forall i :: 0 <= i < n ==> StopInPage(at, refuse, i).None?
    requires forall i :: 0 <= i < limit && at + i < |rows| ==>
      StopBefore(descending, rows, limit, refuse, at + i) == StopInPage(at, refuse, i)
    ensures forall i :: 0 <= i < at + n ==> StopBefore(descending, rows, limit, refuse, i).None?
  {
    forall i | at <= i < at + n ensures StopBefore(descending, rows, limit, refuse, i).None? {
      assert StopBefore(descending, rows, limit, refuse, at + (i - at)) == StopInPage(at, refuse, i - at);
    }
  }

  /** Inside a page only the row limit and the writing can stop the export. */
  lemma StopsAgree(descending: seq<bool>, rows: seq<seq<Cell>>, limit: nat, refuse: nat -> Option<PageError>, at: nat)
    requires Sorted(descending, rows) && limit > 0 && at <= |rows| && StartsPage(at, limit)
    requires 0 < at < |rows| ==> CursorSafe(descending, rows[at - 1])
    ensures forall i :: 0 <= i < limit && at + i < |rows| ==>
      StopBefore(descending, rows, limit, refuse, at + i) == StopInPage(at, refuse, i)
  {
    NextStart(at, limit);
  }
}
