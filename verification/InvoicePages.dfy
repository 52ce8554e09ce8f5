/**
 The admin invoice list: its filters (internal/utils/admin_invoices_helper.go:61-92)
 and its pages (internal/server/handlers/admin_invoices.go:27-80).

 The invoice table is a sequence of rows with distinct IDs. What ILIKE and a cast to
 text mean is left open: they are fixed but arbitrary functions of the database.
 */
module InvoicePages {
  import opened Paging
  import opened Wrappers

  /** createdAt and the range ends are days; day 0 is Go's zero time. */
  datatype Invoice = Invoice(id: int, receiveName: string, statusID: int, createdAt: int)

  datatype Status = Status(id: int, name: string)

  datatype Db = Db(ilike: (string, string) -> bool, asText: int -> string, divide: (int, int) -> real)

  /** The query modifiers the handler combines. */
  datatype Mod =
    | LoadStatus
    | OrderByIdDesc
    | IdLike(pattern: string)
    | NameLike(pattern: string)
    | StatusIs(id: int)
    | CreatedBetween(first: int, last: int)
    | Limit(count: nat)
    | Offset(start: int)

  // ---------------------------------------------------------------- filters

  predicate Matches(db: Db, m: Mod, i: Invoice) {
    match m
    case IdLike(p) => db.ilike(db.asText(i.id), p)
    case NameLike(p) => db.ilike(i.receiveName, p)
    case StatusIs(id) => i.statusID == id
    case CreatedBetween(first, last) => first <= i.createdAt <= last
    case _ => true
  }

  predicate Selected(db: Db, mods: seq<Mod>, i: Invoice) {
    forall k :: 0 <= k < |mods| ==> Matches(db, mods[k], i)
  }

  function Filter(db: Db, mods: seq<Mod>, table: seq<Invoice>): seq<Invoice> {
    if table == [] then []
    else (if Selected(db, mods, table[0]) then [table[0]] else []) + Filter(db, mods, table[1..])
  }

  /** One(): the first status whose name matches. */
  function FindStatus(db: Db, statuses: seq<Status>, pattern: string): Option<Status> {
    if statuses == [] then None
    else if db.ilike(statuses[0].name, pattern) then Some(statuses[0])
    else FindStatus(db, statuses[1..], pattern)
  }

  datatype Search = Search(text: string, sort: string, dateFrom: int, dateTo: int)

  /** What the search restricts, if it can be understood; lookup is the error of the status query, if it fails. */
  function Restriction(db: Db, statuses: seq<Status>, q: Search, lookup: Option<string>): Result<seq<Mod>, string> {
    var pattern := "%" + q.text + "%";
    if q.text != "" then
      if q.sort == "Invoice ID" then Ok([IdLike(pattern)])
      else if q.sort == "Customer name" then Ok([NameLike(pattern)])
      else if q.sort == "Invoice status" then
        if lookup.Some? then Err(lookup.value) else
        match FindStatus(db, statuses, pattern)
        case Some(status) => Ok([StatusIs(status.id)])
        case None => Err("no rows")
      else Ok([])
    else if q.sort == "Created at" && q.dateFrom != 0 && q.dateTo != 0 && q.dateFrom < q.dateTo then
      Ok([CreatedBetween(q.dateFrom, q.dateTo)])
    else Ok([])
  }

  /** The two modifier lists, grown side by side. */
  method BuildInvoiceFilters(db: Db, statuses: seq<Status>, q: Search, lookup: Option<string>)
    returns (r: Result<(seq<Mod>, seq<Mod>), string>)
    ensures match Restriction(db, statuses, q, lookup)
            case Ok(mods) => r == Ok(([LoadStatus, OrderByIdDesc] + mods, mods))
            case Err(e) => r == Err(e)
  {
    var queryMods := [LoadStatus, OrderByIdDesc];
    var queryModsTotal: seq<Mod> := [];
    var pattern := "%" + q.text + "%";
    if q.text != "" {
      if q.sort == "Invoice ID" {
        queryMods := queryMods + [IdLike(pattern)];
        queryModsTotal := queryModsTotal + [IdLike(pattern)];
      } else if q.sort == "Customer name" {
        queryMods := queryMods + [NameLike(pattern)];
        queryModsTotal := queryModsTotal + [NameLike(pattern)];
      } else if q.sort == "Invoice status" {
        if lookup.Some? {
          return Err(lookup.value);
        }
        var status := FindStatus(db, statuses, pattern);
        if status.None? {
          return Err("no rows");
        }
        queryMods := queryMods + [StatusIs(status.value.id)];
        queryModsTotal := queryModsTotal + [StatusIs(status.value.id)];
      }
    } else if q.sort == "Created at" && q.dateFrom != 0 && q.dateTo != 0 && q.dateFrom < q.dateTo {
      queryMods := queryMods + [CreatedBetween(q.dateFrom, q.dateTo)];
      queryModsTotal := queryModsTotal + [CreatedBetween(q.dateFrom, q.dateTo)];
    }
    assert Restriction(db, statuses, q, lookup).Ok? && queryModsTotal == Restriction(db, statuses, q, lookup).value;
    assert queryMods == [LoadStatus, OrderByIdDesc] + queryModsTotal;
    return Ok((queryMods, queryModsTotal));
  }

  // ---------------------------------------------------------------- executing a query

  /** ORDER BY invoiceID DESC */
  function SortDesc(rows: seq<Invoice>): seq<Invoice> {
    if rows == [] then [] else Insert(rows[0], SortDesc(rows[1..]))
  }

  function Insert(i: Invoice, rows: seq<Invoice>): seq<Invoice> {
    if rows == [] then [i]
    else if i.id >= rows[0].id then [i] + rows
    else [rows[0]] + Insert(i, rows[1..])
  }

  function LimitOf(mods: seq<Mod>): Option<nat> {
    if mods == [] then None
    else if mods[|mods| - 1].Limit? then Some(mods[|mods| - 1].count)
    else LimitOf(mods[..|mods| - 1])
  }

  function OffsetOf(mods: seq<Mod>): int {
    if mods == [] then 0
    else if mods[|mods| - 1].Offset? then mods[|mods| - 1].start
    else OffsetOf(mods[..|mods| - 1])
  }

  /** The rows from an offset on, at most limit of them. */
  function Window(rows: seq<Invoice>, offset: nat, limit: nat): seq<Invoice> {
    if offset >= |rows| then [] else if offset + limit < |rows| then rows[offset..offset + limit] else rows[offset..]
  }

  function All(db: Db, mods: seq<Mod>, table: seq<Invoice>): Result<seq<Invoice>, string> {
    var found := Filter(db, mods, table);
    var rows := if OrderByIdDesc in mods then SortDesc(found) else found;
    if OffsetOf(mods) < 0 then Err("OFFSET must not be negative")
    else match LimitOf(mods)
      case None => Ok(Window(rows, OffsetOf(mods), |rows|))
      case Some(limit) => Ok(Window(rows, OffsetOf(mods), limit))
  }

  function Count(db: Db, mods: seq<Mod>, table: seq<Invoice>): nat {
    |Filter(db, mods, table)|
  }

  // ---------------------------------------------------------------- the handler

  /** The errors of the four queries of a request; None is a query that succeeds. */
  datatype QueryErrors = QueryErrors(cards: Option<string>, status: Option<string>, count: Option<string>, rows: Option<string>)

  /** The division of the machine rounds correctly. */
  ghost predicate DividesCorrectly(db: Db) {
    forall n: int, p: int {:trigger db.divide(n, p)} :: 0 < n <= TWO53 && 0 < p <= TWO53 ==>
      RoundsTo(n as real / p as real, db.divide(n, p))
  }

  /** All matching invoices, newest ID first. */
  function Matching(db: Db, mods: seq<Mod>, table: seq<Invoice>): seq<Invoice> {
    SortDesc(Filter(db, mods, table))
  }

  /** The response for a page of the invoices a restriction selects: the rows and the number of pages. */
  function PageOf(db: Db, mods: seq<Mod>, table: seq<Invoice>, page: int): Result<(seq<Invoice>, int), string> {
    var offset := Paging.Offset(page, DEFAULT_PAGE_SIZE);
    if offset < 0 then Err("OFFSET must not be negative")
    else
      var rows := Matching(db, mods, table);
      Ok((Window(rows, offset, DEFAULT_PAGE_SIZE), PageCount(|rows|)))
  }

  function PageCount(n: nat): nat {
    if n == 0 then 0 else CeilDiv(n, DEFAULT_PAGE_SIZE)
  }

  /** The error of the first step that fails, or the page of the invoices the search selects. */
  function Response(
      db: Db, statuses: seq<Status>, table: seq<Invoice>,
      page: int, sort: string, search: string, dates: Result<(int, int), string>, errors: QueryErrors)
    : Result<(seq<Invoice>, int), string>
  {
    if errors.cards.Some? then Err(errors.cards.value)
    else if page == 0 then Err("Did not receive page")
    else if sort == "Created at" && dates.Err? then Err(dates.error)
    else
      var (from, to) := if sort == "Created at" then dates.value else (0, 0);
      match Restriction(db, statuses, Search(search, sort, from, to), errors.status)
      case Err(e) => Err(e)
      case Ok(mods) =>
        if errors.count.Some? then Err(errors.count.value)
        else if errors.rows.Some? then Err(errors.rows.value)
        else PageOf(db, mods, table, page)
  }

  /** GetAdminInvoice; dates is what ParseDateRange makes of the two date parameters. */
  method GetAdminInvoice(
      db: Db, statuses: seq<Status>, table: seq<Invoice>,
      page: int, sort: string, search: string, dates: Result<(int, int), string>, errors: QueryErrors)
    returns (r: Result<(seq<Invoice>, int), string>)
    requires DividesCorrectly(db) && |table| <= TWO53
    ensures r == Response(db, statuses, table, page, sort, search, dates, errors)
  {
    if errors.cards.Some? {
      return Err(errors.cards.value);
    }
    if page == 0 {
      return Err("Did not receive page");
    }
    var dateFrom, dateTo := 0, 0;
    if sort == "Created at" {
      if dates.Err? {
        return Err(dates.error);
      }
      dateFrom, dateTo := dates.value.0, dates.value.1;
    }
    var filters := BuildInvoiceFilters(db, statuses, Search(search, sort, dateFrom, dateTo), errors.status);
    if filters.Err? {
      return Err(filters.error);
    }
    var (queryMods, queryModsTotal) := filters.value;
    if errors.count.Some? {
      return Err(errors.count.value);
    }
    var totalInvoice := Count(db, queryModsTotal, table);
    FilterIsShorter(db, queryModsTotal, table);
    var offset, totalPage := Paginate(page, DEFAULT_PAGE_SIZE, totalInvoice, db.divide);
    ghost var built := queryMods;
    queryMods := queryMods + [Limit(6), Offset(offset)];
    if errors.rows.Some? {
      return Err(errors.rows.value);
    }
    var invoices := All(db, queryMods, table);
    DataQuery(db, queryModsTotal, table, offset);
    if invoices.Err? {
      return Err(invoices.error);
    }
    SortKeepsRows(Filter(db, queryModsTotal, table));
    return Ok((invoices.value, totalPage));
  }

  lemma {:induction false} FilterIsShorter(db: Db, mods: seq<Mod>, table: seq<Invoice>)
    ensures |Filter(db, mods, table)| <= |table|
  {
    if table != [] {
      FilterIsShorter(db, mods, table[1..]);
    }
  }

  /** The modifiers that only load, order or cut do not change which rows are selected. */
  lemma {:induction false} SameSelection(db: Db, mods: seq<Mod>, offset: int, table: seq<Invoice>)
    ensures Filter(db, [LoadStatus, OrderByIdDesc] + mods + [Limit(6), Offset(offset)], table) == Filter(db, mods, table)
  {
    if table != [] {
      SameSelection(db, mods, offset, table[1..]);
      var all := [LoadStatus, OrderByIdDesc] + mods + [Limit(6), Offset(offset)];
      assert forall k :: 0 <= k < |mods| ==> all[k + 2] == mods[k];
      assert forall k :: 2 <= k < |mods| + 2 ==> all[k] == mods[k - 2];
      assert Selected(db, all, table[0]) <==> Selected(db, mods, table[0]);
    }
  }

  /** The data query is a window on the matching rows in descending order. */
  lemma DataQuery(db: Db, mods: seq<Mod>, table: seq<Invoice>, offset: int)
    ensures All(db, [LoadStatus, OrderByIdDesc] + mods + [Limit(6), Offset(offset)], table) ==
            if offset < 0 then Err("OFFSET must not be negative")
            else Ok(Window(Matching(db, mods, table), offset, 6))
  {
    var all := [LoadStatus, OrderByIdDesc] + mods + [Limit(6), Offset(offset)];
    SameSelection(db, mods, offset, table);
    assert all[1] == OrderByIdDesc && all[|all| - 1] == Offset(offset);
    assert LimitOf(all) == LimitOf(all[..|all| - 1]);
    assert all[..|all| - 1][|all| - 2] == Limit(6);
  }

  lemma {:induction false} SortKeepsRows(rows: seq<Invoice>)
    ensures multiset(SortDesc(rows)) == multiset(rows) && |SortDesc(rows)| == |rows|
  {
    if rows != [] {
      SortKeepsRows(rows[1..]);
      InsertKeepsRows(rows[0], SortDesc(rows[1..]));
      assert rows == [rows[0]] + rows[1..];
    }
  }

  lemma {:induction false} InsertKeepsRows(i: Invoice, rows: seq<Invoice>)
    ensures multiset(Insert(i, rows)) == multiset(rows) + multiset{i} && |Insert(i, rows)| == |rows| + 1
  {
    if rows != [] && i.id < rows[0].id {
      InsertKeepsRows(i, rows[1..]);
      assert rows == [rows[0]] + rows[1..];
    }
  }

  ghost predicate Descending(rows: seq<Invoice>) {
    forall j, k :: 0 <= j < k < |rows| ==> rows[j].id > rows[k].id
  }

  ghost predicate DistinctIds(rows: seq<Invoice>) {
    forall j, k :: 0 <= j < k < |rows| ==> rows[j].id != rows[k].id
  }

  lemma {:induction false} InsertSorts(i: Invoice, rows: seq<Invoice>)
    requires Descending(rows) && forall k :: 0 <= k < |rows| ==> rows[k].id != i.id
    ensures Descending(Insert(i, rows))
    ensures forall x :: x in Insert(i, rows) <==> x == i || x in rows
  {
    if rows != [] && i.id < rows[0].id {
      InsertSorts(i, rows[1..]);
      var rest := Insert(i, rows[1..]);
      assert forall k :: 0 <= k < |rest| ==> rest[k] in rest;
    }
  }

  lemma {:induction false} SortSorts(rows: seq<Invoice>)
    requires DistinctIds(rows)
    ensures Descending(SortDesc(rows))
    ensures forall x :: x in SortDesc(rows) <==> x in rows
  {
    if rows != [] {
      SortSorts(rows[1..]);
      var sorted := SortDesc(rows[1..]);
      forall k | 0 <= k < |sorted|
        ensures sorted[k].id != rows[0].id
      {
        assert sorted[k] in rows[1..];
      }
      InsertSorts(rows[0], sorted);
    }
  }

  lemma {:induction false} FilterKeepsDistinct(db: Db, mods: seq<Mod>, table: seq<Invoice>)
    requires DistinctIds(table)
    ensures DistinctIds(Filter(db, mods, table))
    ensures forall x :: x in Filter(db, mods, table) <==> x in table && Selected(db, mods, x)
  {
    if table != [] {
      FilterKeepsDistinct(db, mods, table[1..]);
      var rest := Filter(db, mods, table[1..]);
      forall k | 0 <= k < |rest|
        ensures rest[k].id != table[0].id
      {
        assert rest[k] in table[1..];
      }
    }
  }

  // ---------------------------------------------------------------- the pages partition the matches

  /** The rows of a page counted from 1. */
  function PageRows(rows: seq<Invoice>, page: int): seq<Invoice>
    requires page >= 1
  {
    Window(rows, (page - 1) * DEFAULT_PAGE_SIZE, DEFAULT_PAGE_SIZE)
  }

  /** Pages 1 to n, one after the other. */
  function Pages(rows: seq<Invoice>, n: nat): seq<Invoice> {
    if n == 0 then [] else Pages(rows, n - 1) + PageRows(rows, n)
  }

  lemma {:induction false} PagesArePrefix(rows: seq<Invoice>, n: nat)
    ensures Pages(rows, n) == if n * DEFAULT_PAGE_SIZE <= |rows| then rows[..n * DEFAULT_PAGE_SIZE] else rows
  {
    if n > 0 {
      PagesArePrefix(rows, n - 1);
    }
  }

  /** No page below 2^63 / 6 makes the offset wrap around. */
  lemma OffsetOfPage(page: int)
    requires 1 <= page && (page - 1) * DEFAULT_PAGE_SIZE < TWO63
    ensures Paging.Offset(page, DEFAULT_PAGE_SIZE) == (page - 1) * DEFAULT_PAGE_SIZE
  {
  }

  /** The matches, in the order the pages show them. */
  lemma MatchingIsSortedSelection(db: Db, mods: seq<Mod>, table: seq<Invoice>)
    requires DistinctIds(table)
    ensures Descending(Matching(db, mods, table))
    ensures forall x :: x in Matching(db, mods, table) <==> x in table && Selected(db, mods, x)
  {
    FilterKeepsDistinct(db, mods, table);
    SortSorts(Filter(db, mods, table));
  }

  /** The page count covers all rows, and not a page more. */
  lemma PageCountCovers(n: nat)
    ensures (PageCount(n) - 1) * DEFAULT_PAGE_SIZE < n || n == 0
    ensures n <= PageCount(n) * DEFAULT_PAGE_SIZE
  {
  }

  /** What the handler answers for a page is that page of the matches, unless its offset wraps around. */
  lemma PageOfIsPageRows(db: Db, mods: seq<Mod>, table: seq<Invoice>, page: int)
    requires 1 <= page && (page - 1) * DEFAULT_PAGE_SIZE < TWO63
    ensures PageOf(db, mods, table, page) ==
            Ok((PageRows(Matching(db, mods, table), page), PageCount(|Matching(db, mods, table)|)))
  {
    OffsetOfPage(page);
  }

  /** The pages up to the page count hold all rows; the next ones none. */
  lemma PagesCover(rows: seq<Invoice>)
    ensures Pages(rows, PageCount(|rows|)) == rows
    ensures forall page: int :: page > PageCount(|rows|) ==> PageRows(rows, page) == []
  {
    PagesArePrefix(rows, PageCount(|rows|));
    PageCountCovers(|rows|);
  }

  /**
   The pages partition the matches: every matching invoice, and no other, is on exactly
   one of the pages 1 to totalPage, in descending ID order, and every later page is empty
   as long as its offset does not wrap around; to be exact, a later page is answered empty
   if and only if its offset, as computed in 64 bits, lies past the matches.
   */
  lemma PagesPartitionTheMatches(db: Db, mods: seq<Mod>, table: seq<Invoice>)
    requires DistinctIds(table)
    ensures var rows := Matching(db, mods, table);
            && Descending(rows) && (forall x :: x in rows <==> x in table && Selected(db, mods, x))
            && Pages(rows, PageCount(|rows|)) == rows
            && (forall page: int {:trigger PageOf(db, mods, table, page)} ::
                  1 <= page && (page - 1) * DEFAULT_PAGE_SIZE < TWO63 ==>
                  PageOf(db, mods, table, page) == Ok((PageRows(rows, page), PageCount(|rows|))))
            && (forall page: int :: page > PageCount(|rows|) ==> PageRows(rows, page) == [])
            && (forall page: int {:trigger PageOf(db, mods, table, page)} :: page > PageCount(|rows|) ==>
                  (PageOf(db, mods, table, page) == Ok(([], PageCount(|rows|)))
                   <==> Paging.Offset(page, DEFAULT_PAGE_SIZE) >= |rows|))
  {
    var rows := Matching(db, mods, table);
    MatchingIsSortedSelection(db, mods, table);
    PagesCover(rows);
    forall page: int | 1 <= page && (page - 1) * DEFAULT_PAGE_SIZE < TWO63
      ensures PageOf(db, mods, table, page) == Ok((PageRows(rows, page), PageCount(|rows|)))
    {
      PageOfIsPageRows(db, mods, table, page);
    }
    forall page: int | page > PageCount(|rows|)
      ensures PageOf(db, mods, table, page) == Ok(([], PageCount(|rows|))) <==> Paging.Offset(page, DEFAULT_PAGE_SIZE) >= |rows|
    {
      LaterPageEmptyIff(db, mods, table, page);
    }
  }

  lemma LaterPageEmptyIff(db: Db, mods: seq<Mod>, table: seq<Invoice>, page: int)
    requires page > PageCount(|Matching(db, mods, table)|)
    ensures var offset := Paging.Offset(page, DEFAULT_PAGE_SIZE);
            PageOf(db, mods, table, page) == Ok(([], PageCount(|Matching(db, mods, table)|)))
            <==> offset >= |Matching(db, mods, table)|
  {
  }

  /** A page number that fits in 64 bits whose offset wraps around to 2. */
  const WRAPPING_PAGE := 3074457345618258604

  /** Three invoices, all on the one page there is; yet the wrapping page shows the oldest of them again. */
  lemma WrappingPageIsNotEmpty(db: Db, a: Invoice, b: Invoice, c: Invoice)
    requires a.id > b.id > c.id
    ensures var table := [a, b, c];
            && WRAPPING_PAGE < TWO63 && Matching(db, [], table) == table && PageCount(|table|) == 1
            && PageOf(db, [], table, WRAPPING_PAGE) == Ok(([c], 1))
  {
    var table := [a, b, c];
    assert table[1..] == [b, c] && [b, c][1..] == [c] && [c][1..] == [];
    assert Filter(db, [], [c]) == [c] && Filter(db, [], [b, c]) == [b, c] && Filter(db, [], table) == table;
    assert SortDesc([c]) == [c] && SortDesc([b, c]) == [b, c] && SortDesc(table) == table;
    assert Paging.Offset(WRAPPING_PAGE, DEFAULT_PAGE_SIZE) == 2;
    assert Window(table, 2, DEFAULT_PAGE_SIZE) == [c];
  }

  // ---------------------------------------------------------------- which invoices a search shows

  const NO_QUERY_ERRORS := QueryErrors(None, None, None, None)

  /** The response to a page of a search, when all queries succeed. */
  function Answer(
      db: Db, statuses: seq<Status>, table: seq<Invoice>,
      sort: string, search: string, dates: Result<(int, int), string>, page: int)
    : Result<(seq<Invoice>, int), string>
  {
    Response(db, statuses, table, page, sort, search, dates, NO_QUERY_ERRORS)
  }

  /** The invoice is on some page whose number does not make the offset wrap around. */
  ghost predicate Shown(
      db: Db, statuses: seq<Status>, table: seq<Invoice>,
      sort: string, search: string, dates: Result<(int, int), string>, x: Invoice)
  {
    exists page: int {:trigger Answer(db, statuses, table, sort, search, dates, page)} ::
      && 1 <= page && (page - 1) * 6 < TWO63
      && Answer(db, statuses, table, sort, search, dates, page).Ok?
      && x in Answer(db, statuses, table, sort, search, dates, page).value.0
  }

  /** Every page but the number 0 is answered with this error. */
  ghost predicate AlwaysFails(
      db: Db, statuses: seq<Status>, table: seq<Invoice>,
      sort: string, search: string, dates: Result<(int, int), string>, error: string)
  {
    forall page: int :: page != 0 ==> Answer(db, statuses, table, sort, search, dates, page) == Err(error)
  }

  lemma {:induction false} OnSomePage(rows: seq<Invoice>, n: nat, x: Invoice) returns (page: nat)
    requires x in Pages(rows, n)
    ensures 1 <= page <= n && x in PageRows(rows, page)
  {
    if x in PageRows(rows, n) {
      page := n;
    } else {
      page := OnSomePage(rows, n - 1, x);
    }
  }

  lemma PageCountIsSmall(n: nat)
    requires n <= TWO53
    ensures (PageCount(n) - 1) * DEFAULT_PAGE_SIZE < TWO63
  {
    PageCountCovers(n);
  }

  lemma PageRowsAreRows(rows: seq<Invoice>, page: int, x: Invoice)
    requires page >= 1 && x in PageRows(rows, page)
    ensures x in rows
  {
  }

  /** Every row the restriction selects is on one of the pages of the answer. */
  lemma RowIsOnAPage(db: Db, mods: seq<Mod>, table: seq<Invoice>, x: Invoice) returns (page: nat)
    requires |table| <= TWO53 && x in Matching(db, mods, table)
    ensures 1 <= page && (page - 1) * 6 < TWO63
    ensures PageOf(db, mods, table, page).Ok? && x in PageOf(db, mods, table, page).value.0
  {
    var rows := Matching(db, mods, table);
    FilterIsShorter(db, mods, table);
    SortKeepsRows(Filter(db, mods, table));
    PagesCover(rows);
    PageCountIsSmall(|rows|);
    page := OnSomePage(rows, PageCount(|rows|), x);
    PageOfIsPageRows(db, mods, table, page);
  }

  lemma PageHoldsRows(db: Db, mods: seq<Mod>, table: seq<Invoice>, page: int, x: Invoice)
    requires 1 <= page && (page - 1) * 6 < TWO63
    requires PageOf(db, mods, table, page).Ok? && x in PageOf(db, mods, table, page).value.0
    ensures x in Matching(db, mods, table)
  {
    PageOfIsPageRows(db, mods, table, page);
    PageRowsAreRows(Matching(db, mods, table), page, x);
  }

  /** The answers are the pages of the invoices that these modifiers select. */
  ghost predicate AnswersWith(
      db: Db, statuses: seq<Status>, table: seq<Invoice>,
      sort: string, search: string, dates: Result<(int, int), string>, mods: seq<Mod>)
  {
    forall page: int :: page != 0 ==>
      Answer(db, statuses, table, sort, search, dates, page) == PageOf(db, mods, table, page)
  }

  /** The pages show exactly the invoices the restriction selects. */
  lemma ShownIffSelected(
      db: Db, statuses: seq<Status>, table: seq<Invoice>,
      sort: string, search: string, dates: Result<(int, int), string>, mods: seq<Mod>, x: Invoice)
    requires DistinctIds(table) && |table| <= TWO53
    requires AnswersWith(db, statuses, table, sort, search, dates, mods)
    ensures Shown(db, statuses, table, sort, search, dates, x) <==> x in table && Selected(db, mods, x)
  {
    MatchingIsSortedSelection(db, mods, table);
    if x in Matching(db, mods, table) {
      var page := RowIsOnAPage(db, mods, table, x);
      assert Answer(db, statuses, table, sort, search, dates, page) == PageOf(db, mods, table, page);
    }
    if Shown(db, statuses, table, sort, search, dates, x) {
      ShownIsARow(db, statuses, table, sort, search, dates, mods, x);
    }
  }

  lemma ShownIsARow(
      db: Db, statuses: seq<Status>, table: seq<Invoice>,
      sort: string, search: string, dates: Result<(int, int), string>, mods: seq<Mod>, x: Invoice)
    requires AnswersWith(db, statuses, table, sort, search, dates, mods)
    requires Shown(db, statuses, table, sort, search, dates, x)
    ensures x in Matching(db, mods, table)
  {
    var page: int :| 1 <= page && (page - 1) * 6 < TWO63
      && Answer(db, statuses, table, sort, search, dates, page).Ok?
      && x in Answer(db, statuses, table, sort, search, dates, page).value.0;
    PageHoldsRows(db, mods, table, page, x);
  }

  lemma SelectedByOne(db: Db, m: Mod, x: Invoice)
    ensures Selected(db, [m], x) <==> Matches(db, m, x)
  {
    assert [m][0] == m;
  }

  /** A search by "Invoice ID" shows the invoices whose ID, as text, is like the search. */
  lemma SearchById(
      db: Db, statuses: seq<Status>, table: seq<Invoice>, search: string, dates: Result<(int, int), string>, x: Invoice)
    requires DistinctIds(table) && |table| <= TWO53 && search != ""
    ensures Shown(db, statuses, table, "Invoice ID", search, dates, x)
            <==> x in table && db.ilike(db.asText(x.id), "%" + search + "%")
  {
    SortNamesDiffer();
    ShownIffSelected(db, statuses, table, "Invoice ID", search, dates, [IdLike("%" + search + "%")], x);
    SelectedByOne(db, IdLike("%" + search + "%"), x);
  }

  /** A search by "Customer name" shows the invoices whose receiver is like the search. */
  lemma SearchByName(
      db: Db, statuses: seq<Status>, table: seq<Invoice>, search: string, dates: Result<(int, int), string>, x: Invoice)
    requires DistinctIds(table) && |table| <= TWO53 && search != ""
    ensures Shown(db, statuses, table, "Customer name", search, dates, x)
            <==> x in table && db.ilike(x.receiveName, "%" + search + "%")
  {
    SortNamesDiffer();
    ShownIffSelected(db, statuses, table, "Customer name", search, dates, [NameLike("%" + search + "%")], x);
    SelectedByOne(db, NameLike("%" + search + "%"), x);
  }

  lemma {:induction false} FoundIsFirst(db: Db, statuses: seq<Status>, pattern: string, k: nat)
    requires k < |statuses| && db.ilike(statuses[k].name, pattern)
    requires forall j :: 0 <= j < k ==> !db.ilike(statuses[j].name, pattern)
    ensures FindStatus(db, statuses, pattern) == Some(statuses[k])
  {
    if k > 0 {
      assert !db.ilike(statuses[0].name, pattern);
      FoundIsFirst(db, statuses[1..], pattern, k - 1);
    }
  }

  lemma {:induction false} NoneFound(db: Db, statuses: seq<Status>, pattern: string)
    requires forall j :: 0 <= j < |statuses| ==> !db.ilike(statuses[j].name, pattern)
    ensures FindStatus(db, statuses, pattern) == None
  {
    if statuses != [] {
      NoneFound(db, statuses[1..], pattern);
    }
  }

  /** A search by "Invoice status" shows the invoices in the first status whose name is like the search. */
  lemma SearchByStatus(
      db: Db, statuses: seq<Status>, table: seq<Invoice>, search: string, dates: Result<(int, int), string>,
      k: nat, x: Invoice)
    requires DistinctIds(table) && |table| <= TWO53 && search != ""
    requires k < |statuses| && db.ilike(statuses[k].name, "%" + search + "%")
    requires forall j :: 0 <= j < k ==> !db.ilike(statuses[j].name, "%" + search + "%")
    ensures Shown(db, statuses, table, "Invoice status", search, dates, x)
            <==> x in table && x.statusID == statuses[k].id
  {
    SortNamesDiffer();
    FoundIsFirst(db, statuses, "%" + search + "%", k);
    ShownIffSelected(db, statuses, table, "Invoice status", search, dates, [StatusIs(statuses[k].id)], x);
    SelectedByOne(db, StatusIs(statuses[k].id), x);
  }

  /** If no status has such a name, the search fails. */
  lemma SearchByNoStatus(
      db: Db, statuses: seq<Status>, table: seq<Invoice>, search: string, dates: Result<(int, int), string>)
    requires search != "" && forall j :: 0 <= j < |statuses| ==> !db.ilike(statuses[j].name, "%" + search + "%")
    ensures AlwaysFails(db, statuses, table, "Invoice status", search, dates, "no rows")
  {
    SortNamesDiffer();
    NoneFound(db, statuses, "%" + search + "%");
  }

  lemma SortNamesDiffer()
    ensures "Invoice ID" != "Customer name" && "Invoice ID" != "Invoice status" && "Invoice ID" != "Created at"
    ensures "Customer name" != "Invoice status" && "Customer name" != "Created at" && "Invoice status" != "Created at"
  {
    assert "Invoice ID"[0] == 'I' && "Customer name"[1] == 'u' && "Created at"[1] == 'r' && "Invoice status"[8] == 's';
    assert "Invoice ID"[8] == 'I' && "Invoice status"[0] == 'I' && "Customer name"[0] == 'C' && "Created at"[0] == 'C';
  }

  /**
   Without a search text, "Created at" shows the invoices of the date range if it has both
   ends and the first is before the last, and all invoices otherwise: so a range of one
   day restricts nothing.
   */
  lemma SearchByDate(db: Db, statuses: seq<Status>, table: seq<Invoice>, first: int, last: int, x: Invoice)
    requires DistinctIds(table) && |table| <= TWO53
    ensures Shown(db, statuses, table, "Created at", "", Ok((first, last)), x)
            <==> x in table && (first != 0 && last != 0 && first < last ==> first <= x.createdAt <= last)
  {
    if first != 0 && last != 0 && first < last {
      ShownIffSelected(db, statuses, table, "Created at", "", Ok((first, last)), [CreatedBetween(first, last)], x);
      SelectedByOne(db, CreatedBetween(first, last), x);
    } else {
      ShownIffSelected(db, statuses, table, "Created at", "", Ok((first, last)), [], x);
    }
  }

  /** Dates that cannot be understood fail the request, when they are asked for. */
  lemma BadDatesFail(db: Db, statuses: seq<Status>, table: seq<Invoice>, search: string, error: string)
    ensures AlwaysFails(db, statuses, table, "Created at", search, Err(error), error)
  {
  }

  /** Any other search shows all invoices: a text under another sort, or no text and no dates. */
  lemma SearchOtherwise(
      db: Db, statuses: seq<Status>, table: seq<Invoice>, sort: string, search: string,
      dates: Result<(int, int), string>, x: Invoice)
    requires DistinctIds(table) && |table| <= TWO53
    requires if search == "" then sort != "Created at"
             else sort != "Invoice ID" && sort != "Customer name" && sort != "Invoice status"
                  && (sort == "Created at" ==> dates.Ok?)
    ensures Shown(db, statuses, table, sort, search, dates, x) <==> x in table
  {
    ShownIffSelected(db, statuses, table, sort, search, dates, [], x);
  }

  /** A missing page is an error; a page below 1 is answered like page 1. */
  lemma PageNumbers(
      db: Db, statuses: seq<Status>, table: seq<Invoice>,
      sort: string, search: string, dates: Result<(int, int), string>, page: int)
    requires page < 0
    ensures Answer(db, statuses, table, sort, search, dates, 0) == Err("Did not receive page")
    ensures Answer(db, statuses, table, sort, search, dates, page) == Answer(db, statuses, table, sort, search, dates, 1)
  {
  }

  /** The first query that fails, in the order cards, status, count, rows, decides the error; the status is queried only for a search by it. */
  lemma QueryErrorsShow(
      db: Db, statuses: seq<Status>, table: seq<Invoice>, page: int,
      sort: string, search: string, dates: Result<(int, int), string>, errors: QueryErrors)
    requires page != 0 && Answer(db, statuses, table, sort, search, dates, page).Ok?
    ensures Response(db, statuses, table, page, sort, search, dates, errors) ==
            if errors.cards.Some? then Err(errors.cards.value)
            else if errors.status.Some? && sort == "Invoice status" && search != "" then Err(errors.status.value)
            else if errors.count.Some? then Err(errors.count.value)
            else if errors.rows.Some? then Err(errors.rows.value)
            else Answer(db, statuses, table, sort, search, dates, page)
  {
    SortNamesDiffer();
  }
}
