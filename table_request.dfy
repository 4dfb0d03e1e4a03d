/**
 * ahjah_ajax_get_table_data: the parameters of a table-data request are
 * normalised, the table is checked, one SELECT with search, order, LIMIT and
 * OFFSET is sent, and the page of rows is formatted together with the
 * pagination figures.
 */
module TableRequest {
  import opened Wrappers
  import opened Strings
  import opened Wpdb
  import opened CellFormat
  import opened TableNames

  /** The POST fields after sanitize_text_field() and intval(); a field that
      was not sent is None (or "" for the text fields, as the handler reads it). */
  datatype Params = Params(
    table: string,
    page: Option<int>,
    perPage: Option<int>,
    search: string,
    orderBy: string,
    order: Option<string>)

  // ---------------------------------------------------------------------
  // Parameter normalisation

  /** max(1, page), 1 when not sent. */
  function NormalizePage(page: Option<int>): (p: int)
    ensures p >= 1
    ensures page.Some? && page.value >= 1 ==> p == page.value
    ensures page.None? || page.value < 1 ==> p == 1
  {
    match page
    case None => 1
    case Some(n) => if n < 1 then 1 else n
  }

  /** max(1, min(1000, per_page)), 20 when not sent. */
  function NormalizePerPage(perPage: Option<int>): (n: int)
    ensures 1 <= n <= 1000
    ensures perPage.None? ==> n == 20
    ensures perPage.Some? && 1 <= perPage.value <= 1000 ==> n == perPage.value
    ensures perPage.Some? && perPage.value > 1000 ==> n == 1000
    ensures perPage.Some? && perPage.value < 1 ==> n == 1
  {
    match perPage
    case None => 20
    case Some(k) => if k > 1000 then 1000 else if k < 1 then 1 else k
  }

  /** The direction: DESC when the upper-cased field is exactly "DESC", and ASC
      for anything else, "ASC" itself, an unknown word or a missing field. */
  function NormalizeOrder(order: Option<string>): (d: Order)
    ensures d == Desc <==> order.Some? && ToUpper(order.value) == "DESC"
  {
    match order
    case None => Asc
    case Some(s) =>
      var u := ToUpper(s);
      if u == "ASC" || u == "DESC" then (if u == "DESC" then Desc else Asc) else Asc
  }

  /** The text the client sends for a direction gives that direction back,
      and the lower-case spelling is accepted too. */
  lemma NormalizeOrderText(d: Order)
    ensures NormalizeOrder(Some(OrderText(d))) == d
    ensures NormalizeOrder(Some("desc")) == Desc
    ensures NormalizeOrder(Some("descending")) == Asc
  {
    assert ToUpper("DESC") == "DESC";
    assert ToUpper("ASC") != "DESC";
    assert ToUpper("desc") == "DESC";
    assert |ToUpper("descending")| != |"DESC"|;
  }

  /** ORDER BY is added only for a non-empty orderby that names one of the
      table's columns; any other value means no ordering and no error. */
  function OrderClause(orderBy: string, columns: seq<string>, order: Order): (c: Option<(string, Order)>)
    ensures c.Some? <==> !PhpEmpty(orderBy) && orderBy in columns
    ensures c.Some? ==> c.value == (orderBy, order)
  {
    if !PhpEmpty(orderBy) && orderBy in columns then Some((orderBy, order)) else None
  }

  // ---------------------------------------------------------------------
  // Search

  /** $wpdb->esc_like(): a backslash before each %, _ and \. */
  function EscLike(s: string): (r: string)
    ensures |r| >= |s|
    ensures Unescape(r) == s && AllEscaped(r, {'%', '_', '\\'})
  {
    EscapeCharacterised(s, Escape(s, {'%', '_', '\\'}), {'%', '_', '\\'});
    Escape(s, {'%', '_', '\\'})
  }

  /** '%' . esc_like(search) . '%': the search text anywhere in the column. */
  function LikePattern(search: string): (p: string)
    ensures |p| >= |search| + 2 && p[0] == '%' && p[|p| - 1] == '%'
  {
    "%" + EscLike(search) + "%"
  }

  /** The pattern every column is matched against; None when empty($search). */
  function SearchFilter(search: string): (f: Option<string>)
    ensures f.None? <==> PhpEmpty(search)
  {
    if PhpEmpty(search) then None else Some(LikePattern(search))
  }

  /** Between its two wildcards, the pattern stands for the search text itself:
      every %, _ and backslash a user types is escaped, so none of them acts
      as a wildcard or as an escape of its own. */
  lemma LikePatternLiteral(search: string)
    ensures var p := LikePattern(search);
      Unescape(p[1..|p| - 1]) == search && AllEscaped(p[1..|p| - 1], {'%', '_', '\\'})
  {
    var p := LikePattern(search);
    assert p[1..|p| - 1] == EscLike(search);
  }

  /** No other text stands for the search term with every special character
      escaped: esc_like's result is the only one. */
  lemma EscLikeUnique(search: string, r: string)
    requires Unescape(r) == search && AllEscaped(r, {'%', '_', '\\'})
    ensures r == EscLike(search)
  {
    EscapeCharacterised(search, r, {'%', '_', '\\'});
  }

  // ---------------------------------------------------------------------
  // The query and the page of rows

  /** The SELECT sent for the request: the search over every column, the
      checked ORDER BY, per_page rows from (page - 1) * per_page on. */
  function DataQuery(search: string, orderBy: string, order: Order, columns: seq<string>, page: int, perPage: int): (q: Query)
    requires page >= 1 && perPage >= 1
    ensures q.limit == perPage && q.offset == (page - 1) * perPage
    ensures q.likeAny == SearchFilter(search) && q.orderBy == OrderClause(orderBy, columns, order)
  {
    Query(SearchFilter(search), OrderClause(orderBy, columns, order), perPage, (page - 1) * perPage)
  }

  /** LIMIT limit OFFSET offset over the matching rows. */
  function PageRows(rows: seq<Row>, limit: nat, offset: nat): (r: seq<Row>)
    ensures |r| <= limit
    ensures forall i :: 0 <= i < |r| ==> offset + i < |rows| && r[i] == rows[offset + i]
  {
    var lo := if offset < |rows| then offset else |rows|;
    var hi := if offset + limit < |rows| then offset + limit else |rows|;
    rows[lo..hi]
  }

  // ---------------------------------------------------------------------
  // Pagination figures

  datatype Pagination = Pagination(
    currentPage: int,
    perPage: int,
    totalItems: nat,
    totalPages: nat,
    startItem: nat,
    endItem: nat)

  /** ceil(total_items / per_page), the 1-based first and the last item shown. */
  function Paginate(page: int, perPage: int, totalItems: nat): (p: Pagination)
    requires page >= 1 && perPage >= 1
    ensures p.currentPage == page && p.perPage == perPage && p.totalItems == totalItems
    ensures (p.totalPages - 1) * perPage < totalItems <= p.totalPages * perPage || (totalItems == 0 && p.totalPages == 0)
    ensures p.startItem == 0 <==> totalItems == 0
    ensures totalItems > 0 ==> p.startItem == (page - 1) * perPage + 1
    ensures p.endItem <= totalItems && p.endItem <= (page - 1) * perPage + perPage
    ensures p.endItem == totalItems || p.endItem == (page - 1) * perPage + perPage
  {
    var offset := (page - 1) * perPage;
    var totalPages := (totalItems + perPage - 1) / perPage;
    var startItem := if totalItems > 0 then offset + 1 else 0;
    var endItem := if offset + perPage < totalItems then offset + perPage else totalItems;
    Pagination(page, perPage, totalItems, totalPages, startItem, endItem)
  }

  /** A page up to the last one shows between 1 and per_page items; a page
      beyond it reports an end item before its start item. */
  lemma PageInRange(page: int, perPage: int, totalItems: nat)
    requires page >= 1 && perPage >= 1
    ensures var p := Paginate(page, perPage, totalItems);
      totalItems > 0 && page <= p.totalPages ==> 1 <= p.startItem <= p.endItem && p.endItem - p.startItem < perPage
    ensures var p := Paginate(page, perPage, totalItems);
      page > p.totalPages && totalItems > 0 ==> p.endItem < p.startItem
  {
    var p := Paginate(page, perPage, totalItems);
    if totalItems > 0 && page <= p.totalPages {
      MulMono(page - 1, p.totalPages - 1, perPage);
    }
    if page > p.totalPages && totalItems > 0 {
      MulMono(p.totalPages, page - 1, perPage);
    }
  }

  lemma MulMono(a: int, b: int, c: int)
    requires a <= b && c >= 0
    ensures a * c <= b * c
  {
    assert b * c - a * c == (b - a) * c;
  }

  /** The page holds exactly the rows the figures announce: none when the
      start item is past the end item, otherwise end - start + 1 of them. */
  lemma PageMatchesFigures(rows: seq<Row>, page: int, perPage: int)
    requires page >= 1 && perPage >= 1
    ensures var p := Paginate(page, perPage, |rows|);
      |PageRows(rows, perPage, (page - 1) * perPage)| ==
        if p.startItem == 0 || p.endItem < p.startItem then 0 else p.endItem - p.startItem + 1
  {
  }

  // ---------------------------------------------------------------------
  // Processing the rows

  /** Every cell of a row formatted, under its column name. */
  function FormatRow(row: Row, o: Oracles): (r: seq<(string, FormattedCell)>)
    ensures |r| == |row|
    ensures forall j :: 0 <= j < |row| ==> r[j].0 == row[j].0 && r[j].1 == FormatCell(row[j].1, o)
    ensures forall j :: 0 <= j < |row| ==> r[j].1.raw == row[j].1
  {
    seq(|row|, j requires 0 <= j < |row| => (row[j].0, FormatCell(row[j].1, o)))
  }

  /** The inner foreach: one row, cell by cell. */
  method ProcessRow(row: Row, o: Oracles) returns (processedRow: seq<(string, FormattedCell)>)
    ensures processedRow == FormatRow(row, o)
  {
    processedRow := [];
    for j := 0 to |row|
      invariant |processedRow| == j
      invariant forall k :: 0 <= k < j ==> processedRow[k] == (row[k].0, FormatCell(row[k].1, o))
    {
      var (column, value) := row[j];
      var cell := FormatCell(value, o);
      processedRow := processedRow + [(column, cell)];
    }
  }

  /** The outer foreach that builds $processed_data. */
  method ProcessRows(rows: seq<Row>, o: Oracles) returns (processed: seq<seq<(string, FormattedCell)>>)
    ensures |processed| == |rows|
    ensures forall i :: 0 <= i < |rows| ==> processed[i] == FormatRow(rows[i], o)
  {
    processed := [];
    for i := 0 to |rows|
      invariant |processed| == i
      invariant forall k :: 0 <= k < i ==> processed[k] == FormatRow(rows[k], o)
    {
      var processedRow := ProcessRow(rows[i], o);
      processed := processed + [processedRow];
    }
  }

  // ---------------------------------------------------------------------
  // The handler

  /** The success payload: data, columns and pagination. */
  datatype TableData = TableData(
    data: seq<seq<(string, FormattedCell)>>,
    columns: seq<string>,
    pagination: Pagination)

  /** The rows the request's SELECT selects before LIMIT and OFFSET. */
  function Matching(p: Params, db: Database): seq<Row> {
    var q := DataQuery(p.search, p.orderBy, NormalizeOrder(p.order), db.columns(p.table),
                       NormalizePage(p.page), NormalizePerPage(p.perPage));
    db.matching(p.table, q.likeAny, q.orderBy)
  }

  /** ahjah_ajax_get_table_data. */
  method GetTableData(nonceOk: bool, p: Params, db: Database, o: Oracles) returns (r: Result<TableData, string>)
    ensures !nonceOk ==> r == Failure("Security check failed")
    ensures nonceOk && PhpEmpty(p.table) ==> r == Failure("Table name is required")
    ensures nonceOk && !PhpEmpty(p.table) && !TableExists(p.table, db) ==>
      r == Failure("Table does not exist or is not accessible")
    ensures nonceOk && TableExists(p.table, db) && db.columns(p.table) == [] ==>
      r == Failure("Unable to get table structure")
    ensures nonceOk && TableExists(p.table, db) && db.columns(p.table) != [] && db.describeError ==>
      r == Failure("Database error occurred")
    ensures r.Success? <==>
      nonceOk && TableExists(p.table, db) && db.columns(p.table) != [] && !db.describeError
    ensures r.Success? ==>
      var page := NormalizePage(p.page);
      var perPage := NormalizePerPage(p.perPage);
      var rows := PageRows(Matching(p, db), perPage, (page - 1) * perPage);
      r.value.columns == db.columns(p.table) &&
      r.value.pagination == Paginate(page, perPage, |Matching(p, db)|) &&
      |r.value.data| == |rows| <= perPage &&
      forall i :: 0 <= i < |rows| ==> r.value.data[i] == FormatRow(rows[i], o)
  {
    if !nonceOk {
      return Failure("Security check failed");
    }
    var table := p.table;
    var page := NormalizePage(p.page);
    var perPage := NormalizePerPage(p.perPage);
    var order := NormalizeOrder(p.order);
    if PhpEmpty(table) {
      return Failure("Table name is required");
    }
    if !TableExists(table, db) {
      return Failure("Table does not exist or is not accessible");
    }
    var columns := db.columns(table);
    if columns == [] {
      return Failure("Unable to get table structure");
    }
    if db.describeError {
      return Failure("Database error occurred");
    }
    var q := DataQuery(p.search, p.orderBy, order, columns, page, perPage);
    var matching := db.matching(table, q.likeAny, q.orderBy);
    var results := PageRows(matching, q.limit, q.offset);
    var pagination := Paginate(page, perPage, |matching|);
    var processed := ProcessRows(results, o);
    return Success(TableData(processed, columns, pagination));
  }
}
