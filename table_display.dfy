/**
 * The browser side of the table viewer (AHJAH_TableDisplay in frontend.js):
 * the state one viewer keeps, the events that change it, the request it
 * posts, what it does with the answer, and the pure helpers it renders with.
 * The DOM is reduced to what the handlers read back from it: the rendered
 * pagination controls, whether the pagination is hidden, and the error shown.
 */
module Frontend {
  import opened Wrappers
  import opened Strings
  import opened Wpdb
  import opened CellFormat
  import opened TableRequest
  import opened PaginationControls

  /** The fields loadTable() posts along with the action and the nonce. */
  datatype Request = Request(table: string, page: int, perPage: int, search: string, orderBy: string, order: Order)

  /** How a posted request ended: a success response, an error response
      (success: false with a message), or a failed request (with the JSON
      body's data, if any, and jQuery's status text). */
  datatype Outcome =
    | Loaded(pagination: Pagination)
    | Refused(data: string)
    | Failed(responseData: Option<string>, status: string)

  /** The keys the keydown handler tells apart. */
  datatype Key = ArrowLeft | ArrowRight | OtherKey

  /** strings.error, as the plugin localises it. */
  const DefaultError: string := "An error occurred while loading data"

  /** The message showError() receives for an outcome that is not a success. */
  function ErrorMessage(outcome: Outcome): (m: string)
    requires !outcome.Loaded?
    ensures outcome.Refused? ==> m == if outcome.data != "" then outcome.data else DefaultError
    ensures outcome.Failed? && outcome.responseData.Some? && outcome.responseData.value != "" ==> m == outcome.responseData.value
    ensures outcome.Failed? && (outcome.responseData.None? || outcome.responseData.value == "") ==>
      && (outcome.status == "timeout" ==> m == "Request timed out. Please try again.")
      && (outcome.status == "abort" ==> m == "Request was cancelled.")
      && (outcome.status != "timeout" && outcome.status != "abort" ==> m == DefaultError)
    ensures m != ""
  {
    match outcome
    case Refused(data) => if data != "" then data else DefaultError
    case Failed(responseData, status) =>
      if responseData.Some? && responseData.value != "" then responseData.value
      else if status == "timeout" then "Request timed out. Please try again."
      else if status == "abort" then "Request was cancelled."
      else DefaultError
  }

  /** The direction a second click on the sorted column gives. */
  function Flip(d: Order): (f: Order)
    ensures f != d
  {
    if d == Asc then Desc else Asc
  }

  class TableDisplay {
    const tableName: string
    const perPage: int
    var currentPage: int
    var search: string
    var orderBy: string
    var order: Order
    var isLoading: bool
    /** The pagination buttons and ellipses last rendered. */
    var controls: seq<Control>
    /** Whether the pagination wrapper is hidden. */
    var paginationHidden: bool
    /** The error message the table area shows, if any. */
    var error: Option<string>
    /** Every request posted so far, in order. */
    var sent: seq<Request>

    /** The page is at least 1, every enabled button leads to a page of at
        least 1, and every request posted asked for such a page and 20 rows. */
    predicate Valid()
      reads this
    {
      currentPage >= 1 && perPage == 20 &&
      (forall c :: c in controls && IsButton(c) && !DisabledButton(c) ==> c.target >= 1) &&
      forall r :: r in sent ==> r.page >= 1 && r.perPage == 20 && r.table == tableName
    }

    /** What loadTable() would post now. */
    function CurrentRequest(): (r: Request)
      reads this
      ensures r.table == tableName && r.page == currentPage && r.search == search
      ensures r.orderBy == orderBy && r.order == order && r.perPage == perPage
    {
      Request(tableName, currentPage, perPage, search, orderBy, order)
    }

    /** After loadTable(): a request for the current state was posted unless
        one was still running, and a request is running now. */
    predicate Posted(wasLoading: bool, before: seq<Request>)
      reads this
    {
      isLoading && sent == if wasLoading then before else before + [CurrentRequest()]
    }

    /** new AHJAH_TableDisplay(container), which loads the first page at once. */
    constructor (tableName: string)
      ensures this.tableName == tableName && perPage == 20
      ensures currentPage == 1 && search == "" && orderBy == "" && order == Asc
      ensures controls == [] && !paginationHidden && error == None
      ensures isLoading && sent == [Request(tableName, 1, 20, "", "", Asc)]
      ensures Valid()
    {
      this.tableName := tableName;
      perPage := 20;
      currentPage := 1;
      search := "";
      orderBy := "";
      order := Asc;
      isLoading := false;
      controls := [];
      paginationHidden := false;
      error := None;
      sent := [];
      new;
      LoadTable();
    }

    /** loadTable(): does nothing while a request is running. */
    method LoadTable()
      modifies this
      ensures Posted(old(isLoading), old(sent))
      ensures currentPage == old(currentPage) && search == old(search)
      ensures orderBy == old(orderBy) && order == old(order)
      ensures controls == old(controls) && paginationHidden == old(paginationHidden) && error == old(error)
      ensures old(Valid()) && currentPage >= 1 ==> Valid()
    {
      if isLoading {
        return;
      }
      isLoading := true;
      sent := sent + [CurrentRequest()];
    }

    /** The debounced search handler, when its timer fires. */
    method ApplySearch(value: string)
      requires Valid()
      modifies this
      ensures Valid()
      ensures search == value && currentPage == 1
      ensures orderBy == old(orderBy) && order == old(order)
      ensures Posted(old(isLoading), old(sent))
      ensures controls == old(controls) && paginationHidden == old(paginationHidden) && error == old(error)
    {
      search := value;
      currentPage := 1;
      LoadTable();
    }

    /** A click on a column header: the sorted column flips its direction,
        any other column becomes the sorted one, ascending. */
    method SortBy(column: string)
      requires Valid()
      modifies this
      ensures Valid()
      ensures column == old(orderBy) ==> orderBy == old(orderBy) && order == Flip(old(order))
      ensures column != old(orderBy) ==> orderBy == column && order == Asc
      ensures currentPage == 1 && search == old(search)
      ensures Posted(old(isLoading), old(sent))
      ensures controls == old(controls) && paginationHidden == old(paginationHidden) && error == old(error)
    {
      if orderBy == column {
        order := if order == Asc then Desc else Asc;
      } else {
        orderBy := column;
        order := Asc;
      }
      currentPage := 1;
      LoadTable();
    }

    /** A click on the i-th pagination button: ignored when it is disabled or
        leads to the page already current (or to no page). */
    method ClickPagination(i: nat)
      requires Valid() && i < |controls| && IsButton(controls[i])
      modifies this
      ensures Valid()
      ensures var c := old(controls[i]);
        if !DisabledButton(c) && c.target != 0 && c.target != old(currentPage) then
          currentPage == c.target && Posted(old(isLoading), old(sent))
        else
          currentPage == old(currentPage) && isLoading == old(isLoading) && sent == old(sent)
      ensures search == old(search) && orderBy == old(orderBy) && order == old(order)
      ensures controls == old(controls) && paginationHidden == old(paginationHidden) && error == old(error)
    {
      var c := controls[i];
      if DisabledButton(c) {
        return;
      }
      if c.target != 0 && c.target != currentPage {
        currentPage := c.target;
        LoadTable();
      }
    }

    /** The keydown handler: arrows act only while the viewer is visible and
        holds the focus. ArrowLeft goes back while the page is above 1;
        ArrowRight goes on when a button for the next page is rendered and
        none of them is disabled. */
    method KeyDown(key: Key, visible: bool, focused: bool)
      requires Valid()
      modifies this
      ensures Valid()
      ensures var moves := visible && focused &&
                ((key == ArrowLeft && old(currentPage) > 1) ||
                 (key == ArrowRight && ArrowRightAllowed(old(controls), old(currentPage))));
        if moves then Posted(old(isLoading), old(sent))
        else isLoading == old(isLoading) && sent == old(sent)
      ensures visible && focused && key == ArrowLeft && old(currentPage) > 1 ==> currentPage == old(currentPage) - 1
      ensures visible && focused && key == ArrowRight && ArrowRightAllowed(old(controls), old(currentPage)) ==>
        currentPage == old(currentPage) + 1
      ensures !(visible && focused && ((key == ArrowLeft && old(currentPage) > 1) ||
                (key == ArrowRight && ArrowRightAllowed(old(controls), old(currentPage))))) ==>
        currentPage == old(currentPage)
      ensures search == old(search) && orderBy == old(orderBy) && order == old(order)
      ensures controls == old(controls) && paginationHidden == old(paginationHidden) && error == old(error)
    {
      if !visible || !focused {
        return;
      }
      if key == ArrowLeft && currentPage > 1 {
        currentPage := currentPage - 1;
        LoadTable();
      } else if key == ArrowRight {
        if ArrowRightAllowed(controls, currentPage) {
          currentPage := currentPage + 1;
          LoadTable();
        }
      }
    }

    /** The done/fail and always callbacks of the posted request, with the
        pagination shown again after a success. */
    method Complete(outcome: Outcome)
      requires Valid() && (outcome.Loaded? ==> outcome.pagination.currentPage >= 1)
      modifies this
      ensures Valid() && !isLoading
      ensures outcome.Loaded? ==>
        controls == Controls(outcome.pagination.currentPage, outcome.pagination.totalPages) &&
        !paginationHidden && error == None
      ensures !outcome.Loaded? ==>
        error == Some(ErrorMessage(outcome)) && paginationHidden && controls == old(controls)
      ensures currentPage == old(currentPage) && search == old(search) && orderBy == old(orderBy) && order == old(order)
      ensures sent == old(sent)
    {
      if outcome.Loaded? {
        var p := outcome.pagination;
        error := None;
        EnabledTargetsPositive(p.currentPage, p.totalPages);
        controls := RenderPagination(p.currentPage, p.totalPages);
        paginationHidden := false;
      } else {
        error := Some(ErrorMessage(outcome));
        paginationHidden := true;
      }
      isLoading := false;
    }

    /** The same callbacks as written: showError() hides the pagination
        wrapper and nothing shows it again. */
    method CompleteAsWritten(outcome: Outcome)
      requires Valid() && (outcome.Loaded? ==> outcome.pagination.currentPage >= 1)
      modifies this
      ensures Valid() && !isLoading
      ensures outcome.Loaded? ==>
        controls == Controls(outcome.pagination.currentPage, outcome.pagination.totalPages) &&
        paginationHidden == old(paginationHidden) && error == None
      ensures !outcome.Loaded? ==>
        error == Some(ErrorMessage(outcome)) && paginationHidden && controls == old(controls)
      ensures currentPage == old(currentPage) && search == old(search) && orderBy == old(orderBy) && order == old(order)
      ensures sent == old(sent)
    {
      if outcome.Loaded? {
        var p := outcome.pagination;
        error := None;
        EnabledTargetsPositive(p.currentPage, p.totalPages);
        controls := RenderPagination(p.currentPage, p.totalPages);
      } else {
        error := Some(ErrorMessage(outcome));
        paginationHidden := true;
      }
      isLoading := false;
    }

    /** getSortClass(column) */
    function SortClass(column: string): (c: string)
      reads this
      ensures c == "" <==> column != orderBy
      ensures c == "ahjah-sorted-asc" <==> column == orderBy && order.Asc?
      ensures c == "ahjah-sorted-desc" <==> column == orderBy && order.Desc?
    {
      if orderBy != column then ""
      else if order == Asc then "ahjah-sorted-asc"
      else "ahjah-sorted-desc"
    }

    /** getSortAttribute(column) */
    function SortAttribute(column: string): (a: string)
      reads this
      ensures a == "aria-sort=\"none\"" <==> column != orderBy
      ensures a == "aria-sort=\"ascending\"" <==> column == orderBy && order.Asc?
      ensures a == "aria-sort=\"descending\"" <==> column == orderBy && order.Desc?
    {
      if orderBy == column then "aria-sort=\"" + (if order == Asc then "ascending" else "descending") + "\""
      else "aria-sort=\"none\""
    }
  }

  /** An error followed by a successful load leaves the pagination hidden
      as written. */
  method PaginationAfterErrorAsWritten(table: string, p: Pagination) returns (hidden: bool)
    requires p.currentPage >= 1
    ensures hidden
  {
    var v := new TableDisplay(table);
    v.CompleteAsWritten(Failed(None, "timeout"));
    v.ApplySearch("x");
    v.CompleteAsWritten(Loaded(p));
    hidden := v.paginationHidden;
  }

  /** With the pagination shown again on success, the same sequence shows it. */
  method PaginationAfterError(table: string, p: Pagination) returns (hidden: bool)
    requires p.currentPage >= 1
    ensures !hidden
  {
    var v := new TableDisplay(table);
    v.Complete(Failed(None, "timeout"));
    v.ApplySearch("x");
    v.Complete(Loaded(p));
    hidden := v.paginationHidden;
  }

  /** The request the server receives for a posted one; sanitize_text_field
      and intval are taken to leave the client's values as they are. */
  function ServerParams(r: Request): (p: Params)
    ensures p.table == r.table && p.search == r.search && p.orderBy == r.orderBy
    ensures p.page == Some(r.page) && p.perPage == Some(r.perPage) && p.order == Some(OrderText(r.order))
  {
    Params(r.table, Some(r.page), Some(r.perPage), r.search, r.orderBy, Some(OrderText(r.order)))
  }

  /** The server reads back exactly the page, page size and direction a
      valid viewer posts. */
  lemma ServerKeepsRequest(v: TableDisplay, r: Request)
    requires v.Valid() && r in v.sent
    ensures NormalizePage(ServerParams(r).page) == r.page
    ensures NormalizePerPage(ServerParams(r).perPage) == r.perPage
    ensures NormalizeOrder(ServerParams(r).order) == r.order
  {
    NormalizeOrderText(r.order);
  }

  /** getCellClass(cellData); a column missing from the row is None. */
  function CellClass(cell: Option<FormattedCell>): (c: string)
    ensures c == "ahjah-long-cell" <==> cell.Some? && cell.value.kind == LongText
    ensures c == "ahjah-short-cell" <==> cell.Some? && cell.value.kind in {Null, Empty}
    ensures c == "" <==> cell.None? || cell.value.kind !in {LongText, Null, Empty}
  {
    match cell
    case None => ""
    case Some(d) =>
      if d.kind == LongText then "ahjah-long-cell"
      else if d.kind == Null || d.kind == Empty then "ahjah-short-cell"
      else ""
  }

  /** On a formatted cell: the short style goes to NULL and the empty string
      only; the long style goes only to values over 100 bytes that are
      neither accepted serialized data nor JSON. */
  lemma CellClassOfFormatted(value: Option<string>, o: Oracles)
    ensures CellClass(Some(FormatCell(value, o))) == "ahjah-short-cell" <==> value.None? || value == Some("")
    ensures CellClass(Some(FormatCell(value, o))) == "ahjah-long-cell" ==>
      value.Some? && |value.value| > MaxLength && !AcceptedSerialized(value.value, o) && !AcceptedJson(value.value, o)
  {
  }

  /** truncateText(text, maxLength): an empty or short enough text is kept;
      a longer one is cut to maxLength characters (none for a negative
      maxLength, as substring() takes it) and "..." is added. */
  function TruncateText(text: string, maxLength: int): (r: string)
    ensures text == [] || |text| <= maxLength ==> r == text
    ensures !(text == [] || |text| <= maxLength) ==>
      |r| == Max(0, maxLength) + 3 && r == text[..|r| - 3] + "..."
  {
    if text == [] || |text| <= maxLength then text
    else text[..Max(0, maxLength)] + "..."
  }

  /** The truncated text is never longer than maxLength + 3, and it starts
      with the text or the text starts with it up to the ellipsis. */
  lemma TruncateBound(text: string, maxLength: nat)
    ensures |TruncateText(text, maxLength)| <= maxLength + 3
    ensures var r := TruncateText(text, maxLength);
      r == text || (|r| >= 3 && r[..|r| - 3] <= text && r[|r| - 3..] == "...")
  {
    var r := TruncateText(text, maxLength);
    if r != text {
      assert r[..|r| - 3] == text[..|r| - 3];
      assert r[|r| - 3..] == "...";
    }
  }

  /** The characters /[.*+?^${}()|[\]\\]/ matches. */
  const RegexSpecial: set<char> := {'.', '*', '+', '?', '^', '$', '{', '}', '(', ')', '|', '[', ']', '\\'}

  /** escapeRegex(string) */
  function EscapeRegex(s: string): (r: string)
    ensures |r| >= |s|
  {
    Escape(s, RegexSpecial)
  }

  /** The escaped search term stands for the term itself: nothing is lost,
      and every regex operator and backslash in it is escaped, so none acts as
      an operator; no other fully escaped text stands for the term. */
  lemma EscapeRegexLiteral(s: string, r: string)
    ensures Unescape(EscapeRegex(s)) == s && AllEscaped(EscapeRegex(s), RegexSpecial)
    ensures Unescape(r) == s && AllEscaped(r, RegexSpecial) ==> r == EscapeRegex(s)
  {
    EscapeCharacterised(s, EscapeRegex(s), RegexSpecial);
    EscapeCharacterised(s, r, RegexSpecial);
  }
}
