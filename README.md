# Automation Helper table viewer, modelled in Dafny

The Automation Helper WordPress plugin shows the site's database tables in the
browser. Its PHP class answers two AJAX actions:

- `ahjah_get_table_data` returns one page of a table: search, ordering, LIMIT
  and OFFSET, every cell formatted, and the pagination figures.
- `ahjah_get_table_counts` returns the row count of every prefixed table.

Its JavaScript class `AHJAH_TableDisplay` keeps one viewer's state and posts
those requests. It renders the pagination controls and reacts to searches,
clicks and arrow keys.

The model has seven modules:

- `Strings` (strings.dfy): the PHP and JavaScript string primitives the plugin
  relies on. These are `trim`, `strtoupper`, `empty()`, integer to decimal,
  byte-order `sort`, `implode`, and backslash escaping with its inverse.
- `CellFormat` (cell_format.dfy): `ahjah_format_cell_data`, its three
  classifiers (serialized, JSON, binary), the array and object previews, and
  the serialized and JSON summaries.
- `Wpdb` (wpdb.dfy): the database as the plugin sees it. `SHOW TABLES`,
  `DESCRIBE`, the matching rows and the counts are fields of a value.
- `TableNames` (table_names.dfy): `ahjah_table_exists`,
  `ahjah_get_database_tables` and `ahjah_ajax_get_table_counts`.
- `TableRequest` (table_request.dfy): `ahjah_ajax_get_table_data`, which covers
  parameter clamping, the order whitelist, the LIKE pattern, the query, the
  page of rows, the pagination figures and the row processing.
- `PaginationControls` (pagination_controls.dfy): `renderPagination`, as a
  specification function and the loop that builds it.
- `Frontend` (table_display.dfy): the class `TableDisplay` with the viewer's
  fields and event handlers. It also holds the pure helpers: `getSortClass`,
  `getSortAttribute`, `getCellClass`, `truncateText` and `escapeRegex`.

Library functions the PHP code calls are parameters of the model, passed in
the `CellFormat.Oracles` value. These are `unserialize`, `json_decode` (twice:
the object-mode call of `ahjah_is_json`, whose success is all that is kept, and
the associative call of the formatter's JSON branch), `esc_html`, `print_r` and
`json_encode`. The nonce check and the capability
check are boolean parameters. A PHP string is a `string` with one char per
byte.

While a request is running, a click, a sort, a search or an arrow key still
changes the page, the search or the order. Only the request is skipped,
because `loadTable` returns at once (`TableDisplay.Posted`).

## Model

| member | source | states |
|---|---|---|
| Strings.Trim | resources/automation-helper/automation-helper.php:796-801 | trim() is empty exactly when every byte is one of " \t\n\r\0\x0B"; otherwise it starts and ends with another byte |
| Strings.TrimFirst | resources/automation-helper/automation-helper.php:801-802 | the first byte of the trimmed string is the first byte of the input that is not a trim character |
| Strings.ToUpper | resources/automation-helper/automation-helper.php:467-469 | strtoupper keeps the length and upper-cases each byte on its own |
| Strings.NatToString | resources/automation-helper/automation-helper.php:738-742 | the decimal form of a count is a non-empty run of digits, with no leading zero, whose decimal value is the count |
| Strings.SortStrings | resources/automation-helper/automation-helper.php:333 | sort() gives an ascending sequence that is a permutation of its input |
| Strings.Insert | resources/automation-helper/automation-helper.php:333 | inserting into a sorted list keeps it sorted and adds exactly that one element |
| Strings.UnescapeEscape | resources/automation-helper/automation-helper.php:528 | backslash escaping loses nothing when the backslash itself is escaped |
| Strings.EscapeAllEscaped | resources/automation-helper/automation-helper.php:528 | read left to right, the escaped text has every backslash followed by a special character and no special character standing alone (the backslash being one of them) |
| Strings.EscapedCanonical | resources/automation-helper/automation-helper.php:528 | a text in that fully escaped form is the escaping of what it unescapes to |
| Strings.EscapeCharacterised | resources/automation-helper/automation-helper.php:528 | a text is the escaping of s exactly when it is fully escaped and unescapes to s |
| CellFormat.ArraySignatureForm | resources/automation-helper/automation-helper.php:771 | the array pattern accepts exactly "a:", a non-empty digit run, ":{", a body without newline and "}", optionally followed by one newline |
| CellFormat.StringSignatureForm | resources/automation-helper/automation-helper.php:772 | the string pattern accepts exactly "s:", a non-empty digit run, ':"', a body without newline and '";', optionally followed by one newline |
| CellFormat.IntSignatureForm | resources/automation-helper/automation-helper.php:773 | the integer pattern accepts exactly "i:", a non-empty digit run and ";", optionally followed by one newline |
| CellFormat.BoolSignatureForm | resources/automation-helper/automation-helper.php:774 | the boolean pattern accepts exactly "b:0;", "b:1;", "b:0;\n" and "b:1;\n" |
| CellFormat.ObjectSignatureForm | resources/automation-helper/automation-helper.php:775 | the object pattern accepts exactly the values that start with "O:", a non-empty digit run, ':"', a non-empty class name without a quote and '":', followed by anything |
| CellFormat.IsSerialized | resources/automation-helper/automation-helper.php:762-785 | a value taken as serialized is at least three bytes long and starts with one of the type letters a, s, i, b, O followed by ":" |
| CellFormat.IsSerializedForms | resources/automation-helper/automation-helper.php:762-785 | a value is taken as serialized exactly when it has one of the five forms above; a blank value has none of them |
| CellFormat.IsJson | resources/automation-helper/automation-helper.php:794-808 | a value taken as JSON holds an opening brace or bracket, and its object-mode decode succeeds |
| CellFormat.JsonStartsWithBrace | resources/automation-helper/automation-helper.php:794-808 | a value is taken as JSON exactly when its first byte that is not a trim character is "{" or "[" and its object-mode decode succeeds |
| CellFormat.SerializedIsNotJson | resources/automation-helper/automation-helper.php:762-808 | no value is accepted by both the serialized and the JSON test |
| CellFormat.TrailingNewlineSignature | resources/automation-helper/automation-helper.php:771-775 | the `$` anchors accept a signature followed by one final newline ("i:7;\n" is taken as serialized) |
| CellFormat.LeadingBlankSignature | resources/automation-helper/automation-helper.php:771-775 | the `^` anchors refuse a signature with a leading blank, although trim() is only used for the emptiness test |
| CellFormat.IsBinary | resources/automation-helper/automation-helper.php:817-840 | binary means a NUL byte, or more than 30% bytes below 32 that are not tab, newline or carriage return; the loop computes exactly that |
| CellFormat.BinaryNeedsControlByte | resources/automation-helper/automation-helper.php:817-840 | a string judged binary always holds a control byte; printable text with tabs and line breaks is never binary |
| CellFormat.PreviewOfThree | resources/automation-helper/automation-helper.php:914-936 | with the limit 3, a preview lists at most three `key: value` entries in order, and a final "..." exactly when there are more |
| CellFormat.StringValueCut | resources/automation-helper/automation-helper.php:929-930 | a string value appears in double quotes, cut to its first 20 bytes |
| CellFormat.CollectPreviewItems | resources/automation-helper/automation-helper.php:922-933 | the foreach loop with its break collects exactly the preview items: the first entries, then "..." if entries remain |
| CellFormat.ArrayPreview | resources/automation-helper/automation-helper.php:914-936 | the array preview is empty exactly for a non-array or an empty array; otherwise it is the braced, comma-joined item list |
| CellFormat.ObjectPreview | resources/automation-helper/automation-helper.php:946-969 | the object preview is empty exactly for a non-object; an object without properties gives "{}" |
| CellFormat.SerializedSummary | resources/automation-helper/automation-helper.php:849-872 | arrays are tagged "array" with data-count, the "[Array: N items]" label and the escaped preview of three entries (or "(empty array)"); objects are tagged "object" with their escaped class name and "(N properties)"; anything else is "primitive" with the escaped print_r text |
| CellFormat.JsonSummary | resources/automation-helper/automation-helper.php:881-904 | arrays and objects carry data-count equal to their element or property count, the "[JSON Array: N items]" or "[JSON Object: N properties]" label and the escaped three-entry preview (or the empty text); anything else is "primitive" with the escaped json_encode text |
| CellFormat.Classify | resources/automation-helper/automation-helper.php:670-752 | the type is null exactly for SQL NULL and empty exactly for the empty string |
| CellFormat.FormatCell | resources/automation-helper/automation-helper.php:670-752 | the raw value is kept; expandable exactly for serialized, json and long_text; full_text exactly for long_text; the display is the NULL or (empty) span, the rendered serialized or JSON summary of the decoded value, the binary size span, or the escaped text, by type |
| CellFormat.ChosenIsFirst | resources/automation-helper/automation-helper.php:670-752 | the test of the chosen type accepts the value and every earlier test in the chain rejects it |
| CellFormat.FirstMatch | resources/automation-helper/automation-helper.php:670-752 | a value gets type t if and only if t's test accepts it and no earlier test does |
| CellFormat.BinaryOnlyWhenShort | resources/automation-helper/automation-helper.php:721-745 | binary is reported only for values of at most 100 bytes; longer ones that are neither serialized nor JSON are long_text |
| CellFormat.LongTextDisplay | resources/automation-helper/automation-helper.php:721-735 | long text shows its first 100 bytes escaped plus the ellipsis span, and keeps the whole text escaped for expansion |
| CellFormat.SerializedArrayDisplay | resources/automation-helper/automation-helper.php:694-705 | a non-empty serialized array is shown with its element count and a preview of at most three entries, with "..." exactly when it has more |
| CellFormat.FalseUnserializeFallsThrough | resources/automation-helper/automation-helper.php:694-705 | a signature whose unserialize() gives false is never shown as serialized |
| CellFormat.FalseTextSignature | resources/automation-helper/automation-helper.php:762-785 | "b:0;" passes the serialized check |
| CellFormat.FalseTextPrintable | resources/automation-helper/automation-helper.php:817-840 | "b:0;" is not binary |
| CellFormat.FallsToText | resources/automation-helper/automation-helper.php:747-752 | a short, printable, non-empty value that neither serialized nor JSON accepts is plain text |
| CellFormat.SerializedFalseIsText | resources/automation-helper/automation-helper.php:694-752 | the serialized false "b:0;" has a signature but is shown as text, because unserialize() returns false for it |
| Wpdb.CountQuery | resources/automation-helper/automation-helper.php:629-630 | reference definition of the get_var oracle: null for an identifier that names no table and for a table whose count fails, else the row count (the property is carried by TableNames.CountsOfListedTables) |
| TableNames.NamePattern | resources/automation-helper/automation-helper.php:425-427 | a name the pattern accepts is longer than the prefix and starts with it |
| TableNames.TableExists | resources/automation-helper/automation-helper.php:415-443 | a table exists iff its name is not empty(), has the shape prefix + [a-zA-Z0-9_]+, and SHOW TABLES LIKE answers with that very name |
| TableNames.PatternNameIsPlain | resources/automation-helper/automation-helper.php:425-427 | an accepted name adds only letters, digits, underscores and at most one final newline to the prefix, so it cannot hold a backtick |
| TableNames.NamePatternExamples | resources/automation-helper/automation-helper.php:425-427 | "wp_posts" is accepted under "wp_"; the bare prefix, a name with "`; DROP" and another prefix are refused |
| TableNames.Prefixed | resources/automation-helper/automation-helper.php:324-330 | the filter keeps no more tables than SHOW TABLES listed |
| TableNames.PrefixedCount | resources/automation-helper/automation-helper.php:324-330 | every prefixed table is kept as often as it is listed, and no other table is kept |
| TableNames.ListedTablesSpec | resources/automation-helper/automation-helper.php:303-349 | the list is sorted and holds exactly the prefixed tables with their multiplicities; it is empty after a SHOW TABLES error |
| TableNames.GetDatabaseTables | resources/automation-helper/automation-helper.php:303-349 | the filter loop followed by sort() returns exactly the specified list |
| TableNames.EntryOf | resources/automation-helper/automation-helper.php:632-647 | reference definition of one counts entry: the error entry for a null count, else the count itself (the property is carried by TableNames.CountsOfListedTables) |
| TableNames.PreparedIdentifier | resources/automation-helper/automation-helper.php:629 | prepare() wraps the table name in single quotes, which become part of the backticked identifier: the name stands between the two quotes |
| TableNames.AsWrittenEveryCountFails | resources/automation-helper/automation-helper.php:629-639 | as written, when no table name begins with a quote, every listed table gets the "Unable to access table" entry |
| TableNames.CountsOfListedTables | resources/automation-helper/automation-helper.php:618-650 | corrected (see ## Findings): the counts have exactly the listed tables as keys; a table gets the error entry iff its count fails, otherwise its own row count, so one failing table does not stop the others |
| TableNames.GetTableCounts | resources/automation-helper/automation-helper.php:602-657 | corrected (see ## Findings): the nonce is checked first and the read capability second, each with its message; then every listed table is counted under its own name |
| TableRequest.NormalizePage | resources/automation-helper/automation-helper.php:461-462 | the page is at least 1: a valid page is kept, and a missing or smaller one becomes 1 |
| TableRequest.NormalizePerPage | resources/automation-helper/automation-helper.php:463-464 | the page size lies in [1, 1000]: 20 when missing, clamped at both ends, kept inside |
| TableRequest.NormalizeOrder | resources/automation-helper/automation-helper.php:467-469 | the direction is DESC exactly when the upper-cased field is "DESC"; anything else gives ASC |
| TableRequest.NormalizeOrderText | resources/automation-helper/automation-helper.php:467-469 | the text the client sends for a direction reads back as that direction; "desc" is accepted and "descending" is not |
| TableRequest.OrderClause | resources/automation-helper/automation-helper.php:534-541 | ORDER BY is added exactly when orderby is not empty() and names a column of the table |
| TableRequest.EscLike | resources/automation-helper/automation-helper.php:528 | esc_like never shortens the term, unescapes back to it, and leaves every %, _ and backslash escaped when read left to right |
| TableRequest.EscLikeUnique | resources/automation-helper/automation-helper.php:528 | esc_like's result is the only fully escaped text that stands for the term |
| TableRequest.LikePattern | resources/automation-helper/automation-helper.php:528 | the pattern is the escaped search term between two % wildcards |
| TableRequest.SearchFilter | resources/automation-helper/automation-helper.php:524-531 | there is no WHERE clause exactly when the search is empty() |
| TableRequest.LikePatternLiteral | resources/automation-helper/automation-helper.php:524-531 | between its wildcards the pattern unescapes to the search term and is fully escaped, so no %, _ or backslash the user types acts as a wildcard or an escape |
| TableRequest.DataQuery | resources/automation-helper/automation-helper.php:519-559 | the query selects per_page rows from offset (page - 1) * per_page, with the search filter and the checked ORDER BY |
| TableRequest.PageRows | resources/automation-helper/automation-helper.php:552-559 | LIMIT/OFFSET gives at most limit rows, the i-th being the matching row at offset + i |
| TableRequest.Paginate | resources/automation-helper/automation-helper.php:562-564 | total_pages is the ceiling of items over page size; start_item is 0 iff there are no items, else offset + 1; end_item is the smaller of offset + per_page and the item count |
| TableRequest.PageInRange | resources/automation-helper/automation-helper.php:562-564 | a page up to the last shows between 1 and per_page items; a page beyond it reports an end before its start |
| TableRequest.PageMatchesFigures | resources/automation-helper/automation-helper.php:552-564 | the page holds exactly end_item - start_item + 1 rows, or none when the figures announce none |
| TableRequest.FormatRow | resources/automation-helper/automation-helper.php:569-573 | every cell is formatted under its own column name, in column order, with its raw value kept |
| TableRequest.ProcessRow | resources/automation-helper/automation-helper.php:568-572 | the inner loop formats every cell of one row, in order, under its column name |
| TableRequest.ProcessRows | resources/automation-helper/automation-helper.php:567-573 | the outer loop formats every row, in order, and nothing else |
| TableRequest.GetTableData | resources/automation-helper/automation-helper.php:448-592 | each failure returns its own message in the code's order; success comes iff the nonce, name, table and structure checks pass, with the columns, the figures and the formatted page |
| PaginationControls.Window | resources/automation-helper/assets/js/frontend.js:286-289 | reference definition of the page range: one button per page from start to end, marked current only at the current page (AppendPageRange and PagesOfControls are proved against it) |
| PaginationControls.Controls | resources/automation-helper/assets/js/frontend.js:255-308 | the controls open with Previous to page cur - 1, disabled iff cur <= 1, and close with Next to cur + 1, disabled iff cur >= total |
| PaginationControls.RenderPagination | resources/automation-helper/assets/js/frontend.js:255-308 | the string-building code produces exactly the specified controls |
| PaginationControls.AppendPageRange | resources/automation-helper/assets/js/frontend.js:286-289 | the for loop appends exactly the window of page buttons |
| PaginationControls.PagesOfControls | resources/automation-helper/assets/js/frontend.js:274-297 | the pages shown are page 1 if the window starts later, the window, and the last page if the window ends earlier |
| PaginationControls.PagesIncreasing | resources/automation-helper/assets/js/frontend.js:274-297 | the page numbers shown strictly increase, so no page appears twice |
| PaginationControls.FirstLastAndCurrentShown | resources/automation-helper/assets/js/frontend.js:274-297 | for 1 <= cur <= total, page 1, the last page and the current page are always shown |
| PaginationControls.OnlyCurrentMarked | resources/automation-helper/assets/js/frontend.js:286-289 | exactly the button of the current page carries ahjah-current |
| PaginationControls.GapsMarkSkippedPages | resources/automation-helper/assets/js/frontend.js:277-297 | an ellipsis follows page 1 iff pages are skipped there, and precedes the last page iff pages are skipped there; no ellipsis appears otherwise |
| PaginationControls.GapsAtStart | resources/automation-helper/assets/js/frontend.js:277-283 | for 1 <= cur <= total: after Previous comes page 1, then an ellipsis exactly when the window starts above page 2 |
| PaginationControls.GapsAtEnd | resources/automation-helper/assets/js/frontend.js:291-297 | for 1 <= cur <= total: before Next comes the last page, preceded by an ellipsis exactly when the window ends below the last page but one |
| PaginationControls.GapsOnlyWhereSkipped | resources/automation-helper/assets/js/frontend.js:280-295 | an ellipsis is rendered only when the window skips pages at one of its ends |
| PaginationControls.ArrowRightOnRendered | resources/automation-helper/assets/js/frontend.js:125-132 | on the rendered controls, ArrowRight finds an enabled next-page button exactly when the current page is before the last |
| PaginationControls.EnabledTargetsPositive | resources/automation-helper/assets/js/frontend.js:264-304 | rendered for a page of at least 1, every enabled button leads to a page of at least 1 |
| Frontend.ErrorMessage | resources/automation-helper/assets/js/frontend.js:175-201 | a refused request shows the server's message, or the default text when it is empty; a failed one shows the response's message when it has one, otherwise the timeout text for "timeout", the cancel text for "abort" and the default text for any other status |
| Frontend.Flip | resources/automation-helper/assets/js/frontend.js:76 | a repeated click on the sorted column always changes the direction |
| Frontend.TableDisplay.CurrentRequest | resources/automation-helper/assets/js/frontend.js:148-157 | the posted fields are the viewer's table, page, page size, search, sort column and direction |
| Frontend.TableDisplay.constructor | resources/automation-helper/assets/js/frontend.js:13-33 | a new viewer starts on page 1 with 20 rows, no search, no sort, ascending, and posts its first request at once |
| Frontend.TableDisplay.LoadTable | resources/automation-helper/assets/js/frontend.js:140-170 | a request for the current state is posted unless one is running, and a request is running afterwards; nothing else changes |
| Frontend.TableDisplay.ApplySearch | resources/automation-helper/assets/js/frontend.js:43-52 | the debounced search sets the search, returns to page 1 and loads |
| Frontend.TableDisplay.SortBy | resources/automation-helper/assets/js/frontend.js:70-86 | the sorted column flips its direction; another column becomes the sorted one, ascending; the page returns to 1 |
| Frontend.TableDisplay.ClickPagination | resources/automation-helper/assets/js/frontend.js:55-67 | a disabled button, page 0 or the current page is ignored; any other button moves to its page and loads |
| Frontend.TableDisplay.KeyDown | resources/automation-helper/assets/js/frontend.js:116-134 | with focus in a visible viewer, ArrowLeft goes back above page 1 and ArrowRight goes on when an enabled next-page button exists; otherwise nothing changes |
| Frontend.TableDisplay.Complete | resources/automation-helper/assets/js/frontend.js:159-201 | corrected (see ## Findings): a success renders the controls for the answered page and shows the pagination; a failure shows its error and hides it; loading ends either way |
| Frontend.TableDisplay.CompleteAsWritten | resources/automation-helper/assets/js/frontend.js:349-353 | as written, a success leaves the pagination as hidden as it was |
| Frontend.TableDisplay.SortClass | resources/automation-helper/assets/js/frontend.js:313-318 | only the sorted column gets a class, naming its direction |
| Frontend.TableDisplay.SortAttribute | resources/automation-helper/assets/js/frontend.js:323-328 | aria-sort is none for every column but the sorted one, which gets ascending or descending |
| Frontend.PaginationAfterErrorAsWritten | resources/automation-helper/assets/js/frontend.js:349-353 | after an error, a search and a successful load, the pagination stays hidden |
| Frontend.PaginationAfterError | resources/automation-helper/assets/js/frontend.js:255-308 | with the pagination shown on success, the same sequence leaves it visible |
| Frontend.ServerParams | resources/automation-helper/assets/js/frontend.js:148-157 | the server receives the posted fields; the direction is sent as "ASC" or "DESC" |
| Frontend.ServerKeepsRequest | resources/automation-helper/automation-helper.php:460-470 | the server reads back exactly the page, page size and direction a viewer posts |
| Frontend.CellClass | resources/automation-helper/assets/js/frontend.js:411-425 | long_text cells get the long class, null and empty cells the short class, and all others none |
| Frontend.CellClassOfFormatted | resources/automation-helper/assets/js/frontend.js:411-425 | the short class goes to NULL and "" only; the long class only to values over 100 bytes that neither serialized nor JSON accepts |
| Frontend.TruncateText | resources/automation-helper/assets/js/frontend.js:374-379 | empty or short enough text is kept; longer text is cut to maxLength characters and "..." is appended |
| Frontend.TruncateBound | resources/automation-helper/assets/js/frontend.js:374-379 | the result is at most maxLength + 3 long, and is the text or a prefix of it followed by "..." |
| Frontend.EscapeRegex | resources/automation-helper/assets/js/frontend.js:478-480 | escaping never shortens the search term |
| Frontend.EscapeRegexLiteral | resources/automation-helper/assets/js/frontend.js:478-480 | the escaped term unescapes to the term and is fully escaped, so no regex operator in it acts as one; no other fully escaped text stands for the term |

## Left out

- Caching: wp_cache_get and wp_cache_set are not modelled. Every call reads the database, as it does on a cache miss.
- Exceptions and error_log: the catch blocks and their messages are not modelled.
- Security checks: the nonce checks and `current_user_can('read')` are boolean inputs.
- sanitize_text_field, wp_unslash and intval: the request parameters are the values after them (`TableRequest.Params`).
- The database is abstract. SHOW TABLES LIKE is an oracle that gives the first row or nothing; `_` as a LIKE wildcard and the error flag after it are folded into that answer. The rows that satisfy a WHERE clause, in ORDER BY order, are also an oracle; SQL evaluation is not modelled.
- TableRequest.GetTableData: total_items is a string in PHP; here it is the number of matching rows. Float division and ceil() are exact integer arithmetic.
- TableRequest.DataQuery: the offset (page - 1) * per_page is exact here. PHP saturates the page at PHP_INT_MAX in intval(), and turns a product past PHP_INT_MAX into a float, so the OFFSET it sends then differs.
- TableRequest.Paginate: start_item and end_item are exact here, where PHP's offset + 1 and offset + per_page become floats past PHP_INT_MAX.
- TableRequest.GetTableData: the COUNT(*) query and the SELECT are assumed to succeed and to see the same rows. The code checks neither for errors: a failed count gives a null total_items, a failed SELECT an empty page, and a write between the two makes the figures disagree with the page.
- TableRequest.GetTableData: the catch-all messages of the two try blocks are not modelled.
- TableRequest.OrderClause: in_array here is exact membership, so PHP's loose comparison between numeric strings is not modelled.
- Strings.SortStrings: sort() here is byte order, so PHP's numeric comparison of numeric strings is not modelled.
- TableNames.GetTableCounts: number_format_i18n (the formatted field) is not modelled.
- TableNames.GetTableCounts: the count is the row count of the table itself, not the string get_var returns.
- Wpdb.CountQuery: why a count fails on a listed table (privileges, a broken view) is not modelled; the database says per table whether it does.
- CellFormat.Classify: unserialize, json_decode, esc_html, print_r and json_encode are oracles. The two json_decode calls are independent oracles, so any combination of the object-mode test and the associative decode is allowed.
- CellFormat.JsonSummary: the object case cannot be reached from the formatter, because json_decode is called with assoc = true. The oracle is not restricted to rule it out.
- CellFormat.IsBinary: the 30% test is `10 * count > 3 * length`, which is exact where PHP divides in floating point.
- Frontend.TableDisplay.ClickPagination: jQuery's `.data()` conversion of data-page is not modelled. Page numbers are integers, and a target of 0 stands for a falsy value.
- Frontend.TableDisplay.SortBy: the column is taken as the header's string. jQuery's `.data("column")` turns names such as "2024", "true", "false" or "null" into a number, a boolean or null. For such a column getSortClass and getSortAttribute never match the header, and a null column is posted as an empty orderby.
- Frontend.TableDisplay.ApplySearch: the 500 ms debounce timer is not modelled. The method is the timer firing, so it runs once for the last input.
- DOM rendering is not modelled: renderTable, formatCellContent, expandDataContent, the pagination info text, showLoading/hideLoading, escapeHtml and search highlighting. The viewer keeps only the controls, the hidden flag and the error text.
- PaginationControls.FirstLastAndCurrentShown: proved for 1 <= cur <= total. A page beyond the last, which the server answers when asked, does not show the last page.
- PaginationControls.GapsMarkSkippedPages: proved for 1 <= cur <= total only.
- PaginationControls.GapsAtStart: proved for 1 <= cur <= total only. An empty table answers page 1 of 0 pages, and then Previous is followed directly by Next.
- PaginationControls.GapsAtEnd: proved for 1 <= cur <= total only; for an empty table (page 1 of 0) no last page stands before Next.
- Frontend.TruncateText: one char stands for one UTF-16 code unit, as JavaScript's length and substring() count them. Text outside the Basic Multilingual Plane, and a cut that splits a surrogate pair, are not modelled.
- Frontend.EscapeRegex: JavaScript strings are sequences of UTF-16 code units; here a char stands for one unit, and surrogate pairs are not modelled.
- Frontend.ServerParams: sanitize_text_field and intval are taken to leave the client's values unchanged.
- Not part of this model: the shortcode handler, the admin page, the hooks and script enqueueing, and admin.js.

## Findings

| source | as written | input that shows it | evidently intended | confidence | as-written member | corrected member |
|---|---|---|---|---|---|---|
| resources/automation-helper/automation-helper.php:629 | `prepare("SELECT COUNT(*) FROM `%s`", $table)` quotes the name, so the query counts the table `'wp_posts'` (quotes included) | any listed table, e.g. wp_posts when no table name begins with a quote | count the table itself, e.g. by interpolating the validated name | high (not executed) | TableNames.AsWrittenEveryCountFails | TableNames.CountsOfListedTables |
| resources/automation-helper/assets/js/frontend.js:349-353 | showError() hides the pagination wrapper, and renderPagination() never shows it again | a request that times out, then a search whose load succeeds | the pagination reappears after a successful load | high (not executed) | Frontend.PaginationAfterErrorAsWritten | Frontend.PaginationAfterError |
