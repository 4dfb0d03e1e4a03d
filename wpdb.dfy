/**
 * The WordPress database as the Automation Helper plugin sees it. The SQL the
 * plugin sends is kept as data (Query); what MySQL answers is taken as given.
 */
module Wpdb {
  import opened Wrappers

  /** A sort direction: the only two values ever put after ORDER BY. */
  datatype Order = Asc | Desc

  function OrderText(d: Order): string {
    match d
    case Asc => "ASC"
    case Desc => "DESC"
  }

  /** One result row (ARRAY_A): column name and value, NULL as None, in column order. */
  type Row = seq<(string, Option<string>)>

  /** The SELECT the table data endpoint sends:
      WHERE `c1` LIKE p OR ... OR `cn` LIKE p (when likeAny is Some(p)),
      ORDER BY `column` direction (when orderBy is Some), LIMIT and OFFSET. */
  datatype Query = Query(likeAny: Option<string>, orderBy: Option<(string, Order)>, limit: nat, offset: nat)

  datatype Database = Database(
    // $wpdb->prefix
    prefix: string,
    // SHOW TABLES
    tables: seq<string>,
    // last_error after SHOW TABLES
    listError: bool,
    // first row of SHOW TABLES LIKE %s; None for no row or an error
    showTablesLike: string -> Option<string>,
    // the Field of every column DESCRIBE lists; [] when it lists none
    columns: string -> seq<string>,
    // last_error after DESCRIBE
    describeError: bool,
    // COUNT(*) of an existing table; None when the query fails on it anyway
    // (no SELECT privilege, a broken view)
    rowCount: string -> Option<nat>,
    // the rows of a table that satisfy the WHERE clause, in ORDER BY order,
    // before LIMIT and OFFSET: COUNT(*) and the page are both taken from it
    matching: (string, Option<string>, Option<(string, Order)>) -> seq<Row>)

  /** SELECT COUNT(*) FROM `identifier` through get_var(): null when no table
      has that name, or when counting that table fails. */
  function CountQuery(db: Database, identifier: string): (n: Option<nat>)
    ensures identifier !in db.tables ==> n.None?
    ensures identifier in db.tables ==> n == db.rowCount(identifier)
  {
    if identifier in db.tables then db.rowCount(identifier) else None
  }
}
