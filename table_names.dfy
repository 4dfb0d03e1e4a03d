/**
 * Which tables the plugin is willing to show: the name check of
 * ahjah_table_exists, the prefix filter and sort of ahjah_get_database_tables,
 * and the per-table row counts of ahjah_ajax_get_table_counts.
 */
module TableNames {
  import opened Wrappers
  import opened Strings
  import opened Wpdb

  // ---------------------------------------------------------------------
  // ahjah_table_exists

  /** One character of [a-zA-Z0-9_]. */
  predicate IdentChar(c: char) {
    'a' <= c <= 'z' || 'A' <= c <= 'Z' || '0' <= c <= '9' || c == '_'
  }

  /** The name matches /^<prefix>[a-zA-Z0-9_]+$/ (the prefix quoted literally). */
  function NamePattern(prefix: string, name: string): (b: bool)
    ensures b ==> |name| > |prefix| && name[..|prefix|] == prefix
  {
    var t := DollarSubject(name);
    |t| > |prefix| && t[..|prefix|] == prefix &&
    forall i :: |prefix| <= i < |t| ==> IdentChar(t[i])
  }

  /** ahjah_table_exists: an empty name, or one that does not have the shape
      prefix + [a-zA-Z0-9_]+, is refused without asking the database; any other
      name exists when SHOW TABLES LIKE answers with exactly that name. */
  function TableExists(name: string, db: Database): (b: bool)
    ensures PhpEmpty(name) ==> !b
    ensures !NamePattern(db.prefix, name) ==> !b
    ensures b <==> !PhpEmpty(name) && NamePattern(db.prefix, name) && db.showTablesLike(name) == Some(name)
  {
    if PhpEmpty(name) then false
    else if !NamePattern(db.prefix, name) then false
    else db.showTablesLike(name) == Some(name)
  }

  /** A name of the accepted shape adds no character to the prefix but
      letters, digits, underscores and at most one final newline, so it holds
      no backtick when the prefix holds none: it cannot close the quoted
      identifier it is later placed in. */
  lemma {:induction false} PatternNameIsPlain(prefix: string, name: string)
    requires NamePattern(prefix, name)
    ensures forall i :: |prefix| <= i < |name| ==> IdentChar(name[i]) || (i == |name| - 1 && name[i] == '\n')
    ensures '`' !in prefix ==> '`' !in name
  {
    var t := DollarSubject(name);
    assert t == name[..|t|];
    forall i | |prefix| <= i < |name|
      ensures IdentChar(name[i]) || (i == |name| - 1 && name[i] == '\n')
    {
      if i < |t| {
        assert name[i] == t[i];
      }
    }
    assert name[..|prefix|] == prefix;
  }

  /** A few names under the prefix "wp_". */
  lemma NamePatternExamples()
    ensures NamePattern("wp_", "wp_posts")
    ensures !NamePattern("wp_", "wp_")
    ensures !NamePattern("wp_", "wp_posts`; DROP")
    ensures !NamePattern("wp_", "other_posts")
  {
    assert DollarSubject("wp_posts") == "wp_posts";
    assert DollarSubject("wp_") == "wp_";
    var bad := "wp_posts`; DROP";
    assert DollarSubject(bad) == bad;
    assert !IdentChar(bad[8]);
    assert DollarSubject("other_posts") == "other_posts";
    assert "other_posts"[..3] != "wp_" by {
      assert "other_posts"[0] == 'o';
    }
  }

  // ---------------------------------------------------------------------
  // ahjah_get_database_tables

  /** strpos($table, $prefix) === 0 */
  predicate HasPrefix(prefix: string, s: string) {
    |prefix| <= |s| && s[..|prefix|] == prefix
  }

  /** The tables carrying the prefix, in SHOW TABLES order. */
  function Prefixed(prefix: string, tables: seq<string>): (r: seq<string>)
    ensures |r| <= |tables|
  {
    if tables == [] then []
    else
      var last := tables[|tables| - 1];
      Prefixed(prefix, tables[..|tables| - 1]) + (if HasPrefix(prefix, last) then [last] else [])
  }

  /** Each prefixed table is kept as often as it occurs; no other is kept. */
  lemma {:induction false} PrefixedCount(prefix: string, tables: seq<string>)
    ensures forall t :: multiset(Prefixed(prefix, tables))[t] == if HasPrefix(prefix, t) then multiset(tables)[t] else 0
  {
    if tables != [] {
      var last := tables[|tables| - 1];
      assert tables == tables[..|tables| - 1] + [last];
      PrefixedCount(prefix, tables[..|tables| - 1]);
    }
  }

  lemma PrefixedSnoc(prefix: string, tables: seq<string>, x: string)
    ensures Prefixed(prefix, tables + [x]) == Prefixed(prefix, tables) + (if HasPrefix(prefix, x) then [x] else [])
  {
    assert (tables + [x])[..|tables|] == tables;
  }

  /** What ahjah_get_database_tables returns: nothing after a SHOW TABLES
      error, otherwise the prefixed tables in ascending byte order. */
  function ListedTables(db: Database): seq<string> {
    if db.listError then [] else SortStrings(Prefixed(db.prefix, db.tables))
  }

  /** The list is sorted, holds only prefixed tables, and holds every prefixed
      table as often as SHOW TABLES names it (unless listing failed). */
  lemma ListedTablesSpec(db: Database)
    ensures Sorted(ListedTables(db))
    ensures forall t :: t in ListedTables(db) ==> HasPrefix(db.prefix, t) && t in db.tables
    ensures !db.listError ==> forall t :: HasPrefix(db.prefix, t) ==> multiset(ListedTables(db))[t] == multiset(db.tables)[t]
    ensures db.listError ==> ListedTables(db) == []
  {
    var r := ListedTables(db);
    PrefixedCount(db.prefix, db.tables);
    forall t | t in r
      ensures HasPrefix(db.prefix, t) && t in db.tables
    {
      assert multiset(r)[t] > 0;
    }
  }

  /** The loop of ahjah_get_database_tables followed by sort(). */
  method GetDatabaseTables(db: Database) returns (tables: seq<string>)
    ensures tables == ListedTables(db)
  {
    if db.listError {
      return [];
    }
    var wpTables: seq<string> := [];
    for i := 0 to |db.tables|
      invariant wpTables == Prefixed(db.prefix, db.tables[..i])
    {
      assert db.tables[..i + 1] == db.tables[..i] + [db.tables[i]];
      PrefixedSnoc(db.prefix, db.tables[..i], db.tables[i]);
      if HasPrefix(db.prefix, db.tables[i]) {
        wpTables := wpTables + [db.tables[i]];
      }
    }
    assert db.tables[..|db.tables|] == db.tables;
    tables := SortStrings(wpTables);
  }

  // ---------------------------------------------------------------------
  // ahjah_ajax_get_table_counts

  /** One entry of the counts response: {count, formatted} or {count: 0, error}. */
  datatype CountEntry = Counted(count: nat) | Unavailable

  /** A null answer to the count query gives the error entry. */
  function EntryOf(n: Option<nat>): (e: CountEntry)
    ensures e.Unavailable? <==> n.None?
    ensures n.Some? ==> e.count == n.value
  {
    match n
    case None => Unavailable
    case Some(k) => Counted(k)
  }

  /** The identifier the counts query names as written: prepare() puts single
      quotes around every %s, and the backticks around it then make the quotes
      part of the table name (SELECT COUNT(*) FROM `'wp_posts'`). */
  function PreparedIdentifier(table: string): (id: string)
    ensures |id| == |table| + 2 && id[0] == '\'' && id[|id| - 1] == '\''
    ensures id[1..|id| - 1] == table
  {
    "'" + table + "'"
  }

  /** The counts as written: each table is counted under its quoted name. */
  function CountsAsWritten(tables: seq<string>, db: Database): map<string, CountEntry> {
    map t | t in tables :: EntryOf(CountQuery(db, PreparedIdentifier(t)))
  }

  /** As written, no table can be counted while no table's own name starts
      with a quote: every table gets the error entry. */
  lemma AsWrittenEveryCountFails(tables: seq<string>, db: Database)
    requires forall u :: u in db.tables ==> u == [] || u[0] != '\''
    ensures forall t :: t in tables ==> t in CountsAsWritten(tables, db) && CountsAsWritten(tables, db)[t] == Unavailable
  {
    forall t | t in tables
      ensures CountQuery(db, PreparedIdentifier(t)).None?
    {
      assert PreparedIdentifier(t)[0] == '\'';
    }
  }

  /** The counts as intended: each table counted under its own name. */
  function Counts(tables: seq<string>, db: Database): map<string, CountEntry> {
    map t | t in tables :: EntryOf(CountQuery(db, t))
  }

  lemma CountsSnoc(tables: seq<string>, x: string, db: Database)
    ensures Counts(tables + [x], db) == Counts(tables, db)[x := EntryOf(CountQuery(db, x))]
  {
  }

  /** Every listed table gets an entry and no other key appears; a table whose
      count fails gets the error entry, every other one its own row count, so
      one failing table does not keep the others from being counted. */
  lemma CountsOfListedTables(db: Database)
    ensures forall t :: t in Counts(ListedTables(db), db) <==> t in ListedTables(db)
    ensures forall t :: t in ListedTables(db) ==>
      (Counts(ListedTables(db), db)[t] == Unavailable <==> db.rowCount(t).None?)
    ensures forall t :: t in ListedTables(db) && db.rowCount(t).Some? ==>
      Counts(ListedTables(db), db)[t] == Counted(db.rowCount(t).value)
  {
    ListedTablesSpec(db);
  }

  /** ahjah_ajax_get_table_counts with the count query naming the table
      itself: the nonce is checked first, then the read capability, then
      every listed table is counted and none is skipped. */
  method GetTableCounts(nonceOk: bool, canRead: bool, db: Database) returns (r: Result<map<string, CountEntry>, string>)
    ensures !nonceOk ==> r == Failure("Security check failed")
    ensures nonceOk && !canRead ==> r == Failure("Insufficient permissions")
    ensures nonceOk && canRead ==> r == Success(Counts(ListedTables(db), db))
  {
    if !nonceOk {
      return Failure("Security check failed");
    }
    if !canRead {
      return Failure("Insufficient permissions");
    }
    var tables := GetDatabaseTables(db);
    var counts: map<string, CountEntry> := map[];
    for i := 0 to |tables|
      invariant counts == Counts(tables[..i], db)
    {
      assert tables[..i + 1] == tables[..i] + [tables[i]];
      CountsSnoc(tables[..i], tables[i], db);
      var count := CountQuery(db, tables[i]);
      if count.None? {
        counts := counts[tables[i] := Unavailable];
        continue;
      }
      counts := counts[tables[i] := Counted(count.value)];
    }
    assert tables[..|tables|] == tables;
    return Success(counts);
  }
}
