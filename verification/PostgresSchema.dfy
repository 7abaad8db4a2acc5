/** Joining catalog rows into tables: a hash join that drains its map, against the nested-loop
    join it stands for; splitting index column lists; retrying the first connection. */
module PostgresSchema {
  import opened Collections
  import opened Numbers
  import opened Text

  type TableKey = (string, string)

  datatype TableRow = TableRow(schema: string, name: string, rowEstimate: Option<int>, totalBytes: Option<int>)

  datatype ColumnRow = ColumnRow(
    schema: string,
    table: string,
    name: string,
    position: int,
    isNullable: string,
    dataType: string,
    default: Option<string>)

  datatype ColumnMetadata = ColumnMetadata(
    name: string,
    dataType: string,
    nullable: bool,
    default: Option<string>,
    position: int)

  datatype TableMetadata = TableMetadata(
    schema: string,
    name: string,
    columns: seq<ColumnMetadata>,
    rowCountEstimate: Option<int>,
    sizeBytes: Option<int>)

  function KeyOfTable(t: TableRow): TableKey {
    (t.schema, t.name)
  }

  function KeyOfColumn(c: ColumnRow): TableKey {
    (c.schema, c.table)
  }

  /** Comparison with "YES" that ignores ASCII case. */
  predicate IsYes(s: string) {
    && |s| == 3
    && (s[0] == 'Y' || s[0] == 'y')
    && (s[1] == 'E' || s[1] == 'e')
    && (s[2] == 'S' || s[2] == 's')
  }

  function ToColumn(c: ColumnRow): ColumnMetadata {
    ColumnMetadata(c.name, c.dataType, IsYes(c.isNullable), c.default, c.position)
  }

  function ToTable(t: TableRow, columns: seq<ColumnMetadata>): TableMetadata {
    TableMetadata(t.schema, t.name, columns, t.rowEstimate, t.totalBytes)
  }

  /** The columns bearing a key, in row order. */
  ghost function Matching(columns: seq<ColumnRow>, key: TableKey): seq<ColumnMetadata> {
    if columns == [] then []
    else if KeyOfColumn(Last(columns)) == key then Matching(Front(columns), key) + [ToColumn(Last(columns))]
    else Matching(Front(columns), key)
  }

  /** Every table with all the columns bearing its key. */
  ghost function NestedLoopJoin(tables: seq<TableRow>, columns: seq<ColumnRow>): seq<TableMetadata> {
    seq(|tables|, i requires 0 <= i < |tables| => ToTable(tables[i], Matching(columns, KeyOfTable(tables[i]))))
  }

  ghost predicate KeyBefore(tables: seq<TableRow>, i: nat)
    requires i < |tables|
  {
    exists j :: 0 <= j < i && KeyOfTable(tables[j]) == KeyOfTable(tables[i])
  }

  /** What the map-draining join computes: a key's columns go to its first table only. */
  ghost function DrainingJoin(tables: seq<TableRow>, columns: seq<ColumnRow>): seq<TableMetadata> {
    seq(|tables|, i requires 0 <= i < |tables| =>
                    ToTable(tables[i], if KeyBefore(tables, i) then [] else Matching(columns, KeyOfTable(tables[i]))))
  }

  /** `at` lists, in order, the rows that name this table, and the columns are filled from them. */
  ghost predicate ListsRows(rows: seq<ColumnRow>, schema: string, table: string, columns: seq<ColumnMetadata>,
                            at: seq<nat>)
  {
    && |at| == |columns|
    && (forall j, k :: 0 <= j < k < |at| ==> at[j] < at[k])
    && (forall i: nat :: i in at <==> i < |rows| && rows[i].schema == schema && rows[i].table == table)
    && (forall k :: 0 <= k < |at| ==> at[k] < |rows| && FilledFrom(columns[k], rows[at[k]]))
  }

  ghost predicate FilledFrom(c: ColumnMetadata, row: ColumnRow) {
    && c.name == row.name && c.dataType == row.dataType && c.default == row.default && c.position == row.position
    && (c.nullable <==> row.isNullable in {"YES", "YEs", "YeS", "Yes", "yES", "yEs", "yeS", "yes"})
  }

  lemma ToColumnFills(row: ColumnRow)
    ensures FilledFrom(ToColumn(row), row)
  {
    var s := row.isNullable;
    if |s| == 3 {
      assert s == [s[0], s[1], s[2]];
    }
  }

  lemma ListsAppend(rows: seq<ColumnRow>, row: ColumnRow, schema: string, table: string,
                    columns: seq<ColumnMetadata>, at: seq<nat>, c: ColumnMetadata)
    requires ListsRows(rows, schema, table, columns, at) && FilledFrom(c, row)
    ensures row.schema == schema && row.table == table ==>
              ListsRows(rows + [row], schema, table, columns + [c], at + [|rows|])
    ensures !(row.schema == schema && row.table == table) ==> ListsRows(rows + [row], schema, table, columns, at)
  {
    hide FilledFrom;
    var all := rows + [row];
    assert all[|rows|] == row && forall i :: 0 <= i < |rows| ==> all[i] == rows[i];
    forall k | 0 <= k < |at| ensures at[k] < |rows| && all[at[k]] == rows[at[k]] {
      assert at[k] in at;
    }
  }

  lemma {:induction false} MatchingLists(rows: seq<ColumnRow>, schema: string, table: string) returns (at: seq<nat>)
    ensures ListsRows(rows, schema, table, Matching(rows, (schema, table)), at)
  {
    if rows == [] {
      at := [];
    } else {
      hide ListsRows, FilledFrom, ToColumn;
      var f, row := Front(rows), Last(rows);
      assert rows == f + [row];
      at := MatchingLists(f, schema, table);
      ToColumnFills(row);
      ListsAppend(f, row, schema, table, Matching(f, (schema, table)), at, ToColumn(row));
      if row.schema == schema && row.table == table {
        at := at + [|f|];
      }
    }
  }

  /** Table i is filled from row i, and the first table of its name in its schema lists the columns
      of the rows that name it; a repeated one lists none. */
  ghost predicate TableFilled(tableRows: seq<TableRow>, columnRows: seq<ColumnRow>, i: nat, t: TableMetadata)
    requires i < |tableRows|
  {
    var row := tableRows[i];
    && t.schema == row.schema && t.name == row.name
    && t.rowCountEstimate == row.rowEstimate && t.sizeBytes == row.totalBytes
    && if forall j :: 0 <= j < i ==> tableRows[j].schema != row.schema || tableRows[j].name != row.name
       then exists at :: ListsRows(columnRows, row.schema, row.name, t.columns, at)
       else t.columns == []
  }

  lemma JoinFills(tableRows: seq<TableRow>, columnRows: seq<ColumnRow>)
    ensures |DrainingJoin(tableRows, columnRows)| == |tableRows|
    ensures forall i :: 0 <= i < |tableRows| ==>
              TableFilled(tableRows, columnRows, i, DrainingJoin(tableRows, columnRows)[i])
  {
    hide ListsRows, Matching;
    forall i | 0 <= i < |tableRows|
      ensures TableFilled(tableRows, columnRows, i, DrainingJoin(tableRows, columnRows)[i])
    {
      var at := MatchingLists(columnRows, tableRows[i].schema, tableRows[i].name);
    }
  }

  /** The map holds the groups of all keys that have columns, save those already drained. */
  ghost predicate Groups(m: map<TableKey, seq<ColumnMetadata>>, columns: seq<ColumnRow>, drained: set<TableKey>) {
    && (forall k :: k in m ==> k !in drained && m[k] == Matching(columns, k))
    && (forall k :: k !in m ==> k in drained || Matching(columns, k) == [])
  }

  /** The tables' keys. */
  ghost function Keys(tables: seq<TableRow>): set<TableKey> {
    set t | t in tables :: KeyOfTable(t)
  }

  lemma KeysOfPrefix(tables: seq<TableRow>, i: nat)
    requires i < |tables|
    ensures KeyBefore(tables, i) <==> KeyOfTable(tables[i]) in Keys(tables[..i])
    ensures Keys(tables[..i + 1]) == Keys(tables[..i]) + {KeyOfTable(tables[i])}
  {
    var f := tables[..i];
    assert tables[..i + 1] == f + [tables[i]];
    assert forall j :: 0 <= j < i ==> f[j] == tables[j] && f[j] in f;
    if KeyOfTable(tables[i]) in Keys(f) {
      var t :| t in f && KeyOfTable(t) == KeyOfTable(tables[i]);
      var j :| 0 <= j < i && f[j] == t;
      assert KeyOfTable(tables[j]) == KeyOfTable(tables[i]);
    }
  }

  lemma GroupsAppend(m: map<TableKey, seq<ColumnMetadata>>, columns: seq<ColumnRow>, row: ColumnRow)
    requires Groups(m, columns, {})
    ensures var key := KeyOfColumn(row);
            Groups(m[key := (if key in m then m[key] else []) + [ToColumn(row)]], columns + [row], {})
  {
    assert Front(columns + [row]) == columns;
  }

  method CollectTables(tableRows: seq<TableRow>, columnRows: seq<ColumnRow>) returns (tables: seq<TableMetadata>)
    ensures tables == DrainingJoin(tableRows, columnRows)
    ensures |tables| == |tableRows|
    ensures forall i :: 0 <= i < |tables| ==> TableFilled(tableRows, columnRows, i, tables[i])
  {
    hide Matching, KeyBefore, Keys, TableFilled;
    JoinFills(tableRows, columnRows);
    var columnsByTable: map<TableKey, seq<ColumnMetadata>> := map[];
    assert Groups(map[], [], {}) by { EmptyGroups(); }
    for i := 0 to |columnRows|
      invariant Groups(columnsByTable, columnRows[..i], {})
    {
      var row := columnRows[i];
      var key := KeyOfColumn(row);
      GroupsAppend(columnsByTable, columnRows[..i], row);
      assert columnRows[..i + 1] == columnRows[..i] + [row];
      var group := if key in columnsByTable then columnsByTable[key] else [];
      columnsByTable := columnsByTable[key := group + [ToColumn(row)]];
    }
    assert columnRows[..|columnRows|] == columnRows;

    tables := [];
    assert Keys(tableRows[..0]) == {} by { NoKeys(tableRows[..0]); }
    for i := 0 to |tableRows|
      invariant |tables| == i
      invariant forall j :: 0 <= j < i ==> tables[j] == DrainingJoin(tableRows, columnRows)[j]
      invariant Groups(columnsByTable, columnRows, Keys(tableRows[..i]))
    {
      var row := tableRows[i];
      var key := KeyOfTable(row);
      KeysOfPrefix(tableRows, i);
      var columns := if key in columnsByTable then columnsByTable[key] else [];
      columnsByTable := columnsByTable - {key};
      tables := tables + [ToTable(row, columns)];
    }
  }

  lemma EmptyGroups()
    ensures Groups(map[], [], {})
  {
  }

  lemma NoKeys(tables: seq<TableRow>)
    requires tables == []
    ensures Keys(tables) == {}
  {
  }

  /** The draining join is the nested-loop join exactly if no two tables share a key that some
      column bears. */
  lemma JoinExact(tables: seq<TableRow>, columns: seq<ColumnRow>)
    ensures DrainingJoin(tables, columns) == NestedLoopJoin(tables, columns) <==>
            forall i, j :: 0 <= i < j < |tables| && KeyOfTable(tables[i]) == KeyOfTable(tables[j])
                           ==> forall c :: c in columns ==> KeyOfColumn(c) != KeyOfTable(tables[j])
  {
    var d, n := DrainingJoin(tables, columns), NestedLoopJoin(tables, columns);
    forall j | 0 <= j < |tables|
      ensures d[j] == n[j] <==> !KeyBefore(tables, j) || Matching(columns, KeyOfTable(tables[j])) == []
    {
    }
    forall j | 0 <= j < |tables|
      ensures Matching(columns, KeyOfTable(tables[j])) == [] <==>
              forall c :: c in columns ==> KeyOfColumn(c) != KeyOfTable(tables[j])
    {
      MatchingEmpty(columns, KeyOfTable(tables[j]));
    }
    assert d == n <==> forall j :: 0 <= j < |tables| ==> d[j] == n[j];
  }

  lemma {:induction false} MatchingEmpty(columns: seq<ColumnRow>, key: TableKey)
    ensures Matching(columns, key) == [] <==> forall c :: c in columns ==> KeyOfColumn(c) != key
  {
    if columns != [] {
      MatchingEmpty(Front(columns), key);
      assert columns == Front(columns) + [Last(columns)];
    }
  }

  ghost function Tagged(key: TableKey, columns: seq<ColumnMetadata>): multiset<(TableKey, ColumnMetadata)> {
    if columns == [] then multiset{} else Tagged(key, Front(columns)) + multiset{(key, Last(columns))}
  }

  /** The column rows with a key in `keys`, each with its key. */
  ghost function Bearing(columns: seq<ColumnRow>, keys: set<TableKey>): multiset<(TableKey, ColumnMetadata)> {
    if columns == [] then multiset{}
    else Bearing(Front(columns), keys)
         + if KeyOfColumn(Last(columns)) in keys then multiset{(KeyOfColumn(Last(columns)), ToColumn(Last(columns)))}
           else multiset{}
  }

  /** The columns listed under any of the tables, each with the key of its table. */
  ghost function Placed(tables: seq<TableMetadata>): multiset<(TableKey, ColumnMetadata)> {
    if tables == [] then multiset{}
    else Placed(Front(tables)) + Tagged((Last(tables).schema, Last(tables).name), Last(tables).columns)
  }

  lemma TaggedAppend(columns: seq<ColumnRow>, key: TableKey)
    requires columns != []
    ensures var c := Last(columns);
            Tagged(key, Matching(columns, key)) ==
            Tagged(key, Matching(Front(columns), key))
            + if KeyOfColumn(c) == key then multiset{(key, ToColumn(c))} else multiset{}
  {
    var m, c := Matching(Front(columns), key), ToColumn(Last(columns));
    assert Front(m + [c]) == m;
  }

  lemma {:induction false} BearingInsert(columns: seq<ColumnRow>, keys: set<TableKey>, key: TableKey)
    requires key !in keys
    ensures Bearing(columns, keys + {key}) == Bearing(columns, keys) + Tagged(key, Matching(columns, key))
  {
    if columns != [] {
      BearingInsert(Front(columns), keys, key);
      TaggedAppend(columns, key);
      hide Matching, Tagged;
    }
  }

  lemma {:induction false} BearingNone(columns: seq<ColumnRow>)
    ensures Bearing(columns, {}) == multiset{}
  {
    if columns != [] {
      BearingNone(Front(columns));
    }
  }

  lemma DrainingAppend(tables: seq<TableRow>, t: TableRow, columns: seq<ColumnRow>)
    ensures var key := KeyOfTable(t);
            Placed(DrainingJoin(tables + [t], columns)) ==
            Placed(DrainingJoin(tables, columns))
            + if key in Keys(tables) then multiset{} else Tagged(key, Matching(columns, key))
  {
    hide Matching, Tagged, Keys;
    var all, key := tables + [t], KeyOfTable(t);
    forall j | 0 <= j < |tables| ensures KeyBefore(all, j) <==> KeyBefore(tables, j) {
      assert forall k :: 0 <= k <= j ==> tables[k] == all[k];
    }
    KeysOfPrefix(all, |tables|);
    assert all[..|tables|] == tables;
    var placed := ToTable(t, if key in Keys(tables) then [] else Matching(columns, key));
    assert DrainingJoin(all, columns) == DrainingJoin(tables, columns) + [placed];
    assert Front(DrainingJoin(all, columns)) == DrainingJoin(tables, columns);
    assert Tagged(key, []) == multiset{} by { NothingTagged(key); }
  }

  lemma NothingTagged(key: TableKey)
    ensures Tagged(key, []) == multiset{}
  {
  }

  /** Conservation, whatever the keys: what the tables list is, as a multiset, the column rows
      whose key belongs to some table, each under its own key. No such row is lost or listed
      twice, and the others are dropped. */
  lemma {:induction false} ColumnsConserved(tables: seq<TableRow>, columns: seq<ColumnRow>)
    ensures Placed(DrainingJoin(tables, columns)) == Bearing(columns, Keys(tables))
  {
    if tables == [] {
      assert Keys(tables) == {};
      BearingNone(columns);
    } else {
      hide Matching, Bearing, DrainingJoin, Placed, Tagged;
      var f, t := Front(tables), Last(tables);
      assert tables == f + [t];
      ColumnsConserved(f, columns);
      DrainingAppend(f, t, columns);
      assert Keys(tables) == Keys(f) + {KeyOfTable(t)};
      if KeyOfTable(t) in Keys(f) {
        assert Keys(tables) == Keys(f);
      } else {
        BearingInsert(columns, Keys(f), KeyOfTable(t));
      }
    }
  }

  // ---------- Index columns ----------

  /** The columns of an index from the comma-separated list the query produces. */
  function IndexColumns(columns: Option<string>): seq<string> {
    match columns
    case None => []
    case Some(list) => Split(list, ", ")
  }

  /** An index's column names survive the round trip through the list exactly if there are any
      and none of them contains the separator; a missing list means no columns. */
  lemma IndexColumnsExact(names: seq<string>)
    ensures IndexColumns(Some(Join(names, ", "))) == names <==>
            names != [] && forall n :: n in names ==> !Contains(n, ", ")
    ensures IndexColumns(None) == []
  {
    assert ", "[1..] == " ";
    SplitJoinExact(names, ", ");
  }

  // ---------- The first connection ----------

  const MAX_ATTEMPTS: nat := 6

  datatype Connection = Connected | Refused(error: string)

  /** Seconds waited after the failed attempt number `attempt` (counted from 1). */
  function Backoff(attempt: nat): nat
    requires attempt >= 1
  {
    Min(Pow2(attempt), 30)
  }

  /** Tries to connect, waiting longer after each failure; the answers of the database to the
      attempts 1, 2, ... are arbitrary. */
  method Connect(database: nat -> Connection) returns (result: Connection, attempts: nat, waits: seq<nat>)
    ensures 1 <= attempts <= 6
    ensures forall k :: 1 <= k < attempts ==> database(k).Refused?
    ensures result == database(attempts)
    ensures result.Refused? ==> attempts == 6
    ensures |waits| == attempts - 1
    ensures waits <= [2, 4, 8, 16, 30]
  {
    var backoff := 2;
    var lastError := "";
    var pool := false;
    attempts, waits := 0, [];
    for attempt := 1 to MAX_ATTEMPTS + 1
      invariant attempts == attempt - 1
      invariant !pool
      invariant forall k :: 1 <= k < attempt ==> database(k).Refused?
      invariant attempt > 1 ==> database(attempt - 1) == Refused(lastError)
      invariant attempt <= MAX_ATTEMPTS ==> backoff == Backoff(attempt)
      invariant |waits| == Min(attempt - 1, MAX_ATTEMPTS - 1)
      invariant forall k :: 0 <= k < |waits| ==> waits[k] == Backoff(k + 1)
    {
      attempts := attempts + 1;
      match database(attempt)
      case Connected =>
        pool := true;
        break;
      case Refused(error) =>
        lastError := error;
        if attempt < MAX_ATTEMPTS {
          waits := waits + [backoff];
          backoff := Min(backoff * 2, 30);
        }
    }
    result := if pool then Connected else Refused(lastError);
    assert Pow2(3) == 8 && Pow2(4) == 16 && Pow2(5) == 32;
  }
}
