/**
  python/Depends_Finder_DDL.py: reads a stored procedure, names it, collects
  the tables it reads and the columns it uses, and writes `CREATE TABLE`
  statements for the procedure and for each table, taking column types from
  the table scripts of a database repository.
*/
module DependsFinder {
  import opened Wrappers
  import opened Text
  import opened Dicts
  import opened LexOrder
  import opened SqlScan

  const UnknownProcedure: string := "Unknown_Procedure"
  const PlaceholderType: string := "VARCHAR(255)"
  const DefaultSchema: string := "dbo"

  /** The procedure's name, the tables it reads and the columns used per table. */
  datatype StoredProcedure = StoredProcedure(name: string, tables: set<string>, columns: map<string, set<string>>)

  /** The tables listed, without repeats. */
  lemma {:induction false} DistinctTablesBound(tables: seq<string>)
    ensures |set t | t in tables| <= |tables|
    decreases |tables|
  {
    if tables != [] {
      var init := tables[..|tables| - 1];
      DistinctTablesBound(init);
      assert (set t | t in tables) == (set t | t in init) + {tables[|tables| - 1]};
    }
  }

  /** `StoredProcedure(name, tables, columns)`: the tables are kept once each. */
  function NewStoredProcedure(name: string, tables: seq<string>, columns: map<string, set<string>>): (sp: StoredProcedure)
    ensures sp.name == name && sp.columns == columns
    ensures forall t :: t in sp.tables <==> t in tables
    ensures |sp.tables| <= |tables|
  {
    DistinctTablesBound(tables);
    StoredProcedure(name, (set t | t in tables), columns)
  }

  // ---------------------------------------------------------------------
  // extract_stored_procedure_name

  /**
    The name after the first `CREATE PROCEDURE`, with brackets taken off both
    ends (inner brackets and dots stay), or `Unknown_Procedure`.
  */
  function ExtractStoredProcedureName(sql: string): (name: string)
    ensures SearchProcedureName(sql).None? ==> name == UnknownProcedure
    ensures SearchProcedureName(sql).Some? ==>
              IsStripOf(name, ProcedureNameAt(sql, SearchProcedureName(sql).value).value, IsBracket)
    ensures forall k :: 0 <= k < |name| ==> IsNameChar(name[k])
  {
    match SearchProcedureName(sql)
    case None => UnknownProcedure
    case Some(pos) =>
      var g := ProcedureNameAt(sql, pos).value;
      var name := StripBrackets(g);
      assert forall k :: 0 <= k < |name| ==> name[k] in g;
      name
  }

  // ---------------------------------------------------------------------
  // extract_tables_and_columns

  function TableRefs(sql: string): (r: seq<TableRef>)
  {
    FindAllTableRefs(sql, 0)
  }

  /** `f"{db}.{schema}.{table}"` */
  function FullName(r: TableRef): (name: string)
  {
    r.db + "." + r.schema + "." + r.table
  }

  /** `alias or full_table_name` */
  function TableKey(r: TableRef): (key: string)
  {
    if r.alias != "" then r.alias else FullName(r)
  }

  /** The assignments `tables[alias or full_table_name] = full_table_name`, in order. */
  function AliasPairs(refs: seq<TableRef>): (ps: seq<(string, string)>)
    ensures |ps| == |refs|
    ensures forall k :: 0 <= k < |refs| ==> ps[k] == (TableKey(refs[k]), FullName(refs[k]))
  {
    seq(|refs|, k requires 0 <= k < |refs| => (TableKey(refs[k]), FullName(refs[k])))
  }

  /** The `tables` dict once every FROM/JOIN reference has been read. */
  function AliasMap(sql: string): (r: map<string, string>)
  {
    Assoc(AliasPairs(TableRefs(sql)))
  }

  /** `tables.get(alias, alias)` */
  function Resolve(tables: map<string, string>, alias: string): (r: string)
  {
    if alias in tables then tables[alias] else alias
  }

  /** The `alias.column` references of the first SELECT ... FROM span, or none. */
  function SelectRefs(sql: string): (r: seq<ColumnRef>)
  {
    match SearchSelectClause(sql)
    case None => []
    case Some(pos) => FindAllColumnRefs(SelectClauseAt(sql, pos).value, 0)
  }

  function JoinRefs(sql: string): (r: seq<JoinRef>)
  {
    FindAllJoinRefs(sql, 0)
  }

  /** The `columns[table].add(column)` that one reference causes. */
  function ColumnEntry(tables: map<string, string>, r: ColumnRef): (string, string)
  {
    (Resolve(tables, r.alias), StripBrackets(r.column))
  }

  function SelectEntries(tables: map<string, string>, refs: seq<ColumnRef>): (es: seq<(string, string)>)
    ensures |es| == |refs|
    ensures forall k :: 0 <= k < |refs| ==> es[k] == ColumnEntry(tables, refs[k])
  {
    seq(|refs|, k requires 0 <= k < |refs| => ColumnEntry(tables, refs[k]))
  }

  /** Each ON condition adds its left column, then its right one. */
  function JoinEntries(tables: map<string, string>, joins: seq<JoinRef>): (r: seq<(string, string)>)
    decreases |joins|
  {
    if joins == [] then []
    else
      var j := joins[|joins| - 1];
      JoinEntries(tables, joins[..|joins| - 1]) + [ColumnEntry(tables, j.left), ColumnEntry(tables, j.right)]
  }

  /** Every `columns[...].add(...)` of the procedure, in the order the script performs them. */
  function ColumnEntries(sql: string): (r: seq<(string, string)>)
  {
    var tables := AliasMap(sql);
    SelectEntries(tables, SelectRefs(sql)) + JoinEntries(tables, JoinRefs(sql))
  }

  /** The `columns` dict the extraction returns. */
  function Columns(sql: string): (r: map<string, set<string>>)
  {
    Group(ColumnEntries(sql))
  }

  /** The first loop: `tables[alias or full_table_name] = full_table_name` per reference. */
  method ReadTableRefs(refs: seq<TableRef>) returns (tables: map<string, string>)
    ensures tables == Assoc(AliasPairs(refs))
  {
    tables := map[];
    ghost var assignments := AliasPairs(refs);
    var i := 0;
    while i < |refs|
      invariant i <= |refs|
      invariant tables == Assoc(assignments[..i])
    {
      var r := refs[i];
      var fullTableName := r.db + "." + r.schema + "." + r.table;
      AssocSnoc(assignments[..i], assignments[i]);
      assert assignments[..i + 1] == assignments[..i] + [assignments[i]];
      tables := tables[if r.alias != "" then r.alias else fullTableName := fullTableName];
      i := i + 1;
    }
    assert assignments[..i] == assignments;
  }

  lemma SelectColumnsStep(tables: map<string, string>, refs: seq<ColumnRef>, j: nat, done: seq<(string, string)>)
    requires j < |refs|
    ensures Group(done + SelectEntries(tables, refs)[..j + 1])
         == AddTo(Group(done + SelectEntries(tables, refs)[..j]),
                  Resolve(tables, refs[j].alias), StripBrackets(refs[j].column))
  {
    var entries := SelectEntries(tables, refs);
    assert done + entries[..j + 1] == (done + entries[..j]) + [entries[j]];
    GroupSnoc(done + entries[..j], entries[j]);
  }

  /** The second loop: `columns[tables.get(alias, alias)].add(column)` per SELECT reference. */
  method AddSelectColumns(tables: map<string, string>, refs: seq<ColumnRef>, columns: map<string, set<string>>,
                          ghost done: seq<(string, string)>)
    returns (columns': map<string, set<string>>)
    requires columns == Group(done)
    ensures columns' == Group(done + SelectEntries(tables, refs))
  {
    columns' := columns;
    ghost var entries := SelectEntries(tables, refs);
    assert done + entries[..0] == done;
    var j := 0;
    while j < |refs|
      invariant j <= |refs|
      invariant columns' == Group(done + entries[..j])
    {
      SelectColumnsStep(tables, refs, j, done);
      columns' := AddTo(columns', Resolve(tables, refs[j].alias), StripBrackets(refs[j].column));
      j := j + 1;
    }
    assert entries[..j] == entries;
  }

  lemma JoinColumnsStep(tables: map<string, string>, joins: seq<JoinRef>, l: nat, done: seq<(string, string)>)
    requires l < |joins|
    ensures Group(done + JoinEntries(tables, joins[..l + 1]))
         == AddTo(AddTo(Group(done + JoinEntries(tables, joins[..l])),
                        Resolve(tables, joins[l].left.alias), StripBrackets(joins[l].left.column)),
                  Resolve(tables, joins[l].right.alias), StripBrackets(joins[l].right.column))
  {
    var entries := JoinEntries(tables, joins[..l]);
    var before := done + entries;
    var left := ColumnEntry(tables, joins[l].left);
    var right := ColumnEntry(tables, joins[l].right);
    assert joins[..l + 1][..l] == joins[..l];
    assert JoinEntries(tables, joins[..l + 1]) == entries + [left, right];
    assert done + (entries + [left, right]) == (before + [left]) + [right];
    GroupSnoc(before, left);
    GroupSnoc(before + [left], right);
  }

  /** The third loop: both columns of each ON condition, left first. */
  method AddJoinColumns(tables: map<string, string>, joins: seq<JoinRef>, columns: map<string, set<string>>,
                        ghost done: seq<(string, string)>)
    returns (columns': map<string, set<string>>)
    requires columns == Group(done)
    ensures columns' == Group(done + JoinEntries(tables, joins))
  {
    columns' := columns;
    assert done + JoinEntries(tables, joins[..0]) == done;
    var l := 0;
    while l < |joins|
      invariant l <= |joins|
      invariant columns' == Group(done + JoinEntries(tables, joins[..l]))
    {
      var leftTable := Resolve(tables, joins[l].left.alias);
      var rightTable := Resolve(tables, joins[l].right.alias);
      JoinColumnsStep(tables, joins, l, done);
      columns' := AddTo(columns', leftTable, StripBrackets(joins[l].left.column));
      columns' := AddTo(columns', rightTable, StripBrackets(joins[l].right.column));
      l := l + 1;
    }
    assert joins[..l] == joins;
  }

  /**
    `extract_tables_and_columns`: reads the FROM/JOIN references into the
    alias map, then the SELECT columns and the ON columns into the column
    groups, resolving aliases through the map. The text is taken as already
    formatted.
  */
  method ExtractTablesAndColumns(sql: string) returns (tableSet: set<string>, columns: map<string, set<string>>)
    ensures tableSet == AliasMap(sql).Values
    ensures columns == Columns(sql)
  {
    var tables := ReadTableRefs(FindAllTableRefs(sql, 0));
    var selectRefs := SelectRefs(sql);
    var joins := FindAllJoinRefs(sql, 0);
    columns := AddSelectColumns(tables, selectRefs, map[], []);
    assert [] + SelectEntries(tables, selectRefs) == SelectEntries(tables, selectRefs);
    columns := AddJoinColumns(tables, joins, columns, SelectEntries(tables, selectRefs));
    assert ColumnEntries(sql) == SelectEntries(tables, selectRefs) + JoinEntries(tables, joins);
    tableSet := tables.Values;
  }

  // Properties of the extraction

  /** `db.schema.table` with three non-empty word parts. */
  predicate IsQualifiedName(t: string)
  {
    var parts := Split(t, '.');
    |parts| == 3 && IsWord(parts[0]) && IsWord(parts[1]) && IsWord(parts[2])
  }

  /** A full name splits back into the three words it was built from. */
  lemma FullNameParts(r: TableRef)
    requires WellFormedTableRef(r)
    ensures Split(FullName(r), '.') == [r.db, r.schema, r.table]
  {
    WordHasNoBracket(r.db);
    WordHasNoBracket(r.schema);
    WordHasNoBracket(r.table);
    var parts := [r.db, r.schema, r.table];
    assert Join(".", parts) == FullName(r) by {
      assert parts[1..] == [r.schema, r.table];
      assert parts[1..][1..] == [r.table];
    }
    SplitJoin(parts, '.');
  }

  lemma AliasValues(refs: seq<TableRef>, t: string)
    ensures t in Assoc(AliasPairs(refs)).Values <==>
              exists i :: 0 <= i < |refs| && FullName(refs[i]) == t
                          && forall j :: i < j < |refs| ==> TableKey(refs[j]) != TableKey(refs[i])
  {
    var ps := AliasPairs(refs);
    if t in Assoc(ps).Values {
      var k :| k in Assoc(ps) && Assoc(ps)[k] == t;
      AssocEntryWritten(ps, k);
      var i :| 0 <= i < |ps| && ps[i] == (k, Assoc(ps)[k]) && forall j :: i < j < |ps| ==> ps[j].0 != k;
      assert FullName(refs[i]) == t;
      assert forall j :: i < j < |refs| ==> TableKey(refs[j]) != TableKey(refs[i]) by {
        forall j | i < j < |refs| ensures TableKey(refs[j]) != TableKey(refs[i]) {
          assert ps[j].0 != k;
        }
      }
    }
    if exists i :: 0 <= i < |refs| && FullName(refs[i]) == t
                   && forall j :: i < j < |refs| ==> TableKey(refs[j]) != TableKey(refs[i]) {
      var i :| 0 <= i < |refs| && FullName(refs[i]) == t
               && forall j :: i < j < |refs| ==> TableKey(refs[j]) != TableKey(refs[i]);
      assert forall j :: i < j < |ps| ==> ps[j].0 != ps[i].0;
      AssocLastWins(ps, i);
      assert Assoc(ps)[TableKey(refs[i])] == t;
    }
  }

  /**
    A name is in the table set exactly when some FROM/JOIN reference has
    that full name and no later reference uses the same alias (or, without
    an alias, the same full name): a later reference overwrites the entry,
    and the table it replaced drops out unless another entry still holds it.
  */
  lemma TableSetMembers(sql: string, t: string)
    ensures t in AliasMap(sql).Values <==>
              exists i :: 0 <= i < |TableRefs(sql)| && FullName(TableRefs(sql)[i]) == t
                          && forall j :: i < j < |TableRefs(sql)| ==> TableKey(TableRefs(sql)[j]) != TableKey(TableRefs(sql)[i])
  {
    AliasValues(TableRefs(sql), t);
  }

  /** An alias (or an unaliased full name) stands for the table of the last reference that set it. */
  lemma AliasLastWins(sql: string, i: nat)
    requires i < |TableRefs(sql)|
    requires forall j :: i < j < |TableRefs(sql)| ==> TableKey(TableRefs(sql)[j]) != TableKey(TableRefs(sql)[i])
    ensures TableKey(TableRefs(sql)[i]) in AliasMap(sql)
    ensures AliasMap(sql)[TableKey(TableRefs(sql)[i])] == FullName(TableRefs(sql)[i])
  {
    var ps := AliasPairs(TableRefs(sql));
    assert forall j :: i < j < |ps| ==> ps[j].0 != ps[i].0;
    AssocLastWins(ps, i);
  }

  /** The map's keys are exactly the aliases and unaliased full names that were read. */
  lemma AliasKeys(sql: string, a: string)
    ensures a in AliasMap(sql) <==> exists i :: 0 <= i < |TableRefs(sql)| && TableKey(TableRefs(sql)[i]) == a
  {
    var ps := AliasPairs(TableRefs(sql));
    AssocKeys(ps, a);
    if exists i :: 0 <= i < |ps| && ps[i].0 == a {
      var i :| 0 <= i < |ps| && ps[i].0 == a;
      assert TableKey(TableRefs(sql)[i]) == a;
    }
  }

  /** Every table found is written `db.schema.table`, three words. */
  lemma ExtractedTablesQualified(sql: string, t: string)
    requires t in AliasMap(sql).Values
    ensures IsQualifiedName(t)
  {
    TableSetMembers(sql, t);
    var refs := TableRefs(sql);
    var i :| 0 <= i < |refs| && FullName(refs[i]) == t
             && forall j :: i < j < |refs| ==> TableKey(refs[j]) != TableKey(refs[i]);
    FullNameParts(refs[i]);
  }

  /** The entry pair written by either side of an ON condition. */
  predicate FromJoin(tables: map<string, string>, j: JoinRef, e: (string, string))
  {
    e == ColumnEntry(tables, j.left) || e == ColumnEntry(tables, j.right)
  }

  lemma {:induction false} JoinEntriesMembers(tables: map<string, string>, joins: seq<JoinRef>, e: (string, string))
    ensures e in JoinEntries(tables, joins) <==> exists j :: j in joins && FromJoin(tables, j, e)
    decreases |joins|
  {
    if joins != [] {
      var n := |joins| - 1;
      var init := joins[..n];
      var last := joins[n];
      JoinEntriesMembers(tables, init, e);
      assert JoinEntries(tables, joins)
          == JoinEntries(tables, init) + [ColumnEntry(tables, last.left), ColumnEntry(tables, last.right)];
      var fromJoin := j => FromJoin(tables, j, e);
      ExistsSnoc(joins, fromJoin);
      assert forall j :: fromJoin(j) == FromJoin(tables, j, e);
    }
  }

  lemma SelectEntriesMembers(tables: map<string, string>, refs: seq<ColumnRef>, e: (string, string))
    ensures e in SelectEntries(tables, refs) <==> exists r :: r in refs && ColumnEntry(tables, r) == e
  {
  }

  /** Reference `r` puts column `c` under table `t`. */
  predicate NamesColumn(tables: map<string, string>, r: ColumnRef, t: string, c: string)
  {
    Resolve(tables, r.alias) == t && r.column == c
  }

  lemma EntryOfWordColumn(tables: map<string, string>, r: ColumnRef, t: string, c: string)
    requires IsWord(r.column)
    ensures ColumnEntry(tables, r) == (t, c) <==> NamesColumn(tables, r, t, c)
  {
    StripBracketsOfWord(r.column);
  }

  /** References as the scanners find them: aliases and columns are words. */
  predicate WordRefs(sel: seq<ColumnRef>, joins: seq<JoinRef>)
  {
    (forall r :: r in sel ==> IsWord(r.alias) && IsWord(r.column))
    && (forall j :: j in joins ==>
          IsWord(j.left.alias) && IsWord(j.left.column) && IsWord(j.right.alias) && IsWord(j.right.column))
  }

  lemma ScannedWordRefs(sql: string)
    ensures WordRefs(SelectRefs(sql), JoinRefs(sql))
  {
  }

  lemma SelectNamesColumn(tables: map<string, string>, sel: seq<ColumnRef>, t: string, c: string)
    requires forall r :: r in sel ==> IsWord(r.column)
    ensures (t, c) in SelectEntries(tables, sel) <==> exists r :: r in sel && NamesColumn(tables, r, t, c)
  {
    SelectEntriesMembers(tables, sel, (t, c));
    forall r | r in sel ensures ColumnEntry(tables, r) == (t, c) <==> NamesColumn(tables, r, t, c) {
      EntryOfWordColumn(tables, r, t, c);
    }
  }

  lemma JoinNamesColumn(tables: map<string, string>, joins: seq<JoinRef>, t: string, c: string)
    requires forall j :: j in joins ==> IsWord(j.left.column) && IsWord(j.right.column)
    ensures (t, c) in JoinEntries(tables, joins) <==>
              exists j :: j in joins && (NamesColumn(tables, j.left, t, c) || NamesColumn(tables, j.right, t, c))
  {
    JoinEntriesMembers(tables, joins, (t, c));
    forall j | j in joins
      ensures FromJoin(tables, j, (t, c)) <==> NamesColumn(tables, j.left, t, c) || NamesColumn(tables, j.right, t, c)
    {
      EntryOfWordColumn(tables, j.left, t, c);
      EntryOfWordColumn(tables, j.right, t, c);
    }
  }

  lemma GroupedColumns(tables: map<string, string>, sel: seq<ColumnRef>, joins: seq<JoinRef>, t: string, c: string)
    requires WordRefs(sel, joins)
    ensures var g := Group(SelectEntries(tables, sel) + JoinEntries(tables, joins));
            (t in g && c in g[t]) <==>
              (exists r :: r in sel && NamesColumn(tables, r, t, c))
              || (exists j :: j in joins && (NamesColumn(tables, j.left, t, c) || NamesColumn(tables, j.right, t, c)))
  {
    var es := SelectEntries(tables, sel);
    var js := JoinEntries(tables, joins);
    GroupMembership(es + js, t, c);
    assert (t, c) in es + js <==> (t, c) in es || (t, c) in js;
    SelectNamesColumn(tables, sel, t, c);
    JoinNamesColumn(tables, joins, t, c);
  }

  /**
    A column is recorded under a table exactly when a SELECT reference or a
    side of an ON condition names it through an alias that resolves to that
    table (or, when the alias is not in the map, through that very word).
    Column names are recorded as written.
  */
  lemma ColumnsFromReferences(sql: string, t: string, c: string)
    ensures (t in Columns(sql) && c in Columns(sql)[t]) <==>
              (exists r :: r in SelectRefs(sql) && NamesColumn(AliasMap(sql), r, t, c))
              || (exists j :: j in JoinRefs(sql) &&
                    (NamesColumn(AliasMap(sql), j.left, t, c) || NamesColumn(AliasMap(sql), j.right, t, c)))
  {
    var sel := SelectRefs(sql);
    var joins := JoinRefs(sql);
    ScannedWordRefs(sql);
    GroupedColumns(AliasMap(sql), sel, joins, t, c);
  }

  /** A reference that files a column under `t` names a table of the map, or an undeclared alias word. */
  lemma ResolvedKey(tables: map<string, string>, r: ColumnRef, t: string, c: string)
    requires IsWord(r.alias) && NamesColumn(tables, r, t, c)
    ensures t in tables.Values || (t !in tables && IsWord(t))
  {
  }

  lemma GroupedKeys(tables: map<string, string>, sel: seq<ColumnRef>, joins: seq<JoinRef>, t: string)
    requires WordRefs(sel, joins)
    requires t in Group(SelectEntries(tables, sel) + JoinEntries(tables, joins))
    ensures t in tables.Values || (t !in tables && IsWord(t))
  {
    var es := SelectEntries(tables, sel) + JoinEntries(tables, joins);
    GroupMembership(es, t, "");
    var i :| 0 <= i < |es| && es[i].0 == t;
    var c := es[i].1;
    GroupMembership(es, t, c);
    assert (t, c) == es[i];
    GroupedColumns(tables, sel, joins, t, c);
    if exists r :: r in sel && NamesColumn(tables, r, t, c) {
      var r :| r in sel && NamesColumn(tables, r, t, c);
      ResolvedKey(tables, r, t, c);
    } else {
      var j :| j in joins && (NamesColumn(tables, j.left, t, c) || NamesColumn(tables, j.right, t, c));
      if NamesColumn(tables, j.left, t, c) {
        ResolvedKey(tables, j.left, t, c);
      } else {
        ResolvedKey(tables, j.right, t, c);
      }
    }
  }

  /**
    Columns are grouped under a table found in the FROM/JOIN references or,
    when the alias was never declared, under the alias word itself.
  */
  lemma ColumnKeysResolved(sql: string, t: string)
    requires t in Columns(sql)
    ensures t in AliasMap(sql).Values || (t !in AliasMap(sql) && IsWord(t))
  {
    ScannedWordRefs(sql);
    GroupedKeys(AliasMap(sql), SelectRefs(sql), JoinRefs(sql), t);
  }

  lemma GroupedWords(tables: map<string, string>, sel: seq<ColumnRef>, joins: seq<JoinRef>, t: string, c: string)
    requires WordRefs(sel, joins)
    requires var g := Group(SelectEntries(tables, sel) + JoinEntries(tables, joins)); t in g && c in g[t]
    ensures IsWord(c)
  {
    GroupedColumns(tables, sel, joins, t, c);
    if exists r :: r in sel && NamesColumn(tables, r, t, c) {
      var r :| r in sel && NamesColumn(tables, r, t, c);
    } else {
      var j :| j in joins && (NamesColumn(tables, j.left, t, c) || NamesColumn(tables, j.right, t, c));
    }
  }

  /** Every recorded column name is a word, as the procedure wrote it. */
  lemma GroupedColumnsAreWords(sql: string, t: string, c: string)
    requires t in Columns(sql) && c in Columns(sql)[t]
    ensures IsWord(c)
  {
    var sel := SelectRefs(sql);
    var joins := JoinRefs(sql);
    ScannedWordRefs(sql);
    GroupedWords(AliasMap(sql), sel, joins, t, c);
  }

  // ---------------------------------------------------------------------
  // find_table_script_path

  /** The database, schema and table a name stands for. */
  datatype TableLocation = TableLocation(db: string, schema: string, table: string)

  /**
    Three dot-separated parts are database, schema and table; two are schema
    and table in the default database; any other count takes the first part
    as a table of the default database's `dbo` schema.
  */
  function LocateTable(tableName: string, defaultDB: string): (loc: TableLocation)
    ensures |Split(tableName, '.')| == 3 ==> loc.db + "." + loc.schema + "." + loc.table == tableName
    ensures |Split(tableName, '.')| == 2 ==> loc.db == defaultDB && loc.schema + "." + loc.table == tableName
    ensures |Split(tableName, '.')| !in {2, 3} ==> loc.db == defaultDB && loc.schema == DefaultSchema
    ensures |Split(tableName, '.')| == 1 ==> loc.table == tableName
    ensures |Split(tableName, '.')| > 3 ==>
              |loc.table| < |tableName| && tableName[..|loc.table| + 1] == loc.table + "."
    ensures '.' !in loc.table
  {
    var parts := Split(tableName, '.');
    JoinSplit(tableName, '.');
    if |parts| == 3 then
      assert parts[1..][1..] == [parts[2]];
      TableLocation(parts[0], parts[1], parts[2])
    else if |parts| == 2 then
      assert parts[1..] == [parts[1]];
      TableLocation(defaultDB, parts[0], parts[1])
    else
      assert |parts| > 3 ==> tableName == parts[0] + "." + Join(".", parts[1..]);
      TableLocation(defaultDB, DefaultSchema, parts[0])
  }

  /** A name built from three dot-free parts is located at exactly those parts. */
  lemma LocateQualifiedName(db: string, schema: string, table: string, defaultDB: string)
    requires '.' !in db && '.' !in schema && '.' !in table
    ensures LocateTable(db + "." + schema + "." + table, defaultDB) == TableLocation(db, schema, table)
  {
    var parts := [db, schema, table];
    assert Join(".", parts) == db + "." + schema + "." + table by {
      assert parts[1..] == [schema, table];
      assert parts[1..][1..] == [table];
    }
    SplitJoin(parts, '.');
  }

  /** `os.path.join(repo_path, db_name, schema, "Tables", f"{schema}.{table}.sql")`, as its segments. */
  function ScriptPath(repoPath: string, tableName: string, defaultDB: string): (r: seq<string>)
  {
    var loc := LocateTable(tableName, defaultDB);
    [repoPath, loc.db, loc.schema, "Tables", loc.schema + "." + loc.table + ".sql"]
  }

  /**
    Every table the extraction finds is looked up under the database and
    schema written in the procedure; the default database plays no part.
  */
  lemma ExtractedTableScriptPath(sql: string, t: string, repoPath: string, defaultDB: string)
    requires t in AliasMap(sql).Values
    ensures exists i :: 0 <= i < |TableRefs(sql)| && FullName(TableRefs(sql)[i]) == t
              && ScriptPath(repoPath, t, defaultDB)
                 == [repoPath, TableRefs(sql)[i].db, TableRefs(sql)[i].schema, "Tables",
                     TableRefs(sql)[i].schema + "." + TableRefs(sql)[i].table + ".sql"]
  {
    TableSetMembers(sql, t);
    var refs := TableRefs(sql);
    var i :| 0 <= i < |refs| && FullName(refs[i]) == t
             && forall j :: i < j < |refs| ==> TableKey(refs[j]) != TableKey(refs[i]);
    WordHasNoBracket(refs[i].db);
    WordHasNoBracket(refs[i].schema);
    WordHasNoBracket(refs[i].table);
    LocateQualifiedName(refs[i].db, refs[i].schema, refs[i].table, defaultDB);
  }

  // ---------------------------------------------------------------------
  // extract_column_data_types

  /** `" ".join(script.split()).replace(", NULL", "")` */
  function NormalizeScript(script: string): (r: string)
  {
    Replace(Join(" ", SplitWhitespace(script)), ", NULL", "")
  }

  /** The `[name] type` matches of a script, in order. */
  function ScriptDefs(script: string): (r: seq<ColumnDef>)
  {
    FindAllColumnDefs(NormalizeScript(script), 0)
  }

  /** The assignments `column_types[column_name] = data_type.strip()`, in order. */
  function TypePairs(defs: seq<ColumnDef>): (ps: seq<(string, string)>)
    ensures |ps| == |defs|
    ensures forall k :: 0 <= k < |defs| ==> ps[k] == (defs[k].name, Trim(defs[k].typeText))
  {
    seq(|defs|, k requires 0 <= k < |defs| => (defs[k].name, Trim(defs[k].typeText)))
  }

  /** The dict `extract_column_data_types` returns; no script or an empty one gives `{}`. */
  function ColumnTypes(script: Option<string>): (r: map<string, string>)
  {
    if script.None? || script.value == "" then map[]
    else Assoc(TypePairs(ScriptDefs(script.value)))
  }

  lemma TypePairsStep(defs: seq<ColumnDef>, i: nat)
    requires i < |defs|
    ensures Assoc(TypePairs(defs)[..i + 1]) == Assoc(TypePairs(defs)[..i])[defs[i].name := Trim(defs[i].typeText)]
  {
    var ps := TypePairs(defs);
    AssocSnoc(ps[..i], ps[i]);
    assert ps[..i + 1] == ps[..i] + [ps[i]];
  }

  method ExtractColumnDataTypes(script: Option<string>) returns (columnTypes: map<string, string>)
    ensures columnTypes == ColumnTypes(script)
  {
    if script.None? || script.value == "" {
      return map[];
    }
    columnTypes := map[];
    var normalizedScript := NormalizeScript(script.value);
    var matches := FindAllColumnDefs(normalizedScript, 0);
    var i := 0;
    while i < |matches|
      invariant i <= |matches|
      invariant columnTypes == Assoc(TypePairs(matches)[..i])
    {
      TypePairsStep(matches, i);
      columnTypes := columnTypes[matches[i].name := Trim(matches[i].typeText)];
      i := i + 1;
    }
    assert TypePairs(matches)[..i] == TypePairs(matches);
  }

  /**
    A type as the scripts record it: words, plain spaces (a pair of them can
    remain where `, NULL` was removed) and parentheses, with no space at
    either end (possibly empty).
  */
  predicate IsTypeText(t: string)
  {
    (forall k :: 0 <= k < |t| ==> IsWordChar(t[k]) || t[k] == ' ' || t[k] == '(' || t[k] == ')')
    && (t != [] ==> t[0] != ' ' && t[|t| - 1] != ' ')
  }

  /** The only whitespace left in a normalized script is the plain space. */
  lemma NormalizedSpaces(script: string)
    ensures forall k :: 0 <= k < |NormalizeScript(script)| ==>
              NormalizeScript(script)[k] == ' ' || !IsSpace(NormalizeScript(script)[k])
  {
    var joined := Join(" ", SplitWhitespace(script));
    JoinSpacesOnlySpace(SplitWhitespace(script));
    ReplaceByEmptyKeepsChars(joined, ", NULL");
  }

  lemma TrimmedType(t: string, n: string)
    requires TypeTextFrom(t, n)
    requires forall k :: 0 <= k < |n| ==> n[k] == ' ' || !IsSpace(n[k])
    ensures IsTypeText(Trim(t))
  {
  }

  /**
    Every recorded column is a bracketed word of the script, and its type is
    normalized text: words, plain spaces (a pair can remain where `, NULL`
    was removed) and parentheses, trimmed.
  */
  lemma ColumnTypesShape(script: Option<string>, c: string)
    requires c in ColumnTypes(script)
    ensures IsWord(c) && IsTypeText(ColumnTypes(script)[c])
  {
    var ps := TypePairs(ScriptDefs(script.value));
    AssocEntryWritten(ps, c);
    var i :| 0 <= i < |ps| && ps[i] == (c, Assoc(ps)[c]) && forall j :: i < j < |ps| ==> ps[j].0 != c;
    var defs := ScriptDefs(script.value);
    NormalizedSpaces(script.value);
    TrimmedType(defs[i].typeText, NormalizeScript(script.value));
  }

  lemma TypePairsLastWins(defs: seq<ColumnDef>, i: nat)
    requires i < |defs|
    requires forall j :: i < j < |defs| ==> defs[j].name != defs[i].name
    ensures defs[i].name in Assoc(TypePairs(defs)) && Assoc(TypePairs(defs))[defs[i].name] == Trim(defs[i].typeText)
  {
    var ps := TypePairs(defs);
    assert forall j :: i < j < |ps| ==> ps[j].0 != ps[i].0;
    AssocLastWins(ps, i);
  }

  /** A column declared more than once takes the trimmed type of its last declaration. */
  lemma ColumnTypesLastWins(script: string, i: nat)
    requires script != ""
    requires i < |ScriptDefs(script)|
    requires forall j :: i < j < |ScriptDefs(script)| ==> ScriptDefs(script)[j].name != ScriptDefs(script)[i].name
    ensures ScriptDefs(script)[i].name in ColumnTypes(Some(script))
    ensures ColumnTypes(Some(script))[ScriptDefs(script)[i].name] == Trim(ScriptDefs(script)[i].typeText)
  {
    TypePairsLastWins(ScriptDefs(script), i);
  }

  lemma TypePairsKeys(defs: seq<ColumnDef>, c: string)
    ensures c in Assoc(TypePairs(defs)) <==> exists i :: 0 <= i < |defs| && defs[i].name == c
  {
    var ps := TypePairs(defs);
    AssocKeys(ps, c);
    if exists i :: 0 <= i < |ps| && ps[i].0 == c {
      var i :| 0 <= i < |ps| && ps[i].0 == c;
      assert defs[i].name == c;
    }
  }

  /** A column is recorded exactly when the script declares it. */
  lemma ColumnTypesKeys(script: string, c: string)
    requires script != ""
    ensures c in ColumnTypes(Some(script)) <==> exists i :: 0 <= i < |ScriptDefs(script)| && ScriptDefs(script)[i].name == c
  {
    TypePairsKeys(ScriptDefs(script), c);
  }


  // ---------------------------------------------------------------------
  // generate_ddl_for_tables and generate_ddl_for_stored_proc

  /** The repository's files by path segments; a path that is absent does not exist or cannot be read. */
  type FileTree = map<seq<string>, string>

  /**
    The column types `generate_ddl_for_tables` uses for a table: none when
    its script is missing or has size 0, otherwise those of the stripped
    content (none when that is empty).
  */
  function ScriptColumnTypes(files: FileTree, repoPath: string, tableName: string, defaultDB: string): (r: map<string, string>)
  {
    var path := ScriptPath(repoPath, tableName, defaultDB);
    if path !in files || files[path] == "" then map[]
    else
      var content := Trim(files[path]);
      ColumnTypes(if content == "" then None else Some(content))
  }

  /** `f"    {col} {column_types.get(col, 'VARCHAR(255)')}"` */
  function ColumnLine(column: string, types: map<string, string>): (r: string)
  {
    "    " + column + " " + (if column in types then types[column] else PlaceholderType)
  }

  function ColumnLines(columns: seq<string>, types: map<string, string>): (lines: seq<string>)
    ensures |lines| == |columns|
    ensures forall k :: 0 <= k < |columns| ==> lines[k] == ColumnLine(columns[k], types)
  {
    seq(|columns|, k requires 0 <= k < |columns| => ColumnLine(columns[k], types))
  }

  /** `CREATE TABLE name (`, the lines joined by `,\n` and closed by `\n);`, or just `);` when there are none. */
  function CreateTable(name: string, lines: seq<string>): (r: string)
  {
    "CREATE TABLE " + name + " (\n" + (if lines != [] then Join(",\n", lines) + "\n);" else ");")
  }

  /** `columns.get(table, [])` */
  function ColumnsOf(columns: map<string, set<string>>, table: string): (r: set<string>)
  {
    if table in columns then columns[table] else {}
  }

  function TableStatement(files: FileTree, repoPath: string, defaultDB: string,
                          columns: map<string, set<string>>, table: string): (r: string)
  {
    CreateTable(table, ColumnLines(Sorted(ColumnsOf(columns, table)), ScriptColumnTypes(files, repoPath, table, defaultDB)))
  }

  function TableStatements(files: FileTree, repoPath: string, defaultDB: string,
                           columns: map<string, set<string>>, order: seq<string>): (statements: seq<string>)
    ensures |statements| == |order|
    ensures forall k :: 0 <= k < |order| ==> statements[k] == TableStatement(files, repoPath, defaultDB, columns, order[k])
  {
    seq(|order|, k requires 0 <= k < |order| => TableStatement(files, repoPath, defaultDB, columns, order[k]))
  }

  /** One statement per table in ascending order, separated by blank lines. */
  function TablesDdl(files: FileTree, repoPath: string, defaultDB: string,
                     tables: set<string>, columns: map<string, set<string>>): (r: string)
  {
    Join("\n\n", TableStatements(files, repoPath, defaultDB, columns, Sorted(tables)))
  }

  method GenerateDdlForTables(repoPath: string, defaultDB: string, files: FileTree,
                              tables: set<string>, columns: map<string, set<string>>)
    returns (ddl: string)
    ensures ddl == TablesDdl(files, repoPath, defaultDB, tables, columns)
  {
    var ddlStatements: seq<string> := [];
    var order := Sorted(tables);
    var i := 0;
    while i < |order|
      invariant i <= |order|
      invariant |ddlStatements| == i
      invariant forall k :: 0 <= k < i ==> ddlStatements[k] == TableStatement(files, repoPath, defaultDB, columns, order[k])
    {
      var table := order[i];
      var scriptPath := ScriptPath(repoPath, table, defaultDB);
      var columnTypes: map<string, string> := map[];
      if scriptPath in files && files[scriptPath] != "" {
        var createTableScript := Trim(files[scriptPath]);
        columnTypes := ExtractColumnDataTypes(if createTableScript == "" then None else Some(createTableScript));
      }
      assert columnTypes == ScriptColumnTypes(files, repoPath, table, defaultDB);
      var colDefs := ColumnLines(Sorted(ColumnsOf(columns, table)), columnTypes);
      var statement := CreateTable(table, colDefs);
      assert statement == TableStatement(files, repoPath, defaultDB, columns, table);
      ddlStatements := ddlStatements + [statement];
      i := i + 1;
    }
    assert ddlStatements == TableStatements(files, repoPath, defaultDB, columns, order);
    ddl := Join("\n\n", ddlStatements);
  }

  /** `f"    {table} TABLE"` for each table, in ascending order. */
  function TableColumnLines(tables: set<string>): (lines: seq<string>)
    ensures |lines| == |tables|
  {
    var order := Sorted(tables);
    seq(|order|, k requires 0 <= k < |order| => "    " + order[k] + " TABLE")
  }

  /** A table named after the procedure, with one `TABLE` column per table it reads. */
  function GenerateDdlForStoredProc(spName: string, referencedTables: set<string>): (r: string)
  {
    CreateTable(spName, TableColumnLines(referencedTables)) + "\n"
  }

  // Properties of the generated text

  /** The lines of a statement: every one but the last column line carries a comma. */
  function WithCommas(lines: seq<string>): (r: seq<string>)
    ensures |r| == |lines|
  {
    seq(|lines|, k requires 0 <= k < |lines| => if k < |lines| - 1 then lines[k] + "," else lines[k])
  }

  lemma {:induction false} JoinWithCommas(lines: seq<string>)
    requires lines != []
    ensures Join(",\n", lines) == Join("\n", WithCommas(lines))
    decreases |lines|
  {
    if |lines| > 1 {
      JoinWithCommas(lines[1..]);
      assert WithCommas(lines)[1..] == WithCommas(lines[1..]);
      assert WithCommas(lines)[0] == lines[0] + ",";
    }
  }

  predicate NoNewline(s: string)
  {
    '\n' !in s
  }

  /** A statement's lines: the header, the column lines with their commas, the closing line. */
  function StatementLines(name: string, lines: seq<string>): (r: seq<string>)
    ensures |r| == |lines| + 2
  {
    ["CREATE TABLE " + name + " ("] + WithCommas(lines) + [");"]
  }

  lemma CreateTableJoin(name: string, lines: seq<string>)
    ensures CreateTable(name, lines) == Join("\n", StatementLines(name, lines))
  {
    var header := "CREATE TABLE " + name + " (";
    var parts := StatementLines(name, lines);
    if lines == [] {
      assert parts == [header, ");"];
      assert parts[1..] == [");"];
    } else {
      JoinWithCommas(lines);
      JoinSnoc("\n", WithCommas(lines), ");");
      assert parts[1..] == WithCommas(lines) + [");"];
    }
  }

  lemma StatementLinesNoNewline(name: string, lines: seq<string>)
    requires NoNewline(name) && forall k :: 0 <= k < |lines| ==> NoNewline(lines[k])
    ensures forall k :: 0 <= k < |lines| + 2 ==> '\n' !in StatementLines(name, lines)[k]
  {
  }

  /**
    A statement is a header line, one line per column with a comma after all
    but the last, and a closing `);` line.
  */
  lemma CreateTableLines(name: string, lines: seq<string>)
    requires NoNewline(name) && forall k :: 0 <= k < |lines| ==> NoNewline(lines[k])
    ensures Split(CreateTable(name, lines), '\n') == StatementLines(name, lines)
  {
    CreateTableJoin(name, lines);
    StatementLinesNoNewline(name, lines);
    SplitJoin(StatementLines(name, lines), '\n');
  }

  lemma StoredProcDdlJoin(spName: string, tables: set<string>)
    ensures GenerateDdlForStoredProc(spName, tables) == Join("\n", StatementLines(spName, TableColumnLines(tables)) + [""])
  {
    var lines := TableColumnLines(tables);
    CreateTableJoin(spName, lines);
    JoinSnoc("\n", StatementLines(spName, lines), "");
  }

  lemma TableColumnLinesNoNewline(tables: set<string>)
    requires forall t :: t in tables ==> NoNewline(t)
    ensures forall k :: 0 <= k < |TableColumnLines(tables)| ==> NoNewline(TableColumnLines(tables)[k])
  {
    var lines := TableColumnLines(tables);
    var order := Sorted(tables);
    forall k | 0 <= k < |lines| ensures NoNewline(lines[k]) {
      assert order[k] in tables;
    }
  }

  /** Splitting text that ends in a newline gives its lines and a last, empty piece. */
  lemma SplitLinesTrailing(parts: seq<string>)
    requires forall k :: 0 <= k < |parts| ==> '\n' !in parts[k]
    ensures Split(Join("\n", parts + [""]), '\n') == parts + [""]
  {
    assert forall k :: 0 <= k < |parts + [""]| ==> '\n' !in (parts + [""])[k];
    SplitJoin(parts + [""], '\n');
  }

  /**
    The procedure's statement: a header, one `TABLE` line per referenced
    table in ascending order with commas between, the closing line and a
    final newline; with no tables it is `CREATE TABLE name (\n);\n`.
  */
  lemma StoredProcDdlLines(spName: string, tables: set<string>)
    requires NoNewline(spName) && forall t :: t in tables ==> NoNewline(t)
    ensures Split(GenerateDdlForStoredProc(spName, tables), '\n')
            == StatementLines(spName, TableColumnLines(tables)) + [""]
    ensures forall k :: 0 <= k < |tables| ==> TableColumnLines(tables)[k] == "    " + Sorted(tables)[k] + " TABLE"
  {
    TableColumnLinesNoNewline(tables);
    StatementLinesNoNewline(spName, TableColumnLines(tables));
    StoredProcDdlJoin(spName, tables);
    SplitLinesTrailing(StatementLines(spName, TableColumnLines(tables)));
  }

  /**
    With no script, a script of size 0 or one that is blank once stripped,
    every column of the table gets `VARCHAR(255)`.
  */
  lemma MissingScriptPlaceholders(files: FileTree, repoPath: string, defaultDB: string,
                                  columns: map<string, set<string>>, table: string)
    requires var path := ScriptPath(repoPath, table, defaultDB);
             path !in files || Trim(files[path]) == ""
    ensures var order := Sorted(ColumnsOf(columns, table));
            TableStatement(files, repoPath, defaultDB, columns, table)
            == CreateTable(table, seq(|order|, k requires 0 <= k < |order| => "    " + order[k] + " " + PlaceholderType))
  {
    var order := Sorted(ColumnsOf(columns, table));
    assert ScriptColumnTypes(files, repoPath, table, defaultDB) == map[];
    assert ColumnLines(order, map[])
        == seq(|order|, k requires 0 <= k < |order| => "    " + order[k] + " " + PlaceholderType);
  }

  /** A script that exists and is not blank once stripped supplies the types of its stripped content. */
  lemma ScriptTypesFromContent(files: FileTree, repoPath: string, defaultDB: string, table: string)
    requires ScriptPath(repoPath, table, defaultDB) in files
    requires Trim(files[ScriptPath(repoPath, table, defaultDB)]) != ""
    ensures ScriptColumnTypes(files, repoPath, table, defaultDB)
            == ColumnTypes(Some(Trim(files[ScriptPath(repoPath, table, defaultDB)])))
  {
  }

  /** A column the script declares is written with the trimmed type of its last declaration. */
  lemma DeclaredColumnLine(script: string, column: string, i: nat)
    requires script != ""
    requires i < |ScriptDefs(script)| && ScriptDefs(script)[i].name == column
    requires forall j :: i < j < |ScriptDefs(script)| ==> ScriptDefs(script)[j].name != column
    ensures ColumnLine(column, ColumnTypes(Some(script))) == "    " + column + " " + Trim(ScriptDefs(script)[i].typeText)
  {
    ColumnTypesLastWins(script, i);
  }

  /** A column the script does not declare is written with `VARCHAR(255)`. */
  lemma UndeclaredColumnLine(script: string, column: string)
    requires script != ""
    requires forall i :: 0 <= i < |ScriptDefs(script)| ==> ScriptDefs(script)[i].name != column
    ensures ColumnLine(column, ColumnTypes(Some(script))) == "    " + column + " " + PlaceholderType
  {
    ColumnTypesKeys(script, column);
  }

  /** Only the column groups of the tables being written matter. */
  lemma TablesDdlIgnoresOtherGroups(files: FileTree, repoPath: string, defaultDB: string, tables: set<string>,
                                    columns1: map<string, set<string>>, columns2: map<string, set<string>>)
    requires forall t :: t in tables ==> ColumnsOf(columns1, t) == ColumnsOf(columns2, t)
    ensures TablesDdl(files, repoPath, defaultDB, tables, columns1) == TablesDdl(files, repoPath, defaultDB, tables, columns2)
  {
    var order := Sorted(tables);
    var s1 := TableStatements(files, repoPath, defaultDB, columns1, order);
    var s2 := TableStatements(files, repoPath, defaultDB, columns2, order);
    forall k | 0 <= k < |order| ensures s1[k] == s2[k] {
      assert order[k] in tables;
    }
    assert s1 == s2;
  }

  lemma FullNameOneLine(r: TableRef)
    requires WellFormedTableRef(r)
    ensures NoNewline(FullName(r))
  {
  }

  /** A table name extracted from a procedure never holds a line break. */
  lemma TableNameOneLine(sql: string, t: string)
    requires t in AliasMap(sql).Values
    ensures NoNewline(t)
  {
    TableSetMembers(sql, t);
    var refs := TableRefs(sql);
    var i :| 0 <= i < |refs| && FullName(refs[i]) == t
             && forall j :: i < j < |refs| ==> TableKey(refs[j]) != TableKey(refs[i]);
    FullNameOneLine(refs[i]);
  }

  /**
    The statement written for a procedure: its name in the header, then one
    `TABLE` line per table it reads, ascending, then `);` and a newline.
  */
  lemma ProcedureDdlOfExtraction(sql: string)
    ensures var ddl := GenerateDdlForStoredProc(ExtractStoredProcedureName(sql), AliasMap(sql).Values);
            Split(ddl, '\n') == StatementLines(ExtractStoredProcedureName(sql), TableColumnLines(AliasMap(sql).Values)) + [""]
  {
    forall t | t in AliasMap(sql).Values ensures NoNewline(t) {
      TableNameOneLine(sql, t);
    }
    StoredProcDdlLines(ExtractStoredProcedureName(sql), AliasMap(sql).Values);
  }
}
