# SQL dependency scraper and Mermaid dependency graph, in Dafny

This project models the two Python scripts of the repository.

**`python/Depends_Finder_DDL.py`** reads the text of a SQL Server stored procedure and does four things:

- It finds the procedure's name after `CREATE PROCEDURE`.
- It collects the `db.schema.table` names the procedure reads after `FROM` or `JOIN`, with their `AS` aliases.
- It collects the `alias.column` references of the first `SELECT … FROM` span and of every `ON a.x = b.y` condition, filing each column under the table its alias stands for.
- It writes `CREATE TABLE` text:
  - one statement for the procedure, with one `TABLE` column per table;
  - one statement per table, whose column types come from the table's `CREATE TABLE` script in a database repository laid out as `{repo}/{db}/{schema}/Tables/{schema}.{table}.sql`, with `VARCHAR(255)` when no type is known.

**`python/XML_Depends_V3.py`** reads a dependency report in XML and writes a Mermaid `graph TD;` script. It makes three passes over the objects:

1. Named objects get the ids `obj_1, obj_2, …`.
2. Texts of `UnresolvedObject` elements that name no known object get the ids `unresolved_1, …` and a node each. A name under `Uses/Object` that names no object gets no id, no node and no edge.
3. Each object with an id gets a node and an edge to every known name in its first `Uses` block.

## How the model is built

Modules, one per concern:

- `Wrappers` — `Option`.
- `Text` — Python's string operations: `\w`, the `isspace` set, `strip`, `split`, `join`, `replace`, and decimal formatting of counters.
- `Dicts`:
  - a dict filled by assignments in order, where the last write to a key wins;
  - a `defaultdict(set)` filled by `add`.
- `LexOrder` — Python's ordering of `str` and `sorted` on a set of strings.
- `SqlScan` — one scanner per regular expression of the DDL script. `Leftmost` gives `re.search` semantics (the leftmost match). `FindAll` gives `re.findall` semantics (leftmost, non-overlapping, left to right), once for all four `findall` patterns. Both spots where the regex engine backtracks are written out:
  - `SELECT\s+(.*?)\s+FROM` can match with an empty group;
  - `\[(\w+)\]\s+([\w\s()]+)` can give one whitespace character back to the type group.
- `DependsFinder` — the DDL script.
- `XmlDepends` — the Mermaid script.

Each loop of the sources becomes a method with a `while` loop and invariants. Its postcondition ties the result to a specification function:

- `ReadTableRefs`, `AddSelectColumns` and `AddJoinColumns` fill the `tables` dict and the `columns` groups. `ExtractTablesAndColumns` runs the three.
- `ExtractColumnDataTypes` fills `column_types`.
- `GenerateDdlForTables` appends one statement per table.
- In the XML script:
  - `AssignObjectIds`, `AddUnresolvedNodes` and `AddObjectLines` are the three passes, with `AddObjectAndEdges` and `AddEdges` for one object;
  - `BuildMermaid` runs them and joins the lines.

Lemmas then state what those functions mean.

The repository's files are a `FileTree`: a map from path segments to file content. A path that is absent stands for a file that does not exist or cannot be decoded. The script reads the default database from a module-level variable; here it is a parameter.

The parsed XML is a sequence of `ObjectElem` values, one per element that `.//Object` finds, in document order. Each holds:

- the text of its first `Name` child, if any;
- its `Uses` blocks, each with the texts of its `Object` and `UnresolvedObject` children.

Because ElementTree walks the tree in preorder, `.//Object/Uses/UnresolvedObject` yields the unresolved texts grouped object by object in that same order. That grouping is `UnresolvedTexts`.

The code recognises less than its comments and docstrings promise, and the model follows the code:

- The table pattern needs all three dotted parts and an explicit `AS` before an alias. One- and two-part names and bare aliases are not recognised.
- A type such as `DECIMAL(18,2)` stops at the comma, because the type group only accepts word characters, whitespace and parentheses.

## Model

| member | source | states |
|---|---|---|
| DependsFinder.NewStoredProcedure | python/Depends_Finder_DDL.py:10-13 | the record keeps the name and the columns, and holds each listed table once: the same members as the list, never more of them |
| DependsFinder.ExtractStoredProcedureName | python/Depends_Finder_DDL.py:25-28 | `Unknown_Procedure` when no `CREATE PROCEDURE` name occurs; otherwise the first such name with every leading and trailing bracket removed and nothing else; always made of word characters, dots and brackets |
| SqlScan.SearchProcedureName | python/Depends_Finder_DDL.py:27 | the position found is the leftmost match of the pattern, and no position matches when none is found |
| SqlScan.ProcedureNameAt | python/Depends_Finder_DDL.py:27 | a captured name is non-empty and made of word characters, dots and brackets |
| Text.Strip | python/Depends_Finder_DDL.py:28 | the result is the input with a prefix and a suffix of stripped characters removed, neither end of it is such a character, and it holds only characters of the input |
| SqlScan.TableRefAt | python/Depends_Finder_DDL.py:45-51 | a reference found consumes at least one character and has three word parts and an alias that is empty or a word |
| SqlScan.FindAllTableRefs | python/Depends_Finder_DDL.py:54 | every reference `findall` returns has three word parts and an empty or word alias |
| SqlScan.FindAll | python/Depends_Finder_DDL.py:54 | `re.findall` for every pattern: no contract of its own; what it returns is stated by `FindAllSound` and `FindAllLeftmost` |
| SqlScan.FindAllSound | python/Depends_Finder_DDL.py:54 | every element `findall` returns is what the pattern captures at some position from the start on |
| SqlScan.FindAllHolds | python/Depends_Finder_DDL.py:54 | a property every match of the pattern has holds of every element `findall` returns |
| SqlScan.FindAllLeftmost | python/Depends_Finder_DDL.py:54 | `findall` is empty iff the pattern matches nowhere from the start on; otherwise it is the leftmost match followed by `findall` from where that match ends |
| SqlScan.FindAllEmpty | python/Depends_Finder_DDL.py:54 | `findall` is empty iff the pattern matches at no position from the start on |
| SqlScan.FindAllFirst | python/Depends_Finder_DDL.py:54 | `findall` opens with the match at the first matching position and continues from where that match ends |
| SqlScan.FindAllTableRefsLeftmost | python/Depends_Finder_DDL.py:45-54 | the table references are empty iff the table pattern matches nowhere; otherwise they are the leftmost match followed by the references from its end |
| SqlScan.FindAllTableRefsSound | python/Depends_Finder_DDL.py:45-54 | every table reference in the list is what the table pattern captures at some position of the text |
| DependsFinder.ReadTableRefs | python/Depends_Finder_DDL.py:53-57 | the loop leaves the dict that the assignments `alias or full name := full name`, in order, produce |
| DependsFinder.AddSelectColumns | python/Depends_Finder_DDL.py:63-67 | the loop adds exactly the entries of the SELECT references, aliases resolved through the map, to the groups it started from |
| DependsFinder.AddJoinColumns | python/Depends_Finder_DDL.py:70-75 | the loop adds the left and then the right column of each ON condition, aliases resolved, to the groups it started from |
| DependsFinder.ExtractTablesAndColumns | python/Depends_Finder_DDL.py:31-77 | the table set is the set of values of the alias map, and the column groups are those of the SELECT entries followed by the ON entries |
| DependsFinder.FullNameParts | python/Depends_Finder_DDL.py:56 | a full name splits on dots back into the database, schema and table it was built from |
| DependsFinder.TableSetMembers | python/Depends_Finder_DDL.py:54-77 | a name is in the table set iff some reference has that full name and no later reference uses the same alias or unaliased name: a table overwritten under its key drops out |
| DependsFinder.AliasValues | python/Depends_Finder_DDL.py:54-57 | for any list of references, a name is a value of the alias map iff some reference has that full name and no later one shares its key |
| DependsFinder.AliasLastWins | python/Depends_Finder_DDL.py:57 | an alias or unaliased name stands for the table of the last reference that set it |
| DependsFinder.AliasKeys | python/Depends_Finder_DDL.py:57 | the alias map's keys are exactly the aliases, and the full names of unaliased references |
| DependsFinder.ExtractedTablesQualified | python/Depends_Finder_DDL.py:45-56 | every table found is three non-empty words joined by two dots, with no brackets |
| SqlScan.SearchSelectClause | python/Depends_Finder_DDL.py:61 | the SELECT span used is the leftmost match, and none exists when it is absent |
| SqlScan.FirstFromAfterSpace | python/Depends_Finder_DDL.py:61 | the lazy group ends at the first position followed by whitespace and FROM, or no such position exists |
| SqlScan.SelectClauseAt | python/Depends_Finder_DDL.py:61 | a group found at a position is preceded by SELECT and whitespace and followed by whitespace and FROM, and no whitespace-then-FROM starts inside it, as the lazy group requires; this covers the empty group left when `\s+` gives back a character |
| SqlScan.SelectGroupBeforeFrom | python/Depends_Finder_DDL.py:61 | after SELECT and whitespace, the text up to the first whitespace-then-FROM is a group the pattern can match |
| SqlScan.SelectGroupEmpty | python/Depends_Finder_DDL.py:61 | after SELECT, a whitespace run of two or more characters that FROM ends leaves the empty group once `\s+` gives back its last character |
| SqlScan.FindAllColumnRefs | python/Depends_Finder_DDL.py:60-65 | every `alias.column` reference found is two words |
| SqlScan.ColumnRefAt | python/Depends_Finder_DDL.py:60 | a match consumes at least one character and captures a word alias and a word column |
| SqlScan.FindAllColumnRefsLeftmost | python/Depends_Finder_DDL.py:60-64 | the `alias.column` references are empty iff the pattern matches nowhere in the clause; otherwise they are the leftmost match followed by the references from its end |
| SqlScan.FindAllColumnRefsSound | python/Depends_Finder_DDL.py:60-64 | every `alias.column` reference in the list is what the pattern captures at some position of the clause |
| SqlScan.FindAllJoinRefs | python/Depends_Finder_DDL.py:70-71 | every ON condition found names two word aliases and two word columns |
| SqlScan.JoinRefAt | python/Depends_Finder_DDL.py:70 | a match consumes at least one character and captures four words: alias and column on each side of `=` |
| SqlScan.FindAllJoinRefsLeftmost | python/Depends_Finder_DDL.py:70-71 | the ON conditions are empty iff the pattern matches nowhere; otherwise they are the leftmost match followed by the conditions from its end |
| SqlScan.FindAllJoinRefsSound | python/Depends_Finder_DDL.py:70-71 | every ON condition in the list is what the pattern captures at some position of the text |
| DependsFinder.SelectEntriesMembers | python/Depends_Finder_DDL.py:65-67 | an entry comes from the SELECT list iff some reference in it produces that entry |
| DependsFinder.JoinEntriesMembers | python/Depends_Finder_DDL.py:71-75 | an entry comes from the ON conditions iff the left or the right side of some condition produces it |
| DependsFinder.GroupedColumns | python/Depends_Finder_DDL.py:59-75 | a column is grouped under a table iff a SELECT reference or a side of an ON condition names it through an alias resolving to that table |
| DependsFinder.ColumnsFromReferences | python/Depends_Finder_DDL.py:59-75 | the same for a whole procedure: column `c` is under table `t` iff a SELECT reference or an ON side names `c` through an alias that resolves to `t`, an unknown alias standing for itself |
| DependsFinder.ColumnKeysResolved | python/Depends_Finder_DDL.py:66-75 | each group is keyed by a table of the table set or by an alias word never declared |
| DependsFinder.GroupedColumnsAreWords | python/Depends_Finder_DDL.py:67-75 | every recorded column is a word, exactly as the procedure wrote it |
| DependsFinder.LocateTable | python/Depends_Finder_DDL.py:85-91 | three parts give database, schema and table as written; two give the default database and the name as schema and table; any other count gives the default database, `dbo`, and the text before the first dot |
| DependsFinder.LocateQualifiedName | python/Depends_Finder_DDL.py:86-87 | a name of three dot-free parts is located at exactly those parts |
| DependsFinder.ExtractedTableScriptPath | python/Depends_Finder_DDL.py:93 | every table found is looked up at `[repo, db, schema, "Tables", schema.table.sql]` for the database and schema written in the procedure, whatever the default database |
| DependsFinder.ScriptPath | python/Depends_Finder_DDL.py:93 | the segments of the script path of a table: no contract of its own; `LocateTable`, `LocateQualifiedName` and `ExtractedTableScriptPath` state which database, schema and table it uses |
| SqlScan.FindAllColumnDefs | python/Depends_Finder_DDL.py:120-123 | every `[name] type` match has a word name and a type of word characters, whitespace and parentheses taken from the script |
| SqlScan.ColumnDefAt | python/Depends_Finder_DDL.py:120 | a match consumes at least one character, captures a word name and a non-empty type of word characters, whitespace and parentheses taken from the script |
| SqlScan.FindAllColumnDefsLeftmost | python/Depends_Finder_DDL.py:120-123 | the column definitions are empty iff the pattern matches nowhere in the script; otherwise they are the leftmost match followed by the definitions from its end |
| SqlScan.FindAllColumnDefsSound | python/Depends_Finder_DDL.py:120-123 | every column definition in the list is what the pattern captures at some position of the script |
| DependsFinder.ExtractColumnDataTypes | python/Depends_Finder_DDL.py:105-135 | the loop leaves the dict the column definitions produce in order; no script, or an empty one, gives `{}` |
| DependsFinder.ColumnTypes | python/Depends_Finder_DDL.py:105-135 | the dict `extract_column_data_types` returns: no contract of its own; `ColumnTypesKeys`, `ColumnTypesLastWins` and `ColumnTypesShape` state its keys and values, and `ExtractColumnDataTypes` is proved to compute it |
| DependsFinder.NormalizedSpaces | python/Depends_Finder_DDL.py:114 | after whitespace is collapsed and `, NULL` removed, the only whitespace left is the plain space |
| DependsFinder.TrimmedType | python/Depends_Finder_DDL.py:129 | a stripped type group taken from a normalized script is a type text |
| DependsFinder.ColumnTypesShape | python/Depends_Finder_DDL.py:120-129 | every key is a word, and every type holds only word characters, plain spaces and parentheses, with no space at either end; a pair of spaces can remain where `, NULL` was removed |
| DependsFinder.ColumnTypesLastWins | python/Depends_Finder_DDL.py:127-129 | a column declared more than once takes the stripped type of its last declaration |
| DependsFinder.TypePairsLastWins | python/Depends_Finder_DDL.py:127-129 | for any list of definitions, a column takes the stripped type of its last definition |
| DependsFinder.ColumnTypesKeys | python/Depends_Finder_DDL.py:127-129 | a column has a type iff the script declares it |
| DependsFinder.GenerateDdlForTables | python/Depends_Finder_DDL.py:138-179 | the loop writes one statement per table, in ascending order, and joins them with blank lines |
| DependsFinder.TablesDdl | python/Depends_Finder_DDL.py:138-179 | the text `generate_ddl_for_tables` returns: no contract of its own; `CreateTableJoin`, `CreateTableLines`, `DeclaredColumnLine`, `UndeclaredColumnLine` and `TablesDdlIgnoresOtherGroups` state its content, and `GenerateDdlForTables` is proved to compute it |
| DependsFinder.ScriptColumnTypes | python/Depends_Finder_DDL.py:146-160 | the types used for one table: no contract of its own; `MissingScriptPlaceholders` and `ScriptTypesFromContent` state them for a missing, blank or present script |
| LexOrder.Sorted | python/Depends_Finder_DDL.py:145 | `sorted` of a set lists each member once, in strictly ascending order, and nothing else |
| LexOrder.SortedUnique | python/Depends_Finder_DDL.py:174 | only one strictly ascending sequence has a given set of members, so the order is fully determined |
| DependsFinder.MissingScriptPlaceholders | python/Depends_Finder_DDL.py:149-175 | a missing script, or one that is blank once stripped, gives every column of the table `VARCHAR(255)` |
| DependsFinder.ScriptTypesFromContent | python/Depends_Finder_DDL.py:149-160 | a script that exists and is not blank supplies the types of its stripped content |
| DependsFinder.DeclaredColumnLine | python/Depends_Finder_DDL.py:172-175 | a declared column is written with the stripped type of its last declaration |
| DependsFinder.UndeclaredColumnLine | python/Depends_Finder_DDL.py:173 | a column the script does not declare is written with `VARCHAR(255)` |
| DependsFinder.TablesDdlIgnoresOtherGroups | python/Depends_Finder_DDL.py:174 | only the column groups of the tables being written affect the output |
| DependsFinder.CreateTableJoin | python/Depends_Finder_DDL.py:171-176 | a statement is its header line, its column lines with commas after all but the last, and `);`, joined by newlines; with no columns it is `CREATE TABLE name (\n);` |
| DependsFinder.CreateTableLines | python/Depends_Finder_DDL.py:171-176 | when no name holds a newline, the statement's lines are exactly those lines |
| DependsFinder.StoredProcDdlLines | python/Depends_Finder_DDL.py:181-186 | the procedure's statement is a header, one `    T TABLE` line per table in ascending order with commas between, `);`, and a final newline |
| DependsFinder.GenerateDdlForStoredProc | python/Depends_Finder_DDL.py:181-186 | the text `generate_ddl_for_stored_proc` returns: no contract of its own; `StoredProcDdlLines` and `ProcedureDdlOfExtraction` state its lines |
| DependsFinder.TableNameOneLine | python/Depends_Finder_DDL.py:45-56 | no extracted table name holds a line break |
| DependsFinder.ProcedureDdlOfExtraction | python/Depends_Finder_DDL.py:181-186 | from any procedure text, the procedure's statement splits into exactly the header, the sorted table lines and the closing line |
| Dicts.AssocLastWins | python/Depends_Finder_DDL.py:57 | after assignments in order, a key holds the value of its last assignment |
| Dicts.AssocEntryWritten | python/Depends_Finder_DDL.py:57 | every entry of the dict is some assignment that no later assignment to its key overrode |
| Dicts.GroupMembership | python/Depends_Finder_DDL.py:67 | a value is in a key's group iff that pair was added, and a key exists iff something was added under it |
| Text.SplitJoin | python/Depends_Finder_DDL.py:85 | splitting parts joined by a separator that none of them holds gives the parts back |
| Text.JoinSplit | python/Depends_Finder_DDL.py:85 | joining the pieces of a split with the separator gives the text back |
| Text.StripBracketsOfWord | python/Depends_Finder_DDL.py:67 | stripping brackets leaves a word unchanged |
| XmlDepends.AssignObjectIds | python/XML_Depends_V3.py:12-23 | the first loop leaves the map and the counter of the first pass |
| XmlDepends.FirstPass | python/XML_Depends_V3.py:15-23 | the map and counter of the first pass: no contract of its own; `FirstPassNumbering`, `FirstPassLastWins` and `FirstPassIds` state them |
| XmlDepends.FirstPassNumbering | python/XML_Depends_V3.py:16-23 | the counter is the number of named objects, and the map's keys are exactly their names |
| XmlDepends.FirstPassLastWins | python/XML_Depends_V3.py:21-23 | a repeated name keeps `obj_n` of its last object, where that object is the n-th named one |
| XmlDepends.FirstPassIds | python/XML_Depends_V3.py:21-23 | every id is among `obj_1 … obj_counter`, and no two names share one |
| XmlDepends.ObjIdInjective | python/XML_Depends_V3.py:22 | different counters give different `obj_` ids |
| XmlDepends.UnresolvedIdInjective | python/XML_Depends_V3.py:31 | different counters give different `unresolved_` ids |
| Text.DecimalInjective | python/XML_Depends_V3.py:22 | different counters are written differently |
| XmlDepends.AddUnresolvedNodes | python/XML_Depends_V3.py:25-33 | the second loop extends the map and appends the rendered unresolved nodes of the unresolved pass |
| XmlDepends.UnresolvedPass | python/XML_Depends_V3.py:26-33 | the map, counter and nodes of the unresolved pass: no contract of its own; `UnresolvedKeepsIds`, `UnresolvedNodesNumbered`, `UnresolvedNamesDistinct` and `UnresolvedKeys` state them |
| XmlDepends.UnresolvedKeepsIds | python/XML_Depends_V3.py:29-32 | a name already in the map keeps its id |
| XmlDepends.UnresolvedNodesNumbered | python/XML_Depends_V3.py:26-33 | the k-th unresolved node is `unresolved_k`, for a non-empty name unknown before the pass that now maps to that id; the counter equals the number of nodes |
| XmlDepends.UnresolvedNamesDistinct | python/XML_Depends_V3.py:29-33 | no name gets two unresolved nodes |
| XmlDepends.UnresolvedKeys | python/XML_Depends_V3.py:27-32 | after the pass a name is known iff it was known before or has an unresolved node, and every non-empty text read is known |
| XmlDepends.IdMapInjective | python/XML_Depends_V3.py:12-32 | after both passes no two names share an id |
| XmlDepends.AddEdges | python/XML_Depends_V3.py:49-54 | one loop over references appends the rendered edges to the known ones |
| XmlDepends.EdgeLinesMembers | python/XML_Depends_V3.py:49-54 | there is an edge from the object to `to` iff some reference's text is a known name whose id is `to`; an unknown or missing text draws nothing |
| XmlDepends.ObjectLinesEdges | python/XML_Depends_V3.py:36-54 | an object draws edges only when it is named and has a non-empty id; they start at that id and go to the known names of its first Uses block, and of no other block |
| XmlDepends.AddObjectAndEdges | python/XML_Depends_V3.py:37-54 | one object appends its node line, then the edges of its Object uses, then those of its UnresolvedObject uses, or nothing when it has no name or id |
| XmlDepends.AddObjectLines | python/XML_Depends_V3.py:35-54 | the third loop appends the lines of every object in order |
| XmlDepends.SecondPass | python/XML_Depends_V3.py:36-54 | the lines of the last pass: no contract of its own; `SecondPassEdgeEnds`, `SecondPassNodeNames`, `SecondPassNodeIds`, `SecondPassNoUnresolved` and `SecondPassEdgeAfterNode` state them |
| XmlDepends.SecondPassEdgeEnds | python/XML_Depends_V3.py:50-54 | every edge of the last pass starts and ends at ids of the map |
| XmlDepends.MermaidEdgeEnds | python/XML_Depends_V3.py:49-54 | every edge of the script joins two ids of the final map |
| XmlDepends.SecondPassNodeNames | python/XML_Depends_V3.py:36-44 | when every named object has a non-empty id, the pass draws one node per named object, in order |
| XmlDepends.SecondPassNodeIds | python/XML_Depends_V3.py:37-44 | every object node belongs to a named object and shows the id the map gives its name |
| XmlDepends.MermaidObjectNames | python/XML_Depends_V3.py:36-44 | the script's object nodes are the named objects, once per Object element, in document order; unnamed objects draw nothing |
| XmlDepends.MermaidObjectIds | python/XML_Depends_V3.py:37-44 | each object node shows the `obj_` id the first pass gave its name, which is that of its last object; no object is labelled with an unresolved id |
| XmlDepends.SecondPassNoUnresolved | python/XML_Depends_V3.py:36-54 | the last pass writes no unresolved node |
| XmlDepends.SecondPassEdgeAfterNode | python/XML_Depends_V3.py:44-54 | every edge of the last pass comes after an object node carrying the id the edge starts from |
| XmlDepends.MermaidLineOrder | python/XML_Depends_V3.py:27-54 | all unresolved nodes come before every object node and edge, and each edge follows an object node carrying the id the edge starts from |
| XmlDepends.MermaidScriptLayout | python/XML_Depends_V3.py:66-67 | the output is `graph TD;` alone when there are no lines, and otherwise `graph TD;`, a newline and the rendered lines joined by newlines |
| XmlDepends.MermaidScript | python/XML_Depends_V3.py:67 | the joined script: no contract of its own; `MermaidScriptLayout` states its layout and `BuildMermaid` is proved to compute it |
| XmlDepends.Render | python/XML_Depends_V3.py:33-54 | the text of one line: `id["name (Unresolved)"]`, `id["name"]` or `from --> to`, as the three f-strings write them; no contract of its own |
| XmlDepends.BuildMermaid | python/XML_Depends_V3.py:9-67 | the script's output is the header followed by the rendered lines of the three passes, joined by newlines |

## Left out

- `sqlparse.format` (python/Depends_Finder_DDL.py:40) is a foreign library. The procedure text is taken as already formatted: comment-free, with upper-case keywords. The keyword scanners match case-insensitively in any case.
- File system access is reduced to the `FileTree` map:
  - `read_sql_file`, `os.path.exists`, `os.path.getsize` and `open`/`read`;
  - the `UnicodeDecodeError` and generic exception handlers. An unreadable file is an absent entry, which gives the same `{}` of types.
  - the size check reads "size 0" as "empty content".
- `os.path.join` is modelled as a sequence of path segments, without platform separators.
- The `isinstance(create_table_script, str)` test is covered by typing: the only inputs are `None` and strings.
- `extract_column_data_types` has a `try`/`except` around `re.findall`. That call cannot raise for a string, so the handler is not modelled.
- `StoredProcedure.__str__` is not modelled, because it prints a set in Python's unspecified iteration order.
- All `print` diagnostics in both scripts are not modelled. They do not affect results.
- The module-level code is not modelled. This covers python/Depends_Finder_DDL.py:189-209 (hard-coded paths, the output file, the global default database) and python/XML_Depends_V3.py:4-6 and 70 (`ET.parse` of a fixed path and the final `print`). The XML tree is an abstract `ObjectElem` list.
- `Text.IsWordChar` models `\w` as ASCII letters, digits and `_`, and case-insensitive keyword matching as ASCII case folding. Python's Unicode `\w` and full case folding are not modelled.
- The commented-out `UsedBy` edges (python/XML_Depends_V3.py:56-64) are not code and are not modelled.
