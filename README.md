# Google Sheets connector: the data provider

A Dafny model of `GSheetsDataProvider`, the part of the Presto Google Sheets
connector that turns a metadata sheet into a table catalogue and serves the
rows of a table through two caches.

- **Sheet expressions** (`SheetExpression`, `sheet_expression.dfy`). An expression
  is `<sheetId>` or `<sheetId>#<range>`. The provider splits it with Java's
  `String.split("#")`. That call returns the string itself when there is no
  `#`, and otherwise every piece with the trailing empty pieces removed. The
  sheet id is piece 0. The range is piece 1 when it exists, else `$1:$10000`.
  The model gives Java's split (`JavaSplit`) and then proves what the parse
  means in terms of the text before the first `#` and the text between the
  first and second `#`.
- **The metadata sheet** (`Metadata`, `metadata.dfy`). Row 0 is a header. Every
  later row with at least two cells puts `(cell 0, Some(cell 1))` into an
  `ImmutableMap.Builder`. `build()` fails when a table name is put twice.
  The listing takes cell 0 of every later row that has at least one cell. So
  a one-cell row is listed but not mapped.
- **The caches** (`Cache`, `loading_cache.dfy`). `LoadingCache<V>` is a class
  with the loader it was built with and a `map` of stored values. `Get`
  returns the stored value on a hit. On a miss it runs the loader and stores
  the result under that one key, unless the load failed. Its `Valid()` says
  that every stored value is what the loader gives for its key.
- **The provider** (`DataProvider`, `data_provider.dfy`). The Sheets API is a
  function `Fetch` from a sheet id and a range to the values there, or to an
  I/O failure. The loaders `DataForSheetExpression` and
  `SheetExpressionForTable` are functions of it. `TableValues` and `TableList`
  say what `readAllValues` and `listTables` return when nothing is cached.
  The class `GSheetsDataProvider` holds the two caches. Its `ReadAllValues` and
  `ListTables` are proved to return exactly those uncached results, and their
  contracts say which cache entries each call adds. The methods
  `GetAllTableSheetExpressionMapping` and `GetSheetExpressionForTable` render
  the loops of the two private loaders. They are proved equal to the loader
  functions `AllTableSheetExpressionMapping` and `SheetExpressionForTable`.
  The table cache is built on the functions, because a cache's loader in the
  model is a function value.

Error codes follow the `catch` clauses of the source:
- an I/O failure of the fetch becomes `SHEETS_UNKNOWN_TABLE_ERROR` inside the loader;
- a failed cache load becomes `SHEETS_METASTORE_ERROR` in `listTables`;
- a failed cache load becomes `SHEETS_TABLE_LOAD_ERROR` in `readAllValues`;
- a table whose expression resolves to `None` fails `readAllValues` with `SHEETS_UNKNOWN_TABLE_ERROR`.

Behaviour of the code a reader might not expect:
- A table name declared twice makes `ImmutableMap.Builder.build()` fail. The
  model reports `DuplicateKey` with the name of the first row that repeats an
  earlier name. It is not last-write-wins.
- The table-mapping loader reads the metadata sheet directly, not through the
  data cache. It stores only the entry for the requested table. The bulk
  `loadAll` is never reached through `get`.
- An expression made only of `#` characters splits into no piece, so reading
  piece 0 fails. The model reports this as `IndexOutOfBounds`.
- `id##range` gives the empty range, because piece 1 exists and is empty.

## Model

| member | source | states |
|---|---|---|
| `SheetExpression.ParseSheetExpression` | presto-google-sheets/src/main/java/io/prestosql/plugin/google/sheets/GSheetsDataProvider.java:180-185 | With no `#`, the id is the whole expression and the range is `$1:$10000`. Otherwise the id is the text before the first `#`. If some character after that `#` is not a `#`, the range is the text up to the next `#`. If only `#`s follow, the range is the default. If the expression is only `#`s, parsing fails with IndexOutOfBounds. |
| `SheetExpression.ParseFormat` | presto-google-sheets/src/main/java/io/prestosql/plugin/google/sheets/GSheetsDataProvider.java:180-185 | Parsing `id#range` gives back `(id, range)` for any id and non-empty range without `#`. |
| `SheetExpression.JavaSplitShape` | presto-google-sheets/src/main/java/io/prestosql/plugin/google/sheets/GSheetsDataProvider.java:181 | Shape of Java's split of a string containing `#`. If a non-`#` character follows the first `#`, there are at least two pieces and the first two are the text before the first `#` and the text between the first and second `#`. Otherwise there is one piece, or none when the string is only `#`s. |
| `SheetExpression.JavaSplitTwoPieces` | presto-google-sheets/src/main/java/io/prestosql/plugin/google/sheets/GSheetsDataProvider.java:181-185 | When a non-`#` character follows the first `#`, the split has at least two pieces. Piece 0 is the text before the first `#` and piece 1 the text up to the second `#`. |
| `SheetExpression.JavaSplitOnePiece` | presto-google-sheets/src/main/java/io/prestosql/plugin/google/sheets/GSheetsDataProvider.java:181-182 | When only `#`s follow the first `#`, the split is the single id, or no piece at all when the id is empty. |
| `SheetExpression.SplitAllCons` | presto-google-sheets/src/main/java/io/prestosql/plugin/google/sheets/GSheetsDataProvider.java:181 | The pieces are the text before the first `#` followed by the pieces of the text after it. |
| `SheetExpression.JavaSplit` | presto-google-sheets/src/main/java/io/prestosql/plugin/google/sheets/GSheetsDataProvider.java:181 | Java's `split("#")`: the whole string when it holds no `#`. Otherwise a prefix of the full split that drops only empty pieces and does not end with an empty piece. `JavaSplitShape` states what the first two pieces are. |
| `SheetExpression.ParseOptions` | presto-google-sheets/src/main/java/io/prestosql/plugin/google/sheets/GSheetsDataProvider.java:182-185 | Reading piece 0 and, when present, piece 1 out of the split. It has no contract of its own; `ParseSheetExpression` states what the two steps together yield. |
| `SheetExpression.SplitAll` | presto-google-sheets/src/main/java/io/prestosql/plugin/google/sheets/GSheetsDataProvider.java:181 | The split before trailing pieces are dropped has at least one piece, and no piece contains the separator. |
| `SheetExpression.DropTrailingEmpty` | presto-google-sheets/src/main/java/io/prestosql/plugin/google/sheets/GSheetsDataProvider.java:181 | The result is a prefix of the pieces that does not end with an empty piece, and every piece it drops is empty. |
| `SheetExpression.JoinSplitAll` | presto-google-sheets/src/main/java/io/prestosql/plugin/google/sheets/GSheetsDataProvider.java:181 | Joining the pieces of a split with the separator gives back the original string. |
| `SheetExpression.SplitAllJoin` | presto-google-sheets/src/main/java/io/prestosql/plugin/google/sheets/GSheetsDataProvider.java:181 | Splitting the join of pieces that contain no separator gives back those pieces. |
| `SheetExpression.SplitAllHead` | presto-google-sheets/src/main/java/io/prestosql/plugin/google/sheets/GSheetsDataProvider.java:181-182 | Piece 0 is the text before the first `#`. The remaining pieces are the split of the text after it. With no `#`, the only piece is the whole string. |
| `SheetExpression.PiecesEmptyIffAllAre` | presto-google-sheets/src/main/java/io/prestosql/plugin/google/sheets/GSheetsDataProvider.java:181 | Every piece is empty exactly when the string consists only of separators. |
| `SheetExpression.DropTrailingEmptyAt` | presto-google-sheets/src/main/java/io/prestosql/plugin/google/sheets/GSheetsDataProvider.java:181 | Dropping trailing empty pieces keeps exactly the pieces up to the last non-empty one. |
| `SheetExpression.DropTrailingEmptyAll` | presto-google-sheets/src/main/java/io/prestosql/plugin/google/sheets/GSheetsDataProvider.java:181 | Pieces that are all empty are all dropped. |
| `SheetExpression.Before` | presto-google-sheets/src/main/java/io/prestosql/plugin/google/sheets/GSheetsDataProvider.java:182 | The sheet-id text is a prefix of the expression that contains no `#`. It is followed by a `#` unless it is the whole expression. |
| `SheetExpression.After` | presto-google-sheets/src/main/java/io/prestosql/plugin/google/sheets/GSheetsDataProvider.java:183-184 | The expression equals the text before the first `#`, then that `#`, then the result. |
| `SheetExpression.BeforeConcat` | presto-google-sheets/src/main/java/io/prestosql/plugin/google/sheets/GSheetsDataProvider.java:182 | The sheet id of `a#b` is `a` when `a` has no `#`. |
| `SheetExpression.BeforeAbsent` | presto-google-sheets/src/main/java/io/prestosql/plugin/google/sheets/GSheetsDataProvider.java:182 | Without a `#`, the sheet id is the whole expression. |
| `Metadata.BuildMap` | presto-google-sheets/src/main/java/io/prestosql/plugin/google/sheets/GSheetsDataProvider.java:120-123 | `ImmutableMap.Builder.build()`. It has no contract of its own: `MappingBelow` and `TableSheetMappingContents` state that the build succeeds iff the keys are distinct, and then holds exactly the entries put. `FirstDuplicate` states that a failure names a repeated key. |
| `Metadata.MappingEntries` | presto-google-sheets/src/main/java/io/prestosql/plugin/google/sheets/GSheetsDataProvider.java:116-121 | The entries the mapping loop has put once it reaches row n. It has no contract of its own; `MappingBelow` states what building them gives for every n. |
| `Metadata.TableSheetMapping` | presto-google-sheets/src/main/java/io/prestosql/plugin/google/sheets/GSheetsDataProvider.java:115-123 | The mapping built from the rows of the metadata sheet once it has been read. It has no contract of its own; `TableSheetMappingContents` states when it builds and exactly what it holds. |
| `Metadata.ListedNames` | presto-google-sheets/src/main/java/io/prestosql/plugin/google/sheets/GSheetsDataProvider.java:151-155 | The names the listTables loop has added once it reaches row n. It has no contract of its own; `ListedBelow` states exactly which names those are. |
| `Metadata.TableNames` | presto-google-sheets/src/main/java/io/prestosql/plugin/google/sheets/GSheetsDataProvider.java:151-155 | The names listTables collects from the metadata rows. It has no contract of its own; `TableNamesContents` states exactly which names it holds. |
| `Metadata.TableSheetMappingContents` | presto-google-sheets/src/main/java/io/prestosql/plugin/google/sheets/GSheetsDataProvider.java:113-123 | The mapping is built iff no two non-header rows with two or more cells name the same table. When built, its keys are exactly the cell 0 values of those rows, and each key maps to `Some` of its row's cell 1. |
| `Metadata.MappingBelow` | presto-google-sheets/src/main/java/io/prestosql/plugin/google/sheets/GSheetsDataProvider.java:116-121 | The same facts for the builder after the loop has reached row n. This is the loop invariant of the map builder, proved by induction. |
| `Metadata.DescribesPut` | presto-google-sheets/src/main/java/io/prestosql/plugin/google/sheets/GSheetsDataProvider.java:117-120 | Putting a mapping row whose name is new adds exactly that row's name and cell 1 to the described contents. |
| `Metadata.DescribesSkip` | presto-google-sheets/src/main/java/io/prestosql/plugin/google/sheets/GSheetsDataProvider.java:117 | A row with fewer than two cells leaves the builder's described contents as they were. |
| `Metadata.DistinctStep` | presto-google-sheets/src/main/java/io/prestosql/plugin/google/sheets/GSheetsDataProvider.java:120-123 | Adding a row keeps the names distinct iff the row is no mapping row or its name is not yet a key. |
| `Metadata.DuplicateNameRefused` | presto-google-sheets/src/main/java/io/prestosql/plugin/google/sheets/GSheetsDataProvider.java:120-123 | Two rows that declare the same table make the build fail. The failure names a table that two rows share. |
| `Metadata.FirstDuplicate` | presto-google-sheets/src/main/java/io/prestosql/plugin/google/sheets/GSheetsDataProvider.java:120-123 | A failed build reports `DuplicateKey` with the name of a row that repeats an earlier row's name. |
| `Metadata.TableNamesContents` | presto-google-sheets/src/main/java/io/prestosql/plugin/google/sheets/GSheetsDataProvider.java:151-155 | The listing contains a name iff some row below the header has at least one cell with that name in cell 0. |
| `Metadata.ListedBelow` | presto-google-sheets/src/main/java/io/prestosql/plugin/google/sheets/GSheetsDataProvider.java:151-155 | The same fact for the rows before row n, proved by induction. |
| `Metadata.MappedTablesAreListed` | presto-google-sheets/src/main/java/io/prestosql/plugin/google/sheets/GSheetsDataProvider.java:117-118 | Every key of a built mapping appears in the listing. |
| `Metadata.SingleCellRowListedNotMapped` | presto-google-sheets/src/main/java/io/prestosql/plugin/google/sheets/GSheetsDataProvider.java:117 | Take a one-cell row whose name no two-cell row declares. Its name is listed but is not a key of the mapping. |
| `Metadata.HeaderIgnored` | presto-google-sheets/src/main/java/io/prestosql/plugin/google/sheets/GSheetsDataProvider.java:115-116 | Replacing row 0 with any row changes neither the mapping nor the listing. |
| `Metadata.CellsAfterSecondIgnored` | presto-google-sheets/src/main/java/io/prestosql/plugin/google/sheets/GSheetsDataProvider.java:117-120 | Cells appended after cell 1 of a mapping row change neither the mapping nor the listing. |
| `Metadata.AppendedRowListed` | presto-google-sheets/src/main/java/io/prestosql/plugin/google/sheets/GSheetsDataProvider.java:151-155 | A row appended to the metadata sheet adds exactly its cell 0, if it has one, to the listing. |
| `Metadata.EntriesAgree` | presto-google-sheets/src/main/java/io/prestosql/plugin/google/sheets/GSheetsDataProvider.java:116-121 | Rows that put the same entries before row n give the same builder contents. |
| `Metadata.NamesAgree` | presto-google-sheets/src/main/java/io/prestosql/plugin/google/sheets/GSheetsDataProvider.java:151-155 | Rows that give the same names before row n give the same listing. |
| `Cache.AfterGet` | presto-google-sheets/src/main/java/io/prestosql/plugin/google/sheets/GSheetsDataProvider.java:150 | The stored entries after one `LoadingCache.get` of a key. It has no contract of its own; `LoadingCache.Get` states the same effect on a hit and on a miss, and the ensures of `ListTables` and `ReadAllValues` use it. |
| `Cache.LoadingCache.constructor` | presto-google-sheets/src/main/java/io/prestosql/plugin/google/sheets/GSheetsDataProvider.java:84-99 | A cache starts empty, holding the loader it was built with. |
| `Cache.LoadingCache.Get` | presto-google-sheets/src/main/java/io/prestosql/plugin/google/sheets/GSheetsDataProvider.java:166-170 | A hit returns the stored value and leaves the cache unchanged. A miss returns the loader's result and stores it under that key alone; a failed load stores nothing. Either way the result equals the loader's value for the key, and every stored value stays equal to its loader value. |
| `DataProvider.DataForSheetExpression` | presto-google-sheets/src/main/java/io/prestosql/plugin/google/sheets/GSheetsDataProvider.java:126-134 | The only failures are IndexOutOfBounds and a fetch I/O failure reported as SHEETS_UNKNOWN_TABLE_ERROR. IndexOutOfBounds happens iff the expression is non-empty and only `#`s. When the expression parses, the result is the fetch at the parsed sheet id and range. A failed fetch there gives SHEETS_UNKNOWN_TABLE_ERROR. An expression without `#` reads the whole id with the default range. |
| `DataProvider.OnlySeparators` | presto-google-sheets/src/main/java/io/prestosql/plugin/google/sheets/GSheetsDataProvider.java:181-182 | Parsing fails iff the expression is non-empty and consists only of `#`s. |
| `DataProvider.AllTableSheetExpressionMapping` | presto-google-sheets/src/main/java/io/prestosql/plugin/google/sheets/GSheetsDataProvider.java:111-124 | The mapping loader reads the metadata sheet directly and passes on its failure. If the read succeeds, the mapping builds iff no two rows declare the same table. Its keys are then exactly the names of the rows with two cells below the header, each mapped to `Some` of its cell 1. |
| `DataProvider.Resolve` | presto-google-sheets/src/main/java/io/prestosql/plugin/google/sheets/GSheetsDataProvider.java:105-108 | Picks the table's entry, `None` when the key is absent. It has no contract of its own; `SheetExpressionForTable` states the result in terms of the metadata rows. |
| `DataProvider.SheetExpressionForTable` | presto-google-sheets/src/main/java/io/prestosql/plugin/google/sheets/GSheetsDataProvider.java:102-109 | If the mapping cannot be loaded, this fails with the same error. When the metadata sheet reads and declares no name twice: a table declared by a row yields `Some` of that row's cell 1, and the result is `None` iff no row declares the table. |
| `DataProvider.TableValues` | presto-google-sheets/src/main/java/io/prestosql/plugin/google/sheets/GSheetsDataProvider.java:163-175 | readAllValues fails only with SHEETS_UNKNOWN_TABLE_ERROR or SHEETS_TABLE_LOAD_ERROR. It fails with SHEETS_TABLE_LOAD_ERROR whenever the mapping cannot be loaded. |
| `DataProvider.TableList` | presto-google-sheets/src/main/java/io/prestosql/plugin/google/sheets/GSheetsDataProvider.java:146-161 | listTables fails iff the metadata sheet cannot be read, and then with SHEETS_METASTORE_ERROR. Otherwise it returns exactly the cell 0 values of the non-header rows that have a cell. |
| `DataProvider.ReadDeclaredTable` | presto-google-sheets/src/main/java/io/prestosql/plugin/google/sheets/GSheetsDataProvider.java:166-170 | A declared table reads the same as a direct load of its row's expression. A failed load gives SHEETS_TABLE_LOAD_ERROR. |
| `DataProvider.ReadUndeclaredTable` | presto-google-sheets/src/main/java/io/prestosql/plugin/google/sheets/GSheetsDataProvider.java:166-169 | A table that no mapping row declares fails with SHEETS_UNKNOWN_TABLE_ERROR, not with a load error. |
| `DataProvider.ReadableTablesAreListed` | presto-google-sheets/src/main/java/io/prestosql/plugin/google/sheets/GSheetsDataProvider.java:146-175 | Any table that readAllValues can read also appears in listTables. |
| `DataProvider.ExampleCatalogue` | presto-google-sheets/src/main/java/io/prestosql/plugin/google/sheets/GSheetsDataProvider.java:146-187 | The metadata sheet `[[id, sheet], [orders, abc123], [users, def456#A1:C100]]` lists `{orders, users}`. `users` reads sheet `def456` with range `A1:C100`, and `orders` reads sheet `abc123` with the default range. |
| `DataProvider.ExampleMetadata` | presto-google-sheets/src/main/java/io/prestosql/plugin/google/sheets/GSheetsDataProvider.java:116-121 | In that example both data rows are mapped, their names differ, and the listing is `{orders, users}`. |
| `DataProvider.ExampleRangedExpression` | presto-google-sheets/src/main/java/io/prestosql/plugin/google/sheets/GSheetsDataProvider.java:180-185 | `def456#A1:C100` parses to sheet `def456` and range `A1:C100`. |
| `DataProvider.ExampleBareExpression` | presto-google-sheets/src/main/java/io/prestosql/plugin/google/sheets/GSheetsDataProvider.java:180-185 | `abc123` parses to sheet `abc123` and the default range. |
| `DataProvider.CollectTableNames` | presto-google-sheets/src/main/java/io/prestosql/plugin/google/sheets/GSheetsDataProvider.java:151-155 | The listTables loop collects exactly the cell 0 values of the rows below the header that have a cell. |
| `DataProvider.CollectMappingEntries` | presto-google-sheets/src/main/java/io/prestosql/plugin/google/sheets/GSheetsDataProvider.java:116-122 | The loop of getAllTableSheetExpressionMapping collects exactly the entries the rows below the header put into the builder, in row order. |
| `DataProvider.GSheetsDataProvider.constructor` | presto-google-sheets/src/main/java/io/prestosql/plugin/google/sheets/GSheetsDataProvider.java:70-100 | Both caches start empty and distinct. The table cache's loader is getSheetExpressionForTable and the data cache's loader is getDataForSheetExpression. |
| `DataProvider.GSheetsDataProvider.GetAllTableSheetExpressionMapping` | presto-google-sheets/src/main/java/io/prestosql/plugin/google/sheets/GSheetsDataProvider.java:111-124 | The loop over rows 1 and up computes the mapping the metadata sheet describes. It reads the sheet directly and changes no cache. |
| `DataProvider.GSheetsDataProvider.GetSheetExpressionForTable` | presto-google-sheets/src/main/java/io/prestosql/plugin/google/sheets/GSheetsDataProvider.java:102-109 | Builds the whole mapping, then returns the table's entry, or `None` when the table is absent. Changes no cache. |
| `DataProvider.GSheetsDataProvider.ListTables` | presto-google-sheets/src/main/java/io/prestosql/plugin/google/sheets/GSheetsDataProvider.java:146-161 | Returns TableList. Touches only the data cache, and there only the metadata sheet's entry. The table cache is unchanged. |
| `DataProvider.GSheetsDataProvider.ReadAllValues` | presto-google-sheets/src/main/java/io/prestosql/plugin/google/sheets/GSheetsDataProvider.java:163-175 | Returns TableValues, the uncached result. The table cache gains at most the requested table. The data cache gains at most the resolved expression, never the metadata sheet read during resolution. |

## Left out

- Credentials, the HTTP transport and the Sheets client (lines 75-80 and 136-144) are file I/O and library calls. The constructor takes the fetch function instead, so SHEETS_BAD_CREDENTIALS_ERROR never arises in the model.
- The remote `values().get(...).execute()` call and the log line (lines 186-187) are the abstract `Fetch`. It is one fixed function for the whole run, so the remote sheet never changes while the provider lives.
- An empty range, for which `getValues()` returns null, is not modelled. `Fetch` always yields a matrix or an I/O failure.
- Cells are strings. The rendering `String.valueOf` gives a non-string cell is not modelled.
- Expire-after-write, maximum-size eviction and concurrent single-flight loading (lines 52 and 190-195) belong to the Guava cache library and depend on time and threads. Only the sequential hit/miss behaviour is modelled. Because the fetch is fixed, an expiry would reload the same value anyway.
- `loadAll` (lines 93-96) is never reached through `get`, so it has no counterpart.
- DataProvider.GSheetsDataProvider.ReadAllValues, DataProvider.GSheetsDataProvider.ListTables, DataProvider.TableValues and DataProvider.TableList treat every failed cache load as reaching their `catch (ExecutionException)` clause. Guava throws `ExecutionException` only for checked loader exceptions. The loaders here throw only unchecked ones, which Guava wraps differently; that library detail is not modelled.
- TestSheetsPlugin.java only registers the plugin and writes a credentials file, so it has no counterpart.
