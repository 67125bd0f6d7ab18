/**
  The data provider of the Google Sheets connector: it resolves a table name
  to a sheet expression through the metadata sheet and serves the values of
  that expression, through two caches: table name to expression, and
  expression to values. The Sheets API is a function from a sheet id and a
  range to the values there, or to an I/O failure.
 */
module DataProvider {
  import opened Wrappers
  import opened SheetsErrors
  import opened SheetExpression
  import opened Metadata
  import opened Cache

  /** values().get(sheetId, range).execute().getValues(); None when it throws an IOException. */
  type Fetch = (string, string) -> Option<Matrix>

  /**
    getDataForSheetExpression: the values at the location the expression
    names. An I/O failure of the fetch becomes SHEETS_UNKNOWN_TABLE_ERROR; an
    expression of nothing but separators fails before anything is fetched.
   */
  function DataForSheetExpression(fetch: Fetch, expr: string): (r: Result<Matrix, LoadError>)
    ensures r.Failure? ==> r.error == IndexOutOfBounds || r.error == Presto(SheetsUnknownTableError)
    ensures r == Failure(IndexOutOfBounds) <==> expr != "" && AllAre(expr, Separator)
    // the bare-id case of the next clause, spelled out
    ensures Separator !in expr ==>
      (r.Success? <==> fetch(expr, DefaultRange).Some?) &&
      (r.Success? ==> fetch(expr, DefaultRange) == Some(r.value))
    ensures ParseSheetExpression(expr).Success? ==>
      var loc := ParseSheetExpression(expr).value;
      && (r.Success? <==> fetch(loc.sheetId, loc.range).Some?)
      && (r.Success? ==> fetch(loc.sheetId, loc.range) == Some(r.value))
      && (r.Failure? ==> r.error == Presto(SheetsUnknownTableError))
  {
    OnlySeparators(expr);
    match ParseSheetExpression(expr)
    case Failure(e) => Failure(e)
    case Success(loc) =>
      match fetch(loc.sheetId, loc.range)
      case None => Failure(Presto(SheetsUnknownTableError))
      case Some(values) => Success(values)
  }

  /** An expression fails to parse exactly when it is made of separators only. */
  lemma OnlySeparators(expr: string)
    ensures ParseSheetExpression(expr).Failure? <==> expr != "" && AllAre(expr, Separator)
  {
    if expr != "" && AllAre(expr, Separator) {
      assert expr[0] == Separator;
      assert Before(expr, Separator) == "";
      var a := After(expr, Separator);
      assert expr == [Separator] + a;
      forall i | 0 <= i < |a| ensures a[i] == Separator {
        assert a[i] == expr[i + 1];
      }
    }
    if ParseSheetExpression(expr).Failure? {
      assert Separator in expr;
      var a := After(expr, Separator);
      assert expr == [Separator] + a;
      forall i | 0 <= i < |expr| ensures expr[i] == Separator {
        if i > 0 {
          assert expr[i] == a[i - 1];
        }
      }
    }
  }

  /** getAllTableSheetExpressionMapping, read straight from the metadata sheet. */
  function AllTableSheetExpressionMapping(fetch: Fetch, metadataSheetId: string): (r: Result<Mapping, LoadError>)
    ensures DataForSheetExpression(fetch, metadataSheetId).Failure? ==>
      r == Failure(DataForSheetExpression(fetch, metadataSheetId).error)
    ensures var loaded := DataForSheetExpression(fetch, metadataSheetId);
      loaded.Success? ==>
        && (r.Success? <==> DistinctNames(loaded.value))
        && (r.Success? ==> forall t :: t in r.value <==> exists i :: MapsRow(loaded.value, i) && loaded.value[i][0] == t)
        && (r.Success? ==> forall i :: MapsRow(loaded.value, i) ==> r.value[loaded.value[i][0]] == Some(loaded.value[i][1]))
  {
    match DataForSheetExpression(fetch, metadataSheetId)
    case Failure(e) => Failure(e)
    case Success(data) => TableSheetMappingContents(data); TableSheetMapping(data)
  }

  /**
    getSheetExpressionForTable, the loader of the table cache: Some of cell 1
    of the row declaring the table, None when no row declares it; a metadata
    sheet that cannot be read or built makes it fail.
   */
  function SheetExpressionForTable(fetch: Fetch, metadataSheetId: string, tableName: string): (r: Result<Option<string>, LoadError>)
    ensures AllTableSheetExpressionMapping(fetch, metadataSheetId).Failure? ==>
      r == Failure(AllTableSheetExpressionMapping(fetch, metadataSheetId).error)
    ensures var loaded := DataForSheetExpression(fetch, metadataSheetId);
      loaded.Success? && DistinctNames(loaded.value) ==>
        && (r == Success(None) <==> forall i :: MapsRow(loaded.value, i) ==> loaded.value[i][0] != tableName)
        && (forall i :: MapsRow(loaded.value, i) && loaded.value[i][0] == tableName ==>
              r == Success(Some(loaded.value[i][1])))
  {
    Resolve(AllTableSheetExpressionMapping(fetch, metadataSheetId), tableName)
  }

  /** The entry of tableName, or None when the mapping has no such key. */
  function Resolve(mapping: Result<Mapping, LoadError>, tableName: string): Result<Option<string>, LoadError>
  {
    match mapping
    case Failure(e) => Failure(e)
    case Success(m) => if tableName !in m then Success(None) else Success(m[tableName])
  }

  /**
    What readAllValues returns when nothing is cached: the values of the
    table's expression; SHEETS_UNKNOWN_TABLE_ERROR for a table the mapping
    lacks; SHEETS_TABLE_LOAD_ERROR when a load fails.
   */
  function TableValues(fetch: Fetch, metadataSheetId: string, tableName: string): (r: Result<Matrix, ErrorCode>)
    ensures r.Failure? ==> r.error == SheetsUnknownTableError || r.error == SheetsTableLoadError
    ensures AllTableSheetExpressionMapping(fetch, metadataSheetId).Failure? ==> r == Failure(SheetsTableLoadError)
  {
    match SheetExpressionForTable(fetch, metadataSheetId, tableName)
    case Failure(_) => Failure(SheetsTableLoadError)
    case Success(None) => Failure(SheetsUnknownTableError)
    case Success(Some(expr)) =>
      match DataForSheetExpression(fetch, expr)
      case Failure(_) => Failure(SheetsTableLoadError)
      case Success(values) => Success(values)
  }

  /**
    What listTables returns when nothing is cached: the names the metadata
    sheet lists, or SHEETS_METASTORE_ERROR when it cannot be read.
   */
  function TableList(fetch: Fetch, metadataSheetId: string): (r: Result<set<string>, ErrorCode>)
    ensures r.Failure? <==> DataForSheetExpression(fetch, metadataSheetId).Failure?
    ensures r.Failure? ==> r.error == SheetsMetastoreError
    ensures r.Success? ==> forall t :: t in r.value <==>
      exists i :: NamesRow(DataForSheetExpression(fetch, metadataSheetId).value, i) &&
                  DataForSheetExpression(fetch, metadataSheetId).value[i][0] == t
  {
    match DataForSheetExpression(fetch, metadataSheetId)
    case Failure(_) => Failure(SheetsMetastoreError)
    case Success(data) => TableNamesContents(data); Success(TableNames(data))
  }

  /** A declared table reads as a direct load of its row's expression. */
  lemma ReadDeclaredTable(fetch: Fetch, metadataSheetId: string, data: Matrix, i: nat)
    requires DataForSheetExpression(fetch, metadataSheetId) == Success(data)
    requires DistinctNames(data) && MapsRow(data, i)
    ensures var direct := DataForSheetExpression(fetch, data[i][1]);
      TableValues(fetch, metadataSheetId, data[i][0]) ==
        if direct.Success? then Success(direct.value) else Failure(SheetsTableLoadError)
  {
    assert SheetExpressionForTable(fetch, metadataSheetId, data[i][0]) == Success(Some(data[i][1]));
  }

  /** A table no mapping row declares reads as SHEETS_UNKNOWN_TABLE_ERROR. */
  lemma ReadUndeclaredTable(fetch: Fetch, metadataSheetId: string, data: Matrix, tableName: string)
    requires DataForSheetExpression(fetch, metadataSheetId) == Success(data)
    requires DistinctNames(data)
    requires forall i :: MapsRow(data, i) ==> data[i][0] != tableName
    ensures TableValues(fetch, metadataSheetId, tableName) == Failure(SheetsUnknownTableError)
  {
    assert SheetExpressionForTable(fetch, metadataSheetId, tableName) == Success(None);
  }

  /** A table that reads is a table that is listed. */
  lemma ReadableTablesAreListed(fetch: Fetch, metadataSheetId: string, tableName: string)
    requires TableValues(fetch, metadataSheetId, tableName).Success?
    ensures TableList(fetch, metadataSheetId).Success?
    ensures tableName in TableList(fetch, metadataSheetId).value
  {
    var data := DataForSheetExpression(fetch, metadataSheetId).value;
    TableSheetMappingContents(data);
    MappedTablesAreListed(data);
  }

  /** An example metadata sheet and what the provider makes of it. */
  lemma ExampleCatalogue(fetch: Fetch, metadataSheetId: string)
    requires DataForSheetExpression(fetch, metadataSheetId) ==
      Success([["id", "sheet"], ["orders", "abc123"], ["users", "def456#A1:C100"]])
    ensures TableList(fetch, metadataSheetId) == Success({"orders", "users"})
    ensures TableValues(fetch, metadataSheetId, "users") ==
      if fetch("def456", "A1:C100").Some? then Success(fetch("def456", "A1:C100").value)
      else Failure(SheetsTableLoadError)
    ensures TableValues(fetch, metadataSheetId, "orders") ==
      if fetch("abc123", DefaultRange).Some? then Success(fetch("abc123", DefaultRange).value)
      else Failure(SheetsTableLoadError)
  {
    var data: Matrix := [["id", "sheet"], ["orders", "abc123"], ["users", "def456#A1:C100"]];
    ExampleMetadata(data);
    ReadDeclaredTable(fetch, metadataSheetId, data, 1);
    ReadDeclaredTable(fetch, metadataSheetId, data, 2);
    ExampleRangedExpression("def456#A1:C100", "def456", "A1:C100");
    ExampleBareExpression("abc123");
  }

  /** The rows of the example metadata sheet. */
  lemma ExampleMetadata(data: Matrix)
    requires data == [["id", "sheet"], ["orders", "abc123"], ["users", "def456#A1:C100"]]
    ensures MapsRow(data, 1) && data[1][0] == "orders" && data[1][1] == "abc123"
    ensures MapsRow(data, 2) && data[2][0] == "users" && data[2][1] == "def456#A1:C100"
    ensures DistinctNames(data)
    ensures TableNames(data) == {"orders", "users"}
  {
    TableNamesContents(data);
    assert NamesRow(data, 1) && NamesRow(data, 2);
  }

  /**
    The ranged expression of the example names its sheet and its range. The
    strings are parameters so that the verifier does not unfold the parse
    over every character of a literal, which it cannot afford.
   */
  lemma ExampleRangedExpression(expr: string, sheetId: string, range: string)
    requires expr == "def456#A1:C100" && sheetId == "def456" && range == "A1:C100"
    ensures ParseSheetExpression(expr) == Success(Location(sheetId, range))
  {
    assert Expressible(Location(sheetId, range)) by {
      assert forall i :: 0 <= i < |sheetId| ==> sheetId[i] != Separator;
      assert forall i :: 0 <= i < |range| ==> range[i] != Separator;
    }
    assert Format(Location(sheetId, range)) == expr;
    ParseFormat(Location(sheetId, range));
  }

  /**
    The bare expression of the example is read with the default range; the
    string is a parameter for the same reason.
   */
  lemma ExampleBareExpression(expr: string)
    requires expr == "abc123"
    ensures ParseSheetExpression(expr) == Success(Location("abc123", DefaultRange))
  {
    assert forall i :: 0 <= i < |expr| ==> expr[i] != Separator;
  }

  /** The loop of listTables: cell 0 of every row below the header that has a cell. */
  method CollectTableNames(data: Matrix) returns (tables: set<string>)
    ensures tables == TableNames(data)
    ensures forall t :: t in tables <==> exists i :: NamesRow(data, i) && data[i][0] == t
  {
    tables := {};
    var i := 1;
    while i < |data|
      invariant 1 <= i && (i <= |data| || i == 1)
      invariant tables == ListedNames(data, i)
    {
      if |data[i]| > 0 {
        tables := tables + {data[i][0]};
      }
      i := i + 1;
    }
    assert |data| == 0 ==> ListedNames(data, i) == ListedNames(data, |data|);
    TableNamesContents(data);
  }

  /** The loop of getAllTableSheetExpressionMapping: one entry per row below the header that has two cells. */
  method CollectMappingEntries(data: Matrix) returns (entries: seq<(string, Option<string>)>)
    ensures entries == MappingEntries(data, |data|)
  {
    entries := [];
    var i := 1;
    while i < |data|
      invariant 1 <= i && (i <= |data| || i == 1)
      invariant entries == MappingEntries(data, i)
    {
      if |data[i]| >= 2 {
        entries := entries + [(data[i][0], Some(data[i][1]))];
      }
      i := i + 1;
    }
    assert |data| == 0 ==> MappingEntries(data, i) == MappingEntries(data, |data|);
  }

  class GSheetsDataProvider {
    const metadataSheetId: string
    const fetch: Fetch
    /** tableSheetMappingCache: table name to its sheet expression. */
    const tableSheetMappingCache: LoadingCache<Option<string>>
    /** sheetDataCache: sheet expression to its values. */
    const sheetDataCache: LoadingCache<Matrix>

    /** Two separate caches, each built on its own loader and consistent with it. */
    ghost predicate Valid()
      reads tableSheetMappingCache, sheetDataCache
    {
      && (tableSheetMappingCache as object) != (sheetDataCache as object)
      && tableSheetMappingCache.Valid() && sheetDataCache.Valid()
      && (forall t :: tableSheetMappingCache.load(t) == SheetExpressionForTable(fetch, metadataSheetId, t))
      && (forall e :: sheetDataCache.load(e) == DataForSheetExpression(fetch, e))
    }

    /** A provider with both caches empty; credentials are not part of this model. */
    constructor (metadataSheetId: string, fetch: Fetch)
      ensures this.metadataSheetId == metadataSheetId && this.fetch == fetch
      ensures Valid() && fresh(tableSheetMappingCache) && fresh(sheetDataCache)
      ensures tableSheetMappingCache.entries == map[] && sheetDataCache.entries == map[]
    {
      this.metadataSheetId := metadataSheetId;
      this.fetch := fetch;
      tableSheetMappingCache := new LoadingCache(t => SheetExpressionForTable(fetch, metadataSheetId, t));
      sheetDataCache := new LoadingCache(e => DataForSheetExpression(fetch, e));
    }

    /**
      getAllTableSheetExpressionMapping: reads the metadata sheet without going
      through sheetDataCache, puts one entry per row below the header that has
      two cells, and builds the map.
     */
    method GetAllTableSheetExpressionMapping() returns (r: Result<Mapping, LoadError>)
      ensures r == AllTableSheetExpressionMapping(fetch, metadataSheetId)
    {
      var loaded := DataForSheetExpression(fetch, metadataSheetId);
      if loaded.Failure? {
        return Failure(loaded.error);
      }
      var entries := CollectMappingEntries(loaded.value);
      r := BuildMap(entries);
    }

    /** getSheetExpressionForTable: the whole mapping is built, then one entry is picked. */
    method GetSheetExpressionForTable(tableName: string) returns (r: Result<Option<string>, LoadError>)
      ensures r == SheetExpressionForTable(fetch, metadataSheetId, tableName)
    {
      var mapping := GetAllTableSheetExpressionMapping();
      if mapping.Failure? {
        return Failure(mapping.error);
      }
      if tableName !in mapping.value {
        return Success(None);
      }
      r := Success(mapping.value[tableName]);
    }

    /**
      listTables: the metadata sheet through sheetDataCache, then cell 0 of
      every row below the header that has a cell.
     */
    method ListTables() returns (r: Result<set<string>, ErrorCode>)
      requires Valid()
      modifies sheetDataCache
      ensures Valid()
      ensures r == TableList(fetch, metadataSheetId)
      ensures sheetDataCache.entries == AfterGet(old(sheetDataCache.entries), metadataSheetId, sheetDataCache.load)
    {
      var metadata := sheetDataCache.Get(metadataSheetId);
      if metadata.Failure? {
        assert metadata == DataForSheetExpression(fetch, metadataSheetId);
        return Failure(SheetsMetastoreError);
      }
      var tables := CollectTableNames(metadata.value);
      assert metadata == DataForSheetExpression(fetch, metadataSheetId);
      r := Success(tables);
    }

    /**
      readAllValues: the table's expression through tableSheetMappingCache,
      then its values through sheetDataCache. Only the resolved expression can
      be added to sheetDataCache: resolving reads the metadata sheet directly.
     */
    method ReadAllValues(tableName: string) returns (r: Result<Matrix, ErrorCode>)
      requires Valid()
      modifies tableSheetMappingCache, sheetDataCache
      ensures Valid()
      ensures r == TableValues(fetch, metadataSheetId, tableName)
      ensures tableSheetMappingCache.entries ==
        AfterGet(old(tableSheetMappingCache.entries), tableName, tableSheetMappingCache.load)
      ensures sheetDataCache.entries ==
        match SheetExpressionForTable(fetch, metadataSheetId, tableName)
        case Success(Some(expr)) => AfterGet(old(sheetDataCache.entries), expr, sheetDataCache.load)
        case _ => old(sheetDataCache.entries)
    {
      var sheetExpression := tableSheetMappingCache.Get(tableName);
      if sheetExpression.Failure? {
        return Failure(SheetsTableLoadError);
      }
      if sheetExpression.value.None? {
        return Failure(SheetsUnknownTableError);
      }
      var values := sheetDataCache.Get(sheetExpression.value.value);
      if values.Failure? {
        return Failure(SheetsTableLoadError);
      }
      r := Success(values.value);
    }
  }
}
