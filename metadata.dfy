/**
  The metadata sheet lists the tables of the catalogue, one per row after a
  header row: cell 0 is the table name and cell 1 the sheet expression that
  holds its data. Two readings of it exist: the mapping from table name to
  expression, built from the rows with at least two cells, and the set of
  table names, taken from every row with at least one cell.
 */
module Metadata {
  import opened Wrappers
  import opened SheetsErrors

  /** A row of a sheet, every cell rendered as a string. */
  type Row = seq<string>

  /** The values of a sheet range, rows outermost. */
  type Matrix = seq<Row>

  /** Table name to the sheet expression holding its data. */
  type Mapping = map<string, Option<string>>

  /** Row i is below the header and has the two cells a mapping entry needs. */
  predicate MapsRow(data: Matrix, i: int)
  {
    1 <= i < |data| && |data[i]| >= 2
  }

  /** Row i is below the header and has a cell to name a table. */
  predicate NamesRow(data: Matrix, i: int)
  {
    1 <= i < |data| && |data[i]| > 0
  }

  /** The mapping rows below row n name pairwise different tables. */
  predicate DistinctBelow(data: Matrix, n: nat)
  {
    forall i, j :: 1 <= i < j < n && MapsRow(data, i) && MapsRow(data, j) ==> data[i][0] != data[j][0]
  }

  /** No two mapping rows name the same table. */
  predicate DistinctNames(data: Matrix)
  {
    DistinctBelow(data, |data|)
  }

  /** The entry a row puts into the map builder: one when it has two cells. */
  function RowEntry(row: Row): seq<(string, Option<string>)>
  {
    if |row| >= 2 then [(row[0], Some(row[1]))] else []
  }

  /** The entries put into the builder by the rows with index 1 <= i < n. */
  function MappingEntries(data: Matrix, n: nat): seq<(string, Option<string>)>
  {
    if n <= 1 then []
    else MappingEntries(data, n - 1) + (if n - 1 < |data| then RowEntry(data[n - 1]) else [])
  }

  /**
    ImmutableMap.Builder.build(): the map of the entries in order, refused at
    the first entry whose key an earlier entry already has.
   */
  function BuildMap<V>(entries: seq<(string, V)>): Result<map<string, V>, LoadError>
  {
    if entries == [] then Success(map[])
    else
      var last := entries[|entries| - 1];
      match BuildMap(entries[..|entries| - 1])
      case Failure(e) => Failure(e)
      case Success(m) => if last.0 in m then Failure(DuplicateKey(last.0)) else Success(m[last.0 := last.1])
  }

  /** The table-to-expression mapping the metadata sheet describes. */
  function TableSheetMapping(data: Matrix): Result<Mapping, LoadError>
  {
    BuildMap(MappingEntries(data, |data|))
  }

  /** The table name a row contributes to the listing: cell 0 when there is one. */
  function RowName(row: Row): set<string>
  {
    if |row| > 0 then {row[0]} else {}
  }

  /** The names contributed by the rows with index 1 <= i < n. */
  function ListedNames(data: Matrix, n: nat): set<string>
  {
    if n <= 1 then {}
    else ListedNames(data, n - 1) + (if n - 1 < |data| then RowName(data[n - 1]) else {})
  }

  /** The table names the metadata sheet lists. */
  function TableNames(data: Matrix): set<string>
  {
    ListedNames(data, |data|)
  }

  /**
    m holds exactly the names of the mapping rows below row n, each with
    Some of its cell 1.
   */
  ghost predicate Describes(data: Matrix, n: nat, m: Mapping)
  {
    && (forall t :: t in m <==> exists i :: i < n && MapsRow(data, i) && data[i][0] == t)
    && (forall i :: i < n && MapsRow(data, i) ==> data[i][0] in m && m[data[i][0]] == Some(data[i][1]))
  }

  /** Putting the entry of a mapping row whose name is new keeps the description. */
  lemma DescribesPut(data: Matrix, n: nat, m: Mapping)
    requires 1 < n <= |data| && MapsRow(data, n - 1)
    requires Describes(data, n - 1, m) && data[n - 1][0] !in m
    ensures Describes(data, n, m[data[n - 1][0] := Some(data[n - 1][1])])
  {
    var m' := m[data[n - 1][0] := Some(data[n - 1][1])];
    forall i | i < n && MapsRow(data, i) ensures data[i][0] in m' && m'[data[i][0]] == Some(data[i][1]) {
      if i < n - 1 {
        assert data[i][0] in m;
      }
    }
  }

  /** A row without two cells leaves the description as it is. */
  lemma DescribesSkip(data: Matrix, n: nat, m: Mapping)
    requires 1 < n <= |data| && !MapsRow(data, n - 1)
    requires Describes(data, n - 1, m)
    ensures Describes(data, n, m)
  {
    assert forall i :: i < n && MapsRow(data, i) ==> i < n - 1;
  }

  /** Row n - 1 keeps the names distinct iff it is no mapping row or its name is new. */
  lemma DistinctStep(data: Matrix, n: nat, m: Mapping)
    requires 1 < n <= |data| && Describes(data, n - 1, m)
    ensures DistinctBelow(data, n) <==>
      DistinctBelow(data, n - 1) && (MapsRow(data, n - 1) ==> data[n - 1][0] !in m)
  {
    if MapsRow(data, n - 1) && data[n - 1][0] in m {
      var i :| i < n - 1 && MapsRow(data, i) && data[i][0] == data[n - 1][0];
      assert !DistinctBelow(data, n) by {
        assert MapsRow(data, i) && MapsRow(data, n - 1) && i < n - 1;
      }
    }
  }

  /** The builder after the rows before row n, as the loop of the mapping reaches it. */
  lemma {:induction false} MappingBelow(data: Matrix, n: nat)
    requires n <= |data|
    ensures BuildMap(MappingEntries(data, n)).Success? <==> DistinctBelow(data, n)
    ensures BuildMap(MappingEntries(data, n)).Success? ==> Describes(data, n, BuildMap(MappingEntries(data, n)).value)
  {
    if n > 1 {
      MappingBelow(data, n - 1);
      var e := MappingEntries(data, n - 1);
      var prev := BuildMap(e);
      var k := n - 1;
      if |data[k]| >= 2 {
        var x := (data[k][0], Some(data[k][1]));
        assert MappingEntries(data, n) == e + [x];
        assert (e + [x])[..|e|] == e;
        if prev.Success? {
          DistinctStep(data, n, prev.value);
          if x.0 !in prev.value {
            DescribesPut(data, n, prev.value);
          }
        } else {
          assert !DistinctBelow(data, n - 1);
        }
      } else {
        assert MappingEntries(data, n) == e;
        if prev.Success? {
          DistinctStep(data, n, prev.value);
          DescribesSkip(data, n, prev.value);
        }
      }
    }
  }

  /**
    The mapping exists iff no table is declared twice; then it holds exactly
    the names of the mapping rows, each with Some of its cell 1.
   */
  lemma TableSheetMappingContents(data: Matrix)
    ensures TableSheetMapping(data).Success? <==> DistinctNames(data)
    ensures TableSheetMapping(data).Success? ==>
      forall t :: t in TableSheetMapping(data).value <==> exists i :: MapsRow(data, i) && data[i][0] == t
    ensures TableSheetMapping(data).Success? ==>
      forall i :: MapsRow(data, i) ==> TableSheetMapping(data).value[data[i][0]] == Some(data[i][1])
  {
    MappingBelow(data, |data|);
  }

  /** A table declared twice makes the mapping fail with that name. */
  lemma DuplicateNameRefused(data: Matrix, i: nat, j: nat)
    requires i < j && MapsRow(data, i) && MapsRow(data, j) && data[i][0] == data[j][0]
    ensures TableSheetMapping(data).Failure?
    ensures exists k, l :: (k < l && MapsRow(data, k) && MapsRow(data, l) && data[k][0] == data[l][0] &&
      TableSheetMapping(data) == Failure(DuplicateKey(data[l][0])))
  {
    TableSheetMappingContents(data);
    FirstDuplicate(data, |data|);
  }

  /** A failed build names the table of a row that repeats an earlier row's name. */
  lemma {:induction false} FirstDuplicate(data: Matrix, n: nat)
    requires 2 <= n <= |data|
    requires BuildMap(MappingEntries(data, n)).Failure?
    ensures exists k, l :: (k < l < n && MapsRow(data, k) && MapsRow(data, l) && data[k][0] == data[l][0] &&
      BuildMap(MappingEntries(data, n)) == Failure(DuplicateKey(data[l][0])))
  {
    var e := MappingEntries(data, n - 1);
    var k := n - 1;
    assert n - 1 <= 1 ==> e == [];
    MappingBelow(data, n - 1);
    if |data[k]| >= 2 {
      var x := (data[k][0], Some(data[k][1]));
      assert MappingEntries(data, n) == e + [x];
      assert (e + [x])[..|e|] == e;
      if BuildMap(e).Failure? {
        FirstDuplicate(data, n - 1);
      } else {
        var i :| i < n - 1 && MapsRow(data, i) && data[i][0] == x.0;
        assert BuildMap(MappingEntries(data, n)) == Failure(DuplicateKey(data[k][0]));
      }
    } else {
      assert MappingEntries(data, n) == e;
      FirstDuplicate(data, n - 1);
    }
  }

  /** The names listed from the first n rows. */
  lemma {:induction false} ListedBelow(data: Matrix, n: nat)
    requires n <= |data|
    ensures forall t :: t in ListedNames(data, n) <==> exists i :: i < n && NamesRow(data, i) && data[i][0] == t
  {
    if n > 1 {
      ListedBelow(data, n - 1);
    }
  }

  /** The listing holds exactly cell 0 of the rows below the header that have a cell. */
  lemma TableNamesContents(data: Matrix)
    ensures forall t :: t in TableNames(data) <==> exists i :: NamesRow(data, i) && data[i][0] == t
  {
    ListedBelow(data, |data|);
  }

  /** Every table of the mapping is listed too. */
  lemma MappedTablesAreListed(data: Matrix)
    requires TableSheetMapping(data).Success?
    ensures TableSheetMapping(data).value.Keys <= TableNames(data)
  {
    TableSheetMappingContents(data);
    TableNamesContents(data);
    forall t | t in TableSheetMapping(data).value ensures t in TableNames(data) {
      var i :| MapsRow(data, i) && data[i][0] == t;
      assert NamesRow(data, i);
    }
  }

  /** A row with a single cell lists its table without mapping it. */
  lemma SingleCellRowListedNotMapped(data: Matrix, i: nat)
    requires 1 <= i < |data| && |data[i]| == 1
    requires forall j :: MapsRow(data, j) ==> data[j][0] != data[i][0]
    ensures data[i][0] in TableNames(data)
    ensures TableSheetMapping(data).Success? ==> data[i][0] !in TableSheetMapping(data).value
  {
    TableSheetMappingContents(data);
    TableNamesContents(data);
    assert NamesRow(data, i);
  }

  /** Rows with the same entries below n give the same builder entries. */
  lemma {:induction false} EntriesAgree(d1: Matrix, d2: Matrix, n: nat)
    requires n <= |d1| && n <= |d2|
    requires forall i :: 1 <= i < n ==> RowEntry(d1[i]) == RowEntry(d2[i])
    ensures MappingEntries(d1, n) == MappingEntries(d2, n)
  {
    if n > 1 {
      EntriesAgree(d1, d2, n - 1);
    }
  }

  /** Rows with the same names below n give the same listing. */
  lemma {:induction false} NamesAgree(d1: Matrix, d2: Matrix, n: nat)
    requires n <= |d1| && n <= |d2|
    requires forall i :: 1 <= i < n ==> RowName(d1[i]) == RowName(d2[i])
    ensures ListedNames(d1, n) == ListedNames(d2, n)
  {
    if n > 1 {
      NamesAgree(d1, d2, n - 1);
    }
  }

  /** Whatever the header row holds, neither the mapping nor the listing changes. */
  lemma HeaderIgnored(data: Matrix, header: Row)
    requires |data| >= 1
    ensures TableSheetMapping([header] + data[1..]) == TableSheetMapping(data)
    ensures TableNames([header] + data[1..]) == TableNames(data)
  {
    var other := [header] + data[1..];
    assert forall i :: 1 <= i < |data| ==> other[i] == data[i];
    EntriesAgree(other, data, |data|);
    NamesAgree(other, data, |data|);
  }

  /** Cells after cell 1 of a row change neither the mapping nor the listing. */
  lemma CellsAfterSecondIgnored(data: Matrix, i: nat, extra: Row)
    requires MapsRow(data, i)
    ensures TableSheetMapping(data[i := data[i] + extra]) == TableSheetMapping(data)
    ensures TableNames(data[i := data[i] + extra]) == TableNames(data)
  {
    var other := data[i := data[i] + extra];
    assert RowEntry(other[i]) == RowEntry(data[i]);
    assert RowName(other[i]) == RowName(data[i]);
    EntriesAgree(other, data, |data|);
    NamesAgree(other, data, |data|);
  }

  /** A row added at the end of the metadata sheet adds its name to the listing. */
  lemma AppendedRowListed(data: Matrix, row: Row)
    requires |data| >= 1
    ensures TableNames(data + [row]) == TableNames(data) + RowName(row)
  {
    NamesAgree(data + [row], data, |data|);
  }
}
