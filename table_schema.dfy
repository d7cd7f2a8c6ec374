/** db/table_schema.go: a table's schema as the catalog describes it, and the
    two helpers that resolve column names and the primary key. */
module TableSchema {
  import opened RecordCodec

  datatype TableColumnInfo = TableColumnInfo(idx: int, name: string, columnType: FieldType)

  datatype TableSchemaInfo = TableSchemaInfo(
    pageId: int,
    rawSql: string,
    isAutoIncrement: bool,
    autoIncrementColumn: nat,
    name: string,
    primaryKey: TableColumnInfo,
    columns: seq<TableColumnInfo>)

  /** The zero value of TableColumnInfo: index 0, no name, type Null. */
  const NoColumn := TableColumnInfo(0, "", Null)

  /** The zero value of TableSchemaInfo. */
  const NoSchema := TableSchemaInfo(0, "", false, 0, "", NoColumn, [])

  /** HasPrimaryKey: the primary key differs from the zero column. */
  predicate HasPrimaryKey(info: TableSchemaInfo)
    ensures HasPrimaryKey(info) <==>
      info.primaryKey.idx != 0 || info.primaryKey.name != "" || info.primaryKey.columnType != Null
  {
    info.primaryKey != NoColumn
  }

  // ---------------------------------------------------------------------------
  // ColumnIndex
  // ---------------------------------------------------------------------------

  /** The inner loop of ColumnIndex over the first m requested names: the
      column's index once for each of them that is its name. */
  function Matches(col: TableColumnInfo, fields: seq<string>, m: nat): seq<int>
    requires m <= |fields|
  {
    if m == 0 then []
    else Matches(col, fields, m - 1) + (if col.name == fields[m - 1] then [col.idx] else [])
  }

  /** The indexes ColumnIndex collects from the first n columns. */
  function Indexes(columns: seq<TableColumnInfo>, fields: seq<string>, n: nat): seq<int>
    requires n <= |columns|
  {
    if n == 0 then []
    else Indexes(columns, fields, n - 1) + Matches(columns[n - 1], fields, |fields|)
  }

  function ColumnIndexes(info: TableSchemaInfo, fields: seq<string>): seq<int> {
    Indexes(info.columns, fields, |info.columns|)
  }

  method ColumnIndex(info: TableSchemaInfo, fields: seq<string>) returns (indexes: seq<int>)
    ensures indexes == ColumnIndexes(info, fields)
  {
    indexes := [];
    var c := 0;
    while c < |info.columns|
      invariant 0 <= c <= |info.columns|
      invariant indexes == Indexes(info.columns, fields, c)
    {
      var col := info.columns[c];
      var f := 0;
      while f < |fields|
        invariant 0 <= f <= |fields|
        invariant indexes == Indexes(info.columns, fields, c) + Matches(col, fields, f)
      {
        if col.name == fields[f] {
          indexes := indexes + [col.idx];
        }
        f := f + 1;
      }
      c := c + 1;
    }
  }

  /** `count` copies of x. */
  function Repeat(x: int, count: nat): (s: seq<int>)
    ensures |s| == count && forall i :: 0 <= i < count ==> s[i] == x
  {
    if count == 0 then [] else Repeat(x, count - 1) + [x]
  }

  /** A column contributes its index once per request of its name. */
  lemma {:induction false} MatchesRepeat(col: TableColumnInfo, fields: seq<string>, m: nat)
    requires m <= |fields|
    ensures Matches(col, fields, m) == Repeat(col.idx, multiset(fields[..m])[col.name])
  {
    if m > 0 {
      MatchesRepeat(col, fields, m - 1);
      assert fields[..m] == fields[..m - 1] + [fields[m - 1]];
      var k := multiset(fields[..m - 1])[col.name];
      if col.name == fields[m - 1] {
        assert multiset(fields[..m])[col.name] == k + 1;
        assert Repeat(col.idx, k + 1) == Repeat(col.idx, k) + [col.idx];
      } else {
        assert multiset(fields[..m])[col.name] == k;
      }
    }
  }

  /** The columns' indexes in column order, each repeated as often as its name
      is requested. */
  function Repeated(columns: seq<TableColumnInfo>, names: multiset<string>): seq<int> {
    if |columns| == 0 then []
    else Repeated(columns[..|columns| - 1], names) + Repeat(columns[|columns| - 1].idx, names[columns[|columns| - 1].name])
  }

  /** ColumnIndex walks the columns in their own order and depends on the
      request only through how often each name occurs in it. */
  lemma {:induction false} IndexesRepeated(columns: seq<TableColumnInfo>, fields: seq<string>, n: nat)
    requires n <= |columns|
    ensures Indexes(columns, fields, n) == Repeated(columns[..n], multiset(fields))
  {
    if n > 0 {
      IndexesRepeated(columns, fields, n - 1);
      MatchesRepeat(columns[n - 1], fields, |fields|);
      assert fields[..|fields|] == fields;
      assert columns[..n][..n - 1] == columns[..n - 1];
    }
  }

  /** The order of the requested names does not matter, only their
      multiplicities. */
  lemma RequestOrderIrrelevant(info: TableSchemaInfo, fields: seq<string>, fields': seq<string>)
    requires multiset(fields) == multiset(fields')
    ensures ColumnIndexes(info, fields) == ColumnIndexes(info, fields')
  {
    assert info.columns[..|info.columns|] == info.columns;
    IndexesRepeated(info.columns, fields, |info.columns|);
    IndexesRepeated(info.columns, fields', |info.columns|);
  }

  /** A requested name that no column has changes nothing. */
  lemma UnknownNameIgnored(info: TableSchemaInfo, fields: seq<string>, name: string)
    requires forall c :: 0 <= c < |info.columns| ==> info.columns[c].name != name
    ensures ColumnIndexes(info, fields + [name]) == ColumnIndexes(info, fields)
  {
    assert info.columns[..|info.columns|] == info.columns;
    IndexesRepeated(info.columns, fields, |info.columns|);
    IndexesRepeated(info.columns, fields + [name], |info.columns|);
    RepeatedIgnores(info.columns, multiset(fields), name);
  }

  lemma {:induction false} RepeatedIgnores(columns: seq<TableColumnInfo>, names: multiset<string>, name: string)
    requires forall c :: 0 <= c < |columns| ==> columns[c].name != name
    ensures Repeated(columns, names + multiset{name}) == Repeated(columns, names)
  {
    if |columns| > 0 {
      RepeatedIgnores(columns[..|columns| - 1], names, name);
    }
  }

  /** An empty request gives no indexes. */
  lemma {:induction false} EmptyRequest(columns: seq<TableColumnInfo>, n: nat)
    requires n <= |columns|
    ensures Indexes(columns, [], n) == []
  {
    if n > 0 {
      EmptyRequest(columns, n - 1);
    }
  }

  /** A column's index is among its matches exactly when its name is among
      the first m requested names. */
  lemma {:induction false} MatchesMembers(col: TableColumnInfo, fields: seq<string>, m: nat, x: int)
    requires m <= |fields|
    ensures x in Matches(col, fields, m) <==> col.idx == x && col.name in fields[..m]
  {
    if m > 0 {
      MatchesMembers(col, fields, m - 1, x);
      assert fields[..m] == fields[..m - 1] + [fields[m - 1]];
    }
  }

  /** An index is collected exactly when some column with that index has a
      requested name; names no column has contribute nothing. */
  lemma {:induction false} IndexesMembers(columns: seq<TableColumnInfo>, fields: seq<string>, n: nat, x: int)
    requires n <= |columns|
    ensures x in Indexes(columns, fields, n) <==> exists c :: 0 <= c < n && columns[c].idx == x && columns[c].name in fields
  {
    if n > 0 {
      IndexesMembers(columns, fields, n - 1, x);
      MatchesMembers(columns[n - 1], fields, |fields|, x);
      assert fields[..|fields|] == fields;
      assert Indexes(columns, fields, n) == Indexes(columns, fields, n - 1) + Matches(columns[n - 1], fields, |fields|);
    }
  }

  /** The number of indexes is the number of (column, request) pairs whose
      names agree. */
  lemma {:induction false} IndexesLength(columns: seq<TableColumnInfo>, fields: seq<string>, n: nat)
    requires n <= |columns|
    ensures |Indexes(columns, fields, n)| == NameOccurrences(columns[..n], multiset(fields))
  {
    if n > 0 {
      IndexesLength(columns, fields, n - 1);
      MatchesRepeat(columns[n - 1], fields, |fields|);
      assert fields[..|fields|] == fields;
      assert columns[..n][..n - 1] == columns[..n - 1];
    }
  }

  /** How often the columns' names occur among the requested names, summed. */
  function NameOccurrences(columns: seq<TableColumnInfo>, names: multiset<string>): nat {
    if |columns| == 0 then 0
    else NameOccurrences(columns[..|columns| - 1], names) + names[columns[|columns| - 1].name]
  }
}
