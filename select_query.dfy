/** executor/select_query.go: a SELECT over already parsed query
    information. The records of the joined tables are collected in order,
    turned into rows, and replaced by a single count when the query selects
    COUNT(*). */
module SelectQuery {
  import opened Base
  import opened RecordCodec
  import opened Pager
  import opened Storage
  import opened Query
  import opened ExecTuple

  /** The records one JoinTables entry contributes: the catalog's own page for
      sqlite_master, and the page found through the catalog otherwise. */
  function TableRecords(db: DB, table: string): Result<seq<Record>> {
    if table == MasterName then
      var master :- LeafPageOf(db.file, db.header.pageSize, MasterPage);
      CellRecords(master)
    else
      var page :- TablePage(db, table);
      CellRecords(page)
  }

  /** Each JoinTables entry read from this database. */
  function Reader(db: DB): string -> Result<seq<Record>> {
    table => TableRecords(db, table)
  }

  /** What each of the first n tables gives when read with `read`. */
  function Results(read: string -> Result<seq<Record>>, tables: seq<string>, n: nat): (rs: seq<Result<seq<Record>>>)
    requires n <= |tables|
    ensures |rs| == n
  {
    if n == 0 then [] else Results(read, tables, n - 1) + [read(tables[n - 1])]
  }

  lemma {:induction false} ResultsAt(read: string -> Result<seq<Record>>, tables: seq<string>, n: nat, t: nat)
    requires t < n <= |tables|
    ensures Results(read, tables, n)[t] == read(tables[t])
  {
    if t < n - 1 {
      ResultsAt(read, tables, n - 1, t);
      assert Results(read, tables, n)[t] == Results(read, tables, n - 1)[t];
    } else {
      assert |Results(read, tables, n - 1)| == t;
    }
  }

  /** The records of the first n results, appended in order; the first
      failure aborts. */
  function Flatten(results: seq<Result<seq<Record>>>, n: nat): Result<seq<Record>>
    requires n <= |results|
  {
    if n == 0 then Ok([])
    else
      var before :- Flatten(results, n - 1);
      var rs :- results[n - 1];
      Ok(before + rs)
  }

  /** The records of the tables, each read with `read`, in table order. */
  function Collected(read: string -> Result<seq<Record>>, tables: seq<string>): Result<seq<Record>> {
    Flatten(Results(read, tables, |tables|), |tables|)
  }

  /** The records of all the joined tables. */
  function Joined(db: DB, tables: seq<string>): Result<seq<Record>> {
    Collected(Reader(db), tables)
  }

  /** A select expression COUNT(*). */
  predicate CountsAll(f: SelectFieldExpression) {
    f.isAgg && f.colName == "*" && f.aggType == CountAggregate
  }

  predicate AnyCountsAll(fields: seq<SelectFieldExpression>) {
    exists i :: 0 <= i < |fields| && CountsAll(fields[i])
  }

  /** What ExecuteSelectQuery returns for a database file. */
  function SelectResult(file: seq<byte>, info: QueryInfo): Result<seq<seq<Tuple>>> {
    var db :- NewDB(file);
    var records :- Joined(db, info.joinTables);
    Answer(records, info.selectFields)
  }

  /** The answer from the collected records: their rows, or the count alone
      when COUNT(*) is selected. */
  function Answer(records: seq<Record>, fields: seq<SelectFieldExpression>): Result<seq<seq<Tuple>>> {
    var rows :- RowsFrom(records, 0);
    if AnyCountsAll(fields) then Ok([[Int64Tuple(|records|)]]) else Ok(rows)
  }

  method ExecuteSelectQuery(file: seq<byte>, info: QueryInfo) returns (r: Result<seq<seq<Tuple>>>)
    ensures r == SelectResult(file, info)
  {
    var db :- NewDB(file);
    var records :- CollectRecords(db, info.joinTables);
    r := AnswerFrom(records, info.selectFields);
  }

  /** ExecuteSelectQuery after the records are collected. */
  method AnswerFrom(records: seq<Record>, fields: seq<SelectFieldExpression>) returns (r: Result<seq<seq<Tuple>>>)
    ensures r == Answer(records, fields)
  {
    var rows :- RecordsToRows(records);
    var i := 0;
    while i < |fields|
      invariant 0 <= i <= |fields|
      invariant forall j :: 0 <= j < i ==> !CountsAll(fields[j])
    {
      var field := fields[i];
      if field.isAgg {
        if field.colName == "*" && field.aggType == CountAggregate {
          return Ok([[Int64Tuple(|records|)]]);
        }
      }
      i := i + 1;
    }
    return Ok(rows);
  }

  /** ExecuteSelectQuery's loop over JoinTables. */
  method CollectRecords(db: DB, tables: seq<string>) returns (r: Result<seq<Record>>)
    ensures r == Joined(db, tables)
  {
    ghost var results := Results(Reader(db), tables, |tables|);
    var records: seq<Record> := [];
    var t := 0;
    while t < |tables|
      invariant 0 <= t <= |tables|
      invariant Flatten(results, t) == Ok(records)
    {
      var rs := ReadTable(db, tables[t]);
      ResultsAt(Reader(db), tables, |tables|, t);
      if rs.Err? {
        FlattenAborts(results, t, |tables|);
        return Err(rs.error);
      }
      records := records + rs.value;
      t := t + 1;
    }
    return Ok(records);
  }

  /** One pass of the JoinTables loop. */
  method ReadTable(db: DB, table: string) returns (r: Result<seq<Record>>)
    ensures r == TableRecords(db, table)
  {
    if table == MasterName {
      var master :- FindSQLiteMaster(db);
      r := GetRecords(master);
      return;
    }
    var page :- FindTablePage(db, table);
    r := GetRecords(page);
  }

  /** Once result t fails, the whole collection fails with its error. */
  lemma {:induction false} FlattenAborts(results: seq<Result<seq<Record>>>, t: nat, n: nat)
    requires t < n <= |results| && Flatten(results, t).Ok? && results[t].Err?
    ensures Flatten(results, n) == Err(results[t].error)
  {
    if n > t + 1 {
      FlattenAborts(results, t, n - 1);
    }
  }

  /** The collection fails exactly when some result fails, and then with the
      first failure's error. */
  lemma {:induction false} FlattenFails(results: seq<Result<seq<Record>>>, n: nat)
    requires n <= |results|
    ensures Flatten(results, n).Err? <==> exists t :: 0 <= t < n && results[t].Err?
    ensures Flatten(results, n).Err? ==> exists t :: (0 <= t < n && results[t] == Err(Flatten(results, n).error) &&
      forall u :: 0 <= u < t ==> results[u].Ok?)
  {
    if n > 0 {
      FlattenFails(results, n - 1);
    }
  }

  /** The records of two lists of results, one after the other, are the first
      list's records followed by the second's; a failure in the first list is
      reported before the second is looked at. */
  lemma {:induction false} FlattenAppend(first: seq<Result<seq<Record>>>, second: seq<Result<seq<Record>>>, n: nat)
    requires n <= |second|
    ensures Flatten(first + second, |first| + n) ==
      match Flatten(first, |first|)
      case Err(e) => Err(e)
      case Ok(r1) =>
        match Flatten(second, n)
        case Err(e) => Err(e)
        case Ok(r2) => Ok(r1 + r2)
  {
    if n == 0 {
      FlattenPrefix(first, second, |first|);
      if Flatten(first, |first|).Ok? {
        assert Flatten(first, |first|).value + [] == Flatten(first, |first|).value;
      }
    } else {
      FlattenAppend(first, second, n - 1);
      assert (first + second)[|first| + n - 1] == second[n - 1];
      var r1, r2 := Flatten(first, |first|), Flatten(second, n - 1);
      if r1.Ok? && r2.Ok? && second[n - 1].Ok? {
        assert r1.value + r2.value + second[n - 1].value == r1.value + (r2.value + second[n - 1].value);
      }
    }
  }

  lemma {:induction false} FlattenPrefix(first: seq<Result<seq<Record>>>, second: seq<Result<seq<Record>>>, n: nat)
    requires n <= |first|
    ensures Flatten(first + second, n) == Flatten(first, n)
  {
    if n > 0 {
      FlattenPrefix(first, second, n - 1);
      assert (first + second)[n - 1] == first[n - 1];
    }
  }

  lemma {:induction false} ResultsAppend(read: string -> Result<seq<Record>>, first: seq<string>, second: seq<string>, n: nat)
    requires n <= |second|
    ensures Results(read, first + second, |first| + n) == Results(read, first, |first|) + Results(read, second, n)
  {
    if n == 0 {
      ResultsPrefix(read, first, second, |first|);
    } else {
      ResultsAppend(read, first, second, n - 1);
      assert (first + second)[|first| + n - 1] == second[n - 1];
    }
  }

  lemma {:induction false} ResultsPrefix(read: string -> Result<seq<Record>>, first: seq<string>, second: seq<string>, n: nat)
    requires n <= |first|
    ensures Results(read, first + second, n) == Results(read, first, n)
  {
    if n > 0 {
      ResultsPrefix(read, first, second, n - 1);
      assert (first + second)[n - 1] == first[n - 1];
    }
  }

  /** Collecting two lists of tables gives the first list's records, then the
      second's; a failure in the first list is reported before the second is
      read. This holds for every way of reading a table, the database's own
      (Reader) included. */
  lemma CollectedAppend(read: string -> Result<seq<Record>>, first: seq<string>, second: seq<string>)
    ensures Collected(read, first + second) ==
      match Collected(read, first)
      case Err(e) => Err(e)
      case Ok(r1) =>
        match Collected(read, second)
        case Err(e) => Err(e)
        case Ok(r2) => Ok(r1 + r2)
  {
    ResultsAppend(read, first, second, |second|);
    FlattenAppend(Results(read, first, |first|), Results(read, second, |second|), |second|);
  }

  /** One table's records, collected alone. */
  lemma CollectedOne(read: string -> Result<seq<Record>>, table: string)
    ensures Collected(read, [table]) == read(table)
  {
    ResultsAt(read, [table], 1, 0);
    var rs := Results(read, [table], 1);
    assert Flatten(rs, 0) == Ok([]);
    if rs[0].Ok? {
      assert [] + rs[0].value == rs[0].value;
    }
  }

  /** The collection fails exactly when reading some table fails, and then
      with the error of the first table that fails. */
  lemma CollectedFails(read: string -> Result<seq<Record>>, tables: seq<string>)
    ensures Collected(read, tables).Err? <==> exists t :: 0 <= t < |tables| && read(tables[t]).Err?
    ensures Collected(read, tables).Err? ==> exists t :: (0 <= t < |tables| && read(tables[t]) == Err(Collected(read, tables).error) &&
      forall u :: 0 <= u < t ==> read(tables[u]).Ok?)
  {
    var n := |tables|;
    var rs := Results(read, tables, n);
    forall t | 0 <= t < n
      ensures rs[t] == read(tables[t])
    {
      ResultsAt(read, tables, n, t);
    }
    FlattenFails(rs, n);
  }

  /** sqlite_master is read from page 1 without a catalog lookup: even when no
      catalog record is named sqlite_master, so that the lookup would report
      table not found, the catalog's records are collected. */
  lemma MasterBypassesCatalog(db: DB, records: seq<Record>)
    requires LeafPageOf(db.file, db.header.pageSize, MasterPage).Ok?
    requires CellRecords(LeafPageOf(db.file, db.header.pageSize, MasterPage).value) == Ok(records)
    requires PassesFirst(Column(records, TblNameField, |records|), MasterName, |records|)
    ensures TablePage(db, MasterName) == Err(TableNotFound(MasterName))
    ensures TableRecords(db, MasterName) == Ok(records)
  {
    var n := |records|;
    TablePageNotFound(db, Column(records, TblNameField, n), Column(records, RootPageField, n), MasterName);
  }

  /** With COUNT(*) among the select expressions, the result is exactly one
      row holding one Int64 tuple, the number of collected records, whatever
      the other expressions are. */
  lemma CountAllRow(file: seq<byte>, info: QueryInfo, fields: seq<SelectFieldExpression>)
    requires AnyCountsAll(info.selectFields) && AnyCountsAll(fields)
    ensures SelectResult(file, info) == SelectResult(file, info.(selectFields := fields))
    ensures SelectResult(file, info).Ok? ==>
      && NewDB(file).Ok?
      && var records := Joined(NewDB(file).value, info.joinTables);
         records.Ok? && SelectResult(file, info) == Ok([[Int64Tuple(|records.value|)]])
  {
  }

  /** Without COUNT(*) the select expressions do not shape the result: it is
      the rows of the collected records, as for an empty select list. A
      non-COUNT aggregate, or COUNT over a column, falls through to them. */
  lemma OtherFieldsFallThrough(file: seq<byte>, info: QueryInfo)
    requires !AnyCountsAll(info.selectFields)
    ensures SelectResult(file, info) == SelectResult(file, info.(selectFields := []))
    ensures SelectResult(file, info).Ok? ==>
      && NewDB(file).Ok?
      && var records := Joined(NewDB(file).value, info.joinTables);
         records.Ok? && SelectResult(file, info) == RowsFrom(records.value, 0)
  {
  }

  /** A file whose header cannot be read gives its error. */
  lemma BadFileFails(file: seq<byte>, info: QueryInfo)
    requires !(|file| >= HeaderSize && file[..16] == SQLiteMagic)
    ensures SelectResult(file, info) == Err(if |file| < HeaderSize then ReadFailed else InvalidDatabaseFile)
  {
  }
}
