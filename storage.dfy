/** db/storage.go: the database handle and the catalog lookups. The catalog
    (sqlite_master) is the table on page 1; its records are scanned in order
    for a table name, with an early return on the first match or error. */
module Storage {
  import opened Base
  import opened RecordCodec
  import opened Pager
  import opened TableSchema

  /** The open database: its header and its file. Neither is changed after
      NewDB. */
  datatype DB = DB(header: DatabaseHeader, file: seq<byte>)

  /** NewDB: the handle exists exactly when the file header can be read. */
  function NewDB(file: seq<byte>): (r: Result<DB>)
    ensures r.Ok? <==> |file| >= HeaderSize && file[..16] == SQLiteMagic
    ensures r.Err? ==> r.error == if |file| < HeaderSize then ReadFailed else InvalidDatabaseFile
    ensures r.Ok? ==>
      && r.value.file == file && r.value.header.headerString == file[..HeaderSize]
      && r.value.header.pageSize == file[16] as int * 256 + file[17] as int
  {
    DatabaseHeaderSpec(file);
    var header :- ReadDatabaseHeader(file);
    Ok(DB(header, file))
  }

  // ---------------------------------------------------------------------------
  // Pages
  // ---------------------------------------------------------------------------

  /** The page number the catalog lives on. */
  const MasterPage: int := 1

  method FindSQLiteMaster(db: DB) returns (r: Result<TableLeafPage>)
    ensures r == LeafPageOf(db.file, db.header.pageSize, MasterPage)
  {
    r := NewTableLeafPage(db.file, db.header.pageSize, MasterPage);
  }

  method FindPageID(db: DB, pageId: int) returns (r: Result<TableLeafPage>)
    ensures r == LeafPageOf(db.file, db.header.pageSize, pageId)
  {
    r := NewTableLeafPage(db.file, db.header.pageSize, pageId);
  }

  /** The catalog page is the first pageSize bytes of the file, and its page
      header sits behind the 100-byte file header. */
  lemma MasterPageShape(db: DB)
    requires LeafPageOf(db.file, db.header.pageSize, MasterPage).Ok?
    ensures var ps, p := db.header.pageSize, LeafPageOf(db.file, db.header.pageSize, MasterPage).value;
      && ps <= |db.file| && 105 <= ps
      && p.header.pageNumber == 1
      && p.header.cellCount == db.file[103] as int * 256 + db.file[104] as int
  {
    var ps := db.header.pageSize;
    LeafPageRead(db.file, ps, MasterPage);
    var pageData := ReadBTreePage(db.file, ps, 1).value;
    LeafPageShape(pageData, MasterPage);
  }

  // ---------------------------------------------------------------------------
  // The catalog scan shared by FindTablePage and FindTableSchema
  // ---------------------------------------------------------------------------

  /** Field f of the first n records, decoded by FieldData. */
  function Column(records: seq<Record>, f: nat, n: nat): (c: seq<Result<FieldDatum>>)
    requires n <= |records|
    ensures |c| == n
  {
    if n == 0 then [] else Column(records, f, n - 1) + [FieldData(records[n - 1], f)]
  }

  lemma {:induction false} ColumnAt(records: seq<Record>, f: nat, n: nat, i: nat)
    requires i < n <= |records|
    ensures Column(records, f, n)[i] == FieldData(records[i], f)
  {
    if i < n - 1 {
      ColumnAt(records, f, n - 1, i);
      assert Column(records, f, n)[i] == Column(records, f, n - 1)[i];
    } else {
      assert |Column(records, f, n - 1)| == i;
    }
  }

  /** FieldData never reports a missing table. */
  lemma ColumnFindsNoTable(records: seq<Record>, f: nat)
    ensures forall i :: 0 <= i < |records| ==>
      (!Column(records, f, |records|)[i].Err? || !Column(records, f, |records|)[i].error.TableNotFound?)
  {
    var c := Column(records, f, |records|);
    forall i | 0 <= i < |c|
      ensures !(c[i].Err? && c[i].error.TableNotFound?)
    {
      ColumnAt(records, f, |records|, i);
    }
  }

  /** A field the scan passes over: a String other than the name. */
  predicate Passes(d: Result<FieldDatum>, name: string) {
    d.Ok? && d.value.fieldType == String && d.value.value.StringValue? && d.value.value.s != name
  }

  /** A field the scan stops at with a match: the String name. */
  predicate Named(d: Result<FieldDatum>, name: string) {
    d.Ok? && d.value.fieldType == String && d.value.value.StringValue? && d.value.value.s == name
  }

  /** The scan passes over the first j fields. */
  predicate PassesFirst(column: seq<Result<FieldDatum>>, name: string, j: nat)
    requires j <= |column|
  {
    forall i :: 0 <= i < j ==> Passes(column[i], name)
  }

  /** Field j is the first one the scan does not pass over. */
  predicate FirstStop(column: seq<Result<FieldDatum>>, name: string, j: nat) {
    j < |column| && !Passes(column[j], name) && PassesFirst(column, name, j)
  }

  /** Where the scan of a column from k on stops: the index of the first field
      that is the name, or the error of the first field that does not decode
      or is not a String (`data.(string)` would panic on a String field whose
      datum is not a string), or table not found. */
  function Scan(column: seq<Result<FieldDatum>>, name: string, k: nat): (r: Result<nat>)
    requires k <= |column|
    ensures r.Ok? ==> k <= r.value < |column| && Named(column[r.value], name)
    decreases |column| - k
  {
    if k == |column| then Err(TableNotFound(name))
    else
      match column[k]
      case Err(e) => Err(e)
      case Ok(d) =>
        if d.fieldType != String then Err(InvalidFieldType)
        else if !d.value.StringValue? then Err(Panic(FailedTypeAssertion))
        else if d.value.s == name then Ok(k)
        else Scan(column, name, k + 1)
  }

  /** What the scan does at the field of record j when it does not pass over
      it. */
  function StopAt(d: Result<FieldDatum>, name: string, j: nat): Result<nat> {
    match d
    case Err(e) => Err(e)
    case Ok(d) =>
      if d.fieldType != String then Err(InvalidFieldType)
      else if !d.value.StringValue? then Err(Panic(FailedTypeAssertion))
      else Ok(j)
  }

  /** The error the scan stops with at a field that is neither passed over
      nor a match. */
  function StopError(d: Result<FieldDatum>): Error {
    match d
    case Err(e) => e
    case Ok(d) => if d.fieldType != String then InvalidFieldType else Panic(FailedTypeAssertion)
  }

  /** A decoded String field always holds a string, so the scan stops at a
      record without a match only on the field's own error or on a field
      that is not a String. */
  lemma StopErrorOfRecord(r: Record, f: nat, name: string)
    requires !Passes(FieldData(r, f), name) && !Named(FieldData(r, f), name)
    ensures var d := FieldData(r, f);
      StopError(d) == if d.Err? then d.error else InvalidFieldType
  {
  }

  /** Fields passed over do not change where the scan ends. */
  lemma {:induction false} ScanSkips(column: seq<Result<FieldDatum>>, name: string, k: nat, j: nat)
    requires k <= j <= |column|
    requires forall i :: k <= i < j ==> Passes(column[i], name)
    ensures Scan(column, name, k) == Scan(column, name, j)
    decreases j - k
  {
    if k < j {
      assert Passes(column[k], name);
      ScanSkips(column, name, k + 1, j);
    }
  }

  /** The scan ends at the first field it does not pass over, with that
      record's index if the field is the name and with its error otherwise;
      the fields after it are never looked at. */
  lemma ScanStops(column: seq<Result<FieldDatum>>, name: string, j: nat)
    requires FirstStop(column, name, j)
    ensures Scan(column, name, 0) == StopAt(column[j], name, j)
    ensures Scan(column, name, 0) == Scan(column[..j + 1], name, 0)
  {
    ScanSkips(column, name, 0, j);
    var prefix := column[..j + 1];
    assert forall i :: 0 <= i < j ==> prefix[i] == column[i];
    ScanSkips(prefix, name, 0, j);
    assert prefix[j] == column[j];
  }

  /** A scan that passes over every field reports table not found. */
  lemma ScanPassesAll(column: seq<Result<FieldDatum>>, name: string)
    requires PassesFirst(column, name, |column|)
    ensures Scan(column, name, 0) == Err(TableNotFound(name))
  {
    ScanSkips(column, name, 0, |column|);
  }

  /** When no field is a table-not-found error, the scan reports table not
      found exactly when it passes over every field. */
  lemma {:induction false} ScanNotFound(column: seq<Result<FieldDatum>>, name: string, k: nat)
    requires k <= |column|
    requires forall i :: 0 <= i < |column| ==> !(column[i].Err? && column[i].error.TableNotFound?)
    ensures Scan(column, name, k) == Err(TableNotFound(name)) <==>
      forall i :: k <= i < |column| ==> Passes(column[i], name)
    ensures k == 0 ==> (Scan(column, name, 0) == Err(TableNotFound(name)) <==> PassesFirst(column, name, |column|))
    decreases |column| - k
  {
    if k < |column| {
      ScanNotFound(column, name, k + 1);
    }
  }

  // ---------------------------------------------------------------------------
  // FindTablePage
  // ---------------------------------------------------------------------------

  /** The column of a catalog record that FindTablePage matches (tbl_name). */
  const TblNameField: nat := 2

  /** The column holding the root page number (rootpage). */
  const RootPageField: nat := 3

  /** `pageNumber.(int8)` on the decoded root page field. */
  function RootPage(d: Result<FieldDatum>): (p: Result<int>)
    ensures p.Ok? <==> d.Ok? && d.value.value.Int8Value?
    ensures p.Ok? ==> d.value.value == Int8Value(p.value)
    ensures p.Err? ==> p.error == if d.Err? then d.error else Panic(FailedTypeAssertion)
  {
    var d :- d;
    if d.value.Int8Value? then Ok(d.value.i) else Err(Panic(FailedTypeAssertion))
  }

  /** The root page is read only from an Int8 field, so it lies in
      [-128, 127]; a root page stored with a wider serial type fails the type
      assertion. */
  lemma RootPageOfRecord(r: Record)
    ensures var d, p := FieldData(r, RootPageField), RootPage(FieldData(r, RootPageField));
      && (p.Ok? <==> d.Ok? && d.value.fieldType == Int8)
      && (p.Ok? ==> -128 <= p.value < 128)
      && (d.Ok? && d.value.fieldType != Int8 ==> p == Err(Panic(FailedTypeAssertion)))
  {
  }

  /** What FindTablePage returns: the catalog's records are read from page 1
      and scanned. */
  function TablePage(db: DB, name: string): Result<TableLeafPage> {
    var master :- LeafPageOf(db.file, db.header.pageSize, MasterPage);
    var records :- CellRecords(master);
    CatalogPage(db, Column(records, TblNameField, |records|), Column(records, RootPageField, |records|), name)
  }

  /** The scan of the catalog's tbl_name column, and the root page of the
      first match, from the rootpage column. */
  function CatalogPage(db: DB, names: seq<Result<FieldDatum>>, roots: seq<Result<FieldDatum>>, name: string): Result<TableLeafPage>
    requires |names| == |roots|
  {
    var j :- Scan(names, name, 0);
    var p :- RootPage(roots[j]);
    LeafPageOf(db.file, db.header.pageSize, p)
  }

  method FindTablePage(db: DB, name: string) returns (r: Result<TableLeafPage>)
    ensures r == TablePage(db, name)
  {
    var master :- FindSQLiteMaster(db);
    var records :- GetRecords(master);
    ghost var column := Column(records, TblNameField, |records|);
    var k := 0;
    while k < |records|
      invariant 0 <= k <= |records|
      invariant Scan(column, name, 0) == Scan(column, name, k)
    {
      var data := FieldData(records[k], TblNameField);
      ColumnAt(records, TblNameField, |records|, k);
      if data.Err? {
        return Err(data.error);
      }
      if data.value.fieldType != String {
        return Err(InvalidFieldType);
      }
      if data.value.value.s == name {
        var pageNumber := FieldData(records[k], RootPageField);
        ColumnAt(records, RootPageField, |records|, k);
        r := OpenRootPage(db, pageNumber);
        return;
      }
      k := k + 1;
    }
    return Err(TableNotFound(name));
  }

  /** FindTablePage's work on the matched record. */
  method OpenRootPage(db: DB, pageNumber: Result<FieldDatum>) returns (r: Result<TableLeafPage>)
    ensures r == (var p :- RootPage(pageNumber); LeafPageOf(db.file, db.header.pageSize, p))
  {
    if pageNumber.Err? {
      return Err(pageNumber.error);
    }
    if !pageNumber.value.value.Int8Value? {
      return Err(Panic(FailedTypeAssertion));
    }
    r := FindPageID(db, pageNumber.value.value.i);
  }

  /** FindTablePage opens the root page of the first record whose tbl_name
      is `name`. */
  lemma TablePageFirstMatch(db: DB, names: seq<Result<FieldDatum>>, roots: seq<Result<FieldDatum>>, name: string, j: nat)
    requires |names| == |roots| && FirstStop(names, name, j) && Named(names[j], name)
    ensures CatalogPage(db, names, roots, name) ==
      match RootPage(roots[j])
      case Err(e) => Err(e)
      case Ok(p) => LeafPageOf(db.file, db.header.pageSize, p)
  {
    ScanStops(names, name, j);
  }

  /** A record whose tbl_name does not decode or is not a String ends
      FindTablePage with that record's error, whatever follows it. */
  lemma TablePageStops(db: DB, names: seq<Result<FieldDatum>>, roots: seq<Result<FieldDatum>>, name: string, j: nat)
    requires |names| == |roots| && FirstStop(names, name, j) && !Named(names[j], name)
    ensures CatalogPage(db, names, roots, name) == Err(StopError(names[j]))
  {
    ScanStops(names, name, j);
  }

  /** A name that no record has in tbl_name gives table not found. */
  lemma TablePageNotFound(db: DB, names: seq<Result<FieldDatum>>, roots: seq<Result<FieldDatum>>, name: string)
    requires |names| == |roots| && PassesFirst(names, name, |names|)
    ensures CatalogPage(db, names, roots, name) == Err(TableNotFound(name))
  {
    ScanPassesAll(names, name);
  }

  // ---------------------------------------------------------------------------
  // FindTableSchema, FindSQLiteSchema
  // ---------------------------------------------------------------------------

  /** The column FindTableSchema matches (name) and the one holding the CREATE
      statement (sql). */
  const NameField: nat := 1
  const SqlField: nat := 4

  /** The catalog's own schema, which FindSQLiteSchema parses. */
  const MasterSql: string :=
    "CREATE TABLE sqlite_schema (type text, name text, tbl_name text, rootpage integer, sql text);"

  /** The name under which the catalog itself is looked up. */
  const MasterName: string := "sqlite_master"

  /** A TableSchemaInfo with only PageID and RawSQL set, as handed to the
      parser and TableSchemaVisitor. */
  function Seed(pageId: int, rawSql: string): (s: TableSchemaInfo)
    ensures s.pageId == pageId && s.rawSql == rawSql
    ensures s.(pageId := 0, rawSql := "") == NoSchema
  {
    NoSchema.(pageId := pageId, rawSql := rawSql)
  }

  /** FindSQLiteSchema: the catalog's fixed schema on page 1, completed by the
      parser and visitor `visit`. */
  function FindSQLiteSchema(visit: TableSchemaInfo -> Result<TableSchemaInfo>): Result<TableSchemaInfo> {
    visit(Seed(1, MasterSql))
  }

  /** The schema from a matched catalog record's sql and rootpage fields:
      the two errors are checked in that order, then `rootPage.(int8)` and
      `rawQuery.(string)` are asserted, then the statement is parsed from the
      seeded schema. */
  function SchemaOf(rawQuery: Result<FieldDatum>, rootPage: Result<FieldDatum>,
                    visit: TableSchemaInfo -> Result<TableSchemaInfo>): (s: Result<TableSchemaInfo>)
    ensures rawQuery.Err? ==> s == Err(rawQuery.error)
    ensures rawQuery.Ok? && rootPage.Err? ==> s == Err(rootPage.error)
    ensures rawQuery.Ok? && rootPage.Ok? && !(rootPage.value.value.Int8Value? && rawQuery.value.value.StringValue?) ==>
      s == Err(Panic(FailedTypeAssertion))
    ensures rawQuery.Ok? && RootPage(rootPage).Ok? && rawQuery.value.value.StringValue? ==>
      s == visit(Seed(RootPage(rootPage).value, rawQuery.value.value.s))
  {
    var q :- rawQuery;
    var p :- rootPage;
    if !p.value.Int8Value? then Err(Panic(FailedTypeAssertion))
    else if !q.value.StringValue? then Err(Panic(FailedTypeAssertion))
    else visit(Seed(p.value.i, q.value.s))
  }

  /** What FindTableSchema returns. */
  function TableSchemaOf(db: DB, name: string, visit: TableSchemaInfo -> Result<TableSchemaInfo>): Result<TableSchemaInfo> {
    if name == MasterName then FindSQLiteSchema(visit)
    else
      var master :- LeafPageOf(db.file, db.header.pageSize, MasterPage);
      var records :- CellRecords(master);
      var n := |records|;
      CatalogSchema(Column(records, NameField, n), Column(records, SqlField, n), Column(records, RootPageField, n), name, visit)
  }

  /** The scan of the catalog's records on name, and the schema of the first
      match. */
  function CatalogSchema(names: seq<Result<FieldDatum>>, sqls: seq<Result<FieldDatum>>, roots: seq<Result<FieldDatum>>,
                         name: string, visit: TableSchemaInfo -> Result<TableSchemaInfo>): Result<TableSchemaInfo>
    requires |names| == |sqls| == |roots|
  {
    var j :- Scan(names, name, 0);
    SchemaOf(sqls[j], roots[j], visit)
  }

  method FindTableSchema(db: DB, name: string, visit: TableSchemaInfo -> Result<TableSchemaInfo>)
    returns (r: Result<TableSchemaInfo>)
    ensures r == TableSchemaOf(db, name, visit)
  {
    if name == MasterName {
      return FindSQLiteSchema(visit);
    }
    var master :- FindSQLiteMaster(db);
    var records :- GetRecords(master);
    ghost var column := Column(records, NameField, |records|);
    var k := 0;
    while k < |records|
      invariant 0 <= k <= |records|
      invariant Scan(column, name, 0) == Scan(column, name, k)
    {
      var data := FieldData(records[k], NameField);
      ColumnAt(records, NameField, |records|, k);
      if data.Err? {
        return Err(data.error);
      }
      if data.value.fieldType != String {
        return Err(InvalidFieldType);
      }
      if data.value.value.s == name {
        var rawQuery, rootPage := FieldData(records[k], SqlField), FieldData(records[k], RootPageField);
        ColumnAt(records, SqlField, |records|, k);
        ColumnAt(records, RootPageField, |records|, k);
        r := SchemaFrom(rawQuery, rootPage, visit);
        return;
      }
      k := k + 1;
    }
    return Err(TableNotFound(name));
  }

  /** FindTableSchema's work on the matched record. */
  method SchemaFrom(rawQuery: Result<FieldDatum>, rootPage: Result<FieldDatum>, visit: TableSchemaInfo -> Result<TableSchemaInfo>)
    returns (r: Result<TableSchemaInfo>)
    ensures r == SchemaOf(rawQuery, rootPage, visit)
  {
    if rawQuery.Err? {
      return Err(rawQuery.error);
    }
    if rootPage.Err? {
      return Err(rootPage.error);
    }
    if !rootPage.value.value.Int8Value? || !rawQuery.value.value.StringValue? {
      return Err(Panic(FailedTypeAssertion));
    }
    var tableSchema := Seed(rootPage.value.value.i, rawQuery.value.value.s);
    r := visit(tableSchema);
  }

  /** The catalog is looked up under its own name without reading the file:
      any two files give the same answer, the fixed schema on page 1. */
  lemma MasterSchemaNoScan(db: DB, db': DB, visit: TableSchemaInfo -> Result<TableSchemaInfo>)
    ensures TableSchemaOf(db, MasterName, visit) == TableSchemaOf(db', MasterName, visit)
    ensures TableSchemaOf(db, MasterName, visit) == visit(Seed(1, MasterSql))
  {
  }

  /** Other names are matched on the name column, and the first match's
      schema is what its sql and rootpage fields give. */
  lemma TableSchemaFirstMatch(names: seq<Result<FieldDatum>>, sqls: seq<Result<FieldDatum>>, roots: seq<Result<FieldDatum>>,
                              name: string, visit: TableSchemaInfo -> Result<TableSchemaInfo>, j: nat)
    requires |names| == |sqls| == |roots| && FirstStop(names, name, j) && Named(names[j], name)
    ensures CatalogSchema(names, sqls, roots, name, visit) == SchemaOf(sqls[j], roots[j], visit)
  {
    ScanStops(names, name, j);
  }

  /** A record whose sql column is a String and whose rootpage is an int8
      gives the schema seeded with PageID from rootpage and RawSQL from sql. */
  lemma SchemaSeed(r: Record, visit: TableSchemaInfo -> Result<TableSchemaInfo>)
    requires FieldData(r, SqlField).Ok? && FieldData(r, SqlField).value.fieldType == String
    requires FieldData(r, RootPageField).Ok? && FieldData(r, RootPageField).value.fieldType == Int8
    ensures SchemaOf(FieldData(r, SqlField), FieldData(r, RootPageField), visit) ==
      visit(Seed(FieldData(r, RootPageField).value.value.i, FieldData(r, SqlField).value.value.s))
  {
  }

  /** A record whose name does not decode or is not a String ends
      FindTableSchema with that record's error, whatever follows it. */
  lemma TableSchemaStops(names: seq<Result<FieldDatum>>, sqls: seq<Result<FieldDatum>>, roots: seq<Result<FieldDatum>>,
                         name: string, visit: TableSchemaInfo -> Result<TableSchemaInfo>, j: nat)
    requires |names| == |sqls| == |roots| && FirstStop(names, name, j) && !Named(names[j], name)
    ensures CatalogSchema(names, sqls, roots, name, visit) == Err(StopError(names[j]))
  {
    ScanStops(names, name, j);
  }

  /** A name that no catalog record has in its name column gives table not
      found. */
  lemma TableSchemaNotFound(names: seq<Result<FieldDatum>>, sqls: seq<Result<FieldDatum>>, roots: seq<Result<FieldDatum>>,
                            name: string, visit: TableSchemaInfo -> Result<TableSchemaInfo>)
    requires |names| == |sqls| == |roots| && PassesFirst(names, name, |names|)
    ensures CatalogSchema(names, sqls, roots, name, visit) == Err(TableNotFound(name))
  {
    ScanPassesAll(names, name);
  }
}
