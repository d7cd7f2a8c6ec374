/** db/tuple.go: records turned into rows of tuples, with a NULL primary key
    replaced by the rowid, and rows rendered as text. */
module DbTuple {
  import opened Base
  import opened RecordCodec
  import opened TableSchema
  import opened Query
  import opened Text

  datatype Tuple = Int64Tuple(i: int) | StringTuple(s: string) | Int8Tuple(i: int) | NullTuple

  // ---------------------------------------------------------------------------
  // RecordsToRows
  // ---------------------------------------------------------------------------

  /** A NULL field stands for the rowid when it is the table's primary key. */
  predicate IsRowIdAlias(r: Record, i: nat, info: TableSchemaInfo)
    requires i < |r.header.fields|
  {
    HasPrimaryKey(info) && r.header.fields[i].fieldIdx == info.primaryKey.idx
  }

  /** The tuples one decoded field adds to its row: the switch on the field
      type, with the type assertions `data.(int8)`, `data.(int64)` and
      `data.(string)`; any other type adds nothing. */
  function FieldTuples(r: Record, i: nat, d: FieldDatum, info: TableSchemaInfo): Result<seq<Tuple>>
    requires i < |r.header.fields|
  {
    match d.fieldType
    case Null => Ok([if IsRowIdAlias(r, i, info) then Int64Tuple(r.rowId) else NullTuple])
    case Int8 => if d.value.Int8Value? then Ok([Int8Tuple(d.value.i)]) else Err(Panic(FailedTypeAssertion))
    case Int64 => if d.value.Int64Value? then Ok([Int64Tuple(d.value.i)]) else Err(Panic(FailedTypeAssertion))
    case String => if d.value.StringValue? then Ok([StringTuple(d.value.s)]) else Err(Panic(FailedTypeAssertion))
    case _ => Ok([])
  }

  /** FieldData of the first n fields of r, in field order. */
  function Decoded(r: Record, n: nat): (ds: seq<Result<FieldDatum>>)
    requires n <= |r.header.fields|
    ensures |ds| == n
  {
    if n == 0 then [] else Decoded(r, n - 1) + [FieldData(r, n - 1)]
  }

  lemma {:induction false} DecodedAt(r: Record, n: nat, j: nat)
    requires j < n <= |r.header.fields|
    ensures Decoded(r, n)[j] == FieldData(r, j)
  {
    if j < n - 1 {
      DecodedAt(r, n - 1, j);
      assert Decoded(r, n)[j] == Decoded(r, n - 1)[j];
    } else {
      assert |Decoded(r, n - 1)| == j;
    }
  }

  /** FieldData of every field of r. */
  function AllDecoded(r: Record): (ds: seq<Result<FieldDatum>>)
    ensures |ds| == |r.header.fields|
  {
    Decoded(r, |r.header.fields|)
  }

  /** The row built from the fields of r from i on, given their decoded
      values ds. A FieldData error that is not a panic ends the whole
      conversion. */
  function RowOf(r: Record, ds: seq<Result<FieldDatum>>, info: TableSchemaInfo, i: nat): RowOutcome<Tuple>
    requires |ds| == |r.header.fields| && i <= |ds|
    decreases |ds| - i
  {
    if i == |ds| then Row([])
    else
      match ds[i]
      case Err(e) => if e.IsPanic() then Panicked(e) else Stopped
      case Ok(d) =>
        match FieldTuples(r, i, d, info)
        case Err(e) => Panicked(e)
        case Ok(ts) => PrependRow(ts, RowOf(r, ds, info, i + 1))
  }

  function RowFrom(r: Record, info: TableSchemaInfo): RowOutcome<Tuple> {
    RowOf(r, AllDecoded(r), info, 0)
  }

  /** What RecordsToRows returns for the records from k on: a stop returns
      the rows built so far without an error. */
  function RowsFrom(records: seq<Record>, info: TableSchemaInfo, k: nat): Result<seq<seq<Tuple>>>
    requires k <= |records|
    decreases |records| - k
  {
    if k == |records| then Ok([])
    else
      match RowFrom(records[k], info)
      case Panicked(e) => Err(e)
      case Stopped => Ok([])
      case Row(t) => Prepend([t], RowsFrom(records, info, k + 1))
  }

  method RecordsToRows(records: seq<Record>, info: TableSchemaInfo) returns (r: Result<seq<seq<Tuple>>>)
    ensures r == RowsFrom(records, info, 0)
  {
    var rows: seq<seq<Tuple>> := [];
    var k := 0;
    PrependNil(RowsFrom(records, info, 0));
    while k < |records|
      invariant 0 <= k <= |records|
      invariant RowsFrom(records, info, 0) == Prepend(rows, RowsFrom(records, info, k))
    {
      var row := RecordTuples(records[k], info);
      match row
      case Panicked(e) =>
        return Err(e);
      case Stopped =>
        assert rows + [] == rows;
        return Ok(rows);
      case Row(t) =>
        PrependAssoc(rows, [t], RowsFrom(records, info, k + 1));
        rows := rows + [t];
        k := k + 1;
    }
    assert rows + [] == rows;
    return Ok(rows);
  }

  /** RecordsToRows' inner loop over one record's fields. */
  method RecordTuples(r: Record, info: TableSchemaInfo) returns (o: RowOutcome<Tuple>)
    ensures o == RowFrom(r, info)
  {
    ghost var ds := AllDecoded(r);
    var tuples: seq<Tuple> := [];
    var i := 0;
    PrependRowNil(RowOf(r, ds, info, 0));
    while i < |r.header.fields|
      invariant 0 <= i <= |r.header.fields|
      invariant RowOf(r, ds, info, 0) == PrependRow(tuples, RowOf(r, ds, info, i))
    {
      var data := FieldData(r, i);
      DecodedAt(r, |r.header.fields|, i);
      if data.Err? {
        return if data.error.IsPanic() then Panicked(data.error) else Stopped;
      }
      var ts := FieldTuples(r, i, data.value, info);
      if ts.Err? {
        return Panicked(ts.error);
      }
      PrependRowAssoc(tuples, ts.value, RowOf(r, ds, info, i + 1));
      tuples := tuples + ts.value;
      i := i + 1;
    }
    assert tuples + [] == tuples;
    return Row(tuples);
  }

  /** The field types that produce a tuple. */
  predicate Kept(ft: FieldType) {
    ft == Null || ft == Int8 || ft == Int64 || ft == String
  }

  /** The type assertions never fail: FieldData returns an int8 for Int8, an
      int64 for Int64 and a string for String. A decoded field adds one tuple
      when its type is kept and none otherwise; the tuple has the field's kind
      and value, and a NULL becomes the rowid exactly for the primary key. */
  lemma FieldTupleValue(r: Record, i: nat, info: TableSchemaInfo)
    requires i < |r.header.fields| && FieldData(r, i).Ok?
    ensures var d := FieldData(r, i).value; var t := FieldTuples(r, i, d, info);
      && t.Ok?
      && |t.value| == (if Kept(d.fieldType) then 1 else 0)
      && (d.fieldType == Null ==> t.value[0] == if IsRowIdAlias(r, i, info) then Int64Tuple(r.rowId) else NullTuple)
      && (d.fieldType == Int8 ==> d.value == Int8Value(t.value[0].i) && t.value[0].Int8Tuple?)
      && (d.fieldType == Int64 ==> d.value == Int64Value(t.value[0].i) && t.value[0].Int64Tuple?)
      && (d.fieldType == String ==> d.value == StringValue(t.value[0].s) && t.value[0].StringTuple?)
  {
  }

  /** Every decoded field of r passes its type assertion. */
  predicate AssertionsHold(r: Record, ds: seq<Result<FieldDatum>>, info: TableSchemaInfo)
    requires |ds| == |r.header.fields|
  {
    forall j :: 0 <= j < |ds| && ds[j].Ok? ==> FieldTuples(r, j, ds[j].value, info).Ok?
  }

  lemma DecodedAssertionsHold(r: Record, info: TableSchemaInfo)
    ensures AssertionsHold(r, AllDecoded(r), info)
  {
    var ds := AllDecoded(r);
    forall j | 0 <= j < |ds| && ds[j].Ok?
      ensures FieldTuples(r, j, ds[j].value, info).Ok?
    {
      DecodedAt(r, |ds|, j);
      FieldTupleValue(r, j, info);
    }
  }

  /** The number of kept fields in [i, j). */
  function KeptCount(fields: seq<RecordField>, i: nat, j: nat): nat
    requires i <= j <= |fields|
    decreases j - i
  {
    if i == j then 0 else (if Kept(fields[i].fieldType) then 1 else 0) + KeptCount(fields, i + 1, j)
  }

  /** A record gives a row exactly when every field decodes; a stop comes
      from a field whose error is not a panic, and a panic from a field whose
      error is one. */
  lemma {:induction false} RowOfOutcome(r: Record, ds: seq<Result<FieldDatum>>, info: TableSchemaInfo, i: nat)
    requires |ds| == |r.header.fields| && i <= |ds| && AssertionsHold(r, ds, info)
    ensures RowOf(r, ds, info, i).Row? <==> forall j :: i <= j < |ds| ==> ds[j].Ok?
    ensures RowOf(r, ds, info, i).Stopped? ==> exists j :: i <= j < |ds| && ds[j].Err? && !ds[j].error.IsPanic()
    ensures RowOf(r, ds, info, i).Panicked? ==>
      exists j :: i <= j < |ds| && ds[j] == Err(RowOf(r, ds, info, i).error) && ds[j].error.IsPanic()
    decreases |ds| - i
  {
    if i < |ds| {
      RowOfOutcome(r, ds, info, i + 1);
    }
  }

  /** A row holds one tuple per kept field, in field order: the tuple of the
      j-th field sits after those of the kept fields before it. */
  lemma {:induction false} RowOfTuple(r: Record, ds: seq<Result<FieldDatum>>, info: TableSchemaInfo, i: nat, j: nat)
    requires |ds| == |r.header.fields| && i <= j < |ds| && RowOf(r, ds, info, i).Row?
    requires forall k :: i <= k < |ds| && ds[k].Ok? ==> (FieldTuples(r, k, ds[k].value, info).Ok? &&
      |FieldTuples(r, k, ds[k].value, info).value| == if Kept(ds[k].value.fieldType) then 1 else 0)
    requires forall k :: i <= k < |ds| && ds[k].Ok? ==> ds[k].value.fieldType == r.header.fields[k].fieldType
    ensures var t, fs := RowOf(r, ds, info, i).tuples, r.header.fields;
      |t| == KeptCount(fs, i, |fs|) &&
      (Kept(fs[j].fieldType) ==>
        ds[j].Ok? && KeptCount(fs, i, j) < |t| && FieldTuples(r, j, ds[j].value, info) == Ok([t[KeptCount(fs, i, j)]]))
    decreases |ds| - i
  {
    if i + 1 < |ds| {
      RowOfTuple(r, ds, info, i + 1, if j == i then i + 1 else j);
    }
  }

  /** A record's row holds one tuple per field of a kept type, in field
      order, each the tuple of its field. */
  lemma RowTuples(r: Record, info: TableSchemaInfo, j: nat)
    requires j < |r.header.fields| && RowFrom(r, info).Row?
    ensures var t, fs := RowFrom(r, info).tuples, r.header.fields;
      |t| == KeptCount(fs, 0, |fs|) &&
      (Kept(fs[j].fieldType) ==>
        FieldData(r, j).Ok? && KeptCount(fs, 0, j) < |t| && FieldTuples(r, j, FieldData(r, j).value, info) == Ok([t[KeptCount(fs, 0, j)]]))
  {
    var ds := AllDecoded(r);
    forall k | 0 <= k < |ds| && ds[k].Ok?
      ensures FieldTuples(r, k, ds[k].value, info).Ok?
      ensures |FieldTuples(r, k, ds[k].value, info).value| == if Kept(ds[k].value.fieldType) then 1 else 0
      ensures ds[k].value.fieldType == r.header.fields[k].fieldType
    {
      DecodedAt(r, |ds|, k);
      FieldTupleValue(r, k, info);
    }
    RowOfTuple(r, ds, info, 0, j);
    DecodedAt(r, |ds|, j);
  }

  /** One row per record, in record order, until the first record that stops
      the conversion; the rows end there without an error. */
  lemma {:induction false} RowsFromRows(records: seq<Record>, info: TableSchemaInfo, k: nat, j: nat)
    requires k <= j < |records| && RowsFrom(records, info, k).Ok?
    ensures var rows := RowsFrom(records, info, k).value;
      && |rows| <= |records| - k
      && (j < k + |rows| ==> RowFrom(records[j], info) == Row(rows[j - k]))
      && (j == k + |rows| ==> RowFrom(records[j], info) == Stopped)
    decreases |records| - k
  {
    var o := RowFrom(records[k], info);
    if o.Row? && k + 1 < |records| {
      RowsFromRows(records, info, k + 1, if j == k then k + 1 else j);
    }
  }

  /** RecordsToRows fails only with the panic of some field of some record. */
  lemma {:induction false} RowsFromPanics(records: seq<Record>, info: TableSchemaInfo, k: nat)
    requires k <= |records| && RowsFrom(records, info, k).Err?
    ensures RowsFrom(records, info, k).error.IsPanic()
    ensures exists j, f :: (k <= j < |records| && 0 <= f < |records[j].header.fields| &&
      FieldData(records[j], f) == Err(RowsFrom(records, info, k).error))
    decreases |records| - k
  {
    var r := records[k];
    if RowFrom(r, info).Row? {
      RowsFromPanics(records, info, k + 1);
    } else {
      DecodedAssertionsHold(r, info);
      var ds := AllDecoded(r);
      RowOfOutcome(r, ds, info, 0);
      var f :| 0 <= f < |ds| && ds[f] == Err(RowFrom(r, info).error) && ds[f].error.IsPanic();
      DecodedAt(r, |ds|, f);
      assert FieldData(records[k], f) == Err(RowsFrom(records, info, k).error);
    }
  }

  // ---------------------------------------------------------------------------
  // Rows.RowsString
  // ---------------------------------------------------------------------------

  /** "t.c" when the table is named, "c" otherwise. */
  function QualifiedName(f: SelectFieldExpression): string {
    if f.tableName != "" then f.tableName + "." + f.colName else f.colName
  }

  /** What the header loop writes for field i: an aggregate's name alone (the
      loop continues before the separator), or the column name followed by
      ", " unless it is the last field. */
  function FieldLabel(fields: seq<SelectFieldExpression>, i: nat): string
    requires i < |fields|
  {
    if fields[i].isAgg then AggName(fields[i].aggType)
    else QualifiedName(fields[i]) + (if i < |fields| - 1 then ", " else "")
  }

  /** The labels of the first n fields. */
  function Labels(fields: seq<SelectFieldExpression>, n: nat): (ls: seq<string>)
    requires n <= |fields|
    ensures |ls| == n
  {
    if n == 0 then [] else Labels(fields, n - 1) + [FieldLabel(fields, n - 1)]
  }

  /** The header line without its line break. */
  function Header(fields: seq<SelectFieldExpression>): string {
    Concat(Labels(fields, |fields|))
  }

  /** `%v` of a tuple's value, "NULL" for the nil value of a NULL tuple. */
  function ValueText(t: Tuple): string {
    match t
    case NullTuple => "NULL"
    case Int64Tuple(i) => Decimal(i)
    case Int8Tuple(i) => Decimal(i)
    case StringTuple(s) => s
  }

  /** What the row loop writes for value j: its text, followed by ", " unless
      it is the row's last. */
  function Cell(row: seq<Tuple>, j: nat): string
    requires j < |row|
  {
    ValueText(row[j]) + (if j < |row| - 1 then ", " else "")
  }

  /** The cells of the first n values of a row. */
  function Cells(row: seq<Tuple>, n: nat): (cs: seq<string>)
    requires n <= |row|
    ensures |cs| == n
  {
    if n == 0 then [] else Cells(row, n - 1) + [Cell(row, n - 1)]
  }

  /** A row's line, with its line break. */
  function Line(row: seq<Tuple>): string {
    Concat(Cells(row, |row|)) + "\n"
  }

  /** The lines of the first n rows. */
  function Lines(rows: seq<seq<Tuple>>, n: nat): (ls: seq<string>)
    requires n <= |rows|
    ensures |ls| == n
  {
    if n == 0 then [] else Lines(rows, n - 1) + [Line(rows[n - 1])]
  }

  /** What RowsString returns: the header line, then one line per row. */
  function RowsText(rows: seq<seq<Tuple>>, fields: seq<SelectFieldExpression>): string {
    Header(fields) + "\n" + Concat(Lines(rows, |rows|))
  }

  method RowsString(rows: seq<seq<Tuple>>, fields: seq<SelectFieldExpression>) returns (s: string)
    ensures s == RowsText(rows, fields)
  {
    var res := WriteHeader(fields);
    res := res + "\n";
    ghost var header := res;
    var k := 0;
    while k < |rows|
      invariant 0 <= k <= |rows|
      invariant res == header + Concat(Lines(rows, k))
    {
      res := WriteRow(res, rows[k]);
      res := res + "\n";
      LinesStep(header, rows, k);
      k := k + 1;
    }
    return res;
  }

  /** RowsString's header loop. */
  method WriteHeader(fields: seq<SelectFieldExpression>) returns (res: string)
    ensures res == Header(fields)
  {
    res := "";
    var i := 0;
    while i < |fields|
      invariant 0 <= i <= |fields|
      invariant res == Concat(Labels(fields, i))
    {
      ConcatSnoc(Labels(fields, i), FieldLabel(fields, i));
      var field := fields[i];
      if field.isAgg {
        assert FieldLabel(fields, i) == AggName(field.aggType);
        res := res + AggName(field.aggType);
        i := i + 1;
        continue;
      }
      var name: string;
      if field.tableName != "" {
        name := field.tableName + "." + field.colName;
      } else {
        name := field.colName;
      }
      assert name == QualifiedName(field);
      if i < |fields| - 1 {
        name := name + ", ";
      }
      assert name == FieldLabel(fields, i);
      res := res + name;
      i := i + 1;
    }
  }

  /** RowsString's loop over the values of one row, writing after `res`. */
  method WriteRow(res: string, row: seq<Tuple>) returns (res': string)
    ensures res' == res + Concat(Cells(row, |row|))
  {
    res' := res;
    var j := 0;
    while j < |row|
      invariant 0 <= j <= |row|
      invariant res' == res + Concat(Cells(row, j))
    {
      var text := CellText(row, j);
      CellsStep(res, row, j);
      res' := res' + text;
      j := j + 1;
    }
  }

  /** The body of the row loop: the value's text, "NULL" for a NULL tuple,
      then ", " unless it is the row's last. */
  method CellText(row: seq<Tuple>, j: nat) returns (text: string)
    requires j < |row|
    ensures text == Cell(row, j)
  {
    var tuple := row[j];
    if tuple.NullTuple? {
      text := "NULL";
    } else {
      text := ValueText(tuple);
    }
    if j < |row| - 1 {
      text := text + ", ";
    }
  }

  /** One more cell after the first j. */
  lemma CellsStep(res: string, row: seq<Tuple>, j: nat)
    requires j < |row|
    ensures res + Concat(Cells(row, j)) + Cell(row, j) == res + Concat(Cells(row, j + 1))
  {
    ConcatSnoc(Cells(row, j), Cell(row, j));
    AppendAssoc(res, Concat(Cells(row, j)), Cell(row, j));
  }

  /** One more line after the first k. */
  lemma LinesStep(header: string, rows: seq<seq<Tuple>>, k: nat)
    requires k < |rows|
    ensures header + Concat(Lines(rows, k)) + Concat(Cells(rows[k], |rows[k]|)) + "\n" == header + Concat(Lines(rows, k + 1))
  {
    var before, cells := Concat(Lines(rows, k)), Concat(Cells(rows[k], |rows[k]|));
    AppendAssoc(header + before, cells, "\n");
    ConcatSnoc(Lines(rows, k), Line(rows[k]));
    AppendAssoc(header, before, Line(rows[k]));
  }

  // Properties of the printed text.

  lemma {:induction false} LabelsAt(fields: seq<SelectFieldExpression>, n: nat, i: nat)
    requires i < n <= |fields|
    ensures Labels(fields, n)[i] == FieldLabel(fields, i)
  {
    if i < n - 1 {
      LabelsAt(fields, n - 1, i);
      assert Labels(fields, n)[i] == Labels(fields, n - 1)[i];
    } else {
      assert |Labels(fields, n - 1)| == i;
    }
  }

  lemma {:induction false} CellsAt(row: seq<Tuple>, n: nat, j: nat)
    requires j < n <= |row|
    ensures Cells(row, n)[j] == Cell(row, j)
  {
    var before := Cells(row, n - 1);
    assert Cells(row, n) == before + [Cell(row, n - 1)];
    if j < n - 1 {
      CellsAt(row, n - 1, j);
      assert Cells(row, n)[j] == before[j];
    } else {
      assert |before| == j;
    }
  }

  lemma {:induction false} LinesAt(rows: seq<seq<Tuple>>, n: nat, k: nat)
    requires k < n <= |rows|
    ensures Lines(rows, n)[k] == Line(rows[k])
  {
    if k < n - 1 {
      LinesAt(rows, n - 1, k);
      assert Lines(rows, n)[k] == Lines(rows, n - 1)[k];
    } else {
      assert |Lines(rows, n - 1)| == k;
    }
  }

  /** The texts of the first n values of a row. */
  function Values(row: seq<Tuple>, n: nat): (vs: seq<string>)
    requires n <= |row|
    ensures |vs| == n
  {
    if n == 0 then [] else Values(row, n - 1) + [ValueText(row[n - 1])]
  }

  lemma {:induction false} ValuesAt(row: seq<Tuple>, n: nat, i: nat)
    requires i < n <= |row|
    ensures Values(row, n)[i] == ValueText(row[i])
  {
    if i < n - 1 {
      ValuesAt(row, n - 1, i);
      assert Values(row, n)[i] == Values(row, n - 1)[i];
    } else {
      assert |Values(row, n - 1)| == i;
    }
  }

  /** The values on a row's line are their texts joined with ", ". */
  lemma {:induction false} RowLineJoins(row: seq<Tuple>, n: nat)
    requires 0 < n <= |row|
    ensures Concat(Cells(row, n)) == Join(Values(row, n), ", ") + (if n < |row| then ", " else "")
  {
    var last := ValueText(row[n - 1]);
    var sep := if n < |row| then ", " else "";
    ConcatSnoc(Cells(row, n - 1), Cell(row, n - 1));
    if n > 1 {
      RowLineJoins(row, n - 1);
      JoinStep(Values(row, n - 1), last, ", ");
      AppendAssoc(Join(Values(row, n - 1), ", ") + ", ", last, sep);
    } else {
      ValuesAt(row, 1, 0);
      assert Concat(Cells(row, 0)) == "";
      assert Join(Values(row, 1), ", ") == last;
    }
  }

  /** A row's line is its values joined with ", ", then a line break. */
  lemma RowLine(row: seq<Tuple>)
    requires |row| > 0
    ensures Line(row) == Join(Values(row, |row|), ", ") + "\n"
  {
    RowLineJoins(row, |row|);
  }

  /** The qualified names of the first n fields. */
  function Names(fields: seq<SelectFieldExpression>, n: nat): (ns: seq<string>)
    requires n <= |fields|
    ensures |ns| == n
  {
    if n == 0 then [] else Names(fields, n - 1) + [QualifiedName(fields[n - 1])]
  }

  lemma {:induction false} NamesAt(fields: seq<SelectFieldExpression>, n: nat, i: nat)
    requires i < n <= |fields|
    ensures Names(fields, n)[i] == QualifiedName(fields[i])
  {
    if i < n - 1 {
      NamesAt(fields, n - 1, i);
      assert Names(fields, n)[i] == Names(fields, n - 1)[i];
    } else {
      assert |Names(fields, n - 1)| == i;
    }
  }

  /** Without aggregates the labels are the names joined with ", ". */
  lemma {:induction false} LabelsJoin(fields: seq<SelectFieldExpression>, n: nat)
    requires 0 < n <= |fields| && forall i :: 0 <= i < |fields| ==> !fields[i].isAgg
    ensures Concat(Labels(fields, n)) == Join(Names(fields, n), ", ") + (if n < |fields| then ", " else "")
  {
    var last := QualifiedName(fields[n - 1]);
    var sep := if n < |fields| then ", " else "";
    ConcatSnoc(Labels(fields, n - 1), FieldLabel(fields, n - 1));
    assert FieldLabel(fields, n - 1) == last + sep;
    if n > 1 {
      LabelsJoin(fields, n - 1);
      JoinStep(Names(fields, n - 1), last, ", ");
      AppendAssoc(Join(Names(fields, n - 1), ", ") + ", ", last, sep);
    } else {
      NamesAt(fields, 1, 0);
      assert Concat(Labels(fields, 0)) == "";
      assert Join(Names(fields, 1), ", ") == last;
    }
  }

  /** Without aggregates the header is the qualified names joined with ", ". */
  lemma HeaderJoins(fields: seq<SelectFieldExpression>)
    requires |fields| > 0 && forall i :: 0 <= i < |fields| ==> !fields[i].isAgg
    ensures Header(fields) == Join(Names(fields, |fields|), ", ")
  {
    LabelsJoin(fields, |fields|);
  }

  /** No name and no string value holds a line break. */
  predicate OneLine(rows: seq<seq<Tuple>>, fields: seq<SelectFieldExpression>) {
    && (forall k, j :: 0 <= k < |rows| && 0 <= j < |rows[k]| && rows[k][j].StringTuple? ==> Occurrences(rows[k][j].s, '\n') == 0)
    && (forall i :: 0 <= i < |fields| ==> Occurrences(fields[i].tableName, '\n') == 0 && Occurrences(fields[i].colName, '\n') == 0)
  }

  /** When no name or string value holds a line break, the text has exactly
      one line per row after the header line, each ended by a break. */
  lemma LineCount(rows: seq<seq<Tuple>>, fields: seq<SelectFieldExpression>)
    requires OneLine(rows, fields)
    ensures Occurrences(RowsText(rows, fields), '\n') == |rows| + 1
    ensures |RowsText(rows, fields)| > 0 && RowsText(rows, fields)[|RowsText(rows, fields)| - 1] == '\n'
  {
    var header, body := Header(fields), Concat(Lines(rows, |rows|));
    HeaderOneLine(fields);
    OccurrencesOneLine(header);
    LinesCount(rows);
    OccurrencesAppend(header + "\n", body, '\n');
    if |rows| > 0 {
      LinesAt(rows, |rows|, |rows| - 1);
      ConcatLast(Lines(rows, |rows|), '\n');
    }
  }

  /** A qualified name has no line break when its parts have none. */
  lemma QualifiedOneLine(f: SelectFieldExpression)
    requires Occurrences(f.tableName, '\n') == 0 && Occurrences(f.colName, '\n') == 0
    ensures Occurrences(QualifiedName(f), '\n') == 0
  {
    if f.tableName != "" {
      OccurrencesAbsent(".", '\n');
      OccurrencesAppend(f.tableName, ".", '\n');
      OccurrencesAppend(f.tableName + ".", f.colName, '\n');
    }
  }

  /** An aggregate's name has no line break. */
  lemma AggOneLine(a: AggregationType)
    ensures Occurrences(AggName(a), '\n') == 0
  {
    assert AggName(a) == "count" || AggName(a) == "unknown";
    OccurrencesAbsent(AggName(a), '\n');
  }

  /** A field's label has no line break when its names have none. */
  lemma LabelOneLine(fields: seq<SelectFieldExpression>, i: nat)
    requires i < |fields| && Occurrences(fields[i].tableName, '\n') == 0 && Occurrences(fields[i].colName, '\n') == 0
    ensures Occurrences(FieldLabel(fields, i), '\n') == 0
  {
    var f := fields[i];
    if f.isAgg {
      AggOneLine(f.aggType);
    } else {
      QualifiedOneLine(f);
      var sep := if i < |fields| - 1 then ", " else "";
      OccurrencesAbsent(sep, '\n');
      OccurrencesAppend(QualifiedName(f), sep, '\n');
    }
  }

  lemma HeaderOneLine(fields: seq<SelectFieldExpression>)
    requires forall i :: 0 <= i < |fields| ==> Occurrences(fields[i].tableName, '\n') == 0 && Occurrences(fields[i].colName, '\n') == 0
    ensures Occurrences(Header(fields), '\n') == 0
  {
    var ls := Labels(fields, |fields|);
    forall i | 0 <= i < |ls|
      ensures Occurrences(ls[i], '\n') == 0
    {
      LabelsAt(fields, |fields|, i);
      LabelOneLine(fields, i);
    }
    ConcatNoBreak(ls);
  }

  /** A value's text has no line break unless it is a string that has one. */
  lemma ValueOneLine(t: Tuple)
    requires t.StringTuple? ==> Occurrences(t.s, '\n') == 0
    ensures Occurrences(ValueText(t), '\n') == 0
  {
    match t
    case NullTuple => OccurrencesAbsent("NULL", '\n');
    case Int64Tuple(i) => DecimalOneLine(i);
    case Int8Tuple(i) => DecimalOneLine(i);
    case StringTuple(_) =>
  }

  lemma CellOneLine(row: seq<Tuple>, j: nat)
    requires j < |row| && (row[j].StringTuple? ==> Occurrences(row[j].s, '\n') == 0)
    ensures Occurrences(Cell(row, j), '\n') == 0
  {
    ValueOneLine(row[j]);
    var sep := if j < |row| - 1 then ", " else "";
    OccurrencesAbsent(sep, '\n');
    OccurrencesAppend(ValueText(row[j]), sep, '\n');
  }

  /** A row's line holds exactly one break when its strings hold none. */
  lemma LineOneLine(row: seq<Tuple>)
    requires forall j :: 0 <= j < |row| && row[j].StringTuple? ==> Occurrences(row[j].s, '\n') == 0
    ensures Occurrences(Line(row), '\n') == 1
  {
    var cs := Cells(row, |row|);
    forall j | 0 <= j < |cs|
      ensures Occurrences(cs[j], '\n') == 0
    {
      CellsAt(row, |row|, j);
      CellOneLine(row, j);
    }
    ConcatNoBreak(cs);
    OccurrencesOneLine(Concat(cs));
  }

  lemma LinesCount(rows: seq<seq<Tuple>>)
    requires OneLine(rows, [])
    ensures Occurrences(Concat(Lines(rows, |rows|)), '\n') == |rows|
  {
    var ls := Lines(rows, |rows|);
    forall k | 0 <= k < |ls|
      ensures Occurrences(ls[k], '\n') == 1
    {
      LinesAt(rows, |rows|, k);
      LineOneLine(rows[k]);
    }
    ConcatOneBreakEach(ls);
  }
}
