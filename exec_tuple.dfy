/** executor/tuple.go: the executor's own rows, which keep only Int8, Int64
    and String fields, and their text without separators. */
module ExecTuple {
  import opened Base
  import opened RecordCodec
  import opened Query
  import opened Text
  import DbTuple

  /** The executor's tuple has no NULL kind. */
  datatype Tuple = Int64Tuple(i: int) | StringTuple(s: string) | Int8Tuple(i: int)

  // ---------------------------------------------------------------------------
  // RecordsToRows
  // ---------------------------------------------------------------------------

  /** The field types that produce a tuple. */
  predicate Kept(ft: FieldType) {
    ft == Int8 || ft == Int64 || ft == String
  }

  /** The tuples one decoded field adds to its row: the switch on the field
      type, with the type assertions `data.(int8)`, `data.(int64)` and
      `data.(string)`; the default case only logs. */
  function FieldTuples(d: FieldDatum): Result<seq<Tuple>> {
    match d.fieldType
    case Int8 => if d.value.Int8Value? then Ok([Int8Tuple(d.value.i)]) else Err(Panic(FailedTypeAssertion))
    case Int64 => if d.value.Int64Value? then Ok([Int64Tuple(d.value.i)]) else Err(Panic(FailedTypeAssertion))
    case String => if d.value.StringValue? then Ok([StringTuple(d.value.s)]) else Err(Panic(FailedTypeAssertion))
    case _ => Ok([])
  }

  /** The row built from the decoded fields ds from i on. A FieldData error
      that is not a panic ends the whole conversion. */
  function RowOf(ds: seq<Result<FieldDatum>>, i: nat): RowOutcome<Tuple>
    requires i <= |ds|
    decreases |ds| - i
  {
    if i == |ds| then Row([])
    else
      match ds[i]
      case Err(e) => if e.IsPanic() then Panicked(e) else Stopped
      case Ok(d) =>
        match FieldTuples(d)
        case Err(e) => Panicked(e)
        case Ok(ts) => PrependRow(ts, RowOf(ds, i + 1))
  }

  function RowFrom(r: Record): RowOutcome<Tuple> {
    RowOf(DbTuple.AllDecoded(r), 0)
  }

  /** What RecordsToRows returns for the records from k on: a stop returns
      the rows built so far with a nil error. */
  function RowsFrom(records: seq<Record>, k: nat): Result<seq<seq<Tuple>>>
    requires k <= |records|
    decreases |records| - k
  {
    if k == |records| then Ok([])
    else
      match RowFrom(records[k])
      case Panicked(e) => Err(e)
      case Stopped => Ok([])
      case Row(t) => Prepend([t], RowsFrom(records, k + 1))
  }

  method RecordsToRows(records: seq<Record>) returns (r: Result<seq<seq<Tuple>>>)
    ensures r == RowsFrom(records, 0)
  {
    var rows: seq<seq<Tuple>> := [];
    var k := 0;
    PrependNil(RowsFrom(records, 0));
    while k < |records|
      invariant 0 <= k <= |records|
      invariant RowsFrom(records, 0) == Prepend(rows, RowsFrom(records, k))
    {
      var row := RecordTuples(records[k]);
      match row
      case Panicked(e) =>
        return Err(e);
      case Stopped =>
        assert rows + [] == rows;
        return Ok(rows);
      case Row(t) =>
        PrependAssoc(rows, [t], RowsFrom(records, k + 1));
        rows := rows + [t];
        k := k + 1;
    }
    assert rows + [] == rows;
    return Ok(rows);
  }

  /** RecordsToRows' inner loop over one record's fields. */
  method RecordTuples(r: Record) returns (o: RowOutcome<Tuple>)
    ensures o == RowFrom(r)
  {
    ghost var ds := DbTuple.AllDecoded(r);
    var tuples: seq<Tuple> := [];
    var i := 0;
    PrependRowNil(RowOf(ds, 0));
    while i < |r.header.fields|
      invariant 0 <= i <= |r.header.fields|
      invariant RowOf(ds, 0) == PrependRow(tuples, RowOf(ds, i))
    {
      var data := FieldData(r, i);
      DbTuple.DecodedAt(r, |r.header.fields|, i);
      if data.Err? {
        return if data.error.IsPanic() then Panicked(data.error) else Stopped;
      }
      var ts := FieldTuples(data.value);
      if ts.Err? {
        return Panicked(ts.error);
      }
      PrependRowAssoc(tuples, ts.value, RowOf(ds, i + 1));
      tuples := tuples + ts.value;
      i := i + 1;
    }
    assert tuples + [] == tuples;
    return Row(tuples);
  }

  /** The type assertions never fail. A decoded field adds one tuple when its
      type is Int8, Int64 or String, with that kind and value, and none
      otherwise (NULL included). */
  lemma FieldTupleValue(r: Record, i: nat)
    requires i < |r.header.fields| && FieldData(r, i).Ok?
    ensures var d := FieldData(r, i).value; var t := FieldTuples(d);
      && t.Ok?
      && |t.value| == (if Kept(d.fieldType) then 1 else 0)
      && (d.fieldType == Int8 ==> d.value == Int8Value(t.value[0].i) && t.value[0].Int8Tuple?)
      && (d.fieldType == Int64 ==> d.value == Int64Value(t.value[0].i) && t.value[0].Int64Tuple?)
      && (d.fieldType == String ==> d.value == StringValue(t.value[0].s) && t.value[0].StringTuple?)
  {
  }

  /** Every decoded field passes its type assertion. */
  predicate AssertionsHold(ds: seq<Result<FieldDatum>>) {
    forall j :: 0 <= j < |ds| && ds[j].Ok? ==> FieldTuples(ds[j].value).Ok?
  }

  lemma DecodedAssertionsHold(r: Record)
    ensures AssertionsHold(DbTuple.AllDecoded(r))
  {
    var ds := DbTuple.AllDecoded(r);
    forall j | 0 <= j < |ds| && ds[j].Ok?
      ensures FieldTuples(ds[j].value).Ok?
    {
      DbTuple.DecodedAt(r, |ds|, j);
      FieldTupleValue(r, j);
    }
  }

  /** The number of kept fields in [i, j). */
  function KeptCount(fields: seq<RecordField>, i: nat, j: nat): nat
    requires i <= j <= |fields|
    decreases j - i
  {
    if i == j then 0 else (if Kept(fields[i].fieldType) then 1 else 0) + KeptCount(fields, i + 1, j)
  }

  /** A record gives a row exactly when every field decodes; a stop comes from
      a field whose error is not a panic, and a panic from a field whose error
      is one. */
  lemma {:induction false} RowOfOutcome(ds: seq<Result<FieldDatum>>, i: nat)
    requires i <= |ds| && AssertionsHold(ds)
    ensures RowOf(ds, i).Row? <==> forall j :: i <= j < |ds| ==> ds[j].Ok?
    ensures RowOf(ds, i).Stopped? ==> exists j :: i <= j < |ds| && ds[j].Err? && !ds[j].error.IsPanic()
    ensures RowOf(ds, i).Panicked? ==>
      exists j :: i <= j < |ds| && ds[j] == Err(RowOf(ds, i).error) && ds[j].error.IsPanic()
    decreases |ds| - i
  {
    if i < |ds| {
      RowOfOutcome(ds, i + 1);
    }
  }

  /** A row holds one tuple per kept field, in field order. */
  lemma {:induction false} RowOfTuple(fields: seq<RecordField>, ds: seq<Result<FieldDatum>>, i: nat, j: nat)
    requires |ds| == |fields| && i <= j < |ds| && RowOf(ds, i).Row?
    requires forall k :: i <= k < |ds| && ds[k].Ok? ==> (FieldTuples(ds[k].value).Ok? &&
      |FieldTuples(ds[k].value).value| == if Kept(ds[k].value.fieldType) then 1 else 0)
    requires forall k :: i <= k < |ds| && ds[k].Ok? ==> ds[k].value.fieldType == fields[k].fieldType
    ensures var t := RowOf(ds, i).tuples;
      |t| == KeptCount(fields, i, |fields|) &&
      (Kept(fields[j].fieldType) ==>
        ds[j].Ok? && KeptCount(fields, i, j) < |t| && FieldTuples(ds[j].value) == Ok([t[KeptCount(fields, i, j)]]))
    decreases |ds| - i
  {
    if i + 1 < |ds| {
      RowOfTuple(fields, ds, i + 1, if j == i then i + 1 else j);
    }
  }

  /** A record's row holds one tuple per Int8, Int64 or String field, in field
      order, each the tuple of its field. */
  lemma RowTuples(r: Record, j: nat)
    requires j < |r.header.fields| && RowFrom(r).Row?
    ensures var t, fs := RowFrom(r).tuples, r.header.fields;
      |t| == KeptCount(fs, 0, |fs|) &&
      (Kept(fs[j].fieldType) ==>
        FieldData(r, j).Ok? && KeptCount(fs, 0, j) < |t| && FieldTuples(FieldData(r, j).value) == Ok([t[KeptCount(fs, 0, j)]]))
  {
    var ds := DbTuple.AllDecoded(r);
    forall k | 0 <= k < |ds| && ds[k].Ok?
      ensures FieldTuples(ds[k].value).Ok?
      ensures |FieldTuples(ds[k].value).value| == if Kept(ds[k].value.fieldType) then 1 else 0
      ensures ds[k].value.fieldType == r.header.fields[k].fieldType
    {
      DbTuple.DecodedAt(r, |ds|, k);
      FieldTupleValue(r, k);
    }
    RowOfTuple(r.header.fields, ds, 0, j);
    DbTuple.DecodedAt(r, |ds|, j);
  }

  /** One row per record, in record order, until the first record that stops
      the conversion; the rows end there with a nil error. */
  lemma {:induction false} RowsFromRows(records: seq<Record>, k: nat, j: nat)
    requires k <= j < |records| && RowsFrom(records, k).Ok?
    ensures var rows := RowsFrom(records, k).value;
      && |rows| <= |records| - k
      && (j < k + |rows| ==> RowFrom(records[j]) == Row(rows[j - k]))
      && (j == k + |rows| ==> RowFrom(records[j]) == Stopped)
    decreases |records| - k
  {
    var o := RowFrom(records[k]);
    if o.Row? && k + 1 < |records| {
      RowsFromRows(records, k + 1, if j == k then k + 1 else j);
    }
  }

  /** RecordsToRows fails only with the panic of some field of some record. */
  lemma {:induction false} RowsFromPanics(records: seq<Record>, k: nat)
    requires k <= |records| && RowsFrom(records, k).Err?
    ensures RowsFrom(records, k).error.IsPanic()
    ensures exists j, f :: (k <= j < |records| && 0 <= f < |records[j].header.fields| &&
      FieldData(records[j], f) == Err(RowsFrom(records, k).error))
    decreases |records| - k
  {
    var r := records[k];
    if RowFrom(r).Row? {
      RowsFromPanics(records, k + 1);
    } else {
      DecodedAssertionsHold(r);
      var ds := DbTuple.AllDecoded(r);
      RowOfOutcome(ds, 0);
      var f :| 0 <= f < |ds| && ds[f] == Err(RowFrom(r).error) && ds[f].error.IsPanic();
      DbTuple.DecodedAt(r, |ds|, f);
      assert FieldData(records[k], f) == Err(RowsFrom(records, k).error);
    }
  }

  // ---------------------------------------------------------------------------
  // Rows.RowsString
  // ---------------------------------------------------------------------------

  /** What the header loop writes for a field: an aggregate's name, or the
      column name, qualified by the table when it has one. */
  function FieldLabel(f: SelectFieldExpression): string {
    if f.isAgg then AggName(f.aggType) else DbTuple.QualifiedName(f)
  }

  function Labels(fields: seq<SelectFieldExpression>, n: nat): (ls: seq<string>)
    requires n <= |fields|
    ensures |ls| == n
  {
    if n == 0 then [] else Labels(fields, n - 1) + [FieldLabel(fields[n - 1])]
  }

  /** The header line without its line break. */
  function Header(fields: seq<SelectFieldExpression>): string {
    Concat(Labels(fields, |fields|))
  }

  /** `%v` of a tuple's value. */
  function ValueText(t: Tuple): string {
    match t
    case Int64Tuple(i) => Decimal(i)
    case Int8Tuple(i) => Decimal(i)
    case StringTuple(s) => s
  }

  function Values(row: seq<Tuple>, n: nat): (vs: seq<string>)
    requires n <= |row|
    ensures |vs| == n
  {
    if n == 0 then [] else Values(row, n - 1) + [ValueText(row[n - 1])]
  }

  /** A row's line: its values with nothing between them, then a break. */
  function Line(row: seq<Tuple>): string {
    Concat(Values(row, |row|)) + "\n"
  }

  function Lines(rows: seq<seq<Tuple>>, n: nat): (ls: seq<string>)
    requires n <= |rows|
    ensures |ls| == n
  {
    if n == 0 then [] else Lines(rows, n - 1) + [Line(rows[n - 1])]
  }

  /** What RowsString returns: the header line, then one line per row. */
  function RowsText(rows: seq<seq<Tuple>>, fields: seq<SelectFieldExpression>): string {
    Header(fields) + "\n" + Concat(Lines(rows, |rows|))
  }

  method RowsString(rows: seq<seq<Tuple>>, fields: seq<SelectFieldExpression>) returns (s: string)
    ensures s == RowsText(rows, fields)
  {
    var res := WriteHeader(fields);
    res := res + "\n";
    ghost var header := res;
    var k := 0;
    while k < |rows|
      invariant 0 <= k <= |rows|
      invariant res == header + Concat(Lines(rows, k))
    {
      res := WriteRow(res, rows[k]);
      res := res + "\n";
      LinesStep(header, rows, k);
      k := k + 1;
    }
    return res;
  }

  /** RowsString's header loop. */
  method WriteHeader(fields: seq<SelectFieldExpression>) returns (res: string)
    ensures res == Header(fields)
  {
    res := "";
    var i := 0;
    while i < |fields|
      invariant 0 <= i <= |fields|
      invariant res == Concat(Labels(fields, i))
    {
      ConcatSnoc(Labels(fields, i), FieldLabel(fields[i]));
      res := WriteLabel(res, fields[i]);
      i := i + 1;
    }
  }

  /** One pass of the header loop: an aggregate writes its name and goes on
      to the next field; a column writes its name, qualified when it has a
      table. */
  method WriteLabel(res: string, field: SelectFieldExpression) returns (res': string)
    ensures res' == res + FieldLabel(field)
  {
    if field.isAgg {
      return res + AggName(field.aggType);
    }
    if field.tableName != "" {
      res' := res + (field.tableName + "." + field.colName);
    } else {
      res' := res + field.colName;
    }
  }

  /** RowsString's loop over the values of one row, writing after `res`. */
  method WriteRow(res: string, row: seq<Tuple>) returns (res': string)
    ensures res' == res + Concat(Values(row, |row|))
  {
    res' := res;
    var j := 0;
    while j < |row|
      invariant 0 <= j <= |row|
      invariant res' == res + Concat(Values(row, j))
    {
      var text := ValueText(row[j]);
      ValuesStep(res, row, j);
      res' := res' + text;
      j := j + 1;
    }
  }

  lemma ValuesStep(res: string, row: seq<Tuple>, j: nat)
    requires j < |row|
    ensures res + Concat(Values(row, j)) + ValueText(row[j]) == res + Concat(Values(row, j + 1))
  {
    ConcatSnoc(Values(row, j), ValueText(row[j]));
    AppendAssoc(res, Concat(Values(row, j)), ValueText(row[j]));
  }

  lemma LinesStep(header: string, rows: seq<seq<Tuple>>, k: nat)
    requires k < |rows|
    ensures header + Concat(Lines(rows, k)) + Concat(Values(rows[k], |rows[k]|)) + "\n" == header + Concat(Lines(rows, k + 1))
  {
    var before, values := Concat(Lines(rows, k)), Concat(Values(rows[k], |rows[k]|));
    AppendAssoc(header + before, values, "\n");
    ConcatSnoc(Lines(rows, k), Line(rows[k]));
    AppendAssoc(header, before, Line(rows[k]));
  }

  // Properties of the printed text.

  lemma {:induction false} LabelsAt(fields: seq<SelectFieldExpression>, n: nat, i: nat)
    requires i < n <= |fields|
    ensures Labels(fields, n)[i] == FieldLabel(fields[i])
  {
    if i < n - 1 {
      LabelsAt(fields, n - 1, i);
      assert Labels(fields, n)[i] == Labels(fields, n - 1)[i];
    } else {
      assert |Labels(fields, n - 1)| == i;
    }
  }

  lemma {:induction false} ValuesAt(row: seq<Tuple>, n: nat, j: nat)
    requires j < n <= |row|
    ensures Values(row, n)[j] == ValueText(row[j])
  {
    if j < n - 1 {
      ValuesAt(row, n - 1, j);
      assert Values(row, n)[j] == Values(row, n - 1)[j];
    } else {
      assert |Values(row, n - 1)| == j;
    }
  }

  lemma {:induction false} LinesAt(rows: seq<seq<Tuple>>, n: nat, k: nat)
    requires k < n <= |rows|
    ensures Lines(rows, n)[k] == Line(rows[k])
  {
    if k < n - 1 {
      LinesAt(rows, n - 1, k);
      assert Lines(rows, n)[k] == Lines(rows, n - 1)[k];
    } else {
      assert |Lines(rows, n - 1)| == k;
    }
  }

  /** Without aggregates the header is the qualified names run together:
      unlike the db printer, nothing separates them. */
  lemma {:induction false} LabelsAreNames(fields: seq<SelectFieldExpression>, n: nat)
    requires n <= |fields| && forall i :: 0 <= i < |fields| ==> !fields[i].isAgg
    ensures Labels(fields, n) == DbTuple.Names(fields, n)
  {
    if n > 0 {
      LabelsAreNames(fields, n - 1);
    }
  }

  lemma HeaderIsNames(fields: seq<SelectFieldExpression>)
    requires forall i :: 0 <= i < |fields| ==> !fields[i].isAgg
    ensures Header(fields) == Concat(DbTuple.Names(fields, |fields|))
  {
    LabelsAreNames(fields, |fields|);
  }

  /** No name and no string value holds a line break. */
  predicate OneLine(rows: seq<seq<Tuple>>, fields: seq<SelectFieldExpression>) {
    && (forall k, j :: 0 <= k < |rows| && 0 <= j < |rows[k]| && rows[k][j].StringTuple? ==> Occurrences(rows[k][j].s, '\n') == 0)
    && (forall i :: 0 <= i < |fields| ==> Occurrences(fields[i].tableName, '\n') == 0 && Occurrences(fields[i].colName, '\n') == 0)
  }

  /** When no name or string value holds a line break, the text has exactly
      one line per row after the header line, each ended by a break. */
  lemma LineCount(rows: seq<seq<Tuple>>, fields: seq<SelectFieldExpression>)
    requires OneLine(rows, fields)
    ensures Occurrences(RowsText(rows, fields), '\n') == |rows| + 1
    ensures |RowsText(rows, fields)| > 0 && RowsText(rows, fields)[|RowsText(rows, fields)| - 1] == '\n'
  {
    var header, body := Header(fields), Concat(Lines(rows, |rows|));
    HeaderOneLine(fields);
    OccurrencesOneLine(header);
    LinesCount(rows);
    OccurrencesAppend(header + "\n", body, '\n');
    if |rows| > 0 {
      LinesAt(rows, |rows|, |rows| - 1);
      ConcatLast(Lines(rows, |rows|), '\n');
    }
  }

  lemma HeaderOneLine(fields: seq<SelectFieldExpression>)
    requires forall i :: 0 <= i < |fields| ==> Occurrences(fields[i].tableName, '\n') == 0 && Occurrences(fields[i].colName, '\n') == 0
    ensures Occurrences(Header(fields), '\n') == 0
  {
    var ls := Labels(fields, |fields|);
    forall i | 0 <= i < |ls|
      ensures Occurrences(ls[i], '\n') == 0
    {
      LabelsAt(fields, |fields|, i);
      if fields[i].isAgg {
        DbTuple.AggOneLine(fields[i].aggType);
      } else {
        DbTuple.QualifiedOneLine(fields[i]);
      }
    }
    ConcatNoBreak(ls);
  }

  lemma ValueOneLine(t: Tuple)
    requires t.StringTuple? ==> Occurrences(t.s, '\n') == 0
    ensures Occurrences(ValueText(t), '\n') == 0
  {
    match t
    case Int64Tuple(i) => DecimalOneLine(i);
    case Int8Tuple(i) => DecimalOneLine(i);
    case StringTuple(_) =>
  }

  lemma LineOneLine(row: seq<Tuple>)
    requires forall j :: 0 <= j < |row| && row[j].StringTuple? ==> Occurrences(row[j].s, '\n') == 0
    ensures Occurrences(Line(row), '\n') == 1
  {
    var vs := Values(row, |row|);
    forall j | 0 <= j < |vs|
      ensures Occurrences(vs[j], '\n') == 0
    {
      ValuesAt(row, |row|, j);
      ValueOneLine(row[j]);
    }
    ConcatNoBreak(vs);
    OccurrencesOneLine(Concat(vs));
  }

  lemma LinesCount(rows: seq<seq<Tuple>>)
    requires OneLine(rows, [])
    ensures Occurrences(Concat(Lines(rows, |rows|)), '\n') == |rows|
  {
    var ls := Lines(rows, |rows|);
    forall k | 0 <= k < |ls|
      ensures Occurrences(ls[k], '\n') == 1
    {
      LinesAt(rows, |rows|, k);
      LineOneLine(rows[k]);
    }
    ConcatOneBreakEach(ls);
  }
}
