/** The parsed form of a SELECT statement (executor/sql.go): the selected
    expressions and the joined tables. The SQL front end that fills it in is
    not part of this model; a query arrives already parsed. */
module Query {

  datatype QueryType = Select | CreateTable | Insert | Delete | Update

  datatype AggregationType = CountAggregate | SumAggregate | MinAggregate | MaxAggregate

  datatype SelectFieldExpression = SelectFieldExpression(
    isAgg: bool,
    aggType: AggregationType,
    tableName: string,
    colName: string)

  datatype QueryInfo = QueryInfo(
    queryType: QueryType,
    selectFields: seq<SelectFieldExpression>,
    joinTables: seq<string>)

  /** AggregationType.String(): only COUNT has a name in the lookup table. */
  function AggName(a: AggregationType): (s: string)
    ensures s == "count" <==> a == CountAggregate
    ensures s != "count" ==> s == "unknown"
  {
    if a == CountAggregate then "count" else "unknown"
  }
}
