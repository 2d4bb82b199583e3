/**
 * The SQL text the metadata cache builds: the quoted IN-list, the
 * condition for one metadata filter, the filter query and the insert
 * statement. Running the statements is outside the model.
 */
module Db {
  import opened Text

  datatype SqlOperator = Like | Eq | BiggerThan | SmallerThan | EqBiggerThan | EqSmallerThan | Different

  datatype SqlOrder = Asc | Desc

  /** `SqlOperator::list`: the operators offered in the filter UI, Like first. */
  function OperatorList(): (r: seq<SqlOperator>)
    ensures |r| == 7 && r[0] == Like
    ensures forall i, j :: 0 <= i < j < |r| ==> r[i] != r[j]
  {
    [Like, Eq, BiggerThan, SmallerThan, EqBiggerThan, EqSmallerThan, Different]
  }

  /** The list offers every operator. */
  lemma OperatorListComplete(op: SqlOperator)
    ensures op in OperatorList()
  {
    var r := OperatorList();
    match op
    case Like => assert r[0] == op;
    case Eq => assert r[1] == op;
    case BiggerThan => assert r[2] == op;
    case SmallerThan => assert r[3] == op;
    case EqBiggerThan => assert r[4] == op;
    case EqSmallerThan => assert r[5] == op;
    case Different => assert r[6] == op;
  }

  /** How an operator is shown in the filter UI. */
  function Display(op: SqlOperator): string
  {
    match op
    case Like => "In"
    case Eq => "="
    case BiggerThan => ">"
    case SmallerThan => "<"
    case EqBiggerThan => ">="
    case EqSmallerThan => "<="
    case Different => "<>"
  }

  /** `SqlOrder::get_sql`. */
  function OrderSql(o: SqlOrder): string
  {
    match o
    case Asc => "ASC"
    case Desc => "DESC"
  }

  /** The comparison written into SQL for every operator but Like. */
  function ComparisonSymbol(op: SqlOperator): string
    requires op != Like
  {
    match op
    case Eq => "="
    case SmallerThan => "<"
    case BiggerThan => ">"
    case EqSmallerThan => "<="
    case EqBiggerThan => ">="
    case Different => "<>"
  }

  /** Every comparison is written in SQL exactly as the UI shows it; only Like differs. */
  lemma SymbolsMatchDisplay(op: SqlOperator)
    ensures op != Like ==> ComparisonSymbol(op) == Display(op)
    ensures Display(Like) == "In"
  {
  }

  /**
   * `where_clause_from_str_and_operator`. Like always quotes the value
   * inside '%'s. The other operators compare numerically (`+0` forces a
   * number, the value is left bare) when the value reads as an f64, and as
   * quoted text otherwise, with the symbol the UI displays.
   */
  function WhereClause(val: string, op: SqlOperator): (r: string)
    ensures op == Like ==> r == "like '%" + val + "%'"
    ensures op != Like && IsF64(val) ==> r == "+0 " + Display(op) + " " + val
    ensures op != Like && !IsF64(val) ==> r == Display(op) + " '" + val + "'"
  {
    if op == Like then "like '%" + val + "%'"
    else if IsF64(val) then "+0 " + ComparisonSymbol(op) + " " + val
    else ComparisonSymbol(op) + " '" + val + "'"
  }

  function Quote(s: string): string
  {
    "\"" + s + "\""
  }

  /** `DbUtilities::arr_param_from`: the strings double-quoted and joined by ", "; `""` for none. */
  function ArrParamFrom(strings: seq<string>): (r: string)
    ensures |strings| >= 1 ==> r == Join(QuoteAll(strings), ", ")
    ensures strings == [] ==> r == "\"\""
  {
    if |strings| >= 1 then
      JoinQuoted(strings);
      "\"" + Join(strings, "\", \"") + "\""
    else
      "\"" + Join(strings, "\", \"") + "\""
  }

  function QuoteAll(strings: seq<string>): (r: seq<string>)
    ensures |r| == |strings| && forall i :: 0 <= i < |r| ==> r[i] == Quote(strings[i])
  {
    seq(|strings|, i requires 0 <= i < |strings| => Quote(strings[i]))
  }

  lemma {:induction false} JoinQuoted(strings: seq<string>)
    requires |strings| >= 1
    ensures "\"" + Join(strings, "\", \"") + "\"" == Join(QuoteAll(strings), ", ")
    decreases |strings|
  {
    if |strings| > 1 {
      JoinQuoted(strings[1..]);
      assert QuoteAll(strings)[1..] == QuoteAll(strings[1..]);
    }
  }

  /** One filter: a metadata tag, the value typed for it and the operator. */
  datatype Filter = Filter(tag: string, value: string, op: SqlOperator)

  function Condition(f: Filter): string
  {
    "json_extract(metadata,'$." + f.tag + "') " + WhereClause(f.value, f.op)
  }

  /** The conditions of the filters whose value is non-empty, in input order. */
  function Conditions(filters: seq<Filter>): seq<string>
    decreases |filters|
  {
    if filters == [] then []
    else (if filters[0].value == "" then [] else [Condition(filters[0])]) + Conditions(filters[1..])
  }

  lemma {:induction false} ConditionsAppend(a: seq<Filter>, b: seq<Filter>)
    ensures Conditions(a + b) == Conditions(a) + Conditions(b)
    decreases |a|
  {
    if a != [] {
      assert (a + b)[1..] == a[1..] + b;
      ConditionsAppend(a[1..], b);
    } else {
      assert a + b == b;
    }
  }

  /**
   * A filter with an empty value contributes nothing, and the conditions of
   * the others stay in input order.
   */
  lemma ConditionsSkipEmpty(a: seq<Filter>, f: Filter, b: seq<Filter>)
    ensures f.value == "" ==> Conditions(a + [f] + b) == Conditions(a) + Conditions(b)
    ensures f.value != "" ==> Conditions(a + [f] + b) == Conditions(a) + [Condition(f)] + Conditions(b)
  {
    ConditionsAppend(a + [f], b);
    ConditionsAppend(a, [f]);
    assert [f][1..] == [];
    var one := if f.value == "" then [] else [Condition(f)];
    assert Conditions([f]) == one + Conditions([]);
    assert Conditions([f]) == one;
  }

  const SELECT_PREFIX := "SELECT distinct(path) FROM file WHERE "

  /** The ORDER BY clause: present exactly when an order tag is given, and naming that tag. */
  function OrderClause(orderTag: string, order: SqlOrder): (r: string)
    ensures r == "" <==> orderTag == ""
    ensures orderTag != "" ==> OccursAt(r, orderTag, 36)
  {
    if orderTag == "" then ""
    else
      var c := " ORDER BY  json_extract(metadata,'$." + orderTag + "') " + OrderSql(order);
      assert |" ORDER BY  json_extract(metadata,'$."| == 36;
      assert c[36..36 + |orderTag|] == orderTag;
      c
  }

  /** The query text of `get_paths_filtered_by_metadata`, appended to step by step. */
  method FilteredPathsQuery(filters: seq<Filter>, orderTag: string, order: SqlOrder) returns (query: string)
    ensures query == SELECT_PREFIX + Join(Conditions(filters), " AND ") + OrderClause(orderTag, order)
  {
    query := SELECT_PREFIX;
    query := query + Join(Conditions(filters), " AND ");
    if orderTag != "" {
      query := query + " ORDER BY  json_extract(metadata,'$." + orderTag + "') " + OrderSql(order);
    }
  }

  const INSERT_PREFIX := "insert into file (path, metadata) values "

  /** One row: the path copied verbatim, the JSON with every single quote removed (and unchanged when it has none). */
  function InsertRow(path: string, json: string): (r: string)
    ensures r == "('" + path + "', jsonb('" + Replace(json, "'", "") + "'))"
    ensures |r| > 2 + |path| && r[..2 + |path|] == "('" + path
    ensures '\'' !in Replace(json, "'", "")
    ensures '\'' !in json ==> Replace(json, "'", "") == json
  {
    ReplaceRemovesChar(json, '\'');
    assert ("('" + path + "', jsonb('" + Replace(json, "'", "") + "'))")[..2 + |path|] == "('" + path;
    if '\'' !in json then
      NotContainsWithout(json, "'");
      ReplaceAbsent(json, "'", "");
      "('" + path + "', jsonb('" + Replace(json, "'", "") + "'))"
    else
      "('" + path + "', jsonb('" + Replace(json, "'", "") + "'))"
  }

  function InsertRows(data: seq<(string, string)>): (r: seq<string>)
    ensures |r| == |data| && forall i :: 0 <= i < |r| ==> r[i] == InsertRow(data[i].0, data[i].1)
  {
    seq(|data|, i requires 0 <= i < |data| => InsertRow(data[i].0, data[i].1))
  }

  /** The statement of `insert_files_metadata`. */
  method InsertStatement(data: seq<(string, string)>) returns (q: string)
    ensures q == INSERT_PREFIX + Join(InsertRows(data), ",")
  {
    q := INSERT_PREFIX;
    q := q + Join(InsertRows(data), ",");
  }


}
