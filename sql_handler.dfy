/** The SQL handler: turns column maps into named-parameter statements for
    select, count, insert, update and delete. Executing a statement is left to
    the driver; what is modelled is the statement text and the parameter map
    handed to it.

    Go iterates maps in an unspecified order; the loops below pick the next key
    with `:|`, so every proof holds for every iteration order. Where the order
    shows in a result, the method also returns it as a ghost `order`. */
module SqlHandler {
  import opened Values
  import opened Placeholders

  /** A statement as handed to the driver: its text and its named parameters. */
  datatype Statement = Statement(text: string, params: Params)

  /** A call a repository makes on the handler. */
  datatype Call =
    | WhereCall(table: string, clause: string, args: Params)
    | ScanCall(table: string, order: string)
    | CountCall(table: string, clause: string, args: Params)
    | CreateCall(table: string, input: Params)
    | UpdateCall(table: string, setParams: Params, clause: string, whereParams: Params)
    | DeleteCall(table: string, input: Params)

  /** What the driver answers to a call that writes rows: nil or an error. */
  type Executor = Call -> Option<Error>

  const WhereSuffix := "_where"

  /** `cols` lists every element of `keys` exactly once, in some order. */
  ghost predicate Enumerates(cols: seq<string>, keys: set<string>)
  {
    && (forall i, j :: 0 <= i < j < |cols| ==> cols[i] != cols[j])
    && (forall i :: 0 <= i < |cols| ==> cols[i] in keys)
    && (forall k :: k in keys ==> k in cols)
  }

  /** The keys of `m` whose value is not the nil interface. */
  function NonNilKeys(m: Params): set<string>
  {
    set k | k in m && !m[k].Nil?
  }

  function PlaceholdersOf(cols: seq<string>): seq<string>
  {
    seq(|cols|, i requires 0 <= i < |cols| => ":" + cols[i])
  }

  function Assignment(col: string): string
  {
    col + " = :" + col
  }

  function Assignments(cols: seq<string>): seq<string>
  {
    seq(|cols|, i requires 0 <= i < |cols| => Assignment(cols[i]))
  }

  // ---------------------------------------------------------------------------
  // Statement texts

  function SelectText(table: string, whereClause: string): string
  {
    var query := "SELECT * FROM " + table;
    if whereClause != "" then query + " WHERE " + whereClause else query
  }

  function CountText(table: string, whereClause: string): string
  {
    var query := "SELECT COUNT(*) FROM " + table;
    if whereClause != "" then query + " WHERE " + whereClause else query
  }

  function ScanText(table: string, order: string): string
  {
    "SELECT * FROM " + table + " ORDER BY " + order + ";"
  }

  function InsertText(table: string, cols: seq<string>): string
  {
    "INSERT INTO " + table + " (" + Join(cols, ",") + ") VALUES (" + Join(PlaceholdersOf(cols), ",") + ")"
  }

  function UpdateText(table: string, setCols: seq<string>, whereClause: string): string
  {
    "UPDATE " + table + " SET " + Join(Assignments(setCols), ",") + " WHERE " + whereClause
  }

  /** The predicates Delete writes: the value is inlined with `%v`. */
  function InlinedEqualities(cols: seq<string>, values: Params): seq<string>
    requires forall i :: 0 <= i < |cols| ==> cols[i] in values
  {
    seq(|cols|, i requires 0 <= i < |cols| => cols[i] + " = " + Show(values[cols[i]]))
  }

  function DeleteText(table: string, cols: seq<string>, values: Params): string
    requires forall i :: 0 <= i < |cols| ==> cols[i] in values
  {
    "DELETE FROM " + table + " WHERE " + Join(InlinedEqualities(cols, values), ",")
  }

  /** The name a WHERE parameter gets: suffixed when the SET map has the same key. */
  function Renamed(key: string, setKeys: set<string>): string
  {
    if key in setKeys then key + WhereSuffix else key
  }

  /** The WHERE clause after the renaming loop has visited the keys `order`,
      each colliding key rewritten with `strings.ReplaceAll`. */
  function AdjustClause(whereClause: string, order: seq<string>, setKeys: set<string>): string
  {
    if order == [] then whereClause
    else
      var key := order[|order| - 1];
      var prev := AdjustClause(whereClause, order[..|order| - 1], setKeys);
      if key in setKeys then ReplaceAll(prev, ":" + key, ":" + key + WhereSuffix) else prev
  }

  /** The WHERE parameters after the renaming loop has visited the keys `order`. */
  function AdjustParams(order: seq<string>, whereParams: Params, setKeys: set<string>): Params
    requires forall i :: 0 <= i < |order| ==> order[i] in whereParams
  {
    if order == [] then map[]
    else
      var key := order[|order| - 1];
      AdjustParams(order[..|order| - 1], whereParams, setKeys)[Renamed(key, setKeys) := whereParams[key]]
  }

  /** The renaming of whole placeholder names the WHERE clause is meant to get. */
  function WhereRenaming(whereParams: Params, setKeys: set<string>): map<string, string>
  {
    map k | k in whereParams && k in setKeys :: k + WhereSuffix
  }

  // ---------------------------------------------------------------------------
  // Handler operations

  /** `buildNamedParameters`: the non-nil entries of `input`, as parallel column
      and placeholder lists and a values map. */
  method BuildNamedParameters(input: Params) returns (columns: seq<string>, placeholderNames: seq<string>, values: Params)
    ensures forall k :: k in values <==> k in input && !input[k].Nil?
    ensures forall k :: k in values ==> values[k] == input[k]
    ensures Enumerates(columns, values.Keys)
    ensures |placeholderNames| == |columns|
    ensures forall i :: 0 <= i < |columns| ==> placeholderNames[i] == ":" + columns[i]
    ensures forall i, j :: 0 <= i < j < |placeholderNames| ==> placeholderNames[i] != placeholderNames[j]
  {
    columns, placeholderNames, values := [], [], map[];
    var remaining := input.Keys;
    while remaining != {}
      invariant remaining <= input.Keys
      invariant forall k :: k in values <==> k in input && k !in remaining && !input[k].Nil?
      invariant forall k :: k in values ==> values[k] == input[k]
      invariant Enumerates(columns, values.Keys)
      invariant |placeholderNames| == |columns|
      invariant forall i :: 0 <= i < |columns| ==> placeholderNames[i] == ":" + columns[i]
      decreases remaining
    {
      var key :| key in remaining;
      var value := input[key];
      if !value.Nil? {
        columns := columns + [key];
        placeholderNames := placeholderNames + [":" + key];
        values := values[key := value];
      }
      remaining := remaining - {key};
    }
    forall i, j | 0 <= i < j < |placeholderNames|
      ensures placeholderNames[i] != placeholderNames[j]
    {
      assert placeholderNames[i][1..] == columns[i];
      assert placeholderNames[j][1..] == columns[j];
    }
  }

  /** `Where`: select every row, or the rows the clause admits. */
  function Where(table: string, whereClause: string, whereArgs: Params): Statement
  {
    Statement(SelectText(table, whereClause), whereArgs)
  }

  /** `Count`: count every row, or the rows the clause admits. */
  function Count(table: string, whereClause: string, whereArgs: Params): Statement
  {
    Statement(CountText(table, whereClause), whereArgs)
  }

  /** `Scan`: every row, ordered; the statement has no parameters. */
  function Scan(table: string, order: string): Statement
  {
    Statement(ScanText(table, order), map[])
  }

  /** `Create`: an INSERT naming every key of `input` except `id`, nil values
      included; the whole map, `id` included, is passed as parameters. */
  method Create(input: Params, table: string) returns (stmt: Statement, ghost columns: seq<string>)
    ensures Enumerates(columns, input.Keys - {"id"})
    ensures stmt.params == input
    ensures stmt.text == InsertText(table, columns)
  {
    var cols: seq<string> := [];
    var placeholders: seq<string> := [];
    var remaining := input.Keys;
    while remaining != {}
      invariant remaining <= input.Keys
      invariant Enumerates(cols, input.Keys - remaining - {"id"})
      invariant placeholders == PlaceholdersOf(cols)
      decreases remaining
    {
      var key :| key in remaining;
      remaining := remaining - {key};
      if key == "id" {
        continue;
      }
      cols := cols + [key];
      placeholders := placeholders + [":" + key];
    }
    columns := cols;
    stmt := Statement(InsertText(table, cols), input);
  }

  /** The SET clause list: `col = :col` for each column, in column order. */
  method SetClauses(setColumns: seq<string>, setPlaceholders: seq<string>) returns (clauses: seq<string>)
    requires |setPlaceholders| == |setColumns|
    requires forall i :: 0 <= i < |setColumns| ==> setPlaceholders[i] == ":" + setColumns[i]
    ensures clauses == Assignments(setColumns)
  {
    clauses := [];
    for i := 0 to |setColumns|
      invariant clauses == Assignments(setColumns[..i])
    {
      assert setColumns[..i + 1] == setColumns[..i] + [setColumns[i]];
      assert setColumns[i] + " = " + setPlaceholders[i] == Assignment(setColumns[i]);
      clauses := clauses + [setColumns[i] + " = " + setPlaceholders[i]];
    }
    assert setColumns[..|setColumns|] == setColumns;
  }

  /** The merge of the SET parameters and the adjusted WHERE parameters; a
      WHERE entry replaces a SET entry with the same key. */
  method MergeParams(setParams: Params, adjustedWhereParams: Params) returns (allParams: Params)
    ensures allParams == setParams + adjustedWhereParams
  {
    allParams := map[];
    var remaining := setParams.Keys;
    while remaining != {}
      invariant remaining <= setParams.Keys
      invariant allParams == map k | k in setParams && k !in remaining :: setParams[k]
      decreases remaining
    {
      var k :| k in remaining;
      allParams := allParams[k := setParams[k]];
      remaining := remaining - {k};
    }
    assert allParams == setParams;
    remaining := adjustedWhereParams.Keys;
    while remaining != {}
      invariant remaining <= adjustedWhereParams.Keys
      invariant allParams == setParams + map k | k in adjustedWhereParams && k !in remaining :: adjustedWhereParams[k]
      decreases remaining
    {
      var k :| k in remaining;
      allParams := allParams[k := adjustedWhereParams[k]];
      remaining := remaining - {k};
    }
    assert (map k | k in adjustedWhereParams && k !in {} :: adjustedWhereParams[k]) == adjustedWhereParams;
  }

  /** `Update` as written: SET over the non-nil entries; every WHERE key that
      is also a SET key is suffixed with `_where` and its placeholder text is
      rewritten with `strings.ReplaceAll`; the two maps are merged. */
  method Update(setParams: Params, table: string, whereClause: string, whereParams: Params)
    returns (stmt: Statement, ghost setColumns: seq<string>, ghost order: seq<string>)
    ensures Enumerates(setColumns, NonNilKeys(setParams))
    ensures Enumerates(order, whereParams.Keys)
    ensures stmt.text == UpdateText(table, setColumns, AdjustClause(whereClause, order, setParams.Keys))
    ensures stmt.params == setParams + AdjustParams(order, whereParams, setParams.Keys)
  {
    var cols, setPlaceholders, _ := BuildNamedParameters(setParams);
    assert cols == cols && NonNilKeys(setParams) == set k | k in setParams && !setParams[k].Nil?;
    var setClauses := SetClauses(cols, setPlaceholders);
    setColumns := cols;

    var adjustedWhereClause, adjustedWhereParams;
    adjustedWhereClause, adjustedWhereParams, order := SuffixCollisions(whereClause, whereParams, setParams);

    var query := "UPDATE " + table + " SET " + Join(setClauses, ",") + " WHERE " + adjustedWhereClause;
    var allParams := MergeParams(setParams, adjustedWhereParams);
    stmt := Statement(query, allParams);
  }

  /** The renaming loop of `Update` as written: each WHERE key that is also
      a SET key gets the `_where` suffix, in the parameters and, through
      `strings.ReplaceAll`, in the clause text. */
  method SuffixCollisions(whereClause: string, whereParams: Params, setParams: Params)
    returns (adjustedWhereClause: string, adjustedWhereParams: Params, ghost order: seq<string>)
    ensures Enumerates(order, whereParams.Keys)
    ensures adjustedWhereClause == AdjustClause(whereClause, order, setParams.Keys)
    ensures adjustedWhereParams == AdjustParams(order, whereParams, setParams.Keys)
  {
    adjustedWhereClause := whereClause;
    adjustedWhereParams := map[];
    var remaining := whereParams.Keys;
    order := [];
    while remaining != {}
      invariant remaining <= whereParams.Keys
      invariant Enumerates(order, whereParams.Keys - remaining)
      invariant adjustedWhereClause == AdjustClause(whereClause, order, setParams.Keys)
      invariant adjustedWhereParams == AdjustParams(order, whereParams, setParams.Keys)
      decreases remaining
    {
      var key :| key in remaining;
      var value := whereParams[key];
      if key in setParams {
        var newKey := key + WhereSuffix;
        assert ":" + newKey == ":" + key + WhereSuffix;
        adjustedWhereParams := adjustedWhereParams[newKey := value];
        adjustedWhereClause := ReplaceAll(adjustedWhereClause, ":" + key, ":" + newKey);
      } else {
        adjustedWhereParams := adjustedWhereParams[key := value];
      }
      assert (order + [key])[..|order|] == order;
      order := order + [key];
      remaining := remaining - {key};
    }
  }

  /** `Update` with the evidently intended renaming: the colliding WHERE
      placeholders are renamed as whole names, in one pass, so that a longer
      placeholder that merely starts with a colliding key is left alone. */
  method UpdateWholeNames(setParams: Params, table: string, whereClause: string, whereParams: Params)
    returns (stmt: Statement, ghost setColumns: seq<string>, ghost order: seq<string>)
    ensures Enumerates(setColumns, NonNilKeys(setParams))
    ensures Enumerates(order, whereParams.Keys)
    ensures stmt.text == UpdateText(table, setColumns, Rename(whereClause, WhereRenaming(whereParams, setParams.Keys)))
    ensures stmt.params == setParams + AdjustParams(order, whereParams, setParams.Keys)
  {
    var cols, setPlaceholders, _ := BuildNamedParameters(setParams);
    assert NonNilKeys(setParams) == set k | k in setParams && !setParams[k].Nil?;
    var setClauses := SetClauses(cols, setPlaceholders);
    setColumns := cols;

    var renaming, adjustedWhereParams;
    renaming, adjustedWhereParams, order := WholeNameRenaming(whereParams, setParams);

    var adjustedWhereClause := Rename(whereClause, renaming);
    var query := "UPDATE " + table + " SET " + Join(setClauses, ",") + " WHERE " + adjustedWhereClause;
    var allParams := MergeParams(setParams, adjustedWhereParams);
    stmt := Statement(query, allParams);
  }

  /** The renaming loop of `UpdateWholeNames`: each WHERE key that is also a
      SET key is mapped to its suffixed name, and the WHERE parameters are
      re-keyed accordingly. */
  method WholeNameRenaming(whereParams: Params, setParams: Params)
    returns (renaming: map<string, string>, adjustedWhereParams: Params, ghost order: seq<string>)
    ensures Enumerates(order, whereParams.Keys)
    ensures renaming == WhereRenaming(whereParams, setParams.Keys)
    ensures adjustedWhereParams == AdjustParams(order, whereParams, setParams.Keys)
  {
    renaming := map[];
    adjustedWhereParams := map[];
    var remaining := whereParams.Keys;
    order := [];
    while remaining != {}
      invariant remaining <= whereParams.Keys
      invariant Enumerates(order, whereParams.Keys - remaining)
      invariant renaming == map k | k in whereParams && k !in remaining && k in setParams :: k + WhereSuffix
      invariant adjustedWhereParams == AdjustParams(order, whereParams, setParams.Keys)
      decreases remaining
    {
      var key :| key in remaining;
      var value := whereParams[key];
      RenamingStep(whereParams, setParams, remaining, key, renaming);
      if key in setParams {
        var newKey := key + WhereSuffix;
        adjustedWhereParams := adjustedWhereParams[newKey := value];
        renaming := renaming[key := newKey];
      } else {
        adjustedWhereParams := adjustedWhereParams[key := value];
      }
      assert (order + [key])[..|order|] == order;
      order := order + [key];
      remaining := remaining - {key};
    }
    assert renaming == WhereRenaming(whereParams, setParams.Keys);
  }

  /** Visiting one more WHERE key extends the renaming by that key when it
      collides with a SET key. */
  lemma RenamingStep(whereParams: Params, setParams: Params, remaining: set<string>, key: string, renaming: map<string, string>)
    requires key in remaining && key in whereParams
    requires renaming == map k | k in whereParams && k !in remaining && k in setParams :: k + WhereSuffix
    ensures key in setParams ==>
      (renaming[key := key + WhereSuffix]
         == map k | k in whereParams && k !in remaining - {key} && k in setParams :: k + WhereSuffix)
    ensures key !in setParams ==>
      (renaming == map k | k in whereParams && k !in remaining - {key} && k in setParams :: k + WhereSuffix)
  {
  }

  /** `Delete` as written: one `col = <value>` per non-nil entry, the value
      inlined with `%v`, the predicates joined with ","; the non-nil entries
      are passed as parameters. */
  method Delete(input: Params, table: string) returns (stmt: Statement, ghost columns: seq<string>)
    ensures Enumerates(columns, NonNilKeys(input))
    ensures forall i :: 0 <= i < |columns| ==> columns[i] in input
    ensures stmt.text == DeleteText(table, columns, input)
    ensures forall k :: k in stmt.params <==> k in NonNilKeys(input)
    ensures forall k :: k in stmt.params ==> stmt.params[k] == input[k]
  {
    var cols, _, values := BuildNamedParameters(input);
    var whereClauses: seq<string> := [];
    for i := 0 to |cols|
      invariant |whereClauses| == i
      invariant forall j :: 0 <= j < i ==> whereClauses[j] == cols[j] + " = " + Show(input[cols[j]])
    {
      whereClauses := whereClauses + [cols[i] + " = " + Show(values[cols[i]])];
    }
    assert whereClauses == InlinedEqualities(cols, input);
    columns := cols;
    stmt := Statement("DELETE FROM " + table + " WHERE " + Join(whereClauses, ","), values);
  }

  /** `Delete` with the evidently intended statement: each non-nil entry
      becomes a bound `col = :col` predicate, and the predicates are joined
      with AND. */
  method DeleteNamed(input: Params, table: string) returns (stmt: Statement, ghost columns: seq<string>)
    ensures Enumerates(columns, NonNilKeys(input))
    ensures stmt.text == "DELETE FROM " + table + " WHERE " + Join(Assignments(columns), " AND ")
    ensures forall k :: k in stmt.params <==> k in NonNilKeys(input)
    ensures forall k :: k in stmt.params ==> stmt.params[k] == input[k]
  {
    var cols, setPlaceholders, values := BuildNamedParameters(input);
    var predicates := SetClauses(cols, setPlaceholders);
    columns := cols;
    stmt := Statement("DELETE FROM " + table + " WHERE " + Join(predicates, " AND "), values);
  }
}
