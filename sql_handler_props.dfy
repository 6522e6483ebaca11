/** What the statements built by the SQL handler mean: which placeholders
    their text references, and which value each placeholder is bound to. */
module SqlHandlerProps {
  import opened Values
  import opened Placeholders
  import opened SqlHandler

  /** Every placeholder of `stmt` has a value in its parameter map. */
  ghost predicate Bound(stmt: Statement)
  {
    forall i :: 0 <= i < |Names(stmt.text)| ==> Names(stmt.text)[i] in stmt.params
  }

  /** An enumeration of a set has exactly one entry per element. */
  lemma {:induction false} EnumerationSize(cols: seq<string>, keys: set<string>)
    requires Enumerates(cols, keys)
    ensures |cols| == |keys|
    decreases |cols|
  {
    if cols != [] {
      var rest := keys - {cols[0]};
      assert Enumerates(cols[1..], rest) by {
        forall k | k in rest ensures k in cols[1..] {
          assert k in cols && k != cols[0];
          var i :| 0 <= i < |cols| && cols[i] == k;
          assert cols[1..][i - 1] == k;
        }
        forall i | 0 <= i < |cols[1..]| ensures cols[1..][i] in rest {
          assert cols[1..][i] == cols[i + 1] != cols[0];
        }
      }
      EnumerationSize(cols[1..], rest);
    }
  }

  lemma SuffixedName(k: string)
    requires IsName(k)
    ensures IsName(k + WhereSuffix)
  {
    assert IsName(WhereSuffix);
    NameConcat(k, WhereSuffix);
  }

  lemma {:induction false} NamesOfAssignments(cols: seq<string>)
    requires forall i :: 0 <= i < |cols| ==> IsName(cols[i])
    ensures ConcatNames(Assignments(cols)) == cols
    decreases |cols|
  {
    if cols != [] {
      var c := cols[0];
      NameHasNoColon(c);
      assert Assignment(c) == c + " = " + (":" + c + "");
      NamesNoColon(c + " = ", ":" + c + "");
      NamesOfPlaceholder(c, "");
      assert Names("") == [];
      assert Assignments(cols)[1..] == Assignments(cols[1..]);
      NamesOfAssignments(cols[1..]);
    }
  }

  lemma {:induction false} NamesOfPlaceholdersOf(cols: seq<string>)
    requires forall i :: 0 <= i < |cols| ==> IsName(cols[i])
    ensures ConcatNames(PlaceholdersOf(cols)) == cols
    decreases |cols|
  {
    if cols != [] {
      NamesOfPlaceholder(cols[0], "");
      assert ":" + cols[0] + "" == PlaceholdersOf(cols)[0];
      assert Names("") == [];
      assert PlaceholdersOf(cols)[1..] == PlaceholdersOf(cols[1..]);
      NamesOfPlaceholdersOf(cols[1..]);
    }
  }

  lemma {:induction false} JoinNoColon(parts: seq<string>, sep: string)
    requires forall i :: 0 <= i < |parts| ==> ':' !in parts[i]
    requires ':' !in sep
    ensures ':' !in Join(parts, sep)
    decreases |parts|
  {
    if |parts| > 1 {
      JoinNoColon(parts[1..], sep);
    }
  }

  /** `Where` passes its arguments through and references exactly the
      placeholders of the clause; it adds a WHERE only for a non-empty clause. */
  lemma WhereBindsClause(table: string, whereClause: string, whereArgs: Params)
    requires ':' !in table
    ensures Where(table, whereClause, whereArgs).params == whereArgs
    ensures Names(Where(table, whereClause, whereArgs).text) == Names(whereClause)
    ensures Where(table, whereClause, whereArgs).text == "SELECT * FROM " + table <==> whereClause == ""
  {
    var query := "SELECT * FROM " + table;
    if whereClause != "" {
      assert query + " WHERE " + whereClause == query + (" WHERE " + whereClause);
      NamesNoColon(query + " WHERE ", whereClause);
      assert |query + " WHERE " + whereClause| > |query|;
    } else {
      NamesNoColon(query, "");
      assert query + "" == query;
    }
  }

  /** `Count` passes its arguments through and references exactly the
      placeholders of the clause; it adds a WHERE only for a non-empty clause. */
  lemma CountBindsClause(table: string, whereClause: string, whereArgs: Params)
    requires ':' !in table
    ensures Count(table, whereClause, whereArgs).params == whereArgs
    ensures Names(Count(table, whereClause, whereArgs).text) == Names(whereClause)
    ensures Count(table, whereClause, whereArgs).text == "SELECT COUNT(*) FROM " + table <==> whereClause == ""
  {
    var query := "SELECT COUNT(*) FROM " + table;
    if whereClause != "" {
      NamesNoColon(query + " WHERE ", whereClause);
      assert |query + " WHERE " + whereClause| > |query|;
    } else {
      NamesNoColon(query, "");
      assert query + "" == query;
    }
  }

  /** `col = :col` references `col`, once. */
  lemma AssignmentNames(col: string)
    requires IsName(col)
    ensures Names(Assignment(col)) == [col]
  {
    NameHasNoColon(col);
    assert Assignment(col) == col + " = " + (":" + col + "");
    NamesNoColon(col + " = ", ":" + col + "");
    NamesOfPlaceholder(col, "");
    assert Names("") == [];
  }

  /** A select keyed by one column, `col = :col` with `{col: v}`: the column is
      the statement's one placeholder and it is bound to `v`. */
  lemma KeyedWhereIsBound(table: string, col: string, v: Value)
    requires ':' !in table && IsName(col)
    ensures Where(table, Assignment(col), map[col := v]).text == "SELECT * FROM " + table + " WHERE " + Assignment(col)
    ensures Names(Where(table, Assignment(col), map[col := v]).text) == [col]
    ensures Bound(Where(table, Assignment(col), map[col := v]))
  {
    AssignmentNames(col);
    WhereBindsClause(table, Assignment(col), map[col := v]);
  }

  /** A count keyed by one column, `col = :col` with `{col: v}`: the column is
      the statement's one placeholder and it is bound to `v`. */
  lemma KeyedCountIsBound(table: string, col: string, v: Value)
    requires ':' !in table && IsName(col)
    ensures Count(table, Assignment(col), map[col := v]).text == "SELECT COUNT(*) FROM " + table + " WHERE " + Assignment(col)
    ensures Names(Count(table, Assignment(col), map[col := v]).text) == [col]
    ensures Bound(Count(table, Assignment(col), map[col := v]))
  {
    AssignmentNames(col);
    CountBindsClause(table, Assignment(col), map[col := v]);
  }

  /** `Scan` references no placeholder and passes no parameter. */
  lemma ScanHasNoPlaceholders(table: string, order: string)
    requires ':' !in table && ':' !in order
    ensures Scan(table, order).params == map[]
    ensures Names(Scan(table, order).text) == []
  {
    var text := Scan(table, order).text;
    assert ':' !in "SELECT * FROM " && ':' !in " ORDER BY " && ':' !in ";";
    NoColonAppend("SELECT * FROM ", table);
    NoColonAppend("SELECT * FROM " + table, " ORDER BY ");
    NoColonAppend("SELECT * FROM " + table + " ORDER BY ", order);
    NoColonAppend("SELECT * FROM " + table + " ORDER BY " + order, ";");
    NamesNoColon(text, "");
    assert text + "" == text;
  }

  /** The INSERT text references exactly its columns, in column order. */
  lemma NamesOfInsert(table: string, cols: seq<string>)
    requires ':' !in table
    requires forall i :: 0 <= i < |cols| ==> IsName(cols[i])
    ensures Names(InsertText(table, cols)) == cols
  {
    forall i | 0 <= i < |cols| ensures ':' !in cols[i] {
      NameHasNoColon(cols[i]);
    }
    JoinNoColon(cols, ",");
    var head := "INSERT INTO " + table + " (" + Join(cols, ",") + ") VALUES (";
    var phs := Join(PlaceholdersOf(cols), ",");
    assert InsertText(table, cols) == head + (phs + ")");
    NamesNoColon(head, phs + ")");
    NamesAppend(phs, ")");
    NamesNoColon(")", "");
    assert ")" + "" == ")";
    NamesOfJoin(PlaceholdersOf(cols), ",");
    NamesOfPlaceholdersOf(cols);
  }

  /** `Create` binds every placeholder of its statement, nil values included. */
  lemma CreateIsBound(input: Params, table: string, stmt: Statement, columns: seq<string>)
    requires ':' !in table
    requires forall k :: k in input ==> IsName(k)
    requires Enumerates(columns, input.Keys - {"id"})
    requires stmt.params == input
    requires stmt.text == InsertText(table, columns)
    ensures Names(stmt.text) == columns
    ensures Bound(stmt)
  {
    NamesOfInsert(table, columns);
  }

  /** The UPDATE text references the SET columns, then the WHERE clause's own
      placeholders. */
  lemma NamesOfUpdate(table: string, setCols: seq<string>, whereClause: string)
    requires ':' !in table
    requires forall i :: 0 <= i < |setCols| ==> IsName(setCols[i])
    ensures Names(UpdateText(table, setCols, whereClause)) == setCols + Names(whereClause)
  {
    var head := "UPDATE " + table + " SET ";
    var sets := Join(Assignments(setCols), ",");
    assert UpdateText(table, setCols, whereClause) == head + (sets + (" WHERE " + whereClause));
    NamesNoColon(head, sets + (" WHERE " + whereClause));
    NamesAppend(sets, " WHERE " + whereClause);
    NamesNoColon(" WHERE ", whereClause);
    NamesOfJoin(Assignments(setCols), ",");
    NamesOfAssignments(setCols);
  }

  // ---------------------------------------------------------------------------
  // The renamed WHERE parameters

  /** No WHERE key that collides with a SET key has a suffixed form that is
      itself a SET or WHERE key. */
  ghost predicate SuffixFresh(setKeys: set<string>, whereParams: Params)
  {
    forall k :: k in whereParams && k in setKeys ==> k + WhereSuffix !in setKeys && k + WhereSuffix !in whereParams
  }

  ghost predicate RenamingInjective(whereParams: Params, setKeys: set<string>)
  {
    forall k1, k2 :: k1 in whereParams && k2 in whereParams && k1 != k2 ==> Renamed(k1, setKeys) != Renamed(k2, setKeys)
  }

  lemma SuffixFreshInjective(whereParams: Params, setKeys: set<string>)
    requires SuffixFresh(setKeys, whereParams)
    ensures RenamingInjective(whereParams, setKeys)
  {
    forall k1, k2 | k1 in whereParams && k2 in whereParams && k1 != k2
      ensures Renamed(k1, setKeys) != Renamed(k2, setKeys)
    {
      assert (k1 + WhereSuffix)[..|k1|] == k1;
      assert (k2 + WhereSuffix)[..|k2|] == k2;
    }
  }

  /** The adjusted WHERE parameters are named by the renamed keys visited. */
  lemma {:induction false} AdjustParamsDomain(order: seq<string>, whereParams: Params, setKeys: set<string>)
    requires forall i :: 0 <= i < |order| ==> order[i] in whereParams
    ensures forall n :: n in AdjustParams(order, whereParams, setKeys) <==>
      exists i :: 0 <= i < |order| && n == Renamed(order[i], setKeys)
    decreases |order|
  {
    if order != [] {
      var prefix := order[..|order| - 1];
      var last := order[|order| - 1];
      AdjustParamsDomain(prefix, whereParams, setKeys);
      assert AdjustParams(order, whereParams, setKeys)
          == AdjustParams(prefix, whereParams, setKeys)[Renamed(last, setKeys) := whereParams[last]];
      forall n ensures n in AdjustParams(order, whereParams, setKeys) <==>
        exists i :: 0 <= i < |order| && n == Renamed(order[i], setKeys)
      {
        if n in AdjustParams(order, whereParams, setKeys) && n != Renamed(order[|order| - 1], setKeys) {
          var i :| 0 <= i < |prefix| && n == Renamed(prefix[i], setKeys);
          assert order[i] == prefix[i];
        }
        if exists i :: 0 <= i < |order| && n == Renamed(order[i], setKeys) {
          var i :| 0 <= i < |order| && n == Renamed(order[i], setKeys);
          if i < |prefix| {
            assert prefix[i] == order[i];
          }
        }
      }
    }
  }

  /** Each visited WHERE key's value is kept under its renamed key. */
  lemma {:induction false} AdjustParamsValue(order: seq<string>, whereParams: Params, setKeys: set<string>, j: int)
    requires forall i :: 0 <= i < |order| ==> order[i] in whereParams
    requires forall i, i' :: 0 <= i < i' < |order| ==> order[i] != order[i']
    requires RenamingInjective(whereParams, setKeys)
    requires 0 <= j < |order|
    ensures Renamed(order[j], setKeys) in AdjustParams(order, whereParams, setKeys)
    ensures AdjustParams(order, whereParams, setKeys)[Renamed(order[j], setKeys)] == whereParams[order[j]]
    decreases |order|
  {
    var last := |order| - 1;
    if j < last {
      var prefix := order[..last];
      assert prefix[j] == order[j];
      AdjustParamsValue(prefix, whereParams, setKeys, j);
      assert order[j] != order[last];
    }
  }

  /** The corrected `Update` binds every placeholder as intended: the SET
      columns to their SET values, and each WHERE key, under its renamed
      placeholder, to its WHERE value. The statement text references the SET
      columns and then the WHERE clause's placeholders, renamed. */
  lemma UpdateWholeNamesResolves(setParams: Params, table: string, whereClause: string, whereParams: Params,
                                 setColumns: seq<string>, order: seq<string>)
    requires ':' !in table
    requires forall k :: k in setParams ==> IsName(k)
    requires SuffixFresh(setParams.Keys, whereParams)
    requires Enumerates(setColumns, NonNilKeys(setParams))
    requires Enumerates(order, whereParams.Keys)
    ensures Names(UpdateText(table, setColumns, Rename(whereClause, WhereRenaming(whereParams, setParams.Keys))))
         == setColumns + ApplyAll(WhereRenaming(whereParams, setParams.Keys), Names(whereClause))
    ensures forall c :: c in NonNilKeys(setParams) ==>
      c in setParams + AdjustParams(order, whereParams, setParams.Keys) &&
      (setParams + AdjustParams(order, whereParams, setParams.Keys))[c] == setParams[c]
    ensures forall k :: k in whereParams ==>
      var n := Apply(WhereRenaming(whereParams, setParams.Keys), k);
      n in setParams + AdjustParams(order, whereParams, setParams.Keys) &&
      (setParams + AdjustParams(order, whereParams, setParams.Keys))[n] == whereParams[k]
  {
    var setKeys := setParams.Keys;
    var ren := WhereRenaming(whereParams, setKeys);
    var adjusted := AdjustParams(order, whereParams, setKeys);
    forall n | n in ren ensures IsName(ren[n]) {
      SuffixedName(n);
    }
    NamesOfUpdate(table, setColumns, Rename(whereClause, ren));
    NamesOfRename(whereClause, ren);

    AdjustParamsDomain(order, whereParams, setKeys);
    forall c | c in NonNilKeys(setParams) ensures c !in adjusted {
      forall i | 0 <= i < |order| ensures c != Renamed(order[i], setKeys) {
        assert order[i] in whereParams;
      }
    }

    SuffixFreshInjective(whereParams, setKeys);
    forall k | k in whereParams
      ensures Apply(ren, k) in setParams + adjusted && (setParams + adjusted)[Apply(ren, k)] == whereParams[k]
    {
      var j :| 0 <= j < |order| && order[j] == k;
      AdjustParamsValue(order, whereParams, setKeys, j);
      assert Apply(ren, k) == Renamed(k, setKeys);
    }
  }

  // ---------------------------------------------------------------------------
  // Where the as-written `Update` agrees with the corrected one

  lemma {:induction false} RenameEmpty(s: string)
    ensures Rename(s, map[]) == s
    decreases |s|
  {
    if s != [] {
      if StartsPlaceholder(s) {
        var n := NameRun(s[1..]);
        RenameEmpty(s[1 + |n|..]);
        SplitAtPlaceholder(s);
      } else {
        RenameEmpty(s[1..]);
        ConsTail(s);
      }
    }
  }

  /** With at most one WHERE key `k` colliding with the SET keys, the
      as-written loop rewrites the clause once, and only when `k` was visited. */
  lemma {:induction false} AdjustClauseSingle(whereClause: string, order: seq<string>, setKeys: set<string>, k: string)
    requires forall i :: 0 <= i < |order| && order[i] in setKeys ==> order[i] == k
    requires forall i, i' :: 0 <= i < i' < |order| ==> order[i] != order[i']
    ensures AdjustClause(whereClause, order, setKeys)
         == if k in order && k in setKeys then ReplaceAll(whereClause, ":" + k, ":" + k + WhereSuffix) else whereClause
    decreases |order|
  {
    if order != [] {
      var last := |order| - 1;
      var prefix := order[..last];
      AdjustClauseSingle(whereClause, prefix, setKeys, k);
      assert order == prefix + [order[last]];
      if order[last] == k {
        assert k !in prefix by {
          forall i | 0 <= i < |prefix| ensures prefix[i] != k {
            assert prefix[i] == order[i];
          }
        }
      }
    }
  }

  /** When no WHERE key is a SET key, both versions of `Update` leave the
      clause and the WHERE parameters as given. */
  lemma NoCollisionKeepsWhere(whereClause: string, whereParams: Params, setKeys: set<string>, order: seq<string>)
    requires whereParams.Keys !! setKeys
    requires Enumerates(order, whereParams.Keys)
    ensures AdjustClause(whereClause, order, setKeys) == whereClause
    ensures Rename(whereClause, WhereRenaming(whereParams, setKeys)) == whereClause
    ensures AdjustParams(order, whereParams, setKeys) == whereParams
  {
    NoCollisionKeepsClause(whereClause, whereParams, setKeys, order);
    NoCollisionKeepsParams(whereParams, setKeys, order);
  }

  lemma NoCollisionKeepsClause(whereClause: string, whereParams: Params, setKeys: set<string>, order: seq<string>)
    requires whereParams.Keys !! setKeys
    requires Enumerates(order, whereParams.Keys)
    ensures AdjustClause(whereClause, order, setKeys) == whereClause
    ensures Rename(whereClause, WhereRenaming(whereParams, setKeys)) == whereClause
  {
    AdjustClauseSingle(whereClause, order, setKeys, "");
    assert !("" in order && "" in setKeys);
    assert WhereRenaming(whereParams, setKeys) == map[];
    RenameEmpty(whereClause);
  }

  lemma NoCollisionKeepsParams(whereParams: Params, setKeys: set<string>, order: seq<string>)
    requires whereParams.Keys !! setKeys
    requires Enumerates(order, whereParams.Keys)
    ensures AdjustParams(order, whereParams, setKeys) == whereParams
  {
    AdjustParamsDomain(order, whereParams, setKeys);
    forall n ensures n in AdjustParams(order, whereParams, setKeys) <==> n in whereParams {
      if n in whereParams {
        var i :| 0 <= i < |order| && order[i] == n;
        assert n == Renamed(order[i], setKeys);
      }
    }
    forall n | n in whereParams ensures AdjustParams(order, whereParams, setKeys)[n] == whereParams[n] {
      var j :| 0 <= j < |order| && order[j] == n;
      AdjustParamsValue(order, whereParams, setKeys, j);
    }
  }

  /** With exactly one colliding key `k`, and no placeholder of the clause
      that properly extends `k`, the as-written `Update` builds the same
      clause as the corrected one. */
  lemma SingleCollisionAgrees(whereClause: string, whereParams: Params, setKeys: set<string>, order: seq<string>, k: string)
    requires IsName(k)
    requires whereParams.Keys * setKeys == {k}
    requires Enumerates(order, whereParams.Keys)
    requires NoExtension(k, Names(whereClause))
    ensures AdjustClause(whereClause, order, setKeys) == Rename(whereClause, WhereRenaming(whereParams, setKeys))
  {
    assert k in whereParams.Keys * setKeys;
    forall i | 0 <= i < |order| && order[i] in setKeys ensures order[i] == k {
      assert order[i] in whereParams.Keys * setKeys;
    }
    AdjustClauseSingle(whereClause, order, setKeys, k);
    assert WhereRenaming(whereParams, setKeys) == map[k := k + WhereSuffix];
    SuffixedName(k);
    ReplaceAllIsRename(whereClause, k, k + WhereSuffix);
    assert ":" + k + WhereSuffix == ":" + (k + WhereSuffix);
  }

  // ---------------------------------------------------------------------------
  // Finding: `strings.ReplaceAll` also rewrites a longer placeholder that
  // starts with a colliding key.

  lemma NameConcat(a: string, b: string)
    requires IsName(a) && IsName(b)
    ensures IsName(a + b)
  {
    var s := a + b;
    forall i | 0 <= i < |s| ensures IsNameChar(s[i]) {
      if i < |a| {
        assert s[i] == a[i];
      } else {
        assert s[i] == b[i - |a|];
      }
    }
  }

  /** A WHERE clause testing a key `k` and a second key `k + t` that extends it. */
  function TwoKeyClause(k: string, t: string): string
  {
    k + " = " + (":" + k + (" and " + k + t + " = " + (":" + k + t)))
  }

  lemma TwoKeyClauseNames(k: string, t: string)
    requires IsName(k) && IsName(t)
    ensures Names(TwoKeyClause(k, t)) == [k, k + t]
  {
    NameHasNoColon(k);
    NameHasNoColon(t);
    NameConcat(k, t);
    var x := " and " + k + t + " = ";
    assert TwoKeyClause(k, t) == k + " = " + (":" + k + (x + (":" + (k + t) + "")));
    NamesNoColon(k + " = ", ":" + k + (x + (":" + (k + t) + "")));
    NamesOfPlaceholder(k, x + (":" + (k + t) + ""));
    NamesNoColon(x, ":" + (k + t) + "");
    NamesOfPlaceholder(k + t, "");
    assert Names("") == [];
  }

  /** What the as-written renaming makes of the clause: both `:k` and the
      start of `:k + t` are rewritten. */
  lemma TwoKeyClauseAsWritten(k: string, t: string)
    requires IsName(k) && IsName(t)
    ensures ReplaceAll(TwoKeyClause(k, t), ":" + k, ":" + k + WhereSuffix)
         == k + " = " + (":" + k + WhereSuffix + (" and " + k + t + " = " + (":" + k + WhereSuffix + t)))
  {
    var pat, rep := ":" + k, ":" + k + WhereSuffix;
    NameHasNoColon(k);
    NameHasNoColon(t);
    var x := " and " + k + t + " = ";
    ReplaceAllNoColon(k + " = ", pat + (x + (pat + t)), pat, rep);
    ReplaceAllMatch(pat, rep, x + (pat + t));
    ReplaceAllNoColon(x, pat + t, pat, rep);
    ReplaceAllMatch(pat, rep, t);
    ReplaceAllNoColon(t, "", pat, rep);
    assert t + "" == t;
  }

  lemma TwoKeyRewrittenNames(k: string, t: string)
    requires IsName(k) && IsName(t)
    ensures Names(k + " = " + (":" + k + WhereSuffix + (" and " + k + t + " = " + (":" + k + WhereSuffix + t))))
         == [k + WhereSuffix, k + WhereSuffix + t]
  {
    NameHasNoColon(k);
    NameHasNoColon(t);
    assert IsName(WhereSuffix);
    NameConcat(k, WhereSuffix);
    NameConcat(k + WhereSuffix, t);
    var kw, kwt := k + WhereSuffix, k + WhereSuffix + t;
    var x := " and " + k + t + " = ";
    AppendAssoc(":", k, WhereSuffix);
    AppendAssoc(":", kw, t);
    AppendEmpty(":" + kwt);
    NamesNoColon(k + " = ", ":" + kw + (x + (":" + kwt + "")));
    NamesOfPlaceholder(kw, x + (":" + kwt + ""));
    NamesNoColon(x, ":" + kwt + "");
    NamesOfPlaceholder(kwt, "");
    assert Names("") == [];
  }

  /** The as-written `Update` with SET key `k` and WHERE keys `k` and `k + t`
      references the placeholder `k_where + t`, which no parameter binds. */
  lemma UpdateLeavesPlaceholderUnbound(k: string, t: string, setValue: Value, whereValue: Value, tailValue: Value,
                                       table: string, stmt: Statement, setColumns: seq<string>, order: seq<string>)
    requires IsName(k) && IsName(t) && ':' !in table
    requires Enumerates(setColumns, NonNilKeys(map[k := setValue]))
    requires Enumerates(order, map[k := whereValue, k + t := tailValue].Keys)
    requires stmt.text == UpdateText(table, setColumns, AdjustClause(TwoKeyClause(k, t), order, map[k := setValue].Keys))
    requires stmt.params == map[k := setValue] + AdjustParams(order, map[k := whereValue, k + t := tailValue], map[k := setValue].Keys)
    ensures k + WhereSuffix + t in Names(stmt.text)
    ensures k + WhereSuffix + t !in stmt.params
  {
    var setKeys := map[k := setValue].Keys;
    var whereParams := map[k := whereValue, k + t := tailValue];
    assert setKeys == {k};
    assert k in whereParams;
    AdjustClauseSingle(TwoKeyClause(k, t), order, setKeys, k);
    TwoKeyClauseAsWritten(k, t);
    TwoKeyRewrittenNames(k, t);
    forall i | 0 <= i < |setColumns| ensures IsName(setColumns[i]) {
      assert setColumns[i] in NonNilKeys(map[k := setValue]);
    }
    NamesOfUpdate(table, setColumns, AdjustClause(TwoKeyClause(k, t), order, setKeys));
    assert Names(stmt.text)[|setColumns| + 1] == k + WhereSuffix + t;

    AdjustParamsDomain(order, whereParams, setKeys);
    forall i | 0 <= i < |order| ensures Renamed(order[i], setKeys) != k + WhereSuffix + t {
      assert order[i] in whereParams;
    }
  }

  /** On the same input the corrected `Update` renames only `:k` and binds
      every placeholder. */
  lemma UpdateWholeNamesBindsTwoKeys(k: string, t: string, setValue: Value, whereValue: Value, tailValue: Value,
                                     table: string, stmt: Statement, setColumns: seq<string>, order: seq<string>)
    requires IsName(k) && IsName(t) && t != WhereSuffix && ':' !in table
    requires Enumerates(setColumns, NonNilKeys(map[k := setValue]))
    requires Enumerates(order, map[k := whereValue, k + t := tailValue].Keys)
    requires stmt.text == UpdateText(table, setColumns,
      Rename(TwoKeyClause(k, t), WhereRenaming(map[k := whereValue, k + t := tailValue], map[k := setValue].Keys)))
    requires stmt.params == map[k := setValue] + AdjustParams(order, map[k := whereValue, k + t := tailValue], map[k := setValue].Keys)
    ensures Names(stmt.text) == setColumns + [k + WhereSuffix, k + t]
    ensures Bound(stmt)
  {
    var setParams := map[k := setValue];
    var whereParams := map[k := whereValue, k + t := tailValue];
    TwoKeysDistinct(k, t);
    TwoKeyMaps(k, t, setParams, whereParams);
    TwoKeyClauseNames(k, t);
    UpdateWholeNamesResolves(setParams, table, TwoKeyClause(k, t), whereParams, setColumns, order);
    var ren := WhereRenaming(whereParams, setParams.Keys);
    TwoKeyRenaming(k, t, ren);
    TwoKeysBound(k, t, setParams, stmt, setColumns);
  }

  lemma TwoKeyMaps(k: string, t: string, setParams: Params, whereParams: Params)
    requires IsName(k)
    requires k + t != k && k + WhereSuffix != k + t && k + WhereSuffix != k
    requires setParams.Keys == {k} && whereParams.Keys == {k, k + t}
    ensures forall c :: c in setParams ==> IsName(c)
    ensures SuffixFresh(setParams.Keys, whereParams)
    ensures WhereRenaming(whereParams, setParams.Keys) == map[k := k + WhereSuffix]
  {
  }

  /** The three names of the two-key example are distinct. */
  lemma TwoKeysDistinct(k: string, t: string)
    requires IsName(t) && t != WhereSuffix
    ensures k + t != k && k + WhereSuffix != k + t && k + WhereSuffix != k
  {
    assert |k + t| > |k|;
    assert |k + WhereSuffix| > |k|;
    assert (k + WhereSuffix)[|k|..] == WhereSuffix;
    assert (k + t)[|k|..] == t;
  }

  lemma TwoKeyRenaming(k: string, t: string, ren: map<string, string>)
    requires k + t != k
    requires ren == map[k := k + WhereSuffix]
    ensures Apply(ren, k) == k + WhereSuffix && Apply(ren, k + t) == k + t
    ensures ApplyAll(ren, [k, k + t]) == [k + WhereSuffix, k + t]
  {
    assert Apply(ren, k) == k + WhereSuffix;
    assert Apply(ren, k + t) == k + t;
  }

  /** Every placeholder of the corrected two-key statement has its value. */
  lemma TwoKeysBound(k: string, t: string, setParams: Params, stmt: Statement, setColumns: seq<string>)
    requires Enumerates(setColumns, NonNilKeys(setParams))
    requires Names(stmt.text) == setColumns + [k + WhereSuffix, k + t]
    requires forall c :: c in NonNilKeys(setParams) ==> c in stmt.params
    requires k + WhereSuffix in stmt.params && k + t in stmt.params
    ensures Bound(stmt)
  {
    forall i | 0 <= i < |Names(stmt.text)| ensures Names(stmt.text)[i] in stmt.params {
      if i < |setColumns| {
        assert setColumns[i] in NonNilKeys(setParams);
      }
    }
  }

  // ---------------------------------------------------------------------------
  // Finding: `Delete` inlines the values and joins its predicates with ",".

  /** The as-written `Delete` of a two-column key: both values appear as bare
      text, the two predicates are separated by ",", and the statement has no
      placeholder for the parameters passed with it. */
  lemma DeleteInlinesValues(a: string, b: string, x: string, y: string, table: string,
                            stmt: Statement, columns: seq<string>)
    requires IsName(a) && IsName(b) && a != b
    requires ':' !in table && ':' !in x && ':' !in y
    requires Enumerates(columns, NonNilKeys(map[a := Str(x), b := Str(y)]))
    requires forall i :: 0 <= i < |columns| ==> columns[i] in map[a := Str(x), b := Str(y)]
    requires stmt.text == DeleteText(table, columns, map[a := Str(x), b := Str(y)])
    ensures stmt.text == "DELETE FROM " + table + " WHERE " + (a + " = " + x) + "," + (b + " = " + y)
         || stmt.text == "DELETE FROM " + table + " WHERE " + (b + " = " + y) + "," + (a + " = " + x)
    ensures Names(stmt.text) == []
  {
    var input := map[a := Str(x), b := Str(y)];
    TwoColumnOrder(a, b, input, columns);
    var eqs := InlinedEqualities(columns, input);
    var ax, yb := a + " = " + x, b + " = " + y;
    assert Join(eqs, ",") == eqs[0] + "," + eqs[1] by {
      assert |eqs| == 2 && eqs[1..] == [eqs[1]];
    }
    if columns == [a, b] {
      assert eqs[0] == ax && eqs[1] == yb;
    } else {
      assert eqs[0] == yb && eqs[1] == ax;
    }
    InlinedTextNoColon(table, a, b, x, y, eqs, stmt.text);
    NamesNoColon(stmt.text, "");
    assert stmt.text + "" == stmt.text;
  }

  /** The two non-nil columns of a two-entry map, in one order or the other. */
  lemma TwoColumnOrder(a: string, b: string, input: Params, columns: seq<string>)
    requires a != b && input.Keys == {a, b} && !input[a].Nil? && !input[b].Nil?
    requires Enumerates(columns, NonNilKeys(input))
    ensures columns == [a, b] || columns == [b, a]
  {
    assert NonNilKeys(input) == {a, b};
    EnumerationSize(columns, NonNilKeys(input));
    assert |columns| == 2;
    assert columns[0] in {a, b} && columns[1] in {a, b} && columns[0] != columns[1];
  }

  /** The DELETE text of two inlined predicates holds no colon. */
  lemma InlinedTextNoColon(table: string, a: string, b: string, x: string, y: string, eqs: seq<string>, text: string)
    requires IsName(a) && IsName(b)
    requires ':' !in table && ':' !in x && ':' !in y
    requires |eqs| == 2
    requires (eqs[0] == a + " = " + x && eqs[1] == b + " = " + y) || (eqs[0] == b + " = " + y && eqs[1] == a + " = " + x)
    requires text == "DELETE FROM " + table + " WHERE " + eqs[0] + "," + eqs[1]
    ensures ':' !in text
  {
    NameHasNoColon(a);
    NameHasNoColon(b);
    assert ':' !in eqs[0] && ':' !in eqs[1];
  }

  /** The corrected `Delete` references each non-nil column once, as a bound
      placeholder, so every placeholder has its value. */
  lemma DeleteNamedIsBound(input: Params, table: string, stmt: Statement, columns: seq<string>)
    requires ':' !in table
    requires forall k :: k in input ==> IsName(k)
    requires Enumerates(columns, NonNilKeys(input))
    requires stmt.text == "DELETE FROM " + table + " WHERE " + Join(Assignments(columns), " AND ")
    requires forall k :: k in stmt.params <==> k in NonNilKeys(input)
    ensures Names(stmt.text) == columns
    ensures Bound(stmt)
  {
    NamesNoColon("DELETE FROM " + table + " WHERE ", Join(Assignments(columns), " AND "));
    NamesOfJoin(Assignments(columns), " AND ");
    forall i | 0 <= i < |columns| ensures IsName(columns[i]) {
      assert columns[i] in NonNilKeys(input);
    }
    NamesOfAssignments(columns);
  }
}
