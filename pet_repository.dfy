/** The pet repository: the filter compiler that turns a sparse search filter
    into `col = :col` predicates and bound arguments, the search it hands to
    the SQL handler, and the SET/WHERE maps of a pet update. */
module PetRepository {
  import opened Values
  import opened Placeholders
  import opened SqlHandler
  import opened SqlHandlerProps
  import opened Domain

  const PetsTable := "pets"

  /** A row of the `pets` table. Timestamps are kept as text. */
  datatype PetRow = PetRow(
    id: string,
    name: string,
    breed: string,
    gender: string,
    price: real,
    imageUrl: Option<string>,
    likes: Int64,
    shopName: string,
    shopLocation: string,
    birthDate: Option<string>,
    referenceNumber: string,
    tags: seq<string>,
    createdAt: Option<string>,
    updatedAt: Option<string>)

  /** A `*string` as an interface value. */
  function TextPtr(o: Option<string>): Value
  {
    match o
    case None => Ptr(None)
    case Some(s) => Ptr(Some(Str(s)))
  }

  /** A `*time.Time` as an interface value. */
  function TimePtr(o: Option<string>): Value
  {
    match o
    case None => Ptr(None)
    case Some(t) => Ptr(Some(Time(t)))
  }

  /** The value a row holds in a column, as the driver reads or writes it. */
  function ColumnValue(row: PetRow, column: string): Option<Value>
  {
    if column == "id" then Some(Str(row.id))
    else if column == "name" then Some(Str(row.name))
    else if column == "breed" then Some(Str(row.breed))
    else if column == "gender" then Some(Str(row.gender))
    else if column == "price" then Some(Float(row.price))
    else if column == "image_url" then Some(TextPtr(row.imageUrl))
    else if column == "likes" then Some(Int(row.likes))
    else if column == "shop_name" then Some(Str(row.shopName))
    else if column == "shop_location" then Some(Str(row.shopLocation))
    else if column == "birth_date" then Some(TimePtr(row.birthDate))
    else if column == "reference_number" then Some(Str(row.referenceNumber))
    else if column == "tags" then Some(Strings(row.tags))
    else if column == "created_at" then Some(TimePtr(row.createdAt))
    else if column == "updated_at" then Some(TimePtr(row.updatedAt))
    else None
  }

  // ---------------------------------------------------------------------------
  // The filter compiler

  /** One `column = :column` test and the value bound to it. */
  datatype Criterion = Criterion(column: string, value: Value)

  function LowerAscii(c: char): char
  {
    if 'A' <= c <= 'Z' then (c as int + 32) as char else c
  }

  /** `strings.EqualFold` for the ASCII letters (the only letters whose case
      folding can match "male" or "female"). */
  predicate EqualFold(s: string, t: string)
  {
    |s| == |t| && forall i :: 0 <= i < |s| ==> LowerAscii(s[i]) == LowerAscii(t[i])
  }

  /** A criterion, when its field is selective. */
  function When(selective: bool, c: Criterion): seq<Criterion>
  {
    if selective then [c] else []
  }

  /** The gender test: "male" and "female", in any letter case, are compared
      as "Male" and "Female"; any other gender adds no test. */
  function GenderCriteria(gender: string): seq<Criterion>
  {
    if gender != "" then
      if EqualFold(gender, "male") then [Criterion("gender", Str("Male"))]
      else if EqualFold(gender, "female") then [Criterion("gender", Str("Female"))]
      else []
    else []
  }

  /** The criteria a filter selects, in the order the compiler emits them:
      gender, price, name, id, reference number, breed. A missing filter
      selects nothing. */
  function Criteria(filter: Option<PetFilter>): seq<Criterion>
  {
    match filter
    case None => []
    case Some(f) =>
      GenderCriteria(f.gender)
      + When(f.price != 0.0, Criterion("price", Float(f.price)))
      + When(f.name != "", Criterion("name", Str(f.name)))
      + When(f.id != "", Criterion("id", Str(f.id)))
      + When(f.referenceNumber != "", Criterion("reference_number", Str(f.referenceNumber)))
      + When(f.breed != "", Criterion("breed", Str(f.breed)))
  }

  function Columns(cs: seq<Criterion>): seq<string>
  {
    seq(|cs|, i requires 0 <= i < |cs| => cs[i].column)
  }

  /** The argument map built by inserting each criterion in turn. */
  function Args(cs: seq<Criterion>): Params
  {
    if cs == [] then map[] else Args(cs[..|cs| - 1])[cs[|cs| - 1].column := cs[|cs| - 1].value]
  }

  /** Testing one more field appends its predicate exactly when the field is
      selective. */
  lemma ClauseStep(cs: seq<Criterion>, selective: bool, c: Criterion)
    ensures Assignments(Columns(cs + When(selective, c)))
         == Assignments(Columns(cs)) + (if selective then [Assignment(c.column)] else [])
  {
    if !selective {
      assert cs + [] == cs;
    }
  }

  /** Testing one more field binds its argument exactly when the field is
      selective. */
  lemma ArgsStep(cs: seq<Criterion>, selective: bool, c: Criterion)
    ensures Args(cs + When(selective, c)) == if selective then Args(cs)[c.column := c.value] else Args(cs)
  {
    if selective {
      assert (cs + [c])[..|cs|] == cs;
    } else {
      assert cs + [] == cs;
    }
  }

  /** One field test of `parseFilter`: when the field is set, append
      `column = :column` and bind the column to the field's value. `tested`
      holds the criteria of the fields tested so far. */
  method AddIfSet(whereClause: seq<string>, args: Params, isSet: bool, column: string, value: Value,
                  ghost tested: seq<Criterion>)
    returns (whereClause': seq<string>, args': Params)
    requires whereClause == Assignments(Columns(tested)) && args == Args(tested)
    ensures whereClause' == Assignments(Columns(tested + When(isSet, Criterion(column, value))))
    ensures args' == Args(tested + When(isSet, Criterion(column, value)))
  {
    ClauseStep(tested, isSet, Criterion(column, value));
    ArgsStep(tested, isSet, Criterion(column, value));
    whereClause', args' := whereClause, args;
    if isSet {
      whereClause' := whereClause' + [Assignment(column)];
      args' := args'[column := value];
    }
  }

  /** `parseFilter`: the gender test first, then price, name, id, reference
      number and breed, each appended and bound only when set. */
  method ParseFilter(filter: Option<PetFilter>) returns (whereClause: seq<string>, args: Params)
    ensures whereClause == Assignments(Columns(Criteria(filter)))
    ensures args == Args(Criteria(filter))
  {
    args := map[];
    whereClause := [];
    if filter.Some? {
      var f := filter.value;
      if f.gender != "" {
        if EqualFold(f.gender, "male") {
          whereClause := whereClause + [Assignment("gender")];
          args := args["gender" := Str("Male")];
        } else if EqualFold(f.gender, "female") {
          whereClause := whereClause + [Assignment("gender")];
          args := args["gender" := Str("Female")];
        }
      }
      ghost var tested := GenderCriteria(f.gender);
      assert [] + tested == tested;
      ClauseStep([], tested != [], Criterion("gender", if tested == [] then Str("") else tested[0].value));
      ArgsStep([], tested != [], Criterion("gender", if tested == [] then Str("") else tested[0].value));
      whereClause, args := AddIfSet(whereClause, args, f.price != 0.0, "price", Float(f.price), tested);
      tested := tested + When(f.price != 0.0, Criterion("price", Float(f.price)));
      whereClause, args := AddIfSet(whereClause, args, f.name != "", "name", Str(f.name), tested);
      tested := tested + When(f.name != "", Criterion("name", Str(f.name)));
      whereClause, args := AddIfSet(whereClause, args, f.id != "", "id", Str(f.id), tested);
      tested := tested + When(f.id != "", Criterion("id", Str(f.id)));
      whereClause, args := AddIfSet(whereClause, args, f.referenceNumber != "", "reference_number", Str(f.referenceNumber), tested);
      tested := tested + When(f.referenceNumber != "", Criterion("reference_number", Str(f.referenceNumber)));
      whereClause, args := AddIfSet(whereClause, args, f.breed != "", "breed", Str(f.breed), tested);
      tested := tested + When(f.breed != "", Criterion("breed", Str(f.breed)));
      CriteriaOfSome(f);
    }
  }

  /** The criteria of a present filter, spelled out in the order they are
      tested. */
  lemma CriteriaOfSome(f: PetFilter)
    ensures Criteria(Some(f)) ==
      GenderCriteria(f.gender)
      + When(f.price != 0.0, Criterion("price", Float(f.price)))
      + When(f.name != "", Criterion("name", Str(f.name)))
      + When(f.id != "", Criterion("id", Str(f.id)))
      + When(f.referenceNumber != "", Criterion("reference_number", Str(f.referenceNumber)))
      + When(f.breed != "", Criterion("breed", Str(f.breed)))
  {
  }

  /** The criteria of a filter are the gender test and each set field's
      test. */
  lemma CriteriaMembers(f: PetFilter, x: Criterion)
    ensures x in Criteria(Some(f)) <==>
      || x in GenderCriteria(f.gender)
      || (f.price != 0.0 && x == Criterion("price", Float(f.price)))
      || (f.name != "" && x == Criterion("name", Str(f.name)))
      || (f.id != "" && x == Criterion("id", Str(f.id)))
      || (f.referenceNumber != "" && x == Criterion("reference_number", Str(f.referenceNumber)))
      || (f.breed != "" && x == Criterion("breed", Str(f.breed)))
  {
  }

  /** The gender test is the only one on the `gender` column. */
  lemma GenderColumn(gender: string)
    ensures forall c :: c in GenderCriteria(gender) ==> c.column == "gender"
  {
  }

  /** How the gender field is compiled: "male" and "female" in any letter
      case are compared as "Male" and "Female"; the gender is never compared
      with anything else, and any other gender adds no gender test. */
  lemma GenderCriterion(f: PetFilter)
    ensures Criterion("gender", Str("Male")) in Criteria(Some(f)) <==> EqualFold(f.gender, "male")
    ensures Criterion("gender", Str("Female")) in Criteria(Some(f)) <==> EqualFold(f.gender, "female")
    ensures forall v :: Criterion("gender", v) in Criteria(Some(f)) ==> v == Str("Male") || v == Str("Female")
  {
    assert EqualFold(f.gender, "male") ==> |f.gender| == 4;
    assert EqualFold(f.gender, "female") ==> |f.gender| == 6;
    CriteriaMembers(f, Criterion("gender", Str("Male")));
    CriteriaMembers(f, Criterion("gender", Str("Female")));
    forall v | Criterion("gender", v) in Criteria(Some(f))
      ensures v == Str("Male") || v == Str("Female")
    {
      CriteriaMembers(f, Criterion("gender", v));
    }
  }

  /** The price is compared only when it is non-zero; each text field only
      when it is non-empty; each is bound to the filter's own value. */
  lemma ValueCriteria(f: PetFilter)
    ensures Criterion("price", Float(f.price)) in Criteria(Some(f)) <==> f.price != 0.0
    ensures Criterion("name", Str(f.name)) in Criteria(Some(f)) <==> f.name != ""
    ensures Criterion("id", Str(f.id)) in Criteria(Some(f)) <==> f.id != ""
    ensures Criterion("reference_number", Str(f.referenceNumber)) in Criteria(Some(f)) <==> f.referenceNumber != ""
    ensures Criterion("breed", Str(f.breed)) in Criteria(Some(f)) <==> f.breed != ""
  {
    GenderColumn(f.gender);
    CriteriaMembers(f, Criterion("price", Float(f.price)));
    CriteriaMembers(f, Criterion("name", Str(f.name)));
    CriteriaMembers(f, Criterion("id", Str(f.id)));
    CriteriaMembers(f, Criterion("reference_number", Str(f.referenceNumber)));
    CriteriaMembers(f, Criterion("breed", Str(f.breed)));
  }

  /** The fixed emission order of the fields. */
  const FieldOrder: seq<string> := ["gender", "price", "name", "id", "reference_number", "breed"]

  function Rank(column: string): int
  {
    if column == "gender" then 0
    else if column == "price" then 1
    else if column == "name" then 2
    else if column == "id" then 3
    else if column == "reference_number" then 4
    else if column == "breed" then 5
    else 6
  }

  lemma Ranks()
    ensures Rank("gender") == 0 && Rank("price") == 1 && Rank("name") == 2
    ensures Rank("id") == 3 && Rank("reference_number") == 4 && Rank("breed") == 5
  {
  }

  /** Columns strictly ascending in the field order. */
  ghost predicate Ranked(cs: seq<Criterion>)
  {
    forall i, j :: 0 <= i < j < |cs| ==> Rank(cs[i].column) < Rank(cs[j].column)
  }

  /** Appending a criterion that ranks after every earlier one keeps the
      order. */
  lemma RankedWhen(cs: seq<Criterion>, selective: bool, c: Criterion)
    requires Ranked(cs)
    requires forall i :: 0 <= i < |cs| ==> Rank(cs[i].column) < Rank(c.column)
    ensures Ranked(cs + When(selective, c))
    ensures forall i :: 0 <= i < |cs + When(selective, c)| ==> Rank((cs + When(selective, c))[i].column) <= Rank(c.column)
  {
  }

  /** The criteria follow the fixed field order gender, price, name, id,
      reference number, breed, so no column repeats; a missing filter
      selects nothing. */
  lemma CriteriaOrdered(filter: Option<PetFilter>)
    ensures filter.None? ==> Criteria(filter) == []
    ensures Ranked(Criteria(filter))
  {
    if filter.Some? {
      var f := filter.value;
      Ranks();
      var cs := GenderCriteria(f.gender);
      GenderColumn(f.gender);
      assert forall i :: 0 <= i < |cs| ==> cs[i] in cs && Rank(cs[i].column) == 0;
      var c := Criterion("price", Float(f.price));
      RankedWhen(cs, f.price != 0.0, c);
      cs := cs + When(f.price != 0.0, c);
      c := Criterion("name", Str(f.name));
      RankedWhen(cs, f.name != "", c);
      cs := cs + When(f.name != "", c);
      c := Criterion("id", Str(f.id));
      RankedWhen(cs, f.id != "", c);
      cs := cs + When(f.id != "", c);
      c := Criterion("reference_number", Str(f.referenceNumber));
      RankedWhen(cs, f.referenceNumber != "", c);
      cs := cs + When(f.referenceNumber != "", c);
      c := Criterion("breed", Str(f.breed));
      RankedWhen(cs, f.breed != "", c);
    }
  }

  /** Every tested column is one of the filter's six fields. */
  lemma CriteriaColumns(filter: Option<PetFilter>)
    ensures forall c :: c in Criteria(filter) ==> c.column in FieldOrder
  {
    if filter.Some? {
      GenderColumn(filter.value.gender);
      forall c | c in Criteria(filter) ensures c.column in FieldOrder {
        CriteriaMembers(filter.value, c);
      }
    }
  }

  /** With distinct columns, the argument map has one entry per criterion,
      holding that criterion's value. */
  lemma {:induction false} ArgsOfDistinct(cs: seq<Criterion>)
    requires forall i, j :: 0 <= i < j < |cs| ==> cs[i].column != cs[j].column
    ensures |Args(cs)| == |cs|
    ensures forall i :: 0 <= i < |cs| ==> cs[i].column in Args(cs) && Args(cs)[cs[i].column] == cs[i].value
    decreases |cs|
  {
    if cs != [] {
      var prefix := cs[..|cs| - 1];
      var last := cs[|cs| - 1];
      ArgsOfDistinct(prefix);
      ArgsDomain(prefix);
      assert last.column !in Args(prefix) by {
        forall i | 0 <= i < |prefix| ensures prefix[i].column != last.column {
          assert prefix[i] == cs[i];
        }
      }
      forall i | 0 <= i < |cs| - 1 ensures cs[i].column in Args(cs) && Args(cs)[cs[i].column] == cs[i].value {
        assert prefix[i] == cs[i];
      }
    }
  }

  lemma {:induction false} ArgsDomain(cs: seq<Criterion>)
    ensures forall c :: c in Args(cs) ==> exists i :: 0 <= i < |cs| && cs[i].column == c
    decreases |cs|
  {
    if cs != [] {
      var prefix := cs[..|cs| - 1];
      ArgsDomain(prefix);
      forall c | c in Args(cs) ensures exists i :: 0 <= i < |cs| && cs[i].column == c {
        assert Args(cs) == Args(prefix)[cs[|cs| - 1].column := cs[|cs| - 1].value];
        if c != cs[|cs| - 1].column {
          assert c in Args(prefix);
          var i :| 0 <= i < |prefix| && prefix[i].column == c;
          assert cs[i] == prefix[i];
        }
      }
    }
  }

  /** `Find`: the predicates joined with " and ", with the same arguments, on
      the `pets` table. */
  function FindCall(filter: Option<PetFilter>): Call
  {
    WhereCall(PetsTable, Join(Assignments(Columns(Criteria(filter))), " and "), Args(Criteria(filter)))
  }

  /** The search binds every placeholder it references: one per criterion, in
      order, and the number of predicates equals the number of arguments. */
  lemma FindIsBound(filter: Option<PetFilter>)
    ensures var call := FindCall(filter);
      && Names(Where(call.table, call.clause, call.args).text) == Columns(Criteria(filter))
      && Bound(Where(call.table, call.clause, call.args))
      && |call.args| == |Criteria(filter)|
  {
    var cs := Criteria(filter);
    CriteriaOrdered(filter);
    CriteriaColumns(filter);
    FieldOrderNames();
    forall i | 0 <= i < |cs| ensures IsName(cs[i].column) {
      assert cs[i] in cs;
    }
    CriteriaAreBound(cs);
  }

  /** Criteria on distinct, well-formed columns compile to a clause whose
      placeholders are exactly those columns, each bound once. */
  lemma CriteriaAreBound(cs: seq<Criterion>)
    requires Ranked(cs)
    requires forall i :: 0 <= i < |cs| ==> IsName(cs[i].column)
    ensures var call := WhereCall(PetsTable, Join(Assignments(Columns(cs)), " and "), Args(cs));
      && Names(Where(call.table, call.clause, call.args).text) == Columns(cs)
      && Bound(Where(call.table, call.clause, call.args))
      && |call.args| == |cs|
  {
    LiteralsNoColon();
    var clause := Join(Assignments(Columns(cs)), " and ");
    ClauseNames(cs);
    WhereBindsClause(PetsTable, clause, Args(cs));
    ArgsOfDistinct(cs);
  }

  /** The placeholders of the joined clause are the criteria's columns. */
  lemma ClauseNames(cs: seq<Criterion>)
    requires forall i :: 0 <= i < |cs| ==> IsName(cs[i].column)
    ensures Names(Join(Assignments(Columns(cs)), " and ")) == Columns(cs)
  {
    LiteralsNoColon();
    NamesOfJoin(Assignments(Columns(cs)), " and ");
    NamesOfAssignments(Columns(cs));
  }

  /** The table name and the clause separator carry no placeholder. */
  lemma LiteralsNoColon()
    ensures ':' !in PetsTable
    ensures |" and "| > 0 && !IsNameChar(" and "[0]) && ':' !in " and "
  {
  }

  lemma FieldOrderNames()
    ensures forall c :: c in FieldOrder ==> IsName(c)
  {
    assert IsName("gender") && IsName("price") && IsName("name");
    assert IsName("id") && IsName("reference_number") && IsName("breed");
  }

  /** A row satisfies every criterion: each tested column holds the bound value. */
  predicate Matches(row: PetRow, cs: seq<Criterion>)
  {
    forall i :: 0 <= i < |cs| ==> ColumnValue(row, cs[i].column) == Some(cs[i].value)
  }

  /** The filter that selects a pet by id alone. */
  function IdFilter(petId: string): PetFilter
  {
    PetFilter(petId, "", "", "", 0.0, "")
  }

  /** Searching by an id selects that id's rows; an empty id selects every row. */
  lemma IdFilterMatches(row: PetRow, petId: string)
    ensures Matches(row, Criteria(Some(IdFilter(petId)))) <==> petId == "" || row.id == petId
  {
    var cs := Criteria(Some(IdFilter(petId)));
    var c := Criterion("id", Str(petId));
    assert cs == When(petId != "", c);
    if petId != "" {
      assert cs == [c] && ColumnValue(row, c.column) == Some(Str(row.id));
      if Matches(row, cs) {
        assert ColumnValue(row, cs[0].column) == Some(cs[0].value);
      }
    }
  }

  /** The rows of `table` the search admits, in table order. */
  function FindRows(table: seq<PetRow>, filter: Option<PetFilter>): seq<PetRow>
    decreases |table|
  {
    if table == [] then []
    else (if Matches(table[0], Criteria(filter)) then [table[0]] else []) + FindRows(table[1..], filter)
  }

  /** The search returns exactly the rows that satisfy every criterion. */
  lemma {:induction false} FindRowsMembers(table: seq<PetRow>, filter: Option<PetFilter>)
    ensures forall r :: r in FindRows(table, filter) <==> r in table && Matches(r, Criteria(filter))
    decreases |table|
  {
    if table != [] {
      FindRowsMembers(table[1..], filter);
      assert forall r :: r in table <==> r == table[0] || r in table[1..];
    }
  }

  /** Searching by id returns the rows with that id, or every row for an
      empty id. */
  lemma FindByIdRows(table: seq<PetRow>, petId: string)
    ensures forall r :: r in FindRows(table, Some(IdFilter(petId))) <==> r in table && (petId == "" || r.id == petId)
  {
    FindRowsMembers(table, Some(IdFilter(petId)));
    forall r ensures Matches(r, Criteria(Some(IdFilter(petId)))) <==> petId == "" || r.id == petId {
      IdFilterMatches(r, petId);
    }
  }

  // ---------------------------------------------------------------------------
  // Update

  /** The columns a pet update writes. */
  const PetSetColumns: seq<string> := ["name", "breed", "gender", "price", "image_url", "likes",
    "shop_name", "shop_location", "birth_date", "reference_number", "tags", "updated_at"]

  /** The value a pet update writes into a column, `updated_at` stamped with `now`. */
  function SetValue(pet: Pet, now: string, column: string): Value
  {
    if column == "name" then Str(pet.name)
    else if column == "breed" then Str(pet.breed)
    else if column == "gender" then Str(pet.gender)
    else if column == "price" then Float(pet.price)
    else if column == "image_url" then TextPtr(pet.imageUrl)
    else if column == "likes" then Int(pet.likes)
    else if column == "shop_name" then Str(pet.shop.name)
    else if column == "shop_location" then Str(pet.shop.location)
    else if column == "birth_date" then TimePtr(pet.birthDate)
    else if column == "reference_number" then Str(pet.referenceNumber)
    else if column == "tags" then Strings(pet.tags)
    else Ptr(Some(Time(now)))
  }

  /** The SET map of a pet update: twelve columns, stamped with `now`. */
  function UpdateSetParams(pet: Pet, now: string): Params
  {
    map column | column in PetSetColumns :: SetValue(pet, now, column)
  }

  lemma SetColumnNames()
    ensures forall i :: 0 <= i < |PetSetColumns| ==> IsName(PetSetColumns[i])
  {
    FieldOrderNames();
    assert "name" in FieldOrder && "breed" in FieldOrder && "gender" in FieldOrder;
    assert "price" in FieldOrder && "reference_number" in FieldOrder;
    OtherSetColumnNames();
  }

  lemma OtherSetColumnNames()
    ensures IsName("image_url") && IsName("likes") && IsName("shop_name") && IsName("shop_location")
    ensures IsName("birth_date") && IsName("tags") && IsName("updated_at")
  {
  }

  /** The SET map holds no nil value, never names `id`, and every key is a
      placeholder name. */
  lemma SetParamsShape(pet: Pet, now: string)
    ensures NonNilKeys(UpdateSetParams(pet, now)) == UpdateSetParams(pet, now).Keys
    ensures "id" !in UpdateSetParams(pet, now)
    ensures forall c :: c in UpdateSetParams(pet, now) ==> IsName(c)
  {
    var m := UpdateSetParams(pet, now);
    forall c | c in m ensures !m[c].Nil? && IsName(c) {
      SetColumnNames();
      var i :| 0 <= i < |PetSetColumns| && PetSetColumns[i] == c;
    }
    assert "id" !in PetSetColumns;
  }

  const IdClause := "id = :id"

  /** `Update`: the pet's columns, where the row's id matches. */
  function UpdateCallOf(pet: Pet, now: string): Call
  {
    UpdateCall(PetsTable, UpdateSetParams(pet, now), IdClause, map["id" := Str(pet.id)])
  }

  lemma IdClauseNames()
    ensures Names(IdClause) == ["id"]
  {
    assert IsName("id");
    assert IdClause == "id = " + (":" + "id" + "");
    NamesNoColon("id = ", ":" + "id" + "");
    NamesOfPlaceholder("id", "");
    assert Names("") == [];
  }

  /** An update keyed by `id = :id` whose SET map holds only non-nil values
      under placeholder names other than `id`: the clause is left as it is,
      `id` is bound to the key, and every placeholder is bound. */
  lemma UpdateByIdStatement(setParams: Params, id: string, stmt: Statement, setColumns: seq<string>, order: seq<string>)
    requires NonNilKeys(setParams) == setParams.Keys && "id" !in setParams
    requires forall c :: c in setParams ==> IsName(c)
    requires Enumerates(setColumns, NonNilKeys(setParams))
    requires Enumerates(order, map["id" := Str(id)].Keys)
    requires stmt.text == UpdateText(PetsTable, setColumns, AdjustClause(IdClause, order, setParams.Keys))
    requires stmt.params == setParams + AdjustParams(order, map["id" := Str(id)], setParams.Keys)
    ensures stmt.text == UpdateText(PetsTable, setColumns, IdClause)
    ensures stmt.params == setParams["id" := Str(id)]
    ensures Names(stmt.text) == setColumns + ["id"]
    ensures Bound(stmt)
  {
    var whereParams := map["id" := Str(id)];
    NoCollisionKeepsWhere(IdClause, whereParams, setParams.Keys, order);
    MergeOne(setParams, "id", Str(id));
    UpdateByIdNames(setParams, id, stmt, setColumns);
  }

  /** Merging a one-entry map whose key is new adds that entry. */
  lemma MergeOne(m: Params, k: string, v: Value)
    ensures m + map[k := v] == m[k := v]
  {
  }

  lemma UpdateByIdNames(setParams: Params, id: string, stmt: Statement, setColumns: seq<string>)
    requires forall c :: c in setParams ==> IsName(c)
    requires Enumerates(setColumns, NonNilKeys(setParams))
    requires stmt.text == UpdateText(PetsTable, setColumns, IdClause)
    requires stmt.params == setParams["id" := Str(id)]
    ensures Names(stmt.text) == setColumns + ["id"]
    ensures Bound(stmt)
  {
    forall i | 0 <= i < |setColumns| ensures IsName(setColumns[i]) {
      assert setColumns[i] in NonNilKeys(setParams);
    }
    LiteralsNoColon();
    NamesOfUpdate(PetsTable, setColumns, IdClause);
    IdClauseNames();
    forall i | 0 <= i < |Names(stmt.text)| ensures Names(stmt.text)[i] in stmt.params {
      if i < |setColumns| {
        assert setColumns[i] in NonNilKeys(setParams);
      }
    }
  }

  /** The update statement the handler builds for a pet: the twelve SET
      columns (never `id`), the clause `id = :id` left as it is, the likes
      written as the pet's count, and every placeholder bound. */
  lemma PetUpdateStatement(pet: Pet, now: string, stmt: Statement, setColumns: seq<string>, order: seq<string>)
    requires Enumerates(setColumns, NonNilKeys(UpdateSetParams(pet, now)))
    requires Enumerates(order, map["id" := Str(pet.id)].Keys)
    requires stmt.text == UpdateText(PetsTable, setColumns, AdjustClause(IdClause, order, UpdateSetParams(pet, now).Keys))
    requires stmt.params == UpdateSetParams(pet, now) + AdjustParams(order, map["id" := Str(pet.id)], UpdateSetParams(pet, now).Keys)
    ensures forall c :: c in setColumns <==> c in PetSetColumns
    ensures stmt.text == UpdateText(PetsTable, setColumns, IdClause)
    ensures stmt.params == UpdateSetParams(pet, now)["id" := Str(pet.id)]
    ensures stmt.params["likes"] == Int(pet.likes)
    ensures Names(stmt.text) == setColumns + ["id"]
    ensures Bound(stmt)
  {
    SetParamsShape(pet, now);
    UpdateByIdStatement(UpdateSetParams(pet, now), pet.id, stmt, setColumns, order);
    assert "likes" in PetSetColumns;
  }

  /** A row after the update statement has run on it: the SET columns take
      the pet's values and `updated_at` becomes `now`; `id` and `created_at`
      are kept. */
  function ApplyPetUpdate(row: PetRow, pet: Pet, now: string): PetRow
  {
    row.(name := pet.name, breed := pet.breed, gender := pet.gender, price := pet.price,
         imageUrl := pet.imageUrl, likes := pet.likes, shopName := pet.shop.name,
         shopLocation := pet.shop.location, birthDate := pet.birthDate,
         referenceNumber := pet.referenceNumber, tags := pet.tags, updatedAt := Some(now))
  }

  /** Running the update writes each SET column's value into the row. */
  lemma ApplyPetUpdateWritesSetValues(row: PetRow, pet: Pet, now: string)
    ensures forall col :: col in UpdateSetParams(pet, now) ==>
      ColumnValue(ApplyPetUpdate(row, pet, now), col) == Some(UpdateSetParams(pet, now)[col])
  {
  }

  /** Running the update changes no column outside the SET map. */
  lemma ApplyPetUpdateKeepsOtherColumns(row: PetRow, pet: Pet, now: string)
    ensures forall col :: col !in UpdateSetParams(pet, now) ==>
      ColumnValue(ApplyPetUpdate(row, pet, now), col) == ColumnValue(row, col)
  {
    forall col | col !in UpdateSetParams(pet, now)
      ensures ColumnValue(ApplyPetUpdate(row, pet, now), col) == ColumnValue(row, col)
    {
      assert col !in PetSetColumns;
    }
  }

  /** The table after the update statement has run: every row whose id is
      the pet's takes the pet's values; the other rows are kept. */
  function UpdateRows(table: seq<PetRow>, pet: Pet, now: string): seq<PetRow>
  {
    seq(|table|, i requires 0 <= i < |table| =>
      if table[i].id == pet.id then ApplyPetUpdate(table[i], pet, now) else table[i])
  }
}
