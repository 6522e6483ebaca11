/** The item use cases: the query chosen for the favourite filter, and the
    replacement of every repository error by an error whose text is 10001E. */
module AppInteractor {
  import opened Values
  import opened Placeholders
  import opened SqlHandler
  import opened SqlHandlerProps
  import opened Domain
  import opened AppRepository
  import Messages

  const SelectErrorCode := "10001E"

  /** The query and its argument for the `favorite` filter. */
  function ItemsQuery(favorite: string): (string, Value)
  {
    if favorite == "true" then ("favorite = ?", Bool(true))
    else if favorite == "false" then ("favorite = ?", Bool(false))
    else ("", Str(""))
  }

  /** "true" and "false" both filter on `favorite`, with the matching
      boolean; any other value asks for no filter. */
  lemma ItemsQuerySelection(favorite: string)
    ensures ItemsQuery(favorite).0 != "" <==> favorite == "true" || favorite == "false"
    ensures favorite == "true" || favorite == "false" ==>
      ItemsQuery(favorite) == ("favorite = ?", Bool(favorite == "true"))
    ensures !(favorite == "true" || favorite == "false") ==> ItemsQuery(favorite) == ("", Str(""))
  {
  }

  /** `GetItems`: the search with the chosen query; an error is replaced by
      one whose text is 10001E, the original dropped. */
  function GetItems(favorite: string): Result<seq<Item>>
  {
    var (query, arg) := ItemsQuery(favorite);
    match AppRepository.Find(query, arg)
    case Failure(_) => Failure(Messages.SetErrorMassage(SelectErrorCode))
    case Success(items) => Success(items)
  }

  /** Since the search is not implemented, every request fails with 10001E,
      which the error handler answers with status 500. */
  lemma GetItemsAlwaysFails(favorite: string, lang: string)
    ensures GetItems(favorite) == Failure(Plain(SelectErrorCode))
    ensures Messages.GetErrorMassage(lang, GetItems(favorite).error).status == 500
  {
    Messages.SetErrorRoundTrip(SelectErrorCode, lang);
  }

  /** `CreateItem`: the repository's response, with its error replaced by 10001E. */
  function CreateItem(item: Item, exec: Executor): (Response, Option<Error>)
  {
    var (response, err) := AppRepository.Create(item, exec);
    if err.Some? then (response, Some(Messages.SetErrorMassage(SelectErrorCode))) else (response, None)
  }

  /** A failed insert answers 400 "Create error" with error text 10001E; a
      successful one answers 200 "OK" without error. */
  lemma CreateItemResult(item: Item, exec: Executor)
    ensures exec(CreateCallOf(item)).Some? ==>
      CreateItem(item, exec) == (Response(400, "Create error"), Some(Plain(SelectErrorCode)))
    ensures exec(CreateCallOf(item)).None? ==> CreateItem(item, exec) == (Response(200, "OK"), None)
  {
    CreateResponse(item, exec);
  }

  // ---------------------------------------------------------------------------
  // UpdateFavoriteAttr

  function FavoriteSet(item: Item): Params
  {
    map["Favorite" := Bool(item.favorite)]
  }

  function IdWhere(item: Item): Params
  {
    map["id" := Int(item.id)]
  }

  /** The clause as written: `?` is not a named placeholder. */
  const PositionalIdClause := "id = ?"

  /** `UpdateFavoriteAttr` as written: it always returns the zero item, and
      an update error as 10001E. */
  function UpdateFavoriteAttrAsWritten(item: Item, exec: Executor): (Item, Option<Error>)
  {
    match AppRepository.Update(FavoriteSet(item), PositionalIdClause, IdWhere(item), exec)
    case None => (ZeroItem(), None)
    case Some(_) => (ZeroItem(), Some(Messages.SetErrorMassage(SelectErrorCode)))
  }

  /** `UpdateFavoriteAttr` with the clause evidently intended, `id = :id`. */
  function UpdateFavoriteAttr(item: Item, exec: Executor): (Item, Option<Error>)
  {
    match AppRepository.Update(FavoriteSet(item), Assignment("id"), IdWhere(item), exec)
    case None => (ZeroItem(), None)
    case Some(_) => (ZeroItem(), Some(Messages.SetErrorMassage(SelectErrorCode)))
  }

  /** Either version returns the zero item, and an error text 10001E exactly
      when its update fails. */
  lemma UpdateFavoriteAttrResult(item: Item, exec: Executor)
    ensures UpdateFavoriteAttrAsWritten(item, exec).0 == ZeroItem() && UpdateFavoriteAttr(item, exec).0 == ZeroItem()
    ensures UpdateFavoriteAttrAsWritten(item, exec).1.Some? <==>
      exec(UpdateCall(ItemsTable, FavoriteSet(item), "id = ?", IdWhere(item))).Some?
    ensures UpdateFavoriteAttrAsWritten(item, exec).1.Some? ==>
      UpdateFavoriteAttrAsWritten(item, exec).1 == Some(Plain(SelectErrorCode))
    ensures UpdateFavoriteAttr(item, exec).1.Some? <==>
      exec(UpdateCall(ItemsTable, FavoriteSet(item), "id = :id", IdWhere(item))).Some?
    ensures UpdateFavoriteAttr(item, exec).1.Some? ==> UpdateFavoriteAttr(item, exec).1 == Some(Plain(SelectErrorCode))
  {
    assert Assignment("id") == "id = :id";
  }

  lemma FavoriteLiterals()
    ensures IsName("Favorite") && IsName("id") && "Favorite" != "id"
    ensures ':' !in PositionalIdClause && ':' !in ItemsTable
  {
  }

  /** The SET map has one column, and the WHERE key does not collide with it. */
  lemma FavoriteUpdateShape(item: Item, whereClause: string, setColumns: seq<string>, order: seq<string>)
    requires Enumerates(setColumns, NonNilKeys(FavoriteSet(item)))
    requires Enumerates(order, IdWhere(item).Keys)
    ensures setColumns == ["Favorite"]
    ensures AdjustClause(whereClause, order, FavoriteSet(item).Keys) == whereClause
    ensures FavoriteSet(item) + AdjustParams(order, IdWhere(item), FavoriteSet(item).Keys)
         == map["Favorite" := Bool(item.favorite), "id" := Int(item.id)]
  {
    FavoriteLiterals();
    NoCollisionKeepsWhere(whereClause, IdWhere(item), FavoriteSet(item).Keys, order);
    assert NonNilKeys(FavoriteSet(item)) == {"Favorite"};
    EnumerationSize(setColumns, NonNilKeys(FavoriteSet(item)));
    assert setColumns[0] in NonNilKeys(FavoriteSet(item));
  }

  /** As written, the statement's only placeholder is `Favorite`: the item id
      is passed as a parameter that the text never references, and the bare
      `?` is left in the text. PostgreSQL rejects `?` as a syntax error, so
      the update as written always fails and is answered 10001E. */
  lemma UpdateFavoriteIgnoresId(item: Item, stmt: Statement, setColumns: seq<string>, order: seq<string>)
    requires Enumerates(setColumns, NonNilKeys(FavoriteSet(item)))
    requires Enumerates(order, IdWhere(item).Keys)
    requires stmt.text == UpdateText(ItemsTable, setColumns, AdjustClause(PositionalIdClause, order, FavoriteSet(item).Keys))
    requires stmt.params == FavoriteSet(item) + AdjustParams(order, IdWhere(item), FavoriteSet(item).Keys)
    ensures stmt.text == UpdateText(ItemsTable, ["Favorite"], "id = ?")
    ensures Names(stmt.text) == ["Favorite"]
    ensures "id" in stmt.params && "id" !in Names(stmt.text)
  {
    FavoriteUpdateShape(item, PositionalIdClause, setColumns, order);
    FavoriteLiterals();
    NamesOfUpdate(ItemsTable, ["Favorite"], PositionalIdClause);
    NamesNoColon(PositionalIdClause, "");
    assert PositionalIdClause + "" == PositionalIdClause;
  }

  /** With `id = :id`, the statement references `Favorite` and `id`, both
      bound, the id to the item's id. */
  lemma UpdateFavoriteBindsId(item: Item, stmt: Statement, setColumns: seq<string>, order: seq<string>)
    requires Enumerates(setColumns, NonNilKeys(FavoriteSet(item)))
    requires Enumerates(order, IdWhere(item).Keys)
    requires stmt.text == UpdateText(ItemsTable, setColumns, AdjustClause(Assignment("id"), order, FavoriteSet(item).Keys))
    requires stmt.params == FavoriteSet(item) + AdjustParams(order, IdWhere(item), FavoriteSet(item).Keys)
    ensures stmt.text == UpdateText(ItemsTable, ["Favorite"], "id = :id")
    ensures Names(stmt.text) == ["Favorite", "id"]
    ensures Bound(stmt)
    ensures stmt.params["id"] == Int(item.id)
  {
    FavoriteUpdateShape(item, Assignment("id"), setColumns, order);
    FavoriteLiterals();
    NamesOfUpdate(ItemsTable, ["Favorite"], Assignment("id"));
    AssignmentNames("id");
  }
}
