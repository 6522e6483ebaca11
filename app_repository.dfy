/** The item repository: the item insert and its response, the item update,
    a listing that scans the notifications table, and a search that is not
    implemented. */
module AppRepository {
  import opened Values
  import opened Placeholders
  import opened SqlHandler
  import opened SqlHandlerProps
  import opened Domain
  import NotificationRepository

  const ItemsTable := "items"

  /** `FindAll`: a scan ordered by `id desc` of the notifications table. */
  function FindAllCall(): Call
  {
    ScanCall(NotificationRepository.NotificationsTable, "id desc")
  }

  /** The listing reads the notifications table, not the items table. */
  lemma FindAllReadsNotifications()
    ensures FindAllCall().table == "notifications" && FindAllCall().table != ItemsTable
    ensures FindAllCall().order == "id desc"
  {
  }

  /** `Find`: not implemented; no items and an error, whatever is asked. */
  function Find(query: string, arg: Value): Result<seq<Item>>
  {
    Failure(Plain("not implemented"))
  }

  /** The insert map of an item: seven columns, `id` among them. */
  function CreateParams(item: Item): Params
  {
    map["id" := Int(item.id), "title" := Str(item.title), "name" := Str(item.name),
        "favorite" := Bool(item.favorite), "img" := Str(item.img),
        "created_at" := Str(item.createdAt), "updated_at" := Str(item.updatedAt)]
  }

  function CreateCallOf(item: Item): Call
  {
    CreateCall(ItemsTable, CreateParams(item))
  }

  /** `Create`: 400 "Create error" with the driver's error, or 200 "OK". */
  function Create(item: Item, exec: Executor): (Response, Option<Error>)
  {
    match exec(CreateCallOf(item))
    case Some(e) => (Response(400, "Create error"), Some(e))
    case None => (Response(200, "OK"), None)
  }

  /** `Update`: forwarded to the handler on the items table. */
  function Update(setParams: Params, query: string, args: Params, exec: Executor): Option<Error>
  {
    exec(UpdateCall(ItemsTable, setParams, query, args))
  }

  lemma ItemColumns()
    ensures ':' !in ItemsTable
    ensures IsName("id") && IsName("title") && IsName("name") && IsName("favorite")
    ensures IsName("img") && IsName("created_at") && IsName("updated_at")
  {
  }

  const ItemKeys: set<string> := {"id", "title", "name", "favorite", "img", "created_at", "updated_at"}

  lemma ItemKeyCount()
    ensures |ItemKeys| == 7 && |ItemKeys - {"id"}| == 6
  {
    var rest := {"title", "name", "favorite", "img", "created_at", "updated_at"};
    assert ItemKeys - {"id"} == rest;
    assert |{"title", "name", "favorite"}| == 3;
    assert |{"title", "name", "favorite", "img"}| == 4;
    assert |{"title", "name", "favorite", "img", "created_at"}| == 5;
  }

  /** The item map has exactly the seven keys, each a placeholder name. */
  lemma CreateParamsShape(item: Item)
    ensures CreateParams(item).Keys == ItemKeys
    ensures forall k :: k in CreateParams(item) ==> IsName(k)
  {
    ItemColumns();
  }

  /** The handler's insert names the six columns other than `id` and binds
      them all: the item's id is passed along but never written. */
  lemma CreateStatement(item: Item, stmt: Statement, columns: seq<string>)
    requires Enumerates(columns, CreateParams(item).Keys - {"id"})
    requires stmt.params == CreateParams(item)
    requires stmt.text == InsertText(ItemsTable, columns)
    ensures |columns| == 6 && "id" !in columns
    ensures "id" in stmt.params
    ensures Names(stmt.text) == columns
    ensures Bound(stmt)
  {
    CreateParamsShape(item);
    ItemColumns();
    CreateIsBound(CreateParams(item), ItemsTable, stmt, columns);
    ItemKeyCount();
    EnumerationSize(columns, CreateParams(item).Keys - {"id"});
  }

  /** The response is 200 "OK" exactly when the insert succeeds, and 400
      "Create error" with the error otherwise. */
  lemma CreateResponse(item: Item, exec: Executor)
    ensures Create(item, exec).1.None? <==> exec(CreateCallOf(item)).None?
    ensures Create(item, exec).0.code == 200 <==> exec(CreateCallOf(item)).None?
    ensures exec(CreateCallOf(item)).Some? ==>
      Create(item, exec) == (Response(400, "Create error"), exec(CreateCallOf(item)))
  {
  }
}
