/** The notification repository: fixed queries on the `notifications` table.
    The database is a parameter: a function from the call the repository
    makes to what the driver answers. */
module NotificationRepository {
  import opened Values
  import opened Placeholders
  import opened SqlHandler
  import opened SqlHandlerProps
  import opened Domain

  const NotificationsTable := "notifications"

  /** What the driver answers to a select or a count. */
  type Rows = Call -> Result<seq<Notification>>
  type Counter = Call -> Result<int>

  /** `Find`: the notification with the given id. */
  function FindCall(id: string): Call
  {
    WhereCall(NotificationsTable, Assignment("id"), map["id" := Str(id)])
  }

  /** `FindAll`: every notification, newest id first. */
  function FindAllCall(): Call
  {
    ScanCall(NotificationsTable, "id desc")
  }

  function Find(id: string, db: Rows): Result<seq<Notification>>
  {
    db(FindCall(id))
  }

  function FindAll(db: Rows): Result<seq<Notification>>
  {
    db(FindAllCall())
  }

  /** `Count`: the count comes back as a `NotificationCount`, with the
      driver's error; after an error the count is left at zero. */
  function Count(query: string, args: Params, counter: Counter): (NotificationCount, Option<Error>)
  {
    match counter(CountCall(NotificationsTable, query, args))
    case Success(n) => (NotificationCount(n), None)
    case Failure(e) => (NotificationCount(0), Some(e))
  }

  /** `Update`: the SET map, the clause and its arguments are forwarded as given. */
  function Update(setParams: Params, query: string, args: Params, exec: Executor): Option<Error>
  {
    exec(UpdateCall(NotificationsTable, setParams, query, args))
  }

  lemma NotificationLiterals()
    ensures ':' !in NotificationsTable && ':' !in "id desc"
    ensures IsName("id")
    ensures Assignment("id") == "id = :id"
  {
  }

  /** `Find` selects by `id = :id` with the id bound to its placeholder. */
  lemma FindStatement(id: string)
    ensures var call := FindCall(id);
      && call.clause == "id = :id"
      && Where(call.table, call.clause, call.args).text == "SELECT * FROM " + NotificationsTable + " WHERE " + call.clause
      && Names(Where(call.table, call.clause, call.args).text) == ["id"]
      && Bound(Where(call.table, call.clause, call.args))
      && call.args == map["id" := Str(id)]
  {
    NotificationLiterals();
    KeyedWhereIsBound(NotificationsTable, "id", Str(id));
  }

  /** `FindAll` orders by `id desc` and has neither placeholder nor parameter. */
  lemma FindAllStatement()
    ensures var call := FindAllCall();
      && Scan(call.table, call.order).text == "SELECT * FROM " + NotificationsTable + " ORDER BY " + "id desc" + ";"
      && Names(Scan(call.table, call.order).text) == []
      && Scan(call.table, call.order).params == map[]
  {
    NotificationLiterals();
    ScanHasNoPlaceholders(NotificationsTable, "id desc");
  }

  /** `Count` reports the driver's count exactly when the driver succeeds,
      and passes its error on unchanged. */
  lemma CountResult(query: string, args: Params, counter: Counter)
    ensures var (data, err) := Count(query, args, counter);
      var answer := counter(CountCall(NotificationsTable, query, args));
      && (err.None? <==> answer.Success?)
      && (answer.Success? ==> data.data == answer.value)
      && (answer.Failure? ==> err == Some(answer.error) && data.data == 0)
  {
  }
}
