/** The notification use cases: which query they run, and how repository
    errors become message code 10001E. */
module NotificationInteractor {
  import opened Values
  import opened Placeholders
  import opened SqlHandler
  import opened SqlHandlerProps
  import opened Domain
  import opened NotificationRepository

  const SelectErrorCode := "10001E"

  /** `GetNotifications`: every notification for an empty id, otherwise the
      notification with that id. */
  function GetNotifications(id: string, db: Rows): Result<seq<Notification>>
  {
    if id == "" then WithCode(SelectErrorCode, FindAll(db))
    else WithCode(SelectErrorCode, Find(id, db))
  }

  /** The query `GetNotifications` sends for an id. */
  function NotificationsQuery(id: string): Call
  {
    if id == "" then FindAllCall() else FindCall(id)
  }

  /** An empty id scans the table ordered by `id desc`; any other id selects
      by `id = :id` with that id bound. A repository error becomes code
      10001E with the error as its cause; a result is returned unchanged. */
  lemma GetNotificationsDispatch(id: string, db: Rows)
    ensures id == "" ==> NotificationsQuery(id) == ScanCall(NotificationsTable, "id desc")
    ensures id != "" ==> NotificationsQuery(id) == WhereCall(NotificationsTable, "id = :id", map["id" := Str(id)])
    ensures db(NotificationsQuery(id)).Success? ==> GetNotifications(id, db) == db(NotificationsQuery(id))
    ensures db(NotificationsQuery(id)).Failure? ==>
      GetNotifications(id, db) == Failure(Converted(SelectErrorCode, Some(db(NotificationsQuery(id)).error)))
  {
    NotificationLiterals();
  }

  /** The statement the query reaches the driver as: an ordered scan without
      parameters, or a select whose one placeholder `:id` is bound. */
  lemma GetNotificationsStatement(id: string)
    ensures id == "" ==> Names(Scan(NotificationsTable, "id desc").text) == []
    ensures id != "" ==> var call := NotificationsQuery(id);
      Names(Where(call.table, call.clause, call.args).text) == ["id"] && Bound(Where(call.table, call.clause, call.args))
  {
    if id == "" {
      FindAllStatement();
    } else {
      FindStatement(id);
    }
  }

  // ---------------------------------------------------------------------------
  // Unread count

  const UnreadArgs: Params := map["is_read" := Bool(false)]

  /** `GetUnreadNotificationCount`: counts with `is_read = :is_read` bound to
      false; an error becomes code 10001E, the count is returned as the
      repository gave it. */
  function GetUnreadNotificationCount(counter: Counter): (NotificationCount, Option<Error>)
  {
    var (count, err) := NotificationRepository.Count(Assignment("is_read"), UnreadArgs, counter);
    match err
    case None => (count, None)
    case Some(e) => (count, Some(Converted(SelectErrorCode, Some(e))))
  }

  /** The count statement binds its one placeholder to false; the count is
      the driver's, and an error is reported as 10001E with its cause. */
  lemma UnreadCount(counter: Counter)
    ensures Assignment("is_read") == "is_read = :is_read"
    ensures Names(SqlHandler.Count(NotificationsTable, Assignment("is_read"), UnreadArgs).text) == ["is_read"]
    ensures Bound(SqlHandler.Count(NotificationsTable, Assignment("is_read"), UnreadArgs))
    ensures var answer := counter(CountCall(NotificationsTable, Assignment("is_read"), UnreadArgs));
      && (answer.Success? ==> GetUnreadNotificationCount(counter) == (NotificationCount(answer.value), None))
      && (answer.Failure? ==> GetUnreadNotificationCount(counter).1 == Some(Converted(SelectErrorCode, Some(answer.error))))
  {
    NotificationLiterals();
    assert IsName("is_read");
    KeyedCountIsBound(NotificationsTable, "is_read", Bool(false));
    CountResult(Assignment("is_read"), UnreadArgs, counter);
  }

  // ---------------------------------------------------------------------------
  // Mark as read

  const ReadSet: Params := map["Unread" := Bool(false)]
  const UnreadWhere: Params := map["unread" := Bool(true)]

  /** `MarkNotificationsRead`: sets `Unread` to false where `unread = :unread`
      is true; an error becomes code 10001E. */
  function MarkNotificationsRead(exec: Executor): Option<Error>
  {
    match NotificationRepository.Update(ReadSet, Assignment("unread"), UnreadWhere, exec)
    case None => None
    case Some(e) => Some(Converted(SelectErrorCode, Some(e)))
  }

  lemma MarkReadLiterals()
    ensures IsName("Unread") && IsName("unread") && "Unread" != "unread"
    ensures Assignment("unread") == "unread = :unread"
  {
  }

  /** The update the handler builds for it: the SET key `Unread` and the
      WHERE key `unread` differ in case, so nothing is renamed; the
      statement sets `Unread` and keeps the clause, and both placeholders are
      bound, to false and true. */
  lemma MarkReadStatement(stmt: Statement, setColumns: seq<string>, order: seq<string>)
    requires Enumerates(setColumns, NonNilKeys(ReadSet))
    requires Enumerates(order, UnreadWhere.Keys)
    requires stmt.text == UpdateText(NotificationsTable, setColumns, AdjustClause(Assignment("unread"), order, ReadSet.Keys))
    requires stmt.params == ReadSet + AdjustParams(order, UnreadWhere, ReadSet.Keys)
    ensures setColumns == ["Unread"]
    ensures stmt.text == UpdateText(NotificationsTable, ["Unread"], "unread = :unread")
    ensures stmt.params == map["Unread" := Bool(false), "unread" := Bool(true)]
    ensures Names(stmt.text) == ["Unread", "unread"]
    ensures Bound(stmt)
  {
    MarkReadWhere(order);
    ReadSetColumns(setColumns);
    MarkReadNames(stmt);
  }

  /** The WHERE side is kept as given and merged with the SET map. */
  lemma MarkReadWhere(order: seq<string>)
    requires Enumerates(order, UnreadWhere.Keys)
    ensures AdjustClause(Assignment("unread"), order, ReadSet.Keys) == "unread = :unread"
    ensures ReadSet + AdjustParams(order, UnreadWhere, ReadSet.Keys) == map["Unread" := Bool(false), "unread" := Bool(true)]
  {
    MarkReadLiterals();
    NoCollisionKeepsWhere(Assignment("unread"), UnreadWhere, ReadSet.Keys, order);
  }

  /** The SET map has one non-nil key, so one column. */
  lemma ReadSetColumns(setColumns: seq<string>)
    requires Enumerates(setColumns, NonNilKeys(ReadSet))
    ensures setColumns == ["Unread"]
  {
    assert NonNilKeys(ReadSet) == {"Unread"};
    EnumerationSize(setColumns, NonNilKeys(ReadSet));
    assert setColumns[0] in NonNilKeys(ReadSet);
  }

  lemma MarkReadNames(stmt: Statement)
    requires stmt.text == UpdateText(NotificationsTable, ["Unread"], "unread = :unread")
    requires stmt.params == map["Unread" := Bool(false), "unread" := Bool(true)]
    ensures Names(stmt.text) == ["Unread", "unread"]
    ensures Bound(stmt)
  {
    MarkReadLiterals();
    NotificationLiterals();
    NamesOfUpdate(NotificationsTable, ["Unread"], "unread = :unread");
    AssignmentNames("unread");
  }

  /** Marking as read succeeds exactly when the driver's update does, and
      reports its error as 10001E otherwise. */
  lemma MarkReadResult(exec: Executor)
    ensures var answer := exec(UpdateCall(NotificationsTable, ReadSet, "unread = :unread", UnreadWhere));
      && (answer.None? ==> MarkNotificationsRead(exec).None?)
      && (answer.Some? ==> MarkNotificationsRead(exec) == Some(Converted(SelectErrorCode, Some(answer.value))))
  {
    MarkReadLiterals();
  }
}
