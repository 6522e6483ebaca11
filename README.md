# echo-playground-v2 data layer, modelled in Dafny

This project models the data layer of the echo-playground-v2 backend. Pets,
favourites, reservations, notifications and items are stored in relational
tables. The model covers:

- **The statement builder** (`SqlHandler`). It turns a column-to-value map
  into named-parameter SQL for select, count, insert, update and delete.
  When an update's SET and WHERE maps share a key, the WHERE key is renamed
  with a `_where` suffix. `Placeholders` models the named placeholders
  as they occur in these sources' clauses: a `:` followed by ASCII letters,
  digits, `_` or `.`.
- **The pet filter compiler** (`PetRepository.ParseFilter`). It turns a
  sparse `PetFilter` into `col = :col` predicates and their arguments.
- **The repositories**. Each one fixes the clauses and maps it hands to the
  builder. The favourite lookup also folds its rows into a map keyed by pet
  id, and the reservation insert first parses a `yyyymmdd` date.
- **The use cases**:
  - the notification and item dispatch, with its error-code mapping;
  - the pet search with reservation counts;
  - the reservation insert;
  - the like toggle (`PetInteractor.PetInteractor.UpdateLikeCount`).
- **The error layer**. Message codes map to an HTTP status, a response code
  and localised text. The reply to an error is chosen by the `\d{5}[IWE]`
  code check.

How the model stands in for the database:

- The database is abstract. A select, count or write is a function from the
  call the repository makes to what the driver answers: rows, a count, or an
  error.
- The pet interactor is a class that holds its three tables as fields.
- Which repository call fails, and with what error, comes from a map of
  faults.
- Go's random map iteration order is modelled by a ghost enumeration.
  `Enumerates(cols, keys)` says `cols` lists every key exactly once, and
  every property is stated for all such orders.

Where the code and its design notes differ, the model follows the code:

- The item repository's `FindAll` scans the notifications table.
- The notification count filters on the column `is_read`, while marking
  notifications read filters on `unread`.
- The favourite delete inlines values and joins them with `,` (see Findings).

## Model

| member | source | states |
|---|---|---|
| Values.WrapIsCongruent | usecase/pet_interactor.go:136-139 | The wrapped sum of a Go `int` (domain/model/pet.go:21) differs from the mathematical sum by a multiple of 2^64, and it is the only 64-bit value that does. |
| Values.WrapStep | usecase/pet_interactor.go:136-139 | Adding or subtracting one wraps only at the ends of the 64-bit range, and the two steps undo each other on every 64-bit value. |
| Values.NatText | infrastructure/sql_handler.go:300 | The `%v` text of a natural number is a non-empty run of decimal digits, with no leading zero, whose value is the number. |
| Placeholders.NameRun | infrastructure/sql_handler.go:109 | The name after a `:` is the longest run of name characters; the text after it cannot extend the name. |
| Placeholders.NamesNoColon | infrastructure/sql_handler.go:96-99 | Text without `:` adds no placeholder in front of what follows. |
| Placeholders.NamesOfPlaceholder | infrastructure/sql_handler.go:206 | `":" + m`, followed by text that cannot extend a name, is the single placeholder `m` in front of the rest's placeholders. |
| Placeholders.NamesOfJoin | infrastructure/sql_handler.go:210 | Joining parts with a separator that cannot continue a name gives the parts' placeholders in order. |
| Placeholders.NamesOfRename | infrastructure/sql_handler.go:253 | A whole-name renaming of placeholders maps the list of placeholders through the renaming. |
| Placeholders.ReplaceAllIsRename | infrastructure/sql_handler.go:253 | `strings.ReplaceAll` of `":"+k` by `":"+k2` equals the whole-name rename of `k` when no placeholder strictly extends `k`. |
| SqlHandler.BuildNamedParameters | infrastructure/sql_handler.go:321-335 | `values` holds exactly the non-nil entries, unchanged; `columns` lists its keys once each in some map order; `placeholderNames[i] == ":" + columns[i]`, all distinct. |
| SqlHandler.Create | infrastructure/sql_handler.go:186-224 | The columns list every key except `id`, nil values included; the text is `INSERT INTO t (cols) VALUES (:cols)`; the whole input, `id` included, is passed as parameters. |
| SqlHandler.SetClauses | infrastructure/sql_handler.go:238-241 | Clause i is `col_i = :col_i`. |
| SqlHandler.MergeParams | infrastructure/sql_handler.go:262-268 | The merged map is the SET map overridden by the adjusted WHERE map. |
| SqlHandler.SuffixCollisions | infrastructure/sql_handler.go:244-257 | After the loop over WHERE keys in some map order, the clause and map are the ones `AdjustClause`/`AdjustParams` give for that order. |
| SqlHandler.Update | infrastructure/sql_handler.go:228-285 | The text is `UPDATE t SET` over the non-nil SET columns, then ` WHERE ` and the clause with colliding keys rewritten by substring replacement; the parameters are the SET map merged with the renamed WHERE map. |
| SqlHandler.WholeNameRenaming | infrastructure/sql_handler.go:247-257 | The intended rename: colliding keys map to `key_where` and the WHERE map is renamed the same way. |
| SqlHandler.UpdateWholeNames | infrastructure/sql_handler.go:228-285 | The update with whole-placeholder renaming; SET columns and parameters are as in `Update`. |
| SqlHandler.Delete | infrastructure/sql_handler.go:288-319 | The text inlines one `col = value` per non-nil entry, joined by `,`; the parameters are the non-nil entries. |
| SqlHandler.DeleteNamed | infrastructure/sql_handler.go:296-303 | The intended delete: `col = :col` predicates joined by ` AND `, with the same parameters. |
| SqlHandlerProps.EnumerationSize | infrastructure/sql_handler.go:326-332 | An enumeration of a key set has exactly as many columns as there are keys. |
| SqlHandlerProps.NamesOfAssignments | infrastructure/sql_handler.go:238-241 | The placeholders of the `col = :col` clauses are the columns, in order. |
| SqlHandlerProps.WhereBindsClause | infrastructure/sql_handler.go:96-99 | `Where` passes its arguments unchanged, has exactly the clause's placeholders, and omits ` WHERE ` exactly when the clause is empty. |
| SqlHandlerProps.CountBindsClause | infrastructure/sql_handler.go:157-160 | The same for `SELECT COUNT(*)`. |
| SqlHandlerProps.KeyedWhereIsBound | infrastructure/sql_handler.go:96-99 | A select keyed by `col = :col` has the one placeholder `col`, and it is bound. |
| SqlHandlerProps.KeyedCountIsBound | infrastructure/sql_handler.go:157-160 | A count keyed by `col = :col` has the one placeholder `col`, and it is bound. |
| SqlHandlerProps.ScanHasNoPlaceholders | infrastructure/sql_handler.go:131 | `SELECT * FROM t ORDER BY o;` has no placeholder and no parameter. |
| SqlHandlerProps.NamesOfInsert | infrastructure/sql_handler.go:210 | The insert's placeholders are its columns, in order. |
| SqlHandlerProps.CreateIsBound | infrastructure/sql_handler.go:199-220 | Every placeholder of an insert has a value in the map passed with it. |
| SqlHandlerProps.NamesOfUpdate | infrastructure/sql_handler.go:259 | The update's placeholders are the SET columns followed by the WHERE clause's. |
| SqlHandlerProps.AdjustParamsDomain | infrastructure/sql_handler.go:247-256 | The adjusted WHERE map's keys are the WHERE keys, each suffixed exactly when the SET map has it. |
| SqlHandlerProps.AdjustParamsValue | infrastructure/sql_handler.go:247-256 | Each adjusted WHERE key carries its original value, when the renaming is injective. |
| SqlHandlerProps.UpdateWholeNamesResolves | infrastructure/sql_handler.go:247-268 | With whole-name renaming and no `key_where` already in the SET map, every non-nil SET value and every WHERE value is bound to its (renamed) placeholder. |
| SqlHandlerProps.NoCollisionKeepsWhere | infrastructure/sql_handler.go:247-257 | When no WHERE key is a SET key, the clause and the WHERE map are left as they are. |
| SqlHandlerProps.SingleCollisionAgrees | infrastructure/sql_handler.go:247-257 | With one colliding key that no other placeholder extends, the substring rewrite agrees with the whole-name rename. |
| SqlHandlerProps.TwoKeyClauseAsWritten | infrastructure/sql_handler.go:253 | Rewriting `:k` also rewrites the longer placeholder `:kt` into `:k_wheret`. |
| SqlHandlerProps.UpdateLeavesPlaceholderUnbound | infrastructure/sql_handler.go:247-257 | For SET `{k}` and WHERE `{k, kt}`, the written update references `k_wheret`, which has no value. |
| SqlHandlerProps.UpdateWholeNamesBindsTwoKeys | infrastructure/sql_handler.go:247-257 | With whole-name renaming the same update references `k_where` and `kt`, and every placeholder is bound. |
| SqlHandlerProps.TwoColumnOrder | infrastructure/sql_handler.go:326-332 | A map with two non-nil keys enumerates them in one of the two orders. |
| SqlHandlerProps.DeleteInlinesValues | infrastructure/sql_handler.go:296-303 | A two-key delete is `DELETE FROM t WHERE a = x,b = y` (in either order), with no placeholder. |
| SqlHandlerProps.DeleteNamedIsBound | infrastructure/sql_handler.go:296-303 | The intended delete has exactly the columns as placeholders, all bound. |
| PetRepository.AddIfSet | domain/repository/pet_repository.go:137-165 | One step of the filter compiler appends `col = :col` and binds `col` exactly when the field is set. |
| PetRepository.ParseFilter | domain/repository/pet_repository.go:132-168 | The predicates are the `col = :col` clauses of the filter's criteria and the arguments bind exactly those criteria. |
| PetRepository.CriteriaOfSome | domain/repository/pet_repository.go:136-166 | The criteria are gender, price, name, id, reference number and breed, each only when set. |
| PetRepository.CriteriaMembers | domain/repository/pet_repository.go:136-166 | A criterion is present exactly when its field is set, with the field's value. |
| PetRepository.GenderCriterion | domain/repository/pet_repository.go:137-145 | Gender matches `male`/`female` case-insensitively and binds `Male`/`Female`; any other gender adds nothing. |
| PetRepository.ValueCriteria | domain/repository/pet_repository.go:146-165 | Price is a criterion exactly when non-zero, and name, id, reference number and breed exactly when non-empty. |
| PetRepository.CriteriaOrdered | domain/repository/pet_repository.go:132-168 | A nil filter gives no criterion; the criteria always follow the fixed column order. |
| PetRepository.CriteriaColumns | domain/repository/pet_repository.go:137-165 | Every criterion is on one of the six filter columns. |
| PetRepository.ArgsOfDistinct | domain/repository/pet_repository.go:133-166 | There are as many arguments as predicates, each bound to its criterion's value. |
| PetRepository.ArgsDomain | domain/repository/pet_repository.go:133-166 | Every argument is keyed by the column of some criterion. |
| PetRepository.ClauseNames | domain/repository/pet_repository.go:75 | The predicates joined by ` and ` have the criteria's columns as placeholders. |
| PetRepository.CriteriaAreBound | domain/repository/pet_repository.go:75 | The search statement's placeholders are the criteria's columns and all of them are bound. |
| PetRepository.FindIsBound | domain/repository/pet_repository.go:61-75 | The search for any filter binds every placeholder, one argument per predicate. |
| PetRepository.IdFilterMatches | domain/repository/pet_repository.go:154-157 | A search by id admits the rows with that id, or every row when the id is empty. |
| PetRepository.FindRowsMembers | domain/repository/pet_repository.go:75 | The search returns exactly the rows that satisfy every criterion. |
| PetRepository.FindByIdRows | domain/repository/pet_repository.go:154-157 | A search by id returns that id's rows, or all rows for an empty id. |
| PetRepository.SetParamsShape | domain/repository/pet_repository.go:104-117 | The SET map has no nil value, never names `id`, and its keys are placeholder names. |
| PetRepository.UpdateByIdStatement | domain/repository/pet_repository.go:119-126 | Keyed by `id = :id` with no collision, the clause is unchanged, `id` is bound to the key and every placeholder is bound. |
| PetRepository.PetUpdateStatement | domain/repository/pet_repository.go:104-126 | The pet update writes the twelve columns, binds `likes` to the pet's likes and `id` to its id, and every placeholder is bound. |
| PetRepository.ApplyPetUpdateWritesSetValues | domain/repository/pet_repository.go:104-126 | After the update each SET column holds the value sent for it. |
| PetRepository.ApplyPetUpdateKeepsOtherColumns | domain/repository/pet_repository.go:104-126 | The update changes no column outside the SET map. |
| FavoriteRepository.FindByUserIdIsBound | domain/repository/favorite_repository.go:52-56 | The lookup selects from `favorites` by `user_id = :user_id`, bound to the user id. |
| FavoriteRepository.UserRowsMembers | domain/repository/favorite_repository.go:56 | The lookup returns exactly the user's rows. |
| FavoriteRepository.FindByUserId | domain/repository/favorite_repository.go:52-77 | A query error comes back with no map; otherwise the map is the fold of the user's rows. |
| FavoriteRepository.FavMapEntries | domain/repository/favorite_repository.go:67-75 | The map's keys are the rows' pet ids; each entry is built from the last row with that pet id. |
| FavoriteRepository.RecordedValueIsLiked | domain/repository/favorite_repository.go:67-75 | The value read back for a pet is true exactly when a row records the (user, pet) pair; a missing pet reads as false. |
| FavoriteRepository.PairParamsShape | domain/repository/favorite_repository.go:102-138 | Insert and delete both pass exactly `pet_id` and `user_id`; two favourites give the same calls exactly when the pair is the same. |
| FavoriteRepository.CreateStatement | domain/repository/favorite_repository.go:102-105 | The insert names `pet_id` and `user_id` and binds both. |
| FavoriteRepository.DeleteStatement | domain/repository/favorite_repository.go:129-138 | The delete is `pet_id = p,user_id = u` (in either order) with no placeholder. |
| FavoriteRepository.InsertFavoriteLiked | domain/repository/favorite_repository.go:102-105 | After the insert the pair is liked and every other pair is as before. |
| FavoriteRepository.RemoveFavoriteMembers | domain/repository/favorite_repository.go:135-138 | The delete removes exactly the pair's rows. |
| FavoriteRepository.RemoveFavoriteUnliked | domain/repository/favorite_repository.go:135-138 | After the delete the pair is not liked and every other pair is as before. |
| ReservationRepository.PaddedDigits | domain/repository/reservation_repository.go:44 | A zero-padded field has its width and only digits. |
| ReservationRepository.NumberOfPadded | domain/repository/reservation_repository.go:44 | Reading a padded field gives back the number. |
| ReservationRepository.PaddedOfNumber | domain/repository/reservation_repository.go:44 | Padding the number read from digits gives back the digits. |
| ReservationRepository.FormatFields | domain/repository/reservation_repository.go:44 | A formatted date is eight digits: the year, the month and the day, padded. |
| ReservationRepository.FormatThenParse | domain/repository/reservation_repository.go:44 | Every valid date formatted as `yyyymmdd` parses back to itself. |
| ReservationRepository.ParseThenFormat | domain/repository/reservation_repository.go:44 | Every text that parses is a valid date whose formatting is the text. |
| ReservationRepository.CreateCallShape | domain/repository/reservation_repository.go:44-59 | The insert is made exactly when the date parses; otherwise the parse error is returned; its map has the five keys, no `id`, and `user_name` holds the full name. |
| ReservationRepository.InsertParamsKeys | domain/repository/reservation_repository.go:49-56 | The insert map has exactly five keys, none of them `id`. |
| ReservationRepository.CreateStatement | domain/repository/reservation_repository.go:49-59 | The insert names all five columns and binds every placeholder. |
| ReservationRepository.CountCallIsBound | domain/repository/reservation_repository.go:76-78 | The count is keyed by `pet_id = :pet_id`, bound to the pet id. |
| ReservationRepository.CountOfAppend | domain/repository/reservation_repository.go:76-79 | Appending a row raises the count of its pet by one. |
| ReservationRepository.InsertCounts | domain/repository/reservation_repository.go:59-79 | A successful insert raises the reserved pet's count by one and leaves every other count unchanged. |
| NotificationRepository.FindStatement | domain/repository/notification_repository.go:39-41 | `Find` selects from `notifications` by `id = :id` with the id bound. |
| NotificationRepository.FindAllStatement | domain/repository/notification_repository.go:51 | `FindAll` orders by `id desc` and has no placeholder or parameter. |
| NotificationRepository.CountResult | domain/repository/notification_repository.go:69-71 | The count is the driver's count exactly when it succeeds, and the error is passed on unchanged. |
| NotificationInteractor.GetNotificationsDispatch | usecase/notification_interactor.go:17-33 | An empty id scans, any other id selects by id; success is returned unchanged and a failure is tagged 10001E with its cause. |
| NotificationInteractor.GetNotificationsStatement | usecase/notification_interactor.go:18-28 | The scan has no placeholder; the select by id binds its one placeholder. |
| NotificationInteractor.UnreadCount | usecase/notification_interactor.go:37-47 | The count is keyed by `is_read = :is_read` with false bound, and a failure is tagged 10001E. |
| NotificationInteractor.MarkReadStatement | usecase/notification_interactor.go:51-54 | The update sets `Unread` where `unread = :unread`; the keys differ in case, so nothing is renamed and both are bound. |
| NotificationInteractor.MarkReadResult | usecase/notification_interactor.go:51-61 | Success is passed through; a failure is tagged 10001E with its cause. |
| AppRepository.FindAllReadsNotifications | domain/repository/app_repository.go:26-28 | The item listing scans `notifications`, not `items`, ordered by `id desc`. |
| AppRepository.CreateParamsShape | domain/repository/app_repository.go:42-50 | The item map has exactly seven keys, `id` among them, all placeholder names. |
| AppRepository.CreateStatement | domain/repository/app_repository.go:42-52 | The insert writes the six columns other than `id` and binds them all; the id is passed but never written. |
| AppRepository.CreateResponse | domain/repository/app_repository.go:52-64 | The response is 200 "OK" exactly when the insert succeeds, and 400 "Create error" with the error otherwise. |
| AppInteractor.ItemsQuerySelection | usecase/app_interactor.go:16-27 | `true` and `false` filter on `favorite = ?` with that boolean; any other value asks for no filter. |
| AppInteractor.GetItemsAlwaysFails | usecase/app_interactor.go:29-35 | The search is not implemented, so every request fails with the text 10001E, which is answered with status 500. |
| AppInteractor.CreateItemResult | usecase/app_interactor.go:39-46 | A failed insert is answered 400 with the text 10001E, and a successful one 200 with no error. |
| AppInteractor.UpdateFavoriteAttrResult | usecase/app_interactor.go:50-60 | Both the function as written (clause `id = ?`) and the corrected one (`id = :id`) return the zero item, and the error text 10001E exactly when the update they send fails. |
| AppInteractor.FavoriteUpdateShape | usecase/app_interactor.go:51-53 | The SET map has the one column `Favorite`, and the WHERE key does not collide with it. |
| AppInteractor.UpdateFavoriteIgnoresId | usecase/app_interactor.go:51-53 | As written, the statement's only placeholder is `Favorite`: the id is passed but never referenced. |
| AppInteractor.UpdateFavoriteBindsId | usecase/app_interactor.go:51-53 | With `id = :id`, the placeholders are `Favorite` and `id`, both bound, the id to the item's id. |
| Messages.TableHasBothLanguages | utils/messages_config.go:4-52 | Every code in the message table has a Japanese and an English text. |
| Messages.MessageLanguageFallback | utils/messages.go:34-41 | English gets the English text; every other language gets the Japanese text. |
| Messages.TableCodesPassCheck | utils/messages_config.go:4-52 | Every code in the table passes the `\d{5}[IWE]` check. |
| Messages.AsWrittenPanicsOnUnknownCodes | utils/messages.go:44-66 | As written, the reply panics exactly on a text that passes the check but is not in the table; otherwise it equals the intended reply. |
| Messages.UnknownCodePanics | utils/messages.go:49-58 | The codes 10004E and 10005E pass the check but are not in the table, so the reply as written panics. |
| Messages.ErrorReply | utils/messages.go:44-66 | A code in the table is answered with its status, its response code and its text in the chosen language; any other text gets the unhandled reply. |
| Messages.SetErrorRoundTrip | utils/messages.go:69-72 | `SetErrorMassage(code)` reads back as `code`; 00001I is answered 200 and 10001E 500. |
| Messages.NoDigitNoCode | utils/messages.go:49 | Text without a digit never passes the check. |
| Messages.CodeInsideText | utils/messages.go:49 | The check is unanchored: a code anywhere inside a longer text passes it. |
| BusinessErrors.NewBusinessErrorDefinition | domain/model/errors/error.go:66-78 | A known code takes its status and response code from the table; an unknown one gets 500, `internal_error` and `internal error`, and is not public; the wrapped error is kept. |
| BusinessErrors.MessageLocaleFallback | domain/model/errors/error.go:30-50 | The locale's own text is used when present, the English text otherwise, and `Error()` is the English text. |
| BusinessErrors.EchoErrorHidesServerErrors | domain/model/errors/error.go:82-99 | The status is below 500 exactly for a public business error, and only then does its text reach the caller. |
| BusinessErrors.UnknownCodeAnswers500 | domain/model/errors/error.go:67-99 | A code missing from the table is answered 500 `internal server error`. |
| PetInteractor.ShowPets | usecase/pet_interactor.go:53-80 | There is one `Pet` per row, in order, carrying the row's fields and its reservation count, or zero when the count fails. |
| PetInteractor.CopyPet | usecase/pet_interactor.go:118-133 | The copy loop computes `CopyMatches`: every row with the requested id overwrites the pet's fields, so the last such row wins. |
| PetInteractor.PetInteractor.constructor | usecase/pet_interactor.go:16-20 | The interactor starts from the given tables and faults. |
| PetInteractor.PetInteractor.FindPetRows | domain/repository/pet_repository.go:61-75 | The search returns the rows the filter admits, or fails with the fault. |
| PetInteractor.PetInteractor.GetPets | usecase/pet_interactor.go:46-87 | A failed search is tagged 10001E; otherwise there is one pet per row, in order, with its count or zero. |
| PetInteractor.PetInteractor.UpdateLikeCount | usecase/pet_interactor.go:91-171 | The error and the three tables afterwards are exactly those that `LikeOutcome` gives for the old tables. |
| PetInteractor.PetInteractor.WriteLike | usecase/pet_interactor.go:143-168 | The pet update, then the favourite insert or delete, with their error codes, as `LikeWrites` gives them. |
| PetInteractor.PetInteractor.CreateReservation | usecase/pet_interactor.go:185-190 | A date that does not parse, or a failed insert, is tagged 10003E and adds nothing; otherwise the reservation is appended with the parsed date. |
| PetInteractor.ShownCountOf | usecase/pet_interactor.go:56-61 | A pet is shown with its reservation count, or with zero when the count fails. |
| PetInteractor.CopyKeepsCount | usecase/pet_interactor.go:119-133 | The copy never changes the reservation count. |
| PetInteractor.CopyNoMatch | usecase/pet_interactor.go:119-133 | With no row of the requested id, the pet stays as it was. |
| PetInteractor.CopySingleRow | usecase/pet_interactor.go:119-133 | When every row is one row with the requested id, the pet is that row's copy. |
| PetInteractor.LikeRefusals | usecase/pet_interactor.go:102-117 | A failed lookup or search is 10001E and a request equal to the recorded state is 00001I; none of them changes a table. Without a lookup error the toggle is refused exactly when the pair's liked state already equals the request. |
| PetInteractor.LikeWriteFailures | usecase/pet_interactor.go:143-167 | A failed counter write is 10003E and changes nothing; a failed insert or delete is 10004E or 10005E, and the counter has already moved while the favourites are unchanged. |
| PetInteractor.LikeSuccess | usecase/pet_interactor.go:143-170 | A toggle that succeeds leaves the pair liked exactly as asked, every other pair as before, the pets updated and the reservations untouched. |
| PetInteractor.LikeKeepsReservations | usecase/pet_interactor.go:91-171 | The toggle never touches reservations and changes pets only through the one update. |
| PetInteractor.LikeMovesCounter | usecase/pet_interactor.go:113-147 | For a pet stored under a unique id, its row's counter is the stored one plus one for a like or minus one for an unlike, wrapped to 64 bits as Go's `int` arithmetic is; every other row is kept. |
| PetInteractor.LikeCounterWraps | usecase/pet_interactor.go:135-140 | The counter written back is one more or one less than the stored one, except that a like at the largest 64-bit `int` writes the smallest and an unlike at the smallest writes the largest. |
| PetInteractor.RowsAfterLikeThenUnlike | usecase/pet_interactor.go:135-147 | Applying a like and then an unlike to the pet rows returns the pet's counter to its start, wrap-around included, and keeps every other row. |
| PetInteractor.LikeOfMissingPet | usecase/pet_interactor.go:118-143 | For a missing pet, the zero pet with likes ±1 is written, keyed by the empty id; no row changes when no row has an empty id. |
| PetInteractor.LikeTwiceRefused | usecase/pet_interactor.go:102-110 | A toggle repeated after it went through is refused with 00001I and changes no table, so the counter moves only once. |
| PetInteractor.UpdateRowsKeepsIds | domain/repository/pet_repository.go:119-126 | The pet update keeps the number of rows and every row's id. |
| PetInteractor.LikeThenUnlike | usecase/pet_interactor.go:91-171 | A like and then an unlike of the same pet, both going through, restore every pair's liked state and the pet's like counter; every other row and the reservations are unchanged. |
| PetInteractor.LikeWriteErrorPanicsAsWritten | usecase/pet_interactor.go:149-168 | When the favourite insert or delete fails, the toggle's error is tagged 10004E or 10005E. Only on the reading that a tagged error's text is its code (see Left out), it passes the code check but is not in the table, so the reply as written panics; the intended reply is the unhandled one. |
| PetInteractor.LikeErrorReplyAsBusinessError | usecase/pet_interactor.go:102-168 | Every error of the toggle is tagged with one of 10001E, 00001I, 10003E, 10004E, 10005E. On the reading that it is a business error, whose text is its English message (domain/model/errors/error.go:30-35), a code missing from the table reads `internal error` and, like any code whose English message holds no code, gets the unhandled 500 reply as written, without a panic. |

## Left out

- Driver I/O is abstract: connection setup, prepared statements and execution. Execution is a function from the call to the driver's answer, or a fault map in the pet interactor. How rows are scanned into structs is not modelled.
- Tracing and logging are left out: OpenTelemetry spans, X-Ray subsegments and metadata, the logger, and the debug prints in the notification update. None of them changes a result.
- The load and latency generators and their random gates in the pet search are left out. They only busy-loop or sleep.
- The HTTP layer, routing, configuration and request-header checks are not part of this model.
- The JSON message files loaded at start-up are not in the sources. The business-error table is a parameter of `BusinessErrors.NewBusinessError`. The `utils/messages_config.go` table is written out in `Messages.MessageConfig`.
- The code-conversion helper used by the use cases is not in the sources. It is modelled as an error tagged with the code that keeps the original error as its cause (`Values.Error.Converted`). `Messages.ErrorText` takes its text, as the error reply reads it, to be the code. The use-case tests argue against that reading: usecase/pet_interactor_test.go:139-145, 182-188 and 218-224, and usecase/notification_interactor_test.go:114-120, expect a business error whose `Code()` is the code. Such an error's text is its English message (domain/model/errors/error.go:30-35). `PetInteractor.LikeErrorReplyAsBusinessError` states the reply on that reading; `PetInteractor.LikeWriteErrorPanicsAsWritten` holds only on the code reading.
- `copier.Copy` is a field-by-field copy of the matching fields, so it cannot fail. The 10002E branch of the like toggle is therefore unreachable in the model.
- `ReservationRepository.ParseError`: the model's text stops at the layout and does not include the detail that `time.Parse` appends.
- Dates are parsed as eight ASCII digits forming a valid Gregorian date, with the year 0000 allowed. A stored time is represented by its `yyyymmdd` text, with no time zone.
- Floating-point prices are mathematical reals. They are only compared with zero and passed through.
- The like counter is a 64-bit Go `int` (`Values.Int64`), and its ±1 wraps around (`Values.WrapInt64`). The other integers in the model are never computed with, so they are unbounded. Whether the database column can hold every 64-bit value is not modelled.
- Concurrent like toggles are not modelled; there is a single sequential caller.
- `AppRepository.Find` returns only the error; the empty item list that comes with it is not modelled.
- The item repository is written against an older handler signature without a context argument. The model ignores the context everywhere.
- RemoveFavorite: the unlike's effect is the delete as evidently intended (`SqlHandler.DeleteNamed`). As written, the delete text is not valid SQL (see Findings), so against a real database the unlike always ends with 10005E after the counter has moved. That outcome is `PetInteractor.LikeWriteFailures` with a `DeleteFavorite` fault.
- RemoveFavoriteMembers: states the effect of the delete as evidently intended; the delete as written removes nothing, because the database rejects it.
- RemoveFavoriteUnliked: holds for the delete as evidently intended only; the delete as written cannot succeed.
- LikeSuccess: its unlike half assumes the delete as evidently intended. As written, no unlike succeeds, so only the like half applies to the program.
- LikeThenUnlike: the unlike can succeed only with the delete as evidently intended. As written, the unlike fails with 10005E and the counter stays one like lower than before the pair of toggles began.
- The placeholder syntax is narrower than the driver's named-query compiler. The model does not cover: non-ASCII letters in names; a lone `:`, which the compiler turns into an empty name that cannot be bound; `:=`, which the compiler passes through as text; a trailing `_` or `.` at the very end of the text, which the compiler drops from the name; and the `::` escape. No clause in these sources contains any of these.
- Values.Show: only strings, integers, booleans and nil are rendered as `%v` renders them. Floats, pointers and string slices render as `?`, and a time renders as its stored text. So `SqlHandler.Delete`'s text is Go's only for the first four kinds. The favourite delete, the one caller, passes only strings.
- Stale duplicate sources (the second notification interactor file, the older database interface and the util model) are not part of this model.

## Findings

| source | as written | input that shows it | evidently intended | confidence | as-written member | corrected member |
|---|---|---|---|---|---|---|
| infrastructure/sql_handler.go:253 | The WHERE clause is rewritten by `strings.ReplaceAll(":"+key, ":"+key+"_where")`, which also rewrites every longer placeholder that starts with the key. | SET `{status}`, WHERE `{status, status_code}`, clause `status = :status and status_code = :status_code`: the statement references `:status_where_code`, which has no value. | Only the placeholder named exactly `key` is renamed, so every placeholder stays bound. | high; not executed | SqlHandlerProps.UpdateLeavesPlaceholderUnbound | SqlHandlerProps.UpdateWholeNamesBindsTwoKeys |
| utils/messages.go:49-58 | The code check is unanchored and the table lookups assert their types unchecked, so a text that passes the check but is not a table key panics. | A failed favourite insert or delete leaves the like toggle with an error tagged 10004E or 10005E (usecase/pet_interactor.go:156,165). If that error's text is its code, it passes the check and is not in the table. This rests on the code-conversion helper, which is not part of this model (see Left out). The use-case tests (usecase/pet_interactor_test.go:139-145, 182-188, 218-224; usecase/notification_interactor_test.go:114-120) argue against that reading: they expect a business error, whose text is its English message (domain/model/errors/error.go:30-35), so no code reaches the check and the reply is the unhandled 500 (`PetInteractor.LikeErrorReplyAsBusinessError`), the 00001I refusal included. The panic would then be caught by the router's recovery middleware (infrastructure/router.go:219) and answered 500. | A text that is not in the table gets the unhandled-error reply. | low; not executed | PetInteractor.LikeWriteErrorPanicsAsWritten | Messages.ErrorReply |
| infrastructure/sql_handler.go:298-303 | Delete inlines each value with `%v` and joins the equalities with `,`. | The favourite `{pet_id: p1, user_id: u1}` gives `DELETE FROM favorites WHERE pet_id = p1,user_id = u1`: the values are unquoted and the predicates are separated by a comma. | `col = :col` predicates joined with ` AND `, bound from the map. | high; not executed | SqlHandlerProps.DeleteInlinesValues | SqlHandlerProps.DeleteNamedIsBound |
| usecase/app_interactor.go:51 | The update is keyed by the positional `id = ?` on a named-parameter statement. | Any item: the statement's only placeholder is `Favorite`, the id passed with it is never referenced, and the bare `?` stays in the text. On PostgreSQL (infrastructure/sql_handler.go:40) that is a syntax error, so the update always fails and is answered 10001E. | `id = :id`, binding the item's id. | medium; not executed | AppInteractor.UpdateFavoriteIgnoresId | AppInteractor.UpdateFavoriteBindsId |

The table-effect functions use the intended behaviour. `FavoriteRepository.RemoveFavorite` removes the pair's rows, as the corrected delete would; "## Left out" names the members whose unlike half depends on this. The repositories' update lemmas never involve a SET/WHERE collision; for those inputs the written update and the whole-name rename agree (`SqlHandlerProps.NoCollisionKeepsWhere`).
