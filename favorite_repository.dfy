/** The favourite repository: which user likes which pet. It reads a user's
    favourites into a map keyed by pet id, and inserts and deletes the
    (pet, user) rows through the SQL handler. */
module FavoriteRepository {
  import opened Values
  import opened Placeholders
  import opened SqlHandler
  import opened SqlHandlerProps
  import opened Domain

  const FavoritesTable := "favorites"

  /** A row of the `favorites` table. */
  datatype FavoriteRow = FavoriteRow(id: string, petId: string, userId: string)

  // ---------------------------------------------------------------------------
  // FindByUserId

  /** The lookup of a user's favourites: `user_id = :user_id` on `favorites`. */
  function FindByUserIdCall(userId: string): Call
  {
    WhereCall(FavoritesTable, Assignment("user_id"), map["user_id" := Str(userId)])
  }

  /** The lookup's statement is the select keyed by `user_id`, and its one
      placeholder is bound to the user id. */
  lemma FindByUserIdIsBound(userId: string)
    ensures var call := FindByUserIdCall(userId);
      && call.clause == "user_id = :user_id"
      && Where(call.table, call.clause, call.args).text == "SELECT * FROM " + FavoritesTable + " WHERE " + call.clause
      && Names(Where(call.table, call.clause, call.args).text) == ["user_id"]
      && Bound(Where(call.table, call.clause, call.args))
      && call.args["user_id"] == Str(userId)
  {
    FavoriteLiterals();
    KeyedWhereIsBound(FavoritesTable, "user_id", Str(userId));
  }

  /** The table name holds no placeholder and both key columns are
      placeholder names. */
  lemma FavoriteLiterals()
    ensures ':' !in FavoritesTable
    ensures IsName("pet_id") && IsName("user_id")
    ensures Assignment("user_id") == "user_id = :user_id"
  {
  }

  /** The rows of `table` that belong to `userId`, in table order: what the
      lookup's statement selects. */
  function UserRows(table: seq<FavoriteRow>, userId: string): seq<FavoriteRow>
    decreases |table|
  {
    if table == [] then []
    else (if table[0].userId == userId then [table[0]] else []) + UserRows(table[1..], userId)
  }

  lemma {:induction false} UserRowsMembers(table: seq<FavoriteRow>, userId: string)
    ensures forall r :: r in UserRows(table, userId) <==> r in table && r.userId == userId
    decreases |table|
  {
    if table != [] {
      UserRowsMembers(table[1..], userId);
      assert forall r :: r in table <==> r == table[0] || r in table[1..];
    }
  }

  /** The favourite a fetched row stands for: it is recorded, so its value is true. */
  function FavoriteOf(row: FavoriteRow): Favorite
  {
    Favorite(row.id, row.petId, row.userId, true)
  }

  /** The map built from `rows`, keyed by pet id; a later row overwrites an
      earlier one with the same pet id. */
  function FavMap(rows: seq<FavoriteRow>): map<string, Favorite>
    decreases |rows|
  {
    if rows == [] then map[]
    else
      var last := rows[|rows| - 1];
      FavMap(rows[..|rows| - 1])[last.petId := FavoriteOf(last)]
  }

  /** `FindByUserId`: the lookup runs on `table` (or fails with `fault`); on
      success the fetched rows are folded into a map keyed by pet id, and on
      failure the error comes back without a map. */
  method FindByUserId(userId: string, table: seq<FavoriteRow>, fault: Option<Error>)
    returns (r: Result<map<string, Favorite>>)
    ensures fault.Some? ==> r == Failure(fault.value)
    ensures fault.None? ==> r == Success(FavMap(UserRows(table, userId)))
  {
    if fault.Some? {
      return Failure(fault.value);
    }
    var rows := UserRows(table, userId);
    var favMap: map<string, Favorite> := map[];
    for i := 0 to |rows|
      invariant favMap == FavMap(rows[..i])
    {
      assert rows[..i + 1][..i] == rows[..i];
      favMap := favMap[rows[i].petId := FavoriteOf(rows[i])];
    }
    assert rows[..|rows|] == rows;
    return Success(favMap);
  }

  /** The map's keys are exactly the fetched rows' pet ids; each entry is the
      favourite of the last row with that pet id, and is recorded as liked. */
  lemma {:induction false} FavMapEntries(rows: seq<FavoriteRow>)
    ensures forall p :: p in FavMap(rows) <==> exists r :: r in rows && r.petId == p
    ensures forall p :: p in FavMap(rows) ==>
      exists i :: (0 <= i < |rows| && rows[i].petId == p && FavMap(rows)[p] == FavoriteOf(rows[i])
        && forall j :: i < j < |rows| ==> rows[j].petId != p)
    decreases |rows|
  {
    if rows != [] {
      var init, last := rows[..|rows| - 1], rows[|rows| - 1];
      FavMapEntries(init);
      assert forall r :: r in rows <==> r in init || r == last by {
        assert rows == init + [last];
      }
      forall p | p in FavMap(rows)
        ensures exists i :: (0 <= i < |rows| && rows[i].petId == p && FavMap(rows)[p] == FavoriteOf(rows[i])
          && forall j :: i < j < |rows| ==> rows[j].petId != p)
      {
        if p == last.petId {
          assert rows[|rows| - 1].petId == p;
        } else {
          var i :| 0 <= i < |init| && init[i].petId == p && FavMap(init)[p] == FavoriteOf(init[i])
            && forall j :: i < j < |init| ==> init[j].petId != p;
          assert rows[i] == init[i];
          assert forall j :: i < j < |rows| ==> rows[j].petId != p by {
            forall j | i < j < |rows| ensures rows[j].petId != p {
              if j < |init| {
                assert rows[j] == init[j];
              }
            }
          }
        }
      }
    }
  }

  /** A user likes a pet when some row records the pair. */
  ghost predicate Liked(table: seq<FavoriteRow>, userId: string, petId: string)
  {
    exists r :: r in table && r.userId == userId && r.petId == petId
  }

  /** `favMap[petId].Value` as the caller reads it: a missing key yields the
      zero favourite, whose value is false. */
  function RecordedValue(favMap: map<string, Favorite>, petId: string): bool
  {
    if petId in favMap then favMap[petId].value else false
  }

  /** The value read back from the lookup is true exactly when the user likes
      the pet; a pet the user never liked reads as false. */
  lemma RecordedValueIsLiked(table: seq<FavoriteRow>, userId: string, petId: string)
    ensures RecordedValue(FavMap(UserRows(table, userId)), petId) <==> Liked(table, userId, petId)
  {
    var rows := UserRows(table, userId);
    UserRowsMembers(table, userId);
    FavMapEntries(rows);
    if petId in FavMap(rows) {
      var i :| 0 <= i < |rows| && rows[i].petId == petId && FavMap(rows)[petId] == FavoriteOf(rows[i]);
      assert rows[i] in rows;
    }
    if Liked(table, userId, petId) {
      var r :| r in table && r.userId == userId && r.petId == petId;
      assert r in rows;
    }
  }

  // ---------------------------------------------------------------------------
  // Create and Delete

  /** The column map of both `Create` and `Delete`: the pet and the user only. */
  function PairParams(fav: Favorite): Params
  {
    map["pet_id" := Str(fav.petId), "user_id" := Str(fav.userId)]
  }

  /** `Create`: insert the (pet, user) pair into `favorites`. */
  function CreateCallOf(fav: Favorite): Call
  {
    CreateCall(FavoritesTable, PairParams(fav))
  }

  /** `Delete`: delete the rows of the (pet, user) pair from `favorites`. */
  function DeleteCallOf(fav: Favorite): Call
  {
    DeleteCall(FavoritesTable, PairParams(fav))
  }

  /** Create and Delete pass exactly `pet_id` and `user_id`: the favourite's
      id and its value are not sent, so favourites that differ only in those
      make the same call. */
  lemma PairParamsShape(fav: Favorite, other: Favorite)
    ensures PairParams(fav).Keys == {"pet_id", "user_id"}
    ensures PairParams(fav)["pet_id"] == Str(fav.petId) && PairParams(fav)["user_id"] == Str(fav.userId)
    ensures fav.petId == other.petId && fav.userId == other.userId <==>
      CreateCallOf(fav) == CreateCallOf(other) && DeleteCallOf(fav) == DeleteCallOf(other)
  {
    if CreateCallOf(fav) == CreateCallOf(other) {
      assert PairParams(fav)["pet_id"] == PairParams(other)["pet_id"];
      assert PairParams(fav)["user_id"] == PairParams(other)["user_id"];
    }
  }

  /** The insert names both columns, in one order or the other, and binds
      both; no `id` is sent, so the database assigns it. */
  lemma CreateStatement(fav: Favorite, stmt: Statement, columns: seq<string>)
    requires Enumerates(columns, PairParams(fav).Keys - {"id"})
    requires stmt.params == PairParams(fav)
    requires stmt.text == InsertText(FavoritesTable, columns)
    ensures columns == ["pet_id", "user_id"] || columns == ["user_id", "pet_id"]
    ensures Names(stmt.text) == columns
    ensures Bound(stmt)
  {
    FavoriteLiterals();
    assert PairParams(fav).Keys - {"id"} == NonNilKeys(PairParams(fav));
    TwoColumnOrder("pet_id", "user_id", PairParams(fav), columns);
    CreateIsBound(PairParams(fav), FavoritesTable, stmt, columns);
  }

  /** The delete as written inlines the pet and user ids and separates the
      two predicates with ",", so it has no placeholder at all. */
  lemma DeleteStatement(fav: Favorite, stmt: Statement, columns: seq<string>)
    requires ':' !in fav.petId && ':' !in fav.userId
    requires Enumerates(columns, NonNilKeys(PairParams(fav)))
    requires forall i :: 0 <= i < |columns| ==> columns[i] in PairParams(fav)
    requires stmt.text == DeleteText(FavoritesTable, columns, PairParams(fav))
    ensures stmt.text == "DELETE FROM " + FavoritesTable + " WHERE " + ("pet_id" + " = " + fav.petId) + "," + ("user_id" + " = " + fav.userId)
         || stmt.text == "DELETE FROM " + FavoritesTable + " WHERE " + ("user_id" + " = " + fav.userId) + "," + ("pet_id" + " = " + fav.petId)
    ensures Names(stmt.text) == []
  {
    FavoriteLiterals();
    DeleteInlinesValues("pet_id", "user_id", fav.petId, fav.userId, FavoritesTable, stmt, columns);
  }

  // ---------------------------------------------------------------------------
  // The effect of the writes on the table

  /** The table after the insert of a (pet, user) row with the id the
      database assigns. */
  function InsertFavorite(table: seq<FavoriteRow>, fav: Favorite, newId: string): seq<FavoriteRow>
  {
    table + [FavoriteRow(newId, fav.petId, fav.userId)]
  }

  /** The table after the delete as evidently intended: every row of the
      (pet, user) pair is gone. The delete as written is not valid SQL. */
  function RemoveFavorite(table: seq<FavoriteRow>, fav: Favorite): seq<FavoriteRow>
    decreases |table|
  {
    if table == [] then []
    else
      (if table[0].petId == fav.petId && table[0].userId == fav.userId then [] else [table[0]])
        + RemoveFavorite(table[1..], fav)
  }

  /** After the insert the pair is liked; every other pair is as before. */
  lemma InsertFavoriteLiked(table: seq<FavoriteRow>, fav: Favorite, newId: string, userId: string, petId: string)
    ensures Liked(InsertFavorite(table, fav, newId), userId, petId) <==>
      Liked(table, userId, petId) || (userId == fav.userId && petId == fav.petId)
  {
    var row := FavoriteRow(newId, fav.petId, fav.userId);
    assert forall r :: r in InsertFavorite(table, fav, newId) <==> r in table || r == row;
  }

  lemma {:induction false} RemoveFavoriteMembers(table: seq<FavoriteRow>, fav: Favorite)
    ensures forall r :: r in RemoveFavorite(table, fav) <==>
      r in table && !(r.petId == fav.petId && r.userId == fav.userId)
    decreases |table|
  {
    if table != [] {
      RemoveFavoriteMembers(table[1..], fav);
      assert forall r :: r in table <==> r == table[0] || r in table[1..];
    }
  }

  /** After the delete the pair is not liked; every other pair is as before. */
  lemma RemoveFavoriteUnliked(table: seq<FavoriteRow>, fav: Favorite, userId: string, petId: string)
    ensures Liked(RemoveFavorite(table, fav), userId, petId) <==>
      Liked(table, userId, petId) && !(userId == fav.userId && petId == fav.petId)
  {
    RemoveFavoriteMembers(table, fav);
  }
}
