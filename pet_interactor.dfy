/** The pet use cases: the search with each pet's reservation count, the
    like toggle that updates the pet's counter and then the favourites
    table, and the reservation insert. The three tables are fields of the
    interactor; which repository calls fail, and with what error, is given
    by a map of faults. Every failure is tagged with a message code and
    keeps the repository's error as its cause. */
module PetInteractor {
  import opened Values
  import opened Domain
  import opened PetRepository
  import opened FavoriteRepository
  import opened ReservationRepository
  import Messages
  import BusinessErrors

  const SelectErrorCode := "10001E"
  const AlreadyLikedCode := "00001I"
  const UpdateErrorCode := "10003E"
  const CreateFavoriteErrorCode := "10004E"
  const DeleteFavoriteErrorCode := "10005E"

  /** The repository calls the use cases make. */
  datatype Step =
    | FindFavorites
    | FindPets
    | UpdatePet
    | CreateFavorite
    | DeleteFavorite
    | CountReservations(petId: string)
    | CreateReservationRow

  /** The three tables. */
  datatype Db = Db(favorites: seq<FavoriteRow>, pets: seq<PetRow>, reservations: seq<ReservationRow>)

  function Fault(faults: map<Step, Error>, s: Step): Option<Error>
  {
    if s in faults then Some(faults[s]) else None
  }

  /** A search result as a `Pet`, with the reservation count given. */
  function PetOf(row: PetRow, reservationCount: int): Pet
  {
    Pet(row.id, row.name, row.breed, row.gender, row.price, row.imageUrl, row.likes,
        Shop(row.shopName, row.shopLocation), row.birthDate, row.referenceNumber, row.tags,
        reservationCount)
  }

  /** The field-by-field copy of a row into a pet, the shop filled in by
      hand; the reservation count has no column and is kept. */
  function CopyRow(pet: Pet, row: PetRow): Pet
  {
    PetOf(row, pet.reservationCount)
  }

  /** `pet` after the copy loop has run over `rows`: each row with the id
      asked for is copied over it in turn. */
  function CopyMatches(pet: Pet, rows: seq<PetRow>, petId: string): Pet
    decreases |rows|
  {
    if rows == [] then pet
    else
      var before := CopyMatches(pet, rows[..|rows| - 1], petId);
      if rows[|rows| - 1].id == petId then CopyRow(before, rows[|rows| - 1]) else before
  }

  /** The count a pet is shown with: the repository's count, or zero when the
      count fails. */
  function ShownCount(reservations: seq<ReservationRow>, faults: map<Step, Error>, petId: string): int
  {
    var (count, err) := GetCountByPetId(reservations, petId, Fault(faults, CountReservations(petId)));
    if err.Some? then 0 else count
  }

  /** +1 for a like, -1 for an unlike. */
  function Delta(value: bool): int
  {
    if value then 1 else -1
  }

  /** The pet the like toggle writes back: the copied pet with its counter
      moved, wrapping around as a 64-bit Go `int` does. */
  function LikedPet(pets: seq<PetRow>, petId: string, value: bool): Pet
  {
    var pet := CopyMatches(ZeroPet(), FindRows(pets, Some(IdFilter(petId))), petId);
    pet.(likes := WrapInt64(pet.likes + Delta(value)))
  }

  /** The like toggle, step by step: its error and the tables afterwards. */
  function LikeOutcome(db: Db, faults: map<Step, Error>, req: LikeRequest, now: string, newId: string): (Option<Error>, Db)
  {
    if FindFavorites in faults then (Some(Converted(SelectErrorCode, Some(faults[FindFavorites]))), db)
    else if RecordedValue(FavMap(UserRows(db.favorites, req.userId)), req.petId) == req.value then
      (Some(Converted(AlreadyLikedCode, None)), db)
    else if FindPets in faults then (Some(Converted(SelectErrorCode, Some(faults[FindPets]))), db)
    else LikeWrites(db, faults, req, LikedPet(db.pets, req.petId, req.value), now, newId)
  }

  /** The writes of the like toggle once `pet` is known: the pet update, then
      the favourite insert for a like or the delete for an unlike. */
  function LikeWrites(db: Db, faults: map<Step, Error>, req: LikeRequest, pet: Pet, now: string, newId: string): (Option<Error>, Db)
  {
    if UpdatePet in faults then (Some(Converted(UpdateErrorCode, Some(faults[UpdatePet]))), db)
    else
      var pets := UpdateRows(db.pets, pet, now);
      var fav := Favorite("", req.petId, req.userId, req.value);
      if req.value then
        if CreateFavorite in faults then
          (Some(Converted(CreateFavoriteErrorCode, Some(faults[CreateFavorite]))), db.(pets := pets))
        else (None, db.(pets := pets, favorites := InsertFavorite(db.favorites, fav, newId)))
      else if DeleteFavorite in faults then
        (Some(Converted(DeleteFavoriteErrorCode, Some(faults[DeleteFavorite]))), db.(pets := pets))
      else (None, db.(pets := pets, favorites := RemoveFavorite(db.favorites, fav)))
  }

  /** The conversion loop of the search: each row becomes a `Pet` with its
      reservation count, zero when the count fails. */
  method ShowPets(rows: seq<PetRow>, reservations: seq<ReservationRow>, faults: map<Step, Error>)
    returns (shown: seq<Pet>)
    ensures |shown| == |rows|
    ensures forall i :: 0 <= i < |rows| ==> shown[i] == PetOf(rows[i], ShownCount(reservations, faults, rows[i].id))
  {
    shown := [];
    for i := 0 to |rows|
      invariant |shown| == i
      invariant forall j :: 0 <= j < i ==> shown[j] == PetOf(rows[j], ShownCount(reservations, faults, rows[j].id))
    {
      var (reservationCount, countErr) := GetCountByPetId(reservations, rows[i].id, Fault(faults, CountReservations(rows[i].id)));
      var count := if countErr.Some? then 0 else reservationCount;
      shown := shown + [PetOf(rows[i], count)];
    }
  }

  /** The copy loop of the like toggle: every row with the id asked for is
      copied into the pet, so the last one wins. */
  method CopyPet(rows: seq<PetRow>, petId: string) returns (pet: Pet)
    ensures pet == CopyMatches(ZeroPet(), rows, petId)
  {
    pet := ZeroPet();
    for i := 0 to |rows|
      invariant pet == CopyMatches(ZeroPet(), rows[..i], petId)
    {
      assert rows[..i + 1][..i] == rows[..i];
      if rows[i].id == petId {
        pet := CopyRow(pet, rows[i]);
      }
    }
    assert rows[..|rows|] == rows;
  }

  class PetInteractor {
    var favorites: seq<FavoriteRow>
    var pets: seq<PetRow>
    var reservations: seq<ReservationRow>
    /** The repository calls that fail, each with the error it fails with. */
    var faults: map<Step, Error>

    constructor (favorites: seq<FavoriteRow>, pets: seq<PetRow>, reservations: seq<ReservationRow>,
                 faults: map<Step, Error>)
      ensures this.favorites == favorites && this.pets == pets
      ensures this.reservations == reservations && this.faults == faults
    {
      this.favorites := favorites;
      this.pets := pets;
      this.reservations := reservations;
      this.faults := faults;
    }

    function State(): Db
      reads this
    {
      Db(favorites, pets, reservations)
    }

    /** `PetRepository.Find`: the rows the filter admits, or the fault. */
    method FindPetRows(filter: Option<PetFilter>) returns (r: Result<seq<PetRow>>)
      ensures FindPets in faults ==> r == Failure(faults[FindPets])
      ensures FindPets !in faults ==> r == Success(FindRows(pets, filter))
    {
      if FindPets in faults {
        return Failure(faults[FindPets]);
      }
      return Success(FindRows(pets, filter));
    }

    /** `GetPets`: the search, each result shown with its reservation count,
        zero when that count fails; a failed search is tagged 10001E. */
    method GetPets(filter: Option<PetFilter>) returns (r: Result<seq<Pet>>)
      ensures FindPets in faults ==> r == Failure(Converted(SelectErrorCode, Some(faults[FindPets])))
      ensures FindPets !in faults ==> r.Success? && |r.value| == |FindRows(pets, filter)|
      ensures FindPets !in faults ==> forall i :: 0 <= i < |r.value| ==>
        r.value[i] == PetOf(FindRows(pets, filter)[i], ShownCount(reservations, faults, FindRows(pets, filter)[i].id))
    {
      var found := FindPetRows(filter);
      if found.Failure? {
        return Failure(Converted(SelectErrorCode, Some(found.error)));
      }
      var shown := ShowPets(found.value, reservations, faults);
      return Success(shown);
    }

    /** `UpdateLikeCount`: the like toggle, as `LikeOutcome` states it step
        by step. */
    method UpdateLikeCount(req: LikeRequest, now: string, newId: string) returns (err: Option<Error>)
      modifies this
      ensures (err, State()) == LikeOutcome(old(State()), faults, req, now, newId)
      ensures faults == old(faults)
    {
      var favMap := FindByUserId(req.userId, favorites, Fault(faults, FindFavorites));
      if favMap.Failure? {
        return Some(Converted(SelectErrorCode, Some(favMap.error)));
      }
      if RecordedValue(favMap.value, req.petId) == req.value {
        return Some(Converted(AlreadyLikedCode, None));
      }
      var found := FindPetRows(Some(IdFilter(req.petId)));
      if found.Failure? {
        return Some(Converted(SelectErrorCode, Some(found.error)));
      }
      var pet := CopyPet(found.value, req.petId);
      ghost var liked := pet.(likes := WrapInt64(pet.likes + Delta(req.value)));
      assert liked == LikedPet(pets, req.petId, req.value);
      if req.value {
        pet := pet.(likes := WrapInt64(pet.likes + 1));
      } else {
        pet := pet.(likes := WrapInt64(pet.likes - 1));
      }
      assert pet == liked;
      err := WriteLike(req, pet, now, newId);
    }

    /** The writes of the like toggle, as `LikeWrites` states them. */
    method WriteLike(req: LikeRequest, pet: Pet, now: string, newId: string) returns (err: Option<Error>)
      modifies this
      ensures (err, State()) == LikeWrites(old(State()), faults, req, pet, now, newId)
      ensures faults == old(faults)
    {
      if UpdatePet in faults {
        return Some(Converted(UpdateErrorCode, Some(faults[UpdatePet])));
      }
      pets := UpdateRows(pets, pet, now);
      if req.value {
        if CreateFavorite in faults {
          return Some(Converted(CreateFavoriteErrorCode, Some(faults[CreateFavorite])));
        }
        favorites := InsertFavorite(favorites, Favorite("", req.petId, req.userId, req.value), newId);
      } else {
        if DeleteFavorite in faults {
          return Some(Converted(DeleteFavoriteErrorCode, Some(faults[DeleteFavorite])));
        }
        favorites := RemoveFavorite(favorites, Favorite("", req.petId, req.userId, req.value));
      }
      return None;
    }

    /** `CreateReservation`: the insert, its failure tagged 10003E; a date
        that does not parse fails the same way without an insert. */
    method CreateReservation(r: Reservation) returns (err: Option<Error>)
      modifies this
      ensures favorites == old(favorites) && pets == old(pets) && faults == old(faults)
      ensures ParseDate(r.reservationDate).Failure? ==>
        err == Some(Converted(UpdateErrorCode, Some(ParseError(r.reservationDate)))) && reservations == old(reservations)
      ensures ParseDate(r.reservationDate).Success? && CreateReservationRow in faults ==>
        err == Some(Converted(UpdateErrorCode, Some(faults[CreateReservationRow]))) && reservations == old(reservations)
      ensures ParseDate(r.reservationDate).Success? && CreateReservationRow !in faults ==>
        err == None && reservations == InsertReservation(old(reservations), r, ParseDate(r.reservationDate).value)
    {
      var call := ReservationRepository.CreateCallOf(r);
      if call.Failure? {
        CreateCallShape(r);
        return Some(Converted(UpdateErrorCode, Some(call.error)));
      }
      if CreateReservationRow in faults {
        return Some(Converted(UpdateErrorCode, Some(faults[CreateReservationRow])));
      }
      reservations := InsertReservation(reservations, r, ParseDate(r.reservationDate).value);
      return None;
    }
  }

  // ---------------------------------------------------------------------------
  // Properties of the search

  /** A pet is shown with its count of reservations, or zero when the count fails. */
  lemma ShownCountOf(reservations: seq<ReservationRow>, faults: map<Step, Error>, petId: string)
    ensures CountReservations(petId) in faults ==> ShownCount(reservations, faults, petId) == 0
    ensures CountReservations(petId) !in faults ==> ShownCount(reservations, faults, petId) == CountOf(reservations, petId)
  {
  }

  // ---------------------------------------------------------------------------
  // Properties of the copy loop

  lemma {:induction false} CopyKeepsCount(pet: Pet, rows: seq<PetRow>, petId: string)
    ensures CopyMatches(pet, rows, petId).reservationCount == pet.reservationCount
    decreases |rows|
  {
    if rows != [] {
      CopyKeepsCount(pet, rows[..|rows| - 1], petId);
    }
  }

  /** With no row of the id asked for, the pet is left as it was. */
  lemma {:induction false} CopyNoMatch(pet: Pet, rows: seq<PetRow>, petId: string)
    requires forall r :: r in rows ==> r.id != petId
    ensures CopyMatches(pet, rows, petId) == pet
    decreases |rows|
  {
    if rows != [] {
      assert rows[|rows| - 1] in rows;
      CopyNoMatch(pet, rows[..|rows| - 1], petId);
    }
  }

  /** When every row is the same row with the id asked for, the pet is that
      row's copy. */
  lemma {:induction false} CopySingleRow(pet: Pet, rows: seq<PetRow>, row: PetRow)
    requires rows != [] && forall r :: r in rows ==> r == row
    ensures CopyMatches(pet, rows, row.id) == CopyRow(pet, row)
    decreases |rows|
  {
    var init := rows[..|rows| - 1];
    assert rows[|rows| - 1] in rows;
    if init != [] {
      assert rows == init + [rows[|rows| - 1]];
      assert forall r :: r in init ==> r in rows;
      CopySingleRow(pet, init, row);
    }
  }

  // ---------------------------------------------------------------------------
  // Properties of the like toggle

  predicate UniqueIds(pets: seq<PetRow>)
  {
    forall i, j :: 0 <= i < |pets| && 0 <= j < |pets| && pets[i].id == pets[j].id ==> i == j
  }

  /** A failed favourites lookup or pet search is tagged 10001E, and a like
      of a liked pet or an unlike of a pet not liked is answered 00001I (with
      no cause); none of them changes a table. Without a lookup error the
      toggle is refused exactly when it would change nothing. */
  lemma LikeRefusals(db: Db, faults: map<Step, Error>, req: LikeRequest, now: string, newId: string)
    ensures FindFavorites in faults ==>
      LikeOutcome(db, faults, req, now, newId) == (Some(Converted(SelectErrorCode, Some(faults[FindFavorites]))), db)
    ensures FindFavorites !in faults ==>
      ((LikeOutcome(db, faults, req, now, newId) == (Some(Converted(AlreadyLikedCode, None)), db))
        <==> (Liked(db.favorites, req.userId, req.petId) == req.value))
    ensures FindFavorites !in faults && Liked(db.favorites, req.userId, req.petId) != req.value && FindPets in faults ==>
      LikeOutcome(db, faults, req, now, newId) == (Some(Converted(SelectErrorCode, Some(faults[FindPets]))), db)
  {
    RecordedValueIsLiked(db.favorites, req.userId, req.petId);
  }

  /** A failed pet update is tagged 10003E and changes nothing; a failed
      favourite insert or delete is tagged 10004E or 10005E and leaves the
      favourites as they were, but the pet's counter has already moved. */
  lemma LikeWriteFailures(db: Db, faults: map<Step, Error>, req: LikeRequest, now: string, newId: string)
    requires FindFavorites !in faults && FindPets !in faults
    requires Liked(db.favorites, req.userId, req.petId) != req.value
    ensures UpdatePet in faults ==>
      LikeOutcome(db, faults, req, now, newId) == (Some(Converted(UpdateErrorCode, Some(faults[UpdatePet]))), db)
    ensures UpdatePet !in faults && req.value && CreateFavorite in faults ==>
      LikeOutcome(db, faults, req, now, newId) ==
        (Some(Converted(CreateFavoriteErrorCode, Some(faults[CreateFavorite]))),
         db.(pets := UpdateRows(db.pets, LikedPet(db.pets, req.petId, req.value), now)))
    ensures UpdatePet !in faults && !req.value && DeleteFavorite in faults ==>
      LikeOutcome(db, faults, req, now, newId) ==
        (Some(Converted(DeleteFavoriteErrorCode, Some(faults[DeleteFavorite]))),
         db.(pets := UpdateRows(db.pets, LikedPet(db.pets, req.petId, req.value), now)))
  {
    RecordedValueIsLiked(db.favorites, req.userId, req.petId);
  }

  /** A toggle that goes through leaves the pair liked exactly as asked,
      every other pair as it was, and the reservations untouched. */
  lemma LikeSuccess(db: Db, faults: map<Step, Error>, req: LikeRequest, now: string, newId: string,
                    userId: string, petId: string)
    requires LikeOutcome(db, faults, req, now, newId).0.None?
    ensures var after := LikeOutcome(db, faults, req, now, newId).1;
      && Liked(after.favorites, req.userId, req.petId) == req.value
      && ((userId, petId) != (req.userId, req.petId) ==>
            Liked(after.favorites, userId, petId) == Liked(db.favorites, userId, petId))
      && after.pets == UpdateRows(db.pets, LikedPet(db.pets, req.petId, req.value), now)
      && after.reservations == db.reservations
  {
    var fav := Favorite("", req.petId, req.userId, req.value);
    if req.value {
      InsertFavoriteLiked(db.favorites, fav, newId, req.userId, req.petId);
      InsertFavoriteLiked(db.favorites, fav, newId, userId, petId);
    } else {
      RemoveFavoriteUnliked(db.favorites, fav, req.userId, req.petId);
      RemoveFavoriteUnliked(db.favorites, fav, userId, petId);
    }
  }

  /** The toggle never touches the reservations, and it touches the pets only
      through the update of the liked pet. */
  lemma LikeKeepsReservations(db: Db, faults: map<Step, Error>, req: LikeRequest, now: string, newId: string)
    ensures LikeOutcome(db, faults, req, now, newId).1.reservations == db.reservations
    ensures var pets := LikeOutcome(db, faults, req, now, newId).1.pets;
      pets == db.pets || pets == UpdateRows(db.pets, LikedPet(db.pets, req.petId, req.value), now)
  {
  }

  /** For a pet that exists under a unique id, the pet written back is that
      row with its likes moved by one, wrapping around at the ends of the
      64-bit range: the pet's row gains or loses one like and every other row
      is kept. */
  lemma LikeMovesCounter(pets: seq<PetRow>, req: LikeRequest, now: string, k: int)
    requires UniqueIds(pets) && 0 <= k < |pets| && pets[k].id == req.petId && req.petId != ""
    ensures LikedPet(pets, req.petId, req.value) == PetOf(pets[k], 0).(likes := WrapInt64(pets[k].likes + Delta(req.value)))
    ensures |UpdateRows(pets, LikedPet(pets, req.petId, req.value), now)| == |pets|
    ensures UpdateRows(pets, LikedPet(pets, req.petId, req.value), now)[k].likes == WrapInt64(pets[k].likes + Delta(req.value))
    ensures forall i :: 0 <= i < |pets| && i != k ==>
      UpdateRows(pets, LikedPet(pets, req.petId, req.value), now)[i] == pets[i]
  {
    var rows := FindRows(pets, Some(IdFilter(req.petId)));
    FindByIdRows(pets, req.petId);
    assert pets[k] in rows;
    forall r | r in rows ensures r == pets[k] {
      var j :| 0 <= j < |pets| && pets[j] == r;
    }
    CopySingleRow(ZeroPet(), rows, pets[k]);
  }

  /** The counter written back is the stored one plus or minus one, except
      at the ends of the 64-bit range: a like of a pet at the largest `int`
      writes the smallest, and an unlike of a pet at the smallest writes the
      largest. */
  lemma LikeCounterWraps(pets: seq<PetRow>, req: LikeRequest, now: string, k: int)
    requires UniqueIds(pets) && 0 <= k < |pets| && pets[k].id == req.petId && req.petId != ""
    ensures var likes := UpdateRows(pets, LikedPet(pets, req.petId, req.value), now)[k].likes;
      if req.value then
        likes == (if pets[k].likes == MaxInt64 then MinInt64 else pets[k].likes + 1)
      else
        likes == (if pets[k].likes == MinInt64 then MaxInt64 else pets[k].likes - 1)
  {
    LikeMovesCounter(pets, req, now, k);
    WrapStep(pets[k].likes);
  }

  /** For a pet that does not exist, the zero pet is written back with one
      like or minus one: its id is empty, so the update is keyed by `id = ""`
      and, when no row has an empty id, changes no row. */
  lemma LikeOfMissingPet(pets: seq<PetRow>, req: LikeRequest, now: string)
    requires forall r :: r in pets ==> r.id != req.petId
    ensures LikedPet(pets, req.petId, req.value) == ZeroPet().(likes := Delta(req.value))
    ensures UpdateCallOf(LikedPet(pets, req.petId, req.value), now).whereParams == map["id" := Str("")]
    ensures (forall r :: r in pets ==> r.id != "") ==> UpdateRows(pets, LikedPet(pets, req.petId, req.value), now) == pets
  {
    var rows := FindRows(pets, Some(IdFilter(req.petId)));
    FindByIdRows(pets, req.petId);
    CopyNoMatch(ZeroPet(), rows, req.petId);
    var liked := LikedPet(pets, req.petId, req.value);
    if forall r :: r in pets ==> r.id != "" {
      assert UpdateRows(pets, liked, now) == pets by {
        forall i | 0 <= i < |pets| ensures pets[i].id != liked.id {
          assert pets[i] in pets;
        }
      }
    }
  }

  /** A toggle repeated after it went through is refused with 00001I and
      changes nothing, so the counter moves only once. */
  lemma LikeTwiceRefused(db: Db, faults: map<Step, Error>, req: LikeRequest, now: string, newId: string,
                         now2: string, newId2: string)
    requires LikeOutcome(db, faults, req, now, newId).0.None?
    ensures var after := LikeOutcome(db, faults, req, now, newId).1;
      LikeOutcome(after, faults, req, now2, newId2) == (Some(Converted(AlreadyLikedCode, None)), after)
  {
    var after := LikeOutcome(db, faults, req, now, newId).1;
    LikeSuccess(db, faults, req, now, newId, req.userId, req.petId);
    LikeRefusals(after, faults, req, now2, newId2);
  }

  /** The pet update keeps the table's length and every row's id. */
  lemma UpdateRowsKeepsIds(pets: seq<PetRow>, pet: Pet, now: string)
    ensures |UpdateRows(pets, pet, now)| == |pets|
    ensures forall i :: 0 <= i < |pets| ==> UpdateRows(pets, pet, now)[i].id == pets[i].id
  {
  }

  /** A like followed by an unlike of the same pet, both going through,
      restores every pair's liked state and the pet's counter, and leaves
      every other row and the reservations as they were. The unlike goes
      through only with the delete as evidently intended. */
  lemma LikeThenUnlike(db: Db, faults: map<Step, Error>, req: LikeRequest, now: string, newId: string,
                       now2: string, newId2: string, k: int)
    requires req.value && req.petId != ""
    requires UniqueIds(db.pets) && 0 <= k < |db.pets| && db.pets[k].id == req.petId
    requires LikeOutcome(db, faults, req, now, newId).0.None?
    requires LikeOutcome(LikeOutcome(db, faults, req, now, newId).1, faults, req.(value := false), now2, newId2).0.None?
    ensures var final := LikeOutcome(LikeOutcome(db, faults, req, now, newId).1, faults, req.(value := false), now2, newId2).1;
      && (forall userId, petId :: Liked(final.favorites, userId, petId) == Liked(db.favorites, userId, petId))
      && |final.pets| == |db.pets|
      && final.pets[k].likes == db.pets[k].likes
      && (forall i :: 0 <= i < |db.pets| && i != k ==> final.pets[i] == db.pets[i])
      && final.reservations == db.reservations
  {
    var unlike := req.(value := false);
    var after := LikeOutcome(db, faults, req, now, newId).1;
    var final := LikeOutcome(after, faults, unlike, now2, newId2).1;
    LikeRefusals(db, faults, req, now, newId);
    forall userId, petId
      ensures Liked(final.favorites, userId, petId) == Liked(db.favorites, userId, petId)
    {
      LikeSuccess(db, faults, req, now, newId, userId, petId);
      LikeSuccess(after, faults, unlike, now2, newId2, userId, petId);
    }
    LikeSuccess(db, faults, req, now, newId, req.userId, req.petId);
    LikeSuccess(after, faults, unlike, now2, newId2, req.userId, req.petId);
    RowsAfterLikeThenUnlike(db.pets, req.petId, now, now2, k);
  }

  /** The pet rows after a like and then an unlike of the pet at `k`: the
      counter is back where it started, wrap-around included, and every
      other row is as it was. */
  lemma RowsAfterLikeThenUnlike(pets: seq<PetRow>, petId: string, now: string, now2: string, k: int)
    requires UniqueIds(pets) && 0 <= k < |pets| && pets[k].id == petId && petId != ""
    ensures var mid := UpdateRows(pets, LikedPet(pets, petId, true), now);
      var end := UpdateRows(mid, LikedPet(mid, petId, false), now2);
      && |end| == |pets|
      && end[k].likes == pets[k].likes
      && (forall i :: 0 <= i < |pets| && i != k ==> end[i] == pets[i])
  {
    var like := LikeRequest(petId, "", true);
    var mid := UpdateRows(pets, LikedPet(pets, petId, true), now);
    var end := UpdateRows(mid, LikedPet(mid, petId, false), now2);
    LikeMovesCounter(pets, like, now, k);
    UpdateRowsKeepsIds(pets, LikedPet(pets, petId, true), now);
    assert UniqueIds(mid);
    LikeMovesCounter(mid, like.(value := false), now2, k);
    assert end[k].likes == pets[k].likes by {
      WrapStep(pets[k].likes);
    }
    forall i | 0 <= i < |pets| && i != k
      ensures end[i] == pets[i]
    {
      assert mid[i] == pets[i];
    }
  }

  /** The errors a failed favourite insert or delete leaves the toggle with
      are tagged 10004E and 10005E. On the reading that a tagged error's text
      is its code (an assumption about the conversion helper, which is not
      part of this model), they pass the code check but are not in the
      message table, so the reply as written panics, where the intended
      reply is the unhandled-error one. */
  lemma LikeWriteErrorPanicsAsWritten(db: Db, faults: map<Step, Error>, req: LikeRequest, now: string, newId: string,
                                      lang: string)
    requires FindFavorites !in faults && FindPets !in faults && UpdatePet !in faults
    requires Liked(db.favorites, req.userId, req.petId) != req.value
    requires if req.value then CreateFavorite in faults else DeleteFavorite in faults
    ensures LikeOutcome(db, faults, req, now, newId).0.Some?
    ensures Messages.GetErrorMassageAsWritten(lang, LikeOutcome(db, faults, req, now, newId).0.value).Panicked?
    ensures Messages.GetErrorMassage(lang, LikeOutcome(db, faults, req, now, newId).0.value) == Messages.UnhandledReply
  {
    LikeWriteFailures(db, faults, req, now, newId);
    Messages.UnknownCodePanics();
  }

  /** The other reading: the toggle's error is a business error built from
      its code, whose text is the English message of the code's definition,
      or `internal error` for a code missing from the table. A code missing
      from the table, or one whose English message holds no code, then gets
      the unhandled-error reply with status 500 from the reply as written,
      the 00001I refusal included, and nothing panics. */
  lemma LikeErrorReplyAsBusinessError(db: Db, faults: map<Step, Error>, req: LikeRequest, now: string, newId: string,
                                      messages: map<string, BusinessErrors.MessageDef>, lang: string)
    requires LikeOutcome(db, faults, req, now, newId).0.Some?
    ensures var e := LikeOutcome(db, faults, req, now, newId).0.value;
      e.Converted? && e.code in {SelectErrorCode, AlreadyLikedCode, UpdateErrorCode, CreateFavoriteErrorCode, DeleteFavoriteErrorCode}
    ensures var e := LikeOutcome(db, faults, req, now, newId).0.value;
      var text := BusinessErrors.ErrorText(BusinessErrors.NewBusinessError(messages, e.code, e.cause));
      e.code !in messages ==>
        text == "internal error" && Messages.GetErrorMassageAsWritten(lang, Plain(text)) == Messages.Replied(Messages.UnhandledReply)
    ensures var e := LikeOutcome(db, faults, req, now, newId).0.value;
      var text := BusinessErrors.ErrorText(BusinessErrors.NewBusinessError(messages, e.code, e.cause));
      e.code in messages && "en" in messages[e.code].message && !Messages.ContainsCode(messages[e.code].message["en"]) ==>
        Messages.GetErrorMassageAsWritten(lang, Plain(text)) == Messages.Replied(Messages.UnhandledReply)
  {
    InternalErrorHasNoCode();
  }

  /** The fallback text of a business error holds no message code. */
  lemma InternalErrorHasNoCode()
    ensures !Messages.ContainsCode("internal error")
  {
    Messages.NoDigitNoCode("internal error");
  }
}
