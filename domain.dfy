/** The domain entities the use cases exchange. They are plain records. */
module Domain {
  import opened Values

  datatype Shop = Shop(name: string, location: string)

  /** A pet as the use cases see it. Timestamps are kept as text. */
  datatype Pet = Pet(
    id: string,
    name: string,
    breed: string,
    gender: string,
    price: real,
    imageUrl: Option<string>,
    likes: Int64,
    shop: Shop,
    birthDate: Option<string>,
    referenceNumber: string,
    tags: seq<string>,
    reservationCount: int)

  /** Go's zero `Pet`. */
  function ZeroPet(): Pet
  {
    Pet("", "", "", "", 0.0, None, 0, Shop("", ""), None, "", [], 0)
  }

  /** The sparse search filter; an empty string or a zero price means "any". */
  datatype PetFilter = PetFilter(
    id: string,
    name: string,
    breed: string,
    gender: string,
    price: real,
    referenceNumber: string)

  datatype Favorite = Favorite(id: string, petId: string, userId: string, value: bool)

  /** A like or unlike request: `value` is true for a like. */
  datatype LikeRequest = LikeRequest(petId: string, userId: string, value: bool)

  datatype Reservation = Reservation(
    petId: string,
    userId: string,
    email: string,
    fullName: string,
    reservationDate: string)

  datatype Notification = Notification(
    id: int,
    title: string,
    description: string,
    category: string,
    unread: bool,
    createdAt: string,
    updatedAt: string)

  datatype NotificationCount = NotificationCount(data: int)

  datatype Item = Item(
    id: int,
    title: string,
    name: string,
    favorite: bool,
    img: string,
    createdAt: string,
    updatedAt: string)

  function ZeroItem(): Item
  {
    Item(0, "", "", false, "", "", "")
  }

  /** The body the item endpoints answer with. */
  datatype Response = Response(code: int, message: string)
}
