/** The reservation repository: a reservation is inserted only when its date
    is a valid `yyyymmdd` text, and reservations are counted per pet. */
module ReservationRepository {
  import opened Values
  import opened Placeholders
  import opened SqlHandler
  import opened SqlHandlerProps
  import opened Domain

  const ReservationsTable := "reservations"

  // ---------------------------------------------------------------------------
  // Dates in the layout "20060102"

  /** A calendar date of the proleptic Gregorian calendar. */
  datatype Date = Date(year: nat, month: nat, day: nat)

  predicate IsLeap(year: nat)
  {
    year % 4 == 0 && (year % 100 != 0 || year % 400 == 0)
  }

  function DaysIn(year: nat, month: nat): nat
  {
    if month == 2 then (if IsLeap(year) then 29 else 28)
    else if month == 4 || month == 6 || month == 9 || month == 11 then 30
    else 31
  }

  /** A date the layout can express: a four-digit year, a month of the year
      and a day of that month. */
  predicate ValidDate(d: Date)
  {
    d.year < 10000 && 1 <= d.month <= 12 && 1 <= d.day <= DaysIn(d.year, d.month)
  }

  predicate IsDigit(c: char)
  {
    '0' <= c <= '9'
  }

  predicate AllDigits(s: string)
  {
    forall i :: 0 <= i < |s| ==> IsDigit(s[i])
  }

  /** The value of a run of decimal digits. */
  function Number(s: string): nat
    requires AllDigits(s)
    decreases |s|
  {
    if s == [] then 0 else Number(s[..|s| - 1]) * 10 + (s[|s| - 1] as int - '0' as int)
  }

  function Pow10(w: nat): nat
  {
    if w == 0 then 1 else 10 * Pow10(w - 1)
  }

  /** `n` in exactly `w` decimal digits, zero-padded on the left. */
  function Padded(n: nat, w: nat): string
  {
    if w == 0 then [] else Padded(n / 10, w - 1) + [DigitChar(n % 10)]
  }

  /** The error `time.Parse` reports for text that is not a date in the layout. */
  function ParseError(s: string): Error
  {
    Plain("parsing time \"" + s + "\" as \"20060102\"")
  }

  /** `time.Parse("20060102", s)`: exactly eight digits, a month from 01 to
      12, and a day that exists in that month of that year. */
  function ParseDate(s: string): Result<Date>
  {
    if |s| != 8 || !AllDigits(s) then Failure(ParseError(s))
    else
      var d := Date(Number(s[..4]), Number(s[4..6]), Number(s[6..]));
      if ValidDate(d) then Success(d) else Failure(ParseError(s))
  }

  /** The date in the layout "20060102". */
  function FormatDate(d: Date): string
  {
    Padded(d.year, 4) + Padded(d.month, 2) + Padded(d.day, 2)
  }

  lemma {:induction false} PaddedDigits(n: nat, w: nat)
    ensures |Padded(n, w)| == w && AllDigits(Padded(n, w))
  {
    if w > 0 {
      PaddedDigits(n / 10, w - 1);
    }
  }

  /** Reading back a padded number gives the number, when it fits. */
  lemma {:induction false} NumberOfPadded(n: nat, w: nat)
    requires n < Pow10(w)
    ensures AllDigits(Padded(n, w)) && Number(Padded(n, w)) == n
  {
    PaddedDigits(n, w);
    if w > 0 {
      var p := Padded(n, w);
      NumberOfPadded(n / 10, w - 1);
      assert p[..|p| - 1] == Padded(n / 10, w - 1);
    }
  }

  /** Padding the number a digit run spells gives the run back. */
  lemma {:induction false} PaddedOfNumber(s: string)
    requires AllDigits(s)
    ensures Padded(Number(s), |s|) == s
    decreases |s|
  {
    if s != [] {
      var init := s[..|s| - 1];
      var d := s[|s| - 1] as int - '0' as int;
      PaddedOfNumber(init);
      assert (Number(init) * 10 + d) / 10 == Number(init);
      assert (Number(init) * 10 + d) % 10 == d;
      assert s == init + [s[|s| - 1]];
    }
  }

  /** Every valid date survives formatting and parsing. */
  lemma FormatThenParse(d: Date)
    requires ValidDate(d)
    ensures ParseDate(FormatDate(d)) == Success(d)
  {
    assert Pow10(2) == 100 && Pow10(4) == 10000;
    NumberOfPadded(d.year, 4);
    NumberOfPadded(d.month, 2);
    NumberOfPadded(d.day, 2);
    FormatFields(d);
  }

  /** The formatted date is eight digits: the padded year, month and day. */
  lemma FormatFields(d: Date)
    ensures |FormatDate(d)| == 8 && AllDigits(FormatDate(d))
    ensures FormatDate(d)[..4] == Padded(d.year, 4)
    ensures FormatDate(d)[4..6] == Padded(d.month, 2)
    ensures FormatDate(d)[6..] == Padded(d.day, 2)
  {
    PaddedDigits(d.year, 4);
    PaddedDigits(d.month, 2);
    PaddedDigits(d.day, 2);
  }

  /** Every accepted text is the format of the valid date it parses to. */
  lemma ParseThenFormat(s: string)
    requires ParseDate(s).Success?
    ensures ValidDate(ParseDate(s).value)
    ensures FormatDate(ParseDate(s).value) == s
  {
    var d := ParseDate(s).value;
    PaddedOfNumber(s[..4]);
    PaddedOfNumber(s[4..6]);
    PaddedOfNumber(s[6..]);
    assert s == s[..4] + s[4..6] + s[6..];
  }

  // ---------------------------------------------------------------------------
  // Create

  /** A row of the `reservations` table. */
  datatype ReservationRow = ReservationRow(petId: string, userId: string, email: string,
                                           userName: string, reservationDate: Date)

  /** The insert map: five columns, the full name stored as `user_name`, the
      date as a time value. */
  function InsertParams(r: Reservation, date: Date): Params
  {
    map["pet_id" := Str(r.petId), "user_id" := Str(r.userId), "email" := Str(r.email),
        "user_name" := Str(r.fullName), "reservation_datetime" := Time(FormatDate(date))]
  }

  /** `Create`: the date is parsed first; a text that is not a date returns
      the parse error and makes no handler call. */
  function CreateCallOf(r: Reservation): Result<Call>
  {
    match ParseDate(r.reservationDate)
    case Failure(e) => Failure(e)
    case Success(date) => Success(CreateCall(ReservationsTable, InsertParams(r, date)))
  }

  /** The insert is made exactly when the date parses; it writes the five
      columns, `user_name` holding the full name and the stored date reading
      back as the text given; no `id` is sent. */
  lemma CreateCallShape(r: Reservation)
    ensures CreateCallOf(r).Failure? <==> ParseDate(r.reservationDate).Failure?
    ensures CreateCallOf(r).Failure? ==> CreateCallOf(r).error == ParseError(r.reservationDate)
    ensures CreateCallOf(r).Success? ==>
      var input := CreateCallOf(r).value.input;
      && input.Keys == {"pet_id", "user_id", "email", "user_name", "reservation_datetime"}
      && "id" !in input
      && input["user_name"] == Str(r.fullName)
      && input["reservation_datetime"] == Time(r.reservationDate)
  {
    if ParseDate(r.reservationDate).Success? {
      ParseThenFormat(r.reservationDate);
    }
  }

  lemma ReservationColumnNames()
    ensures ':' !in ReservationsTable
    ensures IsName("pet_id") && IsName("user_id") && IsName("email")
    ensures IsName("user_name") && IsName("reservation_datetime")
  {
  }

  /** The handler's insert for a reservation names all five columns, since
      none is `id`, and binds every placeholder. */
  lemma CreateStatement(r: Reservation, date: Date, stmt: Statement, columns: seq<string>)
    requires Enumerates(columns, InsertParams(r, date).Keys - {"id"})
    requires stmt.params == InsertParams(r, date)
    requires stmt.text == InsertText(ReservationsTable, columns)
    ensures |columns| == 5
    ensures Names(stmt.text) == columns
    ensures Bound(stmt)
  {
    var input := InsertParams(r, date);
    InsertParamsKeys(r, date);
    InsertParamsNames(r, date);
    ReservationColumnNames();
    CreateIsBound(input, ReservationsTable, stmt, columns);
    EnumerationSize(columns, input.Keys - {"id"});
  }

  lemma InsertParamsKeys(r: Reservation, date: Date)
    ensures InsertParams(r, date).Keys == {"pet_id", "user_id", "email", "user_name", "reservation_datetime"}
    ensures InsertParams(r, date).Keys - {"id"} == InsertParams(r, date).Keys
    ensures |InsertParams(r, date).Keys| == 5
  {
    ReservationKeyCount();
  }

  lemma InsertParamsNames(r: Reservation, date: Date)
    ensures forall k :: k in InsertParams(r, date) ==> IsName(k)
  {
    ReservationColumnNames();
  }

  lemma ReservationKeyCount()
    ensures |{"pet_id", "user_id", "email", "user_name", "reservation_datetime"}| == 5
  {
    var s := {"pet_id", "user_id", "email", "user_name", "reservation_datetime"};
    assert s == {"pet_id"} + {"user_id"} + {"email"} + {"user_name"} + {"reservation_datetime"};
    assert "pet_id" != "user_id" && "pet_id" != "email" && "user_id" != "email";
    assert |{"pet_id", "user_id", "email"}| == 3;
    assert "user_name" !in {"pet_id", "user_id", "email"};
    assert |{"pet_id", "user_id", "email", "user_name"}| == 4;
  }

  /** The table after a successful insert. */
  function InsertReservation(table: seq<ReservationRow>, r: Reservation, date: Date): seq<ReservationRow>
  {
    table + [ReservationRow(r.petId, r.userId, r.email, r.fullName, date)]
  }

  // ---------------------------------------------------------------------------
  // GetCountByPetID

  /** The count of a pet's reservations: `pet_id = :pet_id` on `reservations`. */
  function CountCallOf(petId: string): Call
  {
    CountCall(ReservationsTable, Assignment("pet_id"), map["pet_id" := Str(petId)])
  }

  /** The count statement is keyed by `pet_id`, bound to the pet's id. */
  lemma CountCallIsBound(petId: string)
    ensures var call := CountCallOf(petId);
      && call.clause == "pet_id = :pet_id"
      && Count(call.table, call.clause, call.args).text == "SELECT COUNT(*) FROM " + ReservationsTable + " WHERE " + call.clause
      && Names(Count(call.table, call.clause, call.args).text) == ["pet_id"]
      && Bound(Count(call.table, call.clause, call.args))
      && call.args["pet_id"] == Str(petId)
  {
    ReservationColumnNames();
    assert Assignment("pet_id") == "pet_id = :pet_id";
    KeyedCountIsBound(ReservationsTable, "pet_id", Str(petId));
  }

  /** The number of rows the count statement admits. */
  function CountOf(table: seq<ReservationRow>, petId: string): nat
    decreases |table|
  {
    if table == [] then 0
    else (if table[0].petId == petId then 1 else 0) + CountOf(table[1..], petId)
  }

  /** `GetCountByPetID`: the count on success; on failure the error, with the
      count left at zero. */
  function GetCountByPetId(table: seq<ReservationRow>, petId: string, fault: Option<Error>): (int, Option<Error>)
  {
    match fault
    case Some(e) => (0, Some(e))
    case None => (CountOf(table, petId), None)
  }

  lemma {:induction false} CountOfAppend(table: seq<ReservationRow>, row: ReservationRow, petId: string)
    ensures CountOf(table + [row], petId) == CountOf(table, petId) + (if row.petId == petId then 1 else 0)
    decreases |table|
  {
    if table != [] {
      assert (table + [row])[1..] == table[1..] + [row];
      CountOfAppend(table[1..], row, petId);
    }
  }

  /** A successful insert raises the reserved pet's count by one and leaves
      every other pet's count as it was. */
  lemma InsertCounts(table: seq<ReservationRow>, r: Reservation, date: Date, petId: string)
    ensures GetCountByPetId(InsertReservation(table, r, date), petId, None).0
      == GetCountByPetId(table, petId, None).0 + (if petId == r.petId then 1 else 0)
  {
    CountOfAppend(table, ReservationRow(r.petId, r.userId, r.email, r.fullName, date), petId);
  }
}
