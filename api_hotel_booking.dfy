/** php/api/hotel-booking.php: the login and method guards, the nights and
    total-price computation, and the arguments bookHotel receives. Instants
    are seconds counted from day 0 of the calendar; `now` is the current
    instant (DateTime's default time). */
module HotelBookingApi {
  import opened Common
  import opened Json
  import opened PhpValues
  import opened Config
  import opened Calendar
  import opened Functions

  const SecondsPerDay: nat := 86400

  /** `$data[$key]`, null when the key is missing. */
  function Arg(data: Body, key: string): Json {
    Lookup(data, key).GetOr(JNull)
  }

  /** `new DateTime(convertDateToMySQL($v))`: the current instant for an
      empty date (convertDateToMySQL gives null), midnight of the converted
      day otherwise; `None` when the constructor throws (an unreadable date)
      or explode() rejects an array. */
  function DateTimeOf(v: Json, now: int): (r: Option<int>)
    ensures Empty(Some(v)) ==> r == Some(now)
    ensures r.Some? && r.value != now ==> r.value % SecondsPerDay == 0
  {
    if Empty(Some(v)) then Some(now)
    else
      match PhpString(v)
      case None => None
      case Some(s) =>
        match ConvertDateToMySQL(s)
        case None => Some(now)
        case Some(iso) =>
          match ParseIsoDate(iso)
          case None => None
          case Some(day) => MidnightIsWholeDays(day); Some(day * SecondsPerDay)
  }

  lemma MidnightIsWholeDays(day: int)
    ensures (day * SecondsPerDay) % SecondsPerDay == 0
  {
  }

  /** `$checkOut->diff($checkIn)->days`: the whole days between two instants,
      in either order. */
  function DaysBetween(a: int, b: int): (n: nat)
    ensures n * SecondsPerDay <= (if a <= b then b - a else a - b) < (n + 1) * SecondsPerDay
  {
    if a <= b then (b - a) / SecondsPerDay else (a - b) / SecondsPerDay
  }

  /** The number of nights, or `None` when either DateTime throws. */
  function Nights(data: Body, now: int): Option<nat> {
    match (DateTimeOf(Arg(data, "checkInDate"), now), DateTimeOf(Arg(data, "checkOutDate"), now))
    case (Some(checkIn), Some(checkOut)) => Some(DaysBetween(checkOut, checkIn))
    case _ => None
  }

  /** `$data['numRooms'] * $data['pricePerNight'] * $nights`. */
  function TotalPrice(data: Body, nights: nat): Operand {
    Times(Times(ToOperand(Arg(data, "numRooms")), ToOperand(Arg(data, "pricePerNight"))), Int(nights))
  }

  datatype HotelBookingStep =
    | Stop(halt: Halt)
    | CallBookHotel(hotelId: Json, userPhone: string, checkInDate: Json, checkOutDate: Json, numRooms: Json,
                    pricePerNight: Json, totalPrice: int, guests: Json)

  function BookHotelRequest(session: Session, requestMethod: string, data: Body, now: int): (r: HotelBookingStep)
    ensures !IsLoggedIn(session) ==> r == Stop(Redirected("login.php"))
    ensures IsLoggedIn(session) && requestMethod != "POST" ==> r == Stop(SendError("Invalid request method", 405))
    ensures r.CallBookHotel? <==>
      IsLoggedIn(session) && requestMethod == "POST" && Nights(data, now).Some? &&
      TotalPrice(data, Nights(data, now).value).Int?
    ensures r == Stop(Fatal) <==>
      IsLoggedIn(session) && requestMethod == "POST" &&
      (Nights(data, now).None? || !TotalPrice(data, Nights(data, now).value).Int?)
    ensures r.CallBookHotel? ==>
      r.userPhone == session.value.phone &&
      ToOperand(Arg(data, "numRooms")).Int? && ToOperand(Arg(data, "pricePerNight")).Int? &&
      r.totalPrice == ToOperand(Arg(data, "numRooms")).n * ToOperand(Arg(data, "pricePerNight")).n * Nights(data, now).value &&
      r.hotelId == Arg(data, "hotelId") && r.checkInDate == Arg(data, "checkInDate") && r.checkOutDate == Arg(data, "checkOutDate") &&
      r.numRooms == Arg(data, "numRooms") && r.pricePerNight == Arg(data, "pricePerNight") && r.guests == Arg(data, "guests")
  {
    if !IsLoggedIn(session) then Stop(Redirected("login.php"))
    else if requestMethod != "POST" then Stop(SendError("Invalid request method", 405))
    else
      match Nights(data, now)
      case None => Stop(Fatal)
      case Some(nights) =>
        match TotalPrice(data, nights)
        case Int(total) =>
          CallBookHotel(Arg(data, "hotelId"), session.value.phone, Arg(data, "checkInDate"), Arg(data, "checkOutDate"),
                        Arg(data, "numRooms"), Arg(data, "pricePerNight"), total, Arg(data, "guests"))
        case _ => Stop(Fatal)  // an array or a non-numeric string throws a TypeError
  }

  /** For two valid MM-DD-YYYY dates (naming days ci and co) the nights are
      the distance between those days, whichever comes first. */
  lemma NightsOfValidDates(data: Body, now: int, checkIn: string, checkOut: string,
                           yi: int, mi: int, di: int, yo: int, mo: int, do: int)
    requires |checkIn| == 10 && mi == FieldValue(checkIn[..2]) && di == FieldValue(checkIn[3..5]) && yi == FieldValue(checkIn[6..])
    requires |checkOut| == 10 && mo == FieldValue(checkOut[..2]) && do == FieldValue(checkOut[3..5]) && yo == FieldValue(checkOut[6..])
    requires ValidateDateFormat(checkIn) && ValidateDateFormat(checkOut)
    requires Arg(data, "checkInDate") == JStr(checkIn) && Arg(data, "checkOutDate") == JStr(checkOut)
    ensures yi >= 1 && 1 <= mi <= 12 && yo >= 1 && 1 <= mo <= 12
    ensures var ci, co := DayNumber(yi, mi, di), DayNumber(yo, mo, do);
      Nights(data, now) == Some(if ci <= co then co - ci else ci - co)
  {
    ValidDateInstant(checkIn, now, yi, mi, di);
    ValidDateInstant(checkOut, now, yo, mo, do);
    DaysBetweenMidnights(DayNumber(yo, mo, do), DayNumber(yi, mi, di));
  }

  /** A valid MM-DD-YYYY date becomes midnight of the day its fields name. */
  lemma ValidDateInstant(date: string, now: int, y: int, m: int, d: int)
    requires |date| == 10 && m == FieldValue(date[..2]) && d == FieldValue(date[3..5]) && y == FieldValue(date[6..])
    requires ValidateDateFormat(date)
    ensures y >= 1 && 1 <= m <= 12
    ensures DateTimeOf(JStr(date), now) == Some(DayNumber(y, m, d) * SecondsPerDay)
  {
    DateShape(date);
    ConvertedDateDay(date);
    assert FieldValue(date[..2]) == DigitsValue(date[..2]);
    assert FieldValue(date[3..5]) == DigitsValue(date[3..5]);
    assert FieldValue(date[6..]) == DigitsValue(date[6..]);
    assert !Empty(Some(JStr(date))) by {
      assert date != "" && date != "0";
    }
  }

  /** Between two midnights the whole days are the difference of the days. */
  lemma DaysBetweenMidnights(x: int, y: int)
    ensures DaysBetween(x * SecondsPerDay, y * SecondsPerDay) == if x <= y then y - x else x - y
  {
    var d := if x <= y then y - x else x - y;
    var n := DaysBetween(x * SecondsPerDay, y * SecondsPerDay);
    assert (if x * SecondsPerDay <= y * SecondsPerDay then y * SecondsPerDay - x * SecondsPerDay
            else x * SecondsPerDay - y * SecondsPerDay) == d * SecondsPerDay;
  }

  /** Check-in and check-out on the same date cost nothing. */
  lemma SameDayCostsNothing(session: Session, requestMethod: string, data: Body, now: int)
    requires Arg(data, "checkInDate") == Arg(data, "checkOutDate")
    requires BookHotelRequest(session, requestMethod, data, now).CallBookHotel?
    ensures BookHotelRequest(session, requestMethod, data, now).totalPrice == 0
  {
    var t := DateTimeOf(Arg(data, "checkInDate"), now);
    assert Nights(data, now) == Some(DaysBetween(t.value, t.value));
  }

  /** A phone sent in the request body has no effect: the booking is always
      made for the session user. */
  lemma BodyPhoneIgnored(session: Session, requestMethod: string, data: Body, now: int, phone: Json)
    ensures BookHotelRequest(session, requestMethod, data["userPhone" := phone]["phone" := phone], now) ==
            BookHotelRequest(session, requestMethod, data, now)
  {
    var data' := data["userPhone" := phone]["phone" := phone];
    OtherArgsKept(data, phone, "checkInDate");
    OtherArgsKept(data, phone, "checkOutDate");
    OtherArgsKept(data, phone, "numRooms");
    OtherArgsKept(data, phone, "pricePerNight");
    OtherArgsKept(data, phone, "hotelId");
    OtherArgsKept(data, phone, "guests");
    assert Nights(data', now) == Nights(data, now);
  }

  lemma OtherArgsKept(data: Body, phone: Json, k: string)
    requires k != "phone" && k != "userPhone"
    ensures Arg(data["userPhone" := phone]["phone" := phone], k) == Arg(data, k)
  {
  }
}
