/** server.js: the Node variant of the backend. Its "database" is a set of
    files the handlers read, change in memory and write back: users.json and
    bookings.json (arrays of objects), flights.json (an object holding a
    `flights` array), and hotels.xml and cars.xml, whose <hotel> and <car>
    elements are modelled as maps from a child tag to the text of its first
    such child. The clock and Math.random are parameters. */
module NodeServer {
  import opened Common
  import opened Json
  import opened JsValues

  type JsObject = map<string, Json>

  /** An XML element as the handlers see it: child tag name to text content
      of the first child with that tag. */
  type XmlElement = map<string, string>

  const AdminPhoneValue: Json := JStr("222-222-2222")

  /** The text of an element's first `tag` child, as `?.textContent` reads it. */
  function ChildText(e: XmlElement, tag: string): (r: JsValue)
    ensures r.Some? <==> tag in e
    ensures r.Some? ==> r.value == JStr(e[tag])
  {
    if tag in e then Some(JStr(e[tag])) else None
  }

  // ---------------------------------------------------------------------
  // POST /api/users/register and /api/users/login
  // ---------------------------------------------------------------------

  const UserFields: set<string> := {"phone", "password", "firstName", "lastName", "dateOfBirth", "email", "gender"}

  /** `{ phone, password, ... , gender }` as JSON.stringify writes it: the
      seven fields the body has; an absent field is left out. */
  function NewUser(body: JsObject): (u: JsObject)
    ensures forall k :: k in u <==> k in body && k in UserFields
    ensures forall k :: k in u ==> u[k] == body[k]
  {
    map k | k in body.Keys && k in UserFields :: body[k]
  }

  /** Whether some stored user's phone is `===` to the given one. */
  predicate PhoneTaken(users: seq<JsObject>, phone: JsValue) {
    exists i :: 0 <= i < |users| && StrictEquals(Field(users[i], "phone"), phone)
  }

  /** The register handler's two checks, in order. */
  function NodeRegisterError(users: seq<JsObject>, body: JsObject): (err: Option<string>)
    ensures err == Some("This phone number is reserved for system administrators") <==>
      Field(body, "phone") == Some(AdminPhoneValue)
    ensures err == Some("Phone number already registered") <==>
      Field(body, "phone") != Some(AdminPhoneValue) && PhoneTaken(users, Field(body, "phone"))
    ensures err.None? <==> Field(body, "phone") != Some(AdminPhoneValue) && !PhoneTaken(users, Field(body, "phone"))
  {
    var phone := Field(body, "phone");
    StrictEqualsString(phone, "222-222-2222");
    if StrictEquals(phone, Some(AdminPhoneValue)) then Some("This phone number is reserved for system administrators")
    else if SomeUserHasPhone(users, phone) then Some("Phone number already registered")
    else None
  }

  /** `users.some(u => u.phone === phone)`. */
  function SomeUserHasPhone(users: seq<JsObject>, phone: JsValue): (b: bool)
    ensures b <==> PhoneTaken(users, phone)
  {
    if users == [] then false
    else if StrictEquals(Field(users[0], "phone"), phone) then true
    else
      var rest := SomeUserHasPhone(users[1..], phone);
      assert PhoneTaken(users, phone) ==> PhoneTaken(users[1..], phone) by {
        if PhoneTaken(users, phone) {
          var i :| 0 <= i < |users| && StrictEquals(Field(users[i], "phone"), phone);
          assert users[1..][i - 1] == users[i];
        }
      }
      assert PhoneTaken(users[1..], phone) ==> PhoneTaken(users, phone) by {
        if PhoneTaken(users[1..], phone) {
          var i :| 0 <= i < |users[1..]| && StrictEquals(Field(users[1..][i], "phone"), phone);
          assert users[i + 1] == users[1..][i];
        }
      }
      rest
  }

  /** Two registrations with the same phone never both succeed. */
  lemma RegisteredPhoneIsTaken(users: seq<JsObject>, body: JsObject, again: JsObject)
    requires NodeRegisterError(users, body).None?
    requires Field(again, "phone") == Field(body, "phone")
    requires Field(body, "phone").Some? && Field(body, "phone").value.JStr?
    ensures NodeRegisterError(users + [NewUser(body)], again) == Some("Phone number already registered")
  {
    var users' := users + [NewUser(body)];
    assert Field(users'[|users|], "phone") == Field(body, "phone");
  }

  datatype NodeLoginResult = NodeLoggedIn(user: JsObject) | NodeLoginFailed(error: string)

  predicate CredentialsMatch(u: JsObject, body: JsObject) {
    StrictEquals(Field(u, "phone"), Field(body, "phone")) && StrictEquals(Field(u, "password"), Field(body, "password"))
  }

  /** The login handler: the first user whose phone and (plain-text) password
      both match, or 'Invalid credentials'. */
  function NodeLogin(users: seq<JsObject>, body: JsObject): (r: NodeLoginResult)
    ensures r.NodeLoggedIn? <==> exists i :: 0 <= i < |users| && CredentialsMatch(users[i], body)
    ensures r.NodeLoggedIn? ==> exists i :: 0 <= i < |users| && users[i] == r.user && CredentialsMatch(users[i], body) &&
                                  forall j :: 0 <= j < i ==> !CredentialsMatch(users[j], body)
    ensures r.NodeLoginFailed? ==> r.error == "Invalid credentials"
  {
    match FirstIndex(users, (u: JsObject) => CredentialsMatch(u, body))
    case Some(i) => NodeLoggedIn(users[i])
    case None => NodeLoginFailed("Invalid credentials")
  }

  /** A user the register handler appends can log in with the phone and
      password it registered, and login returns exactly the stored record. */
  lemma NodeRegisterThenLogin(users: seq<JsObject>, body: JsObject)
    requires NodeRegisterError(users, body).None?
    requires Field(body, "phone").Some? && Field(body, "phone").value.JStr?
    requires Field(body, "password").Some? && Field(body, "password").value.JStr?
    ensures NodeLogin(users + [NewUser(body)], body) == NodeLoggedIn(NewUser(body))
  {
    var u := NewUser(body);
    var users' := users + [u];
    assert Field(u, "phone") == Field(body, "phone") && Field(u, "password") == Field(body, "password");
    StrictEqualsIsValueEquality(Field(u, "phone"), Field(body, "phone"));
    StrictEqualsIsValueEquality(Field(u, "password"), Field(body, "password"));
    assert CredentialsMatch(users'[|users|], body);
    forall j | 0 <= j < |users| ensures !CredentialsMatch(users'[j], body) {
      assert users'[j] == users[j];
    }
    FirstIndexAt(users', (v: JsObject) => CredentialsMatch(v, body), |users|);
  }

  // ---------------------------------------------------------------------
  // POST /api/bookings
  // ---------------------------------------------------------------------

  /** The record built for a new booking: generated defaults, then every
      field of the request body spread over them. `now` is Date.now(),
      `random` is Math.floor(Math.random() * 1000), `isoNow` is the ISO date. */
  function NewBooking(body: JsObject, now: nat, random: nat, isoNow: string): (b: JsObject)
    requires random < 1000
    ensures forall k :: k in body ==> k in b && b[k] == body[k]
    ensures b.Keys == body.Keys + {"bookingId", "bookingNumber", "userId", "bookingDate", "status"}
    ensures "bookingId" !in body ==> b["bookingId"] == JStr("BK" + IntToString(now) + IntToString(random))
    ensures "bookingNumber" !in body ==> b["bookingNumber"] == JStr("BKN-" + IntToString(now))
    ensures "userId" !in body ==> b["userId"] == JStr("GUEST" + IntToString(now))
    ensures "bookingDate" !in body ==> b["bookingDate"] == JStr(isoNow)
    ensures "status" !in body ==> b["status"] == JStr("confirmed")
  {
    var userId := if Truthy(Field(body, "userId")) then body["userId"] else JStr("GUEST" + IntToString(now));
    var defaults := map["bookingId" := JStr("BK" + IntToString(now) + IntToString(random)),
                        "bookingNumber" := JStr("BKN-" + IntToString(now)),
                        "userId" := userId,
                        "bookingDate" := JStr(isoNow),
                        "status" := JStr("confirmed")];
    defaults + body
  }

  /** A falsy userId in the body is still what the booking keeps: the spread
      puts it back over the GUEST default. */
  lemma BodyOverridesDefaults(body: JsObject, now: nat, random: nat, isoNow: string)
    requires random < 1000
    requires "userId" in body && body["userId"] == JStr("")
    requires "status" in body
    ensures NewBooking(body, now, random, isoNow)["userId"] == JStr("")
    ensures NewBooking(body, now, random, isoNow)["status"] == body["status"]
  {
  }

  // ---------------------------------------------------------------------
  // Inventory updates
  // ---------------------------------------------------------------------

  /** `a + b + c` on the booking's three passenger counts. */
  function TotalPassengers(booking: JsObject): Primitive {
    Add(Add(ToPrimitive(Field(booking, "adults")), ToPrimitive(Field(booking, "children"))), ToPrimitive(Field(booking, "infants")))
  }

  /** `f.availableSeats -= total`, as JSON.stringify then writes it. */
  function TakeFlightSeats(f: JsObject, total: Primitive): JsObject {
    f["availableSeats" := NumberToJson(Subtract(ToPrimitive(Field(f, "availableSeats")), total))]
  }

  predicate FlightIdIs(f: JsObject, id: JsValue) {
    StrictEquals(Field(f, "flightId"), id)
  }

  /** The position of the first flight whose flightId is `===` to `id`. */
  function FirstFlight(flights: seq<JsObject>, id: JsValue): Option<nat> {
    FirstIndex(flights, (f: JsObject) => FlightIdIs(f, id))
  }

  /** Lower the seats of the first flight whose flightId is `===` to `id`. */
  function TakeSeatsOnFirst(flights: seq<JsObject>, id: JsValue, total: Primitive): (r: seq<JsObject>)
    ensures |r| == |flights|
    ensures forall i :: 0 <= i < |flights| && FirstFlight(flights, id) != Some(i) ==> r[i] == flights[i]
    ensures forall i :: 0 <= i < |flights| && FirstFlight(flights, id) == Some(i) ==>
      r[i] == TakeFlightSeats(flights[i], total)
  {
    match FirstFlight(flights, id)
    case None => flights
    case Some(i) => flights[i := TakeFlightSeats(flights[i], total)]
  }

  /** flights.json after updateFlightAvailability. A round trip reads
      `booking.departingFlight.flightId` and `booking.returningFlight.flightId`;
      when either object is missing the TypeError is caught before the file is
      written, so nothing changes. */
  function FlightsAfterBooking(flights: seq<JsObject>, booking: JsObject): seq<JsObject> {
    var total := TotalPassengers(booking);
    if StrictEquals(Field(booking, "tripType"), Some(JStr("roundtrip"))) then
      if flights == [] then flights
      else
        match (Member(Field(booking, "departingFlight"), "flightId"), Member(Field(booking, "returningFlight"), "flightId"))
        case (Value(out), Value(back)) => TakeSeatsOnFirst(TakeSeatsOnFirst(flights, out, total), back, total)
        case _ => flights
    else TakeSeatsOnFirst(flights, Field(booking, "flightId"), total)
  }

  /** With numeric counts, a one-way booking lowers the matching flight's
      seats by adults + children + infants (possibly below zero) and leaves
      every other flight as it was. */
  lemma OneWaySeats(flights: seq<JsObject>, booking: JsObject, adults: int, children: int, infants: int, seats: int, i: nat)
    requires !StrictEquals(Field(booking, "tripType"), Some(JStr("roundtrip")))
    requires Field(booking, "adults") == Some(JNum(adults)) && Field(booking, "children") == Some(JNum(children)) &&
             Field(booking, "infants") == Some(JNum(infants))
    requires i < |flights|
    ensures var after := FlightsAfterBooking(flights, booking);
      |after| == |flights| &&
      (FirstFlight(flights, Field(booking, "flightId")) == Some(i) &&
       Field(flights[i], "availableSeats") == Some(JNum(seats)) ==>
         after[i]["availableSeats"] == JNum(seats - (adults + children + infants))) &&
      (FirstFlight(flights, Field(booking, "flightId")) != Some(i) ==> after[i] == flights[i])
  {
    var total := TotalPassengers(booking);
    assert total == PNumber(Finite(adults + children + infants));
    var after := TakeSeatsOnFirst(flights, Field(booking, "flightId"), total);
    assert FlightsAfterBooking(flights, booking) == after;
    if FirstFlight(flights, Field(booking, "flightId")) == Some(i) && Field(flights[i], "availableSeats") == Some(JNum(seats)) {
      assert after[i] == TakeFlightSeats(flights[i], total);
    }
  }

  /** Lowering the seats of one flight changes no flightId, so every later
      search by id finds the same flight. */
  lemma FirstFlightAfterTake(flights: seq<JsObject>, id: JsValue, other: JsValue, total: Primitive)
    ensures FirstFlight(TakeSeatsOnFirst(flights, id, total), other) == FirstFlight(flights, other)
  {
    var r := TakeSeatsOnFirst(flights, id, total);
    var p := (f: JsObject) => FlightIdIs(f, other);
    forall j | 0 <= j < |r| ensures p(r[j]) == p(flights[j]) {
      assert Field(r[j], "flightId") == Field(flights[j], "flightId");
    }
    FirstIndexAgrees(r, flights, p, p);
  }

  /** With numeric counts, a round trip with both flight ids lowers the first
      flight matching each id by adults + children + infants (twice over
      when both ids name the same flight, possibly below zero) and leaves
      every other flight as it was. */
  lemma {:induction false} RoundTripSeats(flights: seq<JsObject>, booking: JsObject, out: JsValue, back: JsValue,
                                          adults: int, children: int, infants: int, seats: int, i: nat)
    requires Field(booking, "tripType") == Some(JStr("roundtrip"))
    requires Member(Field(booking, "departingFlight"), "flightId") == Value(out)
    requires Member(Field(booking, "returningFlight"), "flightId") == Value(back)
    requires Field(booking, "adults") == Some(JNum(adults)) && Field(booking, "children") == Some(JNum(children)) &&
             Field(booking, "infants") == Some(JNum(infants))
    requires i < |flights|
    ensures var after := FlightsAfterBooking(flights, booking);
      var n := adults + children + infants;
      var isOut, isBack := FirstFlight(flights, out) == Some(i), FirstFlight(flights, back) == Some(i);
      var numeric := Field(flights[i], "availableSeats") == Some(JNum(seats));
      |after| == |flights| &&
      (!isOut && !isBack ==> after[i] == flights[i]) &&
      (isOut != isBack && numeric ==> after[i] == flights[i]["availableSeats" := JNum(seats - n)]) &&
      (isOut && isBack && numeric ==> after[i] == flights[i]["availableSeats" := JNum(seats - 2 * n)])
  {
    var n := adults + children + infants;
    var total := PNumber(Finite(n));
    RoundTripTakesTwice(flights, booking, out, back);
    AddOnNumbers(adults, children, infants, "");
    assert TotalPassengers(booking) == total;
    TakeTwiceAt(flights, out, back, total, i);
    if Field(flights[i], "availableSeats") == Some(JNum(seats)) {
      TakeNumericSeats(flights[i], seats, n);
      TakeNumericSeats(flights[i]["availableSeats" := JNum(seats - n)], seats - n, n);
      assert flights[i]["availableSeats" := JNum(seats - n)]["availableSeats" := JNum(seats - n - n)] ==
             flights[i]["availableSeats" := JNum(seats - 2 * n)];
    }
  }

  /** Taking seats for `out` and then for `back` changes a flight once for
      each id whose first match it is. */
  lemma TakeTwiceAt(flights: seq<JsObject>, out: JsValue, back: JsValue, total: Primitive, i: nat)
    requires i < |flights|
    ensures var after := TakeSeatsOnFirst(TakeSeatsOnFirst(flights, out, total), back, total);
      var isOut, isBack := FirstFlight(flights, out) == Some(i), FirstFlight(flights, back) == Some(i);
      |after| == |flights| &&
      (!isOut && !isBack ==> after[i] == flights[i]) &&
      (isOut != isBack ==> after[i] == TakeFlightSeats(flights[i], total)) &&
      (isOut && isBack ==> after[i] == TakeFlightSeats(TakeFlightSeats(flights[i], total), total))
  {
    FirstFlightAfterTake(flights, out, back, total);
  }

  /** A round trip with both ids takes seats on the departing flight and
      then on the returning one. */
  lemma RoundTripTakesTwice(flights: seq<JsObject>, booking: JsObject, out: JsValue, back: JsValue)
    requires Field(booking, "tripType") == Some(JStr("roundtrip"))
    requires Member(Field(booking, "departingFlight"), "flightId") == Value(out)
    requires Member(Field(booking, "returningFlight"), "flightId") == Value(back)
    ensures FlightsAfterBooking(flights, booking) ==
      TakeSeatsOnFirst(TakeSeatsOnFirst(flights, out, TotalPassengers(booking)), back, TotalPassengers(booking))
  {
    StrictEqualsString(Field(booking, "tripType"), "roundtrip");
  }

  /** `availableSeats -= n` on a numeric seat count. */
  lemma TakeNumericSeats(f: JsObject, seats: int, n: int)
    requires Field(f, "availableSeats") == Some(JNum(seats))
    ensures TakeFlightSeats(f, PNumber(Finite(n))) == f["availableSeats" := JNum(seats - n)]
  {
    AddOnNumbers(seats, n, 0, "");
  }

  /** A round trip without a departingFlight object changes no flight. */
  lemma RoundTripWithoutDepartureChangesNothing(flights: seq<JsObject>, booking: JsObject)
    requires Field(booking, "tripType") == Some(JStr("roundtrip"))
    requires Field(booking, "departingFlight").None?
    ensures FlightsAfterBooking(flights, booking) == flights
  {
  }

  /** updateHotelAvailability's result: the first hotel whose hotel-id is `===`
      to booking.hotelId gets available-rooms rewritten as
      parseInt(old text) - booking.rooms; when that hotel has no
      available-rooms element the TypeError is caught and nothing is written. */
  function HotelsAfterBooking(hotels: seq<XmlElement>, booking: JsObject): (r: seq<XmlElement>)
    ensures |r| == |hotels|
    ensures forall j :: 0 <= j < |hotels| && FirstHotel(hotels, booking) != Some(j) ==> r[j] == hotels[j]
  {
    match FirstHotel(hotels, booking)
    case None => hotels
    case Some(i) =>
      if "available-rooms" !in hotels[i] then hotels
      else hotels[i := hotels[i]["available-rooms" := RoomsLeft(hotels[i]["available-rooms"], booking)]]
  }

  /** The position of the first hotel whose hotel-id is `===` to booking.hotelId. */
  function FirstHotel(hotels: seq<XmlElement>, booking: JsObject): Option<nat> {
    FirstIndex(hotels, (h: XmlElement) => StrictEquals(ChildText(h, "hotel-id"), Field(booking, "hotelId")))
  }

  function RoomsLeft(text: string, booking: JsObject): string {
    NumberToString(Subtract(PNumber(ParseInt(text)), ToPrimitive(Field(booking, "rooms"))))
  }

  /** Only the first matching hotel changes, and its room count drops by
      booking.rooms: parseInt reads back exactly the new count. */
  lemma HotelRoomsTaken(hotels: seq<XmlElement>, booking: JsObject, rooms: int, current: int, i: nat)
    requires Field(booking, "rooms") == Some(JNum(rooms))
    requires i < |hotels|
    requires FirstHotel(hotels, booking) == Some(i)
    requires "available-rooms" in hotels[i] && ParseInt(hotels[i]["available-rooms"]) == Finite(current)
    ensures var after := HotelsAfterBooking(hotels, booking);
      "available-rooms" in after[i] && ParseInt(after[i]["available-rooms"]) == Finite(current - rooms)
  {
    var text := hotels[i]["available-rooms"];
    BookedHotelRow(hotels, booking, i);
    RoomsLeftReadsBack(text, booking, rooms, current);
  }

  lemma BookedHotelRow(hotels: seq<XmlElement>, booking: JsObject, i: nat)
    requires i < |hotels| && FirstHotel(hotels, booking) == Some(i) && "available-rooms" in hotels[i]
    ensures HotelsAfterBooking(hotels, booking)[i] ==
      hotels[i]["available-rooms" := RoomsLeft(hotels[i]["available-rooms"], booking)]
  {
  }

  lemma RoomsLeftReadsBack(text: string, booking: JsObject, rooms: int, current: int)
    requires Field(booking, "rooms") == Some(JNum(rooms)) && ParseInt(text) == Finite(current)
    ensures ParseInt(RoomsLeft(text, booking)) == Finite(current - rooms)
  {
    var left := Finite(current - rooms);
    assert ToPrimitive(Field(booking, "rooms")) == PNumber(Finite(rooms));
    assert Subtract(PNumber(ParseInt(text)), PNumber(Finite(rooms))) == left;
    assert RoomsLeft(text, booking) == NumberToString(left);
    ParseIntOfNumberToString(left);
  }

  /** updateCarAvailability's result: the first car whose car-id is `===` to
      booking.carId gets an `available` child reading "false", created if
      absent. */
  function CarsAfterBooking(cars: seq<XmlElement>, booking: JsObject): seq<XmlElement> {
    match FirstIndex(cars, (c: XmlElement) => StrictEquals(ChildText(c, "car-id"), Field(booking, "carId")))
    case None => cars
    case Some(i) => cars[i := cars[i]["available" := "false"]]
  }

  /** Booking the same car twice leaves cars.xml as booking it once. */
  lemma CarBookingIdempotent(cars: seq<XmlElement>, booking: JsObject)
    ensures CarsAfterBooking(CarsAfterBooking(cars, booking), booking) == CarsAfterBooking(cars, booking)
  {
    var p := (c: XmlElement) => StrictEquals(ChildText(c, "car-id"), Field(booking, "carId"));
    var once := CarsAfterBooking(cars, booking);
    match FirstIndex(cars, p)
    case None =>
    case Some(i) =>
      assert "car-id" in once[i] <==> "car-id" in cars[i];
      assert forall j :: 0 <= j < |cars| ==> ChildText(once[j], "car-id") == ChildText(cars[j], "car-id");
      assert forall j :: 0 <= j < |cars| ==> p(once[j]) == p(cars[j]);
      assert FirstIndex(once, p) == Some(i);
      assert once[i]["available" := "false"] == once[i];
  }

  /** The Node server's data files. */
  class NodeStore {
    var users: seq<JsObject>
    var bookings: seq<JsObject>
    var flights: seq<JsObject>
    var hotels: seq<XmlElement>
    var cars: seq<XmlElement>

    constructor ()
      ensures users == [] && bookings == [] && flights == [] && hotels == [] && cars == []
    {
      users, bookings, flights, hotels, cars := [], [], [], [], [];
    }

    /** POST /api/users/register: a rejection writes nothing; otherwise the
        new user is appended after all existing ones. */
    method Register(body: JsObject) returns (r: Result<JsObject, string>)
      modifies this
      ensures r.Failure? ==> Some(r.error) == NodeRegisterError(old(users), body) && users == old(users)
      ensures r.Success? ==> NodeRegisterError(old(users), body).None? && r.value == NewUser(body) &&
                             users == old(users) + [NewUser(body)]
      ensures bookings == old(bookings) && flights == old(flights) && hotels == old(hotels) && cars == old(cars)
    {
      var err := NodeRegisterError(users, body);
      if err.Some? {
        return Failure(err.value);
      }
      var user := NewUser(body);
      users := users + [user];
      return Success(user);
    }

    /** updateFlightAvailability. */
    method UpdateFlightAvailability(booking: JsObject)
      modifies this
      ensures flights == FlightsAfterBooking(old(flights), booking)
      ensures users == old(users) && bookings == old(bookings) && hotels == old(hotels) && cars == old(cars)
    {
      flights := FlightsAfterBooking(flights, booking);
    }

    /** updateHotelAvailability: scan the <hotel> elements and stop at the
        first whose hotel-id matches. */
    method UpdateHotelAvailability(booking: JsObject)
      modifies this
      ensures hotels == HotelsAfterBooking(old(hotels), booking)
      ensures users == old(users) && bookings == old(bookings) && flights == old(flights) && cars == old(cars)
    {
      ghost var p := (h: XmlElement) => StrictEquals(ChildText(h, "hotel-id"), Field(booking, "hotelId"));
      var i := 0;
      while i < |hotels|
        invariant 0 <= i <= |hotels| && hotels == old(hotels)
        invariant forall j :: 0 <= j < i ==> !p(hotels[j])
      {
        if StrictEquals(ChildText(hotels[i], "hotel-id"), Field(booking, "hotelId")) {
          assert FirstHotel(hotels, booking) == Some(i) by {
            FirstIndexAt(hotels, p, i);
          }
          if "available-rooms" !in hotels[i] {
            return;
          }
          var text := RoomsLeft(hotels[i]["available-rooms"], booking);
          hotels := hotels[i := hotels[i]["available-rooms" := text]];
          return;
        }
        i := i + 1;
      }
    }

    /** updateCarAvailability: scan the <car> elements and stop at the first
        whose car-id matches. */
    method UpdateCarAvailability(booking: JsObject)
      modifies this
      ensures cars == CarsAfterBooking(old(cars), booking)
      ensures users == old(users) && bookings == old(bookings) && flights == old(flights) && hotels == old(hotels)
    {
      ghost var p := (c: XmlElement) => StrictEquals(ChildText(c, "car-id"), Field(booking, "carId"));
      var i := 0;
      while i < |cars|
        invariant 0 <= i <= |cars| && cars == old(cars)
        invariant forall j :: 0 <= j < i ==> !p(cars[j])
      {
        if StrictEquals(ChildText(cars[i], "car-id"), Field(booking, "carId")) {
          FirstIndexAt(cars, p, i);
          cars := cars[i := cars[i]["available" := "false"]];
          return;
        }
        i := i + 1;
      }
    }

    /** updateSourceAvailability: dispatch on booking.type; 'cruise' and any
        other type change no inventory. */
    method UpdateSourceAvailability(booking: JsObject)
      modifies this
      ensures var t := Field(booking, "type");
        flights == (if t == Some(JStr("flight")) then FlightsAfterBooking(old(flights), booking) else old(flights)) &&
        hotels == (if t == Some(JStr("hotel")) then HotelsAfterBooking(old(hotels), booking) else old(hotels)) &&
        cars == (if t == Some(JStr("car")) then CarsAfterBooking(old(cars), booking) else old(cars))
      ensures users == old(users) && bookings == old(bookings)
    {
      var t := Field(booking, "type");
      StrictEqualsString(t, "flight");
      StrictEqualsString(t, "hotel");
      StrictEqualsString(t, "car");
      if StrictEquals(t, Some(JStr("flight"))) {
        UpdateFlightAvailability(booking);
      } else if StrictEquals(t, Some(JStr("hotel"))) {
        UpdateHotelAvailability(booking);
      } else if StrictEquals(t, Some(JStr("car"))) {
        UpdateCarAvailability(booking);
      }
    }

    /** POST /api/bookings: append the new record, then update the inventory
        its type names. */
    method CreateBooking(body: JsObject, now: nat, random: nat, isoNow: string) returns (booking: JsObject)
      requires random < 1000
      modifies this
      ensures booking == NewBooking(body, now, random, isoNow)
      ensures bookings == old(bookings) + [booking]
      ensures var t := Field(booking, "type");
        flights == (if t == Some(JStr("flight")) then FlightsAfterBooking(old(flights), booking) else old(flights)) &&
        hotels == (if t == Some(JStr("hotel")) then HotelsAfterBooking(old(hotels), booking) else old(hotels)) &&
        cars == (if t == Some(JStr("car")) then CarsAfterBooking(old(cars), booking) else old(cars))
      ensures users == old(users)
    {
      booking := NewBooking(body, now, random, isoNow);
      bookings := bookings + [booking];
      UpdateSourceAvailability(booking);
    }

    /** POST /api/admin/load-flights: past the isAdmin check and the
        validation, the uploaded flights replace the stored ones wholesale. */
    method LoadFlights(body: JsObject) returns (r: AdminResponse)
      modifies this
      ensures Field(body, "phone") != Some(AdminPhoneValue) ==> r == Forbidden && flights == old(flights)
      ensures Field(body, "phone") == Some(AdminPhoneValue) ==> r == LoadFlightsResponse(Field(body, "flightsData"))
      ensures r.LoadedCount? ==> (FlightItems(Field(body, "flightsData")).Some? &&
        |flights| == r.count == |FlightItems(Field(body, "flightsData")).value| &&
        forall i :: 0 <= i < |flights| ==> JObj(flights[i]) == FlightItems(Field(body, "flightsData")).value[i])
      ensures !r.LoadedCount? ==> flights == old(flights)
      ensures users == old(users) && bookings == old(bookings) && hotels == old(hotels) && cars == old(cars)
    {
      if !StrictEquals(Field(body, "phone"), Some(AdminPhoneValue)) {
        return Forbidden;
      }
      var data := Field(body, "flightsData");
      var items := FlightItems(data);
      if items.None? {
        return LoadRejected("Invalid data structure. Expected { flights: [...] }");
      }
      var check := ValidateFlights(items.value);
      match check {
        case InOperatorTypeError =>
          return ServerError;
        case MissingField(field, flightName) =>
          return LoadRejected("Missing required field: " + field + " in flight " + flightName);
        case AllPresent =>
          AllPresentMeansObjects(items.value);
          flights := seq(|items.value|, i requires 0 <= i < |items.value| && items.value[i].JObj? => items.value[i].fields);
          return LoadedCount(|items.value|);
      }
    }

    /** POST /api/admin/load-hotels: the uploaded document replaces hotels.xml
        when it parses and every <hotel> has the four required children. */
    method LoadHotels(body: JsObject, doc: XmlDocument) returns (r: AdminResponse)
      modifies this
      ensures Field(body, "phone") != Some(AdminPhoneValue) ==> r == Forbidden && hotels == old(hotels)
      ensures Field(body, "phone") == Some(AdminPhoneValue) ==> r == LoadHotelsResponse(doc)
      ensures r.LoadedCount? ==> doc.Document? && hotels == doc.elements && r.count == |doc.elements|
      ensures !r.LoadedCount? ==> hotels == old(hotels)
      ensures users == old(users) && bookings == old(bookings) && flights == old(flights) && cars == old(cars)
    {
      if !StrictEquals(Field(body, "phone"), Some(AdminPhoneValue)) {
        return Forbidden;
      }
      if doc.NoDocument? {
        return ServerError;
      }
      if doc.parserErrors > 0 {
        return LoadRejected("Invalid XML format");
      }
      if |doc.elements| == 0 {
        return LoadRejected("No hotel elements found in XML");
      }
      var valid := CountValidHotels(doc.elements);
      match valid {
        case HotelMissing(e) =>
          return LoadRejected(e);
        case HotelsValid(n) =>
          hotels := doc.elements;
          return LoadedCount(n);
      }
    }
  }

  // ---------------------------------------------------------------------
  // Admin endpoints
  // ---------------------------------------------------------------------

  datatype AdminResponse =
    | Forbidden                      // 403 'Access denied. Admin privileges required.'
    | ServerError                    // 500 with the TypeError's message
    | LoadRejected(error: string)
    | LoadedCount(count: nat)
    | Statistics(stats: Stats)

  const FlightFields: seq<string> := ["flightId", "origin", "destination", "departureDate", "arrivalDate",
                                      "departureTime", "arrivalTime", "availableSeats", "price"]

  /** The handler's structure test, `!flightsData || !flightsData.flights ||
      !Array.isArray(flightsData.flights)`, evaluated left to right: the
      member is read only once flightsData is truthy, so it cannot throw. */
  predicate InvalidFlightsStructure(data: JsValue) {
    !Truthy(data) ||
    var flights := Member(data, "flights");
    assert flights.Value?;
    !Truthy(flights.v) || !IsArray(flights.v)
  }

  /** `flightsData.flights` when it is an array; `None` for every shape the
      handler rejects as an invalid structure. Strings, numbers and arrays
      have no `flights` property, so only an object can pass. */
  function FlightItems(data: JsValue): (r: Option<seq<Json>>)
    ensures r.Some? <==> !InvalidFlightsStructure(data)
    ensures r.Some? ==> Member(data, "flights") == Value(Some(JArr(r.value)))
    ensures r.Some? <==> Truthy(data) && data.value.JObj? && "flights" in data.value.fields && data.value.fields["flights"].JArr?
  {
    if Truthy(data) && data.value.JObj? && "flights" in data.value.fields && data.value.fields["flights"].JArr?
    then Some(data.value.fields["flights"].items)
    else None
  }

  /** `field in flight`: a TypeError on a primitive or null, own keys on an
      object, and (for these field names) false on an array. */
  function HasField(flight: Json, field: string): Option<bool> {
    match flight
    case JObj(m) => Some(field in m)
    case JArr(_) => Some(false)
    case _ => None
  }

  /** `flight.flightId || 'unknown'` inside the error message. */
  function FlightLabel(flight: Json): string {
    var id := match flight
      case JObj(m) => Field(m, "flightId")
      case _ => None;
    if Truthy(id) then ToString(ToPrimitive(id)) else "unknown"
  }

  datatype FlightsCheck = AllPresent | MissingField(field: string, flightName: string) | InOperatorTypeError

  /** The verdict of the nested validation loops: the first flight, and
      within it the first required field, that fails. */
  function CheckFlights(items: seq<Json>): FlightsCheck
  {
    if items == [] then AllPresent
    else
      match CheckFields(items[0], FlightFields)
      case Some(c) => c
      case None => CheckFlights(items[1..])
  }

  function CheckFields(flight: Json, fields: seq<string>): (r: Option<FlightsCheck>)
    ensures r.Some? ==> r.value != AllPresent
  {
    if fields == [] then None
    else
      match HasField(flight, fields[0])
      case None => Some(InOperatorTypeError)
      case Some(false) => Some(MissingField(fields[0], FlightLabel(flight)))
      case Some(true) => CheckFields(flight, fields[1..])
  }

  /** An object carrying every required flight field. */
  predicate IsValidFlight(j: Json) {
    j.JObj? && forall f :: f in FlightFields ==> f in j.fields
  }

  /** A flights array passes exactly when every element is an object with
      all nine required fields. */
  lemma {:induction false} AllPresentIff(items: seq<Json>)
    ensures CheckFlights(items) == AllPresent <==> forall i :: 0 <= i < |items| ==> IsValidFlight(items[i])
  {
    if items != [] {
      AllPresentIff(items[1..]);
      CheckFieldsNone(items[0], FlightFields);
      assert forall i :: 1 <= i < |items| ==> items[i] == items[1..][i - 1];
    }
  }

  lemma {:induction false} CheckFieldsNone(flight: Json, fields: seq<string>)
    ensures CheckFields(flight, fields).None? <==>
      fields == [] || (flight.JObj? && forall f :: f in fields ==> f in flight.fields)
  {
    if fields != [] {
      CheckFieldsNone(flight, fields[1..]);
      assert forall f :: f in fields <==> f == fields[0] || f in fields[1..];
    }
  }

  lemma AllPresentMeansObjects(items: seq<Json>)
    requires CheckFlights(items) == AllPresent
    ensures forall i :: 0 <= i < |items| ==> items[i].JObj?
  {
    AllPresentIff(items);
  }

  /** The handler's nested loops over the flights and their required fields. */
  method ValidateFlights(items: seq<Json>) returns (r: FlightsCheck)
    ensures r == CheckFlights(items)
  {
    var k := 0;
    while k < |items|
      invariant 0 <= k <= |items|
      invariant CheckFlights(items) == CheckFlights(items[k..])
    {
      var flight := items[k];
      assert items[k..][1..] == items[k + 1..];
      var j := 0;
      while j < |FlightFields|
        invariant 0 <= j <= |FlightFields|
        invariant CheckFields(flight, FlightFields) == CheckFields(flight, FlightFields[j..])
      {
        var has := HasField(flight, FlightFields[j]);
        assert FlightFields[j..][1..] == FlightFields[j + 1..];
        if has.None? {
          return InOperatorTypeError;
        }
        if !has.value {
          return MissingField(FlightFields[j], FlightLabel(flight));
        }
        j := j + 1;
      }
      k := k + 1;
    }
    assert items[|items|..] == [];
    return AllPresent;
  }

  /** The whole load-flights decision after the isAdmin check. */
  function LoadFlightsResponse(data: JsValue): AdminResponse {
    match FlightItems(data)
    case None => LoadRejected("Invalid data structure. Expected { flights: [...] }")
    case Some(items) =>
      match CheckFlights(items)
      case InOperatorTypeError => ServerError
      case MissingField(field, flightName) => LoadRejected("Missing required field: " + field + " in flight " + flightName)
      case AllPresent => LoadedCount(|items|)
  }

  /** What `parseFromString(hotelsXML)` gives the handler: no document (the
      body has no hotelsXML string, or the parser throws), or a document with
      its number of <parsererror> elements and its <hotel> elements. */
  datatype XmlDocument = NoDocument | Document(parserErrors: nat, elements: seq<XmlElement>)

  const HotelFields: seq<string> := ["hotel-id", "hotel-name", "city", "price-per-night"]

  /** `!element || !element.textContent`. */
  predicate MissingChild(h: XmlElement, field: string) {
    field !in h || h[field] == ""
  }

  /** The first required child missing or empty, in field order. */
  function FirstMissingChild(h: XmlElement): (r: Option<string>)
    ensures r.None? <==> forall j :: 0 <= j < |HotelFields| ==> !MissingChild(h, HotelFields[j])
    ensures r.Some? ==> exists j :: 0 <= j < |HotelFields| && HotelFields[j] == r.value && MissingChild(h, r.value) &&
                                    forall k :: 0 <= k < j ==> !MissingChild(h, HotelFields[k])
  {
    match FirstIndex(HotelFields, (f: string) => MissingChild(h, f))
    case None => None
    case Some(j) => Some(HotelFields[j])
  }

  /** The outcome of checking the <hotel> elements. */
  datatype HotelsCheck = HotelsValid(count: nat) | HotelMissing(message: string)

  /** The verdict of the validation loop: the number of hotels, or the
      message for the first hotel (numbered from 1) missing a field. */
  function HotelsVerdict(hotels: seq<XmlElement>, from: nat): (r: HotelsCheck)
    requires from <= |hotels|
    ensures r.HotelsValid? <==> forall i :: from <= i < |hotels| ==> FirstMissingChild(hotels[i]).None?
    ensures r.HotelsValid? ==> r.count == |hotels| - from
    decreases |hotels| - from
  {
    if from == |hotels| then HotelsValid(0)
    else
      match FirstMissingChild(hotels[from])
      case Some(field) => HotelMissing("Missing required field: " + field + " in hotel #" + IntToString(from + 1))
      case None =>
        var rest := HotelsVerdict(hotels, from + 1);
        CompleteFrom(hotels, from);
        match rest
        case HotelsValid(n) => HotelsValid(n + 1)
        case HotelMissing(e) => HotelMissing(e)
  }

  /** With hotel `from` complete, all from there on are complete exactly when
      all after it are. */
  lemma CompleteFrom(hotels: seq<XmlElement>, from: nat)
    requires from < |hotels| && FirstMissingChild(hotels[from]).None?
    ensures (forall i :: from <= i < |hotels| ==> FirstMissingChild(hotels[i]).None?) <==>
            (forall i :: from + 1 <= i < |hotels| ==> FirstMissingChild(hotels[i]).None?)
  {
  }

  /** A verdict seen from `k` hotels earlier: a count grows by `k`, a
      missing-field message stays as it is. */
  function Shifted(r: HotelsCheck, k: nat): HotelsCheck {
    match r
    case HotelsValid(n) => HotelsValid(n + k)
    case HotelMissing(_) => r
  }

  /** Passing over one complete hotel adds one to the count. */
  lemma VerdictStep(hotels: seq<XmlElement>, i: nat)
    requires i < |hotels| && FirstMissingChild(hotels[i]).None?
    ensures forall k: nat :: Shifted(HotelsVerdict(hotels, i), k) == Shifted(HotelsVerdict(hotels, i + 1), k + 1)
  {
  }

  /** The handler's loop counting `validHotels`. */
  method CountValidHotels(hotels: seq<XmlElement>) returns (r: HotelsCheck)
    ensures r == HotelsVerdict(hotels, 0)
  {
    var validHotels := 0;
    var i := 0;
    while i < |hotels|
      invariant 0 <= i <= |hotels| && validHotels == i
      invariant HotelsVerdict(hotels, 0) == Shifted(HotelsVerdict(hotels, i), i)
    {
      var missing := FirstMissingChild(hotels[i]);
      if missing.Some? {
        return HotelMissing("Missing required field: " + missing.value + " in hotel #" + IntToString(i + 1));
      }
      VerdictStep(hotels, i);
      validHotels := validHotels + 1;
      i := i + 1;
    }
    return HotelsValid(validHotels);
  }

  function LoadHotelsResponse(doc: XmlDocument): AdminResponse {
    match doc
    case NoDocument => ServerError
    case Document(parserErrors, elements) =>
      if parserErrors > 0 then LoadRejected("Invalid XML format")
      else if |elements| == 0 then LoadRejected("No hotel elements found in XML")
      else
        match HotelsVerdict(elements, 0)
        case HotelMissing(e) => LoadRejected(e)
        case HotelsValid(n) => LoadedCount(n)
  }

  /** A successful hotel load reports every hotel as valid. */
  lemma HotelLoadCountsAll(doc: XmlDocument)
    ensures LoadHotelsResponse(doc).LoadedCount? ==>
      doc.Document? && LoadHotelsResponse(doc).count == |doc.elements| > 0 &&
      forall i :: 0 <= i < |doc.elements| ==> FirstMissingChild(doc.elements[i]).None?
  {
  }

  // ---------------------------------------------------------------------
  // POST /api/admin/stats
  // ---------------------------------------------------------------------

  predicate HasType(b: JsObject, t: string) {
    Field(b, "type") == Some(JStr(t))
  }

  /** The callback `b => b.type === t`. */
  function TypeTest(t: string): JsObject -> bool {
    (b: JsObject) => StrictEquals(Field(b, "type"), Some(JStr(t)))
  }

  /** `bookings.filter(b => b.type === t).length`: the number of bookings
      whose type is t. */
  function TypeCount(bookings: seq<JsObject>, t: string): (n: nat)
    ensures n == |Filter(bookings, TypeTest(t))|
    ensures n == |set i | 0 <= i < |bookings| && HasType(bookings[i], t)|
  {
    CountWhereFilter(bookings, TypeTest(t));
    TypePositions(bookings, t);
    CountWhere(bookings, TypeTest(t))
  }

  /** `b.type === t` holds at exactly the positions HasType picks. */
  lemma TypePositions(bookings: seq<JsObject>, t: string)
    ensures CountWhere(bookings, TypeTest(t)) == |set i | 0 <= i < |bookings| && HasType(bookings[i], t)|
  {
    CountWherePositions(bookings, TypeTest(t));
    var typed := set i | 0 <= i < |bookings| && HasType(bookings[i], t);
    forall i ensures i in Positions(bookings, TypeTest(t)) <==> i in typed {
      if 0 <= i < |bookings| {
        StrictEqualsString(Field(bookings[i], "type"), t);
      }
    }
    assert Positions(bookings, TypeTest(t)) == typed;
  }

  datatype Stats = Stats(flights: nat, hotels: nat, total: nat, flightBookings: nat, hotelBookings: nat,
                         carBookings: nat, cruiseBookings: nat)

  /** POST /api/admin/stats: 403 for anyone but the administrator; otherwise
      the sizes of the three stores and the number of bookings of each type. */
  function AdminStats(body: JsObject, flights: seq<JsObject>, hotels: seq<XmlElement>, bookings: seq<JsObject>): (r: AdminResponse)
    ensures r == Forbidden <==> Field(body, "phone") != Some(AdminPhoneValue)
    ensures r != Forbidden ==> r.Statistics?
    ensures r.Statistics? ==> r.stats.total == |bookings| && r.stats.flights == |flights| && r.stats.hotels == |hotels|
    ensures r.Statistics? ==>
      r.stats.flightBookings == |set i | 0 <= i < |bookings| && HasType(bookings[i], "flight")| &&
      r.stats.hotelBookings == |set i | 0 <= i < |bookings| && HasType(bookings[i], "hotel")| &&
      r.stats.carBookings == |set i | 0 <= i < |bookings| && HasType(bookings[i], "car")| &&
      r.stats.cruiseBookings == |set i | 0 <= i < |bookings| && HasType(bookings[i], "cruise")|
    ensures r.Statistics? ==> r.stats.flightBookings + r.stats.hotelBookings + r.stats.carBookings + r.stats.cruiseBookings <= r.stats.total
  {
    StrictEqualsString(Field(body, "phone"), "222-222-2222");
    if !StrictEquals(Field(body, "phone"), Some(AdminPhoneValue)) then Forbidden
    else
      TypeCountsBounded(bookings);
      Statistics(Stats(|flights|, |hotels|, |bookings|, TypeCount(bookings, "flight"), TypeCount(bookings, "hotel"),
                       TypeCount(bookings, "car"), TypeCount(bookings, "cruise")))
  }

  /** A booking has at most one type, so the four per-type counts add up to
      at most the number of bookings. */
  lemma {:induction false} TypeCountsBounded(bookings: seq<JsObject>)
    ensures CountWhere(bookings, TypeTest("flight")) + CountWhere(bookings, TypeTest("hotel")) +
            CountWhere(bookings, TypeTest("car")) + CountWhere(bookings, TypeTest("cruise")) <= |bookings|
  {
    if bookings != [] {
      var last := Field(bookings[|bookings| - 1], "type");
      TypeCountsBounded(bookings[..|bookings| - 1]);
      StrictEqualsString(last, "flight");
      StrictEqualsString(last, "hotel");
      StrictEqualsString(last, "car");
      StrictEqualsString(last, "cruise");
    }
  }
}
