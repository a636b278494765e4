/** php/functions.php: registration and login, the flight search, fare and
    room arithmetic, the flight and hotel booking transactions, and the
    contact log. Random draws (mt_rand), the clock and password hashing are
    parameters. */
module Functions {
  import opened Common
  import opened Calendar
  import opened Sorting
  import opened Config
  import opened Tables

  // ---------------------------------------------------------------------
  // registerUser
  // ---------------------------------------------------------------------

  const PhoneFormatError: string := "Invalid phone format. Use ddd-ddd-dddd"
  const ReservedPhoneError: string := "This phone number is reserved"
  const DuplicatePhoneError: string := "Phone number already registered"
  const EmailError: string := "Email must contain @ and .com"
  const DateOfBirthError: string := "Invalid date format. Use MM-DD-YYYY"

  /** The checks registerUser makes before inserting, in its order: phone
      format, the reserved administrator phone, an already registered phone,
      the email, the date of birth. The first check that fails names the error. */
  function RegistrationError(registered: set<string>, phone: string, email: string, dateOfBirth: string): (err: Option<string>)
    ensures err.None? <==>
      ValidatePhone(phone) && phone != AdminPhone && phone !in registered &&
      ValidateEmail(email) && ValidateDateFormat(dateOfBirth)
    ensures err == Some(PhoneFormatError) <==> !ValidatePhone(phone)
    ensures err == Some(ReservedPhoneError) <==> ValidatePhone(phone) && phone == AdminPhone
    ensures err == Some(DuplicatePhoneError) <==>
      ValidatePhone(phone) && phone != AdminPhone && phone in registered
    ensures err == Some(EmailError) <==>
      ValidatePhone(phone) && phone != AdminPhone && phone !in registered && !ValidateEmail(email)
    ensures err == Some(DateOfBirthError) <==>
      ValidatePhone(phone) && phone != AdminPhone && phone !in registered && ValidateEmail(email) &&
      !ValidateDateFormat(dateOfBirth)
  {
    if !ValidatePhone(phone) then Some(PhoneFormatError)
    else if phone == AdminPhone then Some(ReservedPhoneError)
    else if phone in registered then Some(DuplicatePhoneError)
    else if !ValidateEmail(email) then Some(EmailError)
    else if !ValidateDateFormat(dateOfBirth) then Some(DateOfBirthError)
    else None
  }

  /** The administrator's phone can never be registered, and a phone can be
      registered at most once. */
  lemma RegistrationNeverAdmitsAdminOrDuplicate(registered: set<string>, phone: string, email: string, dateOfBirth: string)
    ensures RegistrationError(registered, phone, email, dateOfBirth).None? ==> phone != AdminPhone && phone !in registered
    ensures RegistrationError(registered, AdminPhone, email, dateOfBirth) == Some(ReservedPhoneError)
  {
    AdminPhoneIsWellFormed();
  }

  datatype RegisterResult = Registered | RegisterRejected(error: string)

  /** registerUser: on success one row is inserted, holding `hash(password)`
      (password_hash, a parameter here) rather than the password; a rejection
      inserts nothing. */
  method RegisterUser(db: Database, phone: string, password: string, firstName: string, lastName: string,
                      dateOfBirth: string, email: string, gender: Option<string>, hash: string -> string)
    returns (r: RegisterResult)
    modifies db
    ensures r.Registered? <==> RegistrationError(old(db.users).Keys, phone, email, dateOfBirth).None?
    ensures r.RegisterRejected? ==>
      Some(r.error) == RegistrationError(old(db.users).Keys, phone, email, dateOfBirth) &&
      db.State() == old(db.State())
    ensures r.Registered? ==>
      db.State() == old(db.State()).(users := old(db.users)[phone := UserRow(phone, hash(password), firstName, lastName, dateOfBirth, email, gender)])
  {
    var err := RegistrationError(db.users.Keys, phone, email, dateOfBirth);
    if err.Some? {
      return RegisterRejected(err.value);
    }
    db.users := db.users[phone := UserRow(phone, hash(password), firstName, lastName, dateOfBirth, email, gender)];
    return Registered;
  }

  // ---------------------------------------------------------------------
  // loginUser
  // ---------------------------------------------------------------------

  const LoginError: string := "Invalid phone number or password"

  /** The session entry built from a user row: every column but the password. */
  function SessionUserOf(row: UserRow): SessionUser {
    SessionUser(row.phone, row.firstName, row.lastName, row.dateOfBirth, row.email, row.gender)
  }

  datatype LoginResult = LoggedIn(user: SessionUser) | LoginRejected(error: string)

  /** loginUser's decision; `verify` is password_verify. An unknown phone and a
      wrong password give the same error. */
  function LoginOutcome(users: map<string, UserRow>, phone: string, password: string,
                        verify: (string, string) -> bool): (r: LoginResult)
    ensures r.LoggedIn? <==> phone in users && verify(password, users[phone].passwordHash)
    ensures r.LoginRejected? ==> r.error == LoginError
    ensures r.LoggedIn? ==> r.user == SessionUserOf(users[phone])
  {
    if phone !in users then LoginRejected(LoginError)
    else if verify(password, users[phone].passwordHash) then LoggedIn(SessionUserOf(users[phone]))
    else LoginRejected(LoginError)
  }

  /** $_SESSION. */
  class PhpSession {
    var user: Session

    constructor ()
      ensures user == None
    {
      user := None;
    }
  }

  /** loginUser: the session changes only on success, and then holds the
      matching user's six public fields. */
  method LoginUser(db: Database, session: PhpSession, phone: string, password: string,
                   verify: (string, string) -> bool) returns (r: LoginResult)
    modifies session
    ensures r == LoginOutcome(db.users, phone, password, verify)
    ensures r.LoggedIn? ==> session.user == Some(r.user)
    ensures r.LoginRejected? ==> session.user == old(session.user)
  {
    r := LoginOutcome(db.users, phone, password, verify);
    if r.LoggedIn? {
      session.user := Some(r.user);
    }
  }

  /** Registering and then logging in with the same password succeeds, and the
      session then holds exactly what was registered, less the password. */
  lemma RegisterThenLogin(users: map<string, UserRow>, phone: string, password: string, firstName: string,
                          lastName: string, dateOfBirth: string, email: string, gender: Option<string>,
                          hash: string -> string, verify: (string, string) -> bool)
    requires RegistrationError(users.Keys, phone, email, dateOfBirth).None?
    requires verify(password, hash(password))
    ensures var users' := users[phone := UserRow(phone, hash(password), firstName, lastName, dateOfBirth, email, gender)];
      LoginOutcome(users', phone, password, verify) ==
        LoggedIn(SessionUser(phone, firstName, lastName, dateOfBirth, email, gender))
  {
  }

  // ---------------------------------------------------------------------
  // searchFlights
  // ---------------------------------------------------------------------

  /** The day strtotime and DateTime make of year y, month m (0..12) and day
      d (0..31): day 0 is the last day of the month before, month 0 is the
      December before, and a day past the month's end rolls over into the
      next month. */
  function IsoDay(y: int, m: int, d: int): int
    requires y >= 1 && 0 <= m <= 12
  {
    if m == 0 then DaysBeforeYear(y) - 31 + d - 1 else DayNumber(y, m, d)
  }

  /** Month 00 is December of the year before. */
  lemma MonthZeroIsPreviousDecember(y: int, d: int)
    requires y >= 2
    ensures IsoDay(y, 0, d) == DayNumber(y - 1, 12, d)
  {
    DaysBeforeYearStep(y - 1);
    DaysBeforeMonthTotal(y - 1);
  }

  /** Day 00 is the last day of the month before. */
  lemma DayZeroIsPreviousMonthEnd(y: int, m: int)
    requires y >= 1 && 2 <= m <= 12
    ensures IsoDay(y, m, 0) == DayNumber(y, m - 1, DaysInMonth(y, m - 1))
  {
  }

  /** A "YYYY-MM-DD" string as strtotime and DateTime read it: year from
      0001, month 00..12 and day 00..31, rolled over as IsoDay says. */
  function ParseIsoDate(s: string): Option<int> {
    if |s| == 10 && s[4] == '-' && s[7] == '-' && AllDigits(s[..4]) && AllDigits(s[5..7]) && AllDigits(s[8..]) then
      var y, m, d := DigitsValue(s[..4]), DigitsValue(s[5..7]), DigitsValue(s[8..]);
      if y >= 1 && m <= 12 && d <= 31 then Some(IsoDay(y, m, d)) else None
    else None
  }

  /** date('Y-m-d', false): the Unix epoch in the America/Chicago time zone. */
  const FailedDateDay: int := 719161

  lemma FailedDateDayIs19691231()
    ensures FailedDateDay == DayNumber(1969, 12, 31)
  {
    assert DaysBeforeMonth(1969, 12) == 334;
  }

  /** A closed range of DATE values, as day numbers. */
  datatype DateWindow = DateWindow(first: int, last: int)

  /** The departure window [start, end] searchFlights computes with strtotime:
      the converted date shifted by ∓flexDays; a date strtotime cannot read
      gives 1969-12-31 at both ends; an empty date is read relative to `today`. */
  function SearchWindow(departureDate: string, flexDays: nat, today: int): DateWindow {
    match ConvertDateToMySQL(departureDate)
    case None => DateWindow(today - flexDays, today + flexDays)
    case Some(iso) =>
      match ParseIsoDate(iso)
      case Some(day) => DateWindow(day - flexDays, day + flexDays)
      case None => DateWindow(FailedDateDay, FailedDateDay)
  }

  /** For a valid MM-DD-YYYY date the window is that day ± flexDays. */
  lemma {:induction false} SearchWindowOfValidDate(departureDate: string, flexDays: nat, today: int)
    requires ValidateDateFormat(departureDate)
    ensures var m, d, y := DigitsValue(departureDate[..2]), DigitsValue(departureDate[3..5]), DigitsValue(departureDate[6..]);
      y >= 1 && 1 <= m <= 12 &&
      SearchWindow(departureDate, flexDays, today) == DateWindow(DayNumber(y, m, d) - flexDays, DayNumber(y, m, d) + flexDays)
  {
    ConvertedDateDay(departureDate);
  }

  /** A valid MM-DD-YYYY date, converted to YYYY-MM-DD and read back, is the
      day its fields name. */
  lemma {:induction false} ConvertedDateDay(date: string)
    requires ValidateDateFormat(date)
    ensures var m, d, y := DigitsValue(date[..2]), DigitsValue(date[3..5]), DigitsValue(date[6..]);
      y >= 1 && 1 <= m <= 12 && ConvertDateToMySQL(date).Some? &&
      ParseIsoDate(ConvertDateToMySQL(date).value) == Some(DayNumber(y, m, d))
  {
    var s := date;
    DateShape(s);
    ValidateDateFormatIff(s);
    ConvertValidDate(s);
    var iso := s[6..] + "-" + s[..2] + "-" + s[3..5];
    assert iso[..4] == s[6..] && iso[5..7] == s[..2] && iso[8..] == s[3..5];
    assert FieldValue(s[..2]) == DigitsValue(s[..2]);
    assert FieldValue(s[3..5]) == DigitsValue(s[3..5]);
    assert FieldValue(s[6..]) == DigitsValue(s[6..]);
  }

  /** One row of the result: origin, destination, date window and seats. */
  predicate SearchMatch(f: FlightRow, origin: string, destination: string, window: DateWindow, numPassengers: int) {
    f.origin == origin && f.destination == destination &&
    window.first <= f.departureDate <= window.last && f.availableSeats >= numPassengers
  }

  /** ORDER BY departure_date, departure_time as a single key. */
  function DepartureKey(f: FlightRow): int {
    f.departureDate * 86400 + f.departureTime
  }

  /** For times within a day, the key orders flights by date and then by time. */
  lemma DepartureKeyOrder(f: FlightRow, g: FlightRow)
    requires 0 <= f.departureTime < 86400 && 0 <= g.departureTime < 86400
    ensures DepartureKey(f) <= DepartureKey(g) <==>
      f.departureDate < g.departureDate ||
      (f.departureDate == g.departureDate && f.departureTime <= g.departureTime)
  {
    if f.departureDate < g.departureDate {
      assert (g.departureDate - f.departureDate) * 86400 >= 86400;
    } else if f.departureDate > g.departureDate {
      assert (f.departureDate - g.departureDate) * 86400 >= 86400;
    }
  }

  lemma FilterCounts<T>(s: seq<T>, p: T -> bool)
    ensures forall x :: multiset(Filter(s, p))[x] == if p(x) then multiset(s)[x] else 0
  {
    forall x {
      FilterMultiset(s, p, x);
    }
  }

  /** searchFlights over the `flights` table (`table`, in storage order): the
      rows with the requested route, a departure date in the window and enough
      seats, each as often as it is stored, in departure order. */
  function SearchFlights(table: seq<FlightRow>, origin: string, destination: string, departureDate: string,
                         numPassengers: int, flexDays: nat, today: int): (r: seq<FlightRow>)
    ensures var window := SearchWindow(departureDate, flexDays, today);
      forall f :: f in r <==> f in table && SearchMatch(f, origin, destination, window, numPassengers)
    ensures var window := SearchWindow(departureDate, flexDays, today);
      forall f :: multiset(r)[f] == if SearchMatch(f, origin, destination, window, numPassengers) then multiset(table)[f] else 0
    ensures SortedBy(r, DepartureKey)
  {
    var window := SearchWindow(departureDate, flexDays, today);
    var p := (f: FlightRow) => SearchMatch(f, origin, destination, window, numPassengers);
    FilterCounts(table, p);
    var r := SortBy(Filter(table, p), DepartureKey);
    assert forall f :: f in r <==> f in multiset(r);
    r
  }

  // ---------------------------------------------------------------------
  // calculateFlightPrice and calculateRoomsNeeded
  // ---------------------------------------------------------------------

  /** round(x / 100) with halves away from zero: PHP's round to 2 decimals of
      an amount kept in hundredths of a cent. */
  function RoundHundredths(x: int): (r: int)
    ensures x >= 0 ==> x - 50 < 100 * r <= x + 50
    ensures x < 0 ==> x - 50 <= 100 * r < x + 50
  {
    if x >= 0 then (x + 50) / 100 else -((-x + 50) / 100)
  }

  /** calculateFlightPrice in cents: adults pay the base fare, children 70% of
      it and infants 10%, the total rounded to the nearest cent. */
  function CalculateFlightPrice(basePrice: int, adults: int, children: int, infants: int): (total: int)
    ensures var exact := 100 * adults * basePrice + ChildPercent * children * basePrice + InfantPercent * infants * basePrice;
      (exact >= 0 ==> exact - 50 < 100 * total <= exact + 50) &&
      (exact < 0 ==> exact - 50 <= 100 * total < exact + 50)
  {
    RoundHundredths(100 * adults * basePrice + ChildPercent * children * basePrice + InfantPercent * infants * basePrice)
  }

  /** No passengers cost nothing, and adults alone pay exactly the base fare each. */
  lemma FlightPriceExamples(basePrice: int, adults: int)
    ensures CalculateFlightPrice(basePrice, 0, 0, 0) == 0
    ensures CalculateFlightPrice(basePrice, adults, 0, 0) == adults * basePrice
  {
    var exact := 100 * adults * basePrice;
    var total := CalculateFlightPrice(basePrice, adults, 0, 0);
    assert exact == 100 * (adults * basePrice);
    if exact >= 0 {
      assert 100 * (adults * basePrice) - 50 < 100 * total <= 100 * (adults * basePrice) + 50;
    } else {
      assert 100 * (adults * basePrice) - 50 <= 100 * total < 100 * (adults * basePrice) + 50;
    }
  }

  /** calculateRoomsNeeded: ceil((adults + children) / 2); infants do not count. */
  function CalculateRoomsNeeded(adults: int, children: int): (rooms: int)
    ensures 2 * rooms >= adults + children
    ensures 2 * (rooms - 1) < adults + children
  {
    (adults + children + 1) / 2
  }

  /** The rooms needed are the fewest that seat two guests each. */
  lemma RoomsNeededIsLeast(adults: int, children: int, rooms: int)
    requires 2 * rooms >= adults + children
    ensures CalculateRoomsNeeded(adults, children) <= rooms
  {
  }

  // ---------------------------------------------------------------------
  // bookFlight
  // ---------------------------------------------------------------------

  /** One entry of bookFlight's `$passengers` (price in cents). */
  datatype Passenger = Passenger(ssn: string, firstName: string, lastName: string,
                                 dateOfBirth: string, category: string, price: int)

  /** One entry of the `tickets` list bookFlight returns. */
  datatype Ticket = Ticket(ticketId: string, ssn: string, firstName: string, lastName: string,
                           dateOfBirth: string, category: string, price: int)

  datatype BookFlightResult = FlightBooked(bookingId: string, tickets: seq<Ticket>) | FlightBookingFailed

  /** The tables bookFlight leaves behind, with what it returns. */
  datatype FlightOutcome = FlightOutcome(state: DbState, result: BookFlightResult)

  /** Every mt_rand(1, 999999) draw lies in range. */
  predicate ValidDraws(draws: seq<nat>) {
    forall i :: 0 <= i < |draws| ==> 1 <= draws[i] <= 999999
  }

  function TicketIds(draws: seq<nat>): (ids: seq<string>)
    requires ValidDraws(draws)
    ensures |ids| == |draws|
    ensures forall i :: 0 <= i < |draws| ==> ids[i] == GenerateUniqueID("TK", draws[i])
  {
    seq(|draws|, i requires 0 <= i < |draws| && ValidDraws(draws) => GenerateUniqueID("TK", draws[i]))
  }

  /** Some ticket id is already stored, or repeats an earlier one of the same booking. */
  predicate IdsCollide(stored: set<string>, ids: seq<string>) {
    exists i :: 0 <= i < |ids| && (ids[i] in stored || ids[i] in ids[..i])
  }

  function PassengerRowOf(p: Passenger): PassengerRow {
    PassengerRow(p.ssn, p.firstName, p.lastName, p.dateOfBirth, p.category)
  }

  /** The passenger upserts, in order, keyed by SSN. */
  function PassengerUpserts(ps: seq<Passenger>): (kvs: seq<(string, PassengerRow)>)
    ensures |kvs| == |ps|
    ensures forall i :: 0 <= i < |ps| ==> kvs[i] == (ps[i].ssn, PassengerRowOf(ps[i]))
  {
    seq(|ps|, i requires 0 <= i < |ps| => (ps[i].ssn, PassengerRowOf(ps[i])))
  }

  /** The ticket inserts, in passenger order, keyed by ticket id. */
  function TicketInserts(ids: seq<string>, bookingId: string, ps: seq<Passenger>): (kvs: seq<(string, TicketRow)>)
    requires |ids| == |ps|
    ensures |kvs| == |ps|
    ensures forall i :: 0 <= i < |ps| ==> kvs[i] == (ids[i], TicketRow(ids[i], bookingId, ps[i].ssn, ps[i].price))
  {
    seq(|ps|, i requires 0 <= i < |ps| && |ids| == |ps| => (ids[i], TicketRow(ids[i], bookingId, ps[i].ssn, ps[i].price)))
  }

  function TicketsOf(ids: seq<string>, ps: seq<Passenger>): (ts: seq<Ticket>)
    requires |ids| == |ps|
    ensures |ts| == |ps|
    ensures forall i :: 0 <= i < |ps| ==>
      ts[i] == Ticket(ids[i], ps[i].ssn, ps[i].firstName, ps[i].lastName, ps[i].dateOfBirth, ps[i].category, ps[i].price)
  {
    seq(|ps|, i requires 0 <= i < |ps| && |ids| == |ps| =>
      Ticket(ids[i], ps[i].ssn, ps[i].firstName, ps[i].lastName, ps[i].dateOfBirth, ps[i].category, ps[i].price))
  }

  /** `UPDATE flights SET available_seats = available_seats - n WHERE flight_id = id`. */
  function TakeSeats(flights: map<string, FlightRow>, flightId: string, n: int): map<string, FlightRow> {
    if flightId in flights
    then flights[flightId := flights[flightId].(availableSeats := flights[flightId].availableSeats - n)]
    else flights
  }

  /** What bookFlight leaves behind, given the booking id and the ticket ids
      it drew: either every insert and the seat update happen, or (when an id
      is already taken and an INSERT throws) the transaction rolls back. */
  function BookFlightSpec(s: DbState, flightId: string, userPhone: string, ps: seq<Passenger>, totalPrice: int,
                          bookingId: string, ids: seq<string>): FlightOutcome
    requires |ids| == |ps|
  {
    if bookingId in s.flightBookings || IdsCollide(s.tickets.Keys, ids) then FlightOutcome(s, FlightBookingFailed)
    else FlightOutcome(BookingApplied(s, flightId, userPhone, ps, totalPrice, bookingId, ids), FlightBooked(bookingId, TicketsOf(ids, ps)))
  }

  /** The tables after a committed flight booking. */
  function BookingApplied(s: DbState, flightId: string, userPhone: string, ps: seq<Passenger>, totalPrice: int,
                          bookingId: string, ids: seq<string>): DbState
    requires |ids| == |ps|
  {
    s.(flightBookings := s.flightBookings[bookingId := FlightBookingRow(bookingId, flightId, userPhone, totalPrice)],
       passengers := PutAll(s.passengers, PassengerUpserts(ps)),
       tickets := PutAll(s.tickets, TicketInserts(ids, bookingId, ps)),
       flights := TakeSeats(s.flights, flightId, |ps|))
  }

  /** The booking fails exactly when an id is taken, and then leaves every
      table as it was; success adds exactly one booking row and touches
      neither the users nor the hotel tables. */
  lemma BookFlightAllOrNothing(s: DbState, flightId: string, userPhone: string, ps: seq<Passenger>,
                               totalPrice: int, bookingId: string, ids: seq<string>)
    requires |ids| == |ps|
    ensures var out := BookFlightSpec(s, flightId, userPhone, ps, totalPrice, bookingId, ids);
      (out.result.FlightBookingFailed? <==> bookingId in s.flightBookings || IdsCollide(s.tickets.Keys, ids)) &&
      (out.result.FlightBookingFailed? ==> out.state == s)
    ensures var out := BookFlightSpec(s, flightId, userPhone, ps, totalPrice, bookingId, ids);
      out.result.FlightBooked? ==>
        out.result.bookingId == bookingId && bookingId !in s.flightBookings &&
        out.state.flightBookings.Keys == s.flightBookings.Keys + {bookingId} &&
        out.state.flightBookings[bookingId] == FlightBookingRow(bookingId, flightId, userPhone, totalPrice) &&
        out.state.users == s.users && out.state.hotels == s.hotels && out.state.hotelBookings == s.hotelBookings &&
        out.state.guests == s.guests
  {
    var out := BookFlightSpec(s, flightId, userPhone, ps, totalPrice, bookingId, ids);
    if out.result.FlightBooked? {
      assert out.state.flightBookings.Keys == s.flightBookings.Keys + {bookingId};
    }
  }

  lemma {:induction false} DistinctIds(stored: set<string>, ids: seq<string>, i: nat, j: nat)
    requires !IdsCollide(stored, ids)
    requires i < j < |ids|
    ensures ids[i] != ids[j]
  {
    assert ids[j] !in ids[..j];
    assert ids[..j][i] == ids[i];
  }

  /** On success there is one new ticket per passenger, in passenger order,
      each linked to the booking and carrying that passenger's SSN and price. */
  lemma {:induction false} BookFlightTickets(s: DbState, flightId: string, userPhone: string, ps: seq<Passenger>,
                                             totalPrice: int, bookingId: string, ids: seq<string>, i: nat)
    requires |ids| == |ps|
    requires bookingId !in s.flightBookings && !IdsCollide(s.tickets.Keys, ids)
    requires i < |ps|
    ensures var out := BookFlightSpec(s, flightId, userPhone, ps, totalPrice, bookingId, ids);
      out.result.FlightBooked? && |out.result.tickets| == |ps| &&
      out.result.tickets[i].ticketId == ids[i] && out.result.tickets[i].ssn == ps[i].ssn &&
      ids[i] !in s.tickets && ids[i] in out.state.tickets &&
      out.state.tickets[ids[i]] == TicketRow(ids[i], bookingId, ps[i].ssn, ps[i].price)
  {
    var kvs := TicketInserts(ids, bookingId, ps);
    var id := ids[i];
    assert ids[i] !in s.tickets.Keys;
    var last := LastIndexOfKey(kvs, id);
    assert kvs[i].0 == id;
    assert last.Some?;
    if last.value > i {
      DistinctIds(s.tickets.Keys, ids, i, last.value);
    }
    PutAllAt(s.tickets, kvs, id);
  }

  /** On success the tickets table gains exactly the new ticket ids and keeps
      every stored ticket as it was. */
  lemma {:induction false} BookFlightTicketKeys(s: DbState, flightId: string, userPhone: string, ps: seq<Passenger>,
                                                totalPrice: int, bookingId: string, ids: seq<string>, t: string)
    requires |ids| == |ps|
    requires !IdsCollide(s.tickets.Keys, ids)
    ensures var s' := BookingApplied(s, flightId, userPhone, ps, totalPrice, bookingId, ids);
      (t in s'.tickets <==> t in s.tickets || t in ids) &&
      (t in s.tickets ==> s'.tickets[t] == s.tickets[t])
  {
    var kvs := TicketInserts(ids, bookingId, ps);
    PutAllKeys(s.tickets, kvs);
    KeysOfMembers(kvs, t);
    if t in ids {
      var j :| 0 <= j < |ids| && ids[j] == t;
      assert kvs[j].0 == t;
    }
    if t in s.tickets {
      forall j | 0 <= j < |ids| ensures kvs[j].0 != t {
        assert ids[j] !in s.tickets.Keys;
      }
      PutAllAt(s.tickets, kvs, t);
    }
  }

  /** Each passenger is upserted by SSN: an SSN no passenger carries keeps its
      row, and one some passenger carries holds the last such passenger. */
  lemma {:induction false} BookFlightPassengers(s: DbState, flightId: string, userPhone: string, ps: seq<Passenger>,
                                                totalPrice: int, bookingId: string, ids: seq<string>, ssn: string)
    requires |ids| == |ps|
    ensures var s' := BookingApplied(s, flightId, userPhone, ps, totalPrice, bookingId, ids);
      (forall i :: 0 <= i < |ps| ==> ps[i].ssn != ssn) ==>
        (ssn in s'.passengers <==> ssn in s.passengers) &&
        (ssn in s.passengers ==> s'.passengers[ssn] == s.passengers[ssn])
    ensures var s' := BookingApplied(s, flightId, userPhone, ps, totalPrice, bookingId, ids);
      forall i :: 0 <= i < |ps| && ps[i].ssn == ssn && (forall j :: i < j < |ps| ==> ps[j].ssn != ssn) ==>
        ssn in s'.passengers && s'.passengers[ssn] == PassengerRowOf(ps[i])
  {
    var kvs := PassengerUpserts(ps);
    PutAllAt(s.passengers, kvs, ssn);
    var last := LastIndexOfKey(kvs, ssn);
    if last.Some? {
      forall i | 0 <= i < |ps| && ps[i].ssn == ssn && (forall j :: i < j < |ps| ==> ps[j].ssn != ssn)
        ensures i == last.value
      {
        assert kvs[last.value].0 == ssn;
        assert kvs[i].0 == ssn;
      }
    }
  }

  /** On success the booked flight loses exactly one seat per passenger (with
      no lower bound) and no other flight changes. */
  lemma BookFlightSeats(s: DbState, flightId: string, userPhone: string, ps: seq<Passenger>,
                        totalPrice: int, bookingId: string, ids: seq<string>, other: string)
    requires |ids| == |ps|
    ensures var s' := BookingApplied(s, flightId, userPhone, ps, totalPrice, bookingId, ids);
      s'.flights.Keys == s.flights.Keys &&
      (flightId in s.flights ==> s'.flights[flightId].availableSeats == s.flights[flightId].availableSeats - |ps|) &&
      (other != flightId && other in s.flights ==> s'.flights[other] == s.flights[other])
  {
  }

  /** bookFlight: begin a transaction, insert the booking under a fresh FB id,
      then for each passenger upsert the passenger and insert a ticket under a
      fresh TK id, then take the seats and commit; a duplicate id makes an
      INSERT throw and rolls everything back. */
  method BookFlight(db: Database, flightId: string, userPhone: string, ps: seq<Passenger>, totalPrice: int,
                    bookingDraw: nat, ticketDraws: seq<nat>) returns (r: BookFlightResult)
    requires 1 <= bookingDraw <= 999999 && ValidDraws(ticketDraws) && |ticketDraws| == |ps|
    modifies db
    ensures FlightOutcome(db.State(), r) ==
      BookFlightSpec(old(db.State()), flightId, userPhone, ps, totalPrice, GenerateUniqueID("FB", bookingDraw), TicketIds(ticketDraws))
  {
    var saved := db.State();
    var bookingId := GenerateUniqueID("FB", bookingDraw);
    var ids := TicketIds(ticketDraws);
    if bookingId in db.flightBookings {
      return FlightBookingFailed;
    }
    db.flightBookings := db.flightBookings[bookingId := FlightBookingRow(bookingId, flightId, userPhone, totalPrice)];
    var tickets := InsertPassengers(db, saved, flightId, userPhone, ps, totalPrice, bookingId, ids);
    if tickets.None? {
      db.Restore(saved);
      return FlightBookingFailed;
    }
    BookingPartialComplete(saved, flightId, userPhone, ps, totalPrice, bookingId, ids);
    db.flights := TakeSeats(db.flights, flightId, |ps|);
    return FlightBooked(bookingId, tickets.value);
  }

  /** bookFlight's loop over the passengers: upsert each passenger and insert
      its ticket; `None` when a ticket INSERT hits a taken id. */
  method InsertPassengers(db: Database, saved: DbState, flightId: string, userPhone: string, ps: seq<Passenger>,
                          totalPrice: int, bookingId: string, ids: seq<string>) returns (tickets: Option<seq<Ticket>>)
    requires |ids| == |ps|
    requires db.State() == BookingPartial(saved, flightId, userPhone, ps, totalPrice, bookingId, ids, 0)
    modifies db
    ensures tickets.None? <==> IdsCollide(saved.tickets.Keys, ids)
    ensures tickets.Some? ==>
      tickets.value == TicketsOf(ids, ps) &&
      db.State() == BookingPartial(saved, flightId, userPhone, ps, totalPrice, bookingId, ids, |ps|)
  {
    var done: seq<Ticket> := [];
    var i := 0;
    while i < |ps|
      invariant 0 <= i <= |ps|
      invariant db.State() == BookingPartial(saved, flightId, userPhone, ps, totalPrice, bookingId, ids, i)
      invariant !IdsCollide(saved.tickets.Keys, ids[..i])
      invariant done == TicketsOf(ids, ps)[..i]
    {
      var p := ps[i];
      db.passengers := db.passengers[p.ssn := PassengerRowOf(p)];
      var ticketId := ids[i];
      if ticketId in db.tickets {
        CollisionAt(saved, flightId, userPhone, ps, totalPrice, bookingId, ids, i);
        return None;
      }
      db.tickets := db.tickets[ticketId := TicketRow(ticketId, bookingId, p.ssn, p.price)];
      done := done + [Ticket(ticketId, p.ssn, p.firstName, p.lastName, p.dateOfBirth, p.category, p.price)];
      BookingPartialStep(saved, flightId, userPhone, ps, totalPrice, bookingId, ids, i);
      TicketsOfStep(ids, ps, i);
      i := i + 1;
    }
    assert ids[..|ps|] == ids;
    assert done == TicketsOf(ids, ps);
    return Some(done);
  }

  /** The tables after the booking row and the first `i` passengers and tickets. */
  function BookingPartial(s: DbState, flightId: string, userPhone: string, ps: seq<Passenger>, totalPrice: int,
                          bookingId: string, ids: seq<string>, i: nat): DbState
    requires |ids| == |ps| && i <= |ps|
  {
    s.(flightBookings := s.flightBookings[bookingId := FlightBookingRow(bookingId, flightId, userPhone, totalPrice)],
       passengers := PutAll(s.passengers, PassengerUpserts(ps)[..i]),
       tickets := PutAll(s.tickets, TicketInserts(ids, bookingId, ps)[..i]))
  }

  /** One more passenger and ticket; the ticket id is new exactly when it
      collides with nothing stored or drawn before. */
  lemma {:induction false} BookingPartialStep(s: DbState, flightId: string, userPhone: string, ps: seq<Passenger>,
                                              totalPrice: int, bookingId: string, ids: seq<string>, i: nat)
    requires |ids| == |ps| && i < |ps|
    requires !IdsCollide(s.tickets.Keys, ids[..i])
    requires ids[i] !in BookingPartial(s, flightId, userPhone, ps, totalPrice, bookingId, ids, i).tickets
    ensures var before := BookingPartial(s, flightId, userPhone, ps, totalPrice, bookingId, ids, i);
      BookingPartial(s, flightId, userPhone, ps, totalPrice, bookingId, ids, i + 1) ==
        before.(passengers := before.passengers[ps[i].ssn := PassengerRowOf(ps[i])],
                tickets := before.tickets[ids[i] := TicketRow(ids[i], bookingId, ps[i].ssn, ps[i].price)])
    ensures !IdsCollide(s.tickets.Keys, ids[..i + 1])
  {
    var upserts := PassengerUpserts(ps);
    var inserts := TicketInserts(ids, bookingId, ps);
    assert upserts[..i + 1][..i] == upserts[..i];
    assert inserts[..i + 1][..i] == inserts[..i];
    StoredTicketIds(s.tickets, inserts, ids, i);
    NoCollisionExtends(s.tickets.Keys, ids, i);
  }

  lemma {:induction false} BookingPartialComplete(s: DbState, flightId: string, userPhone: string, ps: seq<Passenger>,
                                                  totalPrice: int, bookingId: string, ids: seq<string>)
    requires |ids| == |ps|
    ensures var done := BookingPartial(s, flightId, userPhone, ps, totalPrice, bookingId, ids, |ps|);
      done.(flights := TakeSeats(done.flights, flightId, |ps|)) == BookingApplied(s, flightId, userPhone, ps, totalPrice, bookingId, ids)
    ensures ids[..|ps|] == ids && TicketsOf(ids, ps)[..|ps|] == TicketsOf(ids, ps)
  {
    assert PassengerUpserts(ps)[..|ps|] == PassengerUpserts(ps);
    assert TicketInserts(ids, bookingId, ps)[..|ps|] == TicketInserts(ids, bookingId, ps);
  }

  lemma TicketsOfStep(ids: seq<string>, ps: seq<Passenger>, i: nat)
    requires |ids| == |ps| && i < |ps|
    ensures TicketsOf(ids, ps)[..i + 1] ==
      TicketsOf(ids, ps)[..i] + [Ticket(ids[i], ps[i].ssn, ps[i].firstName, ps[i].lastName, ps[i].dateOfBirth, ps[i].category, ps[i].price)]
  {
    var ts := TicketsOf(ids, ps);
    assert ts[..i + 1] == ts[..i] + [ts[i]];
  }

  /** A ticket id already in the table after `i` steps is a collision. */
  lemma {:induction false} CollisionAt(s: DbState, flightId: string, userPhone: string, ps: seq<Passenger>,
                                       totalPrice: int, bookingId: string, ids: seq<string>, i: nat)
    requires |ids| == |ps| && i < |ps|
    requires ids[i] in BookingPartial(s, flightId, userPhone, ps, totalPrice, bookingId, ids, i).tickets
    ensures IdsCollide(s.tickets.Keys, ids)
  {
    StoredTicketIds(s.tickets, TicketInserts(ids, bookingId, ps), ids, i);
    if ids[i] in ids[..i] {
      var j :| 0 <= j < i && ids[..i][j] == ids[i];
      assert ids[..i] == ids[..i][..j] + [ids[..i][j]] + ids[..i][j+1..];
    }
  }

  lemma {:induction false} StoredTicketIds(stored: map<string, TicketRow>, inserts: seq<(string, TicketRow)>,
                                           ids: seq<string>, i: nat)
    requires i < |ids| == |inserts|
    requires forall j :: 0 <= j < |ids| ==> inserts[j].0 == ids[j]
    ensures ids[i] in PutAll(stored, inserts[..i]) <==> ids[i] in stored || ids[i] in ids[..i]
  {
    PutAllKeys(stored, inserts[..i]);
    KeysOfMembers(inserts[..i], ids[i]);
    if ids[i] in ids[..i] {
      var j :| 0 <= j < i && ids[..i][j] == ids[i];
      assert inserts[..i][j].0 == ids[i];
    }
  }

  lemma {:induction false} NoCollisionExtends(stored: set<string>, ids: seq<string>, i: nat)
    requires i < |ids|
    requires !IdsCollide(stored, ids[..i])
    requires ids[i] !in stored && ids[i] !in ids[..i]
    ensures !IdsCollide(stored, ids[..i + 1])
  {
    var next := ids[..i + 1];
    forall k | 0 <= k < |next|
      ensures next[k] !in stored && next[k] !in next[..k]
    {
      if k < i {
        assert ids[..i][k] == next[k];
        assert ids[..i][..k] == next[..k];
      } else {
        assert next[..k] == ids[..i];
      }
    }
  }

  // ---------------------------------------------------------------------
  // bookHotel
  // ---------------------------------------------------------------------

  /** One entry of bookHotel's `$guests`. */
  datatype Guest = Guest(ssn: string, firstName: string, lastName: string, dateOfBirth: string, category: string)

  datatype BookHotelResult = HotelBooked(bookingId: string) | HotelBookingFailed

  /** The tables bookHotel leaves behind, with what it returns. */
  datatype HotelOutcome = HotelOutcome(state: DbState, result: BookHotelResult)

  function GuestRows(guests: seq<Guest>, bookingId: string): (rows: seq<GuestRow>)
    ensures |rows| == |guests|
    ensures forall i :: 0 <= i < |guests| ==>
      rows[i] == GuestRow(guests[i].ssn, bookingId, guests[i].firstName, guests[i].lastName, guests[i].dateOfBirth, guests[i].category)
  {
    seq(|guests|, i requires 0 <= i < |guests| =>
      GuestRow(guests[i].ssn, bookingId, guests[i].firstName, guests[i].lastName, guests[i].dateOfBirth, guests[i].category))
  }

  /** What bookHotel leaves behind: the booking row with both dates converted
      to YYYY-MM-DD and one guest row per guest, or, when the drawn booking id
      is taken, nothing at all. */
  function BookHotelSpec(s: DbState, hotelId: string, userPhone: string, checkInDate: string, checkOutDate: string,
                         numRooms: int, pricePerNight: int, totalPrice: int, guests: seq<Guest>, draw: nat): HotelOutcome
    requires 1 <= draw <= 999999
  {
    var bookingId := GenerateUniqueID("HB", draw);
    if bookingId in s.hotelBookings then HotelOutcome(s, HotelBookingFailed)
    else
      var row := HotelBookingRow(bookingId, hotelId, userPhone, ConvertDateToMySQL(checkInDate), ConvertDateToMySQL(checkOutDate),
                                 numRooms, pricePerNight, totalPrice);
      HotelOutcome(s.(hotelBookings := s.hotelBookings[bookingId := row], guests := s.guests + GuestRows(guests, bookingId)),
                   HotelBooked(bookingId))
  }

  /** bookHotel changes no inventory: hotels, flights and the flight tables
      stay as they were; on success one booking and |guests| guest rows are
      added, linked to the booking, and valid dates are stored year first. */
  lemma {:induction false} BookHotelEffect(s: DbState, hotelId: string, userPhone: string, checkInDate: string,
                                           checkOutDate: string, numRooms: int, pricePerNight: int, totalPrice: int,
                                           guests: seq<Guest>, draw: nat)
    requires 1 <= draw <= 999999
    ensures var out := BookHotelSpec(s, hotelId, userPhone, checkInDate, checkOutDate, numRooms, pricePerNight, totalPrice, guests, draw);
      var s', r := out.state, out.result;
      s'.hotels == s.hotels && s'.flights == s.flights && s'.users == s.users &&
      s'.flightBookings == s.flightBookings && s'.tickets == s.tickets && s'.passengers == s.passengers &&
      (r.HotelBookingFailed? ==> s' == s) &&
      (r.HotelBooked? ==>
        r.bookingId !in s.hotelBookings &&
        s'.hotelBookings.Keys == s.hotelBookings.Keys + {r.bookingId} &&
        |s'.guests| == |s.guests| + |guests| && s'.guests[..|s.guests|] == s.guests &&
        (forall id :: id in s.hotelBookings ==> s'.hotelBookings[id] == s.hotelBookings[id]) &&
        s'.hotelBookings[r.bookingId] == HotelBookingRow(r.bookingId, hotelId, userPhone, ConvertDateToMySQL(checkInDate),
                                                         ConvertDateToMySQL(checkOutDate), numRooms, pricePerNight, totalPrice) &&
        (forall i :: 0 <= i < |guests| ==>
          var g := s'.guests[|s.guests| + i];
          g.bookingId == r.bookingId && g.ssn == guests[i].ssn && g.firstName == guests[i].firstName &&
          g.lastName == guests[i].lastName && g.dateOfBirth == guests[i].dateOfBirth && g.category == guests[i].category) &&
        (ValidateDateFormat(checkInDate) ==>
          s'.hotelBookings[r.bookingId].checkIn == Some(checkInDate[6..] + "-" + checkInDate[..2] + "-" + checkInDate[3..5])) &&
        (ValidateDateFormat(checkOutDate) ==>
          s'.hotelBookings[r.bookingId].checkOut == Some(checkOutDate[6..] + "-" + checkOutDate[..2] + "-" + checkOutDate[3..5])))
  {
    var bookingId := GenerateUniqueID("HB", draw);
    if bookingId !in s.hotelBookings {
      var row := HotelBookingRow(bookingId, hotelId, userPhone, ConvertDateToMySQL(checkInDate), ConvertDateToMySQL(checkOutDate),
                                 numRooms, pricePerNight, totalPrice);
      var rows := GuestRows(guests, bookingId);
      var s' := s.(hotelBookings := s.hotelBookings[bookingId := row], guests := s.guests + rows);
      assert BookHotelSpec(s, hotelId, userPhone, checkInDate, checkOutDate, numRooms, pricePerNight, totalPrice, guests, draw) ==
        HotelOutcome(s', HotelBooked(bookingId));
      assert s'.hotelBookings.Keys == s.hotelBookings.Keys + {bookingId};
      assert s'.guests[..|s.guests|] == s.guests;
      forall i | |s.guests| <= i < |s'.guests| ensures s'.guests[i].bookingId == bookingId {
        assert s'.guests[i] == rows[i - |s.guests|];
      }
      forall i | 0 <= i < |guests| ensures s'.guests[|s.guests| + i] == rows[i] {
      }
      StoredYearFirst(checkInDate);
      StoredYearFirst(checkOutDate);
    }
  }

  /** A valid MM-DD-YYYY date is stored as YYYY-MM-DD. */
  lemma StoredYearFirst(date: string)
    ensures ValidateDateFormat(date) ==> ConvertDateToMySQL(date) == Some(date[6..] + "-" + date[..2] + "-" + date[3..5])
  {
    if ValidateDateFormat(date) {
      ConvertValidDate(date);
    }
  }

  /** bookHotel: begin a transaction, insert the booking, insert each guest, commit. */
  method BookHotel(db: Database, hotelId: string, userPhone: string, checkInDate: string, checkOutDate: string,
                   numRooms: int, pricePerNight: int, totalPrice: int, guests: seq<Guest>, draw: nat)
    returns (r: BookHotelResult)
    requires 1 <= draw <= 999999
    modifies db
    ensures HotelOutcome(db.State(), r) ==
      BookHotelSpec(old(db.State()), hotelId, userPhone, checkInDate, checkOutDate, numRooms, pricePerNight, totalPrice, guests, draw)
  {
    var saved := db.State();
    var bookingId := GenerateUniqueID("HB", draw);
    if bookingId in db.hotelBookings {
      return HotelBookingFailed;
    }
    var checkIn := ConvertDateToMySQL(checkInDate);
    var checkOut := ConvertDateToMySQL(checkOutDate);
    db.hotelBookings := db.hotelBookings[bookingId := HotelBookingRow(bookingId, hotelId, userPhone, checkIn, checkOut,
                                                                      numRooms, pricePerNight, totalPrice)];
    var rows := GuestRows(guests, bookingId);
    for i := 0 to |guests|
      invariant db.guests == saved.guests + rows[..i]
      invariant db.State() == saved.(hotelBookings := db.hotelBookings, guests := db.guests)
      invariant db.hotelBookings == saved.hotelBookings[bookingId := HotelBookingRow(bookingId, hotelId, userPhone, checkIn, checkOut,
                                                                                    numRooms, pricePerNight, totalPrice)]
    {
      var g := guests[i];
      db.guests := db.guests + [GuestRow(g.ssn, bookingId, g.firstName, g.lastName, g.dateOfBirth, g.category)];
      assert rows[..i + 1] == rows[..i] + [rows[i]];
    }
    assert rows[..|guests|] == rows;
    return HotelBooked(bookingId);
  }

  // ---------------------------------------------------------------------
  // saveContact
  // ---------------------------------------------------------------------

  /** One <contact> element of contacts.xml; a null gender is an empty element. */
  datatype ContactEntry = ContactEntry(contactId: string, phone: string, firstName: string, lastName: string,
                                       dateOfBirth: string, email: string, gender: string, comment: string,
                                       timestamp: string)

  /** data/contacts.xml: its <contact> children in document order; a missing
      file is an empty <contacts> root. */
  class ContactsFile {
    var contacts: seq<ContactEntry>

    constructor ()
      ensures contacts == []
    {
      contacts := [];
    }

    /** saveContact: appends one contact with a fresh CNT identifier and the
        current time (`draw` and `timestamp` are mt_rand and date()). */
    method SaveContact(phone: string, firstName: string, lastName: string, dateOfBirth: string, email: string,
                       gender: Option<string>, comment: string, draw: nat, timestamp: string)
      returns (contactId: string)
      requires 1 <= draw <= 999999
      modifies this
      ensures contactId == GenerateUniqueID("CNT", draw)
      ensures contacts == old(contacts) +
        [ContactEntry(contactId, phone, firstName, lastName, dateOfBirth, email, gender.GetOr(""), comment, timestamp)]
    {
      contactId := GenerateUniqueID("CNT", draw);
      contacts := contacts +
        [ContactEntry(contactId, phone, firstName, lastName, dateOfBirth, email, gender.GetOr(""), comment, timestamp)];
    }
  }
}
