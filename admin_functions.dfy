/** php/admin-functions.php: the two bulk loaders (an upsert per record with
    inserted/updated counters) and the administrator's reports. A report
    reads the booking tables in scan order (sequences) and the tables it joins
    to by primary key (maps); SQL's LIKE '%XY%' is a case-sensitive substring
    test here. */
module AdminFunctions {
  import opened Common
  import opened Calendar
  import opened Sorting
  import opened Config
  import opened Tables
  import opened Functions

  // ---------------------------------------------------------------------
  // INSERT ... ON DUPLICATE KEY UPDATE and its counters
  // ---------------------------------------------------------------------

  /** MySQL's affected-rows count for one upsert: 1 for a new key, 2 for an
      existing row that changes, 0 for an existing row that is already equal. */
  function AffectedRows<V(==)>(table: map<string, V>, key: string, row: V): (n: nat)
    ensures n == 1 <==> key !in table
    ensures n == 2 <==> key in table && table[key] != row
    ensures n == 0 <==> key in table && table[key] == row
  {
    if key !in table then 1 else if table[key] != row then 2 else 0
  }

  /** The (inserted, updated) counters after upserting `kvs` in order. */
  function UpsertCounts<V(==)>(table: map<string, V>, kvs: seq<(string, V)>): (nat, nat)
  {
    if kvs == [] then (0, 0)
    else
      var init := kvs[..|kvs| - 1];
      var prev := UpsertCounts(table, init);
      var a := AffectedRows(PutAll(table, init), kvs[|kvs| - 1].0, kvs[|kvs| - 1].1);
      (prev.0 + (if a == 1 then 1 else 0), prev.1 + (if a == 2 then 1 else 0))
  }

  /** Every record counts at most once, and `inserted` is exactly the number
      of rows the load adds to the table. */
  lemma {:induction false} UpsertCountsMeaning<V>(table: map<string, V>, kvs: seq<(string, V)>)
    ensures UpsertCounts(table, kvs).0 + UpsertCounts(table, kvs).1 <= |kvs|
    ensures UpsertCounts(table, kvs).0 == |PutAll(table, kvs)| - |table|
  {
    if kvs != [] {
      UpsertCountsMeaning(table, kvs[..|kvs| - 1]);
    }
  }

  /** Loading the same records a second time inserts nothing. */
  lemma {:induction false} ReloadInsertsNothing<V>(table: map<string, V>, kvs: seq<(string, V)>)
    ensures UpsertCounts(PutAll(table, kvs), kvs).0 == 0
  {
    var once := PutAll(table, kvs);
    UpsertCountsMeaning(once, kvs);
    PutAllKeys(table, kvs);
    PutAllKeys(once, kvs);
    assert PutAll(once, kvs).Keys == once.Keys;
    assert |PutAll(once, kvs)| == |PutAll(once, kvs).Keys| == |once.Keys| == |once|;
  }

  /** The loaders' loop: execute the prepared upsert for each record and
      count the affected rows. */
  method CountedUpsert<V(==)>(table: map<string, V>, kvs: seq<(string, V)>)
    returns (result: map<string, V>, inserted: nat, updated: nat)
    ensures result == PutAll(table, kvs)
    ensures (inserted, updated) == UpsertCounts(table, kvs)
  {
    result, inserted, updated := table, 0, 0;
    for i := 0 to |kvs|
      invariant result == PutAll(table, kvs[..i])
      invariant (inserted, updated) == UpsertCounts(table, kvs[..i])
    {
      assert kvs[..i + 1][..i] == kvs[..i];
      var a := AffectedRows(result, kvs[i].0, kvs[i].1);
      if a == 1 {
        inserted := inserted + 1;
      } else if a == 2 {
        updated := updated + 1;
      }
      result := result[kvs[i].0 := kvs[i].1];
    }
    assert kvs[..|kvs|] == kvs;
  }

  // ---------------------------------------------------------------------
  // loadFlightsFromJSON and loadHotelsFromXML
  // ---------------------------------------------------------------------

  datatype LoadResult =
    | LoadRedirect(page: string)
    | LoadFailed(error: string)
    | Loaded(message: string, inserted: nat, updated: nat)

  /** data/flights.json: absent, or decoded, with `None` when the decoded
      data has no 'flights' entry (or is not JSON at all). */
  datatype FlightsFile = FlightsFileMissing | FlightsDecoded(flights: Option<seq<FlightRow>>)

  /** data/hotels.xml: absent, unparsable, or its <hotel> elements. */
  datatype HotelsFile = HotelsFileMissing | HotelsInvalidXml | HotelsParsed(hotels: seq<HotelRow>)

  function FlightUpserts(flights: seq<FlightRow>): (kvs: seq<(string, FlightRow)>)
    ensures |kvs| == |flights|
    ensures forall i :: 0 <= i < |flights| ==> kvs[i] == (flights[i].flightId, flights[i])
  {
    seq(|flights|, i requires 0 <= i < |flights| => (flights[i].flightId, flights[i]))
  }

  function HotelUpserts(hotels: seq<HotelRow>): (kvs: seq<(string, HotelRow)>)
    ensures |kvs| == |hotels|
    ensures forall i :: 0 <= i < |hotels| ==> kvs[i] == (hotels[i].hotelId, hotels[i])
  {
    seq(|hotels|, i requires 0 <= i < |hotels| => (hotels[i].hotelId, hotels[i]))
  }

  /** loadFlightsFromJSON: only an administrator gets past requireAdmin; a
      missing file or a missing 'flights' entry changes nothing; otherwise
      every record is upserted by flight_id and the counters returned. */
  method LoadFlightsFromJson(db: Database, session: Session, file: FlightsFile, path: string)
    returns (r: LoadResult)
    modifies db
    ensures RequireAdmin(session).RedirectTo? ==>
      r == LoadRedirect(RequireAdmin(session).page) && db.State() == old(db.State())
    ensures IsAdmin(session) && file.FlightsFileMissing? ==>
      r == LoadFailed("flights.json file not found at: " + path) && db.State() == old(db.State())
    ensures IsAdmin(session) && file == FlightsDecoded(None) ==>
      r == LoadFailed("Invalid JSON format") && db.State() == old(db.State())
    ensures IsAdmin(session) && file.FlightsDecoded? && file.flights.Some? ==>
      var kvs := FlightUpserts(file.flights.value);
      r == Loaded("Flights loaded successfully", UpsertCounts(old(db.flights), kvs).0, UpsertCounts(old(db.flights), kvs).1) &&
      db.State() == old(db.State()).(flights := PutAll(old(db.flights), kvs))
  {
    var gate := RequireAdmin(session);
    if gate.RedirectTo? {
      return LoadRedirect(gate.page);
    }
    if file.FlightsFileMissing? {
      return LoadFailed("flights.json file not found at: " + path);
    }
    if file.flights.None? {
      return LoadFailed("Invalid JSON format");
    }
    var table, inserted, updated := CountedUpsert(db.flights, FlightUpserts(file.flights.value));
    db.flights := table;
    return Loaded("Flights loaded successfully", inserted, updated);
  }

  /** loadHotelsFromXML: the same, keyed by hotel_id. */
  method LoadHotelsFromXml(db: Database, session: Session, file: HotelsFile, path: string)
    returns (r: LoadResult)
    modifies db
    ensures RequireAdmin(session).RedirectTo? ==>
      r == LoadRedirect(RequireAdmin(session).page) && db.State() == old(db.State())
    ensures IsAdmin(session) && file.HotelsFileMissing? ==>
      r == LoadFailed("hotels.xml file not found at: " + path) && db.State() == old(db.State())
    ensures IsAdmin(session) && file.HotelsInvalidXml? ==>
      r == LoadFailed("Invalid XML format") && db.State() == old(db.State())
    ensures IsAdmin(session) && file.HotelsParsed? ==>
      var kvs := HotelUpserts(file.hotels);
      r == Loaded("Hotels loaded successfully", UpsertCounts(old(db.hotels), kvs).0, UpsertCounts(old(db.hotels), kvs).1) &&
      db.State() == old(db.State()).(hotels := PutAll(old(db.hotels), kvs))
  {
    var gate := RequireAdmin(session);
    if gate.RedirectTo? {
      return LoadRedirect(gate.page);
    }
    if file.HotelsFileMissing? {
      return LoadFailed("hotels.xml file not found at: " + path);
    }
    if file.HotelsInvalidXml? {
      return LoadFailed("Invalid XML format");
    }
    var table, inserted, updated := CountedUpsert(db.hotels, HotelUpserts(file.hotels));
    db.hotels := table;
    return Loaded("Hotels loaded successfully", inserted, updated);
  }

  /** After a flight load each loaded flight_id holds its last record, and
      every other flight is untouched. */
  lemma {:induction false} FlightLoadLastRecordWins(table: map<string, FlightRow>, flights: seq<FlightRow>, id: string)
    ensures var after := PutAll(table, FlightUpserts(flights));
      (forall i :: 0 <= i < |flights| ==> flights[i].flightId != id) ==>
        (id in after <==> id in table) && (id in table ==> after[id] == table[id])
    ensures var after := PutAll(table, FlightUpserts(flights));
      forall i :: 0 <= i < |flights| && flights[i].flightId == id &&
                  (forall j :: i < j < |flights| ==> flights[j].flightId != id) ==>
        id in after && after[id] == flights[i]
  {
    var kvs := FlightUpserts(flights);
    PutAllAt(table, kvs, id);
    var last := LastIndexOfKey(kvs, id);
    if last.Some? {
      forall i | 0 <= i < |flights| && flights[i].flightId == id &&
                 (forall j :: i < j < |flights| ==> flights[j].flightId != id)
        ensures i == last.value
      {
        assert kvs[i].0 == id && kvs[last.value].0 == id;
      }
    }
  }

  // ---------------------------------------------------------------------
  // Reports
  // ---------------------------------------------------------------------

  /** A report behind requireAdmin: a redirect, or the query's rows. */
  datatype Report<T> = ReportRedirect(page: string) | ReportData(data: T)

  function AdminReport<T>(session: Session, data: T): (r: Report<T>)
    ensures r.ReportData? <==> IsAdmin(session)
    ensures r.ReportData? ==> r.data == data
    ensures !IsLoggedIn(session) ==> r == ReportRedirect("login.php")
  {
    match RequireAdmin(session)
    case Proceed => ReportData(data)
    case RedirectTo(page) => ReportRedirect(page)
  }

  const TexasCities: seq<string> := ["Dallas", "Houston", "Austin", "San Antonio", "Fort Worth", "El Paso",
                                     "Corpus Christi", "Lubbock", "Plano", "Irving", "Laredo"]

  const CaliforniaCities: seq<string> := ["Los Angeles", "San Francisco", "San Diego", "Sacramento", "San Jose",
                                          "Fresno", "Oakland", "Long Beach", "Anaheim", "Riverside", "Irvine",
                                          "Santa Ana", "Stockton", "Bakersfield"]

  /** `city LIKE '%TX%' OR city IN (...)`. */
  predicate InTexas(city: string) {
    Contains(city, "TX") || city in TexasCities
  }

  /** `city LIKE '%CA%' OR city IN (...)`. */
  predicate InCalifornia(city: string) {
    Contains(city, "CA") || city in CaliforniaCities
  }

  /** `BETWEEN '2024-09-01' AND '2024-10-31'` on a day number. */
  predicate InSepOct2024(day: int) {
    DayNumber(2024, 9, 1) <= day <= DayNumber(2024, 10, 31)
  }

  /** A DATE column read back: a YYYY-MM-DD string naming a real date. */
  function StoredDay(s: Option<string>): (day: Option<int>)
    ensures day.Some? ==> s.Some? && |s.value| == 10
  {
    if s.Some? && |s.value| == 10 && s.value[4] == '-' && s.value[7] == '-' &&
       AllDigits(s.value[..4]) && AllDigits(s.value[5..7]) && AllDigits(s.value[8..]) &&
       CheckDate(DigitsValue(s.value[5..7]), DigitsValue(s.value[8..]), DigitsValue(s.value[..4]))
    then Some(DayNumber(DigitsValue(s.value[..4]), DigitsValue(s.value[5..7]), DigitsValue(s.value[8..])))
    else None
  }

  /** A row of `flight_booking JOIN flights`. */
  datatype BookedFlight = BookedFlight(booking: FlightBookingRow, flight: FlightRow)

  /** A row of `hotel_booking JOIN hotels`. */
  datatype BookedHotel = BookedHotel(booking: HotelBookingRow, hotel: HotelRow)

  function JoinFlights(bookings: seq<FlightBookingRow>, flights: map<string, FlightRow>): (r: seq<BookedFlight>)
    ensures |r| <= |bookings|
    ensures forall x :: x in r <==>
      x.booking in bookings && x.booking.flightId in flights && x.flight == flights[x.booking.flightId]
  {
    if bookings == [] then []
    else
      var b := bookings[|bookings| - 1];
      var init := JoinFlights(bookings[..|bookings| - 1], flights);
      assert forall x :: x in bookings <==> x in bookings[..|bookings| - 1] || x == b;
      if b.flightId in flights then init + [BookedFlight(b, flights[b.flightId])] else init
  }

  function JoinHotels(bookings: seq<HotelBookingRow>, hotels: map<string, HotelRow>): (r: seq<BookedHotel>)
    ensures |r| <= |bookings|
    ensures forall x :: x in r <==>
      x.booking in bookings && x.booking.hotelId in hotels && x.hotel == hotels[x.booking.hotelId]
  {
    if bookings == [] then []
    else
      var b := bookings[|bookings| - 1];
      var init := JoinHotels(bookings[..|bookings| - 1], hotels);
      assert forall x :: x in bookings <==> x in bookings[..|bookings| - 1] || x == b;
      if b.hotelId in hotels then init + [BookedHotel(b, hotels[b.hotelId])] else init
  }

  /** getTexasFlightsSepOct's WHERE clause as written: AND binds tighter than
      OR, so an origin matching '%TX%' passes at any date. */
  predicate TexasFlightAsWritten(x: BookedFlight) {
    Contains(x.flight.origin, "TX") || (x.flight.origin in TexasCities && InSepOct2024(x.flight.departureDate))
  }

  /** The clause as the report's title means it, with the city test
      parenthesised as the hotel report has it. */
  predicate TexasFlightSepOct(x: BookedFlight) {
    InTexas(x.flight.origin) && InSepOct2024(x.flight.departureDate)
  }

  function DepartureOrder(x: BookedFlight): int {
    DepartureKey(x.flight)
  }

  function DepartureDateOrder(x: BookedFlight): int {
    x.flight.departureDate
  }

  /** getTexasFlightsSepOct as written, ordered by departure date and time. */
  function TexasFlightsAsWritten(bookings: seq<FlightBookingRow>, flights: map<string, FlightRow>): (r: seq<BookedFlight>)
    ensures forall x :: x in r <==> x in JoinFlights(bookings, flights) && TexasFlightAsWritten(x)
    ensures SortedBy(r, DepartureOrder)
  {
    var r := SortBy(Filter(JoinFlights(bookings, flights), TexasFlightAsWritten), DepartureOrder);
    assert forall x :: x in r <==> x in multiset(r);
    r
  }

  /** getTexasFlightsSepOct with the intended precedence; the other reports
      use this one. */
  function TexasFlightsSepOct(bookings: seq<FlightBookingRow>, flights: map<string, FlightRow>): (r: seq<BookedFlight>)
    ensures forall x :: x in r <==>
      x.booking in bookings && x.booking.flightId in flights && x.flight == flights[x.booking.flightId] &&
      InTexas(x.flight.origin) && InSepOct2024(x.flight.departureDate)
    ensures SortedBy(r, DepartureOrder)
  {
    var r := SortBy(Filter(JoinFlights(bookings, flights), TexasFlightSepOct), DepartureOrder);
    assert forall x :: x in r <==> x in multiset(r);
    r
  }

  /** A flight out of "Austin, TX" booked for 2024-12-15 is reported by the
      query as written although it departs outside September and October. */
  lemma TexasPrecedenceCounterexample()
    ensures var f := FlightRow("FL1", "Austin, TX", "Denver", DayNumber(2024, 12, 15), DayNumber(2024, 12, 15), 0, 3600, 10, 10000);
      var b := FlightBookingRow("FB000001", "FL1", "555-555-5555", 10000);
      BookedFlight(b, f) in TexasFlightsAsWritten([b], map["FL1" := f]) &&
      BookedFlight(b, f) !in TexasFlightsSepOct([b], map["FL1" := f])
  {
    var f := FlightRow("FL1", "Austin, TX", "Denver", DayNumber(2024, 12, 15), DayNumber(2024, 12, 15), 0, 3600, 10, 10000);
    assert f.origin[8..8 + |"TX"|] == "TX";
    OccursContains(f.origin, "TX", 8);
    DaysBeforeMonthGrows(2024, 10, 12);
  }

  /** With the intended precedence every reported flight departs in
      September or October 2024; a '%TX%' origin outside that window is the
      only kind of row the written query adds. */
  lemma TexasCorrectedWithinWritten(bookings: seq<FlightBookingRow>, flights: map<string, FlightRow>, x: BookedFlight)
    ensures x in TexasFlightsSepOct(bookings, flights) ==> InSepOct2024(x.flight.departureDate)
    ensures x in TexasFlightsSepOct(bookings, flights) ==> x in TexasFlightsAsWritten(bookings, flights)
    ensures x in TexasFlightsAsWritten(bookings, flights) && x !in TexasFlightsSepOct(bookings, flights) ==>
      Contains(x.flight.origin, "TX") && !InSepOct2024(x.flight.departureDate)
  {
  }

  function CheckInOrder(x: BookedHotel): int {
    match StoredDay(x.booking.checkIn)
    case Some(day) => day
    case None => 0
  }

  predicate TexasHotelSepOct(x: BookedHotel) {
    InTexas(x.hotel.city) && StoredDay(x.booking.checkIn).Some? && InSepOct2024(StoredDay(x.booking.checkIn).value)
  }

  /** getTexasHotelsSepOct: bookings of Texas hotels checking in during
      September or October 2024, by check-in date. */
  function TexasHotelsSepOct(bookings: seq<HotelBookingRow>, hotels: map<string, HotelRow>): (r: seq<BookedHotel>)
    ensures forall x :: x in r <==>
      x.booking in bookings && x.booking.hotelId in hotels && x.hotel == hotels[x.booking.hotelId] &&
      InTexas(x.hotel.city) && StoredDay(x.booking.checkIn).Some? && InSepOct2024(StoredDay(x.booking.checkIn).value)
    ensures SortedBy(r, CheckInOrder)
  {
    var r := SortBy(Filter(JoinHotels(bookings, hotels), TexasHotelSepOct), CheckInOrder);
    assert forall x :: x in r <==> x in multiset(r);
    r
  }

  function HotelPriceDescending(x: BookedHotel): int {
    -x.booking.totalPrice
  }

  function FlightPriceDescending(x: BookedFlight): int {
    -x.booking.totalPrice
  }

  /** A prefix holds no element more often than the whole sequence. */
  lemma PrefixMultiset<T>(s: seq<T>, k: nat)
    requires k <= |s|
    ensures multiset(s[..k]) <= multiset(s)
  {
    assert s == s[..k] + s[k..];
  }

  /** getMostExpensiveHotels: at most ten bookings, dearest first. */
  function MostExpensiveHotels(bookings: seq<HotelBookingRow>, hotels: map<string, HotelRow>): (r: seq<BookedHotel>)
    ensures |r| == if |JoinHotels(bookings, hotels)| <= 10 then |JoinHotels(bookings, hotels)| else 10
    ensures multiset(r) <= multiset(JoinHotels(bookings, hotels))
    ensures forall i, j :: 0 <= i < j < |r| ==> r[i].booking.totalPrice >= r[j].booking.totalPrice
  {
    var r := Take(SortBy(JoinHotels(bookings, hotels), HotelPriceDescending), 10);
    PrefixMultiset(SortBy(JoinHotels(bookings, hotels), HotelPriceDescending), |r|);
    TakeOfSortBy(JoinHotels(bookings, hotels), HotelPriceDescending, 10);
    assert forall i, j :: 0 <= i < j < |r| ==> HotelPriceDescending(r[i]) <= HotelPriceDescending(r[j]);
    r
  }

  /** getMostExpensiveFlights: at most ten bookings, dearest first. */
  function MostExpensiveFlights(bookings: seq<FlightBookingRow>, flights: map<string, FlightRow>): (r: seq<BookedFlight>)
    ensures |r| == if |JoinFlights(bookings, flights)| <= 10 then |JoinFlights(bookings, flights)| else 10
    ensures multiset(r) <= multiset(JoinFlights(bookings, flights))
    ensures forall i, j :: 0 <= i < j < |r| ==> r[i].booking.totalPrice >= r[j].booking.totalPrice
  {
    var r := Take(SortBy(JoinFlights(bookings, flights), FlightPriceDescending), 10);
    PrefixMultiset(SortBy(JoinFlights(bookings, flights), FlightPriceDescending), |r|);
    TakeOfSortBy(JoinFlights(bookings, flights), FlightPriceDescending, 10);
    assert forall i, j :: 0 <= i < j < |r| ==> FlightPriceDescending(r[i]) <= FlightPriceDescending(r[j]);
    r
  }

  /** No booking the top ten leaves out cost more than one it keeps. */
  lemma MostExpensiveFlightsAreTop(bookings: seq<FlightBookingRow>, flights: map<string, FlightRow>, kept: BookedFlight, dropped: BookedFlight)
    requires kept in MostExpensiveFlights(bookings, flights)
    requires dropped in multiset(JoinFlights(bookings, flights)) - multiset(MostExpensiveFlights(bookings, flights))
    ensures dropped.booking.totalPrice <= kept.booking.totalPrice
  {
    TakeSortedKeepsSmallest(JoinFlights(bookings, flights), FlightPriceDescending, 10, dropped, kept);
  }

  /** No booking the top ten leaves out cost more than one it keeps. */
  lemma MostExpensiveHotelsAreTop(bookings: seq<HotelBookingRow>, hotels: map<string, HotelRow>, kept: BookedHotel, dropped: BookedHotel)
    requires kept in MostExpensiveHotels(bookings, hotels)
    requires dropped in multiset(JoinHotels(bookings, hotels)) - multiset(MostExpensiveHotels(bookings, hotels))
    ensures dropped.booking.totalPrice <= kept.booking.totalPrice
  {
    TakeSortedKeepsSmallest(JoinHotels(bookings, hotels), HotelPriceDescending, 10, dropped, kept);
  }

  /** The booking's tickets whose passenger row has the category: the
      `tickets JOIN passengers` rows a GROUP BY booking counts. */
  function CategoryCount(bookingId: string, category: string, tickets: seq<TicketRow>,
                         passengers: map<string, PassengerRow>): (n: nat)
    ensures n <= |tickets|
  {
    CountWhere(tickets, (t: TicketRow) => t.bookingId == bookingId && t.ssn in passengers && passengers[t.ssn].category == category)
  }

  /** A booking's count is positive exactly when one of its tickets is for a
      passenger of that category. */
  lemma {:induction false} CategoryCountPositive(bookingId: string, category: string, tickets: seq<TicketRow>,
                                                 passengers: map<string, PassengerRow>)
    ensures CategoryCount(bookingId, category, tickets, passengers) > 0 <==>
      exists i :: 0 <= i < |tickets| && tickets[i].bookingId == bookingId && tickets[i].ssn in passengers &&
                  passengers[tickets[i].ssn].category == category
    decreases |tickets|
  {
    if tickets != [] {
      var init := tickets[..|tickets| - 1];
      CategoryCountPositive(bookingId, category, init, passengers);
      if exists i :: 0 <= i < |init| && init[i].bookingId == bookingId && init[i].ssn in passengers &&
                     passengers[init[i].ssn].category == category {
        var i :| 0 <= i < |init| && init[i].bookingId == bookingId && init[i].ssn in passengers &&
                 passengers[init[i].ssn].category == category;
        assert tickets[i] == init[i];
      }
      if exists i :: 0 <= i < |tickets| && tickets[i].bookingId == bookingId && tickets[i].ssn in passengers &&
                     passengers[tickets[i].ssn].category == category {
        var i :| 0 <= i < |tickets| && tickets[i].bookingId == bookingId && tickets[i].ssn in passengers &&
                 passengers[tickets[i].ssn].category == category;
        if i < |init| {
          assert init[i] == tickets[i];
        }
      }
    }
  }

  /** A row of the infant reports: the booked flight and its counts. */
  datatype CountedFlight = CountedFlight(row: BookedFlight, infants: nat, children: nat)

  function WithCounts(rows: seq<BookedFlight>, tickets: seq<TicketRow>, passengers: map<string, PassengerRow>): (r: seq<CountedFlight>)
    ensures |r| == |rows|
    ensures forall i :: 0 <= i < |rows| ==>
      r[i] == CountedFlight(rows[i], CategoryCount(rows[i].booking.bookingId, "infant", tickets, passengers),
                            CategoryCount(rows[i].booking.bookingId, "child", tickets, passengers))
  {
    seq(|rows|, i requires 0 <= i < |rows| =>
      CountedFlight(rows[i], CategoryCount(rows[i].booking.bookingId, "infant", tickets, passengers),
                    CategoryCount(rows[i].booking.bookingId, "child", tickets, passengers)))
  }

  lemma WithCountsMembers(rows: seq<BookedFlight>, tickets: seq<TicketRow>, passengers: map<string, PassengerRow>, c: CountedFlight)
    ensures c in WithCounts(rows, tickets, passengers) <==>
      c.row in rows && c.infants == CategoryCount(c.row.booking.bookingId, "infant", tickets, passengers) &&
      c.children == CategoryCount(c.row.booking.bookingId, "child", tickets, passengers)
  {
    var r := WithCounts(rows, tickets, passengers);
    if c.row in rows && c.infants == CategoryCount(c.row.booking.bookingId, "infant", tickets, passengers) &&
       c.children == CategoryCount(c.row.booking.bookingId, "child", tickets, passengers) {
      var i :| 0 <= i < |rows| && rows[i] == c.row;
      assert r[i] == c;
    }
  }

  function CountedDepartureDate(c: CountedFlight): int {
    c.row.flight.departureDate
  }

  predicate HasInfant(c: CountedFlight) {
    c.infants >= 1
  }

  predicate HasInfantAndFiveChildren(c: CountedFlight) {
    c.infants >= 1 && c.children >= 5
  }

  /** getFlightsWithInfants: the bookings with at least one infant ticket,
      with that count, by departure date. */
  function FlightsWithInfants(bookings: seq<FlightBookingRow>, flights: map<string, FlightRow>,
                              tickets: seq<TicketRow>, passengers: map<string, PassengerRow>): (r: seq<CountedFlight>)
    ensures forall c :: c in r <==>
      c in WithCounts(JoinFlights(bookings, flights), tickets, passengers) && c.infants >= 1
    ensures SortedBy(r, CountedDepartureDate)
  {
    var r := SortBy(Filter(WithCounts(JoinFlights(bookings, flights), tickets, passengers), HasInfant), CountedDepartureDate);
    SortFilterMembers(WithCounts(JoinFlights(bookings, flights), tickets, passengers), HasInfant, CountedDepartureDate);
    r
  }

  /** getFlightsWithInfantsAnd5Children: the bookings with at least one
      infant and at least five child tickets, by departure date. */
  function FlightsWithInfantsAndFiveChildren(bookings: seq<FlightBookingRow>, flights: map<string, FlightRow>,
                                             tickets: seq<TicketRow>, passengers: map<string, PassengerRow>): (r: seq<CountedFlight>)
    ensures forall c :: c in r <==>
      c in WithCounts(JoinFlights(bookings, flights), tickets, passengers) && c.infants >= 1 && c.children >= 5
    ensures SortedBy(r, CountedDepartureDate)
  {
    var r := SortBy(Filter(WithCounts(JoinFlights(bookings, flights), tickets, passengers), HasInfantAndFiveChildren), CountedDepartureDate);
    SortFilterMembers(WithCounts(JoinFlights(bookings, flights), tickets, passengers), HasInfantAndFiveChildren, CountedDepartureDate);
    r
  }

  /** A booked flight is in the infant-and-children report exactly when its
      booking has an infant ticket and five child tickets. */
  lemma InfantsAndChildrenReportExact(bookings: seq<FlightBookingRow>, flights: map<string, FlightRow>,
                                      tickets: seq<TicketRow>, passengers: map<string, PassengerRow>, x: BookedFlight)
    ensures (exists c :: c in FlightsWithInfantsAndFiveChildren(bookings, flights, tickets, passengers) && c.row == x) <==>
      x in JoinFlights(bookings, flights) &&
      CategoryCount(x.booking.bookingId, "infant", tickets, passengers) >= 1 &&
      CategoryCount(x.booking.bookingId, "child", tickets, passengers) >= 5
  {
    var c := CountedFlight(x, CategoryCount(x.booking.bookingId, "infant", tickets, passengers),
                           CategoryCount(x.booking.bookingId, "child", tickets, passengers));
    WithCountsMembers(JoinFlights(bookings, flights), tickets, passengers, c);
    forall c' | c' in FlightsWithInfantsAndFiveChildren(bookings, flights, tickets, passengers) && c'.row == x
      ensures c' == c
    {
      WithCountsMembers(JoinFlights(bookings, flights), tickets, passengers, c');
    }
  }

  predicate TexasNoInfant(c: CountedFlight) {
    InTexas(c.row.flight.origin) && c.infants == 0
  }

  /** getTexasFlightsNoInfants: Texas departures whose booking has no infant
      ticket, by departure date. */
  function TexasFlightsNoInfants(bookings: seq<FlightBookingRow>, flights: map<string, FlightRow>,
                                 tickets: seq<TicketRow>, passengers: map<string, PassengerRow>): (r: seq<BookedFlight>)
    ensures forall x :: x in r <==>
      x in JoinFlights(bookings, flights) && InTexas(x.flight.origin) &&
      CategoryCount(x.booking.bookingId, "infant", tickets, passengers) == 0
    ensures SortedBy(r, DepartureDateOrder)
  {
    var join := JoinFlights(bookings, flights);
    var p := (x: BookedFlight) => InTexas(x.flight.origin) && CategoryCount(x.booking.bookingId, "infant", tickets, passengers) == 0;
    var r := SortBy(Filter(join, p), DepartureDateOrder);
    assert forall x :: x in r <==> x in multiset(r);
    r
  }

  /** The no-infant report never lists a booking with an infant ticket. */
  lemma NoInfantReportExcludesInfants(bookings: seq<FlightBookingRow>, flights: map<string, FlightRow>,
                                      tickets: seq<TicketRow>, passengers: map<string, PassengerRow>, x: BookedFlight, i: nat)
    requires x in TexasFlightsNoInfants(bookings, flights, tickets, passengers)
    requires i < |tickets| && tickets[i].bookingId == x.booking.bookingId
    ensures tickets[i].ssn !in passengers || passengers[tickets[i].ssn].category != "infant"
  {
    CategoryCountPositive(x.booking.bookingId, "infant", tickets, passengers);
  }

  /** The set of booking ids among the rows. */
  function BookingIdsOf(rows: seq<BookedFlight>): (ids: set<string>)
    ensures |ids| <= |rows|
    ensures forall x :: x in rows ==> x.booking.bookingId in ids
    ensures forall id :: id in ids ==> exists x :: x in rows && x.booking.bookingId == id
  {
    if rows == [] then {}
    else
      var init := rows[..|rows| - 1];
      assert forall x :: x in rows <==> x in init || x == rows[|rows| - 1];
      BookingIdsOf(init) + {rows[|rows| - 1].booking.bookingId}
  }

  predicate CaliforniaSepOct(x: BookedFlight) {
    InCalifornia(x.flight.destination) && InSepOct2024(x.flight.arrivalDate)
  }

  /** The ids of the stored bookings whose flight exists, lands in a
      California city and arrives in September or October 2024. */
  function CaliforniaBookingIds(bookings: seq<FlightBookingRow>, flights: map<string, FlightRow>): set<string> {
    set b | b in bookings && b.flightId in flights && InCalifornia(flights[b.flightId].destination) &&
            InSepOct2024(flights[b.flightId].arrivalDate) :: b.bookingId
  }

  /** getCaliforniaFlightCountSepOct: the number of distinct booking ids whose
      flight arrives in California in September or October 2024. */
  function CaliforniaFlightCountSepOct(bookings: seq<FlightBookingRow>, flights: map<string, FlightRow>): (count: nat)
    ensures count <= |bookings|
    ensures count == |CaliforniaBookingIds(bookings, flights)|
  {
    CaliforniaIds(bookings, flights);
    |BookingIdsOf(Filter(JoinFlights(bookings, flights), CaliforniaSepOct))|
  }

  /** COUNT(DISTINCT booking_id) over the joined, filtered rows counts exactly
      the California booking ids. */
  lemma CaliforniaIds(bookings: seq<FlightBookingRow>, flights: map<string, FlightRow>)
    ensures BookingIdsOf(Filter(JoinFlights(bookings, flights), CaliforniaSepOct)) == CaliforniaBookingIds(bookings, flights)
  {
    forall id | true
      ensures id in BookingIdsOf(Filter(JoinFlights(bookings, flights), CaliforniaSepOct)) <==>
              id in CaliforniaBookingIds(bookings, flights)
    {
      CaliforniaCountMembers(bookings, flights, id);
    }
  }

  /** A booking id is counted exactly when one of its bookings matches. */
  lemma CaliforniaCountMembers(bookings: seq<FlightBookingRow>, flights: map<string, FlightRow>, id: string)
    ensures id in BookingIdsOf(Filter(JoinFlights(bookings, flights), CaliforniaSepOct)) <==>
      exists b :: b in bookings && b.bookingId == id && b.flightId in flights &&
        InCalifornia(flights[b.flightId].destination) && InSepOct2024(flights[b.flightId].arrivalDate)
  {
    var rows := Filter(JoinFlights(bookings, flights), CaliforniaSepOct);
    if exists b :: b in bookings && b.bookingId == id && b.flightId in flights &&
         InCalifornia(flights[b.flightId].destination) && InSepOct2024(flights[b.flightId].arrivalDate) {
      var b :| b in bookings && b.bookingId == id && b.flightId in flights &&
         InCalifornia(flights[b.flightId].destination) && InSepOct2024(flights[b.flightId].arrivalDate);
      var x := BookedFlight(b, flights[b.flightId]);
      assert x in rows;
    }
  }
}
