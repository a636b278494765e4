/** The MySQL database of the PHP backend: one record type per table, and the
    database itself as an object whose tables the PHP functions change.
    Tables with a primary key are maps from that key to the row; DATE
    columns hold day numbers (see Calendar), TIME columns seconds since
    midnight, and money columns cents. */
module Tables {
  import opened Common

  /** `users`, keyed by Phone. The password column holds only a hash. */
  datatype UserRow = UserRow(
    phone: string, passwordHash: string, firstName: string, lastName: string,
    dateOfBirth: string, email: string, gender: Option<string>)

  /** `flights`, keyed by flight_id. */
  datatype FlightRow = FlightRow(
    flightId: string, origin: string, destination: string,
    departureDate: int, arrivalDate: int, departureTime: int, arrivalTime: int,
    availableSeats: int, price: int)

  /** `flight_booking`, keyed by flight_booking_id. */
  datatype FlightBookingRow = FlightBookingRow(
    bookingId: string, flightId: string, userPhone: string, totalPrice: int)

  /** `passengers`, keyed by SSN. */
  datatype PassengerRow = PassengerRow(
    ssn: string, firstName: string, lastName: string, dateOfBirth: string, category: string)

  /** `tickets`, keyed by ticket_id. */
  datatype TicketRow = TicketRow(ticketId: string, bookingId: string, ssn: string, price: int)

  /** `hotels`, keyed by hotel_id. */
  datatype HotelRow = HotelRow(hotelId: string, hotelName: string, city: string, pricePerNight: int)

  /** `hotel_booking`, keyed by hotel_booking_id; the dates are the strings
      convertDateToMySQL produced (null for an empty input). */
  datatype HotelBookingRow = HotelBookingRow(
    bookingId: string, hotelId: string, userPhone: string,
    checkIn: Option<string>, checkOut: Option<string>,
    numRooms: int, pricePerNight: int, totalPrice: int)

  /** The guest table (named `guesses` in the SQL); rows in insertion order. */
  datatype GuestRow = GuestRow(
    ssn: string, bookingId: string, firstName: string, lastName: string,
    dateOfBirth: string, category: string)

  /** A snapshot of every table, what a transaction saves and restores. */
  datatype DbState = DbState(
    users: map<string, UserRow>,
    flights: map<string, FlightRow>,
    flightBookings: map<string, FlightBookingRow>,
    passengers: map<string, PassengerRow>,
    tickets: map<string, TicketRow>,
    hotels: map<string, HotelRow>,
    hotelBookings: map<string, HotelBookingRow>,
    guests: seq<GuestRow>)

  class Database {
    var users: map<string, UserRow>
    var flights: map<string, FlightRow>
    var flightBookings: map<string, FlightBookingRow>
    var passengers: map<string, PassengerRow>
    var tickets: map<string, TicketRow>
    var hotels: map<string, HotelRow>
    var hotelBookings: map<string, HotelBookingRow>
    var guests: seq<GuestRow>

    constructor ()
      ensures State() == DbState(map[], map[], map[], map[], map[], map[], map[], [])
    {
      users, flights, flightBookings, passengers := map[], map[], map[], map[];
      tickets, hotels, hotelBookings, guests := map[], map[], map[], [];
    }

    function State(): DbState
      reads this
    {
      DbState(users, flights, flightBookings, passengers, tickets, hotels, hotelBookings, guests)
    }

    /** Rolling back (or committing) a transaction: every table takes the
        contents of `s`. */
    method Restore(s: DbState)
      modifies this
      ensures State() == s
    {
      users, flights, flightBookings, passengers := s.users, s.flights, s.flightBookings, s.passengers;
      tickets, hotels, hotelBookings, guests := s.tickets, s.hotels, s.hotelBookings, s.guests;
    }
  }
}
