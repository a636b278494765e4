# Travel Deals booking core, in Dafny

Travel Deals is a small travel-booking site with two backends.

- **PHP/MySQL backend.**
  - `php/config.php` holds the session guards, validators and date converters.
  - `php/functions.php` holds registration, login, flight search, fares, and the flight and hotel booking transactions.
  - `php/admin-functions.php` holds the administrator's bulk loaders and reports.
  - The endpoint scripts under `php/api/` sit in front of these.
- **Node backend (`server.js`).** It keeps users, bookings and flights in JSON files and hotels and cars in XML files. Its handlers change those in memory and write them back.
- **Browser helpers (`public/api.js`).** They keep the cart and the logged-in user in `sessionStorage`.

This project models that core and proves what it promises.

- **Values.**
  - Money is kept in integer cents.
  - DATE columns are day numbers on the proleptic Gregorian calendar (`Calendar.DayNumber`).
  - Times of day are seconds.
  - JSON values are a datatype (`Json.Json`).
  - PHP's loose operators (`empty`, `??`, `+`, `*`, `== 0`, `strlen`, string conversion) are modelled in `PhpValues` for integers, arrays and integer strings. Numeric strings with a fraction or an exponent are not. A JSON list or object in a request body is a PHP array there, and `+` on two arrays is their union.
  - JavaScript's (`===`, truthiness, member access, `+`, `-`, `parseInt`, `toString`) are modelled in `JsValues`.
- **Databases and stores.**
  - The MySQL database is the class `Tables.Database`, with one map per table, keyed by primary key.
  - The Node store is the class `NodeServer.NodeStore`.
  - The browser storage is the class `ClientApi.BrowserSession`.
- **Nondeterminism and hashing.** Randomness (`mt_rand`, `Math.random`), the clock (`Date.now`, `date()`, DateTime's current instant) and password hashing are parameters.
- **Endpoint scripts.** Each is a function from the session, the request method and the decoded body. It returns a `Halt` (the error the script sends, a redirect, or a fatal TypeError) or the exact call the script makes into `php/functions.php`.

Modules and files:

| file | module | models |
|---|---|---|
| common.dfy | Common | Option/Result, digit strings, `explode`, substring search, upsert of a key-value list, linear search |
| calendar.dfy | Calendar | leap years, `checkdate`, day numbers |
| sorting.dfy | Sorting | a stable sort by integer key and `LIMIT n` |
| json.dfy | Json | JSON values |
| php_values.dfy | PhpValues | PHP's loose operators on request fields |
| js_values.dfy | JsValues | JavaScript operators on JSON values |
| config.dfy | Config | php/config.php |
| tables.dfy | Tables | the MySQL tables and their rows |
| functions.dfy | Functions | php/functions.php |
| admin_functions.dfy | AdminFunctions | php/admin-functions.php |
| api_register.dfy | RegisterApi | php/api/register.php |
| api_flights_search.dfy | FlightsSearchApi | php/api/flights-search.php |
| api_hotel_booking.dfy | HotelBookingApi | php/api/hotel-booking.php |
| api_contact_submit.dfy | ContactSubmitApi | php/api/contact-submit.php |
| node_server.dfy | NodeServer | server.js |
| client_api.dfy | ClientApi | public/api.js |

## Model

| member | source | states |
|---|---|---|
| Config.RequireLogin | php/config.php:75-80 | the request proceeds exactly when a user is in the session |
| Config.RequireAdmin | php/config.php:83-89 | it proceeds exactly when the session user is the administrator; otherwise it redirects to login.php when nobody is logged in, and to index.php when the user is not the administrator |
| Config.AdminIsLoggedIn | php/config.php:60-67 | isAdmin implies isLoggedIn, and isAdmin holds exactly when the session phone is 222-222-2222 |
| Config.ValidatePhoneShape | php/config.php:100-103 | the corrected phone check accepts exactly 12-character strings shaped ddd-ddd-dddd |
| Config.AdminPhoneIsWellFormed | php/config.php:14 | the administrator's phone passes the phone check |
| Config.TrailingNewlinePassesPhoneCheck | php/config.php:100-103 | for every well-formed phone p, the pattern as written also accepts p followed by a newline, and the corrected check does not |
| Config.ValidateEmailIff | php/config.php:106-108 | the email check holds exactly when "@" and ".com" both occur somewhere in the string |
| Config.DateShape | php/config.php:111-114 | the date pattern matches exactly 10-character strings of two digits, '-', two digits, '-', four digits |
| Config.ValidateDateFormatIff | php/config.php:111-120 | the corrected date check holds exactly for DD-DD-DDDD strings whose month, day and year form a real calendar date (February 29 only in leap years) |
| Config.TrailingNewlinePassesDateCheck | php/config.php:111-120 | for every valid date d, the check as written also accepts d followed by a newline, and the corrected check does not |
| Config.DateFieldsAreExplodePieces | php/config.php:118 | on a pattern-shaped date, explode('-') yields exactly the month, day and year fields |
| Config.DateRoundTrip | php/config.php:123-134 | for any string with exactly two hyphens, convertDateFromMySQL(convertDateToMySQL(d)) == d |
| Config.MySqlDateRoundTrip | php/config.php:123-134 | for any string with exactly two hyphens, convertDateToMySQL(convertDateFromMySQL(d)) == d |
| Config.ConvertValidDate | php/config.php:123-127 | a valid MM-DD-YYYY date converts to YYYY-MM-DD built from its own fields |
| Config.GenerateUniqueID | php/config.php:137-139 | the id is the prefix followed by exactly six digits whose value is the drawn number |
| Config.UniqueIDSuffixNotZero | php/config.php:137-139 | the six-digit suffix is never 000000 |
| Config.UniqueIDInjective | php/config.php:137-139 | two draws give the same id exactly when they are the same number |
| Functions.RegistrationError | php/functions.php:22-57 | the checks run in order (phone format, reserved administrator phone, duplicate phone, email, date of birth); each error is returned exactly when every earlier check passed and its own failed, and none is returned exactly when all pass |
| Functions.RegistrationNeverAdmitsAdminOrDuplicate | php/functions.php:28-44 | an accepted registration is never the administrator's phone or an already registered phone, and the administrator's phone is always refused as reserved |
| Functions.RegisterUser | php/functions.php:16-75 | a rejection leaves the database unchanged; success inserts exactly one user row, holding the password's hash, and changes nothing else |
| Functions.LoginOutcome | php/functions.php:81-120 | login succeeds exactly when the phone is registered and the password verifies; every failure returns the same error, and the session user holds the row's fields without the password |
| Functions.LoginUser | php/functions.php:101-117 | the session changes only on success, and then holds the logged-in user |
| Functions.RegisterThenLogin | php/functions.php:16-120 | after a successful registration, logging in with the same password yields exactly the registered fields, without the password |
| Functions.SearchWindowOfValidDate | php/functions.php:148-150 | for a valid MM-DD-YYYY date the search window is that day ± flexDays |
| Functions.MonthZeroIsPreviousDecember | php/functions.php:148-150 | strtotime reads month 00 as December of the year before |
| Functions.DayZeroIsPreviousMonthEnd | php/functions.php:148-150 | strtotime reads day 00 as the last day of the month before |
| Functions.ConvertedDateDay | php/functions.php:148-150 | a valid date converted to YYYY-MM-DD and read back names the day its own fields name |
| Functions.DepartureKeyOrder | php/functions.php:161 | the sort key orders flights by departure date and then by departure time |
| Functions.SearchFlights | php/functions.php:139-176 | the result holds exactly the stored flights on the route, in the date window, with at least numPassengers seats, each as often as it is stored, and ordered by departure |
| Functions.RoundHundredths | php/functions.php:206 | rounding to the nearest cent is off by at most half a cent, halves away from zero |
| Functions.CalculateFlightPrice | php/functions.php:201-207 | the total is adults × base + children × base × 0.70 + infants × base × 0.10, rounded to the cent |
| Functions.FlightPriceExamples | php/functions.php:201-207 | no passengers cost 0, and adults alone pay the base fare each |
| Functions.CalculateRoomsNeeded | php/functions.php:338-341 | the rooms seat adults + children at two per room, and one room fewer would not |
| Functions.RoomsNeededIsLeast | php/functions.php:338-341 | any number of rooms that seats adults + children at two per room is at least the computed one |
| Functions.BookFlightAllOrNothing | php/functions.php:218-283 | a booking fails exactly when a drawn id is already taken, and then every table is unchanged; success adds exactly one booking row and leaves users and the hotel tables alone |
| Functions.BookFlightTickets | php/functions.php:232-262 | on success there is one ticket per passenger, in passenger order, each a new row linked to the booking with that passenger's SSN and price |
| Functions.BookFlightTicketKeys | php/functions.php:248-257 | the tickets table gains exactly the new ticket ids and keeps every stored ticket |
| Functions.BookFlightPassengers | php/functions.php:234-245 | each passenger is upserted by SSN: an SSN no passenger carries keeps its row, and one that some passenger carries holds the last such passenger |
| Functions.BookFlightSeats | php/functions.php:266-269 | the booked flight loses exactly one seat per passenger, with no lower bound, and no other flight changes |
| Functions.BookFlight | php/functions.php:212-284 | the new database state and the result are exactly those of the all-or-nothing booking specification |
| Functions.InsertPassengers | php/functions.php:232-262 | the passenger loop fails exactly when a ticket id collides; otherwise it returns one ticket per passenger and leaves every passenger upserted and ticket inserted |
| Tables.Database.Restore | php/functions.php:280-283 | the rollback puts every table back to the saved state |
| Functions.BookHotelEffect | php/functions.php:352-391 | bookHotel changes no inventory (flights, hotels, users and the flight tables stay); a failure changes nothing; success keeps every existing hotel booking, adds one booking row holding the given hotel, user, rooms and prices with both dates converted (a valid check-in or check-out date stored year first), and appends exactly one guest row per guest, in order, linked to it and carrying that guest's fields |
| Functions.BookHotel | php/functions.php:346-391 | the new database state and the result are exactly those of the hotel booking specification |
| Functions.ContactsFile.SaveContact | php/functions.php:401-433 | exactly one contact, with the CNT id drawn by generateUniqueID, is appended after the existing ones |
| AdminFunctions.AffectedRows | php/admin-functions.php:64-70 | the affected-row count is 1 exactly for a new key, 2 exactly for a changed existing row, and 0 exactly for an unchanged one |
| AdminFunctions.UpsertCountsMeaning | php/admin-functions.php:64-70 | inserted + updated is at most the number of input records, and inserted is exactly the number of rows the load adds |
| AdminFunctions.ReloadInsertsNothing | php/admin-functions.php:37-71 | loading the same records a second time inserts nothing |
| AdminFunctions.CountedUpsert | php/admin-functions.php:51-71 | the loader loop leaves the table with every record upserted in order, and its counters are those of the upsert semantics |
| AdminFunctions.LoadFlightsFromJson | php/admin-functions.php:12-88 | a non-administrator is redirected, and a missing file or a missing 'flights' entry ('Invalid JSON format') leaves the database unchanged; otherwise every record is upserted by flight_id and the counters are returned |
| AdminFunctions.LoadHotelsFromXml | php/admin-functions.php:94-158 | the same as loadFlightsFromJSON, keyed by hotel_id, with 'Invalid XML format' for a document that does not parse |
| AdminFunctions.FlightLoadLastRecordWins | php/admin-functions.php:37-71 | after a load each loaded flight_id holds the last record with that id, and every other row is untouched |
| AdminFunctions.AdminReport | php/admin-functions.php:166 | a report's rows are returned exactly to the administrator; anyone not logged in is sent to login.php |
| AdminFunctions.JoinFlights | php/admin-functions.php:182-183 | the join holds exactly the bookings whose flight exists, each paired with that flight |
| AdminFunctions.JoinHotels | php/admin-functions.php:221-222 | the join holds exactly the bookings whose hotel exists, each paired with that hotel |
| AdminFunctions.TexasFlightsAsWritten | php/admin-functions.php:184-186 | the query as written returns exactly the joined rows with a '%TX%' origin at any date, or a named Texas city in September–October 2024, ordered by departure |
| AdminFunctions.TexasFlightsSepOct | php/admin-functions.php:184-186 | the corrected query returns exactly the joined rows with a Texas origin departing in September–October 2024, ordered by departure |
| AdminFunctions.TexasPrecedenceCounterexample | php/admin-functions.php:184-185 | a flight from "Austin, TX" on 2024-12-15 is reported by the query as written but not by the corrected one |
| AdminFunctions.TexasCorrectedWithinWritten | php/admin-functions.php:184-185 | every corrected row departs in the window and is also a row as written; the only extra rows as written are '%TX%' origins outside the window |
| AdminFunctions.TexasHotelsSepOct | php/admin-functions.php:223-225 | exactly the joined hotel bookings in a Texas city checking in during September–October 2024, ordered by check-in date |
| AdminFunctions.MostExpensiveHotels | php/admin-functions.php:261-263 | LIMIT 10 over the joined rows: exactly min(10, number of joined rows) rows, each drawn from the join no more often than it occurs there, by total price descending |
| AdminFunctions.MostExpensiveHotelsAreTop | php/admin-functions.php:262-263 | no hotel booking left out of the ten costs more than one kept |
| AdminFunctions.MostExpensiveFlights | php/admin-functions.php:376-378 | LIMIT 10 over the joined rows: exactly min(10, number of joined rows) rows, each drawn from the join no more often than it occurs there, by total price descending |
| AdminFunctions.MostExpensiveFlightsAreTop | php/admin-functions.php:377-378 | no flight booking left out of the ten costs more than one kept |
| AdminFunctions.CategoryCountPositive | php/admin-functions.php:338-341 | a booking's count for a category is positive exactly when one of its tickets is for a passenger of that category |
| AdminFunctions.WithCountsMembers | php/admin-functions.php:328-341 | the grouped rows are exactly the joined rows, each with its infant and child counts |
| AdminFunctions.FlightsWithInfants | php/admin-functions.php:298-302 | exactly the joined rows with an infant count of at least one, by departure date |
| AdminFunctions.FlightsWithInfantsAndFiveChildren | php/admin-functions.php:334-342 | exactly the joined rows with at least one infant and at least five children, by departure date |
| AdminFunctions.InfantsAndChildrenReportExact | php/admin-functions.php:334-341 | a booked flight is reported exactly when its booking has an infant ticket and at least five child tickets |
| AdminFunctions.TexasFlightsNoInfants | php/admin-functions.php:410-420 | exactly the joined rows with a Texas origin whose booking has no infant ticket, by departure date |
| AdminFunctions.NoInfantReportExcludesInfants | php/admin-functions.php:413-419 | no reported booking has a ticket for an infant |
| AdminFunctions.BookingIdsOf | php/admin-functions.php:445 | the distinct booking ids of the rows: every row's id and nothing else |
| AdminFunctions.CaliforniaCountMembers | php/admin-functions.php:445-449 | a booking id is counted exactly when one of its bookings flies to a California city and arrives in September–October 2024 |
| AdminFunctions.CaliforniaFlightCountSepOct | php/admin-functions.php:438-449 | the count is the number of distinct ids of the stored bookings whose flight exists, lands in a California city and arrives in September–October 2024 |
| RegisterApi.FirstBlankField | php/api/register.php:17-22 | the first required field, in the script's order, that empty() rejects; none exactly when all are filled |
| RegisterApi.Register | php/api/register.php:10-43 | a non-POST request gets 405, then the first blank field is reported, then mismatched passwords (exactly when the fields are filled and the passwords differ), then a fatal strlen error exactly for equal passwords that are arrays, then a password under 8 characters; registerUser is called exactly when every guard passes, with the body's fields and gender defaulting to null |
| RegisterApi.ShortPasswordReportedLast | php/api/register.php:17-32 | for every password, the length error is never reported while a required field is blank or the confirmation differs, and a missing phone is always the error reported |
| FlightsSearchApi.Search | php/api/flights-search.php:10-33 | 405 for non-POST; an empty origin, destination or date is rejected; a TypeError in the passenger sum is fatal; a total equal to 0 is rejected; otherwise searchFlights gets the body's route and date, the total (a number other than 0, or an array), and a flexibility of 3 days |
| FlightsSearchApi.ArrayCountsAreJoined | php/api/flights-search.php:21-33 | counts sent as arrays are joined by array union, which is never `== 0`, so searchFlights is called with the union as its total |
| FlightsSearchApi.ListCountsExample | php/api/flights-search.php:21-33 | adults [1], children [2] and infants [3] reach searchFlights with the total [1] |
| FlightsSearchApi.ArrayBesideNumberIsFatal | php/api/flights-search.php:21 | an array count added to a number count is a TypeError |
| FlightsSearchApi.MissingCountsAreZero | php/api/flights-search.php:21 | a missing count is 0 and a digit string counts as its value |
| FlightsSearchApi.SearchUsesThreeDayWindow | php/api/flights-search.php:27-33 | a valid search returns exactly the stored flights on the route departing within 3 days either side of the requested day, with enough seats |
| FlightsSearchApi.SearchArguments | php/api/flights-search.php:27-33 | a search that reaches searchFlights passes the body's origin, destination and departure date unchanged, with a flexibility of 3 days |
| PhpValues.DigitStringOperand | php/api/flights-search.php:21 | `+` reads a decimal digit string as its value |
| PhpValues.Plus | php/api/flights-search.php:21 | two numbers add; two arrays give every key of either, with the left array's value where both have the key; an array beside a number, or a TypeError on either side, is a TypeError |
| PhpValues.ListEntries | php/api/flights-search.php:14 | a JSON list decodes to the array holding element i under key i, and no other key |
| HotelBookingApi.DateTimeOf | php/api/hotel-booking.php:21-22 | an empty date is the current instant, and any other readable date is a midnight |
| HotelBookingApi.ValidDateInstant | php/api/hotel-booking.php:21-22 | a valid MM-DD-YYYY date is read as the midnight that starts the calendar day its fields name |
| HotelBookingApi.DaysBetween | php/api/hotel-booking.php:23 | the whole days between two instants, in either order |
| HotelBookingApi.BookHotelRequest | php/api/hotel-booking.php:10-36 | an anonymous caller is redirected to login.php before the method check, and a non-POST request gets 405; the request ends fatally exactly when a date cannot be read or an amount is not a number; otherwise bookHotel is called, with the session user's phone and numRooms × pricePerNight × nights as the total |
| HotelBookingApi.NightsOfValidDates | php/api/hotel-booking.php:21-23 | for two valid dates the nights are the absolute difference of their days |
| HotelBookingApi.DaysBetweenMidnights | php/api/hotel-booking.php:23 | between two midnights the whole days are the difference of the day numbers |
| HotelBookingApi.SameDayCostsNothing | php/api/hotel-booking.php:21-25 | equal check-in and check-out dates give a total of 0 |
| HotelBookingApi.BodyPhoneIgnored | php/api/hotel-booking.php:18 | a phone in the request body changes nothing about the call |
| ContactSubmitApi.SubmitContact | php/api/contact-submit.php:11-36 | 401 when not logged in, before the 405 method check; a comment that is empty or under 10 characters is rejected, and one that is an array ends fatally in strlen; otherwise saveContact gets the session user's identity and the comment |
| ContactSubmitApi.IdentityComesFromSession | php/api/contact-submit.php:26-35 | two requests with the same comment lead to the same call, whatever identity fields they carry |
| ContactSubmitApi.CommentLengthBoundary | php/api/contact-submit.php:22-24 | a 10-character comment is accepted and a 9-character one refused |
| NodeServer.NodeRegisterError | server.js:153-163 | the administrator's phone is refused as reserved; otherwise a phone already stored is refused; otherwise nothing is refused |
| NodeServer.SomeUserHasPhone | server.js:161 | the scan with `some` finds a user whose phone is `===` to the given one exactly when such a user is stored |
| NodeServer.RegisteredPhoneIsTaken | server.js:161-166 | once a phone is registered, registering it again is refused |
| NodeServer.NodeRegisterThenLogin | server.js:152-186 | a user the register handler appends logs in with the phone and password it registered, and login returns exactly the stored record |
| NodeServer.NodeStore.Register | server.js:147-174 | a refusal writes nothing; otherwise exactly the new user is appended after the existing ones, and no other file changes |
| NodeServer.NodeLogin | server.js:176-191 | login succeeds exactly when some stored user matches both phone and password, returns the first such user, and otherwise reports 'Invalid credentials' |
| NodeServer.NewBooking | server.js:254-261 | every body field is kept as sent; the generated bookingId, bookingNumber, userId, bookingDate and status 'confirmed' appear only where the body lacks them |
| NodeServer.BodyOverridesDefaults | server.js:257-260 | a falsy userId and any status sent in the body override the defaults |
| NodeServer.NodeStore.CreateBooking | server.js:248-273 | the new record is appended after the existing bookings, and the inventory its type names is updated |
| NodeServer.TakeSeatsOnFirst | server.js:378-384 | only the first flight with the id changes, and it loses the passenger total; every other flight stays |
| NodeServer.OneWaySeats | server.js:359-385 | a one-way booking lowers the matching flight by adults + children + infants, possibly below zero, and leaves every other flight |
| NodeServer.RoundTripWithoutDepartureChangesNothing | server.js:361-363 | a round trip without a departingFlight object throws before the write, so no flight changes |
| NodeServer.RoundTripSeats | server.js:361-376 | a round trip with both flight ids lowers the first flight matching each id by adults + children + infants, twice over when both ids name the same flight, possibly below zero, and leaves every other flight |
| NodeServer.NodeStore.UpdateFlightAvailability | server.js:355-392 | flights.json becomes the flights after the booking, and no other file changes |
| NodeServer.HotelRoomsTaken | server.js:404-416 | only the first hotel with the id changes, and its room count reads back as the old count minus booking.rooms |
| NodeServer.HotelsAfterBooking | server.js:404-417 | the hotels keep their number, and every hotel other than the first one whose hotel-id matches is unchanged |
| NodeServer.RoomsLeftReadsBack | server.js:410-412 | the room count written back with toString reads back through parseInt as the old count minus booking.rooms |
| NodeServer.NodeStore.UpdateHotelAvailability | server.js:394-426 | the scan that stops at the first matching hotel yields the hotels after the booking, and no other file changes |
| NodeServer.CarBookingIdempotent | server.js:438-453 | booking the same car twice leaves cars.xml as booking it once |
| NodeServer.NodeStore.UpdateCarAvailability | server.js:428-462 | the scan that stops at the first matching car marks it unavailable, creating the element if needed, and nothing else changes |
| NodeServer.NodeStore.UpdateSourceAvailability | server.js:464-479 | 'flight', 'hotel' and 'car' bookings update their own inventory only; 'cruise' and any other type change nothing |
| NodeServer.FlightItems | server.js:504 | the flights are taken exactly when the handler's test `!flightsData || !flightsData.flights || !Array.isArray(flightsData.flights)` fails, and they are then the elements of the array `flightsData.flights` reads; this is the same as flightsData being an object holding a 'flights' array |
| NodeServer.AllPresentIff | server.js:512-525 | the validation passes exactly when every flight is an object with all nine required fields |
| NodeServer.CheckFieldsNone | server.js:517-524 | a flight passes the inner loop exactly when it is an object carrying every listed field |
| NodeServer.ValidateFlights | server.js:516-525 | the nested loops report the first flight, and within it the first field, that is missing |
| NodeServer.NodeStore.LoadFlights | server.js:486-542 | a non-administrator gets 403 and nothing changes; a rejected upload changes nothing; an accepted one replaces the stored flights wholesale and reports their number |
| NodeServer.FirstMissingChild | server.js:577-585 | the first required child, in the order hotel-id, hotel-name, city, price-per-night, that is missing or empty: every child before it is present; none exactly when all four are present |
| NodeServer.HotelsVerdict | server.js:575-587 | the hotels pass exactly when none misses a required child, and the count is then the number of hotels |
| NodeServer.CountValidHotels | server.js:571-587 | the counting loop gives the verdict of the specification: the first hotel missing a field (numbered from 1), or the number of hotels |
| NodeServer.HotelLoadCountsAll | server.js:553-598 | a successful load reports every hotel, and there is at least one |
| NodeServer.NodeStore.LoadHotels | server.js:545-604 | a non-administrator gets 403; no document (a missing hotelsXML, or a parser that throws) gets 500; a document holding a parsererror element, an empty document or a missing field changes nothing; an accepted document replaces hotels.xml and reports its number of hotels |
| NodeServer.TypeCount | server.js:621-624 | `bookings.filter(b => b.type === t).length` is the number of positions holding a booking whose type is t |
| NodeServer.TypeCountsBounded | server.js:621-637 | the four per-type counts add up to at most the number of bookings |
| NodeServer.AdminStats | server.js:607-645 | the isAdmin middleware answers 403 exactly when the body phone is not the administrator's; otherwise the total is the number of bookings, the flight and hotel totals are the sizes of their collections, each per-type count is the number of bookings of that type, and the four sum to at most the total |
| JsValues.ParseIntOfNumberToString | server.js:410-412 | parseInt reads back the integer toString wrote |
| JsValues.StrictEqualsIsValueEquality | server.js:153 | `===` on primitives is value equality |
| JsValues.StrictEqualsString | server.js:153 | `===` against a string literal holds exactly when the value is that string |
| ClientApi.SaveThenGet | public/api.js:260-276 | after saveCartToStorage(c), getCart() returns c |
| ClientApi.ClearThenGet | public/api.js:286-288 | after clearCart, getCart() returns [] |
| ClientApi.RemoveAt | public/api.js:290-294 | an index in range removes exactly that item, an index past the end changes nothing, and a negative index counts from the end |
| ClientApi.RemoveAtKeepsOthers | public/api.js:290-294 | removing item i keeps the items before it in place and shifts the rest down by one, and the cart loses exactly that item |
| ClientApi.BrowserSession.AddToCart | public/api.js:278-284 | the item is appended after the existing items and saved; a stored cart that is not an array saves nothing |
| ClientApi.BrowserSession.RemoveFromCart | public/api.js:290-294 | the cart without the spliced item is saved; a stored cart that is not an array saves nothing |
| ClientApi.BrowserSession.ClearCart | public/api.js:286-288 | the cart entry is removed, so the cart reads as empty |
| ClientApi.BrowserSession.SaveCartToStorage | public/api.js:270-276 | the cart is stored under its key and nothing else changes |
| ClientApi.LoggedInOf | public/api.js:71-73 | logged in exactly when a non-null user is stored |
| ClientApi.LogoutLogsOut | public/api.js:60-64 | after logoutUser nobody is logged in, and the cart is unchanged |
| ClientApi.BrowserSession.LogoutUser | public/api.js:60-64 | the user entry is removed and isLoggedIn() is false |
| ClientApi.LoginStores | public/api.js:45-50 | a user is stored only for a reply whose success is truthy, and it is the reply's user object |
| ClientApi.LoginThenLoggedIn | public/api.js:45-73 | a successful reply carrying a user is stored, and the browser then counts as logged in |
| ClientApi.BrowserSession.LoginUser | public/api.js:35-58 | the storage changes only when the reply qualifies, and then holds exactly that user |

## Left out

- Floating point. Prices are integer cents. `(float)`, `parseFloat`, and rounding below a cent are not modelled.
- PhpValues.StringOperand: a numeric string with a fraction or an exponent is read only up to its first non-digit, whereas PHP reads it as a float. FlightsSearchApi.Search answers differently for such counts. A count "0.5" gives the model's 400 "At least one passenger is required", and ".5" gives a TypeError, while PHP calls searchFlights with 0.5 for both. A count "1e2" is 1 in the model and 100.0 in PHP. HotelBookingApi.BookHotelRequest computes the total from 129 for a pricePerNight "129.99", and "1e2" rooms count as 1.
- Functions.BookFlight and Functions.BookHotel: the all-or-nothing result relies on mysqli throwing an exception on a duplicate key, which is its default from PHP 8.1 on. Earlier, execute() returns false, the loop goes on, and the transaction commits the partial work; that behaviour is not modelled.
- Functions.CalculateFlightPrice: the multipliers 0.70 and 0.10 are exact percentages, so binary floating-point error in PHP's product is not reproduced.
- `password_hash`/`password_verify`, `mt_rand`, `Math.random`, `Date.now`, `date()` and DateTime's current instant are parameters.
- NodeServer.NewBooking: the three `Date.now()` calls are modelled as one instant.
- `sanitizeInput`, `getCurrentUser`, `logoutUser`, `getFlightById`, `searchHotels` and `getHotelById` in the PHP backend are not part of this model. They are plain reads, or `htmlspecialchars`/`stripslashes`.
- MySQL connection failures, statement errors other than a duplicate primary key, foreign keys, and the isolation of concurrent transactions are not modelled. The booking_date column the database fills in is not modelled.
- SQL `LIKE` is modelled as a case-sensitive substring test, so collation and case-insensitive matching are left out.
- The date parts of SQL and of PHP's `strtotime`/`DateTime` read only YYYY-MM-DD with a year from 0001. Month 00, day 00 and a day past a month's end roll over as PHP rolls them. Year 0000, other formats, times of day in date strings, time zones and daylight saving are left out.
- Functions.RegistrationError: it is built on the corrected phone and date checks (see Findings), so it refuses a phone or a birth date followed by a newline, which php/functions.php:22-57 accepts through the checks as written. Functions.RegisterUser inherits this.
- NodeServer.NodeStore.LoadHotels: how xmldom reacts to malformed XML text (logging it, recovering a partial document, or throwing) is not modelled. The handler sees either no document, which ends in a 500, or a document given by its parsererror and hotel elements.
- HotelBookingApi.DateTimeOf: a check-in or check-out date that convertDateToMySQL turns into null counts from the current instant. A date that `new DateTime` cannot read is a fatal error. Other strings DateTime accepts are not modelled.
- XML parsing and serialisation are not modelled. An XML element is a map from child tag to the text of the first such child, and documents are sequences of such elements. Element order within a record and attributes are not kept.
- File I/O (`readJSON`, `writeJSON`, `readXML`, `writeXML`, `simplexml_load_file`) is not modelled. The store classes hold the parsed contents, and a missing file is an empty collection.
- NodeServer.NodeStore.LoadFlights: other top-level keys of flightsData are not stored, because flights.json is modelled as its `flights` array.
- The Node contacts handlers and the GET endpoints are not part of this model.
- PHP `strlen` counts characters here, not UTF-8 bytes.
- JavaScript `parseInt` reads decimal digits only, with no hexadecimal prefix. Array indices in `splice` are integers; fractional indices are left out.
- ClientApi: alerts, redirects and the `fetch` call of `loginUser` are left out. `loginUser` is modelled from the decoded reply on.
- RegisterApi.Register: registerUser receives the body's JSON values. Its own checks are modelled on strings in Functions.RegistrationError.
- RegisterApi.Register: a JSON object is a map here, so the order of its keys is not kept. Two password objects with the same entries in different orders compare equal in the model, and the request ends in strlen's TypeError. PHP's `!==` (php/api/register.php:25) also compares key order and answers "Passwords do not match".
- FlightsSearchApi.Search: a passenger total that is an array does reach searchFlights. Functions.SearchFlights is stated for a number, and what bind_param's "i" type makes of an array is not modelled.
- Functions.BookHotel: the guest rows go to the table the SQL names `guesses`, and the model takes that table to exist. No schema is part of this model; if the table is named otherwise, every booking with guests fails and rolls back, which the model does not show.
- Config.IsLoggedIn: `isset($_SESSION['user']['phone'])` is modelled as "a user is in the session". A session user always has a phone string.
- NodeServer: users.json entries are modelled as objects.
- HTTP status codes other than the ones the scripts send themselves, JSON encoding of responses, and `exit` are represented by the `Halt` datatype only.

## Findings

| source | as written | input that shows it | evidently intended | confidence | as-written member | corrected member |
|---|---|---|---|---|---|---|
| php/config.php:100-103 | `/^\d{3}-\d{3}-\d{4}$/` lets `$` match before a final newline, so validatePhone accepts a phone followed by "\n" | "555-555-5555\n" | accept exactly ddd-ddd-dddd | not executed | Config.TrailingNewlinePassesPhoneCheck | Config.ValidatePhoneShape |
| php/config.php:111-120 | `/^\d{2}-\d{2}-\d{4}$/` lets `$` match before a final newline, and explode leaves the newline in the year, which checkdate reads as the number before it | "01-15-2024\n" | accept exactly MM-DD-YYYY calendar dates | not executed | Config.TrailingNewlinePassesDateCheck | Config.ValidateDateFormatIff |
| php/admin-functions.php:184-185 | `origin LIKE '%TX%' OR origin IN (...) AND departure_date BETWEEN ...` binds as `A OR (B AND C)`, so '%TX%' origins are reported at any date | a booked flight from "Austin, TX" departing 2024-12-15 | `(A OR B) AND C`, as the hotel report writes it | not executed | AdminFunctions.TexasPrecedenceCounterexample | AdminFunctions.TexasCorrectedWithinWritten |
