/** php/api/flights-search.php: the guards in front of searchFlights and
    the arguments it is called with. */
module FlightsSearchApi {
  import opened Common
  import opened Json
  import opened PhpValues
  import opened Config
  import opened Calendar
  import opened Tables
  import opened Functions

  /** The script's fixed flexibility, in days either side of the departure date. */
  const FlexDays: nat := 3

  datatype SearchStep =
    | Stop(halt: Halt)
    | CallSearchFlights(origin: Json, destination: Json, departureDate: Json, numPassengers: Operand, flexDays: nat)

  /** `($data['adults'] ?? 0) + ($data['children'] ?? 0) + ($data['infants'] ?? 0)`. */
  function PassengerCount(data: Body): Operand {
    Plus(Plus(ToOperand(Coalesce(Lookup(data, "adults"), JNum(0))), ToOperand(Coalesce(Lookup(data, "children"), JNum(0)))),
         ToOperand(Coalesce(Lookup(data, "infants"), JNum(0))))
  }

  predicate RouteGiven(data: Body) {
    !Empty(Lookup(data, "origin")) && !Empty(Lookup(data, "destination")) && !Empty(Lookup(data, "departureDate"))
  }

  function Search(requestMethod: string, data: Body): (r: SearchStep)
    ensures requestMethod != "POST" ==> r == Stop(SendError("Invalid request method", 405))
    ensures requestMethod == "POST" && !RouteGiven(data) ==>
      r == Stop(SendError("Origin, destination, and departure date are required", 400))
    ensures r == Stop(SendError("At least one passenger is required", 400)) <==>
      requestMethod == "POST" && RouteGiven(data) && PassengerCount(data) == Int(0)
    ensures r == Stop(Fatal) <==> requestMethod == "POST" && RouteGiven(data) && PassengerCount(data).OperandTypeError?
    ensures r.CallSearchFlights? <==>
      requestMethod == "POST" && RouteGiven(data) && !PassengerCount(data).OperandTypeError? && PassengerCount(data) != Int(0)
    ensures r.CallSearchFlights? ==>
      Lookup(data, "origin") == Some(r.origin) && Lookup(data, "destination") == Some(r.destination) &&
      Lookup(data, "departureDate") == Some(r.departureDate) &&
      PassengerCount(data) == r.numPassengers && r.numPassengers != Int(0) && r.flexDays == 3
  {
    if requestMethod != "POST" then Stop(SendError("Invalid request method", 405))
    else if !RouteGiven(data) then Stop(SendError("Origin, destination, and departure date are required", 400))
    else
      var total := PassengerCount(data);
      if total.OperandTypeError? then Stop(Fatal)
      else if LooseEqualsZero(total) then Stop(SendError("At least one passenger is required", 400))
      else CallSearchFlights(data["origin"], data["destination"], data["departureDate"], total, FlexDays)
  }

  /** A count the request leaves out counts as zero, and a count sent as a
      string of digits counts as its value. */
  lemma MissingCountsAreZero(data: Body, adults: nat, children: nat)
    requires Lookup(data, "adults") == Some(JNum(adults))
    requires Lookup(data, "children") == Some(JStr(NatToString(children)))
    requires "infants" !in data
    ensures PassengerCount(data) == Int(adults + children)
  {
    var a := ToOperand(Coalesce(Lookup(data, "adults"), JNum(0)));
    var c := ToOperand(Coalesce(Lookup(data, "children"), JNum(0)));
    var i := ToOperand(Coalesce(Lookup(data, "infants"), JNum(0)));
    DigitStringCount(Lookup(data, "children"), children);
    assert a == Int(adults);
    assert i == Int(0);
    assert PassengerCount(data) == Plus(Plus(a, c), i);
  }

  /** Counts sent as JSON arrays or objects are PHP arrays, which `+` joins
      by union: the adults' entries, then the children's and the infants'
      under keys not yet present. An array is never `== 0`, so the search
      goes ahead with that array as its passenger total. */
  lemma ArrayCountsAreJoined(data: Body, adults: Json, children: Json, infants: Json)
    requires RouteGiven(data)
    requires Lookup(data, "adults") == Some(adults) && Lookup(data, "children") == Some(children) &&
             Lookup(data, "infants") == Some(infants)
    requires ToOperand(adults).Arr? && ToOperand(children).Arr? && ToOperand(infants).Arr?
    ensures Search("POST", data).CallSearchFlights?
    ensures Search("POST", data).numPassengers ==
      Arr(ToOperand(infants).entries + (ToOperand(children).entries + ToOperand(adults).entries))
  {
    var a := ToOperand(adults);
    var c := ToOperand(children);
    var i := ToOperand(infants);
    assert Coalesce(Lookup(data, "adults"), JNum(0)) == adults;
    assert Coalesce(Lookup(data, "children"), JNum(0)) == children;
    assert Coalesce(Lookup(data, "infants"), JNum(0)) == infants;
    var total := Plus(Plus(a, c), i);
    assert PassengerCount(data) == total;
    assert Plus(a, c) == Arr(c.entries + a.entries);
    assert total == Arr(i.entries + (c.entries + a.entries));
    assert !total.OperandTypeError? && total != Int(0);
  }

  /** adults [1], children [2] and infants [3] give the total [1]. */
  lemma ListCountsExample(data: Body)
    requires RouteGiven(data)
    requires Lookup(data, "adults") == Some(JArr([JNum(1)])) && Lookup(data, "children") == Some(JArr([JNum(2)])) &&
             Lookup(data, "infants") == Some(JArr([JNum(3)]))
    ensures Search("POST", data) ==
      CallSearchFlights(data["origin"], data["destination"], data["departureDate"], Arr(map["0" := JNum(1)]), 3)
  {
    assert NatToString(0) == "0";
    var one := ListEntries([JNum(1)]);
    assert one.Keys == ListKeys(1) == {"0"};
    ArrayCountsAreJoined(data, JArr([JNum(1)]), JArr([JNum(2)]), JArr([JNum(3)]));
    assert ListEntries([JNum(3)]) + (ListEntries([JNum(2)]) + one) == map["0" := JNum(1)];
  }

  /** A count sent as an array beside a count sent as a number is a TypeError. */
  lemma ArrayBesideNumberIsFatal(data: Body, items: seq<Json>, n: int)
    requires RouteGiven(data)
    requires Lookup(data, "adults") == Some(JArr(items)) && Lookup(data, "children") == Some(JNum(n))
    ensures Search("POST", data) == Stop(Fatal)
  {
  }

  lemma DigitStringCount(v: Option<Json>, n: nat)
    requires v == Some(JStr(NatToString(n)))
    ensures ToOperand(Coalesce(v, JNum(0))) == Int(n)
  {
    DigitStringOperand(n);
  }

  /** A well-formed search request (date MM-DD-YYYY naming day d of month m
      of year y) is answered with exactly the stored flights on the route,
      departing within 3 days either side of that day, with enough seats. */
  lemma SearchUsesThreeDayWindow(data: Body, origin: string, destination: string, date: string,
                                 table: seq<FlightRow>, today: int, n: int, y: int, m: int, d: int)
    requires |date| == 10 && m == FieldValue(date[..2]) && d == FieldValue(date[3..5]) && y == FieldValue(date[6..])
    requires ValidateDateFormat(date)
    requires Search("POST", data).CallSearchFlights? && Search("POST", data).numPassengers == Int(n)
    requires Lookup(data, "origin") == Some(JStr(origin)) && Lookup(data, "destination") == Some(JStr(destination))
    requires Lookup(data, "departureDate") == Some(JStr(date))
    ensures y >= 1 && 1 <= m <= 12
    ensures Search("POST", data) == CallSearchFlights(JStr(origin), JStr(destination), JStr(date), Int(n), 3)
    ensures forall f :: f in SearchFlights(table, origin, destination, date, n, 3, today) <==>
      f in table && f.origin == origin && f.destination == destination &&
      DayNumber(y, m, d) - 3 <= f.departureDate <= DayNumber(y, m, d) + 3 && f.availableSeats >= n
  {
    SearchArguments(data, origin, destination, date);
    WindowMembers(table, origin, destination, date, n, today, y, m, d);
  }

  /** A search that reaches searchFlights passes it the body's route and
      date and the fixed flexibility. */
  lemma SearchArguments(data: Body, origin: string, destination: string, date: string)
    requires Search("POST", data).CallSearchFlights?
    requires Lookup(data, "origin") == Some(JStr(origin)) && Lookup(data, "destination") == Some(JStr(destination))
    requires Lookup(data, "departureDate") == Some(JStr(date))
    ensures Search("POST", data) ==
      CallSearchFlights(JStr(origin), JStr(destination), JStr(date), Search("POST", data).numPassengers, 3)
  {
  }

  /** Membership in the search result for a valid MM-DD-YYYY date. */
  lemma WindowMembers(table: seq<FlightRow>, origin: string, destination: string, date: string,
                      n: int, today: int, y: int, m: int, d: int)
    requires |date| == 10 && m == FieldValue(date[..2]) && d == FieldValue(date[3..5]) && y == FieldValue(date[6..])
    requires ValidateDateFormat(date)
    ensures y >= 1 && 1 <= m <= 12
    ensures forall f :: f in SearchFlights(table, origin, destination, date, n, 3, today) <==>
      f in table && f.origin == origin && f.destination == destination &&
      DayNumber(y, m, d) - 3 <= f.departureDate <= DayNumber(y, m, d) + 3 && f.availableSeats >= n
  {
    ThreeDayWindow(date, today, y, m, d);
    var window := DateWindow(DayNumber(y, m, d) - 3, DayNumber(y, m, d) + 3);
    var r := SearchFlights(table, origin, destination, date, n, 3, today);
    forall f
      ensures f in r <==>
        f in table && f.origin == origin && f.destination == destination &&
        window.first <= f.departureDate <= window.last && f.availableSeats >= n
    {
      assert f in r <==> f in table && SearchMatch(f, origin, destination, window, n);
    }
  }

  /** The window around a valid MM-DD-YYYY date, in terms of its fields. */
  lemma ThreeDayWindow(date: string, today: int, y: int, m: int, d: int)
    requires |date| == 10 && m == FieldValue(date[..2]) && d == FieldValue(date[3..5]) && y == FieldValue(date[6..])
    requires ValidateDateFormat(date)
    ensures y >= 1 && 1 <= m <= 12
    ensures SearchWindow(date, 3, today) == DateWindow(DayNumber(y, m, d) - 3, DayNumber(y, m, d) + 3)
  {
    DateShape(date);
    SearchWindowOfValidDate(date, 3, today);
    assert FieldValue(date[..2]) == DigitsValue(date[..2]);
    assert FieldValue(date[3..5]) == DigitsValue(date[3..5]);
    assert FieldValue(date[6..]) == DigitsValue(date[6..]);
  }
}
