/** JSON values as both backends exchange them: request bodies, the records
    kept in the server's data files, and what the browser keeps in its
    session storage. Numbers are integers here (money in cents). */
module Json {
  import opened Common

  datatype Json =
    | JNull
    | JBool(b: bool)
    | JNum(n: int)
    | JStr(s: string)
    | JArr(items: seq<Json>)
    | JObj(fields: map<string, Json>)

  /** A property of an object, absent when the key is missing. */
  function Field(obj: map<string, Json>, key: string): (r: Option<Json>)
    ensures r.Some? <==> key in obj
    ensures r.Some? ==> r.value == obj[key]
  {
    if key in obj then Some(obj[key]) else None
  }

  /** Decimal rendering of an integer, with a leading '-' when negative. */
  function IntToString(n: int): (r: string)
    ensures n >= 0 ==> r == NatToString(n)
    ensures n < 0 ==> r == "-" + NatToString(-n)
  {
    if n < 0 then "-" + NatToString(-n) else NatToString(n)
  }

  /** The sign and digits of an integer's rendering are recovered from it. */
  lemma IntToStringParts(n: int)
    ensures |IntToString(n)| >= 1
    ensures IntToString(n)[0] == '-' <==> n < 0
    ensures n < 0 ==> AllDigits(IntToString(n)[1..]) && DigitsValue(IntToString(n)[1..]) == -n
    ensures n >= 0 ==> AllDigits(IntToString(n)) && DigitsValue(IntToString(n)) == n
  {
    if n < 0 {
      assert IntToString(n)[1..] == NatToString(-n);
    } else {
      assert IsDigit(NatToString(n)[0]);
    }
  }
}
