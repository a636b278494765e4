/** The PHP semantics the endpoint scripts rely on when they read a request
    body decoded with json_decode($input, true): lookups, empty(), `??`,
    arithmetic operands and strlen. */
module PhpValues {
  import opened Common
  import opened Json

  /** The decoded body as an associative array. A body that is not a JSON
      object (a scalar, a list, or malformed input) has no string keys, so it
      is the empty map here: every lookup in it finds nothing. */
  type Body = map<string, Json>

  /** `$data[$key]`; `None` when the key is missing. */
  function Lookup(data: Body, key: string): Option<Json> {
    Field(data, key)
  }

  /** empty($v): a missing key, null, false, 0, "", "0", and empty arrays. */
  predicate Empty(v: Option<Json>) {
    match v
    case None => true
    case Some(j) =>
      match j
      case JNull => true
      case JBool(b) => !b
      case JNum(n) => n == 0
      case JStr(s) => s == "" || s == "0"
      case JArr(items) => items == []
      case JObj(m) => m == map[]
  }

  /** `$v ?? $default`: the default for a missing key or null. */
  function Coalesce(v: Option<Json>, default: Json): (r: Json)
    ensures v.Some? && v.value != JNull ==> r == v.value
    ensures v.None? || v.value == JNull ==> r == default
  {
    if v.None? || v.value == JNull then default else v.value
  }

  /** An arithmetic operand after PHP 8's conversion: a number, an array, or
      the TypeError thrown for a non-numeric string. json_decode(..., true)
      turns JSON lists and objects alike into PHP arrays. An array is given
      by its entries, each key written as a string: PHP stores a decimal
      integer key such as "3" as the integer 3, so two keys are the same
      key exactly when their decimal forms are the same string. */
  datatype Operand = Int(n: int) | Arr(entries: map<string, Json>) | OperandTypeError

  predicate IsPhpSpace(c: char) {
    c == ' ' || c == '\t' || c == '\n' || c == '\r' || c == '\U{000B}' || c == '\U{000C}'
  }

  function SkipSpaces(s: string): (r: string)
    ensures |r| <= |s| && r == s[|s| - |r|..]
    ensures r == [] || !IsPhpSpace(r[0])
  {
    if s != [] && IsPhpSpace(s[0]) then SkipSpaces(s[1..]) else s
  }

  function LeadingDigits(s: string): (r: string)
    ensures |r| <= |s| && r == s[..|r|] && AllDigits(r)
  {
    if s != [] && IsDigit(s[0]) then [s[0]] + LeadingDigits(s[1..]) else []
  }

  /** A string as an integer operand: optional leading whitespace, an
      optional sign, then digits, which give the value (trailing text is
      tolerated with a warning); a string with no leading digits throws.
      Only the integer part is read: PHP reads a fraction or an exponent
      as a float, which this model does not represent. */
  function StringOperand(s: string): Operand {
    TrimmedOperand(SkipSpaces(s))
  }

  /** The sign and digits at the head of a string with no leading whitespace. */
  function TrimmedOperand(t: string): Operand {
    var signed := |t| > 0 && (t[0] == '-' || t[0] == '+');
    var body := if signed then t[1..] else t;
    var digits := LeadingDigits(body);
    if digits == [] then OperandTypeError
    else if signed && t[0] == '-' then Int(-(DigitsValue(digits) as int))
    else Int(DigitsValue(digits))
  }

  /** A JSON list as a PHP array: element i under the key i. */
  function ListEntries(items: seq<Json>): (r: map<string, Json>)
    ensures r.Keys == ListKeys(|items|)
    ensures forall i :: 0 <= i < |items| ==> NatToString(i) in r && r[NatToString(i)] == items[i]
    decreases |items|
  {
    if items == [] then map[]
    else
      var last := |items| - 1;
      var prefix := ListEntries(items[..last]);
      ListKeysStep(last);
      forall i | 0 <= i < last
        ensures NatToString(i) != NatToString(last)
      {
        NatToStringInjective(i, last);
      }
      prefix[NatToString(last) := items[last]]
  }

  /** The keys of a list of n elements. */
  function ListKeys(n: nat): set<string> {
    set i | 0 <= i < n :: NatToString(i)
  }

  lemma ListKeysStep(n: nat)
    ensures ListKeys(n + 1) == ListKeys(n) + {NatToString(n)}
  {
    assert NatToString(n) in ListKeys(n + 1);
  }

  lemma NatToStringInjective(i: nat, j: nat)
    requires i != j
    ensures NatToString(i) != NatToString(j)
  {
    IntToStringParts(i);
    IntToStringParts(j);
  }

  function ToOperand(j: Json): Operand {
    match j
    case JNull => Int(0)
    case JBool(b) => Int(if b then 1 else 0)
    case JNum(n) => Int(n)
    case JStr(s) => StringOperand(s)
    case JArr(items) => Arr(ListEntries(items))
    case JObj(m) => Arr(m)
  }

  /** `$a + $b`: the sum of two numbers, the union of two arrays (the left
      array's entries, then those of the right one under keys the left one
      lacks), and a TypeError for an array beside a number or from either
      operand. */
  function Plus(a: Operand, b: Operand): (r: Operand)
    ensures r.Int? <==> a.Int? && b.Int?
    ensures r.Int? ==> r.n == a.n + b.n
    ensures r.Arr? <==> a.Arr? && b.Arr?
    ensures r.Arr? ==> r.entries.Keys == a.entries.Keys + b.entries.Keys
    ensures r.Arr? ==> forall k :: k in a.entries ==> r.entries[k] == a.entries[k]
    ensures r.Arr? ==> forall k :: k in b.entries && k !in a.entries ==> r.entries[k] == b.entries[k]
  {
    if a.Int? && b.Int? then Int(a.n + b.n)
    else if a.Arr? && b.Arr? then Arr(b.entries + a.entries)
    else OperandTypeError
  }

  /** `$a * $b`: the product of two numbers; an array on either side, or a
      TypeError from either operand, throws. */
  function Times(a: Operand, b: Operand): (r: Operand)
    ensures r.Int? <==> a.Int? && b.Int?
    ensures r.Int? ==> r.n == a.n * b.n
    ensures !r.Arr?
  {
    if a.Int? && b.Int? then Int(a.n * b.n) else OperandTypeError
  }

  /** `$v == 0` in PHP 8: a number equal to zero; an array is never equal to 0. */
  predicate LooseEqualsZero(v: Operand)
    requires !v.OperandTypeError?
  {
    v == Int(0)
  }

  /** A scalar passed where a string is expected: null is "", true is "1",
      false is "", a number its decimal form; an array throws a TypeError. */
  function PhpString(j: Json): (r: Option<string>)
    ensures r.None? <==> j.JArr? || j.JObj?
    ensures j.JStr? ==> r == Some(j.s)
    ensures r.Some? ==> Strlen(j) == Some(|r.value|)
  {
    match j
    case JNull => Some("")
    case JBool(b) => Some(if b then "1" else "")
    case JNum(n) => Some(IntToString(n))
    case JStr(s) => Some(s)
    case JArr(_) => None
    case JObj(_) => None
  }

  /** strlen($v): the length of the string form of a scalar (null is the
      empty string); arrays and objects throw a TypeError. */
  function Strlen(j: Json): Option<nat> {
    match j
    case JNull => Some(0)
    case JBool(b) => Some(if b then 1 else 0)
    case JNum(n) => Some(|IntToString(n)|)
    case JStr(s) => Some(|s|)
    case JArr(_) => None
    case JObj(_) => None
  }

  /** A string of digits, as a request sends a count, is that count. */
  lemma {:induction false} DigitStringOperand(n: nat)
    ensures StringOperand(NatToString(n)) == Int(n)
    ensures StringOperand(" " + NatToString(n)) == Int(n)
  {
    var s := NatToString(n);
    DigitsOperand(s);
    LeadingSpaceOperand(s);
  }

  /** Leading whitespace does not change a string's operand. */
  lemma LeadingSpaceOperand(s: string)
    ensures StringOperand(" " + s) == StringOperand(s)
  {
    var spaced := " " + s;
    assert spaced[0] == ' ' && spaced[1..] == s;
    assert SkipSpaces(spaced) == SkipSpaces(s);
  }

  /** A non-empty run of digits is an operand worth its value. */
  lemma DigitsOperand(s: string)
    requires s != [] && AllDigits(s)
    ensures SkipSpaces(s) == s
    ensures StringOperand(s) == Int(DigitsValue(s))
  {
    var c := s[0];
    assert IsDigit(c);
    NoSpaceFirst(s, c);
    LeadingDigitsOfDigits(s);
  }

  lemma NoSpaceFirst(s: string, c: char)
    requires s != [] && s[0] == c && IsDigit(c)
    ensures SkipSpaces(s) == s && c != '-' && c != '+'
  {
    assert !IsPhpSpace(c);
  }

  lemma {:induction false} LeadingDigitsOfDigits(s: string)
    requires AllDigits(s)
    ensures LeadingDigits(s) == s
    decreases |s|
  {
    if s != [] {
      LeadingDigitsOfDigits(s[1..]);
      assert [s[0]] + s[1..] == s;
    }
  }

  /** empty() is false exactly for the values a required field may carry. */
  lemma NonEmptyString(s: string)
    ensures !Empty(Some(JStr(s))) <==> s != "" && s != "0"
    ensures Empty(None) && Empty(Some(JNull))
  {
  }
}
