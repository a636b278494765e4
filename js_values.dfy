/** The JavaScript semantics the Node server and the browser helpers rely
    on: `undefined`, truthiness, strict equality, property access on parsed
    JSON, the `+` and `-` operators with their coercions, Number's string
    form and parseInt. */
module JsValues {
  import opened Common
  import opened Json

  /** A value read out of parsed JSON; `None` is `undefined` (a missing property). */
  type JsValue = Option<Json>

  /** A JavaScript number restricted to the integers, plus NaN. */
  datatype Number = Finite(n: int) | NaN

  /** The falsy values are undefined, null, false, 0 and the empty string. */
  predicate Truthy(v: JsValue) {
    match v
    case None => false
    case Some(j) =>
      match j
      case JNull => false
      case JBool(b) => b
      case JNum(n) => n != 0
      case JStr(s) => s != ""
      case JArr(_) => true
      case JObj(_) => true
  }

  /** `===`: undefined and null are each equal only to themselves, primitives
      compare by type and value, and two separately parsed arrays or objects
      are never the same object. */
  predicate StrictEquals(a: JsValue, b: JsValue) {
    match (a, b)
    case (None, None) => true
    case (Some(JNull), Some(JNull)) => true
    case (Some(JBool(x)), Some(JBool(y))) => x == y
    case (Some(JNum(x)), Some(JNum(y))) => x == y
    case (Some(JStr(x)), Some(JStr(y))) => x == y
    case _ => false
  }

  /** `v === "s"` holds exactly when v is that string. */
  lemma StrictEqualsString(v: JsValue, s: string)
    ensures StrictEquals(v, Some(JStr(s))) <==> v == Some(JStr(s))
  {
  }

  predicate IsPrimitive(v: JsValue) {
    v.None? || !(v.value.JArr? || v.value.JObj?)
  }

  /** `===` is value equality on undefined and the primitives, and never holds
      when either side is an array or an object. */
  lemma StrictEqualsIsValueEquality(a: JsValue, b: JsValue)
    ensures StrictEquals(a, b) ==> a == b && IsPrimitive(a)
    ensures a == b && IsPrimitive(a) ==> StrictEquals(a, b)
  {
  }

  /** Outcome of reading `obj.key`. */
  datatype Access = Value(v: JsValue) | TypeError

  /** `obj.key` for the data properties the code reads: a TypeError on
      undefined and null, the own property of an object, and undefined on any
      other value (strings, numbers, booleans and arrays have no such property). */
  function Member(obj: JsValue, key: string): (r: Access)
    ensures r.TypeError? <==> obj == None || obj == Some(JNull)
    ensures obj.Some? && obj.value.JObj? ==> r == Value(Field(obj.value.fields, key))
  {
    match obj
    case None => TypeError
    case Some(JNull) => TypeError
    case Some(JObj(m)) => Value(Field(m, key))
    case Some(_) => Value(None)
  }

  /** `Array.isArray(v)`. */
  predicate IsArray(v: JsValue) {
    v.Some? && v.value.JArr?
  }

  // ---------------------------------------------------------------------
  // Strings and numbers
  // ---------------------------------------------------------------------

  /** The whitespace characters that number parsing skips (the ASCII ones,
      no-break space and the byte-order mark). */
  predicate IsSpace(c: char) {
    c == ' ' || c == '\t' || c == '\n' || c == '\r' || c == '\U{000B}' || c == '\U{000C}' ||
    c == '\U{00A0}' || c == '\U{FEFF}'
  }

  /** `s` without its leading whitespace. */
  function TrimStart(s: string): (r: string)
    ensures |r| <= |s| && r == s[|s| - |r|..]
    ensures forall i :: 0 <= i < |s| - |r| ==> IsSpace(s[i])
    ensures r == [] || !IsSpace(r[0])
  {
    if s != [] && IsSpace(s[0]) then TrimStart(s[1..]) else s
  }

  /** `s` without its trailing whitespace. */
  function TrimEnd(s: string): (r: string)
    ensures |r| <= |s| && r == s[..|r|]
    ensures forall i :: |r| <= i < |s| ==> IsSpace(s[i])
    ensures r == [] || !IsSpace(r[|r| - 1])
  {
    if s != [] && IsSpace(s[|s| - 1]) then TrimEnd(s[..|s| - 1]) else s
  }

  /** The longest prefix of `s` made of decimal digits. */
  function DigitPrefix(s: string): (r: string)
    ensures |r| <= |s| && r == s[..|r|] && AllDigits(r)
    ensures |r| < |s| ==> !IsDigit(s[|r|])
  {
    if s != [] && IsDigit(s[0]) then [s[0]] + DigitPrefix(s[1..]) else []
  }

  /** A signed run of digits as a number (the sign applies to the digits). */
  function Signed(negative: bool, digits: string): int
    requires AllDigits(digits)
  {
    if negative then -(DigitsValue(digits) as int) else DigitsValue(digits)
  }

  /** parseInt(s) without a radix: leading whitespace is skipped, then an
      optional sign, then the longest run of decimal digits; NaN when that run
      is empty. */
  function ParseInt(s: string): Number {
    var t := TrimStart(s);
    var signed := |t| > 0 && (t[0] == '-' || t[0] == '+');
    var body := if signed then t[1..] else t;
    var digits := DigitPrefix(body);
    if digits == [] then NaN else Finite(Signed(signed && t[0] == '-', digits))
  }

  /** Number(s): the whole string, less surrounding whitespace, must be an
      optionally signed run of digits; the blank string is 0. */
  function StringToNumber(s: string): Number {
    var t := TrimEnd(TrimStart(s));
    var signed := |t| > 0 && (t[0] == '-' || t[0] == '+');
    var body := if signed then t[1..] else t;
    if t == [] then Finite(0)
    else if body != [] && AllDigits(body) then Finite(Signed(signed && t[0] == '-', body))
    else NaN
  }

  /** String(x) for a number: its decimal form, or "NaN". */
  function NumberToString(x: Number): string {
    match x
    case Finite(n) => IntToString(n)
    case NaN => "NaN"
  }

  lemma {:induction false} DigitPrefixOfDigits(s: string, rest: string)
    requires AllDigits(s)
    requires rest == [] || !IsDigit(rest[0])
    ensures DigitPrefix(s + rest) == s
    decreases |s|
  {
    if s != [] {
      assert (s + rest)[1..] == s[1..] + rest;
      DigitPrefixOfDigits(s[1..], rest);
      assert [s[0]] + s[1..] == s;
    } else {
      assert s + rest == rest;
    }
  }

  /** parseInt reads back every number's string form, NaN included, so a
      count written with toString survives the next read. */
  lemma {:induction false} ParseIntOfNumberToString(x: Number)
    ensures ParseInt(NumberToString(x)) == x
  {
    match x
    case NaN =>
      var t := TrimStart("NaN");
      assert t == "NaN";
      assert DigitPrefix(t) == [];
    case Finite(n) =>
      if n < 0 {
        ParseIntOfNegative(n);
      } else {
        ParseIntOfNonNegative(n);
      }
  }

  lemma ParseIntOfNegative(n: int)
    requires n < 0
    ensures ParseInt(IntToString(n)) == Finite(n)
  {
    var s := IntToString(n);
    IntToStringParts(n);
    assert TrimStart(s) == s;
    DigitPrefixOfDigits(s[1..], []);
    assert s[1..] + [] == s[1..];
  }

  lemma ParseIntOfNonNegative(n: int)
    requires n >= 0
    ensures ParseInt(IntToString(n)) == Finite(n)
  {
    var s := IntToString(n);
    IntToStringParts(n);
    assert TrimStart(s) == s;
    DigitPrefixOfDigits(s, []);
    assert s + [] == s;
    assert s[0] != '-' && s[0] != '+';
  }

  /** Number() reads back every finite number's string form too. */
  lemma {:induction false} StringToNumberOfIntString(n: int)
    ensures StringToNumber(IntToString(n)) == Finite(n)
  {
    var s := IntToString(n);
    IntToStringParts(n);
    var last := s[|s| - 1];
    assert IsDigit(last) by {
      if n < 0 {
        assert last == s[1..][|s| - 2];
      }
    }
    NoTrim(s);
    if n < 0 {
      assert Signed(true, s[1..]) == n;
    } else {
      assert s[0] != '-' && s[0] != '+';
      assert Signed(false, s) == n;
    }
  }

  /** A string that starts and ends with a non-space is not trimmed. */
  lemma NoTrim(s: string)
    requires s != [] && !IsSpace(s[0]) && !IsSpace(s[|s| - 1])
    ensures TrimEnd(TrimStart(s)) == s
  {
    assert TrimStart(s) == s;
  }

  // ---------------------------------------------------------------------
  // Operators
  // ---------------------------------------------------------------------

  /** A value after ToPrimitive. */
  datatype Primitive = PUndefined | PNull | PBool(b: bool) | PNumber(x: Number) | PString(s: string)

  /** The string an array or object turns into: elements joined with ","
      (null elements as empty strings), "[object Object]" for objects. */
  function JsonToString(j: Json): string
    decreases j, 1
  {
    match j
    case JNull => "null"
    case JBool(b) => if b then "true" else "false"
    case JNum(n) => IntToString(n)
    case JStr(s) => s
    case JArr(items) => JoinElements(items)
    case JObj(_) => "[object Object]"
  }

  function JoinElements(items: seq<Json>): string
    decreases items, 0
  {
    if items == [] then ""
    else
      var first := if items[0] == JNull then "" else JsonToString(items[0]);
      if |items| == 1 then first else first + "," + JoinElements(items[1..])
  }

  function ToPrimitive(v: JsValue): Primitive {
    match v
    case None => PUndefined
    case Some(JNull) => PNull
    case Some(JBool(b)) => PBool(b)
    case Some(JNum(n)) => PNumber(Finite(n))
    case Some(JStr(s)) => PString(s)
    case Some(j) => PString(JsonToString(j))
  }

  function ToNumber(p: Primitive): Number {
    match p
    case PUndefined => NaN
    case PNull => Finite(0)
    case PBool(b) => Finite(if b then 1 else 0)
    case PNumber(x) => x
    case PString(s) => StringToNumber(s)
  }

  function ToString(p: Primitive): string {
    match p
    case PUndefined => "undefined"
    case PNull => "null"
    case PBool(b) => if b then "true" else "false"
    case PNumber(x) => NumberToString(x)
    case PString(s) => s
  }

  function AddNumbers(x: Number, y: Number): Number {
    if x.Finite? && y.Finite? then Finite(x.n + y.n) else NaN
  }

  function SubtractNumbers(x: Number, y: Number): Number {
    if x.Finite? && y.Finite? then Finite(x.n - y.n) else NaN
  }

  /** `a + b`: concatenation when either side is a string, numeric addition otherwise. */
  function Add(a: Primitive, b: Primitive): Primitive {
    if a.PString? || b.PString? then PString(ToString(a) + ToString(b))
    else PNumber(AddNumbers(ToNumber(a), ToNumber(b)))
  }

  /** `a - b`: always numeric. */
  function Subtract(a: Primitive, b: Primitive): Number {
    SubtractNumbers(ToNumber(a), ToNumber(b))
  }

  /** What JSON.stringify writes for a number: NaN becomes null. */
  function NumberToJson(x: Number): (j: Json)
    ensures j == JNull <==> x.NaN?
    ensures x.Finite? ==> j == JNum(x.n)
  {
    match x
    case Finite(n) => JNum(n)
    case NaN => JNull
  }

  /** With number operands, `+` and `-` are integer arithmetic; a string
      operand anywhere turns the sum into a concatenation instead. */
  lemma AddOnNumbers(a: int, b: int, c: int, s: string)
    ensures Add(Add(PNumber(Finite(a)), PNumber(Finite(b))), PNumber(Finite(c))) == PNumber(Finite(a + b + c))
    ensures Subtract(PNumber(Finite(a)), PNumber(Finite(b))) == Finite(a - b)
    ensures Add(PString(s), PNumber(Finite(a))) == PString(s + IntToString(a))
  {
  }
}
