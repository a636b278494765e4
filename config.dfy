/** php/config.php: the reserved administrator phone, the fare multipliers,
    the session checks, the input validators, the date-string converters and
    the format of generated identifiers. */
module Config {
  import opened Common
  import opened Calendar

  /** The one phone number that designates the administrator. */
  const AdminPhone: string := "222-222-2222"

  /** Child and infant fares, as percentages of the adult fare. */
  const ChildPercent: nat := 70
  const InfantPercent: nat := 10

  // ---------------------------------------------------------------------
  // Session ($_SESSION['user'])
  // ---------------------------------------------------------------------

  /** What a successful login stores in the session: no password of any kind. */
  datatype SessionUser = SessionUser(
    phone: string, firstName: string, lastName: string,
    dateOfBirth: string, email: string, gender: Option<string>)

  /** The session's user entry, absent until a login succeeds. */
  type Session = Option<SessionUser>

  predicate IsLoggedIn(session: Session) {
    session.Some?
  }

  predicate IsAdmin(session: Session) {
    IsLoggedIn(session) && session.value.phone == AdminPhone
  }

  /** Where a guard sends the request: on to the page, or away by redirect
      (a `Location` header followed by `exit`). */
  datatype Gate = Proceed | RedirectTo(page: string)

  function RequireLogin(session: Session): (g: Gate)
    ensures g == Proceed <==> IsLoggedIn(session)
  {
    if !IsLoggedIn(session) then RedirectTo("login.php") else Proceed
  }

  /** requireAdmin: requireLogin first, then the admin check; each exits on failure. */
  function RequireAdmin(session: Session): (g: Gate)
    ensures g == Proceed <==> IsAdmin(session)
    ensures !IsLoggedIn(session) ==> g == RedirectTo("login.php")
    ensures IsLoggedIn(session) && !IsAdmin(session) ==> g == RedirectTo("index.php")
  {
    match RequireLogin(session)
    case RedirectTo(page) => RedirectTo(page)
    case Proceed => if !IsAdmin(session) then RedirectTo("index.php") else Proceed
  }

  /** How an endpoint script ends before reaching its core call: sendError
      (a JSON error with an HTTP status, 400 unless given), a redirect, or an
      uncaught TypeError or exception (HTTP 500). */
  datatype Halt = SendError(error: string, status: nat) | Redirected(page: string) | Fatal

  /** Being the administrator presupposes being logged in. */
  lemma AdminIsLoggedIn(session: Session)
    ensures IsAdmin(session) ==> IsLoggedIn(session)
    ensures IsAdmin(session) <==> session.Some? && session.value.phone == AdminPhone
  {
  }

  // ---------------------------------------------------------------------
  // Anchored regular expressions made of \d{n} runs and literal characters
  // ---------------------------------------------------------------------

  datatype Token = DigitRun(count: nat) | Literal(c: char)

  /** All of `s` matches `pattern`, with no character left over. */
  predicate MatchesExactly(s: string, pattern: seq<Token>)
    decreases pattern
  {
    if pattern == [] then s == []
    else match pattern[0]
      case DigitRun(n) => |s| >= n && AllDigits(s[..n]) && MatchesExactly(s[n..], pattern[1..])
      case Literal(c) => |s| >= 1 && s[0] == c && MatchesExactly(s[1..], pattern[1..])
  }

  /** preg_match of `/^...$/` without the D modifier: PCRE's `$` matches at
      the end of the subject and also just before a final newline. */
  predicate PregMatchAnchored(s: string, pattern: seq<Token>) {
    MatchesExactly(s, pattern) || (|s| >= 1 && s[|s| - 1] == '\n' && MatchesExactly(s[..|s| - 1], pattern))
  }

  const PhonePattern: seq<Token> := [DigitRun(3), Literal('-'), DigitRun(3), Literal('-'), DigitRun(4)]
  const DatePattern: seq<Token> := [DigitRun(2), Literal('-'), DigitRun(2), Literal('-'), DigitRun(4)]

  // ---------------------------------------------------------------------
  // validatePhone
  // ---------------------------------------------------------------------

  /** validatePhone as the code is written: `preg_match('/^\d{3}-\d{3}-\d{4}$/', $phone)`. */
  predicate ValidatePhoneAsWritten(phone: string) {
    PregMatchAnchored(phone, PhonePattern)
  }

  /** validatePhone as intended: exactly ddd-ddd-dddd. The rest of the model uses this one. */
  predicate ValidatePhone(phone: string) {
    MatchesExactly(phone, PhonePattern)
  }

  /** The shape ValidatePhone accepts, position by position, in both directions. */
  lemma {:induction false} ValidatePhoneShape(phone: string)
    ensures ValidatePhone(phone) <==>
      |phone| == 12 && phone[3] == '-' && phone[7] == '-' &&
      AllDigits(phone[..3]) && AllDigits(phone[4..7]) && AllDigits(phone[8..])
  {
    var p := PhonePattern;
    assert p[1..][1..][1..][1..][1..] == [];
    if |phone| >= 12 {
      assert phone[3..][..1] == [phone[3]];
      assert phone[4..] == phone[3..][1..];
      assert phone[4..][..3] == phone[4..7];
      assert phone[7..] == phone[4..][3..];
      assert phone[8..] == phone[7..][1..];
      assert phone[8..][..4] == phone[8..12];
      assert phone[8..][4..] == phone[12..];
    }
  }

  /** A well-formed phone followed by a newline passes the code as written,
      though it is not of the form ddd-ddd-dddd. */
  lemma {:induction false} TrailingNewlinePassesPhoneCheck(phone: string)
    requires ValidatePhone(phone)
    ensures ValidatePhoneAsWritten(phone + "\n")
    ensures !ValidatePhone(phone + "\n")
  {
    ValidatePhoneShape(phone);
    ValidatePhoneShape(phone + "\n");
    assert (phone + "\n")[..|phone + "\n"| - 1] == phone;
  }

  /** The administrator's phone is itself well formed, so registration's
      reserved-number check is not subsumed by the format check. */
  lemma AdminPhoneIsWellFormed()
    ensures ValidatePhone(AdminPhone)
  {
    ValidatePhoneShape(AdminPhone);
  }

  // ---------------------------------------------------------------------
  // validateEmail
  // ---------------------------------------------------------------------

  /** validateEmail: the address contains '@' and contains '.com'. */
  predicate ValidateEmail(email: string) {
    Contains(email, "@") && Contains(email, ".com")
  }

  /** validateEmail in terms of positions: '@' somewhere and '.com' somewhere,
      in either order. */
  lemma {:induction false} ValidateEmailIff(email: string)
    ensures ValidateEmail(email) <==>
      (exists i :: OccursAt(email, "@", i)) && (exists j :: OccursAt(email, ".com", j))
  {
    ContainsIffOccurs(email, "@");
    ContainsIffOccurs(email, ".com");
  }

  // ---------------------------------------------------------------------
  // validateDateFormat
  // ---------------------------------------------------------------------

  /** The number a field of digits denotes (0 for a field that is not all digits,
      a case the shape check excludes). */
  function FieldValue(s: string): nat {
    if AllDigits(s) then DigitsValue(s) else 0
  }

  /** checkdate on the month, day and year fields of a string that starts with MM-DD-YYYY. */
  predicate FieldsFormDate(date: string)
    requires |date| >= 10
  {
    CheckDate(FieldValue(date[..2]), FieldValue(date[3..5]), FieldValue(date[6..10]))
  }

  /** validateDateFormat as written: the PCRE shape check, then checkdate on
      the fields (a year field "YYYY\n" converts to the integer YYYY). */
  predicate ValidateDateFormatAsWritten(date: string) {
    PregMatchAnchored(date, DatePattern) && |date| >= 10 && FieldsFormDate(date)
  }

  /** validateDateFormat as intended: exactly MM-DD-YYYY, and a real date. */
  predicate ValidateDateFormat(date: string) {
    MatchesExactly(date, DatePattern) && |date| == 10 && FieldsFormDate(date)
  }

  lemma {:induction false} DateShape(date: string)
    ensures MatchesExactly(date, DatePattern) <==>
      |date| == 10 && date[2] == '-' && date[5] == '-' &&
      AllDigits(date[..2]) && AllDigits(date[3..5]) && AllDigits(date[6..])
  {
    var p := DatePattern;
    assert p[1..][1..][1..][1..][1..] == [];
    if |date| >= 10 {
      assert date[2..][..1] == [date[2]];
      assert date[3..] == date[2..][1..];
      assert date[3..][..2] == date[3..5];
      assert date[5..] == date[3..][2..];
      assert date[6..] == date[5..][1..];
      assert date[6..][..4] == date[6..10];
      assert date[6..][4..] == date[10..];
    }
  }

  /** validateDateFormat holds exactly for MM-DD-YYYY strings naming a real
      date: month 1..12, day within the month, February 29 only in leap years,
      year at least 1. */
  lemma {:induction false} ValidateDateFormatIff(date: string)
    ensures ValidateDateFormat(date) <==>
      MatchesExactly(date, DatePattern) && |date| == 10 &&
      var m, d, y := FieldValue(date[..2]), FieldValue(date[3..5]), FieldValue(date[6..]);
      1 <= m <= 12 && y >= 1 && 1 <= d <= DaysInMonth(y, m)
  {
    DateShape(date);
    if MatchesExactly(date, DatePattern) {
      assert date[6..] == date[6..10];
      DigitsValueBound(date[6..]);
      assert Pow10(4) == 10000;
    }
  }

  /** A trailing newline after a real MM-DD-YYYY date passes the code as written. */
  lemma {:induction false} TrailingNewlinePassesDateCheck(date: string)
    requires ValidateDateFormat(date)
    ensures ValidateDateFormatAsWritten(date + "\n")
    ensures !ValidateDateFormat(date + "\n")
  {
    var d := date + "\n";
    assert d[..|d| - 1] == date;
    assert d[..2] == date[..2] && d[3..5] == date[3..5] && d[6..10] == date[6..10];
  }

  /** The fields validateDateFormat checks are exactly the pieces explode('-') yields. */
  lemma {:induction false} DateFieldsAreExplodePieces(date: string)
    requires MatchesExactly(date, DatePattern)
    ensures Split(date, '-') == [date[..2], date[3..5], date[6..]]
  {
    DateShape(date);
    var parts := [date[..2], date[3..5], date[6..]];
    NoSeparatorInDigits(date[..2]);
    NoSeparatorInDigits(date[3..5]);
    NoSeparatorInDigits(date[6..]);
    assert Join(parts, '-') == date by {
      assert Join(parts[1..], '-') == date[3..5] + "-" + date[6..];
    }
    SplitJoin(parts, '-');
  }

  lemma NoSeparatorInDigits(s: string)
    requires AllDigits(s)
    ensures '-' !in s
  {
  }

  // ---------------------------------------------------------------------
  // Date-string converters
  // ---------------------------------------------------------------------

  /** PHP's empty() on a string: the empty string and "0". */
  predicate PhpEmpty(s: string) {
    s == "" || s == "0"
  }

  /** convertDateToMySQL: "MM-DD-YYYY" to "YYYY-MM-DD"; null for empty input.
      Missing pieces read as empty strings, extra pieces are ignored. */
  function ConvertDateToMySQL(date: string): Option<string> {
    if PhpEmpty(date) then None
    else
      var parts := Split(date, '-');
      Some(Piece(parts, 2) + "-" + Piece(parts, 0) + "-" + Piece(parts, 1))
  }

  /** convertDateFromMySQL: "YYYY-MM-DD" to "MM-DD-YYYY"; '' for null or empty input. */
  function ConvertDateFromMySQL(date: Option<string>): string {
    if date.None? || PhpEmpty(date.value) then ""
    else
      var parts := Split(date.value, '-');
      Piece(parts, 1) + "-" + Piece(parts, 2) + "-" + Piece(parts, 0)
  }

  lemma {:induction false} ThreePieces(s: string, sep: char)
    requires |Split(s, sep)| == 3
    ensures s == Split(s, sep)[0] + [sep] + Split(s, sep)[1] + [sep] + Split(s, sep)[2]
  {
    var parts := Split(s, sep);
    JoinSplit(s, sep);
    assert Join(parts, sep) == parts[0] + [sep] + Join(parts[1..], sep);
    assert Join(parts[1..], sep) == parts[1] + [sep] + Join(parts[2..], sep);
  }

  lemma {:induction false} SplitThree(a: string, b: string, c: string, sep: char)
    requires sep !in a && sep !in b && sep !in c
    ensures Split(a + [sep] + b + [sep] + c, sep) == [a, b, c]
  {
    var parts := [a, b, c];
    assert Join(parts, sep) == a + [sep] + b + [sep] + c by {
      assert Join(parts[1..], sep) == b + [sep] + c;
    }
    SplitJoin(parts, sep);
  }

  /** Converting to the storage form and back gives the original string, for
      every string with exactly three '-'-separated pieces. */
  lemma {:induction false} DateRoundTrip(date: string)
    requires |Split(date, '-')| == 3
    ensures ConvertDateToMySQL(date).Some?
    ensures ConvertDateFromMySQL(ConvertDateToMySQL(date)) == date
  {
    var p := Split(date, '-');
    ThreePieces(date, '-');
    assert date[|p[0]|] == '-';
    var stored := p[2] + "-" + p[0] + "-" + p[1];
    SplitThree(p[2], p[0], p[1], '-');
    assert !PhpEmpty(stored);
  }

  /** And the other way round: storage form to display form and back. */
  lemma {:induction false} MySqlDateRoundTrip(date: string)
    requires |Split(date, '-')| == 3
    ensures ConvertDateToMySQL(ConvertDateFromMySQL(Some(date))) == Some(date)
  {
    var p := Split(date, '-');
    ThreePieces(date, '-');
    assert date[|p[0]|] == '-';
    var shown := p[1] + "-" + p[2] + "-" + p[0];
    SplitThree(p[1], p[2], p[0], '-');
    assert !PhpEmpty(shown);
  }

  /** A valid display date is stored as year, month and day fields in that order. */
  lemma {:induction false} ConvertValidDate(date: string)
    requires ValidateDateFormat(date)
    ensures ConvertDateToMySQL(date) == Some(date[6..] + "-" + date[..2] + "-" + date[3..5])
  {
    DateFieldsAreExplodePieces(date);
  }

  // ---------------------------------------------------------------------
  // generateUniqueID
  // ---------------------------------------------------------------------

  /** generateUniqueID(prefix): the prefix, then the random number `n`
      (mt_rand(1, 999999), a parameter here) zero-padded to six digits. */
  function GenerateUniqueID(prefix: string, n: nat): (id: string)
    requires 1 <= n <= 999999
    ensures |id| == |prefix| + 6 && id[..|prefix|] == prefix
    ensures AllDigits(id[|prefix|..]) && DigitsValue(id[|prefix|..]) == n
  {
    var padded := PadLeft(NatToString(n), 6, '0');
    SixDigits(n);
    var id := prefix + padded;
    assert id[..|prefix|] == prefix && id[|prefix|..] == padded;
    id
  }

  /** The six-digit suffix is never all zeros. */
  lemma {:induction false} UniqueIDSuffixNotZero(prefix: string, n: nat)
    requires 1 <= n <= 999999
    ensures GenerateUniqueID(prefix, n)[|prefix|..] != "000000"
  {
    var suffix := GenerateUniqueID(prefix, n)[|prefix|..];
    assert DigitsValue(suffix) == n;
    SixZerosValue();
  }

  lemma SixZerosValue()
    ensures DigitsValue("000000") == 0
  {
    ZerosValue("000000");
  }

  /** Different random draws give different identifiers under one prefix. */
  lemma UniqueIDInjective(prefix: string, n1: nat, n2: nat)
    requires 1 <= n1 <= 999999 && 1 <= n2 <= 999999
    ensures GenerateUniqueID(prefix, n1) == GenerateUniqueID(prefix, n2) <==> n1 == n2
  {
  }
}
