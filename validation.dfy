/** The request-body validators: ordered checks where the first failing one decides the
    error message, and `None` (JavaScript `null`) means the body is acceptable. The
    regular expressions are written out as predicates over characters. */
module Validation {
  import opened Js
  import opened Data

  const FieldsRequired := "Name, email, and password are required"
  const InvalidEmail := "Invalid email format"
  const PasswordTooShort := "Password must be at least 6 characters long"
  const InvalidRole := "Role must be either 'attendee' or 'organizer'"
  const LoginFieldsRequired := "Email and password are required"
  const EventFieldsRequired := "Title, description, date, and time are required"
  const BadDate := "Date must be in YYYY-MM-DD format"
  const BadTime := "Time must be in HH:MM format"
  const PastEvent := "Event date and time cannot be in the past"

  /** The shortest password `validateRegistration` accepts. */
  const MinPasswordLength := 6

  datatype RegistrationBody = RegistrationBody(
    name: Option<string>, email: Option<string>, password: Option<string>, role: Option<string>)

  datatype LoginBody = LoginBody(email: Option<string>, password: Option<string>)

  datatype EventBody = EventBody(
    title: Option<string>, description: Option<string>, date: Option<string>, time: Option<string>)

  // ---------------------------------------------------------------------------------
  // Email: /^[^\s@]+@[^\s@]+\.[^\s@]+$/
  // ---------------------------------------------------------------------------------

  /** `\s` in a JavaScript regular expression: white space and line terminators. */
  predicate IsSpace(c: char) {
    || c == '\t' || c == '\n' || c == '\U{000B}' || c == '\U{000C}' || c == '\r' || c == ' '
    || c == '\U{00A0}' || c == '\U{1680}' || ('\U{2000}' <= c <= '\U{200A}')
    || c == '\U{2028}' || c == '\U{2029}' || c == '\U{202F}' || c == '\U{205F}'
    || c == '\U{3000}' || c == '\U{FEFF}'
  }

  /** The character class `[^\s@]`. */
  predicate EmailChar(c: char) {
    c != '@' && !IsSpace(c)
  }

  /** `[^\s@]+` matching all of `s`. */
  predicate EmailWord(s: string) {
    |s| > 0 && forall k :: 0 <= k < |s| ==> EmailChar(s[k])
  }

  /** `validateEmail`: the pattern read left to right, a word, `@`, a word, `.`, a word,
      with the `.` any one that lets the match succeed. */
  predicate ValidateEmail(email: string) {
    exists at, dot | 0 <= at < dot < |email| ::
      && email[at] == '@' && email[dot] == '.'
      && EmailWord(email[..at]) && EmailWord(email[at + 1..dot]) && EmailWord(email[dot + 1..])
  }

  /** What the email pattern accepts, said plainly: no white space anywhere, exactly one
      `@` and not in front, and a `.` after the `@` that neither touches it nor ends the
      string. */
  predicate PlainEmailShape(email: string) {
    && (forall k :: 0 <= k < |email| ==> !IsSpace(email[k]))
    && 0 < IndexOf(email, '@')
    && '@' !in email[IndexOf(email, '@') + 1..]
    && exists dot :: IndexOf(email, '@') + 1 < dot < |email| - 1 && email[dot] == '.'
  }

  /** The email pattern and the plain description accept the same strings. */
  lemma EmailShape(email: string)
    ensures ValidateEmail(email) <==> PlainEmailShape(email)
  {
  }

  // ---------------------------------------------------------------------------------
  // Date: /^\d{4}-\d{2}-\d{2}$/   Time: /^([01]?[0-9]|2[0-3]):[0-5][0-9]$/
  // ---------------------------------------------------------------------------------

  /** `\d`: an ASCII digit. */
  predicate IsDigit(c: char) {
    '0' <= c <= '9'
  }

  /** The date pattern: digit shape only, no calendar check. */
  predicate ValidDate(s: string) {
    && |s| == 10
    && IsDigit(s[0]) && IsDigit(s[1]) && IsDigit(s[2]) && IsDigit(s[3])
    && s[4] == '-'
    && IsDigit(s[5]) && IsDigit(s[6])
    && s[7] == '-'
    && IsDigit(s[8]) && IsDigit(s[9])
  }

  /** The hour alternative `([01]?[0-9]|2[0-3])` matching all of `h`. */
  predicate HourText(h: string) {
    || (|h| == 1 && IsDigit(h[0]))
    || (|h| == 2 && (h[0] == '0' || h[0] == '1') && IsDigit(h[1]))
    || (|h| == 2 && h[0] == '2' && '0' <= h[1] <= '3')
  }

  /** The time pattern: since it is anchored, the colon is the third character from the end
      and the hour is everything before it. */
  predicate ValidTime(s: string) {
    && |s| >= 4
    && HourText(s[..|s| - 3])
    && s[|s| - 3] == ':'
    && '0' <= s[|s| - 2] <= '5'
    && IsDigit(s[|s| - 1])
  }

  function Digit(n: nat): (c: char)
    requires n < 10
    ensures IsDigit(c)
  {
    ('0' as int + n) as char
  }

  function DigitValue(c: char): (n: nat)
    requires IsDigit(c)
    ensures n < 10 && Digit(n) == c
  {
    c as int - '0' as int
  }

  /** `n` written with exactly two digits. */
  function Pad2(n: nat): (s: string)
    requires n < 100
  {
    [Digit(n / 10), Digit(n % 10)]
  }

  /** `n` written with exactly four digits. */
  function Pad4(n: nat): (s: string)
    requires n < 10000
  {
    Pad2(n / 100) + Pad2(n % 100)
  }

  /** The zero-padded rendering `YYYY-MM-DD` of a year, a month number and a day number. */
  function FormatDate(y: nat, m: nat, d: nat): (s: string)
    requires y < 10000 && m < 100 && d < 100
  {
    Pad4(y) + "-" + Pad2(m) + "-" + Pad2(d)
  }

  /** An hour and a minute as `H:MM` or, with `padHour`, `HH:MM`. */
  function FormatTime(h: nat, m: nat, padHour: bool): (s: string)
    requires h < 24 && m < 60 && (padHour || h < 10)
  {
    (if padHour then Pad2(h) else [Digit(h)]) + ":" + Pad2(m)
  }

  /** Two digit characters read as a number are rendered back by `Pad2`. */
  lemma Pad2OfDigits(a: char, b: char)
    requires IsDigit(a) && IsDigit(b)
    ensures 10 * DigitValue(a) + DigitValue(b) < 100
    ensures Pad2(10 * DigitValue(a) + DigitValue(b)) == [a, b]
  {
  }

  /** Four digit characters read as a number are rendered back by `Pad4`. */
  lemma Pad4OfDigits(a: char, b: char, c: char, d: char)
    requires IsDigit(a) && IsDigit(b) && IsDigit(c) && IsDigit(d)
    ensures 1000 * DigitValue(a) + 100 * DigitValue(b) + 10 * DigitValue(c) + DigitValue(d) < 10000
    ensures Pad4(1000 * DigitValue(a) + 100 * DigitValue(b) + 10 * DigitValue(c) + DigitValue(d)) == [a, b, c, d]
  {
    var hi := 10 * DigitValue(a) + DigitValue(b);
    var lo := 10 * DigitValue(c) + DigitValue(d);
    Pad2OfDigits(a, b);
    Pad2OfDigits(c, d);
    assert (100 * hi + lo) / 100 == hi && (100 * hi + lo) % 100 == lo;
  }

  /** The date pattern accepts exactly the renderings of year < 10000, month < 100 and
      day < 100: a month "13" passes, as the pattern checks digits only. */
  lemma DateFormatExact(s: string)
    ensures ValidDate(s) <==>
      exists y: nat, m: nat, d: nat | y < 10000 && m < 100 && d < 100 :: s == FormatDate(y, m, d)
  {
    if ValidDate(s) {
      Pad4OfDigits(s[0], s[1], s[2], s[3]);
      Pad2OfDigits(s[5], s[6]);
      Pad2OfDigits(s[8], s[9]);
      var y := 1000 * DigitValue(s[0]) + 100 * DigitValue(s[1]) + 10 * DigitValue(s[2]) + DigitValue(s[3]);
      var m := 10 * DigitValue(s[5]) + DigitValue(s[6]);
      var d := 10 * DigitValue(s[8]) + DigitValue(s[9]);
      assert s == FormatDate(y, m, d);
    }
  }

  /** The time pattern accepts exactly the renderings of an hour 0..23 (one digit or two)
      and a two-digit minute 0..59. */
  lemma TimeFormatExact(s: string)
    ensures ValidTime(s) <==>
      exists h: nat, m: nat, padHour: bool | h < 24 && m < 60 && (padHour || h < 10) ::
        s == FormatTime(h, m, padHour)
  {
    if ValidTime(s) {
      var n := |s|;
      var m := 10 * DigitValue(s[n - 2]) + DigitValue(s[n - 1]);
      assert Pad2(m) == s[n - 2..];
      if n == 4 {
        var h := DigitValue(s[0]);
        assert s == FormatTime(h, m, false);
      } else {
        var h := 10 * DigitValue(s[0]) + DigitValue(s[1]);
        assert Pad2(h) == s[..2];
        assert s == FormatTime(h, m, true);
      }
    }
    forall h: nat, m: nat, padHour: bool | h < 24 && m < 60 && (padHour || h < 10)
      ensures ValidTime(FormatTime(h, m, padHour))
    {
      var t := FormatTime(h, m, padHour);
      assert t[|t| - 3..] == ":" + Pad2(m);
      assert padHour ==> t[..|t| - 3] == Pad2(h);
    }
  }

  // ---------------------------------------------------------------------------------
  // The validators
  // ---------------------------------------------------------------------------------

  predicate HasRegistrationFields(data: RegistrationBody) {
    Truthy(data.name) && Truthy(data.email) && Truthy(data.password)
  }

  /** `role && !["attendee", "organizer"].includes(role)` fails: an absent or empty role passes. */
  predicate RoleAccepted(role: Option<string>) {
    !Truthy(role) || role.value == Attendee || role.value == Organizer
  }

  /** `validateRegistration`: required fields, then the email pattern, then the password
      length, then the role; the first failure is reported. */
  function ValidateRegistration(data: RegistrationBody): (r: Option<string>)
    ensures r == Some(FieldsRequired) <==> !HasRegistrationFields(data)
    ensures r == Some(InvalidEmail) <==>
      HasRegistrationFields(data) && !ValidateEmail(data.email.value)
    ensures r == Some(PasswordTooShort) <==>
      HasRegistrationFields(data) && ValidateEmail(data.email.value)
      && |data.password.value| < MinPasswordLength
    ensures r == Some(InvalidRole) <==>
      HasRegistrationFields(data) && ValidateEmail(data.email.value)
      && |data.password.value| >= MinPasswordLength && !RoleAccepted(data.role)
    ensures r.None? <==>
      HasRegistrationFields(data) && ValidateEmail(data.email.value)
      && |data.password.value| >= MinPasswordLength && RoleAccepted(data.role)
  {
    if !HasRegistrationFields(data) then Some(FieldsRequired)
    else if !ValidateEmail(data.email.value) then Some(InvalidEmail)
    else if |data.password.value| < MinPasswordLength then Some(PasswordTooShort)
    else if !RoleAccepted(data.role) then Some(InvalidRole)
    else None
  }

  /** `validateLogin`: both fields, then the email pattern; the password length is not
      checked. */
  function ValidateLogin(data: LoginBody): (r: Option<string>)
    ensures r == Some(LoginFieldsRequired) <==> !(Truthy(data.email) && Truthy(data.password))
    ensures r == Some(InvalidEmail) <==>
      Truthy(data.email) && Truthy(data.password) && !ValidateEmail(data.email.value)
    ensures r.None? <==>
      Truthy(data.email) && Truthy(data.password) && ValidateEmail(data.email.value)
  {
    if !(Truthy(data.email) && Truthy(data.password)) then Some(LoginFieldsRequired)
    else if !ValidateEmail(data.email.value) then Some(InvalidEmail)
    else None
  }

  predicate HasEventFields(data: EventBody) {
    Truthy(data.title) && Truthy(data.description) && Truthy(data.date) && Truthy(data.time)
  }

  /** The format checks on whichever of `date` and `time` are provided. */
  predicate FormatsOk(data: EventBody) {
    && (Truthy(data.date) ==> ValidDate(data.date.value))
    && (Truthy(data.time) ==> ValidTime(data.time.value))
  }

  /** `validateEventData(data, isUpdate)`: on creation all four fields are required, on an
      update that check is skipped; then the date pattern and the time pattern on the
      fields provided; last, and only when both date and time are provided, the past check.
      `isPast(date, time)` stands for comparing `new Date(date + "T" + time)` with the clock. */
  function ValidateEventData(data: EventBody, isUpdate: bool, isPast: (string, string) -> bool): (r: Option<string>)
    ensures r == Some(EventFieldsRequired) <==> !isUpdate && !HasEventFields(data)
    ensures r == Some(BadDate) <==>
      (isUpdate || HasEventFields(data)) && Truthy(data.date) && !ValidDate(data.date.value)
    ensures r == Some(BadTime) <==>
      && (isUpdate || HasEventFields(data))
      && (Truthy(data.date) ==> ValidDate(data.date.value))
      && Truthy(data.time) && !ValidTime(data.time.value)
    ensures r == Some(PastEvent) <==>
      && (isUpdate || HasEventFields(data)) && FormatsOk(data)
      && Truthy(data.date) && Truthy(data.time) && isPast(data.date.value, data.time.value)
    ensures r.None? <==>
      && (isUpdate || HasEventFields(data)) && FormatsOk(data)
      && !(Truthy(data.date) && Truthy(data.time) && isPast(data.date.value, data.time.value))
  {
    if !isUpdate && !HasEventFields(data) then Some(EventFieldsRequired)
    else if Truthy(data.date) && !ValidDate(data.date.value) then Some(BadDate)
    else if Truthy(data.time) && !ValidTime(data.time.value) then Some(BadTime)
    else if Truthy(data.date) && Truthy(data.time) && isPast(data.date.value, data.time.value) then
      Some(PastEvent)
    else None
  }

  /** Unless both date and time are provided the clock is never consulted: an update that
      carries only a date cannot be refused as lying in the past. */
  lemma PastCheckNeedsDateAndTime(data: EventBody, isUpdate: bool, isPast1: (string, string) -> bool,
                                  isPast2: (string, string) -> bool)
    requires !(Truthy(data.date) && Truthy(data.time))
    ensures ValidateEventData(data, isUpdate, isPast1) == ValidateEventData(data, isUpdate, isPast2)
    ensures ValidateEventData(data, isUpdate, isPast1) != Some(PastEvent)
  {
  }
}
