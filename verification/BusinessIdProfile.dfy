/** The daily profile and the service: plan, format, validate, and an idempotent `ensure`. */
module BusinessIdProfile {
  import opened Outcomes
  import opened Text
  import opened BusinessIdCore
  import opened BusinessIdAllocator
  import BusinessIdCode
  import Base36
  import Feistel

  // ----- dates

  datatype Date = Date(year: nat, month: nat, day: nat)

  function DaysInMonth(year: nat, month: nat): nat {
    if month == 2 then (if year % 4 == 0 && (year % 100 != 0 || year % 400 == 0) then 29 else 28)
    else if month in {4, 6, 9, 11} then 30
    else 31
  }

  predicate IsCalendarDate(date: Date) {
    && 1 <= date.year <= 9999
    && 1 <= date.month <= 12
    && 1 <= date.day <= DaysInMonth(date.year, date.month)
  }

  /** A business date: its year has four digits. */
  type BusinessDate = date: Date | IsCalendarDate(date) && date.year >= 1000 witness Date(2026, 10, 1)

  predicate IsDecimal(c: char) {
    '0' <= c <= '9'
  }

  predicate AllDecimal(s: string) {
    forall i :: 0 <= i < |s| ==> IsDecimal(s[i])
  }

  function DigitChar(d: nat): (c: char)
    requires d < 10
    ensures IsDecimal(c) && c as int - '0' as int == d
  {
    ('0' as int + d) as char
  }

  function Decimal(n: nat, width: nat): (s: string)
    ensures |s| == width && AllDecimal(s)
  {
    if width == 0 then [] else Decimal(n / 10, width - 1) + [DigitChar(n % 10)]
  }

  function FromDecimal(s: string): nat
    requires AllDecimal(s)
  {
    if s == [] then 0
    else
      assert IsDecimal(s[|s| - 1]);
      10 * FromDecimal(s[..|s| - 1]) + (s[|s| - 1] as int - '0' as int)
  }

  function Pow10(n: nat): nat {
    if n == 0 then 1 else 10 * Pow10(n - 1)
  }

  lemma {:induction false} DecimalRoundTrip(n: nat, width: nat)
    requires n < Pow10(width)
    ensures FromDecimal(Decimal(n, width)) == n
  {
    if width > 0 {
      assert Decimal(n, width)[..width - 1] == Decimal(n / 10, width - 1);
      DecimalRoundTrip(n / 10, width - 1);
    }
  }

  function DateText(date: Date): (s: string)
    ensures |s| == 8 && AllDecimal(s)
  {
    Decimal(date.year, 4) + Decimal(date.month, 2) + Decimal(date.day, 2)
  }

  function ParseDate(s: string): Date
    requires |s| == 8 && AllDecimal(s)
  {
    Date(FromDecimal(s[..4]), FromDecimal(s[4..6]), FromDecimal(s[6..]))
  }

  lemma {:induction false} DateTextRoundTrip(date: Date)
    requires IsCalendarDate(date)
    ensures ParseDate(DateText(date)) == date
  {
    var s := DateText(date);
    assert s[..4] == Decimal(date.year, 4) && s[4..6] == Decimal(date.month, 2) && s[6..] == Decimal(date.day, 2);
    assert Pow10(2) == 100 && Pow10(4) == 100 * Pow10(2);
    DecimalRoundTrip(date.year, 4);
    DecimalRoundTrip(date.month, 2);
    DecimalRoundTrip(date.day, 2);
  }

  // ----- the profile

  datatype Request = Request(definition: Definition, domainRootKey: string, aggregateType: string, businessDate: BusinessDate)

  function PlanFor(request: Request): Result<Plan, ErrorCode> {
    var definition := request.definition;
    if definition.profile != DEFAULT_PROFILE || definition.reset != "daily"
       || definition.dateFormat != DEFAULT_DATE_FORMAT || definition.digits != Base36.WIDTH
    then Err(DefinitionInvalid)
    else
      var dateText := DateText(request.businessDate);
      var scope := NewScope(request.domainRootKey, request.aggregateType, definition.namespace, dateText);
      if scope.Err? then Err(scope.error)
      else Ok(Plan(definition, scope.value, dateText, 0, BusinessIdCode.MAX_SEQUENCE))
  }

  /** Answers with the current key, if there is one, looking only at the definition and the scope. */
  type KeyProvider = (Definition, Scope) -> Option<EncodingKey>

  /** The value's constructor refuses blank text. */
  function NewValue(text: string, definition: Definition): Result<BusinessIdValue, ErrorCode> {
    if Blank(text) then Err(FormatInvalid) else Ok(BusinessIdValue(text, definition.profile, definition.policyVersion))
  }

  function Printed(definition: Definition, dateText: string, code: string): string {
    Join(definition.separator, [definition.prefix, dateText, code])
  }

  ghost function Formatted(hmac: Feistel.Hmac, utf8: Utf8, keys: KeyProvider, plan: Plan,
      allocation: Allocation): Result<BusinessIdValue, ErrorCode> {
    if allocation.scope != plan.scope then Err(DefinitionInvalid)
    else
      var key := keys(plan.definition, plan.scope);
      if key.None? then Err(KeyNotFound)
      else
        var code := BusinessIdCode.Encoded(hmac, utf8, allocation.sequence, plan.scope, key.value);
        if code.Err? then Err(code.error) else NewValue(Printed(plan.definition, plan.dateText, code.value), plan.definition)
  }

  method Format(hmac: Feistel.Hmac, utf8: Utf8, keys: KeyProvider, plan: Plan, allocation: Allocation)
    returns (r: Result<BusinessIdValue, ErrorCode>)
    ensures r == Formatted(hmac, utf8, keys, plan, allocation)
  {
    if allocation.scope != plan.scope {
      return Err(DefinitionInvalid);
    }
    var key := keys(plan.definition, plan.scope);
    if key.None? {
      return Err(KeyNotFound);
    }
    var code := BusinessIdCode.Encode(hmac, utf8, allocation.sequence, plan.scope, key.value);
    if code.Err? {
      return Err(code.error);
    }
    r := NewValue(Printed(plan.definition, plan.dateText, code.value), plan.definition);
  }

  /** The pattern: prefix, separator, eight digits that are a calendar date, separator, six code characters. */
  function Validate(definition: Definition, value: string): Result<BusinessIdValue, ErrorCode> {
    var p, s := |definition.prefix|, |definition.separator|;
    if |value| != p + s + 8 + s + Base36.WIDTH
       || value[..p] != definition.prefix
       || value[p..p + s] != definition.separator
       || value[p + s + 8..p + s + 8 + s] != definition.separator
       || !Base36.IsCode(value[p + s + 8 + s..])
    then Err(FormatInvalid)
    else
      var dateText := value[p + s..p + s + 8];
      if !AllDecimal(dateText) || !IsCalendarDate(ParseDate(dateText)) then Err(FormatInvalid)
      else NewValue(value, definition)
  }

  /** Where the parts of a printed value are. */
  lemma {:induction false} PrintedParts(definition: Definition, dateText: string, code: string)
    requires |dateText| == 8
    ensures var value, p, s := Printed(definition, dateText, code), |definition.prefix|, |definition.separator|;
      && |value| == p + s + 8 + s + |code|
      && value[..p] == definition.prefix
      && value[p..p + s] == definition.separator
      && value[p + s..p + s + 8] == dateText
      && value[p + s + 8..p + s + 8 + s] == definition.separator
      && value[p + s + 8 + s..] == code
  {
    var parts := [definition.prefix, dateText, code];
    var tail := Join(definition.separator, parts[1..]);
    assert parts[1..] == [dateText, code] && parts[1..][1..] == [code];
    assert Join(definition.separator, [code]) == code;
    assert tail == dateText + definition.separator + code;
    assert Printed(definition, dateText, code) == definition.prefix + definition.separator + tail;
  }

  lemma {:induction false} PrintedIsNotBlank(definition: Definition, dateText: string, code: string)
    requires !Blank(definition.prefix) && |dateText| == 8
    ensures !Blank(Printed(definition, dateText, code))
  {
    var value := Printed(definition, dateText, code);
    PrintedParts(definition, dateText, code);
    var c :| c in definition.prefix && !IsStripped(c);
    assert c in value[..|definition.prefix|];
    assert c in value;
  }

  lemma {:induction false} PartsAreAccepted(definition: Definition, value: string, dateText: string)
    requires var p, s := |definition.prefix|, |definition.separator|;
      && |value| == p + s + 8 + s + Base36.WIDTH
      && value[..p] == definition.prefix
      && value[p..p + s] == definition.separator
      && value[p + s..p + s + 8] == dateText
      && value[p + s + 8..p + s + 8 + s] == definition.separator
      && Base36.IsCode(value[p + s + 8 + s..])
    requires |dateText| == 8 && AllDecimal(dateText) && IsCalendarDate(ParseDate(dateText))
    ensures Validate(definition, value) == NewValue(value, definition)
  {
  }

  /** Every printed value passes validation and comes back equal. */
  lemma {:induction false} ValidateAcceptsPrinted(definition: Definition, date: BusinessDate, code: string)
    requires !Blank(definition.prefix) && Base36.IsCode(code)
    ensures var value := Printed(definition, DateText(date), code);
      && NewValue(value, definition).Ok?
      && Validate(definition, value) == NewValue(value, definition)
  {
    PrintedParts(definition, DateText(date), code);
    PrintedIsNotBlank(definition, DateText(date), code);
    DateTextRoundTrip(date);
    PartsAreAccepted(definition, Printed(definition, DateText(date), code), DateText(date));
  }

  /** The printed text determines the date and the code. */
  lemma {:induction false} PrintedIsInjective(definition: Definition, d: BusinessDate, e: BusinessDate, code: string,
      other: string)
    requires |code| == |other|
    requires Printed(definition, DateText(d), code) == Printed(definition, DateText(e), other)
    ensures d == e && code == other
  {
    PrintedParts(definition, DateText(d), code);
    PrintedParts(definition, DateText(e), other);
    DateTextRoundTrip(d);
    DateTextRoundTrip(e);
  }

  // ----- exactly what is accepted

  /** The decimal digit for the last digit of a number. */
  function LastDigit(n: nat): char {
    ('0' as int + n % 10) as char
  }

  /** Four digits of the year, two of the month, two of the day. */
  function EightDigits(date: Date): string {
    [LastDigit(date.year / 1000), LastDigit(date.year / 100), LastDigit(date.year / 10), LastDigit(date.year),
     LastDigit(date.month / 10), LastDigit(date.month), LastDigit(date.day / 10), LastDigit(date.day)]
  }

  /** A day of the Gregorian calendar in the years 1 to 9999. */
  predicate IsDay(date: Date) {
    && 1 <= date.year <= 9999 && 1 <= date.month <= 12 && 1 <= date.day <= 31
    && (date.day == 31 ==> date.month in {1, 3, 5, 7, 8, 10, 12})
    && (date.month == 2 && date.day >= 29 ==>
          date.day == 29 && (date.year % 400 == 0 || (date.year % 4 == 0 && date.year % 100 != 0)))
  }

  predicate IsSixCharacters(code: string) {
    |code| == 6 && forall i :: 0 <= i < 6 ==> '0' <= code[i] <= '9' || 'A' <= code[i] <= 'Z'
  }

  /** Prefix, separator, a day, separator, six characters. */
  predicate Prints(definition: Definition, value: string, date: Date, code: string) {
    && IsDay(date) && IsSixCharacters(code)
    && value == definition.prefix + definition.separator + EightDigits(date) + definition.separator + code
  }

  ghost predicate WellFormed(definition: Definition, value: string) {
    !Blank(value) && exists date: Date, code: string :: Prints(definition, value, date, code)
  }

  lemma {:induction false} CalendarDays(date: Date)
    ensures IsCalendarDate(date) <==> IsDay(date)
  {
  }

  lemma {:induction false} OneMoreDecimal(n: nat, width: nat)
    ensures Decimal(n, width + 1) == Decimal(n / 10, width) + [LastDigit(n)]
  {
  }

  lemma {:induction false} DateTextIs(date: Date)
    ensures DateText(date) == EightDigits(date)
  {
    var y := date.year;
    assert y / 10 / 10 == y / 100 && y / 100 / 10 == y / 1000;
    OneMoreDecimal(y, 3);
    OneMoreDecimal(y / 10, 2);
    OneMoreDecimal(y / 100, 1);
    OneMoreDecimal(y / 1000, 0);
    OneMoreDecimal(date.month, 1);
    OneMoreDecimal(date.month / 10, 0);
    OneMoreDecimal(date.day, 1);
    OneMoreDecimal(date.day / 10, 0);
  }

  lemma {:induction false} FromDecimalRoundTrip(s: string)
    requires AllDecimal(s)
    ensures Decimal(FromDecimal(s), |s|) == s
  {
    if s != [] {
      var front, last := s[..|s| - 1], s[|s| - 1];
      FromDecimalRoundTrip(front);
      assert IsDecimal(last);
      var n := FromDecimal(s);
      assert n / 10 == FromDecimal(front) && n % 10 == last as int - '0' as int;
      assert s == front + [last];
    }
  }

  lemma {:induction false} ParsedDateIsPrinted(s: string)
    requires |s| == 8 && AllDecimal(s)
    ensures DateText(ParseDate(s)) == s
  {
    PartsArePrinted(s[..4], s[4..6], s[6..], ParseDate(s));
    assert s == s[..4] + s[4..6] + s[6..];
  }

  lemma {:induction false} PartsArePrinted(year: string, month: string, day: string, date: Date)
    requires |year| == 4 && |month| == |day| == 2 && AllDecimal(year) && AllDecimal(month) && AllDecimal(day)
    requires date == Date(FromDecimal(year), FromDecimal(month), FromDecimal(day))
    ensures DateText(date) == year + month + day
  {
    FromDecimalRoundTrip(year);
    FromDecimalRoundTrip(month);
    FromDecimalRoundTrip(day);
  }

  lemma {:induction false} PrintedIs(definition: Definition, dateText: string, code: string)
    ensures Printed(definition, dateText, code)
         == definition.prefix + definition.separator + dateText + definition.separator + code
  {
    var parts := [definition.prefix, dateText, code];
    assert parts[1..] == [dateText, code] && parts[1..][1..] == [code];
    assert Join(definition.separator, [code]) == code;
    assert Join(definition.separator, parts[1..]) == dateText + definition.separator + code;
  }

  /** A printed value of any calendar day validates, unless it is blank. */
  lemma {:induction false} PrintedValidates(definition: Definition, value: string, date: Date, code: string)
    requires Prints(definition, value, date, code)
    ensures Validate(definition, value) == NewValue(value, definition)
  {
    DateTextIs(date);
    CalendarDays(date);
    PrintedIs(definition, DateText(date), code);
    PrintedParts(definition, DateText(date), code);
    DateTextRoundTrip(date);
    PartsAreAccepted(definition, value, DateText(date));
  }

  lemma {:induction false} ValidatedPrints(definition: Definition, value: string) returns (date: Date, code: string)
    requires Validate(definition, value).Ok?
    ensures Prints(definition, value, date, code)
  {
    ValidatedParts(definition, value);
    date, code := PartsPrint(definition, value);
  }

  lemma {:induction false} PartsPrint(definition: Definition, value: string) returns (date: Date, code: string)
    requires HasParts(definition, value)
    ensures Prints(definition, value, date, code)
  {
    var p, s := |definition.prefix|, |definition.separator|;
    var dateText := value[p + s..p + s + 8];
    date, code := ParseDate(dateText), value[p + s + 8 + s..];
    FiveSlices(value, p, p + s, p + s + 8, p + s + 8 + s);
    JoinedPrints(definition, value, dateText, code);
  }

  lemma {:induction false} JoinedPrints(definition: Definition, value: string, dateText: string, code: string)
    requires |dateText| == 8 && AllDecimal(dateText) && IsCalendarDate(ParseDate(dateText)) && Base36.IsCode(code)
    requires value == definition.prefix + definition.separator + dateText + definition.separator + code
    ensures Prints(definition, value, ParseDate(dateText), code)
  {
    ParsedDayIs(dateText);
  }

  lemma {:induction false} ParsedDayIs(dateText: string)
    requires |dateText| == 8 && AllDecimal(dateText) && IsCalendarDate(ParseDate(dateText))
    ensures IsDay(ParseDate(dateText)) && EightDigits(ParseDate(dateText)) == dateText
  {
    ParsedDateIsPrinted(dateText);
    DateTextIs(ParseDate(dateText));
    CalendarDays(ParseDate(dateText));
  }

  /** The slices of an accepted text. */
  predicate HasParts(definition: Definition, value: string) {
    var p, s := |definition.prefix|, |definition.separator|;
    && |value| == p + s + 8 + s + 6 && value[..p] == definition.prefix
    && value[p..p + s] == definition.separator && value[p + s + 8..p + s + 8 + s] == definition.separator
    && Base36.IsCode(value[p + s + 8 + s..])
    && AllDecimal(value[p + s..p + s + 8]) && IsCalendarDate(ParseDate(value[p + s..p + s + 8]))
  }

  lemma {:induction false} ValidatedParts(definition: Definition, value: string)
    requires Validate(definition, value).Ok?
    ensures HasParts(definition, value)
  {
  }

  lemma {:induction false} FiveSlices(text: string, a: nat, b: nat, c: nat, d: nat)
    requires a <= b <= c <= d <= |text|
    ensures text == text[..a] + text[a..b] + text[b..c] + text[c..d] + text[d..]
  {
  }

  /**
    Validation, for every text: accepted, as itself, if and only if it is not blank and reads prefix, separator, a
    calendar day, separator, six characters; every other text is refused with FORMAT_INVALID.
   */
  lemma {:induction false} ValidateIs(definition: Definition, value: string)
    ensures Validate(definition, value)
         == if WellFormed(definition, value) then Ok(BusinessIdValue(value, definition.profile, definition.policyVersion))
            else Err(FormatInvalid)
  {
    if Validate(definition, value).Ok? {
      var date, code := ValidatedPrints(definition, value);
    }
    if WellFormed(definition, value) {
      var date: Date, code: string :| Prints(definition, value, date, code);
      PrintedValidates(definition, value, date, code);
    }
  }
}
