/** The five fixed-width digit-field validators of `src/parser.rs`
    (`parse_year`, `parse_month`, `parse_date`, `parse_hour`,
    `parse_minute_second`). Each looks at the input from a cursor position,
    checks every character against a fixed digit set, and either consumes
    exactly its width and yields the field's decimal value, or fails having
    consumed nothing. A cursor `i` into `s` stands for the slice `s[i..]`
    that the source passes around. */
module Fields {

  /** Characters that may surround and separate the digit fields. */
  const SEP: string := "T-_:., \t"

  const DIGITS: string := "0123456789"

  /** `one_of(SEP)`, spelled out character by character (see SepIsSEP). */
  predicate IsSep(c: char) {
    c == 'T' || c == '-' || c == '_' || c == ':' || c == '.' || c == ',' || c == ' ' || c == '\t'
  }

  /** A digit whose value lies in [lo, hi): `one_of(&DIGITS[lo..hi])`, and
      also the literal sets "01" and "0123" (see DigitInIsSlice). */
  predicate DigitIn(c: char, lo: nat, hi: nat) {
    '0' as int + lo <= c as int < '0' as int + hi
  }

  /** `one_of(DIGITS)`. */
  predicate IsDigit(c: char) {
    DigitIn(c, 0, 10)
  }

  lemma SepIsSEP(c: char)
    ensures IsSep(c) <==> c in SEP
  {
  }

  lemma DigitInIsSlice(c: char, lo: nat, hi: nat)
    requires lo <= hi <= 10
    ensures DigitIn(c, lo, hi) <==> c in DIGITS[lo..hi]
  {
    if DigitIn(c, lo, hi) {
      var v := c as int - '0' as int;
      assert DIGITS[lo..hi][v - lo] == c;
    }
  }

  lemma DigitIsNotSep(c: char)
    requires IsDigit(c)
    ensures !IsSep(c)
  {
  }

  /** The value `char::to_digit(10)` gives for an ASCII digit. */
  function DigitValue(c: char): (v: nat)
    requires IsDigit(c)
    ensures v < 10
  {
    c as int - '0' as int
  }

  /** A digit's value is its position in DIGITS. */
  lemma DigitValueIndexesDigits(c: char)
    requires IsDigit(c)
    ensures DIGITS[DigitValue(c)] == c
  {
  }

  /** `s[i..j]` is a run of digits. */
  predicate DigitsAt(s: string, i: nat, j: nat) {
    i <= j <= |s| && forall p | i <= p < j :: IsDigit(s[p])
  }

  /** The decimal number the digits `s[i..j]` denote, most significant first. */
  function Decimal(s: string, i: nat, j: nat): nat
    requires DigitsAt(s, i, j)
    decreases j - i
  {
    if i == j then 0 else 10 * Decimal(s, i, j - 1) + DigitValue(s[j - 1])
  }

  datatype FieldKind = Year | Month | Day | Hour | MinuteSecond

  function Width(k: FieldKind): nat {
    if k == Year then 4 else 2
  }

  /** The values each field admits. These are digit-pattern ranges, not
      calendar rules: a month of 00 is admitted, and the days 00, 10 and 20
      are not. */
  predicate InRange(k: FieldKind, v: nat) {
    match k
    case Year => 2000 <= v <= 2199
    case Month => v <= 12
    case Day => 1 <= v <= 31 && v != 10 && v != 20
    case Hour => v <= 23
    case MinuteSecond => v <= 59
  }

  /** The `Width(k)` characters from `i` are all digits. */
  predicate FieldDigitsAt(k: FieldKind, s: string, i: nat) {
    i + Width(k) <= |s| && IsDigit(s[i]) && IsDigit(s[i + 1]) &&
    (k == Year ==> IsDigit(s[i + 2]) && IsDigit(s[i + 3]))
  }

  /** The value of the field of kind `k` at `i` (see FieldValueIsDecimal). */
  function FieldValue(k: FieldKind, s: string, i: nat): nat
    requires FieldDigitsAt(k, s, i)
  {
    if k == Year then
      1000 * DigitValue(s[i]) + 100 * DigitValue(s[i + 1]) + 10 * DigitValue(s[i + 2]) + DigitValue(s[i + 3])
    else
      10 * DigitValue(s[i]) + DigitValue(s[i + 1])
  }

  /** A field's value is its digits read in decimal. */
  lemma FieldValueIsDecimal(k: FieldKind, s: string, i: nat)
    requires FieldDigitsAt(k, s, i)
    ensures DigitsAt(s, i, i + Width(k)) && FieldValue(k, s, i) == Decimal(s, i, i + Width(k))
  {
    assert Decimal(s, i, i + 1) == DigitValue(s[i]);
    if k == Year {
      assert Decimal(s, i, i + 3) == 10 * Decimal(s, i, i + 2) + DigitValue(s[i + 2]);
    }
  }

  /** A well-formed field of kind `k` starts at position `i` of `s`: digits
      whose value is in the kind's range. */
  predicate FieldAt(k: FieldKind, s: string, i: nat) {
    FieldDigitsAt(k, s, i) && InRange(k, FieldValue(k, s, i))
  }

  /** What a validator returns: the field's value and the position after
      it, or nothing. */
  datatype FieldMatch = NoField | Field(value: nat, next: nat)

  /** `parse_year`: "2", then "0" or "1", then two digits. */
  function ParseYear(s: string, i: nat): (r: FieldMatch)
    ensures r.Field? <==> FieldAt(Year, s, i)
    ensures r.Field? ==> r == Field(FieldValue(Year, s, i), i + 4)
  {
    if i + 4 <= |s| && s[i] == '2' && DigitIn(s[i + 1], 0, 2) && IsDigit(s[i + 2]) && IsDigit(s[i + 3]) then
      Field(DigitValue(s[i]) * 1000 + DigitValue(s[i + 1]) * 100 + DigitValue(s[i + 2]) * 10 + DigitValue(s[i + 3]), i + 4)
    else
      NoField
  }

  /** `parse_hour`: "0" or "1" then any digit, or "2" then "0" to "3". */
  function ParseHour(s: string, i: nat): (r: FieldMatch)
    ensures r.Field? <==> FieldAt(Hour, s, i)
    ensures r.Field? ==> r == Field(FieldValue(Hour, s, i), i + 2)
  {
    if i >= |s| || !DigitIn(s[i], 0, 3) then NoField
    else
      var d1 := DigitValue(s[i]);
      if d1 <= 1 then
        if i + 1 >= |s| || !IsDigit(s[i + 1]) then NoField else Field(d1 * 10 + DigitValue(s[i + 1]), i + 2)
      else
        if i + 1 >= |s| || !DigitIn(s[i + 1], 0, 4) then NoField else Field(d1 * 10 + DigitValue(s[i + 1]), i + 2)
  }

  /** `parse_minute_second`: "0" to "5" then any digit. */
  function ParseMinuteSecond(s: string, i: nat): (r: FieldMatch)
    ensures r.Field? <==> FieldAt(MinuteSecond, s, i)
    ensures r.Field? ==> r == Field(FieldValue(MinuteSecond, s, i), i + 2)
  {
    if i >= |s| || !DigitIn(s[i], 0, 6) then NoField
    else if i + 1 >= |s| || !IsDigit(s[i + 1]) then NoField
    else Field(DigitValue(s[i]) * 10 + DigitValue(s[i + 1]), i + 2)
  }

  /** `parse_month`: "0" then any digit, or "1" then "0" to "2". */
  function ParseMonth(s: string, i: nat): (r: FieldMatch)
    ensures r.Field? <==> FieldAt(Month, s, i)
    ensures r.Field? ==> r == Field(FieldValue(Month, s, i), i + 2)
  {
    if i >= |s| || !DigitIn(s[i], 0, 2) then NoField
    else
      var d1 := DigitValue(s[i]);
      if d1 == 0 then
        if i + 1 >= |s| || !IsDigit(s[i + 1]) then NoField else Field(d1 * 10 + DigitValue(s[i + 1]), i + 2)
      else
        if i + 1 >= |s| || !DigitIn(s[i + 1], 0, 3) then NoField else Field(d1 * 10 + DigitValue(s[i + 1]), i + 2)
  }

  /** `parse_date` (the day of the month): "0", "1" or "2" then a non-zero
      digit, or "3" then "0" or "1". */
  function ParseDay(s: string, i: nat): (r: FieldMatch)
    ensures r.Field? <==> FieldAt(Day, s, i)
    ensures r.Field? ==> r == Field(FieldValue(Day, s, i), i + 2)
  {
    if i >= |s| || !DigitIn(s[i], 0, 4) then NoField
    else
      var d1 := DigitValue(s[i]);
      if d1 <= 2 then
        if i + 1 >= |s| || !DigitIn(s[i + 1], 1, 10) then NoField else Field(d1 * 10 + DigitValue(s[i + 1]), i + 2)
      else
        if i + 1 >= |s| || !DigitIn(s[i + 1], 0, 2) then NoField else Field(d1 * 10 + DigitValue(s[i + 1]), i + 2)
  }

  /** The validator of a field kind. */
  function ParseField(k: FieldKind, s: string, i: nat): (r: FieldMatch)
    ensures r.Field? <==> FieldAt(k, s, i)
    ensures r.Field? ==> r == Field(FieldValue(k, s, i), i + Width(k))
  {
    match k
    case Year => ParseYear(s, i)
    case Month => ParseMonth(s, i)
    case Day => ParseDay(s, i)
    case Hour => ParseHour(s, i)
    case MinuteSecond => ParseMinuteSecond(s, i)
  }

  /** The cases `parse_year_good` and `parse_year_bad` exercise. */
  lemma YearExamples()
    ensures ParseYear("2019", 0) == Field(2019, 4)
    ensures ParseYear("2020", 0) == Field(2020, 4)
    ensures ParseYear("2021", 0) == Field(2021, 4)
    ensures ParseYear("1990", 0) == NoField
    ensures ParseYear("2500", 0) == NoField
  {
  }

  /** The cases `parse_hour_good` and `parse_hour_bad` exercise. */
  lemma HourExamples()
    ensures ParseHour("00", 0) == Field(0, 2) && ParseHour("01", 0) == Field(1, 2)
    ensures ParseHour("09", 0) == Field(9, 2) && ParseHour("10", 0) == Field(10, 2)
    ensures ParseHour("11", 0) == Field(11, 2) && ParseHour("19", 0) == Field(19, 2)
    ensures ParseHour("20", 0) == Field(20, 2) && ParseHour("23", 0) == Field(23, 2)
    ensures ParseHour("24", 0) == NoField && ParseHour("30", 0) == NoField
  {
  }

  /** A month of "00" passes, and so do the day-of-month boundaries the
      digit sets allow; "00", "10", "20" and "32" are refused as days. */
  lemma MonthAndDayEdges()
    ensures ParseMonth("00", 0) == Field(0, 2) && ParseMonth("12", 0) == Field(12, 2)
    ensures ParseMonth("13", 0) == NoField
    ensures ParseDay("01", 0) == Field(1, 2) && ParseDay("31", 0) == Field(31, 2)
    ensures ParseDay("00", 0) == NoField && ParseDay("10", 0) == NoField
    ensures ParseDay("20", 0) == NoField && ParseDay("32", 0) == NoField
  {
  }
}
