/** The two composed matchers of `src/parser.rs`: `parse_calendar_date`
    (separators, year, separators, month, separators, day) and `parse_time`
    (separators, hour, separators, minute, separators, second). A matcher
    either recognises the whole pattern from the cursor or fails; it never
    yields a partial date or time and a failure consumes nothing. */
module Matchers {
  import opened Wrappers
  import opened Fields

  /** The raw (year, month, day) triple the calendar-date matcher reads. */
  datatype Date = Date(year: nat, month: nat, day: nat)

  datatype Time = Time(hour: nat, minute: nat, second: nat)

  /** What a matcher returns on success: the value and the position after
      the consumed text. */
  datatype Parsed<+T> = Parsed(value: T, next: nat)

  predicate ValidDate(d: Date) {
    InRange(Year, d.year) && InRange(Month, d.month) && InRange(Day, d.day)
  }

  /** A date the proleptic Gregorian calendar has: the triples chrono's
      `NaiveDate::from_ymd` accepts rather than panicking on. */
  predicate CalendarDate(d: Date) {
    1 <= d.month <= 12 && 1 <= d.day <= DaysInMonth(d.year, d.month)
  }

  function DaysInMonth(year: nat, month: nat): nat {
    if month == 2 then (if LeapYear(year) then 29 else 28)
    else if month == 4 || month == 6 || month == 9 || month == 11 then 30
    else 31
  }

  predicate LeapYear(year: nat) {
    year % 4 == 0 && (year % 100 != 0 || year % 400 == 0)
  }

  predicate ValidTime(t: Time) {
    InRange(Hour, t.hour) && InRange(MinuteSecond, t.minute) && InRange(MinuteSecond, t.second)
  }

  /** Position `p` of `s` holds a separator. */
  predicate SepAt(s: string, p: nat) {
    p < |s| && IsSep(s[p])
  }

  /** `s[i..j]` is a (possibly empty) run of separators. */
  predicate SepsAt(s: string, i: nat, j: nat) {
    i <= j <= |s| && forall p | i <= p < j :: SepAt(s, p)
  }

  /** `many0_count(one_of(SEP))`: skips the run of separators at the cursor
      (see SkipSeparatorsSpec). */
  function SkipSeparators(s: string, i: nat): (j: nat)
    requires i <= |s|
    ensures i <= j <= |s|
    decreases |s| - i
  {
    if SepAt(s, i) then SkipSeparators(s, i + 1) else i
  }

  /** The skip is greedy: everything it passes over is a separator, and it
      stops at the end of the input or at a character that is not one. */
  lemma {:induction false} SkipSeparatorsSpec(s: string, i: nat)
    requires i <= |s|
    ensures SepsAt(s, i, SkipSeparators(s, i)) && !SepAt(s, SkipSeparators(s, i))
    decreases |s| - i
  {
    if SepAt(s, i) {
      SkipSeparatorsSpec(s, i + 1);
    }
  }

  /** A separator run that ends at a non-separator is exactly what the skip
      passes over. */
  lemma {:induction false} SkipSeparatorsStops(s: string, i: nat, j: nat)
    requires SepsAt(s, i, j) && !SepAt(s, j)
    ensures SkipSeparators(s, i) == j
    decreases j - i
  {
    if i < j {
      SkipSeparatorsStops(s, i + 1, j);
    }
  }

  /** One separator run followed by one field of kind `k`. */
  function SeparatedField(s: string, i: nat, k: FieldKind): (r: FieldMatch)
    requires i <= |s|
    ensures r.Field? ==> i + Width(k) <= r.next <= |s|
  {
    ParseField(k, s, SkipSeparators(s, i))
  }

  /** What a separated field recognises: separators from `i`, then a
      well-formed field, ending at the returned position. */
  lemma SeparatedFieldSound(s: string, i: nat, k: FieldKind)
    requires i <= |s| && SeparatedField(s, i, k).Field?
    ensures var r := SeparatedField(s, i, k);
      var j := r.next - Width(k);
      SepsAt(s, i, j) && FieldAt(k, s, j) && r.value == FieldValue(k, s, j)
  {
    SkipSeparatorsSpec(s, i);
  }

  /** A separator run `s[i..j]` followed by a field at `j` is recognised in
      full, whatever follows it. */
  lemma SeparatedFieldAt(s: string, i: nat, j: nat, k: FieldKind)
    requires SepsAt(s, i, j) && FieldAt(k, s, j)
    ensures SeparatedField(s, i, k) == Field(FieldValue(k, s, j), j + Width(k))
  {
    DigitIsNotSep(s[j]);
    SkipSeparatorsStops(s, i, j);
  }

  /** `parse_calendar_date`: year, month and day, each after a run of
      separators. Any field failing fails the whole match. */
  function ParseCalendarDate(s: string, i: nat): (r: Option<Parsed<Date>>)
    requires i <= |s|
    ensures r.Some? ==> i + 8 <= r.value.next <= |s| && ValidDate(r.value.value)
  {
    var year := SeparatedField(s, i, Year);
    if year.NoField? then None else
    var month := SeparatedField(s, year.next, Month);
    if month.NoField? then None else
    var day := SeparatedField(s, month.next, Day);
    if day.NoField? then None else
    Some(Parsed(Date(year.value, month.value, day.value), day.next))
  }

  /** `parse_time`: hour, minute and second, each after a run of
      separators. Any field failing fails the whole match. */
  function ParseTime(s: string, i: nat): (r: Option<Parsed<Time>>)
    requires i <= |s|
    ensures r.Some? ==> i + 6 <= r.value.next <= |s| && ValidTime(r.value.value)
  {
    var hour := SeparatedField(s, i, Hour);
    if hour.NoField? then None else
    var minute := SeparatedField(s, hour.next, MinuteSecond);
    if minute.NoField? then None else
    var second := SeparatedField(s, minute.next, MinuteSecond);
    if second.NoField? then None else
    Some(Parsed(Time(hour.value, minute.value, second.value), second.next))
  }

  /** From `i`, `s` reads: separators, a year at `y`, separators, a month
      at `m`, separators, a day at `d`; and `date` holds their values. */
  predicate DateLaidOut(s: string, i: nat, y: nat, m: nat, d: nat, date: Date) {
    SepsAt(s, i, y) && FieldAt(Year, s, y) &&
    SepsAt(s, y + 4, m) && FieldAt(Month, s, m) &&
    SepsAt(s, m + 2, d) && FieldAt(Day, s, d) &&
    date == Date(FieldValue(Year, s, y), FieldValue(Month, s, m), FieldValue(Day, s, d))
  }

  /** From `i`, `s` reads: separators, an hour at `h`, separators, a minute
      at `m`, separators, a second at `c`; and `time` holds their values. */
  predicate TimeLaidOut(s: string, i: nat, h: nat, m: nat, c: nat, time: Time) {
    SepsAt(s, i, h) && FieldAt(Hour, s, h) &&
    SepsAt(s, h + 2, m) && FieldAt(MinuteSecond, s, m) &&
    SepsAt(s, m + 2, c) && FieldAt(MinuteSecond, s, c) &&
    time == Time(FieldValue(Hour, s, h), FieldValue(MinuteSecond, s, m), FieldValue(MinuteSecond, s, c))
  }

  /** Completeness: a laid-out date is matched, up to the end of its day. */
  lemma DateAt(s: string, i: nat, y: nat, m: nat, d: nat, date: Date)
    requires DateLaidOut(s, i, y, m, d, date)
    ensures ParseCalendarDate(s, i) == Some(Parsed(date, d + 2))
  {
    SeparatedFieldAt(s, i, y, Year);
    SeparatedFieldAt(s, y + 4, m, Month);
    SeparatedFieldAt(s, m + 2, d, Day);
  }

  /** Completeness: a laid-out time is matched, up to the end of its
      second. */
  lemma TimeAt(s: string, i: nat, h: nat, m: nat, c: nat, time: Time)
    requires TimeLaidOut(s, i, h, m, c, time)
    ensures ParseTime(s, i) == Some(Parsed(time, c + 2))
  {
    SeparatedFieldAt(s, i, h, Hour);
    SeparatedFieldAt(s, h + 2, m, MinuteSecond);
    SeparatedFieldAt(s, m + 2, c, MinuteSecond);
  }

  /** Soundness: whatever the date matcher accepts is a laid-out date. */
  lemma DateSound(s: string, i: nat)
    requires i <= |s| && ParseCalendarDate(s, i).Some?
    ensures var r := ParseCalendarDate(s, i).value;
      exists y, m, d :: d + 2 == r.next && DateLaidOut(s, i, y, m, d, r.value)
  {
    var year := SeparatedField(s, i, Year);
    SeparatedFieldSound(s, i, Year);
    var month := SeparatedField(s, year.next, Month);
    SeparatedFieldSound(s, year.next, Month);
    SeparatedFieldSound(s, month.next, Day);
    assert DateLaidOut(s, i, year.next - 4, month.next - 2, ParseCalendarDate(s, i).value.next - 2, ParseCalendarDate(s, i).value.value);
  }

  /** Soundness: whatever the time matcher accepts is a laid-out time. */
  lemma TimeSound(s: string, i: nat)
    requires i <= |s| && ParseTime(s, i).Some?
    ensures var r := ParseTime(s, i).value;
      exists h, m, c :: c + 2 == r.next && TimeLaidOut(s, i, h, m, c, r.value)
  {
    var hour := SeparatedField(s, i, Hour);
    SeparatedFieldSound(s, i, Hour);
    var minute := SeparatedField(s, hour.next, MinuteSecond);
    SeparatedFieldSound(s, hour.next, MinuteSecond);
    SeparatedFieldSound(s, minute.next, MinuteSecond);
    assert TimeLaidOut(s, i, hour.next - 2, minute.next - 2, ParseTime(s, i).value.next - 2, ParseTime(s, i).value.value);
  }
}
