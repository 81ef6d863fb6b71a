/** The name scanner on whole file names: a run of junk characters, a
    laid-out date or time, and the timestamp of names built from them; then
    the names the unit tests of `src/parser.rs` check (`full_test!`). */
module NameExamples {
  import opened Wrappers
  import opened Fields
  import opened Matchers
  import opened Scanner

  /** Position `p` holds a character that is neither a digit nor a
      separator, so no date or time can start there. */
  predicate JunkAt(s: string, p: nat) {
    p < |s| && !IsDigit(s[p]) && !IsSep(s[p])
  }

  /** `s[i..j]` is a (possibly empty) run of junk characters. */
  predicate JunkRun(s: string, i: nat, j: nat) {
    i <= j <= |s| && forall p | i <= p < j :: JunkAt(s, p)
  }

  /** A junk character is read as one `SepPart`. */
  lemma ScanAtJunk(s: string, i: nat)
    requires JunkAt(s, i)
    ensures Scan(s, i) == [SepPart] + Scan(s, i + 1)
  {
    SkipSeparatorsStops(s, i, i);
    assert Step(s, i) == Some(Parsed(SepPart, i + 1));
  }

  /** A run of junk characters is read as as many skipped parts. */
  lemma JunkRunParts(s: string, i: nat, j: nat)
    requires JunkRun(s, i, j)
    ensures Scan(s, i) == SepParts(j - i) + Scan(s, j)
  {
    JunkSteps(s, i, j);
    SepPartsRun(ScanFrom(s), i, j);
  }

  /** The scan of `s` from each position, as a function of the position
      (nothing past the end). */
  function ScanFrom(s: string): nat -> seq<Part> {
    (k: nat) => if k <= |s| then Scan(s, k) else []
  }

  /** Each junk character of a run is read as one skipped part. */
  lemma JunkSteps(s: string, i: nat, j: nat)
    requires JunkRun(s, i, j)
    ensures forall k | i <= k < j :: ScanFrom(s)(k) == [SepPart] + ScanFrom(s)(k + 1)
  {
    forall k | i <= k < j
      ensures ScanFrom(s)(k) == [SepPart] + ScanFrom(s)(k + 1)
    {
      JunkStep(s, k);
    }
  }

  lemma JunkStep(s: string, k: nat)
    requires JunkAt(s, k)
    ensures ScanFrom(s)(k) == [SepPart] + ScanFrom(s)(k + 1)
  {
    ScanAtJunk(s, k);
  }

  /** If each position from `i` to `j` reads one skipped part and moves
      on, the positions read `j - i` skipped parts in all. */
  lemma {:induction false} SepPartsRun(scan: nat -> seq<Part>, i: nat, j: nat)
    requires i <= j
    requires forall k | i <= k < j :: scan(k) == [SepPart] + scan(k + 1)
    ensures scan(i) == SepParts(j - i) + scan(j)
    decreases j - i
  {
    if i < j {
      SepPartsRun(scan, i + 1, j);
      PrependSepPart(scan(i), scan(i + 1), scan(j), j - (i + 1), j - i);
    } else {
      assert SepParts(0) + scan(j) == scan(j);
    }
  }

  /** One more skipped part in front of a run of them. */
  lemma {:induction false} PrependSepPart(whole: seq<Part>, tail: seq<Part>, rest: seq<Part>, m: nat, n: nat)
    requires n == m + 1 && whole == [SepPart] + tail && tail == SepParts(m) + rest
    ensures whole == SepParts(n) + rest
  {
    assert [SepPart] + (SepParts(m) + rest) == ([SepPart] + SepParts(m)) + rest;
  }

  /** A date laid out from the cursor is read as one date part. */
  lemma ScanAtDate(s: string, i: nat, y: nat, m: nat, d: nat, date: Date)
    requires DateLaidOut(s, i, y, m, d, date)
    ensures Scan(s, i) == [DatePart(date)] + Scan(s, d + 2)
  {
    DateAt(s, i, y, m, d, date);
    assert Step(s, i) == Some(Parsed(DatePart(date), d + 2));
  }

  /** A time laid out from the cursor is read as one time part exactly
      when no date starts there too. */
  lemma ScanAtTime(s: string, i: nat, h: nat, m: nat, c: nat, time: Time)
    requires TimeLaidOut(s, i, h, m, c, time) && ParseCalendarDate(s, i).None?
    ensures Scan(s, i) == [TimePart(time)] + Scan(s, c + 2)
  {
    TimeAt(s, i, h, m, c, time);
    assert Step(s, i) == Some(Parsed(TimePart(time), c + 2));
  }

  /** No date starts where the first digits after the separators are not
      a year. */
  lemma NoYearNoDate(s: string, i: nat, h: nat)
    requires SepsAt(s, i, h) && h < |s| && IsDigit(s[h]) && !FieldAt(Year, s, h)
    ensures ParseCalendarDate(s, i).None?
  {
    DigitIsNotSep(s[h]);
    SkipSeparatorsStops(s, i, h);
  }

  /** The last date and time the scan finds from `i` on. */
  function FoundFrom(s: string, i: nat): (Option<Date>, Option<Time>)
    requires i <= |s|
  {
    (LastDate(Scan(s, i)), LastTime(Scan(s, i)))
  }

  /** A run of junk characters changes nothing the scan finds. */
  lemma JunkRunKeeps(s: string, i: nat, j: nat)
    requires JunkRun(s, i, j)
    ensures FoundFrom(s, i) == FoundFrom(s, j)
  {
    JunkRunParts(s, i, j);
    SepPartsInFront(j - i, Scan(s, i), Scan(s, j));
  }

  /** A laid-out date is found unless a later date overrides it. */
  lemma DateFound(s: string, i: nat, y: nat, m: nat, d: nat, date: Date)
    requires DateLaidOut(s, i, y, m, d, date)
    ensures FoundFrom(s, i) ==
      (if FoundFrom(s, d + 2).0.Some? then FoundFrom(s, d + 2).0 else Some(date), FoundFrom(s, d + 2).1)
  {
    ScanAtDate(s, i, y, m, d, date);
    LastDateConcat([DatePart(date)], Scan(s, d + 2));
    LastTimeConcat([DatePart(date)], Scan(s, d + 2));
    assert [DatePart(date)][..0] == [];
  }

  /** A laid-out time is found unless a later time overrides it. */
  lemma TimeFound(s: string, i: nat, h: nat, m: nat, c: nat, time: Time)
    requires TimeLaidOut(s, i, h, m, c, time) && !FieldAt(Year, s, h)
    ensures FoundFrom(s, i) ==
      (FoundFrom(s, c + 2).0, if FoundFrom(s, c + 2).1.Some? then FoundFrom(s, c + 2).1 else Some(time))
  {
    NoYearNoDate(s, i, h);
    ScanAtTime(s, i, h, m, c, time);
    LastDateConcat([TimePart(time)], Scan(s, c + 2));
    LastTimeConcat([TimePart(time)], Scan(s, c + 2));
    assert [TimePart(time)][..0] == [];
  }

  /** Junk up to the end of the name: nothing is found from `i` on. */
  lemma JunkToEnd(s: string, i: nat)
    requires JunkRun(s, i, |s|)
    ensures FoundFrom(s, i) == (None, None)
  {
    JunkRunKeeps(s, i, |s|);
  }

  /** A time, then junk to the end of the name. */
  lemma TimeToEnd(s: string, j: nat, h: nat, n: nat, c: nat, time: Time)
    requires TimeLaidOut(s, j, h, n, c, time) && !FieldAt(Year, s, h) && JunkRun(s, c + 2, |s|)
    ensures FoundFrom(s, j) == (None, Some(time))
  {
    JunkToEnd(s, c + 2);
    TimeFound(s, j, h, n, c, time);
  }

  /** Junk, a time, then junk to the end of the name. */
  lemma JunkTimeToEnd(s: string, e: nat, j: nat, h: nat, n: nat, c: nat, time: Time)
    requires JunkRun(s, e, j) && TimeLaidOut(s, j, h, n, c, time) && !FieldAt(Year, s, h)
    requires JunkRun(s, c + 2, |s|)
    ensures FoundFrom(s, e) == (None, Some(time))
  {
    TimeToEnd(s, j, h, n, c, time);
    JunkRunKeeps(s, e, j);
  }

  /** A date, then junk to the end of the name. */
  lemma DateToEnd(s: string, i: nat, y: nat, m: nat, d: nat, date: Date)
    requires DateLaidOut(s, i, y, m, d, date) && JunkRun(s, d + 2, |s|)
    ensures FoundFrom(s, i) == (Some(date), None)
  {
    JunkToEnd(s, d + 2);
    DateFound(s, i, y, m, d, date);
  }

  /** A date, junk, a time, then junk to the end of the name. */
  lemma DateTimeToEnd(s: string, i: nat, y: nat, m: nat, d: nat, date: Date,
                      j: nat, h: nat, n: nat, c: nat, time: Time)
    requires DateLaidOut(s, i, y, m, d, date) && JunkRun(s, d + 2, j)
    requires TimeLaidOut(s, j, h, n, c, time) && !FieldAt(Year, s, h) && JunkRun(s, c + 2, |s|)
    ensures FoundFrom(s, i) == (Some(date), Some(time))
  {
    JunkTimeToEnd(s, d + 2, j, h, n, c, time);
    DateFound(s, i, y, m, d, date);
  }

  /** A name that holds one date and nothing else but junk has that date
      and the default time. */
  lemma DateAmidJunk(s: string, i: nat, y: nat, m: nat, d: nat, date: Date)
    requires JunkRun(s, 0, i) && DateLaidOut(s, i, y, m, d, date) && JunkRun(s, d + 2, |s|)
    ensures NameStamp(s) == Timestamp(date, DefaultTime)
  {
    DateToEnd(s, i, y, m, d, date);
    JunkRunKeeps(s, 0, i);
  }

  /** A name that holds one time and nothing else but junk has the default
      date and that time. */
  lemma TimeAmidJunk(s: string, i: nat, h: nat, m: nat, c: nat, time: Time)
    requires JunkRun(s, 0, i) && TimeLaidOut(s, i, h, m, c, time) && !FieldAt(Year, s, h)
    requires JunkRun(s, c + 2, |s|)
    ensures NameStamp(s) == Timestamp(DefaultDate, time)
  {
    JunkTimeToEnd(s, 0, i, h, m, c, time);
  }

  /** A name that holds a date, then a time, with only junk around and
      between them, has that date and that time. */
  lemma DateTimeAmidJunk(s: string, i: nat, y: nat, m: nat, d: nat, date: Date,
                         j: nat, h: nat, n: nat, c: nat, time: Time)
    requires JunkRun(s, 0, i) && DateLaidOut(s, i, y, m, d, date) && JunkRun(s, d + 2, j)
    requires TimeLaidOut(s, j, h, n, c, time) && !FieldAt(Year, s, h) && JunkRun(s, c + 2, |s|)
    ensures NameStamp(s) == Timestamp(date, time)
  {
    DateTimeToEnd(s, i, y, m, d, date, j, h, n, c, time);
    JunkRunKeeps(s, 0, i);
  }

  /** `s` is the name "2020-02-03". */
  predicate SpellsFullDate(s: string) {
    |s| == 10 &&
    s[0] == '2' && s[1] == '0' && s[2] == '2' && s[3] == '0' && s[4] == '-' && s[5] == '0' &&
    s[6] == '2' && s[7] == '-' && s[8] == '0' && s[9] == '3'
  }

  lemma FullDateLayout(s: string)
    requires SpellsFullDate(s)
    ensures JunkRun(s, 0, 0) && DateLaidOut(s, 0, 0, 5, 8, Date(2020, 2, 3)) && JunkRun(s, 10, 10)
  {
  }

  /** `full_date`: a bare date, with the default time. */
  lemma FullDateStamp()
    ensures NameStamp("2020-02-03") == Timestamp(Date(2020, 2, 3), Time(0, 0, 0))
  {
    var s := "2020-02-03";
    FullDateLayout(s);
    DateAmidJunk(s, 0, 0, 5, 8, Date(2020, 2, 3));
  }

  /** `s` is the name "03:04:05". */
  predicate SpellsFullTime(s: string) {
    |s| == 8 &&
    s[0] == '0' && s[1] == '3' && s[2] == ':' && s[3] == '0' && s[4] == '4' && s[5] == ':' &&
    s[6] == '0' && s[7] == '5'
  }

  lemma FullTimeLayout(s: string)
    requires SpellsFullTime(s)
    ensures JunkRun(s, 0, 0) && TimeLaidOut(s, 0, 0, 3, 6, Time(3, 4, 5)) && !FieldAt(Year, s, 0) && JunkRun(s, 8, 8)
  {
  }

  /** `full_time`: a bare time, with the default date. */
  lemma FullTimeStamp()
    ensures NameStamp("03:04:05") == Timestamp(Date(2000, 1, 1), Time(3, 4, 5))
  {
    var s := "03:04:05";
    FullTimeLayout(s);
    TimeAmidJunk(s, 0, 0, 3, 6, Time(3, 4, 5));
  }

  /** `s` is the name "2020-02-03 03:04:05". */
  predicate SpellsFullDateTime(s: string) {
    |s| == 19 &&
    s[0] == '2' && s[1] == '0' && s[2] == '2' && s[3] == '0' && s[4] == '-' && s[5] == '0' &&
    s[6] == '2' && s[7] == '-' && s[8] == '0' && s[9] == '3' && s[10] == ' ' && s[11] == '0' &&
    s[12] == '3' && s[13] == ':' && s[14] == '0' && s[15] == '4' && s[16] == ':' && s[17] == '0' &&
    s[18] == '5'
  }

  lemma FullDateTimeDateLayout(s: string)
    requires SpellsFullDateTime(s)
    ensures JunkRun(s, 0, 0) && DateLaidOut(s, 0, 0, 5, 8, Date(2020, 2, 3)) && JunkRun(s, 10, 10)
  {
  }

  lemma FullDateTimeTimeLayout(s: string)
    requires SpellsFullDateTime(s)
    ensures TimeLaidOut(s, 10, 11, 14, 17, Time(3, 4, 5)) && !FieldAt(Year, s, 11) && JunkRun(s, 19, 19)
  {
  }

  /** `full_date_time`: a date, a space, a time. */
  lemma FullDateTimeStamp()
    ensures NameStamp("2020-02-03 03:04:05") == Timestamp(Date(2020, 2, 3), Time(3, 4, 5))
  {
    var s := "2020-02-03 03:04:05";
    FullDateTimeDateLayout(s);
    FullDateTimeTimeLayout(s);
    DateTimeAmidJunk(s, 0, 0, 5, 8, Date(2020, 2, 3), 10, 11, 14, 17, Time(3, 4, 5));
  }

  /** `s` is the name "qwe2020-02-03rty". */
  predicate SpellsDateWithJunk(s: string) {
    |s| == 16 &&
    s[0] == 'q' && s[1] == 'w' && s[2] == 'e' && s[3] == '2' && s[4] == '0' && s[5] == '2' &&
    s[6] == '0' && s[7] == '-' && s[8] == '0' && s[9] == '2' && s[10] == '-' && s[11] == '0' &&
    s[12] == '3' && s[13] == 'r' && s[14] == 't' && s[15] == 'y'
  }

  lemma DateWithJunkLayout(s: string)
    requires SpellsDateWithJunk(s)
    ensures JunkRun(s, 0, 3) && DateLaidOut(s, 3, 3, 8, 11, Date(2020, 2, 3)) && JunkRun(s, 13, 16)
  {
  }

  /** `date_with_junk`: letters around a date are skipped. */
  lemma DateWithJunkStamp()
    ensures NameStamp("qwe2020-02-03rty") == Timestamp(Date(2020, 2, 3), Time(0, 0, 0))
  {
    var s := "qwe2020-02-03rty";
    DateWithJunkLayout(s);
    DateAmidJunk(s, 3, 3, 8, 11, Date(2020, 2, 3));
  }

  /** `s` is the name "qwe03:04:05rty". */
  predicate SpellsTimeWithJunk(s: string) {
    |s| == 14 &&
    s[0] == 'q' && s[1] == 'w' && s[2] == 'e' && s[3] == '0' && s[4] == '3' && s[5] == ':' &&
    s[6] == '0' && s[7] == '4' && s[8] == ':' && s[9] == '0' && s[10] == '5' && s[11] == 'r' &&
    s[12] == 't' && s[13] == 'y'
  }

  lemma TimeWithJunkLayout(s: string)
    requires SpellsTimeWithJunk(s)
    ensures JunkRun(s, 0, 3) && TimeLaidOut(s, 3, 3, 6, 9, Time(3, 4, 5)) && !FieldAt(Year, s, 3) && JunkRun(s, 11, 14)
  {
  }

  /** `time_with_junk`: letters around a time are skipped. */
  lemma TimeWithJunkStamp()
    ensures NameStamp("qwe03:04:05rty") == Timestamp(Date(2000, 1, 1), Time(3, 4, 5))
  {
    var s := "qwe03:04:05rty";
    TimeWithJunkLayout(s);
    TimeAmidJunk(s, 3, 3, 6, 9, Time(3, 4, 5));
  }

  /** `s` is the name "qwe2020-02-03 03:04:05rty". */
  predicate SpellsDateTimeJunkAround(s: string) {
    |s| == 25 &&
    s[0] == 'q' && s[1] == 'w' && s[2] == 'e' && s[3] == '2' && s[4] == '0' && s[5] == '2' &&
    s[6] == '0' && s[7] == '-' && s[8] == '0' && s[9] == '2' && s[10] == '-' && s[11] == '0' &&
    s[12] == '3' && s[13] == ' ' && s[14] == '0' && s[15] == '3' && s[16] == ':' && s[17] == '0' &&
    s[18] == '4' && s[19] == ':' && s[20] == '0' && s[21] == '5' && s[22] == 'r' && s[23] == 't' &&
    s[24] == 'y'
  }

  lemma DateTimeJunkAroundDateLayout(s: string)
    requires SpellsDateTimeJunkAround(s)
    ensures JunkRun(s, 0, 3) && DateLaidOut(s, 3, 3, 8, 11, Date(2020, 2, 3)) && JunkRun(s, 13, 13)
  {
  }

  lemma DateTimeJunkAroundTimeLayout(s: string)
    requires SpellsDateTimeJunkAround(s)
    ensures TimeLaidOut(s, 13, 14, 17, 20, Time(3, 4, 5)) && !FieldAt(Year, s, 14) && JunkRun(s, 22, 25)
  {
  }

  /** `date_time_junk_around`: letters before the date and after the time. */
  lemma DateTimeJunkAroundStamp()
    ensures NameStamp("qwe2020-02-03 03:04:05rty") == Timestamp(Date(2020, 2, 3), Time(3, 4, 5))
  {
    var s := "qwe2020-02-03 03:04:05rty";
    DateTimeJunkAroundDateLayout(s);
    DateTimeJunkAroundTimeLayout(s);
    DateTimeAmidJunk(s, 3, 3, 8, 11, Date(2020, 2, 3), 13, 14, 17, 20, Time(3, 4, 5));
  }

  /** `s` is the name "qwe2020-02-03asd03:04:05rty". */
  predicate SpellsDateTimeJunkBetween(s: string) {
    |s| == 27 &&
    s[0] == 'q' && s[1] == 'w' && s[2] == 'e' && s[3] == '2' && s[4] == '0' && s[5] == '2' &&
    s[6] == '0' && s[7] == '-' && s[8] == '0' && s[9] == '2' && s[10] == '-' && s[11] == '0' &&
    s[12] == '3' && s[13] == 'a' && s[14] == 's' && s[15] == 'd' && s[16] == '0' && s[17] == '3' &&
    s[18] == ':' && s[19] == '0' && s[20] == '4' && s[21] == ':' && s[22] == '0' && s[23] == '5' &&
    s[24] == 'r' && s[25] == 't' && s[26] == 'y'
  }

  lemma DateTimeJunkBetweenDateLayout(s: string)
    requires SpellsDateTimeJunkBetween(s)
    ensures JunkRun(s, 0, 3) && DateLaidOut(s, 3, 3, 8, 11, Date(2020, 2, 3)) && JunkRun(s, 13, 16)
  {
  }

  lemma DateTimeJunkBetweenTimeLayout(s: string)
    requires SpellsDateTimeJunkBetween(s)
    ensures TimeLaidOut(s, 16, 16, 19, 22, Time(3, 4, 5)) && !FieldAt(Year, s, 16) && JunkRun(s, 24, 27)
  {
  }

  /** `date_time_junk_between`: letters before, between and after. */
  lemma DateTimeJunkBetweenStamp()
    ensures NameStamp("qwe2020-02-03asd03:04:05rty") == Timestamp(Date(2020, 2, 3), Time(3, 4, 5))
  {
    var s := "qwe2020-02-03asd03:04:05rty";
    DateTimeJunkBetweenDateLayout(s);
    DateTimeJunkBetweenTimeLayout(s);
    DateTimeAmidJunk(s, 3, 3, 8, 11, Date(2020, 2, 3), 16, 16, 19, 22, Time(3, 4, 5));
  }

  /** `s` is the name "2199-12-31-23-59-59". */
  predicate SpellsFullDateTimeMax(s: string) {
    |s| == 19 &&
    s[0] == '2' && s[1] == '1' && s[2] == '9' && s[3] == '9' && s[4] == '-' && s[5] == '1' &&
    s[6] == '2' && s[7] == '-' && s[8] == '3' && s[9] == '1' && s[10] == '-' && s[11] == '2' &&
    s[12] == '3' && s[13] == '-' && s[14] == '5' && s[15] == '9' && s[16] == '-' && s[17] == '5' &&
    s[18] == '9'
  }

  lemma FullDateTimeMaxDateLayout(s: string)
    requires SpellsFullDateTimeMax(s)
    ensures JunkRun(s, 0, 0) && DateLaidOut(s, 0, 0, 5, 8, Date(2199, 12, 31)) && JunkRun(s, 10, 10)
  {
  }

  lemma FullDateTimeMaxTimeLayout(s: string)
    requires SpellsFullDateTimeMax(s)
    ensures TimeLaidOut(s, 10, 11, 14, 17, Time(23, 59, 59)) && !FieldAt(Year, s, 11) && JunkRun(s, 19, 19)
  {
  }

  /** `full_datetime_max`: the largest date and time the fields admit, joined by dashes. */
  lemma FullDateTimeMaxStamp()
    ensures NameStamp("2199-12-31-23-59-59") == Timestamp(Date(2199, 12, 31), Time(23, 59, 59))
  {
    var s := "2199-12-31-23-59-59";
    FullDateTimeMaxDateLayout(s);
    FullDateTimeMaxTimeLayout(s);
    DateTimeAmidJunk(s, 0, 0, 5, 8, Date(2199, 12, 31), 10, 11, 14, 17, Time(23, 59, 59));
  }

  /** `s` is the name "2021-02-30". */
  predicate SpellsOffCalendar(s: string) {
    |s| == 10 &&
    s[0] == '2' && s[1] == '0' && s[2] == '2' && s[3] == '1' && s[4] == '-' && s[5] == '0' &&
    s[6] == '2' && s[7] == '-' && s[8] == '3' && s[9] == '0'
  }

  lemma OffCalendarLayout(s: string)
    requires SpellsOffCalendar(s)
    ensures JunkRun(s, 0, 0) && DateLaidOut(s, 0, 0, 5, 8, Date(2021, 2, 30)) && JunkRun(s, 10, 10)
  {
  }

  /** The field validators admit day 30 in any month, so the name
      "2021-02-30" reads as a date no calendar has; `from_ymd` would panic
      on it where this model keeps the raw triple. */
  lemma OffCalendarStamp()
    ensures NameStamp("2021-02-30") == Timestamp(Date(2021, 2, 30), Time(0, 0, 0))
    ensures !CalendarDate(NameStamp("2021-02-30").date)
  {
    var s := "2021-02-30";
    OffCalendarLayout(s);
    DateAmidJunk(s, 0, 0, 5, 8, Date(2021, 2, 30));
  }

  /** `s` is the name "201530". */
  predicate SpellsYearThenTime(s: string) {
    |s| == 6 &&
    s[0] == '2' && s[1] == '0' && s[2] == '1' && s[3] == '5' && s[4] == '3' && s[5] == '0'
  }

  lemma YearThenTimeLayout(s: string)
    requires SpellsYearThenTime(s)
    ensures TimeLaidOut(s, 0, 0, 2, 4, Time(20, 15, 30)) && ParseCalendarDate(s, 0).None?
  {
    SkipSeparatorsStops(s, 0, 0);
    SkipSeparatorsStops(s, 4, 4);
  }

  /** "2015" is a year, but "30" is no month, so no date starts at the
      front of "201530"; the time matcher then reads 20:15:30 there. */
  lemma YearThenTimeStamp()
    ensures NameStamp("201530") == Timestamp(Date(2000, 1, 1), Time(20, 15, 30))
  {
    var s := "201530";
    YearThenTimeLayout(s);
    ScanAtTime(s, 0, 0, 2, 4, Time(20, 15, 30));
    assert Scan(s, 0) == [TimePart(Time(20, 15, 30))];
  }
}
