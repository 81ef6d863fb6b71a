# ddir: the file-name timestamp scanner and the "latest" choice

`ddir` reads the names in a directory and pulls a timestamp out of each one.
It then orders the files by that timestamp and reports the latest.
This project models that core and proves its properties:

- `fields.dfy` (module `Fields`) holds the five fixed-width digit validators.
  They cover the year `2000`–`2199`, the month `00`–`12`, the day of month,
  the hour `00`–`23`, and the minute or second `00`–`59`.
  It also holds the separator set `T-_:., \t` and the digit set.
- `matchers.dfy` (module `Matchers`) holds the greedy separator skip and the
  two composed matchers.
  The calendar-date matcher reads separators, year, separators, month,
  separators, day. The time matcher reads separators, hour, separators,
  minute, separators, second.
  Each matcher is proved sound and complete against a "laid out" description
  of the text it accepts.
- `scanner.dfy` (module `Scanner`) holds the tolerant scanner.
  At each position it tries a date, then a time, then takes any one
  character. It repeats until the name runs out, then keeps the last date
  and the last time it saw, defaulting to 2000-01-01 and 00:00:00.
  It is written twice:
  - as recursive functions (`Step`, `Scan`, `LastDate`, `LastTime`, `Stamp`);
  - as the source's loops (`ReadParts`, `LastParts`), each proved equal to
    the recursive version.
- `examples.dfy` (module `NameExamples`) proves what the scanner reads from
  names made of junk characters around one date and/or one time.
  It then derives the timestamps of the names the unit tests check.
- `ranking.dfy` (module `Ranking`) holds the `Entry` ordering and the
  listing. It sorts an array of entries in place, and picks the last entry
  as the latest.
- `wrappers.dfy` (module `Wrappers`) holds `Option` and `Result`.

Dates and times are raw `(year, month, day)` and `(hour, minute, second)`
triples. Timestamps compare lexicographically: date first, then time.

## Model

| member | source | states |
|---|---|---|
| Fields.SepIsSEP | src/parser.rs:8 | the separator predicate holds exactly for the characters of `SEP` |
| Fields.DigitInIsSlice | src/parser.rs:10 | a digit in `[lo, hi)` is exactly a character of `DIGITS[lo..hi]`, the slices the validators pass to `one_of` |
| Fields.DigitValue | src/parser.rs:20-23 | `to_digit(10)` of an ASCII digit is below 10 |
| Fields.DigitValueIndexesDigits | src/parser.rs:10 | a digit's value is its index in `DIGITS` |
| Fields.FieldValueIsDecimal | src/parser.rs:18-24 | a field's value is its digits read as a decimal number, most significant first |
| Fields.ParseYear | src/parser.rs:12-25 | succeeds exactly on a four-digit year in 2000..2199 at the cursor; it then consumes 4 characters and yields that year |
| Fields.ParseHour | src/parser.rs:27-39 | succeeds exactly on "00".."23"; it then consumes 2 characters and yields the hour |
| Fields.ParseMinuteSecond | src/parser.rs:41-48 | succeeds exactly on "00".."59"; it then consumes 2 characters and yields the value |
| Fields.ParseMonth | src/parser.rs:50-62 | succeeds exactly on "00".."12", "00" included; it then consumes 2 characters |
| Fields.ParseDay | src/parser.rs:64-76 | succeeds exactly on 01–09, 11–19, 21–29, 30 and 31; it then consumes 2 characters |
| Fields.ParseField | src/parser.rs:12-76 | the validator of each field kind, with the same accept-exactly-when contract |
| Fields.YearExamples | src/parser.rs:143-157 | "2019", "2020" and "2021" are read as those years; "1990" and "2500" are refused |
| Fields.HourExamples | src/parser.rs:159-183 | "00", "01", "09", "10", "11", "19", "20" and "23" are read as hours; "24" and "30" are refused |
| Fields.MonthAndDayEdges | src/parser.rs:50-76 | month "00" and "12" pass and "13" fails; day "01" and "31" pass, while "00", "10", "20" and "32" fail |
| Matchers.SkipSeparators | src/parser.rs:79 | `many0_count(one_of(SEP))` moves the cursor forward and stays within the input |
| Matchers.SkipSeparatorsSpec | src/parser.rs:79 | the skip passes over separators only, and stops at the end or at a non-separator |
| Matchers.SkipSeparatorsStops | src/parser.rs:79 | a separator run ending at a non-separator is exactly what the skip passes over |
| Matchers.SeparatedField | src/parser.rs:79-80 | separators then a field: on success the cursor advances by at least the field's width |
| Matchers.SeparatedFieldSound | src/parser.rs:79-80 | a success means separators, then a well-formed field that ends at the new cursor |
| Matchers.SeparatedFieldAt | src/parser.rs:79-80 | separators followed by a well-formed field are always recognised |
| Matchers.ParseCalendarDate | src/parser.rs:78-88 | on success it consumes at least 8 characters and yields fields in range |
| Matchers.ParseTime | src/parser.rs:89-98 | on success it consumes at least 6 characters and yields hour ≤ 23, minute ≤ 59, second ≤ 59 |
| Matchers.DateAt | src/parser.rs:78-88 | completeness: a laid-out date is matched up to the end of its day field |
| Matchers.TimeAt | src/parser.rs:89-98 | completeness: a laid-out time is matched up to the end of its second field |
| Matchers.DateSound | src/parser.rs:78-88 | soundness: every date match is a laid-out date ending where the match ends |
| Matchers.TimeSound | src/parser.rs:89-98 | soundness: every time match is a laid-out time ending where the match ends |
| Scanner.Step | src/parser.rs:109-113 | one `alt` step fails only at the end of the name; otherwise it moves forward and yields an in-range part |
| Scanner.Scan | src/parser.rs:114 | the parts read from a position are empty exactly at the end of the name |
| Scanner.ScanPartsValid | src/parser.rs:109-114 | every part the scan reads is in range |
| Scanner.LastDate | src/parser.rs:116-125 | the date slot after the `for` loop; its meaning is stated by LastDateSpec and LastDateConcat |
| Scanner.LastTime | src/parser.rs:116-125 | the time slot after the `for` loop; its meaning is stated by LastTimeSpec and LastTimeConcat |
| Scanner.Stamp | src/parser.rs:127-129 | the last date and time, with 2000-01-01 and 00:00:00 standing in; ranges by NameStampValid |
| Scanner.NameStamp | src/parser.rs:106-130 | the timestamp of a name; the examples and NameStampValid state what it is |
| Scanner.LastDateSpec | src/parser.rs:116-125 | the date kept is a date part with no date part after it; none is kept only when there is no date part |
| Scanner.LastTimeSpec | src/parser.rs:116-125 | the same for the time |
| Scanner.LastDateConcat | src/parser.rs:119-125 | last match wins: the last date of `a + b` is the one in `b`, or else the one in `a` |
| Scanner.LastTimeConcat | src/parser.rs:119-125 | the same for the time |
| Scanner.SepPartsHoldNothing | src/parser.rs:123 | `SepPart` values hold neither a date nor a time |
| Scanner.StampIgnoresSepParts | src/parser.rs:119-128 | inserting `SepPart` values anywhere in a list of parts leaves its timestamp unchanged |
| Scanner.SepPartsInFront | src/parser.rs:119-125 | `SepPart` values in front of a list of parts change neither its last date nor its last time |
| Scanner.NameStampValid | src/parser.rs:106-130 | for every name, the timestamp's fields are in range; the time is at most 23:59:59 |
| Scanner.ReadParts | src/parser.rs:114 | the `many1` loop reads exactly the recursive scan and stops at the end of the name |
| Scanner.LastParts | src/parser.rs:116-125 | the `for` loop keeps exactly the last date and the last time |
| Scanner.ParseFileInternal | src/parser.rs:106-130 | fails exactly on the empty name, at position 0; otherwise consumes the whole name and yields its timestamp |
| Scanner.ParseFileName | src/parser.rs:132-137 | succeeds exactly on non-empty names, with the name's timestamp |
| NameExamples.ScanAtJunk | src/parser.rs:111-113 | a character that is neither digit nor separator is read as one skipped part |
| NameExamples.ScanAtDate | src/parser.rs:109-113 | a laid-out date is read as one date part |
| NameExamples.ScanAtTime | src/parser.rs:109-113 | a laid-out time is read as one time part when no date starts at the same position |
| NameExamples.NoYearNoDate | src/parser.rs:78-80 | no date starts where the first digits after the separators are not a year |
| NameExamples.JunkRunParts | src/parser.rs:111-114 | a run of `n` junk characters in a name is read as `n` `SepPart` values, whatever follows |
| NameExamples.JunkRunKeeps | src/parser.rs:111-125 | a run of junk characters changes neither the last date nor the last time found |
| NameExamples.DateFound | src/parser.rs:113-125 | a laid-out date is kept unless a later date overrides it; the time found is unchanged |
| NameExamples.TimeFound | src/parser.rs:113-125 | a laid-out time is kept unless a later time overrides it; the date found is unchanged |
| NameExamples.JunkToEnd | src/parser.rs:111-125 | junk to the end of the name yields no date and no time |
| NameExamples.TimeToEnd | src/parser.rs:113-125 | a time then junk to the end yields only that time |
| NameExamples.JunkTimeToEnd | src/parser.rs:113-125 | junk, a time, then junk yields only that time |
| NameExamples.DateToEnd | src/parser.rs:113-125 | a date then junk to the end yields only that date |
| NameExamples.DateTimeToEnd | src/parser.rs:113-125 | a date, junk, a time, then junk yields that date and that time |
| NameExamples.DateAmidJunk | src/parser.rs:106-130 | a name with one date amid junk has that date and the default time |
| NameExamples.TimeAmidJunk | src/parser.rs:106-130 | a name with one time amid junk has the default date and that time |
| NameExamples.DateTimeAmidJunk | src/parser.rs:106-130 | a name with a date, then a time, amid junk has that date and that time |
| NameExamples.FullDateStamp | src/parser.rs:204 | "2020-02-03" reads as 2020-02-03 00:00:00 |
| NameExamples.FullTimeStamp | src/parser.rs:205 | "03:04:05" reads as 2000-01-01 03:04:05 |
| NameExamples.FullDateTimeStamp | src/parser.rs:206 | "2020-02-03 03:04:05" reads as 2020-02-03 03:04:05 |
| NameExamples.DateWithJunkStamp | src/parser.rs:207 | "qwe2020-02-03rty" reads as 2020-02-03 00:00:00 |
| NameExamples.TimeWithJunkStamp | src/parser.rs:208 | "qwe03:04:05rty" reads as 2000-01-01 03:04:05 |
| NameExamples.DateTimeJunkAroundStamp | src/parser.rs:209-213 | "qwe2020-02-03 03:04:05rty" reads as 2020-02-03 03:04:05 |
| NameExamples.DateTimeJunkBetweenStamp | src/parser.rs:214-218 | "qwe2020-02-03asd03:04:05rty" reads as 2020-02-03 03:04:05 |
| NameExamples.FullDateTimeMaxStamp | src/parser.rs:219-223 | "2199-12-31-23-59-59" reads as 2199-12-31 23:59:59 |
| NameExamples.YearThenTimeStamp | src/parser.rs:109-113 | "201530" reads as 2000-01-01 20:15:30: "2015" is a year but "30" no month, so the date alternative fails and the time alternative starts from the same position |
| NameExamples.OffCalendarStamp | src/parser.rs:86 | "2021-02-30" reads as the triple (2021, 2, 30), which no calendar has |
| Ranking.CmpNat | src/main.rs:18-19 | comparing two numbers gives `Less`, `Equal` or `Greater` exactly as `<`, `==` or `>` hold |
| Ranking.CmpString | src/main.rs:20 | `str::cmp`; stated by CmpStringLess, CmpStringEqual, CmpStringFlip and CmpStringTransitive |
| Ranking.CmpStringEqual | src/main.rs:20 | `str::cmp` gives `Equal` exactly on equal strings |
| Ranking.CmpStringFlip | src/main.rs:20 | swapping the strings reverses the answer |
| Ranking.CmpStringTransitive | src/main.rs:20 | "not greater" is transitive on strings |
| Ranking.CmpStringLess | src/main.rs:20 | `Less` exactly when the first string comes first in dictionary order: a proper prefix, or a smaller character after a common prefix |
| Ranking.BeforeAt | src/main.rs:20 | a common prefix followed by a break in the first string's favour gives `Less` |
| Ranking.CmpDate | src/main.rs:18-19 | `NaiveDate` order: year, then month, then day |
| Ranking.CmpTime | src/main.rs:18-19 | `NaiveTime` order: hour, then minute, then second |
| Ranking.CmpTimestamp | src/main.rs:18-19 | `NaiveDateTime` order, date first; stated by CmpTimestampEqual, CmpTimestampFlip and CmpTimestampTransitive |
| Ranking.CmpTimestampEqual | src/main.rs:18-19 | timestamps compare `Equal` exactly when they are equal |
| Ranking.CmpTimestampFlip | src/main.rs:18-19 | swapping the timestamps reverses the answer |
| Ranking.CmpTimestampTransitive | src/main.rs:18-19 | "not greater" is transitive on timestamps |
| Ranking.Cmp | src/main.rs:16-21 | `Entry::cmp`; stated by TimestampFirst, NameBreaksTies, CmpEqual and CmpTotalOrder |
| Ranking.PartialCmp | src/main.rs:24-28 | `Entry::partial_cmp`; stated by PartialCmpAgrees |
| Ranking.TimestampFirst | src/main.rs:17-19 | entries with different timestamps compare as their timestamps do, whatever their names, and never as `Equal` |
| Ranking.NameBreaksTies | src/main.rs:20 | entries with equal timestamps compare as their names do |
| Ranking.CmpEqual | src/main.rs:10-21 | `cmp` gives `Equal` exactly on entries the derived equality calls equal |
| Ranking.CmpFlip | src/main.rs:16-21 | swapping the entries reverses the answer |
| Ranking.CmpTotalOrder | src/main.rs:16-21 | `cmp` is reflexive, antisymmetric, transitive and total |
| Ranking.PartialCmpAgrees | src/main.rs:24-28 | `partial_cmp` is always `Some` with `cmp`'s answer, and is reversed by a swap |
| Ranking.Listing | src/main.rs:30-39 | the entries `get_listing` collects; stated by ListingMembers and ListingEmpty |
| Ranking.ListingMembers | src/main.rs:34-39 | the listing holds every non-empty name with its timestamp, and nothing else |
| Ranking.ListingEmpty | src/main.rs:34-39 | the listing is empty exactly when every name is empty, since only the empty name fails to parse |
| Ranking.SortedOrdered | src/main.rs:59 | a list sorted pair by pair is ordered between any two positions |
| Ranking.Sort | src/main.rs:58-59 | `list.sort()` leaves the array sorted under `cmp` and a permutation of what it held |
| Ranking.Insert | src/main.rs:59 | one insertion pass extends the sorted prefix by one entry, leaves the entries after it in place and keeps the same entries |
| Ranking.Swap | src/main.rs:59 | exchanges two neighbouring entries and nothing else |
| Ranking.GreatestUnique | src/main.rs:61-64 | at most one entry is the greatest, so the answer does not depend on how the sort arranges ties |
| Ranking.LastAfterSort | src/main.rs:58-69 | sort then `last()`: the array ends sorted and a permutation of what it held; nothing only for an empty list, otherwise the greatest entry of the original list |
| Ranking.LatestCommand | src/main.rs:57-69 | "No files matched." with status 1 exactly when no name parses; otherwise the name of the greatest entry of the listing |

## Left out

- Directory reading (`read_dir`) is left out as file-system I/O. So are the
  unreadable entries it skips and the conversion that drops names that are
  not valid UTF-8. The model takes the names as a sequence of strings.
- The command-line dispatch is left out as I/O. This covers the default
  command, the `debug` listing printout, and the unknown-command branch,
  which prints usage and exits with status 0. Printing and process exit
  are modelled only as the `Outcome` value.
- `NaiveDate::from_ymd` panics on a triple that is not a calendar date. The
  model does not model that panic. It keeps the raw `(year, month, day)`
  triple the validators produce. The validators admit month 00 and day 31
  in any month, so such names do reach that call. `CalendarDate` names the
  triples the call would accept, and `NameExamples.OffCalendarStamp`
  exhibits a name outside them.
- `NaiveDateTime` ordering is modelled as lexicographic order on the raw
  triples. This equals chrono's order on every triple chrono accepts.
- The combinators `alt`, `many1`, `many0_count`, `one_of` and `anychar` are
  modelled by their meaning on a cursor into the name, not by their code.
- Rust's stable merge sort is replaced by an insertion sort. Only what
  `sort` promises is relied on: the result is sorted and a permutation.
  Since `cmp` is a total order whose `Equal` means equal entries, stability
  makes no difference.
- The `parse error {:?}` message that `parse_file_name` formats is left out
  as debug-string formatting. Failure is modelled as a `ParseError`
  carrying the position.
- Ranking.LatestCommand: the ensures names the reported entry only through
  its name and its place as the greatest entry of `Listing(names)`. That
  entry's timestamp follows from `Ranking.ListingMembers`.
- NameExamples.TimeFound: requires that the time's first digits are not a
  year. That is sufficient for the time to be read, but not necessary.
  NameExamples.ScanAtTime states the exact condition, that no date starts
  there. NameExamples.YearThenTimeStamp covers a name outside the narrower
  condition.
- NameExamples.TimeToEnd: the same narrower condition, inherited from TimeFound.
- NameExamples.JunkTimeToEnd: the same narrower condition, inherited from TimeFound.
- NameExamples.DateTimeToEnd: the same narrower condition, inherited from TimeFound.
- NameExamples.TimeAmidJunk: the same narrower condition, inherited from TimeFound.
- NameExamples.DateTimeAmidJunk: the same narrower condition, inherited from TimeFound.
