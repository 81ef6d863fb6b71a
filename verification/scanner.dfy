/** The file-name scanner of `src/parser.rs` (`parse_file_internal`,
    `parse_file_name`). At each position it tries the date matcher, then
    the time matcher, then takes any single character, each alternative
    starting from the same position; it repeats until the input runs out
    and keeps the last date and the last time it saw. */
module Scanner {
  import opened Wrappers
  import opened Fields
  import opened Matchers

  /** One scanned piece of a name: the source's `DateTimePart`. `SepPart`
      stands for any single character that began neither a date nor a
      time. */
  datatype Part = DatePart(date: Date) | TimePart(time: Time) | SepPart

  /** The timestamp read from a name (the source's `NaiveDateTime`), kept
      as the raw date and time triples. */
  datatype Timestamp = Timestamp(date: Date, time: Time)

  /** The error `many1` reports when not even one part can be read; it
      carries the position it failed at. */
  datatype ParseError = ParseError(at: nat)

  const DefaultDate := Date(2000, 1, 1)

  const DefaultTime := Time(0, 0, 0)

  predicate PartValid(p: Part) {
    match p
    case DatePart(d) => ValidDate(d)
    case TimePart(t) => ValidTime(t)
    case SepPart => true
  }

  /** `alt((parse_calendar_date, parse_time, anychar))` at position `i`. It
      fails only at the end of the input, and otherwise always moves on. */
  function Step(s: string, i: nat): (r: Option<Parsed<Part>>)
    requires i <= |s|
    ensures r.None? <==> i == |s|
    ensures r.Some? ==> i < r.value.next <= |s| && PartValid(r.value.value)
  {
    var date := ParseCalendarDate(s, i);
    if date.Some? then Some(Parsed(DatePart(date.value.value), date.value.next)) else
    var time := ParseTime(s, i);
    if time.Some? then Some(Parsed(TimePart(time.value.value), time.value.next)) else
    if i < |s| then Some(Parsed(SepPart, i + 1)) else None
  }

  /** The parts read from position `i` to the end of the input, in scan
      order. */
  function Scan(s: string, i: nat): (parts: seq<Part>)
    requires i <= |s|
    ensures |parts| == 0 <==> i == |s|
    decreases |s| - i
  {
    match Step(s, i)
    case None => []
    case Some(step) => [step.value] + Scan(s, step.next)
  }

  /** Every part the scan reads is in range. */
  lemma {:induction false} ScanPartsValid(s: string, i: nat)
    requires i <= |s|
    ensures forall k | 0 <= k < |Scan(s, i)| :: PartValid(Scan(s, i)[k])
    decreases |s| - i
  {
    if i < |s| {
      ScanPartsValid(s, Step(s, i).value.next);
    }
  }

  /** The last date among `parts`, if any. */
  function LastDate(parts: seq<Part>): Option<Date> {
    if |parts| == 0 then None
    else if parts[|parts| - 1].DatePart? then Some(parts[|parts| - 1].date)
    else LastDate(parts[..|parts| - 1])
  }

  /** The last time among `parts`, if any. */
  function LastTime(parts: seq<Part>): Option<Time> {
    if |parts| == 0 then None
    else if parts[|parts| - 1].TimePart? then Some(parts[|parts| - 1].time)
    else LastTime(parts[..|parts| - 1])
  }

  /** The timestamp the scanner assembles from its parts: the last date and
      the last time, with 2000-01-01 and 00:00:00 standing in for a missing
      one. */
  function Stamp(parts: seq<Part>): Timestamp {
    Timestamp(LastDate(parts).GetOr(DefaultDate), LastTime(parts).GetOr(DefaultTime))
  }

  /** The timestamp of a name. */
  function NameStamp(name: string): Timestamp {
    Stamp(Scan(name, 0))
  }

  /** `LastDate` finds a date part with none after it, and finds nothing
      only when there is no date part at all. */
  lemma {:induction false} LastDateSpec(parts: seq<Part>)
    ensures LastDate(parts).Some? ==>
      exists k | 0 <= k < |parts| :: parts[k] == DatePart(LastDate(parts).value) &&
        forall j | k < j < |parts| :: !parts[j].DatePart?
    ensures LastDate(parts).None? <==> forall k | 0 <= k < |parts| :: !parts[k].DatePart?
  {
    if |parts| > 0 && !parts[|parts| - 1].DatePart? {
      var init := parts[..|parts| - 1];
      LastDateSpec(init);
      assert forall k | 0 <= k < |init| :: init[k] == parts[k];
    }
  }

  /** `LastTime` finds a time part with none after it, and finds nothing
      only when there is no time part at all. */
  lemma {:induction false} LastTimeSpec(parts: seq<Part>)
    ensures LastTime(parts).Some? ==>
      exists k | 0 <= k < |parts| :: parts[k] == TimePart(LastTime(parts).value) &&
        forall j | k < j < |parts| :: !parts[j].TimePart?
    ensures LastTime(parts).None? <==> forall k | 0 <= k < |parts| :: !parts[k].TimePart?
  {
    if |parts| > 0 && !parts[|parts| - 1].TimePart? {
      var init := parts[..|parts| - 1];
      LastTimeSpec(init);
      assert forall k | 0 <= k < |init| :: init[k] == parts[k];
    }
  }

  /** Last match wins across a split: the last date of `a + b` is the last
      date of `b`, or of `a` when `b` has none. */
  lemma {:induction false} LastDateConcat(a: seq<Part>, b: seq<Part>)
    ensures LastDate(a + b) == if LastDate(b).Some? then LastDate(b) else LastDate(a)
    decreases |b|
  {
    if |b| > 0 {
      assert (a + b)[..|a + b| - 1] == a + b[..|b| - 1];
      LastDateConcat(a, b[..|b| - 1]);
    } else {
      assert a + b == a;
    }
  }

  /** Last match wins across a split, for times. */
  lemma {:induction false} LastTimeConcat(a: seq<Part>, b: seq<Part>)
    ensures LastTime(a + b) == if LastTime(b).Some? then LastTime(b) else LastTime(a)
    decreases |b|
  {
    if |b| > 0 {
      assert (a + b)[..|a + b| - 1] == a + b[..|b| - 1];
      LastTimeConcat(a, b[..|b| - 1]);
    } else {
      assert a + b == a;
    }
  }

  /** `n` characters that each began neither a date nor a time. */
  function SepParts(n: nat): (r: seq<Part>)
    ensures |r| == n
  {
    if n == 0 then [] else [SepPart] + SepParts(n - 1)
  }

  /** Skipped characters hold neither a date nor a time. */
  lemma {:induction false} SepPartsHoldNothing(n: nat)
    ensures LastDate(SepParts(n)) == None && LastTime(SepParts(n)) == None
  {
    if n > 0 {
      SepPartsHoldNothing(n - 1);
      LastDateConcat([SepPart], SepParts(n - 1));
      LastTimeConcat([SepPart], SepParts(n - 1));
      assert [SepPart][..0] == [];
    }
  }

  /** Skipped characters do not affect the timestamp, wherever they sit. */
  lemma StampIgnoresSepParts(a: seq<Part>, n: nat, b: seq<Part>)
    ensures Stamp(a + SepParts(n) + b) == Stamp(a + b)
  {
    SepPartsHoldNothing(n);
    LastDateConcat(a, SepParts(n));
    LastTimeConcat(a, SepParts(n));
    LastDateConcat(a + SepParts(n), b);
    LastTimeConcat(a + SepParts(n), b);
    LastDateConcat(a, b);
    LastTimeConcat(a, b);
  }

  /** Skipped parts in front of `rest` change neither the last date nor
      the last time. */
  lemma SepPartsInFront(n: nat, whole: seq<Part>, rest: seq<Part>)
    requires whole == SepParts(n) + rest
    ensures LastDate(whole) == LastDate(rest) && LastTime(whole) == LastTime(rest)
  {
    SepPartsHoldNothing(n);
    LastDateConcat(SepParts(n), rest);
    LastTimeConcat(SepParts(n), rest);
  }

  /** Whatever the name, its timestamp has every field in range: the date
      fields within the digit patterns, and a time no later than 23:59:59. */
  lemma NameStampValid(name: string)
    ensures ValidDate(NameStamp(name).date) && ValidTime(NameStamp(name).time)
    ensures NameStamp(name).time.hour <= 23 && NameStamp(name).time.minute <= 59
    ensures NameStamp(name).time.second <= 59
  {
    var parts := Scan(name, 0);
    ScanPartsValid(name, 0);
    LastDateSpec(parts);
    LastTimeSpec(parts);
    if LastDate(parts).Some? {
      var k :| 0 <= k < |parts| && parts[k] == DatePart(LastDate(parts).value);
      assert PartValid(parts[k]);
    }
    if LastTime(parts).Some? {
      var k :| 0 <= k < |parts| && parts[k] == TimePart(LastTime(parts).value);
      assert PartValid(parts[k]);
    }
  }

  /** The scan from a position inside the name is the part read there,
      then the scan from where that part ends. */
  lemma ScanUnfold(s: string, i: nat)
    requires i < |s|
    ensures Scan(s, i) == [Step(s, i).value.value] + Scan(s, Step(s, i).value.next)
  {
  }

  /** The `many1` loop of `parse_file_internal`: reads parts until the
      part parser fails, which happens only at the end of the input. */
  method ReadParts(name: string) returns (parts: seq<Part>, i: nat)
    ensures parts == Scan(name, 0) && i == |name|
  {
    i := 0;
    parts := [];
    while true
      invariant i <= |name| && parts + Scan(name, i) == Scan(name, 0)
      decreases |name| - i
    {
      var step := Step(name, i);
      if step.None? {
        break;
      }
      ScanUnfold(name, i);
      parts := parts + [step.value.value];
      i := step.value.next;
    }
  }

  /** The `for` loop of `parse_file_internal`: each date part overwrites
      the date slot and each time part the time slot. */
  method LastParts(parts: seq<Part>) returns (date: Option<Date>, time: Option<Time>)
    ensures date == LastDate(parts) && time == LastTime(parts)
  {
    date, time := None, None;
    for k := 0 to |parts|
      invariant date == LastDate(parts[..k]) && time == LastTime(parts[..k])
    {
      assert parts[..k + 1][..k] == parts[..k];
      match parts[k]
      case DatePart(d) => date := Some(d);
      case TimePart(t) => time := Some(t);
      case SepPart =>
    }
    assert parts[..|parts|] == parts;
  }

  /** `parse_file_internal`: `many1` of the part parser, then the pass that
      keeps the last date and time, then the defaults. It fails exactly on
      the empty name, and otherwise consumes the whole name. */
  method ParseFileInternal(name: string) returns (r: Result<Parsed<Timestamp>, ParseError>)
    ensures r.Failure? <==> |name| == 0
    ensures r.Failure? ==> r.error == ParseError(0)
    ensures r.Success? ==> r.value == Parsed(NameStamp(name), |name|)
  {
    var parts, i := ReadParts(name);
    if |parts| == 0 {
      return Failure(ParseError(i));
    }
    var date, time := LastParts(parts);
    r := Success(Parsed(Timestamp(date.GetOr(DefaultDate), time.GetOr(DefaultTime)), i));
  }

  /** `parse_file_name`: the timestamp of a non-empty name, and an error
      for the empty one. */
  method ParseFileName(name: string) returns (r: Result<Timestamp, ParseError>)
    ensures r.Success? <==> |name| > 0
    ensures r.Success? ==> r.value == NameStamp(name)
  {
    var internal := ParseFileInternal(name);
    match internal
    case Success(parsed) => r := Success(parsed.value);
    case Failure(e) => r := Failure(e);
  }
}
