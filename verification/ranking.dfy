/** The ranking layer of `src/main.rs`: an `Entry` pairs a file name with
    the timestamp read from it; entries are ordered by timestamp and then
    by name; the listing keeps the names that parse; `latest` sorts the
    listing and reports the last entry, or fails when there is none. */
module Ranking {
  import opened Wrappers
  import opened Matchers
  import opened Scanner

  /** `std::cmp::Ordering`. */
  datatype Ordering = Less | Equal | Greater {
    /** The ordering seen from the other side. */
    function Reverse(): Ordering {
      match this
      case Less => Greater
      case Equal => Equal
      case Greater => Less
    }

    /** `Ordering::then_with`: this ordering, unless it is `Equal`. */
    function ThenWith(next: Ordering): Ordering {
      if this == Equal then next else this
    }
  }

  function CmpNat(a: nat, b: nat): (o: Ordering)
    ensures o == Less <==> a < b
    ensures o == Equal <==> a == b
    ensures o == Greater <==> a > b
  {
    if a < b then Less else if b < a then Greater else Equal
  }

  /** `str::cmp`: lexicographic, character by character, a proper prefix
      coming first (see CmpStringLess). */
  function CmpString(a: string, b: string): Ordering
    decreases |a|
  {
    if |a| == 0 then (if |b| == 0 then Equal else Less)
    else if |b| == 0 then Greater
    else if a[0] < b[0] then Less
    else if b[0] < a[0] then Greater
    else CmpString(a[1..], b[1..])
  }

  /** `a` comes before `b` in dictionary order: after a common prefix of
      length `k`, either `a` has ended and `b` has not, or both go on and
      `a`'s next character is smaller. */
  predicate StrBefore(a: string, b: string) {
    exists k | 0 <= k <= |a| && k <= |b| :: a[..k] == b[..k] && BreaksAt(a, b, k)
  }

  predicate BreaksAt(a: string, b: string, k: nat)
    requires k <= |a| && k <= |b|
  {
    if k == |a| then k < |b| else k < |b| && a[k] < b[k]
  }

  lemma {:induction false} CmpStringEqual(a: string, b: string)
    ensures CmpString(a, b) == Equal <==> a == b
    decreases |a|
  {
    if |a| > 0 && |b| > 0 && a[0] == b[0] {
      CmpStringEqual(a[1..], b[1..]);
      assert a == [a[0]] + a[1..] && b == [b[0]] + b[1..];
    }
  }

  lemma {:induction false} CmpStringFlip(a: string, b: string)
    ensures CmpString(b, a) == CmpString(a, b).Reverse()
    decreases |a|
  {
    if |a| > 0 && |b| > 0 && a[0] == b[0] {
      CmpStringFlip(a[1..], b[1..]);
    }
  }

  lemma {:induction false} CmpStringTransitive(a: string, b: string, c: string)
    ensures CmpString(a, b) != Greater && CmpString(b, c) != Greater ==> CmpString(a, c) != Greater
    decreases |a|
  {
    if |a| > 0 && |b| > 0 && |c| > 0 && a[0] == b[0] && b[0] == c[0] {
      CmpStringTransitive(a[1..], b[1..], c[1..]);
    }
  }

  /** The comparison says `Less` exactly when `a` comes first in dictionary
      order. */
  lemma {:induction false} CmpStringLess(a: string, b: string)
    ensures CmpString(a, b) == Less <==> StrBefore(a, b)
    decreases |a|
  {
    if CmpString(a, b) == Less {
      if |a| == 0 || a[0] < b[0] {
        assert a[..0] == b[..0] && BreaksAt(a, b, 0);
      } else {
        CmpStringLess(a[1..], b[1..]);
        var k :| 0 <= k <= |a[1..]| && k <= |b[1..]| && a[1..][..k] == b[1..][..k] && BreaksAt(a[1..], b[1..], k);
        assert a[..k + 1] == [a[0]] + a[1..][..k];
        assert b[..k + 1] == [b[0]] + b[1..][..k];
        assert BreaksAt(a, b, k + 1);
      }
    }
    if StrBefore(a, b) {
      var k :| 0 <= k <= |a| && k <= |b| && a[..k] == b[..k] && BreaksAt(a, b, k);
      BeforeAt(a, b, k);
    }
  }

  lemma {:induction false} BeforeAt(a: string, b: string, k: nat)
    requires k <= |a| && k <= |b| && a[..k] == b[..k] && BreaksAt(a, b, k)
    ensures CmpString(a, b) == Less
    decreases k
  {
    if k > 0 {
      assert a[0] == a[..k][0] == b[..k][0] == b[0];
      assert a[1..][..k - 1] == a[..k][1..] == b[..k][1..] == b[1..][..k - 1];
      BeforeAt(a[1..], b[1..], k - 1);
    }
  }

  /** `NaiveDate::cmp` on the raw triples: year, then month, then day. */
  function CmpDate(a: Date, b: Date): Ordering {
    CmpNat(a.year, b.year).ThenWith(CmpNat(a.month, b.month)).ThenWith(CmpNat(a.day, b.day))
  }

  /** `NaiveTime::cmp`: hour, then minute, then second. */
  function CmpTime(a: Time, b: Time): Ordering {
    CmpNat(a.hour, b.hour).ThenWith(CmpNat(a.minute, b.minute)).ThenWith(CmpNat(a.second, b.second))
  }

  /** `NaiveDateTime::cmp`: the date, then the time. */
  function CmpTimestamp(a: Timestamp, b: Timestamp): Ordering {
    CmpDate(a.date, b.date).ThenWith(CmpTime(a.time, b.time))
  }

  lemma CmpTimestampEqual(a: Timestamp, b: Timestamp)
    ensures CmpTimestamp(a, b) == Equal <==> a == b
  {
  }

  lemma CmpTimestampFlip(a: Timestamp, b: Timestamp)
    ensures CmpTimestamp(b, a) == CmpTimestamp(a, b).Reverse()
  {
  }

  lemma CmpTimestampTransitive(a: Timestamp, b: Timestamp, c: Timestamp)
    ensures CmpTimestamp(a, b) != Greater && CmpTimestamp(b, c) != Greater ==> CmpTimestamp(a, c) != Greater
  {
  }

  /** One file of the listing: its name and the timestamp read from it. */
  datatype Entry = Entry(name: string, date: Timestamp)

  /** `Entry::cmp`: by timestamp, and by name between equal timestamps. */
  function Cmp(a: Entry, b: Entry): Ordering {
    CmpTimestamp(a.date, b.date).ThenWith(CmpString(a.name, b.name))
  }

  /** `Entry::partial_cmp`: always defined. */
  function PartialCmp(a: Entry, b: Entry): Option<Ordering> {
    Some(Cmp(a, b))
  }

  /** `a <= b` under `Entry::cmp`. */
  predicate Le(a: Entry, b: Entry) {
    Cmp(a, b) != Greater
  }

  /** Timestamps decide first: entries with different timestamps compare
      as their timestamps do, whatever their names. */
  lemma TimestampFirst(a: Entry, b: Entry)
    ensures a.date != b.date ==> Cmp(a, b) == CmpTimestamp(a.date, b.date) && Cmp(a, b) != Equal
  {
    CmpTimestampEqual(a.date, b.date);
  }

  /** Names break ties between equal timestamps. */
  lemma NameBreaksTies(a: Entry, b: Entry)
    ensures a.date == b.date ==> Cmp(a, b) == CmpString(a.name, b.name)
  {
    CmpTimestampEqual(a.date, b.date);
  }

  /** `cmp` agrees with the derived equality: `Equal` exactly on equal
      entries. */
  lemma CmpEqual(a: Entry, b: Entry)
    ensures Cmp(a, b) == Equal <==> a == b
  {
    CmpTimestampEqual(a.date, b.date);
    CmpStringEqual(a.name, b.name);
  }

  lemma CmpFlip(a: Entry, b: Entry)
    ensures Cmp(b, a) == Cmp(a, b).Reverse()
  {
    CmpTimestampFlip(a.date, b.date);
    CmpStringFlip(a.name, b.name);
  }

  /** `cmp` is a total order: reflexive, antisymmetric, transitive and
      total. */
  lemma CmpTotalOrder(a: Entry, b: Entry, c: Entry)
    ensures Le(a, a)
    ensures Le(a, b) && Le(b, a) ==> a == b
    ensures Le(a, b) && Le(b, c) ==> Le(a, c)
    ensures Le(a, b) || Le(b, a)
  {
    CmpEqual(a, a);
    CmpEqual(a, b);
    CmpFlip(a, b);
    CmpTimestampEqual(a.date, b.date);
    CmpTimestampEqual(b.date, c.date);
    CmpTimestampEqual(a.date, c.date);
    CmpTimestampFlip(a.date, b.date);
    CmpTimestampTransitive(a.date, b.date, c.date);
    CmpStringTransitive(a.name, b.name, c.name);
  }

  /** `partial_cmp` is always `Some`, and holds `cmp`'s answer. */
  lemma PartialCmpAgrees(a: Entry, b: Entry)
    ensures PartialCmp(a, b).Some? && PartialCmp(a, b).value == Cmp(a, b)
    ensures PartialCmp(b, a).value == PartialCmp(a, b).value.Reverse()
  {
    CmpFlip(a, b);
  }

  /** `get_listing` after the directory read: each name the parser accepts
      becomes an entry, in listing order; the others are dropped (see
      ListingMembers). */
  function Listing(names: seq<string>): seq<Entry> {
    if |names| == 0 then []
    else if |names[0]| > 0 then [Entry(names[0], NameStamp(names[0]))] + Listing(names[1..])
    else Listing(names[1..])
  }

  /** The listing holds, for each non-empty name and nothing else, that
      name with the timestamp read from it. */
  lemma {:induction false} ListingMembers(names: seq<string>)
    ensures forall e | e in Listing(names) :: e.name in names && |e.name| > 0 && e.date == NameStamp(e.name)
    ensures forall n | n in names && |n| > 0 :: Entry(n, NameStamp(n)) in Listing(names)
  {
    if |names| > 0 {
      ListingMembers(names[1..]);
      assert names == [names[0]] + names[1..];
    }
  }

  /** The listing is empty exactly when no name parses, that is, when
      every name is empty. */
  lemma {:induction false} ListingEmpty(names: seq<string>)
    ensures |Listing(names)| == 0 <==> forall n | n in names :: |n| == 0
  {
    if exists n | n in names :: |n| > 0 {
      var n :| n in names && |n| > 0;
      ListingMembers(names);
      assert Entry(n, NameStamp(n)) in Listing(names);
    } else if |names| > 0 {
      ListingEmpty(names[1..]);
      assert forall n | n in names[1..] :: n in names;
    }
  }

  /** Non-decreasing under `Entry::cmp`, each entry against the next. */
  predicate Sorted(s: seq<Entry>) {
    forall k | 0 < k < |s| :: Le(s[k - 1], s[k])
  }

  /** A sorted sequence is ordered between any two positions, not only
      neighbouring ones. */
  lemma {:induction false} SortedOrdered(s: seq<Entry>, i: nat, j: nat)
    requires Sorted(s) && i <= j < |s|
    ensures Le(s[i], s[j])
    decreases j - i
  {
    if i == j {
      CmpEqual(s[i], s[i]);
    } else {
      SortedOrdered(s, i + 1, j);
      CmpTotalOrder(s[i], s[i + 1], s[j]);
    }
  }

  /** `list.sort()`, as an insertion sort: afterwards the list is sorted and
      holds the same entries. */
  method Sort(a: array<Entry>)
    modifies a
    ensures Sorted(a[..])
    ensures multiset(a[..]) == multiset(old(a[..]))
  {
    var i := 0;
    while i < a.Length
      invariant 0 <= i <= a.Length
      invariant Sorted(a[..i])
      invariant multiset(a[..]) == multiset(old(a[..]))
    {
      Insert(a, i);
      i := i + 1;
    }
    assert a[..a.Length] == a[..];
  }

  /** One pass of the insertion sort: moves `a[i]` down into the sorted
      prefix `a[..i]`. */
  method Insert(a: array<Entry>, i: nat)
    requires i < a.Length && Sorted(a[..i])
    modifies a
    ensures Sorted(a[..i + 1])
    ensures a[i + 1..] == old(a[i + 1..])
    ensures multiset(a[..]) == multiset(old(a[..]))
  {
    var j := i;
    while j > 0 && Cmp(a[j - 1], a[j]) == Greater
      invariant 0 <= j <= i
      invariant forall k | 0 < k <= i && k != j :: Le(a[k - 1], a[k])
      invariant 0 < j < i ==> Le(a[j - 1], a[j + 1])
      invariant a[i + 1..] == old(a[i + 1..])
      invariant multiset(a[..]) == multiset(old(a[..]))
    {
      CmpFlip(a[j - 1], a[j]);
      Swap(a, j);
      j := j - 1;
    }
  }

  /** Exchanges `a[j - 1]` and `a[j]`. */
  method Swap(a: array<Entry>, j: nat)
    requires 0 < j < a.Length
    modifies a
    ensures a[..] == old(a[..])[j - 1 := old(a[j])][j := old(a[j - 1])]
    ensures multiset(a[..]) == multiset(old(a[..]))
  {
    a[j - 1], a[j] := a[j], a[j - 1];
  }

  /** `e` is in `s` and no entry of `s` is above it. */
  predicate Greatest(e: Entry, s: seq<Entry>) {
    e in s && forall x | x in s :: Le(x, e)
  }

  /** There is at most one greatest entry, so "the latest" does not depend
      on how the sort arranges the list. */
  lemma GreatestUnique(s: seq<Entry>, e1: Entry, e2: Entry)
    requires Greatest(e1, s) && Greatest(e2, s)
    ensures e1 == e2
  {
    CmpTotalOrder(e1, e2, e2);
  }

  /** The `latest` branch of `main`: sort, then take the last entry. It is
      the greatest entry of the list, and there is none only when the list
      is empty. */
  method LastAfterSort(a: array<Entry>) returns (r: Option<Entry>)
    modifies a
    ensures Sorted(a[..]) && multiset(a[..]) == multiset(old(a[..]))
    ensures r.None? <==> a.Length == 0
    ensures r.Some? ==> Greatest(r.value, old(a[..]))
  {
    Sort(a);
    if a.Length == 0 {
      return None;
    }
    var last := a[a.Length - 1];
    forall x | x in old(a[..])
      ensures Le(x, last)
    {
      assert x in multiset(a[..]);
      var k :| 0 <= k < a.Length && a[k] == x;
      SortedOrdered(a[..], k, a.Length - 1);
    }
    assert last in multiset(old(a[..]));
    r := Some(last);
  }

  /** What `ddir latest` reports: the name of the latest entry, or the
      "No files matched." error with exit status 1. */
  datatype Outcome = Latest(name: string) | NoMatch(message: string, status: int)

  const NoMatchMessage := "No files matched."

  /** `ddir latest` over the names of a directory. */
  method LatestCommand(names: seq<string>) returns (out: Outcome)
    ensures out.NoMatch? <==> forall n | n in names :: |n| == 0
    ensures out.NoMatch? ==> out == NoMatch(NoMatchMessage, 1)
    ensures out.Latest? ==> exists e | Greatest(e, Listing(names)) :: e.name == out.name
  {
    var entries := Listing(names);
    var list := new Entry[|entries|](k requires 0 <= k < |entries| => entries[k]);
    assert list[..] == entries;
    var last := LastAfterSort(list);
    ListingEmpty(names);
    match last
    case None =>
      out := NoMatch(NoMatchMessage, 1);
    case Some(e) =>
      out := Latest(e.name);
  }
}
