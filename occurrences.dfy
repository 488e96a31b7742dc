/** What getDateList produces: a year's pass is a left fold over the year's
    candidate minutes in loop order, so it returns the first $maxSize matching
    future minutes in chronological order; the recursion stacks later years in
    front. */
module Occurrences {
  import opened Results
  import opened Calendar
  import opened FieldParser
  import opened WeekMap
  import opened Text
  import opened Validator
  import opened Enumerator

  // ---------------------------------------------------------------------------
  // The candidates of a year, in the order the four loops visit them

  function MinuteCands(y: int, m: MonthNumber, d: int, h: int, ms: seq<int>): seq<Stamp> {
    if |ms| == 0 then []
    else MinuteCands(y, m, d, h, ms[..|ms| - 1]) + [Stamp(y, m, d, h, ms[|ms| - 1])]
  }

  function HourCands(q: Query, y: int, m: MonthNumber, d: int, hs: seq<int>): seq<Stamp> {
    if |hs| == 0 then []
    else HourCands(q, y, m, d, hs[..|hs| - 1]) + MinuteCands(y, m, d, hs[|hs| - 1], q.cron.minutes)
  }

  function DayCands(q: Query, y: int, m: MonthNumber, n: int): seq<Stamp>
    decreases n
  {
    if n <= 0 then []
    else DayCands(q, y, m, n - 1) + HourCands(q, y, m, n, q.cron.hours)
  }

  function MonthCands(q: Query, y: int, ms: seq<MonthNumber>): seq<Stamp> {
    if |ms| == 0 then []
    else
      var m := ms[|ms| - 1];
      MonthCands(q, y, ms[..|ms| - 1]) + DayCands(q, y, m, DaysInMonth(m, y))
  }

  function YearCands(q: Query, y: int): seq<Stamp> {
    MonthCands(q, y, q.cron.months)
  }

  /** The flat fold of the loop body over a candidate list. */
  function Scan(q: Query, acc: Acc, cs: seq<Stamp>): Acc {
    if |cs| == 0 then acc
    else Visit(q, Scan(q, acc, cs[..|cs| - 1]), cs[|cs| - 1])
  }

  lemma {:induction false} ScanAppend(q: Query, acc: Acc, xs: seq<Stamp>, ys: seq<Stamp>)
    ensures Scan(q, acc, xs + ys) == Scan(q, Scan(q, acc, xs), ys)
    decreases |ys|
  {
    if |ys| == 0 {
      assert xs + ys == xs;
    } else {
      var p := ys[..|ys| - 1];
      assert (xs + ys)[..|xs + ys| - 1] == xs + p;
      ScanAppend(q, acc, xs, p);
    }
  }

  lemma {:induction false} MinutesAsScan(q: Query, acc: Acc, y: int, m: MonthNumber, d: int, h: int, ms: seq<int>)
    ensures ScanMinutes(q, acc, y, m, d, h, ms) == Scan(q, acc, MinuteCands(y, m, d, h, ms))
    decreases |ms|
  {
    if |ms| > 0 {
      var p := ms[..|ms| - 1];
      MinutesAsScan(q, acc, y, m, d, h, p);
      ScanAppend(q, acc, MinuteCands(y, m, d, h, p), [Stamp(y, m, d, h, ms[|ms| - 1])]);
    }
  }

  lemma {:induction false} HoursAsScan(q: Query, acc: Acc, y: int, m: MonthNumber, d: int, hs: seq<int>)
    ensures ScanHours(q, acc, y, m, d, hs) == Scan(q, acc, HourCands(q, y, m, d, hs))
    decreases |hs|
  {
    if |hs| > 0 {
      var p := hs[..|hs| - 1];
      HoursAsScan(q, acc, y, m, d, p);
      MinutesAsScan(q, ScanHours(q, acc, y, m, d, p), y, m, d, hs[|hs| - 1], q.cron.minutes);
      ScanAppend(q, acc, HourCands(q, y, m, d, p), MinuteCands(y, m, d, hs[|hs| - 1], q.cron.minutes));
    }
  }

  lemma {:induction false} DaysAsScan(q: Query, acc: Acc, y: int, m: MonthNumber, n: int)
    ensures ScanDays(q, acc, y, m, n) == Scan(q, acc, DayCands(q, y, m, n))
    decreases n
  {
    if n > 0 {
      DaysAsScan(q, acc, y, m, n - 1);
      HoursAsScan(q, ScanDays(q, acc, y, m, n - 1), y, m, n, q.cron.hours);
      ScanAppend(q, acc, DayCands(q, y, m, n - 1), HourCands(q, y, m, n, q.cron.hours));
    }
  }

  lemma {:induction false} MonthsAsScan(q: Query, acc: Acc, y: int, ms: seq<MonthNumber>)
    ensures ScanMonths(q, acc, y, ms) == Scan(q, acc, MonthCands(q, y, ms))
    decreases |ms|
  {
    if |ms| > 0 {
      var p := ms[..|ms| - 1];
      var m := ms[|ms| - 1];
      MonthsAsScan(q, acc, y, p);
      DaysAsScan(q, ScanMonths(q, acc, y, p), y, m, DaysInMonth(m, y));
      ScanAppend(q, acc, MonthCands(q, y, p), DayCands(q, y, m, DaysInMonth(m, y)));
    }
  }

  /** A year's pass is the flat fold over the year's candidates. */
  lemma YearPassAsScan(q: Query, y: int)
    ensures YearPass(q, y) == Scan(q, Acc([], false), YearCands(q, y)).dates
  {
    MonthsAsScan(q, Acc([], false), y, q.cron.months);
  }

  // ---------------------------------------------------------------------------
  // Which minutes the candidates are, and their order

  /** Chronologically ascending. */
  predicate Ascending(cs: seq<Stamp>) {
    forall i, j :: 0 <= i < j < |cs| ==> Before(cs[i], cs[j])
  }

  /** The parsed minute, hour and month lists are ascending, as parseTag returns them. */
  predicate SortedFields(q: Query) {
    StrictlySorted(q.cron.minutes) && StrictlySorted(q.cron.hours) && StrictlySorted(q.cron.months)
  }

  /** A minute the loops of year y visit: a month, hour and minute of the
      parsed lists, and a day that exists in that month. */
  predicate Candidate(q: Query, y: int, x: Stamp) {
    && x.year == y
    && x.month in q.cron.months
    && 1 <= x.day <= DaysInMonth(x.month, y)
    && x.hour in q.cron.hours
    && x.minute in q.cron.minutes
  }

  lemma AscendingConcat(a: seq<Stamp>, b: seq<Stamp>)
    requires Ascending(a) && Ascending(b)
    requires forall i, j :: 0 <= i < |a| && 0 <= j < |b| ==> Before(a[i], b[j])
    ensures Ascending(a + b)
  {
    var c := a + b;
    forall i, j | 0 <= i < j < |c| ensures Before(c[i], c[j]) {
      if j < |a| {
        assert c[i] == a[i] && c[j] == a[j];
      } else if i >= |a| {
        assert c[i] == b[i - |a|] && c[j] == b[j - |a|];
      } else {
        assert c[i] == a[i] && c[j] == b[j - |a|];
      }
    }
  }

  /** The last element of an ascending list exceeds all others. */
  lemma SortedLast(s: seq<int>, v: int)
    requires StrictlySorted(s) && |s| > 0
    ensures StrictlySorted(s[..|s| - 1])
    ensures v in s[..|s| - 1] ==> v < s[|s| - 1]
  {
  }

  lemma {:induction false} MinuteCandsSpec(y: int, m: MonthNumber, d: int, h: int, ms: seq<int>)
    ensures forall x :: x in MinuteCands(y, m, d, h, ms) <==>
      x.year == y && x.month == m && x.day == d && x.hour == h && x.minute in ms
    ensures StrictlySorted(ms) ==> Ascending(MinuteCands(y, m, d, h, ms))
    decreases |ms|
  {
    if |ms| > 0 {
      var p := ms[..|ms| - 1];
      var last := ms[|ms| - 1];
      MinuteCandsSpec(y, m, d, h, p);
      assert ms == p + [last];
      if StrictlySorted(ms) {
        forall i | 0 <= i < |MinuteCands(y, m, d, h, p)|
          ensures Before(MinuteCands(y, m, d, h, p)[i], Stamp(y, m, d, h, last))
        {
          var x := MinuteCands(y, m, d, h, p)[i];
          assert x in MinuteCands(y, m, d, h, p);
          SortedLast(ms, x.minute);
        }
        SortedLast(ms, last);
        AscendingConcat(MinuteCands(y, m, d, h, p), [Stamp(y, m, d, h, last)]);
      }
    }
  }

  lemma {:induction false} HourCandsSpec(q: Query, y: int, m: MonthNumber, d: int, hs: seq<int>)
    ensures forall x :: x in HourCands(q, y, m, d, hs) <==>
      x.year == y && x.month == m && x.day == d && x.hour in hs && x.minute in q.cron.minutes
    ensures StrictlySorted(hs) && StrictlySorted(q.cron.minutes) ==> Ascending(HourCands(q, y, m, d, hs))
    decreases |hs|
  {
    if |hs| > 0 {
      var p := hs[..|hs| - 1];
      var last := hs[|hs| - 1];
      var a := HourCands(q, y, m, d, p);
      var b := MinuteCands(y, m, d, last, q.cron.minutes);
      HourCandsSpec(q, y, m, d, p);
      MinuteCandsSpec(y, m, d, last, q.cron.minutes);
      assert hs == p + [last];
      if StrictlySorted(hs) && StrictlySorted(q.cron.minutes) {
        SortedLast(hs, last);
        forall i, j | 0 <= i < |a| && 0 <= j < |b| ensures Before(a[i], b[j]) {
          assert a[i] in a && b[j] in b;
          SortedLast(hs, a[i].hour);
        }
        AscendingConcat(a, b);
      }
    }
  }

  lemma {:induction false} DayCandsSpec(q: Query, y: int, m: MonthNumber, n: int)
    ensures forall x :: x in DayCands(q, y, m, n) <==>
      x.year == y && x.month == m && 1 <= x.day <= n && x.hour in q.cron.hours && x.minute in q.cron.minutes
    ensures StrictlySorted(q.cron.hours) && StrictlySorted(q.cron.minutes) ==> Ascending(DayCands(q, y, m, n))
    decreases n
  {
    if n > 0 {
      var a := DayCands(q, y, m, n - 1);
      var b := HourCands(q, y, m, n, q.cron.hours);
      DayCandsSpec(q, y, m, n - 1);
      HourCandsSpec(q, y, m, n, q.cron.hours);
      if StrictlySorted(q.cron.hours) && StrictlySorted(q.cron.minutes) {
        forall i, j | 0 <= i < |a| && 0 <= j < |b| ensures Before(a[i], b[j]) {
          assert a[i] in a && b[j] in b;
        }
        AscendingConcat(a, b);
      }
    }
  }

  lemma {:induction false} MonthCandsMembers(q: Query, y: int, ms: seq<MonthNumber>)
    ensures forall x :: x in MonthCands(q, y, ms) <==>
      && x.year == y && x.month in ms && 1 <= x.day <= DaysInMonth(x.month, y)
      && x.hour in q.cron.hours && x.minute in q.cron.minutes
    decreases |ms|
  {
    if |ms| > 0 {
      var p := ms[..|ms| - 1];
      var last := ms[|ms| - 1];
      MonthCandsMembers(q, y, p);
      DayCandsSpec(q, y, last, DaysInMonth(last, y));
      assert ms == p + [last];
      assert forall v :: v in ms <==> v in p || v == last;
    }
  }

  lemma {:induction false} MonthCandsAscending(q: Query, y: int, ms: seq<MonthNumber>)
    requires StrictlySorted(ms) && StrictlySorted(q.cron.hours) && StrictlySorted(q.cron.minutes)
    ensures Ascending(MonthCands(q, y, ms))
    decreases |ms|
  {
    if |ms| > 0 {
      var p := ms[..|ms| - 1];
      var last := ms[|ms| - 1];
      var a := MonthCands(q, y, p);
      var b := DayCands(q, y, last, DaysInMonth(last, y));
      SortedLast(ms, last);
      MonthCandsAscending(q, y, p);
      MonthCandsMembers(q, y, p);
      DayCandsSpec(q, y, last, DaysInMonth(last, y));
      forall i, j | 0 <= i < |a| && 0 <= j < |b| ensures Before(a[i], b[j]) {
        assert a[i] in a && b[j] in b;
        SortedLast(ms, a[i].month);
      }
      AscendingConcat(a, b);
    }
  }

  /** The candidates of year y are exactly the minutes the parsed lists allow
      on days that exist, and with ascending lists they come in
      chronological order. */
  lemma YearCandsSpec(q: Query, y: int)
    ensures forall x :: x in YearCands(q, y) <==> Candidate(q, y, x)
    ensures SortedFields(q) ==> Ascending(YearCands(q, y))
  {
    MonthCandsMembers(q, y, q.cron.months);
    if SortedFields(q) {
      MonthCandsAscending(q, y, q.cron.months);
    }
  }

  // ---------------------------------------------------------------------------
  // The fold keeps the first $maxSize matching future minutes

  /** A candidate the loop body keeps: strictly after now, and included. */
  predicate Matches(q: Query, c: Stamp) {
    Before(q.now, c) && Included(q, c)
  }

  /** The matching candidates of a list, in order. */
  function Matching(q: Query, cs: seq<Stamp>): seq<Stamp> {
    if |cs| == 0 then []
    else Matching(q, cs[..|cs| - 1]) + (if Matches(q, cs[|cs| - 1]) then [cs[|cs| - 1]] else [])
  }

  /** The first n elements of a list, or all of it when it is shorter. */
  function Take(xs: seq<Stamp>, n: nat): (r: seq<Stamp>)
    ensures |r| <= n && r <= xs
    ensures |xs| <= n ==> r == xs
  {
    if n < |xs| then xs[..n] else xs
  }

  lemma AscendingDistinct(cs: seq<Stamp>)
    requires Ascending(cs)
    ensures Distinct(cs)
  {
    forall i, j | 0 <= i < j < |cs| ensures cs[i] != cs[j] {
      BeforeIsStrictOrder(cs[i], cs[j], cs[j]);
    }
  }

  lemma {:induction false} MatchingSpec(q: Query, cs: seq<Stamp>)
    ensures forall x :: x in Matching(q, cs) <==> x in cs && Matches(q, x)
    ensures Ascending(cs) ==> Ascending(Matching(q, cs))
    decreases |cs|
  {
    if |cs| > 0 {
      var p := cs[..|cs| - 1];
      var c := cs[|cs| - 1];
      MatchingSpec(q, p);
      assert cs == p + [c];
      if Ascending(cs) {
        var a := Matching(q, p);
        var b := if Matches(q, c) then [c] else [];
        forall i, j | 0 <= i < |a| && 0 <= j < |b| ensures Before(a[i], b[j]) {
          assert a[i] in p;
          var k :| 0 <= k < |p| && p[k] == a[i];
          assert cs[k] == a[i] && cs[|cs| - 1] == b[j];
        }
        AscendingConcat(a, b);
      }
    }
  }

  /** array_unique after appending copies of a value not yet present: one copy
      is kept, at the end. */
  lemma {:induction false} ArrayUniqueCopies(xs: seq<Stamp>, hs: seq<Stamp>, c: Stamp)
    requires Distinct(xs) && c !in xs
    requires forall x :: x in hs ==> x == c
    ensures ArrayUnique(xs + hs) == if |hs| == 0 then xs else xs + [c]
    decreases |hs|
  {
    if |hs| == 0 {
      assert xs + hs == xs;
    } else {
      var p := hs[..|hs| - 1];
      assert hs[|hs| - 1] in hs;
      assert forall x :: x in p ==> x in hs;
      assert (xs + hs)[..|xs + hs| - 1] == xs + p;
      ArrayUniqueCopies(xs, p, c);
    }
  }

  /** Everything in the later part of an ascending list comes after everything
      in the earlier part. */
  lemma AscendingSplit(cs: seq<Stamp>, x: Stamp)
    requires Ascending(cs) && |cs| > 0
    requires x in cs[..|cs| - 1]
    ensures Before(x, cs[|cs| - 1])
  {
    var k :| 0 <= k < |cs| - 1 && cs[k] == x;
  }

  /** Whatever $maxSize is, a pass keeps only candidates that match, and over
      ascending candidates it keeps them in chronological order. */
  lemma {:induction false} ScanSound(q: Query, cs: seq<Stamp>)
    ensures forall x :: x in Scan(q, Acc([], false), cs).dates ==> x in cs && Matches(q, x)
    ensures Ascending(cs) ==> Ascending(Scan(q, Acc([], false), cs).dates)
    decreases |cs|
  {
    if |cs| > 0 {
      var p := cs[..|cs| - 1];
      var c := cs[|cs| - 1];
      var a := Scan(q, Acc([], false), p);
      ScanSound(q, p);
      assert cs == p + [c];
      if !a.full && Before(q.now, c) {
        var hs := Hits(q, c);
        assert forall x :: x in ArrayUnique(a.dates + hs) ==> x in a.dates || x == c;
        if Ascending(cs) {
          assert Ascending(p);
          forall x | x in a.dates ensures Before(x, c) {
            AscendingSplit(cs, x);
          }
          BeforeIsStrictOrder(c, c, c);
          AscendingDistinct(a.dates);
          ArrayUniqueCopies(a.dates, hs, c);
          AscendingConcat(a.dates, [c]);
        }
      }
    }
  }

  /** With $maxSize at least 1, a pass over ascending candidates returns the
      first $maxSize matching candidates, and it stops exactly when that many
      exist. */
  lemma {:induction false} ScanFirstMatches(q: Query, cs: seq<Stamp>)
    requires q.maxSize >= 1 && Ascending(cs)
    ensures Scan(q, Acc([], false), cs).dates == Take(Matching(q, cs), q.maxSize)
    ensures Scan(q, Acc([], false), cs).full <==> |Matching(q, cs)| >= q.maxSize
    decreases |cs|
  {
    if |cs| > 0 {
      var p := cs[..|cs| - 1];
      var c := cs[|cs| - 1];
      var a := Scan(q, Acc([], false), p);
      var mp := Matching(q, p);
      assert Ascending(p);
      ScanFirstMatches(q, p);
      assert cs == p + [c];
      assert Matching(q, cs) == mp + (if Matches(q, c) then [c] else []);
      if a.full {
        assert Take(Matching(q, cs), q.maxSize) == Take(mp, q.maxSize);
      } else if Before(q.now, c) {
        MatchingSpec(q, p);
        forall x | x in mp ensures Before(x, c) {
          AscendingSplit(cs, x);
        }
        BeforeIsStrictOrder(c, c, c);
        AscendingDistinct(mp);
        ArrayUniqueCopies(mp, Hits(q, c), c);
      }
    }
  }

  /** With a negative $maxSize the count never equals it, so a pass over
      ascending candidates never fills and keeps every matching candidate. */
  lemma {:induction false} ScanNegativeSize(q: Query, cs: seq<Stamp>)
    requires q.maxSize < 0 && Ascending(cs)
    ensures Scan(q, Acc([], false), cs).dates == Matching(q, cs)
    ensures !Scan(q, Acc([], false), cs).full
    decreases |cs|
  {
    if |cs| > 0 {
      var p := cs[..|cs| - 1];
      var c := cs[|cs| - 1];
      var mp := Matching(q, p);
      assert Ascending(p);
      ScanNegativeSize(q, p);
      assert cs == p + [c];
      assert Matching(q, cs) == mp + (if Matches(q, c) then [c] else []);
      if Before(q.now, c) {
        MatchingSpec(q, p);
        forall x | x in mp ensures Before(x, c) {
          AscendingSplit(cs, x);
        }
        BeforeIsStrictOrder(c, c, c);
        AscendingDistinct(mp);
        ArrayUniqueCopies(mp, Hits(q, c), c);
      }
    }
  }

  // ---------------------------------------------------------------------------
  // One year's pass

  /** Every date of a year's pass is a candidate of that year strictly after
      now and included; with ascending parsed lists the pass is in
      chronological order. */
  lemma YearPassSound(q: Query, y: int)
    ensures forall x :: x in YearPass(q, y) ==> Candidate(q, y, x) && Matches(q, x)
    ensures SortedFields(q) ==> Ascending(YearPass(q, y))
  {
    YearPassAsScan(q, y);
    YearCandsSpec(q, y);
    ScanSound(q, YearCands(q, y));
  }

  /** With $maxSize at least 1 a year's pass holds the first $maxSize
      matching minutes of the year, so never more than $maxSize; a shorter
      pass holds every matching minute of the year. */
  lemma YearPassFirstMatches(q: Query, y: int)
    requires q.maxSize >= 1 && SortedFields(q)
    ensures YearPass(q, y) == Take(Matching(q, YearCands(q, y)), q.maxSize)
    ensures |YearPass(q, y)| <= q.maxSize
    ensures |YearPass(q, y)| < q.maxSize ==>
      forall x :: Candidate(q, y, x) && Matches(q, x) ==> x in YearPass(q, y)
  {
    YearPassAsScan(q, y);
    YearCandsSpec(q, y);
    ScanFirstMatches(q, YearCands(q, y));
    MatchingSpec(q, YearCands(q, y));
  }

  // ---------------------------------------------------------------------------
  // The recursion over years

  function StartYear(q: Query, year: Option<int>): int {
    if year.Some? then year.value else q.now.year
  }

  /** Later years first; within a year, chronological order. */
  predicate YearBlocks(ds: seq<Stamp>) {
    forall i, j :: 0 <= i < j < |ds| ==>
      ds[i].year > ds[j].year || (ds[i].year == ds[j].year && Before(ds[i], ds[j]))
  }

  /** A date the recursion may return: a matching candidate of its own year,
      a year between lo and hi. */
  predicate Produced(q: Query, lo: int, hi: int, x: Stamp) {
    Matches(q, x) && Candidate(q, x.year, x) && lo <= x.year <= hi
  }

  /** Every date returned matches and is a candidate of its own year, a year
      between the start year and `budget` years later. */
  lemma {:induction false} DateListSound(q: Query, year: Option<int>, budget: nat)
    ensures forall x :: x in DateList(q, year, budget) ==>
      Produced(q, StartYear(q, year), StartYear(q, year) + budget, x)
    decreases budget
  {
    var y := StartYear(q, year);
    var d := YearPass(q, y);
    var ds := DateList(q, year, budget);
    YearPassSound(q, y);
    if year.Some? && |d| == 0 {
      assert ds == [];
    } else if |d| != q.maxSize && budget > 0 {
      var later := DateList(q, Some(y + 1), budget - 1);
      assert ds == later + d;
      DateListSound(q, Some(y + 1), budget - 1);
      forall x | x in ds ensures Produced(q, y, y + budget, x) {
        if x in later {
          assert Produced(q, y + 1, y + budget, x);
        } else {
          assert x in d;
        }
      }
    } else {
      assert ds == d;
      forall x | x in ds ensures Produced(q, y, y + budget, x) {
        assert x in d;
      }
    }
  }

  lemma YearBlocksConcat(a: seq<Stamp>, b: seq<Stamp>)
    requires YearBlocks(a) && YearBlocks(b)
    requires forall i, j :: 0 <= i < |a| && 0 <= j < |b| ==> a[i].year > b[j].year
    ensures YearBlocks(a + b)
  {
    var c := a + b;
    forall i, j | 0 <= i < j < |c|
      ensures c[i].year > c[j].year || (c[i].year == c[j].year && Before(c[i], c[j]))
    {
      if j < |a| {
        assert c[i] == a[i] && c[j] == a[j];
      } else if i >= |a| {
        assert c[i] == b[i - |a|] && c[j] == b[j - |a|];
      } else {
        assert c[i] == a[i] && c[j] == b[j - |a|];
      }
    }
  }

  lemma YearPassBlocks(q: Query, y: int)
    requires SortedFields(q)
    ensures YearBlocks(YearPass(q, y))
  {
    var dates := YearPass(q, y);
    YearPassSound(q, y);
    forall i, j | 0 <= i < j < |dates|
      ensures dates[i].year == dates[j].year && Before(dates[i], dates[j])
    {
      assert dates[i] in dates && dates[j] in dates;
    }
  }

  /** The merge at line 145 puts the next year's results in front, so the
      result runs through the years backwards and each year forwards. */
  lemma {:induction false} DateListOrder(q: Query, year: Option<int>, budget: nat)
    requires SortedFields(q)
    ensures YearBlocks(DateList(q, year, budget))
    decreases budget
  {
    var y := StartYear(q, year);
    var dates := YearPass(q, y);
    YearPassBlocks(q, y);
    YearPassSound(q, y);
    if !(year.Some? && |dates| == 0) && |dates| != q.maxSize && budget > 0 {
      var later := DateList(q, Some(y + 1), budget - 1);
      assert DateList(q, year, budget) == later + dates;
      DateListOrder(q, Some(y + 1), budget - 1);
      DateListSound(q, Some(y + 1), budget - 1);
      forall i, j | 0 <= i < |later| && 0 <= j < |dates| ensures later[i].year > dates[j].year {
        assert later[i] in later && dates[j] in dates;
      }
      YearBlocksConcat(later, dates);
    }
  }

  /** If every year from y on yields some but fewer than $maxSize dates, each
      recursive call adds at least one date and none returns early: the
      result outgrows $maxSize and only the budget ends the recursion. */
  lemma {:induction false} DateListGrows(q: Query, y: int, budget: nat)
    requires forall y' :: y <= y' <= y + budget ==> 1 <= |YearPass(q, y')| < q.maxSize
    ensures |DateList(q, Some(y), budget)| >= budget + 1
    decreases budget
  {
    assert 1 <= |YearPass(q, y)| < q.maxSize;
    if budget > 0 {
      DateListGrows(q, y + 1, budget - 1);
    }
  }

  // ---------------------------------------------------------------------------
  // "0 0 1 1 *": one date a year, so with $maxSize 2 no pass is ever full

  /** A duplicate-free list whose only member is s. */
  lemma OnlyElement(m: seq<Stamp>, s: Stamp)
    requires Distinct(m) && s in m
    requires forall x :: x in m ==> x == s
    ensures m == [s]
  {
    assert m[0] in m && m[|m| - 1] in m;
    assert |m| == 1;
  }

  /** A query over the fields of "0 0 1 1 *" whose parsed lists are the ones
      NewYearParsed derives from that text. */
  predicate NewYearQuery(q: Query) {
    && q.tags == ["0", "0", "1", "1", "*"]
    && q.cron.minutes == [0] && q.cron.hours == [0] && q.cron.days == [1] && q.cron.months == [1]
  }

  /** The only minute of year y that "0 0 1 1 *" can match. */
  lemma NewYearMatch(q: Query, y: int, x: Stamp)
    requires NewYearQuery(q)
    requires Candidate(q, y, x) && Matches(q, x)
    ensures x == Stamp(y, 1, 1, 0, 0)
  {
    assert !WeekHit(q, x) && !BothWild(q);
    assert x.day in [1] && x.month in [1] && x.hour in [0] && x.minute in [0];
  }

  /** In a year after now, "0 0 1 1 *" matches midnight on 1 January only. */
  lemma NewYearOnly(q: Query, y: int)
    requires NewYearQuery(q) && q.maxSize >= 1
    requires Before(q.now, Stamp(y, 1, 1, 0, 0))
    ensures YearPass(q, y) == [Stamp(y, 1, 1, 0, 0)]
  {
    var s := Stamp(y, 1, 1, 0, 0);
    var cs := YearCands(q, y);
    var m := Matching(q, cs);
    assert SortedFields(q);
    YearPassFirstMatches(q, y);
    YearCandsSpec(q, y);
    MatchingSpec(q, cs);
    forall x | x in m ensures x == s {
      NewYearMatch(q, y, x);
    }
    assert Matches(q, s) by {
      assert DayHit(q, s);
    }
    assert Candidate(q, y, s);
    AscendingDistinct(m);
    OnlyElement(m, s);
  }

  /** If every year from y on yields just midnight on 1 January and
      $maxSize is not 1, the recursion stacks one date per year, latest first. */
  lemma {:induction false} OnePerYear(q: Query, y: int, budget: nat)
    requires q.maxSize != 1
    requires forall y' :: y <= y' <= y + budget ==> YearPass(q, y') == [Stamp(y', 1, 1, 0, 0)]
    ensures |DateList(q, Some(y), budget)| == budget + 1
    ensures forall i :: 0 <= i <= budget ==> DateList(q, Some(y), budget)[i] == Stamp(y + budget - i, 1, 1, 0, 0)
    decreases budget
  {
    var ds := DateList(q, Some(y), budget);
    assert YearPass(q, y) == [Stamp(y, 1, 1, 0, 0)];
    if budget > 0 {
      OnePerYear(q, y + 1, budget - 1);
      var later := DateList(q, Some(y + 1), budget - 1);
      assert ds == later + [Stamp(y, 1, 1, 0, 0)];
      forall i | 0 <= i <= budget ensures ds[i] == Stamp(y + budget - i, 1, 1, 0, 0) {
        if i < budget {
          assert ds[i] == later[i];
        }
      }
    } else {
      assert ds == YearPass(q, y);
    }
  }

  /** With $maxSize 2 every call for a year after now finds one date and
      recurses: after `budget` further years the result holds budget + 1
      dates, latest year first, however small $maxSize is. */
  lemma NewYearEveryYear(q: Query, y: int, budget: nat)
    requires NewYearQuery(q) && q.maxSize == 2
    requires q.now.year < y
    ensures |DateList(q, Some(y), budget)| == budget + 1
    ensures forall i :: 0 <= i <= budget ==> DateList(q, Some(y), budget)[i] == Stamp(y + budget - i, 1, 1, 0, 0)
  {
    forall y' | y <= y' <= y + budget ensures YearPass(q, y') == [Stamp(y', 1, 1, 0, 0)] {
      NewYearOnly(q, y');
    }
    OnePerYear(q, y, budget);
  }

  /** A field of one decimal digit, standing for v, is the literal v. */
  lemma DigitField(t: string, v: nat, min: int, max: int)
    requires |t| == 1 && IsDigit(t[0]) && (t[0] as int) - ('0' as int) == v && min <= v <= max
    ensures WellFormedField(t, min, max)
    ensures FieldResult(t, min, max) == Ok([v])
  {
    assert ',' !in t && '/' !in t && '-' !in t;
    assert t != "*";
    assert LexField(t, min, max) == [Literal(v)];
    ExpandLiteral(v, min, max);
  }

  /** A field `*` is the whole range. */
  lemma StarField(t: string, min: int, max: int)
    requires t == "*" && min <= max
    ensures WellFormedField(t, min, max)
    ensures FieldResult(t, min, max) == Ok(IntRange(min, max))
  {
    ExpandWildcard(min, max);
  }

  /** The fields of "0 0 1 1 *" are well formed and parse to minute 0, hour 0,
      day 1 and month 1. */
  lemma NewYearParsed(tags: seq<string>)
    requires tags == ["0", "0", "1", "1", "*"]
    ensures WellFormedFields(tags) && ParsedFields(tags).Ok?
    ensures var c := ParsedFields(tags).value;
      c.minutes == [0] && c.hours == [0] && c.days == [1] && c.months == [1]
  {
    DigitField(tags[0], 0, 0, 59);
    DigitField(tags[1], 0, 0, 23);
    DigitField(tags[2], 1, 1, 31);
    DigitField(tags[3], 1, 1, 12);
    StarField(tags[4], 0, 6);
    ParsedLists(tags, [0], [0], [1], [1]);
  }

  /** When all five fields expand, $cronArr holds the expansions. */
  lemma ParsedLists(tags: seq<string>, minutes: seq<int>, hours: seq<int>, days: seq<int>, months: seq<int>)
    requires WellFormedFields(tags)
    requires FieldResult(tags[0], 0, 59) == Ok(minutes) && FieldResult(tags[1], 0, 23) == Ok(hours)
    requires FieldResult(tags[2], 1, 31) == Ok(days) && FieldResult(tags[3], 1, 12) == Ok(months)
    requires FieldResult(tags[4], 0, 6).Ok?
    ensures ParsedFields(tags).Ok?
    ensures var c := ParsedFields(tags).value;
      c.minutes == minutes && c.hours == hours && c.days == days && c.months == months
  {
  }

  /** check accepts "0 0 1 1 *" and splits it into its five fields. */
  lemma NewYearFields(cronTime: string)
    requires cronTime == "0 0 1 1 *"
    ensures Fields(cronTime) == ["0", "0", "1", "1", "*"]
    ensures Accepts(cronTime, true)
  {
    var tags := ["0", "0", "1", "1", "*"];
    assert Join(tags, ' ') == cronTime;
    TrimUnchanged(cronTime);
    SplitJoin(tags);
    PatternIsStarOrTrailingDigit("0");
    PatternIsStarOrTrailingDigit("1");
    PatternIsStarOrTrailingDigit("*");
    AcceptsByFields(cronTime, tags, true);
  }

  /** A list none of whose candidates match has no matching candidates. */
  lemma {:induction false} MatchingEmpty(q: Query, cs: seq<Stamp>)
    requires forall i :: 0 <= i < |cs| ==> !Matches(q, cs[i])
    ensures Matching(q, cs) == []
    decreases |cs|
  {
    if |cs| > 0 {
      MatchingEmpty(q, cs[..|cs| - 1]);
    }
  }

  /** The current year's 1 January midnight is not after now, so the pass
      for the current year is empty. */
  lemma NewYearNowEmpty(q: Query)
    requires NewYearQuery(q) && q.maxSize >= 1
    requires 1 <= q.now.day && 0 <= q.now.hour && 0 <= q.now.minute
    ensures YearPass(q, q.now.year) == []
  {
    var y := q.now.year;
    var cs := YearCands(q, y);
    assert SortedFields(q);
    YearCandsSpec(q, y);
    assert !Before(q.now, Stamp(y, 1, 1, 0, 0));
    forall i | 0 <= i < |cs| ensures !Matches(q, cs[i]) {
      assert cs[i] in cs;
      if Matches(q, cs[i]) {
        NewYearMatch(q, y, cs[i]);
      }
    }
    MatchingEmpty(q, cs);
    YearPassFirstMatches(q, y);
  }

  /** Started without a year, "0 0 1 1 *" with $maxSize 2 finds nothing in the
      current year, and each of the `budget` years after it contributes its
      1 January midnight, latest year first. */
  lemma NewYearFromNow(q: Query, budget: nat)
    requires NewYearQuery(q) && q.maxSize == 2
    requires 1 <= q.now.day && 0 <= q.now.hour && 0 <= q.now.minute
    ensures |DateList(q, None, budget)| == budget
    ensures forall i :: 0 <= i < budget ==> DateList(q, None, budget)[i] == Stamp(q.now.year + budget - i, 1, 1, 0, 0)
  {
    var y := q.now.year;
    NewYearNowEmpty(q);
    if budget > 0 {
      assert DateList(q, None, budget) == DateList(q, Some(y + 1), budget - 1) + [];
      NewYearEveryYear(q, y + 1, budget - 1);
    } else {
      assert DateList(q, None, budget) == [];
    }
  }

  /** formatToDate("0 0 1 1 *", 2) succeeds and returns one 1 January
      midnight for each of the `budget` years after the current one, latest
      year first. */
  lemma NewYearEvaluate(cronTime: string, now: Stamp, budget: nat)
    requires cronTime == "0 0 1 1 *"
    requires 1 <= now.day && 0 <= now.hour && 0 <= now.minute
    ensures Accepts(cronTime, true) && WellFormedFields(Fields(cronTime))
    ensures Evaluate(cronTime, 2, now, budget).Ok?
    ensures |Evaluate(cronTime, 2, now, budget).value| == budget
    ensures forall i :: 0 <= i < budget ==>
      Evaluate(cronTime, 2, now, budget).value[i] == Stamp(now.year + budget - i, 1, 1, 0, 0)
  {
    NewYearFields(cronTime);
    var tags := Fields(cronTime);
    NewYearParsed(tags);
    var q := Query(tags, ParsedFields(tags).value, 2, now);
    assert Evaluate(cronTime, 2, now, budget) == Ok(DateList(q, None, budget));
    NewYearFromNow(q, budget);
  }

  // ---------------------------------------------------------------------------
  // formatToDate as a whole

  /** The parsed fields are the five expansions, ascending and within their
      bounds, and the week names stand for the expanded week numbers. */
  lemma ParsedFieldsSpec(tags: seq<string>)
    requires WellFormedFields(tags)
    ensures ParsedFields(tags).Err? <==>
      || FieldResult(tags[0], 0, 59).Err? || FieldResult(tags[1], 0, 23).Err?
      || FieldResult(tags[2], 1, 31).Err? || FieldResult(tags[3], 1, 12).Err?
      || FieldResult(tags[4], 0, 6).Err?
    ensures ParsedFields(tags).Ok? ==>
      var c := ParsedFields(tags).value;
      && c.minutes == FieldResult(tags[0], 0, 59).value
      && c.hours == FieldResult(tags[1], 0, 23).value
      && c.days == FieldResult(tags[2], 1, 31).value
      && c.months == FieldResult(tags[3], 1, 12).value
      && StrictlySorted(c.minutes) && StrictlySorted(c.hours) && StrictlySorted(c.months)
      && (forall v :: v in c.minutes ==> 0 <= v <= 59)
      && (forall v :: v in c.hours ==> 0 <= v <= 23)
      && (forall v :: v in c.days ==> 1 <= v <= 31)
      && (forall s: Stamp :: WeekdayOf(s) in c.weeks <==>
           DayOfWeek(s.year, s.month, s.day) in FieldResult(tags[4], 0, 6).value)
  {
    if ParsedFields(tags).Ok? {
      var c := ParsedFields(tags).value;
      ExpansionSortedInBounds(LexField(tags[0], 0, 59), 0, 59);
      ExpansionSortedInBounds(LexField(tags[1], 0, 23), 0, 23);
      ExpansionSortedInBounds(LexField(tags[2], 1, 31), 1, 31);
      ExpansionSortedInBounds(LexField(tags[3], 1, 12), 1, 12);
      ExpansionSortedInBounds(LexField(tags[4], 0, 6), 0, 6);
      var ws := FieldResult(tags[4], 0, 6).value;
      forall s: Stamp ensures WeekdayOf(s) in c.weeks <==> DayOfWeek(s.year, s.month, s.day) in ws {
        MapWeekMembership(ws, s);
      }
    }
  }

  /** formatToDate fails with a format error exactly when check rejects the
      expression, and with a domain error exactly when check accepts it and
      some field fails to expand. */
  lemma EvaluateErrors(cronTime: string, maxSize: int, now: Stamp, budget: nat)
    requires Accepts(cronTime, true) ==> WellFormedFields(Fields(cronTime))
    ensures Evaluate(cronTime, maxSize, now, budget) == Err(FormatError) <==> !Accepts(cronTime, true)
    ensures Evaluate(cronTime, maxSize, now, budget) == Err(DomainError) <==>
      Accepts(cronTime, true) &&
      var tags := Fields(cronTime);
      || FieldResult(tags[0], 0, 59).Err? || FieldResult(tags[1], 0, 23).Err?
      || FieldResult(tags[2], 1, 31).Err? || FieldResult(tags[3], 1, 12).Err?
      || FieldResult(tags[4], 0, 6).Err?
  {
    if Accepts(cronTime, true) {
      ParsedFieldsSpec(Fields(cronTime));
    }
  }

  /** A date a successful formatToDate may return, in terms of the field
      expansions: strictly after now, within `budget` years of now, on a day
      that exists, with its minute, hour and month in the expanded fields, and
      included by one of the three branches. */
  ghost predicate SoundDate(tags: seq<string>, now: Stamp, budget: nat, x: Stamp)
    requires WellFormedFields(tags) && ParsedFields(tags).Ok?
  {
    ParsedFieldsSpec(tags);
    && Before(now, x) && now.year <= x.year <= now.year + budget
    && 1 <= x.day <= DaysInMonth(x.month, x.year)
    && x.minute in FieldResult(tags[0], 0, 59).value && 0 <= x.minute <= 59
    && x.hour in FieldResult(tags[1], 0, 23).value && 0 <= x.hour <= 23
    && x.month in FieldResult(tags[3], 1, 12).value
    && ((tags[2] != "*" && x.day in FieldResult(tags[2], 1, 31).value)
        || (tags[4] != "*" && DayOfWeek(x.year, x.month, x.day) in FieldResult(tags[4], 0, 6).value)
        || (tags[2] == "*" && tags[4] == "*"))
  }

  lemma DateIsSound(tags: seq<string>, maxSize: int, now: Stamp, budget: nat, x: Stamp)
    requires WellFormedFields(tags) && ParsedFields(tags).Ok?
    requires var q := Query(tags, ParsedFields(tags).value, maxSize, now);
      Matches(q, x) && Candidate(q, x.year, x) && now.year <= x.year <= now.year + budget
    ensures SoundDate(tags, now, budget, x)
  {
    ParsedFieldsSpec(tags);
  }

  lemma ParsedDatesSound(tags: seq<string>, maxSize: int, now: Stamp, budget: nat)
    requires WellFormedFields(tags) && ParsedFields(tags).Ok?
    ensures var ds := DateList(Query(tags, ParsedFields(tags).value, maxSize, now), None, budget);
      YearBlocks(ds) && forall x :: x in ds ==> SoundDate(tags, now, budget, x)
  {
    ParsedFieldsSpec(tags);
    var q := Query(tags, ParsedFields(tags).value, maxSize, now);
    var ds := DateList(q, None, budget);
    assert SortedFields(q);
    DateListSound(q, None, budget);
    DateListOrder(q, None, budget);
    forall x | x in ds ensures SoundDate(tags, now, budget, x) {
      DateIsSound(tags, maxSize, now, budget, x);
    }
  }

  /** Every date formatToDate returns is strictly after now, within `budget`
      years of now, on a day that exists, with its minute, hour and month in
      the expanded fields, and included by one of the three branches; the
      list runs through the years backwards and each year forwards. */
  lemma EvaluateSound(cronTime: string, maxSize: int, now: Stamp, budget: nat)
    requires Accepts(cronTime, true) ==> WellFormedFields(Fields(cronTime))
    requires Evaluate(cronTime, maxSize, now, budget).Ok?
    ensures Accepts(cronTime, true)
    ensures ParsedFields(Fields(cronTime)).Ok?
    ensures var ds := Evaluate(cronTime, maxSize, now, budget).value;
      YearBlocks(ds) && forall x :: x in ds ==> SoundDate(Fields(cronTime), now, budget, x)
  {
    ParsedDatesSound(Fields(cronTime), maxSize, now, budget);
  }
}
