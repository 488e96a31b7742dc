/** formatToDate and getDateList: parse the five fields, then walk the
    calendar of one year after another collecting matching minutes. */
module Enumerator {
  import opened Results
  import opened Text
  import opened Calendar
  import opened FieldParser
  import opened Validator
  import opened WeekMap

  /** The five raw fields, as formatToDate stores them in $tags. */
  type Tags = t: seq<string> | |t| == 5 witness ["*", "*", "*", "*", "*"]

  /** $cronArr once the week field has been mapped to names. */
  datatype CronArr = CronArr(
    minutes: seq<int>, hours: seq<int>, days: seq<int>,
    months: seq<MonthNumber>, weeks: seq<string>)

  /** Everything a getDateList call reads besides its year argument: the raw
      fields, the parsed fields, $maxSize and the current minute. */
  datatype Query = Query(tags: Tags, cron: CronArr, maxSize: int, now: Stamp)

  // ---------------------------------------------------------------------------
  // One candidate minute

  /** The three independent inclusion branches (lines 114-126). */
  predicate DayHit(q: Query, c: Stamp) {
    q.tags[2] != "*" && c.day in q.cron.days
  }

  predicate WeekHit(q: Query, c: Stamp) {
    q.tags[4] != "*" && WeekdayOf(c) in q.cron.weeks
  }

  predicate BothWild(q: Query) {
    q.tags[2] == "*" && q.tags[4] == "*"
  }

  predicate Included(q: Query, c: Stamp) {
    DayHit(q, c) || WeekHit(q, c) || BothWild(q)
  }

  /** What the three branches append for a candidate: one copy per branch that holds. */
  function Hits(q: Query, c: Stamp): (hs: seq<Stamp>)
    ensures forall x :: x in hs ==> x == c
    ensures |hs| > 0 <==> Included(q, c)
  {
    (if DayHit(q, c) then [c] else [])
    + (if WeekHit(q, c) then [c] else [])
    + (if BothWild(q) then [c] else [])
  }

  predicate Distinct(s: seq<Stamp>) {
    forall i, j :: 0 <= i < j < |s| ==> s[i] != s[j]
  }

  /** array_unique: the first occurrence of each value, in order. */
  function ArrayUnique(xs: seq<Stamp>): (r: seq<Stamp>)
    ensures forall x :: x in r <==> x in xs
    ensures Distinct(r)
    ensures Distinct(xs) ==> r == xs
  {
    if |xs| == 0 then []
    else
      var init := xs[..|xs| - 1];
      var last := xs[|xs| - 1];
      assert xs == init + [last];
      var r := ArrayUnique(init);
      if last in r then r else r + [last]
  }

  /** Index of the first occurrence of x. */
  function FirstIndex(xs: seq<Stamp>, x: Stamp): (k: nat)
    requires x in xs
    ensures k < |xs| && xs[k] == x
    ensures forall i :: 0 <= i < k ==> xs[i] != x
  {
    if xs[0] == x then 0 else 1 + FirstIndex(xs[1..], x)
  }

  /** array_unique keeps the values in the order of their first occurrences. */
  lemma {:induction false} ArrayUniqueFirstOrder(xs: seq<Stamp>)
    ensures forall i, j :: 0 <= i < j < |ArrayUnique(xs)| ==>
      FirstIndex(xs, ArrayUnique(xs)[i]) < FirstIndex(xs, ArrayUnique(xs)[j])
  {
    if |xs| > 0 {
      var init := xs[..|xs| - 1];
      var last := xs[|xs| - 1];
      assert xs == init + [last];
      var r := ArrayUnique(init);
      ArrayUniqueFirstOrder(init);
      forall x | x in init ensures FirstIndex(xs, x) == FirstIndex(init, x) {
        var k := FirstIndex(init, x);
        assert xs[k] == x;
      }
      if last !in r {
        var r' := r + [last];
        assert FirstIndex(xs, last) == |xs| - 1;
        forall i, j | 0 <= i < j < |r'| ensures FirstIndex(xs, r'[i]) < FirstIndex(xs, r'[j]) {
          assert r'[i] == r[i] && r[i] in init;
          if j < |r| {
            assert r'[j] == r[j] && r[j] in init;
          }
        }
      } else {
        forall i, j | 0 <= i < j < |r| ensures FirstIndex(xs, r[i]) < FirstIndex(xs, r[j]) {
          assert r[i] in init && r[j] in init;
        }
      }
    }
  }

  // ---------------------------------------------------------------------------
  // One year's pass: the four nested loops, as left folds

  /** The state of the pass: $dates, and whether `break 4` has been taken. */
  datatype Acc = Acc(dates: seq<Stamp>, full: bool)

  /** The loop body for one candidate (lines 106-132). */
  function Visit(q: Query, acc: Acc, c: Stamp): Acc {
    if acc.full || !Before(q.now, c) then acc
    else
      var d := ArrayUnique(acc.dates + Hits(q, c));
      Acc(d, |d| == q.maxSize)
  }

  function ScanMinutes(q: Query, acc: Acc, y: int, m: MonthNumber, d: int, h: int, ms: seq<int>): Acc {
    if |ms| == 0 then acc
    else Visit(q, ScanMinutes(q, acc, y, m, d, h, ms[..|ms| - 1]), Stamp(y, m, d, h, ms[|ms| - 1]))
  }

  function ScanHours(q: Query, acc: Acc, y: int, m: MonthNumber, d: int, hs: seq<int>): Acc {
    if |hs| == 0 then acc
    else ScanMinutes(q, ScanHours(q, acc, y, m, d, hs[..|hs| - 1]), y, m, d, hs[|hs| - 1], q.cron.minutes)
  }

  /** Days 1 .. n of month m. */
  function ScanDays(q: Query, acc: Acc, y: int, m: MonthNumber, n: int): Acc
    decreases n
  {
    if n <= 0 then acc
    else ScanHours(q, ScanDays(q, acc, y, m, n - 1), y, m, n, q.cron.hours)
  }

  function ScanMonths(q: Query, acc: Acc, y: int, ms: seq<MonthNumber>): Acc {
    if |ms| == 0 then acc
    else
      var m := ms[|ms| - 1];
      ScanDays(q, ScanMonths(q, acc, y, ms[..|ms| - 1]), y, m, DaysInMonth(m, y))
  }

  /** The dates one pass over year y collects. */
  function YearPass(q: Query, y: int): seq<Stamp> {
    ScanMonths(q, Acc([], false), y, q.cron.months).dates
  }

  /** Once the pass has stopped, the rest of each loop changes nothing. */
  lemma {:induction false} MinutesFull(q: Query, acc: Acc, y: int, m: MonthNumber, d: int, h: int, ms: seq<int>, k: nat)
    requires k <= |ms|
    requires ScanMinutes(q, acc, y, m, d, h, ms[..k]).full
    ensures ScanMinutes(q, acc, y, m, d, h, ms) == ScanMinutes(q, acc, y, m, d, h, ms[..k])
    decreases |ms|
  {
    if k < |ms| {
      var p := ms[..|ms| - 1];
      assert p[..k] == ms[..k];
      MinutesFull(q, acc, y, m, d, h, p, k);
    } else {
      assert ms[..k] == ms;
    }
  }

  lemma {:induction false} HoursFull(q: Query, acc: Acc, y: int, m: MonthNumber, d: int, hs: seq<int>, j: nat)
    requires j <= |hs|
    requires ScanHours(q, acc, y, m, d, hs[..j]).full
    ensures ScanHours(q, acc, y, m, d, hs) == ScanHours(q, acc, y, m, d, hs[..j])
    decreases |hs|
  {
    if j < |hs| {
      var p := hs[..|hs| - 1];
      assert p[..j] == hs[..j];
      HoursFull(q, acc, y, m, d, p, j);
      var a := ScanHours(q, acc, y, m, d, p);
      assert q.cron.minutes[..0] == [];
      MinutesFull(q, a, y, m, d, hs[|hs| - 1], q.cron.minutes, 0);
    } else {
      assert hs[..j] == hs;
    }
  }

  lemma {:induction false} DaysFull(q: Query, acc: Acc, y: int, m: MonthNumber, n: int, k: int)
    requires 0 <= k <= n
    requires ScanDays(q, acc, y, m, k).full
    ensures ScanDays(q, acc, y, m, n) == ScanDays(q, acc, y, m, k)
    decreases n
  {
    if k < n {
      DaysFull(q, acc, y, m, n - 1, k);
      var a := ScanDays(q, acc, y, m, n - 1);
      assert q.cron.hours[..0] == [];
      HoursFull(q, a, y, m, n, q.cron.hours, 0);
    }
  }

  lemma {:induction false} MonthsFull(q: Query, acc: Acc, y: int, ms: seq<MonthNumber>, i: nat)
    requires i <= |ms|
    requires ScanMonths(q, acc, y, ms[..i]).full
    ensures ScanMonths(q, acc, y, ms) == ScanMonths(q, acc, y, ms[..i])
    decreases |ms|
  {
    if i < |ms| {
      var p := ms[..|ms| - 1];
      assert p[..i] == ms[..i];
      MonthsFull(q, acc, y, p, i);
      var a := ScanMonths(q, acc, y, p);
      var m := ms[|ms| - 1];
      DaysFull(q, a, y, m, DaysInMonth(m, y), 0);
    } else {
      assert ms[..i] == ms;
    }
  }

  lemma ScanMinutesStep(q: Query, acc: Acc, y: int, m: MonthNumber, d: int, h: int, ms: seq<int>, k: nat)
    requires k < |ms|
    ensures ScanMinutes(q, acc, y, m, d, h, ms[..k + 1])
         == Visit(q, ScanMinutes(q, acc, y, m, d, h, ms[..k]), Stamp(y, m, d, h, ms[k]))
  {
    assert ms[..k + 1][..k] == ms[..k];
  }

  /** The body of the innermost loop (lines 106-132) for one candidate, before
      the pass has stopped. */
  method VisitCandidate(q: Query, c: Stamp, dates0: seq<Stamp>, full0: bool)
    returns (dates: seq<Stamp>, full: bool)
    requires !full0
    ensures Acc(dates, full) == Visit(q, Acc(dates0, full0), c)
  {
    dates, full := dates0, full0;
    if !Before(q.now, c) {
      return;
    }
    if q.tags[2] != "*" && c.day in q.cron.days {
      dates := dates + [c];
    }
    if q.tags[4] != "*" && WeekdayOf(c) in q.cron.weeks {
      dates := dates + [c];
    }
    if q.tags[2] == "*" && q.tags[4] == "*" {
      dates := dates + [c];
    }
    assert dates == dates0 + Hits(q, c);
    dates := ArrayUnique(dates);
    full := |dates| == q.maxSize;
  }

  /** The innermost loop of getDateList (lines 105-133): the minutes of one hour. */
  method MinuteLoop(q: Query, y: int, month: MonthNumber, day: int, hour: int, dates0: seq<Stamp>, full0: bool)
    returns (dates: seq<Stamp>, full: bool)
    ensures Acc(dates, full) == ScanMinutes(q, Acc(dates0, full0), y, month, day, hour, q.cron.minutes)
  {
    var minutes := q.cron.minutes;
    dates, full := dates0, full0;
    var k := 0;
    while k < |minutes| && !full
      invariant 0 <= k <= |minutes|
      invariant Acc(dates, full) == ScanMinutes(q, Acc(dates0, full0), y, month, day, hour, minutes[..k])
    {
      var c := Stamp(y, month, day, hour, minutes[k]);
      ScanMinutesStep(q, Acc(dates0, full0), y, month, day, hour, minutes, k);
      dates, full := VisitCandidate(q, c, dates, full);
      k := k + 1;
    }
    if k < |minutes| {
      MinutesFull(q, Acc(dates0, full0), y, month, day, hour, minutes, k);
    } else {
      assert minutes[..k] == minutes;
    }
  }

  /** The hours loop of getDateList (lines 104-134). */
  method HourLoop(q: Query, y: int, month: MonthNumber, day: int, dates0: seq<Stamp>, full0: bool)
    returns (dates: seq<Stamp>, full: bool)
    ensures Acc(dates, full) == ScanHours(q, Acc(dates0, full0), y, month, day, q.cron.hours)
  {
    var hours := q.cron.hours;
    dates, full := dates0, full0;
    var j := 0;
    while j < |hours| && !full
      invariant 0 <= j <= |hours|
      invariant Acc(dates, full) == ScanHours(q, Acc(dates0, full0), y, month, day, hours[..j])
    {
      dates, full := MinuteLoop(q, y, month, day, hours[j], dates, full);
      assert hours[..j + 1][..j] == hours[..j];
      j := j + 1;
    }
    if j < |hours| {
      HoursFull(q, Acc(dates0, full0), y, month, day, hours, j);
    } else {
      assert hours[..j] == hours;
    }
  }

  /** The days loop of getDateList (lines 101-135): days 1 .. cal_days_in_month. */
  method DayLoop(q: Query, y: int, month: MonthNumber, dates0: seq<Stamp>, full0: bool)
    returns (dates: seq<Stamp>, full: bool)
    ensures Acc(dates, full) == ScanDays(q, Acc(dates0, full0), y, month, DaysInMonth(month, y))
  {
    var maxDay := DaysInMonth(month, y);
    dates, full := dates0, full0;
    var day := 1;
    while day <= maxDay && !full
      invariant 1 <= day <= maxDay + 1
      invariant Acc(dates, full) == ScanDays(q, Acc(dates0, full0), y, month, day - 1)
    {
      dates, full := HourLoop(q, y, month, day, dates, full);
      day := day + 1;
    }
    if day <= maxDay {
      DaysFull(q, Acc(dates0, full0), y, month, maxDay, day - 1);
    }
  }

  /** The four nested foreach loops of getDateList over one year (lines 92-136);
      a full $dates ends every loop, as `break 4` does. */
  method YearDates(q: Query, y: int) returns (dates: seq<Stamp>)
    ensures dates == YearPass(q, y)
  {
    var months := q.cron.months;
    dates := [];
    var full := false;
    var i := 0;
    while i < |months| && !full
      invariant 0 <= i <= |months|
      invariant Acc(dates, full) == ScanMonths(q, Acc([], false), y, months[..i])
    {
      dates, full := DayLoop(q, y, months[i], dates, full);
      assert months[..i + 1][..i] == months[..i];
      i := i + 1;
    }
    if i < |months| {
      MonthsFull(q, Acc([], false), y, months, i);
    } else {
      assert months[..i] == months;
    }
  }

  // ---------------------------------------------------------------------------
  // The recursion over years

  /** getDateList($cronArr, $maxSize, $year) with at most `budget` further
      years of recursion; with no budget left the pass's own dates are returned. */
  function DateList(q: Query, year: Option<int>, budget: nat): seq<Stamp>
    decreases budget
  {
    var y := if year.Some? then year.value else q.now.year;
    var dates := YearPass(q, y);
    if year.Some? && |dates| == 0 then []
    else if |dates| != q.maxSize && budget > 0 then DateList(q, Some(y + 1), budget - 1) + dates
    else dates
  }

  method GetDateList(q: Query, year: Option<int>, budget: nat) returns (dates: seq<Stamp>)
    ensures dates == DateList(q, year, budget)
    decreases budget
  {
    var nowYear := if year.Some? then year.value else q.now.year;
    dates := YearDates(q, nowYear);
    if year.Some? && |dates| == 0 {
      return [];
    }
    if |dates| != q.maxSize && budget > 0 {
      var later := GetDateList(q, Some(nowYear + 1), budget - 1);
      dates := later + dates;
    }
  }

  // ---------------------------------------------------------------------------
  // formatToDate

  /** The five fields are in the grammar parseTag handles, each with its bounds. */
  predicate WellFormedFields(tags: seq<string>) {
    && |tags| == 5
    && WellFormedField(tags[0], 0, 59)
    && WellFormedField(tags[1], 0, 23)
    && WellFormedField(tags[2], 1, 31)
    && WellFormedField(tags[3], 1, 12)
    && WellFormedField(tags[4], 0, 6)
  }

  /** What parseTag returns for one field. */
  ghost function FieldResult(tag: string, min: int, max: int): Result<seq<int>>
    requires WellFormedField(tag, min, max)
  {
    Expansion(LexField(tag, min, max), min, max)
  }

  /** $cronArr, or the domain error of the first field that fails to expand. */
  ghost function ParsedFields(tags: seq<string>): Result<CronArr>
    requires WellFormedFields(tags)
  {
    var minutes := FieldResult(tags[0], 0, 59);
    var hours := FieldResult(tags[1], 0, 23);
    var days := FieldResult(tags[2], 1, 31);
    var months := FieldResult(tags[3], 1, 12);
    var weeks := FieldResult(tags[4], 0, 6);
    if minutes.Err? || hours.Err? || days.Err? || months.Err? || weeks.Err? then Err(DomainError)
    else
      ExpansionSortedInBounds(LexField(tags[3], 1, 12), 1, 12);
      ExpansionSortedInBounds(LexField(tags[4], 0, 6), 0, 6);
      var monthNumbers: seq<MonthNumber> := months.value;
      Ok(CronArr(minutes.value, hours.value, days.value, monthNumbers, MapWeek(weeks.value)))
  }

  /** The five parseTag calls of formatToDate (lines 67-77), in order, and
      the array_map of the week field through $weekMap. */
  method ParseFields(tags: seq<string>) returns (r: Result<CronArr>)
    requires WellFormedFields(tags)
    ensures r == ParsedFields(tags)
  {
    var minutes := ParseTag(tags[0], 0, 59);
    if minutes.Err? {
      return Err(DomainError);
    }
    var hours := ParseTag(tags[1], 0, 23);
    if hours.Err? {
      return Err(DomainError);
    }
    var days := ParseTag(tags[2], 1, 31);
    if days.Err? {
      return Err(DomainError);
    }
    var months := ParseTag(tags[3], 1, 12);
    if months.Err? {
      return Err(DomainError);
    }
    var weeks := ParseTag(tags[4], 0, 6);
    if weeks.Err? {
      return Err(DomainError);
    }
    ExpansionSortedInBounds(LexField(tags[3], 1, 12), 1, 12);
    ExpansionSortedInBounds(LexField(tags[4], 0, 6), 0, 6);
    var monthNumbers: seq<MonthNumber> := months.value;
    return Ok(CronArr(minutes.value, hours.value, days.value, monthNumbers, MapWeek(weeks.value)));
  }

  /** What formatToDate($cronTime, $maxSize) returns or raises, with the
      current minute `now` and a recursion budget of `budget` years. */
  ghost function Evaluate(cronTime: string, maxSize: int, now: Stamp, budget: nat): Result<seq<Stamp>>
    requires Accepts(cronTime, true) ==> WellFormedFields(Fields(cronTime))
  {
    if !Accepts(cronTime, true) then Err(FormatError)
    else
      var tags := Fields(cronTime);
      var parsed := ParsedFields(tags);
      if parsed.Err? then Err(DomainError)
      else Ok(DateList(Query(tags, parsed.value, maxSize, now), None, budget))
  }

  /** formatToDate (lines 60-80). The input carries no leading or trailing
      whitespace, so the split at line 65 sees the fields check saw. */
  method FormatToDate(cronTime: string, maxSize: int, now: Stamp, budget: nat) returns (r: Result<seq<Stamp>>)
    requires Trim(cronTime) == cronTime
    requires Accepts(cronTime, true) ==> WellFormedFields(Fields(cronTime))
    ensures r == Evaluate(cronTime, maxSize, now, budget)
  {
    var ok := Check(cronTime, true);
    if !ok {
      return Err(FormatError);
    }
    var tags := SplitSpaces(cronTime);
    assert tags == Fields(cronTime);
    var cronArr := ParseFields(tags);
    if cronArr.Err? {
      return Err(DomainError);
    }
    var dates := GetDateList(Query(tags, cronArr.value, maxSize, now), None, budget);
    return Ok(dates);
  }
}
