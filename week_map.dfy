/** The $weekMap table: day-of-week numbers to the names getdate reports. */
module WeekMap {
  import opened Calendar

  const WeekMap: map<int, string> := map[
    0 := "Sunday", 1 := "Monday", 2 := "Tuesday", 3 := "Wednesday",
    4 := "Thursday", 5 := "Friday", 6 := "Saturday"]

  /** The table is total on 0..6 and defined nowhere else, and it names each
      day as the calendar does. */
  lemma WeekMapTotal()
    ensures forall d :: d in WeekMap <==> 0 <= d <= 6
    ensures forall d :: 0 <= d <= 6 ==> WeekMap[d] == WeekdayNames[d]
  {
  }

  /** No two days share a name. */
  lemma WeekMapInjective(a: int, b: int)
    requires a in WeekMap && b in WeekMap
    ensures WeekMap[a] == WeekMap[b] <==> a == b
  {
  }

  /** The array_map over the parsed week field (line 75). */
  function MapWeek(ws: seq<int>): (names: seq<string>)
    requires forall i :: 0 <= i < |ws| ==> 0 <= ws[i] <= 6
    ensures |names| == |ws|
    ensures forall i :: 0 <= i < |ws| ==> names[i] == WeekdayNames[ws[i]]
  {
    seq(|ws|, i requires 0 <= i < |ws| => WeekMap[ws[i]])
  }

  /** The weekday of a date is in the mapped set exactly when its number is in
      the parsed week set. */
  lemma MapWeekMembership(ws: seq<int>, s: Stamp)
    requires forall i :: 0 <= i < |ws| ==> 0 <= ws[i] <= 6
    ensures WeekdayOf(s) in MapWeek(ws) <==> DayOfWeek(s.year, s.month, s.day) in ws
  {
    var d := DayOfWeek(s.year, s.month, s.day);
    var names := MapWeek(ws);
    if WeekdayOf(s) in names {
      var i :| 0 <= i < |names| && names[i] == WeekdayOf(s);
      WeekMapInjective(ws[i], d);
      assert ws[i] == d;
    }
    if d in ws {
      var i :| 0 <= i < |ws| && ws[i] == d;
      assert names[i] == WeekdayOf(s);
    }
  }
}
