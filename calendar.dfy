/** MMWR (CDC epidemiological) weeks: Sunday-to-Saturday spans, and the
    enumeration of every week start met between two dates. */
module Calendar {

  /** A calendar date as a day number: days since 1970-01-01, which was a Thursday. */
  type Day = int

  /** date(2025, 1, 1), the first day of the reporting range. */
  const Start2025: Day := 20089

  /** Day of the week, 0 for Sunday through 6 for Saturday. */
  function Weekday(d: Day): (k: nat)
    ensures k < 7
  {
    (d + 4) % 7
  }

  predicate IsSunday(d: Day) {
    Weekday(d) == 0
  }

  /** The start date of the MMWR week containing `d`: the Sunday on or before it. */
  function WeekStart(d: Day): (s: Day)
    ensures IsSunday(s)
    ensures s <= d <= s + 6
  {
    d - Weekday(d)
  }

  /** A date's week start is the one Sunday that lies at most six days before it. */
  lemma WeekStartUnique(d: Day, s: Day)
    requires IsSunday(s) && s <= d <= s + 6
    ensures WeekStart(d) == s
  {
    var t := WeekStart(d);
    SundaysApart(s, t);
  }

  /** Two Sundays are a whole number of weeks apart. */
  lemma SundaysApart(s: Day, t: Day)
    requires IsSunday(s) && IsSunday(t)
    ensures (t - s) % 7 == 0
  {
    assert (s + 4) % 7 == 0 && (t + 4) % 7 == 0;
    assert t - s == (t + 4) - (s + 4);
  }

  /** Two dates share a week start exactly when the second lies in the first's Sunday-to-Saturday span. */
  lemma SameWeek(d: Day, e: Day)
    ensures WeekStart(d) == WeekStart(e) <==> WeekStart(d) <= e <= WeekStart(d) + 6
  {
    if WeekStart(d) <= e <= WeekStart(d) + 6 {
      WeekStartUnique(e, WeekStart(d));
    }
  }

  /** Week starts never go backwards. */
  lemma WeekStartMonotonic(d: Day, e: Day)
    requires d <= e
    ensures WeekStart(d) <= WeekStart(e)
  {
    SundaysApart(WeekStart(e), WeekStart(d));
  }

  /** The set the source sorts: the week start of every day from `start` to `end` inclusive. */
  ghost function WeekStartsBetween(start: Day, end: Day): set<Day> {
    set d: Day | start <= d <= end :: WeekStart(d)
  }

  /** The sorted, de-duplicated week starts covering every day of [start, end]. */
  function AllWeeks(start: Day, end: Day): (ws: seq<Day>)
  {
    if end < start then []
    else
      var first := WeekStart(start);
      seq((WeekStart(end) - first) / 7 + 1, i => first + 7 * i)
  }

  ghost predicate StrictlyAscending(ws: seq<Day>) {
    forall i, j :: 0 <= i < j < |ws| ==> ws[i] < ws[j]
  }

  /** The enumeration is the sorted form of the source's set comprehension: ascending
      without duplicates, consecutive Sundays one week apart, and holding the week
      start of each day in range and nothing else. */
  lemma AllWeeksSpec(start: Day, end: Day)
    ensures var ws := AllWeeks(start, end);
      && StrictlyAscending(ws)
      && (forall i :: 0 <= i < |ws| ==> IsSunday(ws[i]))
      && (forall i :: 0 <= i < |ws| - 1 ==> ws[i + 1] == ws[i] + 7)
      && (forall w :: w in ws <==> w in WeekStartsBetween(start, end))
  {
    var ws := AllWeeks(start, end);
    if end < start {
      assert WeekStartsBetween(start, end) == {};
      return;
    }
    var first, last := WeekStart(start), WeekStart(end);
    WeekStartMonotonic(start, end);
    SundaysApart(first, last);
    var n := (last - first) / 7;
    assert last == first + 7 * n;
    assert |ws| == n + 1;
    forall i | 0 <= i < |ws|
      ensures IsSunday(ws[i])
    {
      assert ws[i] + 4 == (first + 4) + 7 * i;
    }
    forall w | w in ws
      ensures w in WeekStartsBetween(start, end)
    {
      var i :| 0 <= i < |ws| && ws[i] == w;
      assert IsSunday(w);
      if i == 0 {
        assert WeekStart(start) == w;
      } else {
        WeekStartUnique(w, w);
        assert start <= w <= end;
      }
    }
    forall w | w in WeekStartsBetween(start, end)
      ensures w in ws
    {
      var d :| start <= d <= end && WeekStart(d) == w;
      WeekStartMonotonic(start, d);
      WeekStartMonotonic(d, end);
      SundaysApart(first, w);
      var i := (w - first) / 7;
      assert w == first + 7 * i;
      assert 0 <= i < |ws| && ws[i] == w;
    }
  }
}
