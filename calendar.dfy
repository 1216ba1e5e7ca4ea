/** Calendar dates as the application reads them from a JavaScript `Date`:
    the local year, the month index (`getMonth`, 0 = January), the day of the
    month (`getDate`), and the day of the week (`getDay`, 0 = Sunday), which
    is computed from the other three. Also the date label used to group the
    ledger and to show the date in the transaction modals. */
module Calendar {
  import opened Text
  import opened Seqs

  datatype Date = Date(year: int, month: int, day: int)
  {
    /** A real day of the proleptic Gregorian calendar. */
    predicate IsValid()
    {
      0 <= month < 12 && 1 <= day <= DaysIn(year, month)
    }
  }

  /** What a JavaScript `Date` can denote once its time of day is ignored. */
  type CalendarDate = d: Date | d.IsValid() witness Date(2025, 10, 1)

  predicate IsLeap(year: int)
  {
    year % 4 == 0 && (year % 100 != 0 || year % 400 == 0)
  }

  function DaysIn(year: int, month: int): (n: int)
    requires 0 <= month < 12
    ensures 28 <= n <= 31
    ensures n == 29 <==> month == 1 && IsLeap(year)
  {
    if month == 1 then (if IsLeap(year) then 29 else 28)
    else if month == 3 || month == 5 || month == 8 || month == 10 then 30
    else 31
  }

  /** The day before `d`: what `yesterday.setDate(yesterday.getDate() - 1)`
      gives, rolling back over month and year boundaries. */
  function PrevDay(d: CalendarDate): (r: CalendarDate)
    ensures r != d
  {
    if d.day > 1 then Date(d.year, d.month, d.day - 1)
    else if d.month > 0 then Date(d.year, d.month - 1, DaysIn(d.year, d.month - 1))
    else Date(d.year - 1, 11, 31)
  }

  /** The day after `d`. */
  function NextDay(d: CalendarDate): (r: CalendarDate)
    ensures r != d
  {
    if d.day < DaysIn(d.year, d.month) then Date(d.year, d.month, d.day + 1)
    else if d.month < 11 then Date(d.year, d.month + 1, 1)
    else Date(d.year + 1, 0, 1)
  }

  /** Stepping back a day and forward a day are inverses on every date. */
  lemma PrevNextInverse(d: CalendarDate)
    ensures NextDay(PrevDay(d)) == d
    ensures PrevDay(NextDay(d)) == d
  {
  }

  /** The day of the week, 0 = Sunday, by Sakamoto's method. */
  function Weekday(d: CalendarDate): (w: nat)
    ensures w < 7
  {
    WeekdaySum(d) % 7
  }

  /** Fixed points of the real calendar: 1 January 1970 was a Thursday and
      1 November 2025 a Saturday. With `WeekdayOfNextDay` these fix the
      weekday of every date. */
  lemma WeekdayAnchors()
    ensures Weekday(Date(1970, 0, 1)) == 4
    ensures Weekday(Date(2025, 10, 1)) == 6
  {
  }

  /** The sum Sakamoto's method reduces modulo 7. */
  function WeekdaySum(d: CalendarDate): int
  {
    var offsets := [0, 3, 2, 5, 0, 3, 5, 1, 4, 6, 2, 4];
    YearTerm(if d.month < 2 then d.year - 1 else d.year) + offsets[d.month] + d.day
  }

  /** The year's contribution: one day per year plus one per leap year. */
  function YearTerm(y: int): int
  {
    y + y / 4 - y / 100 + y / 400
  }

  /** The year's contribution grows by one from `y - 1` to `y`, and by one
      more when `y` is a leap year. */
  lemma YearTermStep(y: int)
    ensures YearTerm(y) - YearTerm(y - 1) == if IsLeap(y) then 2 else 1
  {
    QuarterStep(y);
    CenturyStep(y);
    QuadricentennialStep(y);
    DivisorChain(y);
  }

  /** Every fourth century is a century, every century a fourth year. */
  lemma DivisorChain(y: int)
    ensures y % 400 == 0 ==> y % 100 == 0
    ensures y % 100 == 0 ==> y % 4 == 0
  {
    if y % 400 == 0 {
      QuadricentennialIsCentury(y);
    }
    if y % 100 == 0 {
      CenturyIsLeapLike(y);
    }
  }

  lemma QuadricentennialIsCentury(y: int)
    requires y % 400 == 0
    ensures y % 100 == 0
  {
    var c := 4 * (y / 400);
    assert y == 100 * c;
  }

  lemma CenturyIsLeapLike(y: int)
    requires y % 100 == 0
    ensures y % 4 == 0
  {
    var c := 25 * (y / 100);
    assert y == 4 * c;
  }

  lemma QuarterStep(y: int)
    ensures y / 4 - (y - 1) / 4 == if y % 4 == 0 then 1 else 0
  {
    var q, r := (y - 1) / 4, (y - 1) % 4;
    if r == 3 {
      assert y == 4 * (q + 1);
    } else {
      assert y == 4 * q + (r + 1);
    }
  }

  lemma CenturyStep(y: int)
    ensures y / 100 - (y - 1) / 100 == if y % 100 == 0 then 1 else 0
  {
    var q, r := (y - 1) / 100, (y - 1) % 100;
    if r == 99 {
      assert y == 100 * (q + 1);
    } else {
      assert y == 100 * q + (r + 1);
    }
  }

  lemma QuadricentennialStep(y: int)
    ensures y / 400 - (y - 1) / 400 == if y % 400 == 0 then 1 else 0
  {
    var q, r := (y - 1) / 400, (y - 1) % 400;
    if r == 399 {
      assert y == 400 * (q + 1);
    } else {
      assert y == 400 * q + (r + 1);
    }
  }

  lemma ModStep(a: int, j: int)
    ensures (a + 1 + 7 * j) % 7 == (a % 7 + 1) % 7
  {
  }

  /** The sum steps by one, up to a multiple of seven, from a day to the next. */
  lemma WeekdaySumStep(d: CalendarDate) returns (j: int)
    ensures WeekdaySum(NextDay(d)) == WeekdaySum(d) + 1 + 7 * j
  {
    if d.day < DaysIn(d.year, d.month) {
      j := 0;
    } else if d.month == 1 {
      YearTermStep(d.year);
      j := -4;
    } else if d.month < 11 {
      j := if d.month == 3 || d.month == 6 || d.month == 9 then -5 else -4;
    } else {
      j := -5;
    }
  }

  /** Consecutive days have consecutive weekdays: the weekday computation is
      consistent with the calendar's day succession. */
  lemma WeekdayOfNextDay(d: CalendarDate)
    ensures Weekday(NextDay(d)) == (Weekday(d) + 1) % 7
  {
    var j := WeekdaySumStep(d);
    ModStep(WeekdaySum(d), j);
  }

  const WeekdayNames: seq<string> :=
    ["Sunday", "Monday", "Tuesday", "Wednesday", "Thursday", "Friday", "Saturday"]

  const MonthAbbrevs: seq<string> :=
    ["Jan", "Feb", "Mar", "Apr", "May", "Jun", "Jul", "Aug", "Sep", "Oct", "Nov", "Dec"]

  /** The absolute label `"<Weekday>, <DD> <Mon>"`. */
  function WeekdayLabel(d: CalendarDate): (r: string)
  {
    WeekdayNames[Weekday(d)] + ", " + PadZeros(Decimal(d.day), 2) + " " + MonthAbbrevs[d.month]
  }

  /** The label of a date relative to `today`: `"Today"`, `"Yesterday"`, or the
      absolute label. */
  function DateLabel(d: CalendarDate, today: CalendarDate): (r: string)
    ensures r == "Today" <==> d == today
    ensures r == "Yesterday" <==> d != today && d == PrevDay(today)
    ensures d != today && d != PrevDay(today) ==> r == WeekdayLabel(d)
  {
    if d == today then "Today"
    else if d == PrevDay(today) then "Yesterday"
    else
      WeekdayLabelNotRelative(d);
      WeekdayLabel(d)
  }

  /** An absolute label contains a comma, so it is never one of the two
      relative labels. */
  lemma WeekdayLabelNotRelative(d: CalendarDate)
    ensures WeekdayLabel(d) != "Today" && WeekdayLabel(d) != "Yesterday"
  {
    CommaLabel(WeekdayNames[Weekday(d)], PadZeros(Decimal(d.day), 2), MonthAbbrevs[d.month]);
  }

  lemma CommaLabel(w: string, p: string, m: string)
    ensures w + ", " + p + " " + m != "Today" && w + ", " + p + " " + m != "Yesterday"
  {
    var r := w + ", " + p + " " + m;
    assert r[|w|] == ',';
    assert ',' !in "Today" && ',' !in "Yesterday";
  }

  lemma DayDigits(day: int)
    requires 1 <= day <= 31
    ensures |PadZeros(Decimal(day), 2)| == 2
    ensures AllDigits(PadZeros(Decimal(day), 2))
    ensures DigitsValue(PadZeros(Decimal(day), 2)) == day
  {
    if day >= 10 {
      assert Decimal(day) == Decimal(day / 10) + [(day % 10 + '0' as int) as char];
    }
    DecimalValue(day);
    PadZerosValue(Decimal(day), 2);
  }

  lemma WeekdayNamesDistinct()
    ensures NoDuplicates(WeekdayNames)
  {
  }

  lemma MonthAbbrevsDistinct()
    ensures NoDuplicates(MonthAbbrevs)
    ensures forall i :: 0 <= i < 12 ==> |MonthAbbrevs[i]| == 3
  {
  }

  /** An absolute label splits back into its weekday, day and month parts. */
  lemma LabelPartsEqual(w1: string, p1: string, m1: string, w2: string, p2: string, m2: string)
    requires |p1| == |p2| == 2 && |m1| == |m2| == 3
    requires w1 + ", " + p1 + " " + m1 == w2 + ", " + p2 + " " + m2
    ensures w1 == w2 && p1 == p2 && m1 == m2
  {
    var r1, r2 := w1 + ", " + p1 + " " + m1, w2 + ", " + p2 + " " + m2;
    assert |w1| == |w2|;
    assert r1[..|w1|] == w1 && r2[..|w2|] == w2;
    assert r1[|w1| + 2..|w1| + 4] == p1 && r2[|w2| + 2..|w2| + 4] == p2;
    assert r1[|w1| + 5..] == m1 && r2[|w2| + 5..] == m2;
  }

  /** Two absolute labels are equal exactly when the dates share weekday, day
      of month and month: the label ignores the year, and nothing else. */
  lemma WeekdayLabelInjective(d1: CalendarDate, d2: CalendarDate)
    ensures WeekdayLabel(d1) == WeekdayLabel(d2)
            <==> Weekday(d1) == Weekday(d2) && d1.day == d2.day && d1.month == d2.month
  {
    if WeekdayLabel(d1) == WeekdayLabel(d2) {
      var w1, w2 := Weekday(d1), Weekday(d2);
      var p1, p2 := PadZeros(Decimal(d1.day), 2), PadZeros(Decimal(d2.day), 2);
      MonthAbbrevsDistinct();
      DayDigits(d1.day);
      DayDigits(d2.day);
      LabelPartsEqual(WeekdayNames[w1], p1, MonthAbbrevs[d1.month], WeekdayNames[w2], p2, MonthAbbrevs[d2.month]);
      WeekdayNamesDistinct();
      assert WeekdayNames[w1] == WeekdayNames[w2];
      assert w1 == w2;
      assert d1.month == d2.month;
    }
  }

  /** A date two days before today gets its absolute label. */
  lemma TwoDaysAgoIsAbsolute(today: CalendarDate)
    ensures DateLabel(PrevDay(PrevDay(today)), today) == WeekdayLabel(PrevDay(PrevDay(today)))
  {
    var y := PrevDay(today);
    var b := PrevDay(y);
    PrevNextInverse(y);
    PrevNextInverse(today);
    assert b != y;
  }
}
