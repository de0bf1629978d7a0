/** The calendar conversion of `compat/gmtime_r.c`, against a Gregorian calendar that counts days
    year by year and month by month. */
module GmTime {
  // ----- the calendar

  predicate IsLeap(y: int) {
    y % 4 == 0 && (y % 100 != 0 || y % 400 == 0)
  }

  function YearLength(y: int): int {
    if IsLeap(y) then 366 else 365
  }

  function MonthLength(y: int, month: nat): int
    requires month < 12
  {
    if month == 1 then (if IsLeap(y) then 29 else 28)
    else if month == 3 || month == 5 || month == 8 || month == 10 then 30
    else 31
  }

  /** The days from the start of year 1 to the start of year y, negative for the years before it; the year
      before year 1 is year 0. */
  function DaysBefore(y: int): (d: int)
    ensures if y >= 1 then d >= 365 * (y - 1) else d < 365 * (y - 1)
    decreases if y >= 1 then y else 2 - y
  {
    if y == 1 then 0
    else if y > 1 then DaysBefore(y - 1) + YearLength(y - 1)
    else DaysBefore(y + 1) - YearLength(y)
  }

  function DaysBeforeMonth(y: int, month: nat): (d: nat)
    requires month <= 12
  {
    if month == 0 then 0 else DaysBeforeMonth(y, month - 1) + MonthLength(y, month - 1)
  }

  datatype Tm = Tm(sec: int, min: int, hour: int, mday: int, mon: int, year: int, wday: int, yday: int, isdst: int)

  const EPOCH_DAY := 719162  // the days before 1 January 1970

  predicate TimeOfDayOk(tm: Tm) {
    0 <= tm.sec < 60 && 0 <= tm.min < 60 && 0 <= tm.hour < 24
  }

  predicate DateOk(tm: Tm) {
    && 0 <= tm.mon < 12
    && 1 <= tm.mday <= MonthLength(tm.year + 1900, tm.mon)
  }

  /** The days from 1 January 1970 to the date. */
  function Days(tm: Tm): int
    requires DateOk(tm)
  {
    DaysBefore(tm.year + 1900) + DaysBeforeMonth(tm.year + 1900, tm.mon) + tm.mday - 1 - EPOCH_DAY
  }

  function Seconds(tm: Tm): int
    requires DateOk(tm)
  {
    86400 * Days(tm) + 3600 * tm.hour + 60 * tm.min + tm.sec
  }

  /** tm is the Gregorian date and time of day of t; 1 January 1970 was a Thursday. */
  predicate Represents(tm: Tm, t: int) {
    && TimeOfDayOk(tm) && DateOk(tm) && tm.isdst == 0
    && Seconds(tm) == t
    && tm.yday == DaysBeforeMonth(tm.year + 1900, tm.mon) + tm.mday - 1
    && tm.wday == (4 + Days(tm)) % 7
  }

  // ----- the fields are unique

  lemma {:induction false} MonthsGrow(y: int, m: nat, n: nat)
    requires m < n <= 12
    ensures DaysBeforeMonth(y, m) + MonthLength(y, m) <= DaysBeforeMonth(y, n)
  {
    if m + 1 < n { MonthsGrow(y, m, n - 1); }
  }

  lemma NextYear(y: int)
    ensures DaysBefore(y + 1) == DaysBefore(y) + YearLength(y)
  {
  }

  lemma {:induction false} YearsGrow(y: int, z: int)
    requires y < z
    ensures DaysBefore(y) + YearLength(y) <= DaysBefore(z)
    decreases z - y
  {
    NextYear(z - 1);
    if y + 1 < z { YearsGrow(y, z - 1); }
  }

  /** The day, counted from the start of year 1, is one of year c. */
  predicate InYear(day: int, c: int) {
    DaysBefore(c) <= day < DaysBefore(c) + YearLength(c)
  }

  lemma SameYear(day: int, c: int, z: int)
    requires InYear(day, c) && InYear(day, z)
    ensures c == z
  {
    if c < z { YearsGrow(c, z); }
    if z < c { YearsGrow(z, c); }
  }

  lemma {:induction false} FindYear(day: int, y: int) returns (c: int)
    ensures InYear(day, c)
    decreases if day < DaysBefore(y) then DaysBefore(y) - day else day - DaysBefore(y)
  {
    NextYear(y);
    NextYear(y - 1);
    if InYear(day, y) {
      c := y;
    } else if day < DaysBefore(y - 1) {
      c := FindYear(day, y - 1);
    } else if day < DaysBefore(y) {
      c := y - 1;
    } else {
      c := FindYear(day, y + 1);
    }
  }

  lemma SomeYear(day: int)
    ensures exists c :: InYear(day, c)
  {
    var c := FindYear(day, 1);
  }

  /** The year that a day is in. */
  ghost function YearAt(day: int): (c: int)
    ensures InYear(day, c)
  {
    SomeYear(day);
    var c :| InYear(day, c);
    c
  }

  lemma MonthsOfYear(y: int)
    ensures DaysBeforeMonth(y, 12) == YearLength(y)
  {
    assert DaysBeforeMonth(y, 2) == DaysBeforeMonth(y, 1) + MonthLength(y, 1);
    assert DaysBeforeMonth(y, 4) == DaysBeforeMonth(y, 2) + 61;
    assert DaysBeforeMonth(y, 6) == DaysBeforeMonth(y, 4) + 61;
    assert DaysBeforeMonth(y, 8) == DaysBeforeMonth(y, 6) + 62;
    assert DaysBeforeMonth(y, 10) == DaysBeforeMonth(y, 8) + 61;
  }

  /** The months, counted from March, begin after 153 days in every five of them; what is before March is the
      end of the year before. */
  lemma FromMarch(y: int, month: nat)
    requires month <= 12
    ensures month >= 2 ==> DaysBeforeMonth(y, month) == (153 * (month - 2) + 2) / 5 + if IsLeap(y) then 60 else 59
    ensures month < 2 ==> DaysBeforeMonth(y, month) == (153 * (month + 10) + 2) / 5 - 306
  {
    assert DaysBeforeMonth(y, 0) == 0 && DaysBeforeMonth(y, 1) == 31;
    if month > 2 {
      FromMarch(y, month - 1);
    }
  }

  lemma YearDayInYear(tm: Tm)
    requires DateOk(tm)
    ensures 0 <= DaysBeforeMonth(tm.year + 1900, tm.mon) + tm.mday - 1 < YearLength(tm.year + 1900)
  {
    MonthsGrow(tm.year + 1900, tm.mon, 12);
    MonthsOfYear(tm.year + 1900);
  }

  lemma SameMonth(f: Tm, g: Tm)
    requires DateOk(f) && DateOk(g) && f.year == g.year
    requires DaysBeforeMonth(f.year + 1900, f.mon) + f.mday == DaysBeforeMonth(g.year + 1900, g.mon) + g.mday
    ensures f.mon == g.mon && f.mday == g.mday
  {
    if f.mon < g.mon { MonthsGrow(f.year + 1900, f.mon, g.mon); }
    if g.mon < f.mon { MonthsGrow(f.year + 1900, g.mon, f.mon); }
  }

  lemma SameDay(f: Tm, g: Tm)
    requires DateOk(f) && DateOk(g) && Days(f) == Days(g)
    ensures f.year == g.year && f.mon == g.mon && f.mday == g.mday
  {
    YearDayInYear(f);
    YearDayInYear(g);
    SameYear(Days(f) + EPOCH_DAY, f.year + 1900, g.year + 1900);
    SameMonth(f, g);
  }

  lemma SamePart(a: int, r: int, b: int, s: int, n: int)
    requires n in {60, 86400} && 0 <= r < n && 0 <= s < n && n * a + r == n * b + s
    ensures a == b && r == s
  {
  }

  lemma Unique(f: Tm, g: Tm, t: int)
    requires Represents(f, t) && Represents(g, t)
    ensures f == g
  {
    var r, s := 3600 * f.hour + 60 * f.min + f.sec, 3600 * g.hour + 60 * g.min + g.sec;
    SamePart(Days(f), r, Days(g), s, 86400);
    SamePart(60 * f.hour + f.min, f.sec, 60 * g.hour + g.min, g.sec, 60);
    SamePart(f.hour, f.min, g.hour, g.min, 60);
    SameDay(f, g);
  }

  // ----- the year-guess loop

  /** Division and remainder of C, which truncate. */
  function Quot(a: int, b: int): int
    requires b > 0
  {
    if a >= 0 then a / b else -(-a / b)
  }

  function Rem(a: int, b: int): int
    requires b > 0
  {
    a - b * Quot(a, b)
  }

  /** LEAPS_THRU_END_OF. */
  function Leaps(y: int): int {
    Quot(y, 4) - Quot(y, 100) + Quot(y, 400)
  }

  /** What an iteration keeps: the days from the start of year 1, plus 365. */
  function Total(days: int, y: int): int {
    days + 365 * y + Leaps(y - 1)
  }

  /** Truncating division counts a leap day too many before a year below 1, unless it comes after a leap year. */
  function Off(y: int): int {
    if y <= 0 && !IsLeap(y - 1) then 1 else 0
  }

  lemma {:induction false} DaysBeforeIs(y: int)
    ensures DaysBefore(y) + Off(y) == 365 * (y - 1) + Leaps(y - 1)
    decreases if y >= 1 then y else 2 - y
  {
    if y > 1 {
      DaysBeforeIs(y - 1);
      LeapsStep(y - 1);
    } else if y < 1 {
      DaysBeforeIs(y + 1);
      LeapsStep(y);
    }
  }

  /** The leap days that are counted between the start of a year and that of the next one. */
  lemma LeapsStep(y: int)
    ensures Leaps(y) - Leaps(y - 1) == if IsLeap(if y >= 1 then y else y - 1) then 1 else 0
  {
    if y >= 1 {
      LeapsUp(y);
    } else {
      LeapsUp(1 - y);
      LeapsOdd(y);
      LeapsOdd(y - 1);
      LeapEven(y - 1);
    }
  }

  lemma LeapsOdd(y: int)
    ensures Leaps(y) == -Leaps(-y)
  {
  }

  lemma Whole4(q: int)
    ensures (4 * q) % 4 == 0
  {
  }

  lemma Whole100(q: int)
    ensures (100 * q) % 100 == 0
  {
  }

  lemma Whole400(q: int)
    ensures (400 * q) % 400 == 0
  {
  }

  lemma Even4(y: int)
    requires y % 4 == 0
    ensures -y % 4 == 0
  {
    var q := -(y / 4);
    assert -y == 4 * q;
    Whole4(q);
  }

  lemma Even100(y: int)
    requires y % 100 == 0
    ensures -y % 100 == 0
  {
    var q := -(y / 100);
    assert -y == 100 * q;
    Whole100(q);
  }

  lemma Even400(y: int)
    requires y % 400 == 0
    ensures -y % 400 == 0
  {
    var q := -(y / 400);
    assert -y == 400 * q;
    Whole400(q);
  }

  lemma LeapNegated(y: int)
    requires IsLeap(y)
    ensures IsLeap(-y)
  {
    Even4(y);
    if -y % 100 == 0 { Even100(-y); }
    if y % 400 == 0 { Even400(y); }
  }

  lemma LeapEven(y: int)
    ensures IsLeap(y) <==> IsLeap(-y)
  {
    if IsLeap(y) { LeapNegated(y); }
    if IsLeap(-y) { LeapNegated(-y); }
  }

  lemma LeapsUp(y: int)
    requires y >= 1
    ensures Leaps(y) - Leaps(y - 1) == if IsLeap(y) then 1 else 0
  {
    DivStep(y, 4);
    DivStep(y, 100);
    DivStep(y, 400);
    if y % 400 == 0 { Multiples(y / 400); }
    if y % 100 == 0 { Multiples(y / 100); }
  }

  lemma Multiples(q: int)
    ensures (400 * q) % 100 == 0 && (100 * q) % 4 == 0
  {
  }

  lemma DivStep(y: int, n: int)
    requires y >= 1 && n in {4, 100, 400}
    ensures y / n - (y - 1) / n == if y % n == 0 then 1 else 0
  {
    if n == 4 {
      assert y / 4 - (y - 1) / 4 == if y % 4 == 0 then 1 else 0;
    } else if n == 100 {
      assert y / 100 - (y - 1) / 100 == if y % 100 == 0 then 1 else 0;
    } else {
      assert y / 400 - (y - 1) / 400 == if y % 400 == 0 then 1 else 0;
    }
  }

  lemma QuotGrows(a: int, b: int, n: int)
    requires a <= b && n in {4, 25}
    ensures 0 <= Quot(b, n) - Quot(a, n) <= (b - a) / n + 1
    ensures Quot(b, n) - Quot(a, n) <= b - a
  {
  }

  lemma QuotOfQuot(a: int)
    ensures Quot(a, 100) == Quot(Quot(a, 4), 25) && Quot(a, 400) == Quot(Quot(a, 100), 4)
  {
  }

  /** Between two years there are at most a quarter as many leap days, and one. */
  lemma LeapsBetween(a: int, b: int)
    requires a <= b
    ensures 0 <= Leaps(b) - Leaps(a) <= (b - a) / 4 + 1
  {
    QuotOfQuot(a);
    QuotOfQuot(b);
    QuotGrows(a, b, 4);
    QuotGrows(Quot(a, 4), Quot(b, 4), 25);
    QuotGrows(Quot(a, 100), Quot(b, 100), 4);
  }

  /** One iteration of the loop. */
  function Step(days: int, y: int): (int, int) {
    var newy := y + Quot(days, 365) - (if days < 0 then 1 else 0);
    (days - ((newy - y) * 365 + Leaps(newy - 1) - Leaps(y - 1)), newy)
  }

  predicate Done(days: int, y: int) {
    0 <= days < YearLength(y)
  }

  function Measure(days: int): nat {
    if days >= 0 then days else 400 - days
  }

  /** Overshooting back: the next guess lies before the date, not far. */
  lemma Backward(days: int, y: int)
    requires days < 0
    ensures Measure(Step(days, y).0) < Measure(days)
  {
    var k := -Quot(days, 365) + 1;
    LeapsBetween(y - k - 1, y - 1);
  }

  /** The first day of a year when the year before the last one was a leap year: the guess that is too early
      by a year and the one that is right lead to each other. */
  predicate Astride(days: int, y: int) {
    days == 365 && y <= 0 && IsLeap(y - 1)
  }

  /** Going forward: the next guess can overshoot by the leap days passed over. */
  lemma Forward(days: int, y: int)
    requires days >= YearLength(y) && !Astride(days, y)
    ensures Measure(Step(days, y).0) < Measure(days)
  {
    var k := days / 365;
    LeapsBetween(y - 1, y + k - 1);
    if k == 1 {
      LeapsStep(y);
    }
  }

  lemma TotalIs(days: int, y: int)
    ensures Total(days, y) == DaysBefore(y) + Off(y) + days + 365
  {
    DaysBeforeIs(y);
  }

  lemma Progress(days: int, y: int)
    requires !Done(days, y) && !Astride(days, y)
    ensures Measure(Step(days, y).0) < Measure(days)
  {
    if days < 0 {
      Backward(days, y);
    } else {
      Forward(days, y);
    }
  }

  lemma StepKeeps(days: int, y: int)
    ensures var s := Step(days, y); Total(s.0, s.1) == Total(days, y)
  {
  }

  // ----- which days are converted

  /** The first day of a year below 1 that comes two years after a leap year. */
  ghost predicate Endless(day: int) {
    var c := YearAt(day);
    c <= 0 && IsLeap(c - 2) && day == DaysBefore(c)
  }

  /** The first day of a year below 1 that comes after a leap year. */
  ghost predicate FirstAfterLeap(day: int) {
    var c := YearAt(day);
    c <= 0 && IsLeap(c - 1) && day == DaysBefore(c)
  }

  /** A day from year 1 on, or of a year that comes after a leap year. */
  ghost predicate Right(day: int) {
    YearAt(day) >= 1 || IsLeap(YearAt(day) - 1)
  }

  /** Whatever state the loop ends in with a day, it has found the day or the day before. */
  lemma EndState(day: int, days: int, y: int)
    requires Done(days, y) && Total(days, y) == day + 365
    ensures DaysBefore(y) + days == day - Off(y) && y == YearAt(day - Off(y))
  {
    TotalIs(days, y);
    SameYear(day - Off(y), y, YearAt(day - Off(y)));
  }

  lemma YearBefore(day: int)
    ensures YearAt(day - 1) == if day == DaysBefore(YearAt(day)) then YearAt(day) - 1 else YearAt(day)
  {
    var c := YearAt(day);
    NextYear(c - 1);
    SameYear(day - 1, YearAt(day - 1), if day == DaysBefore(c) then c - 1 else c);
  }

  /** No state of the loop is an end for an endless day. */
  lemma EndlessState(day: int, days: int, y: int)
    requires Endless(day) && Total(days, y) == day + 365
    ensures !Done(days, y)
  {
    if Done(days, y) {
      EndState(day, days, y);
      YearBefore(day);
      NextTwo(YearAt(day));
      assert false;
    }
  }

  /** Leap years are not neighbours. */
  lemma NextTwo(c: int)
    ensures IsLeap(c - 2) ==> !IsLeap(c - 1)
    ensures IsLeap(c - 1) ==> !IsLeap(c - 2)
  {
  }

  /** The only state without progress belongs to an endless day. */
  lemma AstrideIsEndless(day: int, days: int, y: int)
    requires Astride(days, y) && Total(days, y) == day + 365
    ensures Endless(day)
  {
    TotalIs(days, y);
    NextTwo(y + 1);
    NextYear(y);
    SameYear(day, y + 1, YearAt(day));
  }

  /** When the loop has found the day itself, and when the day before. */
  lemma FoundIs(day: int, days: int, y: int)
    requires Done(days, y) && Total(days, y) == day + 365 && (day == 0 ==> y >= 1)
    ensures !FirstAfterLeap(day) ==> (Off(y) == 0 <==> Right(day))
    ensures Off(y) == 0 ==> Right(day)
  {
    EndState(day, days, y);
    YearBefore(day);
    assert DaysBefore(1) == 0;
  }

  /** The guesses for the first day of year 1, which never end in year 0. */
  predicate FirstDay(days: int, y: int) {
    (days == -EPOCH_DAY && y == 1970) || (days == 730 && y == -1) || (days == 0 && y == 1)
  }

  lemma FirstDayStep(days: int, y: int)
    requires FirstDay(days, y) && !Done(days, y)
    ensures FirstDay(Step(days, y).0, Step(days, y).1)
  {
  }

  /** The loop finds the year and the day in it of the day, or of the day before: of the day itself from year 1
      on and in every year after a leap year, but on the first day of such a year it may be either.  It ends for
      all days but the endless ones. */
  method YearOf(n: int) returns (days: int, y: int)
    requires !Endless(n + EPOCH_DAY)
    ensures Done(days, y) && DaysBefore(y) + days == n + EPOCH_DAY - Off(y)
    ensures !FirstAfterLeap(n + EPOCH_DAY) ==> (Off(y) == 0 <==> Right(n + EPOCH_DAY))
    ensures Off(y) == 0 ==> Right(n + EPOCH_DAY)
  {
    days, y := n, 1970;
    ghost var day := n + EPOCH_DAY;
    assert Leaps(1969) == 477;
    while days < 0 || days >= YearLength(y)
      invariant Total(days, y) == day + 365
      invariant day == 0 ==> FirstDay(days, y)
      decreases Measure(days)
    {
      if Astride(days, y) {
        AstrideIsEndless(day, days, y);
        assert false;
      }
      Progress(days, y);
      StepKeeps(days, y);
      if day == 0 {
        FirstDayStep(days, y);
      }
      var newy := y + Quot(days, 365);
      if days < 0 {
        newy := newy - 1;
      }
      ghost var next := Step(days, y);
      days := days - ((newy - y) * 365 + Leaps(newy - 1) - Leaps(y - 1));
      y := newy;
      assert days == next.0 && y == next.1;
    }
    EndState(day, days, y);
    FoundIs(day, days, y);
  }

  method MonthOf(y: int, yday: int) returns (mon: nat, mday: int)
    requires Done(yday, y)
    ensures mon < 12 && 1 <= mday <= MonthLength(y, mon) && DaysBeforeMonth(y, mon) + mday - 1 == yday
  {
    MonthsOfYear(y);
    var days := yday;
    mon := 0;
    while days >= MonthLength(y, mon)
      invariant mon < 12 && days >= 0 && DaysBeforeMonth(y, mon) + days == yday
      decreases days
    {
      days := days - MonthLength(y, mon);
      mon := mon + 1;
    }
    mday := days + 1;
  }

  // ----- the conversion

  /** Conversion to a 32-bit int, as the fields of the struct are. */
  function ToInt(x: int): int {
    (x + 0x8000_0000) % 0x1_0000_0000 - 0x8000_0000
  }

  predicate IsInt(x: int) {
    -0x8000_0000 <= x <= 0x7fff_ffff
  }

  const FIRST_TIME := -62135596800      // 0001-01-01 00:00:00
  const LAST_TIME := 67768036191676799  // 2147485547-12-31 23:59:59

  /** The day of a time, counted from the start of year 1. */
  function DayOf(t: int): int {
    t / 86400 + EPOCH_DAY
  }

  /** From year 1 on the years that fit an int are those up to the last time. */
  lemma LastYear(t: int)
    requires t >= FIRST_TIME
    ensures YearAt(DayOf(t)) >= 1 && (IsInt(YearAt(DayOf(t)) - 1900) <==> t <= LAST_TIME)
  {
    var y := YearAt(DayOf(t));
    assert DaysBefore(1) == 0;
    if y < 1 { YearsGrow(y, 1); }
    DaysBeforeIs(2147485548);
    assert Leaps(2147485547) == 520765244;
    if y < 2147485548 {
      YearsGrow(y, 2147485548);
    } else if y > 2147485548 {
      YearsGrow(2147485548, y);
    }
  }

  /** Whole days and the seconds left in the last one. */
  method SplitDays(t: int, offset: int) returns (days: int, rem: int)
    ensures 0 <= rem < 86400 && 86400 * days + rem == t + offset
  {
    days, rem := Quot(t, 86400), Rem(t, 86400);
    rem := rem + offset;
    while rem < 0
      invariant 86400 * days + rem == t + offset
      decreases -rem
    {
      rem := rem + 86400;
      days := days - 1;
    }
    while rem >= 86400
      invariant rem >= 0 && 86400 * days + rem == t + offset
    {
      rem := rem - 86400;
      days := days + 1;
    }
  }

  method WeekDay(days: int) returns (wday: int)
    ensures wday == (4 + days) % 7
  {
    wday := Rem(4 + days, 7);
    if wday < 0 {
      wday := wday + 7;
    }
  }

  /** The fields are a date and time of day, with the day of the year; the day of the week is that of t. */
  predicate Shows(tm: Tm, t: int) {
    && TimeOfDayOk(tm) && DateOk(tm) && tm.isdst == 0
    && tm.yday == DaysBeforeMonth(tm.year + 1900, tm.mon) + tm.mday - 1
    && tm.wday == (4 + t / 86400) % 7
  }

  /** `timesub`, for all times of days that are not endless: the fields are those of the calendar for the
      time, or for the time a day earlier; the day of the week is right in any case, and the year is cut to an int. */
  method TimeSub(t: int, offset: int) returns (tm: Tm, ghost year: int)
    requires !Endless(DayOf(t + offset))
    ensures tm.year == ToInt(year)
    ensures var exact := tm.(year := year); Shows(exact, t + offset) && Seconds(exact) == t + offset - 86400 * Off(year + 1900)
    ensures !FirstAfterLeap(DayOf(t + offset)) ==> (Off(year + 1900) == 0 <==> Right(DayOf(t + offset)))
    ensures Off(year + 1900) == 0 ==> Right(DayOf(t + offset))
  {
    var days, rem := SplitDays(t, offset);
    assert days == (t + offset) / 86400;
    var hour := rem / 3600;
    rem := rem % 3600;
    var wday := WeekDay(days);
    var yday, y := YearOf(days);
    var mon, mday := MonthOf(y, yday);
    tm := Tm(rem % 60, rem / 60, hour, mday, mon, ToInt(y - 1900), wday, yday, 0);
    year := y - 1900;
  }

  /** The date of the fields is that of the day. */
  lemma DateIs(f: Tm, day: int)
    requires DateOk(f) && Days(f) + EPOCH_DAY == day
    ensures f.year + 1900 == YearAt(day)
  {
    YearDayInYear(f);
    SameYear(day, f.year + 1900, YearAt(day));
  }

  lemma SecondsDay(f: Tm, t: int)
    requires DateOk(f) && TimeOfDayOk(f) && Seconds(f) == t
    ensures Days(f) == t / 86400
  {
    SamePart(Days(f), 3600 * f.hour + 60 * f.min + f.sec, t / 86400, t % 86400, 86400);
  }

  /** What the fields with the year cut represent. */
  lemma CutYear(t: int, tm: Tm, year: int, off: int)
    requires tm.year == ToInt(year) && 0 <= off <= 1
    requires var exact := tm.(year := year); Shows(exact, t) && Seconds(exact) == t - 86400 * off
    ensures Represents(tm, t) <==> off == 0 && IsInt(YearAt(DayOf(t)) - 1900)
  {
    ExactYear(t, tm.(year := year), off);
    if Represents(tm, t) {
      NotEarly(t, tm, year, off);
    } else if off == 0 && IsInt(year) {
      ShowsRight(t, tm, year);
    }
  }

  lemma ShowsRight(t: int, tm: Tm, year: int)
    requires tm.year == ToInt(year) && IsInt(year)
    requires var exact := tm.(year := year); Shows(exact, t) && Seconds(exact) == t
    ensures Represents(tm, t)
  {
    assert tm == tm.(year := year);
    SecondsDay(tm, t);
  }

  lemma NotEarly(t: int, tm: Tm, year: int, off: int)
    requires tm.year == ToInt(year) && Represents(tm, t) && DateOk(tm.(year := year))
    requires Seconds(tm.(year := year)) == t - 86400 * off
    requires year + 1900 == YearAt(DayOf(t)) || year + 1901 == YearAt(DayOf(t))
    ensures off == 0 && year == YearAt(DayOf(t)) - 1900 && IsInt(year)
  {
    TrueYear(t, tm);
    NotCut(year, tm.year);
    assert tm == tm.(year := year);
  }

  lemma TrueYear(t: int, tm: Tm)
    requires Represents(tm, t)
    ensures tm.year + 1900 == YearAt(DayOf(t))
  {
    SecondsDay(tm, t);
    DateIs(tm, DayOf(t));
  }

  /** Where the day before is found and its year is not cut, its date is shown. */
  lemma EarlyDate(t: int, tm: Tm, year: int)
    requires tm.year == ToInt(year) && Off(year + 1900) == 1
    requires var exact := tm.(year := year); Shows(exact, t) && Seconds(exact) == t - 86400
    requires IsInt(YearAt(DayOf(t)) - 1900) && IsInt(YearAt(DayOf(t)) - 1901)
    ensures Shows(tm, t) && Seconds(tm) == t - 86400
  {
    ExactYear(t, tm.(year := year), 1);
    assert tm == tm.(year := year);
  }

  lemma ExactYear(t: int, exact: Tm, off: int)
    requires Shows(exact, t) && 0 <= off <= 1 && Seconds(exact) == t - 86400 * off
    ensures exact.year + 1900 == YearAt(DayOf(t) - off)
    ensures exact.year + 1900 == YearAt(DayOf(t)) || (off == 1 && exact.year + 1901 == YearAt(DayOf(t)))
  {
    SecondsDay(exact, t - 86400 * off);
    DateIs(exact, DayOf(t) - off);
    YearBefore(DayOf(t));
  }

  lemma NotCut(year: int, x: int)
    requires x == ToInt(year) && (x == year || x == year + 1)
    ensures x == year && IsInt(year)
  {
  }

  /** `gmtime_r`: but for the first day of a year after a leap year, the fields are those of the calendar if and
      only if the year fits an int and is at least 1 or comes after a leap year; from year 1 on, that is up to the
      last second of a year that fits.  No other fields are.  In the other years the date is that of the day before. */
  method GmtimeR(t: int) returns (tm: Tm)
    requires !Endless(DayOf(t))
    ensures !FirstAfterLeap(DayOf(t)) ==>
      (Represents(tm, t) <==> Right(DayOf(t)) && IsInt(YearAt(DayOf(t)) - 1900))
    ensures !Right(DayOf(t)) && IsInt(YearAt(DayOf(t)) - 1900) && IsInt(YearAt(DayOf(t)) - 1901) ==>
      Shows(tm, t) && Seconds(tm) == t - 86400
    ensures t >= FIRST_TIME ==> (Represents(tm, t) <==> t <= LAST_TIME)
    ensures Represents(tm, t) ==> Right(DayOf(t)) && forall f :: Represents(f, t) ==> f == tm
  {
    ghost var year;
    tm, year := TimeSub(t, 0);
    CutYear(t, tm, year, Off(year + 1900));
    if !Right(DayOf(t)) && IsInt(YearAt(DayOf(t)) - 1900) && IsInt(YearAt(DayOf(t)) - 1901) {
      EarlyDate(t, tm, year);
    }
    if t >= FIRST_TIME {
      LastYear(t);
    }
    if Represents(tm, t) {
      forall f | Represents(f, t)
        ensures f == tm
      {
        Unique(f, tm, t);
      }
    }
  }

  // ----- before the year 1

  /** The day before: the loop ends on 30 December of year 0, whose last day is the 31st. */
  lemma YearZeroIsOff()
    ensures Step(-EPOCH_DAY - 1, 1970) == (729, -1)
    ensures Step(729, -1) == (364, 0) && Done(364, 0)
    ensures YearLength(0) == 366
  {
  }

  function Iterate(s: (int, int), n: nat): (int, int)
    decreases n
  {
    if n == 0 then s else Iterate(Step(s.0, s.1), n - 1)
  }

  lemma {:induction false} IterateKeeps(s: (int, int), n: nat)
    ensures var r := Iterate(s, n); Total(r.0, r.1) == Total(s.0, s.1)
    decreases n
  {
    if n > 0 {
      StepKeeps(s.0, s.1);
      IterateKeeps(Step(s.0, s.1), n - 1);
    }
  }

  lemma {:induction false} EndsFrom(day: int, s: (int, int)) returns (n: nat)
    requires !Endless(day) && Total(s.0, s.1) == day + 365
    ensures var r := Iterate(s, n); Done(r.0, r.1)
    decreases Measure(s.0)
  {
    if Done(s.0, s.1) {
      n := 0;
    } else {
      if Astride(s.0, s.1) {
        AstrideIsEndless(day, s.0, s.1);
        assert false;
      }
      Progress(s.0, s.1);
      StepKeeps(s.0, s.1);
      n := EndsFrom(day, Step(s.0, s.1));
      n := n + 1;
    }
  }

  predicate DoneAfter(day: int, n: nat) {
    var r := Iterate((day - EPOCH_DAY, 1970), n);
    Done(r.0, r.1)
  }

  /** The loop ends if and only if the day is not endless. */
  lemma EndsIff(day: int)
    ensures (exists n :: DoneAfter(day, n)) <==> !Endless(day)
  {
    var s := (day - EPOCH_DAY, 1970);
    assert Total(s.0, s.1) == day + 365;
    if Endless(day) {
      forall n: nat
        ensures !DoneAfter(day, n)
      {
        IterateKeeps(s, n);
        EndlessState(day, Iterate(s, n).0, Iterate(s, n).1);
      }
    } else {
      var n := EndsFrom(day, s);
      assert DoneAfter(day, n);
    }
  }

  /** On the first day of a year after a leap year either comes out: 1 January of year -3 is right, and that of
      year -2260279 is taken for the day before. */
  lemma EitherFirstDay()
    ensures Step(-720623, 1970) == (730, -5) && Step(730, -5) == (0, -3) && Done(0, -3)
    ensures Step(-826269480, 1970) == (549325, -2261783) && Step(549325, -2261783) == (-366, -2260278)
    ensures Step(-366, -2260278) == (365, -2260280) && Done(365, -2260280)
    ensures FirstAfterLeap(-720623 + EPOCH_DAY) && FirstAfterLeap(-826269480 + EPOCH_DAY)
  {
    FirstDays(-3);
    FirstDays(-2260279);
  }

  lemma FirstDays(c: int)
    requires c <= 0 && IsLeap(c - 1)
    ensures var day := 365 * (c - 1) + Leaps(c - 1); FirstAfterLeap(day)
  {
    DaysBeforeIs(c);
    SameYear(DaysBefore(c), c, YearAt(DaysBefore(c)));
  }

  lemma ForthAndBack()
    ensures Step(-720258, 1970) == (730, -4) && Step(730, -4) == (-1, -2)
    ensures Step(-1, -2) == (365, -3) && Step(365, -3) == (-1, -2)
  {
  }

  lemma {:induction false} ForEver(n: nat)
    ensures Iterate((-1, -2), n) == if n % 2 == 0 then (-1, -2) else (365, -3)
  {
    ForthAndBack();
    if n >= 2 {
      ForEver(n - 2);
      assert Iterate((-1, -2), n) == Iterate((365, -3), n - 1) == Iterate((-1, -2), n - 2);
    }
  }

  /** On 1 January of year -2 the loop steps forth and back for ever. */
  lemma NeverDone(s: (int, int), n: nat)
    requires s == (-720258, 1970)
    ensures var r := Iterate(s, n); !Done(r.0, r.1)
    ensures n >= 2 ==> Iterate(s, n) == if n % 2 == 0 then (-1, -2) else (365, -3)
  {
    ForthAndBack();
    if n >= 2 {
      ForEver(n - 2);
      assert Iterate(s, n) == Iterate((730, -4), n - 1) == Iterate((-1, -2), n - 2);
    }
  }
}
