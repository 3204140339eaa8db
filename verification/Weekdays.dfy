/** Weekdays, the nth and the last weekday of a month, and ISO week dates (date.h).

    Days are unbounded integers; `WeekdayFromDays` is the code's computation through `unsigned`,
    and on the range of `int` it is `Weekday`, which the rest of the module uses. */
module Weekdays {
  import opened Calendar

  const MONDAY: nat := 1
  const WEDNESDAY: nat := 3
  const THURSDAY: nat := 4

  /** Sunday is 0; day 0, 1 January 1970, is a Thursday. */
  function Weekday(z: int): nat { (z + 4) % 7 }

  /** `weekday::weekday_from_days`. */
  function WeekdayFromDays(z: int): nat
  {
    var u := U32(z);
    if z >= -4 then U32(u + 4) % 7 else u % 7
  }

  /** `weekday::weekday(unsigned)`: 7 is another name of Sunday. */
  function MakeWeekday(wd: nat): nat { if wd != 7 then wd else 0 }

  /** Difference of two weekdays, in days. */
  function Minus(x: nat, y: nat): int
  {
    var wdu := x - y;
    var wk := Quot(if wdu >= 0 then wdu else wdu - 6, 7);
    wdu - wk * 7
  }

  function Plus(x: nat, n: int): nat
  {
    var wdu := x + n;
    var wk := Quot(if wdu >= 0 then wdu else wdu - 6, 7);
    MakeWeekday(U32(wdu - wk * 7))
  }

  lemma NegativeU32(z: int)
    requires z + TWO_32 >= 0 && z < 0
    ensures U32(z) == z + TWO_32
  {
  }

  /** 2^32 is four more than a multiple of seven. */
  lemma WrapIsFourMore(z: int)
    ensures (z + TWO_32) % 7 == (z + 4) % 7
  {
    assert z + TWO_32 == (z + 4) + 7 * 613566756;
  }

  /** Both branches of the code, the wrapping one too, on every value of an `int`. */
  lemma WeekdayFromDaysIsWeekday(z: int)
    requires -0x8000_0000 <= z < 0x8000_0000
    ensures WeekdayFromDays(z) == Weekday(z)
  {
    if z >= -4 {
      WrapInside(4, z);
      SmallU32(4 + z);
    } else {
      NegativeU32(z);
      WrapIsFourMore(z);
    }
  }

  lemma MinusIsMod(x: nat, y: nat)
    ensures Minus(x, y) == (x - y) % 7
  {
  }

  /** Adding days to a weekday is stepping that many days from any day with that weekday. */
  lemma PlusFollowsDays(z: int, n: int)
    ensures Plus(Weekday(z), n) == Weekday(z + n)
  {
    var x := Weekday(z) + n;
    assert Quot(if x >= 0 then x else x - 6, 7) == x / 7;
    assert 0 <= x % 7 < 7 && x - x / 7 * 7 == x % 7;
    assert z + n + 4 == 7 * ((z + 4) / 7) + x;
  }

  lemma MinusUndoesPlus(z: int, w: int)
    ensures Plus(Weekday(z), Minus(Weekday(w), Weekday(z))) == Weekday(w)
  {
    hide Plus;
    MinusIsMod(Weekday(w), Weekday(z));
    assert Weekday(z + (Weekday(w) - Weekday(z)) % 7) == Weekday(w);
    PlusFollowsDays(z, Minus(Weekday(w), Weekday(z)));
  }

  lemma WeeksLater(z: int, n: int)
    ensures Weekday(z + 7 * n) == Weekday(z)
  {
    assert z + 7 * n + 4 == z + 4 + 7 * n;
  }

  lemma WholeWeeks(n: int, r: int)
    requires 0 <= r < 7
    ensures (7 * n + r) / 7 == n
  {
  }

  // ----- Days of a year -----

  function NewYearsDay(y: int): int { ToDays(Date(y, 1, 1)) }

  lemma NewYearsDays(y: int)
    ensures NewYearsDay(y) == ToDays(Date(y - 1, 12, 31)) + 1
    ensures NewYearsDay(y + 1) - NewYearsDay(y) == if IsLeap(y) then 366 else 365
  {
    hide ToDays, DateOf;
    ToDaysOfNextDay(Date(y - 1, 12, 31));
    ToDaysIsSerial(Date(y, 1, 1));
    ToDaysIsSerial(Date(y + 1, 1, 1));
    NewYear(y);
  }

  lemma YearOfDay(z: int, y: int)
    ensures DateOf(z).year == y <==> NewYearsDay(y) <= z < NewYearsDay(y + 1)
  {
    hide ToDays, DateOf;
    var x := DateOf(z);
    ToDaysOfDateOf(z);
    ToDaysKeepsOrder(x, Date(y, 1, 1));
    ToDaysKeepsOrder(x, Date(y + 1, 1, 1));
  }

  /** A few weeks from the first of a month on, the year is the month's or the next. */
  lemma AboutMonth(y: int, m: nat, n: nat)
    requires 1 <= m <= 12 && n <= 34
    ensures var z := ToDays(Date(y, m, 1)) + n;
            NewYearsDay(y) <= z < NewYearsDay(y + 2) && y <= DateOf(z).year <= y + 1
  {
    hide ToDays, DateOf, Serial;
    var z := ToDays(Date(y, m, 1)) + n;
    ToDaysIsSerial(Date(y, m, 1));
    ToDaysIsSerial(Date(y, 1, 1));
    ToDaysIsSerial(Date(y + 1, 1, 1));
    InsideYear(Date(y, m, 1));
    NewYearsDays(y + 1);
    YearOfDay(z, y);
    YearOfDay(z, y + 1);
  }

  // ----- The nth weekday of a month -----

  /** `year_month_weekday`: for example, the second Tuesday of May. */
  datatype Indexed = Indexed(year: int, month: nat, weekday: nat, index: nat)

  function IndexedFromDays(z: int): Indexed
  {
    var x := FromDays(z);
    Indexed(x.year, x.month, Weekday(z), (x.day - 1) / 7 + 1)
  }

  function IndexedToDays(x: Indexed): int
  {
    var d := ToDays(Date(x.year, x.month, 1));
    d + Minus(x.weekday, Weekday(d)) + I32(U32((x.index - 1) * 7))
  }

  /** `year_month_weekday::ok`. */
  predicate IndexedOk(x: Indexed)
  {
    && MIN_YEAR <= x.year <= MAX_YEAR && 1 <= x.month <= 12 && x.weekday <= 6 && x.index >= 1
    && (x.index <= 4 ||
        Minus(x.weekday, Weekday(ToDays(Date(x.year, x.month, 1)))) + (x.index - 1) * 7 + 1
          <= LastDay(x.year, x.month))
  }

  lemma FirstOfMonth(x: Date)
    requires Civil(x)
    ensures ToDays(Date(x.year, x.month, 1)) == ToDays(x) - (x.day - 1)
  {
    ToDaysIsSerial(x);
    ToDaysIsSerial(Date(x.year, x.month, 1));
  }

  lemma IndexOffset(index: nat)
    requires 1 <= index <= 255
    ensures I32(U32((index - 1) * 7)) == (index - 1) * 7
  {
  }

  lemma WeekdaySteps(d: int, n: int)
    ensures (Weekday(d + n) - Weekday(d)) % 7 == n % 7
  {
  }

  /** A day is as many days after the first of its month as its weekday and index say. */
  lemma SplitMonth(d: int, n: nat)
    requires n <= 30
    ensures Minus(Weekday(d + n), Weekday(d)) + I32(U32((n / 7 + 1 - 1) * 7)) == n
  {
    MinusIsMod(Weekday(d + n), Weekday(d));
    IndexOffset(n / 7 + 1);
    WeekdaySteps(d, n);
    hide Minus, Weekday, I32, U32;
  }

  /** The day an nth-weekday form means, counted from the first of its month. */
  lemma IndexedDay(x: Indexed) returns (d: int, n: nat)
    requires 1 <= x.month <= 12 && x.weekday <= 6 && 1 <= x.index <= 255
    ensures d == ToDays(Date(x.year, x.month, 1))
    ensures n == Minus(x.weekday, Weekday(d)) + (x.index - 1) * 7
    ensures IndexedToDays(x) == d + n && Weekday(d + n) == x.weekday && n / 7 + 1 == x.index
  {
    hide ToDays, DateOf, I32, U32;
    d := ToDays(Date(x.year, x.month, 1));
    MinusIsMod(x.weekday, Weekday(d));
    IndexOffset(x.index);
    var k := Minus(x.weekday, Weekday(d));
    n := k + (x.index - 1) * 7;
    hide Minus;
    assert Weekday(d + k) == x.weekday;
    hide Weekday;
    WeeksLater(d + k, x.index - 1);
    WholeWeeks(x.index - 1, k);
  }

  /** The form of a day, before its year is narrowed, means that day. */
  lemma IndexedOfDate(z: int)
    ensures var x := DateOf(z);
            IndexedToDays(Indexed(x.year, x.month, Weekday(z), (x.day - 1) / 7 + 1)) == z
  {
    hide ToDays, DateOf, Minus, Weekday, I32, U32;
    var x := DateOf(z);
    ToDaysOfDateOf(z);
    FirstOfMonth(x);
    SplitMonth(ToDays(Date(x.year, x.month, 1)), x.day - 1);
  }

  lemma WeekdayBound(z: int)
    ensures Weekday(z) <= 6
  {
  }

  /** A day survives the way through its nth-weekday form if and only if a `short` holds its year. */
  lemma IndexedRoundTrip(z: int)
    ensures IndexedToDays(IndexedFromDays(z)) == z <==> FIRST_DAY <= z <= MAX_DAY
  {
    hide ToDays, DateOf, IndexedToDays, Short, NewYearsDay, Weekday;
    var x, form := DateOf(z), IndexedFromDays(z);
    ToDaysOfDateOf(z);
    DaysOfStoredYears(z);
    ShortKeeps(x.year);
    IndexedOfDate(z);
    if form.year != x.year {
      WeekdayBound(z);
      var d, n := IndexedDay(form);
      hide Minus;
      AboutMonth(form.year, form.month, n);
    }
  }

  lemma IndexedOkMeans(x: Indexed, d: int, n: nat)
    requires MIN_YEAR <= x.year <= MAX_YEAR && 1 <= x.month <= 12 && x.weekday <= 6 && x.index >= 1
    requires d == ToDays(Date(x.year, x.month, 1)) && n == Minus(x.weekday, Weekday(d)) + (x.index - 1) * 7
    ensures IndexedOk(x) <==> n < LastDay(x.year, x.month)
  {
    hide ToDays;
    MinusIsMod(x.weekday, Weekday(d));
    assert 28 <= LastDay(x.year, x.month) <= 31;
  }

  lemma ShortNear(y: int, x: int)
    requires x <= y <= x + 1
    ensures Short(y) == x ==> y == x
  {
  }

  lemma FormComesBack(x: Indexed, d: int, n: nat)
    requires MIN_YEAR <= x.year <= MAX_YEAR && 1 <= x.month <= 12 && x.index >= 1
    requires d == ToDays(Date(x.year, x.month, 1)) && Weekday(d + n) == x.weekday && n / 7 + 1 == x.index
    ensures IndexedFromDays(d + n) == x <==> n < LastDay(x.year, x.month)
  {
    hide ToDays, DateOf, Short, Weekday, NewYearsDay;
    var y := DateOf(d + n);
    ToDaysOfDateOf(d + n);
    FirstOfMonth(y);
    ShortKeeps(y.year);
    ShortKeeps(x.year);
    if n < LastDay(x.year, x.month) {
      var day := Date(x.year, x.month, n + 1);
      FirstOfMonth(day);
      DateOfToDays(day);
    } else if n <= 34 {
      AboutMonth(x.year, x.month, n);
      ShortNear(y.year, x.year);
    }
  }

  /** With a year that `ok` allows, `ok` is exact: it holds if and only if the form comes back from
      the day it means. */
  lemma IndexedOkExactly(x: Indexed)
    requires x.index <= 255
    ensures IndexedOk(x) <==> MIN_YEAR <= x.year <= MAX_YEAR && IndexedFromDays(IndexedToDays(x)) == x
  {
    hide ToDays, DateOf, IndexedToDays, Short, Weekday;
    var z := IndexedToDays(x);
    ToDaysOfDateOf(z);
    WeekdayBound(z);
    if 1 <= x.month <= 12 && x.weekday <= 6 && x.index >= 1 && MIN_YEAR <= x.year <= MAX_YEAR {
      var d, n := IndexedDay(x);
      IndexedOkMeans(x, d, n);
      FormComesBack(x, d, n);
    }
  }

  /** `ok` refuses the year -32768, from which forms come back too. */
  lemma IndexedOfLowestYear()
    ensures var x := IndexedFromDays(FIRST_DAY);
            x.year == MIN_YEAR - 1 && IndexedFromDays(IndexedToDays(x)) == x && !IndexedOk(x)
  {
    hide ToDays, DateOf, IndexedToDays, Weekday;
    IndexedRoundTrip(FIRST_DAY);
    DateOfSerial(Date(MIN_YEAR - 1, 1, 1));
    FirstDay();
  }

  // ----- The last weekday of a month -----

  /** `year_month_weekday_last::to_days`. */
  function LastToDays(y: int, m: nat, wd: nat): int
  {
    var d := ToDays(Date(y, m, LastDay(y, m)));
    d - Minus(Weekday(d), wd)
  }

  /** It has that weekday and is among the last seven days of the month, so it is the last. */
  lemma LastIsLast(y: int, m: nat, wd: nat)
    requires 1 <= m <= 12 && wd <= 6
    ensures var z := LastToDays(y, m, wd);
            && Weekday(z) == wd
            && DateOf(z).year == y && DateOf(z).month == m
            && LastDay(y, m) - 7 < DateOf(z).day <= LastDay(y, m)
  {
    hide ToDays, DateOf;
    var last := Date(y, m, LastDay(y, m));
    var d := ToDays(last);
    MinusIsMod(Weekday(d), wd);
    var k := Minus(Weekday(d), wd);
    hide Minus;
    var day := Date(y, m, LastDay(y, m) - k);
    FirstOfMonth(last);
    FirstOfMonth(day);
    DateOfToDays(day);
    assert Weekday(d - k) == wd;
  }

  // ----- ISO week dates -----

  /** The first day of week 1 of an ISO year: the Monday after the last Thursday of the December
      before it. */
  function IsoStart(y: int): int { LastToDays(y - 1, 12, THURSDAY) + Minus(MONDAY, THURSDAY) }

  /** The ISO year of a day. */
  function IsoYear(z: int): int
  {
    var y := DateOf(z + 3).year;
    if z < IsoStart(y) then y - 1 else y
  }

  /** The ISO week of a day. */
  function IsoWeek(z: int): int
  {
    var y := DateOf(z + 3).year;
    var start := if z < IsoStart(y) then IsoStart(y - 1) else IsoStart(y);
    Quot(z - start, 7) + 1
  }

  /** The day with an ISO year, a week and a weekday. */
  function DayFromIso(g: int, v: int, wd: nat): int
  {
    IsoStart(g) + 7 * (v - 1) + Minus(MakeWeekday(wd), MONDAY)
  }

  /** Weeks of an ISO year. */
  function WeeksIn(g: int): int { (IsoStart(g + 1) - IsoStart(g)) / 7 }

  /** Week 1 is the week, Monday to Sunday, that has 4 January in it. */
  lemma IsoStartIsMonday(y: int)
    ensures Weekday(IsoStart(y)) == MONDAY
    ensures IsoStart(y) <= NewYearsDay(y) + 3 < IsoStart(y) + 7
  {
    hide ToDays, DateOf;
    var d := ToDays(Date(y - 1, 12, 31));
    NewYearsDays(y);
    MinusIsMod(Weekday(d), THURSDAY);
    MinusIsMod(MONDAY, THURSDAY);
  }

  /** The interval of the ISO year contains the day, and the week counts from its start. */
  lemma IsoYearContains(z: int)
    ensures IsoStart(IsoYear(z)) <= z < IsoStart(IsoYear(z) + 1)
    ensures IsoWeek(z) == (z - IsoStart(IsoYear(z))) / 7 + 1
  {
    hide ToDays, DateOf;
    var y := DateOf(z + 3).year;
    YearOfDay(z + 3, y);
    IsoStartIsMonday(y - 1);
    IsoStartIsMonday(y);
    IsoStartIsMonday(y + 1);
    NewYearsDays(y - 1);
  }

  lemma IsoStartsApart(g: int)
    ensures IsoStart(g + 1) - IsoStart(g) == 7 * WeeksIn(g) && 52 <= WeeksIn(g) <= 53
  {
    hide ToDays, DateOf;
    IsoStartIsMonday(g);
    IsoStartIsMonday(g + 1);
    NewYearsDays(g);
    assert (IsoStart(g + 1) - IsoStart(g)) % 7 == 0;
  }

  /** A year has 53 weeks if and only if it starts on a Thursday, or on a Wednesday and is leap. */
  lemma LongYearsExactly(g: int)
    ensures WeeksIn(g) == if Weekday(NewYearsDay(g)) == THURSDAY || (IsLeap(g) && Weekday(NewYearsDay(g)) == WEDNESDAY)
                          then 53 else 52
  {
    hide ToDays, DateOf, IsLeap;
    IsoStartIsMonday(g);
    IsoStartIsMonday(g + 1);
    NewYearsDays(g);
    IsoStartsApart(g);
    hide IsoStart, WeeksIn, NewYearsDay;
  }

  /** From a day to its ISO year, week and weekday and back, with a week that the year has. */
  lemma IsoRoundTrip(z: int)
    ensures 1 <= IsoWeek(z) <= WeeksIn(IsoYear(z)) <= 53
    ensures DayFromIso(IsoYear(z), IsoWeek(z), Weekday(z)) == z
  {
    hide ToDays, DateOf;
    hide IsoStart, IsoYear, IsoWeek;
    var g := IsoYear(z);
    IsoYearContains(z);
    IsoStartsApart(g);
    IsoStartIsMonday(g);
    MinusIsMod(Weekday(z), MONDAY);
    var n := z - IsoStart(g);
    assert (Weekday(z) - MONDAY) % 7 == n % 7;
  }

  lemma {:induction false} IsoStartsInOrder(a: int, b: int)
    requires a < b
    ensures IsoStart(a) < IsoStart(b)
    decreases b - a
  {
    IsoStartsApart(b - 1);
    if a < b - 1 {
      IsoStartsInOrder(a, b - 1);
    }
  }

  /** The ISO year is the only one whose interval contains the day. */
  lemma IsoYearIsUnique(z: int, g: int)
    ensures IsoYear(z) == g <==> IsoStart(g) <= z < IsoStart(g + 1)
  {
    hide ToDays, DateOf, IsoYear, IsoStart;
    IsoYearContains(z);
    if IsoYear(z) + 1 < g { IsoStartsInOrder(IsoYear(z) + 1, g); }
    if g + 1 < IsoYear(z) { IsoStartsInOrder(g + 1, IsoYear(z)); }
  }

  lemma DayFromIsoOffset(g: int, v: int, wd: nat) returns (k: nat)
    requires wd <= 6
    ensures k <= 6 && DayFromIso(g, v, wd) == IsoStart(g) + 7 * (v - 1) + k
    ensures Weekday(DayFromIso(g, v, wd)) == wd
  {
    hide ToDays, DateOf, IsoStart;
    IsoStartIsMonday(g);
    MinusIsMod(wd, MONDAY);
    k := Minus(wd, MONDAY);
    hide Minus;
    assert Weekday(IsoStart(g) + k) == wd;
    WeeksLater(IsoStart(g) + k, v - 1);
  }

  /** The day of a year, week and weekday has that year and week if and only if the year has that
      week. */
  lemma DayFromIsoExactly(g: int, v: int, wd: nat)
    requires wd <= 6
    ensures var z := DayFromIso(g, v, wd);
            && Weekday(z) == wd
            && (IsoYear(z) == g && IsoWeek(z) == v <==> 1 <= v <= WeeksIn(g))
  {
    hide ToDays, DateOf, IsoYear, IsoWeek, IsoStart, WeeksIn, DayFromIso, Weekday;
    var z := DayFromIso(g, v, wd);
    var k := DayFromIsoOffset(g, v, wd);
    IsoStartsApart(g);
    IsoYearIsUnique(z, g);
    IsoYearContains(z);
  }

  /** The standard's rule: a week belongs to the year of its Thursday, and its number is that
      Thursday's place among the Thursdays of the year. */
  lemma IsoFollowsThursday(z: int)
    ensures var thursday := z - Minus(Weekday(z), MONDAY) + 3;
            && Weekday(thursday) == THURSDAY
            && IsoYear(z) == DateOf(thursday).year
            && IsoWeek(z) == (thursday - NewYearsDay(IsoYear(z))) / 7 + 1
  {
    hide ToDays, DateOf, IsoStart, IsoYear, IsoWeek, WeeksIn, Minus, NewYearsDay;
    var g, v := IsoYear(z), IsoWeek(z);
    var thursday := z - Minus(Weekday(z), MONDAY) + 3;
    IsoRoundTrip(z);
    assert MakeWeekday(Weekday(z)) == Weekday(z);
    assert thursday == IsoStart(g) + 3 + 7 * (v - 1);
    IsoStartIsMonday(g);
    IsoStartIsMonday(g + 1);
    IsoStartsApart(g);
    assert Weekday(IsoStart(g) + 3) == THURSDAY;
    WeeksLater(IsoStart(g) + 3, v - 1);
    hide Weekday;
    YearOfDay(thursday, g);
    WholeWeeks(v - 1, IsoStart(g) + 3 - NewYearsDay(g));
  }

  // ----- The narrowing of years -----

  /** The first day of an ISO year, with each year in a `short`. */
  function StoredIsoStart(y: int): int { LastToDays(Short(y - 1), 12, THURSDAY) + Minus(MONDAY, THURSDAY) }

  /** What `%G` prints. */
  function PrintedYear(z: int): int
  {
    var y := FromDays(z + 3).year;
    if z < StoredIsoStart(y) then Short(y - 1) else y
  }

  /** What `%V` prints. */
  function PrintedWeek(z: int): int
  {
    var y := FromDays(z + 3).year;
    var start := if z < StoredIsoStart(y) then StoredIsoStart(Short(y - 1)) else StoredIsoStart(y);
    Quot(z - start, 7) + 1
  }

  /** The day that the parser computes from `%G`, `%V` and a weekday. */
  function ParsedDay(g: int, v: int, wd: nat): int
  {
    StoredIsoStart(g) + 7 * (v - 1) + Minus(MakeWeekday(wd), MONDAY)
  }

  /** The date that it stores. */
  function ParsedDate(g: int, v: int, wd: nat): Date { FromDays(ParsedDay(g, v, wd)) }

  /** At the lowest year the narrowing goes around to the start after the highest. */
  lemma StoredIsoStarts(y: int)
    requires MIN_YEAR - 1 <= y <= MAX_YEAR
    ensures StoredIsoStart(y) == if y < MIN_YEAR then IsoStart(MAX_YEAR + 1) else IsoStart(y)
  {
    ShortKeeps(y - 1);
    assert y < MIN_YEAR ==> Short(y - 1) == MAX_YEAR;
  }

  /** The first ISO year that `ok` allows starts on 3 January, the last one ends on 31 December. */
  lemma IsoEnds()
    ensures IsoStart(MIN_YEAR) == MIN_DAY + 2 && IsoStart(MAX_YEAR + 1) == MAX_DAY + 1
  {
    hide ToDays, DateOf, IsoStart;
    IsoStartIsMonday(MIN_YEAR);
    IsoStartIsMonday(MAX_YEAR + 1);
    ToDaysIsSerial(Date(MIN_YEAR, 1, 1));
    ToDaysIsSerial(Date(MAX_YEAR + 1, 1, 1));
  }

  lemma IsoYearInRange(z: int)
    ensures MIN_YEAR <= IsoYear(z) <= MAX_YEAR <==> MIN_DAY + 2 <= z <= MAX_DAY
  {
    hide ToDays, DateOf, IsoStart, IsoYear;
    IsoEnds();
    IsoYearContains(z);
    var g := IsoYear(z);
    if g < MIN_YEAR && g + 1 != MIN_YEAR { IsoStartsInOrder(g + 1, MIN_YEAR); }
    if MIN_YEAR < g { IsoStartsInOrder(MIN_YEAR, g); }
    if MAX_YEAR + 1 < g { IsoStartsInOrder(MAX_YEAR + 1, g); }
    if g < MAX_YEAR { IsoStartsInOrder(g + 1, MAX_YEAR + 1); }
  }

  lemma ShortRange(y: int)
    ensures MIN_YEAR - 1 <= Short(y) <= MAX_YEAR
  {
  }

  lemma ShortGoesAround()
    ensures Short(MAX_YEAR + 1) == MIN_YEAR - 1 && Short(MIN_YEAR - 2) == MAX_YEAR
  {
  }

  /** What is printed is the ISO year and week if and only if that year is one that `ok` allows. */
  lemma PrintedIsIsoExactly(z: int)
    ensures PrintedYear(z) == IsoYear(z) && PrintedWeek(z) == IsoWeek(z) <==> MIN_DAY + 2 <= z <= MAX_DAY
  {
    hide ToDays, DateOf, LastToDays, Weekday, Minus, IsoStart, StoredIsoStart, Short;
    var y := DateOf(z + 3).year;
    ShortKeeps(y);
    ShortRange(y);
    ShortRange(y - 1);
    assert Short(MAX_YEAR + 1) == MIN_YEAR - 1 && Short(MIN_YEAR - 2) == MAX_YEAR by { ShortGoesAround(); }
    ShortKeeps(y - 1);
    StoredIsoStarts(Short(y));
    ShortRange(Short(y) - 1);
    StoredIsoStarts(Short(Short(y) - 1));
    ShortKeeps(Short(y) - 1);
    IsoYearContains(z);
    IsoYearInRange(z);
    if IsoYear(z) == MIN_YEAR - 1 {
      IsoStartsInOrder(MIN_YEAR, MAX_YEAR);
      IsoStartsApart(MAX_YEAR);
    }
  }

  /** Printing and parsing back gives the same day on all those days. */
  lemma PrintedRoundTrip(z: int)
    requires MIN_DAY + 2 <= z <= MAX_DAY
    ensures ParsedDay(PrintedYear(z), PrintedWeek(z), Weekday(z)) == z
  {
    hide ToDays, DateOf, LastToDays, Weekday, Minus, IsoStart, StoredIsoStart, Short, PrintedYear, PrintedWeek;
    PrintedIsIsoExactly(z);
    IsoYearInRange(z);
    StoredIsoStarts(IsoYear(z));
    IsoRoundTrip(z);
  }

  /** A 29 February of a year that has none still counts as a day of that year. */
  lemma StoredInYear(x: Date)
    requires Civil(x) || (x.month == 2 && x.day == 29)
    ensures Serial(Date(x.year, 1, 1)) <= Serial(x) < Serial(Date(x.year + 1, 1, 1))
  {
    if Civil(x) {
      InsideYear(x);
    } else {
      InsideYear(Date(x.year, 3, 1));
    }
  }

  /** Every date that `from_days` stores is a day of some year that a `short` holds. */
  lemma StoredInRange(z: int)
    ensures FIRST_DAY <= ToDays(FromDays(z)) <= MAX_DAY
  {
    hide ToDays, DateOf, Serial, Short;
    var x, y := FromDays(z), Short(DateOf(z).year);
    DateOfIsCivil(z);
    ShortRange(DateOf(z).year);
    ToDaysIsSerial(x);
    StoredInYear(x);
    FirstDay();
    RangeEnds();
    NextDayIsSuccessor(Date(MAX_YEAR, 12, 31));
    YearsInOrder(MIN_YEAR - 1, y);
    YearsInOrder(y + 1, MAX_YEAR + 1);
  }

  /** On the days before the ISO year -32767 the narrowing goes around and the week printed is far
      below zero. */
  lemma PrintedWeekBeforeRange(z: int)
    requires FIRST_DAY <= z < MIN_DAY + 2
    ensures PrintedWeek(z) < 0
  {
    hide ToDays, DateOf, LastToDays, Weekday, Minus, IsoStart, StoredIsoStart, Short;
    var y := DateOf(z + 3).year;
    DaysOfStoredYears(z + 3);
    ShortKeeps(y);
    ShortRange(y - 1);
    ShortGoesAround();
    ShortKeeps(y - 1);
    IsoEnds();
    StoredIsoStarts(y);
    StoredIsoStarts(Short(y - 1));
    FirstDay();
    YearOfDay(z + 3, y);
    ToDaysIsSerial(Date(MIN_YEAR + 1, 1, 1));
    NewYearsDays(MIN_YEAR);
    if y > MIN_YEAR {
      YearsInOrder(MIN_YEAR + 1, y);
      ToDaysIsSerial(Date(y, 1, 1));
    }
    IsoStartsInOrder(MIN_YEAR, MAX_YEAR);
    IsoStartsApart(MAX_YEAR);
  }

  /** In those years the parser stores an `ok` date, of the day meant. */
  lemma ParsedInRange(g: int, v: nat, wd: nat)
    requires MIN_YEAR <= g <= MAX_YEAR && 1 <= v <= WeeksIn(g) && wd <= 6
    ensures Ok(ParsedDate(g, v, wd)) && Weekday(ToDays(ParsedDate(g, v, wd))) == wd
    ensures var z := ToDays(ParsedDate(g, v, wd));
            z == DayFromIso(g, v, wd) && MIN_DAY + 2 <= z <= MAX_DAY && IsoYear(z) == g && IsoWeek(z) == v
  {
    hide ToDays, DateOf, FromDays, Weekday, WeeksIn, IsoYear, IsoWeek, Minus, IsoStart, StoredIsoStart;
    var z := DayFromIso(g, v, wd);
    StoredIsoStarts(g);
    assert ParsedDay(g, v, wd) == z;
    DayFromIsoExactly(g, v, wd);
    IsoYearInRange(z);
    ToDaysOfFromDays(z);
    FromDaysOkInRange(z);
  }

  /** What the parser stores for a year, a week of at least 0 and a weekday prints back as the same
      year and week if and only if the year is one that `ok` allows and has that week. */
  lemma IsoParseExactly(g: int, v: nat, wd: nat)
    requires wd <= 6
    ensures var z := ToDays(ParsedDate(g, v, wd));
            PrintedYear(z) == g && PrintedWeek(z) == v <==> MIN_YEAR <= g <= MAX_YEAR && 1 <= v <= WeeksIn(g)
  {
    hide ToDays, DateOf, FromDays, Weekday, WeeksIn, PrintedYear, PrintedWeek, IsoYear, IsoWeek, ParsedDay;
    var z := ToDays(ParsedDate(g, v, wd));
    StoredInRange(ParsedDay(g, v, wd));
    PrintedIsIsoExactly(z);
    IsoYearInRange(z);
    IsoRoundTrip(z);
    if z < MIN_DAY + 2 {
      PrintedWeekBeforeRange(z);
    }
    if MIN_YEAR <= g <= MAX_YEAR && 1 <= v <= WeeksIn(g) {
      ParsedInRange(g, v, wd);
    }
  }

  /** The parser never checks the year: Monday of week 1 of 40000 is taken, stored in the year -25536
      as an `ok` Monday, and printed as such. */
  lemma Year40000()
    ensures Short(40000) == -25536
    ensures var x := ParsedDate(40000, 1, MONDAY); Ok(x) && Weekday(ToDays(x)) == MONDAY
    ensures var z := ToDays(ParsedDate(40000, 1, MONDAY)); PrintedYear(z) == -25536 && PrintedWeek(z) == 1
  {
    hide ToDays, DateOf, FromDays, Weekday, WeeksIn, PrintedYear, PrintedWeek, LastToDays, Minus;
    assert StoredIsoStart(40000) == StoredIsoStart(-25536);
    assert ParsedDate(40000, 1, MONDAY) == ParsedDate(-25536, 1, MONDAY);
    IsoStartsApart(-25536);
    ParsedInRange(-25536, 1, MONDAY);
    IsoParseExactly(-25536, 1, MONDAY);
  }

  /** 2021 starts on a Friday and has no week 53: Monday of it is taken and prints as week 1 of 2022. */
  lemma NoWeek53In2021()
    ensures WeeksIn(2021) == 52
    ensures var z := ToDays(ParsedDate(2021, 53, MONDAY)); PrintedYear(z) == 2022 && PrintedWeek(z) == 1
  {
    hide ToDays, DateOf, FromDays, IsoStart, IsoYear, IsoWeek, WeeksIn, PrintedYear, PrintedWeek, StoredIsoStart;
    assert NewYearsDay(2021) == 18628 by { ToDaysIsSerial(Date(2021, 1, 1)); }
    LongYearsExactly(2021);
    IsoStartsApart(2021);
    IsoStartsApart(2022);
    StoredIsoStarts(2021);
    StoredIsoStarts(2022);
    assert ParsedDay(2021, 53, MONDAY) == ParsedDay(2022, 1, MONDAY);
    IsoParseExactly(2022, 1, MONDAY);
  }
}
