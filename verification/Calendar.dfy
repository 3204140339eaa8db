/** Civil dates and serial days (`year_month_day::to_days` and `from_days` in date.h), and the
    calendar they are meant to compute: the proleptic Gregorian calendar of section 3.2.1 of
    ISO 8601:2004, given by leap years, month lengths and "the next day".

    `int` is unbounded; C++'s truncating division and its 32-bit unsigned arithmetic are written
    out as `Quot` and `U32`. */
module Calendar {
  // ----- The machine's arithmetic -----

  /** C++ integer division: it truncates toward zero. */
  function Quot(a: int, b: int): int
    requires b > 0
  {
    if a >= 0 then a / b else -(-a / b)
  }

  const TWO_32: nat := 0x1_0000_0000

  /** `static_cast<unsigned>`. */
  function U32(x: int): nat { x % TWO_32 }

  /** `static_cast<int>` of an unsigned value. */
  function I32(u: nat): int { if u < 0x8000_0000 then u else u - TWO_32 }

  /** `static_cast<short>`. */
  function Short(y: int): int { (y + 0x8000) % 0x1_0000 - 0x8000 }

  // ----- Dates -----

  datatype Date = Date(year: int, month: nat, day: nat)

  /** `year::is_leap`. */
  predicate IsLeap(y: int)
  {
    y % 4 == 0 && (y % 100 != 0 || y % 400 == 0)
  }

  /** `year_month_day_last::day`; a month that does not exist gets 29. */
  function LastDay(y: int, m: nat): nat
  {
    if (m != 2 || !IsLeap(y)) && 1 <= m <= 12
    then [31, 28, 31, 30, 31, 30, 31, 31, 30, 31, 30, 31][m - 1]
    else 29
  }

  const MIN_YEAR := -32767
  const MAX_YEAR := 32767

  /** A date of the calendar, whatever its year. */
  predicate Civil(x: Date)
  {
    1 <= x.month <= 12 && 1 <= x.day <= LastDay(x.year, x.month)
  }

  /** `year_month_day::ok`: the year is a `short` other than the lowest one. */
  predicate Ok(x: Date)
  {
    MIN_YEAR <= x.year <= MAX_YEAR && Civil(x)
  }

  // ----- to_days and from_days -----

  function ToDays(x: Date): int
  {
    var y := if x.month <= 2 then x.year - 1 else x.year;
    var m, d := x.month, x.day;
    var era := Quot(if y >= 0 then y else y - 399, 400);
    var yoe := U32(y - era * 400);
    var doy := U32(U32(153 * (if m > 2 then m - 3 else m + 9) + 2) / 5 + d - 1);
    var doe := U32(yoe * 365 + yoe / 4 - yoe / 100 + doy);
    era * 146097 + I32(doe) - 719468
  }

  /** The rest of `from_days`, for day `doy` of a year that starts in March. */
  function DateInYear(y: int, doy: nat): Date
  {
    var mp := U32(5 * doy + 2) / 153;
    var d := U32(doy - (153 * mp + 2) / 5 + 1);
    var m := if mp < 10 then mp + 3 else U32(mp - 9);
    Date(if m <= 2 then y + 1 else y, m, d)
  }

  /** The rest of `from_days`, for day `doe` of an era. */
  function DateInEra(era: int, doe: nat): Date
  {
    var yoe := U32(doe - doe / 1460 + doe / 36524 - doe / 146096) / 365;
    DateInYear(yoe + era * 400, U32(doe - (365 * yoe + yoe / 4 - yoe / 100)))
  }

  /** `from_days` up to the date that it computes in `int`. */
  function DateOf(days: int): Date
  {
    var z := days + 719468;
    var era := Quot(if z >= 0 then z else z - 146096, 146097);
    DateInEra(era, U32(z - era * 146097))
  }

  /** `from_days`: the date as computed, with the year narrowed by the constructor of `year`. */
  function FromDays(days: int): Date
  {
    var x := DateOf(days);
    x.(year := Short(x.year))
  }

  // ----- The calendar, one day at a time -----

  function NextDay(x: Date): Date
  {
    if x.day < LastDay(x.year, x.month) then x.(day := x.day + 1)
    else if x.month < 12 then Date(x.year, x.month + 1, 1)
    else Date(x.year + 1, 1, 1)
  }

  function PreviousDay(x: Date): Date
  {
    if x.day > 1 then x.(day := x.day - 1)
    else if x.month > 1 then Date(x.year, x.month - 1, LastDay(x.year, x.month - 1))
    else Date(x.year - 1, 12, 31)
  }

  const EPOCH := Date(1970, 1, 1)

  /** The date `n` days after the epoch, by counting. */
  function Count(n: int): Date
    decreases if n < 0 then -n else n
  {
    if n == 0 then EPOCH
    else if n > 0 then NextDay(Count(n - 1))
    else PreviousDay(Count(n + 1))
  }

  predicate Before(x: Date, y: Date)
  {
    || x.year < y.year
    || (x.year == y.year && (x.month < y.month || (x.month == y.month && x.day < y.day)))
  }

  // ----- What the formulas compute -----

  /** The adjusted truncating division of `to_days` is a floor. */
  lemma YearEra(y: int)
    ensures Quot(if y >= 0 then y else y - 399, 400) == y / 400
  {
  }

  lemma DayEra(z: int)
    ensures Quot(if z >= 0 then z else z - 146096, 146097) == z / 146097
  {
  }

  /** Days before the March that starts year `y`, counted from March of year 0. */
  function YearStart(y: int): int { 365 * y + y / 4 - y / 100 + y / 400 }

  /** Days before month `mp` of a year that starts in March. */
  function MonthStart(mp: nat): nat { (153 * mp + 2) / 5 }

  function MarchYear(x: Date): int { if x.month <= 2 then x.year - 1 else x.year }
  function MarchMonth(x: Date): nat { if x.month > 2 then x.month - 3 else x.month + 9 }

  function Serial(x: Date): int
  {
    YearStart(MarchYear(x)) + MonthStart(MarchMonth(x)) + x.day - 1 - 719468
  }

  lemma YearStartByEra(era: int, yoe: int)
    requires 0 <= yoe < 400
    ensures YearStart(400 * era + yoe) == era * 146097 + yoe * 365 + yoe / 4 - yoe / 100
  {
    var y := 400 * era + yoe;
    assert y / 4 == 100 * era + yoe / 4;
    assert y / 100 == 4 * era + yoe / 100;
    assert y / 400 == era;
  }

  lemma MonthStartBound(mp: nat)
    requires mp < 12
    ensures MonthStart(mp) <= 337 && U32(153 * mp + 2) == 153 * mp + 2
  {
  }

  /** A sum that is at worst a little negative survives the way through `unsigned`. */
  lemma RoundTripU32(x: int)
    requires -1000 <= x < 1_000_000
    ensures I32(U32(x)) == x
  {
  }

  lemma WrapInside(a: int, b: int)
    ensures U32(a + U32(b)) == U32(a + b)
  {
  }

  lemma SmallU32(x: int)
    requires 0 <= x < TWO_32
    ensures U32(x) == x
  {
  }

  lemma YearInEraBound(yoe: int)
    requires 0 <= yoe < 400
    ensures 0 <= yoe * 365 + yoe / 4 - yoe / 100 <= 146000
  {
  }

  /** No unsigned operation of `to_days` goes wrong, not even for days the month does not have. */
  lemma ToDaysIsSerial(x: Date)
    requires 1 <= x.month <= 12 && x.day <= 255
    ensures ToDays(x) == Serial(x)
  {
    var y, mp := MarchYear(x), MarchMonth(x);
    var era, yoe := y / 400, y % 400;
    YearEra(y);
    YearStartByEra(era, yoe);
    MonthStartBound(mp);
    assert y - era * 400 == yoe;
    SmallU32(yoe);
    YearInEraBound(yoe);
    var months, years := MonthStart(mp) + x.day - 1, yoe * 365 + yoe / 4 - yoe / 100;
    WrapInside(years, months);
    RoundTripU32(years + months);
    hide YearStart, U32, I32, Quot;
  }

  // ----- Day of the era to year of the era -----

  /** A day of the 400-year era: century `c`, four-year group `k` of the century, year `j` of the
      group, day `n` of the year. The last day of a leap year is the last of its group, and the
      last group of a century has one only in the last century. */
  predicate EraSplit(doe: int, c: int, k: int, j: int, n: int)
  {
    && 0 <= c <= 3 && 0 <= k <= 24 && 0 <= j <= 3 && 0 <= n <= 365
    && (n == 365 ==> j == 3 && (k < 24 || c == 3))
    && doe == 36524 * c + 1461 * k + 365 * j + n
  }

  lemma SplitEra(doe: nat) returns (c: int, k: int, j: int, n: int)
    requires doe <= 146096
    ensures EraSplit(doe, c, k, j, n)
  {
    c := if doe == 146096 then 3 else doe / 36524;
    var r := doe - 36524 * c;
    k := r / 1461;
    var q := r - 1461 * k;
    j := if q == 1460 then 3 else q / 365;
    n := q - 365 * j;
  }

  /** The estimate by 1460-day groups is off by a correction that the later divisions undo. */
  lemma GroupsOf(doe: nat, c: int, k: int, j: int, n: int)
    requires EraSplit(doe, c, k, j, n)
    ensures doe / 1460 == 25 * c + k + (24 * c + k + 365 * j + n) / 1460
    ensures doe / 36524 - doe / 146096 == c
  {
    assert doe == 1460 * (25 * c + k) + (24 * c + k + 365 * j + n);
  }

  function YearInEra(doe: nat): int
  {
    (doe - doe / 1460 + doe / 36524 - doe / 146096) / 365
  }

  lemma YearOfEra(doe: nat, c: int, k: int, j: int, n: int)
    requires EraSplit(doe, c, k, j, n)
    ensures YearInEra(doe) == 100 * c + 4 * k + j
  {
    var t := 24 * c + k + 365 * j + n;
    GroupsOf(doe, c, k, j, n);
    assert 0 <= t / 1460 <= 1;
    assert doe - doe / 1460 + c == 365 * (100 * c + 4 * k + j) + (n - t / 1460);
  }

  lemma LongYear(era: int, c: int, k: int)
    requires 0 <= c <= 3 && 0 <= k <= 24 && (k < 24 || c == 3)
    ensures IsLeap(400 * era + 100 * c + 4 * k + 4)
  {
    var y := 400 * era + 100 * c + 4 * k + 4;
    assert y == 4 * (100 * era + 25 * c + k + 1);
    if k < 24 {
      assert y == 100 * (4 * era + c) + (4 * k + 4);
    } else {
      assert y == 400 * (era + 1);
    }
  }

  lemma DayOfYear(era: int, doe: nat, c: int, k: int, j: int, n: int)
    requires EraSplit(doe, c, k, j, n)
    ensures var yoe := 100 * c + 4 * k + j;
            && n == doe - (365 * yoe + yoe / 4 - yoe / 100)
            && YearStart(400 * era + yoe) + n == era * 146097 + doe
  {
    var yoe := 100 * c + 4 * k + j;
    assert yoe / 4 == 25 * c + k && yoe / 100 == c;
    YearStartByEra(era, yoe);
  }

  /** The year and the day of the year that `from_days` finds, counted from March. */
  lemma YearFromDay(era: int, doe: nat) returns (yoe: nat, n: nat)
    requires doe <= 146096
    ensures yoe == YearInEra(doe) <= 399
    ensures n == doe - (365 * yoe + yoe / 4 - yoe / 100) <= 365
    ensures YearStart(400 * era + yoe) + n == era * 146097 + doe
    ensures n == 365 ==> IsLeap(400 * era + yoe + 1)
  {
    hide YearStart, IsLeap, YearInEra;
    var c, k, j, d := SplitEra(doe);
    YearOfEra(doe, c, k, j, d);
    DayOfYear(era, doe, c, k, j, d);
    yoe, n := 100 * c + 4 * k + j, d;
    if n == 365 {
      LongYear(era, c, k);
    }
  }

  /** The month and the day of the month that `from_days` finds. */
  lemma MonthFromDay(n: nat)
    requires n <= 365
    ensures var mp := (5 * n + 2) / 153;
            && mp <= 11 && MonthStart(mp) <= n
            && (mp < 11 ==> n < MonthStart(mp + 1))
  {
  }

  /** The table of month lengths is what the month formula steps by. */
  lemma MonthLengths(y: int, mp: nat)
    requires mp < 11
    ensures MonthStart(mp + 1) - MonthStart(mp) == LastDay(y, if mp < 10 then mp + 3 else mp - 9)
  {
  }

  /** No unsigned operation of `from_days` goes wrong: first the year, then the month and day. */
  lemma YearUnwrapped(era: int, doe: nat, yoe: nat, n: nat)
    requires doe <= 146096 && yoe == YearInEra(doe) && n == doe - (365 * yoe + yoe / 4 - yoe / 100)
    requires n <= 365
    ensures DateInEra(era, doe) == DateInYear(400 * era + yoe, n)
  {
    SmallU32(doe - doe / 1460 + doe / 36524 - doe / 146096);
    SmallU32(n);
  }

  lemma MonthUnwrapped(y: int, n: nat)
    requires n <= 365
    ensures var mp := (5 * n + 2) / 153;
            DateInYear(y, n)
            == Date(if mp < 10 then y else y + 1, if mp < 10 then mp + 3 else mp - 9, n - MonthStart(mp) + 1)
  {
    MonthFromDay(n);
    var mp := (5 * n + 2) / 153;
    SmallU32(5 * n + 2);
    SmallU32(n - MonthStart(mp) + 1);
    if mp >= 10 {
      SmallU32(mp - 9);
    }
  }

  lemma DateInYearIsCivil(y: int, n: nat)
    requires n <= 365 && (n == 365 ==> IsLeap(y + 1))
    ensures Civil(DateInYear(y, n)) && Serial(DateInYear(y, n)) == YearStart(y) + n - 719468
  {
    MonthUnwrapped(y, n);
    MonthFromDay(n);
    var mp := (5 * n + 2) / 153;
    if mp < 11 {
      MonthLengths(DateInYear(y, n).year, mp);
    }
  }

  lemma SplitDays(z: int)
    ensures var era, doe := (z + 719468) / 146097, (z + 719468) % 146097;
            doe <= 146096 && DateOf(z) == DateInEra(era, doe) && era * 146097 + doe == z + 719468
  {
    var era, doe := (z + 719468) / 146097, (z + 719468) % 146097;
    DayEra(z + 719468);
    assert z + 719468 - era * 146097 == doe;
    SmallU32(doe);
  }

  lemma DateOfIsCivil(z: int)
    ensures Civil(DateOf(z)) && Serial(DateOf(z)) == z
  {
    hide DateOf, DateInEra, DateInYear, YearInEra, YearStart, Serial, IsLeap, Civil;
    var era, doe := (z + 719468) / 146097, (z + 719468) % 146097;
    SplitDays(z);
    var yoe, n := YearFromDay(era, doe);
    YearUnwrapped(era, doe, yoe, n);
    DateInYearIsCivil(400 * era + yoe, n);
  }

  // ----- Agreement with the calendar -----

  lemma Crossing(y: int)
    ensures y / 4 - (y - 1) / 4 == if y % 4 == 0 then 1 else 0
    ensures y / 100 - (y - 1) / 100 == if y % 100 == 0 then 1 else 0
    ensures y / 400 - (y - 1) / 400 == if y % 400 == 0 then 1 else 0
  {
  }

  lemma MultipleOf400(y: int)
    ensures y % 400 == 0 ==> y % 100 == 0
  {
    assert y == 100 * (4 * (y / 400)) + y % 400;
  }

  lemma MultipleOf100(y: int)
    ensures y % 100 == 0 ==> y % 4 == 0
  {
    assert y == 4 * (25 * (y / 100)) + y % 100;
  }

  lemma Multiples(y: int)
    ensures y % 400 == 0 ==> y % 100 == 0
    ensures y % 100 == 0 ==> y % 4 == 0
  {
    MultipleOf400(y);
    MultipleOf100(y);
  }

  lemma NewYear(y: int)
    ensures YearStart(y) - YearStart(y - 1) == if IsLeap(y) then 366 else 365
  {
    Crossing(y);
    Multiples(y);
  }

  /** From the last day of February to 1 March. */
  lemma FebruaryEnd(x: Date)
    requires Civil(x) && x.month == 2 && x.day == LastDay(x.year, 2)
    ensures Serial(NextDay(x)) == Serial(x) + 1
  {
    NewYear(x.year);
    hide YearStart, IsLeap;
  }

  /** From the last day of a month to the first of the next. */
  lemma MonthEnd(x: Date)
    requires Civil(x) && x.day == LastDay(x.year, x.month)
    ensures Serial(NextDay(x)) == Serial(x) + 1
  {
    if x.month == 2 {
      FebruaryEnd(x);
    } else {
      MonthLengths(x.year, MarchMonth(x));
      hide YearStart, MonthStart, LastDay;
    }
  }

  /** The day after a date of the calendar is the next integer. */
  lemma NextDayIsSuccessor(x: Date)
    requires Civil(x)
    ensures Civil(NextDay(x)) && Serial(NextDay(x)) == Serial(x) + 1
  {
    if x.day == LastDay(x.year, x.month) {
      MonthEnd(x);
    }
  }

  lemma PreviousDayUndone(x: Date)
    requires Civil(x)
    ensures Civil(PreviousDay(x)) && NextDay(PreviousDay(x)) == x
  {
  }

  /** Days from 1 January up to a date, and from there to the end of the year. */
  lemma InsideYear(x: Date)
    requires Civil(x)
    ensures Serial(Date(x.year, 1, 1)) <= Serial(x) < Serial(Date(x.year + 1, 1, 1))
  {
    NewYear(x.year);
    if MarchMonth(x) < 11 { MonthLengths(x.year, MarchMonth(x)); }
  }

  lemma {:induction false} YearsInOrder(a: int, b: int)
    requires a <= b
    ensures Serial(Date(a, 1, 1)) <= Serial(Date(b, 1, 1))
    decreases b - a
  {
    if a < b {
      NewYear(b - 1);
      YearsInOrder(a, b - 1);
    }
  }

  lemma DaysOfMonth(x: Date)
    ensures Serial(x) == Serial(Date(x.year, x.month, 1)) + x.day - 1
  {
  }

  lemma {:induction false} MonthsInOrder(y: int, m: nat, n: nat)
    requires 1 <= m < n <= 12
    ensures Serial(Date(y, m, 1)) + LastDay(y, m) <= Serial(Date(y, n, 1))
    decreases n - m
  {
    hide YearStart, MonthStart, Serial;
    DaysOfMonth(Date(y, n - 1, LastDay(y, n - 1)));
    NextDayIsSuccessor(Date(y, n - 1, LastDay(y, n - 1)));
    if m < n - 1 {
      MonthsInOrder(y, m, n - 1);
    }
  }

  lemma SerialKeepsOrder(x: Date, y: Date)
    requires Civil(x) && Civil(y) && Before(x, y)
    ensures Serial(x) < Serial(y)
  {
    hide YearStart, MonthStart, Serial;
    DaysOfMonth(x);
    DaysOfMonth(y);
    if x.year < y.year {
      InsideYear(x);
      InsideYear(y);
      YearsInOrder(x.year + 1, y.year);
    } else if x.month < y.month {
      MonthsInOrder(x.year, x.month, y.month);
    }
  }

  // ----- Dates and days -----

  /** Dates and serial days are ordered alike. */
  lemma ToDaysKeepsOrder(x: Date, y: Date)
    requires Civil(x) && Civil(y)
    ensures Before(x, y) <==> ToDays(x) < ToDays(y)
  {
    hide DateOf, ToDays, Serial;
    ToDaysIsSerial(x);
    ToDaysIsSerial(y);
    if Before(x, y) {
      SerialKeepsOrder(x, y);
    } else if x != y {
      SerialKeepsOrder(y, x);
    }
  }

  /** The date computed from the day of a date is that date. */
  lemma DateOfToDays(x: Date)
    requires Civil(x)
    ensures DateOf(ToDays(x)) == x
  {
    hide DateOf, ToDays, Serial;
    var y := DateOf(ToDays(x));
    DateOfIsCivil(ToDays(x));
    ToDaysIsSerial(x);
    if Before(x, y) {
      SerialKeepsOrder(x, y);
    } else if Before(y, x) {
      SerialKeepsOrder(y, x);
    }
  }

  /** The date computed from a day is a date of the calendar, and `to_days` leads back. */
  lemma ToDaysOfDateOf(z: int)
    ensures Civil(DateOf(z)) && ToDays(DateOf(z)) == z
  {
    hide DateOf, ToDays, Serial;
    DateOfIsCivil(z);
    ToDaysIsSerial(DateOf(z));
  }

  /** `to_days` counts: the next day is the next integer. */
  lemma ToDaysOfNextDay(x: Date)
    requires Civil(x)
    ensures ToDays(NextDay(x)) == ToDays(x) + 1
  {
    hide DateOf, ToDays, Serial;
    NextDayIsSuccessor(x);
    ToDaysIsSerial(x);
    ToDaysIsSerial(NextDay(x));
  }

  lemma EpochIsZero()
    ensures ToDays(EPOCH) == 0
  {
    ToDaysIsSerial(EPOCH);
  }

  /** On every day before and after the epoch the date computed is the one reached by counting. */
  lemma {:induction false} DateOfCounts(n: int)
    ensures DateOf(n) == Count(n)
    decreases if n < 0 then -n else n
  {
    hide DateOf, ToDays, Serial;
    if n > 0 {
      DateOfCounts(n - 1);
      ToDaysOfDateOf(n - 1);
      NextDayIsSuccessor(Count(n - 1));
      ToDaysOfNextDay(Count(n - 1));
      DateOfToDays(NextDay(Count(n - 1)));
    } else if n < 0 {
      DateOfCounts(n + 1);
      ToDaysOfDateOf(n + 1);
      PreviousDayUndone(Count(n + 1));
      ToDaysOfNextDay(PreviousDay(Count(n + 1)));
      DateOfToDays(PreviousDay(Count(n + 1)));
    } else {
      EpochIsZero();
      DateOfToDays(EPOCH);
    }
  }

  const MIN_DAY := -12687428
  const MAX_DAY := 11248737

  lemma RangeEnds()
    ensures Serial(Date(MIN_YEAR, 1, 1)) == MIN_DAY && Serial(Date(MAX_YEAR, 12, 31)) == MAX_DAY
  {
  }

  // ----- The narrowing of the year -----

  /** 1 January of the year -32768, which a `short` holds although `ok` refuses it. */
  const FIRST_DAY := MIN_DAY - 366

  lemma FirstDay()
    ensures Serial(Date(MIN_YEAR - 1, 1, 1)) == FIRST_DAY
  {
  }

  /** A day and month put into any year stay in it or in the next. */
  lemma AboutYear(x: Date)
    requires 1 <= x.month <= 12 && 1 <= x.day <= 31
    ensures Serial(Date(x.year, 1, 1)) <= Serial(x) < Serial(Date(x.year + 2, 1, 1))
  {
    NewYear(x.year);
    NewYear(x.year + 1);
    if MarchMonth(x) < 11 { MonthLengths(x.year, MarchMonth(x)); }
  }

  lemma ShortKeeps(y: int)
    ensures Short(y) == y <==> MIN_YEAR - 1 <= y <= MAX_YEAR
    ensures Short(y) == y || Short(y) + 2 <= y || y + 2 <= Short(y)
  {
  }

  /** The days whose year a `short` holds. */
  lemma DaysOfStoredYears(z: int)
    ensures MIN_YEAR - 1 <= DateOf(z).year <= MAX_YEAR <==> FIRST_DAY <= z <= MAX_DAY
  {
    hide DateOf, ToDays, Serial;
    var x := DateOf(z);
    var last := Date(MAX_YEAR, 12, 31);
    FirstDay();
    RangeEnds();
    DateOfIsCivil(z);
    InsideYear(x);
    NextDayIsSuccessor(last);
    if x.year < MIN_YEAR - 1 {
      YearsInOrder(x.year + 1, MIN_YEAR - 1);
    } else if x.year > MAX_YEAR {
      YearsInOrder(MAX_YEAR + 1, x.year);
    } else {
      YearsInOrder(MIN_YEAR - 1, x.year);
      YearsInOrder(x.year + 1, MAX_YEAR + 1);
    }
  }

  // ----- What callers rely on -----

  /** Going to the date `from_days` returns and back gives the day if and only if a `short` holds
      its year. */
  lemma ToDaysOfFromDays(z: int)
    ensures ToDays(FromDays(z)) == z <==> FIRST_DAY <= z <= MAX_DAY
  {
    hide DateOf, ToDays, Serial, Short;
    var x := DateOf(z);
    ToDaysOfDateOf(z);
    DateOfIsCivil(z);
    ShortKeeps(x.year);
    ToDaysIsSerial(FromDays(z));
    AboutYear(FromDays(z));
    InsideYear(x);
    if Short(x.year) + 2 <= x.year {
      YearsInOrder(Short(x.year) + 2, x.year);
    } else if x.year + 2 <= Short(x.year) {
      YearsInOrder(x.year + 1, Short(x.year));
    }
    DaysOfStoredYears(z);
  }

  /** `from_days` undoes `to_days` on every date whose year a `short` holds. */
  lemma FromDaysOfToDays(x: Date)
    requires Civil(x)
    ensures FromDays(ToDays(x)) == x <==> MIN_YEAR - 1 <= x.year <= MAX_YEAR
  {
    hide DateOf, ToDays, Short;
    DateOfToDays(x);
    ShortKeeps(x.year);
  }

  /** On the days whose year a `short` holds, and on no other, `from_days` is the date reached by
      counting from the epoch. */
  lemma FromDaysCounts(n: int)
    ensures FromDays(n) == Count(n) <==> FIRST_DAY <= n <= MAX_DAY
  {
    hide DateOf, Short, Count;
    DateOfCounts(n);
    ShortKeeps(DateOf(n).year);
    DaysOfStoredYears(n);
  }

  /** `from_days` yields an `ok` date unless the narrowed year is the lowest one, or lacks the
      29 February that the day is. */
  lemma FromDaysOkExactly(z: int)
    ensures Ok(FromDays(z)) <==>
              var x := DateOf(z);
              Short(x.year) != MIN_YEAR - 1 && (x.month == 2 && x.day == 29 ==> IsLeap(Short(x.year)))
  {
    hide ToDays, DateOf, IsLeap;
    DateOfIsCivil(z);
  }

  /** Where a `short` holds the year, the date is `ok` except in the year -32768. */
  lemma FromDaysOkInRange(z: int)
    requires FIRST_DAY <= z <= MAX_DAY
    ensures Ok(FromDays(z)) <==> MIN_DAY <= z
  {
    hide DateOf, ToDays, Serial, Short;
    var x := DateOf(z);
    FromDaysOkExactly(z);
    DaysOfStoredYears(z);
    ShortKeeps(x.year);
    DateOfIsCivil(z);
    RangeEnds();
    InsideYear(x);
    YearsInOrder(MIN_YEAR, if x.year < MIN_YEAR then MIN_YEAR else x.year);
  }

  /** The date of a day, given both. */
  lemma DateOfSerial(x: Date)
    requires Civil(x)
    ensures DateOf(Serial(x)) == x && ToDays(x) == Serial(x)
  {
    ToDaysIsSerial(x);
    DateOfToDays(x);
  }

  /** The first day that does not come back: 1 January 32768 is stored as the year -32768. */
  lemma DayAfterRange()
    ensures FromDays(MAX_DAY + 1) == Date(MIN_YEAR - 1, 1, 1) && ToDays(FromDays(MAX_DAY + 1)) == FIRST_DAY
  {
    hide DateOf, ToDays;
    DateOfSerial(Date(MAX_YEAR + 1, 1, 1));
    DateOfSerial(Date(MIN_YEAR - 1, 1, 1));
  }

  /** 1 January 32769 is stored as an `ok` date 65536 years earlier. */
  lemma OkBeyondRange()
    ensures DateOf(MAX_DAY + 367) == Date(MAX_YEAR + 2, 1, 1)
    ensures FromDays(MAX_DAY + 367) == Date(MIN_YEAR, 1, 1) && Ok(FromDays(MAX_DAY + 367))
  {
    hide DateOf, ToDays;
    DateOfSerial(Date(MAX_YEAR + 2, 1, 1));
  }

  /** 29 February 65436 is stored as a date that does not exist. */
  lemma NotOkBeyondRange()
    ensures DateOf(23180539) == Date(65436, 2, 29)
    ensures FromDays(23180539) == Date(-100, 2, 29) && !Ok(FromDays(23180539))
  {
    hide DateOf, ToDays;
    DateOfSerial(Date(65436, 2, 29));
  }

  lemma YearLengths(y: int)
    ensures Serial(Date(y - 1, 1, 1)) + 365 <= Serial(Date(y, 1, 1))
    ensures Serial(Date(y + 1, 1, 1)) + 365 <= Serial(Date(y + 2, 1, 1))
  {
    NewYear(y - 2);
    NewYear(y - 1);
    NewYear(y);
    NewYear(y + 1);
  }

  /** A day number outside its month still lies in the year before, the year or the next. */
  lemma NearYear(x: Date)
    requires 1 <= x.month <= 12 && x.day <= 255
    ensures x.year - 1 <= DateOf(ToDays(x)).year <= x.year + 1
  {
    hide DateOf, ToDays, Serial;
    var first := Date(x.year, x.month, 1);
    ToDaysIsSerial(x);
    DaysOfMonth(x);
    InsideYear(first);
    var y := DateOf(ToDays(x));
    DateOfIsCivil(ToDays(x));
    InsideYear(y);
    YearLengths(x.year);
    if y.year < x.year - 1 {
      YearsInOrder(y.year + 1, x.year - 1);
    } else if y.year > x.year + 1 {
      YearsInOrder(x.year + 2, y.year);
    }
  }

  /** `ok` is exact on all dates that can be stored: it holds if and only if the year is allowed and
      the date comes back from its day. */
  lemma OkExactly(x: Date)
    requires x.month <= 255 && x.day <= 255
    ensures Ok(x) <==> MIN_YEAR <= x.year <= MAX_YEAR && FromDays(ToDays(x)) == x
  {
    hide DateOf, ToDays, Short;
    DateOfIsCivil(ToDays(x));
    ShortKeeps(x.year);
    if Civil(x) {
      DateOfToDays(x);
    } else if 1 <= x.month <= 12 {
      NearYear(x);
      ShortKeeps(DateOf(ToDays(x)).year);
    }
  }
}
