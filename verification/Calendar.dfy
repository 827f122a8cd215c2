/** The part of the ECMAScript time model that the attendance dates rely on: time values in
    milliseconds since 1970-01-01T00:00Z, days, the proleptic Gregorian calendar, and `Date.UTC`.
    Section numbers refer to ECMA-262, section 21.4.1. */
module Calendar {
  const MAX_DAY := 100_000_000
  const MAX_TIME := 8_640_000_000_000_000

  /** What TimeClip lets through: every Date that is not the invalid Date. */
  predicate ValidTime(t: int) {
    -MAX_TIME <= t <= MAX_TIME
  }

  function Day(t: int): int {
    t / 86_400_000
  }

  function HourOf(t: int): (h: int)
    ensures 0 <= h < 24
  {
    t % 86_400_000 / 3_600_000
  }

  predicate IsLeap(y: int) {
    y % 4 == 0 && (y % 100 != 0 || y % 400 == 0)
  }

  function DaysInYear(y: int): int {
    if IsLeap(y) then 366 else 365
  }

  /** Day number of January 1st of year y (DayFromYear). */
  function DayFromYear(y: int): int {
    365 * (y - 1970) + (y - 1969) / 4 - (y - 1901) / 100 + (y - 1601) / 400
  }

  /** Each quotient counts the multiples passed so far: it moves on exactly at a multiple. */
  lemma Multiples4(y: int)
    ensures (y + 1 - 1969) / 4 - (y - 1969) / 4 == if y % 4 == 0 then 1 else 0
  {}

  lemma Multiples100(y: int)
    ensures (y + 1 - 1901) / 100 - (y - 1901) / 100 == if y % 100 == 0 then 1 else 0
  {}

  lemma Multiples400(y: int)
    ensures (y + 1 - 1601) / 400 - (y - 1601) / 400 == if y % 400 == 0 then 1 else 0
  {}

  lemma LeapByDivisors(y: int)
    ensures y % 400 == 0 ==> y % 100 == 0
    ensures y % 100 == 0 ==> y % 4 == 0
  {}

  lemma YearLength(y: int)
    ensures DayFromYear(y + 1) == DayFromYear(y) + DaysInYear(y)
    ensures DaysInYear(y) == if (y % 4 == 0 && y % 100 != 0) || y % 400 == 0 then 366 else 365
  {
    Multiples4(y);
    Multiples100(y);
    Multiples400(y);
    LeapByDivisors(y);
  }

  lemma {:induction false} YearsGrow(a: int, b: int)
    requires a <= b
    ensures DayFromYear(b) - DayFromYear(a) >= 365 * (b - a)
    decreases b - a
  {
    hide DayFromYear;
    if a < b {
      YearLength(b - 1);
      YearsGrow(a, b - 1);
    }
  }

  function YearSearch(d: int, y: int): (r: int)
    requires DayFromYear(y) <= d
    ensures DayFromYear(r) <= d < DayFromYear(r + 1)
    decreases d - DayFromYear(y)
  {
    YearLength(y);
    if d < DayFromYear(y + 1) then y else YearSearch(d, y + 1)
  }

  /** A year that has begun by day d, to search from. */
  function EarlyYear(d: int): (y: int)
    ensures DayFromYear(y) <= d
  {
    if d < 0 then YearsGrow(1970 + d, 1970); 1970 + d else 1970
  }

  /** The year containing day d (YearFromTime). */
  function YearOfDay(d: int): (y: int)
    ensures DayFromYear(y) <= d < DayFromYear(y + 1)
  {
    YearSearch(d, EarlyYear(d))
  }

  lemma YearIsUnique(d: int, y: int)
    requires DayFromYear(y) <= d < DayFromYear(y + 1)
    ensures YearOfDay(d) == y
  {
    hide DayFromYear;
    var r := YearOfDay(d);
    if r < y {
      YearsGrow(r + 1, y);
    } else if y < r {
      YearsGrow(y + 1, r);
    }
  }

  /** Days of a year before the first of month m, months counted from 0; 12 gives the length of the year. */
  function MonthStart(leap: bool, m: int): int
    requires 0 <= m <= 12
  {
    var common := [0, 31, 59, 90, 120, 151, 181, 212, 243, 273, 304, 334, 365];
    common[m] + if leap && m >= 2 then 1 else 0
  }

  function MonthSearch(leap: bool, n: int, m: int): (r: int)
    requires 0 <= m < 12 && MonthStart(leap, m) <= n < MonthStart(leap, 12)
    ensures 0 <= r < 12 && MonthStart(leap, r) <= n < MonthStart(leap, r + 1)
    decreases 12 - m
  {
    if n < MonthStart(leap, m + 1) then m else MonthSearch(leap, n, m + 1)
  }

  /** Days since January 1st of the same year (DayWithinYear). */
  function DayInYear(d: int): (n: int)
    ensures d == DayFromYear(YearOfDay(d)) + n
    ensures 0 <= n < DaysInYear(YearOfDay(d))
  {
    YearLength(YearOfDay(d));
    d - DayFromYear(YearOfDay(d))
  }

  /** Month of day d, counted from 0 (MonthFromTime). */
  function MonthOfDay(d: int): (m: int)
    ensures 0 <= m < 12
    ensures var leap := IsLeap(YearOfDay(d));
            MonthStart(leap, m) <= DayInYear(d) < MonthStart(leap, m + 1)
  {
    hide DayFromYear, YearOfDay;
    MonthSearch(IsLeap(YearOfDay(d)), DayInYear(d), 0)
  }

  /** Day of the month of day d, counted from 1 (DateFromTime). */
  function DateOfDay(d: int): (r: int)
    ensures 1 <= r <= 31
  {
    hide MonthStart, DayFromYear;
    MonthsAreShort(YearOfDay(d), MonthOfDay(d));
    DayInYear(d) - MonthStart(IsLeap(YearOfDay(d)), MonthOfDay(d)) + 1
  }

  /** The day reached by counting `date` days from the last day before month m of year y (MakeDay).
      `date` may lie outside the month: MakeDay only adds it to the first of the month. */
  function MakeDay(y: int, m: int, date: int): int
    requires 0 <= m < 12
  {
    DayFromYear(y) + MonthStart(IsLeap(y), m) + date - 1
  }

  function MonthLength(y: int, m: int): int
    requires 0 <= m < 12
  {
    MonthStart(IsLeap(y), m + 1) - MonthStart(IsLeap(y), m)
  }

  lemma MonthsAreShort(y: int, m: int)
    requires 0 <= m < 12
    ensures 28 <= MonthLength(y, m) <= 31
  {}

  /** The months have their lengths, and the count starts in 1970. */
  lemma MonthLengths(y: int)
    ensures DayFromYear(1970) == 0 && MonthStart(IsLeap(y), 0) == 0 && MonthStart(IsLeap(y), 12) == DaysInYear(y)
    ensures forall m :: 0 <= m < 12 ==>
              MonthLength(y, m) == if m == 1 then (if DaysInYear(y) == 366 then 29 else 28)
                                   else if m in [3, 5, 8, 10] then 30 else 31
  {}

  lemma DateInMonth(d: int)
    ensures DateOfDay(d) <= MonthLength(YearOfDay(d), MonthOfDay(d))
  {
    hide DayFromYear;
  }

  /** Reading the fields of a day and rebuilding the day is the identity. */
  lemma FieldsRebuildDay(d: int)
    ensures MakeDay(YearOfDay(d), MonthOfDay(d), DateOfDay(d)) == d
  {}

  /** Rebuilding a day from fields of a real date and reading the fields back is the identity. */
  lemma DayKeepsFields(y: int, m: int, date: int)
    requires 0 <= m < 12
    requires 1 <= date <= MonthLength(y, m)
    ensures var d := MakeDay(y, m, date);
            YearOfDay(d) == y && MonthOfDay(d) == m && DateOfDay(d) == date
  {
    hide DayFromYear;
    var d := MakeDay(y, m, date);
    YearLength(y);
    YearIsUnique(d, y);
    var r := MonthOfDay(d);
    if r < m {
      MonthsGrow(IsLeap(y), r + 1, m);
    } else if m < r {
      MonthsGrow(IsLeap(y), m + 1, r);
    }
  }

  lemma {:induction false} MonthsGrow(leap: bool, a: int, b: int)
    requires 0 <= a <= b <= 12
    ensures MonthStart(leap, a) <= MonthStart(leap, b)
    decreases b - a
  {
    if a < b {
      MonthsGrow(leap, a, b - 1);
    }
  }

  /** MakeFullYear: `Date.UTC` reads a year from 0 to 99 as a year of the twentieth century. */
  function FullYear(y: int): int {
    if 0 <= y <= 99 then 1900 + y else y
  }

  /** The day whose midnight `Date.UTC(y, m, date)` returns. */
  function UtcDay(y: int, m: int, date: int): int
    requires 0 <= m < 12
  {
    MakeDay(FullYear(y), m, date)
  }

  lemma TwentiethCentury(y: int, m: int, date: int)
    requires 0 <= m < 12
    ensures UtcDay(y, m, date) == MakeDay(if 0 <= y <= 99 then 1900 + y else y, m, date)
  {}

  predicate TwoDigitYear(y: int) {
    0 <= y <= 99
  }

  /** The fields of day d, or of the day after it with the date left to overflow, put through `Date.UTC`. */
  function Reencode(d: int): int {
    UtcDay(YearOfDay(d), MonthOfDay(d), DateOfDay(d))
  }

  function ReencodeNext(d: int): int {
    UtcDay(YearOfDay(d), MonthOfDay(d), DateOfDay(d) + 1)
  }

  lemma CenturyShift(y: int, m: int, date: int)
    requires TwoDigitYear(y) && 0 <= m < 12 && 1 <= date <= 32
    ensures DayFromYear(1900) <= UtcDay(y, m, date) <= 100_000
    ensures UtcDay(y, m, date) > DayFromYear(y + 1) + 1
  {
    MonthsGrow(IsLeap(1900 + y), 0, m);
    MonthsGrow(IsLeap(1900 + y), m, 12);
    YearsGrow(y + 1, 1900 + y);
    YearsGrow(1900, 1900 + y);
  }

  lemma ReencodeOrdinary(d: int)
    requires !TwoDigitYear(YearOfDay(d))
    ensures Reencode(d) == d && ReencodeNext(d) == d + 1
  {
    hide DayFromYear;
    FieldsRebuildDay(d);
  }

  lemma ReencodeTwoDigit(d: int)
    requires TwoDigitYear(YearOfDay(d))
    ensures d + 1 < Reencode(d) <= 100_000 && d + 1 < ReencodeNext(d) <= 100_000
    ensures YearOfDay(ReencodeNext(d)) >= 1900
  {
    hide DayFromYear;
    var y, m, date := YearOfDay(d), MonthOfDay(d), DateOfDay(d);
    CenturyShift(y, m, date);
    CenturyShift(y, m, date + 1);
    YearAtLeast(ReencodeNext(d), 1900);
  }

  lemma YearAtLeast(d: int, y: int)
    requires DayFromYear(y) <= d
    ensures YearOfDay(d) >= y
  {
    hide DayFromYear;
    if YearOfDay(d) < y {
      YearsGrow(YearOfDay(d) + 1, y);
    }
  }

  /** Passing the fields of a day through `Date.UTC` gives the same day back exactly when its year
      is not one that `Date.UTC` moves into the twentieth century; otherwise a later day. */
  lemma ReencodeIsExact(d: int)
    ensures Reencode(d) == d <==> !TwoDigitYear(YearOfDay(d))
    ensures Reencode(d) >= d && (Reencode(d) == d || Reencode(d) <= 100_000)
  {
    hide DayFromYear;
    if TwoDigitYear(YearOfDay(d)) {
      ReencodeTwoDigit(d);
    } else {
      ReencodeOrdinary(d);
    }
  }
}
