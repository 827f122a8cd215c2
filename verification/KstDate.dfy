/** The attendance dates of src/shared/utils/attendance-date.util.ts. A `Date` is its time value; the
    clock readings are parameters. */
module KstDate {
  import opened Common
  import opened Calendar
  import opened Decimal

  const KST_OFFSET := 32_400_000

  /** The reference: the number of whole days from 1970-01-01 to the Korean date at instant t. */
  function KstDay(t: int): int {
    (t + KST_OFFSET) / 86_400_000
  }

  /** The instant the source stores for a Korean date: midnight UTC of the day with the same fields. */
  function DateOf(day: int): int {
    day * 86_400_000
  }

  /** Euclidean division is determined by quotient and remainder. */
  lemma Euclid(t: int, m: int, q: int, r: int)
    requires m > 0 && t == m * q + r && 0 <= r < m
    ensures t / m == q && t % m == r
  {
    var d := q - t / m;
    assert m * d == t % m - r by { assert m * d == m * q - m * (t / m); }
    assert d > 0 ==> m * d >= m;
    assert d < 0 ==> m * d <= -m;
  }

  /** Neither the UTC date nor the Korean date at t lies in the years 0 to 99. */
  predicate OutsideTwoDigitYears(t: int) {
    FullYears(Day(t), KstDay(t))
  }

  predicate FullYears(a: int, b: int) {
    !TwoDigitYear(YearOfDay(a)) && !TwoDigitYear(YearOfDay(b))
  }

  lemma KstDayByHour(t: int)
    ensures KstDay(t) == Day(t) + if HourOf(t) + 9 >= 24 then 1 else 0
  {
    var r := t % 86_400_000;
    assert t == 86_400_000 * Day(t) + r;
    assert KstDay(t) == Day(t) + (r + KST_OFFSET) / 86_400_000;
  }

  /** The day after d, through `Date.UTC` twice, as the late branch computes it. */
  lemma NextDayIsExact(d: int)
    ensures var day := Reencode(ReencodeNext(d));
            day >= d + 1 && (day == d + 1 <==> FullYears(d, d + 1)) && (day == d + 1 || day <= 100_000)
  {
    hide DayFromYear;
    if TwoDigitYear(YearOfDay(d)) {
      ReencodeTwoDigit(d);
      ReencodeOrdinary(ReencodeNext(d));
    } else {
      ReencodeOrdinary(d);
      ReencodeIsExact(d + 1);
    }
  }

  lemma MidnightOf(day: int)
    ensures Day(DateOf(day)) == day && DateOf(day) % 86_400_000 == 0
    ensures ValidTime(DateOf(day)) <==> -MAX_DAY <= day <= MAX_DAY
  {
    Euclid(DateOf(day), 86_400_000, day, 0);
  }

  /** What `getDateInKST` stores for an instant. */
  function DateInKst(t: int): int {
    var d := Day(t);
    DateOf(if HourOf(t) + 9 >= 24 then Reencode(ReencodeNext(d)) else Reencode(d))
  }

  /** The branch on the UTC hour, the overflowing `utcDate + 1` and the two `Date.UTC` calls together
      compute the Korean date, exactly when no two-digit year is involved. */
  method GetDateInKst(date: int) returns (r: int)
    requires ValidTime(date)
    ensures r == DateInKst(date) && ValidTime(r) && r % 86_400_000 == 0
    ensures r == DateOf(KstDay(date)) <==> OutsideTwoDigitYears(date)
    ensures r >= DateOf(KstDay(date))
  {
    hide DayFromYear;
    var d := Day(date);
    var utcYear, utcMonth, utcDate, utcHours := YearOfDay(d), MonthOfDay(d), DateOfDay(d), HourOf(date);
    var kstYear, kstMonth, kstDate := utcYear, utcMonth, utcDate;
    var kstHours := utcHours + 9;
    if kstHours >= 24 {
      var nextDay := UtcDay(utcYear, utcMonth, utcDate + 1);
      kstYear, kstMonth, kstDate := YearOfDay(nextDay), MonthOfDay(nextDay), DateOfDay(nextDay);
    }
    var kstDay := UtcDay(kstYear, kstMonth, kstDate);
    assert kstDay == if kstHours >= 24 then Reencode(ReencodeNext(d)) else Reencode(d);
    KstDayByHour(date);
    LastHour(date);
    DayByFields(d, kstDay, kstHours >= 24);
    MidnightOf(kstDay);
    MidnightOf(KstDay(date));
    r := DateOf(kstDay);
  }

  /** The two branches, on whole days: d is the UTC day, and next says whether it is past 15:00. */
  lemma DayByFields(d: int, day: int, next: bool)
    requires -MAX_DAY <= d <= MAX_DAY && (next ==> d < MAX_DAY)
    requires day == if next then Reencode(ReencodeNext(d)) else Reencode(d)
    ensures -MAX_DAY <= day <= MAX_DAY
    ensures var k := if next then d + 1 else d;
            day >= k && (day == k <==> FullYears(d, k))
  {
    hide DayFromYear;
    NextDayIsExact(d);
    ReencodeIsExact(d);
  }

  lemma LastHour(t: int)
    requires ValidTime(t)
    ensures -MAX_DAY <= Day(t) <= MAX_DAY
    ensures HourOf(t) > 0 ==> Day(t) < MAX_DAY
  {
    if Day(t) >= MAX_DAY {
      assert t == MAX_TIME;
    }
  }

  method GetTodayInKst(now: int) returns (r: int)
    requires ValidTime(now)
    ensures ValidTime(r) && r % 86_400_000 == 0
    ensures r == DateOf(KstDay(now)) <==> OutsideTwoDigitYears(now)
    ensures r >= DateOf(KstDay(now))
  {
    r := GetDateInKst(now);
  }

  /** What a server clock can show. */
  predicate ServerTime(t: int) {
    0 <= t <= MAX_TIME
  }

  /** It shows none of the years 0 to 99, and its Korean day has a day before. */
  lemma ServerClock(now: int)
    requires ServerTime(now)
    ensures OutsideTwoDigitYears(now) && KstDay(now) > -MAX_DAY
  {
    YearAtLeast(Day(now), 1970);
    YearAtLeast(KstDay(now), 1970);
  }

  /** What `getYesterdayInKST` should answer: the day before, or the invalid Date when that day lies
      before the first representable one. */
  function DayBefore(now: int): Option<int> {
    if KstDay(now) > -MAX_DAY then Some(DateOf(KstDay(now) - 1)) else None
  }

  /** `setUTCDate` subtracts one from the day of the month; at the first of a month MakeDay carries the
      zero into the month before, and across new year into the year before. */
  method GetYesterdayInKst(now: int) returns (r: Option<int>)
    requires ValidTime(now)
    ensures r == DayBefore(now) <==> OutsideTwoDigitYears(now)
  {
    hide DayFromYear;
    var today := GetTodayInKst(now);
    var d := Day(today);
    var yesterday := DateOf(MakeDay(YearOfDay(d), MonthOfDay(d), DateOfDay(d) - 1)) + today % 86_400_000;
    r := if ValidTime(yesterday) then Some(yesterday) else None;
    assert yesterday == DateOf(d - 1) by { FieldsRebuildDay(d); }
    Euclid(today, 86_400_000, d, 0);
    MidnightOf(d - 1);
    MidnightOf(KstDay(now) - 1);
  }

  function KstText(year: int, month: nat, date: nat, hours: nat, minutes: nat, seconds: nat): string {
    IntText(year) + "-" + Pad2(month) + "-" + Pad2(date) + " "
    + Pad2(hours) + ":" + Pad2(minutes) + ":" + Pad2(seconds) + " +09:00"
  }

  function MinuteOf(t: int): (m: int)
    ensures 0 <= m < 60
  {
    t % 3_600_000 / 60_000
  }

  function SecondOf(t: int): (s: int)
    ensures 0 <= s < 60
  {
    t % 60_000 / 1000
  }

  function DayText(day: int, hours: nat, minutes: nat, seconds: nat): string {
    KstText(YearOfDay(day), MonthOfDay(day) + 1, DateOfDay(day), hours, minutes, seconds)
  }

  /** `formatDateToKST`. Past the end of the time range every field prints as NaN. */
  function FormatDateToKst(date: int): string
    requires ValidTime(date)
  {
    var kst := date + KST_OFFSET;
    if !ValidTime(kst) then "NaN-NaN-NaN NaN:NaN:NaN +09:00"
    else DayText(Day(kst), HourOf(kst), MinuteOf(kst), SecondOf(kst))
  }

  /** The six printed fields, still as text. */
  datatype Fields = Fields(year: string, month: string, date: string, hours: string, minutes: string, seconds: string)

  function SplitFields(s: string): Fields
    requires |s| > 22
  {
    var n := |s| - 22;
    Fields(s[..n], s[n + 1..n + 3], s[n + 4..n + 6], s[n + 7..n + 9], s[n + 10..n + 12], s[n + 13..n + 15])
  }

  /** The UTC second, counted from 1970, at a Korean wall clock time. */
  function SecondFrom(day: int, hours: int, minutes: int, seconds: int): int {
    day * 86_400 + (hours - 9) * 3_600 + minutes * 60 + seconds
  }

  /** The day that the three printed date fields denote, if they are a date of the calendar. */
  function FieldsDay(f: Fields): Option<int> {
    var year, month, date := IntValue(f.year), Value(f.month), Value(f.date);
    if !(1 <= month <= 12) then None
    else if !(1 <= date <= MonthLength(year, month - 1)) then None
    else Some(MakeDay(year, month - 1, date))
  }

  /** The UTC second that six printed fields denote, if they are a date and a time of day. */
  function FieldsSecond(f: Fields): Option<int> {
    var day, hours, minutes, seconds := FieldsDay(f), Value(f.hours), Value(f.minutes), Value(f.seconds);
    if day == None || !(0 <= hours < 24) || !(0 <= minutes < 60) || !(0 <= seconds < 60) then None
    else Some(SecondFrom(day.value, hours, minutes, seconds))
  }

  /** The independent readers of a printed Korean time: its date, and its instant in seconds. */
  function ReadDay(s: string): Option<int> {
    if |s| <= 22 then None else FieldsDay(SplitFields(s))
  }

  function ReadSecond(s: string): Option<int> {
    if |s| <= 22 then None else FieldsSecond(SplitFields(s))
  }

  lemma SplitsBack(f: Fields)
    requires |f.year| >= 1
    requires |f.month| == |f.date| == |f.hours| == |f.minutes| == |f.seconds| == 2
    ensures var s := f.year + "-" + f.month + "-" + f.date + " "
                     + f.hours + ":" + f.minutes + ":" + f.seconds + " +09:00";
            |s| > 22 && SplitFields(s) == f
  {}

  lemma TextReadsBack(year: int, month: nat, date: nat, hours: nat, minutes: nat, seconds: nat)
    requires 1 <= month <= 12 && 1 <= date <= MonthLength(year, month - 1)
    requires hours < 24 && minutes < 60 && seconds < 60
    ensures var s := KstText(year, month, date, hours, minutes, seconds);
            ReadDay(s) == Some(MakeDay(year, month - 1, date))
            && ReadSecond(s) == Some(SecondFrom(MakeDay(year, month - 1, date), hours, minutes, seconds))
            && |s| > 22 && SplitFields(s).year == IntText(year)
  {
    hide DayFromYear;
    var f := Fields(IntText(year), Pad2(month), Pad2(date), Pad2(hours), Pad2(minutes), Pad2(seconds));
    MonthsAreShort(year, month - 1);
    ValueOfIntText(year);
    ValueOfPad2(month);
    ValueOfPad2(date);
    ValueOfPad2(hours);
    ValueOfPad2(minutes);
    ValueOfPad2(seconds);
    assert |f.year| >= 1;
    SplitsBack(f);
  }

  predicate TwoDigits(s: string, i: int) {
    0 <= i && i + 1 < |s| && '0' <= s[i] <= '9' && '0' <= s[i + 1] <= '9'
  }

  /** The year, then `-MM-DD HH:mm:ss +09:00`. */
  predicate LaidOut(s: string, year: string) {
    var n := |year|;
    |s| == n + 22 && s[..n] == year && s[n] == '-' && TwoDigits(s, n + 1) && s[n + 3] == '-' && TwoDigits(s, n + 4)
    && s[n + 6] == ' ' && TwoDigits(s, n + 7) && s[n + 9] == ':' && TwoDigits(s, n + 10) && s[n + 12] == ':'
    && TwoDigits(s, n + 13) && s[n + 15..] == " +09:00"
  }

  lemma Pad2IsDigits(n: nat)
    requires n < 100
    ensures TwoDigits(Pad2(n), 0) && |Pad2(n)| == 2
  {
    ValueOfPad2(n);
    var s := Text(n);
    if |s| < 2 {
      assert s[0] in s && Pad2(n) == ['0'] + s;
    } else {
      assert s[0] in s && s[1] in s;
    }
  }

  lemma FieldsLaidOut(f: Fields)
    requires |f.month| == |f.date| == |f.hours| == |f.minutes| == |f.seconds| == 2
    requires TwoDigits(f.month, 0) && TwoDigits(f.date, 0) && TwoDigits(f.hours, 0) && TwoDigits(f.minutes, 0)
    requires TwoDigits(f.seconds, 0)
    ensures var s := f.year + "-" + f.month + "-" + f.date + " "
                     + f.hours + ":" + f.minutes + ":" + f.seconds + " +09:00";
            LaidOut(s, f.year)
  {}

  /** The layout of a printed time, its date being that of the Korean calendar. */
  lemma FormatIsLaidOut(date: int)
    requires ValidTime(date) && ValidTime(date + KST_OFFSET)
    ensures LaidOut(FormatDateToKst(date), IntText(YearOfDay(KstDay(date))))
  {
    hide DayFromYear, LaidOut, TwoDigits, MonthStart;
    var kst := date + KST_OFFSET;
    var day := Day(kst);
    var f := Fields(IntText(YearOfDay(day)), Pad2(MonthOfDay(day) + 1), Pad2(DateOfDay(day)),
                    Pad2(HourOf(kst)), Pad2(MinuteOf(kst)), Pad2(SecondOf(kst)));
    Pad2IsDigits(MonthOfDay(day) + 1);
    Pad2IsDigits(DateOfDay(day));
    Pad2IsDigits(HourOf(kst));
    Pad2IsDigits(MinuteOf(kst));
    Pad2IsDigits(SecondOf(kst));
    hide IntText, Pad2, YearOfDay, HourOf, MinuteOf, SecondOf;
    FieldsLaidOut(f);
  }

  /** The example of the documentation: 2026-01-19 15:22:30 UTC. */
  lemma DocumentedTime()
    ensures FormatDateToKst(1_768_836_150_000) == "2026-01-20 00:22:30 +09:00"
  {
    DocumentedClock();
    DocumentedDate();
    DocumentedTexts();
    hide HourOf, MinuteOf, SecondOf, Day, YearOfDay, MonthOfDay, DateOfDay, Pad2, IntText;
    assert FormatDateToKst(1_768_836_150_000) == KstText(2026, 1, 20, 0, 22, 30);
    assert "2026" + "-" + "01" + "-" + "20" + " " + "00" + ":" + "22" + ":" + "30" + " +09:00"
           == "2026-01-20 00:22:30 +09:00";
  }

  lemma DocumentedClock()
    ensures var kst := 1_768_836_150_000 + KST_OFFSET;
            Day(kst) == 20_473 && HourOf(kst) == 0 && MinuteOf(kst) == 22 && SecondOf(kst) == 30
  {}

  lemma DocumentedDate()
    ensures YearOfDay(20_473) == 2026 && MonthOfDay(20_473) == 0 && DateOfDay(20_473) == 20
  {
    assert MakeDay(2026, 0, 20) == 20_473;
    assert MonthLength(2026, 0) == 31;
    hide DayFromYear, MakeDay, YearOfDay, MonthOfDay, DateOfDay, MonthStart, MonthLength;
    DayKeepsFields(2026, 0, 20);
  }

  lemma DocumentedTexts()
    ensures IntText(2026) == "2026" && Pad2(1) == "01" && Pad2(20) == "20" && Pad2(0) == "00"
    ensures Pad2(22) == "22" && Pad2(30) == "30"
  {
    assert Text(20) == "20" && Text(202) == "202" && Text(2026) == "2026" && Text(22) == "22" && Text(30) == "30";
    assert Text(1) == "1" && Text(0) == "0";
  }

  lemma Thousands(t: int, m: int)
    requires m > 0
    ensures t / (1000 * m) == t / 1000 / m
    ensures t % (1000 * m) / 1000 == t / 1000 % m
  {
    var s := t / 1000;
    var r := 1000 * (s % m) + t % 1000;
    assert 1000 * (m * (s / m)) == (1000 * m) * (s / m);
    Euclid(t, 1000 * m, s / m, r);
    Euclid(r, 1000, s % m, t % 1000);
  }

  /** The printed clock fields depend on the second only. */
  lemma ClockFields(t: int)
    ensures var s := t / 1000;
            Day(t) == s / 86_400 && HourOf(t) == s % 86_400 / 3_600
            && MinuteOf(t) == s % 3_600 / 60 && SecondOf(t) == s % 60
  {
    Thousands(t, 86_400);
    Thousands(t % 86_400_000, 3_600);
    Thousands(t, 3_600);
    Thousands(t % 3_600_000, 60);
    Thousands(t, 60);
  }

  lemma SecondOfDay(s: int)
    ensures s / 86_400 * 86_400 + s % 86_400 / 3_600 * 3_600 + s % 3_600 / 60 * 60 + s % 60 == s
  {
    Euclid(s % 86_400, 3_600, s % 86_400 / 3_600, s % 3_600);
    Euclid(s % 3_600, 60, s % 3_600 / 60, s % 60);
  }

  /** The clock fields of the shifted instant, shifted back, are the second of the instant. */
  lemma ShiftBack(date: int)
    ensures var kst := date + KST_OFFSET;
            SecondFrom(Day(kst), HourOf(kst), MinuteOf(kst), SecondOf(kst)) == date / 1000
  {
    var kst := date + KST_OFFSET;
    ClockFields(kst);
    SecondOfDay(kst / 1000);
    Euclid(kst, 1000, date / 1000 + 32_400, date % 1000);
  }

  lemma DayReadsBack(d: int, h: nat, m: nat, s: nat)
    requires h < 24 && m < 60 && s < 60
    ensures ReadDay(DayText(d, h, m, s)) == Some(d) && ReadSecond(DayText(d, h, m, s)) == Some(SecondFrom(d, h, m, s))
    ensures |DayText(d, h, m, s)| > 22 && SplitFields(DayText(d, h, m, s)).year == IntText(YearOfDay(d))
  {
    hide DayFromYear, KstText, FieldsSecond, FieldsDay, SplitFields, ReadDay, ReadSecond, IntText, MonthStart, MakeDay;
    var year, month, date := YearOfDay(d), MonthOfDay(d), DateOfDay(d);
    DateInMonth(d);
    TextReadsBack(year, month + 1, date, h, m, s);
    assert MakeDay(year, month, date) == d by { FieldsRebuildDay(d); }
  }

  /** The printed time, read back, is the instant truncated to seconds. */
  lemma FormatReadsBack(date: int)
    requires ValidTime(date) && ValidTime(date + KST_OFFSET)
    ensures ReadSecond(FormatDateToKst(date)) == Some(date / 1000)
  {
    hide DayFromYear;
    var kst := date + KST_OFFSET;
    ShiftBack(date);
    DayReadsBack(Day(kst), HourOf(kst), MinuteOf(kst), SecondOf(kst));
  }

  lemma SameSecond(a: int, b: int)
    requires a / 1000 == b / 1000
    ensures var x, y := a + KST_OFFSET, b + KST_OFFSET;
            Day(x) == Day(y) && HourOf(x) == HourOf(y) && MinuteOf(x) == MinuteOf(y) && SecondOf(x) == SecondOf(y)
  {
    ClockFields(a + KST_OFFSET);
    ClockFields(b + KST_OFFSET);
    Euclid(a + KST_OFFSET, 1000, a / 1000 + 32_400, a % 1000);
    Euclid(b + KST_OFFSET, 1000, b / 1000 + 32_400, b % 1000);
  }

  /** Hence two instants print alike exactly when they lie in the same second. */
  lemma FormatIsFaithful(a: int, b: int)
    requires ValidTime(a) && ValidTime(a + KST_OFFSET) && ValidTime(b) && ValidTime(b + KST_OFFSET)
    ensures FormatDateToKst(a) == FormatDateToKst(b) <==> a / 1000 == b / 1000
  {
    hide DayFromYear;
    FormatReadsBack(a);
    FormatReadsBack(b);
    if a / 1000 == b / 1000 {
      SameSecond(a, b);
    }
  }

  /** The three printed date fields are the Korean date of the instant. */
  lemma FormatPrintsKoreanDate(t: int)
    requires ValidTime(t) && ValidTime(t + KST_OFFSET)
    ensures ReadDay(FormatDateToKst(t)) == Some(KstDay(t))
  {
    hide DayFromYear;
    var kst := t + KST_OFFSET;
    DayReadsBack(Day(kst), HourOf(kst), MinuteOf(kst), SecondOf(kst));
  }

  /** The stored attendance date, as a formula, is the Korean day exactly outside the two-digit years. */
  lemma DateInKstIsExact(t: int)
    requires ValidTime(t)
    ensures DateInKst(t) == DateOf(KstDay(t)) <==> OutsideTwoDigitYears(t)
  {
    hide DayFromYear;
    var d, day := Day(t), Day(DateInKst(t));
    MidnightOf(if HourOf(t) + 9 >= 24 then Reencode(ReencodeNext(d)) else Reencode(d));
    KstDayByHour(t);
    LastHour(t);
    DayByFields(d, day, HourOf(t) + 9 >= 24);
    MidnightOf(KstDay(t));
  }

  /** So the printed date is the stored attendance date of the same instant, exactly outside those years. */
  lemma FormatPrintsAttendanceDate(t: int)
    requires ValidTime(t) && ValidTime(t + KST_OFFSET)
    ensures var day := ReadDay(FormatDateToKst(t));
            day.Some? && (DateOf(day.value) == DateInKst(t) <==> OutsideTwoDigitYears(t))
  {
    hide DayFromYear;
    FormatPrintsKoreanDate(t);
    DateInKstIsExact(t);
  }

  /** An instant of the year 50: the stored date is not the Korean one. */
  lemma TwoDigitYearFails()
    ensures var t := DateOf(-701_000);
            ValidTime(t) && YearOfDay(Day(t)) == 50 && DateInKst(t) != DateOf(KstDay(t))
            && ReadDay(FormatDateToKst(t)) == Some(KstDay(t))
  {
    var t := DateOf(-701_000);
    MidnightOf(-701_000);
    YearIsUnique(-701_000, 50);
    FormatPrintsKoreanDate(t);
    DateInKstIsExact(t);
  }

  predicate FourDigits(s: string) {
    |s| == 4 && forall i :: 0 <= i < 4 ==> '0' <= s[i] <= '9'
  }

  lemma {:induction false} TextLengthAtLeast(n: nat, k: nat)
    requires n >= Pow10(k)
    ensures |Text(n)| >= k + 1
    decreases k
  {
    if k > 0 {
      TextLengthAtLeast(n / 10, k - 1);
    }
  }

  lemma FourDigitNumbers(n: int)
    ensures FourDigits(IntText(n)) <==> 1000 <= n <= 9999
  {
    assert Pow10(1) == 10 && Pow10(2) == 100 && Pow10(3) == 1000 && Pow10(4) == 10_000;
    if 0 <= n <= 999 {
      TextLength(n, 3);
    } else if 1000 <= n <= 9999 {
      TextLength(n, 4);
      TextLengthAtLeast(n, 3);
      assert forall i :: 0 <= i < 4 ==> Text(n)[i] in Text(n);
    } else if n > 9999 {
      TextLengthAtLeast(n, 4);
    } else {
      assert IntText(n)[0] == '-';
    }
  }

  /** Year 1000 begins on day -354285 and year 10000 on day 2932897. */
  lemma FourDigitDays(d: int)
    ensures -354_285 <= d < 2_932_897 <==> 1000 <= YearOfDay(d) <= 9999
  {
    assert DayFromYear(1000) == -354_285 && DayFromYear(10_000) == 2_932_897;
    FromYear(d, 1000);
    FromYear(d, 10_000);
  }

  lemma FromYear(d: int, y: int)
    ensures DayFromYear(y) <= d <==> YearOfDay(d) >= y
  {
    hide DayFromYear;
    if DayFromYear(y) <= d {
      YearAtLeast(d, y);
    } else if YearOfDay(d) >= y {
      YearsGrow(y, YearOfDay(d));
    }
  }

  /** The documented form, a year of four digits, is printed exactly for the Korean days of the years 1000 to 9999. */
  lemma FormatHasFourDigitYearIff(t: int)
    requires ValidTime(t) && ValidTime(t + KST_OFFSET)
    ensures |FormatDateToKst(t)| > 22
    ensures FourDigits(SplitFields(FormatDateToKst(t)).year) <==> -354_285 <= KstDay(t) < 2_932_897
  {
    hide DayFromYear;
    var kst := t + KST_OFFSET;
    DayReadsBack(Day(kst), HourOf(kst), MinuteOf(kst), SecondOf(kst));
    FourDigitNumbers(YearOfDay(Day(kst)));
    FourDigitDays(Day(kst));
  }

  /** For example, the day before 1000-01-01 prints the year 999, and the day after 9999-12-31 the year 10000. */
  lemma OtherYearsFail()
    ensures PrintsYear(-354_286, "999") && PrintsYear(2_932_897, "10000")
  {
    hide YearOfDay, PrintsYear, IntText, DayFromYear;
    YearsAtTheBounds();
    PrintedYear(-354_286);
    PrintedYear(2_932_897);
  }

  lemma YearsAtTheBounds()
    ensures IntText(YearOfDay(-354_286)) == "999" && IntText(YearOfDay(2_932_897)) == "10000"
  {
    hide IntText;
    YearIsUnique(-354_286, 999);
    YearIsUnique(2_932_897, 10_000);
    TextsAtTheBounds();
  }

  lemma TextsAtTheBounds()
    ensures IntText(999) == "999" && IntText(10_000) == "10000"
  {
    assert Text(99) == "99" && Text(999) == "999";
    assert Text(100) == "100" && Text(1000) == "1000" && Text(10_000) == "10000";
  }

  predicate PrintsYear(d: int, year: string) {
    ValidTime(DateOf(d)) && |FormatDateToKst(DateOf(d))| > 22 && SplitFields(FormatDateToKst(DateOf(d))).year == year
  }

  lemma PrintedYear(d: int)
    requires -MAX_DAY <= d < MAX_DAY
    ensures PrintsYear(d, IntText(YearOfDay(d)))
  {
    hide DayFromYear, DayText, SplitFields, IntText, ReadDay, ReadSecond, MonthStart, YearOfDay;
    MidnightOf(d);
    MidnightOf(d + 1);
    ShiftOfMidnight(d);
    DayReadsBack(d, 9, 0, 0);
  }

  /** At midnight UTC it is nine o'clock of the same day in Korea. */
  lemma ShiftOfMidnight(d: int)
    ensures var kst := DateOf(d) + KST_OFFSET;
            Day(kst) == d && HourOf(kst) == 9 && MinuteOf(kst) == 0 && SecondOf(kst) == 0 && KstDay(DateOf(d)) == d
  {
    var kst := DateOf(d) + KST_OFFSET;
    Euclid(kst, 86_400_000, d, KST_OFFSET);
    Euclid(kst, 3_600_000, 24 * d + 9, 0);
    Euclid(kst, 60_000, 60 * (24 * d + 9), 0);
  }

  /** Only beyond the end of the time range is no date printed. */
  lemma FormatFailsAtTheEnd(date: int)
    requires ValidTime(date)
    ensures FormatDateToKst(date)[0] == 'N' <==> date > 8_640_000_000_000_000 - 32_400_000
    ensures FormatDateToKst(date)[0] == 'N' ==> FormatDateToKst(date) == "NaN-NaN-NaN NaN:NaN:NaN +09:00"
  {
    hide DayFromYear;
    var kst := date + KST_OFFSET;
    if ValidTime(kst) {
      var y := YearOfDay(Day(kst));
      assert IntText(y)[0] != 'N' by {
        assert y >= 0 ==> Text(y)[0] in Text(y);
      }
      assert FormatDateToKst(date)[0] == IntText(y)[0];
    }
  }
}
