/** The rotation stamps (logfile.rs): days to civil dates in closed form, against the
    calendar itself, and the strings they sort as. */
module Calendar {
  import opened Basics
  import Decimal

  datatype Date = Date(y: int, m: int, d: int)

  // ---- The proleptic Gregorian calendar ----

  predicate Leap(y: int) {
    y % 4 == 0 && (y % 100 != 0 || y % 400 == 0)
  }

  function DaysIn(y: int, m: int): int
  {
    if m == 2 then (if Leap(y) then 29 else 28)
    else if m == 4 || m == 6 || m == 9 || m == 11 then 30
    else 31
  }

  predicate IsDate(t: Date) {
    1 <= t.m <= 12 && 1 <= t.d <= DaysIn(t.y, t.m)
  }

  /** The day after. */
  function Next(t: Date): Date {
    if t.d < DaysIn(t.y, t.m) then t.(d := t.d + 1)
    else if t.m < 12 then Date(t.y, t.m + 1, 1)
    else Date(t.y + 1, 1, 1)
  }

  predicate Earlier(a: Date, b: Date) {
    a.y < b.y || (a.y == b.y && (a.m < b.m || (a.m == b.m && a.d < b.d)))
  }

  // ---- The code's closed form ----

  function YearOfEra(doe: int): int {
    (doe - doe / 1460 + doe / 36524 - doe / 146096) / 365
  }

  function CivilFromDays(z: int): Date {
    var days := z + 719468;
    var era := days / 146097;
    var doe := days % 146097;
    var yoe := YearOfEra(doe);
    var doy := doe - (365 * yoe + yoe / 4 - yoe / 100);
    MarchDate(yoe + era * 400, doy)
  }

  /** Day `doy` of the year that begins on the first of March of `y`. */
  function MarchDate(y: int, doy: int): Date {
    var mp := (5 * doy + 2) / 153;
    var m := if mp < 10 then mp + 3 else mp - 9;
    Date(if m <= 2 then y + 1 else y, m, doy - (153 * mp + 2) / 5 + 1)
  }

  /** The inverse formula. */
  function DaysFromCivil(t: Date): int {
    var y := if t.m <= 2 then t.y - 1 else t.y;
    var era := y / 400;
    var yoe := y % 400;
    var doy := (153 * (if t.m > 2 then t.m - 3 else t.m + 9) + 2) / 5 + t.d - 1;
    era * 146097 + YearStart(yoe) + doy - 719468
  }

  // ---- Eras: 400 years that begin in March ----

  /** Days of the era before year `yoe` of it. */
  function YearStart(yoe: int): int {
    365 * yoe + yoe / 4 - yoe / 100
  }

  function YearLength(yoe: int): int {
    if Leap(yoe + 1) then 366 else 365
  }

  /** A day of an era splits into centuries, four-year cycles, years and a day. */
  lemma SplitEra(doe: int) returns (c: int, q: int, r: int, doy: int)
    requires 0 <= doe < 146097
    ensures 0 <= c < 4 && 0 <= q < 25 && 0 <= r < 4 && 0 <= doy <= 365
    ensures doe == 36524 * c + 1461 * q + 365 * r + doy
    ensures doy == 365 ==> r == 3 && (q == 24 ==> c == 3)
  {
    c := if doe / 36524 == 4 then 3 else doe / 36524;
    var rem := doe - 36524 * c;
    q := rem / 1461;
    var rem2 := rem - 1461 * q;
    r := if rem2 / 365 == 4 then 3 else rem2 / 365;
    doy := rem2 - 365 * r;
  }

  lemma CycleCount(c: int, q: int, r: int, doy: int)
    requires 0 <= c < 4 && 0 <= q < 25 && 0 <= r < 4 && 0 <= doy <= 365
    ensures var doe := 36524 * c + 1461 * q + 365 * r + doy;
            doe / 1460 == 25 * c + q + if 24 * c + q + 365 * r + doy >= 1460 then 1 else 0
  {
  }

  lemma CenturyCount(c: int, q: int, r: int, doy: int)
    requires 0 <= c < 4 && 0 <= q < 25 && 0 <= r < 4 && 0 <= doy <= 365
    requires doy == 365 ==> r == 3 && (q == 24 ==> c == 3)
    ensures var doe := 36524 * c + 1461 * q + 365 * r + doy;
            doe / 36524 - doe / 146096 == c
  {
  }

  /** The code's year of the era is the year that holds the day. */
  lemma YearOfEraIs(c: int, q: int, r: int, doy: int)
    requires 0 <= c < 4 && 0 <= q < 25 && 0 <= r < 4 && 0 <= doy <= 365
    requires doy == 365 ==> r == 3 && (q == 24 ==> c == 3)
    ensures YearOfEra(36524 * c + 1461 * q + 365 * r + doy) == 100 * c + 4 * q + r
  {
    CycleCount(c, q, r, doy);
    CenturyCount(c, q, r, doy);
  }

  lemma YearParts(c: int, q: int, r: int)
    requires 0 <= c < 4 && 0 <= q < 25 && 0 <= r < 4
    ensures var y := 100 * c + 4 * q + r; y / 4 == 25 * c + q && y / 100 == c
    ensures var y := 100 * c + 4 * q + r;
            YearStart(y) == 36524 * c + 1461 * q + 365 * r && (Leap(y + 1) <==> r == 3 && (q == 24 ==> c == 3))
  {
    var y := 100 * c + 4 * q + r;
    assert y / 4 == 25 * c + q;
    assert y / 100 == c;
  }

  /** Day `doe` of the era is day `doy` of year `yoe`, as the code computes them. */
  lemma EraDay(doe: int)
    requires 0 <= doe < 146097
    ensures var yoe := YearOfEra(doe);
            0 <= yoe < 400 && 0 <= doe - YearStart(yoe) < YearLength(yoe)
  {
    var c, q, r, doy := SplitEra(doe);
    YearOfEraIs(c, q, r, doy);
    YearParts(c, q, r);
  }

  lemma YearSplit(yoe: int) returns (c: int, q: int, r: int)
    requires 0 <= yoe < 400
    ensures 0 <= c < 4 && 0 <= q < 25 && 0 <= r < 4 && yoe == 100 * c + 4 * q + r
  {
    c := yoe / 100;
    q := (yoe - 100 * c) / 4;
    r := yoe - 100 * c - 4 * q;
  }

  /** No other year of the era holds it. */
  lemma EraYearUnique(yoe: int, doy: int)
    requires 0 <= yoe < 400 && 0 <= doy < YearLength(yoe)
    ensures 0 <= YearStart(yoe) + doy < 146097 && YearOfEra(YearStart(yoe) + doy) == yoe
  {
    var c, q, r := YearSplit(yoe);
    YearParts(c, q, r);
    YearOfEraIs(c, q, r, doy);
  }

  /** The next year begins when this one ends; the era ends with its last year. */
  lemma YearFollows(yoe: int)
    requires 0 <= yoe < 400
    ensures yoe < 399 ==> YearStart(yoe) + YearLength(yoe) == YearStart(yoe + 1)
    ensures yoe == 399 ==> YearStart(yoe) + YearLength(yoe) == 146097
  {
    var c, q, r := YearSplit(yoe);
    YearParts(c, q, r);
    if yoe < 399 {
      var c', q', r' := YearSplit(yoe + 1);
      YearParts(c', q', r');
    }
  }

  lemma Mod400(y: int, k: int)
    ensures (y + k * 400) % 400 == y % 400
  {
  }

  lemma Mod100(y: int, k: int)
    ensures (y + k * 400) % 100 == y % 100
  {
    var j := k * 4;
    assert y + k * 400 == y + j * 100 && (y + j * 100) % 100 == y % 100;
  }

  lemma Mod4(y: int, k: int)
    ensures (y + k * 400) % 4 == y % 4
  {
    var j := k * 100;
    assert y + k * 400 == y + j * 4 && (y + j * 4) % 4 == y % 4;
  }

  lemma LeapPeriod(y: int, era: int)
    ensures Leap(y + era * 400) <==> Leap(y)
  {
    Mod400(y, era);
    Mod100(y, era);
    Mod4(y, era);
  }

  // ---- Months ----

  /** March to February: where each begins. */
  function MonthStart(mp: int): int {
    (153 * mp + 2) / 5
  }

  lemma MonthOf(doy: int)
    requires 0 <= doy <= 365
    ensures var mp := (5 * doy + 2) / 153; 0 <= mp <= 11 && MonthStart(mp) <= doy < MonthStart(mp + 1)
  {
  }

  lemma MonthLengths(y: int, mp: int)
    requires 0 <= mp < 11
    ensures MonthStart(mp + 1) - MonthStart(mp)
            == DaysIn(if mp < 10 then y else y + 1, if mp < 10 then mp + 3 else mp - 9)
  {
  }

  lemma MonthIs(doy: int, mp: int)
    requires 0 <= mp <= 11 && MonthStart(mp) <= doy < MonthStart(mp + 1)
    ensures (5 * doy + 2) / 153 == mp
  {
  }

  lemma MarchDateIsDate(y: int, doy: int)
    requires 0 <= doy < if Leap(y + 1) then 366 else 365
    ensures IsDate(MarchDate(y, doy))
  {
    MonthOf(doy);
    var mp := (5 * doy + 2) / 153;
    if mp < 11 {
      MonthLengths(y, mp);
    } else {
      assert MonthStart(11) == 337;
    }
  }

  /** Within a March year, the next day of it is the next date. */
  lemma MarchNext(y: int, doy: int)
    requires 0 <= doy && doy + 1 < if Leap(y + 1) then 366 else 365
    ensures MarchDate(y, doy + 1) == Next(MarchDate(y, doy))
  {
    MonthOf(doy);
    var mp := (5 * doy + 2) / 153;
    if doy + 1 < MonthStart(mp + 1) {
      MonthIs(doy + 1, mp);
      if mp < 11 { MonthLengths(y, mp); } else { assert MonthStart(11) == 337; }
    } else {
      assert mp < 11 by { assert MonthStart(12) == 367; }
      assert MonthStart(mp + 1) < MonthStart(mp + 2);
      MonthIs(doy + 1, mp + 1);
      MonthLengths(y, mp);
    }
  }

  /** Its last day is the last of February, and the first of March follows. */
  lemma MarchTurns(y: int)
    ensures Next(MarchDate(y, if Leap(y + 1) then 365 else 364)) == MarchDate(y + 1, 0)
  {
    assert MonthStart(11) == 337;
    assert MarchDate(y, if Leap(y + 1) then 365 else 364) == Date(y + 1, 2, if Leap(y + 1) then 29 else 28);
    assert MarchDate(y + 1, 0) == Date(y + 1, 3, 1);
  }

  // ---- The closed form is the calendar ----

  lemma CivilParts(z: int) returns (era: int, yoe: int, doy: int)
    ensures 0 <= yoe < 400 && 0 <= doy < YearLength(yoe)
    ensures z + 719468 == era * 146097 + YearStart(yoe) + doy
    ensures CivilFromDays(z) == MarchDate(yoe + era * 400, doy)
  {
    var days := z + 719468;
    era := days / 146097;
    var doe := days % 146097;
    EraDay(doe);
    yoe := YearOfEra(doe);
    doy := doe - YearStart(yoe);
  }

  lemma CivilOf(era: int, yoe: int, doy: int)
    requires 0 <= yoe < 400 && 0 <= doy < YearLength(yoe)
    ensures CivilFromDays(era * 146097 + YearStart(yoe) + doy - 719468) == MarchDate(yoe + era * 400, doy)
  {
    hide *;
    EraYearUnique(yoe, doy);
    CivilAt(era, YearStart(yoe) + doy);
  }

  lemma CivilAt(era: int, doe: int)
    requires 0 <= doe < 146097
    ensures CivilFromDays(era * 146097 + doe - 719468)
            == MarchDate(YearOfEra(doe) + era * 400, doe - YearStart(YearOfEra(doe)))
  {
    hide YearOfEra, MarchDate;
    EraSplit(era, doe);
  }

  lemma EraSplit(era: int, doe: int)
    requires 0 <= doe < 146097
    ensures (era * 146097 + doe) / 146097 == era && (era * 146097 + doe) % 146097 == doe
  {
  }

  lemma Epoch()
    ensures CivilFromDays(0) == Date(1970, 1, 1)
  {
    assert DaysFromCivil(Date(1970, 1, 1)) == 0 && IsDate(Date(1970, 1, 1));
    hide CivilFromDays;
    CivilOfDays(Date(1970, 1, 1));
  }

  /** Every day number is a date of the calendar. */
  lemma CivilIsDate(z: int)
    ensures IsDate(CivilFromDays(z))
  {
    var era, yoe, doy := CivilParts(z);
    LeapPeriod(yoe + 1, era);
    assert yoe + era * 400 + 1 == yoe + 1 + era * 400;
    MarchDateIsDate(yoe + era * 400, doy);
  }

  /** Consecutive day numbers are consecutive dates: with the epoch, this fixes the whole
      function. */
  lemma CivilFollows(z: int)
    ensures CivilFromDays(z + 1) == Next(CivilFromDays(z))
  {
    var era, yoe, doy := CivilParts(z);
    var y := yoe + era * 400;
    YearLengthIs(era, yoe);
    hide *;
    if doy + 1 < YearLength(yoe) {
      CivilOf(era, yoe, doy + 1);
      MarchNext(y, doy);
    } else {
      MarchTurns(y);
      FirstOfMarch(era, yoe);
    }
  }

  lemma YearLengthIs(era: int, yoe: int)
    ensures YearLength(yoe) == if Leap(yoe + era * 400 + 1) then 366 else 365
  {
    LeapPeriod(yoe + 1, era);
    assert yoe + 1 + era * 400 == yoe + era * 400 + 1;
  }

  /** The day after the last of a March year. */
  lemma FirstOfMarch(era: int, yoe: int)
    requires 0 <= yoe < 400
    ensures CivilFromDays(era * 146097 + YearStart(yoe) + YearLength(yoe) - 719468) == MarchDate(yoe + era * 400 + 1, 0)
  {
    YearFollows(yoe);
    hide CivilFromDays, MarchDate, Leap;
    if yoe < 399 {
      CivilOf(era, yoe + 1, 0);
      assert yoe + 1 + era * 400 == yoe + era * 400 + 1;
    } else {
      CivilOf(era + 1, 0, 0);
      assert YearStart(0) == 0 && 0 + (era + 1) * 400 == yoe + era * 400 + 1;
    }
  }

  lemma NextIsLater(t: Date)
    ensures Earlier(t, Next(t))
  {
  }

  /** Strictly monotone. */
  lemma {:induction false} CivilMonotone(a: int, b: int)
    requires a < b
    ensures Earlier(CivilFromDays(a), CivilFromDays(b))
    decreases b - a
  {
    CivilFollows(b - 1);
    NextIsLater(CivilFromDays(b - 1));
    hide CivilFromDays;
    if a < b - 1 {
      CivilMonotone(a, b - 1);
    }
  }

  lemma MarchDayOf(y: int, doy: int)
    requires 0 <= doy < if Leap(y + 1) then 366 else 365
    ensures var t := MarchDate(y, doy);
            (153 * (if t.m > 2 then t.m - 3 else t.m + 9) + 2) / 5 + t.d - 1 == doy
            && (if t.m <= 2 then t.y - 1 else t.y) == y
  {
    MonthOf(doy);
  }

  /** The inverse formula recovers the day number... */
  lemma DaysOfCivil(z: int)
    ensures DaysFromCivil(CivilFromDays(z)) == z
  {
    var era, yoe, doy := CivilParts(z);
    var y := yoe + era * 400;
    LeapPeriod(yoe + 1, era);
    assert y + 1 == yoe + 1 + era * 400;
    MarchDayOf(y, doy);
    assert y / 400 == era && y % 400 == yoe;
  }

  /** ...and every date of the calendar is reached: the two are inverse bijections. */
  lemma CivilOfDays(t: Date)
    requires IsDate(t)
    ensures CivilFromDays(DaysFromCivil(t)) == t
  {
    var y := if t.m <= 2 then t.y - 1 else t.y;
    var mp := if t.m > 2 then t.m - 3 else t.m + 9;
    var doy := MonthStart(mp) + t.d - 1;
    var (era, yoe) := (y / 400, y % 400);
    assert y == yoe + era * 400;
    assert DaysFromCivil(t) == era * 146097 + YearStart(yoe) + doy - 719468;
    DayOfMonth(y, mp, t.d);
    assert MarchDate(y, doy) == t by { MonthIs(doy, mp); }
    YearLengthIs(era, yoe);
    hide *;
    CivilOf(era, yoe, doy);
  }

  lemma DayOfMonth(y: int, mp: int, d: int)
    requires 0 <= mp <= 11
    requires 1 <= d <= DaysIn(if mp < 10 then y else y + 1, if mp < 10 then mp + 3 else mp - 9)
    ensures MonthStart(mp) + d - 1 < MonthStart(mp + 1)
    ensures 0 <= MonthStart(mp) + d - 1 < if Leap(y + 1) then 366 else 365
  {
    if mp < 11 {
      MonthLengths(y, mp);
      assert MonthStart(mp + 1) <= MonthStart(11) == 337;
    } else {
      assert MonthStart(11) == 337 && MonthStart(12) == 367;
    }
  }

  // ---- The stamp string ----

  /** `{y:04}{m:02}{d:02}-{h:02}{min:02}{s:02}`, from seconds since the epoch. */
  function StampUtc(secs: nat): string {
    var t := CivilFromDays(secs / 86400);
    var sod := secs % 86400;
    Day(t) + "-" + Clock(sod)
  }

  function Day(t: Date): string {
    Decimal.Pad(NonNegative(t.y), 4) + Decimal.Pad(NonNegative(t.m), 2) + Decimal.Pad(NonNegative(t.d), 2)
  }

  function Clock(sod: nat): string {
    Decimal.Pad(sod / 3600, 2) + Decimal.Pad((sod % 3600) / 60, 2) + Decimal.Pad(sod % 60, 2)
  }

  function NonNegative(n: int): nat {
    if n >= 0 then n else 0
  }

  /** Strings of equal first parts compare by their second parts. */
  lemma LessInParts(a: string, b: string, x: string, y: string)
    requires |a| == |b| && (Decimal.Less(a, b) || (a == b && Decimal.Less(x, y)))
    ensures Decimal.Less(a + x, b + y)
  {
    Decimal.LessIsTotal(a, b);
    if Decimal.Less(a, b) {
      Decimal.LessBeforeSuffix(a, b, x, y);
    } else {
      Decimal.LessAfterPrefix(a, x, y);
    }
  }

  lemma Narrow(n: nat, w: nat)
    requires (w == 2 && n < 100) || (w == 4 && n < 10000)
    ensures |Decimal.Pad(n, w)| == w && n < Decimal.Pow10(w)
  {
    assert Decimal.Pow10(2) == 100 && Decimal.Pow10(4) == 10000;
    Decimal.PadWidth(n, w);
  }

  lemma PadLess(m: nat, n: nat, w: nat)
    requires m < n && ((w == 2 && n < 100) || (w == 4 && n < 10000))
    ensures |Decimal.Pad(m, w)| == w == |Decimal.Pad(n, w)| && Decimal.Less(Decimal.Pad(m, w), Decimal.Pad(n, w))
  {
    Narrow(m, w);
    Narrow(n, w);
    Decimal.PadSorts(m, n, w);
  }

  /** Three padded numbers side by side sort as the numbers do. */
  lemma TripleLess(a: nat, b: nat, c: nat, x: nat, y: nat, z: nat, w: nat)
    requires w == 2 || w == 4
    requires (w == 2 ==> a < 100 && x < 100) && (w == 4 ==> a < 10000 && x < 10000)
    requires b < 100 && c < 100 && y < 100 && z < 100
    requires a < x || (a == x && (b < y || (b == y && c < z)))
    ensures var (s, t) := (Decimal.Pad(a, w) + Decimal.Pad(b, 2) + Decimal.Pad(c, 2),
                           Decimal.Pad(x, w) + Decimal.Pad(y, 2) + Decimal.Pad(z, 2));
            |s| == |t| == w + 4 && Decimal.Less(s, t)
  {
    Narrow(a, w);
    Narrow(x, w);
    Narrow(b, 2);
    Narrow(c, 2);
    Narrow(y, 2);
    Narrow(z, 2);
    if a < x { PadLess(a, x, w); } else if b < y { PadLess(b, y, 2); } else { PadLess(c, z, 2); }
    hide Decimal.Pad, Decimal.Less, Decimal.Pow10;
    if a < x || b < y {
      LessInParts(Decimal.Pad(a, w), Decimal.Pad(x, w), Decimal.Pad(b, 2), Decimal.Pad(y, 2));
    }
    LessInParts(Decimal.Pad(a, w) + Decimal.Pad(b, 2), Decimal.Pad(x, w) + Decimal.Pad(y, 2),
                Decimal.Pad(c, 2), Decimal.Pad(z, 2));
  }

  lemma DayLess(t: Date, u: Date)
    requires IsDate(t) && IsDate(u) && Earlier(t, u) && 0 <= t.y && u.y < 10000
    ensures |Day(t)| == |Day(u)| == 8 && Decimal.Less(Day(t), Day(u))
  {
    TripleLess(t.y, t.m, t.d, u.y, u.m, u.d, 4);
  }

  lemma ClockLess(a: nat, b: nat)
    requires a < b < 86400
    ensures Decimal.Less(Clock(a), Clock(b))
  {
    TripleLess(a / 3600, (a % 3600) / 60, a % 60, b / 3600, (b % 3600) / 60, b % 60, 2);
  }

  /** 1 January 10000, in days and in seconds. */
  const Y10K_DAYS: int := 2932897
  const Y10K: int := Y10K_DAYS * 86400

  lemma FourDigitYear(days: int)
    requires 0 <= days < Y10K_DAYS
    ensures 1970 <= CivilFromDays(days).y < 10000
  {
    Epoch();
    if days > 0 { CivilMonotone(0, days); }
    CivilMonotone(days, Y10K_DAYS);
    FirstOf10000();
  }

  lemma FirstOf10000()
    ensures CivilFromDays(Y10K_DAYS) == Date(10000, 1, 1)
  {
    assert DaysFromCivil(Date(10000, 1, 1)) == Y10K_DAYS;
    assert IsDate(Date(10000, 1, 1));
    hide CivilFromDays;
    CivilOfDays(Date(10000, 1, 1));
  }

  /** From the epoch to the end of 9999 the strings sort as the seconds do. */
  lemma StampsSort(a: nat, b: nat)
    requires a < b < Y10K
    ensures Decimal.Less(StampUtc(a), StampUtc(b))
  {
    var (d, e) := (a / 86400, b / 86400);
    assert d <= e < Y10K_DAYS && (d == e ==> a % 86400 < b % 86400);
    hide *;
    Regroup(a);
    Regroup(b);
    if d < e {
      DaysSort(d, e);
      LessInParts(Day(CivilFromDays(d)), Day(CivilFromDays(e)), "-" + Clock(a % 86400), "-" + Clock(b % 86400));
    } else {
      ClockLess(a % 86400, b % 86400);
      Decimal.LessAfterPrefix("-", Clock(a % 86400), Clock(b % 86400));
      Decimal.LessAfterPrefix(Day(CivilFromDays(d)), "-" + Clock(a % 86400), "-" + Clock(b % 86400));
    }
  }

  lemma DaysSort(d: int, e: int)
    requires 0 <= d < e < Y10K_DAYS
    ensures |Day(CivilFromDays(d))| == |Day(CivilFromDays(e))|
    ensures Decimal.Less(Day(CivilFromDays(d)), Day(CivilFromDays(e)))
  {
    FourDigitYear(d);
    FourDigitYear(e);
    CivilIsDate(d);
    CivilIsDate(e);
    CivilMonotone(d, e);
    hide *;
    DayLess(CivilFromDays(d), CivilFromDays(e));
  }

  lemma Regroup(secs: nat)
    ensures StampUtc(secs) == Day(CivilFromDays(secs / 86400)) + ("-" + Clock(secs % 86400))
  {
  }

  /** The fields of a stamp string, read back as numbers: date, then hour, minute, second. */
  function DateOf(s: string): Date
    requires |s| == 15 && Decimal.AllDigits(s[..8])
  {
    Date(Decimal.Value(s[..4]), Decimal.Value(s[4..6]), Decimal.Value(s[6..8]))
  }

  function TimeOf(s: string): (nat, nat, nat)
    requires |s| == 15 && Decimal.AllDigits(s[9..])
  {
    (Decimal.Value(s[9..11]), Decimal.Value(s[11..13]), Decimal.Value(s[13..]))
  }

  /** Three padded numbers side by side: where each is, and that it reads back. */
  lemma TripleReadsBack(a: nat, b: nat, c: nat, w: nat)
    requires (w == 2 && a < 100) || (w == 4 && a < 10000)
    requires b < 100 && c < 100
    ensures var s := Decimal.Pad(a, w) + Decimal.Pad(b, 2) + Decimal.Pad(c, 2);
            && |s| == w + 4 && Decimal.AllDigits(s)
            && s[..w] == Decimal.Pad(a, w) && s[w..w + 2] == Decimal.Pad(b, 2) && s[w + 2..] == Decimal.Pad(c, 2)
    ensures Decimal.Value(Decimal.Pad(a, w)) == a
    ensures Decimal.Value(Decimal.Pad(b, 2)) == b && Decimal.Value(Decimal.Pad(c, 2)) == c
  {
    Narrow(a, w);
    Narrow(b, 2);
    Narrow(c, 2);
    Decimal.PadValue(a, w);
    Decimal.PadValue(b, 2);
    Decimal.PadValue(c, 2);
    hide Decimal.Pad, Decimal.Value, Decimal.Pow10;
  }

  /** From the epoch to the end of 9999 the string tells the time: fifteen characters, digits
      but for a dash in the ninth place, whose date and time of day are those of `secs`. */
  lemma StampTellsTime(secs: nat)
    requires secs < Y10K
    ensures var s := StampUtc(secs);
            && |s| == 15 && s[8] == '-' && Decimal.AllDigits(s[..8]) && Decimal.AllDigits(s[9..])
            && var (h, m, sec) := TimeOf(s);
            && IsDate(DateOf(s)) && h < 24 && m < 60 && sec < 60
            && DaysFromCivil(DateOf(s)) * 86400 + h * 3600 + m * 60 + sec == secs
  {
    hide *;
    var (days, sod) := (secs / 86400, secs % 86400);
    var t := CivilFromDays(days);
    InDays(secs);
    Sexagesimal(sod);
    FourDigitYear(days);
    CivilIsDate(days);
    DaysOfCivil(days);
    DayReadsBack(t);
    ClockReadsBack(sod);
    Regroup(secs);
    FieldsOf(Day(t), Clock(sod));
    assert DateOf(StampUtc(secs)) == t;
  }

  lemma InDays(secs: nat)
    requires secs < Y10K
    ensures secs / 86400 < Y10K_DAYS && secs == secs / 86400 * 86400 + secs % 86400
  {
  }

  lemma Sexagesimal(sod: nat)
    requires sod < 86400
    ensures sod == sod / 3600 * 3600 + (sod % 3600) / 60 * 60 + sod % 60
    ensures sod / 3600 < 24 && (sod % 3600) / 60 < 60 && sod % 60 < 60
  {
  }

  lemma FieldsOf(day: string, clock: string)
    requires |day| == 8 && |clock| == 6 && Decimal.AllDigits(day) && Decimal.AllDigits(clock)
    ensures var s := day + ("-" + clock);
            && |s| == 15 && s[8] == '-' && Decimal.AllDigits(s[..8]) && Decimal.AllDigits(s[9..])
            && DateOf(s) == Date(Decimal.Value(day[..4]), Decimal.Value(day[4..6]), Decimal.Value(day[6..]))
            && TimeOf(s) == (Decimal.Value(clock[..2]), Decimal.Value(clock[2..4]), Decimal.Value(clock[4..]))
  {
    var s := day + ("-" + clock);
    assert s[..8] == day && s[9..] == clock;
    assert s[..4] == day[..4] && s[4..6] == day[4..6] && s[6..8] == day[6..];
    assert s[9..11] == clock[..2] && s[11..13] == clock[2..4] && s[13..] == clock[4..];
    hide Decimal.Value;
  }

  lemma DayReadsBack(t: Date)
    requires IsDate(t) && 0 <= t.y < 10000
    ensures var s := Day(t);
            && |s| == 8 && Decimal.AllDigits(s)
            && Date(Decimal.Value(s[..4]), Decimal.Value(s[4..6]), Decimal.Value(s[6..])) == t
  {
    TripleReadsBack(t.y, t.m, t.d, 4);
    hide Decimal.Pad, Decimal.Value;
  }

  lemma ClockReadsBack(sod: nat)
    requires sod < 86400
    ensures var s := Clock(sod);
            && |s| == 6 && Decimal.AllDigits(s)
            && Decimal.Value(s[..2]) == sod / 3600 && Decimal.Value(s[2..4]) == (sod % 3600) / 60
            && Decimal.Value(s[4..]) == sod % 60
  {
    TripleReadsBack(sod / 3600, (sod % 3600) / 60, sod % 60, 2);
    hide Decimal.Pad, Decimal.Value;
  }

  /** The strings sort below a bound just when the bound is no later than the year 10000:
      its first second is written with a fifth digit and sorts before the last of 9999. */
  lemma StampsSortIff(bound: nat)
    ensures (forall a: nat, b: nat :: a < b < bound ==> Decimal.Less(StampUtc(a), StampUtc(b))) <==> bound <= Y10K
  {
    if bound <= Y10K {
      forall a: nat, b: nat | a < b < bound ensures Decimal.Less(StampUtc(a), StampUtc(b)) {
        StampsSort(a, b);
      }
    } else {
      var a: nat, b: nat := Y10K - 1, Y10K;
      FiveDigits();
      assert a < b < bound && !Decimal.Less(StampUtc(a), StampUtc(b));
    }
  }

  lemma FiveDigits()
    ensures !Decimal.Less(StampUtc(Y10K - 1), StampUtc(Y10K))
  {
    FirstOf10000();
    assert (Y10K - 1) / 86400 == Y10K_DAYS - 1 && Y10K / 86400 == Y10K_DAYS;
    FirstDigit(Y10K - 1, 9999);
    FirstDigit(Y10K, 10000);
    LeadingDigits();
    LastOf9999();
  }

  lemma LastOf9999()
    ensures CivilFromDays(Y10K_DAYS - 1) == Date(9999, 12, 31)
  {
    assert DaysFromCivil(Date(9999, 12, 31)) == Y10K_DAYS - 1;
    assert IsDate(Date(9999, 12, 31));
    hide CivilFromDays;
    CivilOfDays(Date(9999, 12, 31));
  }

  lemma LeadingDigits()
    ensures Decimal.Pad(9999, 4)[0] == '9' && Decimal.Pad(10000, 4)[0] == '1'
  {
    assert Decimal.Digits(9999) == Decimal.Digits(999) + ['9'];
    assert Decimal.Digits(999) == Decimal.Digits(99) + ['9'];
    assert Decimal.Digits(99) == Decimal.Digits(9) + ['9'];
    assert Decimal.Digits(10000) == Decimal.Digits(1000) + ['0'];
    assert Decimal.Digits(1000) == Decimal.Digits(100) + ['0'];
    assert Decimal.Digits(100) == Decimal.Digits(10) + ['0'];
    assert Decimal.Digits(10) == Decimal.Digits(1) + ['0'];
  }

  lemma FirstDigit(secs: nat, y: nat)
    requires y == 9999 || y == 10000
    ensures CivilFromDays(secs / 86400).y == y ==> StampUtc(secs)[..1] == Decimal.Pad(y, 4)[..1]
  {
    hide CivilFromDays, Decimal.Pad, Clock;
  }
}
