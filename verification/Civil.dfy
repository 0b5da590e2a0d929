/** The calendar behind backup stamps (crates/choir-cli/src/backup.rs): a civil date from a day count,
    against a calendar that only knows how to go to the next day. */
module Civil {

  datatype Date = Date(y: nat, m: nat, d: nat)

  /** The arithmetic of `utc_stamp`, on the days since 1970-01-01. */
  function FromDays(days: nat): Date {
    var z := days + 719468;
    var era := z / 146097;
    var doe := z % 146097;
    var yoe := YearOfEra(doe);
    var doy := doe - (365 * yoe + yoe / 4 - yoe / 100);
    YearShape(doe);
    var mp := (5 * doy + 2) / 153;
    var d := doy - (153 * mp + 2) / 5 + 1;
    MonthShape(doy);
    var m := if mp < 10 then mp + 3 else mp - 9;
    var y := yoe + era * 400;
    Date(if m <= 2 then y + 1 else y, m, d)
  }

  function YearOfEra(doe: nat): nat {
    (doe - doe / 1460 + doe / 36524 - doe / 146096) / 365
  }

  /** The days of an era before its year `y`, years starting in March. */
  function YearStart(y: nat): nat {
    365 * y + y / 4 - y / 100
  }

  lemma {:induction false} CenturyTerms(c: nat, e: nat)
    requires c <= 3 && e < 36524
    ensures (36524 * c + e) / 36524 == c && (36524 * c + e) / 146096 == 0
    ensures (36524 * c + e) / 1460 == 25 * c + (e + 24 * c) / 1460
  {
    assert (36524 * c + e) / 36524 == c;
    var k, r := (e + 24 * c) / 1460, (e + 24 * c) % 1460;
    assert 36524 * c + e == 1460 * (25 * c + k) + r;
    assert (36524 * c + e) / 1460 == 25 * c + k;
  }

  /** The formula, on a day given by its century, four-year span, year and day. */
  lemma {:induction false} YearOfParts(c: nat, a: nat, r: nat, doy: nat)
    requires c <= 3 && a <= 24 && r <= 3 && (doy < 365 || (doy == 365 && r == 3 && a < 24))
    ensures YearOfEra(36524 * c + 1461 * a + 365 * r + doy) == 100 * c + 4 * a + r
  {
    var e := 1461 * a + 365 * r + doy;
    var v := a + 24 * c + 365 * r + doy;
    var late := if v >= 1460 then 1 else 0;
    CenturyTerms(c, e);
    assert e + 24 * c == 1460 * (a + late) + (v - 1460 * late);
    assert (e + 24 * c) / 1460 == a + late;
    assert (365 * (100 * c + 4 * a + r) + (doy - late)) / 365 == 100 * c + 4 * a + r;
  }

  lemma {:induction false} StartOfParts(c: nat, a: nat, r: nat)
    requires a <= 24 && r <= 3
    ensures YearStart(100 * c + 4 * a + r) == 36524 * c + 1461 * a + 365 * r
  {
    var y := 100 * c + 4 * a + r;
    assert y / 4 == 25 * c + a;
    assert y / 100 == c;
  }

  /** The year that holds the day given by its parts. */
  lemma {:induction false} PartsShape(c: nat, a: nat, r: nat, doy: nat)
    requires c <= 3 && a <= 24 && r <= 3 && (doy < 365 || (doy == 365 && r == 3 && a < 24))
    ensures var y, doe := 100 * c + 4 * a + r, 36524 * c + 1461 * a + 365 * r + doy;
      YearOfEra(doe) == y < 400 && YearStart(y) <= doe < YearStart(y + 1)
  {
    YearOfParts(c, a, r, doy);
    StartOfParts(c, a, r);
    if r < 3 {
      StartOfParts(c, a, r + 1);
    } else if a < 24 {
      StartOfParts(c, a + 1, 0);
    } else {
      StartOfParts(c + 1, 0, 0);
    }
  }

  /** The year that `doe` falls in: the formula finds the one whose days include it. */
  lemma {:induction false} YearShape(doe: nat)
    requires doe < 146097
    ensures var y := YearOfEra(doe);
      && y < 400
      && YearStart(y) <= doe
      && (doe < YearStart(y + 1) || (y == 399 && doe == 146096))
  {
    if doe == 146096 {
      assert YearOfEra(doe) == 399 && YearStart(399) == 145731;
    } else {
      var c := doe / 36524;
      var e := doe % 36524;
      var a := e / 1461;
      var f := e % 1461;
      var r := if f == 1460 then 3 else f / 365;
      assert c <= 3 && a <= 24 && (a == 24 ==> f < 1460);
      PartsShape(c, a, r, f - 365 * r);
    }
  }

  lemma {:induction false} MonthShape(doy: nat)
    requires doy < 366
    ensures var mp := (5 * doy + 2) / 153;
      && mp <= 11
      && (153 * mp + 2) / 5 <= doy < (153 * (mp + 1) + 2) / 5
  {
  }

  // ---- the calendar everybody knows ------------------------------------------------------------

  predicate Leap(y: nat) {
    y % 4 == 0 && (y % 100 != 0 || y % 400 == 0)
  }

  function MonthLength(y: nat, m: nat): nat {
    if m == 2 then (if Leap(y) then 29 else 28)
    else if m == 4 || m == 6 || m == 9 || m == 11 then 30
    else 31
  }

  predicate Valid(t: Date) {
    1 <= t.m <= 12 && 1 <= t.d <= MonthLength(t.y, t.m)
  }

  function NextDay(t: Date): Date {
    if t.d < MonthLength(t.y, t.m) then Date(t.y, t.m, t.d + 1)
    else if t.m < 12 then Date(t.y, t.m + 1, 1)
    else Date(t.y + 1, 1, 1)
  }

  // ---- one day more ---------------------------------------------------------------------------------

  /** The date of day `doy` of the year that starts in March of `y`. */
  function MarchDate(y: nat, doy: nat): Date
    requires doy < 366
  {
    var mp := (5 * doy + 2) / 153;
    MonthShape(doy);
    var m := if mp < 10 then mp + 3 else mp - 9;
    Date(if m <= 2 then y + 1 else y, m, doy - (153 * mp + 2) / 5 + 1)
  }

  function MarchYear(y: nat): nat {
    if Leap(y + 1) then 366 else 365
  }

  lemma {:induction false} MarchNext(y: nat, doy: nat)
    requires doy < MarchYear(y)
    ensures Valid(MarchDate(y, doy))
    ensures NextDay(MarchDate(y, doy)) == if doy + 1 < MarchYear(y) then MarchDate(y, doy + 1) else MarchDate(y + 1, 0)
  {
    if doy < 306 {
      BeforeJanuary(y, doy);
    } else {
      FromJanuary(y, doy);
    }
  }

  lemma {:induction false} BeforeJanuary(y: nat, doy: nat)
    requires doy < 306
    ensures Valid(MarchDate(y, doy)) && NextDay(MarchDate(y, doy)) == MarchDate(y, doy + 1)
  {
    var mp := (5 * doy + 2) / 153;
    MonthShape(doy);
    if mp < 6 {
      assert mp < 3 || mp >= 3;
    } else {
      assert mp < 8 || mp >= 8;
    }
  }

  lemma {:induction false} FromJanuary(y: nat, doy: nat)
    requires 306 <= doy < MarchYear(y)
    ensures Valid(MarchDate(y, doy))
    ensures NextDay(MarchDate(y, doy)) == if doy + 1 < MarchYear(y) then MarchDate(y, doy + 1) else MarchDate(y + 1, 0)
  {
    MonthShape(doy);
    if doy < 337 {
      assert MonthLength(y + 1, 1) == 31;
    }
  }

  lemma {:induction false} Fours(y: nat, q: nat, r: nat)
    requires y == 4 * q + r && r < 4
    ensures (y + 400) % 4 == r && y % 4 == r
  {
  }

  lemma {:induction false} Hundreds(y: nat, q: nat, r: nat)
    requires y == 100 * q + r && r < 100
    ensures (y + 400) % 100 == r && y % 100 == r
  {
  }

  lemma {:induction false} LeapAgain(y: nat)
    ensures Leap(y + 400) == Leap(y)
  {
    Fours(y, y / 4, y % 4);
    Hundreds(y, y / 100, y % 100);
  }

  lemma {:induction false} LeapRepeats(era: nat, y: nat)
    ensures Leap(y + era * 400) == Leap(y)
  {
    if era > 0 {
      LeapRepeats(era - 1, y);
      LeapAgain(y + (era - 1) * 400);
    }
  }

  lemma {:induction false} LeapOfParts(c: nat, a: nat, r: nat)
    requires c <= 3 && a <= 24 && r <= 3
    ensures Leap(100 * c + 4 * a + r + 1) <==> r == 3 && (a < 24 || c == 3)
  {
    var y := 100 * c + 4 * a + r + 1;
    if r < 3 {
      assert y == 4 * (25 * c + a) + (r + 1) && y % 4 == r + 1;
    } else if a < 24 {
      assert y == 4 * (25 * c + a + 1) && y == 100 * c + 4 * (a + 1);
      assert y % 4 == 0 && y % 100 == 4 * (a + 1);
    } else {
      assert y == 100 * (c + 1);
    }
  }

  lemma {:induction false} EraYear(y: nat)
    requires y < 400
    ensures MarchYear(y) == if y == 399 then 366 else YearStart(y + 1) - YearStart(y)
  {
    var c, a, r := y / 100, y % 100 / 4, y % 100 % 4;
    LeapOfParts(c, a, r);
    StartOfParts(c, a, r);
    if r < 3 {
      StartOfParts(c, a, r + 1);
    } else if a < 24 {
      StartOfParts(c, a + 1, 0);
    } else {
      StartOfParts(c + 1, 0, 0);
    }
  }

  lemma {:induction false} YearStartGrows(a: nat, b: nat)
    requires a <= b
    ensures YearStart(a) <= YearStart(b)
  {
  }

  /** Day `days` is day `doy` of the March year `y` of era `era`. */
  predicate FallsOn(days: nat, era: nat, y: nat, doy: nat) {
    days + 719468 == 146097 * era + (YearStart(y) + doy) && y < 400 && doy < MarchYear(y)
  }

  lemma {:induction false} YearIsUnique(y: nat, doy: nat)
    requires y < 400 && doy < MarchYear(y)
    ensures YearStart(y) + doy < 146097 && YearOfEra(YearStart(y) + doy) == y
  {
    var doe := YearStart(y) + doy;
    EraYear(y);
    YearStartGrows(y + 1, 400);
    YearShape(doe);
    var z := YearOfEra(doe);
    if y < z {
      YearStartGrows(y + 1, z);
    }
  }

  lemma {:induction false} FallsSomewhere(days: nat) returns (era: nat, y: nat, doy: nat)
    ensures FallsOn(days, era, y, doy)
  {
    era := (days + 719468) / 146097;
    var doe := (days + 719468) % 146097;
    YearShape(doe);
    y := YearOfEra(doe);
    doy := doe - YearStart(y);
    EraYear(y);
  }

  lemma {:induction false} FallsOnDate(days: nat, era: nat, y: nat, doy: nat)
    requires FallsOn(days, era, y, doy)
    ensures doy < 366 && FromDays(days) == MarchDate(y + era * 400, doy)
  {
    YearIsUnique(y, doy);
    EraSplits(days + 719468, era, YearStart(y) + doy);
  }

  lemma {:induction false} EraSplits(z: nat, era: nat, doe: nat)
    requires z == 146097 * era + doe && doe < 146097
    ensures z / 146097 == era && z % 146097 == doe
  {
  }

  /** From day `doy` of March year `y` to the next. */
  predicate Follows(y: nat, doy: nat, y': nat, doy': nat) {
    doy < MarchYear(y) && if doy + 1 < MarchYear(y) then y' == y && doy' == doy + 1 else y' == y + 1 && doy' == 0
  }

  lemma {:induction false} FallsNext(days: nat, era: nat, y: nat, doy: nat) returns (era': nat, y': nat, doy': nat)
    requires FallsOn(days, era, y, doy)
    ensures FallsOn(days + 1, era', y', doy') && Follows(y + era * 400, doy, y' + era' * 400, doy')
  {
    EraYear(y);
    LeapRepeats(era, y + 1);
    if doy + 1 < MarchYear(y) {
      era', y', doy' := era, y, doy + 1;
    } else if y < 399 {
      era', y', doy' := era, y + 1, 0;
    } else {
      era', y', doy' := era + 1, 0, 0;
    }
  }

  lemma {:induction false} MarchFollows(t: Date, t': Date, y: nat, doy: nat, y': nat, doy': nat)
    requires Follows(y, doy, y', doy') && doy < 366 && doy' < 366
    requires t == MarchDate(y, doy) && t' == MarchDate(y', doy')
    ensures t' == NextDay(t) && Valid(t)
  {
    MarchNext(y, doy);
  }

  /** A day count and the date of the day it falls on. */
  ghost predicate Dates(days: nat, t: Date) {
    exists era: nat, y: nat, doy: nat :: FallsOn(days, era, y, doy) && doy < 366 && t == MarchDate(y + era * 400, doy)
  }

  lemma {:induction false} DatesOnly(days: nat, t: Date)
    requires Dates(days, t)
    ensures t == FromDays(days)
  {
    var era: nat, y: nat, doy: nat :| FallsOn(days, era, y, doy) && doy < 366 && t == MarchDate(y + era * 400, doy);
    FallsOnDate(days, era, y, doy);
  }

  lemma {:induction false} DatesNext(days: nat) returns (t: Date, t': Date)
    ensures Dates(days, t) && Dates(days + 1, t') && t' == NextDay(t) && Valid(t)
  {
    var era, y, doy := FallsSomewhere(days);
    var era', y', doy' := FallsNext(days, era, y, doy);
    assert MarchYear(y) <= 366 && MarchYear(y') <= 366;
    t, t' := MarchDate(y + era * 400, doy), MarchDate(y' + era' * 400, doy');
    MarchFollows(t, t', y + era * 400, doy, y' + era' * 400, doy');
  }

  /** The next day count is the next day. */
  lemma {:induction false} NextDayCount(days: nat)
    ensures FromDays(days + 1) == NextDay(FromDays(days)) && Valid(FromDays(days))
  {
    var t, t' := DatesNext(days);
    DatesOnly(days, t);
    DatesOnly(days + 1, t');
  }

  function DaysOn(n: nat): Date {
    if n == 0 then Date(1970, 1, 1) else NextDay(DaysOn(n - 1))
  }

  lemma {:induction false} DayZero()
    ensures FromDays(0) == Date(1970, 1, 1)
  {
    assert YearOfEra(135080) == 369;
  }

  lemma {:induction false} CountOn(days: nat, t: Date, t': Date)
    requires t == DaysOn(days) && t' == NextDay(t)
    ensures t' == DaysOn(days + 1)
  {
  }

  /** The arithmetic agrees with counting days from 1970-01-01, for every day count. */
  lemma {:induction false} FromDaysCounts(days: nat)
    ensures FromDays(days) == DaysOn(days) && Valid(FromDays(days))
  {
    if days == 0 {
      DayZero();
    } else {
      FromDaysCounts(days - 1);
      NextDayCount(days - 1);
      CountOn(days - 1, FromDays(days - 1), FromDays(days));
    }
    NextDayCount(days);
  }

  // ---- and back ------------------------------------------------------------------------------------

  function YearLength(y: nat): nat {
    if Leap(y) then 366 else 365
  }

  function DaysBeforeMonth(y: nat, m: nat): nat {
    if m <= 1 then 0 else DaysBeforeMonth(y, m - 1) + MonthLength(y, m - 1)
  }

  function DaysBeforeYear(y: nat): nat {
    if y <= 1970 then 0 else DaysBeforeYear(y - 1) + YearLength(y - 1)
  }

  /** The days from 1970-01-01 to a date, added up from year and month lengths. */
  function DayNumber(t: Date): nat
    requires Valid(t)
  {
    DaysBeforeYear(t.y) + DaysBeforeMonth(t.y, t.m) + t.d - 1
  }

  lemma {:induction false} TwelveMonths(y: nat)
    ensures DaysBeforeMonth(y, 12) + MonthLength(y, 12) == YearLength(y)
  {
    MonthSteps(y, 12);
  }

  lemma {:induction false} MonthSteps(y: nat, m: nat)
    requires 1 <= m <= 12
    ensures DaysBeforeMonth(y, m) == [0, 31, 59, 90, 120, 151, 181, 212, 243, 273, 304, 334][m - 1] + if Leap(y) && m > 2 then 1 else 0
  {
    if m > 1 {
      MonthSteps(y, m - 1);
    }
  }

  lemma {:induction false} NextDayNumber(t: Date)
    requires Valid(t) && t.y >= 1970
    ensures Valid(NextDay(t)) && DayNumber(NextDay(t)) == DayNumber(t) + 1
  {
    TwelveMonths(t.y);
  }

  lemma {:induction false} DayNumberCounts(n: nat)
    ensures Valid(DaysOn(n)) && DaysOn(n).y >= 1970 && DayNumber(DaysOn(n)) == n
  {
    if n > 0 {
      DayNumberCounts(n - 1);
      NextDayNumber(DaysOn(n - 1));
    }
  }

  /** The date of a day count has that day number. */
  lemma {:induction false} DayNumberOfDays(days: nat)
    ensures Valid(FromDays(days)) && FromDays(days).y >= 1970 && DayNumber(FromDays(days)) == days
  {
    FromDaysCounts(days);
    DayNumberCounts(days);
  }

  predicate DateBefore(a: Date, b: Date) {
    a.y < b.y || (a.y == b.y && (a.m < b.m || (a.m == b.m && a.d < b.d)))
  }

  lemma {:induction false} MonthsGrow(y: nat, m: nat, n: nat)
    requires 1 <= m < n <= 12
    ensures DaysBeforeMonth(y, m) + MonthLength(y, m) <= DaysBeforeMonth(y, n)
  {
    if m + 1 < n {
      MonthsGrow(y, m, n - 1);
    }
  }

  lemma {:induction false} YearsGrow(y: nat, z: nat)
    requires 1970 <= y < z
    ensures DaysBeforeYear(y) + YearLength(y) <= DaysBeforeYear(z)
  {
    if y + 1 < z {
      YearsGrow(y, z - 1);
    }
  }

  lemma {:induction false} InsideYear(t: Date)
    requires Valid(t)
    ensures DaysBeforeMonth(t.y, t.m) + t.d <= YearLength(t.y)
  {
    TwelveMonths(t.y);
    if t.m < 12 {
      MonthsGrow(t.y, t.m, 12);
    }
  }

  lemma {:induction false} EarlierHasSmallerNumber(a: Date, b: Date)
    requires Valid(a) && Valid(b) && a.y >= 1970 && DateBefore(a, b)
    ensures DayNumber(a) < DayNumber(b)
  {
    if a.y < b.y {
      InsideYear(a);
      YearsGrow(a.y, b.y);
    } else if a.m < b.m {
      MonthsGrow(a.y, a.m, b.m);
    }
  }

  /** Every date from 1970 on is the date of its day number. */
  lemma {:induction false} DaysOfDayNumber(t: Date)
    requires Valid(t) && t.y >= 1970
    ensures FromDays(DayNumber(t)) == t
  {
    var u := FromDays(DayNumber(t));
    DayNumberOfDays(DayNumber(t));
    if DateBefore(t, u) {
      EarlierHasSmallerNumber(t, u);
    } else if DateBefore(u, t) {
      EarlierHasSmallerNumber(u, t);
    }
  }

  /** Dates come in the order of their day counts. */
  lemma {:induction false} DatesInOrder(a: nat, b: nat)
    ensures a < b <==> DateBefore(FromDays(a), FromDays(b))
  {
    DayNumberOfDays(a);
    DayNumberOfDays(b);
    var s, t := FromDays(a), FromDays(b);
    if DateBefore(s, t) {
      EarlierHasSmallerNumber(s, t);
    } else if DateBefore(t, s) {
      EarlierHasSmallerNumber(t, s);
    }
  }
}
