/**
 * The calendar heat-map of the mini statistics view: one square per day over
 * the last sixteen weeks, one column per week (Sunday at the top), shaded by
 * the day's value, with a month label above the column of each first day of a
 * month.
 *
 * Days are day numbers: whole days since 1970-01-01 in local time, which is
 * what the source's `Date` values and `yyyy-MM-dd` keys stand for here.
 */
module Calendar {
  import opened Util

  /** Width of the drawing, in pixels. */
  const Width: int := 400
  /** Number of weeks shown. */
  const Weeks: int := 16
  /** Side of one day's square: 400 / 16 = 25, an exact division. */
  const DaySize: int := Width / Weeks
  /** Vertical room left above the squares for the month labels. */
  const LabelBand: int := 20

  /** One input datum: `{ day: "yyyy-MM-dd", value }` with the day as a day number. */
  datatype Datum = Datum(day: int, value: real)

  /** A datum with its parsed date (`withDate`). */
  datatype Entry = Entry(date: int, value: real)

  /** A displayed day; `None` is the `NaN` the source stores for a blank day. */
  datatype Slot = Slot(date: int, value: Option<real>)

  /** How a day's square is filled: the blank colour, or a shade for a rate. */
  datatype Fill = Blank | Shade(rate: real)

  /** What the calendar draws. */
  datatype Shape =
    | MonthLabel(x: int, y: int, month: int)
    | DayRect(x: int, y: int, fill: Fill)

  // ---------------------------------------------------------------------
  // Dates
  // ---------------------------------------------------------------------

  /** Day of the week, 0 for Sunday: 1970-01-01 was a Thursday. */
  function WeekDay(d: int): (w: int)
    ensures 0 <= w < 7
    ensures (d - w - 3) % 7 == 0  // day 3, 1970-01-04, was a Sunday
  {
    (d + 4) % 7
  }

  /** `startOfWeek(subWeeks(now, weeks - 1))`: the Sunday that opens the first column. */
  function BeginDate(now: int): (begin: int)
    ensures WeekDay(begin) == 0
    ensures now - 7 * Weeks + 1 <= begin <= now - 7 * (Weeks - 1)
  {
    var start := now - 7 * (Weeks - 1);
    start - WeekDay(start)
  }

  /**
   * The civil date (year, month 1..12, day of month) of a day number. Days
   * are counted in 400-year eras of 146097 days that start on 0000-03-01;
   * within an era, years start on March 1, so that a leap day is the last
   * day of its year. The lemmas below name the steps: `EraDay`,
   * `YearOfEra`, `DayOfYear`, `MarchMonthDay` and `MonthFromMarch`
   * (`CivilParts` shows they compute the same).
   */
  function CivilFromDays(d: int): (r: (int, int, int))
    ensures 1 <= r.2 <= 31
  {
    var z := d + 719468;
    var era := z / 146097;
    var doe := z % 146097;
    var yoe := (doe - doe / 1460 + doe / 36524 - doe / 146096) / 365;
    var doy := doe - (365 * yoe + yoe / 4 - yoe / 100);
    var mp := (5 * doy + 2) / 153;
    var day := doy - (153 * mp + 2) / 5 + 1;
    var month := if mp < 10 then mp + 3 else mp - 9;
    var year := yoe + era * 400 + (if month <= 2 then 1 else 0);
    (year, month, day)
  }

  /** The day of its 400-year era (0 for March 1 of the era's first year) that day `d` is. */
  function EraDay(d: int): int {
    (d + 719468) % 146097
  }

  /** Day `YearStart(y)` of an era is March 1 of its year `y`. */
  function YearStart(y: int): int {
    365 * y + y / 4 - y / 100 + y / 400
  }

  /** The year of the era that day `doe` of the era falls in. */
  function YearOfEra(doe: int): int {
    (doe - doe / 1460 + doe / 36524 - doe / 146096) / 365
  }

  /** The day of its year (0 for March 1) that day `doe` of the era is. */
  function DayOfYear(doe: int): int {
    var yoe := YearOfEra(doe);
    doe - (365 * yoe + yoe / 4 - yoe / 100)
  }

  /** Month counted from March (0..11) and day of the month of day `doy` of a year that starts on March 1. */
  function MarchMonthDay(doy: int): (int, int) {
    var mp := (5 * doy + 2) / 153;
    (mp, doy - (153 * mp + 2) / 5 + 1)
  }

  /** The calendar month (1..12) of month `mp` counted from March (0..11). */
  function MonthFromMarch(mp: int): int {
    if mp < 10 then mp + 3 else mp - 9
  }

  /** The month after month `mp` counted from March is the next calendar month. */
  lemma MonthFromMarchNext(mp: int)
    requires 0 <= mp <= 11
    ensures MonthFromMarch((mp + 1) % 12) == MonthFromMarch(mp) % 12 + 1
  {
  }

  /** `getDate`. */
  function DayOfMonth(d: int): (day: int)
    ensures 1 <= day <= 31
  {
    CivilFromDays(d).2
  }

  /** The month a `MMM` label names. */
  function MonthOf(d: int): int {
    CivilFromDays(d).1
  }

  /**
   * Consecutive days: the next day is either the following day of the same
   * month, or the first of the next month, and then the day before was at
   * least the 28th.
   */
  lemma DayOfMonthStep(d: int)
    ensures DayOfMonth(d + 1) == 1 || DayOfMonth(d + 1) == DayOfMonth(d) + 1
    ensures DayOfMonth(d + 1) == 1 ==> DayOfMonth(d) >= 28 && MonthOf(d + 1) == MonthOf(d) % 12 + 1
    ensures DayOfMonth(d + 1) != 1 ==> MonthOf(d + 1) == MonthOf(d)
  {
    CivilParts(d);
    CivilParts(d + 1);
    MarchPartsStep(d);
    StepOfParts(MarchMonthDay(DayOfYear(EraDay(d))), MarchMonthDay(DayOfYear(EraDay(d + 1))));
  }

  /** From one day to the next, the month from March and the day step as `StepOfParts` needs. */
  lemma MarchPartsStep(d: int)
    ensures var a, b := MarchMonthDay(DayOfYear(EraDay(d))), MarchMonthDay(DayOfYear(EraDay(d + 1)));
      0 <= a.0 <= 11 && 1 <= a.1 &&
      ((b.0 == a.0 && b.1 == a.1 + 1) || (b.0 == (a.0 + 1) % 12 && b.1 == 1 && a.1 >= 28))
  {
    var doe := EraDay(d);
    EraDayNext(d);
    if doe < 146096 {
      assert EraDay(d + 1) == doe + 1;
      EraDayStep(doe);
      DayOfYearBounds(doe);
    } else {
      assert EraDay(d + 1) == 0 && doe == 146096;
      EraEnd();
    }
  }

  /** How day and calendar month follow from a step of month-from-March and day. */
  lemma StepOfParts(a: (int, int), b: (int, int))
    requires 0 <= a.0 <= 11 && 1 <= a.1
    requires (b.0 == a.0 && b.1 == a.1 + 1) || (b.0 == (a.0 + 1) % 12 && b.1 == 1 && a.1 >= 28)
    ensures b.1 == 1 || b.1 == a.1 + 1
    ensures b.1 == 1 ==> a.1 >= 28 && MonthFromMarch(b.0) == MonthFromMarch(a.0) % 12 + 1
    ensures b.1 != 1 ==> MonthFromMarch(b.0) == MonthFromMarch(a.0)
  {
    MonthFromMarchNext(a.0);
  }

  /** The day of the era after day `d` is the next one, or 0 after the last. */
  lemma EraDayNext(d: int)
    ensures EraDay(d + 1) == if EraDay(d) < 146096 then EraDay(d) + 1 else 0
  {
    var z := d + 719468;
    var q, r := z / 146097, z % 146097;
    assert z == 146097 * q + r;
    if r < 146096 {
      assert z + 1 == 146097 * q + (r + 1);
    } else {
      assert z + 1 == 146097 * (q + 1);
    }
  }

  /** The day and month of a day number, from its day of the era. */
  lemma CivilParts(d: int)
    ensures var md := MarchMonthDay(DayOfYear(EraDay(d)));
      DayOfMonth(d) == md.1 && MonthOf(d) == MonthFromMarch(md.0)
  {
  }

  /** The last day of an era is February 29 and the next era starts on March 1. */
  lemma EraEnd()
    ensures MarchMonthDay(DayOfYear(146096)) == (11, 29)
    ensures MarchMonthDay(DayOfYear(0)) == (0, 1)
  {
    assert YearOfEra(146096) == 399;
    assert DayOfYear(146096) == 365;
    MarchMonthDayBounds(365);
    assert DayOfYear(0) == 0;
    MarchMonthDayBounds(0);
  }

  /** Within an era, month (from March) and day step as on a calendar. */
  lemma EraDayStep(doe: int)
    requires 0 <= doe < 146096
    ensures var a, b := MarchMonthDay(DayOfYear(doe)), MarchMonthDay(DayOfYear(doe + 1));
      (b.0 == a.0 && b.1 == a.1 + 1) || (b.0 == (a.0 + 1) % 12 && b.1 == 1 && a.1 >= 28)
  {
    DayOfYearStep(doe);
    DayOfYearBounds(doe);
    MonthDayAcross(DayOfYear(doe), DayOfYear(doe + 1));
  }

  /** From one day of the year to the next, or from the last day of a year to March 1. */
  lemma MonthDayAcross(doy: int, next: int)
    requires (0 <= doy < 365 && next == doy + 1) || (364 <= doy <= 365 && next == 0)
    ensures var a, b := MarchMonthDay(doy), MarchMonthDay(next);
      (b.0 == a.0 && b.1 == a.1 + 1) || (b.0 == (a.0 + 1) % 12 && b.1 == 1 && a.1 >= 28)
  {
    if next == 0 {
      MarchMonthDayBounds(doy);
      MarchMonthDayBounds(0);
    } else {
      MarchMonthDayStep(doy);
      MarchMonthDayBounds(next);
    }
  }

  /** Within a year, the month and day step as on a calendar: a month ends on its 30th or 31st. */
  lemma MarchMonthDayStep(doy: int)
    requires 0 <= doy < 365
    ensures var a, b := MarchMonthDay(doy), MarchMonthDay(doy + 1);
      (b.0 == a.0 && b.1 == a.1 + 1) || (b.0 == a.0 + 1 && b.1 == 1 && 30 <= a.1 <= 31)
  {
  }

  /** A day of the year has a month 0..11 and a day 1..31; its last day is February 28 or 29. */
  lemma MarchMonthDayBounds(doy: int)
    requires 0 <= doy <= 365
    ensures var a := MarchMonthDay(doy); 0 <= a.0 <= 11 && 1 <= a.1 <= 31
    ensures 364 <= doy ==> MarchMonthDay(doy) == (11, doy - 336)
    ensures doy == 0 ==> MarchMonthDay(doy) == (0, 1)
  {
  }

  /** Every day of an era is in one of its 400 years, at most 365 days after its March 1. */
  lemma DayOfYearBounds(doe: int)
    requires 0 <= doe <= 146096
    ensures 0 <= YearOfEra(doe) < 400
    ensures DayOfYear(doe) == doe - YearStart(YearOfEra(doe))
    ensures 0 <= DayOfYear(doe) <= 365
    ensures var a := MarchMonthDay(DayOfYear(doe)); 0 <= a.0 <= 11 && 1 <= a.1 <= 31
  {
    YearOfEraBracket(doe);
    YearLength(YearOfEra(doe));
    MarchMonthDayBounds(DayOfYear(doe));
  }

  /**
   * The next day of an era is the next day of the same year, or March 1 of
   * the next year, and then the day before was its 365th or 366th.
   */
  lemma DayOfYearStep(doe: int)
    requires 0 <= doe < 146096
    ensures var y, y' := YearOfEra(doe), YearOfEra(doe + 1);
      (y' == y && DayOfYear(doe + 1) == DayOfYear(doe) + 1 && DayOfYear(doe) < 365) ||
      (y' == y + 1 && DayOfYear(doe + 1) == 0 && DayOfYear(doe) >= 364)
  {
    var y := YearOfEra(doe);
    DayOfYearBounds(doe);
    DayOfYearBounds(doe + 1);
    YearOfEraNext(doe);
    if YearOfEra(doe + 1) == y {
      assert DayOfYear(doe + 1) == DayOfYear(doe) + 1;
    } else {
      YearOfEraBracket(doe);
      YearOfEraBracket(doe + 1);
      YearLength(y);
      assert doe + 1 == YearStart(y + 1);
    }
  }

  /** The next day of the era is in the same year or the next one. */
  lemma YearOfEraNext(doe: int)
    requires 0 <= doe < 146096
    ensures YearOfEra(doe) <= YearOfEra(doe + 1) <= YearOfEra(doe) + 1
  {
    var y, y' := YearOfEra(doe), YearOfEra(doe + 1);
    YearOfEraBracket(doe);
    YearOfEraBracket(doe + 1);
    if y' < y {
      YearStartGap(y', y);
      assert false;
    } else if y' > y + 1 {
      YearStartGap(y + 1, y');
      YearLength(y + 1);
      assert false;
    }
  }

  /** `YearOfEra` finds the year whose span holds the day. */
  lemma YearOfEraBracket(doe: int)
    requires 0 <= doe <= 146096
    ensures 0 <= YearOfEra(doe) < 400
    ensures YearStart(YearOfEra(doe)) <= doe < YearStart(YearOfEra(doe) + 1)
  {
    var c := if doe / 36524 < 4 then doe / 36524 else 3;
    var r := doe - 36524 * c;
    var e := r / 1461;
    var r2 := r - 1461 * e;
    var b := if r2 / 365 < 4 then r2 / 365 else 3;
    var k := r2 - 365 * b;
    assert doe == 36524 * c + 1461 * e + 365 * b + k;
    assert 0 <= e < 25 && 0 <= k <= 365;
    assert k == 365 ==> r2 == 1460 && b == 3 && (e < 24 || c == 3);
    var y := 100 * c + 4 * e + b;
    YearOfEraAt(c, e, b, k);
    assert YearOfEra(doe) == y;
    YearStartAt(c, e, b);
    YearLengthAt(c, e, b);
    assert y + 1 == 100 * c + 4 * e + b + 1;
  }

  /**
   * Year `100 * c + 4 * e + b` of an era is year `b` of four-year group `e`
   * of century `c`; it is a leap year (its February, at its end, has 29
   * days) when `b` is 3, except at the end of the first three centuries.
   */
  predicate LeapAt(c: int, e: int, b: int) {
    b == 3 && (e < 24 || c == 3)
  }

  lemma YearStartAt(c: int, e: int, b: int)
    requires 0 <= c < 4 && 0 <= e < 25 && 0 <= b < 4
    ensures YearStart(100 * c + 4 * e + b) == 36524 * c + 1461 * e + 365 * b
  {
    var y := 100 * c + 4 * e + b;
    assert y / 4 == 25 * c + e;
    assert y / 100 == c;
    assert y / 400 == 0;
  }

  lemma YearLengthAt(c: int, e: int, b: int)
    requires 0 <= c < 4 && 0 <= e < 25 && 0 <= b < 4
    ensures YearStart(100 * c + 4 * e + b + 1) ==
      36524 * c + 1461 * e + 365 * b + 365 + (if LeapAt(c, e, b) then 1 else 0)
  {
    if b < 3 {
      YearStartAt(c, e, b + 1);
    } else if e < 24 {
      YearStartAt(c, e + 1, 0);
    } else if c < 3 {
      YearStartAt(c + 1, 0, 0);
    }
  }

  lemma YearOfEraAt(c: int, e: int, b: int, k: int)
    requires 0 <= c < 4 && 0 <= e < 25 && 0 <= b < 4 && 0 <= k
    requires k < 365 + (if LeapAt(c, e, b) then 1 else 0)
    ensures YearOfEra(36524 * c + 1461 * e + 365 * b + k) == 100 * c + 4 * e + b
  {
    var doe := 36524 * c + 1461 * e + 365 * b + k;
    // The leap days counted by `doe / 1460`, and the end of the last century.
    var t := 24 * c + e + 365 * b + k;
    var quad := if t >= 1460 then 1 else 0;
    var last := if c == 3 && e == 24 && b == 3 && k == 365 then 1 else 0;
    assert doe == 1460 * (25 * c + e) + t;
    assert doe / 1460 == 25 * c + e + quad;
    assert doe / 36524 == c + last;
    assert doe / 146096 == last;
    assert doe - doe / 1460 + doe / 36524 - doe / 146096 == 365 * (100 * c + 4 * e + b) + (k - quad);
    assert 0 <= k - quad < 365;
  }

  lemma YearStartGap(y1: int, y2: int)
    requires 0 <= y1 < y2
    ensures YearStart(y1 + 1) <= YearStart(y2)
  {
  }

  /** A year has 365 or 366 days. */
  lemma YearLength(y: int)
    requires 0 <= y
    ensures YearStart(y) + 365 <= YearStart(y + 1) <= YearStart(y) + 366
  {
    QuotientSteps(y);
    if (y + 1) % 400 == 0 {
      MultipleOfFactor(y + 1, 100, 4);
    }
    if (y + 1) % 100 == 0 {
      MultipleOfFactor(y + 1, 4, 25);
    }
    assert YearStart(y + 1) - YearStart(y) ==
      365 + ((y + 1) / 4 - y / 4) - ((y + 1) / 100 - y / 100) + ((y + 1) / 400 - y / 400);
  }

  /** The quotients by 4, 100 and 400 go up by one from `y` to `y + 1` exactly when the divisor divides `y + 1`. */
  lemma QuotientSteps(y: int)
    requires 0 <= y
    ensures (y + 1) / 4 - y / 4 == if (y + 1) % 4 == 0 then 1 else 0
    ensures (y + 1) / 100 - y / 100 == if (y + 1) % 100 == 0 then 1 else 0
    ensures (y + 1) / 400 - y / 400 == if (y + 1) % 400 == 0 then 1 else 0
  {
    assert y == 4 * (y / 4) + y % 4;
    assert y == 100 * (y / 100) + y % 100;
    assert y == 400 * (y / 400) + y % 400;
  }

  /** A multiple of `a * b` is a multiple of `a`. */
  lemma MultipleOfFactor(x: int, a: int, b: int)
    requires 0 < a && 0 < b && x % (a * b) == 0
    ensures x % a == 0
  {
    var q := x / (a * b);
    assert x == (a * b) * q;
    assert x == a * (b * q);
    ModOfMultiple(a, b * q);
  }

  /** `a * n` is a multiple of `a`. */
  lemma ModOfMultiple(a: int, n: int)
    requires 0 < a
    ensures (a * n) % a == 0
  {
    var x := a * n;
    var t := n - x / a;
    assert a * t == x % a;
    if t > 0 {
      assert false;
    } else if t < 0 {
      assert false;
    }
  }

  /** 1970-01-01 is day 0. */
  lemma EpochIsDayZero()
    ensures CivilFromDays(0) == (1970, 1, 1)
  {
    assert 719468 / 146097 == 4 && 719468 % 146097 == 135080;
    assert YearOfEra(135080) == 369;
    assert DayOfYear(135080) == 306;
    assert MarchMonthDay(306) == (10, 1);
  }

  /** 2000-02-29 is day 11016: the civil dates follow the Gregorian leap years. */
  lemma LeapDay2000()
    ensures CivilFromDays(11016) == (2000, 2, 29)
  {
    assert 730484 / 146097 == 4 && 730484 % 146097 == 146096;
    assert YearOfEra(146096) == 399;
    assert DayOfYear(146096) == 365;
    assert MarchMonthDay(365) == (11, 29);
  }


  // ---------------------------------------------------------------------
  // Data shaping
  // ---------------------------------------------------------------------

  /** `withDate`: attaches to each datum the date its key names. */
  function WithDate(data: seq<Datum>): (r: seq<Entry>)
    ensures |r| == |data|
    ensures forall i :: 0 <= i < |r| ==> r[i] == Entry(data[i].day, data[i].value)
  {
    if data == [] then [] else [Entry(data[0].day, data[0].value)] + WithDate(data[1..])
  }

  function DateOf(e: Entry): int {
    e.date
  }

  /** `sortAsc`: the entries in ascending date order, none lost or added. */
  function SortAsc(days: seq<Entry>): (r: seq<Entry>)
    ensures SortedBy(r, DateOf)
    ensures multiset(r) == multiset(days)
  {
    SortBySorted(days, DateOf);
    SortBy(days, DateOf)
  }

  /** `findIndex(({ date }) => begin <= date)`. */
  function FindOnOrAfter(asc: seq<Entry>, begin: int): (k: int)
    ensures -1 <= k < |asc|
    ensures k == -1 <==> forall i :: 0 <= i < |asc| ==> asc[i].date < begin
    ensures 0 <= k ==> begin <= asc[k].date && forall i :: 0 <= i < k ==> asc[i].date < begin
  {
    if asc == [] then -1
    else if begin <= asc[0].date then 0
    else
      var k := FindOnOrAfter(asc[1..], begin);
      if k == -1 then -1 else k + 1
  }

  /** The entries `sliceDate` keeps: `ascDays.slice(startIndex)`. */
  function SliceEntries(asc: seq<Entry>, begin: int): (r: seq<Entry>)
    ensures |r| <= |asc| && r == asc[|asc| - |r|..]
    ensures asc != [] ==> r != []
  {
    JsSlice(asc, FindOnOrAfter(asc, begin))
  }

  /**
   * On an ascending list, `sliceDate` keeps exactly the entries dated on or
   * after `begin` when there is one; when there is none, `findIndex` gives
   * -1 and `slice(-1)` keeps the last entry alone.
   */
  lemma {:induction false} SliceEntriesOnSorted(asc: seq<Entry>, begin: int)
    requires SortedBy(asc, DateOf)
    ensures var r := SliceEntries(asc, begin);
            r == asc[|asc| - |r|..] &&
            ((exists i :: 0 <= i < |asc| && begin <= asc[i].date) ==>
               (forall i :: |asc| - |r| <= i < |asc| ==> begin <= asc[i].date) &&
               (forall i :: 0 <= i < |asc| - |r| ==> asc[i].date < begin))
    ensures (forall i :: 0 <= i < |asc| ==> asc[i].date < begin) ==>
              SliceEntries(asc, begin) == if asc == [] then [] else [asc[|asc| - 1]]
  {
    var k := FindOnOrAfter(asc, begin);
    var r := SliceEntries(asc, begin);
    if 0 <= k {
      assert r == asc[k..];
      forall i | k <= i < |asc|
        ensures begin <= asc[i].date
      {
        assert DateOf(asc[k]) <= DateOf(asc[i]);
      }
    }
  }

  /**
   * `new Map(entries.map(({ day, value }) => [day, value]))`: one key per
   * date, and when a date occurs twice the later entry's value wins.
   */
  function ToMap(entries: seq<Entry>): map<int, real> {
    if entries == [] then map[]
    else
      var last := entries[|entries| - 1];
      ToMap(entries[..|entries| - 1])[last.date := last.value]
  }

  /** The map built by `ToMap` has one key per date, holding the value of the date's last entry. */
  lemma {:induction false} ToMapMeaning(entries: seq<Entry>)
    ensures MapOf(entries, ToMap(entries))
    decreases |entries|
  {
    if entries != [] {
      var init := entries[..|entries| - 1];
      ToMapMeaning(init);
      MapOfSnoc(entries, ToMap(init));
    }
  }

  /** `m` has one key per date of `entries`, holding the value of the date's last entry. */
  ghost predicate MapOf(entries: seq<Entry>, m: map<int, real>) {
    (forall d :: d in m <==> exists i :: 0 <= i < |entries| && entries[i].date == d) &&
    forall i :: 0 <= i < |entries| &&
                (forall j :: i < j < |entries| ==> entries[j].date != entries[i].date) ==>
                  entries[i].date in m && m[entries[i].date] == entries[i].value
  }

  lemma MapOfSnoc(entries: seq<Entry>, m: map<int, real>)
    requires entries != [] && MapOf(entries[..|entries| - 1], m)
    ensures var last := entries[|entries| - 1]; MapOf(entries, m[last.date := last.value])
  {
    var init, last := entries[..|entries| - 1], entries[|entries| - 1];
    var m' := m[last.date := last.value];
    forall d | d in m'
      ensures exists i :: 0 <= i < |entries| && entries[i].date == d
    {
      if d == last.date {
        assert entries[|init|].date == d;
      } else {
        var i :| 0 <= i < |init| && init[i].date == d;
        assert entries[i].date == d;
      }
    }
    forall i | 0 <= i < |entries|
      ensures entries[i].date in m'
    {
      if i < |init| {
        assert init[i] == entries[i];
      }
    }
    forall i | 0 <= i < |entries| && (forall j :: i < j < |entries| ==> entries[j].date != entries[i].date)
      ensures m'[entries[i].date] == entries[i].value
    {
      if i < |init| {
        assert entries[|init|] == last;
        assert init[i] == entries[i];
        assert forall j :: i < j < |init| ==> init[j] == entries[j];
      }
    }
  }

  /** `sliceDate`: the value of each day kept by `SliceEntries`. */
  function SliceDate(asc: seq<Entry>, begin: int): map<int, real> {
    ToMap(SliceEntries(asc, begin))
  }

  /**
   * On an ascending list, the days `sliceDate` keeps are exactly the dates on
   * or after `begin` when there is one, and the last date alone otherwise.
   */
  lemma SliceDateOnSorted(asc: seq<Entry>, begin: int)
    requires SortedBy(asc, DateOf)
    ensures (exists i :: 0 <= i < |asc| && begin <= asc[i].date) ==>
              forall d :: d in SliceDate(asc, begin) <==> begin <= d && exists i :: 0 <= i < |asc| && asc[i].date == d
    ensures (forall i :: 0 <= i < |asc| ==> asc[i].date < begin) && asc != [] ==>
              SliceDate(asc, begin) == map[asc[|asc| - 1].date := asc[|asc| - 1].value]
  {
    if exists i :: 0 <= i < |asc| && begin <= asc[i].date {
      SliceDateKeys(asc, begin);
    } else if asc != [] {
      SliceDateLastOnly(asc, begin);
    }
  }

  lemma SliceDateKeys(asc: seq<Entry>, begin: int)
    requires SortedBy(asc, DateOf)
    requires exists i :: 0 <= i < |asc| && begin <= asc[i].date
    ensures forall d :: d in SliceDate(asc, begin) <==> begin <= d && exists i :: 0 <= i < |asc| && asc[i].date == d
  {
    var k := |asc| - |SliceEntries(asc, begin)|;
    assert SliceDate(asc, begin) == ToMap(asc[k..]);
    SliceEntriesOnSorted(asc, begin);
    KeysFrom(asc, k, begin);
  }

  lemma SliceDateLastOnly(asc: seq<Entry>, begin: int)
    requires SortedBy(asc, DateOf)
    requires asc != [] && forall i :: 0 <= i < |asc| ==> asc[i].date < begin
    ensures SliceDate(asc, begin) == map[asc[|asc| - 1].date := asc[|asc| - 1].value]
  {
    SliceEntriesOnSorted(asc, begin);
    ToMapSingle(asc[|asc| - 1]);
  }

  lemma ToMapSingle(e: Entry)
    ensures ToMap([e]) == map[e.date := e.value]
  {
    assert [e][..0] == [];
  }

  /** When `asc[k..]` holds exactly the entries on or after `begin`, its keys are those dates. */
  lemma KeysFrom(asc: seq<Entry>, k: nat, begin: int)
    requires k <= |asc|
    requires forall i :: 0 <= i < k ==> asc[i].date < begin
    requires forall i :: k <= i < |asc| ==> begin <= asc[i].date
    ensures forall d :: d in ToMap(asc[k..]) <==> begin <= d && exists i :: 0 <= i < |asc| && asc[i].date == d
  {
    var r := asc[k..];
    ToMapMeaning(r);
    forall d ensures d in ToMap(r) <==> begin <= d && exists i :: 0 <= i < |asc| && asc[i].date == d {
      if d in ToMap(r) {
        var j :| 0 <= j < |r| && r[j].date == d;
        assert asc[k + j] == r[j];
      }
      if begin <= d && exists i :: 0 <= i < |asc| && asc[i].date == d {
        var i :| 0 <= i < |asc| && asc[i].date == d;
        assert r[i - k] == asc[i];
      }
    }
  }

  /**
   * `days.get(day) || NaN`: a day missing from the map reads as blank, and
   * so does a day whose value is 0, because 0 is falsy.
   */
  function Lookup(days: map<int, real>, d: int): (v: Option<real>)
    ensures v.None? <==> d !in days || days[d] == 0.0
    ensures v.Some? ==> v.value == days[d] && v.value != 0.0
  {
    if d in days && days[d] != 0.0 then Some(days[d]) else None
  }

  /**
   * `includingBlank`: one slot per consecutive day from `begin`, for `count`
   * days, each holding its looked-up value.
   */
  function IncludingBlank(begin: int, count: nat, days: map<int, real>): (r: seq<Slot>)
    ensures |r| == count
    ensures forall k :: 0 <= k < count ==> r[k] == Slot(begin + k, Lookup(days, begin + k))
  {
    if count == 0 then []
    else IncludingBlank(begin, count - 1, days) + [Slot(begin + count - 1, Lookup(days, begin + count - 1))]
  }

  // ---------------------------------------------------------------------
  // Layout
  // ---------------------------------------------------------------------

  /** JavaScript's `%`: the remainder takes the sign of the dividend. */
  function JsRem(n: int, d: int): int
    requires d > 0
  {
    if n >= 0 then n % d else -((-n) % d)
  }

  /** `dateToXY(begin, daySize)(date)`: column by week, row by day of the week. */
  function DateToXY(begin: int, daySize: int, date: int): (p: (int, int))
    ensures 0 < daySize && date < begin ==> p.0 < 0 && -6 * daySize <= p.1 <= 0
  {
    var n := date - begin;
    (daySize * (n / 7), daySize * JsRem(n, 7))
  }

  /**
   * For a day on or after `begin`, the square sits in column `n / 7` and row
   * `n mod 7`, so it never leaves the seven rows of the grid.
   */
  lemma DateToXYGrid(begin: int, daySize: int, date: int)
    requires begin <= date && 0 <= daySize
    ensures var n := date - begin;
            DateToXY(begin, daySize, date) == (daySize * (n / 7), daySize * (n % 7)) &&
            0 <= DateToXY(begin, daySize, date).1 <= 6 * daySize
  {
    var n := date - begin;
    assert 0 <= n % 7 <= 6;
    assert daySize * (n % 7) <= daySize * 6 by {
      MulMono(daySize, n % 7, 6);
    }
  }

  lemma MulMono(a: int, b: int, c: int)
    requires 0 <= a && b <= c
    ensures a * b <= a * c
  {
    assert a * c - a * b == a * (c - b);
  }

  /** The seven days of week `w` share column `w`, top to bottom. */
  lemma WeekColumn(begin: int, daySize: int, w: nat, k: int)
    requires 0 <= k < 7
    ensures DateToXY(begin, daySize, begin + 7 * w + k) == (daySize * w, daySize * k)
  {
    var n := 7 * w + k;
    assert n / 7 == w && n % 7 == k by {
      assert n == 7 * w + k;
    }
  }

  /** Two different days on or after `begin` get different squares. */
  lemma DateToXYInjective(begin: int, daySize: int, d1: int, d2: int)
    requires 0 < daySize && begin <= d1 && begin <= d2 && d1 != d2
    ensures DateToXY(begin, daySize, d1) != DateToXY(begin, daySize, d2)
  {
    var n1, n2 := d1 - begin, d2 - begin;
    if DateToXY(begin, daySize, d1) == DateToXY(begin, daySize, d2) {
      assert daySize * (n1 / 7) == daySize * (n2 / 7);
      Cancel(daySize, n1 / 7, n2 / 7);
      Cancel(daySize, n1 % 7, n2 % 7);
      assert false;
    }
  }

  lemma Cancel(a: int, b: int, c: int)
    requires a != 0 && a * b == a * c
    ensures b == c
  {
    assert a * (b - c) == 0;
  }

  /** `rateToColor(rate(value))` up to the luminance formula. */
  function FillOf(value: Option<real>, minValue: real, maxValue: real): (f: Fill)
    ensures f.Blank? <==> value.None? || minValue == maxValue
    ensures f.Shade? ==> f.rate * (maxValue - minValue) == value.value - minValue
  {
    // (v - min) / (max - min) is NaN or infinite, hence not finite, when max == min.
    if value.None? || minValue == maxValue then Blank
    else Shade((value.value - minValue) / (maxValue - minValue))
  }

  /** The shapes drawn for one day: a month label on the first of a month, then its square. */
  function ShapesFor(begin: int, slot: Slot, minValue: real, maxValue: real): (r: seq<Shape>)
    ensures |r| == if DayOfMonth(slot.date) == 1 then 2 else 1
    ensures r[|r| - 1] == SquareFor(begin, slot, minValue, maxValue)
    ensures |r| == 2 ==> r[0] == MonthLabel(SquareFor(begin, slot, minValue, maxValue).x, 0, MonthOf(slot.date))
  {
    var (x, y) := DateToXY(begin, DaySize, slot.date);
    (if DayOfMonth(slot.date) == 1 then [MonthLabel(x, 0, MonthOf(slot.date))] else []) +
    [SquareFor(begin, slot, minValue, maxValue)]
  }

  /** The square of one day: its grid cell moved down by the label band, filled from its value. */
  function SquareFor(begin: int, slot: Slot, minValue: real, maxValue: real): (r: Shape)
    ensures r.DayRect? && r.fill == FillOf(slot.value, minValue, maxValue)
    ensures begin <= slot.date < begin + 7 * Weeks ==>
              0 <= r.x <= Width - DaySize && LabelBand <= r.y <= LabelBand + 6 * DaySize
  {
    var (x, y) := DateToXY(begin, DaySize, slot.date);
    SquareInGrid(begin, slot.date);
    DayRect(x, y + LabelBand, FillOf(slot.value, minValue, maxValue))
  }

  /** A day of the sixteen displayed weeks has its cell inside the drawing. */
  lemma SquareInGrid(begin: int, date: int)
    ensures var (x, y) := DateToXY(begin, DaySize, date);
            begin <= date < begin + 7 * Weeks ==> 0 <= x <= Width - DaySize && 0 <= y <= 6 * DaySize
  {
    if begin <= date < begin + 7 * Weeks {
      DateToXYGrid(begin, DaySize, date);
      var n := date - begin;
      assert 0 <= n / 7 <= Weeks - 1;
      MulMono(DaySize, n / 7, Weeks - 1);
    }
  }

  /** The `flatMap` over the displayed days: one or two shapes per day. */
  function Components(begin: int, slots: seq<Slot>, minValue: real, maxValue: real): (r: seq<Shape>)
    ensures |slots| <= |r| <= 2 * |slots|
  {
    if slots == [] then []
    else ShapesFor(begin, slots[0], minValue, maxValue) + Components(begin, slots[1..], minValue, maxValue)
  }

  /** The squares among the shapes, in drawing order. */
  function Rects(shapes: seq<Shape>): seq<Shape> {
    if shapes == [] then []
    else (if shapes[0].DayRect? then [shapes[0]] else []) + Rects(shapes[1..])
  }

  /** The month labels among the shapes, in drawing order. */
  function Labels(shapes: seq<Shape>): seq<Shape> {
    if shapes == [] then []
    else (if shapes[0].MonthLabel? then [shapes[0]] else []) + Labels(shapes[1..])
  }

  lemma {:induction false} RectsAppend(a: seq<Shape>, b: seq<Shape>)
    ensures Rects(a + b) == Rects(a) + Rects(b)
  {
    if a == [] {
      assert a + b == b;
    } else {
      var h := if a[0].DayRect? then [a[0]] else [];
      assert (a + b)[0] == a[0] && (a + b)[1..] == a[1..] + b;
      RectsAppend(a[1..], b);
      assert Rects(a + b) == h + (Rects(a[1..]) + Rects(b));
      assert Rects(a) == h + Rects(a[1..]);
    }
  }

  lemma {:induction false} LabelsAppend(a: seq<Shape>, b: seq<Shape>)
    ensures Labels(a + b) == Labels(a) + Labels(b)
  {
    if a == [] {
      assert a + b == b;
    } else {
      var h := if a[0].MonthLabel? then [a[0]] else [];
      assert (a + b)[0] == a[0] && (a + b)[1..] == a[1..] + b;
      LabelsAppend(a[1..], b);
      assert Labels(a + b) == h + (Labels(a[1..]) + Labels(b));
      assert Labels(a) == h + Labels(a[1..]);
    }
  }

  /** The first days of a month among the slots, in order. */
  function FirstDays(slots: seq<Slot>): seq<Slot> {
    if slots == [] then []
    else (if DayOfMonth(slots[0].date) == 1 then [slots[0]] else []) + FirstDays(slots[1..])
  }

  /**
   * Every displayed day gets exactly one square, in order, in its grid cell
   * moved down by the label band, filled from its value.
   */
  lemma {:induction false} RectsOfComponents(begin: int, slots: seq<Slot>, minValue: real, maxValue: real)
    ensures var rects := Rects(Components(begin, slots, minValue, maxValue));
            |rects| == |slots| && forall k :: 0 <= k < |slots| ==> rects[k] == SquareFor(begin, slots[k], minValue, maxValue)
  {
    if slots != [] {
      var rest := Components(begin, slots[1..], minValue, maxValue);
      RectsOfComponents(begin, slots[1..], minValue, maxValue);
      RectsAppend(ShapesFor(begin, slots[0], minValue, maxValue), rest);
      RectsOfShapes(begin, slots[0], minValue, maxValue);
    }
  }

  /** One day draws exactly one square. */
  lemma RectsOfShapes(begin: int, slot: Slot, minValue: real, maxValue: real)
    ensures Rects(ShapesFor(begin, slot, minValue, maxValue)) == [SquareFor(begin, slot, minValue, maxValue)]
  {
    var (x, y) := DateToXY(begin, DaySize, slot.date);
    if DayOfMonth(slot.date) == 1 {
      RectsAppend([MonthLabel(x, 0, MonthOf(slot.date))], [SquareFor(begin, slot, minValue, maxValue)]);
    }
  }

  lemma {:induction false} LabelsOfComponents(begin: int, slots: seq<Slot>, minValue: real, maxValue: real)
    ensures var labels := Labels(Components(begin, slots, minValue, maxValue));
            var firsts := FirstDays(slots);
            |labels| == |firsts| &&
            forall k :: 0 <= k < |firsts| ==>
              labels[k] == MonthLabel(DateToXY(begin, DaySize, firsts[k].date).0, 0, MonthOf(firsts[k].date))
  {
    if slots != [] {
      var rest := Components(begin, slots[1..], minValue, maxValue);
      LabelsOfComponents(begin, slots[1..], minValue, maxValue);
      LabelsAppend(ShapesFor(begin, slots[0], minValue, maxValue), rest);
      LabelsOfShapes(begin, slots[0], minValue, maxValue);
    }
  }

  /** One day draws a month label exactly when it is the first of its month. */
  lemma LabelsOfShapes(begin: int, slot: Slot, minValue: real, maxValue: real)
    ensures Labels(ShapesFor(begin, slot, minValue, maxValue)) ==
            if DayOfMonth(slot.date) == 1 then [MonthLabel(DateToXY(begin, DaySize, slot.date).0, 0, MonthOf(slot.date))]
            else []
  {
    var (x, y) := DateToXY(begin, DaySize, slot.date);
    if DayOfMonth(slot.date) == 1 {
      LabelsAppend([MonthLabel(x, 0, MonthOf(slot.date))], [SquareFor(begin, slot, minValue, maxValue)]);
    }
  }

  /**
   * The whole calendar for today's day number `now`. The minimum and the
   * maximum of the kept values come from a helper outside this model and are
   * parameters.
   */
  function CalendarShapes(now: int, data: seq<Datum>, minValue: real, maxValue: real): (shapes: seq<Shape>)
    ensures var begin := BeginDate(now);
            |Rects(shapes)| == now + 1 - begin &&
            7 * (Weeks - 1) + 1 <= |Rects(shapes)| <= 7 * Weeks
  {
    var begin := BeginDate(now);
    var ascDays := SortAsc(WithDate(data));
    var days := SliceDate(ascDays, begin);
    var slots := IncludingBlank(begin, now + 1 - begin, days);
    RectsOfComponents(begin, slots, minValue, maxValue);
    Components(begin, slots, minValue, maxValue)
  }
}
