/** Civil dates of UTC timestamps: the closed-form conversion the log lines use,
    against a plain count of year and month lengths. */
module Civil {
  datatype Date = Date(year: int, month: int, day: int)

  // ----- the calendar -----

  predicate IsLeap(y: int) {
    y % 4 == 0 && (y % 100 != 0 || y % 400 == 0)
  }

  function DaysInYear(y: int): int { if IsLeap(y) then 366 else 365 }

  function DaysInMonth(y: int, m: int): int {
    if m == 2 then (if IsLeap(y) then 29 else 28)
    else if m == 4 || m == 6 || m == 9 || m == 11 then 30
    else 31
  }

  predicate ValidDate(t: Date) {
    1 <= t.month <= 12 && 1 <= t.day <= DaysInMonth(t.year, t.month)
  }

  /** Days from 1970-01-01 to the first day of a year, counted year by year. */
  function DaysBeforeYear(y: int): int
    decreases if y > 1970 then y - 1970 else 1970 - y
  {
    if y == 1970 then 0
    else if y > 1970 then DaysBeforeYear(y - 1) + DaysInYear(y - 1)
    else DaysBeforeYear(y + 1) - DaysInYear(y)
  }

  /** Days from the first day of a year to the first of a month, month by month. */
  function DaysBeforeMonth(y: int, m: int): int
    requires 1 <= m <= 13
    decreases m
  {
    if m == 1 then 0 else DaysBeforeMonth(y, m - 1) + DaysInMonth(y, m - 1)
  }

  function DayNumber(t: Date): int
    requires ValidDate(t)
  {
    DaysBeforeYear(t.year) + DaysBeforeMonth(t.year, t.month) + t.day - 1
  }

  function NextDate(t: Date): Date {
    if t.day < DaysInMonth(t.year, t.month) then Date(t.year, t.month, t.day + 1)
    else if t.month < 12 then Date(t.year, t.month + 1, 1)
    else Date(t.year + 1, 1, 1)
  }

  // ----- the conversion -----

  function YearOfEra(doe: int): int {
    (doe - doe / 1460 + doe / 36_524 - doe / 146_096) / 365
  }

  function CivilFromDays(days: int): Date {
    var z := days + 719_468;
    var era := z / 146_097;
    var doe := z % 146_097;
    var yoe := YearOfEra(doe);
    MarchToDate(yoe + era * 400, doe - (365 * yoe + yoe / 4 - yoe / 100))
  }

  /** Day `doy` of the year that starts in March of `y`. */
  function MarchToDate(y: int, doy: int): Date {
    var mp := (5 * doy + 2) / 153;
    var d := doy - (153 * mp + 2) / 5 + 1;
    var m := if mp < 10 then mp + 3 else mp - 9;
    Date(if m <= 2 then y + 1 else y, m, d)
  }

  // ----- closed forms of the counts -----

  /** Leap years up to and including year `y`. */
  function Leaps(y: int): int { y / 4 - y / 100 + y / 400 }

  lemma QuotientsStep(y: int)
    ensures y / 4 - (y - 1) / 4 == if y % 4 == 0 then 1 else 0
    ensures y / 100 - (y - 1) / 100 == if y % 100 == 0 then 1 else 0
    ensures y / 400 - (y - 1) / 400 == if y % 400 == 0 then 1 else 0
  {
    QuotientStep(y, 4);
    QuotientStep(y, 100);
    QuotientStep(y, 400);
  }

  lemma QuotientStep(y: int, k: int)
    requires k == 4 || k == 100 || k == 400
    ensures y / k - (y - 1) / k == if y % k == 0 then 1 else 0
  {
    if k == 4 {
    } else if k == 100 {
    } else {
    }
  }

  lemma CenturiesNest(y: int)
    ensures y % 100 == 0 ==> y % 4 == 0
    ensures y % 400 == 0 ==> y % 100 == 0
  {
    if y % 100 == 0 {
      assert y == 4 * (25 * (y / 100));
    }
    if y % 400 == 0 {
      assert y == 100 * (4 * (y / 400));
    }
  }

  lemma LeapsStep(y: int)
    ensures Leaps(y) - Leaps(y - 1) == if IsLeap(y) then 1 else 0
  {
    QuotientsStep(y);
    CenturiesNest(y);
  }

  lemma {:induction false} YearCount(y: int)
    ensures DaysBeforeYear(y) == 365 * (y - 1970) + Leaps(y - 1) - 477
    decreases if y > 1970 then y - 1970 else 1970 - y
  {
    if y > 1970 {
      YearCount(y - 1);
      LeapsStep(y - 1);
    } else if y < 1970 {
      YearCount(y + 1);
      LeapsStep(y);
    }
  }

  lemma MonthCount(y: int, m: int)
    requires 1 <= m <= 13
    ensures DaysBeforeMonth(y, m) ==
      if m == 1 then 0 else if m == 2 then 31
      else 59 + (if IsLeap(y) then 1 else 0) + (153 * (m - 3) + 2) / 5
  {
  }

  /** Day `s` of leap cycle `q` of century `c` of an era. A century's last cycle
      is a day short, except at the end of the era. */
  predicate InEra(c: int, q: int, s: int) {
    0 <= c < 4 && 0 <= q < 25 && 0 <= s < 1461 && (s == 1460 && q == 24 ==> c == 3)
  }

  lemma EraQuotients(c: int, q: int, s: int)
    requires InEra(c, q, s)
    ensures
      var doe := 36_524 * c + 1461 * q + s;
      var last := c == 3 && q == 24 && s == 1460;
      && doe / 1460 == 25 * c + q + (if s >= 1460 - 24 * c - q then 1 else 0)
      && doe / 36_524 == c + (if last then 1 else 0)
      && doe / 146_096 == if last then 1 else 0
  {
    var doe := 36_524 * c + 1461 * q + s;
    assert doe == 1460 * (25 * c + q) + (24 * c + q + s);
  }

  lemma YearOfEraIs(c: int, q: int, s: int)
    requires InEra(c, q, s)
    ensures YearOfEra(36_524 * c + 1461 * q + s) == 100 * c + 4 * q + (if s == 1460 then 3 else s / 365)
  {
    EraQuotients(c, q, s);
    var k := if s >= 1460 - 24 * c - q then 1 else 0;
    var t := if s == 1460 then 3 else s / 365;
    var doe := 36_524 * c + 1461 * q + s;
    assert doe - doe / 1460 + doe / 36_524 - doe / 146_096 == 365 * (100 * c + 4 * q) + (s - k);
    assert (s - k) / 365 == t;
  }

  lemma EraParts(doe: int) returns (c: int, q: int, s: int)
    requires 0 <= doe < 146_097
    ensures InEra(c, q, s) && doe == 36_524 * c + 1461 * q + s
  {
    c := if doe == 146_096 then 3 else doe / 36_524;
    var r := doe - 36_524 * c;
    q, s := r / 1461, r % 1461;
  }

  /** The four-century arithmetic: the year of the era is the one whose days
      contain the day of the era. */
  lemma YearOfEraBounds(doe: int)
    requires 0 <= doe < 146_097
    ensures
      var yoe := YearOfEra(doe);
      var doy := doe - (365 * yoe + yoe / 4 - yoe / 100);
      0 <= yoe < 400 && 0 <= doy < 365 + if IsLeap(yoe + 1) then 1 else 0
  {
    var c, q, s := EraParts(doe);
    YearOfEraIs(c, q, s);
    var t := if s == 1460 then 3 else s / 365;
    var yoe := 100 * c + 4 * q + t;
    assert yoe / 4 == 25 * c + q && yoe / 100 == c;
    if s == 1460 {
      assert yoe + 1 == 4 * (25 * c + q + 1);
      assert q < 24 ==> (yoe + 1) % 100 == 4 * (q + 1);
    }
  }

  // ----- the conversion is right -----

  lemma MonthOfYear(doy: int)
    requires 0 <= doy < 366
    ensures
      var mp := (5 * doy + 2) / 153;
      && 0 <= mp < 12
      && (153 * mp + 2) / 5 <= doy
      && (mp < 11 ==> doy < (153 * (mp + 1) + 2) / 5)
  {
  }

  /** Days from 0000-03-01 to the first of March of year `y`. */
  function MarchDays(y: int): int { 365 * y + Leaps(y) }

  lemma EraLeaps(era: int, yoe: int)
    requires 0 <= yoe < 400
    ensures Leaps(yoe + era * 400) == yoe / 4 - yoe / 100 + era * 97
  {
    var y := yoe + era * 400;
    assert y == yoe + 4 * (100 * era) == yoe + 100 * (4 * era);
    assert y / 4 == yoe / 4 + era * 100;
    assert y / 100 == yoe / 100 + era * 4;
    assert y / 400 == era;
  }

  lemma Shift4(y: int, n: int)
    ensures (y + 4 * n) % 4 == y % 4
  {
  }

  lemma Shift100(y: int, n: int)
    ensures (y + 100 * n) % 100 == y % 100
  {
  }

  lemma Shift400(y: int, n: int)
    ensures (y + 400 * n) % 400 == y % 400
  {
  }

  lemma EraKeepsLeap(era: int, y: int)
    ensures IsLeap(y + era * 400) == IsLeap(y)
  {
    Shift4(y, 100 * era);
    Shift100(y, 4 * era);
    Shift400(y, era);
    assert y + era * 400 == y + 4 * (100 * era) == y + 100 * (4 * era) == y + 400 * era;
  }

  /** A day of the year that starts in March, as a date. */
  lemma MarchDate(y: int, doy: int)
    requires 0 <= doy < 365 + if IsLeap(y + 1) then 1 else 0
    ensures ValidDate(MarchToDate(y, doy)) && DayNumber(MarchToDate(y, doy)) == MarchDays(y) + doy - 719_468
  {
    MonthOfYear(doy);
    var t := MarchToDate(y, doy);
    YearCount(t.year);
    MonthCount(t.year, t.month);
    LeapsStep(y);
  }

  lemma EraDate(era: int, yoe: int, doy: int)
    requires 0 <= yoe < 400 && 0 <= doy < 365 + if IsLeap(yoe + 1) then 1 else 0
    ensures
      var t := MarchToDate(yoe + era * 400, doy);
      ValidDate(t) && DayNumber(t) == 146_097 * era + 365 * yoe + yoe / 4 - yoe / 100 + doy - 719_468
  {
    EraKeepsLeap(era, yoe + 1);
    EraLeaps(era, yoe);
    assert yoe + era * 400 + 1 == yoe + 1 + era * 400;
    MarchDate(yoe + era * 400, doy);
  }

  lemma DayOfEra(z: int, era: int, doe: int, yoe: int)
    requires z + 719_468 == 146_097 * era + doe && 0 <= yoe < 400
    requires 0 <= doe - (365 * yoe + yoe / 4 - yoe / 100) < 365 + if IsLeap(yoe + 1) then 1 else 0
    ensures
      var t := MarchToDate(yoe + era * 400, doe - (365 * yoe + yoe / 4 - yoe / 100));
      ValidDate(t) && DayNumber(t) == z
  {
    EraDate(era, yoe, doe - (365 * yoe + yoe / 4 - yoe / 100));
  }

  /** The parts the conversion splits a day into. */
  lemma ConversionParts(z: int) returns (era: int, doe: int, yoe: int)
    ensures z + 719_468 == 146_097 * era + doe && 0 <= yoe < 400
    ensures 0 <= doe - (365 * yoe + yoe / 4 - yoe / 100) < 365 + if IsLeap(yoe + 1) then 1 else 0
    ensures CivilFromDays(z) == MarchToDate(yoe + era * 400, doe - (365 * yoe + yoe / 4 - yoe / 100))
  {
    era, doe := (z + 719_468) / 146_097, (z + 719_468) % 146_097;
    yoe := YearOfEra(doe);
    YearOfEraBounds(doe);
  }

  /** The date of day `z` is a Gregorian date, and counting years and months up
      to it gives back `z`: for every day, before and after 1970. */
  lemma CivilCorrect(z: int)
    ensures ValidDate(CivilFromDays(z)) && DayNumber(CivilFromDays(z)) == z
  {
    var era, doe, yoe := ConversionParts(z);
    DayOfEra(z, era, doe, yoe);
  }

  // ----- and it is the only answer -----

  lemma NextIsNext(t: Date)
    requires ValidDate(t)
    ensures ValidDate(NextDate(t)) && DayNumber(NextDate(t)) == DayNumber(t) + 1
  {
    if t.day == DaysInMonth(t.year, t.month) && t.month == 12 {
      NextYear(t.year);
      MonthCount(t.year, 12);
    }
  }

  lemma NextYear(y: int)
    ensures DaysBeforeYear(y + 1) == DaysBeforeYear(y) + DaysInYear(y)
  {
  }

  lemma {:induction false} YearsAdvance(a: int, b: int)
    requires a < b
    ensures DaysBeforeYear(a) + DaysInYear(a) <= DaysBeforeYear(b)
    decreases b - a
  {
    NextYear(a);
    if a + 1 < b {
      YearsAdvance(a + 1, b);
    }
  }

  lemma {:induction false} MonthsAdvance(y: int, a: int, b: int)
    requires 1 <= a < b <= 13
    ensures DaysBeforeMonth(y, a) + DaysInMonth(y, a) <= DaysBeforeMonth(y, b)
    decreases b - a
  {
    if a + 1 < b {
      MonthsAdvance(y, a, b - 1);
    }
  }

  lemma WithinYear(t: Date)
    requires ValidDate(t)
    ensures DaysBeforeYear(t.year) <= DayNumber(t) < DaysBeforeYear(t.year) + DaysInYear(t.year)
  {
    MonthCount(t.year, t.month);
  }

  /** Two dates with the same day number are the same date. */
  lemma DayNumberInjective(a: Date, b: Date)
    requires ValidDate(a) && ValidDate(b) && DayNumber(a) == DayNumber(b)
    ensures a == b
  {
    WithinYear(a);
    WithinYear(b);
    if a.year < b.year {
      YearsAdvance(a.year, b.year);
    } else if b.year < a.year {
      YearsAdvance(b.year, a.year);
    } else if a.month < b.month {
      MonthsAdvance(a.year, a.month, b.month);
    } else if b.month < a.month {
      MonthsAdvance(a.year, b.month, a.month);
    }
  }

  /** The conversion inverts the count on every date. */
  lemma CivilOfDayNumber(t: Date)
    requires ValidDate(t)
    ensures CivilFromDays(DayNumber(t)) == t
  {
    CivilCorrect(DayNumber(t));
    DayNumberInjective(CivilFromDays(DayNumber(t)), t);
  }

  /** Consecutive days have consecutive dates. */
  lemma CivilSuccessor(z: int)
    ensures CivilFromDays(z + 1) == NextDate(CivilFromDays(z))
  {
    CivilCorrect(z);
    NextIsNext(CivilFromDays(z));
    CivilOfDayNumber(NextDate(CivilFromDays(z)));
  }

  /** The clock part of a timestamp's log stamp. */
  datatype Stamp = Stamp(date: Date, hour: nat, minute: nat, second: nat)

  function UtcStamp(secs: nat): Stamp {
    var ofDay := secs % 86_400;
    Stamp(CivilFromDays(secs / 86_400), ofDay / 3600, ofDay % 3600 / 60, ofDay % 60)
  }

  /** A log stamp names the second it was made from, and no other. */
  lemma StampNamesSecond(secs: nat)
    ensures
      var t := UtcStamp(secs);
      && ValidDate(t.date) && t.hour < 24 && t.minute < 60 && t.second < 60
      && DayNumber(t.date) * 86_400 + t.hour * 3600 + t.minute * 60 + t.second == secs
  {
    CivilCorrect(secs / 86_400);
    ClockParts(secs % 86_400);
  }

  lemma ClockParts(ofDay: nat)
    requires ofDay < 86_400
    ensures ofDay / 3600 < 24 && ofDay % 3600 / 60 < 60
    ensures ofDay / 3600 * 3600 + ofDay % 3600 / 60 * 60 + ofDay % 60 == ofDay
  {
    var rest := ofDay % 3600;
    assert ofDay == 60 * (60 * (ofDay / 3600)) + rest;
    assert ofDay % 60 == rest % 60;
  }
}
