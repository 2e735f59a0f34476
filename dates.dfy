/**
 * Calendar dates as `java.time.LocalDate` represents them, the day keys `yyyy-MM-dd`
 * (ISO 8601 calendar dates in extended format) that the app writes, and the
 * Monday-based week. A date is an epoch-day number (days since 1970-01-01), so
 * `plusDays(n)` and `minusDays(n)` are `+ n` and `- n`.
 */
module Dates {
  import opened JavaText

  /** A proleptic Gregorian date. */
  datatype Date = Date(year: int, month: int, day: int)

  /** The earliest epoch day handled here, 0000-03-01: the start of the first 400-year era from year 0. */
  const MIN_EPOCH_DAY: int := -719468

  /**
   * The earliest epoch day with a day key here, 0001-01-01. `yyyy` prints the year of the
   * era, so the days of year 0 (1 BC) would print as year 0001 and are left out.
   */
  const FIRST_KEY_DAY: int := -719162

  // ---------------------------------------------------------------------------
  // Epoch days and calendar dates

  /**
   * The year of the era (from March 1 of a year divisible by 400) and the day within that
   * March-based year, of day `doe` of the era: 4 centuries of 36524 days (the last one day
   * longer), each of 25 four-year blocks of 1461 days (the last one day shorter, except in
   * the fourth century), each of 4 years of 365 days (the last one day longer).
   */
  function SplitEra(doe: int): (r: (int, int))
    requires 0 <= doe < 146097
    ensures 0 <= r.0 < 400 && 0 <= r.1 <= 365
    ensures doe == 365 * r.0 + r.0 / 4 - r.0 / 100 + r.1
  {
    var c := if doe / 36524 < 3 then doe / 36524 else 3;
    var r1 := doe - 36524 * c;
    var q := r1 / 1461;
    var r2 := r1 - 1461 * q;
    var y4 := if r2 / 365 < 3 then r2 / 365 else 3;
    var yoe := 100 * c + 4 * q + y4;
    assert 0 <= q <= 24 && 0 <= y4 <= 3;
    assert yoe / 4 == 25 * c + q;
    assert yoe / 100 == c;
    (yoe, r2 - 365 * y4)
  }

  /** The month (March = 0) and day of day `doy` of a March-based year. */
  lemma MonthOfYearBound(doy: int)
    requires 0 <= doy <= 365
    ensures var mp := (5 * doy + 2) / 153;
            0 <= mp <= 11 && 1 <= doy - (153 * mp + 2) / 5 + 1 <= 31
  {
  }

  /** The date of day `doy` (from March 1) of year `yoe` of era `era`. */
  function DateOfParts(era: int, yoe: int, doy: int): (d: Date)
    requires 0 <= doy <= 365
    ensures 1 <= d.month <= 12 && 1 <= d.day <= 31
    ensures d.year == (if d.month <= 2 then yoe + era * 400 + 1 else yoe + era * 400)
  {
    var mp := (5 * doy + 2) / 153;
    MonthOfYearBound(doy);
    var day := doy - (153 * mp + 2) / 5 + 1;
    var month := if mp < 10 then mp + 3 else mp - 9;
    var y := yoe + era * 400;
    Date(if month <= 2 then y + 1 else y, month, day)
  }

  /** The 400-year era (from 0000-03-01) holding epoch day `z`, and the day within it. */
  function EraOf(z: int): (r: (int, int))
    requires z >= MIN_EPOCH_DAY
    ensures r.0 >= 0 && 0 <= r.1 < 146097
    ensures z == r.0 * 146097 + r.1 + MIN_EPOCH_DAY
  {
    var z' := z - MIN_EPOCH_DAY;
    (z' / 146097, z' % 146097)
  }

  /** The calendar date of an epoch day (the conversion `LocalDate.ofEpochDay` performs). */
  function CivilFromDays(z: int): (d: Date)
    requires z >= MIN_EPOCH_DAY
    ensures d.year >= 0 && 1 <= d.month <= 12 && 1 <= d.day <= 31
  {
    var e := EraOf(z);
    var split := SplitEra(e.1);
    DateOfParts(e.0, split.0, split.1)
  }

  /** The epoch day of a calendar date (`LocalDate.toEpochDay`). */
  function DaysFromCivil(d: Date): int {
    var y := if d.month <= 2 then d.year - 1 else d.year;
    var era := y / 400;
    var yoe := y - era * 400;
    var mp := if d.month > 2 then d.month - 3 else d.month + 9;
    var doy := (153 * mp + 2) / 5 + d.day - 1;
    var doe := yoe * 365 + yoe / 4 - yoe / 100 + doy;
    era * 146097 + doe + MIN_EPOCH_DAY
  }

  lemma EraOfYear(era: int, yoe: int)
    requires 0 <= yoe < 400
    ensures (yoe + era * 400) / 400 == era
  {
  }

  /** `DaysFromCivil` undoes `DateOfParts`. */
  lemma DaysFromCivilOfParts(era: int, yoe: int, doy: int)
    requires 0 <= yoe < 400 && 0 <= doy <= 365
    ensures DaysFromCivil(DateOfParts(era, yoe, doy)) == era * 146097 + (yoe * 365 + yoe / 4 - yoe / 100 + doy) + MIN_EPOCH_DAY
  {
    var d := DateOfParts(era, yoe, doy);
    var mp := (5 * doy + 2) / 153;
    MonthOfYearBound(doy);
    assert (if d.month > 2 then d.month - 3 else d.month + 9) == mp;
    assert (153 * mp + 2) / 5 + d.day - 1 == doy;
    assert (if d.month <= 2 then d.year - 1 else d.year) == yoe + era * 400;
    EraOfYear(era, yoe);
  }

  /** Converting an epoch day to a date and back gives the same day: the conversion loses nothing. */
  lemma DaysFromCivilOfCivilFromDays(z: int)
    requires z >= MIN_EPOCH_DAY
    ensures DaysFromCivil(CivilFromDays(z)) == z
  {
    var e := EraOf(z);
    var split := SplitEra(e.1);
    DaysFromCivilOfParts(e.0, split.0, split.1);
  }

  /** The first keyed day is 0001-01-01, and the day before it is the last day of year 0. */
  lemma FirstKeyDayIsYearOne()
    ensures CivilFromDays(FIRST_KEY_DAY) == Date(1, 1, 1)
    ensures CivilFromDays(FIRST_KEY_DAY - 1) == Date(0, 12, 31)
  {
    assert EraOf(FIRST_KEY_DAY) == (0, 306);
    assert SplitEra(306) == (0, 306);
    assert DateOfParts(0, 0, 306) == Date(1, 1, 1);
    assert EraOf(FIRST_KEY_DAY - 1) == (0, 305);
    assert SplitEra(305) == (0, 305);
    assert DateOfParts(0, 0, 305) == Date(0, 12, 31);
  }

  /** Known days: the epoch 1970-01-01 and the leap day 2000-02-29. */
  lemma EpochDayExamples()
    ensures CivilFromDays(0) == Date(1970, 1, 1)
    ensures CivilFromDays(11016) == Date(2000, 2, 29)
  {
    assert EraOf(0) == (4, 135080);
    assert SplitEra(135080) == (369, 306);
    assert DateOfParts(4, 369, 306) == Date(1970, 1, 1);
    assert EraOf(11016) == (4, 146096);
    assert SplitEra(146096) == (399, 365);
    assert DateOfParts(4, 399, 365) == Date(2000, 2, 29);
  }

  // ---------------------------------------------------------------------------
  // Day keys

  /** The `yyyy-MM-dd` rendering of a date: year zero-padded to four digits, month and day to two. */
  function Format(d: Date): (r: string)
    requires d.year >= 0 && d.month >= 0 && d.day >= 0
    ensures |r| >= 10
  {
    Pad(d.year, 4) + "-" + Pad(d.month, 2) + "-" + Pad(d.day, 2)
  }

  /**
   * The day key of an epoch day from 0001-01-01 on, as `format(yyyy-MM-dd)` prints it for
   * years up to 9999; later years get no leading `+` here.
   */
  function DayKey(z: int): (r: string)
    requires z >= FIRST_KEY_DAY
    ensures |r| >= 10
  {
    Format(CivilFromDays(z))
  }

  /** A date whose key has the fixed ten-character shape `YYYY-MM-DD`. */
  predicate InKeyRange(d: Date) {
    1 <= d.year <= 9999 && 1 <= d.month <= 12 && 1 <= d.day <= 31
  }

  /** Chronological order of dates: by year, then month, then day. */
  predicate Before(a: Date, b: Date) {
    a.year < b.year || (a.year == b.year && (a.month < b.month || (a.month == b.month && a.day < b.day)))
  }

  /** Two concatenations that are equal and whose second parts have the same length have equal parts. */
  lemma SplitEqual(x: string, u: string, y: string, v: string)
    requires x + u == y + v && |u| == |v|
    ensures x == y && u == v
  {
    assert x == (x + u)[..|x|] && y == (y + v)[..|y|];
    assert u == (x + u)[|x|..] && v == (y + v)[|y|..];
  }

  /** Different dates (months and days below 100) have different keys. */
  lemma FormatInjective(a: Date, b: Date)
    requires a.year >= 0 && 0 <= a.month < 100 && 0 <= a.day < 100
    requires b.year >= 0 && 0 <= b.month < 100 && 0 <= b.day < 100
    requires Format(a) == Format(b)
    ensures a == b
  {
    assert Pow10(2) == 100;
    PadLength(a.month, 2);
    PadLength(a.day, 2);
    PadLength(b.month, 2);
    PadLength(b.day, 2);
    var ma, da, mb, db := Pad(a.month, 2), Pad(a.day, 2), Pad(b.month, 2), Pad(b.day, 2);
    assert Format(a) == Pad(a.year, 4) + ("-" + ma + "-" + da);
    assert Format(b) == Pad(b.year, 4) + ("-" + mb + "-" + db);
    SplitEqual(Pad(a.year, 4), "-" + ma + "-" + da, Pad(b.year, 4), "-" + mb + "-" + db);
    SplitEqual("-" + ma + "-", da, "-" + mb + "-", db);
    assert ma == ("-" + ma + "-")[1..3] && mb == ("-" + mb + "-")[1..3];
    PadValue(a.year, 4);
    PadValue(b.year, 4);
    PadValue(a.month, 2);
    PadValue(b.month, 2);
    PadValue(a.day, 2);
    PadValue(b.day, 2);
  }

  /** Different epoch days have different day keys. */
  lemma DayKeyInjective(z1: int, z2: int)
    requires z1 >= FIRST_KEY_DAY && z2 >= FIRST_KEY_DAY
    ensures DayKey(z1) == DayKey(z2) <==> z1 == z2
  {
    if DayKey(z1) == DayKey(z2) {
      FormatInjective(CivilFromDays(z1), CivilFromDays(z2));
      DaysFromCivilOfCivilFromDays(z1);
      DaysFromCivilOfCivilFromDays(z2);
    }
  }

  /** Keys made of same-length fields compare field by field. */
  lemma FieldOrder(ya: string, ma: string, da: string, yb: string, mb: string, db: string)
    requires |ya| == |yb| && |ma| == |mb|
    ensures LexLess(ya + "-" + ma + "-" + da, yb + "-" + mb + "-" + db)
            <==> LexLess(ya, yb) || (ya == yb && (LexLess(ma, mb) || (ma == mb && LexLess(da, db))))
  {
    assert ya + "-" + ma + "-" + da == ya + ("-" + (ma + ("-" + da)));
    assert yb + "-" + mb + "-" + db == yb + ("-" + (mb + ("-" + db)));
    LexAppend(ya, "-" + (ma + ("-" + da)), yb, "-" + (mb + ("-" + db)));
    LexAppend("-", ma + ("-" + da), "-", mb + ("-" + db));
    LexAppend(ma, "-" + da, mb, "-" + db);
    LexAppend("-", da, "-", db);
    LexIrreflexive("-");
  }

  /** Zero-padded fields of one width compare, and are equal, as their values do. */
  lemma PadField(x: nat, y: nat, width: nat)
    requires width >= 1 && x < Pow10(width) && y < Pow10(width)
    ensures |Pad(x, width)| == width && |Pad(y, width)| == width
    ensures LexLess(Pad(x, width), Pad(y, width)) <==> x < y
    ensures Pad(x, width) == Pad(y, width) <==> x == y
  {
    PadLength(x, width);
    PadLength(y, width);
    PadOrder(x, y, width);
    PadValue(x, width);
    PadValue(y, width);
  }

  /** For four-digit years, the string order of keys is the chronological order of the dates. */
  lemma FormatOrderIsChronological(a: Date, b: Date)
    requires InKeyRange(a) && InKeyRange(b)
    ensures LexLess(Format(a), Format(b)) <==> Before(a, b)
  {
    assert Pow10(2) == 100 && Pow10(4) == 10000;
    PadField(a.year, b.year, 4);
    PadField(a.month, b.month, 2);
    PadField(a.day, b.day, 2);
    FieldOrder(Pad(a.year, 4), Pad(a.month, 2), Pad(a.day, 2), Pad(b.year, 4), Pad(b.month, 2), Pad(b.day, 2));
  }

  // ---------------------------------------------------------------------------
  // Weeks

  /** `getDayOfWeek()` as an index, 0 = Monday … 6 = Sunday (1970-01-01 was a Thursday). */
  function DayOfWeek(z: int): (r: int)
    ensures 0 <= r < 7
  {
    (z + 3) % 7
  }

  /** `with(DayOfWeek.MONDAY)`: the Monday of the Monday-to-Sunday week holding `z`. */
  function WeekStart(z: int): (r: int)
    ensures r <= z < r + 7
    ensures DayOfWeek(r) == 0
  {
    z - DayOfWeek(z)
  }

  /** The `i`-th day of a Monday-based week is weekday `i`. */
  lemma DayOfWeekInWeek(z: int, i: int)
    requires 0 <= i < 7
    ensures DayOfWeek(WeekStart(z) + i) == i
  {
    var q := (z + 3) / 7;
    assert WeekStart(z) + 3 == 7 * q;
    assert WeekStart(z) + i + 3 == 7 * q + i;
  }

  /** Every day of one week has the same week start, and the next week starts seven days later. */
  lemma WeekStartOfSameWeek(z: int, i: int)
    requires 0 <= i < 7
    ensures WeekStart(WeekStart(z) + i) == WeekStart(z)
    ensures WeekStart(z - 7) == WeekStart(z) - 7
  {
  }
}
