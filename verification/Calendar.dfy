/** Emit timestamps and UTC dates (cmd/projector/writer.go): proleptic Gregorian civil time, with the
    leap year rule of Appendix C of RFC 3339. Section 5.1 of RFC 3339 asks that the strings sort by time. */
module Calendar {
  import opened Text

  const DAY_MS: int := 86_400_000
  const CYCLE_DAYS: int := 146_097 // days in 400 years

  predicate Leap(y: int) {
    y % 4 == 0 && (y % 100 != 0 || y % 400 == 0)
  }

  /** Days from 1 January of year 0 to 1 January of year y. */
  function YearStart(y: int): int {
    365 * y + (y + 3) / 4 - (y + 99) / 100 + (y + 399) / 400
  }

  lemma YearLength(y: int)
    ensures YearStart(y + 1) == YearStart(y) + if Leap(y) then 366 else 365
  {
    assert (y + 4) / 4 == (y + 3) / 4 + if y % 4 == 0 then 1 else 0;
    assert (y + 100) / 100 == (y + 99) / 100 + if y % 100 == 0 then 1 else 0;
    assert (y + 400) / 400 == (y + 399) / 400 + if y % 400 == 0 then 1 else 0;
    CenturiesAreFourfold(y);
  }

  lemma CenturiesAreFourfold(y: int)
    ensures y % 100 == 0 ==> y % 4 == 0
    ensures y % 400 == 0 ==> y % 100 == 0
  {
    if y % 100 == 0 {
      assert y == 4 * (25 * (y / 100));
    }
    if y % 400 == 0 {
      assert y == 100 * (4 * (y / 400));
    }
  }

  lemma CyclesRepeat(y: int, c: int)
    ensures YearStart(y + 400 * c) == YearStart(y) + CYCLE_DAYS * c
  {
    assert (y + 400 * c + 3) / 4 == (y + 3) / 4 + 100 * c;
    assert (y + 400 * c + 99) / 100 == (y + 99) / 100 + 4 * c;
    assert (y + 400 * c + 399) / 400 == (y + 399) / 400 + c;
  }

  lemma {:induction false} YearsApart(x: int, y: int)
    requires x <= y
    ensures YearStart(x) + 365 * (y - x) <= YearStart(y)
    decreases y - x
  {
    if x < y {
      YearLength(x);
      YearsApart(x + 1, y);
    }
  }

  function YearFrom(d: int, y: int): (r: int)
    requires YearStart(y) <= d
    ensures YearStart(r) <= d < YearStart(r + 1)
    decreases d - YearStart(y)
  {
    YearLength(y);
    if d < YearStart(y + 1) then y else YearFrom(d, y + 1)
  }

  /** The year of day d, counted from 1 January of year 0. */
  function YearOf(d: int): (y: int)
    ensures YearStart(y) <= d < YearStart(y + 1)
  {
    var c := d / CYCLE_DAYS;
    var y := YearFrom(d - CYCLE_DAYS * c, 0);
    CyclesRepeat(y, c);
    CyclesRepeat(y + 1, c);
    y + 400 * c
  }

  lemma YearUnique(d: int, y: int)
    requires YearStart(y) <= d < YearStart(y + 1)
    ensures YearOf(d) == y
  {
    var r := YearOf(d);
    if r < y { YearsApart(r + 1, y); }
    if y < r { YearsApart(y + 1, r); }
  }

  /** Days before month m of a year; month 13 is the end of the year. */
  function MonthStart(leap: bool, m: int): int {
    var l := if leap then 1 else 0;
    if m <= 1 then 0 else if m == 2 then 31 else if m == 3 then 59 + l else if m == 4 then 90 + l
    else if m == 5 then 120 + l else if m == 6 then 151 + l else if m == 7 then 181 + l else if m == 8 then 212 + l
    else if m == 9 then 243 + l else if m == 10 then 273 + l else if m == 11 then 304 + l
    else if m == 12 then 334 + l else 365 + l
  }

  function MonthFrom(leap: bool, yday: int, m: int): (r: int)
    requires 1 <= m <= 12 && MonthStart(leap, m) <= yday < MonthStart(leap, 13)
    ensures m <= r <= 12 && MonthStart(leap, r) <= yday < MonthStart(leap, r + 1)
    decreases 12 - m
  {
    if m == 12 || yday < MonthStart(leap, m + 1) then m else MonthFrom(leap, yday, m + 1)
  }

  datatype Civil = Civil(year: int, month: int, day: int)

  const EPOCH_DAY: int := 719_528 // 1 January 1970

  function DayNumber(c: Civil): int {
    YearStart(c.year) + MonthStart(Leap(c.year), c.month) + c.day - 1
  }

  predicate ValidCivil(c: Civil) {
    1 <= c.month <= 12
    && 1 <= c.day <= MonthStart(Leap(c.year), c.month + 1) - MonthStart(Leap(c.year), c.month)
  }

  /** The civil date of a day, counted from 1 January of year 0. */
  function CivilOf(d: int): (c: Civil)
    ensures ValidCivil(c) && DayNumber(c) == d
  {
    var y := YearOf(d);
    YearLength(y);
    var m := MonthFrom(Leap(y), d - YearStart(y), 1);
    Civil(y, m, d - YearStart(y) - MonthStart(Leap(y), m) + 1)
  }

  predicate CivilLess(a: Civil, b: Civil) {
    a.year < b.year || (a.year == b.year && (a.month < b.month || (a.month == b.month && a.day < b.day)))
  }

  lemma MonthsApart(leap: bool, m: int, n: int)
    requires 1 <= m < n <= 13
    ensures MonthStart(leap, m + 1) <= MonthStart(leap, n)
  {
  }

  lemma WithinYear(c: Civil)
    requires ValidCivil(c)
    ensures YearStart(c.year) <= DayNumber(c) < YearStart(c.year + 1)
  {
    hide YearStart, Leap;
    YearLength(c.year);
    if c.month < 12 {
      MonthsApart(Leap(c.year), c.month, 13);
    }
  }

  /** A civil date names one day only, and civil dates count up with the days. */
  lemma CivilOrder(x: Civil, y: Civil)
    requires ValidCivil(x) && ValidCivil(y)
    ensures CivilLess(x, y) <==> DayNumber(x) < DayNumber(y)
    ensures x == y <==> DayNumber(x) == DayNumber(y)
  {
    if CivilLess(x, y) { LessIsEarlier(x, y); }
    if CivilLess(y, x) { LessIsEarlier(y, x); }
  }

  lemma LessIsEarlier(x: Civil, y: Civil)
    requires ValidCivil(x) && ValidCivil(y) && CivilLess(x, y)
    ensures DayNumber(x) < DayNumber(y)
  {
    hide YearStart;
    if x.year < y.year {
      WithinYear(x);
      WithinYear(y);
      YearsApart(x.year + 1, y.year);
    } else if x.month < y.month {
      MonthsApart(Leap(x.year), x.month, y.month);
    }
  }

  // ---------------------------------------------------------------------------
  // Rendering
  // ---------------------------------------------------------------------------

  function AtLeastFour(y: nat): string {
    if y < 10_000 then Pad(y, 4) else Decimal(y)
  }

  /** Go pads a year to at least four digits. */
  function YearText(y: int): string {
    if y < 0 then "-" + AtLeastFour(-y) else AtLeastFour(y)
  }

  function DateText(c: Civil): string
    requires ValidCivil(c)
  {
    YearText(c.year) + Field("-", c.month, 2, Field("-", c.day, 2, ""))
  }

  /** Nine fractional digits, whatever their value. */
  function ClockText(tod: nat): (s: string)
    requires tod < DAY_MS
    ensures |s| == 18
  {
    Field("", tod / 3_600_000, 2,
      Field(":", tod / 60_000 % 60, 2,
        Field(":", tod / 1_000 % 60, 2,
          Field(".", tod % 1_000 * 1_000_000, 9, ""))))
  }

  function DayOf(ms: int): int {
    ms / DAY_MS + EPOCH_DAY
  }

  function DateUTC(ms: int): string {
    DateText(CivilOf(DayOf(ms)))
  }

  function EventTS(ms: int): string {
    DateUTC(ms) + ("T" + ClockText(ms % DAY_MS) + "Z")
  }

  /** The instants of years 0 to 9999. */
  predicate FourDigitYear(ms: int) {
    -62_167_219_200_000 <= ms < 253_402_300_800_000
  }

  lemma FourDigitRange(ms: int)
    ensures FourDigitYear(ms) <==> 0 <= CivilOf(DayOf(ms)).year < 10_000
  {
    hide CivilOf, Leap, MonthStart, DayNumber;
    var c := CivilOf(DayOf(ms));
    WithinYear(c);
    assert YearStart(0) == 0 && YearStart(10_000) == 3_652_425;
    if c.year < 0 {
      YearsApart(c.year + 1, 0);
    } else if c.year < 10_000 {
      YearsApart(0, c.year);
      YearsApart(c.year + 1, 10_000);
    } else {
      YearsApart(10_000, c.year);
    }
  }

  lemma DateTextOrder(x: Civil, y: Civil)
    requires ValidCivil(x) && ValidCivil(y) && 0 <= x.year < 10_000 && 0 <= y.year < 10_000
    ensures |DateText(x)| == |DateText(y)| == 10
    ensures LexLess(DateText(x), DateText(y)) <==> CivilLess(x, y)
    ensures DateText(x) == DateText(y) <==> x == y
  {
    hide Field, Pad, LexLess;
    assert x.day < Pow10(2) && y.day < Pow10(2) && x.month < Pow10(2) && y.month < Pow10(2) by {
      DayFits(x);
      DayFits(y);
      PowersOfTen();
    }
    var xd, yd := Field("-", x.day, 2, ""), Field("-", y.day, 2, "");
    var xm, ym := Field("-", x.month, 2, xd), Field("-", y.month, 2, yd);
    LexTrichotomy("", "");
    FieldOrder("-", x.day, y.day, 2, "", "");
    FieldOrder("-", x.month, y.month, 2, xd, yd);
    PowersOfTen();
    PadOrder(x.year, y.year, 4);
    LexConcat(YearText(x.year), xm, YearText(y.year), ym);
  }

  lemma PowersOfTen()
    ensures Pow10(2) == 100 && Pow10(4) == 10_000 && Pow10(9) == 1_000_000_000
  {
    assert Pow10(4) == 100 * Pow10(2);
    assert Pow10(6) == 100 * Pow10(4);
    assert Pow10(8) == 100 * Pow10(6);
  }

  lemma DayFits(c: Civil)
    requires ValidCivil(c)
    ensures c.day < 100
  {
  }

  lemma ClockTextOrder(a: nat, b: nat)
    requires a < DAY_MS && b < DAY_MS
    ensures LexLess(ClockText(a), ClockText(b)) <==> a < b
  {
    hide Field, LexLess;
    PowersOfTen();
    var af, bf := Field(".", a % 1_000 * 1_000_000, 9, ""), Field(".", b % 1_000 * 1_000_000, 9, "");
    var aa, bb := Field(":", a / 1_000 % 60, 2, af), Field(":", b / 1_000 % 60, 2, bf);
    var am, bm := Field(":", a / 60_000 % 60, 2, aa), Field(":", b / 60_000 % 60, 2, bb);
    LexTrichotomy("", "");
    FieldOrder(".", a % 1_000 * 1_000_000, b % 1_000 * 1_000_000, 9, "", "");
    FieldOrder(":", a / 1_000 % 60, b / 1_000 % 60, 2, af, bf);
    FieldOrder(":", a / 60_000 % 60, b / 60_000 % 60, 2, aa, bb);
    FieldOrder("", a / 3_600_000, b / 3_600_000, 2, am, bm);
    ClockOrder(a, b);
  }

  /** Hour, minute, second and millisecond compare as the instant of the day does. */
  lemma ClockOrder(a: nat, b: nat)
    ensures a < b <==>
            || a / 3_600_000 < b / 3_600_000
            || (a / 3_600_000 == b / 3_600_000
                && (a / 60_000 % 60 < b / 60_000 % 60
                    || (a / 60_000 % 60 == b / 60_000 % 60
                        && (a / 1_000 % 60 < b / 1_000 % 60
                            || (a / 1_000 % 60 == b / 1_000 % 60 && a % 1_000 < b % 1_000)))))
  {
    ClockParts(a);
    ClockParts(b);
  }

  lemma ClockParts(a: nat)
    ensures a == 3_600_000 * (a / 3_600_000) + 60_000 * (a / 60_000 % 60) + 1_000 * (a / 1_000 % 60) + a % 1_000
  {
    assert a / 60_000 == (a / 1_000) / 60;
    assert a / 3_600_000 == (a / 60_000) / 60;
  }

  // ---------------------------------------------------------------------------
  // Main results
  // ---------------------------------------------------------------------------

  /** In years 0 to 9999 emit timestamps have one width and sort as strings exactly as the instants do. */
  lemma EventTSOrder(a: int, b: int)
    requires FourDigitYear(a) && FourDigitYear(b)
    ensures |EventTS(a)| == 30
    ensures LexLess(EventTS(a), EventTS(b)) <==> a < b
  {
    hide CivilOf, DateText, ClockText, CivilLess, DayNumber, ValidCivil, LexLess;
    var x, y := CivilOf(DayOf(a)), CivilOf(DayOf(b));
    FourDigitRange(a);
    FourDigitRange(b);
    DateTextOrder(x, y);
    CivilOrder(x, y);
    ClockTextOrder(a % DAY_MS, b % DAY_MS);
    var ca, cb := ClockText(a % DAY_MS), ClockText(b % DAY_MS);
    LexConcat(DateUTC(a), "T" + ca + "Z", DateUTC(b), "T" + cb + "Z");
    LexTrichotomy("T", "T");
    LexTrichotomy("Z", "Z");
    LexConcat("T" + ca, "Z", "T" + cb, "Z");
    LexConcat("T", ca, "T", cb);
  }

  /** Two instants have the same UTC date exactly when they share a UTC day. */
  lemma DateUTCIsTheDay(a: int, b: int)
    requires FourDigitYear(a) && FourDigitYear(b)
    ensures DateUTC(a) == DateUTC(b) <==> a / DAY_MS == b / DAY_MS
  {
    hide CivilOf, DateText, CivilLess, DayNumber, ValidCivil;
    var x, y := CivilOf(DayOf(a)), CivilOf(DayOf(b));
    FourDigitRange(a);
    FourDigitRange(b);
    DateTextOrder(x, y);
    CivilOrder(x, y);
  }

  /** Beyond year 9999 the order is lost: all of years 10000 to 19999 sorts below years 2000 to 9999. */
  lemma FifthDigitSortsEarly(a: int, b: int)
    requires 10_000 <= CivilOf(DayOf(a)).year < 20_000
    requires 2_000 <= CivilOf(DayOf(b)).year < 10_000
    ensures LexLess(EventTS(a), EventTS(b))
  {
    hide CivilOf, Pad, Decimal, Field;
    assert EventTS(a)[0] == YearText(CivilOf(DayOf(a)).year)[0];
    assert EventTS(b)[0] == YearText(CivilOf(DayOf(b)).year)[0];
    LeadingDigit(CivilOf(DayOf(a)).year);
    LeadingDigitOfFour(CivilOf(DayOf(b)).year);
  }

  const YEAR_10000_MS: int := 253_402_300_800_000

  /** The years of the two instants on either side of the end of year 9999. */
  lemma YearsAroundYear10000()
    ensures CivilOf(DayOf(YEAR_10000_MS)).year == 10_000
    ensures CivilOf(DayOf(YEAR_10000_MS - 1)).year == 9_999
  {
    hide CivilOf, YearOf, Leap, MonthStart, DayNumber;
    assert YearStart(9_999) == 3_652_060 && YearStart(10_000) == 3_652_425 && YearStart(10_001) == 3_652_791;
    YearOfCivil(DayOf(YEAR_10000_MS), 10_000);
    YearOfCivil(DayOf(YEAR_10000_MS - 1), 9_999);
  }

  lemma YearOfCivil(d: int, y: int)
    requires YearStart(y) <= d < YearStart(y + 1)
    ensures CivilOf(d).year == y
  {
    hide YearStart;
    YearUnique(d, y);
  }

  ghost predicate TextOrderIsTime(hi: int) {
    forall a, b | 0 <= a <= hi && 0 <= b <= hi :: LexLess(EventTS(a), EventTS(b)) <==> a < b
  }

  /** From 1970 up to an instant the string order is the order in time exactly when that instant lies before year 10000.
      The first millisecond of year 10000 already sorts below the last of year 9999. */
  lemma TextOrderExactly(hi: int)
    requires hi >= 0
    ensures TextOrderIsTime(hi) <==> hi < YEAR_10000_MS
  {
    hide EventTS, LexLess, CivilOf, DayOf;
    if hi < YEAR_10000_MS {
      forall a, b | 0 <= a <= hi && 0 <= b <= hi ensures LexLess(EventTS(a), EventTS(b)) <==> a < b {
        EventTSOrder(a, b);
      }
    } else {
      YearsAroundYear10000();
      FifthDigitSortsEarly(YEAR_10000_MS, YEAR_10000_MS - 1);
    }
  }

  lemma LeadingDigitOfFour(y: nat)
    requires 2_000 <= y < 10_000
    ensures '1' < Pad(y, 4)[0]
  {
    assert Pad(y, 4)[0] == Pad(y / 10, 3)[0] == Pad(y / 100, 2)[0] == Pad(y / 1000, 1)[0];
  }

  lemma LeadingDigit(x: nat)
    requires 10_000 <= x < 20_000
    ensures Decimal(x)[0] == '1'
  {
    assert Decimal(x)[0] == Decimal(x / 10)[0] == Decimal(x / 100)[0];
    assert Decimal(x / 100)[0] == Decimal(x / 1_000)[0] == Decimal(x / 10_000)[0];
  }
}
