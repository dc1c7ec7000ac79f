/** What an emit timestamp says (cmd/projector/writer.go): its date by counting days from the epoch, and each of its
    fields by reading the digits back (sections 5.6 and Appendix C of RFC 3339). */
module Dates {
  import opened Text
  import opened Calendar
  import opened Frames

  // ---------------------------------------------------------------------------
  // One day after the other
  // ---------------------------------------------------------------------------

  function MonthLength(y: int, m: int): int {
    if m == 1 then 31
    else if m == 2 then (if y % 4 == 0 && (y % 100 != 0 || y % 400 == 0) then 29 else 28)
    else if m == 3 then 31 else if m == 4 then 30 else if m == 5 then 31 else if m == 6 then 30
    else if m == 7 then 31 else if m == 8 then 31 else if m == 9 then 30 else if m == 10 then 31
    else if m == 11 then 30 else 31
  }

  /** The day after, as one turns the leaves of a Gregorian calendar. */
  function NextDay(c: Civil): Civil {
    if c.day < MonthLength(c.year, c.month) then Civil(c.year, c.month, c.day + 1)
    else if c.month < 12 then Civil(c.year, c.month + 1, 1)
    else Civil(c.year + 1, 1, 1)
  }

  lemma MonthsAgree(y: int, m: int)
    requires 1 <= m <= 12
    ensures MonthStart(Leap(y), m + 1) - MonthStart(Leap(y), m) == MonthLength(y, m)
    ensures MonthStart(Leap(y), 1) == 0 && MonthStart(Leap(y), 13) == if Leap(y) then 366 else 365
  {
  }

  lemma NextDayIsNext(c: Civil)
    requires ValidCivil(c)
    ensures ValidCivil(NextDay(c)) && DayNumber(NextDay(c)) == DayNumber(c) + 1
  {
    hide MonthStart, YearStart, Leap, MonthLength;
    MonthsAgree(c.year, c.month);
    MonthsAgree(c.year, if c.month < 12 then c.month + 1 else 12);
    MonthsAgree(c.year + 1, 1);
    MonthsAreLong(c.year + 1, 1);
    MonthsAreLong(c.year, if c.month < 12 then c.month + 1 else 12);
    YearLength(c.year);
  }

  lemma MonthsAreLong(y: int, m: int)
    ensures MonthLength(y, m) >= 28
  {
  }

  /** The epoch is 1 January 1970. */
  lemma EpochDate()
    ensures CivilOf(DayOf(0)) == Civil(1970, 1, 1)
  {
    hide CivilOf;
    var c := Civil(1970, 1, 1);
    assert ValidCivil(c) && DayNumber(c) == 719_528;
    CivilOrder(CivilOf(EPOCH_DAY), c);
  }

  /** Every day's date is the one that follows the date of the day before. */
  lemma DaysFollow(d: int)
    ensures CivilOf(d + 1) == NextDay(CivilOf(d))
  {
    hide CivilOf, NextDay, ValidCivil, DayNumber;
    NextDayIsNext(CivilOf(d));
    CivilOrder(CivilOf(d + 1), NextDay(CivilOf(d)));
  }

  // ---------------------------------------------------------------------------
  // Reading the digits back
  // ---------------------------------------------------------------------------

  predicate Digits(s: string) {
    forall k | 0 <= k < |s| :: '0' <= s[k] <= '9'
  }

  /** The number some digits stand for. */
  function Number(s: string): int {
    if s == "" then 0 else 10 * Number(Front(s)) + (Last(s) as int - '0' as int)
  }

  lemma {:induction false} PadReads(n: nat, w: nat)
    requires n < Pow10(w)
    ensures Digits(Pad(n, w)) && Number(Pad(n, w)) == n
  {
    if w != 0 {
      PadReads(n / 10, w - 1);
      assert Front(Pad(n, w)) == Pad(n / 10, w - 1);
    }
  }

  /** A number between two characters of a text. */
  ghost predicate Reads(s: string, i: nat, w: nat, n: int) {
    i + w <= |s| && Digits(s[i..i + w]) && Number(s[i..i + w]) == n
  }

  lemma FieldReads(sep: string, n: nat, w: nat, rest: string)
    requires n < Pow10(w)
    ensures var s := Field(sep, n, w, rest); Reads(s, |sep|, w, n) && s[..|sep|] == sep && s[|sep| + w..] == rest
  {
    hide Pad, Number, Pow10;
    PadReads(n, w);
    assert Field(sep, n, w, rest)[|sep|..|sep| + w] == Pad(n, w);
  }

  lemma ReadsLater(a: string, s: string, i: nat, w: nat, n: int)
    requires Reads(s, i, w, n)
    ensures Reads(a + s, |a| + i, w, n)
  {
    assert (a + s)[|a| + i..|a| + i + w] == s[i..i + w];
  }

  lemma ReadsBefore(s: string, b: string, i: nat, w: nat, n: int)
    requires Reads(s, i, w, n)
    ensures Reads(s + b, i, w, n)
  {
    assert (s + b)[i..i + w] == s[i..i + w];
  }

  /** Reading on behind a field. */
  lemma ReadsOn(sep: string, m: nat, v: nat, rest: string, i: nat, w: nat, n: int)
    requires Reads(rest, i, w, n)
    ensures Reads(Field(sep, m, v, rest), |sep| + v + i, w, n)
  {
    ReadsLater(sep + Pad(m, v), rest, i, w, n);
  }

  /** A date text, digit by digit. */
  lemma DateReads(c: Civil)
    requires ValidCivil(c) && 0 <= c.year < 10_000
    ensures var s := DateText(c);
            && |s| == 10 && s[4] == '-' && s[7] == '-'
            && Reads(s, 0, 4, c.year) && Reads(s, 5, 2, c.month) && Reads(s, 8, 2, c.day)
  {
    hide Field, Pad, Reads, Pow10;
    DayFits(c);
    PowersOfTen();
    var day := Field("-", c.day, 2, "");
    var month := Field("-", c.month, 2, day);
    FieldReads("-", c.day, 2, "");
    FieldReads("-", c.month, 2, day);
    FieldReads("", c.year, 4, month);
    ReadsOn("-", c.month, 2, day, 1, 2, c.day);
    assert Field("", c.year, 4, month) == DateText(c) by { YearIsField(c, month); }
    ReadsOn("", c.year, 4, month, 1, 2, c.month);
    ReadsOn("", c.year, 4, month, 4, 2, c.day);
    assert month[..1] == "-" && month[3..] == day && day[..1] == "-";
    assert DateText(c)[4..] == month;
  }

  lemma YearIsField(c: Civil, month: string)
    requires ValidCivil(c) && 0 <= c.year < 10_000 && month == Field("-", c.month, 2, Field("-", c.day, 2, ""))
    ensures Field("", c.year, 4, month) == DateText(c)
  {
    hide Pad, Decimal;
    assert "" + Pad(c.year, 4) + month == Pad(c.year, 4) + month;
  }

  /** A clock text, digit by digit. */
  lemma ClockReads(tod: nat)
    requires tod < DAY_MS
    ensures var s := ClockText(tod);
            && s[2] == ':' && s[5] == ':' && s[8] == '.'
            && Reads(s, 0, 2, tod / 3_600_000) && Reads(s, 3, 2, tod / 60_000 % 60) && Reads(s, 6, 2, tod / 1_000 % 60)
            && Reads(s, 9, 9, tod % 1_000 * 1_000_000)
  {
    hide Field, Pad, Reads, Pow10;
    PowersOfTen();
    var f := Field(".", tod % 1_000 * 1_000_000, 9, "");
    var s := Field(":", tod / 1_000 % 60, 2, f);
    var m := Field(":", tod / 60_000 % 60, 2, s);
    FieldReads(".", tod % 1_000 * 1_000_000, 9, "");
    FieldReads(":", tod / 1_000 % 60, 2, f);
    FieldReads(":", tod / 60_000 % 60, 2, s);
    FieldReads("", tod / 3_600_000, 2, m);
    ReadsOn(":", tod / 1_000 % 60, 2, f, 1, 9, tod % 1_000 * 1_000_000);
    ReadsOn(":", tod / 60_000 % 60, 2, s, 4, 9, tod % 1_000 * 1_000_000);
    ReadsOn(":", tod / 60_000 % 60, 2, s, 1, 2, tod / 1_000 % 60);
    ReadsOn("", tod / 3_600_000, 2, m, 7, 9, tod % 1_000 * 1_000_000);
    ReadsOn("", tod / 3_600_000, 2, m, 4, 2, tod / 1_000 % 60);
    ReadsOn("", tod / 3_600_000, 2, m, 1, 2, tod / 60_000 % 60);
    var all := ClockText(tod);
    assert all[2..] == m && m[3..] == s && s[3..] == f;
    assert all[2] == m[..1][0] && all[5] == s[..1][0] && all[8] == f[..1][0];
  }

  /** The layout `YYYY-MM-DDTHH:MM:SS.nnnnnnnnnZ`. */
  ghost predicate LaidOut(s: string) {
    && |s| == 30 && s[4] == '-' && s[7] == '-' && s[10] == 'T' && s[13] == ':' && s[16] == ':' && s[19] == '.'
    && s[29] == 'Z' && Digits(s[0..4]) && Digits(s[5..7]) && Digits(s[8..10]) && Digits(s[11..13])
    && Digits(s[14..16]) && Digits(s[17..19]) && Digits(s[20..29])
  }

  /** In years 0 to 9999 an emit timestamp reads back as the instant it was made from: the date of its day, counted from
      the epoch's, and its hours, minutes, seconds and nanoseconds. */
  lemma EventTSReads(ms: int)
    requires FourDigitYear(ms)
    ensures var s := EventTS(ms);
            && LaidOut(s)
            && CivilOf(DayOf(0) + ms / 86_400_000) == Civil(Number(s[0..4]), Number(s[5..7]), Number(s[8..10]))
            && 0 <= Number(s[14..16]) < 60 && 0 <= Number(s[17..19]) < 60 && 0 <= Number(s[20..29]) < 1_000_000_000
            && ms % 86_400_000 * 1_000_000
               == ((Number(s[11..13]) * 60 + Number(s[14..16])) * 60 + Number(s[17..19])) * 1_000_000_000
                  + Number(s[20..29])
  {
    hide CivilOf, DateText, ClockText, Number, Digits;
    var c, tod := CivilOf(DayOf(ms)), ms % DAY_MS;
    FourDigitRange(ms);
    DateReads(c);
    ClockReads(tod);
    ClockParts(tod);
    AllReads(DateText(c), ClockText(tod), c, tod);
    assert EventTS(ms) == DateText(c) + ("T" + ClockText(tod) + "Z");
  }

  lemma AllReads(date: string, clock: string, c: Civil, tod: nat)
    requires |date| == 10 && |clock| == 18
    requires Reads(date, 0, 4, c.year) && Reads(date, 5, 2, c.month) && Reads(date, 8, 2, c.day)
    requires Reads(clock, 0, 2, tod / 3_600_000) && Reads(clock, 3, 2, tod / 60_000 % 60)
    requires Reads(clock, 6, 2, tod / 1_000 % 60) && Reads(clock, 9, 9, tod % 1_000 * 1_000_000)
    ensures var s := date + ("T" + clock + "Z");
            && Reads(s, 0, 4, c.year) && Reads(s, 5, 2, c.month) && Reads(s, 8, 2, c.day)
            && Reads(s, 11, 2, tod / 3_600_000) && Reads(s, 14, 2, tod / 60_000 % 60)
            && Reads(s, 17, 2, tod / 1_000 % 60) && Reads(s, 20, 9, tod % 1_000 * 1_000_000)
  {
    hide Reads;
    var tail := "T" + clock + "Z";
    var s, head := date + tail, date + "T";
    assert s == head + (clock + "Z");
    ReadsBefore(date, tail, 0, 4, c.year);
    ReadsBefore(date, tail, 5, 2, c.month);
    ReadsBefore(date, tail, 8, 2, c.day);
    ReadsBefore(clock, "Z", 0, 2, tod / 3_600_000);
    ReadsBefore(clock, "Z", 3, 2, tod / 60_000 % 60);
    ReadsBefore(clock, "Z", 6, 2, tod / 1_000 % 60);
    ReadsBefore(clock, "Z", 9, 9, tod % 1_000 * 1_000_000);
    ReadsLater(head, clock + "Z", 0, 2, tod / 3_600_000);
    ReadsLater(head, clock + "Z", 3, 2, tod / 60_000 % 60);
    ReadsLater(head, clock + "Z", 6, 2, tod / 1_000 % 60);
    ReadsLater(head, clock + "Z", 9, 9, tod % 1_000 * 1_000_000);
  }
}
