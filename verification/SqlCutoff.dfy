/** Instants, their ISO text, and the order SQLite sees when it compares that text. */
module Timestamps {
  /** The UTC fields that `Date.prototype.toISOString` prints. */
  datatype Timestamp =
    Timestamp(year: int, month: int, day: int, hour: int, minute: int, second: int, milli: int)
  {
    predicate Valid() {
      && 1 <= month <= 12
      && 1 <= day <= DaysInMonth(year, month)
      && 0 <= hour < 24 && 0 <= minute < 60 && 0 <= second < 60 && 0 <= milli < 1000
    }
  }

  predicate IsLeapYear(y: int) { y % 4 == 0 && (y % 100 != 0 || y % 400 == 0) }

  function DaysInMonth(y: int, m: int): int
    requires 1 <= m <= 12
  {
    if m == 2 then (if IsLeapYear(y) then 29 else 28)
    else if m == 4 || m == 6 || m == 9 || m == 11 then 30
    else 31
  }

  /** Days from 1 January of year 0 to 1 January of year `y`, in the proleptic Gregorian calendar. */
  function DaysBeforeYear(y: int): int {
    365 * y + (y + 3) / 4 - (y + 99) / 100 + (y + 399) / 400
  }

  function DaysBeforeMonth(y: int, m: int): int
    requires 1 <= m <= 13
  {
    if m == 1 then 0 else DaysBeforeMonth(y, m - 1) + DaysInMonth(y, m - 1)
  }

  function DayNumber(t: Timestamp): int
    requires t.Valid()
  {
    DaysBeforeYear(t.year) + DaysBeforeMonth(t.year, t.month) + t.day - 1
  }

  function MillisOfDay(t: Timestamp): int {
    ((t.hour * 60 + t.minute) * 60 + t.second) * 1000 + t.milli
  }

  const MILLIS_PER_DAY := 86_400_000

  /** Milliseconds since 1970, as `Date.parse` returns them. */
  function Millis(t: Timestamp): int
    requires t.Valid()
  {
    (DayNumber(t) - DaysBeforeYear(1970)) * MILLIS_PER_DAY + MillisOfDay(t)
  }

  function Digit(n: int): char
    requires 0 <= n < 10
  {
    '0' + n as char
  }

  /** The last `width` decimal digits of `n`. */
  function Digits(n: nat, width: nat): (text: string)
    ensures |text| == width
  {
    if width == 0 then "" else Digits(n / 10, width - 1) + [Digit(n % 10)]
  }

  predicate FourDigitYear(t: Timestamp) { 0 <= t.year <= 9999 }

  function YearText(y: int): string {
    if 0 <= y <= 9999 then Digits(y, 4) else if y < 0 then "-" + Digits(-y, 6) else "+" + Digits(y, 6)
  }

  function IsoText(t: Timestamp): string
    requires t.Valid()
  {
    YearText(t.year) + ("-" + (Digits(t.month, 2) + ("-" + (Digits(t.day, 2) + ("T" + (Digits(t.hour, 2) +
    (":" + (Digits(t.minute, 2) + (":" + (Digits(t.second, 2) + ("." + (Digits(t.milli, 3) + "Z"))))))))))))
  }

  /** `a < b` under SQLite's default BINARY collation. */
  predicate TextBefore(a: string, b: string) {
    b != "" && (a == "" || a[0] < b[0] || (a[0] == b[0] && TextBefore(a[1..], b[1..])))
  }

  lemma {:induction false} TextBeforeByParts(p: string, q: string, u: string, v: string)
    requires |p| == |q|
    ensures TextBefore(p + u, q + v) <==> TextBefore(p, q) || (p == q && TextBefore(u, v))
  {
    if p == "" {
      assert p + u == u && q + v == v;
    } else {
      assert (p + u)[1..] == p[1..] + u && (q + v)[1..] == q[1..] + v;
      assert p == [p[0]] + p[1..] && q == [q[0]] + q[1..];
      TextBeforeByParts(p[1..], q[1..], u, v);
    }
  }

  function Power10(width: nat): nat {
    if width == 0 then 1 else 10 * Power10(width - 1)
  }

  /** Fixed-width decimal text is ordered as the numbers are. */
  lemma {:induction false} DigitsOrder(m: nat, n: nat, width: nat)
    requires m < Power10(width) && n < Power10(width)
    ensures TextBefore(Digits(m, width), Digits(n, width)) <==> m < n
    ensures Digits(m, width) == Digits(n, width) <==> m == n
  {
    if width > 0 {
      DigitsOrder(m / 10, n / 10, width - 1);
      var p, q := Digits(m / 10, width - 1), Digits(n / 10, width - 1);
      var u, v := [Digit(m % 10)], [Digit(n % 10)];
      TextBeforeByParts(p, q, u, v);
      assert u[1..] == "" && v[1..] == "";
      assert TextBefore(u, v) <==> m % 10 < n % 10;
      assert (p + u)[..width - 1] == p && (q + v)[..width - 1] == q;
      assert (p + u)[width - 1] == u[0] && (q + v)[width - 1] == v[0];
    }
  }

  /** The printed fields, most significant first. */
  function Fields(t: Timestamp): seq<int> {
    [t.year, t.month, t.day, t.hour, t.minute, t.second, t.milli]
  }

  predicate FieldsBefore(a: seq<int>, b: seq<int>)
    requires |a| == |b|
  {
    a != [] && (a[0] < b[0] || (a[0] == b[0] && FieldsBefore(a[1..], b[1..])))
  }

  function FieldsText(fields: seq<nat>, widths: seq<nat>, marks: string): string
    requires |fields| == |widths| == |marks|
  {
    if fields == [] then ""
    else Digits(fields[0], widths[0]) + ([marks[0]] + FieldsText(fields[1..], widths[1..], marks[1..]))
  }

  lemma {:induction false} FieldsTextOrder(a: seq<nat>, b: seq<nat>, widths: seq<nat>, marks: string)
    requires |a| == |b| == |widths| == |marks|
    requires forall i | 0 <= i < |a| :: a[i] < Power10(widths[i]) && b[i] < Power10(widths[i])
    ensures TextBefore(FieldsText(a, widths, marks), FieldsText(b, widths, marks)) <==> FieldsBefore(a, b)
  {
    if a != [] {
      var restA, restB := FieldsText(a[1..], widths[1..], marks[1..]), FieldsText(b[1..], widths[1..], marks[1..]);
      DigitsOrder(a[0], b[0], widths[0]);
      TextBeforeByParts(Digits(a[0], widths[0]), Digits(b[0], widths[0]), [marks[0]] + restA, [marks[0]] + restB);
      TextBeforeByParts([marks[0]], [marks[0]], restA, restB);
      assert !TextBefore([marks[0]], [marks[0]]);
      FieldsTextOrder(a[1..], b[1..], widths[1..], marks[1..]);
    }
  }

  const WIDTHS: seq<nat> := [4, 2, 2, 2, 2, 2, 3]
  const MARKS := "--T::.Z"

  lemma TimeIsFieldsText(t: Timestamp)
    requires t.Valid()
    ensures FieldsText([t.hour, t.minute, t.second, t.milli], [2, 2, 2, 3], "::.Z")
            == Digits(t.hour, 2) + (":" + (Digits(t.minute, 2) + (":" + (Digits(t.second, 2)
               + ("." + (Digits(t.milli, 3) + "Z"))))))
  {
    assert FieldsText([t.milli], [3], "Z") == Digits(t.milli, 3) + "Z";
    assert FieldsText([t.second, t.milli], [2, 3], ".Z")
           == Digits(t.second, 2) + ("." + FieldsText([t.milli], [3], "Z"));
    assert FieldsText([t.minute, t.second, t.milli], [2, 2, 3], ":.Z")
        == Digits(t.minute, 2) + (":" + FieldsText([t.second, t.milli], [2, 3], ".Z"));
    assert FieldsText([t.hour, t.minute, t.second, t.milli], [2, 2, 2, 3], "::.Z")
        == Digits(t.hour, 2) + (":" + FieldsText([t.minute, t.second, t.milli], [2, 2, 3], ":.Z"));
  }

  lemma IsoTextIsFieldsText(t: Timestamp)
    requires t.Valid() && FourDigitYear(t)
    ensures IsoText(t) == FieldsText(Fields(t), WIDTHS, MARKS)
  {
    var f: seq<nat> := Fields(t);
    var time := FieldsText([t.hour, t.minute, t.second, t.milli], [2, 2, 2, 3], "::.Z");
    TimeIsFieldsText(t);
    assert WIDTHS[1..] == [2, 2, 2, 2, 2, 3] && MARKS[1..] == "-T::.Z";
    assert f[1..] == [t.month, t.day, t.hour, t.minute, t.second, t.milli];
    assert FieldsText([t.day, t.hour, t.minute, t.second, t.milli], [2, 2, 2, 2, 3], "T::.Z")
        == Digits(t.day, 2) + ("T" + time);
    assert FieldsText([t.month, t.day, t.hour, t.minute, t.second, t.milli], [2, 2, 2, 2, 2, 3], "-T::.Z")
        == Digits(t.month, 2)
           + ("-" + FieldsText([t.day, t.hour, t.minute, t.second, t.milli], [2, 2, 2, 2, 3], "T::.Z"));
  }

  lemma PowersOfTen()
    ensures Power10(2) == 100 && Power10(3) == 1000 && Power10(4) == 10000
  {
  }

  lemma IsoTextOrder(a: Timestamp, b: Timestamp)
    requires a.Valid() && b.Valid() && FourDigitYear(a) && FourDigitYear(b)
    ensures TextBefore(IsoText(a), IsoText(b)) <==> FieldsBefore(Fields(a), Fields(b))
  {
    PowersOfTen();
    IsoTextIsFieldsText(a);
    IsoTextIsFieldsText(b);
    FieldsTextOrder(Fields(a), Fields(b), WIDTHS, MARKS);
  }

  lemma MonthsFillYear(y: int)
    ensures DaysBeforeMonth(y, 13) == if IsLeapYear(y) then 366 else 365
  {
    var february := DaysInMonth(y, 2);
    assert DaysBeforeMonth(y, 2) == 31;
    assert DaysBeforeMonth(y, 3) == 31 + february;
    assert DaysBeforeMonth(y, 4) == 62 + february;
    assert DaysBeforeMonth(y, 6) == 123 + february;
    assert DaysBeforeMonth(y, 8) == 184 + february;
    assert DaysBeforeMonth(y, 10) == 245 + february;
    assert DaysBeforeMonth(y, 12) == 306 + february;
  }

  lemma LeapDays(y: int)
    ensures DaysBeforeYear(y + 1) - DaysBeforeYear(y) == if IsLeapYear(y) then 366 else 365
  {
    FourthYears(y);
    HundredthYears(y);
    FourHundredthYears(y);
  }

  lemma FourthYears(y: int)
    ensures (y + 4) / 4 - (y + 3) / 4 == if y % 4 == 0 then 1 else 0
  {
  }

  lemma HundredthYears(y: int)
    ensures (y + 100) / 100 - (y + 99) / 100 == if y % 100 == 0 then 1 else 0
    ensures y % 100 == 0 ==> y % 4 == 0
  {
    var q, r := y / 100, y % 100;
    assert y == 100 * q + r;
  }

  lemma FourHundredthYears(y: int)
    ensures (y + 400) / 400 - (y + 399) / 400 == if y % 400 == 0 then 1 else 0
    ensures y % 400 == 0 ==> y % 100 == 0
  {
    var q, r := y / 400, y % 400;
    assert y == 400 * q + r;
  }

  /** A year's months fill the year exactly. */
  lemma YearLength(y: int)
    ensures DaysBeforeMonth(y, 13) == DaysBeforeYear(y + 1) - DaysBeforeYear(y)
  {
    MonthsFillYear(y);
    LeapDays(y);
  }

  lemma {:induction false} MonthsAreOrdered(y: int, m: int, n: int)
    requires 1 <= m < n <= 13
    ensures DaysBeforeMonth(y, m) + DaysInMonth(y, m) <= DaysBeforeMonth(y, n)
  {
    if m + 1 < n {
      MonthsAreOrdered(y, m, n - 1);
    }
  }

  lemma YearsAreOrdered(y: int, z: int)
    requires y < z
    ensures DaysBeforeYear(y + 1) <= DaysBeforeYear(z)
  {
  }

  /** The day of the year fits in the year. */
  lemma DayFits(t: Timestamp)
    requires t.Valid()
    ensures DaysBeforeYear(t.year) <= DayNumber(t) < DaysBeforeYear(t.year + 1)
  {
    YearLength(t.year);
    MonthsAreOrdered(t.year, t.month, 13);
    if t.month > 1 {
      MonthsAreOrdered(t.year, 1, t.month);
    }
  }

  lemma EarlierDay(a: Timestamp, b: Timestamp)
    requires a.Valid() && b.Valid()
    requires a.year < b.year || (a.year == b.year && (a.month < b.month || (a.month == b.month && a.day < b.day)))
    ensures DayNumber(a) < DayNumber(b)
  {
    if a.year < b.year {
      DayFits(a);
      DayFits(b);
      YearsAreOrdered(a.year, b.year);
    } else if a.month < b.month {
      MonthsAreOrdered(a.year, a.month, b.month);
    }
  }

  lemma EarlierFields(a: Timestamp, b: Timestamp)
    requires a.Valid() && b.Valid()
    requires FieldsBefore(Fields(a), Fields(b))
    ensures Millis(a) < Millis(b)
  {
    UnfoldFieldsBefore(a, b);
    if (a.year, a.month, a.day) == (b.year, b.month, b.day) {
    } else {
      EarlierDay(a, b);
      assert (DayNumber(b) - DayNumber(a)) * MILLIS_PER_DAY >= MILLIS_PER_DAY;
    }
  }

  lemma UnfoldAt(f: seq<int>, g: seq<int>, i: nat)
    requires i < |f| == |g|
    ensures FieldsBefore(f[i..], g[i..]) <==> f[i] < g[i] || (f[i] == g[i] && FieldsBefore(f[i + 1..], g[i + 1..]))
  {
    assert f[i..][1..] == f[i + 1..] && g[i..][1..] == g[i + 1..];
  }

  lemma UnfoldFieldsBefore(a: Timestamp, b: Timestamp)
    ensures FieldsBefore(Fields(a), Fields(b)) <==>
      || a.year < b.year || (a.year == b.year
         && (a.month < b.month || (a.month == b.month
         && (a.day < b.day || (a.day == b.day
         && (a.hour < b.hour || (a.hour == b.hour
         && (a.minute < b.minute || (a.minute == b.minute
         && (a.second < b.second || (a.second == b.second && a.milli < b.milli)))))))))))
  {
    var f, g := Fields(a), Fields(b);
    UnfoldAt(f, g, 0);
    UnfoldAt(f, g, 1);
    UnfoldAt(f, g, 2);
    UnfoldAt(f, g, 3);
    UnfoldAt(f, g, 4);
    UnfoldAt(f, g, 5);
    UnfoldAt(f, g, 6);
    assert f[0..] == f && g[0..] == g;
  }

  lemma FieldsOrderIsChronological(a: Timestamp, b: Timestamp)
    requires a.Valid() && b.Valid()
    ensures FieldsBefore(Fields(a), Fields(b)) <==> Millis(a) < Millis(b)
  {
    UnfoldFieldsBefore(a, b);
    UnfoldFieldsBefore(b, a);
    if FieldsBefore(Fields(a), Fields(b)) {
      EarlierFields(a, b);
    } else if FieldsBefore(Fields(b), Fields(a)) {
      EarlierFields(b, a);
    } else {
      assert a == b;
    }
  }

  lemma YearsFourDigit(t: Timestamp, u: Timestamp)
    requires t.Valid() && u.Valid() && FourDigitYear(t) && !FourDigitYear(u)
    ensures !TextBefore(IsoText(t), IsoText(u))
    ensures Millis(t) < Millis(u) <==> u.year > 9999
  {
    UnfoldFieldsBefore(t, u);
    FieldsOrderIsChronological(t, u);
    PowersOfTen();
    FirstDigit(t.year, 4);
    assert IsoText(t)[0] == Digits(t.year, 4)[0];
    assert IsoText(u)[0] == if u.year < 0 then '-' else '+';
  }

  lemma {:induction false} FirstDigit(n: nat, width: nat)
    requires width > 0
    ensures '0' <= Digits(n, width)[0] <= '9'
  {
    if width > 1 {
      FirstDigit(n / 10, width - 1);
      assert Digits(n, width)[0] == Digits(n / 10, width - 1)[0];
    } else {
      assert Digits(n / 10, 0) == "";
    }
  }

  /** `updated_at < ?` agrees with the clock for every stored row exactly when the cutoff's year is at
      most 9999: past that `toISOString` prints a sign first, and no stored text is below a sign. */
  lemma CutoffTextIsChronological(cutoff: Timestamp)
    requires cutoff.Valid()
    ensures (forall t: Timestamp | t.Valid() && FourDigitYear(t) ::
               TextBefore(IsoText(t), IsoText(cutoff)) <==> Millis(t) < Millis(cutoff))
            <==> cutoff.year <= 9999
  {
    if cutoff.year > 9999 {
      var t := Timestamp(1970, 1, 1, 0, 0, 0, 0);
      YearsFourDigit(t, cutoff);
    } else {
      forall t: Timestamp | t.Valid() && FourDigitYear(t)
        ensures TextBefore(IsoText(t), IsoText(cutoff)) <==> Millis(t) < Millis(cutoff)
      {
        if FourDigitYear(cutoff) {
          IsoTextOrder(t, cutoff);
          FieldsOrderIsChronological(t, cutoff);
        } else {
          YearsFourDigit(t, cutoff);
        }
      }
    }
  }

  lemma {:induction false} YearFrom(days: int, start: int) returns (year: int)
    requires DaysBeforeYear(start) <= days
    ensures DaysBeforeYear(year) <= days < DaysBeforeYear(year + 1)
    decreases days - DaysBeforeYear(start)
  {
    if days < DaysBeforeYear(start + 1) {
      year := start;
    } else {
      year := YearFrom(days, start + 1);
    }
  }

  lemma {:induction false} MonthFrom(year: int, day: int, start: int) returns (month: int)
    requires 1 <= start <= 12 && DaysBeforeMonth(year, start) <= day < DaysBeforeMonth(year, 13)
    ensures 1 <= month <= 12 && 0 <= day - DaysBeforeMonth(year, month) < DaysInMonth(year, month)
    decreases 12 - start
  {
    if day < DaysBeforeMonth(year, start + 1) {
      month := start;
    } else {
      month := MonthFrom(year, day, start + 1);
    }
  }

  lemma SplitDay(rest: int) returns (hour: int, minute: int, second: int, milli: int)
    requires 0 <= rest < MILLIS_PER_DAY
    ensures 0 <= hour < 24 && 0 <= minute < 60 && 0 <= second < 60 && 0 <= milli < 1000
    ensures ((hour * 60 + minute) * 60 + second) * 1000 + milli == rest
  {
    var seconds := rest / 1000;
    var minutes := seconds / 60;
    hour, minute, second, milli := minutes / 60, minutes % 60, seconds % 60, rest % 1000;
  }

  /** The time values of a date lie within this of 1970 (ECMA-262, section 21.4.1.1); beyond,
      `toISOString` throws. */
  const MAX_TIME := 8_640_000_000_000_000

  /** Every millisecond is the instant of some fields, and every time value of a date has a year that the
      six digits of a signed year can print; so a cutoff has the ISO text these lemmas speak of. */
  lemma EveryInstantIsPrinted(ms: int) returns (t: Timestamp)
    ensures t.Valid() && Millis(t) == ms
    ensures -MAX_TIME <= ms <= MAX_TIME ==> -271_821 <= t.year <= 275_760
  {
    var days, rest := ms / MILLIS_PER_DAY + DaysBeforeYear(1970), ms % MILLIS_PER_DAY;
    var year := YearFrom(days, if days >= 0 then 0 else days);
    YearLength(year);
    var dayOfYear := days - DaysBeforeYear(year);
    var month := MonthFrom(year, dayOfYear, 1);
    var hour, minute, second, milli := SplitDay(rest);
    t := Timestamp(year, month, dayOfYear - DaysBeforeMonth(year, month) + 1, hour, minute, second, milli);
    assert DayNumber(t) == days;
    assert MillisOfDay(t) == rest;
    if -MAX_TIME <= ms <= MAX_TIME {
      YearIsPrintable(year, days);
    }
  }

  lemma YearIsPrintable(year: int, days: int)
    requires DaysBeforeYear(year) <= days < DaysBeforeYear(year + 1)
    requires -100_000_000 <= days - DaysBeforeYear(1970) <= 100_000_000
    ensures -271_821 <= year <= 275_760
  {
    assert DaysBeforeYear(275_761) - DaysBeforeYear(1970) > 100_000_000;
    assert DaysBeforeYear(-271_821) - DaysBeforeYear(1970) <= -100_000_000;
    if year > 275_760 {
      YearsAreOrdered(275_760, year);
    } else if year < -271_821 {
      YearsAreOrdered(year, -271_821);
    }
  }

  /** Time starts at the beginning of 1970. */
  lemma EpochIsZero(hour: nat, minute: nat, second: nat, milli: nat)
    requires hour < 24 && minute < 60 && second < 60 && milli < 1000
    ensures var t := Timestamp(1970, 1, 1, hour, minute, second, milli);
            t.Valid() && Millis(t) == hour * 3_600_000 + minute * 60_000 + second * 1000 + milli
  {
  }

  /** A date behind two leap days and thirty years. */
  lemma KnownInstant(t: Timestamp)
    requires t == Timestamp(2000, 3, 1, 0, 0, 0, 0)
    ensures t.Valid() && Millis(t) == 951_868_800_000
  {
    assert DaysBeforeMonth(2000, 2) == 31 && DaysBeforeMonth(2000, 3) == 60;
    assert DaysBeforeYear(2000) - DaysBeforeYear(1970) == 10_957;
  }

  /** The layout of the text: fields of fixed width, with these marks in between. */
  lemma TextLayout(t: Timestamp, text: string)
    requires t.Valid() && FourDigitYear(t) && text == IsoText(t)
    ensures |text| == 24
    ensures text[..4] == Digits(t.year, 4) && text[5..7] == Digits(t.month, 2) && text[8..10] == Digits(t.day, 2)
    ensures text[11..13] == Digits(t.hour, 2) && text[14..16] == Digits(t.minute, 2)
    ensures text[17..19] == Digits(t.second, 2) && text[20..23] == Digits(t.milli, 3)
    ensures text[4] == text[7] == '-' && text[10] == 'T' && text[13] == text[16] == ':'
    ensures text[19] == '.' && text[23] == 'Z'
  {
  }
}
